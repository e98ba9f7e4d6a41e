/**
 * The business logic of the desktop dashboard (n6_ocrmedical/src/app_ver3.py):
 * the file size as the list shows it, the greeting chosen by the hour, and
 * the numbered file list with its history and its total.
 */
module Dashboard {
  import opened Wrappers
  import opened Ordering
  import opened Text

  // ---------------------------------------------------------------------
  // File sizes.
  // ---------------------------------------------------------------------

  const KiB: nat := 1024
  const MiB: nat := 1024 * 1024

  /**
   * `human_size` (lines 52-69). `size` is what `os.path.getsize` returns, or
   * None when it raises. Below 10 MiB a size of at least 1 MiB is shown with
   * one decimal, a floating-point rendering that is an input here:
   * `oneDecimal(n)` is the text of `f"{n / 2**20:.1f}"`.
   */
  function HumanSize(size: Option<nat>, oneDecimal: nat -> string): string
  {
    match size
    case None => "--"
    case Some(n) =>
      if n < KiB then "1 KB"
      else if n / KiB < 1024 then NatToString(n / KiB) + " KB"
      else if n < 10 * MiB then oneDecimal(n) + " MB"
      else NatToString(n / MiB) + " MB"
  }

  /** Reads a size text `"<digits> KB"` or `"<digits> MB"` back as an amount and a unit in bytes. */
  function ReadSize(s: string): Option<(nat, nat)>
  {
    if |s| < 4 then None
    else
      var digits, unit := s[..|s| - 3], s[|s| - 3..];
      if !(forall i :: 0 <= i < |digits| ==> IsDigit(digits[i])) then None
      else if unit == " KB" then Some((ParseNat(digits), KiB))
      else if unit == " MB" then Some((ParseNat(digits), MiB))
      else None
  }

  lemma ReadSizeOf(k: nat, unit: string)
    requires unit == " KB" || unit == " MB"
    ensures ReadSize(NatToString(k) + unit) == Some((ParseNat(NatToString(k)), if unit == " KB" then KiB else MiB))
  {
    var s := NatToString(k) + unit;
    assert s[..|s| - 3] == NatToString(k);
    assert s[|s| - 3..] == unit;
  }

  /**
   * Outside the one-decimal range the size is shown as a whole number of
   * units, rounded down: in KB below 1 MiB, in MB from 10 MiB on, and as
   * `1 KB` for anything under 1 KiB, including an empty file.
   */
  lemma HumanSizeRoundsDown(n: nat, oneDecimal: nat -> string)
    requires n < MiB || n >= 10 * MiB
    ensures var r := ReadSize(HumanSize(Some(n), oneDecimal));
            && r.Some?
            && r.value.1 == (if n < MiB then KiB else MiB)
            && n < (r.value.0 + 1) * r.value.1
            && (n >= KiB ==> r.value.0 * r.value.1 <= n)
            && (n < KiB ==> r.value.0 == 1)
  {
    if n < KiB {
      assert HumanSize(Some(n), oneDecimal) == NatToString(1) + " KB";
      ReadSizeOf(1, " KB");
      ParseNatToString(1);
    } else if n < MiB {
      ReadSizeOf(n / KiB, " KB");
      ParseNatToString(n / KiB);
    } else {
      ReadSizeOf(n / MiB, " MB");
      ParseNatToString(n / MiB);
    }
  }

  /** A size that cannot be read is shown as `--`, which no size text is. */
  lemma HumanSizeUnknown(size: Option<nat>, oneDecimal: nat -> string)
    ensures HumanSize(size, oneDecimal) == "--" <==> size.None?
  {
    if size.Some? {
      var s := HumanSize(size, oneDecimal);
      assert s[|s| - 1] == 'B';
    }
  }

  // ---------------------------------------------------------------------
  // Greeting.
  // ---------------------------------------------------------------------

  datatype DayPart = Morning | Afternoon | Evening | Night

  /** The bucket choice of `update_greeting` (lines 469-477) for an hour of the day. */
  function GreetingFor(hour: int): DayPart
  {
    if 5 <= hour <= 11 then Morning
    else if 12 <= hour <= 16 then Afternoon
    else if 17 <= hour <= 21 then Evening
    else Night
  }

  /** The first line of the greeting for each part of the day. */
  function GreetingText(p: DayPart): string
  {
    match p
    case Morning => "Good morning,"
    case Afternoon => "Good afternoon,"
    case Evening => "Good evening,"
    case Night => "Good night,"
  }

  /**
   * The four buckets partition the day into the runs 5-11, 12-16, 17-21 and
   * the night, which wraps around midnight; the greeting changes exactly at
   * 5, 12, 17 and 22 o'clock.
   */
  lemma GreetingBuckets(hour: int)
    requires 0 <= hour < 24
    ensures GreetingFor(hour) == Morning <==> 5 <= hour < 12
    ensures GreetingFor(hour) == Afternoon <==> 12 <= hour < 17
    ensures GreetingFor(hour) == Evening <==> 17 <= hour < 22
    ensures GreetingFor(hour) == Night <==> hour < 5 || 22 <= hour
    ensures GreetingFor((hour + 1) % 24) != GreetingFor(hour) <==> hour + 1 == 5 || hour + 1 == 12 || hour + 1 == 17 || hour + 1 == 22
  {
  }

  /** Each greeting names its part of the day: different parts greet differently. */
  lemma GreetingTextDistinct(p: DayPart, q: DayPart)
    ensures GreetingText(p) == GreetingText(q) <==> p == q
  {
    if p != q {
      assert GreetingText(p)[5] != GreetingText(q)[5] || |GreetingText(p)| != |GreetingText(q)|;
    }
  }

  // ---------------------------------------------------------------------
  // The file list.
  // ---------------------------------------------------------------------

  /** One line of the upload list: number, name, size text and status. */
  datatype Row = Row(index: nat, name: string, size: string, status: string)

  /** One line of the history panel: the name (before eliding to the panel's width) and the size text. */
  datatype HistoryEntry = HistoryEntry(name: string, size: string)

  /** What `os.path.isdir` and `os.listdir` report: each entry's name and whether it is a file. */
  datatype Folder = NotADirectory | Unreadable | Listing(entries: seq<(string, bool)>)

  /** The label under the list. */
  function TotalLabel(n: nat): string
  {
    "Total files: " + NatToString(n)
  }

  /** `os.path.join` for a directory and a name without separators. */
  function Join(folder: string, name: string): string
  {
    if |folder| > 0 && folder[|folder| - 1] == '/' then folder + name else folder + "/" + name
  }

  /** `os.path.basename`: what follows the last `/`. */
  function Basename(path: string): (b: string)
    ensures '/' !in b
    ensures |b| <= |path|
  {
    if path == [] then []
    else if path[|path| - 1] == '/' then []
    else Basename(path[..|path| - 1]) + [path[|path| - 1]]
  }

  /** The base name of a path joined from a folder and a plain name is that name. */
  lemma {:induction false} BasenameOfJoin(folder: string, name: string)
    requires '/' !in name
    ensures Basename(Join(folder, name)) == name
  {
    var p := Join(folder, name);
    var dir := if |folder| > 0 && folder[|folder| - 1] == '/' then folder else folder + "/";
    assert p == dir + name && |dir| > 0 && dir[|dir| - 1] == '/';
    BasenameAfter(dir, name);
  }

  lemma {:induction false} BasenameAfter(dir: string, name: string)
    requires |dir| > 0 && dir[|dir| - 1] == '/' && '/' !in name
    ensures Basename(dir + name) == name
    decreases |name|
  {
    if name == [] {
      assert dir + name == dir;
    } else {
      var init := name[..|name| - 1];
      BasenameAfter(dir, init);
      assert (dir + name)[..|dir + name| - 1] == dir + init;
      assert name == init + [name[|name| - 1]];
    }
  }

  /** The name shown for a dropped or chosen path: its base name, or `Unnamed` for an empty path. */
  function DisplayName(path: string): string
  {
    if path == [] then "Unnamed" else Basename(path)
  }

  /** The files of a listing, as `(name, full path)` in listing order. */
  function FilesIn(folderPath: string, entries: seq<(string, bool)>): (fs: seq<(string, string)>)
    ensures |fs| <= |entries|
  {
    if entries == [] then []
    else
      var last := entries[|entries| - 1];
      FilesIn(folderPath, entries[..|entries| - 1])
        + if last.1 then [(last.0, Join(folderPath, last.0))] else []
  }

  /** The sort key of line 513: the lower-cased name. */
  function NameKey(e: (string, string)): string
  {
    Lower(e.0)
  }

  /** The files `populate_from_directory` lists, in the order it lists them. */
  function Listed(folderPath: string, folder: Folder): seq<(string, string)>
  {
    if folderPath == [] || !folder.Listing? then []
    else SortBy(FilesIn(folderPath, folder.entries), NameKey, StringLe)
  }

  /**
   * The listed files are the folder's files, each once, in order of their
   * lower-cased names; files whose names differ only in case keep the
   * order the folder listed them in. A missing path or a path that is not a
   * readable directory lists nothing.
   */
  lemma ListedOrder(folderPath: string, folder: Folder)
    ensures folderPath == [] || !folder.Listing? ==> Listed(folderPath, folder) == []
    ensures folderPath != [] && folder.Listing? ==>
              var fs := FilesIn(folderPath, folder.entries);
              && multiset(Listed(folderPath, folder)) == multiset(fs)
              && SortedBy(Listed(folderPath, folder), NameKey, StringLe)
              && forall k :: KeyFilter(Listed(folderPath, folder), NameKey, k) == KeyFilter(fs, NameKey, k)
  {
    if folderPath != [] && folder.Listing? {
      var fs := FilesIn(folderPath, folder.entries);
      StringLeIsTotalOrder();
      SortByPermutes(fs, NameKey, StringLe);
      SortBySorted(fs, NameKey, StringLe);
      forall k {
        SortByStable(fs, NameKey, StringLe, k);
      }
    }
  }

  /** The rows for `entries` numbered from `first`, with each file's size text. */
  function NewRows(entries: seq<(string, string)>, first: nat, sizeOf: string -> Option<nat>,
                   oneDecimal: nat -> string): (rs: seq<Row>)
    ensures |rs| == |entries|
    ensures forall i :: 0 <= i < |entries| ==>
              rs[i] == Row(first + i, entries[i].0, HumanSize(sizeOf(entries[i].1), oneDecimal), "Ready")
  {
    seq(|entries|, i requires 0 <= i < |entries| =>
      Row(first + i, entries[i].0, HumanSize(sizeOf(entries[i].1), oneDecimal), "Ready"))
  }

  /** The `(name, path)` pairs `add_files` appends for the given paths. */
  function Dropped(files: seq<string>): (es: seq<(string, string)>)
    ensures |es| == |files|
    ensures forall i :: 0 <= i < |files| ==> es[i] == (DisplayName(files[i]), files[i])
  {
    seq(|files|, i requires 0 <= i < |files| => (DisplayName(files[i]), files[i]))
  }

  /**
   * The file list of the dashboard with its history panel and its total
   * label. Sizes are read through `sizeOf` (`os.path.getsize`, None when it
   * raises).
   */
  class FileListPanel {
    var rows: seq<Row>
    var history: seq<HistoryEntry>
    var totalLabel: string

    /** Rows are numbered 1, 2, ... in list order, each has its history line, and the total counts them. */
    ghost predicate Valid()
      reads this
    {
      && (forall i :: 0 <= i < |rows| ==> rows[i].index == i + 1)
      && |history| == |rows|
      && (forall i :: 0 <= i < |rows| ==> history[i] == HistoryEntry(rows[i].name, rows[i].size))
      && totalLabel == TotalLabel(|rows|)
    }

    constructor()
      ensures rows == [] && history == [] && totalLabel == "Total files: 0"
      ensures Valid()
    {
      rows := [];
      history := [];
      totalLabel := "Total files: 0";
    }

    /** `_append_file_item` (lines 529-543): one row and one history line. */
    method AppendFileItem(idx: nat, name: string, path: string, sizeOf: string -> Option<nat>,
                          oneDecimal: nat -> string)
      modifies this
      ensures var size := HumanSize(sizeOf(path), oneDecimal);
              && rows == old(rows) + [Row(idx, name, size, "Ready")]
              && history == old(history) + [HistoryEntry(name, size)]
              && totalLabel == old(totalLabel)
    {
      var size := HumanSize(sizeOf(path), oneDecimal);
      rows := rows + [Row(idx, name, size, "Ready")];
      history := history + [HistoryEntry(name, size)];
    }

    /** `_update_total_label` (lines 545-546). */
    method UpdateTotalLabel()
      modifies this
      ensures rows == old(rows) && history == old(history)
      ensures totalLabel == TotalLabel(|rows|)
    {
      totalLabel := TotalLabel(|rows|);
    }

    /** Appends a numbered row for each entry, numbering on from the current count. */
    method AppendAll(entries: seq<(string, string)>, sizeOf: string -> Option<nat>, oneDecimal: nat -> string)
      modifies this
      requires |history| == |rows|
      requires forall i :: 0 <= i < |rows| ==> rows[i].index == i + 1
      requires forall i :: 0 <= i < |rows| ==> history[i] == HistoryEntry(rows[i].name, rows[i].size)
      ensures rows == old(rows) + NewRows(entries, |old(rows)| + 1, sizeOf, oneDecimal)
      ensures |history| == |rows|
      ensures forall i :: 0 <= i < |rows| ==> rows[i].index == i + 1
      ensures forall i :: 0 <= i < |rows| ==> history[i] == HistoryEntry(rows[i].name, rows[i].size)
      ensures totalLabel == old(totalLabel)
    {
      ghost var before := rows;
      var i := 0;
      while i < |entries|
        invariant 0 <= i <= |entries|
        invariant rows == before + NewRows(entries[..i], |before| + 1, sizeOf, oneDecimal)
        invariant |history| == |rows|
        invariant forall j :: 0 <= j < |rows| ==> rows[j].index == j + 1
        invariant forall j :: 0 <= j < |rows| ==> history[j] == HistoryEntry(rows[j].name, rows[j].size)
        invariant totalLabel == old(totalLabel)
      {
        var (name, path) := entries[i];
        AppendFileItem(|rows| + 1, name, path, sizeOf, oneDecimal);
        assert NewRows(entries[..i + 1], |before| + 1, sizeOf, oneDecimal)
            == NewRows(entries[..i], |before| + 1, sizeOf, oneDecimal)
               + [Row(|before| + 1 + i, name, HumanSize(sizeOf(path), oneDecimal), "Ready")];
        i := i + 1;
      }
      assert entries[..|entries|] == entries;
    }

    /**
     * `populate_from_directory` (lines 494-518): the list and the history are
     * cleared, then the folder's files are listed by lower-cased name and
     * numbered from 1.
     */
    method PopulateFromDirectory(folderPath: string, folder: Folder, sizeOf: string -> Option<nat>,
                                 oneDecimal: nat -> string)
      modifies this
      ensures rows == NewRows(Listed(folderPath, folder), 1, sizeOf, oneDecimal)
      ensures Valid()
    {
      rows := [];
      history := [];
      if folderPath == [] || !folder.Listing? {
        UpdateTotalLabel();
        return;
      }
      var entries := FilesIn(folderPath, folder.entries);
      entries := SortBy(entries, NameKey, StringLe);
      AppendAll(entries, sizeOf, oneDecimal);
      UpdateTotalLabel();
    }

    /**
     * `add_files` (lines 520-525): each path is appended under its base name,
     * or `Unnamed` when empty, numbered on from the current count.
     */
    method AddFiles(files: seq<string>, sizeOf: string -> Option<nat>, oneDecimal: nat -> string)
      modifies this
      requires Valid()
      ensures rows == old(rows) + NewRows(Dropped(files), |old(rows)| + 1, sizeOf, oneDecimal)
      ensures Valid()
    {
      AppendAll(Dropped(files), sizeOf, oneDecimal);
      UpdateTotalLabel();
    }
  }
}
