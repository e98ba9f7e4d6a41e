/**
 * The assembly loop of BV/test5.py (lines 248-271): every grouped line is
 * read box by box, the non-empty texts are joined with a space wherever
 * `_need_space` asks for one, and each line that produced any text becomes
 * one normalised paragraph. A box on whose crop the cropping, the resize or
 * the enhancement raises (a refused crop) ends the script before any
 * paragraph is printed.
 */
module Assembly {
  import opened Wrappers
  import opened Ordering
  import opened Geometry
  import opened LineGrouping
  import opened Punctuation

  /**
   * The recognizer applied to the resized, enhanced crop of a pixel box
   * (lines 261-264); `None` stands for an exception `predict` raised, which
   * the `try` turns into `""`.
   */
  type Recognizer = PixelBox -> Option<string>

  /**
   * Line 259: the crop is resized to height 64 and width
   * `int(cw * (64 / max(1, ch)))`.
   */
  function ResizedWidth(b: PixelBox): int
  {
    Trunc((b.x2 - b.x1) as real * (64.0 / MaxInt(1, b.y2 - b.y1) as real))
  }

  /**
   * Lines 256-260 run outside the `try`: cropping raises when the right side
   * is left of the left side or the lower side above the upper side, and
   * when the new width is below 1 the resize or, if the size is unchanged and
   * the resize returns a copy, the enhancement of the empty image raises.
   * Each exception ends the script.
   */
  predicate CropFails(b: PixelBox)
  {
    b.x2 < b.x1 || b.y2 < b.y1 || ResizedWidth(b) < 1
  }

  /**
   * A crop fails exactly when it is inverted or when 64 times its width is
   * less than its height (taken as at least 1).
   */
  lemma CropFailsCases(b: PixelBox)
    ensures CropFails(b) <==> b.x2 < b.x1 || b.y2 < b.y1 || 64 * (b.x2 - b.x1) < MaxInt(1, b.y2 - b.y1)
  {
    var cw, d := b.x2 - b.x1, MaxInt(1, b.y2 - b.y1);
    if cw >= 0 {
      var x := cw as real * (64.0 / d as real);
      assert x * d as real == (64 * cw) as real;
      assert x < 1.0 <==> 64 * cw < d;
    }
  }

  /** The crop of one detector box: its clamped pixel box, padded (lines 253-255). */
  function CropBox(q: Quad, w: int, h: int): PixelBox
  {
    PadBox(QuadToBBox(q, w, h), w, h, PadYRatio, PadXRatio)
  }

  /** The crop the script takes of every box of a `w` by `h` image. */
  function Cropper(w: int, h: int): Quad -> PixelBox
  {
    q => CropBox(q, w, h)
  }

  /** Lines 261-264: the text read from one box, `""` when the recognizer fails. */
  function BoxText(rec: Recognizer, crop: Quad -> PixelBox, q: Quad): string
  {
    rec(crop(q)).GetOr("")
  }

  /** What one line's boxes read: each member's axis box with the text of its crop. */
  type Reading = (ABox, string)

  function Readings(items: seq<Item>, rec: Recognizer, crop: Quad -> PixelBox): (rs: seq<Reading>)
    ensures |rs| == |items|
  {
    if items == [] then []
    else [(items[0].0, BoxText(rec, crop, items[0].1))] + Readings(items[1..], rec, crop)
  }

  /** The `j`-th reading is the `j`-th member's axis box with the text of its crop. */
  lemma {:induction false} ReadingAt(items: seq<Item>, rec: Recognizer, crop: Quad -> PixelBox, j: nat)
    requires j < |items|
    ensures Readings(items, rec, crop)[j] == (items[j].0, BoxText(rec, crop, items[j].1))
  {
    if j > 0 {
      ReadingAt(items[1..], rec, crop, j - 1);
    }
  }

  /** The state of the inner loop: `line_tokens` and `prev_ab`. */
  datatype Acc = Acc(tokens: seq<string>, prev: Option<ABox>)

  /** Lines 264-268 for one box whose text is `txt`. */
  function Step(acc: Acc, ab: ABox, txt: string): Acc
  {
    if txt == "" then acc
    else
      var sep := if acc.prev.Some? && NeedSpace(acc.prev.value, ab) then [" "] else [];
      Acc(acc.tokens + sep + [txt], Some(ab))
  }

  /** The inner loop run over `rs`, starting from no tokens and no previous box. */
  function Tokens(rs: seq<Reading>): Acc
  {
    if rs == [] then Acc([], None)
    else Step(Tokens(rs[..|rs| - 1]), rs[|rs| - 1].0, rs[|rs| - 1].1)
  }

  /** `"".join(ss)`. */
  function Concat(ss: seq<string>): string
  {
    if ss == [] then "" else Concat(ss[..|ss| - 1]) + ss[|ss| - 1]
  }

  /** The tokens one line yields. */
  function LineTokens(ln: Line, rec: Recognizer, crop: Quad -> PixelBox): seq<string>
  {
    Tokens(Readings(Members(ln), rec, crop)).tokens
  }

  /** What one line adds to `final_paragraphs`: nothing when it gave no token, else its normalised text. */
  function Emitted(tokens: seq<string>): seq<string>
  {
    if tokens == [] then [] else [SmartPunct(Concat(tokens))]
  }

  /** What `final_paragraphs` holds once `lines` have been visited. */
  function Paragraphs(lines: seq<Line>, rec: Recognizer, crop: Quad -> PixelBox): seq<string>
  {
    if lines == [] then []
    else
      Paragraphs(lines[..|lines| - 1], rec, crop) + Emitted(LineTokens(lines[|lines| - 1], rec, crop))
  }

  // ---------------------------------------------------------------------
  // A reference definition of one line's text.
  // ---------------------------------------------------------------------

  /** The readings whose text is not empty, in member order. */
  function Kept(rs: seq<Reading>): (ks: seq<Reading>)
    ensures |ks| <= |rs|
    ensures forall i :: 0 <= i < |ks| ==> ks[i].1 != "" && ks[i] in rs
  {
    if rs == [] then []
    else Kept(rs[..|rs| - 1]) + if rs[|rs| - 1].1 == "" then [] else [rs[|rs| - 1]]
  }

  /** The texts in order, one space between two neighbours exactly when `NeedSpace` holds for their boxes. */
  function Spaced(ks: seq<Reading>): string
  {
    if ks == [] then ""
    else if |ks| == 1 then ks[0].1
    else
      var n := |ks|;
      Spaced(ks[..n - 1]) + (if NeedSpace(ks[n - 2].0, ks[n - 1].0) then " " else "") + ks[n - 1].1
  }

  /** The loop state agrees with the kept readings `ks`. */
  ghost predicate Agrees(acc: Acc, ks: seq<Reading>)
  {
    && Concat(acc.tokens) == Spaced(ks)
    && acc.prev == (if ks == [] then None else Some(ks[|ks| - 1].0))
    && (acc.tokens == [] <==> ks == [])
    && (acc.tokens != [] ==> acc.tokens[0] == ks[0].1)
    && forall i :: 0 <= i < |acc.tokens| ==> acc.tokens[i] != ""
  }

  /** One kept reading extends an agreeing state to an agreeing state. */
  lemma StepAgrees(acc: Acc, ks: seq<Reading>, ab: ABox, t: string)
    requires Agrees(acc, ks) && t != ""
    ensures Agrees(Step(acc, ab, t), ks + [(ab, t)])
  {
    var sep := if acc.prev.Some? && NeedSpace(acc.prev.value, ab) then [" "] else [];
    var ks' := ks + [(ab, t)];
    assert Step(acc, ab, t).tokens == (acc.tokens + sep) + [t];
    ConcatSnoc(acc.tokens + sep, t);
    assert ks'[..|ks'| - 1] == ks;
    if ks != [] {
      assert ks'[0] == ks[0];
      assert ks'[|ks'| - 2] == ks[|ks| - 1];
      if sep == [] {
        assert acc.tokens + sep == acc.tokens;
      } else {
        ConcatSnoc(acc.tokens, " ");
      }
      assert Concat(acc.tokens + sep) == Spaced(ks) + (if NeedSpace(ks[|ks| - 1].0, ab) then " " else "");
    } else {
      assert acc.tokens + sep == [];
      assert Concat([]) == "";
    }
  }

  /**
   * The inner loop joins the non-empty texts as `Spaced` does: spacing is
   * judged against the last box that gave text, an empty text is skipped
   * without becoming `prev_ab`, every token is non-empty, and the first token
   * is the first text, never a space.
   */
  lemma {:induction false} TokensAreSpaced(rs: seq<Reading>)
    ensures Agrees(Tokens(rs), Kept(rs))
  {
    if rs != [] {
      var init, last := rs[..|rs| - 1], rs[|rs| - 1];
      TokensAreSpaced(init);
      if last.1 != "" {
        StepAgrees(Tokens(init), Kept(init), last.0, last.1);
        assert Kept(rs) == Kept(init) + [last];
      } else {
        assert Kept(rs) == Kept(init) + [];
        assert Kept(init) + [] == Kept(init);
      }
    }
  }

  lemma TokensSnoc(rs: seq<Reading>, j: nat)
    requires j < |rs|
    ensures Tokens(rs[..j + 1]) == Step(Tokens(rs[..j]), rs[j].0, rs[j].1)
  {
    PrefixGrow(rs, j);
  }

  lemma ConcatSnoc(ss: seq<string>, s: string)
    ensures Concat(ss + [s]) == Concat(ss) + s
  {
    assert (ss + [s])[..|ss|] == ss;
  }

  // ---------------------------------------------------------------------
  // Properties of the paragraph list.
  // ---------------------------------------------------------------------

  /** The paragraph a single line contributes: none when no box gave text. */
  function LineParagraph(ln: Line, rec: Recognizer, crop: Quad -> PixelBox): seq<string>
  {
    var ks := Kept(Readings(Members(ln), rec, crop));
    if ks == [] then [] else [SmartPunct(Spaced(ks))]
  }

  /** One line's contribution to `Paragraphs` is `LineParagraph`. */
  lemma LineParagraphAgrees(ln: Line, rec: Recognizer, crop: Quad -> PixelBox)
    ensures LineParagraph(ln, rec, crop) == Emitted(LineTokens(ln, rec, crop))
  {
    TokensAreSpaced(Readings(Members(ln), rec, crop));
  }

  /**
   * Output follows line order: the paragraphs of `lines` are those of each
   * line in turn, and a line without text contributes nothing.
   */
  lemma {:induction false} ParagraphsByLine(lines: seq<Line>, rec: Recognizer, crop: Quad -> PixelBox)
    ensures Paragraphs(lines, rec, crop) == Flatten(lines, ln => LineParagraph(ln, rec, crop))
  {
    var f := ln => LineParagraph(ln, rec, crop);
    if lines != [] {
      var init, last := lines[..|lines| - 1], lines[|lines| - 1];
      ParagraphsByLine(init, rec, crop);
      LineParagraphAgrees(last, rec, crop);
      SplitLast(lines);
      FlattenSnoc(init, last, f);
      assert f(last) == LineParagraph(last, rec, crop);
    }
  }

  /** At most one paragraph per line. */
  lemma {:induction false} ParagraphsBound(lines: seq<Line>, rec: Recognizer, crop: Quad -> PixelBox)
    ensures |Paragraphs(lines, rec, crop)| <= |lines|
  {
    if lines != [] {
      ParagraphsBound(lines[..|lines| - 1], rec, crop);
    }
  }

  lemma ParagraphsSnoc(lines: seq<Line>, k: nat, rec: Recognizer, crop: Quad -> PixelBox)
    requires k < |lines|
    ensures Paragraphs(lines[..k + 1], rec, crop) == Paragraphs(lines[..k], rec, crop) + Emitted(LineTokens(lines[k], rec, crop))
  {
    PrefixGrow(lines, k);
  }

  /** A paragraph as the normaliser leaves it. */
  ghost predicate Normalised(p: string)
  {
    Trimmed(p) && NoSpaceRun(p) && PunctSpaced(p, Marks) && '"' !in p
  }

  ghost predicate AllNormalised(ps: seq<string>)
  {
    forall i :: 0 <= i < |ps| ==> Normalised(ps[i])
  }

  /** Every paragraph went through the normaliser, so it has the normaliser's guarantees. */
  lemma {:induction false} ParagraphsNormalised(lines: seq<Line>, rec: Recognizer, crop: Quad -> PixelBox)
    ensures AllNormalised(Paragraphs(lines, rec, crop))
  {
    if lines != [] {
      var init := lines[..|lines| - 1];
      ParagraphsNormalised(init, rec, crop);
      var tokens := LineTokens(lines[|lines| - 1], rec, crop);
      var prior := Paragraphs(init, rec, crop);
      if tokens != [] {
        var p := SmartPunct(Concat(tokens));
        SmartPunctMeets(Concat(tokens));
        AllNormalisedSnoc(prior, p);
        assert Paragraphs(lines, rec, crop) == prior + [p];
      } else {
        assert Paragraphs(lines, rec, crop) == prior + [];
        assert prior + [] == prior;
      }
    }
  }

  lemma AllNormalisedSnoc(ps: seq<string>, p: string)
    requires AllNormalised(ps) && Normalised(p)
    ensures AllNormalised(ps + [p])
  {
    forall i | 0 <= i < |ps + [p]|
      ensures Normalised((ps + [p])[i])
    {
      if i < |ps| {
        assert (ps + [p])[i] == ps[i];
      }
    }
  }

  // ---------------------------------------------------------------------
  // Refused crops: the crop, the resize or the enhancement raises.
  // ---------------------------------------------------------------------

  /** Some item's crop fails. */
  predicate AnyCropFails(items: seq<Item>, crop: Quad -> PixelBox)
  {
    exists it :: it in items && CropFails(crop(it.1))
  }

  /** A member of one line is a member of the whole line list. */
  lemma {:induction false} MemberOfAll(lines: seq<Line>, k: nat, it: Item)
    requires k < |lines| && it in Members(lines[k])
    ensures it in AllMembers(lines)
  {
    if k > 0 {
      MemberOfAll(lines[1..], k - 1, it);
    }
  }

  /** The members of one more line are appended to the members so far. */
  lemma AllMembersSnoc(lines: seq<Line>, k: nat)
    requires k < |lines|
    ensures AllMembers(lines[..k + 1]) == AllMembers(lines[..k]) + Members(lines[k])
  {
    PrefixGrow(lines, k);
    assert lines[..k + 1] == lines[..k] + [lines[k]];
    FlattenSnoc(lines[..k], lines[k], Members);
  }

  /** Every member of the grouped lines is a detector box. */
  lemma MemberIsBox(boxes: seq<Quad>, it: Item)
    requires it in AllMembers(Grouped(boxes))
    ensures exists i :: 0 <= i < |boxes| && it.1 == boxes[i]
  {
    var tagged := TagAll(boxes);
    GroupedPartition(boxes);
    PermutationMember(AllMembers(Grouped(boxes)), tagged, it);
    var i :| 0 <= i < |tagged| && tagged[i] == it;
  }

  /** Every detector box is, with its hull, a member of the grouped lines. */
  lemma BoxIsMember(boxes: seq<Quad>, i: nat)
    requires i < |boxes|
    ensures TagAll(boxes)[i] in AllMembers(Grouped(boxes)) && TagAll(boxes)[i].1 == boxes[i]
  {
    GroupedPartition(boxes);
    PermutationMember(TagAll(boxes), AllMembers(Grouped(boxes)), TagAll(boxes)[i]);
  }

  /**
   * The grouped lines hold every detector box, so the script aborts on them
   * exactly when the crop of some detector box fails.
   */
  lemma GroupedCropFails(boxes: seq<Quad>, w: int, h: int)
    ensures AnyCropFails(AllMembers(Grouped(boxes)), Cropper(w, h)) <==>
            exists i :: 0 <= i < |boxes| && CropFails(CropBox(boxes[i], w, h))
  {
    var all := AllMembers(Grouped(boxes));
    if AnyCropFails(all, Cropper(w, h)) {
      var it :| it in all && CropFails(Cropper(w, h)(it.1));
      MemberIsBox(boxes, it);
    }
    if exists i :: 0 <= i < |boxes| && CropFails(CropBox(boxes[i], w, h)) {
      var i :| 0 <= i < |boxes| && CropFails(CropBox(boxes[i], w, h));
      BoxIsMember(boxes, i);
      assert CropFails(Cropper(w, h)(TagAll(boxes)[i].1));
    }
  }

  /** A box lying right of a 100-pixel-wide image has an inverted crop. */
  lemma InvertedCropFails()
    ensures var q := Quad(Point(150.0, 10.0), Point(170.0, 10.0), Point(170.0, 20.0), Point(150.0, 20.0));
            var b := CropBox(q, 100, 100);
            b.x1 == 150 && b.x2 == 99 && CropFails(b)
  {
    QuadToBBoxCanInvert();
  }

  /** A box narrower than one pixel has a crop of width 0, which cannot be resized. */
  lemma ZeroWidthCropFails(y1: real, y2: real)
    requires 0.0 <= y1 <= y2 < 100.0
    ensures var q := Quad(Point(50.2, y1), Point(50.8, y1), Point(50.8, y2), Point(50.2, y2));
            var b := CropBox(q, 100, 100);
            b.x1 == b.x2 == 50 && ResizedWidth(b) == 0 && CropFails(b)
  {
    var q := Quad(Point(50.2, y1), Point(50.8, y1), Point(50.8, y2), Point(50.2, y2));
    assert Min(Xs(q)) == 50.2;
    assert Max(Xs(q)) == 50.8;
  }

  // ---------------------------------------------------------------------
  // The loops themselves.
  // ---------------------------------------------------------------------

  /**
   * Lines 251-268: read one line box by box, joining non-empty texts with the
   * spaces `NeedSpace` asks for; `failed` when some box's crop is refused.
   */
  method ReadLine(items: seq<Item>, rec: Recognizer, crop: Quad -> PixelBox) returns (lineTokens: seq<string>, failed: bool)
    ensures failed <==> AnyCropFails(items, crop)
    ensures !failed ==> lineTokens == Tokens(Readings(items, rec, crop)).tokens
    ensures !failed ==> Concat(lineTokens) == Spaced(Kept(Readings(items, rec, crop)))
    ensures !failed ==> (lineTokens == [] <==> Kept(Readings(items, rec, crop)) == [])
  {
    ghost var rs := Readings(items, rec, crop);
    lineTokens := [];
    failed := false;
    var prevAb: Option<ABox> := None;
    var j := 0;
    assert rs[..0] == [];
    while j < |items|
      invariant 0 <= j <= |items|
      invariant Acc(lineTokens, prevAb) == Tokens(rs[..j])
      invariant !AnyCropFails(items[..j], crop)
    {
      ghost var before := Acc(lineTokens, prevAb);
      var ab, box := items[j].0, items[j].1;
      var b := crop(box);
      if CropFails(b) {
        assert items[j] in items;
        failed := true;
        return;
      }
      var txt := match rec(b) case None => "" case Some(t) => t;
      if txt != "" {
        if prevAb.Some? && NeedSpace(prevAb.value, ab) {
          lineTokens := lineTokens + [" "];
          assert lineTokens == before.tokens + [" "];
        } else {
          assert lineTokens == before.tokens + [];
        }
        lineTokens := lineTokens + [txt];
        prevAb := Some(ab);
        assert Acc(lineTokens, prevAb) == Step(before, ab, txt);
      } else {
        assert Acc(lineTokens, prevAb) == Step(before, ab, txt);
      }
      ReadingAt(items, rec, crop, j);
      TokensSnoc(rs, j);
      PrefixGrow(items, j);
      assert items[..j + 1] == items[..j] + [items[j]];
      assert Acc(lineTokens, prevAb) == Tokens(rs[..j + 1]);
      j := j + 1;
    }
    PrefixWhole(rs);
    PrefixWhole(items);
    TokensAreSpaced(rs);
  }

  /**
   * Lines 251-271 for one line: read it and, when it gave any token, append
   * its normalised text; `failed` when some box's crop is refused.
   */
  method EmitLine(paragraphs: seq<string>, ln: Line, rec: Recognizer, crop: Quad -> PixelBox) returns (out: seq<string>, failed: bool)
    ensures failed <==> AnyCropFails(Members(ln), crop)
    ensures !failed ==> out == paragraphs + Emitted(LineTokens(ln, rec, crop))
  {
    var lineTokens;
    lineTokens, failed := ReadLine(Members(ln), rec, crop);
    out := paragraphs;
    if failed {
      return;
    }
    if lineTokens != [] {
      var p := SmartPunctVn(Concat(lineTokens));
      out := out + [p];
    } else {
      assert out + [] == out;
    }
  }

  /**
   * Lines 248-271: read every line and keep one normalised paragraph per line
   * with text; `None` when the crop of some member of some line is refused.
   */
  method AssembleParagraphs(lines: seq<Line>, rec: Recognizer, crop: Quad -> PixelBox) returns (r: Option<seq<string>>)
    ensures r.None? <==> AnyCropFails(AllMembers(lines), crop)
    ensures r.Some? ==> r.value == Paragraphs(lines, rec, crop)
  {
    var paragraphs := [];
    var k := 0;
    while k < |lines|
      invariant 0 <= k <= |lines|
      invariant paragraphs == Paragraphs(lines[..k], rec, crop)
      invariant !AnyCropFails(AllMembers(lines[..k]), crop)
    {
      var failed;
      paragraphs, failed := EmitLine(paragraphs, lines[k], rec, crop);
      if failed {
        var it :| it in Members(lines[k]) && CropFails(crop(it.1));
        MemberOfAll(lines, k, it);
        return None;
      }
      ParagraphsSnoc(lines, k, rec, crop);
      AllMembersSnoc(lines, k);
      k := k + 1;
    }
    PrefixWhole(lines);
    r := Some(paragraphs);
  }

  /**
   * The script end to end: group the detector boxes into lines, then assemble
   * the paragraphs. It aborts (`None`) exactly when the crop of some detector
   * box is refused; otherwise it gives `Paragraphs` of the grouped lines, at
   * most one per box.
   */
  method AssembleText(boxes: seq<Quad>, rec: Recognizer, w: int, h: int) returns (r: Option<seq<string>>)
    ensures r.None? <==> exists i :: 0 <= i < |boxes| && CropFails(CropBox(boxes[i], w, h))
    ensures r.Some? ==> r.value == Paragraphs(Grouped(boxes), rec, Cropper(w, h))
    ensures r.Some? ==> |r.value| <= |boxes|
  {
    var lines := GroupLinesRatio(boxes);
    r := AssembleParagraphs(lines, rec, Cropper(w, h));
    GroupedCropFails(boxes, w, h);
    GroupedOrdered(boxes);
    ParagraphsBound(lines, rec, Cropper(w, h));
  }
}
