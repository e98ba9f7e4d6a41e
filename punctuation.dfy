/**
 * `_smart_punct_vn` (BV/test5.py): the ordered chain of rewrites applied to
 * every assembled line. Each `re.sub` step is a function over strings that
 * scans left to right as Python's regular-expression engine does; `\s` is
 * `Text.IsSpace`. The quote-toggling loop is a method proved against `Curl`.
 */
module Punctuation {
  import opened Text

  /** The marks the output guarantees to be followed by whitespace. */
  const Marks: set<char> := {',', '.', ';', ':', '!', '?'}
  /** The marks of the last `re.sub` (line 213); the comma has its own step. */
  const SentenceMarks: set<char> := {'.', ':', ';', '!', '?'}
  const Openers: set<char> := {'(', '[', '{'}
  const Closers: set<char> := {')', ']', '}'}
  const Ellipsis: char := '…'
  const OpenQuote: char := '“'
  const CloseQuote: char := '”'

  /** No character of `p` is whitespace. */
  predicate Solid(p: set<char>)
  {
    forall c :: c in p ==> !IsSpace(c)
  }

  /** Every character of `p` in `s` is followed by whitespace, unless it is the last one. */
  ghost predicate PunctSpaced(s: string, p: set<char>)
  {
    forall i :: 0 <= i < |s| - 1 && s[i] in p ==> IsSpace(s[i + 1])
  }

  /** No two whitespace characters are adjacent. */
  ghost predicate NoSpaceRun(s: string)
  {
    forall i :: 0 <= i < |s| - 1 ==> !(IsSpace(s[i]) && IsSpace(s[i + 1]))
  }

  /** No whitespace character stands right before a character of `p`. */
  ghost predicate NoSpaceBefore(s: string, p: set<char>)
  {
    forall i :: 0 <= i < |s| - 1 && IsSpace(s[i]) ==> s[i + 1] !in p
  }

  /** No character of `p` is followed by whitespace. */
  ghost predicate NoSpaceAfter(s: string, p: set<char>)
  {
    forall i :: 0 <= i < |s| - 1 && s[i] in p ==> !IsSpace(s[i + 1])
  }

  /** No two adjacent characters are both `c`. */
  ghost predicate NoPair(s: string, c: char)
  {
    forall i :: 0 <= i < |s| - 1 ==> !(s[i] == c && s[i + 1] == c)
  }

  /** No leading and no trailing whitespace. */
  ghost predicate Trimmed(s: string)
  {
    s != [] ==> !IsSpace(s[0]) && !IsSpace(s[|s| - 1])
  }

  /** The number of whitespace characters `s` starts with. */
  function LeadSpaces(s: string): (n: nat)
    ensures n <= |s|
    ensures forall i :: 0 <= i < n ==> IsSpace(s[i])
    ensures n < |s| ==> !IsSpace(s[n])
  {
    if s == [] || !IsSpace(s[0]) then 0 else 1 + LeadSpaces(s[1..])
  }

  /** The number of whitespace characters `s` ends with. */
  function TrailSpaces(s: string): (n: nat)
    ensures n <= |s|
    ensures forall i :: |s| - n <= i < |s| ==> IsSpace(s[i])
    ensures n < |s| ==> !IsSpace(s[|s| - n - 1])
  {
    if s == [] || !IsSpace(s[|s| - 1]) then 0 else 1 + TrailSpaces(s[..|s| - 1])
  }

  /** `s` without its leading whitespace: what `\s*` consumes is skipped. */
  function SkipSpaces(s: string): string
  {
    s[LeadSpaces(s)..]
  }

  /** The first non-whitespace character of `s` exists and is in `p`. */
  predicate NextSolidIn(s: string, p: set<char>)
  {
    var t := SkipSpaces(s);
    t != [] && t[0] in p
  }

  lemma SkipLeadingSpace(s: string)
    requires s != [] && IsSpace(s[0])
    ensures SkipSpaces(s) == SkipSpaces(s[1..])
  {
  }

  // ---------------------------------------------------------------------
  // Lines 206 and 208: `\s+([,.;:!?])` and `\s+([)\]}])` become the mark alone.
  // ---------------------------------------------------------------------

  /** Whitespace whose next non-whitespace character is in `p` is removed. */
  function DropSpaceBefore(s: string, p: set<char>): (r: string)
    ensures |r| <= |s|
  {
    if s == [] then []
    else if IsSpace(s[0]) && NextSolidIn(s, p) then DropSpaceBefore(s[1..], p)
    else [s[0]] + DropSpaceBefore(s[1..], p)
  }

  /** After the step no whitespace character stands right before a character of `p`. */
  lemma {:induction false} DropSpaceBeforeMeets(s: string, p: set<char>)
    requires Solid(p)
    ensures NoSpaceBefore(DropSpaceBefore(s, p), p)
  {
    if s != [] {
      DropSpaceBeforeMeets(s[1..], p);
      var r, rest := DropSpaceBefore(s, p), DropSpaceBefore(s[1..], p);
      if !(IsSpace(s[0]) && NextSolidIn(s, p)) {
        assert r == [s[0]] + rest;
        forall i | 0 <= i < |r| - 1 && IsSpace(r[i])
          ensures r[i + 1] !in p
        {
          if i == 0 {
            SkipLeadingSpace(s);
            assert !NextSolidIn(s[1..], p) && s[1..][0] == s[1];
            assert r[1] == rest[0] == s[1];
            if !IsSpace(s[1]) {
              assert SkipSpaces(s[1..])[0] == s[1];
            }
          } else {
            var j := i - 1;
            assert r[i] == rest[j] && r[i + 1] == rest[j + 1];
          }
        }
      }
    }
  }

  /** Only whitespace is removed: the other characters stay, in order. */
  function Visible(s: string): (r: string)
  {
    if s == [] then [] else (if IsSpace(s[0]) then [] else [s[0]]) + Visible(s[1..])
  }

  lemma {:induction false} DropSpaceBeforeKeepsVisible(s: string, p: set<char>)
    ensures Visible(DropSpaceBefore(s, p)) == Visible(s)
  {
    if s != [] {
      DropSpaceBeforeKeepsVisible(s[1..], p);
      var rest := DropSpaceBefore(s[1..], p);
      if !(IsSpace(s[0]) && NextSolidIn(s, p)) {
        assert ([s[0]] + rest)[1..] == rest;
      }
    }
  }

  // ---------------------------------------------------------------------
  // Line 207: `([([{])\s+` becomes the bracket alone.
  // ---------------------------------------------------------------------

  /**
   * Whitespace is removed when the last non-whitespace character before it
   * is in `p`; `after` says whether that holds at the start of `s`.
   */
  function DropSpaceAfterFrom(s: string, p: set<char>, after: bool): (r: string)
    ensures |r| <= |s|
  {
    if s == [] then []
    else if IsSpace(s[0]) then
      if after then DropSpaceAfterFrom(s[1..], p, true) else [s[0]] + DropSpaceAfterFrom(s[1..], p, false)
    else [s[0]] + DropSpaceAfterFrom(s[1..], p, s[0] in p)
  }

  function DropSpaceAfter(s: string, p: set<char>): string
  {
    DropSpaceAfterFrom(s, p, false)
  }

  lemma {:induction false} DropSpaceAfterHead(s: string, p: set<char>)
    ensures var r := DropSpaceAfterFrom(s, p, true); r == [] || !IsSpace(r[0])
  {
    if s != [] && IsSpace(s[0]) {
      DropSpaceAfterHead(s[1..], p);
    }
  }

  /** After the step no character of `p` is followed by whitespace. */
  lemma {:induction false} DropSpaceAfterMeets(s: string, p: set<char>, after: bool)
    requires Solid(p)
    ensures NoSpaceAfter(DropSpaceAfterFrom(s, p, after), p)
  {
    if s != [] {
      var next := if IsSpace(s[0]) then after else s[0] in p;
      DropSpaceAfterMeets(s[1..], p, next);
      var r, rest := DropSpaceAfterFrom(s, p, after), DropSpaceAfterFrom(s[1..], p, next);
      if !(IsSpace(s[0]) && after) {
        assert r == [s[0]] + rest;
        forall i | 0 <= i < |r| - 1 && r[i] in p
          ensures !IsSpace(r[i + 1])
        {
          if i == 0 {
            assert !IsSpace(s[0]) && r[1] == rest[0];
            DropSpaceAfterHead(s[1..], p);
          } else {
            var j := i - 1;
            assert r[i] == rest[j] && r[i + 1] == rest[j + 1];
          }
        }
      }
    }
  }

  lemma {:induction false} DropSpaceAfterKeepsVisible(s: string, p: set<char>, after: bool)
    ensures Visible(DropSpaceAfterFrom(s, p, after)) == Visible(s)
  {
    if s != [] {
      var next := if IsSpace(s[0]) then after else s[0] in p;
      DropSpaceAfterKeepsVisible(s[1..], p, next);
      var rest := DropSpaceAfterFrom(s[1..], p, next);
      if !(IsSpace(s[0]) && after) {
        assert ([s[0]] + rest)[1..] == rest;
      }
    }
  }

  // ---------------------------------------------------------------------
  // Line 209: `\.{2,}` becomes one ellipsis character.
  // ---------------------------------------------------------------------

  function LeadDots(s: string): (n: nat)
    ensures n <= |s|
    ensures n < |s| ==> s[n] != '.'
  {
    if s == [] || s[0] != '.' then 0 else 1 + LeadDots(s[1..])
  }

  function CollapseDots(s: string): (r: string)
    ensures |r| <= |s|
    ensures s != [] && s[0] != '.' ==> r != [] && r[0] == s[0]
  {
    if |s| >= 2 && s[0] == '.' && s[1] == '.' then [Ellipsis] + CollapseDots(s[LeadDots(s)..])
    else if s == [] then []
    else [s[0]] + CollapseDots(s[1..])
  }

  /** Putting `c` in front keeps `NoPair` unless it doubles the first character. */
  lemma NoPairCons(c: char, rest: string, d: char)
    requires NoPair(rest, d)
    requires c == d && rest != [] ==> rest[0] != d
    ensures NoPair([c] + rest, d)
  {
    var r := [c] + rest;
    forall i | 0 <= i < |r| - 1
      ensures !(r[i] == d && r[i + 1] == d)
    {
      if i > 0 {
        assert r[i] == rest[i - 1] && r[i + 1] == rest[i];
      }
    }
  }

  /** After the step no two periods are adjacent. */
  lemma {:induction false} CollapseDotsMeets(s: string)
    ensures NoPair(CollapseDots(s), '.')
  {
    if |s| >= 2 && s[0] == '.' && s[1] == '.' {
      var rest := s[LeadDots(s)..];
      CollapseDotsMeets(rest);
      NoPairCons(Ellipsis, CollapseDots(rest), '.');
    } else if s != [] {
      var rest := s[1..];
      CollapseDotsMeets(rest);
      if s[0] == '.' && rest != [] {
        assert rest[0] == s[1] != '.';
      }
      NoPairCons(s[0], CollapseDots(rest), '.');
    }
  }

  // ---------------------------------------------------------------------
  // Lines 210-211: `:\s*\?` becomes ": ", and `([?!])\s*:` becomes the mark alone.
  // ---------------------------------------------------------------------

  function ColonQuestion(s: string): (r: string)
    ensures |r| <= |s|
  {
    if s == [] then []
    else if s[0] == ':' && NextSolidIn(s[1..], {'?'}) then ": " + ColonQuestion(SkipSpaces(s[1..])[1..])
    else [s[0]] + ColonQuestion(s[1..])
  }

  function MarkColon(s: string): (r: string)
    ensures |r| <= |s|
  {
    if s == [] then []
    else if (s[0] == '?' || s[0] == '!') && NextSolidIn(s[1..], {':'}) then [s[0]] + MarkColon(SkipSpaces(s[1..])[1..])
    else [s[0]] + MarkColon(s[1..])
  }

  /** A question mark after a colon, spaces between or not, leaves the colon and one space. */
  lemma ColonQuestionExample()
    ensures ColonQuestion("a: ?") == "a: "
    ensures ColonQuestion("a:?b") == "a: b"
  {
    assert SkipSpaces(" ?") == "?";
    assert SkipSpaces("?b") == "?b";
  }

  /** The step drops the colon together with the whitespace: `!  :` becomes `!`. */
  lemma MarkColonDropsColon()
    ensures MarkColon("!  :") == "!"
    ensures MarkColon("x?:y") == "x?y"
  {
    assert SkipSpaces("  :") == ":";
    assert SkipSpaces(":y") == ":y";
  }

  // ---------------------------------------------------------------------
  // Lines 212-213: `,(?!\s)` becomes ", " and `([.:;!?])(?!\s|$)` gains a space.
  // ---------------------------------------------------------------------

  function SpaceAfterComma(s: string): (r: string)
    ensures s != [] ==> r != [] && r[0] == s[0]
  {
    if s == [] then []
    else if s[0] == ',' && (|s| == 1 || !IsSpace(s[1])) then ", " + SpaceAfterComma(s[1..])
    else [s[0]] + SpaceAfterComma(s[1..])
  }

  function SpaceAfterMark(s: string): (r: string)
    ensures s != [] ==> r != [] && r[0] == s[0]
  {
    if s == [] then []
    else if s[0] in SentenceMarks && |s| >= 2 && !IsSpace(s[1]) then [s[0], ' '] + SpaceAfterMark(s[1..])
    else [s[0]] + SpaceAfterMark(s[1..])
  }

  /** After line 212 every comma is followed by whitespace. */
  lemma {:induction false} SpaceAfterCommaMeets(s: string)
    ensures PunctSpaced(SpaceAfterComma(s), {','})
  {
    if s != [] {
      SpaceAfterCommaMeets(s[1..]);
    }
  }

  /** After line 213 every mark, the comma included, is followed by whitespace or is last. */
  lemma {:induction false} SpaceAfterMarkMeets(s: string)
    requires PunctSpaced(s, {','})
    ensures PunctSpaced(SpaceAfterMark(s), Marks)
  {
    if s != [] {
      assert PunctSpaced(s[1..], {','}) by {
        forall i | 0 <= i < |s[1..]| - 1 && s[1..][i] in {','}
          ensures IsSpace(s[1..][i + 1])
        {
          assert s[1..][i] == s[i + 1] && s[1..][i + 1] == s[i + 2];
        }
      }
      SpaceAfterMarkMeets(s[1..]);
    }
  }

  // ---------------------------------------------------------------------
  // Line 214: `.replace("''", '"').replace('""', '"')`.
  // ---------------------------------------------------------------------

  /** `str.replace` of the pair `cc` by `d`, left to right, without overlaps. */
  function ReplaceDouble(s: string, c: char, d: char): (r: string)
    ensures |r| <= |s|
    ensures s != [] && s[0] != c ==> r != [] && r[0] == s[0]
  {
    if s == [] then []
    else if |s| >= 2 && s[0] == c && s[1] == c then [d] + ReplaceDouble(s[2..], c, d)
    else [s[0]] + ReplaceDouble(s[1..], c, d)
  }

  /** Replacing by another character leaves no pair `cc` behind. */
  lemma {:induction false} ReplaceDoubleMeets(s: string, c: char, d: char)
    requires c != d
    ensures NoPair(ReplaceDouble(s, c, d), c)
  {
    if s != [] {
      var k := if |s| >= 2 && s[0] == c && s[1] == c then 2 else 1;
      ReplaceDoubleMeets(s[k..], c, d);
      var r, rest := ReplaceDouble(s, c, d), ReplaceDouble(s[k..], c, d);
      assert r == [r[0]] + rest;
      forall i | 0 <= i < |r| - 1
        ensures !(r[i] == c && r[i + 1] == c)
      {
        if i == 0 {
          if k == 1 && s[0] == c {
            assert |s| >= 2;
            assert s[1..][0] == s[1] != c;
            assert r[1] == rest[0] == s[1];
          } else if k == 1 {
            assert r[0] == s[0] != c;
          } else {
            assert r[0] == d;
          }
        } else {
          var j := i - 1;
          assert r[i] == rest[j] && r[i + 1] == rest[j + 1];
        }
      }
    }
  }

  /** Three straight quotes leave two: the second replacement is not repeated. */
  lemma ReplaceDoubleKeepsPair()
    ensures ReplaceDouble("\"\"\"", '"', '"') == "\"\""
  {
  }

  lemma {:induction false} ReplaceDoubleKeepsSpaced(s: string, c: char, d: char, p: set<char>)
    requires c !in p && d !in p && !IsSpace(c) && PunctSpaced(s, p)
    ensures PunctSpaced(ReplaceDouble(s, c, d), p)
  {
    if |s| >= 2 && s[0] == c && s[1] == c {
      assert PunctSpaced(s[2..], p) by {
        forall i | 0 <= i < |s[2..]| - 1 && s[2..][i] in p
          ensures IsSpace(s[2..][i + 1])
        {
          assert s[2..][i] == s[i + 2] && s[2..][i + 1] == s[i + 3];
        }
      }
      ReplaceDoubleKeepsSpaced(s[2..], c, d, p);
    } else if s != [] {
      assert PunctSpaced(s[1..], p) by {
        forall i | 0 <= i < |s[1..]| - 1 && s[1..][i] in p
          ensures IsSpace(s[1..][i + 1])
        {
          assert s[1..][i] == s[i + 1] && s[1..][i + 1] == s[i + 2];
        }
      }
      ReplaceDoubleKeepsSpaced(s[1..], c, d, p);
    }
  }

  // ---------------------------------------------------------------------
  // Lines 215-220: straight quotes become curly, alternately opening and closing.
  // ---------------------------------------------------------------------

  /** The number of straight double quotes in `s`. */
  function QuoteCount(s: string): nat
  {
    if s == [] then 0 else QuoteCount(s[..|s| - 1]) + (if s[|s| - 1] == '"' then 1 else 0)
  }

  function CurlChar(c: char, open: bool): char
  {
    if c != '"' then c else if open then OpenQuote else CloseQuote
  }

  /** Each straight quote opens when an even number of quotes precede it and closes otherwise. */
  function Curl(s: string): (r: string)
    ensures |r| == |s|
  {
    if s == [] then [] else Curl(s[..|s| - 1]) + [CurlChar(s[|s| - 1], QuoteCount(s[..|s| - 1]) % 2 == 0)]
  }

  /** Closed form: the quote at `i` is “ exactly when the quotes before it are even in number. */
  lemma {:induction false} CurlAt(s: string)
    ensures forall i :: 0 <= i < |s| ==> Curl(s)[i] == CurlChar(s[i], QuoteCount(s[..i]) % 2 == 0)
  {
    if s != [] {
      var init := s[..|s| - 1];
      CurlAt(init);
      forall i | 0 <= i < |s|
        ensures Curl(s)[i] == CurlChar(s[i], QuoteCount(s[..i]) % 2 == 0)
      {
        if i < |init| {
          assert init[..i] == s[..i] && init[i] == s[i];
        }
      }
    }
  }

  /** One more character: `Curl` and `QuoteCount` grow by that character's share. */
  lemma CurlStep(u: string, i: nat)
    requires i < |u|
    ensures Curl(u[..i + 1]) == Curl(u[..i]) + [CurlChar(u[i], QuoteCount(u[..i]) % 2 == 0)]
    ensures QuoteCount(u[..i + 1]) == QuoteCount(u[..i]) + if u[i] == '"' then 1 else 0
  {
    assert u[..i + 1][..i] == u[..i] && u[..i + 1][i] == u[i];
  }

  /** The inverse of `Curl` on text without curly quotes. */
  function Uncurl(s: string): (r: string)
    ensures |r| == |s|
    ensures forall i :: 0 <= i < |s| ==> r[i] == if s[i] == OpenQuote || s[i] == CloseQuote then '"' else s[i]
  {
    seq(|s|, i requires 0 <= i < |s| => if s[i] == OpenQuote || s[i] == CloseQuote then '"' else s[i])
  }

  /** Curling loses nothing: straightening the quotes again gives the text back. */
  lemma CurlRoundTrip(s: string)
    requires OpenQuote !in s && CloseQuote !in s
    ensures Uncurl(Curl(s)) == s
  {
    CurlAt(s);
  }

  /** No straight quote is left, and every other character is unchanged. */
  lemma CurlMeets(s: string)
    ensures '"' !in Curl(s)
    ensures forall i :: 0 <= i < |s| && s[i] != '"' ==> Curl(s)[i] == s[i]
  {
    CurlAt(s);
  }

  lemma CurlKeepsSpaced(s: string, p: set<char>)
    requires '"' !in p && OpenQuote !in p && CloseQuote !in p && PunctSpaced(s, p)
    ensures PunctSpaced(Curl(s), p)
  {
    CurlAt(s);
    var r := Curl(s);
    forall i | 0 <= i < |r| - 1 && r[i] in p
      ensures IsSpace(r[i + 1])
    {
      assert r[i] == CurlChar(s[i], QuoteCount(s[..i]) % 2 == 0);
      assert r[i + 1] == CurlChar(s[i + 1], QuoteCount(s[..i + 1]) % 2 == 0);
    }
  }

  // ---------------------------------------------------------------------
  // Lines 222-223: `\s{2,}` becomes one space, then `strip()`.
  // ---------------------------------------------------------------------

  function CollapseSpaces(s: string): (r: string)
    ensures |r| <= |s|
    ensures s != [] ==> r != [] && (IsSpace(r[0]) <==> IsSpace(s[0]))
    ensures s != [] && !IsSpace(s[0]) ==> r[0] == s[0]
  {
    if |s| >= 2 && IsSpace(s[0]) && IsSpace(s[1]) then [' '] + CollapseSpaces(s[LeadSpaces(s)..])
    else if s == [] then []
    else [s[0]] + CollapseSpaces(s[1..])
  }

  /** After the step no two whitespace characters are adjacent. */
  lemma {:induction false} CollapseSpacesMeets(s: string)
    ensures NoSpaceRun(CollapseSpaces(s))
  {
    if |s| >= 2 && IsSpace(s[0]) && IsSpace(s[1]) {
      CollapseSpacesMeets(s[LeadSpaces(s)..]);
    } else if s != [] {
      CollapseSpacesMeets(s[1..]);
    }
  }

  lemma {:induction false} CollapseSpacesKeepsSpaced(s: string, p: set<char>)
    requires Solid(p) && PunctSpaced(s, p)
    ensures PunctSpaced(CollapseSpaces(s), p)
  {
    if s != [] {
      var k := if |s| >= 2 && IsSpace(s[0]) && IsSpace(s[1]) then LeadSpaces(s) else 1;
      assert PunctSpaced(s[k..], p) by {
        forall i | 0 <= i < |s[k..]| - 1 && s[k..][i] in p
          ensures IsSpace(s[k..][i + 1])
        {
          assert s[k..][i] == s[i + k] && s[k..][i + 1] == s[i + k + 1];
        }
      }
      CollapseSpacesKeepsSpaced(s[k..], p);
    }
  }

  lemma {:induction false} CollapseSpacesKeepsAbsent(s: string, c: char)
    requires !IsSpace(c) && c !in s
    ensures c !in CollapseSpaces(s)
  {
    if |s| >= 2 && IsSpace(s[0]) && IsSpace(s[1]) {
      CollapseSpacesKeepsAbsent(s[LeadSpaces(s)..], c);
    } else if s != [] {
      CollapseSpacesKeepsAbsent(s[1..], c);
    }
  }

  /** Python's `str.strip()`: leading and trailing whitespace removed. */
  function Strip(s: string): string
  {
    var t := s[LeadSpaces(s)..];
    t[..|t| - TrailSpaces(t)]
  }

  /** `Strip(s)` is the slice `s[a..b]` that drops exactly the whitespace at both ends. */
  lemma StripSlice(s: string) returns (a: nat, b: nat)
    ensures a <= b <= |s| && Strip(s) == s[a..b]
    ensures forall i :: 0 <= i < a ==> IsSpace(s[i])
    ensures forall i :: b <= i < |s| ==> IsSpace(s[i])
    ensures Trimmed(Strip(s))
  {
    a := LeadSpaces(s);
    var t := s[a..];
    b := a + |t| - TrailSpaces(t);
    forall i | b <= i < |s|
      ensures IsSpace(s[i])
    {
      assert s[i] == t[i - a];
    }
  }

  lemma StripKeeps(s: string, p: set<char>, c: char)
    requires PunctSpaced(s, p) && NoSpaceRun(s) && c !in s
    ensures PunctSpaced(Strip(s), p) && NoSpaceRun(Strip(s)) && c !in Strip(s)
  {
    var a, b := StripSlice(s);
    var r := Strip(s);
    forall i | 0 <= i < |r|
      ensures r[i] == s[a + i]
    {
    }
  }

  // ---------------------------------------------------------------------
  // The whole normaliser.
  // ---------------------------------------------------------------------

  /** The eight `re.sub` rewrites of lines 206-213, in their order. */
  function Rewrite(t: string): string
  {
    var t1 := DropSpaceBefore(t, Marks);
    var t2 := DropSpaceAfter(t1, Openers);
    var t3 := DropSpaceBefore(t2, Closers);
    var t4 := CollapseDots(t3);
    var t5 := ColonQuestion(t4);
    var t6 := MarkColon(t5);
    var t7 := SpaceAfterComma(t6);
    SpaceAfterMark(t7)
  }

  /** The two replacements of line 215. */
  function Unquote(t: string): string
  {
    ReplaceDouble(ReplaceDouble(t, '\'', '"'), '"', '"')
  }

  /** What `_smart_punct_vn(t)` returns. */
  function SmartPunct(t: string): string
  {
    Strip(CollapseSpaces(Curl(Unquote(Rewrite(t)))))
  }

  /**
   * The output has no whitespace at either end and no run of whitespace,
   * every `, . ; : ! ?` in it is followed by whitespace unless it is last,
   * and no straight double quote is left.
   */
  lemma SmartPunctMeets(t: string)
    ensures var r := SmartPunct(t);
            && Trimmed(r)
            && NoSpaceRun(r)
            && PunctSpaced(r, Marks)
            && '"' !in r
  {
    var t6 := MarkColon(ColonQuestion(CollapseDots(DropSpaceBefore(DropSpaceAfter(DropSpaceBefore(t, Marks), Openers), Closers))));
    var t7 := SpaceAfterComma(t6);
    var t8 := SpaceAfterMark(t7);
    assert t8 == Rewrite(t);
    SpaceAfterCommaMeets(t6);
    SpaceAfterMarkMeets(t7);
    var u1 := ReplaceDouble(t8, '\'', '"');
    ReplaceDoubleKeepsSpaced(t8, '\'', '"', Marks);
    ReplaceDoubleKeepsSpaced(u1, '"', '"', Marks);
    var u := Unquote(t8);
    var v := Curl(u);
    CurlKeepsSpaced(u, Marks);
    CurlMeets(u);
    var w := CollapseSpaces(v);
    assert Solid(Marks);
    CollapseSpacesKeepsSpaced(v, Marks);
    CollapseSpacesMeets(v);
    CollapseSpacesKeepsAbsent(v, '"');
    var _, _ := StripSlice(w);
    StripKeeps(w, Marks, '"');
  }

  // ---------------------------------------------------------------------
  // A text the normaliser changes twice. Each step on `?::` and on `? :` is
  // its own one-line fact, so that each literal is evaluated on its own.
  // ---------------------------------------------------------------------

  // The steps on `?::`, one fact each: lines 206-210 find nothing to rewrite,
  // line 211 removes one colon, and line 213 puts a space after `?`.
  lemma QcMarks() ensures DropSpaceBefore("?::", Marks) == "?::" {}
  lemma QcOpeners() ensures DropSpaceAfter("?::", Openers) == "?::" {}
  lemma QcClosers() ensures DropSpaceBefore("?::", Closers) == "?::" {}
  lemma QcDots() ensures CollapseDots("?::") == "?::" {}
  lemma QcColonQuestion() ensures ColonQuestion("?::") == "?::" {}
  lemma QcMarkColon() ensures MarkColon("?::") == "?:" {}
  lemma QcComma() ensures SpaceAfterComma("?:") == "?:" {}
  lemma QcSpaceAfterMark() ensures SpaceAfterMark("?:") == "? :" {}

  // The steps on `? :`: line 206 removes the space and line 211 the colon.
  lemma QscMarks() ensures DropSpaceBefore("? :", Marks) == "?:" {}
  lemma QscOpeners() ensures DropSpaceAfter("?:", Openers) == "?:" {}
  lemma QscClosers() ensures DropSpaceBefore("?:", Closers) == "?:" {}
  lemma QscDots() ensures CollapseDots("?:") == "?:" {}
  lemma QscColonQuestion() ensures ColonQuestion("?:") == "?:" {}
  lemma QscMarkColon() ensures MarkColon("?:") == "?" {}
  lemma QscComma() ensures SpaceAfterComma("?") == "?" {}
  lemma QscSpaceAfterMark() ensures SpaceAfterMark("?") == "?" {}

  // Lines 214-223 leave `? :` and `?` as they are.
  lemma QscUnquote() ensures Unquote("? :") == "? :" {}
  lemma QscCurl() ensures Curl("? :") == "? :" {}
  lemma QscCollapse() ensures CollapseSpaces("? :") == "? :" {}
  lemma QscStrip() ensures Strip("? :") == "? :" {}
  lemma QUnquote() ensures Unquote("?") == "?" {}
  lemma QCurl() ensures Curl("?") == "?" {}
  lemma QCollapse() ensures CollapseSpaces("?") == "?" {}
  lemma QStrip() ensures Strip("?") == "?" {}

  lemma RewriteQuestionColons()
    ensures Rewrite("?::") == "? :"
  {
    QcMarks();
    QcOpeners();
    QcClosers();
    QcDots();
    QcColonQuestion();
    QcMarkColon();
    QcComma();
    QcSpaceAfterMark();
  }

  lemma RewriteSpacedColon()
    ensures Rewrite("? :") == "?"
  {
    QscMarks();
    QscOpeners();
    QscClosers();
    QscDots();
    QscColonQuestion();
    QscMarkColon();
    QscComma();
    QscSpaceAfterMark();
  }

  /**
   * The normaliser is not idempotent: normalising `?::` gives `? :`, and
   * normalising that again gives `?`.
   */
  lemma SmartPunctNotIdempotent()
    ensures SmartPunct("?::") == "? :"
    ensures SmartPunct("? :") == "?"
    ensures SmartPunct(SmartPunct("?::")) != SmartPunct("?::")
  {
    RewriteQuestionColons();
    RewriteSpacedColon();
    QscUnquote();
    QscCurl();
    QscCollapse();
    QscStrip();
    QUnquote();
    QCurl();
    QCollapse();
    QStrip();
  }

  /** The `buf`/`open_q` loop of lines 215-220 over the text `u`. */
  method CurlQuotes(u: string) returns (buf: string)
    ensures buf == Curl(u)
  {
    buf := [];
    var openQ := true;
    var i := 0;
    while i < |u|
      invariant 0 <= i <= |u|
      invariant buf == Curl(u[..i])
      invariant openQ == (QuoteCount(u[..i]) % 2 == 0)
    {
      var ch := u[i];
      CurlStep(u, i);
      if ch == '"' {
        buf := buf + [if openQ then OpenQuote else CloseQuote];
        openQ := !openQ;
      } else {
        buf := buf + [ch];
      }
      i := i + 1;
    }
    assert u[..i] == u;
  }

  /** `_smart_punct_vn` (lines 205-223): the rewrites, the quote loop, the collapse and the strip. */
  method SmartPunctVn(t: string) returns (r: string)
    ensures r == SmartPunct(t)
  {
    var u := Unquote(Rewrite(t));
    var buf := CurlQuotes(u);
    r := Strip(CollapseSpaces(buf));
  }
}
