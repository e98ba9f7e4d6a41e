/**
 * `_group_lines_ratio` (BV/test5.py): greedy, first-match, single-pass
 * clustering of detector boxes into text lines.
 *
 * The boxes are visited in `(y_top, x_left)` order. Each one joins the first
 * line, in creation order, whose y-extent overlaps it with a vertical IoU of at
 * least 0.3 or whose centre `y_mid` is within `0.6 * h_avg` of the box's centre;
 * otherwise it starts a new line. Finally the lines are sorted by `y_mid` and
 * each line's boxes by their left edge, both stably.
 */
module LineGrouping {
  import opened Ordering
  import opened Geometry

  /**
   * One line dictionary of the script: its boxes (`abox`) and the quads they
   * came from (`quads`), kept as two parallel lists, plus the running
   * statistics `y_mid`, `h_avg` and the y-extent `bbox_y` (whose x-coordinates
   * are always 0).
   */
  datatype Line = Line(aboxes: seq<ABox>, quads: seq<Quad>, yMid: real, hAvg: real, bboxY: ABox)

  /** `(abox, quad)` pairs, as `zip(ln['abox'], ln['quads'])` yields them. */
  type Item = (ABox, Quad)

  function Members(ln: Line): seq<Item>
  {
    Zip(ln.aboxes, ln.quads)
  }

  /** All boxes of all lines, line after line. */
  function AllMembers(lines: seq<Line>): seq<Item>
  {
    Flatten(lines, Members)
  }

  function Tops(bs: seq<ABox>): (r: seq<real>)
    ensures |r| == |bs| && forall i :: 0 <= i < |bs| ==> r[i] == bs[i].y1
  {
    seq(|bs|, i requires 0 <= i < |bs| => bs[i].y1)
  }

  function Bottoms(bs: seq<ABox>): (r: seq<real>)
    ensures |r| == |bs| && forall i :: 0 <= i < |bs| ==> r[i] == bs[i].y2
  {
    seq(|bs|, i requires 0 <= i < |bs| => bs[i].y2)
  }

  function Heights(bs: seq<ABox>): (r: seq<real>)
    ensures |r| == |bs| && forall i :: 0 <= i < |bs| ==> r[i] == bs[i].y2 - bs[i].y1
  {
    seq(|bs|, i requires 0 <= i < |bs| => bs[i].y2 - bs[i].y1)
  }

  /** Each box of the line is the hull of the quad it is paired with. */
  ghost predicate Paired(ln: Line)
  {
    && |ln.aboxes| == |ln.quads| > 0
    && forall i :: 0 <= i < |ln.aboxes| ==> ln.aboxes[i] == QuadToABox(ln.quads[i])
  }

  /**
   * The invariant of a line under construction: its boxes are paired with
   * their quads, `bbox_y` is the y-hull of its boxes, `y_mid` lies inside that
   * hull and `h_avg` is not negative.
   */
  ghost predicate ValidLine(ln: Line)
  {
    && Paired(ln)
    && ln.bboxY == HullY(ln.aboxes)
    && ln.bboxY.y1 <= ln.yMid <= ln.bboxY.y2
    && 0.0 <= ln.hAvg
  }

  ghost predicate AllValid(lines: seq<Line>)
  {
    forall i :: 0 <= i < |lines| ==> ValidLine(lines[i])
  }

  function Abs(x: real): real { if x >= 0.0 then x else -x }

  /** The acceptance test of line 172: enough vertical overlap, or a close enough centre. */
  predicate Accepts(ln: Line, ab: ABox)
    requires YOrdered(ab) && YOrdered(ln.bboxY)
  {
    VerticalIou(ab, ln.bboxY) >= 0.3 || Abs((ab.y1 + ab.y2) / 2.0 - ln.yMid) <= 0.6 * ln.hAvg
  }

  ghost predicate SameLengths(lines: seq<Line>)
  {
    forall i :: 0 <= i < |lines| ==> |lines[i].aboxes| == |lines[i].quads|
  }

  ghost predicate AllYOrdered(lines: seq<Line>)
  {
    forall i :: 0 <= i < |lines| ==> YOrdered(lines[i].bboxY)
  }

  /** The index of the first line, in list order, that accepts `ab`; `|lines|` if none does. */
  function FirstAccepting(lines: seq<Line>, ab: ABox): (k: nat)
    requires YOrdered(ab) && AllYOrdered(lines)
    ensures k <= |lines|
    ensures forall j :: 0 <= j < k ==> !Accepts(lines[j], ab)
    ensures k < |lines| ==> Accepts(lines[k], ab)
  {
    if lines == [] then 0
    else if Accepts(lines[0], ab) then 0
    else 1 + FirstAccepting(lines[1..], ab)
  }

  /** `FirstAccepting` is the only index with its two defining properties. */
  lemma FirstAcceptingUnique(lines: seq<Line>, ab: ABox, k: nat)
    requires YOrdered(ab) && AllYOrdered(lines) && k <= |lines|
    requires forall j :: 0 <= j < k ==> !Accepts(lines[j], ab)
    requires k < |lines| ==> Accepts(lines[k], ab)
    ensures k == FirstAccepting(lines, ab)
  {
    var f := FirstAccepting(lines, ab);
    assert k < |lines| ==> Accepts(lines[k], ab) && f <= k;
    assert f < |lines| ==> Accepts(lines[f], ab) && k <= f;
  }

  /** A new line holding only `ab` (lines 183-189). */
  function Seed(ab: ABox, q: Quad): Line
  {
    Line([ab], [q], (ab.y1 + ab.y2) / 2.0, MaxReal(1.0, ab.y2 - ab.y1), ABox(0.0, ab.y1, 0.0, ab.y2))
  }

  /**
   * `ln` after `ab` joins it (lines 173-179): both lists grow by one, `y_mid`
   * becomes the mean of the median top and the median bottom, `h_avg` the
   * median height and `bbox_y` the y-hull of all the boxes.
   */
  function Join(ln: Line, ab: ABox, q: Quad): Line
  {
    var boxes := ln.aboxes + [ab];
    Line(boxes, ln.quads + [q],
         (Median(Tops(boxes)) + Median(Bottoms(boxes))) / 2.0,
         Median(Heights(boxes)),
         ABox(0.0, Min(Tops(boxes)), 0.0, Max(Bottoms(boxes))))
  }

  /** The line list after one box has been placed: first accepting line, else a new line. */
  function PlaceInto(lines: seq<Line>, ab: ABox, q: Quad): seq<Line>
    requires YOrdered(ab) && AllYOrdered(lines)
  {
    var k := FirstAccepting(lines, ab);
    if k < |lines| then lines[k := Join(lines[k], ab, q)] else lines + [Seed(ab, q)]
  }

  lemma SeedValid(ab: ABox, q: Quad)
    requires ab == QuadToABox(q)
    ensures ValidLine(Seed(ab, q))
  {
    var ln := Seed(ab, q);
    assert Tops(ln.aboxes) == [ab.y1];
    assert Bottoms(ln.aboxes) == [ab.y2];
  }

  /** The y-extent `(0, least top, 0, greatest bottom)` of some boxes, folded from the left. */
  function HullY(bs: seq<ABox>): ABox
    requires |bs| > 0
  {
    if |bs| == 1 then ABox(0.0, bs[0].y1, 0.0, bs[0].y2)
    else
      var h, b := HullY(bs[..|bs| - 1]), bs[|bs| - 1];
      ABox(0.0, if b.y1 < h.y1 then b.y1 else h.y1, 0.0, if b.y2 > h.y2 then b.y2 else h.y2)
  }

  /** The fold attains the least top and the greatest bottom. */
  lemma {:induction false} HullYBounds(bs: seq<ABox>)
    requires |bs| > 0
    ensures forall i :: 0 <= i < |bs| ==> HullY(bs).y1 <= bs[i].y1 && bs[i].y2 <= HullY(bs).y2
    ensures exists i :: 0 <= i < |bs| && HullY(bs).y1 == bs[i].y1
    ensures exists i :: 0 <= i < |bs| && HullY(bs).y2 == bs[i].y2
  {
    if |bs| > 1 {
      var init := bs[..|bs| - 1];
      HullYBounds(init);
      var i1 :| 0 <= i1 < |init| && HullY(init).y1 == init[i1].y1;
      var i2 :| 0 <= i2 < |init| && HullY(init).y2 == init[i2].y2;
      var n := |bs| - 1;
      assert bs[i1] == init[i1] && bs[i2] == init[i2];
      assert HullY(bs).y1 == bs[n].y1 || HullY(bs).y1 == bs[i1].y1;
      assert HullY(bs).y2 == bs[n].y2 || HullY(bs).y2 == bs[i2].y2;
      forall i | 0 <= i < |init|
        ensures bs[i] == init[i]
      {
      }
    } else {
      assert HullY(bs) == ABox(0.0, bs[0].y1, 0.0, bs[0].y2);
    }
  }

  /** `HullY` is `(0, min(tops), 0, max(bottoms))`, the hull line 179 assigns. */
  lemma HullYIsMinMax(bs: seq<ABox>)
    requires |bs| > 0
    ensures HullY(bs) == ABox(0.0, Min(Tops(bs)), 0.0, Max(Bottoms(bs)))
  {
    HullYBounds(bs);
    var tops, bots := Tops(bs), Bottoms(bs);
    var i1 :| 0 <= i1 < |bs| && HullY(bs).y1 == bs[i1].y1;
    var i2 :| 0 <= i2 < |bs| && HullY(bs).y2 == bs[i2].y2;
    var m1 :| 0 <= m1 < |bs| && tops[m1] == Min(tops);
    var m2 :| 0 <= m2 < |bs| && bots[m2] == Max(bots);
    assert Min(tops) <= tops[i1] == bs[i1].y1;
    assert HullY(bs).y1 <= bs[m1].y1;
    assert Max(bots) >= bots[i2] == bs[i2].y2;
    assert HullY(bs).y2 >= bs[m2].y2;
  }

  /** The y-extent of boxes that are not inverted is not inverted. */
  lemma HullYOrdered(bs: seq<ABox>)
    requires |bs| > 0
    requires forall i :: 0 <= i < |bs| ==> bs[i].y1 <= bs[i].y2
    ensures YOrdered(HullY(bs))
  {
    HullYBounds(bs);
    assert HullY(bs).y1 <= bs[0].y1 <= bs[0].y2 <= HullY(bs).y2;
  }

  /** The least height is not negative when no box is inverted. */
  lemma HeightsNonNegative(bs: seq<ABox>)
    requires |bs| > 0
    requires forall i :: 0 <= i < |bs| ==> bs[i].y1 <= bs[i].y2
    ensures 0.0 <= Min(Heights(bs))
  {
    var hs := Heights(bs);
    var ih :| 0 <= ih < |hs| && hs[ih] == Min(hs);
    assert hs[ih] == bs[ih].y2 - bs[ih].y1;
  }

  lemma JoinPaired(ln: Line, ab: ABox, q: Quad)
    requires Paired(ln) && ab == QuadToABox(q)
    ensures Paired(Join(ln, ab, q))
  {
    var r := Join(ln, ab, q);
    assert |r.aboxes| == |r.quads| == |ln.aboxes| + 1;
    JoinMembers(ln, ab, q);
    PairedMembers(ln);
    TaggedSnoc(Members(ln), (ab, q));
    PairedMembers(r);
  }

  /** The statistics line 173-179 computes from boxes that are not inverted. */
  lemma StatsFacts(boxes: seq<ABox>)
    requires |boxes| > 0
    requires forall i :: 0 <= i < |boxes| ==> boxes[i].y1 <= boxes[i].y2
    ensures HullY(boxes) == ABox(0.0, Min(Tops(boxes)), 0.0, Max(Bottoms(boxes)))
    ensures HullY(boxes).y1 <= (Median(Tops(boxes)) + Median(Bottoms(boxes))) / 2.0 <= HullY(boxes).y2
    ensures 0.0 <= Median(Heights(boxes))
  {
    HullYIsMinMax(boxes);
    MedianBounds(Tops(boxes));
    MedianBounds(Bottoms(boxes));
    MedianBounds(Heights(boxes));
    HullYBounds(boxes);
    HeightsNonNegative(boxes);
  }

  lemma JoinValid(ln: Line, ab: ABox, q: Quad)
    requires ValidLine(ln) && ab == QuadToABox(q)
    ensures ValidLine(Join(ln, ab, q))
  {
    var boxes := ln.aboxes + [ab];
    JoinPaired(ln, ab, q);
    forall i | 0 <= i < |boxes|
      ensures boxes[i].y1 <= boxes[i].y2
    {
      assert boxes[i] == QuadToABox(Join(ln, ab, q).quads[i]);
    }
    StatsFacts(boxes);
  }

  lemma ValidLinesFacts(lines: seq<Line>)
    requires AllValid(lines)
    ensures AllYOrdered(lines) && SameLengths(lines)
  {
  }

  lemma AllValidUpdate(lines: seq<Line>, k: nat, ln: Line)
    requires AllValid(lines) && k < |lines| && ValidLine(ln)
    ensures AllValid(lines[k := ln])
  {
  }

  lemma AllValidSnoc(lines: seq<Line>, ln: Line)
    requires AllValid(lines) && ValidLine(ln)
    ensures AllValid(lines + [ln])
  {
  }

  /** Placing a box keeps every line valid. */
  lemma PlaceIntoValid(lines: seq<Line>, ab: ABox, q: Quad)
    requires AllValid(lines) && ab == QuadToABox(q)
    ensures AllYOrdered(lines)
    ensures AllValid(PlaceInto(lines, ab, q))
  {
    ValidLinesFacts(lines);
    var k := FirstAccepting(lines, ab);
    if k < |lines| {
      JoinValid(lines[k], ab, q);
      AllValidUpdate(lines, k, Join(lines[k], ab, q));
    } else {
      SeedValid(ab, q);
      AllValidSnoc(lines, Seed(ab, q));
    }
  }

  /**
   * First match: the box joins the first accepting line and nothing else
   * changes; a new line, appended last, appears exactly when no line accepts it.
   */
  lemma PlaceIntoFirstMatch(lines: seq<Line>, ab: ABox, q: Quad)
    requires YOrdered(ab) && AllYOrdered(lines)
    ensures var r := PlaceInto(lines, ab, q);
            && (|r| == |lines| + 1 <==> forall j :: 0 <= j < |lines| ==> !Accepts(lines[j], ab))
            && (|r| == |lines| + 1 ==> r == lines + [Seed(ab, q)])
            && (|r| == |lines| ==>
                  exists k :: && 0 <= k < |lines| && Accepts(lines[k], ab)
                              && (forall j :: 0 <= j < k ==> !Accepts(lines[j], ab))
                              && r == lines[k := Join(lines[k], ab, q)])
  {
    var k := FirstAccepting(lines, ab);
    if k < |lines| {
      assert !(forall j :: 0 <= j < |lines| ==> !Accepts(lines[j], ab));
    }
  }

  lemma JoinMembers(ln: Line, ab: ABox, q: Quad)
    requires |ln.aboxes| == |ln.quads|
    ensures Members(Join(ln, ab, q)) == Members(ln) + [(ab, q)]
  {
    var r := Join(ln, ab, q);
    assert r.aboxes == ln.aboxes + [ab] && r.quads == ln.quads + [q];
    ZipSnoc(ln.aboxes, ln.quads, ab, q);
  }

  /** Placing a box adds exactly that box, paired with its quad, to the lines. */
  lemma {:induction false} PlaceIntoMembers(lines: seq<Line>, ab: ABox, q: Quad)
    requires YOrdered(ab) && AllYOrdered(lines) && SameLengths(lines)
    ensures multiset(AllMembers(PlaceInto(lines, ab, q))) == multiset(AllMembers(lines)) + multiset{(ab, q)}
  {
    var k := FirstAccepting(lines, ab);
    if k < |lines| {
      JoinMembers(lines[k], ab, q);
      FlattenGrowPart(lines, k, Join(lines[k], ab, q), Members, (ab, q));
    } else {
      FlattenAppend(lines, [Seed(ab, q)], Members);
    }
  }

  /** The item pairs a box with the hull of its quad. */
  predicate IsTagged(it: Item)
  {
    it.0 == QuadToABox(it.1)
  }

  ghost predicate Tagged(items: seq<Item>)
  {
    forall i :: 0 <= i < |items| ==> IsTagged(items[i])
  }

  lemma TaggedSnoc(items: seq<Item>, it: Item)
    requires Tagged(items) && IsTagged(it)
    ensures Tagged(items + [it])
  {
  }

  /** The lines after placing `items` one after the other, starting from none. */
  function PlaceAll(items: seq<Item>): (lines: seq<Line>)
    requires Tagged(items)
    ensures AllValid(lines)
    ensures |lines| <= |items|
    ensures items == [] <==> lines == []
  {
    if items == [] then []
    else
      var prev := PlaceAll(items[..|items| - 1]);
      var last := items[|items| - 1];
      PlaceIntoValid(prev, last.0, last.1);
      PlaceInto(prev, last.0, last.1)
  }

  lemma {:induction false} PlaceAllMembers(items: seq<Item>)
    requires Tagged(items)
    ensures multiset(AllMembers(PlaceAll(items))) == multiset(items)
  {
    if items != [] {
      var init, last := items[..|items| - 1], items[|items| - 1];
      var prev := PlaceAll(init);
      PlaceAllMembers(init);
      ValidLinesFacts(prev);
      PlaceIntoMembers(prev, last.0, last.1);
      SplitLast(items);
    }
  }

  function YMidOf(ln: Line): real { ln.yMid }

  function LeftOf(it: Item): real { it.0.x1 }

  function TopLeftOf(it: Item): (real, real) { (it.0.y1, it.0.x1) }

  /** Lines 191-195 for one line: its boxes and quads reordered together by left edge. */
  function SortMembers(ln: Line): Line
  {
    var items := SortBy(Members(ln), LeftOf, RealLe);
    Line(Firsts(items), Seconds(items), ln.yMid, ln.hAvg, ln.bboxY)
  }

  /** Lines 190-195: the lines by `y_mid`, then each line's boxes by left edge. */
  function Finished(lines: seq<Line>): seq<Line>
  {
    var ordered := SortBy(lines, YMidOf, RealLe);
    seq(|ordered|, i requires 0 <= i < |ordered| => SortMembers(ordered[i]))
  }

  /** `(abox, quad)` for every detector box, in detector order (line 164). */
  function TagAll(boxes: seq<Quad>): (items: seq<Item>)
    ensures Tagged(items) && |items| == |boxes|
    ensures forall i :: 0 <= i < |boxes| ==> items[i].1 == boxes[i]
  {
    seq(|boxes|, i requires 0 <= i < |boxes| => (QuadToABox(boxes[i]), boxes[i]))
  }

  /** The boxes in `(y_top, x_left)` order (line 165), each with its hull. */
  function VisitOrder(boxes: seq<Quad>): (items: seq<Item>)
    ensures Tagged(items)
  {
    var items := SortBy(TagAll(boxes), TopLeftOf, PairLe);
    SortByPermutes(TagAll(boxes), TopLeftOf, PairLe);
    PermutationKeeps(items, TagAll(boxes), IsTagged);
    items
  }

  /**
   * The visit order is sorted by `(y_top, x_left)`, and the sort is stable:
   * boxes with the same top-left corner keep their detector order.
   */
  lemma VisitOrderSorted(boxes: seq<Quad>)
    ensures SortedBy(VisitOrder(boxes), TopLeftOf, PairLe)
    ensures forall k :: KeyFilter(VisitOrder(boxes), TopLeftOf, k) == KeyFilter(TagAll(boxes), TopLeftOf, k)
  {
    PairLeIsTotalOrder();
    SortBySorted(TagAll(boxes), TopLeftOf, PairLe);
    forall k {
      SortByStable(TagAll(boxes), TopLeftOf, PairLe, k);
    }
  }

  /** What `_group_lines_ratio(boxes)` returns. */
  function Grouped(boxes: seq<Quad>): seq<Line>
  {
    Finished(PlaceAll(VisitOrder(boxes)))
  }

  lemma SortMembersPermutes(ln: Line)
    ensures multiset(Members(SortMembers(ln))) == multiset(Members(ln))
    ensures Members(SortMembers(ln)) == SortBy(Members(ln), LeftOf, RealLe)
  {
    var items := SortBy(Members(ln), LeftOf, RealLe);
    SortByPermutes(Members(ln), LeftOf, RealLe);
    ZipUnzip(items);
  }

  lemma {:induction false} SortEachMembers(s: seq<Line>)
    ensures multiset(AllMembers(seq(|s|, i requires 0 <= i < |s| => SortMembers(s[i]))))
         == multiset(AllMembers(s))
  {
    var t := seq(|s|, i requires 0 <= i < |s| => SortMembers(s[i]));
    if s != [] {
      SortEachMembers(s[1..]);
      assert t[1..] == seq(|s[1..]|, i requires 0 <= i < |s[1..]| => SortMembers(s[1..][i]));
      SortMembersPermutes(s[0]);
    }
  }

  /**
   * Partition: every detector box ends up in exactly one line, paired with its
   * own hull; the lines hold nothing else.
   */
  lemma GroupedPartition(boxes: seq<Quad>)
    ensures multiset(AllMembers(Grouped(boxes))) == multiset(TagAll(boxes))
    ensures |AllMembers(Grouped(boxes))| == |boxes|
  {
    var visit := VisitOrder(boxes);
    var placed := PlaceAll(visit);
    var ordered := SortBy(placed, YMidOf, RealLe);
    SortByPermutes(TagAll(boxes), TopLeftOf, PairLe);
    PlaceAllMembers(visit);
    SortByFlatten(placed, YMidOf, RealLe, Members);
    SortEachMembers(ordered);
    assert |multiset(AllMembers(Grouped(boxes)))| == |multiset(TagAll(boxes))|;
  }

  /** No detector box, no line. */
  lemma GroupedEmpty()
    ensures Grouped([]) == []
  {
    assert VisitOrder([]) == [];
  }

  /** A line's members are its boxes zipped with their quads; pairing means every member is tagged. */
  lemma PairedMembers(ln: Line)
    requires |ln.aboxes| == |ln.quads| > 0
    ensures Paired(ln) <==> Tagged(Members(ln))
  {
    var m := Members(ln);
    if Tagged(m) {
      forall i | 0 <= i < |ln.aboxes|
        ensures ln.aboxes[i] == QuadToABox(ln.quads[i])
      {
        assert IsTagged(m[i]);
      }
    }
  }

  /** One finished line: still paired, and its boxes in non-decreasing left edge. */
  lemma SortMembersFacts(ln: Line)
    requires Paired(ln)
    ensures Paired(SortMembers(ln)) && SortedBy(Members(SortMembers(ln)), LeftOf, RealLe)
  {
    var r := SortMembers(ln);
    RealLeIsTotalOrder();
    SortMembersPermutes(ln);
    SortBySorted(Members(ln), LeftOf, RealLe);
    PairedMembers(ln);
    PermutationKeeps(Members(r), Members(ln), IsTagged);
    PairedMembers(r);
  }

  /** The finishing sorts keep every line paired and order lines and boxes. */
  lemma FinishedFacts(placed: seq<Line>)
    requires AllValid(placed)
    ensures var lines := Finished(placed);
            && |lines| == |placed|
            && SortedBy(lines, YMidOf, RealLe)
            && forall i :: 0 <= i < |lines| ==>
                 Paired(lines[i]) && SortedBy(Members(lines[i]), LeftOf, RealLe)
  {
    var ordered := SortBy(placed, YMidOf, RealLe);
    RealLeIsTotalOrder();
    SortBySorted(placed, YMidOf, RealLe);
    SortByPermutes(placed, YMidOf, RealLe);
    PermutationKeeps(ordered, placed, ValidLine);
    forall i | 0 <= i < |ordered|
      ensures Paired(SortMembers(ordered[i])) && SortedBy(Members(SortMembers(ordered[i])), LeftOf, RealLe)
    {
      SortMembersFacts(ordered[i]);
    }
  }

  /**
   * Ordering: the lines come in non-decreasing `y_mid`, each line's boxes in
   * non-decreasing left edge; every line is non-empty and pairs each box with
   * the hull of its quad; there are at most as many lines as boxes.
   */
  lemma GroupedOrdered(boxes: seq<Quad>)
    ensures var lines := Grouped(boxes);
            && |lines| <= |boxes|
            && SortedBy(lines, YMidOf, RealLe)
            && forall i :: 0 <= i < |lines| ==>
                 Paired(lines[i]) && SortedBy(Members(lines[i]), LeftOf, RealLe)
  {
    SortByPermutes(TagAll(boxes), TopLeftOf, PairLe);
    FinishedFacts(PlaceAll(VisitOrder(boxes)));
  }

  /** Stability of the line sort: lines with equal `y_mid` keep their creation order. */
  lemma LineOrderStable(lines: seq<Line>, y: real)
    ensures KeyFilter(SortBy(lines, YMidOf, RealLe), YMidOf, y) == KeyFilter(lines, YMidOf, y)
  {
    RealLeIsTotalOrder();
    SortByStable(lines, YMidOf, RealLe, y);
  }

  /** Stability of the box sort: boxes of a line with equal left edge keep their order. */
  lemma MemberOrderStable(ln: Line, x: real)
    ensures KeyFilter(Members(SortMembers(ln)), LeftOf, x) == KeyFilter(Members(ln), LeftOf, x)
  {
    RealLeIsTotalOrder();
    SortMembersPermutes(ln);
    SortByStable(Members(ln), LeftOf, RealLe, x);
  }

  /**
   * The state of `_group_lines_ratio`: the list of line records it grows and
   * updates while it visits the boxes.
   */
  class LineGrouper {
    var lines: seq<Line>

    ghost predicate Valid()
      reads this
    {
      AllValid(lines)
    }

    constructor ()
      ensures Valid() && lines == []
    {
      lines := [];
    }

    /** Lines 168-172: the index of the first line that accepts `ab`, `|lines|` if none does. */
    method FindLine(ab: ABox) returns (k: nat)
      requires YOrdered(ab) && AllYOrdered(lines)
      ensures k == FirstAccepting(lines, ab)
    {
      k := 0;
      while k < |lines|
        invariant k <= |lines|
        invariant forall j :: 0 <= j < k ==> !Accepts(lines[j], ab)
      {
        if Accepts(lines[k], ab) {
          break;
        }
        k := k + 1;
      }
      FirstAcceptingUnique(lines, ab, k);
    }

    /** Lines 168-189: the first accepting line takes the box, else a new line is started. */
    method Place(ab: ABox, q: Quad)
      requires Valid() && ab == QuadToABox(q)
      modifies this
      ensures Valid()
      ensures AllYOrdered(old(lines)) && lines == PlaceInto(old(lines), ab, q)
    {
      PlaceIntoValid(lines, ab, q);
      var k := FindLine(ab);
      if k < |lines| {
        lines := lines[k := Join(lines[k], ab, q)];
      } else {
        lines := lines + [Seed(ab, q)];
      }
    }

    /** Lines 190-195: sort the lines by `y_mid`, then each line's boxes by left edge. */
    method Finish()
      modifies this
      ensures lines == Finished(old(lines))
    {
      lines := SortBy(lines, YMidOf, RealLe);
      ghost var ordered := lines;
      var i := 0;
      while i < |lines|
        invariant 0 <= i <= |lines| == |ordered|
        invariant forall j :: 0 <= j < i ==> lines[j] == SortMembers(ordered[j])
        invariant forall j :: i <= j < |lines| ==> lines[j] == ordered[j]
      {
        lines := lines[i := SortMembers(lines[i])];
        i := i + 1;
      }
    }
  }

  /** `_group_lines_ratio`: visit the boxes in `(y_top, x_left)` order, place each, then sort. */
  method GroupLinesRatio(boxes: seq<Quad>) returns (lines: seq<Line>)
    ensures lines == Grouped(boxes)
  {
    var items := VisitOrder(boxes);
    var grouper := new LineGrouper();
    var i := 0;
    while i < |items|
      invariant 0 <= i <= |items|
      invariant grouper.Valid()
      invariant grouper.lines == PlaceAll(items[..i])
    {
      PrefixGrow(items, i);
      grouper.Place(items[i].0, items[i].1);
      i := i + 1;
    }
    PrefixWhole(items);
    grouper.Finish();
    lines := grouper.lines;
  }
}
