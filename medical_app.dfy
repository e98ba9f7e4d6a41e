/**
 * The Streamlit medical-record page (n6_ocrmedical/src/app.py): the
 * brightness decision, the choice of the sharpest variant, the safe crops
 * of the detector boxes, the recognition loop and the pairing of boxes with
 * texts for the overlay.
 */
module MedicalApp {
  import opened Wrappers
  import opened Ordering
  import opened Geometry
  import opened Pixels
  import opened Selection

  // ---------------------------------------------------------------------
  // Preprocessing decisions.
  // ---------------------------------------------------------------------

  /** `auto_invert_if_needed` (lines 21-24) on a grey image: inverted when its mean is above 127. */
  function AutoInvertDark(img: seq<int>): (r: seq<int>)
    ensures r == img || r == Invert(img)
  {
    if |img| > 0 && Mean(img) > 127.0 then Invert(img) else img
  }

  /** A light page comes out dark: whatever the input, the mean of the result is below 128. */
  lemma AutoInvertDarkMean(img: seq<int>)
    requires |img| > 0
    ensures Mean(AutoInvertDark(img)) < 128.0
  {
    MeanAbove(img, 127.0);
    MeanAbove(img, 128.0);
    if Mean(img) > 127.0 {
      SumInvert(img);
      MeanAbove(Invert(img), 128.0);
    }
  }

  /** A non-empty image is inverted exactly when its mean is above 127. */
  lemma AutoInvertDarkDecision(img: seq<int>)
    requires |img| > 0
    ensures AutoInvertDark(img) == Invert(img) <==> Mean(img) > 127.0
  {
    InvertChanges(img);
  }

  /**
   * `best_sharp_image` (lines 40-42): the first candidate with the largest
   * sharpness, as `np.argmax` picks it; the candidate list must not be empty.
   */
  lemma BestSharpIsFirstMaximum<I>(imgs: seq<I>, sharpness: I -> real)
    requires |imgs| > 0
    ensures BestBy(imgs, sharpness) in imgs
    ensures forall j :: 0 <= j < |imgs| ==> sharpness(imgs[j]) <= sharpness(BestBy(imgs, sharpness))
    ensures forall j :: 0 <= j < BestIndex(imgs, sharpness) ==> sharpness(imgs[j]) < sharpness(BestBy(imgs, sharpness))
  {
  }

  // ---------------------------------------------------------------------
  // Safe crops.
  // ---------------------------------------------------------------------

  /** The slice `img[y1:y2, x1:x2]`: the upper ends are exclusive. */
  datatype Rect = Rect(x1: int, y1: int, x2: int, y2: int)

  /** A non-empty slice lying within a `w` by `h` image. */
  predicate InBounds(r: Rect, w: int, h: int)
  {
    0 <= r.x1 < r.x2 <= w && 0 <= r.y1 < r.y2 <= h
  }

  /**
   * Lines 56-62 for one box: truncate the corners, clamp the low sides to 0
   * and the high sides to `w` and `h`, and keep the slice only when it is not
   * empty. (The least truncated corner is the truncated least corner, since
   * truncation is monotone.)
   */
  function SafeRect(q: Quad, w: int, h: int): (r: Option<Rect>)
    ensures r.Some? ==> InBounds(r.value, w, h)
  {
    var x1, x2 := MaxInt(0, Trunc(Min(Xs(q)))), MinInt(w, Trunc(Max(Xs(q))));
    var y1, y2 := MaxInt(0, Trunc(Min(Ys(q)))), MinInt(h, Trunc(Max(Ys(q))));
    if x2 > x1 && y2 > y1 then Some(Rect(x1, y1, x2, y2)) else None
  }

  /** A box whose truncated hull already lies in the image, with some width and height, is kept as it is. */
  lemma SafeRectKeepsInside(q: Quad, w: int, h: int)
    requires 0 <= Trunc(Min(Xs(q))) < Trunc(Max(Xs(q))) <= w
    requires 0 <= Trunc(Min(Ys(q))) < Trunc(Max(Ys(q))) <= h
    ensures SafeRect(q, w, h) == Some(Rect(Trunc(Min(Xs(q))), Trunc(Min(Ys(q))), Trunc(Max(Xs(q))), Trunc(Max(Ys(q)))))
  {
    var x1, x2, y1, y2 := Trunc(Min(Xs(q))), Trunc(Max(Xs(q))), Trunc(Min(Ys(q))), Trunc(Max(Ys(q)));
    assert MaxInt(0, x1) == x1 && MinInt(w, x2) == x2;
    assert MaxInt(0, y1) == y1 && MinInt(h, y2) == y2;
  }

  /** A box starting at or beyond the right or bottom edge is dropped. */
  lemma SafeRectDropsOutside(q: Quad, w: int, h: int)
    requires Trunc(Min(Xs(q))) >= w || Trunc(Min(Ys(q))) >= h
    ensures SafeRect(q, w, h) == None
  {
    TruncMonotone(Min(Xs(q)), Max(Xs(q)));
    TruncMonotone(Min(Ys(q)), Max(Ys(q)));
  }

  /** The per-box step of `safe_crops` for a `w` by `h` image. */
  function SafeCut(w: int, h: int): Quad -> Option<Rect>
  {
    q => SafeRect(q, w, h)
  }

  /** The boxes a filtering step `cut` accepts, in input order. */
  function Kept<T, R>(boxes: seq<T>, cut: T -> Option<R>): (ks: seq<T>)
    ensures |ks| <= |boxes|
  {
    if boxes == [] then []
    else
      var last := boxes[|boxes| - 1];
      Kept(boxes[..|boxes| - 1], cut) + if cut(last).Some? then [last] else []
  }

  /** What `cut` yields for the boxes it accepts, in input order. */
  function Cuts<T, R>(boxes: seq<T>, cut: T -> Option<R>): (cs: seq<R>)
    ensures |cs| <= |boxes|
  {
    if boxes == [] then []
    else
      var last := boxes[|boxes| - 1];
      Cuts(boxes[..|boxes| - 1], cut) + match cut(last) case Some(r) => [r] case None => []
  }

  /** The `i`-th result is what `cut` yields for the `i`-th accepted box. */
  ghost predicate CutsMatch<T, R>(ks: seq<T>, cs: seq<R>, cut: T -> Option<R>)
  {
    |ks| == |cs| && forall i :: 0 <= i < |cs| ==> cut(ks[i]) == Some(cs[i])
  }

  lemma {:induction false} CutsOfKept<T, R>(boxes: seq<T>, cut: T -> Option<R>)
    ensures CutsMatch(Kept(boxes, cut), Cuts(boxes, cut), cut)
  {
    if boxes != [] {
      var init, last := boxes[..|boxes| - 1], boxes[|boxes| - 1];
      CutsOfKept(init, cut);
      var ks, cs := Kept(init, cut), Cuts(init, cut);
      match cut(last)
      case Some(r) =>
        assert Kept(boxes, cut) == ks + [last];
        assert Cuts(boxes, cut) == cs + [r];
      case None =>
        assert Kept(boxes, cut) == ks + [];
        assert Cuts(boxes, cut) == cs + [];
        assert ks + [] == ks && cs + [] == cs;
    }
  }

  /** No box is dropped exactly when there are as many results as boxes. */
  lemma {:induction false} CutsAll<T, R>(boxes: seq<T>, cut: T -> Option<R>)
    ensures |Cuts(boxes, cut)| == |boxes| <==> forall i :: 0 <= i < |boxes| ==> cut(boxes[i]).Some?
  {
    if boxes != [] {
      var init := boxes[..|boxes| - 1];
      CutsAll(init, cut);
      assert forall i :: 0 <= i < |init| ==> init[i] == boxes[i];
    }
  }

  /** Filtering works box by box: the results for two runs of boxes are those of each in turn. */
  lemma {:induction false} CutsAppend<T, R>(a: seq<T>, b: seq<T>, cut: T -> Option<R>)
    ensures Cuts(a + b, cut) == Cuts(a, cut) + Cuts(b, cut)
  {
    if b != [] {
      var init := b[..|b| - 1];
      CutsAppend(a, init, cut);
      assert (a + b)[..|a + b| - 1] == a + init;
      assert (a + b)[|a + b| - 1] == b[|b| - 1];
    } else {
      assert a + b == a;
    }
  }

  /** When no box is dropped, the accepted boxes are all the boxes. */
  lemma {:induction false} KeptAll<T, R>(boxes: seq<T>, cut: T -> Option<R>)
    requires forall i :: 0 <= i < |boxes| ==> cut(boxes[i]).Some?
    ensures Kept(boxes, cut) == boxes
  {
    if boxes != [] {
      var init := boxes[..|boxes| - 1];
      assert forall i :: 0 <= i < |init| ==> init[i] == boxes[i];
      KeptAll(init, cut);
      SplitLast(boxes);
    }
  }

  /** Every slice `safe_crops` returns is non-empty and lies within the image. */
  lemma SafeCropsInBounds(boxes: seq<Quad>, w: int, h: int)
    ensures var cs := Cuts(boxes, SafeCut(w, h));
            forall i :: 0 <= i < |cs| ==> InBounds(cs[i], w, h)
  {
    var ks, cs := Kept(boxes, SafeCut(w, h)), Cuts(boxes, SafeCut(w, h));
    CutsOfKept(boxes, SafeCut(w, h));
    forall i | 0 <= i < |cs|
      ensures InBounds(cs[i], w, h)
    {
      assert SafeRect(ks[i], w, h) == Some(cs[i]);
    }
  }

  /** `safe_crops` (lines 52-63). */
  method SafeCrops(boxes: seq<Quad>, w: int, h: int) returns (crops: seq<Rect>)
    ensures crops == Cuts(boxes, SafeCut(w, h))
  {
    crops := [];
    var i := 0;
    while i < |boxes|
      invariant 0 <= i <= |boxes|
      invariant crops == Cuts(boxes[..i], SafeCut(w, h))
    {
      PrefixGrow(boxes, i);
      match SafeRect(boxes[i], w, h) {
        case Some(r) =>
          crops := crops + [r];
        case None =>
          assert crops + [] == crops;
      }
      i := i + 1;
    }
    PrefixWhole(boxes);
  }

  // ---------------------------------------------------------------------
  // Recognition.
  // ---------------------------------------------------------------------

  /** The recognizer applied to a slice; `None` stands for an exception. */
  type Recognizer = Rect -> Option<string>

  /** `crop.size` of a slice of a grey image. */
  function Area(r: Rect): int
  {
    (r.x2 - r.x1) * (r.y2 - r.y1)
  }

  /** What the recognition loop collects: one text per crop of positive size, `""` on an exception. */
  function Texts(crops: seq<Rect>, rec: Recognizer): (ts: seq<string>)
    ensures |ts| <= |crops|
  {
    if crops == [] then []
    else
      var last := crops[|crops| - 1];
      Texts(crops[..|crops| - 1], rec) + if Area(last) > 0 then [rec(last).GetOr("")] else []
  }

  /** The `i`-th text is what the recognizer read from the `i`-th crop. */
  ghost predicate OnePerCrop(crops: seq<Rect>, ts: seq<string>, rec: Recognizer)
  {
    |ts| == |crops| && forall i :: 0 <= i < |ts| ==> ts[i] == rec(crops[i]).GetOr("")
  }

  /** Every safe crop has positive size, so the loop yields exactly one text per crop. */
  lemma {:induction false} TextsOnePerCrop(crops: seq<Rect>, rec: Recognizer, w: int, h: int)
    requires forall i :: 0 <= i < |crops| ==> InBounds(crops[i], w, h)
    ensures OnePerCrop(crops, Texts(crops, rec), rec)
  {
    if crops != [] {
      var init, last := crops[..|crops| - 1], crops[|crops| - 1];
      TextsOnePerCrop(init, rec, w, h);
      assert InBounds(last, w, h);
      PositiveArea(last);
      assert Texts(crops, rec) == Texts(init, rec) + [rec(last).GetOr("")];
    }
  }

  lemma PositiveArea(r: Rect)
    requires r.x1 < r.x2 && r.y1 < r.y2
    ensures Area(r) > 0
  {
    MulPositive(r.x2 - r.x1, r.y2 - r.y1);
  }

  lemma MulPositive(a: int, b: int)
    requires a > 0 && b > 0
    ensures a * b > 0
  {
  }

  /** Lines 119-127: recognise each crop of positive size. */
  method Recognise(crops: seq<Rect>, rec: Recognizer) returns (txts: seq<string>)
    ensures txts == Texts(crops, rec)
  {
    txts := [];
    var i := 0;
    while i < |crops|
      invariant 0 <= i <= |crops|
      invariant txts == Texts(crops[..i], rec)
    {
      PrefixGrow(crops, i);
      var crop := crops[i];
      if Area(crop) > 0 {
        var txt := match rec(crop) case None => "" case Some(t) => t;
        txts := txts + [txt];
      } else {
        assert txts + [] == txts;
      }
      i := i + 1;
    }
    PrefixWhole(crops);
  }

  // ---------------------------------------------------------------------
  // The overlay pairing.
  // ---------------------------------------------------------------------

  /**
   * `overlay_result` as written (lines 44-45): the texts are zipped with ALL
   * detector boxes, although they were read from the accepted boxes only.
   */
  function OverlayAsWritten<T>(boxes: seq<T>, cut: T -> Option<Rect>, rec: Recognizer): seq<(T, string)>
  {
    Zip(boxes, Texts(Cuts(boxes, cut), rec))
  }

  /**
   * Whenever a first box is dropped and a second one kept, the drawing puts
   * the second box's text on the first box and leaves the second unlabelled.
   */
  lemma OverlayShiftsTexts<T>(a: T, b: T, r: Rect, cut: T -> Option<Rect>, rec: Recognizer)
    requires cut(a) == None && cut(b) == Some(r) && r.x1 < r.x2 && r.y1 < r.y2
    ensures OverlayAsWritten([a, b], cut, rec) == [(a, rec(r).GetOr(""))]
  {
    var boxes := [a, b];
    assert boxes[..1] == [a] && [a][..0] == [];
    assert Cuts([a], cut) == [];
    assert Cuts(boxes, cut) == [r];
    PositiveArea(r);
    assert [r][..0] == [];
    assert Texts([r], rec) == [rec(r).GetOr("")];
  }

  /** The axis-aligned box with integer corners `(x1, y1)` and `(x2, y2)`, as a detector would report it. */
  function Box(x1: int, y1: int, x2: int, y2: int): Quad
  {
    Quad(Point(x1 as real, y1 as real), Point(x2 as real, y1 as real),
         Point(x2 as real, y2 as real), Point(x1 as real, y2 as real))
  }

  /** The hull of the corner coordinates `[a, b, b, a]` runs from `a` to `b`. */
  lemma SpanHull(a: real, b: real)
    requires a <= b
    ensures Min([a, b, b, a]) == a && Max([a, b, b, a]) == b
  {
    var s := [a, b, b, a];
    assert Min(s) in s && Max(s) in s;
  }

  lemma TruncWhole(n: int)
    ensures Trunc(n as real) == n
  {
  }

  lemma BoxHull(x1: int, y1: int, x2: int, y2: int)
    requires x1 <= x2 && y1 <= y2
    ensures var q := Box(x1, y1, x2, y2);
            Trunc(Min(Xs(q))) == x1 && Trunc(Max(Xs(q))) == x2
            && Trunc(Min(Ys(q))) == y1 && Trunc(Max(Ys(q))) == y2
  {
    var q := Box(x1, y1, x2, y2);
    assert Xs(q) == [x1 as real, x2 as real, x2 as real, x1 as real];
    assert Ys(q) == [y1 as real, y1 as real, y2 as real, y2 as real];
    SpanHull(x1 as real, x2 as real);
    SpanHull2(y1 as real, y2 as real);
    TruncWhole(x1);
    TruncWhole(x2);
    TruncWhole(y1);
    TruncWhole(y2);
  }

  /** The hull of the corner coordinates `[a, a, b, b]` runs from `a` to `b`. */
  lemma SpanHull2(a: real, b: real)
    requires a <= b
    ensures Min([a, a, b, b]) == a && Max([a, a, b, b]) == b
  {
    var s := [a, a, b, b];
    assert Min(s) in s && Max(s) in s;
  }

  /** A box lying inside the image is kept with its own corners. */
  lemma BoxInsideKept(x1: int, y1: int, x2: int, y2: int, w: int, h: int)
    requires 0 <= x1 < x2 <= w && 0 <= y1 < y2 <= h
    ensures SafeRect(Box(x1, y1, x2, y2), w, h) == Some(Rect(x1, y1, x2, y2))
  {
    BoxHull(x1, y1, x2, y2);
    SafeRectKeepsInside(Box(x1, y1, x2, y2), w, h);
  }

  /** A box starting at or right of the image's right edge is dropped. */
  lemma BoxRightDropped(x1: int, y1: int, x2: int, y2: int, w: int, h: int)
    requires w <= x1 <= x2 && y1 <= y2
    ensures SafeRect(Box(x1, y1, x2, y2), w, h) == None
  {
    BoxHull(x1, y1, x2, y2);
    SafeRectDropsOutside(Box(x1, y1, x2, y2), w, h);
  }

  /**
   * On the page: for a box right of a 100 by 100 image followed by a box
   * inside it, the text read inside the image is drawn on the box outside it.
   */
  lemma OverlayShiftExample(rec: Recognizer)
    ensures OverlayAsWritten([Box(150, 10, 170, 20), Box(10, 10, 30, 20)], SafeCut(100, 100), rec)
            == [(Box(150, 10, 170, 20), rec(Rect(10, 10, 30, 20)).GetOr(""))]
  {
    BoxRightDropped(150, 10, 170, 20, 100, 100);
    BoxInsideKept(10, 10, 30, 20, 100, 100);
    OverlayShiftsTexts(Box(150, 10, 170, 20), Box(10, 10, 30, 20), Rect(10, 10, 30, 20), SafeCut(100, 100), rec);
  }

  /** The overlay as intended: each accepted box with the text read from its own slice. */
  function Overlay<T>(boxes: seq<T>, cut: T -> Option<Rect>, rec: Recognizer): seq<(T, string)>
  {
    Zip(Kept(boxes, cut), Texts(Cuts(boxes, cut), rec))
  }

  /**
   * Every kept box is labelled, and with the text of its own slice; when no
   * box is dropped this is what the page draws.
   */
  lemma OverlayOwnText(boxes: seq<Quad>, rec: Recognizer, w: int, h: int)
    ensures var o: seq<(Quad, string)> := Overlay(boxes, SafeCut(w, h), rec);
            && |o| == |Kept(boxes, SafeCut(w, h))|
            && forall i :: 0 <= i < |o| ==>
                 SafeRect(o[i].0, w, h).Some? && o[i].1 == rec(SafeRect(o[i].0, w, h).value).GetOr("")
    ensures (forall i :: 0 <= i < |boxes| ==> SafeRect(boxes[i], w, h).Some?) ==>
              Overlay(boxes, SafeCut(w, h), rec) == OverlayAsWritten(boxes, SafeCut(w, h), rec)
  {
    var cut := SafeCut(w, h);
    var ks, cs := Kept(boxes, cut), Cuts(boxes, cut);
    CutsOfKept(boxes, cut);
    SafeCropsInBounds(boxes, w, h);
    TextsOnePerCrop(cs, rec, w, h);
    var o := Overlay(boxes, cut, rec);
    forall i | 0 <= i < |o|
      ensures SafeRect(o[i].0, w, h).Some? && o[i].1 == rec(SafeRect(o[i].0, w, h).value).GetOr("")
    {
      assert o[i] == (ks[i], Texts(cs, rec)[i]);
      assert cut(ks[i]) == Some(cs[i]);
    }
    if forall i :: 0 <= i < |boxes| ==> SafeRect(boxes[i], w, h).Some? {
      assert forall i :: 0 <= i < |boxes| ==> cut(boxes[i]).Some?;
      KeptAll(boxes, cut);
    }
  }
}
