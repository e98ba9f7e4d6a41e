/**
 * 8-bit images as flat sequences of channel values, with the two operations
 * the preprocessing steps decide on: the mean intensity and `bitwise_not`.
 */
module Pixels {
  /** A channel value of an 8-bit image. */
  predicate IsByte(v: int) { 0 <= v <= 255 }

  predicate AllBytes(p: seq<int>) { forall i :: 0 <= i < |p| ==> IsByte(p[i]) }

  function Sum(p: seq<int>): int
  {
    if p == [] then 0 else Sum(p[..|p| - 1]) + p[|p| - 1]
  }

  /** `np.mean`; an empty image has no mean (numpy yields NaN, which no comparison accepts). */
  function Mean(p: seq<int>): real
    requires |p| > 0
  {
    Sum(p) as real / |p| as real
  }

  /** `cv2.bitwise_not` on 8-bit values: every value `v` becomes `255 - v`. */
  function Invert(p: seq<int>): (r: seq<int>)
    ensures |r| == |p|
    ensures forall i :: 0 <= i < |p| ==> r[i] == 255 - p[i]
  {
    if p == [] then [] else Invert(p[..|p| - 1]) + [255 - p[|p| - 1]]
  }

  /** Inverting keeps the values 8-bit. */
  lemma InvertBytes(p: seq<int>)
    requires AllBytes(p)
    ensures AllBytes(Invert(p))
  {
  }

  /** Inverting twice gives the image back. */
  lemma InvertInvolutive(p: seq<int>)
    ensures Invert(Invert(p)) == p
  {
  }

  /** No 8-bit image is its own inverse, since `255 - v == v` has no integer solution. */
  lemma InvertChanges(img: seq<int>)
    requires |img| > 0
    ensures Invert(img) != img
  {
    assert Invert(img)[0] == 255 - img[0];
  }

  /** The total intensity of the inverse is the complement of the total. */
  lemma {:induction false} SumInvert(p: seq<int>)
    ensures Sum(Invert(p)) == 255 * |p| - Sum(p)
  {
    if p != [] {
      var init := p[..|p| - 1];
      SumInvert(init);
      assert Invert(p)[..|p| - 1] == Invert(init);
    }
  }

  /** Comparing the mean with a threshold is comparing the total with `threshold * |p|`. */
  lemma MeanAbove(p: seq<int>, c: real)
    requires |p| > 0
    ensures Mean(p) > c <==> Sum(p) as real > c * |p| as real
    ensures Mean(p) < c <==> Sum(p) as real < c * |p| as real
  {
    var n, s := |p| as real, Sum(p) as real;
    DivCompare(s, n, c);
  }

  lemma DivCompare(s: real, n: real, c: real)
    requires n > 0.0
    ensures s / n > c <==> s > c * n
    ensures s / n < c <==> s < c * n
  {
    var q := s / n;
    assert s == q * n;
    if q > c {
      assert q * n > c * n;
    } else {
      assert q * n <= c * n;
    }
    if q < c {
      assert q * n < c * n;
    } else {
      assert q * n >= c * n;
    }
  }
}
