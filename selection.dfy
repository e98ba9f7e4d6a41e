/**
 * Picking the best of several preprocessed variants of an image by a score:
 * `np.argmax` over a score list, and Python's `max` with a key, both return the
 * FIRST element whose score is largest.
 */
module Selection {
  import opened Ordering

  function Scores<T>(s: seq<T>, score: T -> real): (r: seq<real>)
    ensures |r| == |s|
    ensures forall i :: 0 <= i < |s| ==> r[i] == score(s[i])
  {
    if s == [] then [] else [score(s[0])] + Scores(s[1..], score)
  }

  /** The first maximum is the only index that is a maximum with nothing as large before it. */
  lemma ArgMaxUnique(s: seq<real>, k: nat)
    requires k < |s|
    requires forall j :: 0 <= j < |s| ==> s[j] <= s[k]
    requires forall j :: 0 <= j < k ==> s[j] < s[k]
    ensures k == ArgMax(s)
  {
  }

  /** The position of the first element of `s` with the largest score. */
  function BestIndex<T>(s: seq<T>, score: T -> real): (k: nat)
    requires |s| > 0
    ensures k < |s|
    ensures forall j :: 0 <= j < |s| ==> score(s[j]) <= score(s[k])
    ensures forall j :: 0 <= j < k ==> score(s[j]) < score(s[k])
  {
    var sc := Scores(s, score);
    var k := ArgMax(sc);
    assert forall j :: 0 <= j < |s| ==> sc[j] <= sc[k];
    k
  }

  /** The first element of `s` with the largest score. */
  function BestBy<T>(s: seq<T>, score: T -> real): T
    requires |s| > 0
  {
    s[BestIndex(s, score)]
  }

  /** The preprocessed variants, in the order the candidate dictionaries list them. */
  datatype Variant = NoNoise | Thin | Thick

  const Variants: seq<Variant> := [NoNoise, Thin, Thick]

  /** `max(candidates.items(), key=...)` over the three variants, given each variant's sharpness. */
  function PickVariant(score: Variant -> real): Variant
  {
    BestBy(Variants, score)
  }

  /**
   * The variant picked is the sharpest, and ties go to the one listed first:
   * the denoised image wins every tie, the thinned one wins a tie with the
   * thickened one.
   */
  lemma PickVariantCases(score: Variant -> real)
    ensures PickVariant(score) == NoNoise <==> score(NoNoise) >= score(Thin) && score(NoNoise) >= score(Thick)
    ensures PickVariant(score) == Thin <==> score(Thin) > score(NoNoise) && score(Thin) >= score(Thick)
    ensures PickVariant(score) == Thick <==> score(Thick) > score(NoNoise) && score(Thick) > score(Thin)
  {
    var k := BestIndex(Variants, score);
    assert Variants[0] == NoNoise && Variants[1] == Thin && Variants[2] == Thick;
    assert score(Variants[k]) >= score(Variants[0]);
    assert score(Variants[k]) >= score(Variants[1]);
    assert score(Variants[k]) >= score(Variants[2]);
  }
}
