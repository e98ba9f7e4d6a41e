/**
 * Order-related building blocks used by several scripts: a stable sort by key
 * (Python's `list.sort(key=...)` and `sorted`), the index of the first maximum
 * (`np.argmax` and `max(..., key=...)`), and the median of `np.median`.
 */
module Ordering {

  /** `le` is a total order on keys. */
  ghost predicate TotalOrder<K(!new)>(le: (K, K) -> bool)
  {
    && (forall a, b :: le(a, b) && le(b, a) ==> a == b)
    && (forall a, b, c :: le(a, b) && le(b, c) ==> le(a, c))
    && (forall a, b :: le(a, b) || le(b, a))
  }

  /** Every earlier element's key is at most every later element's key. */
  ghost predicate SortedBy<T, K>(s: seq<T>, key: T -> K, le: (K, K) -> bool)
  {
    forall i, j :: 0 <= i < j < |s| ==> le(key(s[i]), key(s[j]))
  }

  /** Inserts `x` after every element whose key is at most `x`'s key. */
  function Insert<T, K>(s: seq<T>, x: T, key: T -> K, le: (K, K) -> bool): seq<T>
  {
    if s == [] then [x]
    else if le(key(s[0]), key(x)) then [s[0]] + Insert(s[1..], x, key, le)
    else [x] + s
  }

  /** Stable sort by key: insertion sort that places each element after its equals. */
  function SortBy<T, K>(s: seq<T>, key: T -> K, le: (K, K) -> bool): seq<T>
  {
    if s == [] then [] else Insert(SortBy(s[..|s| - 1], key, le), s[|s| - 1], key, le)
  }

  /** The elements of `s` whose key is `k`, in their order in `s`. */
  function KeyFilter<T, K(==)>(s: seq<T>, key: T -> K, k: K): seq<T>
  {
    if s == [] then [] else (if key(s[0]) == k then [s[0]] else []) + KeyFilter(s[1..], key, k)
  }

  /** The concatenation of `f(x)` over the elements `x` of `s`. */
  function Flatten<T, U>(s: seq<T>, f: T -> seq<U>): seq<U>
  {
    if s == [] then [] else f(s[0]) + Flatten(s[1..], f)
  }

  function RealLe(a: real, b: real): bool { a <= b }

  function Id(x: real): real { x }

  /** Python's comparison of the pairs `(a0, a1)` and `(b0, b1)`. */
  function PairLe(a: (real, real), b: (real, real)): bool
  {
    a.0 < b.0 || (a.0 == b.0 && a.1 <= b.1)
  }

  lemma RealLeIsTotalOrder()
    ensures TotalOrder(RealLe)
  {
  }

  lemma PairLeIsTotalOrder()
    ensures TotalOrder(PairLe)
  {
  }

  lemma {:induction false} InsertPermutes<T, K>(s: seq<T>, x: T, key: T -> K, le: (K, K) -> bool)
    ensures multiset(Insert(s, x, key, le)) == multiset(s) + multiset{x}
    ensures |Insert(s, x, key, le)| == |s| + 1
  {
    if s != [] && le(key(s[0]), key(x)) {
      InsertPermutes(s[1..], x, key, le);
      assert s == [s[0]] + s[1..];
    }
  }

  /** Sorting only reorders: the result is a permutation of the input. */
  lemma {:induction false} SortByPermutes<T, K>(s: seq<T>, key: T -> K, le: (K, K) -> bool)
    ensures multiset(SortBy(s, key, le)) == multiset(s)
    ensures |SortBy(s, key, le)| == |s|
  {
    if s != [] {
      var init := s[..|s| - 1];
      SortByPermutes(init, key, le);
      InsertPermutes(SortBy(init, key, le), s[|s| - 1], key, le);
      assert s == init + [s[|s| - 1]];
    }
  }

  lemma {:induction false} InsertSorted<T, K(!new)>(s: seq<T>, x: T, key: T -> K, le: (K, K) -> bool)
    requires TotalOrder(le)
    requires SortedBy(s, key, le)
    ensures SortedBy(Insert(s, x, key, le), key, le)
  {
    var r := Insert(s, x, key, le);
    if s == [] {
    } else if le(key(s[0]), key(x)) {
      var tail := Insert(s[1..], x, key, le);
      InsertSorted(s[1..], x, key, le);
      InsertPermutes(s[1..], x, key, le);
      forall j | 0 <= j < |tail|
        ensures le(key(s[0]), key(tail[j]))
      {
        assert tail[j] in multiset(s[1..]) + multiset{x};
        if tail[j] != x {
          assert tail[j] in s[1..];
        }
      }
      assert r == [s[0]] + tail;
    } else {
      assert r == [x] + s;
      forall j | 0 <= j < |s|
        ensures le(key(x), key(s[j]))
      {
        if j > 0 {
          assert le(key(s[0]), key(s[j]));
        }
      }
    }
  }

  /** Sorting yields keys in non-decreasing order. */
  lemma {:induction false} SortBySorted<T, K(!new)>(s: seq<T>, key: T -> K, le: (K, K) -> bool)
    requires TotalOrder(le)
    ensures SortedBy(SortBy(s, key, le), key, le)
  {
    if s != [] {
      SortBySorted(s[..|s| - 1], key, le);
      InsertSorted(SortBy(s[..|s| - 1], key, le), s[|s| - 1], key, le);
    }
  }

  lemma {:induction false} KeyFilterAppend<T, K>(a: seq<T>, b: seq<T>, key: T -> K, k: K)
    ensures KeyFilter(a + b, key, k) == KeyFilter(a, key, k) + KeyFilter(b, key, k)
  {
    if a == [] {
      assert a + b == b;
    } else {
      KeyFilterAppend(a[1..], b, key, k);
      assert (a + b)[0] == a[0] && (a + b)[1..] == a[1..] + b;
      var h := if key(a[0]) == k then [a[0]] else [];
      calc {
        KeyFilter(a + b, key, k);
        h + KeyFilter(a[1..] + b, key, k);
        h + (KeyFilter(a[1..], key, k) + KeyFilter(b, key, k));
        (h + KeyFilter(a[1..], key, k)) + KeyFilter(b, key, k);
      }
    }
  }

  lemma {:induction false} KeyFilterNone<T, K>(s: seq<T>, key: T -> K, k: K)
    requires forall i :: 0 <= i < |s| ==> key(s[i]) != k
    ensures KeyFilter(s, key, k) == []
  {
    if s != [] {
      KeyFilterNone(s[1..], key, k);
    }
  }

  lemma SortedTail<T, K>(s: seq<T>, key: T -> K, le: (K, K) -> bool)
    requires s != [] && SortedBy(s, key, le)
    ensures SortedBy(s[1..], key, le)
  {
    var t := s[1..];
    forall i, j | 0 <= i < j < |t|
      ensures le(key(t[i]), key(t[j]))
    {
      assert t[i] == s[i + 1] && t[j] == s[j + 1];
    }
  }

  lemma {:induction false} InsertKeyFilter<T, K(!new)>(s: seq<T>, x: T, key: T -> K, le: (K, K) -> bool, k: K)
    requires TotalOrder(le)
    requires SortedBy(s, key, le)
    ensures KeyFilter(Insert(s, x, key, le), key, k)
         == KeyFilter(s, key, k) + (if key(x) == k then [x] else [])
  {
    if s == [] {
    } else if le(key(s[0]), key(x)) {
      var t := s[1..];
      SortedTail(s, key, le);
      InsertKeyFilter(t, x, key, le, k);
      var r := Insert(s, x, key, le);
      assert r[0] == s[0] && r[1..] == Insert(t, x, key, le);
      var head := if key(s[0]) == k then [s[0]] else [];
      var tail := if key(x) == k then [x] else [];
      calc {
        KeyFilter(r, key, k);
        head + KeyFilter(Insert(t, x, key, le), key, k);
        head + (KeyFilter(t, key, k) + tail);
        (head + KeyFilter(t, key, k)) + tail;
        KeyFilter(s, key, k) + tail;
      }
    } else {
      var r := Insert(s, x, key, le);
      assert r == [x] + s;
      assert r[1..] == s;
      if key(x) == k {
        forall i | 0 <= i < |s|
          ensures key(s[i]) != k
        {
          if i > 0 {
            assert le(key(s[0]), key(s[i]));
          }
        }
        KeyFilterNone(s, key, k);
      }
    }
  }

  /**
   * Stability: for every key, the elements carrying it appear in the sorted
   * result in the same order as in the input.
   */
  lemma {:induction false} SortByStable<T, K(!new)>(s: seq<T>, key: T -> K, le: (K, K) -> bool, k: K)
    requires TotalOrder(le)
    ensures KeyFilter(SortBy(s, key, le), key, k) == KeyFilter(s, key, k)
  {
    if s != [] {
      var init, last := s[..|s| - 1], s[|s| - 1];
      SortByStable(init, key, le, k);
      SortBySorted(init, key, le);
      InsertKeyFilter(SortBy(init, key, le), last, key, le, k);
      assert s == init + [last];
      KeyFilterAppend(init, [last], key, k);
    }
  }

  lemma {:induction false} FlattenAppend<T, U>(a: seq<T>, b: seq<T>, f: T -> seq<U>)
    ensures Flatten(a + b, f) == Flatten(a, f) + Flatten(b, f)
  {
    if a == [] {
      assert a + b == b;
    } else {
      FlattenAppend(a[1..], b, f);
      assert (a + b)[0] == a[0] && (a + b)[1..] == a[1..] + b;
      calc {
        Flatten(a + b, f);
        f(a[0]) + Flatten(a[1..] + b, f);
        f(a[0]) + (Flatten(a[1..], f) + Flatten(b, f));
        (f(a[0]) + Flatten(a[1..], f)) + Flatten(b, f);
      }
    }
  }

  /** Flattening one more element appends its part. */
  lemma FlattenSnoc<T, U>(s: seq<T>, x: T, f: T -> seq<U>)
    ensures Flatten(s + [x], f) == Flatten(s, f) + f(x)
  {
    FlattenAppend(s, [x], f);
    assert [x][1..] == [];
    assert Flatten([x], f) == f(x) + Flatten([], f);
  }

  lemma {:induction false} InsertFlatten<T, K, U>(s: seq<T>, x: T, key: T -> K, le: (K, K) -> bool, f: T -> seq<U>)
    ensures multiset(Flatten(Insert(s, x, key, le), f)) == multiset(Flatten(s, f)) + multiset(f(x))
  {
    if s != [] && le(key(s[0]), key(x)) {
      InsertFlatten(s[1..], x, key, le, f);
    }
  }

  /** Growing one part by `e` adds exactly `e` to the concatenation. */
  lemma {:induction false} FlattenGrowPart<T, U>(s: seq<T>, k: nat, x: T, f: T -> seq<U>, e: U)
    requires k < |s| && f(x) == f(s[k]) + [e]
    ensures multiset(Flatten(s[k := x], f)) == multiset(Flatten(s, f)) + multiset{e}
  {
    var t := s[k := x];
    assert t[0] == if k == 0 then x else s[0];
    if k > 0 {
      FlattenGrowPart(s[1..], k - 1, x, f, e);
      assert t[1..] == s[1..][k - 1 := x];
      calc {
        multiset(Flatten(t, f));
        multiset(f(s[0])) + multiset(Flatten(t[1..], f));
        multiset(f(s[0])) + (multiset(Flatten(s[1..], f)) + multiset{e});
        multiset(Flatten(s, f)) + multiset{e};
      }
    } else {
      assert t[1..] == s[1..];
      calc {
        multiset(Flatten(t, f));
        multiset(f(x)) + multiset(Flatten(s[1..], f));
        multiset(f(s[0])) + multiset{e} + multiset(Flatten(s[1..], f));
        multiset(Flatten(s, f)) + multiset{e};
      }
    }
  }

  /** Reordering the parts does not change the multiset of the concatenation. */
  lemma {:induction false} SortByFlatten<T, K, U>(s: seq<T>, key: T -> K, le: (K, K) -> bool, f: T -> seq<U>)
    ensures multiset(Flatten(SortBy(s, key, le), f)) == multiset(Flatten(s, f))
  {
    if s != [] {
      var init, last := s[..|s| - 1], s[|s| - 1];
      SortByFlatten(init, key, le, f);
      InsertFlatten(SortBy(init, key, le), last, key, le, f);
      assert s == init + [last];
      FlattenAppend(init, [last], f);
      assert Flatten([last], f) == f(last);
      calc {
        multiset(Flatten(SortBy(s, key, le), f));
        multiset(Flatten(SortBy(init, key, le), f)) + multiset(f(last));
        multiset(Flatten(init, f)) + multiset(f(last));
        multiset(Flatten(init, f) + f(last));
        multiset(Flatten(s, f));
      }
    }
  }

  /** The least element (Python's `min`). */
  function Min(s: seq<real>): (m: real)
    requires |s| > 0
    ensures m in s
    ensures forall i :: 0 <= i < |s| ==> m <= s[i]
  {
    if |s| == 1 then s[0]
    else
      var rest := Min(s[1..]);
      if s[0] <= rest then s[0] else rest
  }

  /** The greatest element (Python's `max`). */
  function Max(s: seq<real>): (m: real)
    requires |s| > 0
    ensures m in s
    ensures forall i :: 0 <= i < |s| ==> s[i] <= m
  {
    if |s| == 1 then s[0]
    else
      var rest := Max(s[1..]);
      if s[0] >= rest then s[0] else rest
  }

  /**
   * `np.median`: the middle element of the sorted values, or the mean of the two
   * middle ones when there is an even number of them.
   */
  function Median(s: seq<real>): (m: real)
    requires |s| > 0
  {
    var t := SortBy(s, Id, RealLe);
    SortByPermutes(s, Id, RealLe);
    if |t| % 2 == 1 then t[|t| / 2] else (t[|t| / 2 - 1] + t[|t| / 2]) / 2.0
  }

  /** The median lies between the least and the greatest value. */
  lemma MedianBounds(s: seq<real>)
    requires |s| > 0
    ensures Min(s) <= Median(s) <= Max(s)
  {
    var t := SortBy(s, Id, RealLe);
    SortByPermutes(s, Id, RealLe);
    forall i | 0 <= i < |t|
      ensures Min(s) <= t[i] <= Max(s)
    {
      assert t[i] in multiset(s);
      var j :| 0 <= j < |s| && s[j] == t[i];
    }
  }

  /**
   * The index of the first maximum, as `np.argmax` and Python's `max` with a key
   * return it: no element is larger, and every earlier element is smaller.
   */
  function ArgMax(s: seq<real>): (k: nat)
    requires |s| > 0
    ensures k < |s|
    ensures forall j :: 0 <= j < |s| ==> s[j] <= s[k]
    ensures forall j :: 0 <= j < k ==> s[j] < s[k]
  {
    if |s| == 1 then 0
    else
      var k := ArgMax(s[..|s| - 1]);
      if s[|s| - 1] > s[k] then |s| - 1 else k
  }

  /** Python's `zip`: pairs up the elements, stopping at the shorter input. */
  function Zip<A, B>(a: seq<A>, b: seq<B>): (r: seq<(A, B)>)
    ensures |r| == if |a| <= |b| then |a| else |b|
    ensures forall i :: 0 <= i < |r| ==> r[i] == (a[i], b[i])
  {
    if a == [] || b == [] then [] else [(a[0], b[0])] + Zip(a[1..], b[1..])
  }

  /** A non-empty sequence is its prefix followed by its last element. */
  lemma SplitLast<T>(s: seq<T>)
    requires |s| > 0
    ensures s == s[..|s| - 1] + [s[|s| - 1]]
  {
  }

  /** Growing a prefix by one element. */
  lemma PrefixGrow<T>(s: seq<T>, i: nat)
    requires i < |s|
    ensures s[..i + 1][..i] == s[..i] && s[..i + 1][i] == s[i] && |s[..i + 1]| == i + 1
  {
  }

  lemma PrefixWhole<T>(s: seq<T>)
    ensures s[..|s|] == s
  {
  }

  /** An element of one of two permutations is an element of the other. */
  lemma PermutationMember<T>(a: seq<T>, b: seq<T>, x: T)
    requires multiset(a) == multiset(b) && x in a
    ensures x in b
  {
    assert x in multiset(a);
  }

  /** A property of every element survives any permutation. */
  lemma PermutationKeeps<T>(a: seq<T>, b: seq<T>, p: T -> bool)
    requires multiset(a) == multiset(b)
    requires forall i :: 0 <= i < |b| ==> p(b[i])
    ensures forall i :: 0 <= i < |a| ==> p(a[i])
  {
    forall i | 0 <= i < |a|
      ensures p(a[i])
    {
      assert a[i] in multiset(b);
    }
  }

  /** Zipping one more pair onto equally long sequences appends that pair. */
  lemma ZipSnoc<A, B>(a: seq<A>, b: seq<B>, x: A, y: B)
    requires |a| == |b|
    ensures Zip(a + [x], b + [y]) == Zip(a, b) + [(x, y)]
  {
  }

  function Firsts<A, B>(p: seq<(A, B)>): (r: seq<A>)
    ensures |r| == |p| && forall i :: 0 <= i < |p| ==> r[i] == p[i].0
  {
    seq(|p|, i requires 0 <= i < |p| => p[i].0)
  }

  function Seconds<A, B>(p: seq<(A, B)>): (r: seq<B>)
    ensures |r| == |p| && forall i :: 0 <= i < |p| ==> r[i] == p[i].1
  {
    seq(|p|, i requires 0 <= i < |p| => p[i].1)
  }

  /** Unzipping and zipping again gives back the pairs. */
  lemma ZipUnzip<A, B>(p: seq<(A, B)>)
    ensures Zip(Firsts(p), Seconds(p)) == p
  {
  }
}
