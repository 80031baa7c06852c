/**
 * Sequence utilities shared by the estimator model: integer and real sums,
 * ascending order and the stable sort used for bucket thresholds and stage
 * keys, and boolean-mask selection (the behaviour of a list comprehension
 * filtered by a mask, or of numpy boolean indexing).
 */
module Sequences {

  /** Sum of an integer sequence. */
  function Sum(s: seq<int>): int
  {
    if |s| == 0 then 0 else s[0] + Sum(s[1..])
  }

  /** Sum of a real sequence. */
  function SumReal(s: seq<real>): real
  {
    if |s| == 0 then 0.0 else s[0] + SumReal(s[1..])
  }

  predicate AllNonNegative(s: seq<int>)
  {
    forall k :: 0 <= k < |s| ==> s[k] >= 0
  }

  /** Replacing one element changes the sum by exactly the difference. */
  lemma {:induction false} SumUpdate(s: seq<int>, k: nat, v: int)
    requires k < |s|
    ensures Sum(s[k := v]) == Sum(s) - s[k] + v
  {
    if k == 0 {
      assert s[k := v][1..] == s[1..];
    } else {
      assert s[k := v][1..] == s[1..][k - 1 := v];
      SumUpdate(s[1..], k - 1, v);
    }
  }

  /** The sum of an elementwise sum is the sum of the sums. */
  lemma {:induction false} SumPointwise(a: seq<int>, b: seq<int>, c: seq<int>)
    requires |a| == |b| == |c|
    requires forall k :: 0 <= k < |c| ==> c[k] == a[k] + b[k]
    ensures Sum(c) == Sum(a) + Sum(b)
  {
    if |c| > 0 {
      SumPointwise(a[1..], b[1..], c[1..]);
    }
  }

  lemma {:induction false} SumOfZeros(s: seq<int>)
    requires forall k :: 0 <= k < |s| ==> s[k] == 0
    ensures Sum(s) == 0
  {
    if |s| > 0 {
      SumOfZeros(s[1..]);
    }
  }

  lemma {:induction false} SumNonNegative(s: seq<int>)
    requires AllNonNegative(s)
    ensures Sum(s) >= 0
  {
    if |s| > 0 {
      SumNonNegative(s[1..]);
    }
  }

  /** In a sequence without negative elements, no element exceeds the sum. */
  lemma {:induction false} ElementAtMostSum(s: seq<int>, k: nat)
    requires AllNonNegative(s) && k < |s|
    ensures s[k] <= Sum(s)
  {
    if k == 0 {
      SumNonNegative(s[1..]);
    } else {
      ElementAtMostSum(s[1..], k - 1);
    }
  }

  /** A non-negative sequence whose sum is zero holds only zeros. */
  lemma ZeroSumMeansZeros(s: seq<int>)
    requires AllNonNegative(s) && Sum(s) == 0
    ensures forall k :: 0 <= k < |s| ==> s[k] == 0
  {
    forall k | 0 <= k < |s| ensures s[k] == 0 {
      ElementAtMostSum(s, k);
    }
  }

  // ---------------------------------------------------------------------
  // Ascending order

  predicate IsSorted(s: seq<int>)
  {
    forall a, b :: 0 <= a < b < |s| ==> s[a] <= s[b]
  }

  predicate StrictlyIncreasing(s: seq<nat>)
  {
    forall a, b :: 0 <= a < b < |s| ==> s[a] < s[b]
  }

  /** A lower bound of u and of x bounds every permutation of u with x added. */
  lemma AllAtLeast(lo: int, t: seq<int>, u: seq<int>, x: int)
    requires multiset(t) == multiset(u) + multiset{x}
    requires lo <= x && forall a :: 0 <= a < |u| ==> lo <= u[a]
    ensures forall a :: 0 <= a < |t| ==> lo <= t[a]
  {
    forall a | 0 <= a < |t| ensures lo <= t[a] {
      assert t[a] in multiset(t);
      if t[a] != x {
        assert t[a] in u;
      }
    }
  }

  /** Inserts x into a sorted sequence, after every element not greater than x. */
  function Insert(x: int, s: seq<int>): (r: seq<int>)
    requires IsSorted(s)
    ensures IsSorted(r)
    ensures multiset(r) == multiset(s) + multiset{x}
  {
    if |s| == 0 then [x]
    else if x <= s[0] then [x] + s
    else
      var tail := Insert(x, s[1..]);
      assert s == [s[0]] + s[1..];
      AllAtLeast(s[0], tail, s[1..], x);
      [s[0]] + tail
  }

  /** The ascending rearrangement of s (the behaviour of Python's `sorted`). */
  function SortAscending(s: seq<int>): (r: seq<int>)
    ensures IsSorted(r)
    ensures multiset(r) == multiset(s)
    ensures |r| == |s|
  {
    if |s| == 0 then []
    else
      assert s == [s[0]] + s[1..];
      Insert(s[0], SortAscending(s[1..]))
  }

  /** Every element of xs is a valid index below n. */
  predicate InRange(xs: seq<nat>, n: nat)
  {
    forall a :: 0 <= a < |xs| ==> xs[a] < n
  }

  // ---------------------------------------------------------------------
  // Boolean masks

  /** Positions of the true entries of a mask, in ascending order. */
  function Indices(mask: seq<bool>): (r: seq<nat>)
    ensures forall a :: 0 <= a < |r| ==> r[a] < |mask| && mask[r[a]]
    ensures forall x :: 0 <= x < |mask| && mask[x] ==> x in r
    ensures StrictlyIncreasing(r)
  {
    if |mask| == 0 then []
    else
      var last := |mask| - 1;
      var front := Indices(mask[..last]);
      assert forall a :: 0 <= a < |front| ==> front[a] < last;
      front + (if mask[last] then [last] else [])
  }

  lemma {:induction false} IndicesOfNone(mask: seq<bool>)
    requires forall k :: 0 <= k < |mask| ==> !mask[k]
    ensures Indices(mask) == []
  {
    if |mask| > 0 {
      IndicesOfNone(mask[..|mask| - 1]);
    }
  }

  /** The elements of s whose mask entry is true, in order. */
  function Select<T>(s: seq<T>, mask: seq<bool>): seq<T>
    requires |s| == |mask|
  {
    if |s| == 0 then []
    else
      var last := |s| - 1;
      Select(s[..last], mask[..last]) + (if mask[last] then [s[last]] else [])
  }

  /** The a-th selected element is the element at the a-th true position. */
  lemma {:induction false} SelectAt<T>(s: seq<T>, mask: seq<bool>)
    requires |s| == |mask|
    ensures |Select(s, mask)| == |Indices(mask)|
    ensures forall a :: 0 <= a < |Indices(mask)| ==> Select(s, mask)[a] == s[Indices(mask)[a]]
  {
    if |s| > 0 {
      var last := |s| - 1;
      SelectAt(s[..last], mask[..last]);
      assert mask[..last] == mask[..|mask| - 1];
    }
  }
}
