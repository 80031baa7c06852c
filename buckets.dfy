/**
 * Bucket location: `np.searchsorted(buckets, v, side="right") - 1`.
 * Thresholds b[0] <= b[1] <= ... <= b[n-1] define the left-closed,
 * right-open intervals [b[i], b[i+1]) and the unbounded [b[n-1], +inf).
 */
module Buckets {
  import opened Sequences

  /** How many thresholds are at most v: for sorted thresholds this is the
      insertion point that a right-biased binary search returns. */
  function CountAtMost(labels: seq<int>, v: int): (k: nat)
    ensures k <= |labels|
  {
    if |labels| == 0 then 0
    else (if labels[0] <= v then 1 else 0) + CountAtMost(labels[1..], v)
  }

  /** The index of the bucket holding v; -1 when v lies below every threshold. */
  function Locate(labels: seq<int>, v: int): (i: int)
    ensures -1 <= i < |labels|
    ensures |labels| > 0 && labels[0] <= v ==> 0 <= i
  {
    CountAtMost(labels, v) - 1
  }

  /** In sorted thresholds, those at most v are exactly a prefix. */
  lemma {:induction false} AtMostIsPrefix(labels: seq<int>, v: int, k: nat)
    requires IsSorted(labels) && k < |labels|
    ensures labels[k] <= v <==> k < CountAtMost(labels, v)
  {
    var tail := labels[1..];
    assert IsSorted(tail);
    if k > 0 {
      assert tail[k - 1] == labels[k];
      AtMostIsPrefix(tail, v, k - 1);
      assert labels[0] <= labels[k];
    } else if |tail| > 0 {
      assert labels[0] <= tail[0];
      AtMostIsPrefix(tail, v, 0);
    }
  }

  /** The located bucket is the interval containing v: its threshold is at
      most v and it is the last bucket or the next threshold exceeds v. With
      repeated thresholds this picks the last of the repeats. */
  lemma LocateBrackets(labels: seq<int>, v: int)
    requires IsSorted(labels) && |labels| > 0 && labels[0] <= v
    ensures var i := Locate(labels, v);
      0 <= i < |labels| && labels[i] <= v && (i == |labels| - 1 || v < labels[i + 1])
  {
    var i := Locate(labels, v);
    AtMostIsPrefix(labels, v, i);
    if i < |labels| - 1 {
      AtMostIsPrefix(labels, v, i + 1);
    }
  }

  /** Only one index brackets v, so the located bucket is the only answer. */
  lemma LocateUnique(labels: seq<int>, v: int, k: nat)
    requires IsSorted(labels) && k < |labels|
    requires labels[k] <= v && (k == |labels| - 1 || v < labels[k + 1])
    ensures Locate(labels, v) == k
  {
    var c := CountAtMost(labels, v);
    AtMostIsPrefix(labels, v, k);
    if c > k + 1 {
      AtMostIsPrefix(labels, v, k + 1);
    }
  }

  /** Below the first threshold the search yields -1 (which numpy would
      read as the last row); callers keep values at or above b[0]. */
  lemma LocateBelowFirst(labels: seq<int>, v: int)
    requires IsSorted(labels) && |labels| > 0 && v < labels[0]
    ensures Locate(labels, v) == -1
  {
    if CountAtMost(labels, v) > 0 {
      AtMostIsPrefix(labels, v, 0);
    }
  }
}
