/**
 * Counting transitions: `_count_matrix` builds an n-by-n matrix of zeros and
 * adds one to cell (locate(src), locate(dst)) for each pair of the two
 * columns it is given.
 */
module Counting {
  import opened Sequences
  import opened Matrices
  import opened Buckets

  /** Every value lies at or above the first threshold, so it locates to a
      real bucket (numpy's wrap-around to the last row is not modelled). */
  predicate Locatable(labels: seq<int>, vs: seq<int>)
  {
    forall k :: 0 <= k < |vs| ==> |labels| > 0 && labels[0] <= vs[k]
  }

  lemma LocatablePrefix(labels: seq<int>, vs: seq<int>, k: nat)
    requires Locatable(labels, vs) && k <= |vs|
    ensures Locatable(labels, vs[..k])
  {
    var p := vs[..k];
    assert forall x :: 0 <= x < |p| ==> p[x] == vs[x];
    assert forall x :: 0 <= x < |p| ==> |labels| > 0 && labels[0] <= p[x];
  }

  /** The bucket-index pair of every transition, in order. */
  function Located(labels: seq<int>, from: seq<int>, to: seq<int>): seq<(int, int)>
    requires |from| == |to|
  {
    seq(|from|, k requires 0 <= k < |from| => (Locate(labels, from[k]), Locate(labels, to[k])))
  }

  /** The count matrix of the transitions from[k] -> to[k]: zeros, then one
      `Bump` per transition, in order. */
  function Counts(labels: seq<int>, from: seq<int>, to: seq<int>): (m: Mat)
    requires |from| == |to| && Locatable(labels, from) && Locatable(labels, to)
    ensures Square(m, |labels|)
  {
    if |from| == 0 then Zeros(|labels|)
    else
      var k := |from| - 1;
      Bump(Counts(labels, from[..k], to[..k]), Locate(labels, from[k]), Locate(labels, to[k]))
  }

  /** Cell (r, c) holds exactly the number of transitions whose source
      locates to bucket r and whose destination locates to bucket c. */
  lemma {:induction false} CountsCell(labels: seq<int>, from: seq<int>, to: seq<int>, r: nat, c: nat)
    requires |from| == |to| && Locatable(labels, from) && Locatable(labels, to)
    requires r < |labels| && c < |labels|
    ensures Counts(labels, from, to)[r][c] == multiset(Located(labels, from, to))[(r, c)]
  {
    if |from| > 0 {
      var k := |from| - 1;
      LocatablePrefix(labels, from, k);
      LocatablePrefix(labels, to, k);
      CountsCell(labels, from[..k], to[..k], r, c);
      var last := (Locate(labels, from[k]), Locate(labels, to[k]));
      assert Located(labels, from, to) == Located(labels, from[..k], to[..k]) + [last];
      assert Counts(labels, from, to)[r][c]
          == Counts(labels, from[..k], to[..k])[r][c] + (if last == (r, c) then 1 else 0);
    }
  }

  /** Counts are never negative. */
  lemma CountsNonNegative(labels: seq<int>, from: seq<int>, to: seq<int>)
    requires |from| == |to| && Locatable(labels, from) && Locatable(labels, to)
    ensures NonNegative(Counts(labels, from, to))
  {
    forall r, c | 0 <= r < |labels| && 0 <= c < |labels|
      ensures Counts(labels, from, to)[r][c] >= 0
    {
      CountsCell(labels, from, to, r, c);
    }
  }

  /** Each transition adds exactly one unit of mass: the total is the
      number of transitions. */
  lemma {:induction false} CountsTotal(labels: seq<int>, from: seq<int>, to: seq<int>)
    requires |from| == |to| && Locatable(labels, from) && Locatable(labels, to)
    ensures Total(Counts(labels, from, to)) == |from|
  {
    if |from| == 0 {
      var z := Zeros(|labels|);
      forall r | 0 <= r < |labels| ensures Sum(z[r]) == 0 {
        SumOfZeros(z[r]);
      }
      SumOfZeros(RowSums(z));
    } else {
      var k := |from| - 1;
      LocatablePrefix(labels, from, k);
      LocatablePrefix(labels, to, k);
      CountsTotal(labels, from[..k], to[..k]);
      BumpTotal(Counts(labels, from[..k], to[..k]), Locate(labels, from[k]), Locate(labels, to[k]));
    }
  }

  /** `_count_matrix(col_from, col_to)`. */
  method CountMatrix(labels: seq<int>, from: seq<int>, to: seq<int>) returns (mat: array2<int>)
    requires |from| == |to| && Locatable(labels, from) && Locatable(labels, to)
    ensures fresh(mat)
    ensures mat.Length0 == mat.Length1 == |labels|
    ensures Snapshot(mat) == Counts(labels, from, to)
  {
    var n := |labels|;
    mat := new int[n, n]((r, c) => 0);
    var k := 0;
    while k < |from|
      invariant 0 <= k <= |from|
      invariant Holds(mat, Counts(labels, from[..k], to[..k]))
    {
      var i := Locate(labels, from[k]);
      var j := Locate(labels, to[k]);
      mat[i, j] := mat[i, j] + 1;
      assert from[..k + 1][..k] == from[..k] && to[..k + 1][..k] == to[..k];
      k := k + 1;
    }
    assert from[..k] == from && to[..k] == to;
    HoldsSnapshot(mat, Counts(labels, from, to));
  }
}
