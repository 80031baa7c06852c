/**
 * Square count matrices as values, row sums and total mass, and the bridge
 * between a two-dimensional array (numpy's ndarray) and its value.
 */
module Matrices {
  import opened Sequences

  /** A matrix of transition counts, as a sequence of rows. */
  type Mat = seq<seq<int>>

  predicate Square<T>(m: seq<seq<T>>, n: nat)
  {
    |m| == n && forall r :: 0 <= r < n ==> |m[r]| == n
  }

  predicate NonNegative(m: Mat)
  {
    forall r, c :: 0 <= r < |m| && 0 <= c < |m[r]| ==> m[r][c] >= 0
  }

  /** numpy's `mat.sum(axis=1)`. */
  function RowSums(m: Mat): (rs: seq<int>)
    ensures |rs| == |m|
    ensures forall r :: 0 <= r < |m| ==> rs[r] == Sum(m[r])
  {
    seq(|m|, r requires 0 <= r < |m| => Sum(m[r]))
  }

  /** Total mass: the sum of every cell. */
  function Total(m: Mat): int
  {
    Sum(RowSums(m))
  }

  /** `[s >= min_count for s in row_sums]`: which rows reach min_count. */
  function KeepMask(rowSums: seq<int>, minCount: int): (mask: seq<bool>)
    ensures |mask| == |rowSums|
    ensures forall k :: 0 <= k < |rowSums| ==> (mask[k] <==> rowSums[k] >= minCount)
  {
    seq(|rowSums|, k requires 0 <= k < |rowSums| => rowSums[k] >= minCount)
  }

  /** `[i for i, s in enumerate(row_sums) if s >= min_count]`: the rows whose
      sum reaches min_count, in ascending order. */
  function NonEmpty(m: Mat, minCount: int): (r: seq<nat>)
    ensures InRange(r, |m|) && StrictlyIncreasing(r)
    ensures forall a :: 0 <= a < |r| ==> Sum(m[r[a]]) >= minCount
    ensures forall x :: 0 <= x < |m| && Sum(m[x]) >= minCount ==> x in r
  {
    Indices(KeepMask(RowSums(m), minCount))
  }

  /** The n-by-n zero matrix (numpy's `np.zeros((n, n))`). */
  function Zeros(n: nat): (m: Mat)
    ensures Square(m, n)
    ensures forall r, c :: 0 <= r < n && 0 <= c < n ==> m[r][c] == 0
  {
    seq(n, _ => seq(n, _ => 0))
  }

  /** The value an array currently holds. */
  function Snapshot<T>(a: array2<T>): (m: seq<seq<T>>)
    reads a
    ensures |m| == a.Length0
    ensures forall r :: 0 <= r < |m| ==> |m[r]| == a.Length1
    ensures forall r, c :: 0 <= r < a.Length0 && 0 <= c < a.Length1 ==> m[r][c] == a[r, c]
  {
    seq(a.Length0, r requires 0 <= r < a.Length0 reads a =>
      seq(a.Length1, c requires 0 <= c < a.Length1 reads a => a[r, c]))
  }

  /** The square array a holds the matrix m, cell by cell. */
  ghost predicate Holds<T>(a: array2<T>, m: seq<seq<T>>)
    reads a
  {
    a.Length0 == a.Length1 && Square(m, a.Length0) &&
    forall r, c :: 0 <= r < a.Length0 && 0 <= c < a.Length1 ==> a[r, c] == m[r][c]
  }

  /** Two square matrices with the same cells are the same value. */
  lemma SameCells<T>(m1: seq<seq<T>>, m2: seq<seq<T>>, n: nat)
    requires Square(m1, n) && Square(m2, n)
    requires forall r, c :: 0 <= r < n && 0 <= c < n ==> m1[r][c] == m2[r][c]
    ensures m1 == m2
  {
    forall r | 0 <= r < n ensures m1[r] == m2[r] {
      assert forall c :: 0 <= c < n ==> m1[r][c] == m2[r][c];
    }
  }

  lemma HoldsSnapshot<T>(a: array2<T>, m: seq<seq<T>>)
    requires Holds(a, m)
    ensures Snapshot(a) == m
  {
    SameCells(Snapshot(a), m, a.Length0);
  }

  /** Adds one to cell (i, j): one observed transition. */
  function Bump(m: Mat, i: nat, j: nat): Mat
    requires i < |m| && j < |m[i]|
  {
    m[i := m[i][j := m[i][j] + 1]]
  }

  /** One observed transition adds exactly one to the total mass. */
  lemma BumpTotal(m: Mat, i: nat, j: nat)
    requires i < |m| && j < |m[i]|
    ensures Total(Bump(m, i, j)) == Total(m) + 1
  {
    var row := m[i][j := m[i][j] + 1];
    SumUpdate(m[i], j, m[i][j] + 1);
    assert RowSums(Bump(m, i, j)) == RowSums(m)[i := Sum(row)];
    SumUpdate(RowSums(m), i, Sum(row));
  }
}
