/**
 * The drop strategy of `_clean_matrix`: keep the rows whose mass reaches
 * min_count, take the principal submatrix on them (`mat[np.ix_(keep, keep)]`)
 * and filter the bucket labels with the same mask.
 */
module Drop {
  import opened Sequences
  import opened Matrices

  /** `mat[np.ix_(keep, keep)]`: the rows and then the columns whose mask
      entry is true. */
  function Principal<T>(m: seq<seq<T>>, keep: seq<bool>): (r: seq<seq<T>>)
    requires Square(m, |keep|)
    ensures |r| == |Indices(keep)|
    ensures forall a :: 0 <= a < |r| ==> r[a] == Select(m[Indices(keep)[a]], keep)
  {
    var rows := seq(|m|, r requires 0 <= r < |m| => Select(m[r], keep));
    SelectAt(rows, keep);
    Select(rows, keep)
  }

  /** The principal submatrix is k-by-k, k the number of kept positions, and
      its cell (a, b) is the original cell at the a-th and b-th kept
      positions. */
  lemma PrincipalCells<T>(m: seq<seq<T>>, keep: seq<bool>)
    requires Square(m, |keep|)
    ensures var idx := Indices(keep);
      Square(Principal(m, keep), |idx|) &&
      forall a, b :: 0 <= a < |idx| && 0 <= b < |idx| ==> Principal(m, keep)[a][b] == m[idx[a]][idx[b]]
  {
    var idx := Indices(keep);
    var rows := seq(|m|, r requires 0 <= r < |m| => Select(m[r], keep));
    SelectAt(rows, keep);
    forall a | 0 <= a < |idx|
      ensures |Principal(m, keep)[a]| == |idx|
      ensures forall b :: 0 <= b < |idx| ==> Principal(m, keep)[a][b] == m[idx[a]][idx[b]]
    {
      assert Principal(m, keep)[a] == Select(m[idx[a]], keep);
      SelectAt(m[idx[a]], keep);
    }
  }

  /** The keep mask of the drop strategy: `[s >= min_count for s in row_sums]`. */
  function DropMask(m: Mat, minCount: int): (keep: seq<bool>)
    ensures |keep| == |m|
  {
    KeepMask(RowSums(m), minCount)
  }

  /** The matrix left by the drop branch. */
  function Dropped(m: Mat, minCount: int): (r: Mat)
    requires Square(m, |m|)
    ensures Square(r, |NonEmpty(m, minCount)|)
  {
    KeptAreNonEmpty(m, minCount);
    PrincipalCells(m, DropMask(m, minCount));
    Principal(m, DropMask(m, minCount))
  }

  /** `[b for b, k in zip(self.buckets, keep) if k]`. */
  function DroppedLabels(labels: seq<int>, m: Mat, minCount: int): (r: seq<int>)
    requires |labels| == |m|
    ensures |r| == |NonEmpty(m, minCount)|
    ensures forall a :: 0 <= a < |r| ==> r[a] == labels[NonEmpty(m, minCount)[a]]
  {
    KeptAreNonEmpty(m, minCount);
    SelectAt(labels, DropMask(m, minCount));
    Select(labels, DropMask(m, minCount))
  }

  /** The kept positions are exactly the rows whose sum reaches min_count,
      in ascending order: the same rows the re-binning strategy calls
      non-empty. */
  lemma KeptAreNonEmpty(m: Mat, minCount: int)
    ensures Indices(DropMask(m, minCount)) == NonEmpty(m, minCount)
    ensures forall x :: 0 <= x < |m| ==> (x in NonEmpty(m, minCount) <==> Sum(m[x]) >= minCount)
  {
  }

  /** Dropping yields exactly the principal submatrix on the non-empty rows,
      and the labels of exactly those rows, in order. */
  lemma DroppedIsPrincipal(m: Mat, labels: seq<int>, minCount: int)
    requires Square(m, |labels|)
    ensures var kept := NonEmpty(m, minCount);
      Square(Dropped(m, minCount), |kept|) &&
      (forall a, b :: 0 <= a < |kept| && 0 <= b < |kept| ==>
        Dropped(m, minCount)[a][b] == m[kept[a]][kept[b]]) &&
      |DroppedLabels(labels, m, minCount)| == |kept| &&
      (forall a :: 0 <= a < |kept| ==> DroppedLabels(labels, m, minCount)[a] == labels[kept[a]])
  {
    KeptAreNonEmpty(m, minCount);
    PrincipalCells(m, DropMask(m, minCount));
    SelectAt(labels, DropMask(m, minCount));
  }

  /** Dropping keeps counts non-negative. */
  lemma DroppedNonNegative(m: Mat, labels: seq<int>, minCount: int)
    requires Square(m, |labels|) && NonNegative(m)
    ensures NonNegative(Dropped(m, minCount))
  {
    DroppedIsPrincipal(m, labels, minCount);
    var kept := NonEmpty(m, minCount);
    forall a, b | 0 <= a < |kept| && 0 <= b < |kept| ensures Dropped(m, minCount)[a][b] >= 0 {
      assert kept[a] < |m| && kept[b] < |m|;
    }
  }

  /** A kept row can end up with no mass at all: here row 0 reaches
      min_count only through its transitions into the dropped bucket 1. */
  lemma KeptRowCanBeEmpty()
    ensures Dropped([[0, 3], [0, 0]], 1) == [[0]]
    ensures Sum([[0, 3], [0, 0]][0]) >= 1
  {
    var m: Mat := [[0, 3], [0, 0]];
    var keep := [true, false];
    assert RowSums(m) == [3, 0];
    assert DropMask(m, 1) == keep;
    assert keep[..1] == [true];
    assert Select([0, 3], keep) == Select([0], [true]) == [0];
    assert Select([0, 0], keep) == Select([0], [true]) == [0];
    var rows := seq(|m|, r requires 0 <= r < |m| => Select(m[r], keep));
    assert rows == [[0], [0]];
    assert Select(rows, keep) == Select([[0]], [true]) == [[0]];
  }
}
