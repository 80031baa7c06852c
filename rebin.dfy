/**
 * The re-binning strategy of `_clean_matrix`: every row whose mass is below
 * min_count is merged, row and column, into a donor row chosen by label
 * distance among the rows that reached min_count at the start. The matrix
 * keeps its dimension; only mass moves.
 */
module Rebin {
  import opened Sequences
  import opened Matrices

  /** `abs(buckets[x] - buckets[i])`. */
  function Dist(labels: seq<int>, x: nat, i: nat): (d: nat)
    requires x < |labels| && i < |labels|
    ensures labels[x] - labels[i] <= d && labels[i] - labels[x] <= d
    ensures d == labels[x] - labels[i] || d == labels[i] - labels[x]
  {
    if labels[x] >= labels[i] then labels[x] - labels[i] else labels[i] - labels[x]
  }

  // ---------------------------------------------------------------------
  // Donor choice

  /** `[x for x in non_empty if abs(buckets[x] - buckets[i]) <= rebin_window]`. */
  function InWindow(labels: seq<int>, nonEmpty: seq<nat>, i: nat, window: int): (r: seq<nat>)
    requires InRange(nonEmpty, |labels|) && i < |labels|
    ensures InRange(r, |labels|)
  {
    if |nonEmpty| == 0 then []
    else
      (if Dist(labels, nonEmpty[0], i) <= window then [nonEmpty[0]] else [])
      + InWindow(labels, nonEmpty[1..], i, window)
  }

  /** The window keeps exactly the non-empty rows within rebin_window of
      bucket i, in their ascending order. */
  lemma {:induction false} InWindowMembers(labels: seq<int>, nonEmpty: seq<nat>, i: nat, window: int)
    requires InRange(nonEmpty, |labels|) && i < |labels|
    ensures forall x :: x in InWindow(labels, nonEmpty, i, window) <==> x in nonEmpty && Dist(labels, x, i) <= window
    ensures StrictlyIncreasing(nonEmpty) ==> StrictlyIncreasing(InWindow(labels, nonEmpty, i, window))
  {
    if |nonEmpty| > 0 {
      var rest := InWindow(labels, nonEmpty[1..], i, window);
      InWindowMembers(labels, nonEmpty[1..], i, window);
      assert forall x :: x in nonEmpty <==> x == nonEmpty[0] || x in nonEmpty[1..];
      if StrictlyIncreasing(nonEmpty) {
        forall b | 0 <= b < |rest| ensures nonEmpty[0] < rest[b] {
          assert rest[b] in nonEmpty[1..];
        }
      }
    }
  }

  /** `min(candidates, key=distance)`: the position of the first candidate
      at minimal distance from bucket i (Python's `min` keeps the first of
      equal keys). */
  function NearestPos(cands: seq<nat>, labels: seq<int>, i: nat): (p: nat)
    requires |cands| > 0 && InRange(cands, |labels|) && i < |labels|
    ensures p < |cands|
  {
    if |cands| == 1 then 0
    else
      var last := |cands| - 1;
      var q := NearestPos(cands[..last], labels, i);
      if Dist(labels, cands[last], i) < Dist(labels, cands[q], i) then last else q
  }

  /** The chosen candidate is at minimal distance, and every candidate
      before it is strictly farther. */
  lemma {:induction false} NearestPosMinimal(cands: seq<nat>, labels: seq<int>, i: nat)
    requires |cands| > 0 && InRange(cands, |labels|) && i < |labels|
    ensures var p := NearestPos(cands, labels, i);
      (forall k :: 0 <= k < |cands| ==> Dist(labels, cands[p], i) <= Dist(labels, cands[k], i)) &&
      (forall k :: 0 <= k < p ==> Dist(labels, cands[k], i) > Dist(labels, cands[p], i))
  {
    if |cands| > 1 {
      var last := |cands| - 1;
      var front := cands[..last];
      NearestPosMinimal(front, labels, i);
      var q := NearestPos(front, labels, i);
      assert front[q] == cands[q];
      assert forall k :: 0 <= k < last ==> front[k] == cands[k];
    }
  }

  /** The donor row for the sparse row i: the nearest candidate inside the
      window, or the nearest of all non-empty rows when none is inside. */
  function Donor(labels: seq<int>, nonEmpty: seq<nat>, i: nat, window: int): (j: nat)
    requires |nonEmpty| > 0 && InRange(nonEmpty, |labels|) && i < |labels|
    ensures j < |labels|
  {
    var within := InWindow(labels, nonEmpty, i, window);
    var cands := if |within| > 0 then within else nonEmpty;
    cands[NearestPos(cands, labels, i)]
  }

  /** The donor is always one of the non-empty rows. */
  lemma DonorIsNonEmpty(labels: seq<int>, nonEmpty: seq<nat>, i: nat, window: int)
    requires |nonEmpty| > 0 && InRange(nonEmpty, |labels|) && i < |labels|
    ensures Donor(labels, nonEmpty, i, window) in nonEmpty
  {
    var within := InWindow(labels, nonEmpty, i, window);
    InWindowMembers(labels, nonEmpty, i, window);
    if |within| > 0 {
      assert within[NearestPos(within, labels, i)] in within;
    }
  }

  /** x is not strictly nearer to bucket i than j, and if equally near it
      does not come before j. */
  predicate NoBetterThan(labels: seq<int>, i: nat, j: nat, x: nat)
    requires i < |labels| && j < |labels| && x < |labels|
  {
    Dist(labels, j, i) < Dist(labels, x, i) || (Dist(labels, j, i) == Dist(labels, x, i) && j <= x)
  }

  /** In ascending candidates, the first nearest one is also the lowest
      index among the nearest. */
  lemma NearestIsLowestOfTies(cands: seq<nat>, labels: seq<int>, i: nat)
    requires |cands| > 0 && InRange(cands, |labels|) && i < |labels|
    requires StrictlyIncreasing(cands)
    ensures forall k :: 0 <= k < |cands| ==>
      NoBetterThan(labels, i, cands[NearestPos(cands, labels, i)], cands[k])
  {
    var p := NearestPos(cands, labels, i);
    NearestPosMinimal(cands, labels, i);
    forall k | 0 <= k < |cands| ensures NoBetterThan(labels, i, cands[p], cands[k]) {
      if k > p {
        assert cands[p] < cands[k];
      }
    }
  }

  /** Some non-empty row lies within the window of bucket i. */
  predicate HasNear(labels: seq<int>, nonEmpty: seq<nat>, i: nat, window: int)
    requires InRange(nonEmpty, |labels|) && i < |labels|
  {
    exists a :: 0 <= a < |nonEmpty| && Dist(labels, nonEmpty[a], i) <= window
  }

  /** When some non-empty row lies within the window, the donor is within
      the window and no row within the window is nearer to bucket i; among
      equally near rows the donor has the lowest index. */
  lemma DonorNearest(labels: seq<int>, nonEmpty: seq<nat>, i: nat, window: int)
    requires |nonEmpty| > 0 && InRange(nonEmpty, |labels|) && i < |labels|
    requires StrictlyIncreasing(nonEmpty) && HasNear(labels, nonEmpty, i, window)
    ensures Dist(labels, Donor(labels, nonEmpty, i, window), i) <= window
    ensures forall a :: 0 <= a < |nonEmpty| && Dist(labels, nonEmpty[a], i) <= window ==>
      NoBetterThan(labels, i, Donor(labels, nonEmpty, i, window), nonEmpty[a])
  {
    var within := InWindow(labels, nonEmpty, i, window);
    InWindowMembers(labels, nonEmpty, i, window);
    var a0 :| 0 <= a0 < |nonEmpty| && Dist(labels, nonEmpty[a0], i) <= window;
    assert nonEmpty[a0] in within;
    var j := within[NearestPos(within, labels, i)];
    assert j in within;
    NearestIsLowestOfTies(within, labels, i);
    forall a | 0 <= a < |nonEmpty| && Dist(labels, nonEmpty[a], i) <= window
      ensures NoBetterThan(labels, i, j, nonEmpty[a])
    {
      assert nonEmpty[a] in within;
      var k :| 0 <= k < |within| && within[k] == nonEmpty[a];
    }
  }

  /** When no non-empty row lies within the window, the donor is the
      nearest of all non-empty rows, the lowest-indexed among equals. */
  lemma DonorFallback(labels: seq<int>, nonEmpty: seq<nat>, i: nat, window: int)
    requires |nonEmpty| > 0 && InRange(nonEmpty, |labels|) && i < |labels|
    requires StrictlyIncreasing(nonEmpty) && !HasNear(labels, nonEmpty, i, window)
    ensures forall a :: 0 <= a < |nonEmpty| ==>
      NoBetterThan(labels, i, Donor(labels, nonEmpty, i, window), nonEmpty[a])
  {
    var within := InWindow(labels, nonEmpty, i, window);
    InWindowMembers(labels, nonEmpty, i, window);
    NearestIsLowestOfTies(nonEmpty, labels, i);
  }

  // ---------------------------------------------------------------------
  // One merge: the four numpy statements, in order

  /** `mat[j] += mat[i]` */
  function AddRow(m: Mat, i: nat, j: nat): (r: Mat)
    requires Square(m, |m|) && i < |m| && j < |m|
    ensures Square(r, |m|)
  {
    m[j := seq(|m|, c requires 0 <= c < |m| => m[j][c] + m[i][c])]
  }

  /** `mat[:, j] += mat[:, i]` */
  function AddCol(m: Mat, i: nat, j: nat): (r: Mat)
    requires Square(m, |m|) && i < |m| && j < |m|
    ensures Square(r, |m|)
  {
    seq(|m|, r requires 0 <= r < |m| => m[r][j := m[r][j] + m[r][i]])
  }

  /** `mat[i] = 0` */
  function ZeroRow(m: Mat, i: nat): (r: Mat)
    requires Square(m, |m|) && i < |m|
    ensures Square(r, |m|)
  {
    m[i := seq(|m|, _ => 0)]
  }

  /** `mat[:, i] = 0` */
  function ZeroCol(m: Mat, i: nat): (r: Mat)
    requires Square(m, |m|) && i < |m|
    ensures Square(r, |m|)
  {
    seq(|m|, r requires 0 <= r < |m| => m[r][i := 0])
  }

  /** Row i and column i merged into row j and column j. */
  function Merge(m: Mat, i: nat, j: nat): (r: Mat)
    requires Square(m, |m|) && i < |m| && j < |m|
    ensures Square(r, |m|)
  {
    ZeroCol(ZeroRow(AddCol(AddRow(m, i, j), i, j), i), i)
  }

  /** Row k and column k are entirely zero. */
  ghost predicate Cleared(m: Mat, k: nat)
    requires Square(m, |m|) && k < |m|
  {
    forall c :: 0 <= c < |m| ==> m[k][c] == 0 && m[c][k] == 0
  }

  /** The cells after a merge, in terms of the cells before it. */
  lemma MergeCell(m: Mat, i: nat, j: nat, r: nat, c: nat)
    requires Square(m, |m|) && i < |m| && j < |m| && i != j && r < |m| && c < |m|
    ensures Merge(m, i, j)[r][c] ==
      if r == i || c == i then 0
      else m[r][c] + (if r == j then m[i][c] else 0)
           + (if c == j then m[r][i] + (if r == j then m[i][i] else 0) else 0)
  {
    var m1 := AddRow(m, i, j);
    var m2 := AddCol(m1, i, j);
    var m3 := ZeroRow(m2, i);
    assert m1[r][c] == m[r][c] + (if r == j then m[i][c] else 0);
    assert m1[r][i] == m[r][i] + (if r == j then m[i][i] else 0);
    assert m2[r][c] == m1[r][c] + (if c == j then m1[r][i] else 0);
    assert m3[r][c] == if r == i then 0 else m2[r][c];
  }

  /** A merge moves row i's whole sum onto row j, empties row i and leaves
      every other row sum alone: the bookkeeping `row_sums[j] += s;
      row_sums[i] = 0` keeps row_sums equal to the true row sums. */
  lemma MergeRowSums(m: Mat, i: nat, j: nat)
    requires Square(m, |m|) && i < |m| && j < |m| && i != j
    ensures forall r :: 0 <= r < |m| ==>
      Sum(Merge(m, i, j)[r]) == (if r == i then 0 else if r == j then Sum(m[j]) + Sum(m[i]) else Sum(m[r]))
  {
    var n := |m|;
    var m1 := AddRow(m, i, j);
    var m2 := AddCol(m1, i, j);
    var m3 := ZeroRow(m2, i);
    var m4 := ZeroCol(m3, i);
    SumPointwise(m[j], m[i], m1[j]);
    forall r | 0 <= r < n
      ensures Sum(m4[r]) == if r == i then 0 else Sum(m1[r])
    {
      SumUpdate(m1[r], j, m1[r][j] + m1[r][i]);
      assert m2[r] == m1[r][j := m1[r][j] + m1[r][i]];
      assert m2[r][i] == m1[r][i];
      SumUpdate(m3[r], i, 0);
      assert m4[r] == m3[r][i := 0];
      if r == i {
        SumOfZeros(m3[r]);
      }
    }
  }

  /** The same fact as a whole vector of row sums. */
  lemma MergeRowSumsVector(m: Mat, i: nat, j: nat)
    requires Square(m, |m|) && i < |m| && j < |m| && i != j
    ensures var rs := RowSums(m); RowSums(Merge(m, i, j)) == rs[j := rs[j] + rs[i]][i := 0]
  {
    MergeRowSums(m, i, j);
  }

  /** A merge conserves total mass. */
  lemma MergeTotal(m: Mat, i: nat, j: nat)
    requires Square(m, |m|) && i < |m| && j < |m| && i != j
    ensures Total(Merge(m, i, j)) == Total(m)
  {
    var rs := RowSums(m);
    MergeRowSumsVector(m, i, j);
    SumUpdate(rs, j, rs[j] + rs[i]);
    SumUpdate(rs[j := rs[j] + rs[i]], i, 0);
  }

  lemma MergeNonNegative(m: Mat, i: nat, j: nat)
    requires Square(m, |m|) && i < |m| && j < |m| && i != j && NonNegative(m)
    ensures NonNegative(Merge(m, i, j))
  {
    forall r, c | 0 <= r < |m| && 0 <= c < |m| ensures Merge(m, i, j)[r][c] >= 0 {
      MergeCell(m, i, j, r, c);
    }
  }

  /** The merged row and column are left entirely zero. */
  lemma MergeClears(m: Mat, i: nat, j: nat)
    requires Square(m, |m|) && i < |m| && j < |m| && i != j
    ensures Cleared(Merge(m, i, j), i)
  {
    forall c | 0 <= c < |m| ensures Merge(m, i, j)[i][c] == 0 && Merge(m, i, j)[c][i] == 0 {
      MergeCell(m, i, j, i, c);
      MergeCell(m, i, j, c, i);
    }
  }

  /** A row and column already cleared stay cleared when other rows merge. */
  lemma MergeKeepsCleared(m: Mat, i: nat, j: nat, k: nat)
    requires Square(m, |m|) && i < |m| && j < |m| && k < |m| && i != j
    requires k != i && k != j && Cleared(m, k)
    ensures Cleared(Merge(m, i, j), k)
  {
    forall c | 0 <= c < |m| ensures Merge(m, i, j)[k][c] == 0 && Merge(m, i, j)[c][k] == 0 {
      MergeCell(m, i, j, k, c);
      MergeCell(m, i, j, c, k);
    }
  }

  // ---------------------------------------------------------------------
  // The whole pass

  /** The pass from row i on: `for i, s in enumerate(row_sums)`, where s is
      always the current sum of row i. */
  function RebinFrom(m: Mat, labels: seq<int>, nonEmpty: seq<nat>, window: int, minCount: int, i: nat): (r: Mat)
    requires Square(m, |labels|) && InRange(nonEmpty, |labels|) && i <= |labels|
    ensures Square(r, |labels|)
    decreases |labels| - i
  {
    if i == |labels| then m
    else if Sum(m[i]) < minCount && |nonEmpty| > 0 then
      RebinFrom(Merge(m, i, Donor(labels, nonEmpty, i, window)), labels, nonEmpty, window, minCount, i + 1)
    else
      RebinFrom(m, labels, nonEmpty, window, minCount, i + 1)
  }

  /** The matrix left by the re-binning branch of `_clean_matrix`. */
  function Rebinned(m: Mat, labels: seq<int>, window: int, minCount: int): (r: Mat)
    requires Square(m, |labels|)
    ensures Square(r, |labels|)
  {
    RebinFrom(m, labels, NonEmpty(m, minCount), window, minCount, 0)
  }

  /** What holds before every step: counts are non-negative and every row
      of non_empty still reaches min_count. */
  ghost predicate Ready(m: Mat, labels: seq<int>, nonEmpty: seq<nat>, minCount: int)
  {
    Square(m, |labels|) && NonNegative(m) && InRange(nonEmpty, |labels|) &&
    forall a :: 0 <= a < |nonEmpty| ==> Sum(m[nonEmpty[a]]) >= minCount
  }

  /** A merge step never merges a row into itself, and keeps Ready. */
  lemma StepKeepsReady(m: Mat, labels: seq<int>, nonEmpty: seq<nat>, window: int, minCount: int, i: nat)
    requires Ready(m, labels, nonEmpty, minCount) && i < |labels|
    requires Sum(m[i]) < minCount && |nonEmpty| > 0
    ensures Donor(labels, nonEmpty, i, window) != i
    ensures Ready(Merge(m, i, Donor(labels, nonEmpty, i, window)), labels, nonEmpty, minCount)
  {
    var j := Donor(labels, nonEmpty, i, window);
    DonorIsNonEmpty(labels, nonEmpty, i, window);
    var b :| 0 <= b < |nonEmpty| && nonEmpty[b] == j;
    assert Sum(m[j]) >= minCount;
    MergeRowSums(m, i, j);
    MergeNonNegative(m, i, j);
    SumNonNegative(m[i]);
  }

  lemma {:induction false} RebinFromMass(m: Mat, labels: seq<int>, nonEmpty: seq<nat>, window: int, minCount: int, i: nat)
    requires Ready(m, labels, nonEmpty, minCount) && i <= |labels|
    ensures Total(RebinFrom(m, labels, nonEmpty, window, minCount, i)) == Total(m)
    ensures NonNegative(RebinFrom(m, labels, nonEmpty, window, minCount, i))
    decreases |labels| - i
  {
    if i < |labels| {
      if Sum(m[i]) < minCount && |nonEmpty| > 0 {
        var j := Donor(labels, nonEmpty, i, window);
        StepKeepsReady(m, labels, nonEmpty, window, minCount, i);
        MergeTotal(m, i, j);
        RebinFromMass(Merge(m, i, j), labels, nonEmpty, window, minCount, i + 1);
      } else {
        RebinFromMass(m, labels, nonEmpty, window, minCount, i + 1);
      }
    }
  }

  /** Row k, never a donor, is on track before step i: cleared if already
      processed, still below min_count otherwise. */
  ghost predicate OnTrack(m: Mat, labels: seq<int>, nonEmpty: seq<nat>, minCount: int, i: nat, k: nat)
  {
    Ready(m, labels, nonEmpty, minCount) && k < |labels| && |nonEmpty| > 0 && k !in nonEmpty &&
    (k < i ==> Cleared(m, k)) && (k >= i ==> Sum(m[k]) < minCount)
  }

  /** One merge step keeps row k on track. */
  lemma StepKeepsOnTrack(m: Mat, labels: seq<int>, nonEmpty: seq<nat>, window: int, minCount: int, i: nat, k: nat)
    requires OnTrack(m, labels, nonEmpty, minCount, i, k) && i < |labels| && Sum(m[i]) < minCount
    ensures OnTrack(Merge(m, i, Donor(labels, nonEmpty, i, window)), labels, nonEmpty, minCount, i + 1, k)
  {
    var j := Donor(labels, nonEmpty, i, window);
    StepKeepsReady(m, labels, nonEmpty, window, minCount, i);
    DonorIsNonEmpty(labels, nonEmpty, i, window);
    if k == i {
      MergeClears(m, i, j);
    } else if k < i {
      MergeKeepsCleared(m, i, j, k);
    } else {
      MergeRowSums(m, i, j);
    }
  }

  /** Iteration i merges row i into its donor when the row lacks mass. */
  lemma MergeUnfold(m: Mat, labels: seq<int>, nonEmpty: seq<nat>, window: int, minCount: int, i: nat)
    requires Square(m, |labels|) && InRange(nonEmpty, |labels|) && i < |labels|
    requires Sum(m[i]) < minCount && |nonEmpty| > 0
    ensures RebinFrom(m, labels, nonEmpty, window, minCount, i)
         == RebinFrom(Merge(m, i, Donor(labels, nonEmpty, i, window)), labels, nonEmpty, window, minCount, i + 1)
  {
  }

  lemma {:induction false} RebinFromClears(m: Mat, labels: seq<int>, nonEmpty: seq<nat>, window: int, minCount: int, i: nat, k: nat)
    requires OnTrack(m, labels, nonEmpty, minCount, i, k) && i <= |labels|
    ensures Cleared(RebinFrom(m, labels, nonEmpty, window, minCount, i), k)
    decreases |labels| - i
  {
    if i < |labels| {
      if Sum(m[i]) < minCount {
        var j := Donor(labels, nonEmpty, i, window);
        StepKeepsOnTrack(m, labels, nonEmpty, window, minCount, i, k);
        RebinFromClears(Merge(m, i, j), labels, nonEmpty, window, minCount, i + 1, k);
        MergeUnfold(m, labels, nonEmpty, window, minCount, i);
      } else {
        RebinFromClears(m, labels, nonEmpty, window, minCount, i + 1, k);
        IdleStep(m, labels, nonEmpty, window, minCount, i);
      }
    }
  }

  lemma {:induction false} RebinFromIdle(m: Mat, labels: seq<int>, nonEmpty: seq<nat>, window: int, minCount: int, i: nat)
    requires Square(m, |labels|) && |nonEmpty| == 0 && i <= |labels|
    ensures RebinFrom(m, labels, nonEmpty, window, minCount, i) == m
    decreases |labels| - i
  {
    if i < |labels| {
      RebinFromIdle(m, labels, nonEmpty, window, minCount, i + 1);
    }
  }

  lemma ReadyAtStart(m: Mat, labels: seq<int>, minCount: int)
    requires Square(m, |labels|) && NonNegative(m)
    ensures Ready(m, labels, NonEmpty(m, minCount), minCount)
  {
  }

  /** Re-binning keeps the dimension, keeps counts non-negative and
      conserves total mass exactly. */
  lemma RebinnedConservesMass(m: Mat, labels: seq<int>, window: int, minCount: int)
    requires Square(m, |labels|) && NonNegative(m)
    ensures Square(Rebinned(m, labels, window, minCount), |labels|)
    ensures NonNegative(Rebinned(m, labels, window, minCount))
    ensures Total(Rebinned(m, labels, window, minCount)) == Total(m)
  {
    ReadyAtStart(m, labels, minCount);
    RebinFromMass(m, labels, NonEmpty(m, minCount), window, minCount, 0);
  }

  /** When some row reaches min_count, every row below it ends with its
      whole row and its whole column at zero. */
  lemma RebinnedClearsSparseRows(m: Mat, labels: seq<int>, window: int, minCount: int, k: nat)
    requires Square(m, |labels|) && NonNegative(m)
    requires k < |labels| && Sum(m[k]) < minCount
    requires exists x :: 0 <= x < |labels| && Sum(m[x]) >= minCount
    ensures Cleared(Rebinned(m, labels, window, minCount), k)
  {
    var nonEmpty := NonEmpty(m, minCount);
    var x :| 0 <= x < |labels| && Sum(m[x]) >= minCount;
    assert x in nonEmpty;
    ReadyAtStart(m, labels, minCount);
    assert k !in nonEmpty;
    RebinFromClears(m, labels, nonEmpty, window, minCount, 0, k);
  }

  /** When no row reaches min_count there is no donor and the matrix is
      left as it is. */
  lemma RebinnedWithoutDonors(m: Mat, labels: seq<int>, window: int, minCount: int)
    requires Square(m, |labels|)
    requires forall x :: 0 <= x < |labels| ==> Sum(m[x]) < minCount
    ensures Rebinned(m, labels, window, minCount) == m
  {
    var mask := KeepMask(RowSums(m), minCount);
    IndicesOfNone(mask);
    RebinFromIdle(m, labels, NonEmpty(m, minCount), window, minCount, 0);
  }

  // ---------------------------------------------------------------------
  // The in-place pass

  /** Iteration i merges row i into its donor j: everything the loop keeps
      holds of the merged matrix, and the rest of the pass continues from it. */
  lemma MergeStep(cur: Mat, labels: seq<int>, nonEmpty: seq<nat>, window: int, minCount: int, i: nat, j: nat, rowSums: seq<int>)
    requires Ready(cur, labels, nonEmpty, minCount) && i < |labels| && rowSums == RowSums(cur)
    requires rowSums[i] < minCount && |nonEmpty| > 0 && j == Donor(labels, nonEmpty, i, window)
    ensures j != i && Ready(Merge(cur, i, j), labels, nonEmpty, minCount)
    ensures RowSums(Merge(cur, i, j)) == rowSums[j := rowSums[j] + rowSums[i]][i := 0]
    ensures RebinFrom(cur, labels, nonEmpty, window, minCount, i)
         == RebinFrom(Merge(cur, i, j), labels, nonEmpty, window, minCount, i + 1)
  {
    StepKeepsReady(cur, labels, nonEmpty, window, minCount, i);
    MergeRowSumsVector(cur, i, j);
  }

  /** Iteration i leaves the matrix alone when row i reaches min_count or
      there is no donor. */
  lemma IdleStep(cur: Mat, labels: seq<int>, nonEmpty: seq<nat>, window: int, minCount: int, i: nat)
    requires Square(cur, |labels|) && InRange(nonEmpty, |labels|) && i < |labels|
    requires !(Sum(cur[i]) < minCount && |nonEmpty| > 0)
    ensures RebinFrom(cur, labels, nonEmpty, window, minCount, i)
         == RebinFrom(cur, labels, nonEmpty, window, minCount, i + 1)
  {
  }

  /** The four statements that merge row and column i into row and column
      j of `mat`: `mat[j] += mat[i]; mat[:, j] += mat[:, i]; mat[i] = 0;
      mat[:, i] = 0`. */
  method MergeInPlace(mat: array2<int>, i: nat, j: nat, ghost cur: Mat)
    requires Holds(mat, cur) && i < |cur| && j < |cur|
    modifies mat
    ensures Holds(mat, Merge(cur, i, j))
  {
    var n := mat.Length0;
    ghost var m1 := AddRow(cur, i, j);
    forall c | 0 <= c < n {
      mat[j, c] := mat[j, c] + mat[i, c];
    }
    assert Holds(mat, m1);
    ghost var m2 := AddCol(m1, i, j);
    forall r | 0 <= r < n {
      mat[r, j] := mat[r, j] + mat[r, i];
    }
    assert Holds(mat, m2);
    ghost var m3 := ZeroRow(m2, i);
    forall c | 0 <= c < n {
      mat[i, c] := 0;
    }
    assert Holds(mat, m3);
    forall r | 0 <= r < n {
      mat[r, i] := 0;
    }
  }

  /** The merging branch of one iteration: row i lacks mass and is folded
      into its donor. */
  method MergeRow(mat: array2<int>, labels: seq<int>, nonEmpty: seq<nat>, window: int, minCount: int,
                  i: nat, rowSums: seq<int>, ghost cur: Mat)
    returns (sums: seq<int>, ghost next: Mat)
    requires Holds(mat, cur) && Ready(cur, labels, nonEmpty, minCount) && i < |labels|
    requires rowSums == RowSums(cur) && rowSums[i] < minCount && |nonEmpty| > 0
    modifies mat
    ensures Holds(mat, next) && Ready(next, labels, nonEmpty, minCount)
    ensures sums == RowSums(next)
    ensures RebinFrom(next, labels, nonEmpty, window, minCount, i + 1)
         == RebinFrom(cur, labels, nonEmpty, window, minCount, i)
  {
    var j := Donor(labels, nonEmpty, i, window);
    MergeStep(cur, labels, nonEmpty, window, minCount, i, j, rowSums);
    MergeInPlace(mat, i, j, cur);
    sums := rowSums[j := rowSums[j] + rowSums[i]][i := 0];
    next := Merge(cur, i, j);
  }

  /** One iteration of `for i, s in enumerate(row_sums)`: s is the current
      sum of row i, and a row below min_count is merged into its donor. */
  method RebinRow(mat: array2<int>, labels: seq<int>, nonEmpty: seq<nat>, window: int, minCount: int,
                  i: nat, rowSums: seq<int>, ghost cur: Mat)
    returns (sums: seq<int>, ghost next: Mat)
    requires Holds(mat, cur) && Ready(cur, labels, nonEmpty, minCount) && i < |labels|
    requires rowSums == RowSums(cur)
    modifies mat
    ensures Holds(mat, next) && Ready(next, labels, nonEmpty, minCount)
    ensures sums == RowSums(next)
    ensures RebinFrom(next, labels, nonEmpty, window, minCount, i + 1)
         == RebinFrom(cur, labels, nonEmpty, window, minCount, i)
  {
    if rowSums[i] < minCount && |nonEmpty| > 0 {
      sums, next := MergeRow(mat, labels, nonEmpty, window, minCount, i, rowSums, cur);
    } else {
      IdleStep(cur, labels, nonEmpty, window, minCount, i);
      sums, next := rowSums, cur;
    }
  }

  /** The re-binning branch of `_clean_matrix`, mutating `mat` in place. */
  method RebinInPlace(mat: array2<int>, labels: seq<int>, window: int, minCount: int)
    requires mat.Length0 == mat.Length1 == |labels|
    requires NonNegative(Snapshot(mat))
    modifies mat
    ensures Snapshot(mat) == Rebinned(old(Snapshot(mat)), labels, window, minCount)
  {
    var n := |labels|;
    ghost var m0 := Snapshot(mat);
    ghost var cur := m0;
    var rowSums := RowSums(Snapshot(mat));
    var nonEmpty := Indices(KeepMask(rowSums, minCount));
    ReadyAtStart(m0, labels, minCount);
    var i := 0;
    while i < n
      invariant 0 <= i <= n
      invariant Holds(mat, cur)
      invariant Ready(cur, labels, nonEmpty, minCount)
      invariant rowSums == RowSums(cur)
      invariant RebinFrom(cur, labels, nonEmpty, window, minCount, i)
             == Rebinned(m0, labels, window, minCount)
    {
      rowSums, cur := RebinRow(mat, labels, nonEmpty, window, minCount, i, rowSums, cur);
      i := i + 1;
    }
    HoldsSnapshot(mat, cur);
  }
}
