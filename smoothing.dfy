/**
 * Laplace (add-alpha) smoothing, the last step of `_clean_matrix`: a row
 * with positive mass becomes `(row + alpha) / sum(row + alpha)`, a row
 * without mass stays the zero vector. Probabilities are exact reals.
 */
module Smoothing {
  import opened Sequences
  import opened Matrices

  /** A matrix of transition probabilities. */
  type Prob = seq<seq<real>>

  /** `mat[i] + self.alpha` */
  function Shifted(row: seq<int>, alpha: real): (v: seq<real>)
    ensures |v| == |row|
  {
    seq(|row|, c requires 0 <= c < |row| => row[c] as real + alpha)
  }

  /** `row / d` */
  function Scaled(v: seq<real>, d: real): (w: seq<real>)
    requires d != 0.0
    ensures |w| == |v|
  {
    seq(|v|, c requires 0 <= c < |v| => v[c] / d)
  }

  /** Adding alpha to every entry adds alpha once per entry to the sum. */
  lemma {:induction false} SumShifted(row: seq<int>, alpha: real)
    ensures SumReal(Shifted(row, alpha)) == Sum(row) as real + |row| as real * alpha
  {
    if |row| > 0 {
      assert Shifted(row, alpha)[1..] == Shifted(row[1..], alpha);
      SumShifted(row[1..], alpha);
    }
  }

  lemma DivideSum(a: real, b: real, d: real)
    requires d != 0.0
    ensures a / d + b / d == (a + b) / d
  {
  }

  /** Dividing every entry by d divides the sum by d. */
  lemma {:induction false} SumScaled(v: seq<real>, d: real)
    requires d != 0.0
    ensures SumReal(Scaled(v, d)) == SumReal(v) / d
  {
    if |v| > 0 {
      assert Scaled(v, d)[1..] == Scaled(v[1..], d);
      SumScaled(v[1..], d);
      DivideSum(v[0], SumReal(v[1..]), d);
    }
  }

  lemma {:induction false} SumRealOfZeros(v: seq<real>)
    requires forall c :: 0 <= c < |v| ==> v[c] == 0.0
    ensures SumReal(v) == 0.0
  {
    if |v| > 0 {
      SumRealOfZeros(v[1..]);
    }
  }

  /** In a sequence without negative entries no entry exceeds the sum. */
  lemma {:induction false} EntryAtMostSumReal(v: seq<real>, c: nat)
    requires forall k :: 0 <= k < |v| ==> v[k] >= 0.0
    requires c < |v|
    ensures 0.0 <= v[c] <= SumReal(v)
  {
    if c == 0 {
      SumRealNonNegative(v[1..]);
    } else {
      EntryAtMostSumReal(v[1..], c - 1);
    }
  }

  lemma {:induction false} SumRealNonNegative(v: seq<real>)
    requires forall k :: 0 <= k < |v| ==> v[k] >= 0.0
    ensures SumReal(v) >= 0.0
  {
    if |v| > 0 {
      SumRealNonNegative(v[1..]);
    }
  }

  lemma ScaledNonNegative(x: real, alpha: real)
    requires x >= 0.0 && alpha >= 0.0
    ensures x * alpha >= 0.0
  {
  }

  lemma RatioOfSelf(x: real)
    requires x != 0.0
    ensures x / x == 1.0
  {
  }

  lemma FractionBounded(x: real, total: real)
    requires 0.0 <= x <= total && total > 0.0
    ensures 0.0 <= x / total <= 1.0
  {
  }

  /** One row of `final`: smoothed and normalised when the row has mass,
      the zero vector otherwise. */
  function SmoothRow(row: seq<int>, alpha: real): (p: seq<real>)
    requires alpha >= 0.0
    ensures |p| == |row|
  {
    if Sum(row) > 0 then
      SumShifted(row, alpha);
      Scaled(Shifted(row, alpha), SumReal(Shifted(row, alpha)))
    else
      seq(|row|, _ => 0.0)
  }

  /** A row with mass becomes a probability vector: it sums to exactly one. */
  lemma SmoothRowSumsToOne(row: seq<int>, alpha: real)
    requires alpha >= 0.0 && Sum(row) > 0
    ensures SumReal(SmoothRow(row, alpha)) == 1.0
  {
    var v := Shifted(row, alpha);
    SumShifted(row, alpha);
    var total := SumReal(v);
    ScaledNonNegative(|row| as real, alpha);
    assert total > 0.0;
    assert SmoothRow(row, alpha) == Scaled(v, total);
    SumScaled(v, total);
    RatioOfSelf(total);
  }

  /** Every smoothed entry of a row of counts is a probability. */
  lemma SmoothRowBounded(row: seq<int>, alpha: real)
    requires alpha >= 0.0 && AllNonNegative(row)
    ensures forall c :: 0 <= c < |row| ==> 0.0 <= SmoothRow(row, alpha)[c] <= 1.0
  {
    if Sum(row) > 0 {
      var v := Shifted(row, alpha);
      SumShifted(row, alpha);
      var total := SumReal(v);
      assert SmoothRow(row, alpha) == Scaled(v, total);
      forall c | 0 <= c < |row| ensures 0.0 <= SmoothRow(row, alpha)[c] <= 1.0 {
        EntryAtMostSumReal(v, c);
        FractionBounded(v[c], total);
      }
    }
  }

  /** With alpha > 0 every entry of a row with mass is strictly positive:
      smoothing gives unseen transitions some probability. */
  lemma SmoothRowPositive(row: seq<int>, alpha: real)
    requires alpha > 0.0 && AllNonNegative(row) && Sum(row) > 0
    ensures forall c :: 0 <= c < |row| ==> SmoothRow(row, alpha)[c] > 0.0
  {
    SumShifted(row, alpha);
  }

  /** A smoothed row is the zero vector exactly when the row of counts is. */
  lemma SmoothRowZeroIffEmpty(row: seq<int>, alpha: real)
    requires alpha >= 0.0 && AllNonNegative(row)
    ensures (forall c :: 0 <= c < |row| ==> SmoothRow(row, alpha)[c] == 0.0)
        <==> (forall c :: 0 <= c < |row| ==> row[c] == 0)
  {
    SumNonNegative(row);
    if Sum(row) > 0 {
      SmoothRowSumsToOne(row, alpha);
      if forall c :: 0 <= c < |row| ==> SmoothRow(row, alpha)[c] == 0.0 {
        SumRealOfZeros(SmoothRow(row, alpha));
      }
      if forall c :: 0 <= c < |row| ==> row[c] == 0 {
        SumOfZeros(row);
      }
    } else {
      ZeroSumMeansZeros(row);
    }
  }

  /** Each row is either the zero vector or a probability vector. */
  predicate RowStochasticOrZero(p: Prob)
  {
    forall r :: 0 <= r < |p| ==>
      (forall c :: 0 <= c < |p[r]| ==> p[r][c] == 0.0) ||
      (SumReal(p[r]) == 1.0 && forall c :: 0 <= c < |p[r]| ==> 0.0 <= p[r][c] <= 1.0)
  }

  /** `final`, the smoothed matrix, as a value. */
  function Smoothed(m: Mat, alpha: real): (p: Prob)
    requires alpha >= 0.0
    ensures |p| == |m|
    ensures forall r :: 0 <= r < |m| ==> p[r] == SmoothRow(m[r], alpha)
  {
    seq(|m|, r requires 0 <= r < |m| => SmoothRow(m[r], alpha))
  }

  /** Smoothing a matrix of counts keeps its shape and leaves every row
      either zero or stochastic. */
  lemma SmoothedStochastic(m: Mat, alpha: real)
    requires alpha >= 0.0 && NonNegative(m)
    ensures Square(m, |m|) ==> Square(Smoothed(m, alpha), |m|)
    ensures RowStochasticOrZero(Smoothed(m, alpha))
  {
    var p := Smoothed(m, alpha);
    forall r | 0 <= r < |p|
      ensures (forall c :: 0 <= c < |p[r]| ==> p[r][c] == 0.0) ||
              (SumReal(p[r]) == 1.0 && forall c :: 0 <= c < |p[r]| ==> 0.0 <= p[r][c] <= 1.0)
    {
      assert AllNonNegative(m[r]);
      SmoothRowBounded(m[r], alpha);
      if Sum(m[r]) > 0 {
        SmoothRowSumsToOne(m[r], alpha);
      }
    }
  }

  /** `final[i] = p` */
  method WriteRow(final: array2<real>, i: nat, p: seq<real>)
    requires i < final.Length0 && |p| == final.Length1
    modifies final
    ensures forall r, c :: 0 <= r < final.Length0 && 0 <= c < final.Length1 ==>
      final[r, c] == if r == i then p[c] else old(final[r, c])
  {
    forall c | 0 <= c < final.Length1 {
      final[i, c] := p[c];
    }
  }

  /** The smoothing loop: `final = np.zeros_like(mat)`, then each row with
      mass is overwritten with its smoothed, normalised version. */
  method Smooth(m: Mat, alpha: real) returns (final: array2<real>)
    requires Square(m, |m|) && alpha >= 0.0
    ensures fresh(final)
    ensures final.Length0 == final.Length1 == |m|
    ensures Snapshot(final) == Smoothed(m, alpha)
  {
    var n := |m|;
    final := new real[n, n]((r, c) => 0.0);
    for i := 0 to n
      invariant forall r, c :: 0 <= r < n && 0 <= c < n ==>
        final[r, c] == if r < i then SmoothRow(m[r], alpha)[c] else 0.0
    {
      if Sum(m[i]) > 0 {
        var row := Shifted(m[i], alpha);
        SumShifted(m[i], alpha);
        var p := Scaled(row, SumReal(row));
        assert p == SmoothRow(m[i], alpha);
        WriteRow(final, i, p);
      }
    }
    SameCells(Snapshot(final), Smoothed(m, alpha), n);
  }
}
