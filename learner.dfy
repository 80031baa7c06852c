/**
 * `TransitionMatrixLearner`: the estimator object. It holds its
 * configuration, the bucket labels of the last cleaned matrix and the
 * fitted matrices (global, per homogeneous group and per stage). `fit`
 * joins the panel with itself one month apart, counts the transitions of
 * every modality, cleans each count matrix and stores the result;
 * `get_matrix` looks one of them up.
 */
module Learner {
  import opened Sequences
  import opened Matrices
  import opened Pairing
  import opened Counting
  import opened Rebin
  import opened Drop
  import opened Smoothing

  datatype Option<T> = None | Some(value: T)

  /** The exceptions the estimator raises. */
  datatype Error =
    | BothStrategies            // ValueError in the constructor
    | NotFitted                 // RuntimeError("fit() not called yet")
    | UnknownGroup(gh: string)  // KeyError on the per-group dictionary
    | UnknownStage(stage: int)  // KeyError on the per-stage dictionary

  datatype Result<T> = Success(value: T) | Failure(error: Error)

  /** A dictionary of fitted matrices together with `cleaned_buckets`: the
      state one of the loops of `fit` works on. */
  datatype Store<K> = Store(dict: map<K, Prob>, labels: seq<int>)

  /** What `_clean_matrix` produces: the probability matrix it returns and
      the value it leaves in `cleaned_buckets`. */
  datatype Cleaned = Cleaned(matrix: Prob, labels: seq<int>)

  /** The count matrix once the cleaning strategy has run: re-binned in
      place, reduced to the buckets reaching min_count, or left alone. */
  function Prepared(counts: Mat, labels: seq<int>, autoRebin: bool, dropEmpty: bool,
                    minCount: int, window: int): (r: Mat)
    requires Square(counts, |labels|)
    ensures Square(r, |r|)
  {
    if autoRebin then
      Rebinned(counts, labels, window, minCount)
    else if dropEmpty then
      DroppedIsPrincipal(counts, labels, minCount);
      Dropped(counts, minCount)
    else
      counts
  }

  /** `cleaned_buckets` once the cleaning strategy has run. */
  function PreparedLabels(counts: Mat, labels: seq<int>, autoRebin: bool, dropEmpty: bool,
                          minCount: int): (r: seq<int>)
    requires |labels| == |counts|
    ensures forall a :: 0 <= a < |r| ==> r[a] in labels
  {
    if !autoRebin && dropEmpty then DroppedLabels(labels, counts, minCount) else labels
  }

  /** `_clean_matrix` as a value: the cleaning strategy, then smoothing. */
  function Clean(counts: Mat, labels: seq<int>, alpha: real, autoRebin: bool, dropEmpty: bool,
                 minCount: int, window: int): (c: Cleaned)
    requires Square(counts, |labels|) && alpha >= 0.0
    ensures Square(c.matrix, |c.labels|)
  {
    Cleaned(Smoothed(Prepared(counts, labels, autoRebin, dropEmpty, minCount, window), alpha),
            PreparedLabels(counts, labels, autoRebin, dropEmpty, minCount))
  }

  /** Whatever the strategy, the cleaned matrix is square over the cleaned
      labels and each of its rows is a probability vector or zero. The
      labels are the bucket thresholds unless the drop strategy is on, and
      then they are the thresholds of exactly the rows reaching min_count. */
  lemma CleanWellFormed(counts: Mat, labels: seq<int>, alpha: real, autoRebin: bool, dropEmpty: bool,
                        minCount: int, window: int)
    requires Square(counts, |labels|) && NonNegative(counts) && alpha >= 0.0
    ensures var c := Clean(counts, labels, alpha, autoRebin, dropEmpty, minCount, window);
      Square(c.matrix, |c.labels|) && RowStochasticOrZero(c.matrix) &&
      (autoRebin || !dropEmpty ==> c.labels == labels) &&
      (!autoRebin && dropEmpty ==>
        var kept := NonEmpty(counts, minCount);
        |c.labels| == |kept| && forall a :: 0 <= a < |kept| ==> c.labels[a] == labels[kept[a]])
  {
    if autoRebin {
      RebinnedConservesMass(counts, labels, window, minCount);
      SmoothedStochastic(Rebinned(counts, labels, window, minCount), alpha);
    } else if dropEmpty {
      DroppedIsPrincipal(counts, labels, minCount);
      DroppedNonNegative(counts, labels, minCount);
      SmoothedStochastic(Dropped(counts, minCount), alpha);
    } else {
      SmoothedStochastic(counts, alpha);
    }
  }

  /** Under re-binning, a bucket whose row falls short of min_count ends up
      with a zero row in the final matrix, provided some bucket reaches
      min_count: its transitions were all moved to its donor. */
  lemma CleanRebinEmptiesSparseRows(counts: Mat, labels: seq<int>, alpha: real, dropEmpty: bool,
                                    minCount: int, window: int, k: nat)
    requires Square(counts, |labels|) && NonNegative(counts) && alpha >= 0.0
    requires k < |labels| && Sum(counts[k]) < minCount
    requires exists x :: 0 <= x < |labels| && Sum(counts[x]) >= minCount
    ensures var c := Clean(counts, labels, alpha, true, dropEmpty, minCount, window);
      forall col :: 0 <= col < |labels| ==> c.matrix[k][col] == 0.0
  {
    var r := Rebinned(counts, labels, window, minCount);
    RebinnedClearsSparseRows(counts, labels, window, minCount, k);
    assert forall col :: 0 <= col < |r[k]| ==> r[k][col] == 0;
    SumOfZeros(r[k]);
  }

  /** With alpha > 0 and no cleaning strategy, every bucket that was left
      at least once has a strictly positive probability of moving to every
      bucket. */
  lemma CleanPlainIsPositive(counts: Mat, labels: seq<int>, alpha: real, minCount: int, window: int, k: nat)
    requires Square(counts, |labels|) && NonNegative(counts) && alpha > 0.0
    requires k < |labels| && Sum(counts[k]) > 0
    ensures var c := Clean(counts, labels, alpha, false, false, minCount, window);
      forall col :: 0 <= col < |labels| ==> c.matrix[k][col] > 0.0
  {
    assert AllNonNegative(counts[k]);
    SmoothRowPositive(counts[k], alpha);
  }

  // ---------------------------------------------------------------------
  // The rows of one modality

  /** Every joined row can be placed in a bucket: neither observation lies
      below the first threshold. */
  predicate InScale(labels: seq<int>, rows: seq<JoinedRow>)
  {
    forall k :: 0 <= k < |rows| ==>
      |labels| > 0 && labels[0] <= rows[k].bucketNow && labels[0] <= rows[k].bucketPrev
  }

  /** A panel whose delinquency values all reach the first threshold joins
      into rows that can all be placed in a bucket. */
  lemma PanelInScale(labels: seq<int>, panel: seq<Observation>)
    requires |labels| > 0 && forall k :: 0 <= k < |panel| ==> labels[0] <= panel[k].bucket
    ensures InScale(labels, Join(panel))
  {
    JoinBounded(panel, labels[0]);
  }

  lemma InScaleLocatable(labels: seq<int>, rows: seq<JoinedRow>)
    requires InScale(labels, rows)
    ensures Locatable(labels, NowColumn(rows)) && Locatable(labels, PrevColumn(rows))
  {
    var now, prev := NowColumn(rows), PrevColumn(rows);
    forall k | 0 <= k < |now| ensures |labels| > 0 && labels[0] <= now[k] {
      assert now[k] == rows[k].bucketNow;
    }
    forall k | 0 <= k < |prev| ensures |labels| > 0 && labels[0] <= prev[k] {
      assert prev[k] == rows[k].bucketPrev;
    }
  }

  /** `grp` for one key of `merged.groupby(group_col + "_t")`. */
  function GroupRows(rows: seq<JoinedRow>, g: string): (r: seq<JoinedRow>)
    ensures forall k :: 0 <= k < |r| ==> r[k] in rows && r[k].groupNow == g
    ensures forall x :: x in rows && x.groupNow == g ==> x in r
    ensures forall x :: multiset(r)[x] == if x.groupNow == g then multiset(rows)[x] else 0
  {
    Filter(rows, (x: JoinedRow) => x.groupNow == g)
  }

  /** `grp` for one key of `merged.groupby(bucket_col + "_t")`. */
  function StageRows(rows: seq<JoinedRow>, s: int): (r: seq<JoinedRow>)
    ensures forall k :: 0 <= k < |r| ==> r[k] in rows && r[k].bucketNow == s
    ensures forall x :: x in rows && x.bucketNow == s ==> x in r
    ensures forall x :: multiset(r)[x] == if x.bucketNow == s then multiset(rows)[x] else 0
  {
    Filter(rows, (x: JoinedRow) => x.bucketNow == s)
  }

  /** The rows of every group and every stage can be placed in a bucket
      when all rows can. */
  lemma ModalitiesInScale(labels: seq<int>, rows: seq<JoinedRow>)
    requires InScale(labels, rows)
    ensures forall g :: InScale(labels, GroupRows(rows, g))
    ensures forall s :: InScale(labels, StageRows(rows, s))
  {
    forall g ensures InScale(labels, GroupRows(rows, g)) {
      var grp := GroupRows(rows, g);
      forall k | 0 <= k < |grp|
        ensures |labels| > 0 && labels[0] <= grp[k].bucketNow && labels[0] <= grp[k].bucketPrev
      {
        var j :| 0 <= j < |rows| && rows[j] == grp[k];
      }
    }
    forall s ensures InScale(labels, StageRows(rows, s)) {
      var grp := StageRows(rows, s);
      forall k | 0 <= k < |grp|
        ensures |labels| > 0 && labels[0] <= grp[k].bucketNow && labels[0] <= grp[k].bucketPrev
      {
        var j :| 0 <= j < |rows| && rows[j] == grp[k];
      }
    }
  }

  /** The per-group loop only runs when there are joined rows, and then the
      per-stage loop runs too. */
  lemma GroupsNeedStages(rows: seq<JoinedRow>)
    requires |GroupKeys(rows)| > 0
    ensures |StageKeys(rows)| > 0
  {
    var g := GroupKeys(rows)[0];
    assert g in GroupKeys(rows);
    assert NowColumn(rows)[0] in NowColumn(rows);
  }

  // ---------------------------------------------------------------------
  // The estimator

  class TransitionMatrixLearner {
    const buckets: seq<int>
    const alpha: real
    const autoRebin: bool
    const dropEmpty: bool
    const minCount: int
    const rebinWindow: int
    const n: nat
    var cleanedBuckets: seq<int>
    var matGlobal: Option<Prob>
    var matByGroup: map<string, Prob>
    var matByStage: map<int, Prob>

    ghost predicate Valid()
      reads this
    {
      IsSorted(buckets) && n == |buckets| && !(autoRebin && dropEmpty) && alpha >= 0.0 &&
      (matGlobal.Some? ==> RowStochasticOrZero(matGlobal.value)) &&
      (forall g :: g in matByGroup ==> RowStochasticOrZero(matByGroup[g])) &&
      (forall s :: s in matByStage ==> RowStochasticOrZero(matByStage[s]))
    }

    /** `__init__` once the two strategies are known not to clash. */
    constructor (buckets: seq<int>, alpha: real, autoRebin: bool, dropEmpty: bool,
                 minCount: int, rebinWindow: int)
      requires !(autoRebin && dropEmpty) && alpha >= 0.0
      ensures Valid()
      ensures this.buckets == SortAscending(buckets) && this.n == |buckets|
      ensures this.alpha == alpha && this.autoRebin == autoRebin && this.dropEmpty == dropEmpty
      ensures this.minCount == minCount && this.rebinWindow == rebinWindow
      ensures cleanedBuckets == this.buckets
      ensures matGlobal == None && matByGroup == map[] && matByStage == map[]
    {
      this.buckets := SortAscending(buckets);
      this.alpha := alpha;
      this.autoRebin := autoRebin;
      this.dropEmpty := dropEmpty;
      this.minCount := minCount;
      this.rebinWindow := rebinWindow;
      this.n := |buckets|;
      cleanedBuckets := SortAscending(buckets);
      matGlobal := None;
      matByGroup := map[];
      matByStage := map[];
    }

    /** `__init__` with its error path: asking for both strategies fails,
        anything else yields a fresh, unfitted estimator. */
    static method Create(buckets: seq<int>, alpha: real, autoRebin: bool, dropEmpty: bool,
                         minCount: int, rebinWindow: int)
      returns (r: Result<TransitionMatrixLearner>)
      requires alpha >= 0.0
      ensures r.Failure? <==> autoRebin && dropEmpty
      ensures r.Failure? ==> r.error == BothStrategies
      ensures r.Success? ==> fresh(r.value) && r.value.Valid()
      ensures r.Success? ==> r.value.buckets == SortAscending(buckets) && r.value.matGlobal == None
      ensures r.Success? ==> r.value.matByGroup == map[] && r.value.matByStage == map[]
      ensures r.Success? ==> r.value.n == |buckets| && r.value.cleanedBuckets == r.value.buckets
      ensures r.Success? ==> r.value.alpha == alpha && r.value.autoRebin == autoRebin && r.value.dropEmpty == dropEmpty
      ensures r.Success? ==> r.value.minCount == minCount && r.value.rebinWindow == rebinWindow
    {
      if autoRebin && dropEmpty {
        return Failure(BothStrategies);
      }
      var l := new TransitionMatrixLearner(buckets, alpha, autoRebin, dropEmpty, minCount, rebinWindow);
      return Success(l);
    }

    /** The result of `_clean_matrix` on the counts of the given joined rows. */
    function CleanedOf(rows: seq<JoinedRow>): (c: Cleaned)
      requires alpha >= 0.0 && InScale(buckets, rows)
      ensures Square(c.matrix, |c.labels|) && RowStochasticOrZero(c.matrix)
      ensures autoRebin || !dropEmpty ==> c.labels == buckets
    {
      InScaleLocatable(buckets, rows);
      var now, prev := NowColumn(rows), PrevColumn(rows);
      CountsNonNegative(buckets, now, prev);
      CleanWellFormed(Counts(buckets, now, prev), buckets, alpha, autoRebin, dropEmpty, minCount, rebinWindow);
      Clean(Counts(buckets, NowColumn(rows), PrevColumn(rows)), buckets, alpha, autoRebin, dropEmpty,
            minCount, rebinWindow)
    }

    /** The strategy half of `_clean_matrix`: re-bins `mat` in place, or
        takes the submatrix of the buckets reaching min_count, or keeps the
        counts as they are, and sets `cleaned_buckets` to match. */
    method PrepareCounts(mat: array2<int>) returns (counts: Mat)
      requires Valid() && mat.Length0 == mat.Length1 == n && NonNegative(Snapshot(mat))
      modifies this`cleanedBuckets, mat
      ensures Valid()
      ensures counts == Prepared(old(Snapshot(mat)), buckets, autoRebin, dropEmpty, minCount, rebinWindow)
      ensures cleanedBuckets == PreparedLabels(old(Snapshot(mat)), buckets, autoRebin, dropEmpty, minCount)
      ensures autoRebin ==> Snapshot(mat) == counts
      ensures !autoRebin ==> unchanged(mat)
    {
      if autoRebin {
        RebinInPlace(mat, buckets, rebinWindow, minCount);
        counts := Snapshot(mat);
        cleanedBuckets := buckets;
      } else if dropEmpty {
        var m0 := Snapshot(mat);
        counts := Dropped(m0, minCount);
        cleanedBuckets := DroppedLabels(buckets, m0, minCount);
      } else {
        counts := Snapshot(mat);
        cleanedBuckets := buckets;
      }
    }

    /** `_clean_matrix`: the cleaning strategy, then Laplace smoothing of
        every row with mass. It returns the probability matrix and leaves
        the labels of its rows in `cleaned_buckets`. */
    method CleanMatrix(mat: array2<int>) returns (p: Prob)
      requires Valid() && mat.Length0 == mat.Length1 == n && NonNegative(Snapshot(mat))
      modifies this`cleanedBuckets, mat
      ensures Valid() && RowStochasticOrZero(p)
      ensures var c := Clean(old(Snapshot(mat)), buckets, alpha, autoRebin, dropEmpty, minCount, rebinWindow);
        p == c.matrix && cleanedBuckets == c.labels
      ensures autoRebin ==> Snapshot(mat) == Rebinned(old(Snapshot(mat)), buckets, rebinWindow, minCount)
      ensures !autoRebin ==> unchanged(mat)
    {
      ghost var m0 := Snapshot(mat);
      var counts := PrepareCounts(mat);
      var final := Smooth(counts, alpha);
      p := Snapshot(final);
      CleanWellFormed(m0, buckets, alpha, autoRebin, dropEmpty, minCount, rebinWindow);
    }

    /** `_count_matrix` followed by `_clean_matrix` for one modality. */
    method CountAndClean(rows: seq<JoinedRow>) returns (p: Prob)
      requires Valid() && InScale(buckets, rows)
      modifies this`cleanedBuckets
      ensures Valid() && RowStochasticOrZero(p)
      ensures p == CleanedOf(rows).matrix && cleanedBuckets == CleanedOf(rows).labels
    {
      InScaleLocatable(buckets, rows);
      var counts := CountMatrix(buckets, NowColumn(rows), PrevColumn(rows));
      CountsNonNegative(buckets, NowColumn(rows), PrevColumn(rows));
      p := CleanMatrix(counts);
    }

    /** One iteration of the per-group loop of `fit`, as a value: the
        group's matrix is stored under its key and its labels become
        `cleaned_buckets`. */
    function GroupStep(st: Store<string>, rows: seq<JoinedRow>, g: string): Store<string>
      requires alpha >= 0.0 && InScale(buckets, GroupRows(rows, g))
    {
      var c := CleanedOf(GroupRows(rows, g));
      Store(st.dict[g := c.matrix], c.labels)
    }

    /** One iteration of the per-stage loop of `fit`, as a value. */
    function StageStep(st: Store<int>, rows: seq<JoinedRow>, s: int): Store<int>
      requires alpha >= 0.0 && InScale(buckets, StageRows(rows, s))
    {
      var c := CleanedOf(StageRows(rows, s));
      Store(st.dict[s := c.matrix], c.labels)
    }

    /** The per-group loop over `keys`, starting from `st`. */
    ghost function AfterGroups(st: Store<string>, rows: seq<JoinedRow>, keys: seq<string>): Store<string>
      requires alpha >= 0.0 && InScale(buckets, rows)
      decreases |keys|
    {
      ModalitiesInScale(buckets, rows);
      if |keys| == 0 then st
      else GroupStep(AfterGroups(st, rows, keys[..|keys| - 1]), rows, keys[|keys| - 1])
    }

    /** The per-stage loop over `keys`, starting from `st`. */
    ghost function AfterStages(st: Store<int>, rows: seq<JoinedRow>, keys: seq<int>): Store<int>
      requires alpha >= 0.0 && InScale(buckets, rows)
      decreases |keys|
    {
      ModalitiesInScale(buckets, rows);
      if |keys| == 0 then st
      else StageStep(AfterStages(st, rows, keys[..|keys| - 1]), rows, keys[|keys| - 1])
    }

    /** The per-group loop stores a matrix under exactly the keys it visits,
        besides those already present. */
    lemma {:induction false} AfterGroupsDomain(st: Store<string>, rows: seq<JoinedRow>, keys: seq<string>)
      requires alpha >= 0.0 && InScale(buckets, rows)
      ensures forall g :: g in AfterGroups(st, rows, keys).dict <==> g in st.dict || g in keys
      decreases |keys|
    {
      if |keys| > 0 {
        var front, last := keys[..|keys| - 1], keys[|keys| - 1];
        AfterGroupsDomain(st, rows, front);
        assert forall g :: g in keys <==> g in front || g == last;
      }
    }

    /** After the per-group loop each visited key holds the cleaned matrix
        of its own rows. */
    lemma {:induction false} AfterGroupsValues(st: Store<string>, rows: seq<JoinedRow>, keys: seq<string>)
      requires alpha >= 0.0 && InScale(buckets, rows) && forall g :: InScale(buckets, GroupRows(rows, g))
      ensures forall g :: g in keys ==>
        g in AfterGroups(st, rows, keys).dict &&
        AfterGroups(st, rows, keys).dict[g] == CleanedOf(GroupRows(rows, g)).matrix
      decreases |keys|
    {
      if |keys| > 0 {
        var front, last := keys[..|keys| - 1], keys[|keys| - 1];
        AfterGroupsValues(st, rows, front);
        assert AfterGroups(st, rows, keys).dict
            == AfterGroups(st, rows, front).dict[last := CleanedOf(GroupRows(rows, last)).matrix];
        assert forall g :: g in keys <==> g in front || g == last;
      }
    }

    /** The per-group loop leaves every key it does not visit as it was. */
    lemma {:induction false} AfterGroupsKeeps(st: Store<string>, rows: seq<JoinedRow>, keys: seq<string>)
      requires alpha >= 0.0 && InScale(buckets, rows)
      ensures forall g :: g in st.dict && g !in keys ==>
        g in AfterGroups(st, rows, keys).dict && AfterGroups(st, rows, keys).dict[g] == st.dict[g]
      decreases |keys|
    {
      if |keys| > 0 {
        var front, last := keys[..|keys| - 1], keys[|keys| - 1];
        AfterGroupsKeeps(st, rows, front);
        assert forall g :: g !in keys ==> g !in front && g != last;
      }
    }

    /** The per-stage loop stores a matrix under exactly the keys it visits,
        besides those already present. */
    lemma {:induction false} AfterStagesDomain(st: Store<int>, rows: seq<JoinedRow>, keys: seq<int>)
      requires alpha >= 0.0 && InScale(buckets, rows)
      ensures forall s :: s in AfterStages(st, rows, keys).dict <==> s in st.dict || s in keys
      decreases |keys|
    {
      if |keys| > 0 {
        var front, last := keys[..|keys| - 1], keys[|keys| - 1];
        AfterStagesDomain(st, rows, front);
        assert forall s :: s in keys <==> s in front || s == last;
      }
    }

    /** After the per-stage loop each visited key holds the cleaned matrix
        of its own rows. */
    lemma {:induction false} AfterStagesValues(st: Store<int>, rows: seq<JoinedRow>, keys: seq<int>)
      requires alpha >= 0.0 && InScale(buckets, rows) && forall s :: InScale(buckets, StageRows(rows, s))
      ensures forall s :: s in keys ==>
        s in AfterStages(st, rows, keys).dict &&
        AfterStages(st, rows, keys).dict[s] == CleanedOf(StageRows(rows, s)).matrix
      decreases |keys|
    {
      if |keys| > 0 {
        var front, last := keys[..|keys| - 1], keys[|keys| - 1];
        AfterStagesValues(st, rows, front);
        assert AfterStages(st, rows, keys).dict
            == AfterStages(st, rows, front).dict[last := CleanedOf(StageRows(rows, last)).matrix];
        assert forall s :: s in keys <==> s in front || s == last;
      }
    }

    /** The per-stage loop leaves every key it does not visit as it was. */
    lemma {:induction false} AfterStagesKeeps(st: Store<int>, rows: seq<JoinedRow>, keys: seq<int>)
      requires alpha >= 0.0 && InScale(buckets, rows)
      ensures forall s :: s in st.dict && s !in keys ==>
        s in AfterStages(st, rows, keys).dict && AfterStages(st, rows, keys).dict[s] == st.dict[s]
      decreases |keys|
    {
      if |keys| > 0 {
        var front, last := keys[..|keys| - 1], keys[|keys| - 1];
        AfterStagesKeeps(st, rows, front);
        assert forall s :: s !in keys ==> s !in front && s != last;
      }
    }

    /** The global step of `fit`. */
    method FitGlobal(rows: seq<JoinedRow>)
      requires Valid() && InScale(buckets, rows)
      modifies this`matGlobal, this`cleanedBuckets
      ensures Valid()
      ensures matGlobal == Some(CleanedOf(rows).matrix) && cleanedBuckets == CleanedOf(rows).labels
    {
      var p := CountAndClean(rows);
      matGlobal := Some(p);
    }

    /** One iteration of the per-group loop of `fit`. */
    method StoreGroup(rows: seq<JoinedRow>, g: string)
      requires Valid() && InScale(buckets, GroupRows(rows, g))
      modifies this`matByGroup, this`cleanedBuckets
      ensures Valid()
      ensures Store(matByGroup, cleanedBuckets) == GroupStep(Store(old(matByGroup), old(cleanedBuckets)), rows, g)
    {
      var q := CountAndClean(GroupRows(rows, g));
      matByGroup := matByGroup[g := q];
    }

    /** One iteration of the per-stage loop of `fit`. */
    method StoreStage(rows: seq<JoinedRow>, s: int)
      requires Valid() && InScale(buckets, StageRows(rows, s))
      modifies this`matByStage, this`cleanedBuckets
      ensures Valid()
      ensures Store(matByStage, cleanedBuckets) == StageStep(Store(old(matByStage), old(cleanedBuckets)), rows, s)
    {
      var q := CountAndClean(StageRows(rows, s));
      matByStage := matByStage[s := q];
    }

    /** The per-group loop of `fit`. */
    method FitGroups(rows: seq<JoinedRow>, keys: seq<string>)
      requires Valid() && InScale(buckets, rows)
      modifies this`matByGroup, this`cleanedBuckets
      ensures Valid()
      ensures Store(matByGroup, cleanedBuckets) == AfterGroups(Store(old(matByGroup), old(cleanedBuckets)), rows, keys)
    {
      ModalitiesInScale(buckets, rows);
      for i := 0 to |keys|
        invariant Valid()
        invariant Store(matByGroup, cleanedBuckets) == AfterGroups(Store(old(matByGroup), old(cleanedBuckets)), rows, keys[..i])
      {
        StoreGroup(rows, keys[i]);
        assert keys[..i + 1][..i] == keys[..i];
      }
      assert keys[..|keys|] == keys;
    }

    /** The per-stage loop of `fit`. */
    method FitStages(rows: seq<JoinedRow>, keys: seq<int>)
      requires Valid() && InScale(buckets, rows)
      modifies this`matByStage, this`cleanedBuckets
      ensures Valid()
      ensures Store(matByStage, cleanedBuckets) == AfterStages(Store(old(matByStage), old(cleanedBuckets)), rows, keys)
    {
      ModalitiesInScale(buckets, rows);
      for j := 0 to |keys|
        invariant Valid()
        invariant Store(matByStage, cleanedBuckets) == AfterStages(Store(old(matByStage), old(cleanedBuckets)), rows, keys[..j])
      {
        StoreStage(rows, keys[j]);
        assert keys[..j + 1][..j] == keys[..j];
      }
      assert keys[..|keys|] == keys;
    }

    /** `fit`: joins the panel with itself one month apart, then fits the
        global matrix, the per-group matrices when a group column is given,
        and the per-stage matrices (stages in ascending order, as `groupby`
        yields them). Earlier dictionary entries whose keys are not refitted
        are kept. `cleaned_buckets` ends as the labels of the last matrix
        cleaned: the highest stage, or the global matrix when nothing was
        joined. */
    method Fit(panel: seq<Observation>, useGroups: bool)
      requires Valid() && InScale(buckets, Join(panel))
      modifies this
      ensures Valid()
      ensures var rows := Join(panel);
        matGlobal == Some(CleanedOf(rows).matrix) &&
        GetMatrix(None, None) == Success(CleanedOf(rows).matrix)
      ensures var rows := Join(panel);
        var afterGroups := AfterGroups(Store(old(matByGroup), CleanedOf(rows).labels), rows,
                                       if useGroups then GroupKeys(rows) else []);
        var afterStages := AfterStages(Store(old(matByStage), afterGroups.labels), rows, StageKeys(rows));
        matByGroup == afterGroups.dict && matByStage == afterStages.dict &&
        cleanedBuckets == afterStages.labels
    {
      FitJoined(Join(panel), useGroups);
    }

    /** The body of `fit` once the join is built: the global matrix, then
        the groups, then the stages. */
    method FitJoined(rows: seq<JoinedRow>, useGroups: bool)
      requires Valid() && InScale(buckets, rows)
      modifies this
      ensures Valid()
      ensures matGlobal == Some(CleanedOf(rows).matrix) &&
        GetMatrix(None, None) == Success(CleanedOf(rows).matrix)
      ensures var afterGroups := AfterGroups(Store(old(matByGroup), CleanedOf(rows).labels), rows,
                                             if useGroups then GroupKeys(rows) else []);
        var afterStages := AfterStages(Store(old(matByStage), afterGroups.labels), rows, StageKeys(rows));
        matByGroup == afterGroups.dict && matByStage == afterStages.dict &&
        cleanedBuckets == afterStages.labels
    {
      FitGlobal(rows);
      FitGroups(rows, if useGroups then GroupKeys(rows) else []);
      FitStages(rows, StageKeys(rows));
    }

    /** After `fit` every group key (when groups are used) and every stage
        key holds the cleaned matrix of its own rows, and entries of an
        earlier fit whose keys were not refitted survive. (The rows of every
        group and stage are in scale whenever the join is; see
        `ModalitiesInScale`.) */
    lemma FitContents(panel: seq<Observation>, useGroups: bool, byGroup: map<string, Prob>, byStage: map<int, Prob>)
      requires alpha >= 0.0 && InScale(buckets, Join(panel))
      requires forall g :: InScale(buckets, GroupRows(Join(panel), g))
      requires forall s :: InScale(buckets, StageRows(Join(panel), s))
      ensures var rows := Join(panel);
        var groupKeys := if useGroups then GroupKeys(rows) else [];
        var afterGroups := AfterGroups(Store(byGroup, CleanedOf(rows).labels), rows, groupKeys);
        (forall g :: g in groupKeys ==>
          g in afterGroups.dict && afterGroups.dict[g] == CleanedOf(GroupRows(rows, g)).matrix) &&
        (forall g :: g in byGroup && g !in groupKeys ==>
          g in afterGroups.dict && afterGroups.dict[g] == byGroup[g])
      ensures var rows := Join(panel);
        var afterGroups := AfterGroups(Store(byGroup, CleanedOf(rows).labels), rows,
                                       if useGroups then GroupKeys(rows) else []);
        var stageKeys := StageKeys(rows);
        var afterStages := AfterStages(Store(byStage, afterGroups.labels), rows, stageKeys);
        (forall s :: s in stageKeys ==>
          s in afterStages.dict && afterStages.dict[s] == CleanedOf(StageRows(rows, s)).matrix) &&
        (forall s :: s in byStage && s !in stageKeys ==>
          s in afterStages.dict && afterStages.dict[s] == byStage[s])
    {
      var rows := Join(panel);
      ModalitiesInScale(buckets, rows);
      var groupKeys := if useGroups then GroupKeys(rows) else [];
      AfterGroupsValues(Store(byGroup, CleanedOf(rows).labels), rows, groupKeys);
      AfterGroupsKeeps(Store(byGroup, CleanedOf(rows).labels), rows, groupKeys);
      var afterGroups := AfterGroups(Store(byGroup, CleanedOf(rows).labels), rows, groupKeys);
      AfterStagesValues(Store(byStage, afterGroups.labels), rows, StageKeys(rows));
      AfterStagesKeeps(Store(byStage, afterGroups.labels), rows, StageKeys(rows));
    }

    /** `cleaned_buckets` after `fit` holds the labels of the last matrix
        cleaned: the highest stage when anything was joined, and the global
        matrix otherwise (the per-group loop then has no key either). */
    lemma FitLabels(panel: seq<Observation>, useGroups: bool, byGroup: map<string, Prob>, byStage: map<int, Prob>)
      requires alpha >= 0.0 && InScale(buckets, Join(panel))
      ensures var rows := Join(panel);
        var afterGroups := AfterGroups(Store(byGroup, CleanedOf(rows).labels), rows,
                                       if useGroups then GroupKeys(rows) else []);
        var afterStages := AfterStages(Store(byStage, afterGroups.labels), rows, StageKeys(rows));
        var keys := StageKeys(rows);
        afterStages.labels == if |keys| == 0 then CleanedOf(rows).labels
                              else CleanedOf(StageRows(rows, keys[|keys| - 1])).labels
    {
      var rows := Join(panel);
      ModalitiesInScale(buckets, rows);
      if useGroups && |GroupKeys(rows)| > 0 {
        GroupsNeedStages(rows);
      }
    }

    /** `get_matrix`: the global matrix when neither key is given, else the
        matrix of the group when one is given (the stage is then ignored),
        else the matrix of the stage. */
    function GetMatrix(gh: Option<string>, stage: Option<int>): (r: Result<Prob>)
      reads this
      ensures r.Success? <==>
        (if gh.Some? then gh.value in matByGroup
         else if stage.Some? then stage.value in matByStage
         else matGlobal.Some?)
      ensures r.Success? ==>
        r.value == (if gh.Some? then matByGroup[gh.value]
                    else if stage.Some? then matByStage[stage.value]
                    else matGlobal.value)
      ensures Valid() && r.Success? ==> RowStochasticOrZero(r.value)
      ensures r.Failure? ==>
        (gh.None? && stage.None? && r.error == NotFitted && matGlobal.None?) ||
        (gh.Some? && r.error == UnknownGroup(gh.value) && gh.value !in matByGroup) ||
        (gh.None? && stage.Some? && r.error == UnknownStage(stage.value) && stage.value !in matByStage)
    {
      match gh
      case Some(g) =>
        if g in matByGroup then Success(matByGroup[g]) else Failure(UnknownGroup(g))
      case None =>
        match stage
        case Some(s) =>
          if s in matByStage then Success(matByStage[s]) else Failure(UnknownStage(s))
        case None =>
          if matGlobal.Some? then Success(matGlobal.value) else Failure(NotFitted)
    }

    /** The group key wins: giving a stage as well changes nothing. */
    lemma GroupWinsOverStage(g: string, s: int)
      ensures GetMatrix(Some(g), Some(s)) == GetMatrix(Some(g), None)
    {
    }
  }
}
