/**
 * Pairing consecutive observations: the inner join of the panel with a copy
 * of itself shifted forward by one period, on (entity, period). Periods are
 * integer month indices, so "plus one month" is "plus one".
 */
module Pairing {
  import opened Sequences

  /** One panel row: entity, period, raw bucket value (e.g. days past due)
      and group label. */
  datatype Observation = Observation(id: int, period: int, bucket: int, group: string)

  /** One row of the join. The `_t` columns come from the left (unshifted)
      row, observed at period p; the `_t1` columns come from the shifted row,
      which was observed at period p - 1. So `bucketNow` is the LATER
      observation and `bucketPrev` the earlier one. */
  datatype JoinedRow = JoinedRow(bucketNow: int, bucketPrev: int, groupNow: string)

  /** The left row a meets the shifted copy of b on (entity, period). */
  predicate Matches(a: Observation, b: Observation)
  {
    a.id == b.id && a.period == b.period + 1
  }

  function Joined(a: Observation, b: Observation): JoinedRow
  {
    JoinedRow(a.bucket, b.bucket, a.group)
  }

  /** The join rows produced by one left row against every shifted row. */
  function JoinOne(a: Observation, rights: seq<Observation>): seq<JoinedRow>
  {
    if |rights| == 0 then []
    else (if Matches(a, rights[0]) then [Joined(a, rights[0])] else []) + JoinOne(a, rights[1..])
  }

  function JoinAll(lefts: seq<Observation>, rights: seq<Observation>): seq<JoinedRow>
  {
    if |lefts| == 0 then [] else JoinOne(lefts[0], rights) + JoinAll(lefts[1..], rights)
  }

  /** `panel.merge(shifted, on=[id, time], suffixes=("_t", "_t1"), how="inner")`. */
  function Join(panel: seq<Observation>): (r: seq<JoinedRow>)
    ensures |r| <= |panel| * |panel|
  {
    JoinAllLength(panel, panel);
    JoinAll(panel, panel)
  }

  /** An inner merge yields at most one row per (left, right) pair. */
  lemma {:induction false} JoinAllLength(lefts: seq<Observation>, rights: seq<Observation>)
    ensures |JoinAll(lefts, rights)| <= |lefts| * |rights|
  {
    if |lefts| > 0 {
      JoinOneLength(lefts[0], rights);
      JoinAllLength(lefts[1..], rights);
      assert |lefts| * |rights| == |rights| + |lefts[1..]| * |rights|;
    }
  }

  lemma {:induction false} JoinOneLength(a: Observation, rights: seq<Observation>)
    ensures |JoinOne(a, rights)| <= |rights|
  {
    if |rights| > 0 {
      JoinOneLength(a, rights[1..]);
    }
  }

  lemma {:induction false} JoinOneMembership(a: Observation, rights: seq<Observation>, r: JoinedRow)
    ensures r in JoinOne(a, rights) <==> exists b :: b in rights && Matches(a, b) && r == Joined(a, b)
  {
    if |rights| > 0 {
      JoinOneMembership(a, rights[1..], r);
      assert rights == [rights[0]] + rights[1..];
    }
  }

  lemma {:induction false} JoinAllMembership(lefts: seq<Observation>, rights: seq<Observation>, r: JoinedRow)
    ensures r in JoinAll(lefts, rights) <==>
      exists a, b :: a in lefts && b in rights && Matches(a, b) && r == Joined(a, b)
  {
    if |lefts| > 0 {
      JoinOneMembership(lefts[0], rights, r);
      JoinAllMembership(lefts[1..], rights, r);
      assert lefts == [lefts[0]] + lefts[1..];
      if r in JoinAll(lefts, rights) {
        if r in JoinOne(lefts[0], rights) {
          var b :| b in rights && Matches(lefts[0], b) && r == Joined(lefts[0], b);
          assert lefts[0] in lefts;
        }
      } else {
        forall a, b | a in lefts && b in rights && Matches(a, b) ensures r != Joined(a, b) {
          if a == lefts[0] {
          } else {
            assert a in lefts[1..];
          }
        }
      }
    }
  }

  /** A join row exists exactly for each pair of observations of one entity
      in consecutive periods; a gap in an entity's history yields no row. */
  lemma JoinMembership(panel: seq<Observation>, r: JoinedRow)
    ensures r in Join(panel) <==>
      exists a, b :: a in panel && b in panel && Matches(a, b) && r == Joined(a, b)
  {
    JoinAllMembership(panel, panel, r);
  }

  /** An entity seen in periods p and p + 1 produces one row whose `_t`
      bucket is the one seen at p + 1: the row index of the counted
      transition is the later observation and the column the earlier one. */
  lemma JoinOrientation(e: int, p: int, early: int, late: int, g: string, h: string)
    ensures Join([Observation(e, p, early, g), Observation(e, p + 1, late, h)])
         == [JoinedRow(late, early, h)]
  {
    var o1, o2 := Observation(e, p, early, g), Observation(e, p + 1, late, h);
    assert [o1, o2][1..] == [o2];
    assert [o2][1..] == [];
    assert JoinOne(o1, [o2]) == [];
    assert JoinOne(o1, [o1, o2]) == [];
    assert JoinOne(o2, [o2]) == [];
    assert JoinOne(o2, [o1, o2]) == [JoinedRow(late, early, h)];
    assert JoinAll([o2], [o1, o2]) == [JoinedRow(late, early, h)] + JoinAll([], [o1, o2]);
  }

  /** The positions (a, b), b >= m, at which the left row a meets a
      shifted row and the two join into r. */
  ghost function RowPairs(panel: seq<Observation>, r: JoinedRow, a: nat, m: nat): set<(int, int)>
    requires a < |panel|
  {
    set b | m <= b < |panel| && Matches(panel[a], panel[b]) && Joined(panel[a], panel[b]) == r :: (a, b)
  }

  /** The positions (a, b), a >= k, of a left row and a shifted row that
      meet and join into r. */
  ghost function PairsFrom(panel: seq<Observation>, r: JoinedRow, k: nat): set<(int, int)>
  {
    set a, b | k <= a < |panel| && 0 <= b < |panel| &&
      Matches(panel[a], panel[b]) && Joined(panel[a], panel[b]) == r :: (a, b)
  }

  /** Splitting off the shifted row at position m. */
  lemma RowPairsSplit(panel: seq<Observation>, r: JoinedRow, a: nat, m: nat)
    requires a < |panel| && m < |panel|
    ensures var hit := Matches(panel[a], panel[m]) && Joined(panel[a], panel[m]) == r;
      RowPairs(panel, r, a, m) == (if hit then {(a, m)} else {}) + RowPairs(panel, r, a, m + 1) &&
      (a, m) !in RowPairs(panel, r, a, m + 1)
  {
    var hit := Matches(panel[a], panel[m]) && Joined(panel[a], panel[m]) == r;
    var rhs := (if hit then {(a, m)} else {}) + RowPairs(panel, r, a, m + 1);
    forall p | p in RowPairs(panel, r, a, m) ensures p in rhs {
      var b :| m <= b < |panel| && Matches(panel[a], panel[b]) && Joined(panel[a], panel[b]) == r && p == (a, b);
      if b > m {
        assert p in RowPairs(panel, r, a, m + 1);
      }
    }
  }

  /** Splitting off the left row at position k. */
  lemma PairsFromSplit(panel: seq<Observation>, r: JoinedRow, k: nat)
    requires k < |panel|
    ensures PairsFrom(panel, r, k) == RowPairs(panel, r, k, 0) + PairsFrom(panel, r, k + 1)
    ensures RowPairs(panel, r, k, 0) * PairsFrom(panel, r, k + 1) == {}
  {
    var rhs := RowPairs(panel, r, k, 0) + PairsFrom(panel, r, k + 1);
    forall p | p in PairsFrom(panel, r, k) ensures p in rhs {
      var a, b :| k <= a < |panel| && 0 <= b < |panel| && Matches(panel[a], panel[b]) &&
        Joined(panel[a], panel[b]) == r && p == (a, b);
      if a == k {
        assert p in RowPairs(panel, r, k, 0);
      } else {
        assert p in PairsFrom(panel, r, k + 1);
      }
    }
    forall p | p in rhs ensures p in PairsFrom(panel, r, k) {
      if p in RowPairs(panel, r, k, 0) {
        var b :| 0 <= b < |panel| && Matches(panel[k], panel[b]) && Joined(panel[k], panel[b]) == r && p == (k, b);
      }
    }
    forall p | p in RowPairs(panel, r, k, 0) ensures p !in PairsFrom(panel, r, k + 1) {
    }
  }

  /** The left row at position a yields r once per shifted row from
      position m on that it meets and joins into r. */
  lemma {:induction false} JoinOneCount(panel: seq<Observation>, r: JoinedRow, a: nat, m: nat)
    requires a < |panel| && m <= |panel|
    ensures multiset(JoinOne(panel[a], panel[m..]))[r] == |RowPairs(panel, r, a, m)|
    decreases |panel| - m
  {
    if m == |panel| {
      assert RowPairs(panel, r, a, m) == {};
    } else {
      JoinOneCount(panel, r, a, m + 1);
      RowPairsSplit(panel, r, a, m);
      var rights := panel[m..];
      assert rights[0] == panel[m] && rights[1..] == panel[m + 1..];
      var front := if Matches(panel[a], panel[m]) then [Joined(panel[a], panel[m])] else [];
      assert JoinOne(panel[a], rights) == front + JoinOne(panel[a], panel[m + 1..]);
    }
  }

  lemma {:induction false} JoinAllCount(panel: seq<Observation>, r: JoinedRow, k: nat)
    requires k <= |panel|
    ensures multiset(JoinAll(panel[k..], panel))[r] == |PairsFrom(panel, r, k)|
    decreases |panel| - k
  {
    if k == |panel| {
      assert PairsFrom(panel, r, k) == {};
    } else {
      JoinAllCount(panel, r, k + 1);
      JoinOneCount(panel, r, k, 0);
      PairsFromSplit(panel, r, k);
      var lefts := panel[k..];
      assert lefts[0] == panel[k] && lefts[1..] == panel[k + 1..] && panel[0..] == panel;
      assert JoinAll(lefts, panel) == JoinOne(panel[k], panel[0..]) + JoinAll(panel[k + 1..], panel);
    }
  }

  /** The join holds a row once for every ordered pair of panel positions
      whose observations are one entity in consecutive months and join into
      that row: two entities making the same move give two equal rows. */
  lemma JoinCount(panel: seq<Observation>, r: JoinedRow)
    ensures multiset(Join(panel))[r] ==
      |set a, b | 0 <= a < |panel| && 0 <= b < |panel| &&
        Matches(panel[a], panel[b]) && Joined(panel[a], panel[b]) == r :: (a, b)|
  {
    JoinAllCount(panel, r, 0);
    assert panel[0..] == panel;
  }

  /** Every bucket value in the join comes from the panel, so a lower bound
      on the panel's values bounds the join's. */
  lemma JoinBounded(panel: seq<Observation>, lo: int)
    requires forall k :: 0 <= k < |panel| ==> lo <= panel[k].bucket
    ensures forall k :: 0 <= k < |Join(panel)| ==>
      lo <= Join(panel)[k].bucketNow && lo <= Join(panel)[k].bucketPrev
  {
    forall k | 0 <= k < |Join(panel)|
      ensures lo <= Join(panel)[k].bucketNow && lo <= Join(panel)[k].bucketPrev
    {
      JoinMembership(panel, Join(panel)[k]);
    }
  }

  // ---------------------------------------------------------------------
  // Columns and groups of the joined table

  /** The `bucket_t` column. */
  function NowColumn(rows: seq<JoinedRow>): (col: seq<int>)
    ensures |col| == |rows|
    ensures forall k :: 0 <= k < |rows| ==> col[k] == rows[k].bucketNow
  {
    seq(|rows|, k requires 0 <= k < |rows| => rows[k].bucketNow)
  }

  /** The `bucket_t1` column. */
  function PrevColumn(rows: seq<JoinedRow>): (col: seq<int>)
    ensures |col| == |rows|
    ensures forall k :: 0 <= k < |rows| ==> col[k] == rows[k].bucketPrev
  {
    seq(|rows|, k requires 0 <= k < |rows| => rows[k].bucketPrev)
  }

  /** The rows of one group of a `groupby`, in their original order. */
  function Filter(rows: seq<JoinedRow>, keep: JoinedRow -> bool): (r: seq<JoinedRow>)
    ensures forall k :: 0 <= k < |r| ==> r[k] in rows && keep(r[k])
    ensures forall x :: x in rows && keep(x) ==> x in r
    ensures forall x :: multiset(r)[x] == if keep(x) then multiset(rows)[x] else 0
  {
    if |rows| == 0 then []
    else
      var head := if keep(rows[0]) then [rows[0]] else [];
      var rest := Filter(rows[1..], keep);
      FilterStep(rows, keep, head, rest);
      head + rest
  }

  /** One step of Filter's multiplicity clause: the head is kept once or dropped. */
  lemma FilterStep(rows: seq<JoinedRow>, keep: JoinedRow -> bool, head: seq<JoinedRow>, rest: seq<JoinedRow>)
    requires |rows| > 0
    requires head == if keep(rows[0]) then [rows[0]] else []
    requires forall k :: 0 <= k < |rest| ==> rest[k] in rows[1..] && keep(rest[k])
    requires forall x :: x in rows[1..] && keep(x) ==> x in rest
    requires forall x :: multiset(rest)[x] == if keep(x) then multiset(rows[1..])[x] else 0
    ensures forall k :: 0 <= k < |head + rest| ==> (head + rest)[k] in rows && keep((head + rest)[k])
    ensures forall x :: x in rows && keep(x) ==> x in head + rest
    ensures forall x :: multiset(head + rest)[x] == if keep(x) then multiset(rows)[x] else 0
  {
    assert rows == [rows[0]] + rows[1..];
    assert multiset(rows) == multiset{rows[0]} + multiset(rows[1..]);
    assert multiset(head + rest) == multiset(head) + multiset(rest);
    forall k | 0 <= k < |head + rest|
      ensures (head + rest)[k] in rows && keep((head + rest)[k])
    {
      if k >= |head| {
        assert (head + rest)[k] == rest[k - |head|];
      }
    }
  }

  /** The distinct values of s, in order of first appearance. */
  function Distinct<T(==, !new)>(s: seq<T>): (r: seq<T>)
    ensures forall x :: x in r <==> x in s
    ensures forall a, b :: 0 <= a < b < |r| ==> r[a] != r[b]
  {
    if |s| == 0 then []
    else
      var front := Distinct(s[..|s| - 1]);
      assert forall x :: x in s <==> x in s[..|s| - 1] || x == s[|s| - 1];
      if s[|s| - 1] in front then front else front + [s[|s| - 1]]
  }

  /** The keys of `groupby(group_t)`. */
  function GroupKeys(rows: seq<JoinedRow>): (keys: seq<string>)
    ensures forall g :: g in keys <==> exists k :: 0 <= k < |rows| && rows[k].groupNow == g
    ensures forall a, b :: 0 <= a < b < |keys| ==> keys[a] != keys[b]
  {
    var col := seq(|rows|, k requires 0 <= k < |rows| => rows[k].groupNow);
    forall g ensures g in col <==> exists k :: 0 <= k < |rows| && rows[k].groupNow == g {
      if exists k :: 0 <= k < |rows| && rows[k].groupNow == g {
        var k :| 0 <= k < |rows| && rows[k].groupNow == g;
        assert col[k] == g;
      }
    }
    Distinct(col)
  }

  /** The keys of `groupby(bucket_t)`, in ascending order as pandas yields
      them: the raw bucket values of the later observations. */
  function StageKeys(rows: seq<JoinedRow>): (keys: seq<int>)
    ensures forall s :: s in keys <==> s in NowColumn(rows)
    ensures forall a, b :: 0 <= a < b < |keys| ==> keys[a] < keys[b]
  {
    var d := Distinct(NowColumn(rows));
    var keys := SortAscending(d);
    assert forall s :: s in keys <==> s in multiset(keys);
    assert forall s :: s in d <==> s in multiset(d);
    DistinctSortedIsIncreasing(d, keys);
    keys
  }

  lemma DistinctSortedIsIncreasing(d: seq<int>, keys: seq<int>)
    requires forall a, b :: 0 <= a < b < |d| ==> d[a] != d[b]
    requires IsSorted(keys) && multiset(keys) == multiset(d)
    ensures forall a, b :: 0 <= a < b < |keys| ==> keys[a] < keys[b]
  {
    forall a, b | 0 <= a < b < |keys| ensures keys[a] < keys[b] {
      if keys[a] == keys[b] {
        RepeatCountsTwo(keys, a, b);
        DistinctCountsOne(d, keys[a]);
        assert false;
      }
    }
  }

  lemma RepeatCountsTwo(s: seq<int>, a: nat, b: nat)
    requires a < b < |s| && s[a] == s[b]
    ensures multiset(s)[s[a]] >= 2
  {
    var x := s[a];
    assert s == s[..a] + [x] + s[a + 1..b] + [x] + s[b + 1..];
  }

  lemma {:induction false} DistinctCountsOne(d: seq<int>, x: int)
    requires forall a, b :: 0 <= a < b < |d| ==> d[a] != d[b]
    ensures multiset(d)[x] <= 1
  {
    if |d| > 0 {
      var tail := d[1..];
      assert d == [d[0]] + tail;
      DistinctCountsOne(tail, x);
      if d[0] == x {
        assert x !in tail;
      }
    }
  }
}
