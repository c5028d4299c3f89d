/** Why the stop rule needs its condition (internal/index/kd.go): for every reference row that
    is not safe for the gap there are references and a query on which the stopped search
    returns other indices than the brute-force loop. */
module Misses {
  import opened Numbers
  import opened Distance
  import opened Nearest
  import opened BestFive
  import opened Partition
  import opened Sequences
  import opened Brute
  import opened Kd

  const UNIT: int := 100_000_000

  /** The legs of a displacement with squared length k * UNIT - 1. */
  function Legs(k: nat): (l: (nat, nat, nat, nat))
    requires 1 <= k <= 5
    ensures Sq(l.0) + Sq(l.1) + Sq(l.2) + Sq(l.3) == k * UNIT - 1
    ensures l.0 < 0x8000 && l.1 < 0x8000 && l.2 < 0x8000 && l.3 < 0x8000
  {
    if k == 1 then (9999, 141, 9, 6)
    else if k == 2 then (14142, 57, 19, 15)
    else if k == 3 then (17319, 227, 22, 15)
    else if k == 4 then (19999, 199, 19, 6)
    else (22359, 270, 47, 3)
  }

  /** x moved by a towards and past zero, so that it stays an int16. */
  function Moved(x: int, a: nat): (y: int)
    requires -0x8000 <= x < 0x8000 && a < 0x8000
    ensures -0x8000 <= y < 0x8000 && Sq(x - y) == Sq(a)
  {
    SquareFlip(0, a);
    assert Sq(x - (x - a)) == Sq(a) && Sq(x - (x + a)) == Sq(0 - a) && Sq(a - 0) == Sq(a);
    if x >= 0 then x - a else x + a
  }

  /** A row of the query's partition at squared distance k * UNIT - 1. */
  function FarRow(q: Row, k: nat): (f: Row)
    requires 1 <= k <= 5
    ensures SqDist(q, f) == k * UNIT - 1 && PartKey16(f) == PartKey16(q)
    ensures InDomain(q) ==> InDomain(f)
  {
    var l := Legs(k);
    var f: Row := q[0 := Moved(q[0], l.0)][1 := Moved(q[1], l.1)][2 := Moved(q[2], l.2)][3 := Moved(q[3], l.3)];
    FirstLanes(q, f);
    f
  }

  lemma FirstLanes(q: Row, f: Row)
    requires forall d :: 4 <= d < STRIDE ==> q[d] == f[d]
    ensures SqDist(q, f) == Sq(q[0] - f[0]) + Sq(q[1] - f[1]) + Sq(q[2] - f[2]) + Sq(q[3] - f[3])
  {
    hide Sq;
    SqSumSkip(q, f, 4, STRIDE);
    assert SqSum(q, f, 0) == 0;
    assert SqSum(q, f, 1) == SqSum(q, f, 0) + Sq(q[0] - f[0]);
    assert SqSum(q, f, 2) == SqSum(q, f, 1) + Sq(q[1] - f[1]);
    assert SqSum(q, f, 3) == SqSum(q, f, 2) + Sq(q[2] - f[2]);
    assert SqSum(q, f, 4) == SqSum(q, f, 3) + Sq(q[3] - f[3]);
  }

  function GapUnits(a: nat, b: nat): (k: nat)
    ensures k <= 5 && GapBits(a, b) == k * UNIT
  {
    GapBits(a, b) / UNIT
  }

  /** One row and five copies of another. */
  function Six(r: Row, f: Row): (rows: seq<Row>)
    ensures |rows| == 6 && rows[0] == r && forall i :: 1 <= i < 6 ==> rows[i] == f
  {
    [r, f, f, f, f, f]
  }

  function FarCands(d: int, m: nat): (s: seq<Cand>)
    ensures |s| == m && forall i :: 0 <= i < m ==> s[i] == Cand(d, i + 1)
  {
    seq(m, i => Cand(d, i + 1))
  }

  /** Without the partition of r only the copies are candidates. */
  lemma {:induction false} OnlyCopies(q: Row, r: Row, f: Row, n: nat, ks: set<nat>)
    requires 1 <= n <= 6 && PartKey16(r) !in ks && PartKey16(f) in ks
    ensures CandsIn(q, Six(r, f), n, ks) == multiset(FarCands(SqDist(q, f), n - 1))
  {
    hide SqDist, PartKey16;
    if n == 1 {
      assert CandsIn(q, Six(r, f), 0, ks) == multiset{};
    } else {
      OnlyCopies(q, r, f, n - 1, ks);
      var d := SqDist(q, f);
      assert FarCands(d, n - 1) == FarCands(d, n - 2) + [Cand(d, n - 1)];
    }
  }

  /** Five real candidates beat the empty slots. */
  lemma CopiesAreBest(d: int)
    requires d < FAR
    ensures IsGreatest(FarCands(d, 5), 4)
    ensures IsBest(multiset(FarCands(d, 5)), multiset(Empty(FAR, NEIGHBORS)) + multiset(FarCands(d, 5)))
  {
    var f, e := FarCands(d, 5), Empty(FAR, NEIGHBORS);
    assert |multiset(f)| == 5;
    assert multiset(e) + multiset(f) - multiset(f) == multiset(e);
    forall x, y | x in multiset(f) && y in multiset(e)
      ensures Leq(x, y)
    {
      assert x in f && y in e;
    }
  }

  /** Until it does, its slots hold the copies, so it must stop at the partition of r. */
  lemma StopsThere(kd: KD, q: Row, r: Row, f: Row, j: nat)
    requires kd.Valid() && kd.rows == Six(r, f) && PartKey16(f) == PartKey16(q)
    requires GapBits(PartKey16(q), PartKey16(r)) > SqDist(q, f)
    requires j < |kd.probeOrder[PartKey16(q)]| && kd.probeOrder[PartKey16(q)][j] == PartKey16(r)
    ensures !kd.PassedTo(q, j + 1)
  {
    hide SqDist, CandsIn, IsBest, IsGreatest, Empty, Probed, GapBits, PartKey16;
    var home, order := PartKey16(q), kd.probeOrder[PartKey16(q)];
    ProbedEarlier(home, order, j);
    DistanceBound(q, f);
    OnlyCopies(q, r, f, 6, Probed(home, order, j));
    CopiesAreBest(SqDist(q, f));
    var copies := FarCands(SqDist(q, f), 5);
    assert kd.BestAt(q, j, copies, 4) && kd.GapTo(q, j) > copies[4].d;
  }

  lemma PassedDown(kd: KD, q: Row, j: nat, i: nat)
    requires kd.Valid() && j <= i <= |kd.probeOrder[PartKey16(q)]| && kd.PassedTo(q, i)
    ensures kd.PassedTo(q, j)
  {
    hide KD.BestAt, PartKey16;
  }

  /** The stopped search never gets to the partition of r. */
  lemma NeverReached(kd: KD, q: Row, r: Row, f: Row, i: nat)
    requires kd.Valid() && kd.rows == Six(r, f) && PartKey16(f) == PartKey16(q)
    requires GapBits(PartKey16(q), PartKey16(r)) > SqDist(q, f)
    requires i <= |kd.probeOrder[PartKey16(q)]| && kd.PassedTo(q, i)
    ensures PartKey16(r) !in Probed(PartKey16(q), kd.probeOrder[PartKey16(q)], i)
  {
    hide SqDist, KD.PassedTo, GapBits, PartKey16;
    var home, order := PartKey16(q), kd.probeOrder[PartKey16(q)];
    GapOfSelf(home);
    DistanceBound(q, f);
    forall j: nat | j < i
      ensures order[j] != PartKey16(r)
    {
      PassedDown(kd, q, j + 1, i);
      if order[j] == PartKey16(r) {
        StopsThere(kd, q, r, f, j);
      }
    }
  }

  lemma GapOfSelf(k: nat)
    ensures GapBits(k, k) == 0
  {
  }

  lemma ProbedEarlier(home: nat, order: seq<nat>, j: nat)
    requires IsProbeOrder(home, order) && j < |order|
    ensures home in Probed(home, order, j) && order[j] !in Probed(home, order, j)
  {
    assert order[j] in order;
  }

  lemma Passes(kd: KD, q: Row, i: nat)
    requires kd.Valid() && i <= |kd.probeOrder[PartKey16(q)]| && kd.EndsAt(q, true, i)
    ensures kd.PassedTo(q, i)
  {
    hide KD.PassedTo, KD.MustStop;
  }

  /** So it ends with the copies alone. */
  lemma CopiesRemain(kd: KD, q: Row, r: Row, f: Row, ids: seq<int>)
    requires kd.Valid() && kd.rows == Six(r, f) && PartKey16(f) == PartKey16(q)
    requires GapBits(PartKey16(q), PartKey16(r)) > SqDist(q, f)
    requires kd.Swept(q, true, ids)
    ensures multiset(ids) == multiset([1, 2, 3, 4, 5])
  {
    hide SqDist, CandsIn, IsBest, IsGreatest, Empty, KD.EndsAt, PartKey16, GapBits;
    var i: nat, slots: seq<Cand>, w: nat :|
      i <= |kd.probeOrder[PartKey16(q)]| && kd.EndsAt(q, true, i) && kd.BestAt(q, i, slots, w)
      && multiset(Ids(slots)) == multiset(ids);
    Passes(kd, q, i);
    NeverReached(kd, q, r, f, i);
    var ks := Probed(PartKey16(q), kd.probeOrder[PartKey16(q)], i);
    OnlyCopies(q, r, f, 6, ks);
    DistanceBound(q, f);
    var copies := FarCands(SqDist(q, f), 5);
    CopiesAreBest(SqDist(q, f));
    BestUnique(multiset(slots), multiset(copies), multiset(Empty(FAR, NEIGHBORS)) + multiset(copies));
    IdsOfSame(slots, copies);
    CopiesIds(SqDist(q, f));
  }

  lemma CopiesIds(d: int)
    ensures Ids(FarCands(d, 5)) == [1, 2, 3, 4, 5]
  {
  }

  /** A candidate smaller than all others is among the five nearest. */
  lemma LeastIsNearest(cands: seq<Cand>, c: Cand)
    requires c in cands && forall x :: x in cands && x != c ==> Less(c, x)
    ensures c.g in NearestIds(cands)
  {
    var sorted := SortCands(cands);
    SortCandsSorted(cands);
    SameMembers(sorted, cands);
    assert sorted[0] in cands;
    var i :| 0 <= i < |sorted| && sorted[i] == c;
    assert sorted[0] == c;
    assert NearestIds(cands)[0] == c.g;
  }

  lemma FirstIsNearest(q: Row, r: Row, f: Row)
    requires SqDist(q, r) <= SqDist(q, f)
    ensures 0 in NearestIds(CandsOf(q, AllItems(Six(r, f))))
  {
    hide SqDist;
    var cands := CandsOf(q, AllItems(Six(r, f)));
    assert cands[0] == Cand(SqDist(q, r), 0) && forall i :: 1 <= i < 6 ==> cands[i] == Cand(SqDist(q, f), i);
    assert cands[0] in cands;
    hide CandsOf, AllItems;
    LeastIsNearest(cands, cands[0]);
  }

  lemma {:induction false} CountsTheFirst(ids: seq<int>, fraud: seq<bool>)
    requires 0 in ids && |fraud| > 0 && fraud[0]
    ensures FraudCount(ids, fraud).Some? ==> FraudCount(ids, fraud).value >= 1
  {
    var init, last := ids[..|ids| - 1], ids[|ids| - 1];
    if last != 0 {
      CountsTheFirst(init, fraud);
    }
  }

  lemma CopiesCountNothing()
    ensures FraudCount([1, 2, 3, 4, 5], [true, false, false, false, false, false]) == Some(0)
  {
    var fraud, ids := [true, false, false, false, false, false], [1, 2, 3, 4, 5];
    FraudCountDefined(ids, fraud);
    assert ids[..4] == [1, 2, 3, 4] && ids[..4][..3] == [1, 2, 3] && ids[..3][..2] == [1, 2] && ids[..2][..1] == [1];
    assert FraudCount([1], fraud) == Some(0);
    assert FraudCount([1, 2], fraud) == Some(0);
    assert FraudCount([1, 2, 3], fraud) == Some(0);
  }

  lemma Decided(kd: KD, refs: Refs, q: Row, r: Row, f: Row, got: seq<int>, want: seq<int>, ids: seq<int>)
    requires kd.Valid() && kd.rows == Six(r, f) && PartKey16(f) == PartKey16(q)
    requires SqDist(q, r) <= SqDist(q, f) < GapBits(PartKey16(q), PartKey16(r))
    requires Ascending(got) && kd.Swept(q, true, got) && kd.Swept(q, true, ids)
    requires refs == Refs(6, Six(r, f), LABELS) && IsNeighbors5(want, q, refs.vec)
    ensures got == [1, 2, 3, 4, 5] && 0 in want
    ensures FraudCount(ids, LABELS) == Some(0)
    ensures var cnt := FraudCount(NearestIds(CandsOf(q, AllItems(refs.vec))), LABELS);
            cnt.Some? && cnt.value >= 1
  {
    hide SqDist, GapBits, PartKey16, KD.Swept, FraudCount, NearestIds, CandsOf, AllItems;
    CopiesRemain(kd, q, r, f, got);
    CopiesRemain(kd, q, r, f, ids);
    FirstIsNearest(q, r, f);
    var nearest := NearestIds(CandsOf(q, AllItems(refs.vec)));
    SameMembers(nearest, want);
    AscendingUnique(got, [1, 2, 3, 4, 5]);
    FraudCountSame(ids, [1, 2, 3, 4, 5], LABELS);
    CopiesCountNothing();
    CountsTheFirst(nearest, LABELS);
    CountableIffFive(Plain, q, refs.vec, LABELS);
    CandsByExact(Plain, q, AllItems(refs.vec));
  }

  const LABELS: seq<bool> := [true, false, false, false, false, false]

  /** Neither kernel is to blame: all these rows are near enough. */
  lemma BothMeasure(k: Kernel, q: Row, r: Row, f: Row)
    requires SqDist(q, r) < 0x4000_0000 && SqDist(q, f) < 0x4000_0000
    ensures Agrees(k, q, Six(r, f))
  {
    NearFits(q, r);
    NearFits(q, f);
  }

  /** For every row that is not safe, and either kernel: with five rows of the domain beside it
      there is a query of the domain on which the stopped search misses it, and counts wrong. */
  method CompareUnsafe(k: Kernel, r: Row)
    returns (q: Row, refs: Refs, got: seq<int>, want: seq<int>, cnt: Option<nat>, cntBrute: Option<nat>)
    requires !GapSafe(r)
    ensures InDomain(q) && refs.Valid() && refs.n == 6 && refs.vec[0] == r && Agrees(k, q, refs.vec)
    ensures forall i :: 1 <= i < 6 ==> InDomain(refs.vec[i])
    ensures IsNeighbors5(want, q, refs.vec) && 0 in want && got == [1, 2, 3, 4, 5]
    ensures cnt == Some(0) && cntBrute.Some? && cntBrute.value >= 1
  {
    hide GapSafe, WorstQuery, SqDist, GapBits, PartKey16, IsNeighbors5, KD.Swept, KD.Found, KD.AllSafe, FraudCount;
    hide NearestIds, Agrees;
    q := WorstQuery(r);
    GapOverestimates(r);
    DistanceBound(q, r);
    var f := FarRow(q, GapUnits(PartKey16(q), PartKey16(r)));
    BothMeasure(k, q, r, f);
    refs := Refs(6, Six(r, f), LABELS);
    var kd := BuildKD(refs);
    got := kd.Neighbors5(k, q);
    want := refs.Neighbors5(q);
    ghost var ids;
    cnt, ids := kd.FraudCount5(k, q);
    cntBrute := refs.FraudCount5(q);
    Decided(kd, refs, q, r, f, got, want, ids);
  }
}
