/** Why the SIMD kernel needs its condition (internal/index/dist_simd.go): for every quantized
    query and every row that does not fit it there are references on which the SIMD build
    returns other indices than the brute-force loop, while the portable build agrees with it. */
module Misfits {
  import opened Numbers
  import opened Distance
  import opened Nearest
  import opened BestFive
  import opened Partition
  import opened Sequences
  import opened Brute
  import opened Kd
  import opened Misses

  // ---- A row between the measured and the true distance ----------------------------------

  predicate BothEdges(q: Row, r: Row, j: nat)
    requires j < 8
  {
    Magnitude(q[2 * j] - r[2 * j]) == 0x8000 && Magnitude(q[2 * j + 1] - r[2 * j + 1]) == 0x8000
  }

  /** x on the other side of a, at the distance to which the subtraction wraps. */
  function Mirrored(a: int, x: int): (y: int)
    requires -10000 <= a <= 10000 && -0x8000 <= x < 0x8000 && Magnitude(a - x) > 0x8000
    ensures -0x8000 <= y < 0x8000 && Sq(a - y) == Sq(Wrap16(a - x)) && Magnitude(a - y) < 0x8000
    ensures y != 0 && y != SENTINEL && x != 0 && x != SENTINEL
  {
    var w: int := Wrap16(a - x);
    assert Sq(-w) == Sq(w);
    a + w
  }

  /** x one nearer to a. */
  function Nudged(a: int, x: int): (y: int)
    requires -10000 <= a <= 10000 && -0x8000 <= x < 0x8000 && Magnitude(a - x) == 0x8000
    ensures -0x8000 <= y < 0x8000 && Magnitude(a - y) == 0x7FFF
    ensures y != 0 && y != SENTINEL && x != 0 && x != SENTINEL
  {
    if a < x then x - 1 else x + 1
  }

  function DecoyLane(q: Row, r: Row, i: nat): (y: int)
    requires i < STRIDE && Quantized(q)
    ensures -0x8000 <= y < 0x8000 && (y == 0 <==> r[i] == 0) && (y == SENTINEL <==> r[i] == SENTINEL)
  {
    if Magnitude(q[i] - r[i]) > 0x8000 then Mirrored(q[i], r[i])
    else if i % 2 == 0 && BothEdges(q, r, i / 2) then Nudged(q[i], r[i])
    else r[i]
  }

  /** A row of the same partition that fits the query and lies between the two distances. */
  function Decoy(q: Row, r: Row): (f: Row)
    requires Quantized(q)
    ensures forall i: nat :: i < STRIDE ==> f[i] == DecoyLane(q, r, i)
    ensures PartKey16(f) == PartKey16(r)
  {
    hide DecoyLane;
    seq(STRIDE, i requires 0 <= i < STRIDE => DecoyLane(q, r, i))
  }

  /** f stands between what the kernel measures of a pair of lanes and its true share. */
  predicate Between(q: Row, r: Row, f: Row, j: nat)
    requires j < 8
  {
    && PairFits(q, f, j)
    && PairDot(q, r, j) <= PairSq(q, f, j) <= PairSq(q, r, j)
    && (PairFits(q, r, j) || PairSq(q, f, j) < PairSq(q, r, j))
  }

  lemma DecoyPair(q: Row, r: Row, j: nat)
    requires j < 8 && Quantized(q)
    ensures Between(q, r, Decoy(q, r), j)
  {
    hide Decoy, Between;
    var f := Decoy(q, r);
    assert f[2 * j] == DecoyLane(q, r, 2 * j) && f[2 * j + 1] == DecoyLane(q, r, 2 * j + 1);
    if BothEdges(q, r, j) {
      AtEdges(q, r, f, j);
    } else {
      DecoyWraps(q, r, 2 * j);
      DecoyWraps(q, r, 2 * j + 1);
      hide DecoyLane, BothEdges;
      AwayFromEdges(q, r, f, j);
    }
  }

  /** y is the difference that the wrapping subtraction makes of x, up to its sign. */
  predicate Wraps(x: int, y: int) {
    && Sq(y) == Sq(Wrap16(x)) && Sq(y) <= Sq(x) && Sq(y) <= 0x4000_0000
    && (Magnitude(x) > 0x8000 ==> Sq(y) < Sq(x) && Sq(y) < 0x4000_0000 && Magnitude(y) < 0x8000)
    && (Magnitude(x) <= 0x8000 ==> y == x)
    && (Magnitude(y) < 0x8000 ==> Sq(y) < 0x4000_0000)
  }

  lemma DecoyWraps(q: Row, r: Row, i: nat)
    requires i < STRIDE && Quantized(q) && !BothEdges(q, r, i / 2)
    ensures Wraps(q[i] - r[i], q[i] - DecoyLane(q, r, i))
  {
    hide Wrap16;
    WrappedSquare(q[i] - r[i]);
  }

  lemma AwayFromEdges(q: Row, r: Row, f: Row, j: nat)
    requires j < 8 && !BothEdges(q, r, j)
    requires Wraps(q[2 * j] - r[2 * j], q[2 * j] - f[2 * j])
    requires Wraps(q[2 * j + 1] - r[2 * j + 1], q[2 * j + 1] - f[2 * j + 1])
    ensures Between(q, r, f, j)
  {
    DotOf(q, r, j);
    hide Sq, Wrap16, PairDot;
  }

  lemma AtEdges(q: Row, r: Row, f: Row, j: nat)
    requires j < 8 && BothEdges(q, r, j)
    requires Magnitude(q[2 * j] - f[2 * j]) == 0x7FFF && f[2 * j + 1] == r[2 * j + 1]
    ensures Between(q, r, f, j)
  {
    DotOf(q, r, j);
    EdgeSquares(q[2 * j] - r[2 * j], q[2 * j + 1] - r[2 * j + 1], q[2 * j] - f[2 * j]);
    hide Wrap16, PairDot;
    WrappedSquare(q[2 * j] - r[2 * j]);
    WrappedSquare(q[2 * j + 1] - r[2 * j + 1]);
    hide Sq;
  }

  lemma DotOf(q: Row, r: Row, j: nat)
    requires j < 8
    ensures var a, b := Sq(Wrap16(q[2 * j] - r[2 * j])), Sq(Wrap16(q[2 * j + 1] - r[2 * j + 1]));
            (a + b < 0x8000_0000 ==> PairDot(q, r, j) == a + b)
            && (a + b == 0x8000_0000 ==> PairDot(q, r, j) == -0x8000_0000)
  {
    hide Wrap16;
    var a, b := Sq(Wrap16(q[2 * j] - r[2 * j])), Sq(Wrap16(q[2 * j + 1] - r[2 * j + 1]));
    WrappedSquare(q[2 * j] - r[2 * j]);
    WrappedSquare(q[2 * j + 1] - r[2 * j + 1]);
    assert PairDot(q, r, j) == Wrap32(a + b);
  }

  lemma EdgeSquares(a: int, b: int, c: int)
    requires Magnitude(a) == Magnitude(b) == 0x8000 && Magnitude(c) == 0x7FFF
    ensures Sq(a) == Sq(b) == 0x4000_0000 && Sq(c) == 0x3FFF_0001
  {
    assert Sq(-a) == Sq(a) && Sq(-b) == Sq(b) && Sq(-c) == Sq(c);
  }

  lemma {:induction false} DecoySum(q: Row, r: Row, n: nat)
    requires n <= 8 && Quantized(q)
    ensures DotSum(q, r, n) <= SqSum(q, Decoy(q, r), 2 * n) <= SqSum(q, r, 2 * n)
    ensures (forall j: nat | j < n :: PairFits(q, r, j)) || SqSum(q, Decoy(q, r), 2 * n) < SqSum(q, r, 2 * n)
  {
    hide PairDot, PairFits, PairSq, SqSum, Decoy;
    var f := Decoy(q, r);
    if n > 0 {
      DecoySum(q, r, n - 1);
      DecoyPair(q, r, n - 1);
      PairShare(q, f, n - 1);
      PairShare(q, r, n - 1);
    } else {
      NoLanes(q, f);
      NoLanes(q, r);
    }
  }

  /** The decoy fits, and is nearer than r in truth but not by the SIMD kernel. */
  lemma DecoyBetween(q: Row, r: Row)
    requires Quantized(q) && !Fits(q, r)
    ensures Fits(q, Decoy(q, r)) && SqDistSimd(q, Decoy(q, r)) == SqDist(q, Decoy(q, r))
    ensures SqDistSimd(q, r) <= SqDist(q, Decoy(q, r)) < SqDist(q, r)
  {
    hide Decoy, PairFits, DotSum, SqSum;
    DecoySum(q, r, 8);
    forall j: nat | j < 8
      ensures PairFits(q, Decoy(q, r), j)
    {
      DecoyPair(q, r, j);
    }
    SimdAgrees(q, Decoy(q, r));
  }

  // ---- Six rows in one leaf ------------------------------------------------------------------

  /** In truth the five decoys are the nearest. */
  lemma CopiesAreNearest(q: Row, r: Row, f: Row)
    requires SqDist(q, f) < SqDist(q, r)
    ensures multiset(NearestIds(CandsOf(q, AllItems(Six(r, f))))) == multiset([1, 2, 3, 4, 5])
  {
    DistanceBound(q, f);
    DistanceBound(q, r);
    hide SqDist;
    assert CandsOf(q, AllItems(Six(r, f))) == [Cand(SqDist(q, r), 0)] + FarCands(SqDist(q, f), 5);
    FirstIsOut(Cand(SqDist(q, r), 0), SqDist(q, f));
  }

  lemma FirstIsOut(first: Cand, d: int)
    requires d < first.d < FAR
    ensures multiset(NearestIds([first] + FarCands(d, 5))) == multiset([1, 2, 3, 4, 5])
  {
    var copies, start := FarCands(d, 5), multiset(Empty(FAR, NEIGHBORS));
    assert Ids(copies) == [1, 2, 3, 4, 5] && copies[4].d == d;
    assert forall c :: c in [first] + copies ==> c.d < FAR;
    CopiesAreBest(d);
    hide IsBest, IsGreatest, Empty, FarCands, NearestIds;
    FartherIsPruned(copies, 4, start + multiset(copies), multiset{first});
    assert start + multiset(copies) + multiset{first} == start + multiset([first] + copies);
    BestIsNearest(copies, FAR, [first] + copies);
  }

  /** For the SIMD kernel the first row is among them. */
  lemma FirstIsMeasured(q: Row, r: Row, f: Row)
    requires SqDistSimd(q, r) <= SqDistSimd(q, f)
    ensures 0 in NearestIds(CandsBy(Simd, q, AllItems(Six(r, f))))
  {
    hide SqDistSimd;
    var cands := CandsBy(Simd, q, AllItems(Six(r, f)));
    assert cands[0] == Cand(SqDistSimd(q, r), 0) && forall i :: 1 <= i < 6 ==> cands[i] == Cand(SqDistSimd(q, f), i);
    assert cands[0] in cands;
    hide CandsBy, AllItems;
    LeastIsNearest(cands, cands[0]);
  }

  lemma PlainFinds(kd: KD, q: Row, r: Row, f: Row, ids: seq<int>)
    requires kd.Valid() && kd.rows == Six(r, f) && PartKey16(f) == PartKey16(r) && SqDist(q, f) < SqDist(q, r)
    requires kd.Found(Plain, q, true, ids)
    ensures multiset(ids) == multiset([1, 2, 3, 4, 5])
  {
    hide SqDist, PartKey16, KD.Found, NearestIds, FraudCount;
    OneLeafOfSix(kd, r, f);
    hide KD.OneLeaf;
    kd.FoundMeans(Plain, q, true, ids);
    CandsByExact(Plain, q, AllItems(kd.rows));
    hide CandsOf, CandsBy, AllItems;
    CopiesAreNearest(q, r, f);
  }

  lemma OneLeafOfSix(kd: KD, r: Row, f: Row)
    requires kd.rows == Six(r, f) && PartKey16(f) == PartKey16(r)
    ensures kd.OneLeaf()
  {
    hide PartKey16;
  }

  lemma SimdFinds(kd: KD, q: Row, r: Row, f: Row, ids: seq<int>)
    requires kd.Valid() && kd.rows == Six(r, f) && kd.fraud == LABELS && PartKey16(f) == PartKey16(r)
    requires SqDistSimd(q, r) <= SqDistSimd(q, f) && kd.Found(Simd, q, true, ids)
    ensures 0 in ids && FraudCount(ids, LABELS).Some? && FraudCount(ids, LABELS).value >= 1
  {
    hide SqDistSimd, PartKey16, KD.Found, FraudCount, NearestIds;
    OneLeafOfSix(kd, r, f);
    hide KD.OneLeaf;
    kd.FoundMeans(Simd, q, true, ids);
    FirstIsMeasured(q, r, f);
    SameMembers(ids, NearestIds(CandsBy(Simd, q, AllItems(kd.rows))));
    CountsTheFirst(ids, LABELS);
  }

  lemma InOrder(s: seq<int>)
    requires Ascending(s) && multiset(s) == multiset([1, 2, 3, 4, 5])
    ensures s == [1, 2, 3, 4, 5]
  {
    AscendingUnique(s, [1, 2, 3, 4, 5]);
  }

  /** For every quantized query and every row that does not fit it: beside five rows that do,
      the SIMD build lets it in, and counts wrong; the portable build is right. */
  method CompareMisfit(q: Row, r: Row)
    returns (refs: Refs, got: seq<int>, plain: seq<int>, want: seq<int>, cnt: Option<nat>, cntBrute: Option<nat>)
    requires Quantized(q) && !Fits(q, r)
    ensures refs.Valid() && refs.n == 6 && refs.vec[0] == r && forall i :: 1 <= i < 6 ==> Fits(q, refs.vec[i])
    ensures IsNeighbors5(want, q, refs.vec) && want == plain == [1, 2, 3, 4, 5] && 0 in got
    ensures cntBrute == Some(0) && cnt.Some? && cnt.value >= 1
  {
    hide Fits, Decoy, SqDist, SqDistSimd, PartKey16, KD.Found, KD.Swept, KD.AllSafe, FraudCount, NearestIds;
    var f := Decoy(q, r);
    DecoyBetween(q, r);
    refs := Refs(6, Six(r, f), LABELS);
    var kd := BuildKD(refs);
    got := kd.Neighbors5(Simd, q);
    SimdFinds(kd, q, r, f, got);
    plain := kd.Neighbors5(Plain, q);
    PlainFinds(kd, q, r, f, plain);
    InOrder(plain);
    want := refs.Neighbors5(q);
    CopiesAreNearest(q, r, f);
    InOrder(want);
    ghost var ids;
    cnt, ids := kd.FraudCount5(Simd, q);
    SimdFinds(kd, q, r, f, ids);
    cntBrute := refs.FraudCount5(q);
    FraudCountSame(NearestIds(CandsOf(q, AllItems(refs.vec))), [1, 2, 3, 4, 5], LABELS);
    CopiesCountNothing();
  }

  // ---- One such pair ---------------------------------------------------------------------------

  function OneLane(x: int): (r: Row)
    requires -0x8000 <= x < 0x8000
    ensures r[0] == x && forall i :: 1 <= i < STRIDE ==> r[i] == 0
  {
    seq(STRIDE, i => if i == 0 then x else 0)
  }

  /** A query of the domain and a row that is safe for the gap, measured at less than a third
      of their distance. */
  lemma FarLane()
    ensures var q, r := OneLane(10000), OneLane(-32768);
            && Quantized(q) && InDomain(q) && GapSafe(r) && !Fits(q, r)
            && SqDist(q, r) == 1_829_101_824 && SqDistSimd(q, r) == 518_381_824
  {
    var q, r := OneLane(10000), OneLane(-32768);
    OneLaneIn(10000);
    OneLaneIn(-32768);
    LaneZeroTrue(q, r);
    assert Sq(42768) == 1_829_101_824;
    hide SqDist, SqDistSimd, GapSafe, PairFits, OneLane, InDomain, Quantized, Sq;
    LaneZeroMeasured(q, r);
    SimdAgrees(q, r);
    DomainIsSafe(r);
  }

  lemma OneLaneIn(x: int)
    requires -0x8000 <= x < 0x8000
    ensures InDomain(OneLane(x)) && (-10000 <= x <= 10000 ==> Quantized(OneLane(x)))
  {
  }

  lemma LaneZeroTrue(q: Row, r: Row)
    requires forall i :: 1 <= i < STRIDE ==> q[i] == r[i]
    ensures SqDist(q, r) == Sq(q[0] - r[0])
  {
    SqSumSkip(q, r, 1, STRIDE);
    assert SqSum(q, r, 0) == 0;
  }

  lemma LaneZeroMeasured(q: Row, r: Row)
    requires q == OneLane(10000) && r == OneLane(-32768)
    ensures SqDistSimd(q, r) == 518_381_824
  {
    assert PairDot(q, r, 0) == 518_381_824 by {
      assert Lane(q, r, 0) == -22768 && Lane(q, r, 1) == 0;
    }
    hide PairDot, SqDistSimd, OneLane;
    EightDots(q, r);
    forall j: nat | 1 <= j < 8
      ensures PairDot(q, r, j) == 0
    {
      SamePair(q, r, j);
    }
  }

  lemma SamePair(q: Row, r: Row, j: nat)
    requires j < 8 && q[2 * j] == r[2 * j] && q[2 * j + 1] == r[2 * j + 1]
    ensures PairDot(q, r, j) == 0
  {
  }
}
