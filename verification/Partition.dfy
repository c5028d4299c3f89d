/** The 4-bit partition key, the static lower bound between partitions and the order in
    which partitions are probed (internal/index/partition.go, kd.go). */
module Partition {
  import opened Numbers
  import opened Distance
  import opened Sequences

  const NUM_BUCKETS: nat := 16
  const SENTINEL: int := -10000

  function BitValue(b: bool, v: nat): nat {
    if b then v else 0
  }

  /** The source sets each bit with `|=`; the bits are distinct, so this is a sum. */
  function PartKey16(v: Row): (k: nat)
    ensures k < NUM_BUCKETS
    ensures Bit(k, 1) == (v[9] != 0) && Bit(k, 2) == (v[10] != 0)
    ensures Bit(k, 4) == (v[11] != 0) && Bit(k, 8) == (v[5] != SENTINEL)
  {
    BitValue(v[9] != 0, 1) + BitValue(v[10] != 0, 2) + BitValue(v[11] != 0, 4) + BitValue(v[5] != SENTINEL, 8)
  }

  /** Whether the bit of weight w is set in k. */
  predicate Bit(k: nat, w: nat)
    requires w > 0
  {
    (k / w) % 2 == 1
  }

  /** Whether a and b differ in the bit of weight w, that is (a ^ b) & w != 0. */
  predicate Flips(a: nat, b: nat, w: nat)
    requires w > 0
  {
    Bit(a, w) != Bit(b, w)
  }

  function GapBits(a: nat, b: nat): int {
    BitValue(Flips(a, b, 1), 100_000_000) + BitValue(Flips(a, b, 2), 100_000_000) +
    BitValue(Flips(a, b, 4), 100_000_000) + BitValue(Flips(a, b, 8), 200_000_000)
  }

  /** Categorical lanes hold 0 or 10000. */
  predicate Categorical(v: Row) {
    forall d :: 9 <= d <= 11 ==> v[d] == 0 || v[d] == 10000
  }

  /** What the vectorizer produces: categorical lanes, and lanes 5 and 6 either both the
      sentinel or both nonnegative. */
  predicate InDomain(v: Row) {
    Categorical(v) && ((v[5] == SENTINEL && v[6] == SENTINEL) || (v[5] >= 0 && v[6] >= 0))
  }

  /** How far below its share of the gap a categorical lane of a row can get, over the two
      values a query may have there. */
  function LaneSlack(x: int): int {
    Min(Sq(x) - BitValue(x != 0, 100_000_000), Sq(x - 10000) - BitValue(x == 0, 100_000_000))
  }

  /** The same for lanes 5 and 6 together: a query has the sentinel in both or in neither. */
  function PairSlack(a: int, b: int): int {
    if a == SENTINEL then Min(Sq(b - SENTINEL), Sq(Min(b, 0)) - 100_000_000)
    else Min(Sq(a - SENTINEL) + Sq(b - SENTINEL) - 200_000_000, Sq(Min(a, 0)) + Sq(Min(b, 0)))
  }

  function Slack(r: Row): int {
    LaneSlack(r[9]) + LaneSlack(r[10]) + LaneSlack(r[11]) + PairSlack(r[5], r[6])
  }

  /** Reference rows that the gap never puts too far from a query of the domain. Rows of the
      domain are among them; GapSafeIff shows that no others are. */
  predicate GapSafe(r: Row) {
    Slack(r) >= 0
  }

  lemma DomainIsSafe(r: Row)
    requires InDomain(r)
    ensures GapSafe(r)
  {
    hide Sq;
    SquareValues();
    SquareBound(r[6] - SENTINEL);
    if r[5] != SENTINEL {
      SquareOver(r[5] - SENTINEL);
      SquareOver(r[6] - SENTINEL);
    }
  }

  lemma SquareValues()
    ensures Sq(0) == 0 && Sq(10000) == Sq(-10000) == 100_000_000
  {
  }

  lemma FiveLanes(q: Row, r: Row)
    ensures Sq(q[5] - r[5]) + Sq(q[6] - r[6]) + Sq(q[9] - r[9]) + Sq(q[10] - r[10]) + Sq(q[11] - r[11])
            <= SqDist(q, r)
    ensures (forall d :: 0 <= d < STRIDE && d != 5 && d != 6 && !(9 <= d <= 11) ==> q[d] == r[d]) ==>
      Sq(q[5] - r[5]) + Sq(q[6] - r[6]) + Sq(q[9] - r[9]) + Sq(q[10] - r[10]) + Sq(q[11] - r[11]) == SqDist(q, r)
  {
    SqSumBound(q, r, 5);
    SqSumMono(q, r, 7, 9);
    SqSumMono(q, r, 12, STRIDE);
    if forall d :: 0 <= d < STRIDE && d != 5 && d != 6 && !(9 <= d <= 11) ==> q[d] == r[d] {
      SqSumSkip(q, r, 0, 5);
      SqSumSkip(q, r, 7, 9);
      SqSumSkip(q, r, 12, STRIDE);
    }
    assert SqSum(q, r, 7) == SqSum(q, r, 5) + Sq(q[5] - r[5]) + Sq(q[6] - r[6]);
    assert SqSum(q, r, 10) == SqSum(q, r, 9) + Sq(q[9] - r[9]);
    assert SqSum(q, r, 12) == SqSum(q, r, 10) + Sq(q[10] - r[10]) + Sq(q[11] - r[11]);
  }

  lemma SquareOver(x: int)
    requires x <= -10000 || x >= 10000
    ensures Sq(x) >= 100_000_000
  {
    SquareMono(10000, if x < 0 then -x else x);
    assert Sq(-x) == Sq(x);
  }

  lemma SquareFlip(a: int, b: int)
    ensures Sq(a - b) == Sq(b - a)
  {
  }

  /** The two possible values of a categorical query lane. */
  lemma LaneBounded(q: int, x: int)
    requires q == 0 || q == 10000
    ensures Sq(q - x) - BitValue((q != 0) != (x != 0), 100_000_000) >= LaneSlack(x)
  {
    SquareFlip(q, x);
    assert Sq(x - 0) == Sq(x);
  }

  function LaneChoice(x: int): (q: int)
    ensures q == 0 || q == 10000
    ensures Sq(q - x) - BitValue((q != 0) != (x != 0), 100_000_000) == LaneSlack(x)
  {
    SquareFlip(0, x);
    SquareFlip(10000, x);
    assert Sq(x - 0) == Sq(x);
    if Sq(x) - BitValue(x != 0, 100_000_000) <= Sq(x - 10000) - BitValue(x == 0, 100_000_000) then 0 else 10000
  }

  lemma PairBounded(a: int, b: int, x: int, y: int)
    requires (a == SENTINEL && b == SENTINEL) || (a >= 0 && b >= 0)
    ensures Sq(a - x) + Sq(b - y) - BitValue((a != SENTINEL) != (x != SENTINEL), 200_000_000) >= PairSlack(x, y)
  {
    SquareFlip(a, x);
    SquareFlip(b, y);
    if a >= 0 {
      NearestNonNegative(a, x);
      NearestNonNegative(b, y);
      if x == SENTINEL {
        SquareOver(a - x);
      }
    } else {
      hide Sq;
      SquareValues();
    }
  }

  /** No value from 0 on is nearer to x than x itself or 0. */
  lemma NearestNonNegative(a: int, x: int)
    requires a >= 0
    ensures Sq(a - x) >= Sq(Min(x, 0))
  {
    if x < 0 {
      SquareMono(-x, a - x);
      assert Sq(-x) == Sq(x);
    } else {
      SquareNonNegative(a - x);
    }
  }

  lemma SquareNonNegative(x: int)
    ensures Sq(x) >= 0
  {
  }

  function PairChoice(x: int, y: int): (c: (int, int))
    requires -0x8000 <= x < 0x8000 && -0x8000 <= y < 0x8000
    ensures (c.0 == SENTINEL && c.1 == SENTINEL) || (0 <= c.0 < 0x8000 && 0 <= c.1 < 0x8000)
    ensures Sq(c.0 - x) + Sq(c.1 - y) - BitValue((c.0 != SENTINEL) != (x != SENTINEL), 200_000_000) == PairSlack(x, y)
  {
    SquareFlip(SENTINEL, x);
    SquareFlip(SENTINEL, y);
    SquareChoices(x);
    SquareChoices(y);
    SquareValues();
    var away := if x == SENTINEL then Sq(Min(y, 0)) - 100_000_000 else Sq(Min(x, 0)) + Sq(Min(y, 0));
    if PairSlack(x, y) == away then (Max(x, 0), Max(y, 0)) else (SENTINEL, SENTINEL)
  }

  function Max(a: int, b: int): (m: int)
    ensures m >= a && m >= b && (m == a || m == b)
  {
    if a < b then b else a
  }

  lemma SquareChoices(x: int)
    ensures Sq(Max(x, 0) - x) == Sq(Min(x, 0))
  {
  }

  /** The gap is at most the distance less the slack of the row, over every query. */
  lemma GapWithinSlack(q: Row, r: Row)
    requires InDomain(q)
    ensures GapBits(PartKey16(q), PartKey16(r)) <= SqDist(q, r) - Slack(r)
  {
    hide SqDist, Sq, PartKey16, Bit, LaneSlack, PairSlack;
    FiveLanes(q, r);
    LaneBounded(q[9], r[9]);
    LaneBounded(q[10], r[10]);
    LaneBounded(q[11], r[11]);
    PairBounded(q[5], q[6], r[5], r[6]);
  }

  /** The query of the domain that a row is worst for. */
  function WorstQuery(r: Row): (q: Row)
    ensures InDomain(q)
  {
    hide LaneSlack, PairSlack, Sq;
    var c := PairChoice(r[5], r[6]);
    r[5 := c.0][6 := c.1][9 := LaneChoice(r[9])][10 := LaneChoice(r[10])][11 := LaneChoice(r[11])]
  }

  /** It reaches the bound. */
  lemma SlackReached(r: Row)
    ensures GapBits(PartKey16(WorstQuery(r)), PartKey16(r)) == SqDist(WorstQuery(r), r) - Slack(r)
  {
    hide SqDist, Sq, PartKey16, Bit, LaneSlack, PairSlack;
    FiveLanes(WorstQuery(r), r);
  }

  /** The lower bound behind the stop rule. */
  lemma GapIsLowerBound(q: Row, r: Row)
    requires InDomain(q) && GapSafe(r)
    ensures GapBits(PartKey16(q), PartKey16(r)) <= SqDist(q, r)
  {
    GapWithinSlack(q, r);
  }

  /** Any other row lies nearer to some query of the domain than the gap says, as
      gap_invariant_test.go shows on one pair. */
  lemma GapOverestimates(r: Row)
    requires !GapSafe(r)
    ensures GapBits(PartKey16(WorstQuery(r)), PartKey16(r)) > SqDist(WorstQuery(r), r)
  {
    hide SqDist, PartKey16, Slack, WorstQuery;
    SlackReached(r);
  }

  /** The exact condition on a reference row for the gap to be a lower bound of its distance
      to every query of the domain. */
  lemma GapSafeIff(r: Row)
    ensures GapSafe(r) <==> forall q: Row | InDomain(q) :: GapBits(PartKey16(q), PartKey16(r)) <= SqDist(q, r)
  {
    hide GapBits, SqDist, PartKey16, Slack, WorstQuery;
    if GapSafe(r) {
      forall q: Row | InDomain(q)
        ensures GapBits(PartKey16(q), PartKey16(r)) <= SqDist(q, r)
      {
        GapIsLowerBound(q, r);
      }
    } else {
      GapOverestimates(r);
    }
  }

  /** On categorical rows the condition is about lanes 5 and 6 alone. */
  lemma CategoricalSafe(r: Row)
    requires Categorical(r)
    ensures GapSafe(r) <==>
            if r[5] == SENTINEL then r[6] <= SENTINEL
            else Sq(r[5] - SENTINEL) + Sq(r[6] - SENTINEL) >= 200_000_000
  {
    hide Sq;
    SquareValues();
    SquareBound(r[6] - SENTINEL);
    SquareBound(Min(r[5], 0));
    SquareBound(Min(r[6], 0));
    assert LaneSlack(r[9]) == LaneSlack(r[10]) == LaneSlack(r[11]) == 0;
    if r[6] <= SENTINEL {
      SquareOver(r[6]);
    } else if r[6] < 0 {
      SquareUnder(r[6]);
    }
  }

  lemma SquareUnder(x: int)
    requires SENTINEL < x < 0
    ensures Sq(x) < 100_000_000
  {
    SquareMono(-x, 9999);
    assert Sq(-x) == Sq(x) && Sq(9999) == 99_980_001;
  }

  // ---- Probe order ---------------------------------------------------------

  /** Every partition but the home one, once. */
  ghost predicate IsProbeOrder(home: nat, s: seq<nat>) {
    && (forall i, j :: 0 <= i < j < |s| ==> GapBits(home, s[i]) <= GapBits(home, s[j]))
    && Distinct(s)
    && (forall b: nat :: b in s <==> b < NUM_BUCKETS && b != home)
  }

  method ProbeOrderFor(home: nat) returns (others: seq<nat>)
    requires home < NUM_BUCKETS
    ensures IsProbeOrder(home, others)
  {
    var all: seq<nat> := [];
    for b := 0 to NUM_BUCKETS
      invariant Distinct(all)
      invariant forall x: nat :: x in all <==> x < b && x != home
    {
      if b != home {
        assert b !in all;
        all := all + [b];
      }
    }
    others := SortBy((b: nat) => GapBits(home, b), all);
    SameMembers(all, others);
    DistinctTransfers(all, others);
  }
}
