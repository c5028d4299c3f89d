/** The brute-force reference loops of internal/index/brute.go, on integer queries:
    squared integer differences are exact in float64, so int stands for it. */
module Brute {
  import opened Numbers
  import opened Distance
  import opened Nearest
  import opened BestFive
  import opened Sequences

  /** Distance of an unfilled slot (1e30). */
  const BRUTE_FAR: int := 1_000_000_000_000_000_000_000_000_000_000

  lemma PrefixGrows(q: Row, vec: seq<Row>, i: nat)
    requires i < |vec|
    ensures multiset(CandsOf(q, AllItems(vec[..i + 1]))) ==
            multiset(CandsOf(q, AllItems(vec[..i]))) + multiset{Cand(SqDist(q, vec[i]), i)}
  {
    assert CandsOf(q, AllItems(vec[..i + 1])) ==
           CandsOf(q, AllItems(vec[..i])) + [Cand(SqDist(q, vec[i]), i)];
  }

  datatype Refs = Refs(n: nat, vec: seq<Row>, fraud: seq<bool>) {

    predicate Valid() {
      |vec| == n && |fraud| == n
    }

    lemma NothingScanned(q: Row)
      ensures IsGreatest(Empty(BRUTE_FAR, NEIGHBORS), 0)
      ensures IsBest(multiset(Empty(BRUTE_FAR, NEIGHBORS)),
                     multiset(Empty(BRUTE_FAR, NEIGHBORS)) + multiset(CandsOf(q, AllItems(vec[..0]))))
    {
      assert CandsOf(q, AllItems(vec[..0])) == [];
      assert |multiset(Empty(BRUTE_FAR, NEIGHBORS))| == NEIGHBORS;
    }

    /** The loop both brute-force entry points run. */
    method Scan(q: Row) returns (best: array<Cand>)
      requires Valid()
      ensures fresh(best) && best.Length == NEIGHBORS
      ensures IsBest(multiset(best[..]),
                     multiset(Empty(BRUTE_FAR, NEIGHBORS)) + multiset(CandsOf(q, AllItems(vec))))
    {
      best := new Cand[NEIGHBORS](_ => Cand(BRUTE_FAR, EMPTY_ID));
      var worst: nat := 0;
      assert best[..] == Empty(BRUTE_FAR, NEIGHBORS);
      NothingScanned(q);
      hide IsGreatest, IsBest, CandsOf, AllItems, Empty;
      for i := 0 to n
        invariant worst < best.Length == NEIGHBORS
        invariant IsGreatest(best[..], worst)
        invariant IsBest(multiset(best[..]),
                         multiset(Empty(BRUTE_FAR, NEIGHBORS)) + multiset(CandsOf(q, AllItems(vec[..i]))))
      {
        var d := 0;
        for k := 0 to STRIDE
          invariant d == SqSum(q, vec[i], k)
        {
          var diff := q[k] - vec[i][k];
          d := d + diff * diff;
        }
        ghost var start := multiset(Empty(BRUTE_FAR, NEIGHBORS));
        ghost var seen := multiset(CandsOf(q, AllItems(vec[..i])));
        worst := Offer(best, worst, Cand(d, i), start + seen);
        PrefixGrows(q, vec, i);
        assert start + seen + multiset{Cand(d, i)} == start + (seen + multiset{Cand(d, i)});
      }
      assert vec[..n] == vec;
    }

    /** The five nearest indices in ascending order. */
    method Neighbors5(q: Row) returns (out: seq<int>)
      requires Valid()
      ensures IsNeighbors5(out, q, vec)
    {
      var best := Scan(q);
      ScanIsNearest(q, best[..]);
      out := SortBy((g: int) => g, Ids(best[..]));
    }

    /** The number of frauds among the five nearest; None when a slot was never filled
        and the label lookup is out of range. */
    method FraudCount5(q: Row) returns (cnt: Option<nat>)
      requires Valid()
      ensures cnt == FraudCount(NearestIds(CandsOf(q, AllItems(vec))), fraud)
    {
      var best := Scan(q);
      ScanIsNearest(q, best[..]);
      FraudCountSame(Ids(best[..]), NearestIds(CandsOf(q, AllItems(vec))), fraud);
      cnt := CountFraud(Ids(best[..]), fraud);
    }

    lemma ScanIsNearest(q: Row, slots: seq<Cand>)
      requires Valid() && |slots| == NEIGHBORS
      requires IsBest(multiset(slots),
                      multiset(Empty(BRUTE_FAR, NEIGHBORS)) + multiset(CandsOf(q, AllItems(vec))))
      ensures multiset(Ids(slots)) == multiset(NearestIds(CandsOf(q, AllItems(vec))))
    {
      var cands := CandsOf(q, AllItems(vec));
      forall c | c in cands
        ensures c.d < BRUTE_FAR
      {
        var i :| 0 <= i < |cands| && cands[i] == c;
        DistanceBound(q, vec[i]);
      }
      BestIsNearest(slots, BRUTE_FAR, cands);
    }
  }

  /** One turn of the loop: the candidate replaces the worst slot when smaller, and the
      worst slot is searched again. */
  method Offer(best: array<Cand>, worst: nat, c: Cand, ghost seen: multiset<Cand>) returns (w: nat)
    requires best.Length == NEIGHBORS && worst < NEIGHBORS && IsGreatest(best[..], worst)
    requires IsBest(multiset(best[..]), seen)
    modifies best
    ensures w < NEIGHBORS && IsGreatest(best[..], w)
    ensures IsBest(multiset(best[..]), seen + multiset{c})
  {
    hide IsGreatest, IsBest;
    ConsideredIsBest(best[..], worst, seen, c);
    w := worst;
    if c.d < best[w].d || (c.d == best[w].d && c.g < best[w].g) {
      best[w] := c;
      assert best[..] == old(best[..])[worst := c];
      assert multiset(best[..]) == Considered(old(multiset(best[..])), old(best[worst]), c);
      w := 0;
      ghost var slots := best[..];
      FirstIsGreatest(slots);
      for j := 1 to 5
        invariant w < j && best[..] == slots && IsGreatest(slots[..j], w)
      {
        GreatestGrows(slots, w, j);
        if best[j].d > best[w].d || (best[j].d == best[w].d && best[j].g > best[w].g) {
          w := j;
        }
      }
      assert slots[..5] == slots;
    }
  }

  /** The closing loop of both FraudCount5 functions. */
  method CountFraud(ids: seq<int>, fraud: seq<bool>) returns (cnt: Option<nat>)
    ensures cnt == FraudCount(ids, fraud)
  {
    var n := 0;
    FraudCountDefined(ids, fraud);
    for i := 0 to |ids|
      invariant FraudCount(ids[..i], fraud) == Some(n)
    {
      assert ids[..i + 1][..i] == ids[..i];
      if !(0 <= ids[i] < |fraud|) {
        assert ids[i] in ids;
        return None;
      }
      if fraud[ids[i]] {
        n := n + 1;
      }
    }
    assert ids[..|ids|] == ids;
    return Some(n);
  }
}
