/** The whole index: sixteen partitions, the probe orders, and the gap-stopped search
    (internal/index/kd.go). */
module Kd {
  import opened Numbers
  import opened Distance
  import opened Nearest
  import opened BestFive
  import opened Partition
  import opened KdTree
  import opened KdSearch
  import opened Sequences
  import opened Brute

  // ---- Which rows a partition holds --------------------------------------------

  /** The rows among the first n whose partition is in ks, with their indices. */
  ghost function ItemsIn(rows: seq<Row>, n: nat, ks: set<nat>): seq<Item>
    requires n <= |rows|
  {
    if n == 0 then []
    else if PartKey16(rows[n - 1]) in ks then ItemsIn(rows, n - 1, ks) + [Item(rows[n - 1], n - 1)]
    else ItemsIn(rows, n - 1, ks)
  }

  /** Their candidates. */
  ghost function CandsIn(q: Row, rows: seq<Row>, n: nat, ks: set<nat>): multiset<Cand>
    requires n <= |rows|
  {
    if n == 0 then multiset{}
    else if PartKey16(rows[n - 1]) in ks then
      CandsIn(q, rows, n - 1, ks) + multiset{Cand(SqDist(q, rows[n - 1]), n - 1)}
    else CandsIn(q, rows, n - 1, ks)
  }

  lemma CandsOfAppend(q: Row, items: seq<Item>, it: Item)
    ensures multiset(CandsOf(q, items + [it])) == multiset(CandsOf(q, items)) + multiset{CandOf(q, it)}
  {
    assert CandsOf(q, items + [it]) == CandsOf(q, items) + [CandOf(q, it)];
  }

  lemma {:induction false} ItemsInCands(q: Row, rows: seq<Row>, n: nat, ks: set<nat>)
    requires n <= |rows|
    ensures multiset(CandsOf(q, ItemsIn(rows, n, ks))) == CandsIn(q, rows, n, ks)
  {
    if n > 0 {
      ItemsInCands(q, rows, n - 1, ks);
      hide CandsOf, SqDist, PartKey16;
      CandsOfAppend(q, ItemsIn(rows, n - 1, ks), Item(rows[n - 1], n - 1));
    }
  }

  lemma {:induction false} ItemsInAdd(rows: seq<Row>, n: nat, ks: set<nat>, k: nat)
    requires n <= |rows| && k !in ks
    ensures multiset(ItemsIn(rows, n, ks + {k})) == multiset(ItemsIn(rows, n, ks)) + multiset(ItemsIn(rows, n, {k}))
  {
    hide PartKey16;
    if n > 0 {
      ItemsInAdd(rows, n - 1, ks, k);
    }
  }

  /** A row is where its index says. */
  lemma {:induction false} ItemsInRows(rows: seq<Row>, n: nat, ks: set<nat>)
    requires n <= |rows|
    ensures |ItemsIn(rows, n, ks)| <= n
    ensures forall it :: it in ItemsIn(rows, n, ks) ==>
      0 <= it.g < n && it.v == rows[it.g] && PartKey16(it.v) in ks
  {
    hide PartKey16;
    if n > 0 {
      ItemsInRows(rows, n - 1, ks);
    }
  }

  lemma {:induction false} ItemsInAll(rows: seq<Row>, n: nat, ks: set<nat>)
    requires n <= |rows| && forall i :: 0 <= i < n ==> PartKey16(rows[i]) in ks
    ensures ItemsIn(rows, n, ks) == AllItems(rows)[..n]
  {
    hide PartKey16;
    if n > 0 {
      ItemsInAll(rows, n - 1, ks);
    }
  }

  lemma {:induction false} ItemsInNone(rows: seq<Row>, n: nat, ks: set<nat>)
    requires n <= |rows| && forall i :: 0 <= i < n ==> PartKey16(rows[i]) !in ks
    ensures ItemsIn(rows, n, ks) == []
  {
    hide PartKey16;
    if n > 0 {
      ItemsInNone(rows, n - 1, ks);
    }
  }

  /** All sixteen partitions together hold every row exactly once. */
  lemma CandsInAll(q: Row, rows: seq<Row>, ks: set<nat>)
    requires forall k: nat :: k < NUM_BUCKETS ==> k in ks
    ensures CandsIn(q, rows, |rows|, ks) == multiset(CandsOf(q, AllItems(rows)))
    ensures ItemsIn(rows, |rows|, ks) == AllItems(rows)
  {
    ItemsInAll(rows, |rows|, ks);
    ItemsInCands(q, rows, |rows|, ks);
    assert AllItems(rows)[..|rows|] == AllItems(rows);
  }

  /** Candidates of partitions at a gap of at least g are at a distance of at least g. */
  lemma {:induction false} CandsInFar(q: Row, rows: seq<Row>, n: nat, ks: set<nat>, g: int, c: Cand)
    requires n <= |rows| && InDomain(q) && forall i :: 0 <= i < |rows| ==> GapSafe(rows[i])
    requires forall k :: k in ks ==> GapBits(PartKey16(q), k) >= g
    requires c in CandsIn(q, rows, n, ks)
    ensures c.d >= g
  {
    if c in CandsIn(q, rows, n - 1, ks) {
      CandsInFar(q, rows, n - 1, ks, g, c);
    } else {
      GapIsLowerBound(q, rows[n - 1]);
    }
  }

  ghost function KeysOf(s: seq<nat>): set<nat> {
    set k | k in s
  }

  /** The partitions searched once the home partition and the first i of the order are done. */
  ghost function Probed(home: nat, order: seq<nat>, i: nat): set<nat>
    requires i <= |order|
  {
    {home} + KeysOf(order[..i])
  }

  /** The stop rule: once the gap to the next partition exceeds the worst slot, no row of
      it or of any later partition in the probe order can enter the five. */
  lemma StopIsSound(q: Row, rows: seq<Row>, order: seq<nat>, i: nat, slots: seq<Cand>, w: nat, s: multiset<Cand>)
    requires InDomain(q) && forall j :: 0 <= j < |rows| ==> GapSafe(rows[j])
    requires IsProbeOrder(PartKey16(q), order) && i < |order|
    requires IsGreatest(slots, w) && IsBest(multiset(slots), s)
    requires GapBits(PartKey16(q), order[i]) > slots[w].d
    ensures IsBest(multiset(slots), s + CandsIn(q, rows, |rows|, KeysOf(order[i..])))
  {
    var rest := KeysOf(order[i..]);
    forall y: Cand | y in CandsIn(q, rows, |rows|, rest)
      ensures y.d > slots[w].d
    {
      forall k | k in rest
        ensures GapBits(PartKey16(q), k) >= GapBits(PartKey16(q), order[i])
      {
        var j :| 0 <= j < |order[i..]| && order[i..][j] == k;
        assert order[i + j] == k;
      }
      CandsInFar(q, rows, |rows|, rest, GapBits(PartKey16(q), order[i]), y);
    }
    FartherIsPruned(slots, w, s, CandsIn(q, rows, |rows|, rest));
  }

  // ---- The index object ----------------------------------------------------------

  class KD {
    const parts: seq<Part>
    const fraud: seq<bool>
    const probeOrder: seq<seq<nat>>
    /** The reference rows the index was built from. */
    ghost const rows: seq<Row>

    constructor (parts: seq<Part>, fraud: seq<bool>, probeOrder: seq<seq<nat>>, ghost rows: seq<Row>)
      ensures this.parts == parts && this.fraud == fraud && this.probeOrder == probeOrder && this.rows == rows
    {
      this.parts, this.fraud, this.probeOrder, this.rows := parts, fraud, probeOrder, rows;
    }

    ghost predicate Valid()
      reads parts
    {
      && |parts| == |probeOrder| == NUM_BUCKETS
      && |fraud| == |rows| < 0x8000_0000
      && (forall k: nat :: k < NUM_BUCKETS ==> IsProbeOrder(k, probeOrder[k]))
      && (forall k: nat :: k < NUM_BUCKETS ==> parts[k].Built())
      && (forall k: nat :: k < NUM_BUCKETS ==> multiset(parts[k].Items()) == multiset(ItemsIn(rows, |rows|, {k})))
    }

    ghost predicate AllSafe() {
      forall i :: 0 <= i < |rows| ==> GapSafe(rows[i])
    }

    /** The rows make up one leaf: few of them, and all in one partition. */
    ghost predicate OneLeaf() {
      && |rows| <= LEAF_SIZE
      && forall i, j :: 0 <= i < |rows| && 0 <= j < |rows| ==> PartKey16(rows[i]) == PartKey16(rows[j])
    }

    /** One partition's rows are added to what the search went through. */
    method SearchKey(k: Kernel, key: nat, q: Row, b: Best5, ghost ks: set<nat>, ghost log: Log)
      returns (ghost log': Log)
      requires Valid() && key < NUM_BUCKETS && key !in ks
      requires b.Valid() && SlotsHold(k, q, b.Slots(), b.worst, multiset(Empty(FAR, NEIGHBORS)), log)
      requires log.All() == multiset(ItemsIn(rows, |rows|, ks))
      modifies b, b.dist, b.gidx
      ensures Valid() && b.Valid() && SlotsHold(k, q, b.Slots(), b.worst, multiset(Empty(FAR, NEIGHBORS)), log')
      ensures log'.All() == multiset(ItemsIn(rows, |rows|, ks + {key}))
      ensures OneLeaf() && log.skipped == [] ==> log'.skipped == []
    {
      hide SlotsHold, ItemsIn, IsProbeOrder, PartKey16;
      if OneLeaf() && log.skipped == [] {
        OneLeafSearched(k, q, b.Slots(), b.worst, log, ks, key);
      }
      ghost var peak;
      log', peak := SearchPart(k, parts[key], q, b, multiset(Empty(FAR, NEIGHBORS)), log);
      ItemsInAdd(rows, |rows|, ks, key);
    }

    /** While a slot is empty nothing was found, and once one is found no partition is left. */
    lemma OneLeafSearched(k: Kernel, q: Row, slots: seq<Cand>, w: nat, log: Log, ks: set<nat>, key: nat)
      requires Valid() && key < NUM_BUCKETS && key !in ks && OneLeaf()
      requires SlotsHold(k, q, slots, w, multiset(Empty(FAR, NEIGHBORS)), log) && log.skipped == []
      requires log.All() == multiset(ItemsIn(rows, |rows|, ks))
      ensures w < |slots|
      ensures parts[key].count <= LEAF_SIZE && (slots[w].d >= FAR || parts[key].count == 0)
    {
      hide PartKey16, SqDist, IsProbeOrder;
      ItemsInRows(rows, |rows|, {key});
      SameMembers(parts[key].Items(), ItemsIn(rows, |rows|, {key}));
      NothingMeasured(k, q, slots, w, log);
      if log.scanned != [] {
        ItemsInRows(rows, |rows|, ks);
        assert log.scanned[0] in log.All();
        ItemsInNone(rows, |rows|, {key});
      }
    }

    lemma NothingMeasured(k: Kernel, q: Row, slots: seq<Cand>, w: nat, log: Log)
      requires SlotsHold(k, q, slots, w, multiset(Empty(FAR, NEIGHBORS)), log)
      ensures w < |slots| && (log.scanned == [] ==> slots[w].d == FAR)
    {
      var empty := Empty(FAR, NEIGHBORS);
      assert multiset(empty) + multiset(CandsBy(k, q, [])) == multiset(empty);
      assert slots[w] in multiset(slots);
      if log.scanned == [] {
        assert slots[w] in empty;
      }
    }

    /** What the search did when the home partition and the first i of the probe order are done:
        every row of them was measured or pruned. */
    ghost predicate RunAt(k: Kernel, q: Row, i: nat, slots: seq<Cand>, w: nat, log: Log)
      requires Valid() && i <= |probeOrder[PartKey16(q)]|
      reads parts
    {
      && SlotsHold(k, q, slots, w, multiset(Empty(FAR, NEIGHBORS)), log)
      && log.All() == multiset(ItemsIn(rows, |rows|, Probed(PartKey16(q), probeOrder[PartKey16(q)], i)))
    }

    /** A whole run: it ends at the end of the probe order, or where a gap exceeds the fifth
        distance. */
    ghost predicate Ran(k: Kernel, q: Row, stop: bool, i: nat, slots: seq<Cand>, w: nat, log: Log)
      requires Valid()
      reads parts
    {
      && i <= |probeOrder[PartKey16(q)]| && RunAt(k, q, i, slots, w, log)
      && (i < |probeOrder[PartKey16(q)]| ==> stop && GapTo(q, i) > slots[w].d)
      && (OneLeaf() ==> log.skipped == [])
    }

    /** Where the kernel measures right, the slots are the five least of all rows probed. */
    lemma RunIsBest(k: Kernel, q: Row, i: nat, slots: seq<Cand>, w: nat, log: Log)
      requires Valid() && i <= |probeOrder[PartKey16(q)]| && RunAt(k, q, i, slots, w, log) && Agrees(k, q, rows)
      ensures BestAt(q, i, slots, w)
    {
      var ks := Probed(PartKey16(q), probeOrder[PartKey16(q)], i);
      var items := ItemsIn(rows, |rows|, ks);
      ItemsInRows(rows, |rows|, ks);
      hide KernelDist, SqDist, Agrees, PartKey16, Probed, IsBest, IsProbeOrder;
      forall i | 0 <= i < |log.scanned|
        ensures KernelDist(k, q, log.scanned[i].v) == SqDist(q, log.scanned[i].v)
      {
        assert log.scanned[i] in log.All();
        AgreesOn(k, q, rows, log.scanned[i].g);
      }
      SkippingLosesNothing(k, q, slots, w, multiset(Empty(FAR, NEIGHBORS)), log);
      assert multiset(log.scanned + log.skipped) == log.All();
      CandsOfSame(q, log.scanned + log.skipped, items);
      ItemsInCands(q, rows, |rows|, ks);
    }

    /** The rows of one leaf are all measured: their order is the kernel's. */
    lemma LeafIsMeasured(k: Kernel, q: Row, stop: bool, i: nat, slots: seq<Cand>, w: nat, log: Log)
      requires Valid() && Ran(k, q, stop, i, slots, w, log) && OneLeaf()
      ensures multiset(Ids(slots)) == multiset(NearestIds(CandsBy(k, q, AllItems(rows))))
    {
      var home, order := PartKey16(q), probeOrder[PartKey16(q)];
      var ks := Probed(home, order, i);
      assert ItemsIn(rows, |rows|, ks) == AllItems(rows) by {
        if i == |order| {
          AllProbed(q, order);
        } else {
          LeafWasProbed(k, q, slots, w, log, ks);
        }
      }
      MeasuredIsNearest(k, q, slots, w, log);
    }

    /** Once a slot is filled the one leaf has been searched. */
    lemma LeafWasProbed(k: Kernel, q: Row, slots: seq<Cand>, w: nat, log: Log, ks: set<nat>)
      requires OneLeaf() && log.All() == multiset(ItemsIn(rows, |rows|, ks))
      requires SlotsHold(k, q, slots, w, multiset(Empty(FAR, NEIGHBORS)), log) && slots[w].d < FAR && log.skipped == []
      ensures ItemsIn(rows, |rows|, ks) == AllItems(rows)
    {
      NothingMeasured(k, q, slots, w, log);
      hide PartKey16, SqDist, SlotsHold;
      ItemsInRows(rows, |rows|, ks);
      assert log.scanned[0] in log.All();
      ItemsInAll(rows, |rows|, ks);
      assert AllItems(rows)[..|rows|] == AllItems(rows);
    }

    /** When every row was measured, the slots carry the five least by the kernel. */
    lemma MeasuredIsNearest(k: Kernel, q: Row, slots: seq<Cand>, w: nat, log: Log)
      requires SlotsHold(k, q, slots, w, multiset(Empty(FAR, NEIGHBORS)), log)
      requires log.skipped == [] && log.All() == multiset(AllItems(rows))
      ensures multiset(Ids(slots)) == multiset(NearestIds(CandsBy(k, q, AllItems(rows))))
    {
      var cands := CandsBy(k, q, AllItems(rows));
      assert log.All() == multiset(log.scanned);
      CandsBySame(k, q, log.scanned, AllItems(rows));
      forall c | c in cands
        ensures c.d < FAR
      {
        var i :| 0 <= i < |cands| && cands[i] == c;
        DistanceBound(q, rows[i]);
      }
      hide KernelDist, SqDist, IsGreatest;
      assert |multiset(slots)| == |slots|;
      BestIsNearest(slots, FAR, cands);
    }

    /** With any rows and either kernel, the labels of the five slots are in range exactly when
        there are five references: an empty slot means that all rows were measured. */
    lemma RunCounts(k: Kernel, q: Row, stop: bool, i: nat, slots: seq<Cand>, w: nat, log: Log)
      requires Valid() && Ran(k, q, stop, i, slots, w, log)
      ensures FraudCount(Ids(slots), fraud).Some? <==> |rows| >= NEIGHBORS
    {
      if slots[w].d >= FAR {
        NoneSkipped(q, log, slots[w].d);
        AllProbed(q, probeOrder[PartKey16(q)]);
        MeasuredIsNearest(k, q, slots, w, log);
        FraudCountSame(Ids(slots), NearestIds(CandsBy(k, q, AllItems(rows))), fraud);
        CountableIffFive(k, q, rows, fraud);
      } else {
        var ks := Probed(PartKey16(q), probeOrder[PartKey16(q)], i);
        ItemsInRows(rows, |rows|, ks);
        FullSlots(k, q, slots, w, log, ItemsIn(rows, |rows|, ks));
        FraudCountDefined(Ids(slots), fraud);
      }
    }

    lemma NoneSkipped(q: Row, log: Log, d: int)
      requires Farther(q, log.skipped, d) && d >= FAR
      ensures log.skipped == []
    {
      if log.skipped != [] {
        DistanceBound(q, log.skipped[0].v);
      }
    }

    /** Slots without an empty one hold five of the rows measured. */
    lemma FullSlots(k: Kernel, q: Row, slots: seq<Cand>, w: nat, log: Log, items: seq<Item>)
      requires SlotsHold(k, q, slots, w, multiset(Empty(FAR, NEIGHBORS)), log) && slots[w].d < FAR
      requires log.All() == multiset(items) && |items| <= |rows|
      requires forall it :: it in items ==> 0 <= it.g < |rows|
      ensures |rows| >= NEIGHBORS && forall g :: g in Ids(slots) ==> 0 <= g < |rows|
    {
      hide KernelDist, SqDist;
      var cands := CandsBy(k, q, log.scanned);
      forall c | c in multiset(slots)
        ensures multiset(slots)[c] <= multiset(cands)[c] && 0 <= c.g < |rows|
      {
        assert c in slots && Leq(c, slots[w]);
        assert c !in Empty(FAR, NEIGHBORS);
        assert multiset(Empty(FAR, NEIGHBORS))[c] == 0;
        assert c in cands;
        var i :| 0 <= i < |cands| && cands[i] == c;
        assert log.scanned[i] in log.All();
      }
      assert multiset(slots) <= multiset(cands);
      SmallerSize(multiset(slots), multiset(cands));
      assert |multiset(cands)| == |cands| == |multiset(log.scanned)|;
      SmallerSize(multiset(log.scanned), multiset(items));
      assert |multiset(items)| == |items|;
    }

    /** The slots are the five least of the rows of the home partition and of the first i in
        probe order. */
    ghost predicate BestAt(q: Row, i: nat, slots: seq<Cand>, w: nat)
      requires Valid() && i <= |probeOrder[PartKey16(q)]|
      reads parts
    {
      && IsGreatest(slots, w)
      && IsBest(multiset(slots), multiset(Empty(FAR, NEIGHBORS)) +
                CandsIn(q, rows, |rows|, Probed(PartKey16(q), probeOrder[PartKey16(q)], i)))
    }

    ghost function GapTo(q: Row, i: nat): int
      requires Valid() && i < |probeOrder[PartKey16(q)]|
      reads parts
    {
      GapBits(PartKey16(q), probeOrder[PartKey16(q)][i])
    }

    /** No partition before position i was one to stop at. */
    ghost predicate PassedTo(q: Row, i: nat)
      requires Valid() && i <= |probeOrder[PartKey16(q)]|
      reads parts
    {
      forall j: nat, slots: seq<Cand>, w: nat :: j < i && BestAt(q, j, slots, w) ==> GapTo(q, j) <= slots[w].d
    }

    ghost predicate MustStop(q: Row, i: nat)
      requires Valid() && i < |probeOrder[PartKey16(q)]|
      reads parts
    {
      forall slots: seq<Cand>, w: nat :: BestAt(q, i, slots, w) ==> GapTo(q, i) > slots[w].d
    }

    /** i is where the sweep ends: the first partition whose gap exceeds the fifth distance so
        far, or the end when there is none or the sweep does not stop. */
    ghost predicate EndsAt(q: Row, stop: bool, i: nat)
      requires Valid() && i <= |probeOrder[PartKey16(q)]|
      reads parts
    {
      && (stop ==> PassedTo(q, i))
      && (i < |probeOrder[PartKey16(q)]| ==> stop && MustStop(q, i))
    }

    /** The fifth distance at a position of the sweep does not depend on the slots' order. */
    lemma SameBound(q: Row, i: nat, slots: seq<Cand>, w: nat, slots': seq<Cand>, w': nat)
      requires Valid() && i <= |probeOrder[PartKey16(q)]|
      requires BestAt(q, i, slots, w) && BestAt(q, i, slots', w')
      ensures slots[w].d == slots'[w'].d
    {
      hide CandsIn, Probed, IsBest, Empty;
      BestUnique(multiset(slots), multiset(slots'), multiset(Empty(FAR, NEIGHBORS)) +
                 CandsIn(q, rows, |rows|, Probed(PartKey16(q), probeOrder[PartKey16(q)], i)));
      assert slots[w] in multiset(slots') && slots'[w'] in multiset(slots);
    }

    /** What the slots say about the next partition, any slots of the position say. */
    lemma GapDecides(q: Row, i: nat, slots: seq<Cand>, w: nat)
      requires Valid() && i < |probeOrder[PartKey16(q)]| && BestAt(q, i, slots, w)
      ensures w < |slots|
      ensures GapTo(q, i) > slots[w].d ==> MustStop(q, i)
      ensures GapTo(q, i) <= slots[w].d && PassedTo(q, i) ==> PassedTo(q, i + 1)
    {
      hide CandsIn, IsBest, Probed, Empty, GapTo;
      forall slots': seq<Cand>, w': nat | BestAt(q, i, slots', w')
        ensures slots'[w'].d == slots[w].d
      {
        SameBound(q, i, slots, w, slots', w');
      }
    }

    method SearchHome(k: Kernel, q: Row, b: Best5) returns (ghost log: Log)
      requires Valid() && b.Valid() && b.Slots() == Empty(FAR, NEIGHBORS)
      modifies b, b.dist, b.gidx
      ensures Valid() && b.Valid() && RunAt(k, q, 0, b.Slots(), b.worst, log)
      ensures OneLeaf() ==> log.skipped == []
    {
      NothingHolds(k, q, b.Slots(), b.worst);
      hide SlotsHold, IsProbeOrder, PartKey16, Empty, Probed, OneLeaf;
      log := SearchKey(k, PartKey16(q), q, b, {}, Log([], []));
      HomeProbed(PartKey16(q), probeOrder[PartKey16(q)]);
    }

    method SearchNext(k: Kernel, q: Row, i: nat, b: Best5, ghost log: Log) returns (ghost log': Log)
      requires Valid() && i < |probeOrder[PartKey16(q)]| && b.Valid() && RunAt(k, q, i, b.Slots(), b.worst, log)
      requires OneLeaf() ==> log.skipped == []
      modifies b, b.dist, b.gidx
      ensures Valid() && b.Valid() && RunAt(k, q, i + 1, b.Slots(), b.worst, log')
      ensures OneLeaf() ==> log'.skipped == []
    {
      hide SlotsHold, IsProbeOrder, PartKey16, Empty, Probed, OneLeaf;
      var order := probeOrder[PartKey16(q)];
      ProbedOnce(PartKey16(q), order, i);
      log' := SearchKey(k, order[i], q, b, Probed(PartKey16(q), order, i), log);
    }

    /** The search shared by count and Neighbors5: the home partition, then the others in
        probe order, stopping early when asked to. With any vectors and either kernel the slots
        end as the five least of what was measured; where the kernel measures right, as the
        five least of exactly the partitions up to the stop. */
    method Probe(k: Kernel, q: Row, stop: bool) returns (b: Best5, ghost reached: nat, ghost log: Log)
      requires Valid()
      ensures fresh(b) && fresh(b.dist) && fresh(b.gidx) && b.Valid()
      ensures reached <= |probeOrder[PartKey16(q)]| && Ran(k, q, stop, reached, b.Slots(), b.worst, log)
      ensures Agrees(k, q, rows) ==> EndsAt(q, stop, reached) && BestAt(q, reached, b.Slots(), b.worst)
    {
      hide BestAt, RunAt, PassedTo, MustStop, PartKey16, IsProbeOrder, Agrees, OneLeaf;
      b := new Best5.Init();
      var key := PartKey16(q);
      log := SearchHome(k, q, b);
      var order := probeOrder[key];
      NonePassed(q);
      var i := 0;
      while i < |order|
        invariant 0 <= i <= |order| && Valid()
        invariant b.Valid() && RunAt(k, q, i, b.Slots(), b.worst, log) && (OneLeaf() ==> log.skipped == [])
        invariant Agrees(k, q, rows) && stop ==> PassedTo(q, i)
      {
        if Agrees(k, q, rows) {
          RunIsBest(k, q, i, b.Slots(), b.worst, log);
          GapDecides(q, i, b.Slots(), b.worst);
        }
        if stop && GapBits(key, order[i]) > b.Bound() {
          return b, i, log;
        }
        log := SearchNext(k, q, i, b, log);
        i := i + 1;
      }
      reached := i;
      if Agrees(k, q, rows) {
        RunIsBest(k, q, i, b.Slots(), b.worst, log);
      }
    }

    lemma NonePassed(q: Row)
      requires Valid()
      ensures PassedTo(q, 0)
    {
    }

    /** On the domain, and without the stop rule on all vectors, the sweep misses nothing. */
    lemma NothingMissed(q: Row, stop: bool, i: nat, slots: seq<Cand>, w: nat)
      requires Valid() && (stop ==> InDomain(q) && AllSafe())
      requires i <= |probeOrder[PartKey16(q)]| && EndsAt(q, stop, i) && BestAt(q, i, slots, w)
      ensures IsBest(multiset(slots), multiset(Empty(FAR, NEIGHBORS)) + multiset(CandsOf(q, AllItems(rows))))
    {
      hide CandsIn, CandsOf, IsBest, Empty, Probed;
      if i < |probeOrder[PartKey16(q)]| {
        StopFinishes(q, i, slots, w, multiset(Empty(FAR, NEIGHBORS)));
      } else {
        AllProbed(q, probeOrder[PartKey16(q)]);
      }
    }

    /** Stopping at position i of the probe order gives what a full sweep would. */
    lemma StopFinishes(q: Row, i: nat, slots: seq<Cand>, w: nat, s: multiset<Cand>)
      requires Valid() && InDomain(q) && AllSafe()
      requires i < |probeOrder[PartKey16(q)]|
      requires IsGreatest(slots, w)
      requires IsBest(multiset(slots), s + CandsIn(q, rows, |rows|, Probed(PartKey16(q), probeOrder[PartKey16(q)], i)))
      requires GapBits(PartKey16(q), probeOrder[PartKey16(q)][i]) > slots[w].d
      ensures IsBest(multiset(slots), s + multiset(CandsOf(q, AllItems(rows))))
    {
      var order := probeOrder[PartKey16(q)];
      var ks := Probed(PartKey16(q), order, i);
      StopIsSound(q, rows, order, i, slots, w, s + CandsIn(q, rows, |rows|, ks));
      UnprobedJoin(q, order, i);
      assert s + CandsIn(q, rows, |rows|, ks) + CandsIn(q, rows, |rows|, KeysOf(order[i..]))
          == s + multiset(CandsOf(q, AllItems(rows)));
    }

    lemma NothingHolds(k: Kernel, q: Row, slots: seq<Cand>, w: nat)
      requires slots == Empty(FAR, NEIGHBORS) && IsGreatest(slots, w)
      ensures SlotsHold(k, q, slots, w, multiset(slots), Log([], []))
      ensures Log([], []).All() == multiset(ItemsIn(rows, |rows|, {}))
    {
      ItemsInNone(rows, |rows|, {});
      assert multiset(slots) + multiset(CandsBy(k, q, [])) == multiset(slots);
      assert |multiset(slots)| == NEIGHBORS;
    }

    lemma HomeProbed(home: nat, order: seq<nat>)
      ensures Probed(home, order, 0) == {} + {home}
    {
    }

    lemma ProbedOnce(home: nat, order: seq<nat>, i: nat)
      requires IsProbeOrder(home, order) && i < |order|
      ensures order[i] < NUM_BUCKETS && order[i] !in Probed(home, order, i)
      ensures Probed(home, order, i + 1) == Probed(home, order, i) + {order[i]}
    {
      assert order[i] in order;
      assert order[..i + 1] == order[..i] + [order[i]];
    }

    lemma AllProbed(q: Row, order: seq<nat>)
      requires IsProbeOrder(PartKey16(q), order)
      ensures CandsIn(q, rows, |rows|, Probed(PartKey16(q), order, |order|)) == multiset(CandsOf(q, AllItems(rows)))
      ensures ItemsIn(rows, |rows|, Probed(PartKey16(q), order, |order|)) == AllItems(rows)
    {
      assert order[..|order|] == order;
      var ks := Probed(PartKey16(q), order, |order|);
      forall k: nat | k < NUM_BUCKETS
        ensures k in ks
      {
        assert k == PartKey16(q) || k in order;
      }
      CandsInAll(q, rows, ks);
    }

    lemma UnprobedJoin(q: Row, order: seq<nat>, i: nat)
      requires IsProbeOrder(PartKey16(q), order) && i <= |order|
      ensures CandsIn(q, rows, |rows|, Probed(PartKey16(q), order, i)) + CandsIn(q, rows, |rows|, KeysOf(order[i..])) ==
              multiset(CandsOf(q, AllItems(rows)))
    {
      hide CandsIn, GapBits;
      RestDisjoint(PartKey16(q), order, i);
      DisjointJoin(q, rows, |rows|, Probed(PartKey16(q), order, i), KeysOf(order[i..]));
      AllProbed(q, order);
    }

    lemma RestDisjoint(home: nat, order: seq<nat>, i: nat)
      requires IsProbeOrder(home, order) && i <= |order|
      ensures Probed(home, order, i) !! KeysOf(order[i..])
      ensures Probed(home, order, i) + KeysOf(order[i..]) == Probed(home, order, |order|)
    {
      var before, after := order[..i], order[i..];
      forall k | k in KeysOf(after)
        ensures k !in Probed(home, order, i)
      {
        var j :| 0 <= j < |after| && after[j] == k;
        assert order[i + j] == k && k in order;
      }
      assert order == before + after && order[..|order|] == order;
    }

    /** Five slots that are the best of everything carry the reference answer. */
    lemma ProbeIsNearest(q: Row, slots: seq<Cand>)
      requires |slots| == NEIGHBORS
      requires IsBest(multiset(slots), multiset(Empty(FAR, NEIGHBORS)) + multiset(CandsOf(q, AllItems(rows))))
      ensures multiset(Ids(slots)) == multiset(NearestIds(CandsOf(q, AllItems(rows))))
    {
      var cands := CandsOf(q, AllItems(rows));
      forall c | c in cands
        ensures c.d < FAR
      {
        var i :| 0 <= i < |cands| && cands[i] == c;
        DistanceBound(q, rows[i]);
      }
      BestIsNearest(slots, FAR, cands);
    }

    /** ids, in some order, are the indices in the slots at the end of the sweep. */
    ghost predicate Swept(q: Row, stop: bool, ids: seq<int>)
      requires Valid()
      reads parts
    {
      exists i: nat, slots: seq<Cand>, w: nat ::
        i <= |probeOrder[PartKey16(q)]| && EndsAt(q, stop, i) && BestAt(q, i, slots, w)
        && multiset(Ids(slots)) == multiset(ids)
    }

    /** ids, in some order, are the indices that a run ends with. */
    ghost predicate Found(k: Kernel, q: Row, stop: bool, ids: seq<int>)
      requires Valid()
      reads parts
    {
      exists i: nat, slots: seq<Cand>, w: nat, log: Log ::
        Ran(k, q, stop, i, slots, w, log) && multiset(Ids(slots)) == multiset(ids)
    }

    /** The indices found, whatever order they are in: by the kernel's distance where the rows
        make up one leaf, and countable exactly from five references on. */
    lemma FoundMeans(k: Kernel, q: Row, stop: bool, ids: seq<int>)
      requires Valid() && Found(k, q, stop, ids)
      ensures OneLeaf() ==> multiset(ids) == multiset(NearestIds(CandsBy(k, q, AllItems(rows))))
      ensures FraudCount(ids, fraud).Some? <==> |rows| >= NEIGHBORS
    {
      hide Ran, CandsBy, NearestIds, OneLeaf, FraudCount;
      var i: nat, slots: seq<Cand>, w: nat, log: Log :|
        Ran(k, q, stop, i, slots, w, log) && multiset(Ids(slots)) == multiset(ids);
      if OneLeaf() {
        LeafIsMeasured(k, q, stop, i, slots, w, log);
      }
      RunCounts(k, q, stop, i, slots, w, log);
      FraudCountSame(Ids(slots), ids, fraud);
    }

    lemma FiveFound(k: Kernel, q: Row, stop: bool, ids: seq<int>)
      requires Valid() && Found(k, q, stop, ids)
      ensures |ids| == NEIGHBORS
    {
      var i: nat, slots: seq<Cand>, w: nat, log: Log :|
        Ran(k, q, stop, i, slots, w, log) && multiset(Ids(slots)) == multiset(ids);
      assert |multiset(slots)| == |slots|;
      SameMembers(Ids(slots), ids);
    }

    lemma SweptIsNearest(q: Row, stop: bool, ids: seq<int>)
      requires Valid() && (stop ==> InDomain(q) && AllSafe()) && Swept(q, stop, ids)
      ensures multiset(ids) == multiset(NearestIds(CandsOf(q, AllItems(rows))))
    {
      hide EndsAt, CandsOf, NearestIds;
      var i: nat, slots: seq<Cand>, w: nat :|
        i <= |probeOrder[PartKey16(q)]| && EndsAt(q, stop, i) && BestAt(q, i, slots, w)
        && multiset(Ids(slots)) == multiset(ids);
      FiveSlots(q, i, slots, w);
      NothingMissed(q, stop, i, slots, w);
      ProbeIsNearest(q, slots);
    }

    lemma FiveSlots(q: Row, i: nat, slots: seq<Cand>, w: nat)
      requires Valid() && i <= |probeOrder[PartKey16(q)]| && BestAt(q, i, slots, w)
      ensures |slots| == NEIGHBORS
    {
      hide CandsIn, Probed;
      assert |multiset(slots)| == |slots|;
    }

    /** The frauds among the slots at the end of the run. Where the kernel measures right, these
        are the slots at the end of the sweep, and on the domain, and without the stop rule on
        all vectors, the five nearest. */
    method Count(k: Kernel, q: Row, stop: bool) returns (cnt: Option<nat>, ghost ids: seq<int>)
      requires Valid()
      ensures Found(k, q, stop, ids) && cnt == FraudCount(ids, fraud)
      ensures cnt.Some? <==> |rows| >= NEIGHBORS
      ensures Agrees(k, q, rows) ==> Swept(q, stop, ids)
      ensures Agrees(k, q, rows) && (stop ==> InDomain(q) && AllSafe()) ==>
        cnt == FraudCount(NearestIds(CandsOf(q, AllItems(rows))), fraud)
    {
      hide EndsAt, BestAt, Ran, FraudCount, NearestIds, Agrees;
      ghost var reached, log;
      var b;
      b, reached, log := Probe(k, q, stop);
      ids := b.gidx[..];
      assert Ids(b.Slots()) == ids;
      FoundMeans(k, q, stop, ids);
      if Agrees(k, q, rows) && (stop ==> InDomain(q) && AllSafe()) {
        SweptIsNearest(q, stop, ids);
        FraudCountSame(ids, NearestIds(CandsOf(q, AllItems(rows))), fraud);
      }
      cnt := CountFraud(b.gidx[..], fraud);
    }

    method FraudCount5(k: Kernel, q: Row) returns (cnt: Option<nat>, ghost ids: seq<int>)
      requires Valid()
      ensures Found(k, q, true, ids) && cnt == FraudCount(ids, fraud)
      ensures cnt.Some? <==> |rows| >= NEIGHBORS
      ensures Agrees(k, q, rows) ==> Swept(q, true, ids)
      ensures Agrees(k, q, rows) && InDomain(q) && AllSafe() ==>
        cnt == FraudCount(NearestIds(CandsOf(q, AllItems(rows))), fraud)
    {
      cnt, ids := Count(k, q, true);
    }

    /** Without the stop rule nothing is assumed of the vectors but that the kernel measures
        them right. */
    method FraudCount5All(k: Kernel, q: Row) returns (cnt: Option<nat>)
      requires Valid()
      ensures Agrees(k, q, rows) ==> cnt == FraudCount(NearestIds(CandsOf(q, AllItems(rows))), fraud)
      ensures cnt.Some? <==> |rows| >= NEIGHBORS
    {
      ghost var ids;
      cnt, ids := Count(k, q, false);
    }

    method Neighbors5(k: Kernel, q: Row) returns (g: seq<int>)
      requires Valid()
      ensures Ascending(g) && Found(k, q, true, g)
      ensures Agrees(k, q, rows) ==> Swept(q, true, g)
      ensures Agrees(k, q, rows) && InDomain(q) && AllSafe() ==> IsNeighbors5(g, q, rows)
    {
      hide EndsAt, BestAt, Ran, NearestIds, Agrees;
      ghost var reached, log;
      var b;
      b, reached, log := Probe(k, q, true);
      assert Ids(b.Slots()) == b.gidx[..];
      g := SortBy((x: int) => x, b.gidx[..]);
      if Agrees(k, q, rows) && InDomain(q) && AllSafe() {
        SweptIsNearest(q, true, g);
      }
    }
  }

  lemma {:induction false} DisjointJoin(q: Row, rows: seq<Row>, n: nat, a: set<nat>, b: set<nat>)
    requires n <= |rows| && a !! b
    ensures CandsIn(q, rows, n, a + b) == CandsIn(q, rows, n, a) + CandsIn(q, rows, n, b)
  {
    if n > 0 {
      DisjointJoin(q, rows, n - 1, a, b);
    }
  }

  // ---- Building --------------------------------------------------------------------

  ghost predicate DistinctParts(parts: seq<Part>) {
    |parts| == NUM_BUCKETS && forall i, j :: 0 <= i < j < NUM_BUCKETS ==> parts[i] != parts[j]
  }

  method EmptyParts() returns (parts: seq<Part>)
    ensures DistinctParts(parts) && fresh(parts)
    ensures forall k :: 0 <= k < NUM_BUCKETS ==>
      parts[k].nodes == [] && parts[k].boxes == [] && parts[k].vec == [] && parts[k].gidx == [] && parts[k].count == 0
  {
    parts := [];
    for i := 0 to NUM_BUCKETS
      invariant |parts| == i && fresh(parts)
      invariant forall j, k :: 0 <= j < k < i ==> parts[j] != parts[k]
      invariant forall k :: 0 <= k < i ==>
        parts[k].nodes == [] && parts[k].boxes == [] && parts[k].vec == [] && parts[k].gidx == [] && parts[k].count == 0
    {
      var p := new Part();
      assert p !in parts;
      parts := parts + [p];
    }
  }

  /** Partition p after the first n rows were handed out. */
  ghost predicate Holds(p: Part, rows: seq<Row>, n: nat, k: nat)
    requires n <= |rows|
    reads p
  {
    p.nodes == [] && p.boxes == [] && p.Filled() && p.Items() == ItemsIn(rows, n, {k})
  }

  /** Appends row i to its partition. */
  method HandOut(p: Part, rows: seq<Row>, i: nat, key: nat)
    requires i < |rows| && key == PartKey16(rows[i]) && Holds(p, rows, i, key)
    modifies p
    ensures Holds(p, rows, i + 1, key)
  {
    ghost var before := p.Items();
    p.vec := p.vec + [rows[i]];
    p.gidx := p.gidx + [i];
    p.count := p.count + 1;
    assert p.Items() == before + [Item(rows[i], i)];
  }

  method Distribute(r: Refs, parts: seq<Part>)
    requires r.Valid() && DistinctParts(parts)
    requires forall k: nat :: k < NUM_BUCKETS ==> Holds(parts[k], r.vec, 0, k)
    modifies parts
    ensures forall k: nat :: k < NUM_BUCKETS ==> Holds(parts[k], r.vec, r.n, k)
  {
    for i := 0 to r.n
      invariant forall k: nat :: k < NUM_BUCKETS ==> Holds(parts[k], r.vec, i, k)
    {
      var key := PartKey16(r.vec[i]);
      assert Holds(parts[key], r.vec, i, key);
      HandOut(parts[key], r.vec, i, key);
      forall k: nat | k < NUM_BUCKETS
        ensures Holds(parts[k], r.vec, i + 1, k)
      {
        if k != key {
          assert parts[k] != parts[key];
        }
      }
    }
  }

  /** Partitions below k are built, the others still hold their unordered rows. */
  ghost predicate BuiltUpTo(parts: seq<Part>, r: Refs, k: nat)
    requires r.Valid() && |parts| == NUM_BUCKETS && k <= NUM_BUCKETS
    reads parts
  {
    && (forall j: nat :: j < k ==> parts[j].Built())
    && (forall j: nat :: j < k ==> multiset(parts[j].Items()) == multiset(ItemsIn(r.vec, r.n, {j})))
    && (forall j: nat :: k <= j < NUM_BUCKETS ==> Holds(parts[j], r.vec, r.n, j))
  }

  method BuildOne(parts: seq<Part>, r: Refs, k: nat) returns (order: seq<nat>)
    requires r.Valid() && DistinctParts(parts) && k < NUM_BUCKETS && BuiltUpTo(parts, r, k)
    modifies parts[k]
    ensures BuiltUpTo(parts, r, k + 1)
    ensures IsProbeOrder(k, order)
  {
    assert Holds(parts[k], r.vec, r.n, k);
    if parts[k].count > 0 {
      parts[k].BuildPart();
    }
    assert forall j: nat :: j < NUM_BUCKETS && j != k ==> parts[j] != parts[k];
    order := ProbeOrderFor(k);
  }

  ghost predicate ProbeOrders(orders: seq<seq<nat>>) {
    forall k: nat :: k < |orders| ==> IsProbeOrder(k, orders[k])
  }

  method BuildKD(r: Refs) returns (kd: KD)
    requires r.Valid() && r.n < 0x8000_0000
    ensures fresh(kd) && fresh(kd.parts) && kd.Valid()
    ensures kd.rows == r.vec && kd.fraud == r.fraud
  {
    var parts := EmptyParts();
    Distribute(r, parts);
    hide IsProbeOrder, ItemsIn, Holds, Part.Built;
    var orders: seq<seq<nat>> := [];
    for k := 0 to NUM_BUCKETS
      invariant |orders| == k && ProbeOrders(orders)
      invariant BuiltUpTo(parts, r, k)
    {
      var order := BuildOne(parts, r, k);
      orders := orders + [order];
    }
    kd := new KD(parts, r.fraud, orders, r.vec);
  }

  /** The differential check of the repository's exactness tests, for either kernel, every
      reference set that it measures right and every query of the domain: the index and the
      brute-force loop give the same five indices, and the same fraud count with and without
      the stop rule. */
  method CompareWithBrute(k: Kernel, r: Refs, q: Row)
    returns (got: seq<int>, want: seq<int>, cnt: Option<nat>, cntAll: Option<nat>, cntBrute: Option<nat>)
    requires r.Valid() && r.n < 0x8000_0000 && Agrees(k, q, r.vec)
    requires InDomain(q) && forall i :: 0 <= i < |r.vec| ==> GapSafe(r.vec[i])
    ensures got == want && IsNeighbors5(got, q, r.vec)
    ensures cnt == cntAll == cntBrute && (cnt.Some? <==> r.n >= NEIGHBORS)
  {
    hide Agrees, GapSafe, InDomain, KD.Swept, KD.Found;
    var kd := BuildKD(r);
    got := kd.Neighbors5(k, q);
    want := r.Neighbors5(q);
    Neighbors5Unique(got, want, q, r.vec);
    ghost var ids;
    cnt, ids := kd.FraudCount5(k, q);
    cntAll := kd.FraudCount5All(k, q);
    cntBrute := r.FraudCount5(q);
  }
}
