/** What an exact five-nearest-neighbour search must return: candidates ordered by
    (distance, global index), the five least of a multiset, and the answer as a plain
    "sort everything, take five" reference. */
module Nearest {
  import opened Numbers
  import opened Distance
  import opened Sequences

  const NEIGHBORS: nat := 5
  /** Index held by a slot that no row has filled yet (1 << 30). */
  const EMPTY_ID: int := 0x4000_0000

  datatype Cand = Cand(d: int, g: int)

  predicate Less(a: Cand, b: Cand) {
    a.d < b.d || (a.d == b.d && a.g < b.g)
  }

  predicate Leq(a: Cand, b: Cand) {
    !Less(b, a)
  }

  /** Slots or rows as candidates, pairing distances with indices. */
  function Zip(ds: seq<int>, gs: seq<int>): (r: seq<Cand>)
    requires |ds| == |gs|
    ensures |r| == |ds| && forall i :: 0 <= i < |r| ==> r[i] == Cand(ds[i], gs[i])
  {
    seq(|ds|, i requires 0 <= i < |ds| => Cand(ds[i], gs[i]))
  }

  function Ids(s: seq<Cand>): (r: seq<int>)
    ensures |r| == |s| && forall i :: 0 <= i < |s| ==> r[i] == s[i].g
  {
    seq(|s|, i requires 0 <= i < |s| => s[i].g)
  }

  /** n copies of the empty slot, at a distance d above every real one. */
  function Empty(d: int, n: nat): (r: seq<Cand>)
    ensures |r| == n && forall i :: 0 <= i < n ==> r[i] == Cand(d, EMPTY_ID)
  {
    seq(n, _ => Cand(d, EMPTY_ID))
  }

  /** b holds the five least elements of s. */
  ghost predicate IsBest(b: multiset<Cand>, s: multiset<Cand>) {
    && |b| == NEIGHBORS
    && b <= s
    && forall x, y :: x in b && y in s - b ==> Leq(x, y)
  }

  // ---- The five least are unique, and how they change --------------------

  lemma SubsetSameSize<T>(a: multiset<T>, b: multiset<T>)
    requires |a| == |b| && a <= b
    ensures a == b
  {
    assert b == a + (b - a);
  }

  lemma SameSize<T>(a: multiset<T>, b: multiset<T>)
    requires |a| == |b| && a != b
    ensures exists x :: a[x] > b[x]
  {
    if a <= b {
      SubsetSameSize(a, b);
    }
  }

  lemma BestLe(b: multiset<Cand>, s: multiset<Cand>, x: Cand, y: Cand)
    requires IsBest(b, s)
    requires b[x] > 0 && s[y] > b[y]
    ensures Leq(x, y)
  {
    assert x in b && y in s - b;
  }

  lemma BestUnique(b: multiset<Cand>, c: multiset<Cand>, s: multiset<Cand>)
    requires IsBest(b, s) && IsBest(c, s)
    ensures b == c
  {
    if b != c {
      SameSize(b, c);
      SameSize(c, b);
      var x :| b[x] > c[x];
      var y :| c[y] > b[y];
      BestLe(b, s, x, y);
      BestLe(c, s, y, x);
      assert false;
    }
  }

  /** Pruning: elements no smaller than all five leave the five unchanged. */
  lemma BestPrune(b: multiset<Cand>, s: multiset<Cand>, t: multiset<Cand>)
    requires IsBest(b, s)
    requires forall x, y :: x in b && y in t ==> Leq(x, y)
    ensures IsBest(b, s + t)
  {
    forall x, y | x in b && y in s + t - b
      ensures Leq(x, y)
    {
      assert y in s - b || y in t;
    }
  }

  /** Replacing the greatest of the five by a smaller newcomer. */
  lemma BestReplace(b: multiset<Cand>, s: multiset<Cand>, w: Cand, c: Cand)
    requires IsBest(b, s) && w in b && Less(c, w)
    requires forall x :: x in b ==> Leq(x, w)
    ensures IsBest(b - multiset{w} + multiset{c}, s + multiset{c})
  {
    var b', s' := b - multiset{w} + multiset{c}, s + multiset{c};
    assert s' - b' == s - b + multiset{w};
    forall x, y | x in b' && y in s' - b'
      ensures Leq(x, y)
    {
      assert y in s - b || y == w;
      assert x in b || x == c;
    }
  }

  // ---- The reference: sort all candidates and take five ------------------

  ghost predicate Sorted(s: seq<Cand>) {
    forall i, j :: 0 <= i < j < |s| ==> Leq(s[i], s[j])
  }

  function Insert(c: Cand, s: seq<Cand>): (r: seq<Cand>)
    ensures multiset(r) == multiset(s) + multiset{c}
  {
    if s == [] || Leq(c, s[0]) then
      [c] + s
    else
      HeadMultiset(s);
      [s[0]] + Insert(c, s[1..])
  }

  function SortCands(s: seq<Cand>): (r: seq<Cand>)
    ensures multiset(r) == multiset(s)
  {
    if s == [] then
      []
    else
      HeadMultiset(s);
      Insert(s[0], SortCands(s[1..]))
  }

  lemma SortedCons(c: Cand, s: seq<Cand>)
    requires Sorted(s) && forall x :: x in s ==> Leq(c, x)
    ensures Sorted([c] + s)
  {
  }

  lemma {:induction false} InsertSorted(c: Cand, s: seq<Cand>)
    requires Sorted(s)
    ensures Sorted(Insert(c, s))
  {
    if s == [] {
    } else if Leq(c, s[0]) {
      SortedCons(c, s);
    } else {
      InsertSorted(c, s[1..]);
      var t := Insert(c, s[1..]);
      forall x | x in t
        ensures Leq(s[0], x)
      {
        assert x in multiset(s[1..]) + multiset{c};
        assert x in s[1..] || x == c;
      }
      SortedCons(s[0], t);
    }
  }

  lemma {:induction false} SortCandsSorted(s: seq<Cand>)
    ensures Sorted(SortCands(s))
  {
    if s != [] {
      SortCandsSorted(s[1..]);
      InsertSorted(s[0], SortCands(s[1..]));
    }
  }

  /** Indices of the first five candidates in sorted order; with fewer than five
      candidates the remaining places hold the empty index. */
  function NearestIds(cands: seq<Cand>): (r: seq<int>)
    ensures |r| == NEIGHBORS
  {
    var s := SortCands(cands) + Empty(0, NEIGHBORS);
    Ids(s[..NEIGHBORS])
  }

  lemma {:induction false} IdsOfSame(s: seq<Cand>, t: seq<Cand>)
    requires multiset(s) == multiset(t)
    ensures multiset(Ids(s)) == multiset(Ids(t))
  {
    if s == [] {
      assert |multiset(t)| == 0;
    } else {
      var k := MatchHead(s, t);
      var t' := Remove(t, k);
      IdsOfSame(s[1..], t');
      RemoveMultiset(Ids(t), k);
      assert Ids(s) == [s[0].g] + Ids(s[1..]);
      assert Ids(t') == Remove(Ids(t), k);
    }
  }

  lemma SortedPrefixIsBest(t: seq<Cand>)
    requires Sorted(t) && |t| >= NEIGHBORS
    ensures IsBest(multiset(t[..NEIGHBORS]), multiset(t))
  {
    assert t == t[..NEIGHBORS] + t[NEIGHBORS..];
    var b, r := multiset(t[..NEIGHBORS]), multiset(t[NEIGHBORS..]);
    assert multiset(t) - b == r;
    forall x, y | x in b && y in r
      ensures Leq(x, y)
    {
      assert x in t[..NEIGHBORS] && y in t[NEIGHBORS..];
    }
  }

  /** Five slots that hold the five least of the candidates and the initial empty
      slots carry exactly the reference's indices. */
  lemma BestIsNearest(slots: seq<Cand>, far: int, cands: seq<Cand>)
    requires |slots| == NEIGHBORS
    requires forall c :: c in cands ==> c.d < far
    requires IsBest(multiset(slots), multiset(Empty(far, NEIGHBORS)) + multiset(cands))
    ensures multiset(Ids(slots)) == multiset(NearestIds(cands))
  {
    hide IsBest, Sorted, SortCands, NearestIds, Ids, Empty;
    var t := SortCands(cands) + Empty(far, NEIGHBORS);
    SortedThenEmpty(far, cands);
    SortedPrefixIsBest(t);
    BestUnique(multiset(slots), multiset(t[..NEIGHBORS]), multiset(t));
    IdsOfSame(slots, t[..NEIGHBORS]);
  }

  /** Empty slots sort behind all candidates. */
  lemma SortedThenEmpty(far: int, cands: seq<Cand>)
    requires forall c :: c in cands ==> c.d < far
    ensures var t := SortCands(cands) + Empty(far, NEIGHBORS);
            && Sorted(t) && |t| >= NEIGHBORS && Ids(t[..NEIGHBORS]) == NearestIds(cands)
            && multiset(t) == multiset(Empty(far, NEIGHBORS)) + multiset(cands)
  {
    hide SortCands, Ids;
    SameMembers(SortCands(cands), cands);
    SortCandsSorted(cands);
    SortedAppend(SortCands(cands), Empty(far, NEIGHBORS));
    FirstIds(SortCands(cands), far);
  }

  /** The indices of empty slots do not depend on their distance. */
  lemma FirstIds(s: seq<Cand>, far: int)
    ensures Ids((s + Empty(far, NEIGHBORS))[..NEIGHBORS]) == Ids((s + Empty(0, NEIGHBORS))[..NEIGHBORS])
  {
  }

  lemma SortedAppend(s: seq<Cand>, t: seq<Cand>)
    requires Sorted(s) && Sorted(t) && forall a, b :: a in s && b in t ==> Leq(a, b)
    ensures Sorted(s + t)
  {
    hide Leq;
  }

  // ---- Rows as candidates --------------------------------------------------

  ghost predicate Ascending(s: seq<int>) {
    forall i, j :: 0 <= i < j < |s| ==> s[i] <= s[j]
  }

  /** A row together with its global index. */
  datatype Item = Item(v: Row, g: int)

  function CandOf(q: Row, it: Item): Cand {
    Cand(SqDist(q, it.v), it.g)
  }

  function CandsOf(q: Row, items: seq<Item>): (r: seq<Cand>)
    ensures |r| == |items| && forall i :: 0 <= i < |r| ==> r[i] == CandOf(q, items[i])
  {
    seq(|items|, i requires 0 <= i < |items| => CandOf(q, items[i]))
  }

  function ItemsOf(vec: seq<Row>, gidx: seq<int>): (r: seq<Item>)
    requires |vec| == |gidx|
    ensures |r| == |vec| && forall i :: 0 <= i < |r| ==> r[i] == Item(vec[i], gidx[i])
  {
    seq(|vec|, i requires 0 <= i < |vec| => Item(vec[i], gidx[i]))
  }

  /** Every reference row, indexed by its position. */
  function AllItems(rows: seq<Row>): (r: seq<Item>)
    ensures |r| == |rows| && forall i :: 0 <= i < |r| ==> r[i] == Item(rows[i], i)
  {
    seq(|rows|, i requires 0 <= i < |rows| => Item(rows[i], i))
  }

  /** The same at the distance that a build's kernel computes. */
  function CandBy(k: Kernel, q: Row, it: Item): Cand {
    Cand(KernelDist(k, q, it.v), it.g)
  }

  function CandsBy(k: Kernel, q: Row, items: seq<Item>): (r: seq<Cand>)
    ensures |r| == |items| && forall i :: 0 <= i < |r| ==> r[i] == CandBy(k, q, items[i])
  {
    seq(|items|, i requires 0 <= i < |items| => CandBy(k, q, items[i]))
  }

  lemma CandsByExact(k: Kernel, q: Row, items: seq<Item>)
    requires forall i :: 0 <= i < |items| ==> KernelDist(k, q, items[i].v) == SqDist(q, items[i].v)
    ensures CandsBy(k, q, items) == CandsOf(q, items)
  {
    hide KernelDist, SqDist;
  }

  lemma CandsByJoin(k: Kernel, q: Row, s: seq<Item>, t: seq<Item>)
    ensures multiset(CandsBy(k, q, s + t)) == multiset(CandsBy(k, q, s)) + multiset(CandsBy(k, q, t))
  {
    hide KernelDist;
    assert CandsBy(k, q, s + t) == CandsBy(k, q, s) + CandsBy(k, q, t);
  }

  lemma {:induction false} CandsBySame(k: Kernel, q: Row, s: seq<Item>, t: seq<Item>)
    requires multiset(s) == multiset(t)
    ensures multiset(CandsBy(k, q, s)) == multiset(CandsBy(k, q, t))
  {
    hide KernelDist;
    if s == [] {
      assert |multiset(t)| == 0;
    } else {
      var i := MatchHead(s, t);
      var t' := Remove(t, i);
      CandsBySame(k, q, s[1..], t');
      RemoveMultiset(CandsBy(k, q, t), i);
      assert CandsBy(k, q, s) == [CandBy(k, q, s[0])] + CandsBy(k, q, s[1..]);
      assert CandsBy(k, q, t') == Remove(CandsBy(k, q, t), i);
    }
  }

  lemma CandsOfSame(q: Row, s: seq<Item>, t: seq<Item>)
    requires multiset(s) == multiset(t)
    ensures multiset(CandsOf(q, s)) == multiset(CandsOf(q, t))
  {
    CandsBySame(Plain, q, s, t);
    CandsByExact(Plain, q, s);
    CandsByExact(Plain, q, t);
  }

  /** r lists, in ascending order, the indices of the five references nearest to q,
      ties broken towards the lower index. */
  ghost predicate IsNeighbors5(r: seq<int>, q: Row, rows: seq<Row>) {
    Ascending(r) && multiset(r) == multiset(NearestIds(CandsOf(q, AllItems(rows))))
  }

  /** The answer is determined: two searches that meet the specification agree. */
  lemma {:induction false} AscendingUnique(s: seq<int>, t: seq<int>)
    requires Ascending(s) && Ascending(t) && multiset(s) == multiset(t)
    ensures s == t
  {
    SameMembers(s, t);
    if s != [] {
      assert s[0] in t && t[0] in s;
      SameTails(s, t);
      AscendingUnique(s[1..], t[1..]);
      assert s == [s[0]] + s[1..] && t == [t[0]] + t[1..];
    }
  }

  lemma SameTails(s: seq<int>, t: seq<int>)
    requires s != [] && t != [] && s[0] == t[0] && multiset(s) == multiset(t)
    ensures multiset(s[1..]) == multiset(t[1..])
  {
    HeadMultiset(s);
    HeadMultiset(t);
    assert multiset(s[1..]) == multiset(s) - multiset{s[0]};
    assert multiset(t[1..]) == multiset(t) - multiset{t[0]};
  }

  lemma Neighbors5Unique(r: seq<int>, r': seq<int>, q: Row, rows: seq<Row>)
    requires IsNeighbors5(r, q, rows) && IsNeighbors5(r', q, rows)
    ensures r == r'
  {
    AscendingUnique(r, r');
  }

  // ---- Counting fraud labels ----------------------------------------------

  /** How many of the ids are labelled fraud; None when some id has no label, which
      is where the Go code would panic. */
  function FraudCount(ids: seq<int>, fraud: seq<bool>): (r: Option<nat>)
  {
    if ids == [] then
      Some(0)
    else
      var rest := FraudCount(ids[..|ids| - 1], fraud);
      var g := ids[|ids| - 1];
      if rest.None? || !(0 <= g < |fraud|) then None
      else Some(rest.value + if fraud[g] then 1 else 0)
  }

  lemma {:induction false} FraudCountAppend(s: seq<int>, t: seq<int>, fraud: seq<bool>)
    ensures FraudCount(s + t, fraud) ==
            var a, b := FraudCount(s, fraud), FraudCount(t, fraud);
            if a.None? || b.None? then None else Some(a.value + b.value)
  {
    if t == [] {
      assert s + t == s;
    } else {
      FraudCountAppend(s, t[..|t| - 1], fraud);
      assert (s + t)[..|s + t| - 1] == s + t[..|t| - 1];
    }
  }

  lemma {:induction false} FraudCountSame(s: seq<int>, t: seq<int>, fraud: seq<bool>)
    requires multiset(s) == multiset(t)
    ensures FraudCount(s, fraud) == FraudCount(t, fraud)
  {
    if s == [] {
      assert |multiset(t)| == 0;
    } else {
      var k := MatchHead(s, t);
      assert t == t[..k] + [t[k]] + t[k + 1..];
      assert s == [s[0]] + s[1..];
      FraudCountSame(s[1..], Remove(t, k), fraud);
      FraudCountAppend([s[0]], s[1..], fraud);
      FraudCountAppend(t[..k], t[k + 1..], fraud);
      FraudCountAppend(t[..k], [t[k]], fraud);
      FraudCountAppend(t[..k] + [t[k]], t[k + 1..], fraud);
    }
  }

  lemma {:induction false} FraudCountDefined(ids: seq<int>, fraud: seq<bool>)
    ensures FraudCount(ids, fraud).Some? <==> forall g :: g in ids ==> 0 <= g < |fraud|
    ensures FraudCount(ids, fraud).Some? ==> FraudCount(ids, fraud).value <= |ids|
  {
    if ids != [] {
      var init, last := ids[..|ids| - 1], ids[|ids| - 1];
      FraudCountDefined(init, fraud);
      assert last in ids;
      assert forall g :: g in ids ==> g in init || g == last;
      assert forall g :: g in init ==> g in ids;
      assert FraudCount(ids, fraud).Some? <==> FraudCount(init, fraud).Some? && 0 <= last < |fraud|;
    }
  }

  /** The label lookup stays in range exactly when there are at least five references,
      whichever kernel measured them. */
  lemma CountableIffFive(k: Kernel, q: Row, rows: seq<Row>, fraud: seq<bool>)
    requires |fraud| == |rows| < 0x8000_0000
    ensures FraudCount(NearestIds(CandsBy(k, q, AllItems(rows))), fraud).Some? <==> |rows| >= NEIGHBORS
  {
    hide KernelDist;
    var cands := CandsBy(k, q, AllItems(rows));
    var sorted := SortCands(cands);
    assert |sorted| == |multiset(sorted)| == |cands|;
    forall c | c in sorted
      ensures 0 <= c.g < |rows|
    {
      assert c in multiset(cands);
    }
    var ids := NearestIds(cands);
    FraudCountDefined(ids, fraud);
    var t := sorted + Empty(0, NEIGHBORS);
    if |rows| < NEIGHBORS {
      assert ids[4] == t[4].g == EMPTY_ID;
      assert ids[4] in ids;
    } else {
      forall i | 0 <= i < NEIGHBORS
        ensures 0 <= ids[i] < |fraud|
      {
        assert ids[i] == t[i].g && t[i] == sorted[i] && sorted[i] in sorted;
      }
    }
  }
}
