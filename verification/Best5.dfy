/** The unordered five-slot structure of internal/index/kd.go: it keeps the five least
    candidates seen and the position of the greatest of them. */
module BestFive {
  import opened Nearest

  /** Distance of a slot that no row has filled yet (1 << 62). */
  const FAR: int := 0x4000_0000_0000_0000

  ghost predicate IsGreatest(slots: seq<Cand>, w: nat) {
    w < |slots| && forall j :: 0 <= j < |slots| ==> Leq(slots[j], slots[w])
  }

  lemma FirstIsGreatest(slots: seq<Cand>)
    requires |slots| > 0
    ensures IsGreatest(slots[..1], 0)
  {
  }

  /** One turn of the search for the greatest slot. */
  lemma GreatestGrows(slots: seq<Cand>, w: nat, j: nat)
    requires w < j < |slots| && IsGreatest(slots[..j], w)
    ensures IsGreatest(slots[..j + 1], if Less(slots[w], slots[j]) then j else w)
  {
    var w' := if Less(slots[w], slots[j]) then j else w;
    forall i | 0 <= i < j + 1
      ensures Leq(slots[i], slots[w'])
    {
      assert i < j ==> Leq(slots[..j][i], slots[..j][w]);
    }
  }

  /** The five slots after one candidate: it takes the place of the greatest slot w
      when it is smaller. */
  ghost function Considered(b: multiset<Cand>, w: Cand, c: Cand): multiset<Cand> {
    if Less(c, w) then b - multiset{w} + multiset{c} else b
  }

  /** Whatever multiset the slots were the five least of, they are now the five least
      of it with the candidate added. */
  lemma ConsideredIsBest(slots: seq<Cand>, w: nat, s: multiset<Cand>, c: Cand)
    requires IsGreatest(slots, w) && IsBest(multiset(slots), s)
    ensures IsBest(Considered(multiset(slots), slots[w], c), s + multiset{c})
  {
    var b := multiset(slots);
    assert forall x :: x in b ==> x in slots;
    if Less(c, slots[w]) {
      BestReplace(b, s, slots[w], c);
    } else {
      BestPrune(b, s, multiset{c});
    }
  }

  /** Slots that are the five least of s stay so when elements farther than the
      greatest slot are added: the justification of every pruning step. */
  lemma FartherIsPruned(slots: seq<Cand>, w: nat, s: multiset<Cand>, t: multiset<Cand>)
    requires IsGreatest(slots, w) && IsBest(multiset(slots), s)
    requires forall y :: y in t ==> y.d > slots[w].d
    ensures IsBest(multiset(slots), s + t)
  {
    forall x, y | x in multiset(slots) && y in t
      ensures Leq(x, y)
    {
      assert x in slots;
    }
    BestPrune(multiset(slots), s, t);
  }

  class Best5 {
    const dist: array<int>
    const gidx: array<int>
    var worst: nat

    ghost predicate Valid()
      reads this, dist, gidx
    {
      && dist.Length == gidx.Length == NEIGHBORS
      && dist != gidx
      && IsGreatest(Zip(dist[..], gidx[..]), worst)
    }

    ghost function Slots(): (s: seq<Cand>)
      requires Valid()
      reads this, dist, gidx
      ensures |s| == NEIGHBORS
    {
      Zip(dist[..], gidx[..])
    }

    ghost function Contents(): multiset<Cand>
      requires Valid()
      reads this, dist, gidx
    {
      multiset(Slots())
    }

    function Bound(): int
      requires Valid()
      reads this, dist, gidx
    {
      dist[worst]
    }

    constructor Init()
      ensures Valid() && fresh(dist) && fresh(gidx)
      ensures Slots() == Empty(FAR, NEIGHBORS)
    {
      dist := new int[NEIGHBORS](_ => FAR);
      gidx := new int[NEIGHBORS](_ => EMPTY_ID);
      worst := 0;
    }

    /** The search for the greatest slot that follows every replacement. */
    method Rescan()
      requires dist.Length == gidx.Length == NEIGHBORS
      modifies this`worst
      ensures IsGreatest(Zip(dist[..], gidx[..]), worst)
    {
      hide IsGreatest;
      worst := 0;
      ghost var slots := Zip(dist[..], gidx[..]);
      FirstIsGreatest(slots);
      for j := 1 to 5
        invariant worst < j && IsGreatest(slots[..j], worst)
      {
        GreatestGrows(slots, worst, j);
        if dist[j] > dist[worst] || (dist[j] == dist[worst] && gidx[j] > gidx[worst]) {
          worst := j;
        }
      }
      assert slots[..5] == slots;
    }

    method Consider(d: int, g: int)
      requires Valid()
      modifies this, dist, gidx
      ensures Valid()
      ensures Contents() == Considered(old(Contents()), old(Slots()[worst]), Cand(d, g))
      ensures Bound() <= old(Bound())
    {
      var w := worst;
      if d < dist[w] || (d == dist[w] && g < gidx[w]) {
        dist[w] := d;
        gidx[w] := g;
        assert Zip(dist[..], gidx[..]) == old(Slots())[w := Cand(d, g)];
        Rescan();
      }
    }
  }
}
