/** The five nearest without sorting: a reference is among them exactly when fewer than five
    others are nearer, or as near with a lower index. */
module Ranks {
  import opened Distance
  import opened Nearest
  import opened Sequences

  /** How many of the first n rows come before row g. */
  function Before(q: Row, rows: seq<Row>, g: nat, n: nat): nat
    requires g < |rows| && n <= |rows|
  {
    if n == 0 then 0
    else
      var d, e := SqDist(q, rows[n - 1]), SqDist(q, rows[g]);
      Before(q, rows, g, n - 1) + if d < e || (d == e && n - 1 < g) then 1 else 0
  }

  function CountLess(s: seq<Cand>, c: Cand): nat {
    if s == [] then 0 else CountLess(s[1..], c) + if Less(s[0], c) then 1 else 0
  }

  lemma {:induction false} CountRemove(s: seq<Cand>, k: nat, c: Cand)
    requires k < |s|
    ensures CountLess(s, c) == CountLess(Remove(s, k), c) + if Less(s[k], c) then 1 else 0
  {
    if k == 0 {
      assert Remove(s, 0) == s[1..];
    } else {
      CountRemove(s[1..], k - 1, c);
      assert Remove(s, k)[1..] == Remove(s[1..], k - 1);
    }
  }

  lemma {:induction false} CountSame(s: seq<Cand>, t: seq<Cand>, c: Cand)
    requires multiset(s) == multiset(t)
    ensures CountLess(s, c) == CountLess(t, c)
  {
    if s == [] {
      assert |multiset(t)| == 0;
    } else {
      var k := MatchHead(s, t);
      CountSame(s[1..], Remove(t, k), c);
      CountRemove(t, k, c);
    }
  }

  /** In sorted order without repetition the count is the position. */
  lemma {:induction false} CountIsPosition(t: seq<Cand>, i: nat)
    requires Sorted(t) && Distinct(t) && i < |t|
    ensures CountLess(t, t[i]) == i
  {
    if i == 0 {
      NoneLess(t[1..], t[0]);
    } else {
      CountIsPosition(t[1..], i - 1);
      assert t[0] != t[i] && Leq(t[0], t[i]);
    }
  }

  lemma {:induction false} NoneLess(t: seq<Cand>, c: Cand)
    requires forall i :: 0 <= i < |t| ==> Leq(c, t[i])
    ensures CountLess(t, c) == 0
  {
    if t != [] {
      NoneLess(t[1..], c);
    }
  }

  lemma {:induction false} CountAppend(s: seq<Cand>, x: Cand, c: Cand)
    ensures CountLess(s + [x], c) == CountLess(s, c) + if Less(x, c) then 1 else 0
  {
    assert Remove(s + [x], |s|) == s;
    CountRemove(s + [x], |s|, c);
  }

  lemma {:induction false} BeforeIsCount(q: Row, rows: seq<Row>, g: nat, n: nat)
    requires g < |rows| && n <= |rows|
    ensures Before(q, rows, g, n) == CountLess(CandsOf(q, AllItems(rows))[..n], Cand(SqDist(q, rows[g]), g))
  {
    hide SqDist;
    if n > 0 {
      var cands := CandsOf(q, AllItems(rows));
      BeforeIsCount(q, rows, g, n - 1);
      assert cands[..n] == cands[..n - 1] + [cands[n - 1]];
      CountAppend(cands[..n - 1], cands[n - 1], Cand(SqDist(q, rows[g]), g));
    }
  }

  /** Where row g stands among the sorted candidates. */
  lemma RankOf(q: Row, rows: seq<Row>, g: nat)
    requires g < |rows|
    ensures var t, k := SortCands(CandsOf(q, AllItems(rows))), Before(q, rows, g, |rows|);
            k < |t| == |rows| && t[k] == Cand(SqDist(q, rows[g]), g)
            && forall i :: 0 <= i < |t| && i != k ==> t[i].g != g
  {
    hide SqDist;
    var cands := CandsOf(q, AllItems(rows));
    var t, c := SortCands(cands), Cand(SqDist(q, rows[g]), g);
    SortCandsSorted(cands);
    SameMembers(t, cands);
    assert cands[g] in cands;
    DistinctTransfers(cands, t);
    var i :| 0 <= i < |t| && t[i] == c;
    CountIsPosition(t, i);
    CountSame(cands, t, c);
    BeforeIsCount(q, rows, g, |rows|);
    assert cands[..|rows|] == cands;
    OnlyOne(q, rows, t, i);
  }

  /** Its index stands nowhere else. */
  lemma OnlyOne(q: Row, rows: seq<Row>, t: seq<Cand>, i: nat)
    requires multiset(t) == multiset(CandsOf(q, AllItems(rows))) && i < |t|
    requires forall a, b :: 0 <= a < b < |t| ==> t[a] != t[b]
    ensures forall j :: 0 <= j < |t| && j != i ==> t[j].g != t[i].g
  {
    hide SqDist;
    var cands := CandsOf(q, AllItems(rows));
    SameMembers(t, cands);
    assert t[i] in cands;
    forall j | 0 <= j < |t| && j != i
      ensures t[j].g != t[i].g
    {
      assert t[j] in cands;
    }
  }

  /** With at least five references the five nearest are those with fewer than five before them. */
  lemma NearestIff(q: Row, rows: seq<Row>, g: nat)
    requires g < |rows| && |rows| >= NEIGHBORS
    ensures g in NearestIds(CandsOf(q, AllItems(rows))) <==> Before(q, rows, g, |rows|) < NEIGHBORS
  {
    RankOf(q, rows, g);
    hide SqDist, CandsOf, AllItems;
    var cands := CandsOf(q, AllItems(rows));
    var t, ids, k := SortCands(cands), NearestIds(cands), Before(q, rows, g, |rows|);
    assert forall i :: 0 <= i < NEIGHBORS ==> ids[i] == t[i].g;
    if k < NEIGHBORS {
      assert ids[k] == g;
    }
  }
}
