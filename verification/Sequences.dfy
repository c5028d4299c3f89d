/** Facts about sequences as multisets used by several modules. */
module Sequences {

  function Remove<T>(s: seq<T>, k: nat): seq<T>
    requires k < |s|
  {
    s[..k] + s[k + 1..]
  }

  lemma RemoveMultiset<T>(s: seq<T>, k: nat)
    requires k < |s|
    ensures multiset(s) == multiset{s[k]} + multiset(Remove(s, k))
  {
    assert s == s[..k] + [s[k]] + s[k + 1..];
  }

  lemma HeadMultiset<T>(s: seq<T>)
    requires s != []
    ensures multiset(s) == multiset{s[0]} + multiset(s[1..])
  {
    assert s == [s[0]] + s[1..];
  }

  /** Where the head of s sits in a permutation t of s, and what is left over. */
  lemma MatchHead<T>(s: seq<T>, t: seq<T>) returns (k: nat)
    requires multiset(s) == multiset(t) && s != []
    ensures k < |t| && t[k] == s[0]
    ensures multiset(s[1..]) == multiset(Remove(t, k))
  {
    HeadMultiset(s);
    assert s[0] in multiset(t);
    k :| 0 <= k < |t| && t[k] == s[0];
    RemoveMultiset(t, k);
    assert multiset(s[1..]) == multiset(s) - multiset{s[0]};
    assert multiset(Remove(t, k)) == multiset(t) - multiset{s[0]};
  }

  lemma SameMembers<T>(s: seq<T>, t: seq<T>)
    requires multiset(s) == multiset(t)
    ensures |s| == |t|
    ensures forall x :: x in s <==> x in t
  {
    assert |s| == |multiset(s)| && |t| == |multiset(t)|;
    forall x
      ensures x in s <==> x in t
    {
      assert x in s <==> x in multiset(s);
      assert x in t <==> x in multiset(t);
    }
  }

  lemma SmallerSize<T>(a: multiset<T>, b: multiset<T>)
    requires a <= b
    ensures |a| <= |b|
  {
    assert b == a + (b - a);
  }

  lemma SliceOfSlice<T>(s: seq<T>, a: nat, b: nat, c: nat, d: nat)
    requires a <= b <= |s| && c <= d <= b - a
    ensures s[a..b][c..d] == s[a + c..a + d]
  {
    forall i | 0 <= i < d - c
      ensures s[a..b][c..d][i] == s[a + c..a + d][i]
    {
    }
  }

  lemma SliceJoin<T>(s: seq<T>, lo: nat, m: nat, hi: nat)
    requires lo <= m <= hi <= |s|
    ensures multiset(s[lo..hi]) == multiset(s[lo..m]) + multiset(s[m..hi])
  {
    assert s[lo..hi] == s[lo..m] + s[m..hi];
  }

  lemma SliceGrow<T>(s: seq<T>, lo: nat, i: nat)
    requires lo <= i < |s|
    ensures s[lo..i + 1] == s[lo..i] + [s[i]]
    ensures multiset(s[lo..i + 1]) == multiset(s[lo..i]) + multiset{s[i]}
  {
    assert s[lo..i + 1] == s[lo..i] + [s[i]];
  }

  ghost predicate Distinct<T>(s: seq<T>) {
    forall i, j :: 0 <= i < j < |s| ==> s[i] != s[j]
  }

  lemma {:induction false} DistinctCounts<T>(s: seq<T>, x: T)
    requires Distinct(s)
    ensures multiset(s)[x] <= 1
  {
    if s != [] {
      HeadMultiset(s);
      DistinctCounts(s[1..], x);
      assert s[0] !in s[1..];
    }
  }

  lemma DistinctTransfers<T>(s: seq<T>, t: seq<T>)
    requires multiset(s) == multiset(t) && Distinct(s)
    ensures Distinct(t)
  {
    forall i, j | 0 <= i < j < |t|
      ensures t[i] != t[j]
    {
      RemoveMultiset(t, j);
      DistinctCounts(s, t[j]);
      assert t[i] == Remove(t, j)[i] && t[i] in multiset(Remove(t, j));
    }
  }

  // ---- Rearranging by a permutation -------------------------------------------

  function Pick<T>(s: seq<T>, p: seq<nat>): (r: seq<T>)
    requires forall i :: 0 <= i < |p| ==> p[i] < |s|
    ensures |r| == |p| && forall i :: 0 <= i < |p| ==> r[i] == s[p[i]]
  {
    seq(|p|, i requires 0 <= i < |p| => s[p[i]])
  }

  function Iota(n: nat): (r: seq<nat>)
    ensures |r| == n && forall i :: 0 <= i < n ==> r[i] == i
  {
    seq(n, i => i)
  }

  lemma {:induction false} PickSame<T>(s: seq<T>, p: seq<nat>, p': seq<nat>)
    requires forall i :: 0 <= i < |p| ==> p[i] < |s|
    requires forall i :: 0 <= i < |p'| ==> p'[i] < |s|
    requires multiset(p) == multiset(p')
    ensures multiset(Pick(s, p)) == multiset(Pick(s, p'))
  {
    if p == [] {
      SameMembers(p, p');
    } else {
      var k := MatchHead(p, p');
      var rest := Remove(p', k);
      PickSame(s, p[1..], rest);
      HeadMultiset(Pick(s, p));
      assert Pick(s, p)[1..] == Pick(s, p[1..]);
      RemoveMultiset(Pick(s, p'), k);
      assert Pick(s, rest) == Remove(Pick(s, p'), k);
    }
  }

  lemma PickSlice<T>(s: seq<T>, p: seq<nat>, a: nat, b: nat)
    requires forall i :: 0 <= i < |p| ==> p[i] < |s|
    requires a <= b <= |p|
    ensures Pick(s, p)[a..b] == Pick(s, p[a..b])
  {
  }

  /** Rearranging by a permutation of the positions loses and duplicates nothing. */
  lemma PickPermutation<T>(s: seq<T>, p: seq<nat>)
    requires multiset(p) == multiset(Iota(|s|))
    ensures forall i :: 0 <= i < |p| ==> p[i] < |s|
    ensures |p| == |s| && multiset(Pick(s, p)) == multiset(s)
  {
    SameMembers(p, Iota(|s|));
    forall i | 0 <= i < |p|
      ensures p[i] < |s|
    {
      assert p[i] in Iota(|s|);
    }
    PickSame(s, p, Iota(|s|));
    assert Pick(s, Iota(|s|)) == s;
  }

  // ---- sort.Slice ------------------------------------------------------------

  ghost predicate NondecreasingBy<T>(key: T -> int, s: seq<T>) {
    forall i, j :: 0 <= i < j < |s| ==> key(s[i]) <= key(s[j])
  }

  function InsertAt<T>(r: seq<T>, k: nat, x: T): (t: seq<T>)
    requires k <= |r|
    ensures |t| == |r| + 1
    ensures forall i :: 0 <= i < |t| ==> t[i] == if i < k then r[i] else if i == k then x else r[i - 1]
  {
    r[..k] + [x] + r[k..]
  }

  lemma InsertMultiset<T>(r: seq<T>, k: nat, x: T)
    requires k <= |r|
    ensures multiset(InsertAt(r, k, x)) == multiset(r) + multiset{x}
  {
    assert r == r[..k] + r[k..];
  }

  lemma InsertKeepsOrder<T>(key: T -> int, r: seq<T>, k: nat, x: T)
    requires NondecreasingBy(key, r) && k <= |r|
    requires forall j :: 0 <= j < k ==> key(r[j]) <= key(x)
    requires k < |r| ==> key(x) <= key(r[k])
    ensures NondecreasingBy(key, InsertAt(r, k, x))
  {
    forall i, j | 0 <= i < j < |r| + 1
      ensures key(InsertAt(r, k, x)[i]) <= key(InsertAt(r, k, x)[j])
    {
    }
  }

  method InsertionPoint<T>(key: T -> int, r: seq<T>, x: T) returns (k: nat)
    ensures k <= |r|
    ensures forall j :: 0 <= j < k ==> key(r[j]) <= key(x)
    ensures k < |r| ==> key(x) <= key(r[k])
  {
    k := 0;
    while k < |r| && key(r[k]) <= key(x)
      invariant k <= |r|
      invariant forall j :: 0 <= j < k ==> key(r[j]) <= key(x)
    {
      k := k + 1;
    }
  }

  /** sort.Slice with a key. Callers may rely on a nondecreasing permutation only: the
      order of elements with equal keys is not part of the contract. */
  method SortBy<T>(key: T -> int, s: seq<T>) returns (r: seq<T>)
    ensures multiset(r) == multiset(s) && NondecreasingBy(key, r)
  {
    r := [];
    for i := 0 to |s|
      invariant NondecreasingBy(key, r)
      invariant multiset(r) == multiset(s[..i])
    {
      var k := InsertionPoint(key, r, s[i]);
      InsertKeepsOrder(key, r, k, s[i]);
      InsertMultiset(r, k, s[i]);
      r := InsertAt(r, k, s[i]);
      assert s[..i + 1] == s[..i] + [s[i]];
    }
    assert s[..|s|] == s;
  }
}
