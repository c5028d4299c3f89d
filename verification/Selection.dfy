/** Three-way quickselect around a median of three, over a permutation of row numbers
    (internal/index/kd.go). */
module Selection {
  import opened Distance
  import opened Sequences

  ghost predicate InRange(vec: seq<Row>, perm: seq<nat>) {
    forall i :: 0 <= i < |perm| ==> perm[i] < |vec|
  }

  /** b rearranges a inside [lo, hi) and equals it elsewhere. */
  ghost predicate Permuted(a: seq<nat>, b: seq<nat>, lo: nat, hi: nat)
    requires lo <= hi <= |a|
  {
    && |b| == |a|
    && b[..lo] == a[..lo]
    && b[hi..] == a[hi..]
    && multiset(b[lo..hi]) == multiset(a[lo..hi])
  }

  /** a with the entries at i and j exchanged. */
  function Swapped(a: seq<nat>, i: nat, j: nat): seq<nat>
    requires i < |a| && j < |a|
  {
    a[i := a[j]][j := a[i]]
  }

  lemma SwapPermutes(a: seq<nat>, lo: nat, hi: nat, i: nat, j: nat)
    requires lo <= i < hi <= |a| && lo <= j < hi
    ensures Permuted(a, Swapped(a, i, j), lo, hi)
  {
    var b := Swapped(a, i, j);
    assert b[lo..hi] == a[lo..hi][i - lo := a[j]][j - lo := a[i]];
  }

  lemma PermutedSelf(a: seq<nat>, lo: nat, hi: nat)
    requires lo <= hi <= |a|
    ensures Permuted(a, a, lo, hi)
  {
  }

  lemma PermutedTrans(a: seq<nat>, b: seq<nat>, c: seq<nat>, lo: nat, hi: nat)
    requires lo <= hi <= |a| && Permuted(a, b, lo, hi) && Permuted(b, c, lo, hi)
    ensures Permuted(a, c, lo, hi)
  {
  }

  /** Rearranging a sub-range rearranges every range around it. */
  lemma PermutedWiden(a: seq<nat>, b: seq<nat>, lo: nat, l: nat, h: nat, hi: nat)
    requires lo <= l <= h <= hi <= |a| && Permuted(a, b, l, h)
    ensures Permuted(a, b, lo, hi)
  {
    assert a[lo..hi] == a[lo..l] + a[l..h] + a[h..hi];
    assert b[lo..hi] == b[lo..l] + b[l..h] + b[h..hi];
    assert a[lo..l] == a[..l][lo..] && b[lo..l] == b[..l][lo..];
    assert a[h..hi] == a[h..][..hi - h] && b[h..hi] == b[h..][..hi - h];
    assert a[..lo] == a[..l][..lo] && b[..lo] == b[..l][..lo];
    assert a[hi..] == a[h..][hi - h..] && b[hi..] == b[h..][hi - h..];
  }

  /** Every row of xs is at most every row of ys in lane dim. */
  ghost predicate AllLe(vec: seq<Row>, dim: nat, xs: seq<nat>, ys: seq<nat>)
    requires dim < STRIDE && InRange(vec, xs) && InRange(vec, ys)
  {
    forall i, j :: 0 <= i < |xs| && 0 <= j < |ys| ==> vec[xs[i]][dim] <= vec[ys[j]][dim]
  }

  /** AllLe sees only which rows are on each side. */
  lemma AllLeSame(vec: seq<Row>, dim: nat, xs: seq<nat>, ys: seq<nat>, xs': seq<nat>, ys': seq<nat>)
    requires dim < STRIDE && InRange(vec, xs) && InRange(vec, ys) && InRange(vec, xs') && InRange(vec, ys')
    requires multiset(xs) == multiset(xs') && multiset(ys) == multiset(ys')
    requires AllLe(vec, dim, xs, ys)
    ensures AllLe(vec, dim, xs', ys')
  {
    SameMembers(xs, xs');
    SameMembers(ys, ys');
    forall i, j | 0 <= i < |xs'| && 0 <= j < |ys'|
      ensures vec[xs'[i]][dim] <= vec[ys'[j]][dim]
    {
      assert xs'[i] in xs && ys'[j] in ys;
    }
  }

  function Median(a: int, b: int, c: int): (m: int)
    ensures m == a || m == b || m == c
    ensures (a <= m || b <= m) && (a <= m || c <= m) && (b <= m || c <= m)
    ensures (m <= a || m <= b) && (m <= a || m <= c) && (m <= b || m <= c)
  {
    if a < b then (if b < c then b else if a < c then c else a)
    else (if a < c then a else if b < c then c else b)
  }

  /** The position, among the first, middle and last, of a row whose value is the median
      of the three. */
  method MedianOfThree(vec: seq<Row>, perm: array<nat>, lo: nat, hi: nat, dim: nat) returns (p: nat)
    requires lo < hi <= perm.Length && dim < STRIDE && InRange(vec, perm[..])
    ensures lo <= p < hi
    ensures vec[perm[p]][dim] ==
            Median(vec[perm[lo]][dim], vec[perm[(lo + hi) / 2]][dim], vec[perm[hi - 1]][dim])
  {
    var mid := (lo + hi) / 2;
    var a, b, c := vec[perm[lo]][dim], vec[perm[mid]][dim], vec[perm[hi - 1]][dim];
    if a < b {
      if b < c {
        return mid;
      } else if a < c {
        return hi - 1;
      }
      return lo;
    }
    if a < c {
      return lo;
    } else if b < c {
      return hi - 1;
    }
    return mid;
  }

  /** The three zones of a partition in progress; positions i..gt are still unseen. */
  ghost predicate Zones(vec: seq<Row>, s: seq<nat>, lo: nat, lt: nat, i: nat, gt: nat, hi: nat, pivot: int, dim: nat)
    requires lo <= lt <= i <= gt <= hi <= |s| && dim < STRIDE && InRange(vec, s)
  {
    && (forall j :: lo <= j < lt ==> vec[s[j]][dim] < pivot)
    && (forall j :: lt <= j < i ==> vec[s[j]][dim] == pivot)
    && (forall j :: gt <= j < hi ==> vec[s[j]][dim] > pivot)
  }

  lemma ZonesBelow(vec: seq<Row>, s: seq<nat>, lo: nat, lt: nat, i: nat, gt: nat, hi: nat, pivot: int, dim: nat)
    requires lo <= lt <= i < gt <= hi <= |s| && dim < STRIDE && InRange(vec, s)
    requires Zones(vec, s, lo, lt, i, gt, hi, pivot, dim) && vec[s[i]][dim] < pivot
    ensures var s' := Swapped(s, lt, i);
            InRange(vec, s') && Zones(vec, s', lo, lt + 1, i + 1, gt, hi, pivot, dim)
  {
  }

  lemma ZonesAbove(vec: seq<Row>, s: seq<nat>, lo: nat, lt: nat, i: nat, gt: nat, hi: nat, pivot: int, dim: nat)
    requires lo <= lt <= i < gt <= hi <= |s| && dim < STRIDE && InRange(vec, s)
    requires Zones(vec, s, lo, lt, i, gt, hi, pivot, dim) && vec[s[i]][dim] > pivot
    ensures var s' := Swapped(s, i, gt - 1);
            InRange(vec, s') && Zones(vec, s', lo, lt, i, gt - 1, hi, pivot, dim)
  {
  }

  lemma ZonesEqual(vec: seq<Row>, s: seq<nat>, lo: nat, lt: nat, i: nat, gt: nat, hi: nat, pivot: int, dim: nat)
    requires lo <= lt <= i < gt <= hi <= |s| && dim < STRIDE && InRange(vec, s)
    requires Zones(vec, s, lo, lt, i, gt, hi, pivot, dim) && vec[s[i]][dim] == pivot
    ensures Zones(vec, s, lo, lt, i + 1, gt, hi, pivot, dim)
  {
  }

  /** The inner three-way partition of [lo, hi) around a pivot value. */
  method Partition3(vec: seq<Row>, perm: array<nat>, lo: nat, hi: nat, pivot: int, dim: nat)
    returns (lt: nat, gt: nat)
    requires lo <= hi <= perm.Length && dim < STRIDE && InRange(vec, perm[..])
    modifies perm
    ensures lo <= lt <= gt <= hi
    ensures Permuted(old(perm[..]), perm[..], lo, hi) && InRange(vec, perm[..])
    ensures Zones(vec, perm[..], lo, lt, gt, gt, hi, pivot, dim)
  {
    hide Permuted, Swapped;
    PermutedSelf(perm[..], lo, hi);
    var i := lo;
    lt, gt := lo, hi;
    assert Zones(vec, perm[..], lo, lt, i, gt, hi, pivot, dim);
    hide Zones;
    while i < gt
      invariant lo <= lt <= i <= gt <= hi
      invariant InRange(vec, perm[..]) && Permuted(old(perm[..]), perm[..], lo, hi)
      invariant Zones(vec, perm[..], lo, lt, i, gt, hi, pivot, dim)
      decreases gt - i
    {
      var v := vec[perm[i]][dim];
      if v < pivot {
        ZonesBelow(vec, perm[..], lo, lt, i, gt, hi, pivot, dim);
        Swap(vec, perm, lo, hi, lt, i, old(perm[..]));
        lt := lt + 1;
        i := i + 1;
      } else if v > pivot {
        ZonesAbove(vec, perm[..], lo, lt, i, gt, hi, pivot, dim);
        gt := gt - 1;
        Swap(vec, perm, lo, hi, i, gt, old(perm[..]));
      } else {
        ZonesEqual(vec, perm[..], lo, lt, i, gt, hi, pivot, dim);
        i := i + 1;
      }
    }
  }

  method Swap(vec: seq<Row>, perm: array<nat>, lo: nat, hi: nat, i: nat, j: nat, ghost start: seq<nat>)
    requires lo <= i < hi <= perm.Length == |start| && lo <= j < hi
    requires InRange(vec, perm[..]) && Permuted(start, perm[..], lo, hi)
    modifies perm
    ensures perm[..] == old(Swapped(perm[..], i, j))
    ensures InRange(vec, perm[..]) && Permuted(start, perm[..], lo, hi)
  {
    SwapPermutes(perm[..], lo, hi, i, j);
    perm[i], perm[j] := perm[j], perm[i];
    assert perm[..] == old(Swapped(perm[..], i, j));
    PermutedTrans(start, old(perm[..]), perm[..], lo, hi);
  }

  /** What selection leaves behind: nothing before k exceeds row k, nothing after it is below. */
  ghost predicate Selected(vec: seq<Row>, perm: seq<nat>, lo: nat, hi: nat, k: nat, dim: nat)
    requires InRange(vec, perm) && lo <= k < hi <= |perm| && dim < STRIDE
  {
    && (forall j :: lo <= j < k ==> vec[perm[j]][dim] <= vec[perm[k]][dim])
    && (forall j :: k <= j < hi ==> vec[perm[k]][dim] <= vec[perm[j]][dim])
  }

  /** Rows outside the active range [l, h) are already on their final side. */
  ghost predicate Narrowed(vec: seq<Row>, perm: seq<nat>, lo: nat, l: nat, h: nat, hi: nat, dim: nat)
    requires InRange(vec, perm) && lo <= l <= h <= hi <= |perm| && dim < STRIDE
  {
    && AllLe(vec, dim, perm[lo..l], perm[l..hi])
    && AllLe(vec, dim, perm[lo..h], perm[h..hi])
  }

  lemma NarrowedStart(vec: seq<Row>, p: seq<nat>, lo: nat, hi: nat, dim: nat)
    requires InRange(vec, p) && lo <= hi <= |p| && dim < STRIDE
    ensures Narrowed(vec, p, lo, lo, hi, hi, dim)
  {
  }

  lemma NarrowedStable(vec: seq<Row>, a: seq<nat>, b: seq<nat>, lo: nat, l: nat, h: nat, hi: nat, dim: nat)
    requires lo <= l <= h <= hi <= |a| && dim < STRIDE && InRange(vec, a) && InRange(vec, b)
    requires Permuted(a, b, l, h) && Narrowed(vec, a, lo, l, h, hi, dim)
    ensures Narrowed(vec, b, lo, l, h, hi, dim)
  {
    PermutedWiden(a, b, l, l, h, hi);
    PermutedWiden(a, b, lo, l, h, h);
    assert a[lo..l] == a[..l][lo..] && b[lo..l] == b[..l][lo..];
    assert a[h..hi] == a[h..][..hi - h] && b[h..hi] == b[h..][..hi - h];
    AllLeSame(vec, dim, a[lo..l], a[l..hi], b[lo..l], b[l..hi]);
    AllLeSame(vec, dim, a[lo..h], a[h..hi], b[lo..h], b[h..hi]);
  }

  /** Cutting the active range at a position that separates it. */
  lemma NarrowedCut(vec: seq<Row>, p: seq<nat>, lo: nat, l: nat, cut: nat, h: nat, hi: nat, dim: nat)
    requires lo <= l <= cut <= h <= hi <= |p| && dim < STRIDE && InRange(vec, p)
    requires Narrowed(vec, p, lo, l, h, hi, dim)
    requires forall i, j :: l <= i < cut <= j < h ==> vec[p[i]][dim] <= vec[p[j]][dim]
    ensures AllLe(vec, dim, p[lo..cut], p[cut..hi])
  {
    forall i, j | 0 <= i < cut - lo && 0 <= j < hi - cut
      ensures vec[p[lo..cut][i]][dim] <= vec[p[cut..hi][j]][dim]
    {
      var i', j' := lo + i, cut + j;
      assert p[lo..cut][i] == p[i'] && p[cut..hi][j] == p[j'];
      if i' < l {
        assert p[lo..l][i] == p[i'] && p[l..hi][j' - l] == p[j'];
      } else if j' >= h {
        assert p[lo..h][i] == p[i'] && p[h..hi][j' - h] == p[j'];
      }
    }
  }

  lemma NarrowedSelects(vec: seq<Row>, p: seq<nat>, lo: nat, l: nat, h: nat, hi: nat, k: nat, dim: nat)
    requires lo <= l <= k < h <= hi <= |p| && dim < STRIDE && InRange(vec, p)
    requires Narrowed(vec, p, lo, l, h, hi, dim)
    requires forall i :: l <= i < h ==> vec[p[i]][dim] == vec[p[k]][dim]
    ensures Selected(vec, p, lo, hi, k, dim)
  {
    forall j | lo <= j < k
      ensures vec[p[j]][dim] <= vec[p[k]][dim]
    {
      if j < l {
        assert p[lo..l][j - lo] == p[j] && p[l..hi][k - l] == p[k];
      }
    }
    forall j | k <= j < hi
      ensures vec[p[k]][dim] <= vec[p[j]][dim]
    {
      if j >= h {
        assert p[lo..h][k - lo] == p[k] && p[h..hi][j - h] == p[j];
      }
    }
  }

  /** The pivot row itself lands in the equal block, so the block is not empty. */
  lemma PivotSurvives(vec: seq<Row>, a: seq<nat>, b: seq<nat>, l: nat, h: nat, pi: nat, lt: nat, gt: nat, dim: nat)
    requires l <= pi < h <= |a| == |b| && l <= lt <= gt <= h && dim < STRIDE
    requires InRange(vec, a) && InRange(vec, b) && Permuted(a, b, l, h)
    requires Zones(vec, b, l, lt, gt, gt, h, vec[a[pi]][dim], dim)
    ensures lt < gt
  {
    SameMembers(a[l..h], b[l..h]);
    assert a[pi] == a[l..h][pi - l];
    assert a[pi] in b[l..h];
    var j :| 0 <= j < h - l && b[l..h][j] == a[pi];
    assert b[l + j] == a[pi];
  }

  /** Both borders of a finished partition separate the active range. */
  lemma ZonesSeparate(vec: seq<Row>, p: seq<nat>, l: nat, lt: nat, gt: nat, h: nat, pivot: int, dim: nat)
    requires l <= lt <= gt <= h <= |p| && dim < STRIDE && InRange(vec, p)
    requires Zones(vec, p, l, lt, gt, gt, h, pivot, dim)
    ensures forall i, j :: l <= i < lt <= j < h ==> vec[p[i]][dim] <= vec[p[j]][dim]
    ensures forall i, j :: l <= i < gt <= j < h ==> vec[p[i]][dim] <= vec[p[j]][dim]
  {
    forall i, j | l <= i < lt <= j < h
      ensures vec[p[i]][dim] <= vec[p[j]][dim]
    {
      assert vec[p[i]][dim] < pivot && (j < gt || vec[p[j]][dim] > pivot);
    }
    forall i, j | l <= i < gt <= j < h
      ensures vec[p[i]][dim] <= vec[p[j]][dim]
    {
      assert vec[p[i]][dim] <= pivot < vec[p[j]][dim];
    }
  }

  /** After a partition of the active range, each of the three blocks may become the active
      range. */
  lemma NarrowedStep(vec: seq<Row>, before: seq<nat>, now: seq<nat>, lo: nat, l: nat, h: nat, hi: nat,
                     lt: nat, gt: nat, pivot: int, dim: nat)
    requires lo <= l <= lt <= gt <= h <= hi <= |before| == |now| && dim < STRIDE
    requires InRange(vec, before) && InRange(vec, now)
    requires Permuted(before, now, l, h) && Narrowed(vec, before, lo, l, h, hi, dim)
    requires Zones(vec, now, l, lt, gt, gt, h, pivot, dim)
    ensures Narrowed(vec, now, lo, l, lt, hi, dim)
    ensures Narrowed(vec, now, lo, gt, h, hi, dim)
    ensures Narrowed(vec, now, lo, lt, gt, hi, dim)
  {
    NarrowedStable(vec, before, now, lo, l, h, hi, dim);
    hide AllLe, Permuted;
    ZonesSeparate(vec, now, l, lt, gt, h, pivot, dim);
    NarrowedCut(vec, now, lo, l, lt, h, hi, dim);
    NarrowedCut(vec, now, lo, l, gt, h, hi, dim);
  }

  /** Terminates for every range and every k, only permutes perm[lo..hi), and selects
      position k whenever it lies in the range. */
  method Quickselect(vec: seq<Row>, perm: array<nat>, lo: nat, hi: nat, k: nat, dim: nat)
    requires lo <= hi <= perm.Length && dim < STRIDE && InRange(vec, perm[..])
    modifies perm
    ensures Permuted(old(perm[..]), perm[..], lo, hi) && InRange(vec, perm[..])
    ensures lo <= k < hi ==> Selected(vec, perm[..], lo, hi, k, dim)
  {
    hide Permuted, Narrowed, Selected;
    PermutedSelf(perm[..], lo, hi);
    NarrowedStart(vec, perm[..], lo, hi, dim);
    var l, h := lo, hi;
    while h - l > 1
      invariant lo <= l <= h <= hi
      invariant lo <= k < hi ==> l <= k < h
      invariant InRange(vec, perm[..]) && Permuted(old(perm[..]), perm[..], lo, hi)
      invariant Narrowed(vec, perm[..], lo, l, h, hi, dim)
      decreases h - l
    {
      ghost var before := perm[..];
      var pi := MedianOfThree(vec, perm, l, h, dim);
      var pivot := vec[perm[pi]][dim];
      var lt, gt := Partition3(vec, perm, l, h, pivot, dim);
      PermutedWiden(before, perm[..], lo, l, h, hi);
      PermutedTrans(old(perm[..]), before, perm[..], lo, hi);
      PivotSurvives(vec, before, perm[..], l, h, pi, lt, gt, dim);
      NarrowedStep(vec, before, perm[..], lo, l, h, hi, lt, gt, pivot, dim);
      if k < lt {
        h := lt;
      } else if k >= gt {
        l := gt;
      } else {
        NarrowedSelects(vec, perm[..], lo, lt, gt, hi, k, dim);
        return;
      }
    }
    if lo <= k < hi {
      NarrowedSelects(vec, perm[..], lo, l, h, hi, k, dim);
    }
  }
}
