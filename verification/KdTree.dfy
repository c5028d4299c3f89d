/** One partition of the index: the rows, and the KD-tree over them laid out in pre-order
    as parallel arrays of nodes and bounding boxes (internal/index/kd.go). */
module KdTree {
  import opened Distance
  import opened Nearest
  import opened Sequences
  import opened Selection

  const LEAF_SIZE: nat := 64
  const LEAF_MARK: int := 0xFF

  datatype KdNode = KdNode(splitVal: int, splitDim: int, left: int, right: int) {
    /** The fields fit int16, uint8, int32 and int32. */
    predicate Fits() {
      && -0x8000 <= splitVal < 0x8000
      && 0 <= splitDim < 0x100
      && 0 <= left < 0x8000_0000
      && 0 <= right < 0x8000_0000
    }
  }

  datatype KdBox = KdBox(lo: Row, hi: Row) {
    predicate Ordered() {
      forall d :: 0 <= d < STRIDE ==> lo[d] <= hi[d]
    }

    /** The first of the used dimensions in which the box extends farthest. */
    predicate IsWidest(dim: nat) {
      && dim < RAW_DIMS
      && (forall d :: 0 <= d < RAW_DIMS ==> hi[d] - lo[d] <= hi[dim] - lo[dim])
      && (forall d :: 0 <= d < dim ==> hi[d] - lo[d] < hi[dim] - lo[dim])
    }

    /** The greatest extent over the used dimensions. */
    ghost predicate HasSpread(s: int) {
      && (exists d :: 0 <= d < RAW_DIMS && hi[d] - lo[d] == s)
      && (forall d :: 0 <= d < RAW_DIMS ==> hi[d] - lo[d] <= s)
    }
  }

  // ---- The abstract tree and its array layout --------------------------------

  datatype Tree =
    | Leaf(box: KdBox, lo: nat, hi: nat)
    | Split(box: KdBox, dim: nat, val: int, left: Tree, right: Tree)

  ghost function Size(t: Tree): (n: nat)
    ensures n > 0
  {
    match t
    case Leaf(_, _, _) => 1
    case Split(_, _, _, l, r) => 1 + Size(l) + Size(r)
  }

  ghost function Height(t: Tree): nat {
    match t
    case Leaf(_, _, _) => 0
    case Split(_, _, _, l, r) => 1 + if Height(l) < Height(r) then Height(r) else Height(l)
  }

  ghost function Preorder<T>(root: T, left: seq<T>, right: seq<T>): (s: seq<T>)
    ensures |s| == 1 + |left| + |right|
  {
    [root] + left + right
  }

  /** The node array of a tree whose root sits at index base. */
  ghost function NodesOf(t: Tree, base: nat): (s: seq<KdNode>)
    ensures |s| == Size(t)
  {
    match t
    case Leaf(_, lo, hi) => [KdNode(0, LEAF_MARK, lo, hi)]
    case Split(_, dim, val, l, r) =>
      Preorder(KdNode(val, dim, base + 1, base + 1 + Size(l)), NodesOf(l, base + 1), NodesOf(r, base + 1 + Size(l)))
  }

  ghost function BoxesOf(t: Tree): (s: seq<KdBox>)
    ensures |s| == Size(t)
  {
    match t
    case Leaf(box, _, _) => [box]
    case Split(box, _, _, l, r) => Preorder(box, BoxesOf(l), BoxesOf(r))
  }

  /** The box spans the rows in lane d exactly: both ends are attained. */
  ghost predicate LaneHull(box: KdBox, rs: seq<Row>, d: nat)
    requires d < STRIDE
  {
    && (forall i :: 0 <= i < |rs| ==> box.lo[d] <= rs[i][d] <= box.hi[d])
    && (exists i :: 0 <= i < |rs| && rs[i][d] == box.lo[d])
    && (exists i :: 0 <= i < |rs| && rs[i][d] == box.hi[d])
  }

  ghost predicate IsHull(box: KdBox, rs: seq<Row>) {
    forall d: nat :: d < STRIDE ==> LaneHull(box, rs, d)
  }

  /** val separates the rows before position m from the others in lane dim. */
  ghost predicate Separates(rs: seq<Row>, m: nat, dim: nat, val: int)
    requires m <= |rs| && dim < STRIDE
  {
    && (forall i :: 0 <= i < m ==> rs[i][dim] <= val)
    && (forall i :: m <= i < |rs| ==> val <= rs[i][dim])
  }

  /** t is a well-formed tree over the rows rs, which start at position lo: ranges tile,
      boxes are exact hulls, and a node is split, in the dimension in which its box is widest,
      by a value that separates the two halves. */
  ghost predicate TreeOK(t: Tree, rs: seq<Row>, lo: nat) {
    && rs != []
    && IsHull(t.box, rs)
    && match t
       case Leaf(box, l, h) =>
         && l == lo && h == lo + |rs|
         && (|rs| <= LEAF_SIZE || box.HasSpread(0))
       case Split(box, dim, val, left, right) =>
         var m := |rs| / 2;
         && |rs| > LEAF_SIZE
         && box.IsWidest(dim) && box.lo[dim] < box.hi[dim]
         && -0x8000 <= val < 0x8000
         && TreeOK(left, rs[..m], lo)
         && TreeOK(right, rs[m..], lo + m)
         && Separates(rs, m, dim, val)
  }

  /** Up to 64 rows, and any number of equal ones, make a leaf; all others are split. */
  lemma LeafIff(t: Tree, rs: seq<Row>, lo: nat)
    requires TreeOK(t, rs, lo)
    ensures t.Leaf? <==> |rs| <= 64 || t.box.HasSpread(0)
  {
  }

  /** A tree has at most one node per row. */
  lemma {:induction false} SizeBound(t: Tree, rs: seq<Row>, lo: nat)
    requires TreeOK(t, rs, lo)
    ensures |rs| >= 32 ==> 16 * Size(t) <= |rs| - 16
    ensures Size(t) <= |rs|
  {
    if t.Split? {
      SizeBound(t.left, rs[..|rs| / 2], lo);
      SizeBound(t.right, rs[|rs| / 2..], lo + |rs| / 2);
    }
  }

  /** Every stored index and range bound fits an int32 when the row count does. */
  lemma {:induction false} NodesFit(t: Tree, rs: seq<Row>, lo: nat, base: nat)
    requires TreeOK(t, rs, lo) && lo + |rs| < 0x8000_0000 && base + Size(t) < 0x8000_0000
    ensures forall n :: n in NodesOf(t, base) ==> n.Fits()
  {
    if t.Split? {
      NodesFit(t.left, rs[..|rs| / 2], lo, base + 1);
      NodesFit(t.right, rs[|rs| / 2..], lo + |rs| / 2, base + 1 + Size(t.left));
    }
  }

  ghost function Pow2(n: nat): nat {
    if n == 0 then 1 else 2 * Pow2(n - 1)
  }

  /** Halving down to the leaf size bounds the height. */
  lemma {:induction false} HeightBound(t: Tree, rs: seq<Row>, lo: nat, h: nat)
    requires TreeOK(t, rs, lo) && |rs| <= LEAF_SIZE * Pow2(h)
    ensures Height(t) <= h
  {
    if t.Split? {
      assert h > 0;
      HeightBound(t.left, rs[..|rs| / 2], lo, h - 1);
      HeightBound(t.right, rs[|rs| / 2..], lo + |rs| / 2, h - 1);
    }
  }

  /** Fewer than 2^31 rows give a height of at most 25. */
  lemma HeightBoundInt32(t: Tree, rs: seq<Row>)
    requires TreeOK(t, rs, 0) && |rs| < 0x8000_0000
    ensures Height(t) <= 25
  {
    assert Pow2(5) == 32;
    assert Pow2(10) == 1024;
    assert Pow2(15) == 0x8000;
    assert Pow2(20) == 0x10_0000;
    assert Pow2(25) == 0x200_0000;
    HeightBound(t, rs, 0, 25);
  }

  // ---- Boxes -----------------------------------------------------------------

  lemma LaneHullSame(box: KdBox, rs: seq<Row>, rs': seq<Row>, d: nat)
    requires d < STRIDE && LaneHull(box, rs, d) && multiset(rs) == multiset(rs')
    ensures LaneHull(box, rs', d)
  {
    SameMembers(rs, rs');
    forall i | 0 <= i < |rs'|
      ensures box.lo[d] <= rs'[i][d] <= box.hi[d]
    {
      assert rs'[i] in rs;
    }
    var i :| 0 <= i < |rs| && rs[i][d] == box.lo[d];
    var j :| 0 <= j < |rs| && rs[j][d] == box.hi[d];
    assert rs[i] in rs' && rs[j] in rs';
  }

  lemma HullSame(box: KdBox, rs: seq<Row>, rs': seq<Row>)
    requires IsHull(box, rs) && multiset(rs) == multiset(rs')
    ensures IsHull(box, rs')
  {
    forall d: nat | d < STRIDE
      ensures LaneHull(box, rs', d)
    {
      LaneHullSame(box, rs, rs', d);
    }
  }

  lemma HullOrdered(box: KdBox, rs: seq<Row>)
    requires IsHull(box, rs) && rs != []
    ensures box.Ordered()
  {
    forall d | 0 <= d < STRIDE
      ensures box.lo[d] <= box.hi[d]
    {
      assert LaneHull(box, rs, d);
      assert box.lo[d] <= rs[0][d] <= box.hi[d];
    }
  }

  /** The box widened, lane by lane, to take in one more row. */
  method Widen(box: KdBox, x: Row) returns (r: KdBox)
    ensures forall d :: 0 <= d < STRIDE ==>
      && r.lo[d] == (if x[d] < box.lo[d] then x[d] else box.lo[d])
      && r.hi[d] == (if x[d] > box.hi[d] then x[d] else box.hi[d])
  {
    r := box;
    for d := 0 to STRIDE
      invariant forall e :: d <= e < STRIDE ==> r.lo[e] == box.lo[e] && r.hi[e] == box.hi[e]
      invariant forall e :: 0 <= e < d ==>
        && r.lo[e] == (if x[e] < box.lo[e] then x[e] else box.lo[e])
        && r.hi[e] == (if x[e] > box.hi[e] then x[e] else box.hi[e])
    {
      if x[d] < r.lo[d] {
        r := r.(lo := r.lo[d := x[d]]);
      }
      if x[d] > r.hi[d] {
        r := r.(hi := r.hi[d := x[d]]);
      }
    }
  }

  lemma WidenedIsHull(box: KdBox, r: KdBox, rs: seq<Row>, x: Row)
    requires IsHull(box, rs)
    requires forall d :: 0 <= d < STRIDE ==>
      && r.lo[d] == (if x[d] < box.lo[d] then x[d] else box.lo[d])
      && r.hi[d] == (if x[d] > box.hi[d] then x[d] else box.hi[d])
    ensures IsHull(r, rs + [x])
  {
    var rs' := rs + [x];
    forall d: nat | d < STRIDE
      ensures LaneHull(r, rs', d)
    {
      assert LaneHull(box, rs, d);
      var i :| 0 <= i < |rs| && rs[i][d] == box.lo[d];
      var j :| 0 <= j < |rs| && rs[j][d] == box.hi[d];
      assert rs'[i] == rs[i] && rs'[j] == rs[j] && rs'[|rs|] == x;
    }
  }

  method ComputeBox(vec: seq<Row>, perm: array<nat>, lo: nat, hi: nat) returns (box: KdBox)
    requires lo < hi <= perm.Length && InRange(vec, perm[..])
    ensures IsHull(box, Pick(vec, perm[lo..hi]))
  {
    var first := vec[perm[lo]];
    box := KdBox(first, first);
    assert Pick(vec, perm[lo..lo + 1])[0] == first;
    for i := lo + 1 to hi
      invariant IsHull(box, Pick(vec, perm[lo..i]))
    {
      var wider := Widen(box, vec[perm[i]]);
      WidenedIsHull(box, wider, Pick(vec, perm[lo..i]), vec[perm[i]]);
      assert Pick(vec, perm[lo..i + 1]) == Pick(vec, perm[lo..i]) + [vec[perm[i]]];
      box := wider;
    }
  }

  /** The first used dimension of greatest extent. */
  method WidestDim(box: KdBox) returns (best: nat, spread: int)
    requires box.Ordered()
    ensures box.IsWidest(best) && spread == box.hi[best] - box.lo[best]
    ensures box.HasSpread(spread)
  {
    best, spread := 0, -1;
    for d := 0 to RAW_DIMS
      invariant d == 0 ==> best == 0 && spread == -1
      invariant d > 0 ==> best < d && spread == box.hi[best] - box.lo[best]
      invariant forall e :: 0 <= e < d ==> box.hi[e] - box.lo[e] <= spread
      invariant forall e :: 0 <= e < best ==> box.hi[e] - box.lo[e] < spread
    {
      var s := box.hi[d] - box.lo[d];
      if s > spread {
        spread := s;
        best := d;
      }
    }
  }

  // ---- The partition object --------------------------------------------------

  class Part {
    var nodes: seq<KdNode>
    var boxes: seq<KdBox>
    var vec: seq<Row>
    var gidx: seq<int>
    var count: nat
    ghost var tree: Tree

    /** An empty partition. */
    constructor ()
      ensures nodes == [] && boxes == [] && vec == [] && gidx == [] && count == 0
    {
      nodes, boxes, vec, gidx, count := [], [], [], [], 0;
    }

    ghost predicate Filled()
      reads this
    {
      |vec| == |gidx| == count
    }

    ghost function Items(): seq<Item>
      requires Filled()
      reads this
    {
      ItemsOf(vec, gidx)
    }

    /** The arrays hold the pre-order layout of a well-formed tree over the rows. */
    ghost predicate Built()
      reads this
    {
      && Filled()
      && (count == 0 ==> nodes == [] && boxes == [])
      && (count > 0 ==> TreeOK(tree, vec, 0) && nodes == NodesOf(tree, 0) && boxes == BoxesOf(tree))
    }

    /** Appends a node and its box: the part of the closure before the split. */
    method AppendRoot(perm: array<nat>, lo: nat, hi: nat) returns (box: KdBox, dim: nat, spread: int)
      requires lo < hi <= perm.Length && InRange(vec, perm[..])
      modifies this`nodes, this`boxes
      ensures nodes == old(nodes) + [KdNode(0, 0, 0, 0)] && boxes == old(boxes) + [box]
      ensures IsHull(box, Pick(vec, perm[lo..hi]))
      ensures box.IsWidest(dim) && box.HasSpread(spread) && spread == box.hi[dim] - box.lo[dim] >= 0
    {
      nodes := nodes + [KdNode(0, 0, 0, 0)];
      box := ComputeBox(vec, perm, lo, hi);
      boxes := boxes + [box];
      HullOrdered(box, Pick(vec, perm[lo..hi]));
      dim, spread := WidestDim(box);
    }

    /** The recursive closure of buildPart: appends the tree over perm[lo..hi). */
    method Build(perm: array<nat>, lo: nat, hi: nat) returns (idx: nat, ghost t: Tree)
      requires lo < hi <= perm.Length && InRange(vec, perm[..])
      requires |nodes| == |boxes|
      modifies this`nodes, this`boxes, perm
      ensures Permuted(old(perm[..]), perm[..], lo, hi) && InRange(vec, perm[..])
      ensures idx == |old(nodes)|
      ensures nodes == old(nodes) + NodesOf(t, idx) && boxes == old(boxes) + BoxesOf(t)
      ensures TreeOK(t, Pick(vec, perm[lo..hi]), lo)
      decreases hi - lo
    {
      idx := |nodes|;
      var box, dim, spread := AppendRoot(perm, lo, hi);
      if hi - lo <= LEAF_SIZE || spread == 0 {
        nodes := nodes[idx := KdNode(0, LEAF_MARK, lo, hi)];
        t := Leaf(box, lo, hi);
        assert nodes == old(nodes) + NodesOf(t, idx);
        return;
      }
      hide TreeOK, Permuted, Pick;
      var m := (lo + hi) / 2;
      Quickselect(vec, perm, lo, hi, m, dim);
      var sv := vec[perm[m]][dim];
      ghost var p0 := perm[..];
      ghost var l, r;
      var li, ri;
      li, l := Build(perm, lo, m);
      ghost var p1 := perm[..];
      ri, r := Build(perm, m, hi);
      ghost var p2 := perm[..];
      t := Split(box, dim, sv, l, r);
      SplitLayout(old(nodes), nodes, KdNode(0, 0, 0, 0), li, ri, t);
      nodes := nodes[idx := KdNode(sv, dim, li, ri)];
      SplitBoxes(old(boxes), t);
      BuildJoins(vec, old(perm[..]), p0, p1, p2, lo, m, hi, dim, box, l, r);
    }

    /** The rows and indices taken in the order of perm. */
    method Reordered(perm: array<nat>) returns (nv: seq<Row>, ng: seq<int>)
      requires Filled() && perm.Length == count && InRange(vec, perm[..])
      ensures nv == Pick(vec, perm[..]) && ng == Pick(gidx, perm[..])
    {
      nv, ng := [], [];
      for r := 0 to count
        invariant nv == Pick(vec, perm[..r]) && ng == Pick(gidx, perm[..r])
      {
        var src := perm[r];
        nv := nv + [vec[src]];
        ng := ng + [gidx[src]];
      }
      assert perm[..count] == perm[..];
    }

    /** Builds the tree over the identity permutation, then reorders the rows by it. */
    method BuildPart()
      requires Filled() && count > 0 && nodes == [] && boxes == []
      modifies this
      ensures Built() && count == old(count)
      ensures multiset(Items()) == multiset(old(Items()))
    {
      var perm := new nat[count](i => i);
      ghost var start := perm[..];
      assert start == Iota(count) && start[0..count] == start;
      ghost var idx, t := Build(perm, 0, count);
      assert perm[0..count] == perm[..];
      ghost var items := Items();
      PickPermutation(items, perm[..]);
      var nv, ng := Reordered(perm);
      assert ItemsOf(nv, ng) == Pick(items, perm[..]);
      vec, gidx, tree := nv, ng, t;
      assert nodes == NodesOf(tree, 0) && boxes == BoxesOf(tree);
    }
  }

  lemma BuildPermutes(p: seq<nat>, p0: seq<nat>, p1: seq<nat>, p2: seq<nat>, lo: nat, m: nat, hi: nat)
    requires lo <= m <= hi <= |p|
    requires Permuted(p, p0, lo, hi) && Permuted(p0, p1, lo, m) && Permuted(p1, p2, m, hi)
    ensures Permuted(p, p2, lo, hi)
    ensures p2[lo..m] == p1[lo..m] && p1[m..hi] == p0[m..hi]
  {
    PermutedWiden(p0, p1, lo, lo, m, hi);
    PermutedWiden(p1, p2, lo, m, hi, hi);
    PermutedTrans(p, p0, p1, lo, hi);
    PermutedTrans(p, p1, p2, lo, hi);
    assert p2[lo..m] == p2[..m][lo..] && p1[lo..m] == p1[..m][lo..];
    assert p1[m..hi] == p1[m..][..hi - m] && p0[m..hi] == p0[m..][..hi - m];
  }

  lemma HullAfter(vec: seq<Row>, p: seq<nat>, p2: seq<nat>, lo: nat, hi: nat, box: KdBox)
    requires lo <= hi <= |p| && InRange(vec, p) && InRange(vec, p2) && Permuted(p, p2, lo, hi)
    requires IsHull(box, Pick(vec, p[lo..hi]))
    ensures IsHull(box, Pick(vec, p2[lo..hi]))
  {
    PickSame(vec, p[lo..hi], p2[lo..hi]);
    HullSame(box, Pick(vec, p[lo..hi]), Pick(vec, p2[lo..hi]));
  }

  lemma HalvesAfter(vec: seq<Row>, p: seq<nat>, lo: nat, m: nat, hi: nat)
    requires lo <= m <= hi <= |p| && InRange(vec, p)
    ensures Pick(vec, p[lo..hi])[..m - lo] == Pick(vec, p[lo..m])
    ensures Pick(vec, p[lo..hi])[m - lo..] == Pick(vec, p[m..hi])
  {
    assert p[lo..hi][..m - lo] == p[lo..m];
    assert p[lo..hi][m - lo..] == p[m..hi];
    PickSlice(vec, p[lo..hi], 0, m - lo);
    PickSlice(vec, p[lo..hi], m - lo, hi - lo);
  }

  lemma SplitOK(vec: seq<Row>, p: seq<nat>, lo: nat, m: nat, hi: nat, box: KdBox, dim: nat, val: int, l: Tree, r: Tree)
    requires lo + LEAF_SIZE < hi <= |p| && m == (lo + hi) / 2 && InRange(vec, p)
    requires box.IsWidest(dim) && box.lo[dim] < box.hi[dim] && -0x8000 <= val < 0x8000
    requires IsHull(box, Pick(vec, p[lo..hi]))
    requires Separates(Pick(vec, p[lo..hi]), m - lo, dim, val)
    requires TreeOK(l, Pick(vec, p[lo..m]), lo) && TreeOK(r, Pick(vec, p[m..hi]), m)
    ensures TreeOK(Split(box, dim, val, l, r), Pick(vec, p[lo..hi]), lo)
  {
    hide IsHull, Separates, KdBox.IsWidest;
    HalvesAfter(vec, p, lo, m, hi);
    var rs := Pick(vec, p[lo..hi]);
    assert |rs| == hi - lo && |rs| / 2 == m - lo;
    assert TreeOK(l, rs[..m - lo], lo) && TreeOK(r, rs[m - lo..], m);
  }

  /** What the two recursive calls leave: neither disturbs the other's range, and the
      split still separates them. */
  lemma BuildJoins(vec: seq<Row>, p: seq<nat>, p0: seq<nat>, p1: seq<nat>, p2: seq<nat>,
                   lo: nat, m: nat, hi: nat, dim: nat, box: KdBox, l: Tree, r: Tree)
    requires lo + LEAF_SIZE < hi <= |p| && m == (lo + hi) / 2 && box.IsWidest(dim) && box.lo[dim] < box.hi[dim]
    requires InRange(vec, p) && InRange(vec, p0) && InRange(vec, p1) && InRange(vec, p2)
    requires Permuted(p, p0, lo, hi) && Permuted(p0, p1, lo, m) && Permuted(p1, p2, m, hi)
    requires Selected(vec, p0, lo, hi, m, dim)
    requires IsHull(box, Pick(vec, p[lo..hi]))
    requires TreeOK(l, Pick(vec, p1[lo..m]), lo) && TreeOK(r, Pick(vec, p2[m..hi]), m)
    ensures Permuted(p, p2, lo, hi)
    ensures TreeOK(Split(box, dim, vec[p0[m]][dim], l, r), Pick(vec, p2[lo..hi]), lo)
  {
    BuildPermutes(p, p0, p1, p2, lo, m, hi);
    HullAfter(vec, p, p2, lo, hi, box);
    SeparatedAfter(vec, p0, p1, p2, lo, m, hi, dim);
    SplitOK(vec, p2, lo, m, hi, box, dim, vec[p0[m]][dim], l, r);
  }

  /** Filling in the root after both subtrees were appended gives the layout of the whole. */
  lemma FillBlank<T>(a: seq<T>, blank: T, root: T, left: seq<T>, right: seq<T>)
    ensures (a + [blank] + left + right)[|a| := root] == a + Preorder(root, left, right)
  {
  }

  lemma SplitLayout(before: seq<KdNode>, after: seq<KdNode>, blank: KdNode, li: nat, ri: nat, t: Tree)
    requires t.Split? && li == |before| + 1 && ri == li + Size(t.left)
    requires after == before + [blank] + NodesOf(t.left, li) + NodesOf(t.right, ri)
    ensures after[|before| := KdNode(t.val, t.dim, li, ri)] == before + NodesOf(t, |before|)
  {
    var root := KdNode(t.val, t.dim, li, ri);
    FillBlank(before, blank, root, NodesOf(t.left, li), NodesOf(t.right, ri));
    assert NodesOf(t, |before|) == Preorder(root, NodesOf(t.left, li), NodesOf(t.right, ri));
  }

  lemma SplitBoxes(before: seq<KdBox>, t: Tree)
    requires t.Split?
    ensures before + [t.box] + BoxesOf(t.left) + BoxesOf(t.right) == before + BoxesOf(t)
  {
    var left, right := BoxesOf(t.left), BoxesOf(t.right);
    FillBlank(before, t.box, t.box, left, right);
    assert BoxesOf(t) == Preorder(t.box, left, right);
  }

  lemma SeparatedAfter(vec: seq<Row>, p0: seq<nat>, p1: seq<nat>, p2: seq<nat>, lo: nat, m: nat, hi: nat, dim: nat)
    requires lo <= m < hi <= |p0| && dim < STRIDE
    requires InRange(vec, p0) && InRange(vec, p1) && InRange(vec, p2)
    requires Permuted(p0, p1, lo, m) && Permuted(p1, p2, m, hi)
    requires Selected(vec, p0, lo, hi, m, dim)
    ensures Separates(Pick(vec, p2[lo..hi]), m - lo, dim, vec[p0[m]][dim])
  {
    PermutedWiden(p0, p0, lo, lo, hi, hi);
    BuildPermutes(p0, p0, p1, p2, lo, m, hi);
    SameMembers(p0[lo..m], p2[lo..m]);
    SameMembers(p0[m..hi], p2[m..hi]);
    forall i | 0 <= i < m - lo
      ensures Pick(vec, p2[lo..hi])[i][dim] <= vec[p0[m]][dim]
    {
      assert p2[lo..hi][i] == p2[lo..m][i];
      assert p2[lo..m][i] in p0[lo..m];
    }
    forall i | m - lo <= i < hi - lo
      ensures vec[p0[m]][dim] <= Pick(vec, p2[lo..hi])[i][dim]
    {
      assert p2[lo..hi][i] == p2[m..hi][i - (m - lo)];
      assert p2[m..hi][i - (m - lo)] in p0[m..hi];
    }
  }
}
