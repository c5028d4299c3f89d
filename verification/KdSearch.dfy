/** Depth-first search of one partition with an explicit stack, box pruning and
    split-plane pruning (internal/index/kd.go). */
module KdSearch {
  import opened Numbers
  import opened Distance
  import opened Nearest
  import opened BestFive
  import opened KdTree
  import opened Sequences

  // ---- Lower bounds ----------------------------------------------------------

  /** How far the query lies outside the box in one lane. */
  function Outside(box: KdBox, q: Row, d: nat): int
    requires d < STRIDE
  {
    if q[d] < box.lo[d] then box.lo[d] - q[d]
    else if q[d] > box.hi[d] then q[d] - box.hi[d]
    else 0
  }

  function OutsideSum(box: KdBox, q: Row, n: nat): int
    requires n <= STRIDE
  {
    if n == 0 then 0 else OutsideSum(box, q, n - 1) + Sq(Outside(box, q, n - 1))
  }

  lemma {:induction false} OutsideBound(box: KdBox, q: Row, n: nat)
    requires n <= STRIDE
    ensures 0 <= OutsideSum(box, q, n) <= n * 0x1_0000_0000
  {
    if n > 0 {
      OutsideBound(box, q, n - 1);
      SquareBound(Outside(box, q, n - 1));
    }
  }

  /** int64 arithmetic is exact here: the sum stays as far below 2^62 as a distance. */
  method AabbLowerBound(box: KdBox, q: Row) returns (s: int64)
    ensures s == OutsideSum(box, q, STRIDE) && 0 <= s < FAR
  {
    s := 0;
    OutsideBound(box, q, STRIDE);
    for d := 0 to STRIDE
      invariant s == OutsideSum(box, q, d)
    {
      OutsideBound(box, q, d);
      OutsideBound(box, q, d + 1);
      var diff := 0;
      if q[d] < box.lo[d] {
        diff := box.lo[d] - q[d];
      } else if q[d] > box.hi[d] {
        diff := q[d] - box.hi[d];
      } else {
        continue;
      }
      s := s + diff * diff;
    }
  }

  /** No row inside the box is nearer than the box. */
  lemma {:induction false} BoxBound(box: KdBox, q: Row, r: Row, n: nat)
    requires n <= STRIDE && forall d :: 0 <= d < STRIDE ==> box.lo[d] <= r[d] <= box.hi[d]
    ensures OutsideSum(box, q, n) <= SqSum(q, r, n)
  {
    if n > 0 {
      BoxBound(box, q, r, n - 1);
      var diff := q[n - 1] - r[n - 1];
      assert Sq(-diff) == Sq(diff);
      SquareMono(Outside(box, q, n - 1), if diff < 0 then -diff else diff);
    }
  }

  /** No row on the far side of the split plane is nearer than the plane. */
  lemma PlaneBound(q: Row, r: Row, dim: nat, val: int)
    requires dim < STRIDE
    requires (q[dim] <= val <= r[dim]) || (r[dim] <= val <= q[dim])
    ensures Sq(q[dim] - val) <= SqDist(q, r)
  {
    LaneBound(q, r, dim);
    var a, b := q[dim] - val, q[dim] - r[dim];
    assert Sq(-a) == Sq(a) && Sq(-b) == Sq(b);
    if a < 0 || b < 0 {
      SquareMono(-a, -b);
    } else {
      SquareMono(a, b);
    }
  }

  // ---- Stack entries ---------------------------------------------------------

  /** A node index on the stack with the subtree and row range it stands for. */
  datatype Entry = Entry(n: nat, t: Tree, lo: nat, hi: nat)

  ghost predicate EntryOK(nodes: seq<KdNode>, boxes: seq<KdBox>, vec: seq<Row>, e: Entry) {
    && e.lo < e.hi <= |vec|
    && TreeOK(e.t, vec[e.lo..e.hi], e.lo)
    && e.n + Size(e.t) <= |nodes| == |boxes|
    && nodes[e.n..e.n + Size(e.t)] == NodesOf(e.t, e.n)
    && boxes[e.n..e.n + Size(e.t)] == BoxesOf(e.t)
  }

  ghost function LeftEntry(e: Entry): Entry
    requires e.t.Split? && e.lo <= e.hi
  {
    Entry(e.n + 1, e.t.left, e.lo, e.lo + (e.hi - e.lo) / 2)
  }

  ghost function RightEntry(e: Entry): Entry
    requires e.t.Split? && e.lo <= e.hi
  {
    Entry(e.n + 1 + Size(e.t.left), e.t.right, e.lo + (e.hi - e.lo) / 2, e.hi)
  }

  lemma SubPreorder<T>(s: seq<T>, n: nat, root: T, left: seq<T>, right: seq<T>)
    requires n + 1 + |left| + |right| <= |s|
    requires s[n..n + 1 + |left| + |right|] == Preorder(root, left, right)
    ensures s[n] == root
    ensures s[n + 1..n + 1 + |left|] == left
    ensures s[n + 1 + |left|..n + 1 + |left| + |right|] == right
  {
    var k := n + 1 + |left| + |right|;
    assert s[n] == s[n..k][0];
    SliceOfSlice(s, n, k, 1, 1 + |left|);
    SliceOfSlice(s, n, k, 1 + |left|, 1 + |left| + |right|);
    assert Preorder(root, left, right)[1..1 + |left|] == left;
    assert Preorder(root, left, right)[1 + |left|..] == right;
  }

  lemma LeafRoot(nodes: seq<KdNode>, boxes: seq<KdBox>, vec: seq<Row>, e: Entry)
    requires EntryOK(nodes, boxes, vec, e) && e.t.Leaf?
    ensures nodes[e.n] == KdNode(0, LEAF_MARK, e.lo, e.hi) && boxes[e.n] == e.t.box
  {
    assert nodes[e.n] == nodes[e.n..e.n + 1][0];
    assert boxes[e.n] == boxes[e.n..e.n + 1][0];
  }

  /** What the arrays hold at an inner node, and that its children are entries too. */
  lemma SplitRoot(nodes: seq<KdNode>, boxes: seq<KdBox>, vec: seq<Row>, e: Entry)
    requires EntryOK(nodes, boxes, vec, e) && e.t.Split?
    ensures nodes[e.n] == KdNode(e.t.val, e.t.dim, LeftEntry(e).n, RightEntry(e).n)
    ensures boxes[e.n] == e.t.box
    ensures EntryOK(nodes, boxes, vec, LeftEntry(e)) && EntryOK(nodes, boxes, vec, RightEntry(e))
  {
    hide IsHull, Separates;
    var l, r := LeftEntry(e), RightEntry(e);
    SubPreorder(nodes, e.n, KdNode(e.t.val, e.t.dim, l.n, r.n), NodesOf(e.t.left, l.n), NodesOf(e.t.right, r.n));
    SubPreorder(boxes, e.n, e.t.box, BoxesOf(e.t.left), BoxesOf(e.t.right));
    var rs, m := vec[e.lo..e.hi], (e.hi - e.lo) / 2;
    assert rs[..m] == vec[l.lo..l.hi];
    assert rs[m..] == vec[r.lo..r.hi];
  }

  ghost predicate Within(items: seq<Item>, es: seq<Entry>) {
    forall i :: 0 <= i < |es| ==> es[i].lo <= es[i].hi <= |items|
  }

  /** The rows that the stacked entries stand for. */
  ghost function Pending(items: seq<Item>, es: seq<Entry>): multiset<Item>
    requires Within(items, es)
  {
    if es == [] then multiset{}
    else Pending(items, es[..|es| - 1]) + multiset(items[es[|es| - 1].lo..es[|es| - 1].hi])
  }

  ghost function TotalSize(es: seq<Entry>): nat {
    if es == [] then 0 else TotalSize(es[..|es| - 1]) + Size(es[|es| - 1].t)
  }

  // ---- What a search did -----------------------------------------------------

  /** The rows measured, in order, and the rows pruned. */
  datatype Log = Log(scanned: seq<Item>, skipped: seq<Item>) {
    ghost function All(): multiset<Item> {
      multiset(scanned) + multiset(skipped)
    }
  }

  ghost predicate Farther(q: Row, items: seq<Item>, d: int) {
    forall i :: 0 <= i < |items| ==> SqDist(q, items[i].v) > d
  }

  /** The slots are the five least of s and of the rows measured, by the kernel's distance;
      the rows pruned are truly farther than the fifth. */
  ghost predicate SlotsHold(k: Kernel, q: Row, slots: seq<Cand>, w: nat, s: multiset<Cand>, log: Log) {
    && IsGreatest(slots, w)
    && IsBest(multiset(slots), s + multiset(CandsBy(k, q, log.scanned)))
    && Farther(q, log.skipped, slots[w].d)
  }

  /** The kernel measures the rows of a log right. */
  ghost predicate Exact(k: Kernel, q: Row, items: seq<Item>) {
    forall i :: 0 <= i < |items| ==> KernelDist(k, q, items[i].v) == SqDist(q, items[i].v)
  }

  /** Pruning loses nothing when the kernel measures right: the slots are the five least of
      all rows, measured or not. */
  lemma SkippingLosesNothing(k: Kernel, q: Row, slots: seq<Cand>, w: nat, s: multiset<Cand>, log: Log)
    requires SlotsHold(k, q, slots, w, s, log) && Exact(k, q, log.scanned)
    ensures IsBest(multiset(slots), s + multiset(CandsOf(q, log.scanned + log.skipped)))
  {
    var seen, rest := CandsOf(q, log.scanned), CandsOf(q, log.skipped);
    CandsByExact(k, q, log.scanned);
    hide KernelDist, SqDist, IsBest, IsGreatest;
    forall y: Cand | y in multiset(rest)
      ensures y.d > slots[w].d
    {
      assert y in rest;
    }
    FartherIsPruned(slots, w, s + multiset(seen), multiset(rest));
    assert CandsOf(q, log.scanned + log.skipped) == seen + rest;
    assert s + multiset(seen) + multiset(rest) == s + multiset(seen + rest);
  }

  lemma SkipMore(k: Kernel, q: Row, slots: seq<Cand>, w: nat, s: multiset<Cand>, log: Log, more: seq<Item>)
    requires SlotsHold(k, q, slots, w, s, log) && Farther(q, more, slots[w].d)
    ensures SlotsHold(k, q, slots, w, s, Log(log.scanned, log.skipped + more))
    ensures Log(log.scanned, log.skipped + more).All() == log.All() + multiset(more)
  {
    hide SqDist, IsBest, IsGreatest, CandsBy;
  }

  // ---- Pruning ---------------------------------------------------------------

  /** Every row of a subtree is at least as far as its box. */
  lemma BoxFar(nodes: seq<KdNode>, boxes: seq<KdBox>, vec: seq<Row>, q: Row, e: Entry, i: nat)
    requires EntryOK(nodes, boxes, vec, e) && e.lo <= i < e.hi
    ensures OutsideSum(e.t.box, q, STRIDE) <= SqDist(q, vec[i])
  {
    var rs := vec[e.lo..e.hi];
    assert rs[i - e.lo] == vec[i];
    forall d | 0 <= d < STRIDE
      ensures e.t.box.lo[d] <= vec[i][d] <= e.t.box.hi[d]
    {
      assert LaneHull(e.t.box, rs, d);
    }
    BoxBound(e.t.box, q, vec[i], STRIDE);
  }

  /** The rows of a subtree whose box is farther than d are farther than d. */
  lemma BoxPrune(nodes: seq<KdNode>, boxes: seq<KdBox>, vec: seq<Row>, gidx: seq<int>, q: Row, e: Entry, d: int)
    requires EntryOK(nodes, boxes, vec, e) && |gidx| == |vec|
    requires OutsideSum(e.t.box, q, STRIDE) > d
    ensures Farther(q, ItemsOf(vec, gidx)[e.lo..e.hi], d)
  {
    forall i: nat | e.lo <= i < e.hi
      ensures SqDist(q, vec[i]) > d
    {
      BoxFar(nodes, boxes, vec, q, e, i);
    }
  }

  /** The rows beyond a split plane farther than d are farther than d. */
  lemma PlanePrune(vec: seq<Row>, gidx: seq<int>, q: Row, lo: nat, hi: nat, dim: nat, val: int, d: int)
    requires lo <= hi <= |vec| == |gidx| && dim < STRIDE
    requires (q[dim] <= val && forall i :: lo <= i < hi ==> val <= vec[i][dim])
          || (val <= q[dim] && forall i :: lo <= i < hi ==> vec[i][dim] <= val)
    requires Sq(q[dim] - val) > d
    ensures Farther(q, ItemsOf(vec, gidx)[lo..hi], d)
  {
    forall i: nat | lo <= i < hi
      ensures SqDist(q, vec[i]) > d
    {
      PlaneBound(q, vec[i], dim, val);
    }
  }

  // ---- The search ------------------------------------------------------------

  /** Measures the rows of one leaf and considers them. */
  method ScanLeaf(k: Kernel, q: Row, vec: seq<Row>, gidx: seq<int>, lo: nat, hi: nat, b: Best5,
                  ghost cands: seq<Cand>, ghost s: multiset<Cand>)
    requires lo <= hi <= |vec| == |gidx| == |cands|
    requires forall i :: lo <= i < hi ==> cands[i] == Cand(KernelDist(k, q, vec[i]), gidx[i])
    requires b.Valid() && IsBest(b.Contents(), s)
    modifies b, b.dist, b.gidx
    ensures b.Valid() && IsBest(b.Contents(), s + multiset(cands[lo..hi]))
    ensures b.Bound() <= old(b.Bound())
  {
    hide IsBest, IsGreatest, KernelDist;
    ghost var done := s;
    for r := lo to hi
      invariant b.Valid() && IsBest(b.Contents(), done) && b.Bound() <= old(b.Bound())
      invariant done == s + multiset(cands[lo..r])
    {
      var d := Measure(k, q, vec[r]);
      ConsiderRow(b, d, gidx[r], done);
      OneMore(s, cands, lo, r);
      done := done + multiset{cands[r]};
    }
  }

  lemma OneMore(s: multiset<Cand>, cands: seq<Cand>, lo: nat, r: nat)
    requires lo <= r < |cands|
    ensures s + multiset(cands[lo..r + 1]) == s + multiset(cands[lo..r]) + multiset{cands[r]}
  {
    SliceGrow(cands, lo, r);
  }

  lemma CandsBySlice(k: Kernel, q: Row, items: seq<Item>, lo: nat, hi: nat)
    requires lo <= hi <= |items|
    ensures CandsBy(k, q, items)[lo..hi] == CandsBy(k, q, items[lo..hi])
  {
    hide KernelDist;
  }

  method ConsiderRow(b: Best5, d: int, g: int, ghost s: multiset<Cand>)
    requires b.Valid() && IsBest(b.Contents(), s)
    modifies b, b.dist, b.gidx
    ensures b.Valid() && IsBest(b.Contents(), s + multiset{Cand(d, g)}) && b.Bound() <= old(b.Bound())
  {
    ConsideredIsBest(b.Slots(), b.worst, s, Cand(d, g));
    b.Consider(d, g);
  }

  /** Scans a leaf: its rows are measured, and what was pruned before stays farther. */
  method ScanMore(k: Kernel, q: Row, p: Part, lo: nat, hi: nat, b: Best5, ghost s: multiset<Cand>, ghost log: Log)
    returns (ghost log': Log)
    requires p.Filled() && lo <= hi <= p.count
    requires b.Valid() && SlotsHold(k, q, b.Slots(), b.worst, s, log)
    modifies b, b.dist, b.gidx
    ensures b.Valid() && SlotsHold(k, q, b.Slots(), b.worst, s, log')
    ensures log' == Log(log.scanned + p.Items()[lo..hi], log.skipped)
    ensures log'.All() == log.All() + multiset(p.Items()[lo..hi])
  {
    hide IsBest, SqDist, KernelDist;
    ghost var more := p.Items()[lo..hi];
    ScanLeaf(k, q, p.vec, p.gidx, lo, hi, b, CandsBy(k, q, p.Items()), s + multiset(CandsBy(k, q, log.scanned)));
    CandsBySlice(k, q, p.Items(), lo, hi);
    log' := Log(log.scanned + more, log.skipped);
    CandsByJoin(k, q, log.scanned, more);
    assert s + multiset(CandsBy(k, q, log.scanned)) + multiset(CandsBy(k, q, more))
        == s + multiset(CandsBy(k, q, log'.scanned));
  }

  /** Every stack entry is an entry of the tree, and an entry higher on the stack is
      correspondingly lower in the tree. */
  ghost predicate StackOK(p: Part, stack: seq<int>, es: seq<Entry>)
    requires p.Built() && p.count > 0
    reads p
  {
    && |stack| == |es|
    && (forall i :: 0 <= i < |es| ==> stack[i] == es[i].n && EntryOK(p.nodes, p.boxes, p.vec, es[i]))
    && (forall i :: 0 <= i < |es| ==> Height(es[i].t) + i <= Height(p.tree))
  }

  lemma StackWithin(p: Part, stack: seq<int>, es: seq<Entry>, items: seq<Item>)
    requires p.Built() && p.count > 0 && StackOK(p, stack, es) && |items| == |p.vec|
    ensures Within(items, es)
  {
  }

  lemma StackPop(p: Part, stack: seq<int>, es: seq<Entry>, items: seq<Item>)
    requires p.Built() && p.count > 0 && StackOK(p, stack, es) && |items| == |p.vec| && |stack| > 0
    ensures |es| == |stack| && Within(items, es) && Within(items, es[..|es| - 1])
    ensures var e, er := es[|es| - 1], es[..|es| - 1];
            && EntryOK(p.nodes, p.boxes, p.vec, e) && stack[|stack| - 1] == e.n
            && StackOK(p, stack[..|stack| - 1], er) && Height(e.t) + |er| <= Height(p.tree)
            && Pending(items, es) == Pending(items, er) + multiset(items[e.lo..e.hi])
            && TotalSize(es) == TotalSize(er) + Size(e.t)
  {
    hide TreeOK, NodesOf, BoxesOf;
  }

  lemma StackPush(p: Part, stack: seq<int>, es: seq<Entry>, e: Entry)
    requires p.Built() && p.count > 0 && StackOK(p, stack, es)
    requires EntryOK(p.nodes, p.boxes, p.vec, e) && Height(e.t) + |es| <= Height(p.tree)
    ensures StackOK(p, stack + [e.n], es + [e])
  {
  }

  lemma PendingPush(items: seq<Item>, es: seq<Entry>, e: Entry)
    requires Within(items, es) && e.lo <= e.hi <= |items|
    ensures Within(items, es + [e])
    ensures Pending(items, es + [e]) == Pending(items, es) + multiset(items[e.lo..e.hi])
    ensures TotalSize(es + [e]) == TotalSize(es) + Size(e.t)
  {
    assert (es + [e])[..|es|] == es;
  }

  /** The rows of an inner node are those of its two children. */
  lemma PendingSplit(items: seq<Item>, e: Entry)
    requires e.t.Split? && e.lo <= e.hi <= |items|
    ensures multiset(items[e.lo..e.hi]) ==
            multiset(items[LeftEntry(e).lo..LeftEntry(e).hi]) + multiset(items[RightEntry(e).lo..RightEntry(e).hi])
  {
    var l, r := LeftEntry(e), RightEntry(e);
    assert l.lo == e.lo && l.hi == r.lo && r.hi == e.hi && e.lo <= r.lo <= e.hi;
    hide LeftEntry, RightEntry;
    SliceJoin(items, e.lo, r.lo, e.hi);
  }

  /** The split value separates the rows of the two children. */
  lemma SplitSides(vec: seq<Row>, e: Entry)
    requires e.t.Split? && e.lo < e.hi <= |vec| && TreeOK(e.t, vec[e.lo..e.hi], e.lo)
    ensures forall i :: LeftEntry(e).lo <= i < LeftEntry(e).hi ==> vec[i][e.t.dim] <= e.t.val
    ensures forall i :: RightEntry(e).lo <= i < RightEntry(e).hi ==> e.t.val <= vec[i][e.t.dim]
  {
    var rs := vec[e.lo..e.hi];
    assert forall i :: e.lo <= i < e.hi ==> vec[i] == rs[i - e.lo];
  }

  ghost function FarEntry(q: Row, e: Entry): Entry
    requires e.t.Split? && e.t.dim < STRIDE && e.lo <= e.hi
  {
    if q[e.t.dim] <= e.t.val then RightEntry(e) else LeftEntry(e)
  }

  ghost function NearEntry(q: Row, e: Entry): Entry
    requires e.t.Split? && e.t.dim < STRIDE && e.lo <= e.hi
  {
    if q[e.t.dim] <= e.t.val then LeftEntry(e) else RightEntry(e)
  }

  lemma FarPrune(vec: seq<Row>, gidx: seq<int>, q: Row, e: Entry, d: int)
    requires e.t.Split? && e.lo < e.hi <= |vec| == |gidx| && TreeOK(e.t, vec[e.lo..e.hi], e.lo)
    requires Sq(q[e.t.dim] - e.t.val) > d
    ensures Farther(q, ItemsOf(vec, gidx)[FarEntry(q, e).lo..FarEntry(q, e).hi], d)
  {
    SplitSides(vec, e);
    PlanePrune(vec, gidx, q, FarEntry(q, e).lo, FarEntry(q, e).hi, e.t.dim, e.t.val, d);
  }

  lemma SplitSizes(e: Entry)
    requires e.t.Split? && e.lo <= e.hi
    ensures Size(LeftEntry(e).t) + Size(RightEntry(e).t) < Size(e.t)
    ensures Height(LeftEntry(e).t) < Height(e.t) && Height(RightEntry(e).t) < Height(e.t)
  {
  }

  /** The children of a node that go on the stack, the near one on top. */
  ghost function Pushed(q: Row, nd: KdNode, bound: int): seq<int>
    requires 0 <= nd.splitDim < STRIDE
  {
    var delta := q[nd.splitDim] - nd.splitVal;
    if delta <= 0 then (if Sq(delta) <= bound then [nd.right, nd.left] else [nd.left])
    else (if Sq(delta) <= bound then [nd.left, nd.right] else [nd.right])
  }

  lemma PushedIs(q: Row, nd: KdNode, bound: int, delta: int, keepFar: bool)
    requires 0 <= nd.splitDim < STRIDE && delta == q[nd.splitDim] - nd.splitVal
    requires keepFar == (delta * delta <= bound)
    ensures keepFar == (Sq(delta) <= bound)
    ensures delta <= 0 ==> Pushed(q, nd, bound) == if keepFar then [nd.right, nd.left] else [nd.left]
    ensures delta > 0 ==> Pushed(q, nd, bound) == if keepFar then [nd.left, nd.right] else [nd.right]
  {
  }

  /** Pushes the near child over the far one; the far child is left out when the plane is
      farther than the worst slot. Ghost results: the entries pushed, and the log with the
      rows left out. */
  method PushChildren(k: Kernel, p: Part, q: Row, b: Best5, nd: KdNode, stack: seq<int>, ghost es: seq<Entry>,
                      ghost e: Entry, ghost s: multiset<Cand>, ghost log: Log)
    returns (stack': seq<int>, ghost es': seq<Entry>, ghost log': Log)
    requires p.Built() && p.count > 0 && StackOK(p, stack, es)
    requires EntryOK(p.nodes, p.boxes, p.vec, e) && Height(e.t) + |es| <= Height(p.tree)
    requires e.t.Split? && nd == p.nodes[e.n]
    requires b.Valid() && SlotsHold(k, q, b.Slots(), b.worst, s, log)
    ensures 0 <= nd.splitDim < STRIDE && stack' == stack + Pushed(q, nd, b.Bound())
    ensures StackOK(p, stack', es') && |es'| > 0
    ensures SlotsHold(k, q, b.Slots(), b.worst, s, log') && log'.scanned == log.scanned
    ensures TotalSize(es') < TotalSize(es) + Size(e.t)
    ensures var items := p.Items();
            && Within(items, es) && Within(items, es')
            && log'.All() + Pending(items, es') == log.All() + Pending(items, es) + multiset(items[e.lo..e.hi])
  {
    hide NodesOf, BoxesOf, IsHull, TreeOK, StackOK, Within, Pending, TotalSize, Size, Height;
    hide SlotsHold, Farther, Log.All;
    ghost var items := p.Items();
    StackWithin(p, stack, es, items);
    EntryTree(p, e);
    Sides(p, q, e);
    hide EntryOK, FarEntry, NearEntry;
    var delta := q[nd.splitDim] - nd.splitVal;
    var keepFar := delta * delta <= b.Bound();
    PushedIs(q, nd, b.Bound(), delta, keepFar);
    hide Sq, Pushed;
    log' := log;
    ghost var f := FarEntry(q, e);
    if !keepFar {
      FarPrune(p.vec, p.gidx, q, e, b.Bound());
      SkipMore(k, q, b.Slots(), b.worst, s, log, items[f.lo..f.hi]);
      log' := Log(log.scanned, log.skipped + items[f.lo..f.hi]);
    }
    var far, near := nd.left, nd.right;
    if delta <= 0 {
      far, near := nd.right, nd.left;
    }
    ghost var done: multiset<Item>;
    stack', es', done := PushPair(p, stack, far, near, keepFar, es, f, NearEntry(q, e), items, log.All());
    assert done == log'.All();
  }

  lemma EntryTree(p: Part, e: Entry)
    requires EntryOK(p.nodes, p.boxes, p.vec, e) && e.t.Split?
    ensures e.t.dim < STRIDE && e.lo < e.hi <= |p.vec| && TreeOK(e.t, p.vec[e.lo..e.hi], e.lo)
  {
  }

  /** What the far and the near child have in common with the two halves. */
  lemma Sides(p: Part, q: Row, e: Entry)
    requires p.Built() && EntryOK(p.nodes, p.boxes, p.vec, e) && e.t.Split?
    ensures var f, n, items := FarEntry(q, e), NearEntry(q, e), p.Items();
            && p.nodes[e.n].splitDim == e.t.dim && p.nodes[e.n].splitVal == e.t.val
            && f.n == (if q[e.t.dim] <= e.t.val then p.nodes[e.n].right else p.nodes[e.n].left)
            && n.n == (if q[e.t.dim] <= e.t.val then p.nodes[e.n].left else p.nodes[e.n].right)
            && EntryOK(p.nodes, p.boxes, p.vec, f) && EntryOK(p.nodes, p.boxes, p.vec, n)
            && f.lo < f.hi <= p.count && n.lo < n.hi <= p.count
            && Size(f.t) + Size(n.t) < Size(e.t) && Height(f.t) < Height(e.t) && Height(n.t) < Height(e.t)
            && multiset(items[f.lo..f.hi]) + multiset(items[n.lo..n.hi]) == multiset(items[e.lo..e.hi])
  {
    SplitSizes(e);
    hide NodesOf, BoxesOf, IsHull, TreeOK, Size, Height;
    SplitRoot(p.nodes, p.boxes, p.vec, e);
    PendingSplit(p.Items(), e);
  }

  /** Ghost results: the entries pushed, and done with the rows of f if it is left out. */
  method PushPair(p: Part, stack: seq<int>, far: int, near: int, keepFar: bool, ghost es: seq<Entry>,
                  ghost f: Entry, ghost n: Entry, ghost items: seq<Item>, ghost done: multiset<Item>)
    returns (stack': seq<int>, ghost es': seq<Entry>, ghost done': multiset<Item>)
    requires p.Built() && p.count > 0 && StackOK(p, stack, es) && |items| == |p.vec|
    requires EntryOK(p.nodes, p.boxes, p.vec, f) && EntryOK(p.nodes, p.boxes, p.vec, n)
    requires f.n == far && n.n == near
    requires Height(f.t) + |es| + 1 <= Height(p.tree) && Height(n.t) + |es| + 1 <= Height(p.tree)
    ensures stack' == stack + (if keepFar then [far, near] else [near])
    ensures StackOK(p, stack', es') && |es'| > 0
    ensures done' == if keepFar then done else done + multiset(items[f.lo..f.hi])
    ensures TotalSize(es') <= TotalSize(es) + Size(f.t) + Size(n.t)
    ensures Within(items, es) && Within(items, es') && done' + Pending(items, es') ==
            done + Pending(items, es) + (multiset(items[f.lo..f.hi]) + multiset(items[n.lo..n.hi]))
  {
    hide TreeOK, NodesOf, BoxesOf;
    StackWithin(p, stack, es, items);
    stack', es', done' := stack, es, done;
    ghost var mf, mn := multiset(items[f.lo..f.hi]), multiset(items[n.lo..n.hi]);
    if keepFar {
      StackPush(p, stack', es', f);
      PendingPush(items, es', f);
      stack', es' := stack' + [far], es' + [f];
    } else {
      done' := done + mf;
    }
    StackPush(p, stack', es', n);
    PendingPush(items, es', n);
    stack', es' := stack' + [near], es' + [n];
    hide StackOK, EntryOK, Within, Pending, TotalSize, Height, Size;
    Regroup(done, Pending(items, es), mf, mn);
  }

  lemma Reorder<T>(a: multiset<T>, b: multiset<T>, c: multiset<T>)
    ensures a + b + c == a + (c + b) == a + c + b
  {
  }

  lemma Regroup<T>(a: multiset<T>, b: multiset<T>, c: multiset<T>, d: multiset<T>)
    ensures a + c + (b + d) == a + b + (c + d)
    ensures a + (b + c + d) == a + b + (c + d)
  {
  }

  /** One turn of the search loop: pops a node and prunes, scans or expands it. A leaf that is
      popped while a slot is empty is scanned. */
  method Visit(k: Kernel, p: Part, q: Row, b: Best5, stack: seq<int>, ghost es: seq<Entry>,
               ghost s: multiset<Cand>, ghost log: Log)
    returns (stack': seq<int>, ghost es': seq<Entry>, ghost log': Log)
    requires p.Built() && p.count > 0 && |stack| > 0 && StackOK(p, stack, es)
    requires b.Valid() && SlotsHold(k, q, b.Slots(), b.worst, s, log)
    modifies b, b.dist, b.gidx
    ensures StackOK(p, stack', es')
    ensures b.Valid() && SlotsHold(k, q, b.Slots(), b.worst, s, log')
    ensures TotalSize(es') < TotalSize(es)
    ensures var items := p.Items();
            && Within(items, es) && Within(items, es')
            && log'.All() + Pending(items, es') == log.All() + Pending(items, es)
    ensures |es| == |stack| &&
      var e, items := es[|es| - 1], p.Items();
      e.lo <= e.hi <= |items| &&
      if OutsideSum(e.t.box, q, STRIDE) > old(b.Bound()) then
        stack' == stack[..|stack| - 1] && es' == es[..|es| - 1]
        && log' == Log(log.scanned, log.skipped + items[e.lo..e.hi]) && b.Slots() == old(b.Slots())
      else if e.t.Leaf? then
        stack' == stack[..|stack| - 1] && es' == es[..|es| - 1]
        && log' == Log(log.scanned + items[e.lo..e.hi], log.skipped)
      else log'.scanned == log.scanned && b.Slots() == old(b.Slots())
  {
    ghost var items := p.Items();
    StackPop(p, stack, es, items);
    StackWithin(p, stack, es, items);
    hide NodesOf, BoxesOf, IsHull, Separates, StackOK, Within, Pending, TotalSize, Height, SlotsHold, Farther, Log.All;
    var n, rest := stack[|stack| - 1], stack[..|stack| - 1];
    ghost var e, er := es[|es| - 1], es[..|es| - 1];
    Reorder(log.All(), multiset(items[e.lo..e.hi]), Pending(items, er));
    if e.t.Leaf? {
      LeafRoot(p.nodes, p.boxes, p.vec, e);
    } else {
      SplitRoot(p.nodes, p.boxes, p.vec, e);
    }
    var bound := AabbLowerBound(p.boxes[n], q);
    if bound > b.Bound() {
      BoxPrune(p.nodes, p.boxes, p.vec, p.gidx, q, e, b.Bound());
      SkipMore(k, q, b.Slots(), b.worst, s, log, items[e.lo..e.hi]);
      return rest, er, Log(log.scanned, log.skipped + items[e.lo..e.hi]);
    }
    var nd := p.nodes[n];
    if nd.splitDim == LEAF_MARK {
      log' := ScanMore(k, q, p, nd.left, nd.right, b, s, log);
      return rest, er, log';
    }
    stack', es', log' := PushChildren(k, p, q, b, nd, rest, er, e, s, log);
  }

  /** Searching a partition, with any rows and either kernel: every row of it is either
      measured or pruned, the slots are the five least of all that was measured, and what was
      pruned is truly farther. A partition of one leaf is measured whole while a slot is empty.
      The stack never outgrows its 64 preallocated slots when row numbers fit int32; peak is the
      greatest height it reached. */
  method SearchPart(k: Kernel, p: Part, q: Row, b: Best5, ghost s: multiset<Cand>, ghost log: Log)
    returns (ghost log': Log, ghost peak: nat)
    requires p.Built()
    requires b.Valid() && SlotsHold(k, q, b.Slots(), b.worst, s, log)
    modifies b, b.dist, b.gidx
    ensures b.Valid() && SlotsHold(k, q, b.Slots(), b.worst, s, log')
    ensures log'.All() == log.All() + multiset(p.Items())
    ensures p.count == 0 ==> log' == log
    ensures p.count <= LEAF_SIZE && old(b.Bound()) >= FAR ==> log'.skipped == log.skipped
    ensures p.count < 0x8000_0000 ==> peak <= 26
  {
    ghost var one := p.count <= LEAF_SIZE && b.Bound() >= FAR;
    hide StackOK, Pending, SlotsHold, TreeOK, NodesOf, BoxesOf, EntryOK, Log.All;
    ghost var items := p.Items();
    peak := 0;
    log' := log;
    if p.count == 0 {
      assert items == [];
      assert log.All() + multiset(items) == log.All();
      return;
    }
    var stack := [0];
    ghost var root := Entry(0, p.tree, 0, p.count);
    ghost var es := [root];
    RootPending(p, items);
    RootLeaf(p, q);
    hide OutsideSum;
    peak := 1;
    while |stack| > 0
      invariant StackOK(p, stack, es)
      invariant b.Valid() && SlotsHold(k, q, b.Slots(), b.worst, s, log')
      invariant Within(items, es)
      invariant log'.All() + Pending(items, es) == log.All() + multiset(items)
      invariant one ==> log'.skipped == log.skipped && (es == [] || (es == [root] && b.Bound() >= FAR))
      invariant peak <= Height(p.tree) + 1
      decreases TotalSize(es)
    {
      stack, es, log' := Visit(k, p, q, b, stack, es, s, log');
      StackHeight(p, stack, es);
      if |es| > peak {
        peak := |es|;
      }
    }
    StackEmpty(p, stack, es, items);
    assert log'.All() + multiset{} == log'.All();
    if p.count < 0x8000_0000 {
      TreeHeight(p);
    }
  }

  lemma RootLeaf(p: Part, q: Row)
    requires p.Built() && p.count > 0
    ensures (p.count <= LEAF_SIZE ==> p.tree.Leaf?) && OutsideSum(p.tree.box, q, STRIDE) < FAR
  {
    OutsideBound(p.tree.box, q, STRIDE);
  }

  lemma RootPending(p: Part, items: seq<Item>)
    requires p.Built() && p.count > 0 && |items| == p.count
    ensures var root := Entry(0, p.tree, 0, p.count);
            && StackOK(p, [0], [root]) && Within(items, [root])
            && Pending(items, [root]) == multiset(items)
  {
    hide TreeOK;
    var root := Entry(0, p.tree, 0, p.count);
    assert p.vec[0..p.count] == p.vec && items[0..p.count] == items;
    PendingPush(items, [], root);
    assert [] + [root] == [root];
  }

  lemma StackHeight(p: Part, stack: seq<int>, es: seq<Entry>)
    requires p.Built() && p.count > 0 && StackOK(p, stack, es)
    ensures |es| <= Height(p.tree) + 1
  {
    if es != [] {
      assert Height(es[|es| - 1].t) + (|es| - 1) <= Height(p.tree);
    }
  }

  lemma StackEmpty(p: Part, stack: seq<int>, es: seq<Entry>, items: seq<Item>)
    requires p.Built() && p.count > 0 && StackOK(p, stack, es) && |stack| == 0
    ensures Within(items, es) && Pending(items, es) == multiset{}
  {
  }

  lemma TreeHeight(p: Part)
    requires p.Built() && 0 < p.count < 0x8000_0000
    ensures Height(p.tree) <= 25
  {
    HeightBoundInt32(p.tree, p.vec);
  }
}
