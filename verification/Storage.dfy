/** Saving an index and opening it again (internal/index/mmap.go): the reopened index is
    valid for the same references, so it answers every query alike. */
module Storage {
  import opened Numbers
  import opened Distance
  import opened Nearest
  import opened Partition
  import opened Sequences
  import opened KdTree
  import opened Kd
  import opened Layout

  function ImageOf(p: Part): PartImage
    reads p
  {
    PartImage(p.nodes, p.boxes, p.vec, p.gidx)
  }

  function Images(kd: KD): (r: seq<PartImage>)
    reads kd.parts
    ensures |r| == |kd.parts| && forall k :: 0 <= k < |r| ==> r[k] == ImageOf(kd.parts[k])
  {
    seq(|kd.parts|, k requires 0 <= k < |kd.parts| reads kd.parts => ImageOf(kd.parts[k]))
  }

  // ---- A valid index can always be written -----------------------------------------------

  lemma NodesOfPart(p: Part)
    requires p.Built() && p.count < 0x8000_0000
    ensures |p.nodes| <= p.count && |p.boxes| == |p.nodes|
    ensures forall i :: 0 <= i < |p.nodes| ==> p.nodes[i].Fits()
  {
    hide TreeOK, NodesOf, BoxesOf, KdNode.Fits;
    if p.count > 0 {
      SizeBound(p.tree, p.vec, 0);
      NodesFit(p.tree, p.vec, 0, 0);
      assert forall i :: 0 <= i < |p.nodes| ==> p.nodes[i] in NodesOf(p.tree, 0);
    }
  }

  lemma PartFits(p: Part, rows: seq<Row>, k: nat)
    requires p.Built() && multiset(p.Items()) == multiset(ItemsIn(rows, |rows|, {k})) && |rows| < 0x8000_0000
    ensures ImageOf(p).Fits() && p.count <= |rows| && |p.nodes| <= |rows|
  {
    var items, bucket := p.Items(), ItemsIn(rows, |rows|, {k});
    hide TreeOK, NodesOf, BoxesOf, KdNode.Fits, PartKey16, ItemsIn;
    ItemsInRows(rows, |rows|, {k});
    SameMembers(items, bucket);
    NodesOfPart(p);
    forall i | 0 <= i < |p.gidx|
      ensures 0 <= p.gidx[i] < |rows|
    {
      assert items[i] in bucket;
    }
  }

  lemma {:induction false} FileBound(ps: seq<PartImage>, n: nat, k: nat, bound: nat)
    requires k <= |ps|
    requires forall j :: 0 <= j < |ps| ==>
      |ps[j].nodes| <= bound && |ps[j].boxes| <= bound && |ps[j].vec| <= bound && |ps[j].gidx| <= bound
    ensures OffBefore(ps, n, k) <= 800 + n + k * (112 * bound + 40)
  {
    if k > 0 {
      FileBound(ps, n, k - 1, bound);
      assert k * (112 * bound + 40) == (k - 1) * (112 * bound + 40) + 112 * bound + 40;
    }
  }

  lemma KdWritable(kd: KD)
    requires kd.Valid()
    ensures Writable(Images(kd), kd.fraud)
  {
    hide OffBefore, TreeOK, NodesOf, BoxesOf;
    var ps := Images(kd);
    forall k: nat | k < NUM_BUCKETS
      ensures ps[k].Fits() && |ps[k].nodes| <= |kd.rows| && |ps[k].vec| <= |kd.rows|
    {
      assert kd.parts[k].Built();
      PartFits(kd.parts[k], kd.rows, k);
    }
    FileBound(ps, |kd.fraud|, NUM_BUCKETS, |kd.rows|);
  }

  // ---- Save and reopen ---------------------------------------------------------------------

  method Save(kd: KD) returns (buf: array<int>)
    requires kd.Valid()
    ensures fresh(buf) && FileHolds(buf[..], Images(kd), kd.fraud, NUM_BUCKETS)
    ensures buf.Length > LabelsBase() <==> kd.rows != []
  {
    hide FileHolds, Writable, OffBefore, TreeOK, NodesOf, BoxesOf, IsProbeOrder, ItemsIn, Part.Built;
    KdWritable(kd);
    var parts: seq<PartImage> := [];
    for k := 0 to NUM_BUCKETS
      invariant parts == Images(kd)[..k]
    {
      parts := parts + [ImageOf(kd.parts[k])];
    }
    assert parts == Images(kd);
    buf := WriteKD(parts, kd.fraud);
    StoredIff(kd);
  }

  /** The file of an index holds something exactly when there are reference rows. */
  lemma StoredIff(kd: KD)
    requires kd.Valid()
    ensures OffBefore(Images(kd), |kd.fraud|, NUM_BUCKETS) > LabelsBase() <==> kd.rows != []
  {
    hide OffBefore, TreeOK, NodesOf, BoxesOf, IsProbeOrder;
    NothingStoredIff(Images(kd), |kd.fraud|);
    if kd.rows == [] {
      forall k: nat | k < NUM_BUCKETS
        ensures ImageOf(kd.parts[k]) == EMPTY_PART
      {
        assert kd.parts[k].Built() && ItemsIn(kd.rows, |kd.rows|, {k}) == [];
        assert |multiset(kd.parts[k].Items())| == 0;
      }
    }
  }

  method PartFrom(image: PartImage, ghost source: Part) returns (p: Part)
    requires source.Built() && image == ImageOf(source)
    ensures fresh(p) && p.Built() && ImageOf(p) == image
  {
    hide TreeOK, NodesOf, BoxesOf;
    p := new Part();
    p.nodes, p.boxes, p.vec, p.gidx := image.nodes, image.boxes, image.vec, image.gidx;
    p.count := |image.vec|;
    p.tree := source.tree;
  }

  /** Partition objects over the opened regions; tree is the shape their nodes encode. */
  method PartsFrom(images: seq<PartImage>, ghost kd: KD) returns (parts: seq<Part>)
    requires kd.Valid() && images == Images(kd)
    ensures fresh(parts) && |parts| == NUM_BUCKETS
    ensures forall k: nat :: k < NUM_BUCKETS ==> parts[k].Built() && ImageOf(parts[k]) == images[k]
  {
    hide Part.Built;
    parts := [];
    for k := 0 to NUM_BUCKETS
      invariant fresh(parts) && |parts| == k
      invariant forall j: nat :: j < k ==> parts[j].Built() && ImageOf(parts[j]) == images[j]
    {
      assert kd.parts[k].Built();
      var p := PartFrom(images[k], kd.parts[k]);
      parts := parts + [p];
    }
  }

  /** Opening the bytes that Save wrote for kd; null stands for the failed access. */
  method Reopen(buf: seq<int>, ghost kd: KD) returns (kd': KD?)
    requires kd.Valid() && FileHolds(buf, Images(kd), kd.fraud, NUM_BUCKETS)
    ensures kd' != null <==> |buf| > LabelsBase()
    ensures kd' != null ==>
      && fresh(kd') && fresh(kd'.parts) && kd'.Valid()
      && kd'.rows == kd.rows && kd'.fraud == kd.fraud && Images(kd') == Images(kd)
  {
    hide FileHolds, Writable, OffBefore, TreeOK, NodesOf, BoxesOf, IsProbeOrder, ItemsIn, LabelsBase;
    KdWritable(kd);
    var res := Open(buf, Images(kd), kd.fraud);
    if !res.Opened? {
      return null;
    }
    var parts := PartsFrom(res.parts, kd);
    var orders := AllProbeOrders();
    kd' := new KD(parts, res.fraud, orders, kd.rows);
  }

  method AllProbeOrders() returns (orders: seq<seq<nat>>)
    ensures |orders| == NUM_BUCKETS && ProbeOrders(orders)
  {
    orders := [];
    for k := 0 to NUM_BUCKETS
      invariant |orders| == k && ProbeOrders(orders)
    {
      var order := ProbeOrderFor(k);
      orders := orders + [order];
    }
  }

  /** A saved and reopened index gives the answers of the original; only the file of an
      index without any rows cannot be opened. */
  method SaveAndReopen(k: Kernel, kd: KD, q: Row) returns (before: seq<int>, after: Option<seq<int>>)
    requires kd.Valid() && InDomain(q) && kd.AllSafe() && Agrees(k, q, kd.rows)
    ensures after == if kd.rows == [] then None else Some(before)
    ensures IsNeighbors5(before, q, kd.rows)
  {
    hide Agrees, KD.Found, KD.Swept, KD.AllSafe;
    before := kd.Neighbors5(k, q);
    var buf := Save(kd);
    var kd' := Reopen(buf[..], kd);
    if kd' == null {
      return before, None;
    }
    KeptSafe(kd, kd');
    var found := kd'.Neighbors5(k, q);
    Neighbors5Unique(before, found, q, kd.rows);
    after := Some(found);
  }

  lemma KeptSafe(kd: KD, kd': KD)
    requires kd.rows == kd'.rows && kd.AllSafe()
    ensures kd'.AllSafe()
  {
  }
}
