/** The index file (internal/index/mmap.go): header, labels, and four regions per
    partition at computed offsets, written into one buffer and read back through it. */
module Layout {
  import opened Numbers
  import opened Distance
  import opened Partition
  import opened KdTree
  import opened Encoding
  import opened Sequences

  const KD_MAGIC: octets := [82, 78, 72, 75, 68, 48, 48, 51]
  const DIR_ENTRY: nat := 48
  const DIR_SIZE: nat := 768

  function Align8(n: nat): (r: nat)
    ensures n <= r < n + 8 && r % 8 == 0
  {
    (n + 7) / 8 * 8
  }

  /** Offset of the labels; the writer and the reader compute it separately. */
  function LabelsBase(): nat {
    Align8(16 + DIR_SIZE)
  }

  /** What a partition contributes to the file, and gets back from it. */
  datatype PartImage = PartImage(nodes: seq<KdNode>, boxes: seq<KdBox>, vec: seq<Row>, gidx: seq<int>) {
    predicate Fits() {
      && |boxes| == |nodes| && |gidx| == |vec|
      && (forall i :: 0 <= i < |nodes| ==> nodes[i].Fits())
      && (forall i :: 0 <= i < |gidx| ==> -0x8000_0000 <= gidx[i] < 0x8000_0000)
    }

    function Nodes(): octets { EncodeAll(EncNode, nodes) }
    function Boxes(): octets { EncodeAll(EncBox, boxes) }
    function Vec(): octets { EncodeAll(EncRow, vec) }
    function Gidx(): octets { EncodeAll(EncId, gidx) }
  }

  datatype DirEntry = DirEntry(count: int, nNodes: int, nodesOff: int, boxesOff: int, vecOff: int, gidxOff: int) {
    function Fields(): seq<int> {
      [count, nNodes, nodesOff, boxesOff, vecOff, gidxOff]
    }

    predicate Fits() {
      forall i :: 0 <= i < 6 ==> 0 <= Fields()[i] < 0x8000_0000_0000_0000
    }
  }

  function Enc64(x: int): (s: octets)
    ensures |s| == 8
  {
    Le(x, 8)
  }

  /** struct partDir: six int64 fields. */
  function EncEntry(d: DirEntry): (s: octets)
    ensures |s| == DIR_ENTRY
  {
    EncodedLength(Enc64, 8, d.Fields());
    EncodeAll(Enc64, d.Fields())
  }

  function DecEntry(s: octets): DirEntry {
    if |s| != DIR_ENTRY then DirEntry(0, 0, 0, 0, 0, 0)
    else
      var f := DecodeAll(SignedOf, 8, 6, s);
      DirEntry(f[0], f[1], f[2], f[3], f[4], f[5])
  }

  lemma EntryRoundTrip(d: DirEntry)
    requires d.Fits()
    ensures DecEntry(EncEntry(d)) == d
  {
    Widths();
    forall i | 0 <= i < 6
      ensures SignedOf(Enc64(d.Fields()[i])) == d.Fields()[i]
    {
      SignedLe(d.Fields()[i], 8);
    }
    DecodeEncoded(Enc64, SignedOf, 8, d.Fields());
  }

  // ---- Offsets ---------------------------------------------------------------------------

  /** One turn of the offset loop: the entry of p when the running offset is off. */
  function EntryAt(p: PartImage, off: nat): DirEntry {
    var a := Align8(off);
    var b := Align8(a + NODE_SIZE * |p.nodes|);
    var c := Align8(b + BOX_SIZE * |p.boxes|);
    var d := Align8(c + ROW_SIZE * |p.vec|);
    DirEntry(|p.vec|, |p.nodes|, a, b, c, d)
  }

  /** The running offset after p. */
  function OffAfter(p: PartImage, off: nat): (r: nat)
    ensures r >= off
  {
    Align8(EntryAt(p, off).gidxOff + ID_SIZE * |p.gidx|)
  }

  /** The running offset before partition k. */
  function OffBefore(ps: seq<PartImage>, n: nat, k: nat): (r: nat)
    requires k <= |ps|
    ensures r >= LabelsBase() + n
  {
    if k == 0 then Align8(LabelsBase() + n) else OffAfter(ps[k - 1], OffBefore(ps, n, k - 1))
  }

  function Entry(ps: seq<PartImage>, n: nat, k: nat): DirEntry
    requires k < |ps|
  {
    EntryAt(ps[k], OffBefore(ps, n, k))
  }

  lemma {:induction false} OffMono(ps: seq<PartImage>, n: nat, j: nat, k: nat)
    requires j <= k <= |ps|
    ensures OffBefore(ps, n, j) <= OffBefore(ps, n, k)
    decreases k - j
  {
    if j < k {
      OffMono(ps, n, j, k - 1);
    }
  }

  lemma EntryOrdered(p: PartImage, off: nat)
    ensures var d := EntryAt(p, off);
            && d.nodesOff % 8 == 0 && d.boxesOff % 8 == 0 && d.vecOff % 8 == 0 && d.gidxOff % 8 == 0
            && off <= d.nodesOff
            && d.nodesOff + NODE_SIZE * |p.nodes| <= d.boxesOff
            && d.boxesOff + BOX_SIZE * |p.boxes| <= d.vecOff
            && d.vecOff + ROW_SIZE * |p.vec| <= d.gidxOff
            && d.gidxOff + ID_SIZE * |p.gidx| <= OffAfter(p, off)
  {
    hide Align8;
  }

  /** The regions of one partition: 8-aligned, in order, without overlap, inside
      [OffBefore(k), OffBefore(k + 1)), and that range starts after the labels. Ranges of
      different partitions therefore never overlap, and all lie inside the file. */
  lemma RegionsDisjoint(ps: seq<PartImage>, n: nat, k: nat)
    requires k < |ps|
    ensures var d := Entry(ps, n, k);
            && d.nodesOff % 8 == 0 && d.boxesOff % 8 == 0 && d.vecOff % 8 == 0 && d.gidxOff % 8 == 0
            && LabelsBase() + n <= OffBefore(ps, n, k) <= d.nodesOff
            && d.nodesOff + NODE_SIZE * |ps[k].nodes| <= d.boxesOff
            && d.boxesOff + BOX_SIZE * |ps[k].boxes| <= d.vecOff
            && d.vecOff + ROW_SIZE * |ps[k].vec| <= d.gidxOff
            && d.gidxOff + ID_SIZE * |ps[k].gidx| <= OffBefore(ps, n, k + 1) <= OffBefore(ps, n, |ps|)
    ensures forall j :: k < j < |ps| ==> OffBefore(ps, n, k + 1) <= Entry(ps, n, j).nodesOff
  {
    EntryOrdered(ps[k], OffBefore(ps, n, k));
    hide Align8, OffAfter, EntryAt;
    OffMono(ps, n, k + 1, |ps|);
    forall j | k < j < |ps|
      ensures OffBefore(ps, n, k + 1) <= Entry(ps, n, j).nodesOff
    {
      OffMono(ps, n, k + 1, j);
      EntryOrdered(ps[j], OffBefore(ps, n, j));
    }
  }

  const EMPTY_PART: PartImage := PartImage([], [], [], [])

  lemma {:induction false} EmptyOffsets(ps: seq<PartImage>, k: nat)
    requires k <= |ps| && forall j :: 0 <= j < |ps| ==> ps[j] == EMPTY_PART
    ensures OffBefore(ps, 0, k) == LabelsBase()
  {
    if k > 0 {
      EmptyOffsets(ps, k - 1);
    }
  }

  /** A file ends where its labels begin exactly when there is nothing in it. */
  lemma NothingStoredIff(ps: seq<PartImage>, n: nat)
    ensures OffBefore(ps, n, |ps|) == LabelsBase() <==> n == 0 && forall k :: 0 <= k < |ps| ==> ps[k] == EMPTY_PART
  {
    if n == 0 && forall k :: 0 <= k < |ps| ==> ps[k] == EMPTY_PART {
      EmptyOffsets(ps, |ps|);
    } else if n == 0 {
      var k :| 0 <= k < |ps| && ps[k] != EMPTY_PART;
      RegionsDisjoint(ps, n, k);
    }
  }

  // ---- Bytes in place ---------------------------------------------------------------------

  /** t stands at offset off of s. */
  ghost predicate Stands(s: octets, off: int, t: octets) {
    0 <= off && off + |t| <= |s| && s[off..off + |t|] == t
  }

  /** copy(buf[off:], t). */
  method Blit(buf: array<int>, off: nat, t: octets)
    requires off + |t| <= buf.Length
    modifies buf
    ensures buf[..] == old(buf[..off]) + t + old(buf[off + |t|..])
  {
    for i := 0 to |t|
      invariant forall j :: 0 <= j < buf.Length ==>
        buf[j] == if off <= j < off + i then t[j - off] else old(buf[j])
    {
      buf[off + i] := t[i];
    }
  }

  /** A write leaves what stands elsewhere. */
  lemma BlitKeeps(s: octets, s': octets, off: nat, t: octets, o: int, u: octets)
    requires off + |t| <= |s| && s' == s[..off] + t + s[off + |t|..]
    requires Stands(s, o, u) && (o + |u| <= off || off + |t| <= o)
    ensures Stands(s', o, u)
  {
    assert forall j :: 0 <= j < |s| ==> s'[j] == if off <= j < off + |t| then t[j - off] else s[j];
    assert s'[o..o + |u|] == s[o..o + |u|];
  }

  lemma BlitPrefix(s: octets, s': octets, off: nat, t: octets, from: nat)
    requires from <= off && off + |t| <= |s| && s' == s[..off] + t + s[off + |t|..]
    ensures |s'| == |s| && s'[..from] == s[..from]
  {
  }

  lemma BlitStands(s: octets, s': octets, off: nat, t: octets)
    requires off + |t| <= |s| && s' == s[..off] + t + s[off + |t|..]
    ensures Stands(s', off, t)
  {
  }

  /** All four regions of a partition. */
  ghost predicate PartStands(s: octets, d: DirEntry, p: PartImage) {
    && Stands(s, d.nodesOff, p.Nodes())
    && Stands(s, d.boxesOff, p.Boxes())
    && Stands(s, d.vecOff, p.Vec())
    && Stands(s, d.gidxOff, p.Gidx())
  }

  lemma Lengths(p: PartImage)
    ensures |p.Nodes()| == NODE_SIZE * |p.nodes| && |p.Boxes()| == BOX_SIZE * |p.boxes|
    ensures |p.Vec()| == ROW_SIZE * |p.vec| && |p.Gidx()| == ID_SIZE * |p.gidx|
  {
    EncodedLength(EncNode, NODE_SIZE, p.nodes);
    EncodedLength(EncBox, BOX_SIZE, p.boxes);
    EncodedLength(EncRow, ROW_SIZE, p.vec);
    EncodedLength(EncId, ID_SIZE, p.gidx);
  }

  // ---- Writing --------------------------------------------------------------------------

  function Entries(ps: seq<PartImage>, n: nat): (r: seq<DirEntry>)
    ensures |r| == |ps| && forall k :: 0 <= k < |ps| ==> r[k] == Entry(ps, n, k)
  {
    seq(|ps|, k requires 0 <= k < |ps| => Entry(ps, n, k))
  }

  function LabelBytes(fraud: seq<bool>): (s: octets)
    ensures |s| == |fraud| && forall i :: 0 <= i < |s| ==> s[i] == if fraud[i] then 1 else 0
  {
    seq(|fraud|, i requires 0 <= i < |fraud| => if fraud[i] then 1 else 0)
  }

  /** Header, directory and labels are in place, and the regions of the first k partitions. */
  ghost predicate FileHolds(s: octets, ps: seq<PartImage>, fraud: seq<bool>, k: nat)
    requires k <= |ps|
  {
    && Stands(s, 0, KD_MAGIC)
    && Stands(s, 8, Enc64(|fraud|))
    && Stands(s, 16, EncodeAll(EncEntry, Entries(ps, |fraud|)))
    && Stands(s, LabelsBase(), LabelBytes(fraud))
    && forall j: nat :: j < k ==> PartStands(s, Entry(ps, |fraud|, j), ps[j])
  }

  ghost predicate Writable(ps: seq<PartImage>, fraud: seq<bool>) {
    && |ps| == NUM_BUCKETS
    && (forall k :: 0 <= k < |ps| ==> ps[k].Fits())
    && OffBefore(ps, |fraud|, NUM_BUCKETS) < 0x8000_0000_0000_0000
  }

  lemma PrefixKeeps(s: octets, s': octets, cut: nat, o: int, u: octets)
    requires cut <= |s| == |s'| && s'[..cut] == s[..cut]
    requires Stands(s, o, u) && o + |u| <= cut
    ensures Stands(s', o, u)
  {
    assert s'[o..o + |u|] == s'[..cut][o..o + |u|];
    assert s[o..o + |u|] == s[..cut][o..o + |u|];
  }

  lemma PartKeeps(s: octets, s': octets, ps: seq<PartImage>, n: nat, j: nat, cut: nat)
    requires j < |ps| && OffBefore(ps, n, j + 1) <= cut <= |s| == |s'| && s'[..cut] == s[..cut]
    requires PartStands(s, Entry(ps, n, j), ps[j])
    ensures PartStands(s', Entry(ps, n, j), ps[j])
  {
    hide Stands;
    var d, p := Entry(ps, n, j), ps[j];
    Lengths(p);
    RegionsDisjoint(ps, n, j);
    PrefixKeeps(s, s', cut, d.nodesOff, p.Nodes());
    PrefixKeeps(s, s', cut, d.boxesOff, p.Boxes());
    PrefixKeeps(s, s', cut, d.vecOff, p.Vec());
    PrefixKeeps(s, s', cut, d.gidxOff, p.Gidx());
  }

  /** Writing partition k leaves everything written before in place. */
  lemma HoldsKeeps(s: octets, s': octets, ps: seq<PartImage>, fraud: seq<bool>, k: nat)
    requires k < |ps| == NUM_BUCKETS && FileHolds(s, ps, fraud, k)
    requires OffBefore(ps, |fraud|, k) <= |s| == |s'|
    requires s'[..OffBefore(ps, |fraud|, k)] == s[..OffBefore(ps, |fraud|, k)]
    requires PartStands(s', Entry(ps, |fraud|, k), ps[k])
    ensures FileHolds(s', ps, fraud, k + 1)
  {
    hide Stands, PartStands, OffBefore, Entry, EncodeAll, Enc64, LabelBytes;
    var n := |fraud|;
    var cut := OffBefore(ps, n, k);
    EncodedLength(EncEntry, DIR_ENTRY, Entries(ps, n));
    PrefixKeeps(s, s', cut, 0, KD_MAGIC);
    PrefixKeeps(s, s', cut, 8, Enc64(n));
    PrefixKeeps(s, s', cut, 16, EncodeAll(EncEntry, Entries(ps, n)));
    PrefixKeeps(s, s', cut, LabelsBase(), LabelBytes(fraud));
    EarlierKept(s, s', ps, n, k);
  }

  lemma EarlierKept(s: octets, s': octets, ps: seq<PartImage>, n: nat, k: nat)
    requires k < |ps| && OffBefore(ps, n, k) <= |s| == |s'|
    requires s'[..OffBefore(ps, n, k)] == s[..OffBefore(ps, n, k)]
    requires forall j: nat :: j < k ==> PartStands(s, Entry(ps, n, j), ps[j])
    ensures forall j: nat :: j < k ==> PartStands(s', Entry(ps, n, j), ps[j])
  {
    hide PartStands, OffBefore, Entry;
    forall j: nat | j < k
      ensures PartStands(s', Entry(ps, n, j), ps[j])
    {
      OffMono(ps, n, j + 1, k);
      PartKeeps(s, s', ps, n, j, OffBefore(ps, n, k));
    }
  }

  method WritePart(buf: array<int>, d: DirEntry, p: PartImage, ghost from: nat)
    requires from <= d.nodesOff && d.nodesOff + NODE_SIZE * |p.nodes| <= d.boxesOff
    requires d.boxesOff + BOX_SIZE * |p.boxes| <= d.vecOff && d.vecOff + ROW_SIZE * |p.vec| <= d.gidxOff
    requires d.gidxOff + ID_SIZE * |p.gidx| <= buf.Length
    modifies buf
    ensures buf[..from] == old(buf[..from]) && PartStands(buf[..], d, p)
  {
    hide EncodeAll, Stands;
    Lengths(p);
    Put(buf, d.nodesOff, p.Nodes(), from);
    ghost var s1 := buf[..];
    Put(buf, d.boxesOff, p.Boxes(), from);
    ghost var s2 := buf[..];
    Put(buf, d.vecOff, p.Vec(), from);
    ghost var s3 := buf[..];
    Put(buf, d.gidxOff, p.Gidx(), from);
    FourRegions(s1, s2, s3, buf[..], d, p);
  }

  /** A copy that leaves everything before it in place. */
  method Put(buf: array<int>, off: nat, t: octets, ghost from: nat)
    requires from <= off && off + |t| <= buf.Length
    modifies buf
    ensures buf[..off] == old(buf[..off]) && buf[..from] == old(buf[..from]) && Stands(buf[..], off, t)
  {
    ghost var s := buf[..];
    Blit(buf, off, t);
    BlitPrefix(s, buf[..], off, t, from);
    BlitPrefix(s, buf[..], off, t, off);
    BlitStands(s, buf[..], off, t);
  }

  lemma FourRegions(s1: octets, s2: octets, s3: octets, s4: octets, d: DirEntry, p: PartImage)
    requires |s1| == |s2| == |s3| == |s4|
    requires 0 <= d.nodesOff && d.nodesOff + |p.Nodes()| <= d.boxesOff
    requires d.boxesOff + |p.Boxes()| <= d.vecOff && d.vecOff + |p.Vec()| <= d.gidxOff <= |s1|
    requires Stands(s1, d.nodesOff, p.Nodes())
    requires s2[..d.boxesOff] == s1[..d.boxesOff] && Stands(s2, d.boxesOff, p.Boxes())
    requires s3[..d.vecOff] == s2[..d.vecOff] && Stands(s3, d.vecOff, p.Vec())
    requires s4[..d.gidxOff] == s3[..d.gidxOff] && Stands(s4, d.gidxOff, p.Gidx())
    ensures PartStands(s4, d, p)
  {
    hide EncodeAll, Stands;
    PrefixKeeps(s1, s2, d.boxesOff, d.nodesOff, p.Nodes());
    PrefixKeeps(s2, s3, d.vecOff, d.nodesOff, p.Nodes());
    PrefixKeeps(s3, s4, d.gidxOff, d.nodesOff, p.Nodes());
    PrefixKeeps(s2, s3, d.vecOff, d.boxesOff, p.Boxes());
    PrefixKeeps(s3, s4, d.gidxOff, d.boxesOff, p.Boxes());
    PrefixKeeps(s3, s4, d.gidxOff, d.vecOff, p.Vec());
  }

  /** Header, directory and labels of a fresh zeroed buffer. */
  method WriteFront(buf: array<int>, dir: seq<DirEntry>, fraud: seq<bool>)
    requires |dir| == NUM_BUCKETS && LabelsBase() + |fraud| <= buf.Length
    requires forall i :: 0 <= i < buf.Length ==> buf[i] == 0
    modifies buf
    ensures Stands(buf[..], 0, KD_MAGIC) && Stands(buf[..], 8, Enc64(|fraud|))
    ensures Stands(buf[..], 16, EncodeAll(EncEntry, dir)) && Stands(buf[..], LabelsBase(), LabelBytes(fraud))
  {
    hide EncodeAll, Enc64;
    EncodedLength(EncEntry, DIR_ENTRY, dir);
    WriteLabels(buf, fraud);
    ghost var s0 := buf[..];
    Blit(buf, 0, KD_MAGIC);
    ghost var s1 := buf[..];
    BlitStands(s0, s1, 0, KD_MAGIC);
    BlitKeeps(s0, s1, 0, KD_MAGIC, LabelsBase(), LabelBytes(fraud));
    Blit(buf, 8, Enc64(|fraud|));
    ghost var s2 := buf[..];
    BlitStands(s1, s2, 8, Enc64(|fraud|));
    BlitKeeps(s1, s2, 8, Enc64(|fraud|), 0, KD_MAGIC);
    BlitKeeps(s1, s2, 8, Enc64(|fraud|), LabelsBase(), LabelBytes(fraud));
    var bytes := EncodeAll(EncEntry, dir);
    Blit(buf, 16, bytes);
    ghost var s3 := buf[..];
    BlitStands(s2, s3, 16, bytes);
    BlitKeeps(s2, s3, 16, bytes, 0, KD_MAGIC);
    BlitKeeps(s2, s3, 16, bytes, 8, Enc64(|fraud|));
    BlitKeeps(s2, s3, 16, bytes, LabelsBase(), LabelBytes(fraud));
  }

  method WriteLabels(buf: array<int>, fraud: seq<bool>)
    requires LabelsBase() + |fraud| <= buf.Length && forall i :: 0 <= i < buf.Length ==> buf[i] == 0
    modifies buf
    ensures Stands(buf[..], LabelsBase(), LabelBytes(fraud))
  {
    var base := LabelsBase();
    for i := 0 to |fraud|
      invariant forall j :: 0 <= j < i ==> buf[base + j] == if fraud[j] then 1 else 0
      invariant forall j :: base + i <= j < buf.Length ==> buf[j] == 0
    {
      if fraud[i] {
        buf[base + i] := 1;
      }
    }
    assert buf[base..base + |fraud|] == LabelBytes(fraud);
  }

  /** The loop that assigns offsets, with the total size. */
  method Directory(ps: seq<PartImage>, n: nat) returns (dir: seq<DirEntry>, off: nat)
    requires |ps| == NUM_BUCKETS
    ensures dir == Entries(ps, n) && off == OffBefore(ps, n, NUM_BUCKETS)
  {
    off := Align8(LabelsBase() + n);
    dir := [];
    for k := 0 to NUM_BUCKETS
      invariant off == OffBefore(ps, n, k) && |dir| == k
      invariant forall j :: 0 <= j < k ==> dir[j] == Entry(ps, n, j)
    {
      dir := dir + [EntryAt(ps[k], off)];
      off := OffAfter(ps[k], off);
    }
  }

  /** WriteKD without the file: the offset loop, then header, directory, labels, regions. */
  method WriteKD(ps: seq<PartImage>, fraud: seq<bool>) returns (buf: array<int>)
    requires Writable(ps, fraud)
    ensures fresh(buf) && buf.Length == OffBefore(ps, |fraud|, NUM_BUCKETS)
    ensures FileHolds(buf[..], ps, fraud, NUM_BUCKETS)
  {
    hide PartStands, EncodeAll, Enc64, FileHolds, Stands, LabelBytes, OffBefore, Align8;
    var n := |fraud|;
    var dir, off := Directory(ps, n);
    buf := new int[off](_ => 0);
    OffMono(ps, n, 0, NUM_BUCKETS);
    WriteFront(buf, dir, fraud);
    HoldsNone(buf[..], ps, fraud);
    for k := 0 to NUM_BUCKETS
      invariant FileHolds(buf[..], ps, fraud, k)
    {
      ghost var before := buf[..];
      RegionsDisjoint(ps, n, k);
      WritePart(buf, dir[k], ps[k], OffBefore(ps, n, k));
      HoldsKeeps(before, buf[..], ps, fraud, k);
    }
  }

  lemma HoldsNone(s: octets, ps: seq<PartImage>, fraud: seq<bool>)
    requires Stands(s, 0, KD_MAGIC) && Stands(s, 8, Enc64(|fraud|))
    requires Stands(s, 16, EncodeAll(EncEntry, Entries(ps, |fraud|))) && Stands(s, LabelsBase(), LabelBytes(fraud))
    ensures FileHolds(s, ps, fraud, 0)
  {
  }

  // ---- Reading --------------------------------------------------------------------------

  /** BadMagic is the error Open reports; Corrupt stands for an access outside the mapping. */
  datatype OpenResult = BadMagic | Corrupt | Opened(parts: seq<PartImage>, fraud: seq<bool>)

  /** count items of the given width at off, or None when they are not all inside. */
  function Slice<T>(s: octets, off: int, width: nat, count: int, dec: octets -> T): Option<seq<T>> {
    if off < 0 || count < 0 || off + width * count > |s| then None
    else Some(DecodeAll(dec, width, count, s[off..off + width * count]))
  }

  lemma SliceStands<T>(s: octets, off: int, width: nat, items: seq<T>, enc: T -> octets, dec: octets -> T)
    requires RoundTrips(enc, dec, width, items) && Stands(s, off, EncodeAll(enc, items))
    ensures Slice(s, off, width, |items|, dec) == Some(items)
  {
    hide EncodeAll, DecodeAll, RoundTrips;
    DecodeEncoded(enc, dec, width, items);
    var t := EncodeAll(enc, items);
    assert |t| == width * |items| && s[off..off + |t|] == t;
  }

  /** One turn of Open's loop; empty regions stay nil. */
  method ReadPart(s: octets, d: DirEntry) returns (r: Option<PartImage>)
    ensures forall p: PartImage :: p.Fits() && PartStands(s, d, p) && d.count == |p.vec| && d.nNodes == |p.nodes|
                                   ==> r == Some(p)
  {
    var nodes: Option<seq<KdNode>>, boxes: Option<seq<KdBox>> := Some([]), Some([]);
    if d.nNodes > 0 {
      nodes := Slice(s, d.nodesOff, NODE_SIZE, d.nNodes, DecNode);
      boxes := Slice(s, d.boxesOff, BOX_SIZE, d.nNodes, DecBox);
    }
    var vec: Option<seq<Row>>, gidx: Option<seq<int>> := Some([]), Some([]);
    if d.count > 0 {
      vec := Slice(s, d.vecOff, ROW_SIZE, d.count, DecRow);
      gidx := Slice(s, d.gidxOff, ID_SIZE, d.count, DecId);
    }
    forall p: PartImage | p.Fits() && PartStands(s, d, p) && d.count == |p.vec| && d.nNodes == |p.nodes|
      ensures nodes == Some(p.nodes) && boxes == Some(p.boxes) && vec == Some(p.vec) && gidx == Some(p.gidx)
    {
      PartSlices(s, d, p);
    }
    if nodes.None? || boxes.None? || vec.None? || gidx.None? {
      return None;
    }
    return Some(PartImage(nodes.value, boxes.value, vec.value, gidx.value));
  }

  lemma PartSlices(s: octets, d: DirEntry, p: PartImage)
    requires p.Fits() && PartStands(s, d, p) && d.count == |p.vec| && d.nNodes == |p.nodes|
    ensures Slice(s, d.nodesOff, NODE_SIZE, d.nNodes, DecNode) == Some(p.nodes)
    ensures Slice(s, d.boxesOff, BOX_SIZE, d.nNodes, DecBox) == Some(p.boxes)
    ensures Slice(s, d.vecOff, ROW_SIZE, d.count, DecRow) == Some(p.vec)
    ensures Slice(s, d.gidxOff, ID_SIZE, d.count, DecId) == Some(p.gidx)
  {
    hide Slice, EncodeAll, EncNode, DecNode, EncBox, DecBox, EncRow, DecRow, EncId, DecId;
    forall i | 0 <= i < |p.nodes|
      ensures DecNode(EncNode(p.nodes[i])) == p.nodes[i]
    {
      NodeRoundTrip(p.nodes[i]);
    }
    forall i | 0 <= i < |p.boxes|
      ensures DecBox(EncBox(p.boxes[i])) == p.boxes[i]
    {
      BoxRoundTrip(p.boxes[i]);
    }
    forall i | 0 <= i < |p.vec|
      ensures DecRow(EncRow(p.vec[i])) == p.vec[i]
    {
      RowRoundTrip(p.vec[i]);
    }
    forall i | 0 <= i < |p.gidx|
      ensures DecId(EncId(p.gidx[i])) == p.gidx[i]
    {
      IdRoundTrip(p.gidx[i]);
    }
    SliceStands(s, d.nodesOff, NODE_SIZE, p.nodes, EncNode, DecNode);
    SliceStands(s, d.boxesOff, BOX_SIZE, p.boxes, EncBox, DecBox);
    SliceStands(s, d.vecOff, ROW_SIZE, p.vec, EncRow, DecRow);
    SliceStands(s, d.gidxOff, ID_SIZE, p.gidx, EncId, DecId);
  }

  /** The size and magic test of Open. */
  predicate HasMagic(s: octets) {
    |s| >= 16 && s[..8] == KD_MAGIC
  }

  /** Open: reports exactly a bad magic, and reproduces whatever WriteKD laid out unless the
      file ends where the labels begin: the address of the first label is then outside. */
  method Open(s: octets, ghost ps: seq<PartImage>, ghost fraud: seq<bool>) returns (res: OpenResult)
    ensures res.BadMagic? <==> !HasMagic(s)
    ensures Writable(ps, fraud) && FileHolds(s, ps, fraud, NUM_BUCKETS) ==>
      res == if |s| > LabelsBase() then Opened(ps, fraud) else Corrupt
  {
    hide PartStands, EncodeAll, DecodeAll, Enc64, DecEntry, LabelBytes, FileHolds;
    ghost var ok := Writable(ps, fraud) && FileHolds(s, ps, fraud, NUM_BUCKETS);
    if |s| < 16 || s[..8] != KD_MAGIC {
      if ok {
        FrontReads(s, ps, fraud);
      }
      return BadMagic;
    }
    var n := SignedOf(s[8..16]);
    if ok {
      FrontReads(s, ps, fraud);
    }
    if |s| <= LabelsBase() {
      return Corrupt;
    }
    var labels := Slice(s, LabelsBase(), 1, n, DecBool);
    if labels.None? {
      return Corrupt;
    }
    var parts: seq<PartImage> := [];
    for k := 0 to NUM_BUCKETS
      invariant ok ==> parts == ps[..k]
    {
      var d := DecEntry(s[16 + DIR_ENTRY * k..16 + DIR_ENTRY * (k + 1)]);
      if ok {
        DirReads(s, ps, fraud, k);
      }
      var p := ReadPart(s, d);
      if p.None? {
        return Corrupt;
      }
      parts := parts + [p.value];
    }
    return Opened(parts, labels.value);
  }

  lemma FrontReads(s: octets, ps: seq<PartImage>, fraud: seq<bool>)
    requires Writable(ps, fraud) && FileHolds(s, ps, fraud, NUM_BUCKETS)
    ensures HasMagic(s) && SignedOf(s[8..16]) == |fraud| && |s| >= 16 + DIR_SIZE
    ensures Slice(s, LabelsBase(), 1, |fraud|, DecBool) == Some(fraud)
  {
    hide PartStands, EncodeAll, DecodeAll;
    assert s[..8] == s[0..8];
    Widths();
    OffMono(ps, |fraud|, 0, NUM_BUCKETS);
    SignedLe(|fraud|, 8);
    EncodedLength(EncEntry, DIR_ENTRY, Entries(ps, |fraud|));
    LabelsEncoded(fraud);
    SliceStands(s, LabelsBase(), 1, fraud, EncBool, DecBool);
  }

  lemma {:induction false} LabelsEncoded(fraud: seq<bool>)
    ensures EncodeAll(EncBool, fraud) == LabelBytes(fraud) && RoundTrips(EncBool, DecBool, 1, fraud)
  {
    if fraud != [] {
      LabelsEncoded(fraud[1..]);
      assert LabelBytes(fraud) == EncBool(fraud[0]) + LabelBytes(fraud[1..]);
    }
  }

  lemma DirReads(s: octets, ps: seq<PartImage>, fraud: seq<bool>, k: nat)
    requires Writable(ps, fraud) && FileHolds(s, ps, fraud, NUM_BUCKETS) && k < NUM_BUCKETS
    requires |s| >= 16 + DIR_SIZE
    ensures DecEntry(s[16 + DIR_ENTRY * k..16 + DIR_ENTRY * (k + 1)]) == Entry(ps, |fraud|, k)
    ensures PartStands(s, Entry(ps, |fraud|, k), ps[k])
  {
    hide PartStands, EncodeAll, EncEntry, DecEntry, LabelBytes, Enc64, Entry;
    var n := |fraud|;
    var es := Entries(ps, n);
    EntryStands(s, es, k);
    EntryFits(ps, n, k);
    EntryRoundTrip(es[k]);
  }

  lemma EntryStands(s: octets, es: seq<DirEntry>, k: nat)
    requires Stands(s, 16, EncodeAll(EncEntry, es)) && k < |es|
    ensures 16 + DIR_ENTRY * (k + 1) <= |s|
    ensures s[16 + DIR_ENTRY * k..16 + DIR_ENTRY * (k + 1)] == EncEntry(es[k])
  {
    hide EncodeAll, EncEntry;
    var bytes := EncodeAll(EncEntry, es);
    EncodedLength(EncEntry, DIR_ENTRY, es);
    EncodedAt(EncEntry, DIR_ENTRY, es, k);
    SliceOfSlice(s, 16, 16 + |bytes|, DIR_ENTRY * k, DIR_ENTRY * (k + 1));
  }

  lemma EntryFits(ps: seq<PartImage>, n: nat, k: nat)
    requires k < |ps| == NUM_BUCKETS && ps[k].Fits() && OffBefore(ps, n, NUM_BUCKETS) < 0x8000_0000_0000_0000
    ensures Entry(ps, n, k).Fits()
  {
    RegionsDisjoint(ps, n, k);
  }

  lemma WordByte(s: octets, off: nat, x: int, i: nat)
    requires Stands(s, off, Enc64(x)) && i < 8
    ensures off + 8 <= |s| && s[off + i] == (x / Pow256(i)) % 256
  {
    hide Le, Pow256;
    LeBytes(x, 8, i);
    assert s[off + i] == s[off..off + 8][i];
  }

  lemma EntryByte(s: octets, es: seq<DirEntry>, k: nat, j: nat, i: nat)
    requires Stands(s, 16, EncodeAll(EncEntry, es)) && k < |es| && j < 6 && i < 8
    ensures 16 + 48 * (k + 1) <= |s|
    ensures s[16 + 48 * k + 8 * j + i] == (es[k].Fields()[j] / Pow256(i)) % 256
  {
    hide Le, Pow256, EncodeAll, EncEntry, Stands;
    EntryStands(s, es, k);
    EntryField(es[k], j);
    LeBytes(es[k].Fields()[j], 8, i);
    hide DirEntry.Fields;
    var entry := s[16 + DIR_ENTRY * k..16 + DIR_ENTRY * (k + 1)];
    assert entry[8 * j + i] == entry[8 * j..8 * (j + 1)][i];
    assert entry[8 * j + i] == s[16 + 48 * k + 8 * j + i];
  }

  lemma MagicByte(s: octets, i: nat)
    requires Stands(s, 0, KD_MAGIC) && i < 8
    ensures 8 <= |s| && s[i] == "RNHKD003"[i] as int
  {
    assert s[i] == s[0..8][i];
  }

  lemma HeadStands(s: octets, ps: seq<PartImage>, fraud: seq<bool>)
    requires |ps| == NUM_BUCKETS && FileHolds(s, ps, fraud, NUM_BUCKETS)
    ensures Stands(s, 0, KD_MAGIC) && Stands(s, 8, Enc64(|fraud|))
    ensures Stands(s, 16, EncodeAll(EncEntry, Entries(ps, |fraud|)))
  {
  }

  /** The head of the file byte by byte: the magic text, the number of labels, and for every
      partition its row and node counts and the offsets of nodes, boxes, rows and indices, each
      in eight bytes, low byte first. */
  lemma HeadBytes(s: octets, ps: seq<PartImage>, fraud: seq<bool>, k: nat, j: nat, i: nat)
    requires |ps| == NUM_BUCKETS && FileHolds(s, ps, fraud, NUM_BUCKETS) && k < 16 && j < 6 && i < 8
    ensures |s| >= 16 + 48 * 16 && s[i] == "RNHKD003"[i] as int && s[8 + i] == (|fraud| / Pow256(i)) % 256
    ensures var e := Entry(ps, |fraud|, k);
            var field := [|ps[k].vec|, |ps[k].nodes|, e.nodesOff, e.boxesOff, e.vecOff, e.gidxOff][j];
            s[16 + 48 * k + 8 * j + i] == (field / Pow256(i)) % 256
  {
    hide FileHolds, Stands, EncodeAll, EncEntry, Enc64, Pow256, Align8, OffBefore;
    HeadStands(s, ps, fraud);
    MagicByte(s, i);
    WordByte(s, 8, |fraud|, i);
    EntryByte(s, Entries(ps, |fraud|), 15, j, i);
    EntryByte(s, Entries(ps, |fraud|), k, j, i);
  }

  lemma EntryField(d: DirEntry, j: nat)
    requires j < 6
    ensures EncEntry(d)[8 * j..8 * (j + 1)] == Le(d.Fields()[j], 8)
  {
    EncodedAt(Enc64, 8, d.Fields(), j);
  }
}
