/** The flat reference file (internal/index/refs.go): magic, count, lanes, labels. */
module RefsFile {
  import opened Distance
  import opened Sequences
  import opened Brute
  import opened Encoding

  const BIN_MAGIC: octets := [82, 78, 72, 82, 69, 70, 48, 49]

  /** BadMagic is the error LoadBin reports; Corrupt stands for a read past the end. */
  datatype LoadResult = BadMagic | Corrupt | Loaded(refs: Refs)

  predicate HasMagic(b: octets) {
    |b| >= 16 && b[..8] == BIN_MAGIC
  }

  ghost function FileOf(r: Refs): octets {
    BIN_MAGIC + Le(r.n, 8) + EncodeAll(EncRow, r.vec) + EncodeAll(EncBool, r.fraud)
  }

  lemma {:induction false} EncodeSnoc<T>(enc: T -> octets, items: seq<T>, x: T)
    ensures EncodeAll(enc, items + [x]) == EncodeAll(enc, items) + enc(x)
  {
    if items == [] {
      assert EncodeAll(enc, [x][1..]) == [];
      assert [] + [x] == [x];
    } else {
      EncodeSnoc(enc, items[1..], x);
      assert (items + [x])[1..] == items[1..] + [x];
    }
  }

  /** writeBin, as what it appends to the file. */
  method WriteBin(r: Refs) returns (file: octets)
    requires r.Valid()
    ensures file == FileOf(r)
  {
    hide Le, EncodeAll, EncRow;
    var vecBytes, bits: octets := [], [];
    EncodedEmpty(EncRow);
    for i := 0 to r.n
      invariant vecBytes == EncodeAll(EncRow, r.vec[..i])
    {
      EncodeSnoc(EncRow, r.vec[..i], r.vec[i]);
      assert r.vec[..i + 1] == r.vec[..i] + [r.vec[i]];
      vecBytes := vecBytes + EncRow(r.vec[i]);
    }
    EncodedEmpty(EncBool);
    for i := 0 to r.n
      invariant bits == EncodeAll(EncBool, r.fraud[..i])
    {
      EncodeSnoc(EncBool, r.fraud[..i], r.fraud[i]);
      assert r.fraud[..i + 1] == r.fraud[..i] + [r.fraud[i]];
      bits := bits + EncBool(r.fraud[i]);
    }
    assert r.vec[..r.n] == r.vec && r.fraud[..r.n] == r.fraud;
    file := BIN_MAGIC + Le(r.n, 8) + vecBytes + bits;
  }

  lemma EncodedEmpty<T>(enc: T -> octets)
    ensures forall s: seq<T> :: s == [] ==> EncodeAll(enc, s) == []
  {
  }

  /** LoadBin with its moving offset. */
  method LoadBin(b: octets) returns (res: LoadResult)
    ensures res.BadMagic? <==> !HasMagic(b)
    ensures forall r: Refs :: r.Valid() && r.n < 0x8000_0000_0000_0000 && b == FileOf(r) ==> res == Loaded(r)
  {
    hide EncodeAll, Le, EncRow, DecRow;
    forall r: Refs | r.Valid() && r.n < 0x8000_0000_0000_0000 && b == FileOf(r)
      ensures HasMagic(b) && SignedOf(b[8..16]) == r.n && 16 + 33 * r.n <= |b|
      ensures forall i :: 0 <= i < r.n ==> RowIn(b, i) == r.vec[i] && LabelIn(b, r.n, i) == r.fraud[i]
    {
      FileReads(r);
    }
    if !HasMagic(b) {
      return BadMagic;
    }
    var n := SignedOf(b[8..16]);
    if n < 0 || 16 + 33 * n > |b| {
      return Corrupt;
    }
    var off := 16;
    var vec: seq<Row> := [];
    for i := 0 to n
      invariant off == 16 + ROW_SIZE * i && |vec| == i
      invariant forall j :: 0 <= j < i ==> vec[j] == RowIn(b, j)
    {
      vec := vec + [DecRow(b[off..off + ROW_SIZE])];
      off := off + ROW_SIZE;
    }
    var fraud: seq<bool> := [];
    for i := 0 to n
      invariant |fraud| == i && forall j :: 0 <= j < i ==> fraud[j] == LabelIn(b, n, j)
    {
      fraud := fraud + [b[off + i] == 1];
    }
    res := Loaded(Refs(n, vec, fraud));
    forall r: Refs | r.Valid() && r.n < 0x8000_0000_0000_0000 && b == FileOf(r)
      ensures res == Loaded(r)
    {
      assert vec == r.vec && fraud == r.fraud;
    }
  }

  function RowIn(b: octets, i: nat): Row
    requires 16 + ROW_SIZE * (i + 1) <= |b|
  {
    DecRow(b[16 + ROW_SIZE * i..16 + ROW_SIZE * i + ROW_SIZE])
  }

  function LabelIn(b: octets, n: nat, i: nat): bool
    requires 16 + ROW_SIZE * n + i < |b|
  {
    b[16 + ROW_SIZE * n + i] == 1
  }

  lemma FileParts(r: Refs)
    requires r.Valid()
    ensures var b := FileOf(r);
            && |b| == 16 + 33 * r.n && b[..8] == BIN_MAGIC && b[8..16] == Le(r.n, 8)
            && b[16..16 + ROW_SIZE * r.n] == EncodeAll(EncRow, r.vec)
            && b[16 + ROW_SIZE * r.n..] == EncodeAll(EncBool, r.fraud)
  {
    hide EncodeAll, Le;
    EncodedLength(EncRow, ROW_SIZE, r.vec);
    EncodedLength(EncBool, 1, r.fraud);
  }

  /** Every field of the file stands where LoadBin looks for it. */
  lemma FileReads(r: Refs)
    requires r.Valid() && r.n < 0x8000_0000_0000_0000
    ensures var b := FileOf(r);
            && HasMagic(b) && SignedOf(b[8..16]) == r.n && 16 + 33 * r.n <= |b|
            && forall i :: 0 <= i < r.n ==> RowIn(b, i) == r.vec[i] && LabelIn(b, r.n, i) == r.fraud[i]
  {
    hide EncodeAll, Le, FileOf, DecRow, EncRow;
    var b := FileOf(r);
    FileParts(r);
    Widths();
    SignedLe(r.n, 8);
    forall i | 0 <= i < r.n
      ensures RowIn(b, i) == r.vec[i] && LabelIn(b, r.n, i) == r.fraud[i]
    {
      RowReads(r, i);
      LabelReads(r, i);
    }
  }

  lemma RowReads(r: Refs, i: nat)
    requires r.Valid() && i < r.n
    ensures 16 + ROW_SIZE * (i + 1) <= |FileOf(r)| && RowIn(FileOf(r), i) == r.vec[i]
  {
    hide EncodeAll, Le, FileOf, DecRow, EncRow;
    var b := FileOf(r);
    FileParts(r);
    EncodedAt(EncRow, ROW_SIZE, r.vec, i);
    SliceOfSlice(b, 16, 16 + ROW_SIZE * r.n, ROW_SIZE * i, ROW_SIZE * (i + 1));
    RowRoundTrip(r.vec[i]);
  }

  lemma LabelReads(r: Refs, i: nat)
    requires r.Valid() && i < r.n
    ensures 16 + ROW_SIZE * r.n + i < |FileOf(r)| && LabelIn(FileOf(r), r.n, i) == r.fraud[i]
  {
    hide EncodeAll, Le, FileOf;
    var b := FileOf(r);
    FileParts(r);
    EncodedAt(EncBool, 1, r.fraud, i);
    var t := b[16 + ROW_SIZE * r.n..];
    assert t[i..i + 1] == [t[i]];
  }

  /** The file byte by byte: the magic text, the count, the lanes of every row, low byte first,
      and a label each. */
  lemma FileBytes(r: Refs)
    requires r.Valid()
    ensures var b := FileOf(r);
            && |b| == 16 + 33 * r.n
            && (forall i :: 0 <= i < 8 ==> b[i] == "RNHREF01"[i] as int)
            && (forall i: nat :: i < 8 ==> b[8 + i] == (r.n / Pow256(i)) % 256)
            && (forall i: nat, d: nat :: i < r.n && d < 16 ==>
                  && b[16 + 32 * i + 2 * d] == r.vec[i][d] % 256
                  && b[16 + 32 * i + 2 * d + 1] == (r.vec[i][d] / 256) % 256)
            && (forall i: nat :: i < r.n ==> b[16 + 32 * r.n + i] == if r.fraud[i] then 1 else 0)
  {
    hide EncodeAll, Le, FileOf, EncRow, EncBool, Pow256;
    var b := FileOf(r);
    FileParts(r);
    forall i | 0 <= i < 8
      ensures b[i] == "RNHREF01"[i] as int
    {
      assert b[i] == b[..8][i];
    }
    forall i: nat | i < 8
      ensures b[8 + i] == (r.n / Pow256(i)) % 256
    {
      LeBytes(r.n, 8, i);
      assert b[8 + i] == b[8..16][i];
    }
    forall i: nat, d: nat | i < r.n && d < 16
      ensures b[16 + 32 * i + 2 * d] == r.vec[i][d] % 256 && b[16 + 32 * i + 2 * d + 1] == (r.vec[i][d] / 256) % 256
    {
      LaneBytes(r, i, d);
    }
    forall i: nat | i < r.n
      ensures b[16 + 32 * r.n + i] == if r.fraud[i] then 1 else 0
    {
      LabelByte(r, i);
    }
  }

  lemma LaneBytes(r: Refs, i: nat, d: nat)
    requires r.Valid() && i < r.n && d < 16
    ensures var b := FileOf(r);
            && 16 + 32 * (i + 1) <= |b|
            && b[16 + 32 * i + 2 * d] == r.vec[i][d] % 256 && b[16 + 32 * i + 2 * d + 1] == (r.vec[i][d] / 256) % 256
  {
    hide EncodeAll, Le, FileOf, EncRow;
    var b := FileOf(r);
    FileParts(r);
    EncodedAt(EncRow, ROW_SIZE, r.vec, i);
    SliceOfSlice(b, 16, 16 + ROW_SIZE * r.n, ROW_SIZE * i, ROW_SIZE * (i + 1));
    var row := b[16 + 32 * i..16 + 32 * (i + 1)];
    assert row == EncRow(r.vec[i]);
    RowBytes(r.vec[i], d);
    assert row[2 * d] == b[16 + 32 * i + 2 * d] && row[2 * d + 1] == b[16 + 32 * i + 2 * d + 1];
  }

  lemma LabelByte(r: Refs, i: nat)
    requires r.Valid() && i < r.n
    ensures 16 + 32 * r.n + i < |FileOf(r)| && FileOf(r)[16 + 32 * r.n + i] == if r.fraud[i] then 1 else 0
  {
    hide EncodeAll, Le, FileOf;
    var b := FileOf(r);
    FileParts(r);
    EncodedAt(EncBool, 1, r.fraud, i);
    var labels := b[16 + ROW_SIZE * r.n..];
    assert labels[i] == labels[i..i + 1][0];
  }
}
