/** Little-endian encodings of the fixed-width fields of the index files
    (internal/index/mmap.go, refs.go). A byte is an int in [0, 256). */
module Encoding {
  import opened Numbers
  import opened Distance
  import opened KdTree

  type octets = seq<int>

  function Pow256(n: nat): (r: nat)
    ensures r > 0
  {
    if n == 0 then 1 else 256 * Pow256(n - 1)
  }

  /** The n low bytes of x, lowest first; negative numbers in two's complement. */
  function Le(x: int, n: nat): (s: octets)
    ensures |s| == n
    decreases n
  {
    if n == 0 then [] else [x % 256] + Le(x / 256, n - 1)
  }

  function UnsignedOf(s: octets): int {
    if s == [] then 0 else s[0] + 256 * UnsignedOf(s[1..])
  }

  function SignedOf(s: octets): int {
    var u := UnsignedOf(s);
    if 2 * u < Pow256(|s|) then u else u - Pow256(|s|)
  }

  lemma {:induction false} UnsignedLe(x: int, n: nat)
    ensures UnsignedOf(Le(x, n)) == x % Pow256(n)
    decreases n
  {
    if n > 0 {
      UnsignedLe(x / 256, n - 1);
      assert Le(x, n)[1..] == Le(x / 256, n - 1);
      ModSplit(x, Pow256(n - 1));
    }
  }

  /** Byte i counts 256^i. */
  lemma {:induction false} LeBytes(x: int, n: nat, i: nat)
    requires i < n
    ensures Le(x, n)[i] == (x / Pow256(i)) % 256
    decreases n
  {
    if i > 0 {
      LeBytes(x / 256, n - 1, i - 1);
      DivTwice(x, Pow256(i - 1));
    }
  }

  lemma DivTwice(x: int, m: int)
    requires m > 0
    ensures x / (256 * m) == (x / 256) / m
  {
    var q, r := x / 256, x % 256;
    var a, b := q / m, q % m;
    assert x == 256 * q + r && q == m * a + b;
    assert x == (256 * m) * a + (256 * b + r);
    DivModUnique(x, 256 * m, a, 256 * b + r);
  }

  lemma ModSplit(x: int, m: int)
    requires m > 0
    ensures x % (256 * m) == x % 256 + 256 * ((x / 256) % m)
  {
    var q, r := x / 256, x % 256;
    var a, b := q / m, q % m;
    assert x == 256 * q + r && q == m * a + b;
    assert x == (256 * m) * a + (256 * b + r);
    DivModUnique(x, 256 * m, a, 256 * b + r);
  }

  lemma SignedLe(x: int, n: nat)
    requires 0 <= 2 * x + Pow256(n) && 2 * x < Pow256(n)
    ensures SignedOf(Le(x, n)) == x
  {
    var m := Pow256(n);
    UnsignedLe(x, n);
    if x >= 0 {
      DivModUnique(x, m, 0, x);
    } else {
      DivModUnique(x, m, -1, x + m);
    }
  }

  lemma Widths()
    ensures Pow256(1) == 0x100 && Pow256(2) == 0x1_0000
    ensures Pow256(4) == 0x1_0000_0000 && Pow256(8) == 0x1_0000_0000_0000_0000
  {
    assert Pow256(3) == 0x100_0000;
    assert Pow256(5) == 256 * Pow256(4);
    assert Pow256(6) == 256 * Pow256(5);
    assert Pow256(7) == 256 * Pow256(6);
  }

  // ---- Sequences of fixed-width items ------------------------------------------------

  function EncodeAll<T>(enc: T -> octets, items: seq<T>): octets {
    if items == [] then [] else enc(items[0]) + EncodeAll(enc, items[1..])
  }

  function DecodeAll<T>(dec: octets -> T, width: nat, count: nat, s: octets): (r: seq<T>)
    requires |s| == width * count
    ensures |r| == count
    decreases count
  {
    if count == 0 then []
    else
      assert |s[width..]| == width * (count - 1);
      [dec(s[..width])] + DecodeAll(dec, width, count - 1, s[width..])
  }

  ghost predicate RoundTrips<T>(enc: T -> octets, dec: octets -> T, width: nat, items: seq<T>) {
    forall i :: 0 <= i < |items| ==> |enc(items[i])| == width && dec(enc(items[i])) == items[i]
  }

  lemma {:induction false} EncodedLength<T>(enc: T -> octets, width: nat, items: seq<T>)
    requires forall i :: 0 <= i < |items| ==> |enc(items[i])| == width
    ensures |EncodeAll(enc, items)| == width * |items|
  {
    if items != [] {
      EncodedLength(enc, width, items[1..]);
    }
  }

  lemma ItemOffset(width: nat, k: nat, n: nat)
    requires k < n
    ensures 0 <= width * k <= width * (k + 1) <= width * n
    ensures width * (k + 1) == width + width * k
  {
  }

  /** A slice past the first part of a concatenation is a slice of the second part. */
  lemma Shifted(a: octets, t: octets, i: nat, j: nat)
    requires i <= j <= |t|
    ensures (a + t)[|a| + i..|a| + j] == t[i..j]
  {
  }

  lemma {:induction false} EncodedAt<T>(enc: T -> octets, width: nat, items: seq<T>, k: nat)
    requires forall i :: 0 <= i < |items| ==> |enc(items[i])| == width
    requires k < |items|
    ensures width * (k + 1) <= |EncodeAll(enc, items)|
    ensures EncodeAll(enc, items)[width * k..width * (k + 1)] == enc(items[k])
    decreases k
  {
    EncodedLength(enc, width, items);
    ItemOffset(width, k, |items|);
    if k > 0 {
      var rest := items[1..];
      EncodedAt(enc, width, rest, k - 1);
      ItemOffset(width, k - 1, |items|);
      Shifted(enc(items[0]), EncodeAll(enc, rest), width * (k - 1), width * k);
    }
  }

  lemma {:induction false} DecodeEncoded<T>(enc: T -> octets, dec: octets -> T, width: nat, items: seq<T>)
    requires RoundTrips(enc, dec, width, items)
    ensures |EncodeAll(enc, items)| == width * |items|
    ensures DecodeAll(dec, width, |items|, EncodeAll(enc, items)) == items
  {
    EncodedLength(enc, width, items);
    if items != [] {
      var s := EncodeAll(enc, items);
      DecodeEncoded(enc, dec, width, items[1..]);
      assert s[..width] == enc(items[0]);
      assert s[width..] == EncodeAll(enc, items[1..]);
    }
  }

  // ---- The stored types -----------------------------------------------------------------

  const NODE_SIZE: nat := 12
  const BOX_SIZE: nat := 64
  const ROW_SIZE: nat := 32
  const ID_SIZE: nat := 4

  /** struct kdNode: int16, uint8, one byte of padding, int32, int32. */
  function EncNode(n: KdNode): (s: octets)
    ensures |s| == NODE_SIZE
  {
    Le(n.splitVal, 2) + Le(n.splitDim, 1) + [0] + Le(n.left, 4) + Le(n.right, 4)
  }

  function DecNode(s: octets): KdNode {
    if |s| != NODE_SIZE then KdNode(0, 0, 0, 0)
    else KdNode(SignedOf(s[0..2]), UnsignedOf(s[2..3]), SignedOf(s[4..8]), SignedOf(s[8..12]))
  }

  lemma Middle(a: octets, m: octets, b: octets)
    ensures (a + m + b)[|a|..|a| + |m|] == m
  {
  }

  lemma NodeRoundTrip(n: KdNode)
    requires n.Fits()
    ensures DecNode(EncNode(n)) == n
  {
    hide Le;
    var v, d, l, r := Le(n.splitVal, 2), Le(n.splitDim, 1), Le(n.left, 4), Le(n.right, 4);
    Middle([], v, d + [0] + l + r);
    Middle(v, d, [0] + l + r);
    Middle(v + d + [0], l, r);
    Middle(v + d + [0] + l, r, []);
    assert EncNode(n) == [] + v + (d + [0] + l + r) == v + d + ([0] + l + r) == v + d + [0] + l + r + [];
    Widths();
    SignedLe(n.splitVal, 2);
    UnsignedLe(n.splitDim, 1);
    SignedLe(n.left, 4);
    SignedLe(n.right, 4);
  }

  /** The twelve bytes of a node: split value, dimension, a padding byte, left and right. */
  lemma NodeBytes(n: KdNode, i: nat)
    requires i < 4
    ensures var s := EncNode(n);
            && s[0] == n.splitVal % 256 && s[1] == (n.splitVal / 256) % 256 && s[2] == n.splitDim % 256
            && s[4 + i] == (n.left / Pow256(i)) % 256 && s[8 + i] == (n.right / Pow256(i)) % 256
  {
    LeBytes(n.splitVal, 2, 0);
    LeBytes(n.splitVal, 2, 1);
    LeBytes(n.splitDim, 1, 0);
    LeBytes(n.left, 4, i);
    LeBytes(n.right, 4, i);
    assert Pow256(0) == 1 && Pow256(1) == 256;
    hide Le, Pow256;
  }

  /** The lanes of a row from lane d on. */
  function EncLanes(r: Row, d: nat): (s: octets)
    requires d <= STRIDE
    ensures |s| == 2 * (STRIDE - d)
    decreases STRIDE - d
  {
    if d == STRIDE then [] else Le(r[d], 2) + EncLanes(r, d + 1)
  }

  function EncRow(r: Row): (s: octets)
    ensures |s| == ROW_SIZE
  {
    EncLanes(r, 0)
  }

  function Lane16(s: octets, d: nat): (x: int)
    requires |s| == ROW_SIZE && d < STRIDE
  {
    SignedOf(s[2 * d..2 * d + 2])
  }

  /** An octet sequence as a row; every pair of bytes is an int16. */
  function DecRow(s: octets): Row
  {
    if |s| == ROW_SIZE && forall d :: 0 <= d < STRIDE ==> -0x8000 <= Lane16(s, d) < 0x8000
    then seq(STRIDE, d requires 0 <= d < STRIDE => Lane16(s, d))
    else seq(STRIDE, _ => 0)
  }

  lemma {:induction false} LaneAt(r: Row, d: nat, e: nat)
    requires d <= e < STRIDE
    ensures EncLanes(r, d)[2 * (e - d)..2 * (e - d) + 2] == Le(r[e], 2)
    decreases e - d
  {
    hide Le;
    if d < e {
      LaneAt(r, d + 1, e);
      Shifted(Le(r[d], 2), EncLanes(r, d + 1), 2 * (e - d - 1), 2 * (e - d));
    }
  }

  lemma LaneRoundTrip(r: Row, d: nat)
    requires d < STRIDE
    ensures Lane16(EncRow(r), d) == r[d]
  {
    hide EncLanes, Le;
    LaneAt(r, 0, d);
    Widths();
    SignedLe(r[d], 2);
  }

  lemma RowRoundTrip(r: Row)
    ensures DecRow(EncRow(r)) == r
  {
    hide Lane16, EncRow, EncLanes;
    forall d: nat | d < STRIDE
      ensures Lane16(EncRow(r), d) == r[d]
    {
      LaneRoundTrip(r, d);
    }
    var s := DecRow(EncRow(r));
    assert forall d :: 0 <= d < STRIDE ==> s[d] == r[d];
  }

  /** The two bytes of a lane, the low one first. */
  lemma RowBytes(r: Row, d: nat)
    requires d < STRIDE
    ensures EncRow(r)[2 * d] == r[d] % 256 && EncRow(r)[2 * d + 1] == (r[d] / 256) % 256
  {
    var pair := EncRow(r)[2 * d..2 * d + 2];
    LaneAt(r, 0, d);
    LeBytes(r[d], 2, 0);
    LeBytes(r[d], 2, 1);
    assert pair == Le(r[d], 2) && pair[0] == EncRow(r)[2 * d] && pair[1] == EncRow(r)[2 * d + 1];
  }

  function EncBox(b: KdBox): (s: octets)
    ensures |s| == BOX_SIZE
  {
    EncRow(b.lo) + EncRow(b.hi)
  }

  function DecBox(s: octets): KdBox {
    if |s| != BOX_SIZE then KdBox(DecRow([]), DecRow([])) else KdBox(DecRow(s[..ROW_SIZE]), DecRow(s[ROW_SIZE..]))
  }

  lemma BoxRoundTrip(b: KdBox)
    ensures DecBox(EncBox(b)) == b
  {
    var s := EncBox(b);
    assert s[..ROW_SIZE] == EncRow(b.lo) && s[ROW_SIZE..] == EncRow(b.hi);
    RowRoundTrip(b.lo);
    RowRoundTrip(b.hi);
  }

  function EncId(g: int): (s: octets)
    ensures |s| == ID_SIZE
  {
    Le(g, 4)
  }

  function DecId(s: octets): int {
    SignedOf(s)
  }

  lemma IdRoundTrip(g: int)
    requires -0x8000_0000 <= g < 0x8000_0000
    ensures DecId(EncId(g)) == g
  {
    Widths();
    SignedLe(g, 4);
  }

  function EncBool(b: bool): (s: octets)
    ensures |s| == 1
  {
    [if b then 1 else 0]
  }

  function DecBool(s: octets): bool {
    s == [1]
  }
}
