/** Go's fixed-width integers as ranges of int, and the few shared helpers. */
module Numbers {

  type int16 = x: int | -0x8000 <= x < 0x8000
  type int32 = x: int | -0x8000_0000 <= x < 0x8000_0000
  type int64 = x: int | -0x8000_0000_0000_0000 <= x < 0x8000_0000_0000_0000

  datatype Option<+T> = None | Some(value: T)

  /** Two's-complement truncation to 16, 32 and 64 bits. */
  function Wrap16(x: int): (w: int16)
    ensures (w - x) % 0x1_0000 == 0
  {
    var m := x % 0x1_0000;
    if m < 0x8000 then m else m - 0x1_0000
  }

  function Wrap32(x: int): (w: int32)
    ensures (w - x) % 0x1_0000_0000 == 0
  {
    var m := x % 0x1_0000_0000;
    if m < 0x8000_0000 then m else m - 0x1_0000_0000
  }

  function Wrap64(x: int): (w: int64)
    ensures (w - x) % 0x1_0000_0000_0000_0000 == 0
  {
    var m := x % 0x1_0000_0000_0000_0000;
    if m < 0x8000_0000_0000_0000 then m else m - 0x1_0000_0000_0000_0000
  }

  function Min(a: int, b: int): (m: int)
    ensures m <= a && m <= b && (m == a || m == b)
  {
    if a < b then a else b
  }

  lemma ProductOutside(n: int, d: int)
    requires n > 0
    ensures d > 0 ==> n * d >= n
    ensures d < 0 ==> n * d <= -n
  {
  }

  /** Quotient and remainder are determined by the division equation. */
  lemma DivModUnique(x: int, n: int, a: int, r: int)
    requires n > 0 && x == n * a + r && 0 <= r < n
    ensures x / n == a && x % n == r
  {
    var d := x / n - a;
    assert n * d == r - x % n;
    ProductOutside(n, d);
  }
}
