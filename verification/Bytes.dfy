/** Bytes, written as the characters of the same code, and decimal digits. Nothing below
    depends on codes staying under 256, so every statement about byte strings is included. */
module Bytes {

  type byte = char
  type bytes = seq<byte>

  predicate IsDigit(c: byte) {
    '0' <= c <= '9'
  }

  /** int64(c - '0'), where the subtraction wraps in a byte. */
  function DigitVal(c: byte): (v: int)
    ensures 0 <= v < 256
    ensures IsDigit(c) ==> v == c as int - 48
  {
    (c as int - 48) % 256
  }

  function DigitChar(n: nat): (c: byte)
    requires n < 10
    ensures IsDigit(c) && DigitVal(c) == n
  {
    (n + 48) as char
  }

  /** Two decimal digits. */
  function Two(n: nat): (s: bytes)
    requires n < 100
    ensures |s| == 2 && s[0] == DigitChar(n / 10) && s[1] == DigitChar(n % 10)
  {
    [DigitChar(n / 10), DigitChar(n % 10)]
  }

  /** t occurs in b at position p. */
  ghost predicate At(b: bytes, p: nat, t: bytes) {
    p + |t| <= |b| && forall i :: 0 <= i < |t| ==> b[p + i] == t[i]
  }

  lemma AtAppend(b: bytes, p: nat, s: bytes, t: bytes)
    ensures At(b, p, s + t) <==> At(b, p, s) && At(b, p + |s|, t)
  {
    var st := s + t;
    if At(b, p, st) {
      assert forall i :: 0 <= i < |s| ==> s[i] == st[i];
      assert forall i :: 0 <= i < |t| ==> t[i] == st[|s| + i];
    }
    if At(b, p, s) && At(b, p + |s|, t) {
      forall i | 0 <= i < |st|
        ensures b[p + i] == st[i]
      {
        if i >= |s| {
          assert st[i] == t[i - |s|];
        }
      }
    }
  }

  lemma AtSlice(b: bytes, p: nat, t: bytes)
    ensures At(b, p, t) <==> p + |t| <= |b| && b[p..p + |t|] == t
  {
    if p + |t| <= |b| && b[p..p + |t|] == t {
      forall i | 0 <= i < |t|
        ensures b[p + i] == t[i]
      {
        assert b[p + i] == b[p..p + |t|][i];
      }
    }
  }
}
