/** The byte cursor of internal/vectorize/parse.go. Every method is specified, for all
    inputs, by a function of the bytes and the position. */
module Cursor {
  import opened Numbers
  import opened Bytes

  // ---- What the cursor computes ------------------------------------------------

  predicate IsSpace(c: byte) {
    c == ' ' || c == '\t' || c == '\n' || c == '\r'
  }

  /** The first position from p on that does not hold white space. */
  function WsEnd(b: bytes, p: nat): (e: nat)
    ensures p <= |b| ==> p <= e <= |b|
    ensures p > |b| ==> e == p
    decreases |b| - p
  {
    if p < |b| && IsSpace(b[p]) then WsEnd(b, p + 1) else p
  }

  /** The position of the quote that closes a string whose content starts at p. */
  function CloseAt(b: bytes, p: nat): (r: Option<nat>)
    ensures r.Some? ==> p <= r.value < |b|
    decreases |b| - p
  {
    if p >= |b| then None
    else if b[p] == '\\' then CloseAt(b, p + 2)
    else if b[p] == '"' then Some(p)
    else CloseAt(b, p + 1)
  }

  /** The closing quote of the string that starts at p. */
  function StrAt(b: bytes, p: nat): (r: Option<nat>)
    ensures r.Some? ==> p < r.value < |b|
  {
    if p < |b| && b[p] == '"' then CloseAt(b, p + 1) else None
  }

  /** Counts one kind of bracket, jumping over strings; yields the position after the
      bracket that brings the depth back to zero. */
  function ScanEnd(b: bytes, p: nat, depth: int, open: byte, clo: byte): (r: Option<nat>)
    ensures r.Some? ==> p < r.value <= |b|
    decreases |b| - p
  {
    if p >= |b| then None
    else if b[p] == '"' then
      var ce := StrAt(b, p);
      if ce.None? then None else ScanEnd(b, ce.value + 1, depth, open, clo)
    else if b[p] == open then ScanEnd(b, p + 1, depth + 1, open, clo)
    else if b[p] == clo then (if depth - 1 == 0 then Some(p + 1) else ScanEnd(b, p + 1, depth - 1, open, clo))
    else ScanEnd(b, p + 1, depth, open, clo)
  }

  predicate IsDelimiter(c: byte) {
    c == ',' || c == '}' || c == ']'
  }

  function ScalarEnd(b: bytes, p: nat): (e: nat)
    requires p <= |b|
    ensures p <= e <= |b|
    decreases |b| - p
  {
    if p < |b| && !IsDelimiter(b[p]) then ScalarEnd(b, p + 1) else p
  }

  function SkipEnd(b: bytes, p: nat): (r: Option<nat>)
    requires p <= |b|
    ensures r.Some? ==> p <= r.value <= |b|
  {
    var s := WsEnd(b, p);
    if s >= |b| then None
    else if b[s] == '"' then
      var ce := StrAt(b, s);
      if ce.None? then None else Some(ce.value + 1)
    else if b[s] == '{' then ScanEnd(b, s, 0, '{', '}')
    else if b[s] == '[' then ScanEnd(b, s, 0, '[', ']')
    else Some(ScalarEnd(b, s))
  }

  function DigitsEnd(b: bytes, p: nat): (e: nat)
    ensures p <= |b| ==> p <= e <= |b|
    ensures p > |b| ==> e == p
    decreases |b| - p
  {
    if p < |b| && IsDigit(b[p]) then DigitsEnd(b, p + 1) else p
  }

  const TWO64: int := 0x1_0000_0000_0000_0000

  /** The uint64 accumulator after the digits b[p..e]. */
  function Mantissa(b: bytes, p: nat, e: nat, m: nat): (r: nat)
    requires p <= e <= |b| && m < TWO64
    ensures r < TWO64
    decreases e - p
  {
    if p == e then m else Mantissa(b, p + 1, e, (m * 10 + DigitVal(b[p])) % TWO64)
  }

  predicate IsNumberChar(c: byte) {
    IsDigit(c) || c == '+' || c == '-' || c == '.' || c == 'e' || c == 'E'
  }

  function NumberEnd(b: bytes, p: nat): (e: nat)
    requires p <= |b|
    ensures p <= e <= |b|
    decreases |b| - p
  {
    if p < |b| && IsNumberChar(b[p]) then NumberEnd(b, p + 1) else p
  }

  function Pow10(n: nat): (r: nat)
    ensures r > 0
  {
    if n == 0 then 1 else 10 * Pow10(n - 1)
  }

  /** float64(mant) / pow10[frac], in real arithmetic. */
  function Decimal(mant: nat, frac: nat): real {
    mant as real / Pow10(frac) as real
  }

  datatype NumResult = NumFail | NumOk(v: real, p: nat)

  /** strconv.ParseFloat, for exponents and more than 18 digits, is a parameter. */
  type ParseFloat = bytes -> Option<real>

  /** The digit runs of a number: integer digits in s..i, fraction digits in f..j. */
  datatype Span = Span(s: nat, i: nat, f: nat, j: nat) {
    function Digits(): int {
      (i - s) + (j - f)
    }
  }

  predicate IsSign(c: byte) {
    c == '-' || c == '+'
  }

  function SpanAt(b: bytes, p: nat): (r: Span)
    requires p <= |b|
    ensures p <= r.s <= r.i <= r.f <= r.j <= |b|
  {
    var s := if p < |b| && IsSign(b[p]) then p + 1 else p;
    var i := DigitsEnd(b, s);
    if i < |b| && b[i] == '.' then Span(s, i, i + 1, DigitsEnd(b, i + 1)) else Span(s, i, i, i)
  }

  function SpanMantissa(b: bytes, t: Span): (m: nat)
    requires t.s <= t.i <= t.f <= t.j <= |b|
    ensures m < TWO64
  {
    Mantissa(b, t.f, t.j, Mantissa(b, t.s, t.i, 0))
  }

  predicate IsExponent(b: bytes, p: nat) {
    p < |b| && (b[p] == 'e' || b[p] == 'E')
  }

  function NumAt(b: bytes, p: nat, pf: ParseFloat): (r: NumResult)
    requires p <= |b|
    ensures r.NumOk? ==> p <= r.p <= |b|
  {
    var t := SpanAt(b, p);
    if IsExponent(b, t.j) || t.Digits() > 18 then
      var e := NumberEnd(b, t.j);
      var v := pf(b[p..e]);
      if v.None? then NumFail else NumOk(v.value, e)
    else if t.Digits() == 0 then
      NumFail
    else
      var val := Decimal(SpanMantissa(b, t), t.j - t.f);
      NumOk(if p < |b| && b[p] == '-' then -val else val, t.j)
  }

  /** The key b[cs..ce] and the position of its value; or the end of the object. */
  datatype KeyResult = KeyFail | ObjectEnd(p: nat) | Key(cs: nat, ce: nat, p: nat)

  function KeyAt(b: bytes, p: nat): (r: KeyResult)
    requires p <= |b|
    ensures r.ObjectEnd? ==> p < r.p <= |b|
    ensures r.Key? ==> p < r.cs <= r.ce < r.p <= |b|
  {
    var s := WsEnd(b, p);
    if s >= |b| then KeyFail
    else if b[s] == '}' then ObjectEnd(s + 1)
    else
      var ce := StrAt(b, s);
      if ce.None? then KeyFail
      else
        var c := WsEnd(b, ce.value + 1);
        if c >= |b| || b[c] != ':' then KeyFail else Key(s + 1, ce.value, WsEnd(b, c + 1))
  }

  function AfterValueEnd(b: bytes, p: nat): (e: nat)
    requires p <= |b|
    ensures p <= e <= |b|
  {
    var s := WsEnd(b, p);
    if s < |b| && b[s] == ',' then s + 1 else s
  }

  function ObjAt(b: bytes, p: nat): (r: Option<nat>)
    requires p <= |b|
    ensures r.Some? ==> p < r.value <= |b|
  {
    var s := WsEnd(b, p);
    if s < |b| && b[s] == '{' then Some(s + 1) else None
  }

  // ---- The cursor object -----------------------------------------------------------

  class Cur {
    const b: bytes
    const pf: ParseFloat
    var p: nat

    constructor (b: bytes, pf: ParseFloat)
      ensures this.b == b && this.pf == pf && p == 0
    {
      this.b, this.pf, p := b, pf, 0;
    }

    method Ws()
      modifies this`p
      ensures p == WsEnd(b, old(p))
    {
      while p < |b|
        invariant WsEnd(b, p) == WsEnd(b, old(p))
        decreases |b| - p
      {
        var c := b[p];
        if c != ' ' && c != '\t' && c != '\n' && c != '\r' {
          return;
        }
        p := p + 1;
      }
    }

    method Str() returns (cs: nat, ce: nat, ok: bool)
      modifies this`p
      ensures ok <==> StrAt(b, old(p)).Some?
      ensures ok ==> cs == old(p) + 1 && ce == StrAt(b, old(p)).value && p == ce + 1
    {
      if p >= |b| || b[p] != '"' {
        return 0, 0, false;
      }
      p := p + 1;
      cs := p;
      while p < |b|
        invariant CloseAt(b, p) == CloseAt(b, cs)
        decreases |b| - p
      {
        if b[p] == '\\' {
          p := p + 2;
          continue;
        }
        if b[p] == '"' {
          ce := p;
          p := p + 1;
          return cs, ce, true;
        }
        p := p + 1;
      }
      return 0, 0, false;
    }

    method Scan(open: byte, clo: byte) returns (ok: bool)
      modifies this`p
      ensures ok <==> ScanEnd(b, old(p), 0, open, clo).Some?
      ensures ok ==> p == ScanEnd(b, old(p), 0, open, clo).value
    {
      var depth := 0;
      while p < |b|
        invariant ScanEnd(b, p, depth, open, clo) == ScanEnd(b, old(p), 0, open, clo)
        decreases |b| - p
      {
        var c := b[p];
        if c == '"' {
          var cs, ce, closed := Str();
          if !closed {
            return false;
          }
          continue;
        } else if c == open {
          depth := depth + 1;
        } else if c == clo {
          depth := depth - 1;
          if depth == 0 {
            p := p + 1;
            return true;
          }
        }
        p := p + 1;
      }
      return false;
    }

    method Skip() returns (ok: bool)
      requires p <= |b|
      modifies this`p
      ensures ok <==> SkipEnd(b, old(p)).Some?
      ensures ok ==> p == SkipEnd(b, old(p)).value
    {
      Ws();
      if p >= |b| {
        return false;
      }
      if b[p] == '"' {
        var cs, ce;
        cs, ce, ok := Str();
      } else if b[p] == '{' || b[p] == '[' {
        var open: byte := b[p];
        var clo: byte := '}';
        if open == '[' {
          clo := ']';
        }
        ok := Scan(open, clo);
      } else {
        ghost var start := p;
        while p < |b|
          invariant start <= p <= |b|
          invariant ScalarEnd(b, p) == ScalarEnd(b, start)
          decreases |b| - p
        {
          var c := b[p];
          if c == ',' || c == '}' || c == ']' {
            break;
          }
          p := p + 1;
        }
        return true;
      }
    }

    /** One digit loop: the accumulator wraps like a uint64. */
    method Digits(m: nat) returns (mant: nat, n: nat)
      requires p <= |b| && m < TWO64
      modifies this`p
      ensures p == DigitsEnd(b, old(p)) && n == p - old(p)
      ensures mant == Mantissa(b, old(p), p, m)
    {
      mant, n := m, 0;
      ghost var end := DigitsEnd(b, p);
      while p < |b| && '0' <= b[p] <= '9'
        invariant old(p) <= p <= end && n == p - old(p) && mant < TWO64
        invariant DigitsEnd(b, p) == end
        invariant Mantissa(b, p, end, mant) == Mantissa(b, old(p), end, m)
        decreases |b| - p
      {
        mant := (mant * 10 + DigitVal(b[p])) % TWO64;
        p := p + 1;
        n := n + 1;
      }
    }

    /** The sign and the two digit loops. */
    method NumDigits() returns (neg: bool, mant: nat, digits: nat, frac: nat)
      requires p <= |b|
      modifies this`p
      ensures var t := SpanAt(b, old(p));
              p == t.j && mant == SpanMantissa(b, t) && digits == t.Digits() && frac == t.j - t.f
      ensures neg <==> old(p) < |b| && b[old(p)] == '-'
    {
      neg := false;
      if p < |b| && (b[p] == '-' || b[p] == '+') {
        neg := b[p] == '-';
        p := p + 1;
      }
      mant, digits := Digits(0);
      frac := 0;
      if p < |b| && b[p] == '.' {
        p := p + 1;
        mant, frac := Digits(mant);
        digits := digits + frac;
      }
    }

    /** With at most 18 digits the index into the table of powers stays inside it. */
    method Num() returns (v: real, ok: bool)
      requires p <= |b|
      modifies this`p
      ensures ok <==> NumAt(b, old(p), pf).NumOk?
      ensures ok ==> v == NumAt(b, old(p), pf).v && p == NumAt(b, old(p), pf).p
    {
      var start := p;
      var neg, mant, digits, frac := NumDigits();
      if (p < |b| && (b[p] == 'e' || b[p] == 'E')) || digits > 18 {
        NumberChars();
        var f := pf(b[start..p]);
        return if f.Some? then f.value else 0.0, f.Some?;
      }
      if digits == 0 {
        return 0.0, false;
      }
      assert frac <= 18;
      v := Decimal(mant, frac);
      if neg {
        v := -v;
      }
      return v, true;
    }

    method NumberChars()
      requires p <= |b|
      modifies this`p
      ensures p == NumberEnd(b, old(p))
    {
      while p < |b|
        invariant old(p) <= p <= |b| && NumberEnd(b, p) == NumberEnd(b, old(p))
        decreases |b| - p
      {
        var c := b[p];
        if ('0' <= c <= '9') || c == '+' || c == '-' || c == '.' || c == 'e' || c == 'E' {
          p := p + 1;
          continue;
        }
        break;
      }
    }

    method NextKey() returns (key: bytes, more: bool, ok: bool)
      requires p <= |b|
      modifies this`p
      ensures ok <==> !KeyAt(b, old(p)).KeyFail?
      ensures ok ==> p == KeyAt(b, old(p)).p && (more <==> KeyAt(b, old(p)).Key?)
      ensures ok && more ==> key == b[KeyAt(b, old(p)).cs..KeyAt(b, old(p)).ce]
    {
      Ws();
      if p >= |b| {
        return [], false, false;
      }
      if b[p] == '}' {
        p := p + 1;
        return [], false, true;
      }
      var cs, ce, o := Str();
      if !o {
        return [], false, false;
      }
      Ws();
      if p >= |b| || b[p] != ':' {
        return [], false, false;
      }
      p := p + 1;
      Ws();
      return b[cs..ce], true, true;
    }

    method AfterValue()
      requires p <= |b|
      modifies this`p
      ensures p == AfterValueEnd(b, old(p))
    {
      Ws();
      if p < |b| && b[p] == ',' {
        p := p + 1;
      }
    }

    method Obj() returns (ok: bool)
      requires p <= |b|
      modifies this`p
      ensures ok <==> ObjAt(b, old(p)).Some?
      ensures ok ==> p == ObjAt(b, old(p)).value
    {
      Ws();
      if p >= |b| || b[p] != '{' {
        return false;
      }
      p := p + 1;
      return true;
    }
  }
}
