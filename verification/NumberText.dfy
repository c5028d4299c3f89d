/** Number literals (section 6 of RFC 8259) and what the cursor's decimal scanner makes of
    them, in exact arithmetic. */
module NumberText {
  import opened Numbers
  import opened Bytes
  import opened Cursor

  predicate AllDigits(t: bytes) {
    forall i :: 0 <= i < |t| ==> IsDigit(t[i])
  }

  /** The value of the digits t[i..] appended to m. */
  function Acc(t: bytes, i: nat, m: nat): nat
    requires i <= |t|
    decreases |t| - i
  {
    if i == |t| then m else Acc(t, i + 1, m * 10 + DigitVal(t[i]))
  }

  function NatOf(t: bytes): nat {
    Acc(t, 0, 0)
  }

  /** Sign, integer digits, fraction digits (None without a decimal point) and the raw
      exponent part, empty when there is none. */
  datatype NumLit = NumLit(neg: bool, whole: bytes, frac: Option<bytes>, exp: bytes) {
    predicate Valid() {
      && whole != [] && AllDigits(whole)
      && (frac.Some? ==> frac.value != [] && AllDigits(frac.value))
      && (exp != [] ==> (exp[0] == 'e' || exp[0] == 'E') && forall i :: 0 <= i < |exp| ==> IsNumberChar(exp[i]))
    }

    function Sign(): bytes {
      if neg then ['-'] else []
    }

    function Fraction(): bytes {
      if frac.Some? then frac.value else []
    }

    function Point(): bytes {
      if frac.Some? then ['.'] + frac.value else []
    }

    function Text(): bytes {
      Sign() + whole + Point() + exp
    }

    /** No exponent and at most 18 digits: the scanner's own path. */
    predicate Simple() {
      exp == [] && |whole| + |Fraction()| <= 18
    }

    function Value(): real {
      var v := NatOf(whole) as real + NatOf(Fraction()) as real / Pow10(|Fraction()|) as real;
      if neg then -v else v
    }

    /** The meaning given to a literal: exact, or strconv's for long ones and exponents. */
    function Meaning(pf: ParseFloat): Option<real> {
      if Simple() then Some(Value()) else pf(Text())
    }
  }

  // ---- Digits ----------------------------------------------------------------------

  lemma {:induction false} DigitsOver(b: bytes, p: nat, t: bytes, i: nat)
    requires At(b, p, t) && AllDigits(t) && i <= |t|
    requires p + |t| == |b| || !IsDigit(b[p + |t|])
    ensures DigitsEnd(b, p + i) == p + |t|
    decreases |t| - i
  {
    if i < |t| {
      assert b[p + i] == t[i];
      DigitsOver(b, p, t, i + 1);
    }
  }

  lemma {:induction false} AccMono(t: bytes, i: nat, m: nat)
    requires i <= |t|
    ensures Acc(t, i, m) >= m
    decreases |t| - i
  {
    if i < |t| {
      AccMono(t, i + 1, m * 10 + DigitVal(t[i]));
    }
  }

  /** The uint64 accumulator does not wrap when the value fits. */
  lemma {:induction false} MantissaIsAcc(b: bytes, p: nat, t: bytes, i: nat, m: nat)
    requires At(b, p, t) && i <= |t| && m < TWO64 && Acc(t, i, m) < TWO64
    ensures Mantissa(b, p + i, p + |t|, m) == Acc(t, i, m)
    decreases |t| - i
  {
    if i < |t| {
      assert b[p + i] == t[i];
      var m' := m * 10 + DigitVal(t[i]);
      AccMono(t, i + 1, m');
      assert m' % TWO64 == m';
      MantissaIsAcc(b, p, t, i + 1, m');
    }
  }

  lemma ShiftProduct(m: nat, d: nat, k: nat)
    ensures (m * 10 + d) * k == m * (10 * k) + d * k
  {
  }

  lemma {:induction false} AccShift(t: bytes, i: nat, m: nat)
    requires i <= |t|
    ensures Acc(t, i, m) == m * Pow10(|t| - i) + Acc(t, i, 0)
    decreases |t| - i
  {
    if i < |t| {
      var d := DigitVal(t[i]);
      AccShift(t, i + 1, m * 10 + d);
      AccShift(t, i + 1, d);
      var k := Pow10(|t| - i - 1);
      assert Pow10(|t| - i) == 10 * k;
      ShiftProduct(m, d, k);
    }
  }

  lemma {:induction false} AccBound(t: bytes, i: nat, m: nat)
    requires AllDigits(t) && i <= |t|
    ensures Acc(t, i, m) < (m + 1) * Pow10(|t| - i)
    decreases |t| - i
  {
    if i < |t| {
      var d := DigitVal(t[i]);
      assert IsDigit(t[i]) && d <= 9;
      AccBound(t, i + 1, m * 10 + d);
      var k := Pow10(|t| - i - 1);
      assert (m * 10 + d + 1) * k <= (m * 10 + 10) * k;
      assert (m * 10 + 10) * k == (m + 1) * (10 * k);
    }
  }

  lemma {:induction false} Pow10Mono(a: nat, b: nat)
    requires a <= b
    ensures Pow10(a) <= Pow10(b)
    decreases b - a
  {
    if a < b {
      Pow10Mono(a, b - 1);
    }
  }

  lemma MulAssoc(a: nat, b: nat, c: nat)
    ensures a * (b * c) == (a * b) * c
  {
  }

  lemma {:induction false} Pow10Add(a: nat, b: nat)
    ensures Pow10(a + b) == Pow10(a) * Pow10(b)
    decreases a
  {
    if a > 0 {
      Pow10Add(a - 1, b);
      MulAssoc(10, Pow10(a - 1), Pow10(b));
    }
  }

  lemma Pow18()
    ensures Pow10(18) < TWO64
  {
    assert Pow10(3) == 1000;
    Pow10Add(3, 3);
    Pow10Add(6, 6);
    Pow10Add(12, 6);
  }

  lemma MulMono(a: nat, b: nat, c: nat)
    requires a <= b
    ensures a * c <= b * c
  {
  }

  /** The digits of both parts, read on as one number, are the scaled value. */
  lemma SplitValue(w: bytes, f: bytes)
    ensures Acc(f, 0, NatOf(w)) == NatOf(w) * Pow10(|f|) + NatOf(f)
  {
    AccShift(f, 0, NatOf(w));
  }

  lemma SplitBound(w: bytes, f: bytes)
    requires AllDigits(w) && AllDigits(f) && |w| + |f| <= 18
    ensures Acc(f, 0, NatOf(w)) < TWO64
  {
    AccBound(f, 0, NatOf(w));
    AccBound(w, 0, 0);
    MulMono(NatOf(w) + 1, Pow10(|w|), Pow10(|f|));
    Pow10Add(|w|, |f|);
    Pow10Mono(|w| + |f|, 18);
    Pow18();
  }

  lemma DecimalValue(w: nat, f: nat, n: nat)
    ensures Decimal(w * Pow10(n) + f, n) == w as real + f as real / Pow10(n) as real
  {
    var k := Pow10(n);
    assert (w * k + f) as real == w as real * k as real + f as real;
  }

  // ---- The scanner on a literal --------------------------------------------------------

  /** What may follow a number: the end, or a character that cannot continue it. */
  predicate Ends(b: bytes, e: nat) {
    e == |b| || (e < |b| && !IsNumberChar(b[e]))
  }

  lemma AtParts(l: NumLit, b: bytes, p: nat)
    requires At(b, p, l.Text())
    ensures var s := p + |l.Sign()|;
            var i := s + |l.whole|;
            var j := i + |l.Point()|;
            && At(b, p, l.Sign()) && At(b, s, l.whole) && At(b, i, l.Point()) && At(b, j, l.exp)
            && p + |l.Text()| == j + |l.exp|
  {
    AtAppend(b, p, l.Sign() + l.whole + l.Point(), l.exp);
    AtAppend(b, p, l.Sign() + l.whole, l.Point());
    AtAppend(b, p, l.Sign(), l.whole);
  }

  /** The spans of a literal are its digit runs. */
  lemma SpanOf(l: NumLit, b: bytes, p: nat)
    requires l.Valid() && At(b, p, l.Text()) && Ends(b, p + |l.Text()|)
    ensures var s := p + |l.Sign()|;
            var i := s + |l.whole|;
            var f := i + |l.Point()| - |l.Fraction()|;
            && SpanAt(b, p) == Span(s, i, f, i + |l.Point()|)
            && At(b, s, l.whole) && At(b, f, l.Fraction())
    ensures p < |b| && (b[p] == '-' <==> l.neg)
    ensures IsExponent(b, SpanAt(b, p).j) <==> l.exp != []
  {
    AtParts(l, b, p);
    var s := p + |l.Sign()|;
    var i := s + |l.whole|;
    SignOf(l, b, p);
    PointOf(l, b, i);
    DigitsOver(b, s, l.whole, 0);
  }

  lemma SignOf(l: NumLit, b: bytes, p: nat)
    requires l.Valid() && At(b, p, l.Sign()) && At(b, p + |l.Sign()|, l.whole)
    ensures p < |b| && (b[p] == '-' <==> l.neg) && (IsSign(b[p]) <==> l.neg)
  {
    assert b[p + |l.Sign()| + 0] == l.whole[0];
    if l.neg {
      assert b[p + 0] == l.Sign()[0];
    }
  }

  /** What follows the digits: the exponent or the end. */
  lemma ExpOf(l: NumLit, b: bytes, j: nat)
    requires l.Valid() && At(b, j, l.exp) && Ends(b, j + |l.exp|)
    ensures IsExponent(b, j) <==> l.exp != []
    ensures j == |b| || (j < |b| && !IsDigit(b[j]) && b[j] != '.')
  {
    if l.exp != [] {
      assert b[j + 0] == l.exp[0];
    }
  }

  /** What follows the integer digits: the fraction, if any, then the exponent or the end. */
  lemma PointOf(l: NumLit, b: bytes, i: nat)
    requires l.Valid() && At(b, i, l.Point()) && At(b, i + |l.Point()|, l.exp)
    requires Ends(b, i + |l.Point()| + |l.exp|)
    ensures i == |b| || !IsDigit(b[i])
    ensures i < |b| && b[i] == '.' <==> l.frac.Some?
    ensures l.frac.Some? ==> At(b, i + 1, l.Fraction()) && DigitsEnd(b, i + 1) == i + |l.Point()|
    ensures IsExponent(b, i + |l.Point()|) <==> l.exp != []
  {
    hide At, AllDigits, DigitsEnd, IsExponent, Ends;
    ExpOf(l, b, i + |l.Point()|);
    if l.frac.Some? {
      FractionOf(b, i, l.frac.value);
    }
  }

  lemma FractionOf(b: bytes, i: nat, f: bytes)
    requires At(b, i, ['.'] + f) && AllDigits(f)
    requires i + 1 + |f| == |b| || (i + 1 + |f| < |b| && !IsDigit(b[i + 1 + |f|]))
    ensures b[i] == '.' && At(b, i + 1, f) && DigitsEnd(b, i + 1) == i + 1 + |f|
  {
    AtAppend(b, i, ['.'], f);
    assert b[i + 0] == ['.'][0];
    DigitsOver(b, i + 1, f, 0);
  }

  /** With no exponent and at most 18 digits the scanner yields exactly the literal's value
      and stops at its end. */
  lemma NumExact(l: NumLit, b: bytes, p: nat, pf: ParseFloat)
    requires l.Valid() && l.Simple() && At(b, p, l.Text()) && Ends(b, p + |l.Text()|)
    ensures NumAt(b, p, pf) == NumOk(l.Value(), p + |l.Text()|)
  {
    SpanOf(l, b, p);
    AtParts(l, b, p);
    var t := SpanAt(b, p);
    SimpleMantissa(l, b, t);
    DecimalValue(NatOf(l.whole), NatOf(l.Fraction()), |l.Fraction()|);
  }

  lemma SimpleMantissa(l: NumLit, b: bytes, t: Span)
    requires l.Valid() && l.Simple()
    requires t.i == t.s + |l.whole| && t.j == t.f + |l.Fraction()| && t.i <= t.f && t.j <= |b|
    requires At(b, t.s, l.whole) && At(b, t.f, l.Fraction())
    ensures SpanMantissa(b, t) == NatOf(l.whole) * Pow10(|l.Fraction()|) + NatOf(l.Fraction())
  {
    SplitValue(l.whole, l.Fraction());
    SplitBound(l.whole, l.Fraction());
    AccMono(l.Fraction(), 0, NatOf(l.whole));
    MantissaIsAcc(b, t.s, l.whole, 0, 0);
    MantissaIsAcc(b, t.f, l.Fraction(), 0, NatOf(l.whole));
  }

  lemma {:induction false} NumberOver(b: bytes, p: nat, t: bytes, i: nat)
    requires At(b, p, t) && i <= |t| && forall k :: 0 <= k < |t| ==> IsNumberChar(t[k])
    requires Ends(b, p + |t|)
    ensures NumberEnd(b, p + i) == p + |t|
    decreases |t| - i
  {
    if i < |t| {
      assert b[p + i] == t[i];
      NumberOver(b, p, t, i + 1);
    }
  }

  /** Whatever the literal, the scanner yields its meaning and stops at its end. */
  lemma NumMeaning(l: NumLit, b: bytes, p: nat, pf: ParseFloat)
    requires l.Valid() && At(b, p, l.Text()) && Ends(b, p + |l.Text()|)
    requires l.Meaning(pf).Some?
    ensures NumAt(b, p, pf) == NumOk(l.Meaning(pf).value, p + |l.Text()|)
  {
    if l.Simple() {
      NumExact(l, b, p, pf);
    } else {
      LongEnd(l, b, p);
      var e := p + |l.Text()|;
      assert b[p..e] == l.Text();
      assert NumAt(b, p, pf) == NumOk(pf(b[p..e]).value, e);
    }
  }

  /** A literal that strconv refuses is refused. */
  lemma NoMeaning(l: NumLit, b: bytes, p: nat, pf: ParseFloat)
    requires l.Valid() && At(b, p, l.Text()) && Ends(b, p + |l.Text()|)
    requires l.Meaning(pf).None?
    ensures NumAt(b, p, pf).NumFail?
  {
    LongEnd(l, b, p);
    assert b[p..p + |l.Text()|] == l.Text();
  }

  lemma ExpOver(l: NumLit, b: bytes, j: nat)
    requires l.Valid() && At(b, j, l.exp) && Ends(b, j + |l.exp|)
    ensures NumberEnd(b, j) == j + |l.exp|
  {
    NumberOver(b, j, l.exp, 0);
  }

  lemma LongEnd(l: NumLit, b: bytes, p: nat)
    requires l.Valid() && !l.Simple() && At(b, p, l.Text()) && Ends(b, p + |l.Text()|)
    ensures IsExponent(b, SpanAt(b, p).j) || SpanAt(b, p).Digits() > 18
    ensures NumberEnd(b, SpanAt(b, p).j) == p + |l.Text()|
    ensures b[p..p + |l.Text()|] == l.Text()
  {
    SpanOf(l, b, p);
    AtParts(l, b, p);
    hide SpanAt, IsExponent, At;
    ExpOver(l, b, SpanAt(b, p).j);
    AtSlice(b, p, l.Text());
  }
}
