/** A body that ends too early is rejected (internal/vectorize/parse.go): whatever the parser
    accepts it has seen the end of, so more bytes after it change nothing. */
module Truncation {
  import opened Bytes
  import opened Stamps
  import opened Cursor
  import opened JsonText
  import opened SkipProof
  import opened Parser
  import opened ParseProof

  // ---- More bytes change nothing: the cursor -------------------------------------------------

  lemma {:induction false} WsSame(t: bytes, u: bytes, p: nat)
    requires WsEnd(t, p) < |t|
    ensures WsEnd(t + u, p) == WsEnd(t, p)
    decreases |t| - p
  {
    if p < |t| && IsSpace(t[p]) {
      WsSame(t, u, p + 1);
    }
  }

  lemma {:induction false} CloseSame(t: bytes, u: bytes, p: nat)
    requires CloseAt(t, p).Some?
    ensures CloseAt(t + u, p) == CloseAt(t, p)
    decreases |t| - p
  {
    if t[p] == '\\' {
      CloseSame(t, u, p + 2);
    } else if t[p] != '"' {
      CloseSame(t, u, p + 1);
    }
  }

  lemma StrSame(t: bytes, u: bytes, p: nat)
    requires StrAt(t, p).Some?
    ensures StrAt(t + u, p) == StrAt(t, p)
  {
    CloseSame(t, u, p + 1);
  }

  lemma {:induction false} ScanSame(t: bytes, u: bytes, p: nat, depth: int, open: byte, clo: byte)
    requires ScanEnd(t, p, depth, open, clo).Some?
    ensures ScanEnd(t + u, p, depth, open, clo) == ScanEnd(t, p, depth, open, clo)
    decreases |t| - p
  {
    hide StrAt;
    if t[p] == '"' {
      StrSame(t, u, p);
      ScanSame(t, u, StrAt(t, p).value + 1, depth, open, clo);
    } else if t[p] == open {
      ScanSame(t, u, p + 1, depth + 1, open, clo);
    } else if t[p] != clo {
      ScanSame(t, u, p + 1, depth, open, clo);
    } else if depth - 1 != 0 {
      ScanSame(t, u, p + 1, depth - 1, open, clo);
    }
  }

  lemma {:induction false} ScalarSame(t: bytes, u: bytes, p: nat)
    requires p <= |t| && ScalarEnd(t, p) < |t|
    ensures ScalarEnd(t + u, p) == ScalarEnd(t, p)
    decreases |t| - p
  {
    if !IsDelimiter(t[p]) {
      ScalarSame(t, u, p + 1);
    }
  }

  lemma SkipSame(t: bytes, u: bytes, p: nat)
    requires p <= |t| && SkipEnd(t, p).Some? && SkipEnd(t, p).value < |t|
    ensures SkipEnd(t + u, p) == SkipEnd(t, p)
  {
    hide StrAt, ScanEnd, ScalarEnd, WsEnd;
    var s := WsEnd(t, p);
    WsSame(t, u, p);
    assert (t + u)[s] == t[s];
    if t[s] == '"' {
      StrSame(t, u, s);
    } else if t[s] == '{' {
      ScanSame(t, u, s, 0, '{', '}');
    } else if t[s] == '[' {
      ScanSame(t, u, s, 0, '[', ']');
    } else {
      ScalarSame(t, u, s);
    }
  }

  lemma {:induction false} DigitsSame(t: bytes, u: bytes, p: nat)
    requires DigitsEnd(t, p) < |t|
    ensures DigitsEnd(t + u, p) == DigitsEnd(t, p)
    decreases |t| - p
  {
    if p < |t| && IsDigit(t[p]) {
      DigitsSame(t, u, p + 1);
    }
  }

  lemma {:induction false} NumberSame(t: bytes, u: bytes, p: nat)
    requires p <= |t| && NumberEnd(t, p) < |t|
    ensures NumberEnd(t + u, p) == NumberEnd(t, p)
    decreases |t| - p
  {
    if IsNumberChar(t[p]) {
      NumberSame(t, u, p + 1);
    }
  }

  lemma SpanSame(t: bytes, u: bytes, p: nat)
    requires p <= |t| && SpanAt(t, p).j < |t|
    ensures SpanAt(t + u, p) == SpanAt(t, p)
  {
    hide DigitsEnd;
    var s := if p < |t| && IsSign(t[p]) then p + 1 else p;
    DigitsSame(t, u, s);
    var i := DigitsEnd(t, s);
    assert (t + u)[i] == t[i];
    if t[i] == '.' {
      DigitsSame(t, u, i + 1);
    }
  }

  lemma NumSame(t: bytes, u: bytes, p: nat, pf: ParseFloat)
    requires p <= |t| && NumAt(t, p, pf).NumOk? && NumAt(t, p, pf).p < |t|
    ensures NumAt(t + u, p, pf).NumOk? && NumAt(t + u, p, pf).p == NumAt(t, p, pf).p
  {
    hide SpanAt, NumberEnd, SpanMantissa;
    var j := SpanAt(t, p).j;
    SpanSame(t, u, p);
    assert (t + u)[j] == t[j];
    if IsExponent(t, j) || SpanAt(t, p).Digits() > 18 {
      NumberSame(t, u, j);
      assert (t + u)[p..NumberEnd(t, j)] == t[p..NumberEnd(t, j)];
    }
  }

  lemma KeySame(t: bytes, u: bytes, p: nat)
    requires p <= |t|
    ensures KeyAt(t, p).ObjectEnd? ==> KeyAt(t + u, p) == KeyAt(t, p)
    ensures KeyAt(t, p).Key? && KeyAt(t, p).p < |t| ==>
      KeyAt(t + u, p) == KeyAt(t, p) && (t + u)[KeyAt(t, p).cs..KeyAt(t, p).ce] == t[KeyAt(t, p).cs..KeyAt(t, p).ce]
  {
    hide StrAt, WsEnd;
    var k := KeyAt(t, p);
    if !k.KeyFail? {
      var s := WsEnd(t, p);
      WsSame(t, u, p);
      assert (t + u)[s] == t[s];
      if k.Key? && k.p < |t| {
        StrSame(t, u, s);
        var c := WsEnd(t, k.ce + 1);
        WsSame(t, u, k.ce + 1);
        assert (t + u)[c] == t[c];
        WsSame(t, u, c + 1);
      }
    }
  }

  /** There is always something after a key or a member. */
  lemma KeyInside(t: bytes, p: nat)
    requires p <= |t| && !KeyAt(t, p).KeyFail?
    ensures p < |t|
  {
    hide StrAt;
  }

  lemma AfterValueSame(t: bytes, u: bytes, p: nat)
    requires p <= |t| && AfterValueEnd(t, p) < |t|
    ensures AfterValueEnd(t + u, p) == AfterValueEnd(t, p)
  {
    hide WsEnd;
    var s := WsEnd(t, p);
    WsSame(t, u, p);
    assert (t + u)[s] == t[s];
  }

  lemma ObjSame(t: bytes, u: bytes, p: nat)
    requires p <= |t| && ObjAt(t, p).Some?
    ensures ObjAt(t + u, p) == ObjAt(t, p)
  {
    hide WsEnd;
    WsSame(t, u, p);
  }

  // ---- More bytes change nothing: the parser ---------------------------------------------------

  /** Both steps succeed at the same position; what they extract does not matter. */
  predicate SameEnd(a: Step, b: Step) {
    a.Step? && b.Step? && a.p == b.p
  }

  lemma FieldSame(k: Kind, t: bytes, u: bytes, p: nat, key: bytes, r: Parsed, r': Parsed, pf: ParseFloat)
    requires p <= |t|
    requires var a := FieldStep(k, t, p, key, r, pf); a.Step? && a.p < |t|
    ensures SameEnd(FieldStep(k, t, p, key, r, pf), FieldStep(k, t + u, p, key, r', pf))
  {
    hide NumAt, StrAt, SkipEnd, ParseISO8601, WsEnd;
    if NumAt(t, p, pf).NumOk? && NumAt(t, p, pf).p < |t| {
      NumSame(t, u, p, pf);
    }
    if StrAt(t, p).Some? {
      StrSame(t, u, p);
    }
    if SkipEnd(t, p).Some? && SkipEnd(t, p).value < |t| {
      SkipSame(t, u, p);
    }
    KnownSame(t, u, p);
  }

  lemma KnownSame(t: bytes, u: bytes, p: nat)
    requires p <= |t|
    ensures var s := WsEnd(t, p);
            SkipEnd(t, s).Some? && SkipEnd(t, s).value < |t| ==>
              WsEnd(t + u, p) == s < |t| && (t + u)[s] == t[s] && SkipEnd(t + u, s) == SkipEnd(t, s)
  {
    hide StrAt, ScanEnd, ScalarEnd;
    var s := WsEnd(t, p);
    if SkipEnd(t, s).Some? && SkipEnd(t, s).value < |t| {
      WsSame(t, u, p);
      SkipSame(t, u, s);
    }
  }

  lemma {:induction false} MembersSame(k: Kind, t: bytes, u: bytes, p: nat, r: Parsed, r': Parsed, pf: ParseFloat)
    requires p <= |t| && MembersStep(k, t, p, r, pf).Step?
    ensures SameEnd(MembersStep(k, t, p, r, pf), MembersStep(k, t + u, p, r', pf))
    decreases |t| - p
  {
    hide FieldStep, KeyAt, AfterValueEnd;
    KeySame(t, u, p);
    match KeyAt(t, p)
    case ObjectEnd(q) =>
    case Key(cs, ce, q) =>
      var a := FieldStep(k, t, q, t[cs..ce], r, pf);
      var e := AfterValueEnd(t, a.p);
      KeyInside(t, e);
      FieldSame(k, t, u, q, t[cs..ce], r, r', pf);
      AfterValueSame(t, u, a.p);
      MembersSame(k, t, u, e, a.r, FieldStep(k, t + u, q, t[cs..ce], r', pf).r, pf);
  }

  lemma SectionSame(k: Kind, t: bytes, u: bytes, p: nat, r: Parsed, r': Parsed, pf: ParseFloat)
    requires p <= |t| && SectionStep(k, t, p, r, pf).Step?
    ensures SameEnd(SectionStep(k, t, p, r, pf), SectionStep(k, t + u, p, r', pf))
  {
    hide MembersStep, WsEnd;
    var w := WsEnd(t, p);
    if w < |t| {
      WsSame(t, u, p);
      assert (t + u)[w] == t[w];
    }
    if k.LastTxObj? && w + 4 <= |t| && t[w..w + 4] == "null" {
      assert (t + u)[w..w + 4] == t[w..w + 4];
    } else {
      ObjSame(t, u, p);
      assert w + 4 <= |t + u| ==> (t + u)[w..w + 4][0] == '{';
      var o := ObjAt(t, p).value;
      MembersSame(k, t, u, o, if k.LastTxObj? then r.(hasLastTx := true) else r,
                  if k.LastTxObj? then r'.(hasLastTx := true) else r', pf);
    }
  }

  lemma RootFieldSame(t: bytes, u: bytes, p: nat, key: bytes, r: Parsed, r': Parsed, pf: ParseFloat)
    requires p <= |t|
    requires var a := RootFieldStep(t, p, key, r, pf); a.Step? && a.p < |t|
    ensures SameEnd(RootFieldStep(t, p, key, r, pf), RootFieldStep(t + u, p, key, r', pf))
  {
    hide SectionStep, SkipEnd, SectionOf;
    if SectionOf(key).Some? {
      SectionSame(SectionOf(key).value, t, u, p, r, r', pf);
    } else {
      SkipSame(t, u, p);
    }
  }

  lemma {:induction false} RootSame(t: bytes, u: bytes, p: nat, r: Parsed, r': Parsed, pf: ParseFloat)
    requires p <= |t| && RootStep(t, p, r, pf).Step?
    ensures SameEnd(RootStep(t, p, r, pf), RootStep(t + u, p, r', pf))
    decreases |t| - p
  {
    hide RootFieldStep, KeyAt, AfterValueEnd;
    KeySame(t, u, p);
    match KeyAt(t, p)
    case ObjectEnd(q) =>
    case Key(cs, ce, q) =>
      var a := RootFieldStep(t, q, t[cs..ce], r, pf);
      var e := AfterValueEnd(t, a.p);
      KeyInside(t, e);
      RootFieldSame(t, u, q, t[cs..ce], r, r', pf);
      AfterValueSame(t, u, a.p);
      RootSame(t, u, e, a.r, RootFieldStep(t + u, q, t[cs..ce], r', pf).r, pf);
  }

  // ---- The end of the object is the end of what is accepted --------------------------------------

  /** On a printed payload the parser stops right after the closing brace. */
  lemma StopsAtEnd(front: bytes, ws: bytes, ms: Members, pf: ParseFloat)
    requires AllSpace(front) && WellFormed(Obj(ws, ms)) && RootOK(ms, pf)
    ensures var body := front + Print(Obj(ws, ms));
            |front| < |body| && RootStep(body, |front| + 1, BLANK, pf).Step?
            && RootStep(body, |front| + 1, BLANK, pf).p == |body|
  {
    hide RootStep, ReadRoot, RootOK, MembersOK, At, WsEnd;
    var body := front + Print(Obj(ws, ms));
    assert body + [] == body;
    PayloadStart(front, ws, ms, []);
    if ms.NoMembers? {
      EmptyRoot(ws, ms, body, |front| + 1, pf);
    } else {
      RootReads(ms, body, |front| + 1, BLANK, pf);
    }
  }

  /** No proper prefix of a JSON text of an object is accepted. */
  lemma PrefixRejected(front: bytes, ws: bytes, ms: Members, t: bytes, pf: ParseFloat)
    requires AllSpace(front) && WellFormed(Obj(ws, ms)) && StrictMembers(ms) && RootUncut(ms)
    requires t < front + Print(Obj(ws, ms))
    ensures ParseBody(t, pf).None?
  {
    hide RootStep, RootOK, MembersOK, StrictMembers, RootUncut, Print;
    var body := front + Print(Obj(ws, ms));
    var u := body[|t|..];
    assert t + u == body && body + [] == body;
    var o := ObjAt(t, 0);
    if o.Some? && RootStep(t, o.value, BLANK, pf).Step? {
      ObjSame(t, u, 0);
      RootSame(t, u, o.value, BLANK, BLANK, pf);
      PayloadStart(front, ws, ms, []);
      ParseIff(front, ws, ms, [], pf);
      StopsAtEnd(front, ws, ms, pf);
    }
  }

  /** A comma after the last member is let pass, a second comma is not. */
  lemma OneCommaPasses(b: bytes, p: nat, ws: bytes)
    requires At(b, p, ws + ",") && AllSpace(ws)
    ensures var e := p + |ws| + 1;
            && AfterValueEnd(b, p) == e
            && (e < |b| && b[e] == ',' ==> KeyAt(b, e).KeyFail?)
            && (e < |b| && b[e] == '}' ==> KeyAt(b, e) == ObjectEnd(e + 1))
  {
    AtAppend(b, p, ws, ",");
    assert b[p + |ws| + 0] == ","[0];
    WsTo(b, p, ws);
  }
}
