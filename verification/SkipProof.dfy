/** Skipping over the text of any well-formed value. */
module SkipProof {
  import opened Numbers
  import opened Bytes
  import opened Cursor
  import opened JsonText

  /** Text without quotes and without either bracket of the counted kind. */
  predicate IsPlain(t: bytes, open: byte, clo: byte) {
    forall i :: 0 <= i < |t| ==> t[i] != '"' && t[i] != open && t[i] != clo
  }

  lemma {:induction false} WsOver(b: bytes, p: nat, t: bytes, i: nat)
    requires At(b, p, t) && AllSpace(t) && i <= |t|
    ensures WsEnd(b, p + i) == WsEnd(b, p + |t|)
    decreases |t| - i
  {
    if i < |t| {
      assert b[p + i] == t[i];
      WsOver(b, p, t, i + 1);
    }
  }

  /** White space up to a character that is none. */
  lemma WsTo(b: bytes, p: nat, t: bytes)
    requires At(b, p, t) && AllSpace(t)
    requires p + |t| == |b| || !IsSpace(b[p + |t|])
    ensures WsEnd(b, p) == p + |t|
  {
    WsOver(b, p, t, 0);
  }

  lemma {:induction false} CloseOver(b: bytes, p: nat, raw: bytes, i: nat)
    requires At(b, p, raw) && i <= |raw| && ContentFrom(raw, i)
    requires p + |raw| < |b| && b[p + |raw|] == '"'
    ensures CloseAt(b, p + i) == Some(p + |raw|)
    decreases |raw| - i
  {
    if i < |raw| {
      assert b[p + i] == raw[i];
      if raw[i] == '\\' {
        CloseOver(b, p, raw, i + 2);
      } else {
        CloseOver(b, p, raw, i + 1);
      }
    }
  }

  lemma Bracketed(b: bytes, p: nat, open: byte, body: bytes, clo: byte)
    requires At(b, p, [open] + body + [clo])
    ensures p + 1 + |body| < |b|
    ensures b[p] == open && At(b, p + 1, body) && b[p + 1 + |body|] == clo
  {
    AtAppend(b, p, [open] + body, [clo]);
    AtAppend(b, p, [open], body);
    assert b[p + 0] == [open][0];
    assert b[p + 1 + |body| + 0] == [clo][0];
  }

  lemma StrOver(b: bytes, p: nat, raw: bytes)
    requires At(b, p, Quoted(raw)) && IsContent(raw)
    ensures StrAt(b, p) == Some(p + 1 + |raw|)
  {
    Bracketed(b, p, '"', raw, '"');
    CloseOver(b, p + 1, raw, 0);
  }

  predicate IsPair(open: byte, clo: byte) {
    (open == '{' && clo == '}') || (open == '[' && clo == ']')
  }

  /** Scanning inside a bracket gets from p to q without a change of depth. */
  ghost predicate Passes(b: bytes, p: nat, q: nat, open: byte, clo: byte) {
    forall depth: int :: depth >= 1 ==> ScanEnd(b, p, depth, open, clo) == ScanEnd(b, q, depth, open, clo)
  }

  lemma PassTrans(b: bytes, p: nat, q: nat, r: nat, open: byte, clo: byte)
    requires Passes(b, p, q, open, clo) && Passes(b, q, r, open, clo)
    ensures Passes(b, p, r, open, clo)
  {
    forall depth: int | depth >= 1
      ensures ScanEnd(b, p, depth, open, clo) == ScanEnd(b, r, depth, open, clo)
    {
      assert ScanEnd(b, p, depth, open, clo) == ScanEnd(b, q, depth, open, clo);
    }
  }

  lemma {:induction false} PassPlainFrom(b: bytes, p: nat, t: bytes, i: nat, open: byte, clo: byte)
    requires At(b, p, t) && IsPlain(t, open, clo) && i <= |t|
    ensures Passes(b, p + i, p + |t|, open, clo)
    decreases |t| - i
  {
    if i < |t| {
      assert b[p + i] == t[i];
      assert Passes(b, p + i, p + i + 1, open, clo);
      PassPlainFrom(b, p, t, i + 1, open, clo);
      PassTrans(b, p + i, p + i + 1, p + |t|, open, clo);
    }
  }

  lemma PassPlain(b: bytes, p: nat, t: bytes, open: byte, clo: byte)
    requires At(b, p, t) && IsPlain(t, open, clo)
    ensures Passes(b, p, p + |t|, open, clo)
  {
    PassPlainFrom(b, p, t, 0, open, clo);
  }

  lemma PassSpace(b: bytes, p: nat, t: bytes, open: byte, clo: byte)
    requires At(b, p, t) && AllSpace(t) && IsPair(open, clo)
    ensures Passes(b, p, p + |t|, open, clo)
  {
    PassPlain(b, p, t, open, clo);
  }

  lemma PassNothing(b: bytes, p: nat, open: byte, clo: byte)
    ensures Passes(b, p, p, open, clo)
  {
  }

  lemma PassString(b: bytes, p: nat, raw: bytes, open: byte, clo: byte)
    requires At(b, p, Quoted(raw)) && IsContent(raw)
    ensures Passes(b, p, p + |Quoted(raw)|, open, clo)
  {
    StrOver(b, p, raw);
  }

  /** A bracket pair around text that is passed is itself passed, counted or not. */
  lemma PassBracket(b: bytes, p: nat, c: byte, body: bytes, d: byte, open: byte, clo: byte)
    requires At(b, p, [c] + body + [d]) && IsPair(c, d) && IsPair(open, clo)
    requires Passes(b, p + 1, p + 1 + |body|, open, clo)
    ensures Passes(b, p, p + |[c] + body + [d]|, open, clo)
  {
    Bracketed(b, p, c, body, d);
    var e := p + 1 + |body|;
    forall depth: int | depth >= 1
      ensures ScanEnd(b, p, depth, open, clo) == ScanEnd(b, e + 1, depth, open, clo)
    {
      var inner := if c == open then depth + 1 else depth;
      assert ScanEnd(b, p, depth, open, clo) == ScanEnd(b, p + 1, inner, open, clo);
      assert ScanEnd(b, p + 1, inner, open, clo) == ScanEnd(b, e, inner, open, clo);
      assert ScanEnd(b, e, inner, open, clo) == ScanEnd(b, e + 1, depth, open, clo);
    }
  }

  lemma AtJoin4(b: bytes, p: nat, s: bytes, t: bytes, u: bytes, v: bytes)
    ensures At(b, p, Join4(s, t, u, v)) <==>
            At(b, p, s) && At(b, p + |s|, t) && At(b, p + |s| + |t|, u) && At(b, p + |s| + |t| + |u|, v)
  {
    AtAppend(b, p, s + t + u, v);
    AtAppend(b, p, s + t, u);
    AtAppend(b, p, s, t);
  }

  /** Passing a text piece by piece. */
  lemma PassJoin4(b: bytes, p: nat, s: bytes, t: bytes, u: bytes, v: bytes, open: byte, clo: byte)
    requires Passes(b, p, p + |s|, open, clo)
    requires Passes(b, p + |s|, p + |s| + |t|, open, clo)
    requires Passes(b, p + |s| + |t|, p + |s| + |t| + |u|, open, clo)
    requires Passes(b, p + |s| + |t| + |u|, p + |s| + |t| + |u| + |v|, open, clo)
    ensures Passes(b, p, p + |Join4(s, t, u, v)|, open, clo)
  {
    var q1 := p + |s|;
    var q2 := q1 + |t|;
    var q3 := q2 + |u|;
    PassTrans(b, p, q1, q2, open, clo);
    PassTrans(b, p, q2, q3, open, clo);
    PassTrans(b, p, q3, q3 + |v|, open, clo);
  }

  lemma PassNext(b: bytes, p: nat, rest: bytes, open: byte, clo: byte)
    requires At(b, p, [','] + rest) && IsPair(open, clo)
    requires Passes(b, p + 1, p + 1 + |rest|, open, clo)
    ensures Passes(b, p, p + |[','] + rest|, open, clo)
  {
    AtAppend(b, p, [','], rest);
    PassPlain(b, p, [','], open, clo);
    PassTrans(b, p, p + 1, p + 1 + |rest|, open, clo);
  }

  /** Scanning inside a bracket passes over a whole value and comes out at the same depth. */
  lemma {:induction false} PassValue(v: Json, b: bytes, p: nat, open: byte, clo: byte)
    requires WellFormed(v) && At(b, p, Print(v)) && IsPair(open, clo)
    ensures Passes(b, p, p + |Print(v)|, open, clo)
    decreases v, 1
  {
    match v
    case Scalar(text) =>
      PassPlain(b, p, text, open, clo);
    case Num(lit) =>
      NumIsToken(lit);
      PassPlain(b, p, lit.Text(), open, clo);
    case Text(raw) =>
      PassString(b, p, raw, open, clo);
    case Arr(ws, es) =>
      PassArr(ws, es, b, p, open, clo);
      PassBracket(b, p, '[', ElemsBody(ws, es), ']', open, clo);
    case Obj(ws, ms) =>
      PassObj(ws, ms, b, p, open, clo);
      PassBracket(b, p, '{', MembersBody(ws, ms), '}', open, clo);
  }

  lemma {:induction false} PassArr(ws: bytes, es: Elems, b: bytes, p: nat, open: byte, clo: byte)
    requires AllSpace(ws) && ElemsOK(es) && At(b, p, ['['] + ElemsBody(ws, es) + [']']) && IsPair(open, clo)
    ensures Passes(b, p + 1, p + 1 + |ElemsBody(ws, es)|, open, clo)
    decreases es, 1
  {
    Bracketed(b, p, '[', ElemsBody(ws, es), ']');
    if es.NoElems? {
      PassPlain(b, p + 1, ws, open, clo);
    } else {
      PassElems(es, b, p + 1, open, clo);
    }
  }

  lemma {:induction false} PassObj(ws: bytes, ms: Members, b: bytes, p: nat, open: byte, clo: byte)
    requires AllSpace(ws) && MembersOK(ms) && At(b, p, ['{'] + MembersBody(ws, ms) + ['}']) && IsPair(open, clo)
    ensures Passes(b, p + 1, p + 1 + |MembersBody(ws, ms)|, open, clo)
    decreases ms, 1
  {
    Bracketed(b, p, '{', MembersBody(ws, ms), '}');
    if ms.NoMembers? {
      PassPlain(b, p + 1, ws, open, clo);
    } else {
      PassMembers(ms, b, p + 1, open, clo);
    }
  }

  lemma {:induction false} PassElems(es: Elems, b: bytes, p: nat, open: byte, clo: byte)
    requires ElemsOK(es) && At(b, p, ElemsText(es)) && IsPair(open, clo)
    ensures Passes(b, p, p + |ElemsText(es)|, open, clo)
    decreases es, 0
  {
    hide At, AllSpace, Passes, IsPair, Join4, Print, WellFormed;
    match es
    case NoElems =>
      PassNothing(b, p, open, clo);
    case Elem(pre, v, post, rest) =>
      var next := MoreElems(rest);
      AtJoin4(b, p, pre, Print(v), post, next);
      PassSpace(b, p, pre, open, clo);
      PassValue(v, b, p + |pre|, open, clo);
      PassSpace(b, p + |pre| + |Print(v)|, post, open, clo);
      var q := p + |pre| + |Print(v)| + |post|;
      if rest.Elem? {
        AtAppend(b, q, [','], ElemsText(rest));
        PassElems(rest, b, q + 1, open, clo);
        PassNext(b, q, ElemsText(rest), open, clo);
      } else {
        PassNothing(b, q, open, clo);
      }
      PassJoin4(b, p, pre, Print(v), post, next, open, clo);
  }

  lemma {:induction false} PassMembers(ms: Members, b: bytes, p: nat, open: byte, clo: byte)
    requires MembersOK(ms) && At(b, p, MembersText(ms)) && IsPair(open, clo)
    ensures Passes(b, p, p + |MembersText(ms)|, open, clo)
    decreases ms, 0
  {
    hide At, AllSpace, Passes, IsPair, IsContent, Join4, KeyText, Print, WellFormed;
    match ms
    case NoMembers =>
      PassNothing(b, p, open, clo);
    case Member(pre, key, mid1, mid2, v, post, tail) =>
      var next := MoreMembers(tail);
      AtJoin4(b, p, KeyText(ms), Print(v), post, next);
      PassKey(ms, b, p, open, clo);
      PassValue(v, b, p + |KeyText(ms)|, open, clo);
      PassSpace(b, p + |KeyText(ms)| + |Print(v)|, post, open, clo);
      var q := p + |KeyText(ms)| + |Print(v)| + |post|;
      if tail.Member? {
        AtAppend(b, q, [','], MembersText(tail));
        PassMembers(tail, b, q + 1, open, clo);
        PassNext(b, q, MembersText(tail), open, clo);
      } else {
        PassNothing(b, q, open, clo);
      }
      PassJoin4(b, p, KeyText(ms), Print(v), post, next, open, clo);
  }

  lemma PassKey(ms: Members, b: bytes, p: nat, open: byte, clo: byte)
    requires ms.Member? && MembersOK(ms) && At(b, p, KeyText(ms)) && IsPair(open, clo)
    ensures Passes(b, p, p + |KeyText(ms)|, open, clo)
  {
    AtJoin4(b, p, ms.pre, Quoted(ms.key), ms.mid1, [':'] + ms.mid2);
    var k := p + |ms.pre| + |Quoted(ms.key)| + |ms.mid1|;
    AtAppend(b, k, [':'], ms.mid2);
    hide At, Passes, Join4, ContentFrom;
    PassPlain(b, p, ms.pre, open, clo);
    PassString(b, p + |ms.pre|, ms.key, open, clo);
    PassPlain(b, p + |ms.pre| + |Quoted(ms.key)|, ms.mid1, open, clo);
    PassPlain(b, k, [':'] + ms.mid2, open, clo);
    PassJoin4(b, p, ms.pre, Quoted(ms.key), ms.mid1, [':'] + ms.mid2, open, clo);
  }

  // ---- The skip theorem ----------------------------------------------------------------

  lemma {:induction false} ScalarFrom(b: bytes, p: nat, t: bytes, i: nat)
    requires At(b, p, t) && i <= |t| && forall k :: 0 <= k < |t| ==> !IsDelimiter(t[k])
    ensures ScalarEnd(b, p + i) == ScalarEnd(b, p + |t|)
    decreases |t| - i
  {
    if i < |t| {
      assert b[p + i] == t[i];
      ScalarFrom(b, p, t, i + 1);
    }
  }

  lemma SkipToken(t: bytes, post: bytes, b: bytes, p: nat)
    requires IsToken(t) && AllSpace(post) && At(b, p, t) && At(b, p + |t|, post)
    requires p + |t| + |post| < |b| && IsDelimiter(b[p + |t| + |post|])
    ensures SkipEnd(b, p) == Some(p + |t| + |post|)
  {
    assert b[p + 0] == t[0];
    assert WsEnd(b, p) == p;
    ScalarFrom(b, p, t, 0);
    ScalarFrom(b, p + |t|, post, 0);
  }

  lemma SkipText(b: bytes, p: nat, raw: bytes)
    requires At(b, p, Quoted(raw)) && IsContent(raw)
    ensures SkipEnd(b, p) == Some(p + |Quoted(raw)|)
  {
    StrOver(b, p, raw);
    assert WsEnd(b, p) == p;
  }

  lemma SkipBracket(b: bytes, p: nat, open: byte, body: bytes, clo: byte)
    requires At(b, p, [open] + body + [clo]) && IsPair(open, clo)
    requires Passes(b, p + 1, p + 1 + |body|, open, clo)
    ensures SkipEnd(b, p) == Some(p + |[open] + body + [clo]|)
  {
    Bracketed(b, p, open, body, clo);
    assert WsEnd(b, p) == p;
    assert ScanEnd(b, p, 0, open, clo) == ScanEnd(b, p + 1, 1, open, clo);
    assert ScanEnd(b, p + 1, 1, open, clo) == ScanEnd(b, p + 1 + |body|, 1, open, clo);
  }

  lemma PrintStart(v: Json)
    requires WellFormed(v)
    ensures Print(v) != [] && !IsSpace(Print(v)[0])
    ensures Print(v)[0] == '"' <==> v.Text?
    ensures Print(v)[0] == '[' <==> v.Arr?
    ensures Print(v)[0] == '{' <==> v.Obj?
  {
    if v.Num? {
      NumIsToken(v.lit);
    }
  }

  /** For every well-formed value, followed by white space and a delimiter, skip stops at
      the end of the value; a literal or number takes the white space with it. */
  lemma SkipOver(v: Json, post: bytes, b: bytes, p: nat)
    requires WellFormed(v) && AllSpace(post) && At(b, p, Print(v) + post)
    requires p + |Print(v)| + |post| < |b| && IsDelimiter(b[p + |Print(v)| + |post|])
    ensures SkipEnd(b, p) == Some(p + |Print(v)| + if v.Scalar? || v.Num? then |post| else 0)
  {
    AtAppend(b, p, Print(v), post);
    hide At, AllSpace, IsToken, Passes, SkipEnd, Quoted, ContentFrom;
    match v
    case Scalar(text) =>
      SkipToken(text, post, b, p);
    case Num(lit) =>
      NumIsToken(lit);
      SkipToken(lit.Text(), post, b, p);
    case Text(raw) =>
      SkipText(b, p, raw);
    case Arr(ws, es) =>
      PassArr(ws, es, b, p, '[', ']');
      SkipBracket(b, p, '[', ElemsBody(ws, es), ']');
    case Obj(ws, ms) =>
      PassObj(ws, ms, b, p, '{', '}');
      SkipBracket(b, p, '{', MembersBody(ws, ms), '}');
  }
}
