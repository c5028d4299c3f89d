/** The payload parser of internal/vectorize/parse.go: one loop over the members of an
    object, and a switch on the key for each section. */
module Parser {
  import opened Numbers
  import opened Bytes
  import opened Stamps
  import opened Cursor

  /** What the parser extracts: numbers, flags, and ranges of the body. */
  datatype Parsed = Parsed(
    amount: real, customerAvg: real, merchantAvg: real, kmHome: real, kmLast: real,
    ts: int, lastTS: int, installments: int, txCount24h: int,
    isOnline: bool, cardPresent: bool, hasLastTx: bool,
    kmStart: nat, kmEnd: nat, midStart: nat, midLen: nat, mccStart: nat, mccLen: nat) {

    /** The ranges lie inside the body. */
    predicate InBody(b: bytes) {
      && kmStart <= kmEnd <= |b|
      && midStart + midLen <= |b|
      && mccStart + mccLen <= |b|
    }
  }

  const BLANK: Parsed := Parsed(0.0, 0.0, 0.0, 0.0, 0.0, 0, 0, 0, 0, false, false, false, 0, 0, 0, 0, 0, 0)

  /** int32(v): truncation towards zero. Out of range Go leaves the result to the
      implementation; here the low 32 bits are kept. */
  function ToInt32(v: real): int {
    Wrap32(if v < 0.0 then -((-v).Floor) else v.Floor)
  }

  lemma ToInt32Truncates(v: real)
    requires -2147483648.0 <= v < 2147483648.0
    ensures var i := ToInt32(v);
            if v >= 0.0 then i as real <= v < (i + 1) as real else (i - 1) as real < v <= i as real
  {
  }

  // ---- What each section computes --------------------------------------------------

  datatype Kind = TransactionObj | CustomerObj | MerchantObj | TerminalObj | LastTxObj

  /** The record and position after a member, or failure. */
  datatype Step = Bad | Step(r: Parsed, p: nat) {
    predicate Within(b: bytes, from: nat) {
      Step? ==> from <= p <= |b|
    }
  }

  function SkipStep(b: bytes, p: nat, r: Parsed): (s: Step)
    requires p <= |b|
    ensures s.Within(b, p)
  {
    var e := SkipEnd(b, p);
    if e.None? then Bad else Step(r, e.value)
  }

  function TransactionStep(b: bytes, p: nat, key: bytes, r: Parsed, pf: ParseFloat): (s: Step)
    requires p <= |b|
    ensures s.Within(b, p)
  {
    if key == "amount" then
      var n := NumAt(b, p, pf);
      if n.NumFail? then Bad else Step(r.(amount := n.v), n.p)
    else if key == "installments" then
      var n := NumAt(b, p, pf);
      if n.NumFail? then Bad else Step(r.(installments := ToInt32(n.v)), n.p)
    else if key == "requested_at" then
      var ce := StrAt(b, p);
      if ce.None? then Bad else Step(r.(ts := ParseISO8601(b, p + 1, ce.value)), ce.value + 1)
    else SkipStep(b, p, r)
  }

  function CustomerStep(b: bytes, p: nat, key: bytes, r: Parsed, pf: ParseFloat): (s: Step)
    requires p <= |b|
    ensures s.Within(b, p)
  {
    if key == "avg_amount" then
      var n := NumAt(b, p, pf);
      if n.NumFail? then Bad else Step(r.(customerAvg := n.v), n.p)
    else if key == "tx_count_24h" then
      var n := NumAt(b, p, pf);
      if n.NumFail? then Bad else Step(r.(txCount24h := ToInt32(n.v)), n.p)
    else if key == "known_merchants" then
      var s := WsEnd(b, p);
      if s < |b| && b[s] == '[' then
        var e := SkipEnd(b, s);
        if e.None? then Bad else Step(r.(kmStart := s, kmEnd := e.value), e.value)
      else SkipStep(b, s, r)
    else SkipStep(b, p, r)
  }

  function MerchantStep(b: bytes, p: nat, key: bytes, r: Parsed, pf: ParseFloat): (s: Step)
    requires p <= |b|
    ensures s.Within(b, p)
  {
    if key == "id" then
      var ce := StrAt(b, p);
      if ce.None? then Bad else Step(r.(midStart := p + 1, midLen := ce.value - (p + 1)), ce.value + 1)
    else if key == "mcc" then
      var ce := StrAt(b, p);
      if ce.None? then Bad else Step(r.(mccStart := p + 1, mccLen := ce.value - (p + 1)), ce.value + 1)
    else if key == "avg_amount" then
      var n := NumAt(b, p, pf);
      if n.NumFail? then Bad else Step(r.(merchantAvg := n.v), n.p)
    else SkipStep(b, p, r)
  }

  function TerminalStep(b: bytes, p: nat, key: bytes, r: Parsed, pf: ParseFloat): (s: Step)
    requires p <= |b|
    ensures s.Within(b, p)
  {
    var yes := p < |b| && b[p] == 't';
    if key == "is_online" then SkipStep(b, p, r.(isOnline := yes))
    else if key == "card_present" then SkipStep(b, p, r.(cardPresent := yes))
    else if key == "km_from_home" then
      var n := NumAt(b, p, pf);
      if n.NumFail? then Bad else Step(r.(kmHome := n.v), n.p)
    else SkipStep(b, p, r)
  }

  function LastTxStep(b: bytes, p: nat, key: bytes, r: Parsed, pf: ParseFloat): (s: Step)
    requires p <= |b|
    ensures s.Within(b, p)
  {
    if key == "timestamp" then
      var ce := StrAt(b, p);
      if ce.None? then Bad else Step(r.(lastTS := ParseISO8601(b, p + 1, ce.value)), ce.value + 1)
    else if key == "km_from_current" then
      var n := NumAt(b, p, pf);
      if n.NumFail? then Bad else Step(r.(kmLast := n.v), n.p)
    else SkipStep(b, p, r)
  }

  function FieldStep(k: Kind, b: bytes, p: nat, key: bytes, r: Parsed, pf: ParseFloat): (s: Step)
    requires p <= |b|
    ensures s.Within(b, p)
  {
    match k
    case TransactionObj => TransactionStep(b, p, key, r, pf)
    case CustomerObj => CustomerStep(b, p, key, r, pf)
    case MerchantObj => MerchantStep(b, p, key, r, pf)
    case TerminalObj => TerminalStep(b, p, key, r, pf)
    case LastTxObj => LastTxStep(b, p, key, r, pf)
  }

  /** The members from p to the closing brace. */
  function MembersStep(k: Kind, b: bytes, p: nat, r: Parsed, pf: ParseFloat): (s: Step)
    requires p <= |b|
    ensures s.Within(b, p)
    decreases |b| - p
  {
    match KeyAt(b, p)
    case KeyFail => Bad
    case ObjectEnd(q) => Step(r, q)
    case Key(cs, ce, q) =>
      var s := FieldStep(k, b, q, b[cs..ce], r, pf);
      if s.Bad? then Bad else MembersStep(k, b, AfterValueEnd(b, s.p), s.r, pf)
  }

  /** A section; last_transaction may be null. */
  function SectionStep(k: Kind, b: bytes, p: nat, r: Parsed, pf: ParseFloat): (s: Step)
    requires p <= |b|
    ensures s.Within(b, p)
  {
    var w := WsEnd(b, p);
    if k.LastTxObj? && w + 4 <= |b| && b[w..w + 4] == "null" then Step(r.(hasLastTx := false), w + 4)
    else
      var o := ObjAt(b, p);
      if o.None? then Bad
      else MembersStep(k, b, o.value, if k.LastTxObj? then r.(hasLastTx := true) else r, pf)
  }

  function SectionOf(key: bytes): Option<Kind> {
    if key == "transaction" then Some(TransactionObj)
    else if key == "customer" then Some(CustomerObj)
    else if key == "merchant" then Some(MerchantObj)
    else if key == "terminal" then Some(TerminalObj)
    else if key == "last_transaction" then Some(LastTxObj)
    else None
  }

  function RootFieldStep(b: bytes, p: nat, key: bytes, r: Parsed, pf: ParseFloat): (s: Step)
    requires p <= |b|
    ensures s.Within(b, p)
  {
    var k := SectionOf(key);
    if k.Some? then SectionStep(k.value, b, p, r, pf) else SkipStep(b, p, r)
  }

  function RootStep(b: bytes, p: nat, r: Parsed, pf: ParseFloat): (s: Step)
    requires p <= |b|
    ensures s.Within(b, p)
    decreases |b| - p
  {
    match KeyAt(b, p)
    case KeyFail => Bad
    case ObjectEnd(q) => Step(r, q)
    case Key(cs, ce, q) =>
      var s := RootFieldStep(b, q, b[cs..ce], r, pf);
      if s.Bad? then Bad else RootStep(b, AfterValueEnd(b, s.p), s.r, pf)
  }

  /** parse: None when it reports failure. */
  function ParseBody(body: bytes, pf: ParseFloat): Option<Parsed> {
    var o := ObjAt(body, 0);
    if o.None? then None
    else
      var s := RootStep(body, o.value, BLANK, pf);
      if s.Bad? then None else Some(s.r)
  }

  // ---- The methods -------------------------------------------------------------------

  method TransactionField(c: Cur, key: bytes, r: Parsed) returns (ok: bool, r': Parsed)
    requires c.p <= |c.b|
    modifies c`p
    ensures ok <==> TransactionStep(c.b, old(c.p), key, r, c.pf).Step?
    ensures ok ==> TransactionStep(c.b, old(c.p), key, r, c.pf) == Step(r', c.p)
  {
    r' := r;
    match key
    case "amount" =>
      var v, o := c.Num();
      return o, r.(amount := v);
    case "installments" =>
      var v, o := c.Num();
      return o, r.(installments := ToInt32(v));
    case "requested_at" =>
      var cs, ce, o := c.Str();
      if !o {
        return false, r;
      }
      return true, r.(ts := ParseISO8601(c.b, cs, ce));
    case _ =>
      ok := c.Skip();
  }

  method CustomerField(c: Cur, key: bytes, r: Parsed) returns (ok: bool, r': Parsed)
    requires c.p <= |c.b|
    modifies c`p
    ensures ok <==> CustomerStep(c.b, old(c.p), key, r, c.pf).Step?
    ensures ok ==> CustomerStep(c.b, old(c.p), key, r, c.pf) == Step(r', c.p)
  {
    r' := r;
    match key
    case "avg_amount" =>
      var v, o := c.Num();
      return o, r.(customerAvg := v);
    case "tx_count_24h" =>
      var v, o := c.Num();
      return o, r.(txCount24h := ToInt32(v));
    case "known_merchants" =>
      c.Ws();
      if c.p < |c.b| && c.b[c.p] == '[' {
        var start := c.p;
        ok := c.Skip();
        if ok {
          r' := r.(kmStart := start, kmEnd := c.p);
        }
      } else {
        ok := c.Skip();
      }
    case _ =>
      ok := c.Skip();
  }

  method MerchantField(c: Cur, key: bytes, r: Parsed) returns (ok: bool, r': Parsed)
    requires c.p <= |c.b|
    modifies c`p
    ensures ok <==> MerchantStep(c.b, old(c.p), key, r, c.pf).Step?
    ensures ok ==> MerchantStep(c.b, old(c.p), key, r, c.pf) == Step(r', c.p)
  {
    r' := r;
    match key
    case "id" =>
      var cs, ce, o := c.Str();
      if !o {
        return false, r;
      }
      return true, r.(midStart := cs, midLen := ce - cs);
    case "mcc" =>
      var cs, ce, o := c.Str();
      if !o {
        return false, r;
      }
      return true, r.(mccStart := cs, mccLen := ce - cs);
    case "avg_amount" =>
      var v, o := c.Num();
      return o, r.(merchantAvg := v);
    case _ =>
      ok := c.Skip();
  }

  method TerminalField(c: Cur, key: bytes, r: Parsed) returns (ok: bool, r': Parsed)
    requires c.p <= |c.b|
    modifies c`p
    ensures ok <==> TerminalStep(c.b, old(c.p), key, r, c.pf).Step?
    ensures ok ==> TerminalStep(c.b, old(c.p), key, r, c.pf) == Step(r', c.p)
  {
    r' := r;
    match key
    case "is_online" =>
      r' := r.(isOnline := c.p < |c.b| && c.b[c.p] == 't');
      ok := c.Skip();
    case "card_present" =>
      r' := r.(cardPresent := c.p < |c.b| && c.b[c.p] == 't');
      ok := c.Skip();
    case "km_from_home" =>
      var v, o := c.Num();
      return o, r.(kmHome := v);
    case _ =>
      ok := c.Skip();
  }

  method LastTxField(c: Cur, key: bytes, r: Parsed) returns (ok: bool, r': Parsed)
    requires c.p <= |c.b|
    modifies c`p
    ensures ok <==> LastTxStep(c.b, old(c.p), key, r, c.pf).Step?
    ensures ok ==> LastTxStep(c.b, old(c.p), key, r, c.pf) == Step(r', c.p)
  {
    r' := r;
    match key
    case "timestamp" =>
      var cs, ce, o := c.Str();
      if !o {
        return false, r;
      }
      return true, r.(lastTS := ParseISO8601(c.b, cs, ce));
    case "km_from_current" =>
      var v, o := c.Num();
      return o, r.(kmLast := v);
    case _ =>
      ok := c.Skip();
  }

  method Field(k: Kind, c: Cur, key: bytes, r: Parsed) returns (ok: bool, r': Parsed)
    requires c.p <= |c.b|
    modifies c`p
    ensures ok <==> FieldStep(k, c.b, old(c.p), key, r, c.pf).Step?
    ensures ok ==> FieldStep(k, c.b, old(c.p), key, r, c.pf) == Step(r', c.p)
  {
    match k
    case TransactionObj => ok, r' := TransactionField(c, key, r);
    case CustomerObj => ok, r' := CustomerField(c, key, r);
    case MerchantObj => ok, r' := MerchantField(c, key, r);
    case TerminalObj => ok, r' := TerminalField(c, key, r);
    case LastTxObj => ok, r' := LastTxField(c, key, r);
  }

  /** The loop that all five section parsers share. */
  method Members(k: Kind, c: Cur, r: Parsed) returns (ok: bool, r': Parsed)
    requires c.p <= |c.b|
    modifies c`p
    ensures ok <==> MembersStep(k, c.b, old(c.p), r, c.pf).Step?
    ensures ok ==> MembersStep(k, c.b, old(c.p), r, c.pf) == Step(r', c.p)
  {
    r' := r;
    while true
      invariant c.p <= |c.b|
      invariant MembersStep(k, c.b, c.p, r', c.pf) == MembersStep(k, c.b, old(c.p), r, c.pf)
      decreases |c.b| - c.p
    {
      var key, more, o := c.NextKey();
      if !o {
        return false, r';
      }
      if !more {
        return true, r';
      }
      ok, r' := Field(k, c, key, r');
      if !ok {
        return;
      }
      c.AfterValue();
    }
  }

  method Section(k: Kind, c: Cur, r: Parsed) returns (ok: bool, r': Parsed)
    requires c.p <= |c.b|
    modifies c`p
    ensures ok <==> SectionStep(k, c.b, old(c.p), r, c.pf).Step?
    ensures ok ==> SectionStep(k, c.b, old(c.p), r, c.pf) == Step(r', c.p)
  {
    r' := r;
    if k.LastTxObj? {
      c.Ws();
      WsTwice(c.b, old(c.p));
      if c.p + 4 <= |c.b| && c.b[c.p..c.p + 4] == "null" {
        c.p := c.p + 4;
        return true, r.(hasLastTx := false);
      }
    }
    ok := c.Obj();
    if !ok {
      return;
    }
    if k.LastTxObj? {
      r' := r'.(hasLastTx := true);
    }
    ok, r' := Members(k, c, r');
  }

  lemma {:induction false} WsTwice(b: bytes, p: nat)
    requires p <= |b|
    ensures WsEnd(b, WsEnd(b, p)) == WsEnd(b, p)
    decreases |b| - p
  {
    if p < |b| && IsSpace(b[p]) {
      WsTwice(b, p + 1);
    }
  }

  method RootField(c: Cur, key: bytes, r: Parsed) returns (ok: bool, r': Parsed)
    requires c.p <= |c.b|
    modifies c`p
    ensures ok <==> RootFieldStep(c.b, old(c.p), key, r, c.pf).Step?
    ensures ok ==> RootFieldStep(c.b, old(c.p), key, r, c.pf) == Step(r', c.p)
  {
    match key
    case "transaction" => ok, r' := Section(TransactionObj, c, r);
    case "customer" => ok, r' := Section(CustomerObj, c, r);
    case "merchant" => ok, r' := Section(MerchantObj, c, r);
    case "terminal" => ok, r' := Section(TerminalObj, c, r);
    case "last_transaction" => ok, r' := Section(LastTxObj, c, r);
    case _ =>
      r' := r;
      ok := c.Skip();
  }

  /** parse, on every body: it terminates, and its result is ParseBody's. */
  method Parse(body: bytes, pf: ParseFloat) returns (ok: bool, r: Parsed)
    ensures ok <==> ParseBody(body, pf).Some?
    ensures ok ==> ParseBody(body, pf) == Some(r)
  {
    r := BLANK;
    var c := new Cur(body, pf);
    ok := c.Obj();
    if !ok {
      return;
    }
    ghost var start := c.p;
    while true
      invariant start <= |body| && c.p <= |body| && c.b == body && c.pf == pf
      invariant RootStep(body, c.p, r, pf) == RootStep(body, start, BLANK, pf)
      decreases |body| - c.p
    {
      var key, more, o := c.NextKey();
      if !o {
        return false, r;
      }
      if !more {
        return true, r;
      }
      ok, r := RootField(c, key, r);
      if !ok {
        return;
      }
      c.AfterValue();
    }
  }
}
