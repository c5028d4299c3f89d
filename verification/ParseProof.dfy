/** Parsing the printed text of a payload tree: the parser succeeds, and what it extracts is
    what reading the members of the tree in order gives. */
module ParseProof {
  import opened Numbers
  import opened Bytes
  import opened Stamps
  import opened Cursor
  import opened JsonText
  import opened NumberText
  import opened SkipProof
  import opened Parser

  // ---- The parser's record without positions -------------------------------------------

  datatype Fields = Fields(
    amount: real, customerAvg: real, merchantAvg: real, kmHome: real, kmLast: real,
    ts: int, lastTS: int, installments: int, txCount24h: int,
    isOnline: bool, cardPresent: bool, hasLastTx: bool, known: bytes, mid: bytes, mcc: bytes)

  const NO_FIELDS: Fields := Fields(0.0, 0.0, 0.0, 0.0, 0.0, 0, 0, 0, 0, false, false, false, [], [], [])

  function View(b: bytes, r: Parsed): Fields
    requires r.InBody(b)
  {
    Fields(r.amount, r.customerAvg, r.merchantAvg, r.kmHome, r.kmLast, r.ts, r.lastTS, r.installments, r.txCount24h,
           r.isOnline, r.cardPresent, r.hasLastTx, b[r.kmStart..r.kmEnd],
           b[r.midStart..r.midStart + r.midLen], b[r.mccStart..r.mccStart + r.mccLen])
  }

  // ---- The schema and its reading --------------------------------------------------------

  predicate IsNum(v: Json, pf: ParseFloat) {
    v.Num? && v.lit.Meaning(pf).Some?
  }

  function NumVal(v: Json, pf: ParseFloat): real
    requires IsNum(v, pf)
  {
    v.lit.Meaning(pf).value
  }

  /** A text the timestamp decoder reads without looking past its end: it is not cut off
      right after the sign of the offset or one digit later. */
  predicate Uncut(raw: bytes) {
    |raw| == 20 || |raw| == 21 ==> !IsSign(raw[19])
  }

  predicate IsStamp(v: Json) {
    v.Text? && Uncut(v.raw)
  }

  function StampVal(v: Json): int
    requires IsStamp(v)
  {
    ParseISO8601(v.raw, 0, |v.raw|)
  }

  /** The members the parser interprets have values of the kind it expects; any other
      member may hold anything. */
  predicate FieldOK(k: Kind, key: bytes, v: Json, pf: ParseFloat) {
    match k
    case TransactionObj =>
      && (key == "amount" || key == "installments" ==> IsNum(v, pf))
      && (key == "requested_at" ==> IsStamp(v))
    case CustomerObj =>
      key == "avg_amount" || key == "tx_count_24h" ==> IsNum(v, pf)
    case MerchantObj =>
      && (key == "id" || key == "mcc" ==> v.Text?)
      && (key == "avg_amount" ==> IsNum(v, pf))
    case TerminalObj =>
      key == "km_from_home" ==> IsNum(v, pf)
    case LastTxObj =>
      && (key == "timestamp" ==> IsStamp(v))
      && (key == "km_from_current" ==> IsNum(v, pf))
  }

  predicate StartsWithT(v: Json) {
    Print(v) != [] && Print(v)[0] == 't'
  }

  function SetField(k: Kind, key: bytes, v: Json, f: Fields, pf: ParseFloat): Fields
    requires FieldOK(k, key, v, pf)
  {
    match k
    case TransactionObj =>
      if key == "amount" then f.(amount := NumVal(v, pf))
      else if key == "installments" then f.(installments := ToInt32(NumVal(v, pf)))
      else if key == "requested_at" then f.(ts := StampVal(v))
      else f
    case CustomerObj =>
      if key == "avg_amount" then f.(customerAvg := NumVal(v, pf))
      else if key == "tx_count_24h" then f.(txCount24h := ToInt32(NumVal(v, pf)))
      else if key == "known_merchants" && v.Arr? then f.(known := Print(v))
      else f
    case MerchantObj =>
      if key == "id" then f.(mid := v.raw)
      else if key == "mcc" then f.(mcc := v.raw)
      else if key == "avg_amount" then f.(merchantAvg := NumVal(v, pf))
      else f
    case TerminalObj =>
      if key == "is_online" then f.(isOnline := StartsWithT(v))
      else if key == "card_present" then f.(cardPresent := StartsWithT(v))
      else if key == "km_from_home" then f.(kmHome := NumVal(v, pf))
      else f
    case LastTxObj =>
      if key == "timestamp" then f.(lastTS := StampVal(v))
      else if key == "km_from_current" then f.(kmLast := NumVal(v, pf))
      else f
  }

  predicate FieldsOK(k: Kind, ms: Members, pf: ParseFloat) {
    ms.Member? ==> FieldOK(k, ms.key, ms.val, pf) && FieldsOK(k, ms.tail, pf)
  }

  /** Reading the members from left to right. */
  function ReadFields(k: Kind, ms: Members, f: Fields, pf: ParseFloat): Fields
    requires FieldsOK(k, ms, pf)
    decreases ms
  {
    match ms
    case NoMembers => f
    case Member(_, key, _, _, v, _, tail) => ReadFields(k, tail, SetField(k, key, v, f, pf), pf)
  }

  predicate IsNull(v: Json) {
    v == Scalar("null")
  }

  predicate SectionOK(k: Kind, v: Json, pf: ParseFloat) {
    (k.LastTxObj? && IsNull(v)) || (v.Obj? && FieldsOK(k, v.members, pf))
  }

  function ReadSection(k: Kind, v: Json, f: Fields, pf: ParseFloat): Fields
    requires SectionOK(k, v, pf)
  {
    if IsNull(v) then f.(hasLastTx := false)
    else ReadFields(k, v.members, if k.LastTxObj? then f.(hasLastTx := true) else f, pf)
  }

  predicate MemberOK(ms: Members, pf: ParseFloat)
    requires ms.Member?
  {
    SectionOf(ms.key).Some? ==> SectionOK(SectionOf(ms.key).value, ms.val, pf)
  }

  predicate RootOK(ms: Members, pf: ParseFloat) {
    ms.Member? ==> MemberOK(ms, pf) && RootOK(ms.tail, pf)
  }

  function ReadRoot(ms: Members, f: Fields, pf: ParseFloat): Fields
    requires RootOK(ms, pf)
    decreases ms
  {
    match ms
    case NoMembers => f
    case Member(_, _, _, _, _, _, tail) => ReadRoot(tail, ReadMember(ms, f, pf), pf)
  }

  function ReadMember(ms: Members, f: Fields, pf: ParseFloat): Fields
    requires ms.Member? && MemberOK(ms, pf)
  {
    var k := SectionOf(ms.key);
    if k.Some? then ReadSection(k.value, ms.val, f, pf) else f
  }

  // ---- One member ------------------------------------------------------------------------

  /** Step s succeeds, leaves the position settled before e, and extracts f. */
  ghost predicate Reads(s: Step, b: bytes, e: nat, f: Fields) {
    s.Step? && s.p <= e <= |b| && WsEnd(b, s.p) == e && s.r.InBody(b) && View(b, s.r) == f
  }

  /** A member value with the white space after it, up to a comma or the closing brace. */
  ghost predicate ValueAt(b: bytes, p: nat, v: Json, post: bytes) {
    && WellFormed(v) && AllSpace(post)
    && At(b, p, Print(v)) && At(b, p + |Print(v)|, post)
    && p + |Print(v)| + |post| < |b|
    && (b[p + |Print(v)| + |post|] == ',' || b[p + |Print(v)| + |post|] == '}')
  }

  function ValueEnd(p: nat, v: Json, post: bytes): nat {
    p + |Print(v)| + |post|
  }

  lemma Settled(b: bytes, p: nat, v: Json, post: bytes)
    requires ValueAt(b, p, v, post)
    ensures WsEnd(b, p + |Print(v)|) == ValueEnd(p, v, post)
    ensures WsEnd(b, ValueEnd(p, v, post)) == ValueEnd(p, v, post)
  {
    WsTo(b, p + |Print(v)|, post);
  }

  lemma SkipReads(b: bytes, p: nat, v: Json, post: bytes, r: Parsed)
    requires ValueAt(b, p, v, post) && r.InBody(b)
    ensures Reads(SkipStep(b, p, r), b, ValueEnd(p, v, post), View(b, r))
  {
    Settled(b, p, v, post);
    AtAppend(b, p, Print(v), post);
    SkipOver(v, post, b, p);
  }

  /** A number stops at its end, whatever follows it in an object. */
  lemma NumReads(b: bytes, p: nat, v: Json, post: bytes, pf: ParseFloat)
    requires ValueAt(b, p, v, post) && IsNum(v, pf)
    ensures NumAt(b, p, pf) == NumOk(NumVal(v, pf), p + |Print(v)|)
    ensures WsEnd(b, p + |Print(v)|) == ValueEnd(p, v, post)
  {
    Settled(b, p, v, post);
    if post != [] {
      assert b[p + |Print(v)| + 0] == post[0];
    }
    NumMeaning(v.lit, b, p, pf);
  }

  lemma TextReads(b: bytes, p: nat, v: Json, post: bytes)
    requires ValueAt(b, p, v, post) && v.Text?
    ensures StrAt(b, p) == Some(p + 1 + |v.raw|)
    ensures p + |Print(v)| == p + 1 + |v.raw| + 1
    ensures b[p + 1..p + 1 + |v.raw|] == v.raw
    ensures WsEnd(b, p + |Print(v)|) == ValueEnd(p, v, post)
  {
    Settled(b, p, v, post);
    StrOver(b, p, v.raw);
    Bracketed(b, p, '"', v.raw, '"');
    AtSlice(b, p + 1, v.raw);
  }

  /** The timestamp decoder depends only on the string itself. */
  lemma StampLocal(b: bytes, p: nat, v: Json, post: bytes)
    requires ValueAt(b, p, v, post) && IsStamp(v)
    ensures ParseISO8601(b, p + 1, p + 1 + |v.raw|) == StampVal(v)
  {
    Bracketed(b, p, '"', v.raw, '"');
    assert forall i: nat :: i < |v.raw| ==> ByteAt(b, p + 1 + i) == ByteAt(v.raw, i) by {
      forall i: nat | i < |v.raw|
        ensures ByteAt(b, p + 1 + i) == ByteAt(v.raw, i)
      {
        assert b[p + 1 + i] == v.raw[i];
      }
    }
    StampShift(b, p + 1, v.raw);
  }

  lemma StampShift(b: bytes, p: nat, raw: bytes)
    requires Uncut(raw)
    requires forall i: nat :: i < |raw| ==> ByteAt(b, p + i) == ByteAt(raw, i)
    ensures ParseISO8601(b, p, p + |raw|) == ParseISO8601(raw, 0, |raw|)
  {
    if |raw| >= 19 {
      forall i: nat | i < 18
        ensures Atoi2(b, p + i) == Atoi2(raw, i)
      {
        assert ByteAt(b, p + i) == ByteAt(raw, i) && ByteAt(b, p + (i + 1)) == ByteAt(raw, i + 1);
      }
      assert Atoi2(b, p + 5) == Atoi2(raw, 5) && Atoi2(b, p + 8) == Atoi2(raw, 8);
      assert Atoi2(b, p + 11) == Atoi2(raw, 11) && Atoi2(b, p + 14) == Atoi2(raw, 14)
        && Atoi2(b, p + 17) == Atoi2(raw, 17);
      assert ByteAt(b, p + 0) == ByteAt(raw, 0) && ByteAt(b, p + 1) == ByteAt(raw, 1);
      assert ByteAt(b, p + 2) == ByteAt(raw, 2) && ByteAt(b, p + 3) == ByteAt(raw, 3);
      if |raw| > 19 {
        assert ByteAt(b, p + 19) == ByteAt(raw, 19);
      }
      if |raw| >= 22 {
        ZoneShift(b, p, raw);
      }
    }
  }

  lemma ZoneShift(b: bytes, p: nat, raw: bytes)
    requires |raw| >= 22
    requires forall i: nat :: i < |raw| ==> ByteAt(b, p + i) == ByteAt(raw, i)
    ensures ByteAt(b, p + 19) == ByteAt(raw, 19) && Atoi2(b, p + 20) == Atoi2(raw, 20)
    ensures |raw| >= 25 ==> Atoi2(b, p + 23) == Atoi2(raw, 23)
  {
    assert ByteAt(b, p + 19) == ByteAt(raw, 19);
    assert ByteAt(b, p + 20) == ByteAt(raw, 20) && ByteAt(b, p + 21) == ByteAt(raw, 21);
    if |raw| >= 25 {
      assert ByteAt(b, p + 23) == ByteAt(raw, 23) && ByteAt(b, p + 24) == ByteAt(raw, 24);
    }
  }

  lemma TransactionReads(key: bytes, v: Json, post: bytes, b: bytes, p: nat, r: Parsed, pf: ParseFloat)
    requires ValueAt(b, p, v, post) && r.InBody(b) && FieldOK(TransactionObj, key, v, pf)
    ensures Reads(TransactionStep(b, p, key, r, pf), b, ValueEnd(p, v, post),
                  SetField(TransactionObj, key, v, View(b, r), pf))
  {
    hide ValueAt, NumAt, StrAt, SkipEnd, ParseISO8601, WsEnd, Print;
    if key == "amount" || key == "installments" {
      NumReads(b, p, v, post, pf);
    } else if key == "requested_at" {
      TextReads(b, p, v, post);
      StampLocal(b, p, v, post);
    } else {
      SkipReads(b, p, v, post, r);
    }
  }

  lemma CustomerReads(key: bytes, v: Json, post: bytes, b: bytes, p: nat, r: Parsed, pf: ParseFloat)
    requires ValueAt(b, p, v, post) && r.InBody(b) && FieldOK(CustomerObj, key, v, pf)
    ensures Reads(CustomerStep(b, p, key, r, pf), b, ValueEnd(p, v, post),
                  SetField(CustomerObj, key, v, View(b, r), pf))
  {
    hide ValueAt, NumAt, StrAt, SkipEnd, ParseISO8601, WsEnd, Print;
    if key == "avg_amount" || key == "tx_count_24h" {
      NumReads(b, p, v, post, pf);
    } else if key == "known_merchants" {
      KnownReads(v, post, b, p, r, pf);
    } else {
      SkipReads(b, p, v, post, r);
    }
  }

  lemma KnownReads(v: Json, post: bytes, b: bytes, p: nat, r: Parsed, pf: ParseFloat)
    requires ValueAt(b, p, v, post) && r.InBody(b)
    ensures Reads(CustomerStep(b, p, "known_merchants", r, pf), b, ValueEnd(p, v, post),
                  SetField(CustomerObj, "known_merchants", v, View(b, r), pf))
  {
    hide ValueAt, SkipEnd, WsEnd, Print, IsSpace;
    ValueStart(b, p, v, post);
    SkipReads(b, p, v, post, r);
    if v.Arr? {
      ArrayReads(v, post, b, p);
    }
  }

  lemma ArrayReads(v: Json, post: bytes, b: bytes, p: nat)
    requires ValueAt(b, p, v, post) && v.Arr?
    ensures SkipEnd(b, p) == Some(p + |Print(v)|)
    ensures p + |Print(v)| <= ValueEnd(p, v, post) == WsEnd(b, p + |Print(v)|)
    ensures b[p..p + |Print(v)|] == Print(v)
  {
    hide SkipEnd, WsEnd, Print;
    Settled(b, p, v, post);
    AtAppend(b, p, Print(v), post);
    SkipOver(v, post, b, p);
    AtSlice(b, p, Print(v));
  }

  lemma ValueStart(b: bytes, p: nat, v: Json, post: bytes)
    requires ValueAt(b, p, v, post)
    ensures p < |b| && Print(v) != [] && b[p] == Print(v)[0] && !IsSpace(b[p]) && WsEnd(b, p) == p
    ensures ValueEnd(p, v, post) < |b|
    ensures b[p] == '[' <==> v.Arr?
    ensures b[p] == '{' <==> v.Obj?
  {
    PrintStart(v);
    assert b[p + 0] == Print(v)[0];
  }

  lemma MerchantReads(key: bytes, v: Json, post: bytes, b: bytes, p: nat, r: Parsed, pf: ParseFloat)
    requires ValueAt(b, p, v, post) && r.InBody(b) && FieldOK(MerchantObj, key, v, pf)
    ensures Reads(MerchantStep(b, p, key, r, pf), b, ValueEnd(p, v, post),
                  SetField(MerchantObj, key, v, View(b, r), pf))
  {
    hide ValueAt, NumAt, StrAt, SkipEnd, ParseISO8601, WsEnd, Print;
    if key == "id" || key == "mcc" {
      TextReads(b, p, v, post);
    } else if key == "avg_amount" {
      NumReads(b, p, v, post, pf);
    } else {
      SkipReads(b, p, v, post, r);
    }
  }

  lemma FlagStep(key: bytes, v: Json, post: bytes, b: bytes, p: nat, r: Parsed, pf: ParseFloat) returns (r': Parsed)
    requires ValueAt(b, p, v, post) && r.InBody(b) && (key == "is_online" || key == "card_present")
    ensures r'.InBody(b) && p <= |b| && TerminalStep(b, p, key, r, pf) == SkipStep(b, p, r')
    ensures View(b, r') == SetField(TerminalObj, key, v, View(b, r), pf)
  {
    hide ValueAt, SkipStep, SkipEnd, WsEnd, ParseISO8601, IsSpace, Print;
    ValueStart(b, p, v, post);
    var yes := StartsWithT(v);
    r' := if key == "is_online" then r.(isOnline := yes) else r.(cardPresent := yes);
  }

  lemma FlagReads(key: bytes, v: Json, post: bytes, b: bytes, p: nat, r: Parsed, pf: ParseFloat)
    requires ValueAt(b, p, v, post) && r.InBody(b) && (key == "is_online" || key == "card_present")
    ensures Reads(TerminalStep(b, p, key, r, pf), b, ValueEnd(p, v, post),
                  SetField(TerminalObj, key, v, View(b, r), pf))
  {
    hide ValueAt, Reads, View, SetField, TerminalStep, SkipStep;
    var r' := FlagStep(key, v, post, b, p, r, pf);
    SkipReads(b, p, v, post, r');
  }

  lemma TerminalReads(key: bytes, v: Json, post: bytes, b: bytes, p: nat, r: Parsed, pf: ParseFloat)
    requires ValueAt(b, p, v, post) && r.InBody(b) && FieldOK(TerminalObj, key, v, pf)
    ensures Reads(TerminalStep(b, p, key, r, pf), b, ValueEnd(p, v, post),
                  SetField(TerminalObj, key, v, View(b, r), pf))
  {
    hide ValueAt, NumAt, StrAt, SkipEnd, ParseISO8601, WsEnd, Print;
    if key == "is_online" || key == "card_present" {
      FlagReads(key, v, post, b, p, r, pf);
    } else if key == "km_from_home" {
      NumReads(b, p, v, post, pf);
    } else {
      SkipReads(b, p, v, post, r);
    }
  }

  lemma LastTxReads(key: bytes, v: Json, post: bytes, b: bytes, p: nat, r: Parsed, pf: ParseFloat)
    requires ValueAt(b, p, v, post) && r.InBody(b) && FieldOK(LastTxObj, key, v, pf)
    ensures Reads(LastTxStep(b, p, key, r, pf), b, ValueEnd(p, v, post),
                  SetField(LastTxObj, key, v, View(b, r), pf))
  {
    hide ValueAt, NumAt, StrAt, SkipEnd, ParseISO8601, WsEnd, Print;
    if key == "timestamp" {
      TextReads(b, p, v, post);
      StampLocal(b, p, v, post);
    } else if key == "km_from_current" {
      NumReads(b, p, v, post, pf);
    } else {
      SkipReads(b, p, v, post, r);
    }
  }

  lemma FieldReads(k: Kind, key: bytes, v: Json, post: bytes, b: bytes, p: nat, r: Parsed, pf: ParseFloat)
    requires ValueAt(b, p, v, post) && r.InBody(b) && FieldOK(k, key, v, pf)
    ensures Reads(FieldStep(k, b, p, key, r, pf), b, ValueEnd(p, v, post), SetField(k, key, v, View(b, r), pf))
  {
    match k
    case TransactionObj => TransactionReads(key, v, post, b, p, r, pf);
    case CustomerObj => CustomerReads(key, v, post, b, p, r, pf);
    case MerchantObj => MerchantReads(key, v, post, b, p, r, pf);
    case TerminalObj => TerminalReads(key, v, post, b, p, r, pf);
    case LastTxObj => LastTxReads(key, v, post, b, p, r, pf);
  }

  // ---- All members of an object ------------------------------------------------------------

  /** Where the pieces of a key text stand: key at q + 1, colon at c. */
  lemma KeyParts(ms: Members, b: bytes, p: nat)
    requires ms.Member? && At(b, p, KeyText(ms))
    ensures var q := p + |ms.pre|;
            var c := q + 2 + |ms.key| + |ms.mid1|;
            && At(b, p, ms.pre) && At(b, q, Quoted(ms.key)) && b[q] == '"' && b[q + 1..q + 1 + |ms.key|] == ms.key
            && At(b, q + 2 + |ms.key|, ms.mid1) && c < |b| && b[c] == ':' && At(b, c + 1, ms.mid2)
            && p + |KeyText(ms)| == c + 1 + |ms.mid2|
  {
    var q := p + |ms.pre|;
    var c := q + 2 + |ms.key| + |ms.mid1|;
    AtJoin4(b, p, ms.pre, Quoted(ms.key), ms.mid1, [':'] + ms.mid2);
    AtAppend(b, c, [':'], ms.mid2);
    Bracketed(b, q, '"', ms.key, '"');
    AtSlice(b, q + 1, ms.key);
    assert b[c + 0] == [':'][0];
  }

  /** The text of one member is found key first, its value after the colon. */
  lemma KeyReads(ms: Members, b: bytes, p: nat)
    requires ms.Member? && MembersOK(ms) && At(b, p, KeyText(ms))
    requires p + |KeyText(ms)| < |b| && !IsSpace(b[p + |KeyText(ms)|])
    ensures var k := p + |ms.pre| + 1;
            KeyAt(b, p) == Key(k, k + |ms.key|, p + |KeyText(ms)|) && b[k..k + |ms.key|] == ms.key
  {
    hide At, Join4, KeyText, Quoted, IsContent, AllSpace, WsEnd, StrAt, IsSpace;
    KeyParts(ms, b, p);
    KeySteps(ms, b, p);
  }

  /** The three runs of white space and the string around a key. */
  lemma KeySteps(ms: Members, b: bytes, p: nat)
    requires ms.Member? && MembersOK(ms) && At(b, p, KeyText(ms))
    requires p + |KeyText(ms)| < |b| && !IsSpace(b[p + |KeyText(ms)|])
    ensures var q := p + |ms.pre|;
            var c := q + 2 + |ms.key| + |ms.mid1|;
            && WsEnd(b, p) == q && StrAt(b, q) == Some(q + 1 + |ms.key|)
            && WsEnd(b, q + 2 + |ms.key|) == c && WsEnd(b, c + 1) == p + |KeyText(ms)|
  {
    hide At, Join4, KeyText, Quoted, IsContent, AllSpace, WsEnd, StrAt;
    KeyParts(ms, b, p);
    var q := p + |ms.pre|;
    var c := q + 2 + |ms.key| + |ms.mid1|;
    StrOver(b, q, ms.key);
    WsTo(b, p, ms.pre);
    WsTo(b, q + 2 + |ms.key|, ms.mid1);
    WsTo(b, c + 1, ms.mid2);
  }

  /** Where the pieces of the first member of an object body stand. */
  lemma MemberParts(ms: Members, b: bytes, p: nat)
    requires ms.Member? && MembersOK(ms) && At(b, p, MembersText(ms) + ['}'])
    ensures var q := p + |KeyText(ms)|;
            var e := ValueEnd(q, ms.val, ms.post);
            && At(b, p, KeyText(ms)) && ValueAt(b, q, ms.val, ms.post)
            && (ms.tail.NoMembers? ==> b[e] == '}' && p + |MembersText(ms)| == e)
            && (ms.tail.Member? ==> b[e] == ',' && At(b, e + 1, MembersText(ms.tail) + ['}']))
            && (ms.tail.Member? ==> p + |MembersText(ms)| == e + 1 + |MembersText(ms.tail)|)
  {
    hide AllSpace, WellFormed, Print, IsContent, KeyText, Join4;
    var q := p + |KeyText(ms)|;
    var e := ValueEnd(q, ms.val, ms.post);
    var more := MoreMembers(ms.tail);
    AtAppend(b, p, MembersText(ms), ['}']);
    AtJoin4(b, p, KeyText(ms), Print(ms.val), ms.post, more);
    assert b[p + |MembersText(ms)| + 0] == ['}'][0];
    if ms.tail.Member? {
      AtAppend(b, e, [','], MembersText(ms.tail));
      assert b[e + 0] == [','][0];
      AtAppend(b, e + 1, MembersText(ms.tail), ['}']);
    }
  }

  /** Step s succeeds, ends at e and extracts f. */
  ghost predicate Yields(s: Step, b: bytes, e: nat, f: Fields) {
    s.Step? && s.p == e && s.r.InBody(b) && View(b, s.r) == f
  }

  lemma LoopTurn(k: Kind, b: bytes, p: nat, cs: nat, ce: nat, q: nat, e: nat, r: Parsed, pf: ParseFloat)
    requires p <= |b| && KeyAt(b, p) == Key(cs, ce, q)
    requires FieldStep(k, b, q, b[cs..ce], r, pf).Step?
    requires WsEnd(b, FieldStep(k, b, q, b[cs..ce], r, pf).p) == e < |b|
    ensures MembersStep(k, b, p, r, pf) ==
            MembersStep(k, b, if b[e] == ',' then e + 1 else e, FieldStep(k, b, q, b[cs..ce], r, pf).r, pf)
  {
    hide FieldStep, WsEnd, KeyAt;
    assert AfterValueEnd(b, FieldStep(k, b, q, b[cs..ce], r, pf).p) == if b[e] == ',' then e + 1 else e;
  }

  lemma RootLoopTurn(b: bytes, p: nat, cs: nat, ce: nat, q: nat, e: nat, r: Parsed, pf: ParseFloat)
    requires p <= |b| && KeyAt(b, p) == Key(cs, ce, q)
    requires RootFieldStep(b, q, b[cs..ce], r, pf).Step?
    requires WsEnd(b, RootFieldStep(b, q, b[cs..ce], r, pf).p) == e < |b|
    ensures RootStep(b, p, r, pf) ==
            RootStep(b, if b[e] == ',' then e + 1 else e, RootFieldStep(b, q, b[cs..ce], r, pf).r, pf)
  {
    hide RootFieldStep, WsEnd, KeyAt;
    assert AfterValueEnd(b, RootFieldStep(b, q, b[cs..ce], r, pf).p) == if b[e] == ',' then e + 1 else e;
  }

  /** One turn of the parser's loop. */
  lemma MembersTurn(k: Kind, ms: Members, b: bytes, p: nat, r: Parsed, pf: ParseFloat) returns (r': Parsed)
    requires ms.Member? && MembersOK(ms) && FieldOK(k, ms.key, ms.val, pf) && r.InBody(b)
    requires At(b, p, MembersText(ms) + ['}'])
    ensures r'.InBody(b) && View(b, r') == SetField(k, ms.key, ms.val, View(b, r), pf)
    ensures var e := ValueEnd(p + |KeyText(ms)|, ms.val, ms.post);
            e < |b| && MembersStep(k, b, p, r, pf) == MembersStep(k, b, if b[e] == ',' then e + 1 else e, r', pf)
  {
    hide FieldStep, FieldOK, SetField, MembersStep, KeyAt, WsEnd, At, MembersText, KeyText;
    MemberParts(ms, b, p);
    var q, cs := p + |KeyText(ms)|, p + |ms.pre| + 1;
    ValueStart(b, q, ms.val, ms.post);
    KeyReads(ms, b, p);
    FieldReads(k, ms.key, ms.val, ms.post, b, q, r, pf);
    LoopTurn(k, b, p, cs, cs + |ms.key|, q, ValueEnd(q, ms.val, ms.post), r, pf);
    r' := FieldStep(k, b, q, ms.key, r, pf).r;
  }

  lemma {:induction false} MembersReads(k: Kind, ms: Members, b: bytes, p: nat, r: Parsed, pf: ParseFloat)
    requires ms.Member? && MembersOK(ms) && FieldsOK(k, ms, pf) && r.InBody(b)
    requires At(b, p, MembersText(ms) + ['}'])
    ensures Yields(MembersStep(k, b, p, r, pf), b, p + |MembersText(ms)| + 1, ReadFields(k, ms, View(b, r), pf))
    decreases ms
  {
    hide MembersStep, ReadFields, FieldOK, SetField, At, ValueAt;
    var e := ValueEnd(p + |KeyText(ms)|, ms.val, ms.post);
    MemberParts(ms, b, p);
    var r' := MembersTurn(k, ms, b, p, r, pf);
    ReadTurn(k, ms, View(b, r), pf);
    if ms.tail.Member? {
      MembersReads(k, ms.tail, b, e + 1, r', pf);
    } else {
      AtBrace(k, b, e, r', pf);
    }
  }

  lemma ReadTurn(k: Kind, ms: Members, f: Fields, pf: ParseFloat)
    requires ms.Member? && FieldsOK(k, ms, pf)
    ensures ReadFields(k, ms, f, pf) == ReadFields(k, ms.tail, SetField(k, ms.key, ms.val, f, pf), pf)
    ensures ms.tail.NoMembers? ==> ReadFields(k, ms, f, pf) == SetField(k, ms.key, ms.val, f, pf)
  {
    hide FieldOK, SetField;
  }

  lemma AtBrace(k: Kind, b: bytes, e: nat, r: Parsed, pf: ParseFloat)
    requires e < |b| && b[e] == '}'
    ensures MembersStep(k, b, e, r, pf) == Step(r, e + 1)
  {
    assert KeyAt(b, e) == ObjectEnd(e + 1);
  }

  lemma ObjectReads(k: Kind, ws: bytes, ms: Members, b: bytes, p: nat, r: Parsed, pf: ParseFloat)
    requires AllSpace(ws) && MembersOK(ms) && FieldsOK(k, ms, pf) && r.InBody(b)
    requires At(b, p, MembersBody(ws, ms) + ['}'])
    ensures Yields(MembersStep(k, b, p, r, pf), b, p + |MembersBody(ws, ms)| + 1, ReadFields(k, ms, View(b, r), pf))
  {
    if ms.NoMembers? {
      EmptyObject(ws, b, p);
    } else {
      MembersReads(k, ms, b, p, r, pf);
    }
  }

  lemma EmptyObject(ws: bytes, b: bytes, p: nat)
    requires AllSpace(ws) && At(b, p, ws + ['}'])
    ensures KeyAt(b, p) == ObjectEnd(p + |ws| + 1)
  {
    AtAppend(b, p, ws, ['}']);
    assert b[p + |ws| + 0] == ['}'][0];
    WsTo(b, p, ws);
  }

  /** The brace and the body of an object. */
  lemma ObjectStart(ws: bytes, ms: Members, b: bytes, p: nat)
    requires At(b, p, Print(Obj(ws, ms)))
    ensures p < |b| && b[p] == '{' && ObjAt(b, p) == Some(p + 1)
    ensures At(b, p + 1, MembersBody(ws, ms) + ['}'])
    ensures |Print(Obj(ws, ms))| == 1 + |MembersBody(ws, ms)| + 1
  {
    var body := MembersBody(ws, ms);
    assert ['{'] + body + ['}'] == ['{'] + (body + ['}']);
    AtAppend(b, p, ['{'], body + ['}']);
    assert b[p + 0] == ['{'][0];
  }

  lemma SectionReads(k: Kind, v: Json, post: bytes, b: bytes, p: nat, r: Parsed, pf: ParseFloat)
    requires ValueAt(b, p, v, post) && r.InBody(b) && SectionOK(k, v, pf)
    ensures Reads(SectionStep(k, b, p, r, pf), b, ValueEnd(p, v, post), ReadSection(k, v, View(b, r), pf))
  {
    hide FieldStep, FieldOK, SetField, MembersStep, ReadFields, WsEnd, At, AllSpace, Print, View;
    Settled(b, p, v, post);
    if IsNull(v) {
      NullReads(k, v, post, b, p, r, pf);
      ViewFlag(b, r, false);
    } else {
      ValueHere(b, p, v, post);
      var r0 := if k.LastTxObj? then r.(hasLastTx := true) else r;
      ObjectStart(v.ows, v.members, b, p);
      ObjectReads(k, v.ows, v.members, b, p + 1, r0, pf);
      SectionTurn(k, b, p, r, pf);
      ViewFlag(b, r, true);
    }
  }

  lemma ViewFlag(b: bytes, r: Parsed, flag: bool)
    requires r.InBody(b)
    ensures r.(hasLastTx := flag).InBody(b)
    ensures View(b, r.(hasLastTx := flag)) == View(b, r).(hasLastTx := flag)
  {
  }

  lemma ValueHere(b: bytes, p: nat, v: Json, post: bytes)
    requires ValueAt(b, p, v, post)
    ensures At(b, p, Print(v))
  {
  }

  lemma NullReads(k: Kind, v: Json, post: bytes, b: bytes, p: nat, r: Parsed, pf: ParseFloat)
    requires ValueAt(b, p, v, post) && r.InBody(b) && IsNull(v) && k.LastTxObj?
    ensures SectionStep(k, b, p, r, pf) == Step(r.(hasLastTx := false), p + |Print(v)|)
  {
    hide MembersStep;
    ValueStart(b, p, v, post);
    AtSlice(b, p, Print(v));
  }

  lemma SectionTurn(k: Kind, b: bytes, p: nat, r: Parsed, pf: ParseFloat)
    requires p < |b| && b[p] == '{'
    ensures SectionStep(k, b, p, r, pf) ==
            MembersStep(k, b, p + 1, if k.LastTxObj? then r.(hasLastTx := true) else r, pf)
  {
    assert p + 4 <= |b| ==> b[p..p + 4][0] == '{';
  }

  lemma RootFieldReads(key: bytes, v: Json, post: bytes, b: bytes, p: nat, r: Parsed, pf: ParseFloat)
    requires ValueAt(b, p, v, post) && r.InBody(b)
    requires SectionOf(key).Some? ==> SectionOK(SectionOf(key).value, v, pf)
    ensures Reads(RootFieldStep(b, p, key, r, pf), b, ValueEnd(p, v, post),
                  if SectionOf(key).Some? then ReadSection(SectionOf(key).value, v, View(b, r), pf) else View(b, r))
  {
    var k := SectionOf(key);
    if k.Some? {
      SectionReads(k.value, v, post, b, p, r, pf);
    } else {
      SkipReads(b, p, v, post, r);
    }
  }

  lemma RootTurn(ms: Members, b: bytes, p: nat, r: Parsed, pf: ParseFloat) returns (r': Parsed)
    requires ms.Member? && MembersOK(ms) && MemberOK(ms, pf) && r.InBody(b)
    requires At(b, p, MembersText(ms) + ['}'])
    ensures r'.InBody(b) && View(b, r') == ReadMember(ms, View(b, r), pf)
    ensures var e := ValueEnd(p + |KeyText(ms)|, ms.val, ms.post);
            e < |b| && RootStep(b, p, r, pf) == RootStep(b, if b[e] == ',' then e + 1 else e, r', pf)
  {
    hide RootFieldStep, SectionOf, SectionOK, ReadSection, RootStep, KeyAt, WsEnd, At, MembersText, KeyText;
    hide ValueAt, IsSpace, WellFormed, AllSpace, IsContent, Print;
    MemberParts(ms, b, p);
    var q, cs := p + |KeyText(ms)|, p + |ms.pre| + 1;
    ValueStart(b, q, ms.val, ms.post);
    KeyReads(ms, b, p);
    RootFieldReads(ms.key, ms.val, ms.post, b, q, r, pf);
    RootLoopTurn(b, p, cs, cs + |ms.key|, q, ValueEnd(q, ms.val, ms.post), r, pf);
    r' := RootFieldStep(b, q, ms.key, r, pf).r;
  }

  lemma {:induction false} RootReads(ms: Members, b: bytes, p: nat, r: Parsed, pf: ParseFloat)
    requires ms.Member? && MembersOK(ms) && RootOK(ms, pf) && r.InBody(b)
    requires At(b, p, MembersText(ms) + ['}'])
    ensures Yields(RootStep(b, p, r, pf), b, p + |MembersText(ms)| + 1, ReadRoot(ms, View(b, r), pf))
    decreases ms
  {
    hide RootStep, ReadRoot, ReadMember, SectionOf, SectionOK, At, ValueAt, WellFormed, Print, MembersText, KeyText;
    var e := ValueEnd(p + |KeyText(ms)|, ms.val, ms.post);
    MemberParts(ms, b, p);
    var r' := RootTurn(ms, b, p, r, pf);
    ReadRootTurn(ms, View(b, r), pf);
    if ms.tail.Member? {
      RootReads(ms.tail, b, e + 1, r', pf);
    } else {
      RootBrace(b, e, r', pf);
    }
  }

  lemma ReadRootTurn(ms: Members, f: Fields, pf: ParseFloat)
    requires ms.Member? && RootOK(ms, pf)
    ensures ReadRoot(ms, f, pf) == ReadRoot(ms.tail, ReadMember(ms, f, pf), pf)
    ensures ms.tail.NoMembers? ==> ReadRoot(ms, f, pf) == ReadMember(ms, f, pf)
  {
    hide ReadMember, SectionOf, SectionOK;
  }

  lemma RootBrace(b: bytes, e: nat, r: Parsed, pf: ParseFloat)
    requires e < |b| && b[e] == '}'
    ensures RootStep(b, e, r, pf) == Step(r, e + 1)
  {
    assert KeyAt(b, e) == ObjectEnd(e + 1);
  }

  /** For every payload tree of the schema, printed with any member order, any white space
      and any further members of any nested shape, after any white space and before anything:
      parsing succeeds and extracts what reading the tree gives. */
  lemma ParsePrintedPayload(front: bytes, ws: bytes, ms: Members, rest: bytes, pf: ParseFloat)
    requires AllSpace(front) && WellFormed(Obj(ws, ms)) && RootOK(ms, pf)
    ensures var body := front + Print(Obj(ws, ms)) + rest;
            var r := ParseBody(body, pf);
            r.Some? && r.value.InBody(body) && View(body, r.value) == ReadRoot(ms, NO_FIELDS, pf)
  {
    hide RootStep, ReadRoot, RootOK, MembersOK, At, WsEnd;
    var doc := Print(Obj(ws, ms));
    var body := front + doc + rest;
    var p := |front|;
    PayloadStart(front, ws, ms, rest);
    if ms.NoMembers? {
      EmptyRoot(ws, ms, body, p + 1, pf);
    } else {
      RootReads(ms, body, p + 1, BLANK, pf);
    }
  }

  lemma EmptyRoot(ws: bytes, ms: Members, b: bytes, p: nat, pf: ParseFloat)
    requires ms.NoMembers? && AllSpace(ws) && At(b, p, ws + ['}'])
    ensures Yields(RootStep(b, p, BLANK, pf), b, p + |ws| + 1, ReadRoot(ms, View(b, BLANK), pf))
  {
    EmptyObject(ws, b, p);
  }

  lemma PayloadStart(front: bytes, ws: bytes, ms: Members, rest: bytes)
    requires AllSpace(front)
    ensures var body := front + Print(Obj(ws, ms)) + rest;
            ObjAt(body, 0) == Some(|front| + 1) && At(body, |front| + 1, MembersBody(ws, ms) + ['}'])
            && BLANK.InBody(body) && View(body, BLANK) == NO_FIELDS
  {
    hide MembersBody;
    var doc := Print(Obj(ws, ms));
    var body := front + doc + rest;
    AtSlice(body, 0, body);
    AtAppend(body, 0, front + doc, rest);
    AtAppend(body, 0, front, doc);
    ObjectStart(ws, ms, body, |front|);
    WsTo(body, 0, front);
  }

  // ---- What the parser rejects -------------------------------------------------------------

  /** A timestamp text is not cut off within its offset. */
  predicate StampUncut(k: Kind, key: bytes, v: Json) {
    v.Text? && ((k.TransactionObj? && key == "requested_at") || (k.LastTxObj? && key == "timestamp")) ==> Uncut(v.raw)
  }

  predicate FieldsUncut(k: Kind, ms: Members) {
    ms.Member? ==> StampUncut(k, ms.key, ms.val) && FieldsUncut(k, ms.tail)
  }

  predicate RootUncut(ms: Members) {
    ms.Member? ==>
      && (SectionOf(ms.key).Some? && ms.val.Obj? ==> FieldsUncut(SectionOf(ms.key).value, ms.val.members))
      && RootUncut(ms.tail)
  }

  lemma NotANumber(b: bytes, p: nat, pf: ParseFloat)
    requires p < |b| && !IsNumberChar(b[p])
    ensures NumAt(b, p, pf).NumFail?
  {
    assert DigitsEnd(b, p) == p;
  }

  /** What a value of another kind starts with. */
  lemma StrictStart(v: Json)
    requires WellFormed(v) && Strict(v)
    ensures Print(v) != []
    ensures !v.Num? ==> !IsNumberChar(Print(v)[0])
    ensures !v.Text? ==> Print(v)[0] != '"'
    ensures !v.Obj? ==> Print(v)[0] != '{'
    ensures !IsNull(v) ==> Print(v)[0] != 'n'
  {
    hide MembersBody, ElemsBody, MembersOK, ElemsOK, StrictMembers, StrictElems, IsContent, StrictText;
    PrintStart(v);
    if v.Num? {
      NumStart(v.lit);
    }
  }

  lemma NumStart(l: NumLit)
    requires l.Valid() && StrictNumber(l)
    ensures l.Text() != [] && (l.Text()[0] == '-' || IsDigit(l.Text()[0]))
  {
  }

  lemma NumFails(v: Json, post: bytes, b: bytes, p: nat, pf: ParseFloat)
    requires ValueAt(b, p, v, post) && Strict(v) && !IsNum(v, pf)
    ensures NumAt(b, p, pf).NumFail?
  {
    hide Print, WsEnd, NumAt, IsNumberChar;
    ValueStart(b, p, v, post);
    StrictStart(v);
    if v.Num? {
      NumRefused(v, post, b, p, pf);
    } else {
      NotANumber(b, p, pf);
    }
  }

  lemma NumRefused(v: Json, post: bytes, b: bytes, p: nat, pf: ParseFloat)
    requires ValueAt(b, p, v, post) && v.Num? && !IsNum(v, pf)
    ensures NumAt(b, p, pf).NumFail?
  {
    if post != [] {
      assert b[p + |Print(v)| + 0] == post[0];
    }
    NoMeaning(v.lit, b, p, pf);
  }

  lemma FieldFails(k: Kind, key: bytes, v: Json, post: bytes, b: bytes, p: nat, r: Parsed, pf: ParseFloat)
    requires ValueAt(b, p, v, post) && Strict(v) && StampUncut(k, key, v) && !FieldOK(k, key, v, pf)
    ensures FieldStep(k, b, p, key, r, pf).Bad?
  {
    hide ValueAt, NumAt, Print, SkipEnd, ParseISO8601, WsEnd, CloseAt, IsNum, Strict, IsNumberChar;
    if !IsNum(v, pf) {
      NumFails(v, post, b, p, pf);
    }
    if !v.Text? {
      TextFails(v, post, b, p);
    }
  }

  lemma TextFails(v: Json, post: bytes, b: bytes, p: nat)
    requires ValueAt(b, p, v, post) && Strict(v) && !v.Text?
    ensures StrAt(b, p).None?
  {
    hide Print, WsEnd, IsNumberChar;
    ValueStart(b, p, v, post);
    StrictStart(v);
  }

  /** One bad member fails the loop, whatever comes after it. */
  lemma {:induction false} MembersFail(k: Kind, ms: Members, b: bytes, p: nat, r: Parsed, pf: ParseFloat)
    requires MembersOK(ms) && StrictMembers(ms) && FieldsUncut(k, ms) && !FieldsOK(k, ms, pf) && r.InBody(b)
    requires At(b, p, MembersText(ms) + ['}'])
    ensures p <= |b| && MembersStep(k, b, p, r, pf).Bad?
    decreases ms
  {
    hide FieldStep, FieldOK, SetField, MembersStep, At, ValueAt, KeyAt, StampUncut, Strict, WsEnd, KeyText, MembersText;
    MemberParts(ms, b, p);
    var q := p + |KeyText(ms)|;
    var e := ValueEnd(q, ms.val, ms.post);
    if FieldOK(k, ms.key, ms.val, pf) {
      var r' := MembersTurn(k, ms, b, p, r, pf);
      MembersFail(k, ms.tail, b, e + 1, r', pf);
    } else {
      var cs := p + |ms.pre| + 1;
      ValueStart(b, q, ms.val, ms.post);
      KeyReads(ms, b, p);
      FieldFails(k, ms.key, ms.val, ms.post, b, q, r, pf);
      LoopFails(k, b, p, cs, cs + |ms.key|, q, r, pf);
    }
  }

  lemma LoopFails(k: Kind, b: bytes, p: nat, cs: nat, ce: nat, q: nat, r: Parsed, pf: ParseFloat)
    requires p <= |b| && KeyAt(b, p) == Key(cs, ce, q) && FieldStep(k, b, q, b[cs..ce], r, pf).Bad?
    ensures MembersStep(k, b, p, r, pf).Bad?
  {
    hide FieldStep, KeyAt;
  }

  lemma SectionFails(k: Kind, v: Json, post: bytes, b: bytes, p: nat, r: Parsed, pf: ParseFloat)
    requires ValueAt(b, p, v, post) && Strict(v) && r.InBody(b) && !SectionOK(k, v, pf)
    requires v.Obj? ==> FieldsUncut(k, v.members)
    ensures SectionStep(k, b, p, r, pf).Bad?
  {
    hide FieldsOK, FieldsUncut, MembersStep, WsEnd, StrictMembers, MembersOK, IsNumberChar;
    ValueStart(b, p, v, post);
    if v.Obj? {
      ValueHere(b, p, v, post);
      var r0 := if k.LastTxObj? then r.(hasLastTx := true) else r;
      ObjectStart(v.ows, v.members, b, p);
      BadBody(k, v, pf);
      MembersFail(k, v.members, b, p + 1, r0, pf);
      SectionTurn(k, b, p, r, pf);
    } else {
      StrictStart(v);
      assert p + 4 <= |b| ==> b[p..p + 4][0] == b[p];
    }
  }

  lemma BadBody(k: Kind, v: Json, pf: ParseFloat)
    requires v.Obj? && Strict(v) && WellFormed(v) && !FieldsOK(k, v.members, pf)
    ensures MembersBody(v.ows, v.members) == MembersText(v.members)
    ensures MembersOK(v.members) && StrictMembers(v.members)
  {
    assert v.members.Member?;
  }

  lemma {:induction false} RootFails(ms: Members, b: bytes, p: nat, r: Parsed, pf: ParseFloat)
    requires MembersOK(ms) && StrictMembers(ms) && RootUncut(ms) && !RootOK(ms, pf) && r.InBody(b)
    requires At(b, p, MembersText(ms) + ['}'])
    ensures p <= |b| && RootStep(b, p, r, pf).Bad?
    decreases ms
  {
    hide RootFieldStep, RootStep, ReadMember, MemberOK, SectionOf, SectionOK, At, ValueAt, KeyAt, Strict, WsEnd;
    hide KeyText, MembersText, FieldsUncut;
    MemberParts(ms, b, p);
    var q := p + |KeyText(ms)|;
    var e := ValueEnd(q, ms.val, ms.post);
    if MemberOK(ms, pf) {
      var r' := RootTurn(ms, b, p, r, pf);
      RootFails(ms.tail, b, e + 1, r', pf);
    } else {
      var cs := p + |ms.pre| + 1;
      ValueStart(b, q, ms.val, ms.post);
      KeyReads(ms, b, p);
      RootFieldFails(ms, b, q, r, pf);
      RootLoopFails(b, p, cs, cs + |ms.key|, q, r, pf);
    }
  }

  lemma RootFieldFails(ms: Members, b: bytes, q: nat, r: Parsed, pf: ParseFloat)
    requires ms.Member? && ValueAt(b, q, ms.val, ms.post) && Strict(ms.val) && r.InBody(b)
    requires RootUncut(ms) && !MemberOK(ms, pf)
    ensures RootFieldStep(b, q, ms.key, r, pf).Bad?
  {
    hide SectionOf, SectionOK, SectionStep, ValueAt, Strict, FieldsUncut;
    SectionFails(SectionOf(ms.key).value, ms.val, ms.post, b, q, r, pf);
  }

  lemma RootLoopFails(b: bytes, p: nat, cs: nat, ce: nat, q: nat, r: Parsed, pf: ParseFloat)
    requires p <= |b| && KeyAt(b, p) == Key(cs, ce, q) && RootFieldStep(b, q, b[cs..ce], r, pf).Bad?
    ensures RootStep(b, p, r, pf).Bad?
  {
    hide RootFieldStep, KeyAt;
  }

  /** A JSON text of an object is accepted exactly when the members the parser interprets have
      the kinds it expects: numbers, strings and objects, and null for the last transaction
      alone. */
  lemma ParseIff(front: bytes, ws: bytes, ms: Members, rest: bytes, pf: ParseFloat)
    requires AllSpace(front) && WellFormed(Obj(ws, ms)) && StrictMembers(ms) && RootUncut(ms)
    ensures ParseBody(front + Print(Obj(ws, ms)) + rest, pf).Some? <==> RootOK(ms, pf)
  {
    hide RootOK, Print, StrictMembers, RootUncut;
    if RootOK(ms, pf) {
      ParsePrintedPayload(front, ws, ms, rest, pf);
    } else {
      hide MembersOK, RootStep, At;
      PayloadStart(front, ws, ms, rest);
      BadRoot(ms, pf);
      RootFails(ms, front + Print(Obj(ws, ms)) + rest, |front| + 1, BLANK, pf);
    }
  }

  lemma BadRoot(ms: Members, pf: ParseFloat)
    requires !RootOK(ms, pf)
    ensures ms.Member?
  {
  }

  /** A null where the parser expects a number, a string or an object; encoding/json leaves the
      field at its zero value there. */
  predicate NullField(k: Kind, key: bytes, v: Json) {
    IsNull(v) &&
    match k
    case TransactionObj => key == "amount" || key == "installments" || key == "requested_at"
    case CustomerObj => key == "avg_amount" || key == "tx_count_24h"
    case MerchantObj => key == "id" || key == "mcc" || key == "avg_amount"
    case TerminalObj => key == "km_from_home"
    case LastTxObj => key == "timestamp" || key == "km_from_current"
  }

  predicate NullIn(k: Kind, ms: Members) {
    ms.Member? && (NullField(k, ms.key, ms.val) || NullIn(k, ms.tail))
  }

  predicate NullMember(k: Kind, v: Json) {
    (IsNull(v) && !k.LastTxObj?) || (v.Obj? && NullIn(k, v.members))
  }

  predicate NullInRoot(ms: Members) {
    ms.Member? &&
      ((SectionOf(ms.key).Some? && NullMember(SectionOf(ms.key).value, ms.val)) || NullInRoot(ms.tail))
  }

  lemma {:induction false} NullInFields(k: Kind, ms: Members, pf: ParseFloat)
    requires NullIn(k, ms)
    ensures !FieldsOK(k, ms, pf)
  {
    if !NullField(k, ms.key, ms.val) {
      NullInFields(k, ms.tail, pf);
    }
  }

  /** Every such document is rejected. */
  lemma {:induction false} NullsRejected(ms: Members, pf: ParseFloat)
    requires NullInRoot(ms)
    ensures !RootOK(ms, pf)
  {
    hide FieldsOK, NullIn, SectionOf;
    if NullInRoot(ms.tail) {
      NullsRejected(ms.tail, pf);
    } else if ms.val.Obj? {
      NullInFields(SectionOf(ms.key).value, ms.val.members, pf);
    }
  }
}
