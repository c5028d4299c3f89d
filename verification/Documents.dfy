/** Conforming payload documents, on both sides of every part of the agreement condition. */
module Documents {
  import opened Numbers
  import opened Bytes
  import opened Calendar
  import opened Stamps
  import opened Cursor
  import opened JsonText
  import opened Merchants
  import opened Parser
  import opened ParseProof
  import opened Vectorizer
  import opened Query
  import opened Payloads
  import opened Agreement

  lemma {:induction false} PlainContent(t: bytes, i: nat)
    requires IsAscii(t) && i <= |t|
    ensures ContentFrom(t, i) && StrictFrom(t, i)
    decreases |t| - i
  {
    if i < |t| {
      PlainContent(t, i + 1);
    }
  }

  /** ms with one more member in front. */
  function Put(key: bytes, v: Json, ms: Members): (r: Members)
    ensures r.Member? && r.key == key && r.val == v && r.tail == ms
  {
    Member([], key, [], [], v, [], ms)
  }

  /** A list of members in good order. */
  predicate GoodMembers(d: Decoder, schema: set<bytes>, ms: Members) {
    MembersOK(ms) && StrictMembers(ms) && UniqueKeys(ms) && KeysClear(d, schema, ms)
  }

  lemma PutGood(d: Decoder, schema: set<bytes>, key: bytes, v: Json, ms: Members)
    requires GoodMembers(d, schema, ms) && key in schema && IsAscii(key) && key !in Keys(ms)
    requires WellFormed(v) && Strict(v)
    ensures GoodMembers(d, schema, Put(key, v, ms))
    ensures Keys(Put(key, v, ms)) == {key} + Keys(ms) && Lookup(Put(key, v, ms), key) == v
    ensures forall k :: k in Keys(ms) ==> Lookup(Put(key, v, ms), k) == Lookup(ms, k)
  {
    hide WellFormed, Strict;
    PlainContent(key, 0);
    hide IsAscii;
  }

  lemma NoneGood(d: Decoder, schema: set<bytes>)
    ensures GoodMembers(d, schema, NoMembers) && Keys(NoMembers) == {}
  {
  }

  // ---- A document with a request time, a list, a merchant, a code and a last transaction -----

  datatype Last = NoLast | Untimed | At(t: Stamp)

  function TimeMember(key: bytes, t: Stamp): Members
    requires t.Valid()
  {
    Put(key, Text(t.Print()), NoMembers)
  }

  function Request(at: Option<Stamp>): Members
    requires at.Some? ==> at.value.Valid()
  {
    if at.None? then NoMembers else TimeMember("requested_at", at.value)
  }

  function Customer(known: Elems): Members {
    Put("known_merchants", Arr([], known), NoMembers)
  }

  function Merchant(id: bytes, mcc: bytes): Members {
    Put("id", Text(id), Put("mcc", Text(mcc), NoMembers))
  }

  function Previous(last: Last): Members
    requires last.At? ==> last.t.Valid()
  {
    if last.At? then TimeMember("timestamp", last.t) else NoMembers
  }

  datatype Doc = Doc(at: Option<Stamp>, known: Elems, id: bytes, mcc: bytes, last: Last) {
    predicate Timed() {
      (at.Some? ==> at.value.Valid()) && (last.At? ==> last.t.Valid())
    }

    /** Parts that fit together: plain ids that stand for themselves, and any code. */
    predicate OK(d: Decoder) {
      && Timed() && PlainStrings(known) && ElemsOK(known) && StrictElems(known)
      && (forall m :: m in IdsOf(known) ==> d.Literal(m))
      && d.Literal(id) && IsContent(id) && StrictText(id) && IsContent(mcc) && StrictText(mcc)
    }

    function End(): Members
      requires Timed()
    {
      if last.NoLast? then NoMembers else Put("last_transaction", Obj([], Previous(last)), NoMembers)
    }

    function Root(): Members
      requires Timed()
    {
      Put("transaction", Obj([], Request(at)),
          Put("customer", Obj([], Customer(known)),
              Put("merchant", Obj([], Merchant(id, mcc)), End())))
    }

    function Section(k: Kind): Members
      requires Timed()
    {
      match k
      case TransactionObj => Request(at)
      case CustomerObj => Customer(known)
      case MerchantObj => Merchant(id, mcc)
      case TerminalObj => NoMembers
      case LastTxObj => Previous(last)
    }
  }

  lemma TimeGood(d: Decoder, schema: set<bytes>, key: bytes, t: Stamp)
    requires t.Valid() && key in schema && IsAscii(key)
    ensures var s := TimeMember(key, t);
            GoodMembers(d, schema, s) && Keys(s) == {key} && Lookup(s, key) == Text(t.Print())
  {
    StampIsAscii(t);
    PlainContent(t.Print(), 0);
    assert WellFormed(Text(t.Print())) && Strict(Text(t.Print()));
    hide Stamp.Print, IsAscii, ContentFrom, StrictFrom, GoodMembers, Keys, Lookup, Put;
    NoneGood(d, schema);
    PutGood(d, schema, key, Text(t.Print()), NoMembers);
  }

  lemma CustomerGood(d: Decoder, known: Elems)
    requires ElemsOK(known) && StrictElems(known)
    ensures var s := Customer(known);
            && GoodMembers(d, Schema(CustomerObj), s) && Keys(s) == {"known_merchants"}
            && Lookup(s, "known_merchants") == Arr([], known)
  {
    AmountNamesAscii();
    assert WellFormed(Arr([], known)) && Strict(Arr([], known));
    hide IsAscii, GoodMembers, Keys, Lookup, Put;
    NoneGood(d, Schema(CustomerObj));
    PutGood(d, Schema(CustomerObj), "known_merchants", Arr([], known), NoMembers);
  }

  lemma MerchantGood(d: Decoder, id: bytes, mcc: bytes)
    requires IsContent(id) && StrictText(id) && IsContent(mcc) && StrictText(mcc)
    ensures var s := Merchant(id, mcc);
            && GoodMembers(d, Schema(MerchantObj), s) && Keys(s) == {"id", "mcc"}
            && Lookup(s, "id") == Text(id) && Lookup(s, "mcc") == Text(mcc)
  {
    AmountNamesAscii();
    OtherNamesAscii();
    RootNamesAscii();
    assert |"id"| != |"mcc"|;
    hide IsAscii, ContentFrom, StrictFrom, GoodMembers, Keys, Lookup, Put;
    NoneGood(d, Schema(MerchantObj));
    PutGood(d, Schema(MerchantObj), "mcc", Text(mcc), NoMembers);
    PutGood(d, Schema(MerchantObj), "id", Text(id), Put("mcc", Text(mcc), NoMembers));
  }

  lemma SectionsGood(d: Decoder, doc: Doc, k: Kind)
    requires doc.OK(d)
    ensures GoodMembers(d, Schema(k), doc.Section(k))
  {
    NoneGood(d, Schema(k));
    AmountNamesAscii();
    OtherNamesAscii();
    hide GoodMembers, IsAscii, Customer, Merchant, TimeMember, PlainStrings, Decoder.Literal;
    match k
    case TransactionObj => if doc.at.Some? { TimeGood(d, Schema(k), "requested_at", doc.at.value); }
    case CustomerObj => CustomerGood(d, doc.known);
    case MerchantObj => MerchantGood(d, doc.id, doc.mcc);
    case TerminalObj =>
    case LastTxObj => if doc.last.At? { TimeGood(d, Schema(k), "timestamp", doc.last.t); }
  }

  lemma SectionWellFormed(d: Decoder, doc: Doc, k: Kind)
    requires doc.OK(d)
    ensures WellFormed(Obj([], doc.Section(k))) && Strict(Obj([], doc.Section(k)))
  {
    SectionsGood(d, doc, k);
    hide Doc.OK, Doc.Section;
  }

  lemma RootNamesDiffer()
    ensures "transaction" != "customer" && "transaction" != "merchant" && "customer" != "merchant"
    ensures "last_transaction" !in {"transaction", "customer", "merchant"}
    ensures "terminal" !in {"transaction", "customer", "merchant", "last_transaction"}
    ensures "id" !in {"transaction", "customer", "merchant", "last_transaction"}
  {
    assert |"transaction"| == 11 && |"customer"| == 8 && |"merchant"| == 8 && |"last_transaction"| == 16 && |"id"| == 2;
    assert |"terminal"| == 8 && "terminal"[0] == 't' && "customer"[0] == 'c' && "merchant"[0] == 'm';
  }

  lemma EndGood(d: Decoder, doc: Doc)
    requires doc.OK(d)
    ensures GoodMembers(d, ROOT_SCHEMA, doc.End())
    ensures Keys(doc.End()) == if doc.last.NoLast? then {} else {"last_transaction"}
    ensures !doc.last.NoLast? ==> Lookup(doc.End(), "last_transaction") == Obj([], Previous(doc.last))
  {
    NoneGood(d, ROOT_SCHEMA);
    RootNamesAscii();
    SectionWellFormed(d, doc, LastTxObj);
    hide IsAscii, GoodMembers, Keys, Lookup, Put, Doc.OK, Previous, WellFormed, Strict;
    OKTimed(d, doc);
    if !doc.last.NoLast? {
      PutGood(d, ROOT_SCHEMA, "last_transaction", Obj([], Previous(doc.last)), NoMembers);
    }
  }

  lemma DocumentGood(d: Decoder, doc: Doc)
    requires doc.OK(d)
    ensures var ms := doc.Root();
            && GoodMembers(d, ROOT_SCHEMA, ms)
            && Keys(ms) == {"transaction", "customer", "merchant"} + Keys(doc.End())
            && Lookup(ms, "transaction") == Obj([], Request(doc.at))
            && Lookup(ms, "customer") == Obj([], Customer(doc.known))
            && Lookup(ms, "merchant") == Obj([], Merchant(doc.id, doc.mcc))
            && forall k :: k in Keys(doc.End()) ==> Lookup(ms, k) == Lookup(doc.End(), k)
  {
    hide IsAscii, GoodMembers, Keys, Lookup, Put, Doc.OK, Doc.End, Request, Customer, Merchant, WellFormed, Strict;
    OKTimed(d, doc);
    EndGood(d, doc);
    RootNamesAscii();
    RootNamesDiffer();
    SectionWellFormed(d, doc, TransactionObj);
    SectionWellFormed(d, doc, CustomerObj);
    SectionWellFormed(d, doc, MerchantObj);
    var me := Put("merchant", Obj([], Merchant(doc.id, doc.mcc)), doc.End());
    var cu := Put("customer", Obj([], Customer(doc.known)), me);
    PutGood(d, ROOT_SCHEMA, "merchant", Obj([], Merchant(doc.id, doc.mcc)), doc.End());
    PutGood(d, ROOT_SCHEMA, "customer", Obj([], Customer(doc.known)), me);
    PutGood(d, ROOT_SCHEMA, "transaction", Obj([], Request(doc.at)), cu);
  }

  lemma DocumentSections(d: Decoder, doc: Doc, k: Kind)
    requires doc.OK(d)
    ensures SectionMembers(k, doc.Root()) == doc.Section(k)
  {
    DocumentGood(d, doc);
    EndGood(d, doc);
    RootNamesDiffer();
    hide Doc.OK, Doc.Root, Doc.End, Request, Customer, Merchant, Keys, Lookup, GoodMembers;
    OKTimed(d, doc);
  }

  lemma DocumentReadable(d: Decoder, doc: Doc, pf: ParseFloat)
    requires doc.OK(d)
    ensures RootOK(doc.Root(), pf)
  {
    hide Doc.OK, FieldsOK, Customer, Merchant, TimeMember, SectionOf;
    OKTimed(d, doc);
    TimeReadable(TransactionObj, "requested_at", doc.at, pf);
    TimeReadable(LastTxObj, "timestamp", if doc.last.At? then Some(doc.last.t) else None, pf);
    CustomerReadable(doc.known, pf);
    MerchantReadable(doc.id, doc.mcc, pf);
    RootSections();
    assert RootOK(doc.End(), pf);
    hide Doc.End;
    assert RootOK(Put("merchant", Obj([], Merchant(doc.id, doc.mcc)), doc.End()), pf);
  }

  lemma RootSections()
    ensures SectionOf("transaction") == Some(TransactionObj) && SectionOf("customer") == Some(CustomerObj)
    ensures SectionOf("merchant") == Some(MerchantObj) && SectionOf("last_transaction") == Some(LastTxObj)
  {
  }

  lemma TimeReadable(k: Kind, key: bytes, at: Option<Stamp>, pf: ParseFloat)
    requires at.Some? ==> at.value.Valid()
    requires (k == TransactionObj && key == "requested_at") || (k == LastTxObj && key == "timestamp")
    ensures FieldsOK(k, if at.Some? then TimeMember(key, at.value) else NoMembers, pf)
  {
    assert FieldsOK(k, NoMembers, pf);
    if at.Some? {
      PrintShape(at.value);
      hide Stamp.Print;
    }
  }

  lemma CustomerReadable(known: Elems, pf: ParseFloat)
    ensures FieldsOK(CustomerObj, Customer(known), pf)
  {
    assert FieldsOK(CustomerObj, NoMembers, pf);
  }

  lemma MerchantReadable(id: bytes, mcc: bytes, pf: ParseFloat)
    ensures FieldsOK(MerchantObj, Merchant(id, mcc), pf)
  {
    assert FieldsOK(MerchantObj, NoMembers, pf);
    assert FieldsOK(MerchantObj, Put("mcc", Text(mcc), NoMembers), pf);
  }

  lemma StampDenotes(t: Stamp)
    requires t.Valid()
    ensures Denotes(t.Print(), t.Instant())
    ensures TimeParse(t.Print()) == Some(t.Instant()) && t.Print() != []
  {
    assert Denotes(t.Print(), t.Instant());
    hide Denotes, Stamp.Instant;
    DenotesUnique(t.Print(), t.Instant());
    PrintShape(t);
  }

  lemma TimeTyped(key: bytes, at: Option<Stamp>)
    requires at.Some? ==> at.value.Valid()
    ensures StampMember(if at.Some? then TimeMember(key, at.value) else NoMembers, key)
  {
    if at.Some? {
      StampDenotes(at.value);
      hide Denotes, Stamp.Print, Stamp.Instant;
    }
  }

  lemma SectionsTyped(d: Decoder, doc: Doc)
    requires doc.OK(d)
    ensures TxTyped(Request(doc.at)) && StampMember(Request(doc.at), "requested_at")
    ensures CustomerTyped(d, Customer(doc.known)) && KnownOf(Customer(doc.known)) == IdsOf(doc.known)
    ensures MerchantTyped(d, Merchant(doc.id, doc.mcc))
    ensures TerminalTyped(NoMembers) && StampMember(Previous(doc.last), "timestamp")
  {
    hide TimeMember, Customer, Merchant, StampMember, Doc.OK, TxTyped, CustomerTyped, MerchantTyped;
    hide KnownOf, PlainStrings;
    OKTimed(d, doc);
    TimeTyped("requested_at", doc.at);
    TimeTyped("timestamp", if doc.last.At? then Some(doc.last.t) else None);
    RequestTyped(doc.at);
    CustomerIsTyped(d, doc);
    MerchantIsTyped(d, doc);
  }

  lemma CustomerIsTyped(d: Decoder, doc: Doc)
    requires doc.OK(d)
    ensures CustomerTyped(d, Customer(doc.known)) && KnownOf(Customer(doc.known)) == IdsOf(doc.known)
  {
    CustomerGood(d, doc.known);
    assert |"tx_count_24h"| != |"known_merchants"|;
    hide Customer, Keys, Lookup, Decoder.Literal, GoodMembers;
  }

  lemma MerchantIsTyped(d: Decoder, doc: Doc)
    requires doc.OK(d)
    ensures MerchantTyped(d, Merchant(doc.id, doc.mcc))
  {
    MerchantGood(d, doc.id, doc.mcc);
    hide Merchant, Keys, Lookup, Decoder.Literal, GoodMembers;
  }

  lemma RequestTyped(at: Option<Stamp>)
    requires at.Some? ==> at.value.Valid()
    ensures TxTyped(Request(at))
  {
    assert "installments"[0] != "requested_at"[0];
    hide Stamp.Print;
    if at.Some? {
      assert Keys(TimeMember("requested_at", at.value)) == {"requested_at"};
    }
  }

  lemma DocumentClear(d: Decoder, doc: Doc, k: Kind)
    requires doc.OK(d)
    ensures SectionClear(d, k, doc.Root()) && SectionMembers(k, doc.Root()) == doc.Section(k)
  {
    assert doc.Timed();
    DocumentSections(d, doc, k);
    SectionsGood(d, doc, k);
    hide Doc.OK, Doc.Root, Doc.Section, SectionMembers;
  }

  lemma DocumentParts(d: Decoder, doc: Doc)
    requires doc.OK(d)
    ensures var ms := doc.Root();
            && SectionMembers(TransactionObj, ms) == Request(doc.at)
            && SectionMembers(CustomerObj, ms) == Customer(doc.known)
            && SectionMembers(MerchantObj, ms) == Merchant(doc.id, doc.mcc)
            && SectionMembers(TerminalObj, ms) == NoMembers
            && SectionMembers(LastTxObj, ms) == Previous(doc.last)
  {
    hide Doc.OK, Doc.Root, SectionMembers, Request, Customer, Merchant, Previous;
    OKTimed(d, doc);
    DocumentSections(d, doc, TransactionObj);
    DocumentSections(d, doc, CustomerObj);
    DocumentSections(d, doc, MerchantObj);
    DocumentSections(d, doc, TerminalObj);
    DocumentSections(d, doc, LastTxObj);
  }

  lemma RootGood(d: Decoder, doc: Doc)
    requires doc.OK(d)
    ensures GoodMembers(d, ROOT_SCHEMA, doc.Root()) && "id" !in Keys(doc.Root())
    ensures HasLast(doc.Root()) <==> !doc.last.NoLast?
  {
    hide Doc.OK, Doc.Root, Doc.End, Keys, Lookup, GoodMembers;
    OKTimed(d, doc);
    DocumentGood(d, doc);
    EndGood(d, doc);
    RootNamesDiffer();
  }

  lemma DocumentConforms(d: Decoder, doc: Doc, pf: ParseFloat)
    requires d.Valid() && doc.OK(d)
    ensures Conforms(d, doc.Root(), pf)
  {
    hide Doc.OK, Doc.Root, Request, Customer, Merchant, Previous, Keys, Lookup, RootOK, SectionMembers, Decoder.Valid;
    hide TxTyped, CustomerTyped, MerchantTyped, TerminalTyped, StampMember, SectionClear;
    hide MembersOK, StrictMembers, UniqueKeys, KeysClear, Doc.Section;
    OKTimed(d, doc);
    RootGood(d, doc);
    DocumentReadable(d, doc, pf);
    DocumentParts(d, doc);
    SectionsTyped(d, doc);
    forall k: Kind
      ensures SectionClear(d, k, doc.Root())
    {
      DocumentClear(d, doc, k);
    }
  }

  lemma DocumentTimes(d: Decoder, doc: Doc, pf: ParseFloat)
    requires d.Valid() && doc.OK(d) && Conforms(d, doc.Root(), pf)
    ensures var p := PayloadOf(d, doc.Root(), pf);
            && p.requestedAt == (if doc.at.Some? then doc.at.value.Print() else [])
            && (p.last.Some? <==> !doc.last.NoLast?)
            && (p.last.Some? ==> p.last.value.timestamp == if doc.last.At? then doc.last.t.Print() else [])
  {
    assert doc.Timed();
    TimeRead(d, "requested_at", doc.at);
    TimeRead(d, "timestamp", if doc.last.At? then Some(doc.last.t) else None);
    hide Doc.OK, Doc.Root, TimeMember, SectionMembers, Conforms, PayloadOf, HasLast, Stamp.Print, RawOf, Decoder.Valid;
    hide Customer, Merchant, GoodMembers, Keys;
    PayloadTexts(d, doc.Root(), pf);
    DocumentParts(d, doc);
    RootGood(d, doc);
  }

  lemma TimeRead(d: Decoder, key: bytes, at: Option<Stamp>)
    requires d.Valid() && (at.Some? ==> at.value.Valid())
    ensures d.unquote(RawOf(if at.Some? then TimeMember(key, at.value) else NoMembers, key)) ==
            if at.Some? then at.value.Print() else []
  {
    assert IsAscii([]);
    if at.Some? {
      StampIsAscii(at.value);
      hide Stamp.Print, IsAscii;
    }
  }

  lemma DocumentMerchant(d: Decoder, doc: Doc, pf: ParseFloat)
    requires d.Valid() && doc.OK(d) && Conforms(d, doc.Root(), pf)
    ensures var ms := doc.Root();
            var p := PayloadOf(d, ms, pf);
            p.merchantId == doc.id && p.merchantMcc == d.unquote(doc.mcc) && SpelledMcc(ms, pf) == doc.mcc
  {
    assert doc.Timed();
    MerchantGood(d, doc.id, doc.mcc);
    hide Doc.OK, Doc.Root, Request, Customer, Merchant, Previous, Keys, Lookup, SectionMembers, GoodMembers, Conforms;
    hide PayloadOf;
    PayloadTexts(d, doc.Root(), pf);
    DocumentParts(d, doc);
  }

  lemma DocumentKnown(d: Decoder, doc: Doc, pf: ParseFloat)
    requires d.Valid() && doc.OK(d) && Conforms(d, doc.Root(), pf)
    ensures var ms := doc.Root();
            && PayloadOf(d, ms, pf).knownMerchants == IdsOf(doc.known)
            && KnownOK(SectionMembers(CustomerObj, ms)) && KnownSeparators(ms) == Separators(doc.known)
  {
    assert doc.Timed() && PlainStrings(doc.known);
    CustomerGood(d, doc.known);
    hide Doc.OK, Doc.Root, Request, Customer, Merchant, Previous, Keys, Lookup, SectionMembers, GoodMembers, Conforms;
    hide PayloadOf, KnownOf, Separators, IdsOf, PlainStrings, StampMember;
    ConformsParts(d, doc.Root(), pf);
    DocumentParts(d, doc);
    SectionsTyped(d, doc);
  }

  /** The cursor's query of the printed document is the quantized reference vector. */
  ghost predicate QueryIsReference(n: Normalizer, d: Decoder, ms: Members, pf: ParseFloat)
    requires n.Valid() && Conforms(d, ms, pf)
  {
    QueryOf(n, Print(Obj([], ms)), pf) == Some(QuantizeAll(Vectorize(n, PayloadOf(d, ms, pf))))
  }

  /** What the parts of a document say. */
  ghost predicate PartsAgree(n: Normalizer, d: Decoder, doc: Doc)
    requires n.Valid() && doc.OK(d)
  {
    && doc.at.Some? && ClockAgrees(doc.at.value.Instant())
    && (doc.last.Untimed? ==> UntimedAgrees(doc.at.value.Instant(), n.c.maxMinutes))
    && (doc.last.At? ==> ElapsedAgrees(doc.at.value.Instant(), doc.last.t.Instant(), n.c.maxMinutes))
    && MerchantAgrees(doc.id, IdsOf(doc.known), Separators(doc.known))
    && RiskAgrees(n.Risk(doc.mcc), n.Risk(d.unquote(doc.mcc)))
  }

  lemma Alone(t: bytes)
    ensures [] + t + [] == t
  {
  }

  lemma DocumentVectors(n: Normalizer, d: Decoder, doc: Doc, pf: ParseFloat)
    requires n.Valid() && d.Valid() && doc.OK(d) && Conforms(d, doc.Root(), pf)
    ensures VectorsAgree(n, d, doc.Root(), pf) <==> PartsAgree(n, d, doc)
  {
    assert doc.Timed() && PlainStrings(doc.known);
    hide Doc.OK, Doc.Root, PayloadOf, Conforms, Denotes, TimeParse, Stamp.Print, Stamp.Instant, KnownSeparators;
    hide SpelledMcc, ClockAgrees, MerchantAgrees, RiskAgrees, LastAgrees, UntimedAgrees, ElapsedAgrees;
    hide Normalizer.Risk, Decoder.Valid, PlainStrings, SectionMembers;
    DocumentMerchant(d, doc, pf);
    DocumentKnown(d, doc, pf);
    DocumentTimes(d, doc, pf);
    DocumentClock(doc);
    DocumentLast(n, doc, PayloadOf(d, doc.Root(), pf));
  }

  lemma DocumentClock(doc: Doc)
    requires doc.Timed()
    ensures TimeParse(if doc.at.Some? then doc.at.value.Print() else []) ==
            if doc.at.Some? then Some(doc.at.value.Instant()) else None
  {
    EmptyHasNoTime();
    if doc.at.Some? {
      StampDenotes(doc.at.value);
    }
  }

  lemma DocumentLast(n: Normalizer, doc: Doc, p: Payload)
    requires n.Valid() && doc.Timed() && (p.last.Some? <==> !doc.last.NoLast?)
    requires p.last.Some? ==> p.last.value.timestamp == if doc.last.At? then doc.last.t.Print() else []
    ensures doc.at.Some? ==>
      var ts := doc.at.value.Instant();
      LastAgrees(n, p, ts) <==>
        && (doc.last.Untimed? ==> UntimedAgrees(ts, n.c.maxMinutes))
        && (doc.last.At? ==> ElapsedAgrees(ts, doc.last.t.Instant(), n.c.maxMinutes))
  {
    hide UntimedAgrees, ElapsedAgrees, Denotes;
    if doc.last.At? {
      StampDenotes(doc.last.t);
    }
    hide TimeParse, Stamp.Print, Stamp.Instant;
  }

  /** For every request time or none, every last transaction, with a time or without, or none,
      every list, merchant id and code there is a conforming document, and the cursor's query
      of it is its reference vector exactly as the parts say. */
  lemma DocumentAgrees(n: Normalizer, d: Decoder, doc: Doc, pf: ParseFloat)
    requires n.Valid() && d.Valid() && doc.OK(d)
    ensures Conforms(d, doc.Root(), pf)
    ensures QueryIsReference(n, d, doc.Root(), pf) <==> PartsAgree(n, d, doc)
  {
    hide Doc.Root, Doc.OK, Conforms, PartsAgree, Normalizer.Valid, Decoder.Valid;
    hide VectorsAgree, Print, PayloadOf, Vectorize, QueryOf;
    OKTimed(d, doc);
    DocumentConforms(d, doc, pf);
    DocumentVectors(n, d, doc, pf);
    QueryAgrees(n, d, [], [], doc.Root(), [], pf);
    Alone(Print(Obj([], doc.Root())));
  }

  /** The clock lanes of a document requested in UTC, by the hour and the day that are written
      in it. */
  lemma DocumentClockLanes(n: Normalizer, d: Decoder, doc: Doc, pf: ParseFloat)
    requires n.Valid() && d.Valid() && doc.OK(d)
    requires doc.at.Some? && doc.at.value.zone.Utc? && doc.at.value.date.y >= 1970
    ensures var query, t := QueryOf(n, Print(Obj([], doc.Root())), pf), doc.at.value;
            query.Some? && ClockShares(query.value[3], query.value[4], t.h, (DayNumber(t.date) + 3) % 7)
  {
    hide Doc.OK, Doc.Root, Conforms, PayloadOf, QueryOf, Print, Decoder.Valid, Normalizer.Valid, ClockShares;
    hide SpelledMcc, DayNumber, Stamp.Instant, Stamp.Print, UtcHour, UtcWeekday, TimeParse, Denotes, IsShare, AllSpace;
    OKTimed(d, doc);
    var t := doc.at.value;
    DocumentConforms(d, doc, pf);
    DocumentTimes(d, doc, pf);
    StampClock(t);
    NoSpaces();
    QueryMeans(n, d, [], [], doc.Root(), [], pf);
    Alone(Print(Obj([], doc.Root())));
  }

  lemma OKTimed(d: Decoder, doc: Doc)
    requires doc.OK(d)
    ensures doc.Timed()
  {
  }

  lemma NoSpaces()
    ensures AllSpace([])
  {
  }

  /** A timestamp in UTC is read as the instant with its hour and the weekday of its date. */
  lemma StampClock(t: Stamp)
    requires t.Valid() && t.zone.Utc? && t.date.y >= 1970
    ensures var at := TimeParse(t.Print());
            && at.Some? && at.value >= 0
            && (at.value % 86400) / 3600 == t.h && (at.value / 86400 + 3) % 7 == (DayNumber(t.date) + 3) % 7
  {
    hide DayNumber, TimeParse, Stamp.Print, Stamp.Instant;
    StampDenotes(t);
    SinceEpoch(t);
    UtcParts(t);
  }

  lemma SinceEpoch(t: Stamp)
    requires t.Valid() && t.zone.Utc? && t.date.y >= 1970
    ensures t.Instant() >= 0
  {
    var epoch := Date(1970, 1, 1);
    assert DayNumber(epoch) == 0;
    if epoch.Before(t.date) {
      StrictlyMonotone(epoch, t.date);
      CivilIsDayNumber(epoch);
      CivilIsDayNumber(t.date);
    } else {
      assert t.date == epoch;
    }
  }

  // ---- Each way to differ ----------------------------------------------------------------------

  function Listed(id: bytes, rest: Elems): Elems {
    Elem([], Text(id), [], rest)
  }

  /** The document conforms, and its query is not its reference vector. */
  ghost predicate Differs(n: Normalizer, d: Decoder, doc: Doc, pf: ParseFloat)
    requires n.Valid() && doc.Timed()
  {
    Conforms(d, doc.Root(), pf) && !QueryIsReference(n, d, doc.Root(), pf)
  }

  lemma OneListed(d: Decoder, id: bytes, rest: Elems)
    requires d.Valid() && IsAscii(id) && PlainStrings(rest) && ElemsOK(rest) && StrictElems(rest)
    ensures var es := Listed(id, rest);
            && PlainStrings(es) && ElemsOK(es) && StrictElems(es) && IdsOf(es) == [id] + IdsOf(rest)
            && Separators(es) == if rest.NoElems? then [] else [[','] + rest.pre] + Separators(rest)
  {
    AsciiIsLiteral(d, id);
    hide IsAscii, ContentFrom, StrictFrom;
    if !rest.NoElems? {
      assert [] + [','] + rest.pre == [','] + rest.pre;
    }
  }

  lemma TwoListed(d: Decoder, a: bytes, b: bytes)
    requires d.Valid() && IsAscii(a) && IsAscii(b)
    ensures var es := Listed(a, Listed(b, NoElems));
            && PlainStrings(es) && ElemsOK(es) && StrictElems(es)
            && IdsOf(es) == [a, b] && Separators(es) == [","]
  {
    OneListed(d, b, NoElems);
    OneListed(d, a, Listed(b, NoElems));
    hide IsAscii, PlainStrings, ElemsOK, StrictElems;
    assert [','] + [] == ",";
  }

  lemma AsciiIsLiteral(d: Decoder, t: bytes)
    requires d.Valid() && IsAscii(t)
    ensures d.Literal(t) && IsContent(t) && StrictText(t)
  {
    PlainContent(t, 0);
  }

  lemma EmptyOK(d: Decoder, at: Option<Stamp>, last: Last)
    requires d.Valid() && (at.Some? ==> at.value.Valid()) && (last.At? ==> last.t.Valid())
    ensures Doc(at, NoElems, [], [], last).OK(d)
  {
    assert IsAscii([]);
    AsciiIsLiteral(d, []);
  }

  /** A document without a request time: the empty one is not told apart from one at the epoch. */
  lemma UntimedRequestDiffers(n: Normalizer, d: Decoder, doc: Doc, pf: ParseFloat)
    requires n.Valid() && d.Valid() && doc.OK(d) && doc.at.None?
    ensures Differs(n, d, doc, pf)
  {
    hide Doc.OK, Doc.Root, Conforms, QueryIsReference, Normalizer.Valid, Decoder.Valid;
    DocumentAgrees(n, d, doc, pf);
  }

  /** A last transaction without a time, on a scale of up to a million minutes, in a request of
      this century. */
  lemma UntimedLastDiffers(n: Normalizer, d: Decoder, doc: Doc, pf: ParseFloat)
    requires n.Valid() && d.Valid() && doc.OK(d) && doc.at.Some? && doc.last.Untimed?
    requires doc.at.value.Instant() >= 946_684_800 && 0.0 < n.c.maxMinutes <= 1_000_000.0
    ensures Differs(n, d, doc, pf)
  {
    ScaledTime(doc.at.value.Instant(), n.c.maxMinutes);
    hide Doc.OK, Doc.Root, Conforms, QueryIsReference, Decoder.Valid, Stamp.Instant, UntimedAgrees;
    DocumentAgrees(n, d, doc, pf);
  }

  lemma ScaledTime(ts: int, max: real)
    requires ts >= 946_684_800 && 0.0 < max <= 1_000_000.0
    ensures !UntimedAgrees(ts, max)
  {
    var m := ts as real / 60.0;
    assert (m / max) * max == m;
  }

  const EPOCH: Stamp := Stamp(Date(1970, 1, 1), 0, 0, 0, Utc)
  const YEAR2400: Stamp := Stamp(Date(2400, 1, 1), 0, 0, 0, Utc)

  /** A last transaction more than 292 years before the request, on a scale of 3e8 minutes. */
  lemma LongAgoDiffers(n: Normalizer, d: Decoder, pf: ParseFloat)
    requires n.Valid() && d.Valid() && n.c.maxMinutes == 300_000_000.0
    ensures EPOCH.Valid() && YEAR2400.Valid()
    ensures Differs(n, d, Doc(Some(YEAR2400), NoElems, [], [], At(EPOCH)), pf)
  {
    LongAgo();
    var doc := Doc(Some(YEAR2400), NoElems, [], [], At(EPOCH));
    EmptyOK(d, doc.at, doc.last);
    hide Doc.OK, Doc.Root, Conforms, QueryIsReference, Decoder.Valid, Stamp.Instant, ElapsedAgrees;
    DocumentAgrees(n, d, doc, pf);
  }

  lemma LongAgo()
    ensures EPOCH.Valid() && YEAR2400.Valid() && EPOCH.Instant() == 0 && YEAR2400.Instant() == 13_569_465_600
    ensures Q01((13_569_465_600 as real / 60.0) / 300_000_000.0) == 7539
    ensures Q01(Minutes(Sub(13_569_465_600, 0)) / 300_000_000.0) == 5124
    ensures !ElapsedAgrees(13_569_465_600, 0, 300_000_000.0)
  {
    CivilIsDayNumber(EPOCH.date);
    CivilIsDayNumber(YEAR2400.date);
  }

  /** A merchant called "," is known to the code as soon as two others are listed. */
  lemma CommaDiffers(n: Normalizer, d: Decoder, at: Option<Stamp>, a: bytes, b: bytes, mcc: bytes, last: Last,
                     pf: ParseFloat)
    requires n.Valid() && d.Valid() && (at.Some? ==> at.value.Valid()) && (last.At? ==> last.t.Valid())
    requires IsAscii(a) && IsAscii(b) && IsAscii(mcc) && a != "," && b != ","
    ensures Differs(n, d, Doc(at, Listed(a, Listed(b, NoElems)), ",", mcc, last), pf)
  {
    var doc := Doc(at, Listed(a, Listed(b, NoElems)), ",", mcc, last);
    CommaParts(d, at, a, b, mcc, last);
    hide Doc.OK, Doc.Root, Decoder.Valid, Normalizer.Valid, Conforms, QueryIsReference, IsAscii, RiskAgrees;
    hide PlainStrings, IdsOf, Separators, Listed, MerchantAgrees, ClockAgrees;
    CommaDisagrees(a, b);
    DocumentAgrees(n, d, doc, pf);
  }

  lemma CommaDisagrees(a: bytes, b: bytes)
    requires a != "," && b != ","
    ensures !MerchantAgrees(",", [a, b], [","])
  {
    assert [a, b][0] == a && [","][0] == ",";
  }

  lemma CommaParts(d: Decoder, at: Option<Stamp>, a: bytes, b: bytes, mcc: bytes, last: Last)
    requires d.Valid() && (at.Some? ==> at.value.Valid()) && (last.At? ==> last.t.Valid())
    requires IsAscii(a) && IsAscii(b) && IsAscii(mcc)
    ensures var es := Listed(a, Listed(b, NoElems));
            PlainStrings(es) && Doc(at, es, ",", mcc, last).OK(d) && IdsOf(es) == [a, b] && Separators(es) == [","]
  {
    TwoListed(d, a, b);
    AsciiIsLiteral(d, a);
    AsciiIsLiteral(d, b);
    AsciiIsLiteral(d, mcc);
    AsciiIsLiteral(d, ",");
    hide IsAscii, ContentFrom, StrictFrom, Decoder.Literal, Listed, PlainStrings, ElemsOK, StrictElems;
  }

  /** A code spelled with an escape is looked up as it is spelled. */
  lemma EscapeDiffers(n: Normalizer, d: Decoder, at: Option<Stamp>, last: Last, pf: ParseFloat)
    requires n.Valid() && d.Valid() && (at.Some? ==> at.value.Valid()) && (last.At? ==> last.t.Valid())
    requires d.unquote("54\\u003111") == "5411"
    requires !RiskAgrees(n.Risk("54\\u003111"), n.Risk("5411"))
    ensures Differs(n, d, Doc(at, NoElems, [], "54\\u003111", last), pf)
  {
    var doc := Doc(at, NoElems, [], "54\\u003111", last);
    EscapedContent();
    EmptyOK(d, at, last);
    assert doc.OK(d);
    hide Doc.OK, Doc.Root, Decoder.Valid, Normalizer.Valid, Conforms, QueryIsReference, RiskAgrees;
    DocumentAgrees(n, d, doc, pf);
  }

  lemma EscapedContent()
    ensures IsContent("54\\u003111") && StrictText("54\\u003111")
  {
    var t := "54\\u003111";
    assert ContentFrom(t, 10) && ContentFrom(t, 8) && ContentFrom(t, 6) && ContentFrom(t, 4) && ContentFrom(t, 2);
    assert StrictFrom(t, 10) && StrictFrom(t, 8) && StrictFrom(t, 2);
  }
}
