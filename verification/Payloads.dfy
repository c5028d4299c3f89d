/** Payload documents and the payload that encoding/json makes of one
    (internal/vectorize/vectorize.go). */
module Payloads {
  import opened Numbers
  import opened Bytes
  import opened Cursor
  import opened JsonText
  import opened NumberText
  import opened Merchants
  import opened Parser
  import opened ParseProof
  import opened Vectorizer

  // ---- Decoding of strings and keys --------------------------------------------------------

  /** Unescaped printable ASCII. */
  predicate IsAscii(t: bytes) {
    forall i :: 0 <= i < |t| ==> ' ' <= t[i] <= '~' && t[i] != '"' && t[i] != '\\'
  }

  /** The decoding of string contents and the folding of letter case by encoding/json. Nothing
      is assumed of them but that unescaped ASCII stands for itself (section 7 of RFC 8259). */
  datatype Decoder = Decoder(unquote: bytes -> bytes, fold: bytes -> bytes) {
    ghost predicate Valid() {
      forall t :: IsAscii(t) ==> unquote(t) == t
    }

    /** A text without quotes and backslashes that stands for itself; every such text of
        well-formed UTF-8 does. */
    predicate Literal(t: bytes) {
      PlainId(t) && unquote(t) == t
    }

    /** Which field of a struct a member key is assigned to: the one of that name, or else the
        one of that name in another letter case. */
    predicate Assigns(key: bytes, field: bytes, schema: set<bytes>) {
      if unquote(key) in schema then unquote(key) == field else fold(unquote(key)) == fold(field)
    }

    /** A key that is spelled like a field, or that no field answers to. */
    predicate Clear(key: bytes, schema: set<bytes>) {
      key in schema || (unquote(key) !in schema && forall f :: f in schema ==> fold(unquote(key)) != fold(f))
    }
  }

  predicate KeysClear(d: Decoder, schema: set<bytes>, ms: Members) {
    ms.Member? ==> d.Clear(ms.key, schema) && KeysClear(d, schema, ms.tail)
  }

  /** The values assigned to a field, in the order of the members. */
  function Assigned(d: Decoder, schema: set<bytes>, ms: Members, field: bytes): seq<Json> {
    match ms
    case NoMembers => []
    case Member(_, key, _, _, v, _, tail) =>
      (if d.Assigns(key, field, schema) then [v] else []) + Assigned(d, schema, tail, field)
  }

  /** Field names of the payload types. */
  const ROOT_SCHEMA: set<bytes> := {"id", "transaction", "customer", "merchant", "terminal", "last_transaction"}

  function Schema(k: Kind): set<bytes> {
    match k
    case TransactionObj => {"amount", "installments", "requested_at"}
    case CustomerObj => {"avg_amount", "tx_count_24h", "known_merchants"}
    case MerchantObj => {"id", "mcc", "avg_amount"}
    case TerminalObj => {"is_online", "card_present", "km_from_home"}
    case LastTxObj => {"timestamp", "km_from_current"}
  }

  ghost predicate IsSchema(schema: set<bytes>) {
    forall f :: f in schema ==> IsAscii(f)
  }

  lemma RootNamesAscii()
    ensures IsAscii("id") && IsAscii("transaction") && IsAscii("customer")
    ensures IsAscii("merchant") && IsAscii("terminal") && IsAscii("last_transaction")
  {
  }

  lemma AmountNamesAscii()
    ensures IsAscii("amount") && IsAscii("installments") && IsAscii("requested_at")
    ensures IsAscii("avg_amount") && IsAscii("tx_count_24h") && IsAscii("known_merchants")
  {
  }

  lemma OtherNamesAscii()
    ensures IsAscii("mcc") && IsAscii("is_online") && IsAscii("card_present")
    ensures IsAscii("km_from_home") && IsAscii("timestamp") && IsAscii("km_from_current")
  {
  }

  lemma SchemasAscii(k: Kind)
    ensures IsSchema(ROOT_SCHEMA) && IsSchema(Schema(k))
  {
    hide IsAscii;
    RootNamesAscii();
    AmountNamesAscii();
    OtherNamesAscii();
  }

  /** With clear and unique keys a field is assigned once, from the member that looking up its
      name finds, or never. */
  lemma {:induction false} AssignedIsLookup(d: Decoder, schema: set<bytes>, ms: Members, field: bytes)
    requires d.Valid() && IsSchema(schema) && field in schema
    requires KeysClear(d, schema, ms) && UniqueKeys(ms)
    ensures Assigned(d, schema, ms, field) == if field in Keys(ms) then [Lookup(ms, field)] else []
  {
    if ms.Member? {
      AssignedIsLookup(d, schema, ms.tail, field);
    }
  }

  // ---- The payload a tree stands for: members looked up by key ---------------------------

  function NameOf(k: Kind): (name: bytes)
    ensures SectionOf(name) == Some(k)
  {
    match k
    case TransactionObj => "transaction"
    case CustomerObj => "customer"
    case MerchantObj => "merchant"
    case TerminalObj => "terminal"
    case LastTxObj => "last_transaction"
  }

  /** The members of a section; a missing one counts as empty. */
  function SectionMembers(k: Kind, ms: Members): (r: Members)
  {
    var name := NameOf(k);
    if name in Keys(ms) && Lookup(ms, name).Obj? then Lookup(ms, name).members else NoMembers
  }

  function NumOr(ms: Members, key: bytes, pf: ParseFloat, default: real): real
    requires key in Keys(ms) ==> IsNum(Lookup(ms, key), pf)
  {
    if key in Keys(ms) then NumVal(Lookup(ms, key), pf) else default
  }

  /** The raw contents of a string member, empty when there is none. */
  function RawOf(ms: Members, key: bytes): bytes {
    if key in Keys(ms) && Lookup(ms, key).Text? then Lookup(ms, key).raw else []
  }

  predicate IsBool(v: Json) {
    v == Scalar("true") || v == Scalar("false")
  }

  function BoolOr(ms: Members, key: bytes): bool {
    key in Keys(ms) && Lookup(ms, key) == Scalar("true")
  }

  /** An integer literal that fits an int32. */
  predicate IsInt32(v: Json) {
    && v.Num? && v.lit.Valid() && v.lit.Simple() && v.lit.frac.None?
    && -0x8000_0000 <= IntVal(v) < 0x8000_0000
  }

  function IntVal(v: Json): int
    requires v.Num?
  {
    if v.lit.neg then -(NatOf(v.lit.whole) as int) else NatOf(v.lit.whole)
  }

  function IntOr(ms: Members, key: bytes): int
    requires key in Keys(ms) ==> IsInt32(Lookup(ms, key))
  {
    if key in Keys(ms) then IntVal(Lookup(ms, key)) else 0
  }

  function KnownOf(ms: Members): seq<bytes>
    requires KnownOK(ms)
  {
    if "known_merchants" in Keys(ms) && Lookup(ms, "known_merchants").Arr?
    then IdsOf(Lookup(ms, "known_merchants").elems) else []
  }

  predicate KnownOK(ms: Members) {
    "known_merchants" in Keys(ms) ==>
      var v := Lookup(ms, "known_merchants");
      WellFormed(v) && (IsNull(v) || (v.Arr? && PlainStrings(v.elems)))
  }

  /** The payload types: integers where Go has int, true or false where it has bool, plain
      strings where the code compares raw text. */
  predicate TxTyped(ms: Members) {
    "installments" in Keys(ms) ==> IsInt32(Lookup(ms, "installments"))
  }

  predicate CustomerTyped(d: Decoder, ms: Members) {
    && ("tx_count_24h" in Keys(ms) ==> IsInt32(Lookup(ms, "tx_count_24h")))
    && KnownOK(ms) && forall id :: id in KnownOf(ms) ==> d.Literal(id)
  }

  predicate MerchantTyped(d: Decoder, ms: Members) {
    "id" in Keys(ms) ==> Lookup(ms, "id").Text? && d.Literal(Lookup(ms, "id").raw)
  }

  predicate TerminalTyped(ms: Members) {
    && ("is_online" in Keys(ms) ==> IsBool(Lookup(ms, "is_online")))
    && ("card_present" in Keys(ms) ==> IsBool(Lookup(ms, "card_present")))
  }

  /** A timestamp member, if there, is one without fractional seconds. */
  ghost predicate StampMember(ms: Members, key: bytes) {
    key in Keys(ms) ==> Lookup(ms, key).Text? && exists ts :: Denotes(Lookup(ms, key).raw, ts)
  }

  predicate HasLast(ms: Members) {
    "last_transaction" in Keys(ms) && Lookup(ms, "last_transaction").Obj?
  }

  ghost predicate SectionClear(d: Decoder, k: Kind, ms: Members) {
    UniqueKeys(SectionMembers(k, ms)) && KeysClear(d, Schema(k), SectionMembers(k, ms))
  }

  /** A document that unmarshals into a payload: a JSON text of the payload's types, in which
      no key occurs twice or is another spelling of a field name. Merchant ids stand for
      themselves and timestamps have no fractional seconds. */
  ghost predicate Conforms(d: Decoder, ms: Members, pf: ParseFloat) {
    && StrictMembers(ms) && MembersOK(ms) && RootOK(ms, pf)
    && UniqueKeys(ms) && KeysClear(d, ROOT_SCHEMA, ms)
    && (forall k: Kind :: SectionClear(d, k, ms))
    && ("id" in Keys(ms) ==> Lookup(ms, "id").Text? || IsNull(Lookup(ms, "id")))
    && TxTyped(SectionMembers(TransactionObj, ms))
    && CustomerTyped(d, SectionMembers(CustomerObj, ms))
    && MerchantTyped(d, SectionMembers(MerchantObj, ms))
    && TerminalTyped(SectionMembers(TerminalObj, ms))
    && StampMember(SectionMembers(TransactionObj, ms), "requested_at")
    && StampMember(SectionMembers(LastTxObj, ms), "timestamp")
  }

  lemma {:induction false} LookupOK(k: Kind, ms: Members, key: bytes, pf: ParseFloat)
    requires FieldsOK(k, ms, pf) && key in Keys(ms)
    ensures FieldOK(k, key, Lookup(ms, key), pf)
  {
    hide FieldOK;
    if ms.key != key {
      LookupOK(k, ms.tail, key, pf);
    }
  }

  lemma {:induction false} RootLookupOK(ms: Members, k: Kind, pf: ParseFloat)
    requires RootOK(ms, pf) && NameOf(k) in Keys(ms)
    ensures SectionOK(k, Lookup(ms, NameOf(k)), pf)
  {
    hide SectionOK, SectionOf;
    var name := NameOf(k);
    if ms.key != name {
      RootLookupOK(ms.tail, k, pf);
    } else {
      assert SectionOf(ms.key) == Some(k);
    }
  }

  lemma SectionFieldsOK(k: Kind, ms: Members, pf: ParseFloat)
    requires RootOK(ms, pf)
    ensures FieldsOK(k, SectionMembers(k, ms), pf)
  {
    if NameOf(k) in Keys(ms) {
      RootLookupOK(ms, k, pf);
    }
  }

  /** The payload that unmarshalling the document yields: each field from the member of its
      name, zero values where there is none, no last transaction when null or missing. */
  ghost function PayloadOf(d: Decoder, ms: Members, pf: ParseFloat): Payload
    requires Conforms(d, ms, pf)
  {
    hide FieldsOK, RootOK, SectionOf;
    var tx, cu := SectionMembers(TransactionObj, ms), SectionMembers(CustomerObj, ms);
    var me, te := SectionMembers(MerchantObj, ms), SectionMembers(TerminalObj, ms);
    var la := SectionMembers(LastTxObj, ms);
    SectionsReadable(ms, pf);
    Payload(
      NumOr(tx, "amount", pf, 0.0), IntOr(tx, "installments"), d.unquote(RawOf(tx, "requested_at")),
      NumOr(cu, "avg_amount", pf, 0.0), IntOr(cu, "tx_count_24h"), DecodedIds(d, KnownOf(cu)),
      d.unquote(RawOf(me, "id")), d.unquote(RawOf(me, "mcc")), NumOr(me, "avg_amount", pf, 0.0),
      BoolOr(te, "is_online"), BoolOr(te, "card_present"), NumOr(te, "km_from_home", pf, 0.0),
      if HasLast(ms)
      then Some(LastTransaction(d.unquote(RawOf(la, "timestamp")), NumOr(la, "km_from_current", pf, 0.0)))
      else None)
  }

  /** The strings of a payload. */
  lemma PayloadTexts(d: Decoder, ms: Members, pf: ParseFloat)
    requires Conforms(d, ms, pf)
    ensures var p := PayloadOf(d, ms, pf);
            && p.requestedAt == d.unquote(RawOf(SectionMembers(TransactionObj, ms), "requested_at"))
            && p.merchantId == d.unquote(RawOf(SectionMembers(MerchantObj, ms), "id"))
            && p.merchantMcc == d.unquote(RawOf(SectionMembers(MerchantObj, ms), "mcc"))
            && (p.last.Some? <==> HasLast(ms))
            && (p.last.Some? ==>
                  p.last.value.timestamp == d.unquote(RawOf(SectionMembers(LastTxObj, ms), "timestamp")))
  {
    hide RootOK, FieldsOK, SectionMembers, RawOf, HasLast, NumOr, IntOr, BoolOr, KnownOf, Conforms;
  }

  function DecodedIds(d: Decoder, ids: seq<bytes>): (r: seq<bytes>)
    ensures |r| == |ids| && forall i :: 0 <= i < |r| ==> r[i] == d.unquote(ids[i])
  {
    seq(|ids|, i requires 0 <= i < |ids| => d.unquote(ids[i]))
  }

  /** Every field of a section is unmarshalled from the member that PayloadOf looks up. */
  lemma FieldsAssigned(d: Decoder, k: Kind, ms: Members, pf: ParseFloat, field: bytes)
    requires d.Valid() && Conforms(d, ms, pf) && field in Schema(k)
    ensures var s := SectionMembers(k, ms);
            Assigned(d, Schema(k), s, field) == if field in Keys(s) then [Lookup(s, field)] else []
    ensures Assigned(d, ROOT_SCHEMA, ms, NameOf(k)) == if NameOf(k) in Keys(ms) then [Lookup(ms, NameOf(k))] else []
  {
    hide Schema, RootOK, SectionMembers, KeysClear, UniqueKeys;
    assert SectionClear(d, k, ms);
    SchemasAscii(k);
    NameInSchema(k);
    AssignedIsLookup(d, Schema(k), SectionMembers(k, ms), field);
    AssignedIsLookup(d, ROOT_SCHEMA, ms, NameOf(k));
  }

  lemma NameInSchema(k: Kind)
    ensures NameOf(k) in ROOT_SCHEMA
  {
  }

  lemma SectionsReadable(ms: Members, pf: ParseFloat)
    requires RootOK(ms, pf)
    ensures var tx := SectionMembers(TransactionObj, ms);
            "amount" in Keys(tx) ==> IsNum(Lookup(tx, "amount"), pf)
    ensures var cu := SectionMembers(CustomerObj, ms);
            "avg_amount" in Keys(cu) ==> IsNum(Lookup(cu, "avg_amount"), pf)
    ensures var me := SectionMembers(MerchantObj, ms);
            && ("id" in Keys(me) ==> Lookup(me, "id").Text?)
            && ("mcc" in Keys(me) ==> Lookup(me, "mcc").Text?)
            && ("avg_amount" in Keys(me) ==> IsNum(Lookup(me, "avg_amount"), pf))
    ensures var te := SectionMembers(TerminalObj, ms);
            "km_from_home" in Keys(te) ==> IsNum(Lookup(te, "km_from_home"), pf)
    ensures var la := SectionMembers(LastTxObj, ms);
            "km_from_current" in Keys(la) ==> IsNum(Lookup(la, "km_from_current"), pf)
  {
    ReadableIn(TransactionObj, ms, "amount", pf);
    ReadableIn(CustomerObj, ms, "avg_amount", pf);
    ReadableIn(MerchantObj, ms, "id", pf);
    ReadableIn(MerchantObj, ms, "mcc", pf);
    ReadableIn(MerchantObj, ms, "avg_amount", pf);
    ReadableIn(TerminalObj, ms, "km_from_home", pf);
    ReadableIn(LastTxObj, ms, "km_from_current", pf);
  }

  lemma ReadableIn(k: Kind, ms: Members, key: bytes, pf: ParseFloat)
    requires RootOK(ms, pf)
    ensures key in Keys(SectionMembers(k, ms)) ==> FieldOK(k, key, Lookup(SectionMembers(k, ms), key), pf)
  {
    hide FieldOK, SectionMembers, RootOK;
    SectionFieldsOK(k, ms, pf);
    if key in Keys(SectionMembers(k, ms)) {
      LookupOK(k, SectionMembers(k, ms), key, pf);
    }
  }
}
