/** JSON texts (sections 2 to 7 of RFC 8259) as trees that keep the white space between
    tokens and the spelling of numbers and strings, so that printing covers every text of a
    value. */
module JsonText {
  import opened Bytes
  import opened Cursor
  import opened NumberText

  datatype Json =
    | Scalar(text: bytes)
    | Num(lit: NumLit)
    | Text(raw: bytes)
    | Arr(aws: bytes, elems: Elems)
    | Obj(ows: bytes, members: Members)

  datatype Elems = NoElems | Elem(pre: bytes, v: Json, post: bytes, rest: Elems)

  datatype Members =
    | NoMembers
    | Member(pre: bytes, key: bytes, mid1: bytes, mid2: bytes, val: Json, post: bytes, tail: Members)

  // ---- Printing ------------------------------------------------------------------

  function Quoted(raw: bytes): bytes {
    ['"'] + raw + ['"']
  }

  function Print(v: Json): (t: bytes)
    decreases v, 1
  {
    match v
    case Scalar(text) => text
    case Num(lit) => lit.Text()
    case Text(raw) => Quoted(raw)
    case Arr(ws, es) => ['['] + ElemsBody(ws, es) + [']']
    case Obj(ws, ms) => ['{'] + MembersBody(ws, ms) + ['}']
  }

  function ElemsBody(ws: bytes, es: Elems): bytes
    decreases es, 1
  {
    if es.NoElems? then ws else ElemsText(es)
  }

  function MembersBody(ws: bytes, ms: Members): bytes
    decreases ms, 1
  {
    if ms.NoMembers? then ws else MembersText(ms)
  }

  /** The elements with the commas between them. */
  function ElemsText(es: Elems): bytes
    decreases es, 0
  {
    match es
    case NoElems => []
    case Elem(pre, v, post, rest) =>
      Join4(pre, Print(v), post, MoreElems(rest))
  }

  function MoreElems(rest: Elems): bytes
    decreases rest, 1
  {
    if rest.NoElems? then [] else [','] + ElemsText(rest)
  }

  function MoreMembers(rest: Members): bytes
    decreases rest, 1
  {
    if rest.NoMembers? then [] else [','] + MembersText(rest)
  }

  function Join4(a: bytes, b: bytes, c: bytes, d: bytes): (r: bytes)
    ensures |r| == |a| + |b| + |c| + |d|
  {
    a + b + c + d
  }

  function KeyText(ms: Members): bytes
    requires ms.Member?
  {
    Join4(ms.pre, Quoted(ms.key), ms.mid1, [':'] + ms.mid2)
  }

  function MembersText(ms: Members): bytes
    decreases ms, 0
  {
    match ms
    case NoMembers => []
    case Member(_, _, _, _, v, post, tail) =>
      Join4(KeyText(ms), Print(v), post, MoreMembers(tail))
  }

  // ---- Well-formedness -------------------------------------------------------------

  /** White space of section 2 of RFC 8259. */
  predicate AllSpace(t: bytes) {
    forall i :: 0 <= i < |t| ==> t[i] == ' ' || t[i] == '\t' || t[i] == '\n' || t[i] == '\r'
  }

  /** A literal name: nonempty, without quotes, structural characters or space. */
  predicate IsToken(t: bytes) {
    && t != []
    && forall i :: 0 <= i < |t| ==> !IsSpace(t[i]) && t[i] !in "\"{}[],:"
  }

  /** String content from position i on: escapes are pairs, and no quote stands outside
      an escape. */
  predicate ContentFrom(t: bytes, i: nat)
    requires i <= |t|
    decreases |t| - i
  {
    i == |t| || (if t[i] == '\\' then i + 2 <= |t| && ContentFrom(t, i + 2) else t[i] != '"' && ContentFrom(t, i + 1))
  }

  predicate IsContent(t: bytes) {
    ContentFrom(t, 0)
  }

  predicate WellFormed(v: Json)
    decreases v, 1
  {
    match v
    case Scalar(text) => IsToken(text)
    case Num(lit) => lit.Valid()
    case Text(raw) => IsContent(raw)
    case Arr(ws, es) => AllSpace(ws) && ElemsOK(es)
    case Obj(ws, ms) => AllSpace(ws) && MembersOK(ms)
  }

  predicate ElemsOK(es: Elems)
    decreases es, 0
  {
    match es
    case NoElems => true
    case Elem(pre, v, post, rest) => AllSpace(pre) && WellFormed(v) && AllSpace(post) && ElemsOK(rest)
  }

  predicate MembersOK(ms: Members)
    decreases ms, 0
  {
    match ms
    case NoMembers => true
    case Member(pre, key, mid1, mid2, v, post, tail) =>
      && AllSpace(pre) && IsContent(key) && AllSpace(mid1) && AllSpace(mid2)
      && WellFormed(v) && AllSpace(post) && MembersOK(tail)
  }

  // ---- The grammar of RFC 8259 -----------------------------------------------------------

  predicate IsHex(c: byte) {
    IsDigit(c) || 'a' <= c <= 'f' || 'A' <= c <= 'F'
  }

  /** String contents from i on: no control characters, and only the escapes of section 7. */
  predicate StrictFrom(t: bytes, i: nat)
    requires i <= |t|
    decreases |t| - i
  {
    if i == |t| then true
    else if t[i] != '\\' then t[i] >= ' ' && t[i] != '"' && StrictFrom(t, i + 1)
    else if i + 1 < |t| && t[i + 1] in "\"\\/bfnrt" then StrictFrom(t, i + 2)
    else
      && i + 6 <= |t| && t[i + 1] == 'u'
      && IsHex(t[i + 2]) && IsHex(t[i + 3]) && IsHex(t[i + 4]) && IsHex(t[i + 5])
      && StrictFrom(t, i + 6)
  }

  predicate StrictText(t: bytes) {
    StrictFrom(t, 0)
  }

  /** An exponent: letter, optional sign, digits. */
  predicate StrictExponent(e: bytes) {
    var d := if |e| > 1 && IsSign(e[1]) then 2 else 1;
    e == [] || (|e| > d && (e[0] == 'e' || e[0] == 'E') && forall i :: d <= i < |e| ==> IsDigit(e[i]))
  }

  predicate StrictNumber(l: NumLit) {
    (l.whole == "0" || (l.whole != [] && l.whole[0] != '0')) && StrictExponent(l.exp)
  }

  predicate Strict(v: Json)
    decreases v, 1
  {
    match v
    case Scalar(text) => text == "true" || text == "false" || text == "null"
    case Num(lit) => StrictNumber(lit)
    case Text(raw) => StrictText(raw)
    case Arr(_, es) => StrictElems(es)
    case Obj(_, ms) => StrictMembers(ms)
  }

  predicate StrictElems(es: Elems)
    decreases es, 0
  {
    match es
    case NoElems => true
    case Elem(_, v, _, rest) => Strict(v) && StrictElems(rest)
  }

  predicate StrictMembers(ms: Members)
    decreases ms, 0
  {
    match ms
    case NoMembers => true
    case Member(_, key, _, _, v, _, tail) => StrictText(key) && Strict(v) && StrictMembers(tail)
  }

  lemma NumIsToken(l: NumLit)
    requires l.Valid()
    ensures IsToken(l.Text())
  {
    var t := l.Text();
    forall i | 0 <= i < |t|
      ensures !IsSpace(t[i]) && t[i] !in "\"{}[],:"
    {
      assert t[i] in l.Sign() || t[i] in l.whole || t[i] in l.Point() || t[i] in l.exp;
    }
  }

  // ---- Lookup ------------------------------------------------------------------------

  function Keys(ms: Members): set<bytes> {
    match ms
    case NoMembers => {}
    case Member(_, key, _, _, _, _, tail) => {key} + Keys(tail)
  }

  predicate UniqueKeys(ms: Members) {
    ms.NoMembers? || (ms.key !in Keys(ms.tail) && UniqueKeys(ms.tail))
  }

  function Lookup(ms: Members, key: bytes): (v: Json)
    requires key in Keys(ms)
  {
    if ms.key == key then ms.val else Lookup(ms.tail, key)
  }
}
