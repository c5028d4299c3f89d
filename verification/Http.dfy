/** Request framing of internal/server/handle.go: where a request ends (section 6 of
    RFC 9112), and that pipelined requests (section 9.3.2 of RFC 9112) are cut from the
    stream the same way however the stream arrives. */
module Http {
  import opened Numbers
  import opened Bytes
  import opened Cursor

  const CRLF2: bytes := "\r\n\r\n"
  const CL_HEADER: bytes := "content-length:"

  // ---- Searching ---------------------------------------------------------------------

  /** bytes.Index from position p on: the first occurrence of sub. */
  function IndexFrom(b: bytes, p: nat, sub: bytes): (r: Option<nat>)
    ensures r.Some? ==> p <= r.value && r.value + |sub| <= |b| && At(b, r.value, sub)
    ensures r.Some? ==> forall i: nat :: p <= i < r.value ==> !At(b, i, sub)
    ensures r.None? ==> forall i: nat :: p <= i ==> !At(b, i, sub)
    decreases |b| - p
  {
    if p + |sub| > |b| then None
    else if b[p..p + |sub|] == sub then AtSlice(b, p, sub); Some(p)
    else AtSlice(b, p, sub); IndexFrom(b, p + 1, sub)
  }

  function Lower(c: byte): byte {
    if 'A' <= c <= 'Z' then c + 32 as char else c
  }

  /** sub, a lower-case text, occurs at i when letter case is ignored. */
  predicate FoldsAt(b: bytes, i: nat, sub: bytes) {
    i + |sub| <= |b| && forall k :: 0 <= k < |sub| ==> Lower(b[i + k]) == sub[k]
  }

  /** In bytes: each is that of sub, or the upper-case letter 32 below it. */
  lemma FoldsIff(b: bytes, i: nat, sub: bytes)
    requires forall k :: 0 <= k < |sub| ==> !('A' <= sub[k] <= 'Z')
    ensures FoldsAt(b, i, sub) <==>
            && i + |sub| <= |b|
            && forall k :: 0 <= k < |sub| ==>
                 b[i + k] == sub[k] || ('a' <= sub[k] <= 'z' && b[i + k] as int == sub[k] as int - 32)
  {
  }

  /** The first such position from p on. */
  function FoldFrom(b: bytes, p: nat, sub: bytes): (r: Option<nat>)
    ensures r.Some? ==> p <= r.value && FoldsAt(b, r.value, sub)
    ensures r.Some? ==> forall i: nat :: p <= i < r.value ==> !FoldsAt(b, i, sub)
    ensures r.None? ==> forall i: nat :: p <= i ==> !FoldsAt(b, i, sub)
    decreases |b| - p
  {
    if p + |sub| > |b| then None
    else if FoldsAt(b, p, sub) then Some(p)
    else FoldFrom(b, p + 1, sub)
  }

  method IndexFold(b: bytes, sub: bytes) returns (r: int)
    ensures FoldFrom(b, 0, sub) == if r < 0 then None else Some(r)
  {
    var i := 0;
    while i + |sub| <= |b|
      invariant 0 <= i
      invariant FoldFrom(b, i, sub) == FoldFrom(b, 0, sub)
      decreases |b| - i
    {
      var k := 0;
      while k < |sub|
        invariant 0 <= k <= |sub|
        invariant forall j :: 0 <= j < k ==> Lower(b[i + j]) == sub[j]
      {
        var x := b[i + k];
        if 'A' <= x <= 'Z' {
          x := x + 32 as char;
        }
        if x != sub[k] {
          break;
        }
        k := k + 1;
      }
      if k == |sub| {
        return i;
      }
      i := i + 1;
    }
    return -1;
  }

  // ---- Content length ------------------------------------------------------------------

  function BlanksEnd(b: bytes, p: nat): (e: nat)
    ensures p <= |b| ==> p <= e <= |b|
    decreases |b| - p
  {
    if p < |b| && (b[p] == ' ' || b[p] == '\t') then BlanksEnd(b, p + 1) else p
  }

  /** The decimal value of the digit run at p, appended to n. */
  function RunValue(b: bytes, p: nat, n: nat): nat
    decreases |b| - p
  {
    if p < |b| && IsDigit(b[p]) then RunValue(b, p + 1, n * 10 + DigitVal(b[p])) else n
  }

  /** The same in Go's wrapping int. */
  function RunWrapped(b: bytes, p: nat, n: int): int
    decreases |b| - p
  {
    if p < |b| && IsDigit(b[p]) then RunWrapped(b, p + 1, Wrap64(n * 10 + DigitVal(b[p]))) else n
  }

  const TWO63: int := 0x8000_0000_0000_0000

  /** Wrapping the accumulator before a digit is appended makes no difference. */
  lemma WrapStep(x: int, d: int)
    ensures Wrap64(Wrap64(x) * 10 + d) == Wrap64(x * 10 + d)
  {
    var k := (Wrap64(x) - x) / 0x1_0000_0000_0000_0000;
    assert Wrap64(x) * 10 + d == x * 10 + d + 10 * k * 0x1_0000_0000_0000_0000;
    WrapShift(x * 10 + d, 10 * k);
  }

  lemma WrapShift(x: int, k: int)
    ensures Wrap64(x + k * 0x1_0000_0000_0000_0000) == Wrap64(x)
  {
  }

  /** Go's accumulator is the true value, wrapped once. */
  lemma {:induction false} RunIsWrapped(b: bytes, p: nat, n: nat)
    ensures RunWrapped(b, p, Wrap64(n)) == Wrap64(RunValue(b, p, n))
    decreases |b| - p
  {
    if p < |b| && IsDigit(b[p]) {
      WrapStep(n, DigitVal(b[p]));
      RunIsWrapped(b, p + 1, n * 10 + DigitVal(b[p]));
    }
  }

  /** The declared length, as a number and as Go computes it. */
  function DeclaredLength(head: bytes): nat {
    var i := FoldFrom(head, 0, CL_HEADER);
    if i.None? then 0 else RunValue(head, BlanksEnd(head, i.value + |CL_HEADER|), 0)
  }

  function ContentLen(head: bytes): int {
    var i := FoldFrom(head, 0, CL_HEADER);
    if i.None? then 0 else RunWrapped(head, BlanksEnd(head, i.value + |CL_HEADER|), 0)
  }

  /** The code's length is the declared one exactly when that fits an int. */
  lemma ContentLenIff(head: bytes)
    ensures ContentLen(head) == DeclaredLength(head) <==> DeclaredLength(head) < TWO63
  {
    var i := FoldFrom(head, 0, CL_HEADER);
    if i.Some? {
      RunIsWrapped(head, BlanksEnd(head, i.value + |CL_HEADER|), 0);
    }
  }

  method ContentLength(head: bytes) returns (n: int)
    ensures n == ContentLen(head)
  {
    var i := IndexFold(head, CL_HEADER);
    if i < 0 {
      return 0;
    }
    var j := i + |CL_HEADER|;
    while j < |head| && (head[j] == ' ' || head[j] == '\t')
      invariant i + |CL_HEADER| <= j <= |head|
      invariant BlanksEnd(head, j) == BlanksEnd(head, i + |CL_HEADER|)
    {
      j := j + 1;
    }
    n := 0;
    ghost var start := j;
    while j < |head| && '0' <= head[j] <= '9'
      invariant start <= j <= |head|
      invariant RunWrapped(head, j, n) == RunWrapped(head, start, 0)
    {
      n := Wrap64(n * 10 + DigitVal(head[j]));
      j := j + 1;
    }
  }

  // ---- The header the number comes from ----------------------------------------------------

  /** A field line (section 5 of RFC 9112). */
  datatype Field = Field(name: bytes, value: bytes)

  function PrintFields(fields: seq<Field>): bytes {
    if fields == [] then []
    else "\r\n" + fields[0].name + ":" + fields[0].value + PrintFields(fields[1..])
  }

  /** A head: request line, then field lines. */
  function PrintHead(line: bytes, fields: seq<Field>): bytes {
    line + PrintFields(fields)
  }

  /** Field names are case-insensitive (section 5.1 of RFC 9110). */
  predicate IsContentLength(f: Field) {
    |f.name| == 14 && FoldsAt(f.name, 0, "content-length")
  }

  /** The usual spellings are among them. */
  lemma ContentLengthSpelled(value: bytes)
    ensures IsContentLength(Field("Content-Length", value)) && IsContentLength(Field("content-length", value))
    ensures IsContentLength(Field("CONTENT-LENGTH", value))
  {
    hide Lower;
    LowerLetters();
    UpperLetters();
  }

  lemma LowerLetters()
    ensures Lower('c') == 'c' && Lower('o') == 'o' && Lower('n') == 'n' && Lower('t') == 't' && Lower('e') == 'e'
    ensures Lower('l') == 'l' && Lower('g') == 'g' && Lower('h') == 'h' && Lower('-') == '-'
  {
  }

  lemma UpperLetters()
    ensures Lower('C') == 'c' && Lower('O') == 'o' && Lower('N') == 'n' && Lower('T') == 't' && Lower('E') == 'e'
    ensures Lower('L') == 'l' && Lower('G') == 'g' && Lower('H') == 'h'
  {
  }

  lemma {:induction false} FieldsSplit(fields: seq<Field>, k: nat)
    requires k < |fields|
    ensures PrintFields(fields) ==
            PrintFields(fields[..k]) + ("\r\n" + fields[k].name + ":" + fields[k].value + PrintFields(fields[k + 1..]))
  {
    if k == 0 {
      assert fields[..0] == [];
    } else {
      FieldsSplit(fields[1..], k - 1);
      assert fields[..k][1..] == fields[1..][..k - 1] && fields[1..][k..] == fields[k + 1..];
    }
  }

  /** The header is not found across the line break before a field. */
  lemma FoundBefore(pre: bytes, rest: bytes, i: nat)
    requires i < |pre| + 2
    ensures FoldsAt(pre + "\r\n" + rest, i, CL_HEADER) <==> FoldsAt(pre, i, CL_HEADER)
  {
    var b := pre + "\r\n" + rest;
    if i + 15 > |pre| && i + 15 <= |b| {
      var k := if i <= |pre| then |pre| - i else 0;
      assert Lower(b[i + k]) != CL_HEADER[k];
    }
  }

  /** The number at the start of a field value, after blanks. */
  function FieldNumber(value: bytes): nat {
    RunValue(value, BlanksEnd(value, 0), 0)
  }

  lemma {:induction false} BlanksShift(a: bytes, b: bytes, p: nat)
    ensures BlanksEnd(a + b, |a| + p) == |a| + BlanksEnd(b, p)
    decreases |b| - p
  {
    if p < |b| {
      assert (a + b)[|a| + p] == b[p];
      BlanksShift(a, b, p + 1);
    }
  }

  lemma {:induction false} RunShift(a: bytes, b: bytes, p: nat, n: nat)
    ensures RunValue(a + b, |a| + p, n) == RunValue(b, p, n)
    decreases |b| - p
  {
    if p < |b| {
      assert (a + b)[|a| + p] == b[p];
      RunShift(a, b, p + 1, n * 10 + DigitVal(b[p]));
    }
  }

  /** What follows a field value on the next line does not belong to its number. */
  lemma {:induction false} BlanksStop(v: bytes, rest: bytes, p: nat)
    requires p <= |v| && (rest == [] || rest[0] == '\r')
    ensures BlanksEnd(v + rest, p) == BlanksEnd(v, p)
    decreases |v| - p
  {
    if p < |v| {
      assert (v + rest)[p] == v[p];
      BlanksStop(v, rest, p + 1);
    }
  }

  lemma {:induction false} RunStop(v: bytes, rest: bytes, p: nat, n: nat)
    requires p <= |v| && (rest == [] || rest[0] == '\r')
    ensures RunValue(v + rest, p, n) == RunValue(v, p, n)
    decreases |v| - p
  {
    if p < |v| {
      assert (v + rest)[p] == v[p];
      RunStop(v, rest, p + 1, n * 10 + DigitVal(v[p]));
    }
  }

  lemma FieldNumberStops(v: bytes, rest: bytes)
    requires rest == [] || rest[0] == '\r'
    ensures FieldNumber(v + rest) == FieldNumber(v)
  {
    BlanksStop(v, rest, 0);
    RunStop(v, rest, BlanksEnd(v, 0), 0);
  }

  lemma HeaderAt(before: bytes, f: Field, after: bytes)
    requires IsContentLength(f)
    ensures FoldsAt(before + (f.name + ":" + after), |before|, CL_HEADER)
  {
    var b := before + (f.name + ":" + after);
    forall j | 0 <= j < 15
      ensures Lower(b[|before| + j]) == CL_HEADER[j]
    {
      if j < 14 {
        assert b[|before| + j] == f.name[j] && Lower(f.name[0 + j]) == "content-length"[j];
      }
    }
  }

  lemma FoldFirst(b: bytes, q: nat)
    requires FoldsAt(b, q, CL_HEADER) && forall i: nat :: i < q ==> !FoldsAt(b, i, CL_HEADER)
    ensures FoldFrom(b, 0, CL_HEADER) == Some(q)
  {
    hide FoldsAt;
    var r := FoldFrom(b, 0, CL_HEADER);
    assert r.Some? && r.value <= q;
  }

  lemma HeaderFirst(before: bytes, f: Field, after: bytes)
    requires IsContentLength(f)
    ensures var b := before + "\r\n" + (f.name + ":" + after);
            FoldFrom(b, 0, CL_HEADER) == Some(|before| + 2) <==> FoldFrom(before, 0, CL_HEADER).None?
  {
    HeaderAt(before + "\r\n", f, after);
    FirstIn(before, f.name + ":" + after);
  }

  lemma FirstIn(before: bytes, rest: bytes)
    requires FoldsAt(before + "\r\n" + rest, |before| + 2, CL_HEADER)
    ensures FoldFrom(before + "\r\n" + rest, 0, CL_HEADER) == Some(|before| + 2) <==>
            FoldFrom(before, 0, CL_HEADER).None?
  {
    FoldBound(before);
    hide FoldsAt;
    var b, r := before + "\r\n" + rest, FoldFrom(before, 0, CL_HEADER);
    if r.None? {
      forall i: nat | i < |before| + 2
        ensures !FoldsAt(b, i, CL_HEADER)
      {
        FoundBefore(before, rest, i);
      }
      hide FoldFrom;
      FoldFirst(b, |before| + 2);
    } else {
      FoundBefore(before, rest, r.value);
    }
  }

  lemma FoldBound(b: bytes)
    ensures FoldFrom(b, 0, CL_HEADER).Some? ==> FoldFrom(b, 0, CL_HEADER).value < |b|
  {
  }

  lemma NumberAfter(front: bytes, after: bytes)
    requires |front| >= 15 && FoldFrom(front + after, 0, CL_HEADER) == Some(|front| - 15)
    ensures DeclaredLength(front + after) == FieldNumber(after)
  {
    hide FoldFrom, BlanksEnd, RunValue;
    BlanksShift(front, after, 0);
    RunShift(front, after, BlanksEnd(after, 0), 0);
  }

  lemma HeaderNumber(before: bytes, f: Field, after: bytes)
    requires IsContentLength(f)
    requires FoldFrom(before, 0, CL_HEADER).None?
    ensures DeclaredLength(before + "\r\n" + (f.name + ":" + after)) == FieldNumber(after)
  {
    hide FoldFrom, DeclaredLength, FieldNumber;
    HeaderFirst(before, f, after);
    var front := before + "\r\n" + f.name + ":";
    assert before + "\r\n" + (f.name + ":" + after) == front + after;
    NumberAfter(front, after);
  }

  /** The code reads the number of the Content-Length field exactly when the text
      "content-length:" does not occur, in any case, in the lines before it. */
  lemma ContentLengthField(line: bytes, fields: seq<Field>, k: nat)
    requires k < |fields| && IsContentLength(fields[k])
    ensures var before := PrintHead(line, fields[..k]);
            FoldFrom(PrintHead(line, fields), 0, CL_HEADER) == Some(|before| + 2) <==>
            FoldFrom(before, 0, CL_HEADER).None?
    ensures FoldFrom(PrintHead(line, fields[..k]), 0, CL_HEADER).None? ==>
      DeclaredLength(PrintHead(line, fields)) == FieldNumber(fields[k].value)
  {
    hide FoldFrom, DeclaredLength, FieldNumber, IsContentLength, PrintHead, PrintFields;
    var before, more := PrintHead(line, fields[..k]), PrintFields(fields[k + 1..]);
    var after := fields[k].value + more;
    HeadAround(line, fields, k);
    HeaderFirst(before, fields[k], after);
    if FoldFrom(before, 0, CL_HEADER).None? {
      HeaderNumber(before, fields[k], after);
      NextLine(fields[k + 1..]);
      FieldNumberStops(fields[k].value, more);
    }
  }

  lemma NextLine(fields: seq<Field>)
    ensures PrintFields(fields) == [] || PrintFields(fields)[0] == '\r'
  {
  }

  lemma HeadAround(line: bytes, fields: seq<Field>, k: nat)
    requires k < |fields|
    ensures PrintHead(line, fields) == PrintHead(line, fields[..k]) + "\r\n" +
            (fields[k].name + ":" + (fields[k].value + PrintFields(fields[k + 1..])))
  {
    FieldsSplit(fields, k);
    hide PrintFields;
    Regrouped(line, PrintFields(fields[..k]), fields[k].name, fields[k].value, PrintFields(fields[k + 1..]));
  }

  lemma Regrouped(line: bytes, pre: bytes, name: bytes, value: bytes, more: bytes)
    ensures line + (pre + ("\r\n" + name + ":" + value + more)) == line + pre + "\r\n" + (name + ":" + (value + more))
  {
  }

  lemma NoColon(t: bytes)
    requires ':' !in t
    ensures FoldFrom(t, 0, CL_HEADER).None?
  {
    forall i: nat
      ensures !FoldsAt(t, i, CL_HEADER)
    {
      if i + 15 <= |t| {
        assert t[i + 14] in t && CL_HEADER[14] == ':';
        assert Lower(t[i + 14]) != CL_HEADER[14];
      }
    }
  }

  /** A field whose name only ends like it is taken for it. */
  lemma OtherFieldTaken(line: bytes, x: bytes, f: Field, more: seq<Field>)
    requires ':' !in line && IsContentLength(f) && 'c' !in x && 'C' !in x
    ensures DeclaredLength(PrintHead(line, [Field(x + f.name, f.value)] + more)) == FieldNumber(f.value)
  {
    var fields := [Field(x + f.name, f.value)] + more;
    var front, after := line + "\r\n" + x + f.name + ":", f.value + PrintFields(more);
    assert fields[1..] == more;
    assert PrintHead(line, fields) == front + after;
    OtherFirst(line, x, f, after);
    assert line + "\r\n" + x + (f.name + ":" + after) == front + after;
    hide FoldFrom, DeclaredLength, FieldNumber, FoldsAt;
    NumberAfter(front, after);
    FieldNumberStops(f.value, PrintFields(more));
  }

  lemma OtherFirst(line: bytes, x: bytes, f: Field, after: bytes)
    requires ':' !in line && IsContentLength(f) && 'c' !in x && 'C' !in x
    ensures var front := line + "\r\n" + x;
            FoldFrom(front + (f.name + ":" + after), 0, CL_HEADER) == Some(|front|)
  {
    hide FoldsAt, FoldFrom, IsContentLength;
    var front, rest := line + "\r\n" + x, f.name + ":" + after;
    NoColon(line);
    HeaderAt(front, f, after);
    forall i: nat | i < |front|
      ensures !FoldsAt(front + rest, i, CL_HEADER)
    {
      NotYetFound(line, x, rest, i);
    }
    FoldFirst(front + rest, |front|);
  }

  lemma NotYetFound(line: bytes, x: bytes, rest: bytes, i: nat)
    requires FoldFrom(line, 0, CL_HEADER).None? && 'c' !in x && 'C' !in x && i < |line| + 2 + |x|
    ensures !FoldsAt(line + "\r\n" + x + rest, i, CL_HEADER)
  {
    hide FoldFrom;
    if i < |line| + 2 {
      hide FoldsAt;
      assert line + "\r\n" + x + rest == line + "\r\n" + (x + rest);
      FoundBefore(line, x + rest, i);
    } else {
      WrongStart(line + "\r\n", x, rest, i);
    }
  }

  lemma WrongStart(front: bytes, x: bytes, rest: bytes, i: nat)
    requires 'c' !in x && 'C' !in x && |front| <= i < |front| + |x|
    ensures !FoldsAt(front + x + rest, i, CL_HEADER)
  {
    var b := front + x + rest;
    assert b[i + 0] == x[i - |front|] && x[i - |front|] in x;
    assert Lower(b[i + 0]) != CL_HEADER[0];
  }

  // ---- One request -----------------------------------------------------------------------

  datatype ReqLine = ReqLine(post: bool, path: bytes)

  /** Method and path of the first line; the path is empty when there is no second space. */
  function ParseReqLine(head: bytes): ReqLine {
    var sp := IndexFrom(head, 0, " ");
    if sp.None? then ReqLine(false, [])
    else
      var post, rest := head[..sp.value] == "POST", head[sp.value + 1..];
      var sp2 := IndexFrom(rest, 0, " ");
      ReqLine(post, if sp2.None? then [] else rest[..sp2.value])
  }

  /** The body length a head announces, as a number and as Go computes it. */
  function Announced(head: bytes): nat {
    if ParseReqLine(head).post then DeclaredLength(head) else 0
  }

  function BodyLen(head: bytes): int {
    if ParseReqLine(head).post then ContentLen(head) else 0
  }

  lemma BodyLenWraps(head: bytes)
    ensures BodyLen(head) == Wrap64(Announced(head))
  {
    var i := FoldFrom(head, 0, CL_HEADER);
    if i.Some? {
      RunIsWrapped(head, BlanksEnd(head, i.value + |CL_HEADER|), 0);
    }
  }

  /** The scoring of a body is a parameter; ready and notfound are the fixed responses. */
  datatype Handler = Handler(score: bytes -> bytes, ready: bytes, notfound: bytes) {
    function Respond(line: ReqLine, body: bytes): bytes {
      if line.post && line.path == "/fraud-score" then score(body)
      else if line.path == "/ready" then ready
      else notfound
    }

    /** No response is empty. */
    ghost predicate Answers() {
      ready != [] && notfound != [] && forall body :: score(body) != []
    }
  }

  // ---- What framing should do ------------------------------------------------------------

  datatype Frame = Incomplete | Request(line: ReqLine, body: bytes, total: nat)

  /** The first request of s, with the body its head announces, if all of it is there. */
  function FrameOf(s: bytes): (f: Frame)
    ensures f.Request? ==> 4 <= f.total <= |s|
  {
    var he := IndexFrom(s, 0, CRLF2);
    if he.None? then Incomplete
    else
      var head := s[..he.value];
      var total := he.value + 4 + Announced(head);
      if |s| < total then Incomplete
      else Request(ParseReqLine(head), s[he.value + 4..total], total)
  }

  lemma FirstAt(s: bytes, q: nat, sub: bytes)
    requires At(s, q, sub) && forall i: nat :: i < q ==> !At(s, i, sub)
    ensures IndexFrom(s, 0, sub) == Some(q)
  {
    hide At;
    var r := IndexFrom(s, 0, sub);
    assert r.Some? && r.value <= q;
  }

  /** No line of the head is empty, and it ends within a line. */
  predicate NoBlankLine(head: bytes) {
    forall i :: 0 <= i < |head| && head[i] == '\r' ==> i + 2 < |head| && head[i + 2] != '\r'
  }

  lemma BlankLineAt(head: bytes)
    requires NoBlankLine(head)
    ensures IndexFrom(head + CRLF2, 0, CRLF2) == Some(|head|)
  {
    var s := head + CRLF2;
    forall i: nat | i < |head|
      ensures !At(s, i, CRLF2)
    {
      assert i + 2 < |s| ==> s[i + 0] != CRLF2[0] || s[i + 2] != CRLF2[2];
    }
    assert At(s, |head|, CRLF2);
    FirstAt(s, |head|, CRLF2);
  }

  /** Head, blank line and body are cut back as they were put together, whatever follows. */
  lemma FrameOfText(head: bytes, body: bytes, rest: bytes)
    requires NoBlankLine(head) && |body| == Announced(head)
    ensures FrameOf(head + CRLF2 + body + rest) == Request(ParseReqLine(head), body, |head| + 4 + |body|)
  {
    hide Announced, ParseReqLine, IndexFrom;
    var s := head + CRLF2 + body + rest;
    BlankLineAt(head);
    IndexStable(head + CRLF2, body + rest, 0, CRLF2);
    assert head + CRLF2 + (body + rest) == s;
    assert s[..|head|] == head && s[|head| + 4..|head| + 4 + |body|] == body;
  }

  /** And a request that is cut consists of these parts. */
  lemma TextOfFrame(s: bytes)
    ensures var f := FrameOf(s);
            f.Request? ==>
              var head := s[..f.total - 4 - |f.body|];
              && s[..f.total] == head + CRLF2 + f.body && |f.body| == Announced(head) && f.line == ParseReqLine(head)
  {
    hide Announced, ParseReqLine;
    var he := IndexFrom(s, 0, CRLF2);
    if he.Some? {
      assert s[he.value..he.value + 4] == CRLF2;
    }
  }

  // ---- What a request line asks for --------------------------------------------------------

  lemma SpaceAt(verb: bytes, rest: bytes)
    requires ' ' !in verb
    ensures IndexFrom(verb + " " + rest, 0, " ") == Some(|verb|)
  {
    var s := verb + " " + rest;
    forall i: nat | i < |verb|
      ensures !At(s, i, " ")
    {
      assert s[i + 0] == verb[i] && verb[i] in verb && " "[0] == ' ';
    }
    assert At(s, |verb|, " ");
    FirstAt(s, |verb|, " ");
  }

  lemma NoSpace(t: bytes)
    requires ' ' !in t
    ensures IndexFrom(t, 0, " ").None?
  {
    forall i: nat | i < |t|
      ensures !At(t, i, " ")
    {
      assert t[i + 0] in t && " "[0] == ' ';
    }
  }

  lemma LineRead(verb: bytes, path: bytes, rest: bytes)
    requires ' ' !in verb && ' ' !in path
    ensures ParseReqLine(verb + " " + path + " " + rest) == ReqLine(verb == "POST", path)
  {
    var head := verb + " " + path + " " + rest;
    var tail := path + " " + rest;
    assert head == verb + " " + tail;
    SpaceAt(verb, tail);
    SpaceAt(path, rest);
    assert head[..|verb|] == verb && head[|verb| + 1..] == tail && tail[..|path|] == path;
  }

  lemma ShortLineRead(verb: bytes, rest: bytes)
    requires ' ' !in verb && ' ' !in rest
    ensures ParseReqLine(verb) == ReqLine(false, [])
    ensures ParseReqLine(verb + " " + rest) == ReqLine(verb == "POST", [])
  {
    NoSpace(verb);
    NoSpace(rest);
    SpaceAt(verb, rest);
    var head := verb + " " + rest;
    assert head[..|verb|] == verb && head[|verb| + 1..] == rest;
  }

  /** A request, written out, and what comes after it: POST /fraud-score is scored, any /ready is
      answered as ready, everything else is not found. Only POST has a body. */
  lemma RequestAnswered(h: Handler, verb: bytes, path: bytes, tail: bytes, body: bytes, rest: bytes)
    requires ' ' !in verb && ' ' !in path && NoBlankLine(verb + " " + path + " " + tail)
    requires |body| == if verb == "POST" then DeclaredLength(verb + " " + path + " " + tail) else 0
    ensures var next := Consume(h, rest);
            var answer :=
              if verb == "POST" && path == "/fraud-score" then h.score(body)
              else if path == "/ready" then h.ready
              else h.notfound;
            Consume(h, verb + " " + path + " " + tail + "\r\n\r\n" + body + rest) ==
              Outcome(answer + next.responses, next.leftover)
  {
    hide DeclaredLength, ParseReqLine, FrameOf;
    var head := verb + " " + path + " " + tail;
    LineRead(verb, path, tail);
    FrameOfText(head, body, rest);
    var s := head + CRLF2 + body + rest;
    assert s[|head| + 4 + |body|..] == rest;
  }

  /** A POST of a body, with its length as clients write it, is scored with exactly that body:
      whatever the other fields, as long as none before it mentions a content length. */
  lemma PostScored(h: Handler, version: bytes, fields: seq<Field>, k: nat, blanks: bytes, body: bytes, rest: bytes)
    requires k < |fields| && IsContentLength(fields[k]) && fields[k].value == blanks + Digits(|body|)
    requires forall i :: 0 <= i < |blanks| ==> blanks[i] == ' ' || blanks[i] == '\t'
    requires var line := "POST /fraud-score " + version;
             NoBlankLine(PrintHead(line, fields)) && FoldFrom(PrintHead(line, fields[..k]), 0, CL_HEADER).None?
    ensures var next := Consume(h, rest);
            Consume(h, PrintHead("POST /fraud-score " + version, fields) + "\r\n\r\n" + body + rest) ==
              Outcome(h.score(body) + next.responses, next.leftover)
  {
    var line := "POST /fraud-score " + version;
    hide FoldFrom, DeclaredLength, FieldNumber, IsContentLength, PrintFields, NoBlankLine, Digits, Consume;
    ContentLengthField(line, fields, k);
    FieldNumberOf(blanks, |body|);
    PostLineIs(version, PrintFields(fields));
    RequestAnswered(h, "POST", "/fraud-score", version + PrintFields(fields), body, rest);
  }

  lemma PostLineIs(version: bytes, more: bytes)
    ensures "POST" + " " + "/fraud-score" + " " + (version + more) == ("POST /fraud-score " + version) + more
    ensures ' ' !in "POST" && ' ' !in "/fraud-score"
  {
    assert "POST" + " " + "/fraud-score" + " " == "POST /fraud-score ";
  }

  /** A first line without a path is not found either; with a second word it can be a POST. */
  lemma ShortLineAnswered(h: Handler, verb: bytes, word: bytes, body: bytes, rest: bytes)
    requires ' ' !in verb && ' ' !in word && NoBlankLine(verb) && NoBlankLine(verb + " " + word)
    requires |body| == if verb == "POST" then DeclaredLength(verb + " " + word) else 0
    ensures var next := Consume(h, rest);
            && Consume(h, verb + "\r\n\r\n" + rest) == Outcome(h.notfound + next.responses, next.leftover)
            && Consume(h, verb + " " + word + "\r\n\r\n" + body + rest) ==
               Outcome(h.notfound + next.responses, next.leftover)
  {
    hide DeclaredLength, ParseReqLine, FrameOf;
    ShortLineRead(verb, word);
    FrameOfText(verb, [], rest);
    assert verb + CRLF2 + [] + rest == verb + CRLF2 + rest;
    assert (verb + CRLF2 + rest)[|verb| + 4..] == rest;
    var head := verb + " " + word;
    FrameOfText(head, body, rest);
    assert (head + CRLF2 + body + rest)[|head| + 4 + |body|..] == rest;
  }

  // ---- Framing as RFC 9112 has it --------------------------------------------------------

  /** A Content-Length gives a request of any method a body (section 6 of RFC 9112). */
  function RfcFrameOf(s: bytes): Frame {
    var he := IndexFrom(s, 0, CRLF2);
    if he.None? then Incomplete
    else
      var head := s[..he.value];
      var total := he.value + 4 + DeclaredLength(head);
      if |s| < total then Incomplete
      else Request(ParseReqLine(head), s[he.value + 4..total], total)
  }

  /** The frames are the same exactly for POST, and for heads that declare no body. */
  lemma RfcFrameIff(s: bytes)
    ensures FrameOf(s) == RfcFrameOf(s) <==>
            var he := IndexFrom(s, 0, CRLF2);
            he.None? || ParseReqLine(s[..he.value]).post || DeclaredLength(s[..he.value]) == 0
  {
    hide DeclaredLength, ParseReqLine, IndexFrom;
  }

  /** After a head of any other method the body it declares is read as the next request. */
  lemma BodyAsRequest(h: Handler, head: bytes, rest: bytes)
    requires NoBlankLine(head) && !ParseReqLine(head).post
    ensures var next := Consume(h, rest);
            Consume(h, head + CRLF2 + rest) ==
              Outcome(h.Respond(ParseReqLine(head), []) + next.responses, next.leftover)
  {
    FrameOfText(head, [], rest);
    hide FrameOf, ParseReqLine;
    var s := head + CRLF2 + rest;
    assert head + CRLF2 + [] + rest == s && s[|head| + 4..] == rest;
  }

  datatype Outcome = Outcome(responses: bytes, leftover: bytes)

  /** All complete requests of s answered in order, and the unconsumed rest. */
  function Consume(h: Handler, s: bytes): Outcome
    decreases |s|
  {
    match FrameOf(s)
    case Incomplete => Outcome([], s)
    case Request(line, body, total) =>
      var rest := Consume(h, s[total..]);
      Outcome(h.Respond(line, body) + rest.responses, rest.leftover)
  }

  // ---- Independence of chunking --------------------------------------------------------------

  lemma {:induction false} IndexStable(s: bytes, t: bytes, p: nat, sub: bytes)
    requires IndexFrom(s, p, sub).Some?
    ensures IndexFrom(s + t, p, sub) == IndexFrom(s, p, sub)
    decreases |s| - p
  {
    assert (s + t)[p..p + |sub|] == s[p..p + |sub|];
    if s[p..p + |sub|] != sub {
      IndexStable(s, t, p + 1, sub);
    }
  }

  /** A request that is complete in s is the same one in any longer stream. */
  lemma FrameStable(s: bytes, t: bytes)
    ensures FrameOf(s).Request? ==> FrameOf(s + t) == FrameOf(s)
  {
    hide Announced, ParseReqLine;
    var he := IndexFrom(s, 0, CRLF2);
    if he.Some? {
      IndexStable(s, t, 0, CRLF2);
      assert (s + t)[..he.value] == s[..he.value];
      if FrameOf(s).Request? {
        assert (s + t)[he.value + 4..FrameOf(s).total] == s[he.value + 4..FrameOf(s).total];
      }
    }
  }

  /** Consuming a prefix first, and then what is left of it with the rest, is consuming the
      whole: the responses so far depend on no later byte. */
  lemma {:induction false} ConsumeSplit(h: Handler, s: bytes, t: bytes)
    ensures var a := Consume(h, s);
            var b := Consume(h, a.leftover + t);
            Consume(h, s + t) == Outcome(a.responses + b.responses, b.leftover)
    decreases |s|
  {
    hide FrameOf, Handler.Respond;
    FrameStable(s, t);
    match FrameOf(s)
    case Incomplete =>
    case Request(line, body, total) =>
      var rest := s[total..];
      assert (s + t)[total..] == rest + t;
      ConsumeSplit(h, rest, t);
      var a, whole := Consume(h, rest), Consume(h, rest + t);
      var r := h.Respond(line, body);
      assert Consume(h, s) == Outcome(r + a.responses, a.leftover);
      assert Consume(h, s + t) == Outcome(r + whole.responses, whole.leftover);
      hide Consume;
      Associates(r, a.responses, Consume(h, a.leftover + t).responses);
  }

  lemma Associates(a: bytes, b: bytes, c: bytes)
    ensures a + (b + c) == (a + b) + c
  {
  }

  /** What is left over is a tail of the stream and holds no complete request. */
  lemma {:induction false} LeftoverIncomplete(h: Handler, s: bytes)
    ensures var left := Consume(h, s).leftover;
            && |left| <= |s| && s[|s| - |left|..] == left
            && FrameOf(left).Incomplete? && Consume(h, left) == Outcome([], left)
    decreases |s|
  {
    hide FrameOf;
    match FrameOf(s)
    case Incomplete =>
    case Request(line, body, total) =>
      LeftoverIncomplete(h, s[total..]);
      var left := Consume(h, s).leftover;
      assert s[|s| - |left|..] == s[total..][|s| - total - |left|..];
  }

  function Concat(chunks: seq<bytes>): bytes {
    if chunks == [] then [] else chunks[0] + Concat(chunks[1..])
  }

  /** Feeding the buffer chunk by chunk. */
  function Feed(h: Handler, buffer: bytes, chunks: seq<bytes>): Outcome
    decreases |chunks|
  {
    if chunks == [] then Outcome([], buffer)
    else
      var a := Consume(h, buffer + chunks[0]);
      var b := Feed(h, a.leftover, chunks[1..]);
      Outcome(a.responses + b.responses, b.leftover)
  }

  /** However the stream is split into reads, the accumulated responses and the leftover are
      those of one read of the whole. */
  lemma {:induction false} ChunkingIrrelevant(h: Handler, buffer: bytes, chunks: seq<bytes>)
    requires FrameOf(buffer).Incomplete?
    ensures Feed(h, buffer, chunks) == Consume(h, buffer + Concat(chunks))
    decreases |chunks|
  {
    hide FrameOf;
    if chunks == [] {
      assert buffer + Concat(chunks) == buffer;
    } else {
      var s, t := buffer + chunks[0], Concat(chunks[1..]);
      assert s + t == buffer + Concat(chunks);
      ConsumeSplit(h, s, t);
      LeftoverIncomplete(h, s);
      ChunkingIrrelevant(h, Consume(h, s).leftover, chunks[1..]);
    }
  }

  // ---- What the code's arithmetic does ---------------------------------------------------------

  /** One turn of handle's loop at off. Astray: the computed end lies before the end of the
      head, so the body or the next turn slices out of range, or the loop runs backwards. */
  datatype Cut = Stop | Take(line: ReqLine, body: bytes, next: nat) | Astray

  function CutAt(s: bytes, off: nat): (c: Cut)
    requires off <= |s|
    ensures c.Take? ==> off + 4 <= c.next <= |s|
  {
    var he := IndexFrom(s[off..], 0, CRLF2);
    if he.None? then Stop
    else
      var headEnd := off + he.value;
      var head := s[off..headEnd];
      var total := Wrap64(headEnd + 4 + BodyLen(head));
      if |s| < total then Stop
      else if total < headEnd + 4 then Astray
      else Take(ParseReqLine(head), s[headEnd + 4..total], total)
  }

  /** Where the request at off ends by its head, as a position in s. */
  function DeclaredEnd(s: bytes, off: nat): (e: Option<nat>)
    requires off <= |s|
    ensures e.Some? ==> e.value >= off + 4
  {
    var he := IndexFrom(s[off..], 0, CRLF2);
    if he.None? then None else Some(off + he.value + 4 + Announced(s[off..off + he.value]))
  }

  /** The end fits Go's int, or wraps to a number past the buffer. */
  predicate EndFits(s: bytes, off: nat)
    requires off <= |s|
  {
    var e := DeclaredEnd(s, off);
    e.Some? ==> e.value < TWO63 || Wrap64(e.value) > |s|
  }

  function AsCut(f: Frame, off: nat): Cut {
    match f
    case Incomplete => Stop
    case Request(line, body, total) => Take(line, body, off + total)
  }

  lemma WrapSum(a: int, b: int)
    ensures Wrap64(a + Wrap64(b)) == Wrap64(a + b)
  {
    WrapShift(a + b, (Wrap64(b) - b) / 0x1_0000_0000_0000_0000);
  }

  /** The computed end is the declared one, wrapped once. */
  lemma CutEnd(s: bytes, off: nat)
    requires off <= |s| && DeclaredEnd(s, off).Some?
    ensures var he := IndexFrom(s[off..], 0, CRLF2).value;
            Wrap64(off + he + 4 + BodyLen(s[off..off + he])) == Wrap64(DeclaredEnd(s, off).value)
  {
    hide BodyLen, Announced;
    var he := IndexFrom(s[off..], 0, CRLF2).value;
    BodyLenWraps(s[off..off + he]);
    WrapSum(off + he + 4, Announced(s[off..off + he]));
  }

  lemma WrapSmall(x: int)
    ensures 0 <= x < TWO63 ==> Wrap64(x) == x
  {
  }

  /** The code cuts the declared frame exactly when its end fits. */
  lemma CutIsFrame(s: bytes, off: nat)
    requires off <= |s| < TWO63
    ensures CutAt(s, off) == AsCut(FrameOf(s[off..]), off) <==> EndFits(s, off)
  {
    hide BodyLen, Announced, ParseReqLine, IndexFrom, Wrap64;
    var rest := s[off..];
    var he := IndexFrom(rest, 0, CRLF2);
    if he.Some? {
      var headEnd := off + he.value;
      assert s[off..headEnd] == rest[..he.value];
      CutEnd(s, off);
      var e := DeclaredEnd(s, off).value;
      WrapSmall(e);
      if e <= |s| {
        assert s[headEnd + 4..e] == rest[he.value + 4..e - off];
      }
    }
  }

  /** A declared end in [2^63, 2^64) always goes astray. */
  lemma LongGoesAstray(s: bytes, off: nat)
    requires off <= |s| && DeclaredEnd(s, off).Some? && TWO63 <= DeclaredEnd(s, off).value < 2 * TWO63
    ensures CutAt(s, off).Astray?
  {
    hide BodyLen, Announced, ParseReqLine, IndexFrom;
    CutEnd(s, off);
  }

  lemma PostLine(head: bytes)
    requires |head| >= 5 && head[..4] == "POST" && head[4] == ' '
    ensures ParseReqLine(head).post
  {
    var start := head[..4];
    assert start[0] == 'P' && start[1] == 'O' && start[2] == 'S' && start[3] == 'T';
    forall i: nat | i < 4
      ensures !At(head, i, " ")
    {
      assert head[i + 0] == start[i] != ' ' && " "[0] == ' ';
    }
    assert head[4 + 0] == " "[0];
    FirstAt(head, 4, " ");
  }

  /** For every number from 2^63 - |head| - 4 on: a length that itself fits an int can still
      push the end past it, and the code goes astray on the head alone, where a correct reader
      waits for the body. */
  lemma LongBody(h: Handler, head: bytes)
    requires |head| < 0x1000_0000 && ParseReqLine(head).post
    requires TWO63 - |head| - 4 <= DeclaredLength(head) < TWO63
    requires NoBlankLine(head)
    ensures var s := head + CRLF2;
            ContentLen(head) == DeclaredLength(head) && FrameOf(s).Incomplete? && CutAt(s, 0).Astray?
            && HandleFrom(h, s, 0).Lost? && !Fits(s)
  {
    hide DeclaredLength, ParseReqLine, IndexFrom, BodyLen;
    var s := head + CRLF2;
    BlankLineAt(head);
    ContentLenIff(head);
    assert s[0..] == s && s[..|head|] == head;
    assert DeclaredEnd(s, 0) == Some(|head| + 4 + DeclaredLength(head));
    LongGoesAstray(s, 0);
  }

  lemma OneField(line: bytes, f: Field)
    requires '\r' !in line && '\r' !in f.name && '\r' !in f.value && f.name != []
    ensures var head := PrintHead(line, [f]);
            && |head| == |line| + |f.name| + |f.value| + 3 && head[..|line|] == line
            && NoBlankLine(head)
  {
    var rest := f.name + ":" + f.value;
    assert PrintFields([f]) == "\r\n" + f.name + ":" + f.value + [];
    assert PrintHead(line, [f]) == line + "\r\n" + rest;
    assert rest[0] == f.name[0];
    var head := line + "\r\n" + rest;
    forall i | 0 <= i < |head| && i != |line|
      ensures head[i] != '\r'
    {
      if i < |line| {
        assert line[i] in line;
      } else if i > |line| + 1 {
        assert head[i] == rest[i - |line| - 2] && rest[i - |line| - 2] in rest;
      }
    }
  }

  function Digits(n: nat): (d: bytes)
    ensures d != [] && forall c :: c in d ==> IsDigit(c)
  {
    if n < 10 then [DigitChar(n)] else Digits(n / 10) + [DigitChar(n % 10)]
  }

  lemma {:induction false} RunAppend(a: bytes, c: byte, p: nat, n: nat)
    requires p <= |a| && IsDigit(c) && forall i :: 0 <= i < |a| ==> IsDigit(a[i])
    ensures RunValue(a + [c], p, n) == RunValue(a, p, n) * 10 + DigitVal(c)
    decreases |a| - p
  {
    assert (a + [c])[p] == if p < |a| then a[p] else c;
    if p < |a| {
      RunAppend(a, c, p + 1, n * 10 + DigitVal(a[p]));
    } else {
      assert RunValue(a + [c], p + 1, n * 10 + DigitVal(c)) == n * 10 + DigitVal(c);
    }
  }

  lemma {:induction false} DigitsRead(n: nat)
    ensures RunValue(Digits(n), 0, 0) == n
  {
    if n >= 10 {
      DigitsRead(n / 10);
      assert forall i :: 0 <= i < |Digits(n / 10)| ==> Digits(n / 10)[i] in Digits(n / 10);
      RunAppend(Digits(n / 10), DigitChar(n % 10), 0, 0);
    } else {
      assert RunValue([DigitChar(n)], 1, n) == n;
    }
  }

  /** Blanks and then a number in decimal digits, as a field value. */
  lemma FieldNumberOf(blanks: bytes, n: nat)
    requires forall i :: 0 <= i < |blanks| ==> blanks[i] == ' ' || blanks[i] == '\t'
    ensures FieldNumber(blanks + Digits(n)) == n
  {
    BlanksOver(blanks, Digits(n), 0);
    DigitsRead(n);
    RunShift(blanks, Digits(n), 0, 0);
  }

  lemma {:induction false} BlanksOver(blanks: bytes, rest: bytes, p: nat)
    requires forall i :: 0 <= i < |blanks| ==> blanks[i] == ' ' || blanks[i] == '\t'
    requires p <= |blanks| && rest != [] && IsDigit(rest[0])
    ensures BlanksEnd(blanks + rest, p) == |blanks|
    decreases |blanks| - p
  {
    assert (blanks + rest)[p] == if p < |blanks| then blanks[p] else rest[0];
    if p < |blanks| {
      BlanksOver(blanks, rest, p + 1);
    }
  }

  lemma {:induction false} DigitsShort(n: nat, k: nat)
    requires 0 < k && n < Pow10(k)
    ensures |Digits(n)| <= k
  {
    if n >= 10 {
      DigitsShort(n / 10, k - 1);
    }
  }

  lemma DigitsBelow(n: nat)
    requires n < TWO63
    ensures |Digits(n)| <= 19
  {
    assert Pow10(3) == 1000 && Pow10(6) == 1000 * Pow10(3) by {
      assert Pow10(1) == 10 && Pow10(5) == 100 * Pow10(3);
    }
    assert Pow10(8) == 100 * Pow10(6) && Pow10(10) == 100 * Pow10(8) && Pow10(12) == 100 * Pow10(10);
    assert Pow10(14) == 100 * Pow10(12) && Pow10(16) == 100 * Pow10(14) && Pow10(18) == 100 * Pow10(16);
    assert Pow10(19) == 10 * Pow10(18);
    DigitsShort(n, 19);
  }

  lemma DigitsField(n: nat)
    ensures FieldNumber(Digits(n)) == n && '\r' !in Digits(n)
  {
    DigitsRead(n);
    assert Digits(n)[0] in Digits(n);
  }

  lemma PlainLine()
    ensures var line := "POST /fraud-score HTTP/1.1";
            '\r' !in line && ':' !in line && |line| == 26 && line[..4] == "POST" && line[4] == ' '
  {
  }

  /** Heads with such lengths, written out, with any spelling of the field name. */
  lemma FailingHead(h: Handler, name: bytes, n: nat)
    requires TWO63 - 44 <= n < TWO63 && IsContentLength(Field(name, Digits(n)))
    ensures var s := PrintHead("POST /fraud-score HTTP/1.1", [Field(name, Digits(n))]) + CRLF2;
            FrameOf(s).Incomplete? && HandleFrom(h, s, 0).Lost? && !Fits(s)
  {
    PlainLine();
    DigitsField(n);
    DigitsBelow(n);
    NameHasNoBreak(Field(name, Digits(n)));
    hide Digits, FieldNumber, IsContentLength, FoldFrom, DeclaredLength, IndexFrom, Fits;
    hide ParseReqLine, CutAt, FrameOf, HandleFrom;
    LongField(h, "POST /fraud-score HTTP/1.1", Field(name, Digits(n)));
  }

  lemma NameHasNoBreak(f: Field)
    requires IsContentLength(f)
    ensures '\r' !in f.name
  {
    forall i | 0 <= i < 14
      ensures f.name[i] != '\r'
    {
      assert Lower(f.name[0 + i]) == "content-length"[i] != '\r';
    }
  }

  lemma LongField(h: Handler, line: bytes, f: Field)
    requires '\r' !in line && ':' !in line && |line| == 26 && line[..4] == "POST" && line[4] == ' '
    requires IsContentLength(f) && '\r' !in f.name && '\r' !in f.value && |f.value| < 100
    requires TWO63 - 44 <= FieldNumber(f.value) < TWO63
    ensures var s := PrintHead(line, [f]) + CRLF2;
            FrameOf(s).Incomplete? && HandleFrom(h, s, 0).Lost? && !Fits(s)
  {
    NoColon(line);
    assert [f][..0] == [] && PrintHead(line, []) == line;
    hide FieldNumber, FoldFrom, DeclaredLength, IndexFrom, Fits, PrintHead;
    hide ParseReqLine, CutAt, FrameOf, HandleFrom;
    var head := PrintHead(line, [f]);
    ContentLengthField(line, [f], 0);
    OneField(line, f);
    assert head[..4] == head[..|line|][..4] && head[4] == head[..|line|][4];
    PostLine(head);
    LongBody(h, head);
  }

  /** handle over a whole buffer. */
  datatype Handled = Lost | Done(outcome: Outcome)

  function HandleFrom(h: Handler, s: bytes, off: nat): Handled
    requires off <= |s|
    decreases |s| - off
  {
    match CutAt(s, off)
    case Stop => Done(Outcome([], s[off..]))
    case Astray => Lost
    case Take(line, body, next) =>
      match HandleFrom(h, s, next)
      case Lost => Lost
      case Done(o) => Done(Outcome(h.Respond(line, body) + o.responses, o.leftover))
  }

  /** The requests of a stream all fit when the end that the unfinished one declares does. */
  ghost predicate Fits(s: bytes) {
    |s| < TWO63 && EndFits(s, Reach(s))
  }

  /** Where the complete requests of s end. */
  function Reach(s: bytes): (r: nat)
    ensures r <= |s|
    decreases |s|
  {
    match FrameOf(s)
    case Incomplete => 0
    case Request(_, _, total) => total + Reach(s[total..])
  }

  lemma {:induction false} ReachIsLeftover(h: Handler, s: bytes)
    ensures s[Reach(s)..] == Consume(h, s).leftover
    decreases |s|
  {
    hide FrameOf;
    match FrameOf(s)
    case Incomplete =>
    case Request(line, body, total) =>
      ReachIsLeftover(h, s[total..]);
      assert s[Reach(s)..] == s[total..][Reach(s[total..])..];
  }

  lemma {:induction false} HandleIffFrom(h: Handler, s: bytes, off: nat)
    requires off <= |s| < TWO63
    ensures EndFits(s, off + Reach(s[off..])) ==> HandleFrom(h, s, off) == Done(Consume(h, s[off..]))
    ensures h.Answers() && HandleFrom(h, s, off) == Done(Consume(h, s[off..])) ==> EndFits(s, off + Reach(s[off..]))
    decreases |s| - off
  {
    hide CutAt, FrameOf, EndFits, DeclaredEnd, Handler.Respond, Handler.Answers;
    CutIsFrame(s, off);
    var rest := s[off..];
    match FrameOf(rest)
    case Incomplete =>
      CutAnswers(h, s, off);
    case Request(line, body, total) =>
      CompleteFits(s, off);
      assert rest[total..] == s[off + total..];
      HandleIffFrom(h, s, off + total);
      Answered(h, line, body, HandleFrom(h, s, off + total), Consume(h, rest[total..]));
  }

  lemma CompleteFits(s: bytes, off: nat)
    requires off <= |s| < TWO63 && FrameOf(s[off..]).Request?
    ensures EndFits(s, off)
  {
    hide Announced, IndexFrom, ParseReqLine;
    var rest := s[off..];
    var he := IndexFrom(rest, 0, CRLF2).value;
    assert rest[..he] == s[off..off + he];
  }

  lemma Answered(h: Handler, line: ReqLine, body: bytes, x: Handled, y: Outcome)
    ensures var r := h.Respond(line, body);
            (x.Done? && Outcome(r + x.outcome.responses, x.outcome.leftover) == Outcome(r + y.responses, y.leftover))
            <==> x == Done(y)
  {
    var r := h.Respond(line, body);
    if x.Done? && r + x.outcome.responses == r + y.responses {
      assert (r + x.outcome.responses)[|r|..] == x.outcome.responses;
      assert (r + y.responses)[|r|..] == y.responses;
    }
  }

  /** Where no request is complete, a cut that does not stop answers something. */
  lemma CutAnswers(h: Handler, s: bytes, off: nat)
    requires off <= |s|
    ensures CutAt(s, off).Stop? ==> HandleFrom(h, s, off) == Done(Outcome([], s[off..]))
    ensures h.Answers() && HandleFrom(h, s, off) == Done(Outcome([], s[off..])) ==> CutAt(s, off).Stop?
  {
    hide CutAt;
    match CutAt(s, off)
    case Stop =>
    case Astray =>
    case Take(line, body, next) =>
      assert h.Answers() ==> h.Respond(line, body) != [];
  }

  /** On every buffer: the loop answers what it should exactly when the declared ends fit. */
  lemma HandleIff(h: Handler, s: bytes)
    requires |s| < TWO63
    ensures Fits(s) ==> HandleFrom(h, s, 0) == Done(Consume(h, s))
    ensures h.Answers() ==> (HandleFrom(h, s, 0) == Done(Consume(h, s)) <==> Fits(s))
  {
    hide HandleFrom, Consume, EndFits, Reach, Handler.Answers;
    assert s[0..] == s;
    HandleIffFrom(h, s, 0);
  }

  // ---- Over every way of splitting the stream ------------------------------------------------------

  /** Handing the stream to handle chunk by chunk. */
  function FeedCode(h: Handler, buffer: bytes, chunks: seq<bytes>): Handled
    decreases |chunks|
  {
    if chunks == [] then Done(Outcome([], buffer))
    else
      match HandleFrom(h, buffer + chunks[0], 0)
      case Lost => Lost
      case Done(a) =>
        match FeedCode(h, a.leftover, chunks[1..])
        case Lost => Lost
        case Done(b) => Done(Outcome(a.responses + b.responses, b.leftover))
  }

  lemma {:induction false} ReachSplit(s: bytes, t: bytes)
    ensures Reach(s + t) == Reach(s) + Reach(s[Reach(s)..] + t)
    decreases |s|
  {
    hide FrameOf;
    FrameStable(s, t);
    match FrameOf(s)
    case Incomplete =>
      assert s[0..] == s;
    case Request(_, _, total) =>
      var rest := s[total..];
      assert (s + t)[total..] == rest + t;
      ReachSplit(rest, t);
      assert s[Reach(s)..] == rest[Reach(rest)..];
  }

  /** Dropping what was answered moves every declared end down with the buffer. */
  lemma FitsFurtherOn(s: bytes, r: nat, p: nat)
    requires r + p <= |s| < TWO63 && EndFits(s, r + p)
    ensures EndFits(s[r..], p)
  {
    hide Announced, IndexFrom;
    assert s[r..][p..] == s[r + p..];
    var he := IndexFrom(s[r + p..], 0, CRLF2);
    if he.Some? {
      assert s[r..][p..p + he.value] == s[r + p..r + p + he.value];
    }
  }

  lemma EndStable(s: bytes, t: bytes, off: nat)
    requires off <= |s| && DeclaredEnd(s, off).Some?
    ensures DeclaredEnd(s + t, off) == DeclaredEnd(s, off)
  {
    hide Announced;
    var he := IndexFrom(s[off..], 0, CRLF2).value;
    assert (s + t)[off..] == s[off..] + t;
    IndexStable(s[off..], t, 0, CRLF2);
    assert (s + t)[off..off + he] == s[off..off + he];
  }

  /** The end of a request that a longer stream completes lies inside that stream. */
  lemma CompleteEnd(s: bytes, off: nat)
    requires off <= |s| && FrameOf(s[off..]).Request?
    ensures DeclaredEnd(s, off).Some? && DeclaredEnd(s, off).value <= |s|
  {
    hide Announced, IndexFrom, ParseReqLine;
    var rest := s[off..];
    var he := IndexFrom(rest, 0, CRLF2).value;
    assert rest[..he] == s[off..off + he];
  }

  lemma FitsSplit(s: bytes, t: bytes)
    requires Fits(s + t)
    ensures Fits(s) && Fits(s[Reach(s)..] + t)
  {
    hide FrameOf, Reach, DeclaredEnd;
    var r, u := Reach(s), s[Reach(s)..] + t;
    ReachSplit(s, t);
    assert (s + t)[r..] == u;
    FitsFurtherOn(s + t, r, Reach(u));
    PrefixFits(s, t, r, u);
  }

  lemma PrefixFits(s: bytes, t: bytes, r: nat, u: bytes)
    requires r <= |s| && u == (s + t)[r..] && |s + t| < TWO63 && EndFits(s + t, r + Reach(u))
    ensures EndFits(s, r)
  {
    hide FrameOf, DeclaredEnd;
    if DeclaredEnd(s, r).Some? {
      EndStable(s, t, r);
      if FrameOf(u).Request? {
        CompleteEnd(s + t, r);
      }
    }
  }

  /** When the ends of a stream fit, the code answers it as it should, however it arrives. */
  lemma {:induction false} ChunksHandled(h: Handler, buffer: bytes, chunks: seq<bytes>)
    requires FrameOf(buffer).Incomplete? && Fits(buffer + Concat(chunks))
    ensures FeedCode(h, buffer, chunks) == Done(Consume(h, buffer + Concat(chunks)))
    decreases |chunks|
  {
    hide FrameOf, Fits, HandleFrom, Handler.Answers;
    if chunks == [] {
      assert buffer + Concat(chunks) == buffer;
    } else {
      var s, t := buffer + chunks[0], Concat(chunks[1..]);
      assert s + t == buffer + Concat(chunks);
      FitsSplit(s, t);
      BufferFits(s);
      HandleIff(h, s);
      ConsumeSplit(h, s, t);
      ReachIsLeftover(h, s);
      LeftoverIncomplete(h, s);
      ChunksHandled(h, Consume(h, s).leftover, chunks[1..]);
    }
  }

  lemma BufferFits(s: bytes)
    requires Fits(s)
    ensures |s| < TWO63
  {
  }

  /** Whichever way a stream is split into reads, the code answers it as one read of a correct
      implementation would: this holds of a stream exactly when its ends fit. */
  lemma ChunkingIff(h: Handler, s: bytes)
    requires |s| < TWO63 && h.Answers()
    ensures Fits(s) <==>
            forall chunks: seq<bytes> | Concat(chunks) == s :: FeedCode(h, [], chunks) == Done(Consume(h, s))
  {
    hide Fits, HandleFrom, Handler.Answers, Consume;
    if Fits(s) {
      forall chunks: seq<bytes> | Concat(chunks) == s
        ensures FeedCode(h, [], chunks) == Done(Consume(h, s))
      {
        NoRequest();
        assert [] + Concat(chunks) == s;
        ChunksHandled(h, [], chunks);
      }
    } else {
      HandleIff(h, s);
      OneRead(h, s);
      assert Concat([s]) == s;
    }
  }

  lemma NoRequest()
    ensures FrameOf([]).Incomplete?
  {
    assert IndexFrom([], 0, CRLF2).None?;
  }

  lemma OneRead(h: Handler, s: bytes)
    ensures FeedCode(h, [], [s]) == HandleFrom(h, s, 0) && Concat([s]) == s
  {
    hide HandleFrom;
    assert [] + [s][0] == s && [s][1..] == [];
    assert FeedCode(h, [], [s]) == match HandleFrom(h, s, 0)
      case Lost => Lost
      case Done(a) => Done(Outcome(a.responses + [], a.leftover));
  }
}
