/** The raw-text search for a merchant id in the unparsed known_merchants array
    (internal/vectorize/parse.go) against list membership. */
module Merchants {
  import opened Bytes
  import opened JsonText

  /** The id occurs in the text between two quotes. */
  ghost predicate QuotedIn(arr: bytes, id: bytes) {
    exists i: nat :: At(arr, i, Quoted(id))
  }

  /** knownMerchant on the array text and the id: an empty id is never found. */
  method KnownMerchant(arr: bytes, id: bytes) returns (known: bool)
    ensures known <==> arr != [] && id != [] && QuotedIn(arr, id)
  {
    if |arr| <= 0 || |id| <= 0 {
      return false;
    }
    var last := |arr| - (|id| + 2);
    var i := 0;
    while i <= last
      invariant 0 <= i && (last >= 0 ==> i <= last + 1)
      invariant forall j: nat :: j < i ==> !At(arr, j, Quoted(id))
    {
      if arr[i] == '"' && arr[i + |id| + 1] == '"' {
        var found := true;
        var k := 0;
        while k < |id|
          invariant 0 <= k <= |id| && found
          invariant forall j :: 0 <= j < k ==> arr[i + 1 + j] == id[j]
        {
          if arr[i + 1 + k] != id[k] {
            found := false;
            break;
          }
          k := k + 1;
        }
        QuotedAt(arr, i, id);
        if found {
          return true;
        }
      } else {
        QuotedAt(arr, i, id);
      }
      i := i + 1;
    }
    return false;
  }

  lemma QuotedAt(arr: bytes, i: nat, id: bytes)
    ensures At(arr, i, Quoted(id)) <==>
            i + |id| + 2 <= |arr| && arr[i] == '"' && arr[i + |id| + 1] == '"' &&
            forall j :: 0 <= j < |id| ==> arr[i + 1 + j] == id[j]
  {
    AtAppend(arr, i, ['"'] + id, ['"']);
    AtAppend(arr, i, ['"'], id);
    AtOne(arr, i, '"');
    AtOne(arr, i + |id| + 1, '"');
  }

  lemma AtOne(b: bytes, p: nat, c: byte)
    ensures At(b, p, [c]) <==> p < |b| && b[p] == c
  {
    if At(b, p, [c]) {
      assert b[p + 0] == [c][0];
    }
  }

  lemma AtSuffix(pre: bytes, j: bytes, i: nat, t: bytes)
    ensures At(pre + j, |pre| + i, t) <==> At(j, i, t)
  {
    if At(j, i, t) {
      forall k | 0 <= k < |t|
        ensures (pre + j)[|pre| + i + k] == t[k]
      {
        assert j[i + k] == t[k];
      }
    } else if At(pre + j, |pre| + i, t) {
      forall k | 0 <= k < |t|
        ensures j[i + k] == t[k]
      {
        assert (pre + j)[|pre| + i + k] == t[k];
      }
    }
  }

  // ---- Text cut at its quotes --------------------------------------------------------

  predicate QuoteFree(t: bytes) {
    '"' !in t
  }

  /** The segments with a quote between any two. */
  function Join(segs: seq<bytes>): bytes
    requires segs != []
  {
    if |segs| == 1 then segs[0] else segs[0] + ['"'] + Join(segs[1..])
  }

  ghost predicate Interior(segs: seq<bytes>, id: bytes) {
    exists k :: 1 <= k < |segs| - 1 && segs[k] == id
  }

  /** A quote-free id stands between two quotes exactly when it is one of the inner
      segments: two quotes around it are neighbouring quotes. */
  lemma {:induction false} QuotedIffSegment(segs: seq<bytes>, id: bytes)
    requires segs != [] && QuoteFree(id) && forall k :: 0 <= k < |segs| ==> QuoteFree(segs[k])
    ensures QuotedIn(Join(segs), id) <==> Interior(segs, id)
  {
    if |segs| == 1 {
      forall i: nat
        ensures !At(segs[0], i, Quoted(id))
      {
        QuotedAt(segs[0], i, id);
      }
    } else {
      var tail := segs[1..];
      QuotedIffSegment(tail, id);
      FirstQuote(segs[0], tail, id);
      InteriorStep(segs, id);
    }
  }

  /** Peeling off the first segment and its quote. */
  lemma FirstQuote(s: bytes, tail: seq<bytes>, id: bytes)
    requires tail != [] && QuoteFree(s) && QuoteFree(id) && QuoteFree(tail[0])
    ensures QuotedIn(s + ['"'] + Join(tail), id) <==>
            (|tail| > 1 && tail[0] == id) || QuotedIn(Join(tail), id)
  {
    var j, pre := Join(tail), s + ['"'];
    var text := pre + j;
    OpeningSegment(tail, id);
    OpeningQuote(s, j, id);
    if QuotedIn(text, id) {
      var i: nat :| At(text, i, Quoted(id));
      QuotedAt(text, i, id);
      assert i >= |s| by {
        assert forall k :: 0 <= k < |s| ==> text[k] == s[k];
      }
      if i > |s| {
        AtSuffix(pre, j, i - |pre|, Quoted(id));
      }
    }
    if QuotedIn(j, id) {
      var i: nat :| At(j, i, Quoted(id));
      AtSuffix(pre, j, i, Quoted(id));
    }
  }

  lemma OpeningQuote(s: bytes, j: bytes, id: bytes)
    ensures At(s + ['"'] + j, |s|, Quoted(id)) <==> At(j, 0, id + ['"'])
  {
    var pre := s + ['"'];
    assert Quoted(id) == ['"'] + (id + ['"']);
    AtAppend(pre + j, |s|, ['"'], id + ['"']);
    AtOne(pre + j, |s|, '"');
    AtSuffix(pre, j, 0, id + ['"']);
  }

  /** A text starts with a quote-free id and a quote exactly when that is its first segment. */
  lemma OpeningSegment(tail: seq<bytes>, id: bytes)
    requires tail != [] && QuoteFree(id) && QuoteFree(tail[0])
    ensures At(Join(tail), 0, id + ['"']) <==> |tail| > 1 && tail[0] == id
  {
    var j, s := Join(tail), tail[0];
    AtAppend(j, 0, id, ['"']);
    AtOne(j, |id|, '"');
    if |tail| > 1 {
      assert At(j, 0, s + ['"']);
      if At(j, 0, id + ['"']) {
        SameOpening(j, s, id);
      }
    }
  }

  lemma SameOpening(j: bytes, s: bytes, t: bytes)
    requires QuoteFree(s) && QuoteFree(t) && At(j, 0, s + ['"']) && At(j, 0, t + ['"'])
    ensures s == t
  {
    if |s| < |t| {
      LongerHasQuote(j, s, t);
    } else if |t| < |s| {
      LongerHasQuote(j, t, s);
    } else {
      assert (s + ['"'])[..|s|] == s && (t + ['"'])[..|t|] == t;
      assert s + ['"'] == t + ['"'] by {
        AtSlice(j, 0, s + ['"']);
        AtSlice(j, 0, t + ['"']);
      }
    }
  }

  lemma LongerHasQuote(j: bytes, s: bytes, t: bytes)
    requires At(j, 0, s + ['"']) && At(j, 0, t + ['"']) && |s| < |t|
    ensures !QuoteFree(t)
  {
    assert j[0 + |s|] == (s + ['"'])[|s|];
    assert j[0 + |s|] == (t + ['"'])[|s|] == t[|s|];
  }

  lemma InteriorStep(segs: seq<bytes>, id: bytes)
    requires |segs| > 1
    ensures Interior(segs, id) <==> (|segs| > 2 && segs[1] == id) || Interior(segs[1..], id)
  {
    var tail := segs[1..];
    if Interior(segs, id) {
      var k :| 1 <= k < |segs| - 1 && segs[k] == id;
      assert tail[k - 1] == id;
    }
    if Interior(tail, id) {
      var k :| 1 <= k < |tail| - 1 && tail[k] == id;
      assert segs[k + 1] == id;
    }
  }

  // ---- The printed array ---------------------------------------------------------------

  /** Without quotes and backslashes. */
  predicate PlainId(t: bytes) {
    '"' !in t && '\\' !in t
  }

  predicate PlainStrings(es: Elems) {
    match es
    case NoElems => true
    case Elem(pre, v, post, rest) =>
      AllSpace(pre) && v.Text? && PlainId(v.raw) && AllSpace(post) && PlainStrings(rest)
  }

  /** The listed ids. */
  function IdsOf(es: Elems): seq<bytes>
    requires PlainStrings(es)
  {
    match es
    case NoElems => []
    case Elem(_, v, _, rest) => [v.raw] + IdsOf(rest)
  }

  /** The texts between a closing and the next opening quote: a comma with any space
      around it, once between any two elements. */
  function Separators(es: Elems): seq<bytes>
    requires PlainStrings(es)
  {
    match es
    case NoElems => []
    case Elem(_, _, post, rest) =>
      if rest.NoElems? then [] else [post + [','] + rest.pre] + Separators(rest)
  }

  /** Ids and separators, alternating. */
  function Inner(es: Elems): seq<bytes>
    requires PlainStrings(es)
  {
    match es
    case NoElems => []
    case Elem(_, v, post, rest) =>
      if rest.NoElems? then [v.raw] else [v.raw, post + [','] + rest.pre] + Inner(rest)
  }

  function LastPost(es: Elems): bytes
    requires es.Elem?
  {
    if es.rest.NoElems? then es.post else LastPost(es.rest)
  }

  /** The segments of front + elements + "]" cut at the quotes. */
  function Segments(front: bytes, es: Elems): seq<bytes>
    requires PlainStrings(es) && es.Elem?
  {
    [front + es.pre] + Inner(es) + [LastPost(es) + [']']]
  }

  lemma JoinCons(t: bytes, segs: seq<bytes>)
    requires segs != []
    ensures Join([t] + segs) == t + ['"'] + Join(segs)
  {
    assert ([t] + segs)[1..] == segs;
  }

  lemma LastElement(front: bytes, pre: bytes, raw: bytes, post: bytes)
    ensures front + pre + ['"'] + (raw + ['"'] + (post + [']'])) == front + (pre + Quoted(raw) + post + []) + [']']
  {
  }

  lemma OneElement(front: bytes, pre: bytes, raw: bytes, post: bytes, more: bytes)
    ensures front + pre + ['"'] + (raw + ['"'] + (post + [','] + more + [']'])) ==
            front + (pre + Quoted(raw) + post + ([','] + more)) + [']']
  {
  }

  lemma {:induction false} SegmentsJoin(front: bytes, es: Elems)
    requires PlainStrings(es) && es.Elem?
    ensures Join(Segments(front, es)) == front + ElemsText(es) + [']']
    decreases es
  {
    hide Quoted;
    var rest := es.rest;
    if rest.NoElems? {
      var last := [es.post + [']']];
      assert Segments(front, es) == [front + es.pre] + ([es.v.raw] + last);
      JoinCons(front + es.pre, [es.v.raw] + last);
      JoinCons(es.v.raw, last);
      assert ElemsText(es) == es.pre + Quoted(es.v.raw) + es.post + [];
      hide Join, ElemsText, Segments;
      LastElement(front, es.pre, es.v.raw, es.post);
    } else {
      var more := Segments(es.post + [','], rest);
      SegmentsJoin(es.post + [','], rest);
      assert Segments(front, es) == [front + es.pre] + ([es.v.raw] + more);
      JoinCons(front + es.pre, [es.v.raw] + more);
      JoinCons(es.v.raw, more);
      assert ElemsText(es) == es.pre + Quoted(es.v.raw) + es.post + ([','] + ElemsText(rest));
      hide Join, ElemsText, Segments;
      OneElement(front, es.pre, es.v.raw, es.post, ElemsText(rest));
    }
  }

  lemma {:induction false} InnerQuoteFree(es: Elems)
    requires PlainStrings(es)
    ensures forall t :: t in Inner(es) ==> QuoteFree(t)
    ensures es.Elem? ==> QuoteFree(LastPost(es) + [']']) && QuoteFree(es.pre)
  {
    if es.Elem? {
      SpaceQuoteFree(es.pre);
      SpaceQuoteFree(es.post);
      InnerQuoteFree(es.rest);
    }
  }

  lemma SpaceQuoteFree(t: bytes)
    requires AllSpace(t)
    ensures QuoteFree(t)
  {
  }

  lemma {:induction false} InnerMembers(es: Elems, id: bytes)
    requires PlainStrings(es)
    ensures id in Inner(es) <==> id in IdsOf(es) || id in Separators(es)
  {
    if es.Elem? {
      InnerMembers(es.rest, id);
    }
  }

  /** The search on a printed array of plain strings, with any white space between the
      tokens: it finds the listed ids, and nothing else but the separator texts. */
  lemma SearchIsMembership(ws: bytes, es: Elems, id: bytes)
    requires AllSpace(ws) && PlainStrings(es) && PlainId(id)
    ensures QuotedIn(Print(Arr(ws, es)), id) <==> id in IdsOf(es) || id in Separators(es)
  {
    var text := Print(Arr(ws, es));
    if es.NoElems? {
      SpaceQuoteFree(ws);
      assert ElemsBody(ws, es) == ws;
      assert Join([text]) == text && QuoteFree(text);
      QuotedIffSegment([text], id);
    } else {
      var segs := Segments(['['], es);
      SegmentsJoin(['['], es);
      InnerQuoteFree(es);
      SegmentsQuoteFree(es);
      QuotedIffSegment(segs, id);
      InnerMembers(es, id);
      InteriorIsInner(['['] + es.pre, Inner(es), LastPost(es) + [']'], id);
    }
  }

  lemma SegmentsQuoteFree(es: Elems)
    requires PlainStrings(es) && es.Elem?
    ensures forall k :: 0 <= k < |Segments(['['], es)| ==> QuoteFree(Segments(['['], es)[k])
  {
    InnerQuoteFree(es);
    var segs, inner := Segments(['['], es), Inner(es);
    forall k | 0 <= k < |segs|
      ensures QuoteFree(segs[k])
    {
      if 0 < k < |segs| - 1 {
        assert segs[k] == inner[k - 1] && inner[k - 1] in inner;
      }
    }
  }

  lemma InteriorIsInner(first: bytes, inner: seq<bytes>, last: bytes, id: bytes)
    ensures Interior([first] + inner + [last], id) <==> id in inner
  {
    var segs := [first] + inner + [last];
    if id in inner {
      var k :| 0 <= k < |inner| && inner[k] == id;
      assert segs[k + 1] == id;
    }
  }

  /** In compact form the only separator text is a lone comma. */
  lemma {:induction false} CompactSeparators(es: Elems, id: bytes)
    requires PlainStrings(es) && Compact(es)
    ensures id in Separators(es) <==> id == "," && |IdsOf(es)| >= 2
  {
    if es.Elem? {
      CompactSeparators(es.rest, id);
      if es.rest.Elem? {
        assert es.post + [','] + es.rest.pre == ",";
      }
    }
  }

  predicate Compact(es: Elems) {
    es.Elem? ==> es.pre == [] && es.post == [] && Compact(es.rest)
  }

  /** On compact arrays the search is list membership, except that a lone comma is found
      as soon as the list has two elements. */
  lemma CompactSearch(es: Elems, id: bytes)
    requires PlainStrings(es) && Compact(es) && PlainId(id)
    ensures QuotedIn(Print(Arr([], es)), id) <==> id in IdsOf(es) || (id == "," && |IdsOf(es)| >= 2)
  {
    SearchIsMembership([], es, id);
    CompactSeparators(es, id);
  }
}
