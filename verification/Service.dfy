/** The scoring of a request body (internal/server/handle.go): parse, search, and pick one
    of the six prepared answers. */
module Service {
  import opened Numbers
  import opened Distance
  import opened Nearest
  import opened Partition
  import opened Brute
  import opened Kd
  import opened Misses
  import opened Misfits
  import opened Bytes
  import opened Cursor
  import opened Vectorizer
  import opened Query

  /** The prepared answer with index c: fraud score c / 5, approved below three frauds. */
  datatype Verdict = Verdict(approved: bool, fraudScore: real)

  function Answer(c: nat): Verdict
    requires c <= NEIGHBORS
  {
    Verdict(c < 3, c as real / 5.0)
  }

  /** The frauds among the five references nearest to the query of a body; an unreadable
      body counts none. */
  ghost function FraudsNear(n: Normalizer, body: bytes, pf: ParseFloat, rows: seq<Row>, fraud: seq<bool>): Option<nat>
    requires n.Valid()
  {
    var q := QueryOf(n, body, pf);
    if q.None? then Some(0)
    else
      AcceptedInDomain(n, body, pf);
      FraudCount(NearestIds(CandsOf(Padded(q.value), AllItems(rows))), fraud)
  }

  /** The same by the distances that a kernel computes. */
  ghost function FraudsMeasured(k: Kernel, n: Normalizer, body: bytes, pf: ParseFloat, rows: seq<Row>,
                                fraud: seq<bool>): Option<nat>
    requires n.Valid()
  {
    var q := QueryOf(n, body, pf);
    if q.None? then Some(0)
    else
      AcceptedInDomain(n, body, pf);
      FraudCount(NearestIds(CandsBy(k, Padded(q.value), AllItems(rows))), fraud)
  }

  /** The kernel measures every row right from the query of a body. */
  ghost predicate MeasuresRight(k: Kernel, n: Normalizer, body: bytes, pf: ParseFloat, rows: seq<Row>)
    requires n.Valid()
  {
    var q := QueryOf(n, body, pf);
    if q.None? then true
    else
      AcceptedInDomain(n, body, pf);
      Agrees(k, Padded(q.value), rows)
  }

  /** Rows that are safe for the kernel are measured right from every body there is. */
  lemma SafeRowsMeasured(k: Kernel, n: Normalizer, body: bytes, pf: ParseFloat, rows: seq<Row>)
    requires n.Valid() && forall i :: 0 <= i < |rows| ==> KernelSafe(rows[i])
    ensures MeasuresRight(k, n, body, pf, rows)
  {
    hide QueryOf, KernelSafe, Fits;
    if QueryOf(n, body, pf).Some? {
      AcceptedInDomain(n, body, pf);
      var q: Row := Padded(QueryOf(n, body, pf).value);
      forall i | 0 <= i < |rows|
        ensures Fits(q, rows[i])
      {
        SafeFits(q, rows[i]);
      }
    }
  }

  /** What the repository's documentation promises: the fraud score is the share of frauds
      among the five nearest references, approved below 0.6. */
  ghost predicate IsVerdict(v: Verdict, frauds: Option<nat>) {
    frauds.Some? && v.fraudScore == frauds.value as real / 5.0 && (v.approved <==> v.fraudScore < 0.6)
  }

  lemma AnswerIsVerdict(c: nat)
    requires c <= NEIGHBORS
    ensures IsVerdict(Answer(c), Some(c))
  {
  }

  /** score, for either kernel and every body whatsoever: the query it accepts is always one
      for which the early stop of the search is exact, and where the kernel measures the rows
      right the verdict is the promised one. Of the rows of one leaf it is the kernel's. */
  method Score(k: Kernel, n: Normalizer, kd: KD, body: bytes, pf: ParseFloat) returns (v: Verdict)
    requires n.Valid() && kd.Valid() && |kd.rows| >= NEIGHBORS
    ensures kd.AllSafe() && MeasuresRight(k, n, body, pf, kd.rows) ==>
      IsVerdict(v, FraudsNear(n, body, pf, kd.rows, kd.fraud))
    ensures kd.OneLeaf() ==> IsVerdict(v, FraudsMeasured(k, n, body, pf, kd.rows, kd.fraud))
  {
    hide QueryOf, IsVerdict, Answer, FraudCount, NearestIds, CandsOf, CandsBy, AllItems, Agrees;
    hide KD.Found, KD.Swept, KD.AllSafe, KD.OneLeaf;
    var lanes := new int[DIMS];
    var ok := QueryFromBody(n, body, pf, lanes);
    if !ok {
      AnswerIsVerdict(0);
      return Answer(0);
    }
    AcceptedInDomain(n, body, pf);
    var q: Row := Padded(lanes[..]);
    ghost var ids;
    var c;
    c, ids := kd.FraudCount5(k, q);
    kd.FoundMeans(k, q, true, ids);
    if kd.OneLeaf() {
      FraudCountSame(ids, NearestIds(CandsBy(k, q, AllItems(kd.rows))), kd.fraud);
    }
    kd.FiveFound(k, q, true, ids);
    FraudCountDefined(ids, kd.fraud);
    AnswerIsVerdict(c.value);
    v := Answer(c.value);
  }

  /** For every body whose query some row does not fit there are references with that row for
      which the SIMD build's verdict is wrong, and the portable build's right. */
  method ScoreMisfit(n: Normalizer, body: bytes, pf: ParseFloat, r: Row)
    returns (refs: Refs, v: Verdict, plain: Verdict)
    requires n.Valid() && !MeasuresRight(Simd, n, body, pf, [r])
    ensures refs.Valid() && refs.n == 6 && refs.vec[0] == r
    ensures IsVerdict(plain, FraudsNear(n, body, pf, refs.vec, refs.fraud))
    ensures !IsVerdict(v, FraudsNear(n, body, pf, refs.vec, refs.fraud))
  {
    hide QueryOf, Fits, SqDist, SqDistSimd, PartKey16, FraudsNear, FraudsMeasured, IsVerdict, Decoy;
    AcceptedInDomain(n, body, pf);
    ghost var q: Row := Padded(QueryOf(n, body, pf).value);
    var lanes := new int[DIMS];
    var ok := QueryFromBody(n, body, pf, lanes);
    var f := Decoy(Padded(lanes[..]), r);
    DecoyBetween(q, r);
    refs := Refs(6, Six(r, f), LABELS);
    var kd := BuildKD(refs);
    OneLeafOfSix(kd, r, f);
    hide KD.OneLeaf, KD.AllSafe, MeasuresRight;
    v := Score(Simd, n, kd, body, pf);
    plain := Score(Plain, n, kd, body, pf);
    VerdictsDiffer(n, body, pf, q, r, f, v, plain);
  }

  lemma VerdictsDiffer(n: Normalizer, body: bytes, pf: ParseFloat, q: Row, r: Row, f: Row, v: Verdict, plain: Verdict)
    requires n.Valid() && QueryOf(n, body, pf).Some? && Padded(QueryOf(n, body, pf).value) == q
    requires SqDistSimd(q, r) <= SqDistSimd(q, f) && SqDist(q, f) < SqDist(q, r)
    requires IsVerdict(v, FraudsMeasured(Simd, n, body, pf, Six(r, f), LABELS))
    requires IsVerdict(plain, FraudsMeasured(Plain, n, body, pf, Six(r, f), LABELS))
    ensures IsVerdict(plain, FraudsNear(n, body, pf, Six(r, f), LABELS))
    ensures !IsVerdict(v, FraudsNear(n, body, pf, Six(r, f), LABELS))
  {
    hide QueryOf, SqDist, SqDistSimd, FraudCount, NearestIds, CandsOf, CandsBy, AllItems;
    MeasuredWrong(q, r, f);
  }

  lemma MeasuredWrong(q: Row, r: Row, f: Row)
    requires SqDistSimd(q, r) <= SqDistSimd(q, f) && SqDist(q, f) < SqDist(q, r)
    ensures FraudCount(NearestIds(CandsOf(q, AllItems(Six(r, f)))), LABELS) == Some(0)
    ensures CandsBy(Plain, q, AllItems(Six(r, f))) == CandsOf(q, AllItems(Six(r, f)))
    ensures var c := FraudCount(NearestIds(CandsBy(Simd, q, AllItems(Six(r, f)))), LABELS);
            c.Some? && c.value >= 1
  {
    hide SqDist, SqDistSimd, FraudCount, NearestIds;
    CopiesAreNearest(q, r, f);
    CopiesCountNothing();
    FraudCountSame(NearestIds(CandsOf(q, AllItems(Six(r, f)))), [1, 2, 3, 4, 5], LABELS);
    CandsByExact(Plain, q, AllItems(Six(r, f)));
    FirstIsMeasured(q, r, f);
    CountsTheFirst(NearestIds(CandsBy(Simd, q, AllItems(Six(r, f)))), LABELS);
    CountableIffFive(Simd, q, Six(r, f), LABELS);
  }
}
