/** From the body of a request to the query vector (internal/vectorize/parse.go). */
module Query {
  import opened Numbers
  import opened Partition
  import opened Bytes
  import opened Stamps
  import opened Cursor
  import opened Merchants
  import opened Parser
  import opened ParseProof
  import opened Vectorizer

  function Q01(x: real): (q: int)
    ensures 0 <= q <= QSCALE
  {
    if x < 0.0 then 0
    else if x > 1.0 then QSCALE
    else
      assert 0.0 <= x * 10000.0 <= 10000.0;
      Wrap16(Round(x * 10000.0))
  }

  function BoolQ(b: bool): int {
    if b then QSCALE else 0
  }

  // ---- The extracted ranges stay inside the body ---------------------------------------

  lemma CustomerInBody(b: bytes, p: nat, key: bytes, r: Parsed, pf: ParseFloat)
    requires p <= |b| && r.InBody(b)
    ensures var s := CustomerStep(b, p, key, r, pf); s.Step? ==> s.r.InBody(b)
  {
    hide NumAt, SkipEnd, StrAt, WsEnd;
  }

  lemma MerchantInBody(b: bytes, p: nat, key: bytes, r: Parsed, pf: ParseFloat)
    requires p <= |b| && r.InBody(b)
    ensures var s := MerchantStep(b, p, key, r, pf); s.Step? ==> s.r.InBody(b)
  {
    hide NumAt, SkipEnd, StrAt, WsEnd;
  }

  lemma TransactionInBody(b: bytes, p: nat, key: bytes, r: Parsed, pf: ParseFloat)
    requires p <= |b| && r.InBody(b)
    ensures var s := TransactionStep(b, p, key, r, pf); s.Step? ==> s.r.InBody(b)
  {
    hide NumAt, SkipEnd, StrAt, WsEnd, ParseISO8601;
  }

  lemma TerminalInBody(b: bytes, p: nat, key: bytes, r: Parsed, pf: ParseFloat)
    requires p <= |b| && r.InBody(b)
    ensures var s := TerminalStep(b, p, key, r, pf); s.Step? ==> s.r.InBody(b)
  {
    hide NumAt, SkipEnd, StrAt, WsEnd;
  }

  lemma LastTxInBody(b: bytes, p: nat, key: bytes, r: Parsed, pf: ParseFloat)
    requires p <= |b| && r.InBody(b)
    ensures var s := LastTxStep(b, p, key, r, pf); s.Step? ==> s.r.InBody(b)
  {
    hide NumAt, SkipEnd, StrAt, WsEnd, ParseISO8601;
  }

  lemma StepInBody(k: Kind, b: bytes, p: nat, key: bytes, r: Parsed, pf: ParseFloat)
    requires p <= |b| && r.InBody(b)
    ensures var s := FieldStep(k, b, p, key, r, pf); s.Step? ==> s.r.InBody(b)
  {
    hide TransactionStep, CustomerStep, MerchantStep, TerminalStep, LastTxStep;
    CustomerInBody(b, p, key, r, pf);
    MerchantInBody(b, p, key, r, pf);
    TransactionInBody(b, p, key, r, pf);
    TerminalInBody(b, p, key, r, pf);
    LastTxInBody(b, p, key, r, pf);
  }

  lemma {:induction false} MembersInBody(k: Kind, b: bytes, p: nat, r: Parsed, pf: ParseFloat)
    requires p <= |b| && r.InBody(b)
    ensures var s := MembersStep(k, b, p, r, pf); s.Step? ==> s.r.InBody(b)
    decreases |b| - p
  {
    hide FieldStep, KeyAt, AfterValueEnd;
    match KeyAt(b, p)
    case KeyFail =>
    case ObjectEnd(q) =>
    case Key(cs, ce, q) =>
      StepInBody(k, b, q, b[cs..ce], r, pf);
      var s := FieldStep(k, b, q, b[cs..ce], r, pf);
      if s.Step? {
        MembersInBody(k, b, AfterValueEnd(b, s.p), s.r, pf);
      }
  }

  lemma RootFieldInBody(b: bytes, p: nat, key: bytes, r: Parsed, pf: ParseFloat)
    requires p <= |b| && r.InBody(b)
    ensures var s := RootFieldStep(b, p, key, r, pf); s.Step? ==> s.r.InBody(b)
  {
    hide MembersStep, SkipEnd, WsEnd;
    var o, k := ObjAt(b, p), SectionOf(key);
    if o.Some? && k.Some? {
      MembersInBody(k.value, b, o.value, if k.value.LastTxObj? then r.(hasLastTx := true) else r, pf);
    }
  }

  lemma {:induction false} RootInBody(b: bytes, p: nat, r: Parsed, pf: ParseFloat)
    requires p <= |b| && r.InBody(b)
    ensures var s := RootStep(b, p, r, pf); s.Step? ==> s.r.InBody(b)
    decreases |b| - p
  {
    hide RootFieldStep, KeyAt, AfterValueEnd;
    match KeyAt(b, p)
    case KeyFail =>
    case ObjectEnd(q) =>
    case Key(cs, ce, q) =>
      RootFieldInBody(b, q, b[cs..ce], r, pf);
      var s := RootFieldStep(b, q, b[cs..ce], r, pf);
      if s.Step? {
        RootInBody(b, AfterValueEnd(b, s.p), s.r, pf);
      }
  }

  /** For every body at all: what the parser accepts has its ranges inside the body. */
  lemma ParsedInBody(body: bytes, pf: ParseFloat)
    ensures var r := ParseBody(body, pf); r.Some? ==> r.value.InBody(body)
  {
    hide RootStep;
    var o := ObjAt(body, 0);
    if o.Some? {
      RootInBody(body, o.value, BLANK, pf);
    }
  }

  // ---- The query ---------------------------------------------------------------------------

  ghost predicate FoundIn(known: bytes, id: bytes) {
    known != [] && id != [] && QuotedIn(known, id)
  }

  /** The fourteen lanes computed from the extracted fields. */
  ghost function QueryVec(n: Normalizer, f: Fields): (q: seq<int>)
    requires n.Valid()
    ensures |q| == DIMS
  {
    var c := n.c;
    [ Q01(f.amount / c.maxAmount),
      Q01(f.installments as real / c.maxInstallments),
      if f.customerAvg > 0.0 then Q01((f.amount / f.customerAvg) / c.amountVsAvgRatio) else QSCALE,
      Q01(HourShare(CodeHour(f.ts))),
      Q01(WeekdayShare(CodeWeekday(f.ts))),
      if f.hasLastTx then Q01(((f.ts - f.lastTS) as real / 60.0) / c.maxMinutes) else -QSCALE,
      if f.hasLastTx then Q01(f.kmLast / c.maxKm) else -QSCALE,
      Q01(f.kmHome / c.maxKm),
      Q01(f.txCount24h as real / c.maxTxCount24h),
      BoolQ(f.isOnline),
      BoolQ(f.cardPresent),
      BoolQ(!FoundIn(f.known, f.mid)),
      Q01(n.Risk(f.mcc)),
      Q01(f.merchantAvg / c.maxMerchantAvgAmount) ]
  }

  ghost function QueryOf(n: Normalizer, body: bytes, pf: ParseFloat): (q: Option<seq<int>>)
    requires n.Valid()
    ensures q.Some? ==> |q.value| == DIMS
  {
    ParsedInBody(body, pf);
    var r := ParseBody(body, pf);
    if r.None? then None else Some(QueryVec(n, View(body, r.value)))
  }

  /** QueryFromBody, for every body; the lanes are written one by one. */
  method QueryFromBody(n: Normalizer, body: bytes, pf: ParseFloat, q: array<int>) returns (ok: bool)
    requires n.Valid() && q.Length == DIMS
    modifies q
    ensures ok <==> QueryOf(n, body, pf).Some?
    ensures ok ==> QueryOf(n, body, pf) == Some(q[..])
  {
    hide ParseBody, QueryVec, FoundIn, CodeHour, CodeWeekday;
    var parsed, r := Parse(body, pf);
    if !parsed {
      return false;
    }
    ParsedInBody(body, pf);
    FillLanes(n, body, r, q);
    return true;
  }

  method FillLanes(n: Normalizer, body: bytes, r: Parsed, q: array<int>)
    requires n.Valid() && q.Length == DIMS && r.InBody(body)
    modifies q
    ensures q[..] == QueryVec(n, View(body, r))
  {
    hide Q01, CodeHour, CodeWeekday, HourShare, WeekdayShare;
    var c := n.c;
    q[0] := Q01(r.amount / c.maxAmount);
    q[1] := Q01(r.installments as real / c.maxInstallments);
    if r.customerAvg > 0.0 {
      q[2] := Q01((r.amount / r.customerAvg) / c.amountVsAvgRatio);
    } else {
      q[2] := QSCALE;
    }
    var wd := CodeWeekday(r.ts);
    var hr := CodeHour(r.ts);
    q[3] := Q01(HourShare(hr));
    q[4] := Q01(WeekdayShare(wd));
    if r.hasLastTx {
      q[5] := Q01(((r.ts - r.lastTS) as real / 60.0) / c.maxMinutes);
      q[6] := Q01(r.kmLast / c.maxKm);
    } else {
      q[5] := -QSCALE;
      q[6] := -QSCALE;
    }
    q[7] := Q01(r.kmHome / c.maxKm);
    q[8] := Q01(r.txCount24h as real / c.maxTxCount24h);
    q[9] := BoolQ(r.isOnline);
    q[10] := BoolQ(r.cardPresent);
    var known := KnownMerchant(body[r.kmStart..r.kmEnd], body[r.midStart..r.midStart + r.midLen]);
    q[11] := BoolQ(!known);
    q[12] := Q01(n.Risk(body[r.mccStart..r.mccStart + r.mccLen]));
    q[13] := Q01(r.merchantAvg / c.maxMerchantAvgAmount);
  }

  // ---- What the lanes mean -------------------------------------------------------------------

  /** q is 10000 times x, cut to 0 and 10000, and rounded to the nearest integer, half up. */
  predicate IsShare(q: int, x: real) {
    if x < 0.0 then q == 0
    else if x > 1.0 then q == 10000
    else (2 * q - 1) as real <= 20000.0 * x < (2 * q + 1) as real
  }

  lemma Q01IsShare(x: real)
    ensures IsShare(Q01(x), x)
  {
  }

  /** The lanes but the clock, by the extracted fields: shares of the scales, flags, and the risk,
      0.5 for a code that is not in the table. */
  ghost predicate ScaleShares(n: Normalizer, f: Fields, q: seq<int>)
    requires n.Valid() && |q| == 14
  {
    && IsShare(q[0], f.amount / n.c.maxAmount)
    && IsShare(q[1], f.installments as real / n.c.maxInstallments)
    && (if f.customerAvg > 0.0 then IsShare(q[2], (f.amount / f.customerAvg) / n.c.amountVsAvgRatio)
        else q[2] == 10000)
    && (if f.hasLastTx
        then IsShare(q[5], ((f.ts - f.lastTS) as real / 60.0) / n.c.maxMinutes) && IsShare(q[6], f.kmLast / n.c.maxKm)
        else q[5] == q[6] == -10000)
    && IsShare(q[7], f.kmHome / n.c.maxKm)
    && IsShare(q[8], f.txCount24h as real / n.c.maxTxCount24h)
    && q[9] == (if f.isOnline then 10000 else 0) && q[10] == (if f.cardPresent then 10000 else 0)
    && q[11] == (if FoundIn(f.known, f.mid) then 0 else 10000)
    && IsShare(q[12], if f.mcc in n.mcc then n.mcc[f.mcc] else 0.5)
    && IsShare(q[13], f.merchantAvg / n.c.maxMerchantAvgAmount)
  }

  /** Every lane by the extracted fields; hours from midnight and days from Monday, in UTC, for
      times from the epoch on. */
  lemma LanesMean(n: Normalizer, f: Fields)
    requires n.Valid()
    ensures ScaleShares(n, f, QueryVec(n, f))
    ensures f.ts >= 0 ==>
      ClockShares(QueryVec(n, f)[3], QueryVec(n, f)[4], (f.ts % 86400) / 3600, (f.ts / 86400 + 3) % 7)
  {
    ScaleLanes(n, f);
    if f.ts >= 0 {
      ClockMeans(n, f);
    }
  }

  /** A code that is not in the table counts half. */
  lemma UnlistedLane(n: Normalizer, f: Fields)
    requires n.Valid() && f.mcc !in n.mcc
    ensures QueryVec(n, f)[12] == 5000
  {
    ScaleLanes(n, f);
    hide QueryVec;
  }

  /** The nearest integers to 10000 / 23 for every hour and to 10000 / 6 for every day. */
  predicate ClockShares(q3: int, q4: int, hour: int, day: int) {
    && 0 <= q3 <= 10000 && -23 <= 2 * (23 * q3 - 10000 * hour) <= 23
    && 0 <= q4 <= 10000 && -6 <= 2 * (6 * q4 - 10000 * day) <= 6
  }

  lemma ScaleLanes(n: Normalizer, f: Fields)
    requires n.Valid()
    ensures ScaleShares(n, f, QueryVec(n, f))
  {
    hide Q01, IsShare, FoundIn, CodeHour, CodeWeekday, HourShare, WeekdayShare;
    Q01IsShare(f.amount / n.c.maxAmount);
    Q01IsShare(f.installments as real / n.c.maxInstallments);
    if f.customerAvg > 0.0 {
      Q01IsShare((f.amount / f.customerAvg) / n.c.amountVsAvgRatio);
    }
    Q01IsShare(((f.ts - f.lastTS) as real / 60.0) / n.c.maxMinutes);
    Q01IsShare(f.kmLast / n.c.maxKm);
    Q01IsShare(f.kmHome / n.c.maxKm);
    Q01IsShare(f.txCount24h as real / n.c.maxTxCount24h);
    Q01IsShare(if f.mcc in n.mcc then n.mcc[f.mcc] else 0.5);
    Q01IsShare(f.merchantAvg / n.c.maxMerchantAvgAmount);
  }

  lemma ClockMeans(n: Normalizer, f: Fields)
    requires n.Valid() && f.ts >= 0
    ensures var q := QueryVec(n, f);
            ClockShares(q[3], q[4], (f.ts % 86400) / 3600, (f.ts / 86400 + 3) % 7)
  {
    ClockOf(n, f);
    hide QueryVec, Q01, HourShare, WeekdayShare;
    HourIff(f.ts);
    WeekdayIff(f.ts);
    hide CodeHour, CodeWeekday;
    HourNearest((f.ts % 86400) / 3600);
    DayNearest((f.ts / 86400 + 3) % 7);
  }

  lemma ClockOf(n: Normalizer, f: Fields)
    requires n.Valid()
    ensures QueryVec(n, f)[3] == Q01(HourShare(CodeHour(f.ts)))
    ensures QueryVec(n, f)[4] == Q01(WeekdayShare(CodeWeekday(f.ts)))
  {
    hide Q01, FoundIn, CodeHour, CodeWeekday, HourShare, WeekdayShare;
  }

  lemma HourNearest(hour: int)
    requires 0 <= hour <= 23
    ensures var q := Q01(HourShare(hour)); 0 <= q <= 10000 && -23 <= 2 * (23 * q - 10000 * hour) <= 23
  {
    Q01IsShare(HourShare(hour));
    hide Q01;
    assert 23.0 * HourShare(hour) == hour as real;
  }

  lemma DayNearest(day: int)
    requires 0 <= day <= 6
    ensures var q := Q01(WeekdayShare(day)); 0 <= q <= 10000 && -6 <= 2 * (6 * q - 10000 * day) <= 6
  {
    Q01IsShare(WeekdayShare(day));
    hide Q01;
    assert 6.0 * WeekdayShare(day) == day as real;
  }

  // ---- The domain of the stop rule -----------------------------------------------------------

  function Padded(q: seq<int>): (r: seq<int>)
    ensures |r| == |q| + 2
  {
    q + [0, 0]
  }

  /** Whatever the body, an accepted query fits a padded index row and lies in the domain on
      which the gap is a lower bound. */
  lemma AcceptedInDomain(n: Normalizer, body: bytes, pf: ParseFloat)
    requires n.Valid() && QueryOf(n, body, pf).Some?
    ensures var q := Padded(QueryOf(n, body, pf).value);
            (forall i :: 0 <= i < |q| ==> -10000 <= q[i] <= 10000) && InDomain(q)
  {
    hide ParseBody, FoundIn, CodeHour, CodeWeekday, Q01;
    ParsedInBody(body, pf);
    LanesInDomain(n, View(body, ParseBody(body, pf).value));
  }

  lemma LanesInDomain(n: Normalizer, f: Fields)
    requires n.Valid()
    ensures var q := Padded(QueryVec(n, f));
            (forall i :: 0 <= i < |q| ==> -10000 <= q[i] <= 10000) && InDomain(q)
  {
    hide FoundIn, CodeHour, CodeWeekday, Q01;
    var q := Padded(QueryVec(n, f));
    assert q[9] == BoolQ(f.isOnline) && q[10] == BoolQ(f.cardPresent) && q[11] == BoolQ(!FoundIn(f.known, f.mid));
  }
}
