/** QueryFromBody on a printed payload against Quantize(Vectorize(payload)). */
module Agreement {
  import opened Numbers
  import opened Bytes
  import opened Stamps
  import opened Cursor
  import opened JsonText
  import opened NumberText
  import opened Merchants
  import opened Parser
  import opened ParseProof
  import opened Payloads
  import opened Vectorizer
  import opened Query

  // ---- Reading in order equals looking up -------------------------------------------------

  /** The fields that section k sets, all others blank. */
  function Only(k: Kind, f: Fields): Fields {
    match k
    case TransactionObj => NO_FIELDS.(amount := f.amount, installments := f.installments, ts := f.ts)
    case CustomerObj => NO_FIELDS.(customerAvg := f.customerAvg, txCount24h := f.txCount24h, known := f.known)
    case MerchantObj => NO_FIELDS.(mid := f.mid, mcc := f.mcc, merchantAvg := f.merchantAvg)
    case TerminalObj => NO_FIELDS.(isOnline := f.isOnline, cardPresent := f.cardPresent, kmHome := f.kmHome)
    case LastTxObj => NO_FIELDS.(hasLastTx := f.hasLastTx, lastTS := f.lastTS, kmLast := f.kmLast)
  }

  lemma SetOther(k: Kind, key: bytes, v: Json, f: Fields, pf: ParseFloat, j: Kind)
    requires FieldOK(k, key, v, pf) && j != k
    ensures Only(j, SetField(k, key, v, f, pf)) == Only(j, f)
  {
  }

  lemma SetSame(k: Kind, key: bytes, v: Json, f: Fields, g: Fields, pf: ParseFloat)
    requires FieldOK(k, key, v, pf) && Only(k, f) == Only(k, g)
    ensures Only(k, SetField(k, key, v, f, pf)) == Only(k, SetField(k, key, v, g, pf))
  {
    match k
    case TransactionObj =>
    case CustomerObj =>
    case MerchantObj =>
    case TerminalObj =>
    case LastTxObj =>
  }

  lemma {:induction false} ReadOther(k: Kind, ms: Members, f: Fields, pf: ParseFloat, j: Kind)
    requires FieldsOK(k, ms, pf) && j != k
    ensures Only(j, ReadFields(k, ms, f, pf)) == Only(j, f)
    decreases ms
  {
    hide FieldOK, SetField, Only;
    if ms.Member? {
      SetOther(k, ms.key, ms.val, f, pf, j);
      ReadOther(k, ms.tail, SetField(k, ms.key, ms.val, f, pf), pf, j);
    }
  }

  lemma {:induction false} ReadSame(k: Kind, ms: Members, f: Fields, g: Fields, pf: ParseFloat)
    requires FieldsOK(k, ms, pf) && Only(k, f) == Only(k, g)
    ensures Only(k, ReadFields(k, ms, f, pf)) == Only(k, ReadFields(k, ms, g, pf))
    decreases ms
  {
    hide FieldOK, SetField, Only;
    if ms.Member? {
      SetSame(k, ms.key, ms.val, f, g, pf);
      ReadSame(k, ms.tail, SetField(k, ms.key, ms.val, f, pf), SetField(k, ms.key, ms.val, g, pf), pf);
    }
  }

  lemma SectionOther(k: Kind, v: Json, f: Fields, pf: ParseFloat, j: Kind)
    requires SectionOK(k, v, pf) && j != k
    ensures Only(j, ReadSection(k, v, f, pf)) == Only(j, f)
  {
    hide FieldsOK, ReadFields;
    if !IsNull(v) {
      ReadOther(k, v.members, if k.LastTxObj? then f.(hasLastTx := true) else f, pf, j);
    }
  }

  lemma SectionSame(k: Kind, v: Json, f: Fields, g: Fields, pf: ParseFloat)
    requires SectionOK(k, v, pf) && Only(k, f) == Only(k, g)
    ensures Only(k, ReadSection(k, v, f, pf)) == Only(k, ReadSection(k, v, g, pf))
  {
    hide FieldsOK, ReadFields;
    if !IsNull(v) {
      if k.LastTxObj? {
        ReadSame(k, v.members, f.(hasLastTx := true), g.(hasLastTx := true), pf);
      } else {
        ReadSame(k, v.members, f, g, pf);
      }
    }
  }

  lemma NameUnique(k: Kind, key: bytes)
    requires SectionOf(key) == Some(k)
    ensures key == NameOf(k)
  {
  }

  /** With unique keys, the fields of a section come from the one member of its name. */
  lemma {:induction false} RootGroup(k: Kind, ms: Members, f: Fields, pf: ParseFloat)
    requires RootOK(ms, pf) && UniqueKeys(ms)
    ensures NameOf(k) !in Keys(ms) ==> Only(k, ReadRoot(ms, f, pf)) == Only(k, f)
    ensures NameOf(k) in Keys(ms) ==>
      && SectionOK(k, Lookup(ms, NameOf(k)), pf)
      && Only(k, ReadRoot(ms, f, pf)) == Only(k, ReadSection(k, Lookup(ms, NameOf(k)), f, pf))
    decreases ms
  {
    hide SectionOK, SectionOf, ReadSection, Only, NameOf;
    if ms.Member? {
      var f' := ReadMember(ms, f, pf);
      RootGroup(k, ms.tail, f', pf);
      MemberGroup(k, ms, f, pf);
    }
  }

  lemma MemberGroup(k: Kind, ms: Members, f: Fields, pf: ParseFloat)
    requires ms.Member? && RootOK(ms, pf) && UniqueKeys(ms)
    ensures ms.key != NameOf(k) ==> Only(k, ReadMember(ms, f, pf)) == Only(k, f)
    ensures ms.key == NameOf(k) ==>
      SectionOK(k, ms.val, pf) && ReadMember(ms, f, pf) == ReadSection(k, ms.val, f, pf)
    ensures NameOf(k) in Keys(ms.tail) && SectionOK(k, Lookup(ms.tail, NameOf(k)), pf) ==>
      Only(k, ReadSection(k, Lookup(ms.tail, NameOf(k)), ReadMember(ms, f, pf), pf)) ==
      Only(k, ReadSection(k, Lookup(ms.tail, NameOf(k)), f, pf))
  {
    hide SectionOK, SectionOf, ReadSection, Only, NameOf, RootOK;
    var j := SectionOf(ms.key);
    HeadOK(ms, pf);
    if j.Some? {
      NameUnique(j.value, ms.key);
      if j.value != k {
        SectionOther(j.value, ms.val, f, pf, k);
      }
    }
    if ms.key != NameOf(k) && NameOf(k) in Keys(ms.tail) && SectionOK(k, Lookup(ms.tail, NameOf(k)), pf) {
      SectionSame(k, Lookup(ms.tail, NameOf(k)), ReadMember(ms, f, pf), f, pf);
    }
  }

  lemma HeadOK(ms: Members, pf: ParseFloat)
    requires ms.Member? && RootOK(ms, pf)
    ensures SectionOf(ms.key).Some? ==> SectionOK(SectionOf(ms.key).value, ms.val, pf)
  {
    hide SectionOK, SectionOf;
  }

  /** Each section's fields, read from its members alone. */
  lemma SectionFields(k: Kind, ms: Members, pf: ParseFloat)
    requires RootOK(ms, pf) && UniqueKeys(ms)
    ensures FieldsOK(k, SectionMembers(k, ms), pf)
    ensures var blank := if k.LastTxObj? && HasLast(ms) then NO_FIELDS.(hasLastTx := true) else NO_FIELDS;
            Only(k, ReadRoot(ms, NO_FIELDS, pf)) == Only(k, ReadFields(k, SectionMembers(k, ms), blank, pf))
  {
    SectionFieldsOK(k, ms, pf);
    SectionFieldsRead(k, ms, pf);
  }

  lemma SectionFieldsRead(k: Kind, ms: Members, pf: ParseFloat)
    requires RootOK(ms, pf) && UniqueKeys(ms) && FieldsOK(k, SectionMembers(k, ms), pf)
    ensures var blank := if k.LastTxObj? && HasLast(ms) then NO_FIELDS.(hasLastTx := true) else NO_FIELDS;
            Only(k, ReadRoot(ms, NO_FIELDS, pf)) == Only(k, ReadFields(k, SectionMembers(k, ms), blank, pf))
  {
    hide FieldsOK, ReadRoot, RootOK, Only;
    RootGroup(k, ms, NO_FIELDS, pf);
    assert NameOf(LastTxObj) == "last_transaction";
  }

  // ---- One section's fields by lookup -----------------------------------------------------

  lemma {:induction false} TxByLookup(ms: Members, f: Fields, pf: ParseFloat)
    requires FieldsOK(TransactionObj, ms, pf) && UniqueKeys(ms)
    ensures var g := ReadFields(TransactionObj, ms, f, pf);
            && (if "amount" in Keys(ms)
                then IsNum(Lookup(ms, "amount"), pf) && g.amount == NumVal(Lookup(ms, "amount"), pf)
                else g.amount == f.amount)
            && (if "installments" in Keys(ms)
                then IsNum(Lookup(ms, "installments"), pf)
                     && g.installments == ToInt32(NumVal(Lookup(ms, "installments"), pf))
                else g.installments == f.installments)
            && (if "requested_at" in Keys(ms)
                then IsStamp(Lookup(ms, "requested_at")) && g.ts == StampVal(Lookup(ms, "requested_at"))
                else g.ts == f.ts)
    decreases ms
  {
    hide StampVal, ToInt32;
    if ms.Member? {
      TxByLookup(ms.tail, SetField(TransactionObj, ms.key, ms.val, f, pf), pf);
    }
  }

  lemma {:induction false} CustomerByLookup(ms: Members, f: Fields, pf: ParseFloat)
    requires FieldsOK(CustomerObj, ms, pf) && UniqueKeys(ms)
    ensures var g := ReadFields(CustomerObj, ms, f, pf);
            && (if "avg_amount" in Keys(ms)
                then IsNum(Lookup(ms, "avg_amount"), pf) && g.customerAvg == NumVal(Lookup(ms, "avg_amount"), pf)
                else g.customerAvg == f.customerAvg)
            && (if "tx_count_24h" in Keys(ms)
                then IsNum(Lookup(ms, "tx_count_24h"), pf)
                     && g.txCount24h == ToInt32(NumVal(Lookup(ms, "tx_count_24h"), pf))
                else g.txCount24h == f.txCount24h)
            && g.known == (if "known_merchants" in Keys(ms) && Lookup(ms, "known_merchants").Arr?
                           then Print(Lookup(ms, "known_merchants")) else f.known)
    decreases ms
  {
    hide ToInt32, Print;
    if ms.Member? {
      CustomerByLookup(ms.tail, SetField(CustomerObj, ms.key, ms.val, f, pf), pf);
    }
  }

  lemma {:induction false} MerchantByLookup(ms: Members, f: Fields, pf: ParseFloat)
    requires FieldsOK(MerchantObj, ms, pf) && UniqueKeys(ms)
    ensures var g := ReadFields(MerchantObj, ms, f, pf);
            && (if "id" in Keys(ms) then Lookup(ms, "id").Text? && g.mid == Lookup(ms, "id").raw else g.mid == f.mid)
            && (if "mcc" in Keys(ms) then Lookup(ms, "mcc").Text? && g.mcc == Lookup(ms, "mcc").raw else g.mcc == f.mcc)
            && (if "avg_amount" in Keys(ms)
                then IsNum(Lookup(ms, "avg_amount"), pf) && g.merchantAvg == NumVal(Lookup(ms, "avg_amount"), pf)
                else g.merchantAvg == f.merchantAvg)
    decreases ms
  {
    if ms.Member? {
      MerchantByLookup(ms.tail, SetField(MerchantObj, ms.key, ms.val, f, pf), pf);
    }
  }

  lemma {:induction false} TerminalByLookup(ms: Members, f: Fields, pf: ParseFloat)
    requires FieldsOK(TerminalObj, ms, pf) && UniqueKeys(ms)
    ensures var g := ReadFields(TerminalObj, ms, f, pf);
            && g.isOnline == (if "is_online" in Keys(ms) then StartsWithT(Lookup(ms, "is_online")) else f.isOnline)
            && g.cardPresent == (if "card_present" in Keys(ms)
                                 then StartsWithT(Lookup(ms, "card_present")) else f.cardPresent)
            && (if "km_from_home" in Keys(ms)
                then IsNum(Lookup(ms, "km_from_home"), pf) && g.kmHome == NumVal(Lookup(ms, "km_from_home"), pf)
                else g.kmHome == f.kmHome)
    decreases ms
  {
    hide StartsWithT;
    if ms.Member? {
      TerminalByLookup(ms.tail, SetField(TerminalObj, ms.key, ms.val, f, pf), pf);
    }
  }

  lemma {:induction false} LastByLookup(ms: Members, f: Fields, pf: ParseFloat)
    requires FieldsOK(LastTxObj, ms, pf) && UniqueKeys(ms)
    ensures var g := ReadFields(LastTxObj, ms, f, pf);
            && g.hasLastTx == f.hasLastTx
            && (if "timestamp" in Keys(ms)
                then IsStamp(Lookup(ms, "timestamp")) && g.lastTS == StampVal(Lookup(ms, "timestamp"))
                else g.lastTS == f.lastTS)
            && (if "km_from_current" in Keys(ms)
                then IsNum(Lookup(ms, "km_from_current"), pf) && g.kmLast == NumVal(Lookup(ms, "km_from_current"), pf)
                else g.kmLast == f.kmLast)
    decreases ms
  {
    hide StampVal;
    if ms.Member? {
      LastByLookup(ms.tail, SetField(LastTxObj, ms.key, ms.val, f, pf), pf);
    }
  }

  // ---- Lane by lane -------------------------------------------------------------------------

  /** A decoded timestamp; a missing one leaves the field at zero. */
  ghost predicate TimeOf(text: bytes, ts: int) {
    if text == [] then ts == 0 else Denotes(text, ts)
  }

  /** The extracted fields carry the payload's values; merchant and code are compared apart. */
  ghost predicate Matches(f: Fields, p: Payload) {
    && f.amount == p.amount && f.installments == p.installments && TimeOf(p.requestedAt, f.ts)
    && f.customerAvg == p.customerAvg && f.txCount24h == p.txCount24h && f.merchantAvg == p.merchantAvg
    && f.isOnline == p.isOnline && f.cardPresent == p.cardPresent && f.kmHome == p.kmFromHome
    && f.hasLastTx == p.last.Some?
    && (p.last.Some? ==> TimeOf(p.last.value.timestamp, f.lastTS) && f.kmLast == p.last.value.kmFromCurrent)
  }

  lemma Q01IsClamped(x: real)
    ensures Q01(x) == QuantizeOne(Clamp01(x))
    ensures 0.0 <= x <= 1.0 ==> Q01(x) == QuantizeOne(x)
  {
  }

  lemma Q01Gap(x: real, y: real)
    requires 0.0 <= x && y <= 1.0 && y - x >= 0.01
    ensures Q01(x) < Q01(y)
  {
    assert y * 10000.0 >= x * 10000.0 + 100.0;
  }

  /** Shares a hundredth apart quantize to distinct lanes. */
  lemma ShareLanes(x: real, y: real)
    requires 0.0 <= x <= 1.0 && 0.0 <= y <= 1.0 && (x == y || x + 0.01 <= y || y + 0.01 <= x)
    ensures Q01(x) == QuantizeOne(y) <==> x == y
  {
    Q01IsClamped(y);
    hide Q01, QuantizeOne;
    if x < y {
      Q01Gap(x, y);
    } else if y < x {
      Q01Gap(y, x);
    }
  }

  lemma HourLanes(a: int, b: int)
    requires 0 <= a <= 23 && 0 <= b <= 23
    ensures Q01(HourShare(a)) == QuantizeOne(HourShare(b)) <==> a == b
  {
    hide Q01, QuantizeOne;
    ShareLanes(HourShare(a), HourShare(b));
  }

  lemma WeekdayLanes(a: int, b: int)
    requires 0 <= a <= 6 && 0 <= b <= 6
    ensures Q01(WeekdayShare(a)) == QuantizeOne(WeekdayShare(b)) <==> a == b
  {
    hide Q01, QuantizeOne;
    ShareLanes(WeekdayShare(a), WeekdayShare(b));
  }

  predicate ClockAgrees(ts: int) {
    ts >= 0 || ts % 86400 == 0
  }

  lemma ClockIff(ts: int)
    ensures (CodeHour(ts) == UtcHour(ts) && CodeWeekday(ts) == UtcWeekday(ts)) <==> ClockAgrees(ts)
  {
    hide CodeHour, UtcHour, CodeWeekday, UtcWeekday;
    HourIff(ts);
    WeekdayIff(ts);
    if ts % 86400 == 0 {
      WholeDays(ts);
    }
  }

  lemma WholeDays(ts: int)
    requires ts % 86400 == 0
    ensures ts % 3600 == 0
  {
    DivModUnique(ts, 3600, 24 * (ts / 86400), 0);
  }

  /** A last transaction without a time counts as no time ago in the reference, and as one at
      the epoch in the code: these agree as long as the minutes since the epoch round to 0. */
  predicate UntimedAgrees(ts: int, max: real)
    requires max != 0.0
  {
    (ts as real / 60.0) / max < 0.00005
  }

  /** The reference cuts the difference of two times off at 292 years, the code does not. */
  predicate ElapsedAgrees(ct: int, lt: int, max: real)
    requires max != 0.0
  {
    FitsDuration(ct - lt) || Q01(((ct - lt) as real / 60.0) / max) == Q01(Minutes(Sub(ct, lt)) / max)
  }

  /** Up to a scale of 292 years the cut makes no difference. */
  lemma ShortScaleAgrees(ct: int, lt: int, max: real)
    requires 0.0 < max <= 153_722_867.0
    ensures ElapsedAgrees(ct, lt, max)
  {
    var s := ct - lt;
    if s > 9_223_372_036 {
      OverOne(s as real / 60.0, max);
      OverOne(Minutes(Sub(ct, lt)), max);
    } else if s < -9_223_372_036 {
      BelowZero(s as real / 60.0, max);
      BelowZero(Minutes(Sub(ct, lt)), max);
    }
  }

  lemma OverOne(m: real, max: real)
    requires 0.0 < max <= m
    ensures Q01(m / max) == QSCALE
  {
    assert m / max >= 1.0 by {
      assert (m / max) * max == m;
    }
  }

  lemma BelowZero(m: real, max: real)
    requires m < 0.0 < max
    ensures Q01(m / max) == 0
  {
    assert m / max < 0.0 by {
      assert (m / max) * max == m;
    }
  }

  ghost predicate LastAgrees(n: Normalizer, p: Payload, ts: int)
    requires n.Valid()
  {
    p.last.Some? ==>
      var text := p.last.value.timestamp;
      if text == [] then UntimedAgrees(ts, n.c.maxMinutes)
      else TimeParse(text).Some? && ElapsedAgrees(ts, TimeParse(text).value, n.c.maxMinutes)
  }

  /** The code clamps the risk of the code as it is spelled, the reference neither clamps nor
      takes the spelling. */
  predicate RiskAgrees(spelled: real, decoded: real) {
    Q01(spelled) == QuantizeOne(decoded)
  }

  /** For a code that stands for itself and a risk whose lane fits an int16. */
  lemma RiskIff(r: real)
    requires -3.2768 <= r <= 3.2767
    ensures RiskAgrees(r, r) <==> -0.00005 < r < 1.00005
  {
  }

  /** With the payload's values extracted, all fourteen lanes agree exactly when there is a
      request time and clock, last transaction, merchant flag and risk do. */
  lemma LanesIff(n: Normalizer, f: Fields, p: Payload)
    requires n.Valid() && Matches(f, p)
    ensures QueryVec(n, f) == QuantizeAll(Vectorize(n, p)) <==>
            && p.requestedAt != [] && ClockAgrees(f.ts) && LastAgrees(n, p, f.ts)
            && (FoundIn(f.known, f.mid) <==> p.merchantId in p.knownMerchants)
            && RiskAgrees(n.Risk(f.mcc), n.Risk(p.merchantMcc))
  {
    if p.requestedAt == [] {
      UntimedDiffers(n, f, p);
    } else {
      var q, v := QueryVec(n, f), QuantizeAll(Vectorize(n, p));
      AmountLanes(n, f, p);
      LastKmLane(n, f, p);
      LastTimeLane(n, f, p);
      ProfileLanes(n, f, p);
      RiskLane(n, f, p);
      ClockAndFlagLanes(n, f, p);
      hide QueryVec, Vectorize, Matches, ClockAgrees, LastAgrees, RiskAgrees, FoundIn;
      FiveLanesDecide(q, v);
    }
  }

  lemma FiveLanesDecide(q: seq<int>, v: seq<int>)
    requires |q| == |v| == DIMS
    requires q[0] == v[0] && q[1] == v[1] && q[2] == v[2] && q[6] == v[6] && q[7] == v[7]
    requires q[8] == v[8] && q[9] == v[9] && q[10] == v[10] && q[13] == v[13]
    ensures q == v <==> q[3] == v[3] && q[4] == v[4] && q[5] == v[5] && q[11] == v[11] && q[12] == v[12]
  {
    if q[3] == v[3] && q[4] == v[4] && q[5] == v[5] && q[11] == v[11] && q[12] == v[12] {
      assert forall i :: 0 <= i < DIMS ==> q[i] == v[i];
    }
  }

  lemma EmptyHasNoTime()
    ensures TimeParse([]).None?
  {
    forall t: Stamp | t.Valid()
      ensures t.Print() != []
    {
      PrintShape(t);
    }
    hide Stamp.Print, Stamp.Instant;
  }

  /** Without a request time the weekday lanes differ: Thursday in the code, Monday in the
      reference. */
  lemma UntimedDiffers(n: Normalizer, f: Fields, p: Payload)
    requires n.Valid() && Matches(f, p) && p.requestedAt == []
    ensures QueryVec(n, f)[4] == 5000 && QuantizeAll(Vectorize(n, p))[4] == 0
  {
    EmptyHasNoTime();
    QueryClock(n, f);
    VectorUntimed(n, p);
    EpochWeekday();
    Constants();
    hide QueryVec, Vectorize, TimeParse, CodeWeekday, WeekdayShare, Q01, QuantizeOne;
  }

  lemma EpochWeekday()
    ensures CodeWeekday(0) == 3 && Q01(WeekdayShare(3)) == 5000
  {
    WeekdayIff(0);
    hide CodeWeekday, Q01, WeekdayShare;
    DayNearest(3);
  }

  lemma VectorUntimed(n: Normalizer, p: Payload)
    requires n.Valid() && TimeParse(p.requestedAt).None?
    ensures Vectorize(n, p)[4] == 0.0
  {
    hide TimeParse, Clamp01, UtcHour, UtcWeekday, Boolf, HourShare, WeekdayShare, Normalizer.Risk, MinutesBetween;
  }

  /** The lanes that never depend on the clock or the merchant list. */
  lemma AmountLanes(n: Normalizer, f: Fields, p: Payload)
    requires n.Valid() && Matches(f, p)
    ensures var q, v := QueryVec(n, f), QuantizeAll(Vectorize(n, p));
            q[0] == v[0] && q[1] == v[1] && q[2] == v[2]
  {
    hide FoundIn, CodeHour, CodeWeekday, Q01, Clamp01, QuantizeOne;
    hide UtcHour, UtcWeekday, HourShare, WeekdayShare, Denotes;
    hide TimeParse, Boolf, BoolQ;
    Q01IsClamped(f.amount / n.c.maxAmount);
    Q01IsClamped(f.installments as real / n.c.maxInstallments);
    if f.customerAvg > 0.0 {
      Q01IsClamped((f.amount / f.customerAvg) / n.c.amountVsAvgRatio);
    }
    Constants();
  }

  lemma LastKmLane(n: Normalizer, f: Fields, p: Payload)
    requires n.Valid() && Matches(f, p)
    ensures QueryVec(n, f)[6] == QuantizeAll(Vectorize(n, p))[6]
  {
    hide FoundIn, CodeHour, CodeWeekday, Q01, Clamp01, QuantizeOne;
    hide UtcHour, UtcWeekday, HourShare, WeekdayShare, Denotes;
    hide TimeParse, Boolf, BoolQ, MinutesBetween, Normalizer.Risk;
    Constants();
    if f.hasLastTx {
      Q01IsClamped(f.kmLast / n.c.maxKm);
    }
  }

  /** What the two computations put into lane 5. */
  lemma LastTimeValues(n: Normalizer, f: Fields, p: Payload)
    requires n.Valid() && Matches(f, p)
    ensures QueryVec(n, f)[5] ==
            if f.hasLastTx then Q01(((f.ts - f.lastTS) as real / 60.0) / n.c.maxMinutes) else -QSCALE
    ensures Vectorize(n, p)[5] ==
            if p.last.Some? then Clamp01(MinutesBetween(p.last.value.timestamp, p.requestedAt) / n.c.maxMinutes)
            else -1.0
  {
    hide FoundIn, CodeHour, CodeWeekday, Q01, Clamp01, QuantizeOne;
    hide UtcHour, UtcWeekday, HourShare, WeekdayShare, Denotes;
    hide TimeParse, Boolf, BoolQ, MinutesBetween, Normalizer.Risk;
  }

  lemma LastTimeLane(n: Normalizer, f: Fields, p: Payload)
    requires n.Valid() && Matches(f, p) && p.requestedAt != []
    ensures QueryVec(n, f)[5] == QuantizeAll(Vectorize(n, p))[5] <==> LastAgrees(n, p, f.ts)
  {
    hide QueryVec, Vectorize, Q01, Clamp01, QuantizeOne, Denotes, MinutesBetween;
    LastTimeValues(n, f, p);
    if p.last.None? {
      Constants();
    } else if p.last.value.timestamp == [] {
      UntimedLast(p.requestedAt, f.ts, n.c.maxMinutes);
    } else {
      DenotesUnique(p.last.value.timestamp, f.lastTS);
      TimedLast(p.last.value.timestamp, p.requestedAt, f.lastTS, f.ts, n.c.maxMinutes);
    }
  }

  lemma UntimedLast(current: bytes, ct: int, max: real)
    requires max != 0.0
    ensures Q01(((ct - 0) as real / 60.0) / max) == QuantizeOne(Clamp01(MinutesBetween([], current) / max)) <==>
            UntimedAgrees(ct, max)
  {
    hide Q01, Clamp01, QuantizeOne, MinutesBetween;
    NoMinutes(current);
    ZeroShare(max);
    RoundsToZero((ct as real / 60.0) / max);
  }

  lemma TimedLast(last: bytes, current: bytes, lt: int, ct: int, max: real)
    requires max != 0.0 && Denotes(last, lt) && Denotes(current, ct)
    ensures Q01(((ct - lt) as real / 60.0) / max) == QuantizeOne(Clamp01(MinutesBetween(last, current) / max)) <==>
            ElapsedAgrees(ct, lt, max)
  {
    hide Q01, Clamp01, QuantizeOne, MinutesBetween, Denotes;
    MinutesAre(last, current, lt, ct);
    Q01IsClamped(Minutes(Sub(ct, lt)) / max);
    if FitsDuration(ct - lt) {
      MinutesExact(ct, lt);
    }
  }

  lemma MinutesExact(ct: int, lt: int)
    requires FitsDuration(ct - lt)
    ensures Minutes(Sub(ct, lt)) == (ct - lt) as real / 60.0
  {
  }

  lemma NoMinutes(current: bytes)
    ensures MinutesBetween([], current) == 0.0
  {
    EmptyHasNoTime();
  }

  lemma ZeroShare(max: real)
    requires max != 0.0
    ensures QuantizeOne(Clamp01(0.0 / max)) == 0
  {
    assert 0.0 / max == 0.0;
  }

  lemma RoundsToZero(x: real)
    ensures Q01(x) == 0 <==> x < 0.00005
  {
  }

  lemma MinutesAre(last: bytes, current: bytes, lt: int, ct: int)
    requires Denotes(last, lt) && Denotes(current, ct)
    ensures MinutesBetween(last, current) == Minutes(Sub(ct, lt))
  {
    hide Denotes;
    DenotesUnique(last, lt);
    DenotesUnique(current, ct);
  }

  lemma ProfileLanes(n: Normalizer, f: Fields, p: Payload)
    requires n.Valid() && Matches(f, p)
    ensures var q, v := QueryVec(n, f), QuantizeAll(Vectorize(n, p));
            q[7] == v[7] && q[8] == v[8] && q[9] == v[9] && q[10] == v[10] && q[13] == v[13]
  {
    hide FoundIn, CodeHour, CodeWeekday, Q01, Clamp01, QuantizeOne;
    hide UtcHour, UtcWeekday, HourShare, WeekdayShare, Denotes;
    hide TimeParse, Normalizer.Risk, MinutesBetween;
    Q01IsClamped(f.kmHome / n.c.maxKm);
    Q01IsClamped(f.txCount24h as real / n.c.maxTxCount24h);
    Q01IsClamped(f.merchantAvg / n.c.maxMerchantAvgAmount);
    Constants();
  }

  lemma RiskLane(n: Normalizer, f: Fields, p: Payload)
    requires n.Valid()
    ensures QueryVec(n, f)[12] == QuantizeAll(Vectorize(n, p))[12] <==>
            RiskAgrees(n.Risk(f.mcc), n.Risk(p.merchantMcc))
  {
    hide FoundIn, CodeHour, CodeWeekday, Q01, Clamp01, QuantizeOne;
    hide UtcHour, UtcWeekday, HourShare, WeekdayShare, Denotes;
    hide TimeParse, Normalizer.Risk, MinutesBetween, Boolf, BoolQ;
  }

  lemma Constants()
    ensures QuantizeOne(1.0) == QSCALE && QuantizeOne(0.0) == 0 && QuantizeOne(-1.0) == -QSCALE
    ensures forall b: bool :: QuantizeOne(Boolf(b)) == BoolQ(b)
  {
  }

  lemma ClockAndFlagLanes(n: Normalizer, f: Fields, p: Payload)
    requires n.Valid() && Matches(f, p) && p.requestedAt != []
    ensures var q, v := QueryVec(n, f), QuantizeAll(Vectorize(n, p));
            && (q[3] == v[3] && q[4] == v[4] <==> ClockAgrees(f.ts))
            && (q[11] == v[11] <==> (FoundIn(f.known, f.mid) <==> p.merchantId in p.knownMerchants))
  {
    DenotesUnique(p.requestedAt, f.ts);
    QueryClock(n, f);
    VectorClock(n, p, f.ts);
    hide QueryVec, Vectorize, Matches, Denotes, TimeParse, Q01, QuantizeOne, BoolQ, Boolf, ClockAgrees, FoundIn;
    hide CodeHour, CodeWeekday, UtcHour, UtcWeekday, HourShare, WeekdayShare;
    HourLanes(CodeHour(f.ts), UtcHour(f.ts));
    WeekdayLanes(CodeWeekday(f.ts), UtcWeekday(f.ts));
    ClockIff(f.ts);
    FlagLanes(FoundIn(f.known, f.mid), p.merchantId in p.knownMerchants);
  }

  lemma FlagLanes(found: bool, listed: bool)
    ensures BoolQ(!found) == QuantizeOne(Boolf(!listed)) <==> (found <==> listed)
  {
    Constants();
  }

  /** What the two computations put into lanes 3, 4 and 11. */
  lemma QueryClock(n: Normalizer, f: Fields)
    requires n.Valid()
    ensures QueryVec(n, f)[3] == Q01(HourShare(CodeHour(f.ts)))
    ensures QueryVec(n, f)[4] == Q01(WeekdayShare(CodeWeekday(f.ts)))
    ensures QueryVec(n, f)[11] == BoolQ(!FoundIn(f.known, f.mid))
  {
    hide FoundIn, CodeHour, CodeWeekday, Q01, BoolQ, HourShare, WeekdayShare, Normalizer.Risk;
  }

  lemma VectorClock(n: Normalizer, p: Payload, ts: int)
    requires n.Valid() && TimeParse(p.requestedAt) == Some(ts)
    ensures Vectorize(n, p)[3] == HourShare(UtcHour(ts))
    ensures Vectorize(n, p)[4] == WeekdayShare(UtcWeekday(ts))
    ensures Vectorize(n, p)[11] == Boolf(p.merchantId !in p.knownMerchants)
  {
    hide TimeParse, Clamp01, UtcHour, UtcWeekday, Boolf, HourShare, WeekdayShare, Normalizer.Risk;
  }

  // ---- The extracted fields of a printed payload ---------------------------------------------

  lemma IntExtracted(v: Json, pf: ParseFloat)
    requires IsInt32(v)
    ensures IsNum(v, pf) && ToInt32(NumVal(v, pf)) == IntVal(v)
  {
    assert NatOf([]) == 0 && Pow10(0) == 1;
    assert v.lit.Fraction() == [];
    assert NumVal(v, pf) == IntVal(v) as real;
  }

  lemma StampIsAscii(t: Stamp)
    requires t.Valid()
    ensures IsAscii(t.Print())
  {
    hide DigitChar;
    assert IsAscii(t.PrintDate()) && IsAscii(t.PrintTime()) && IsAscii(t.PrintZone());
  }

  lemma StampExtracted(d: Decoder, v: Json)
    requires d.Valid() && v.Text? && exists ts :: Denotes(v.raw, ts)
    ensures IsStamp(v) && v.raw != [] && Denotes(v.raw, StampVal(v)) && d.unquote(v.raw) == v.raw
  {
    hide ParseISO8601, Stamp.Print;
    var ts :| Denotes(v.raw, ts);
    DenotesUnique(v.raw, ts);
    var t: Stamp :| t.Valid() && t.Print() == v.raw && t.Instant() == ts;
    StampIsAscii(t);
  }

  lemma BoolExtracted(v: Json)
    requires IsBool(v)
    ensures StartsWithT(v) == (v == Scalar("true"))
  {
  }

  /** The time a section carries under a key. */
  lemma TimeExtracted(d: Decoder, ms: Members, key: bytes, ts: int)
    requires d.Valid() && StampMember(ms, key)
    requires if key in Keys(ms) then IsStamp(Lookup(ms, key)) && ts == StampVal(Lookup(ms, key)) else ts == 0
    ensures TimeOf(d.unquote(RawOf(ms, key)), ts)
  {
    hide Denotes, StampVal, IsStamp;
    if key in Keys(ms) {
      StampExtracted(d, Lookup(ms, key));
    } else {
      assert IsAscii([]);
    }
  }

  lemma TxMatches(d: Decoder, ms: Members, pf: ParseFloat)
    requires d.Valid() && Conforms(d, ms, pf)
    ensures var f, p := ReadRoot(ms, NO_FIELDS, pf), PayloadOf(d, ms, pf);
            f.amount == p.amount && f.installments == p.installments && TimeOf(p.requestedAt, f.ts)
  {
    hide FieldsOK, ReadRoot, RootOK, ReadFields, TimeOf, ToInt32, StampVal, IntVal, IsInt32, IsNum, NumVal;
    hide StampMember, KeysClear, Strict, Decoder.Literal, Decoder.Valid;
    var tx := SectionMembers(TransactionObj, ms);
    assert SectionClear(d, TransactionObj, ms);
    SectionFields(TransactionObj, ms, pf);
    TxByLookup(tx, NO_FIELDS, pf);
    TimeExtracted(d, tx, "requested_at", ReadFields(TransactionObj, tx, NO_FIELDS, pf).ts);
    if "installments" in Keys(tx) {
      IntExtracted(Lookup(tx, "installments"), pf);
    }
  }

  lemma CustomerMatches(d: Decoder, ms: Members, pf: ParseFloat)
    requires d.Valid() && Conforms(d, ms, pf)
    ensures var f, p := ReadRoot(ms, NO_FIELDS, pf), PayloadOf(d, ms, pf);
            f.customerAvg == p.customerAvg && f.txCount24h == p.txCount24h
            && f.known == KnownText(ms)
  {
    hide FieldsOK, ReadRoot, RootOK, ReadFields, Denotes, ToInt32, StampVal, IntVal, IsInt32, IsNum, NumVal;
    hide StampMember, KeysClear, Strict, Decoder.Literal, Decoder.Valid;
    var cu := SectionMembers(CustomerObj, ms);
    assert SectionClear(d, CustomerObj, ms);
    SectionFields(CustomerObj, ms, pf);
    CustomerByLookup(cu, NO_FIELDS, pf);
    if "tx_count_24h" in Keys(cu) {
      IntExtracted(Lookup(cu, "tx_count_24h"), pf);
    }
  }

  /** The text of the array of known merchants, empty when there is none. */
  function KnownText(ms: Members): bytes {
    var cu := SectionMembers(CustomerObj, ms);
    if "known_merchants" in Keys(cu) && Lookup(cu, "known_merchants").Arr?
    then Print(Lookup(cu, "known_merchants")) else []
  }

  /** The merchant code as it is spelled. */
  ghost function SpelledMcc(ms: Members, pf: ParseFloat): bytes
    requires RootOK(ms, pf)
  {
    SectionsReadable(ms, pf);
    RawOf(SectionMembers(MerchantObj, ms), "mcc")
  }

  lemma MerchantMatches(d: Decoder, ms: Members, pf: ParseFloat)
    requires d.Valid() && Conforms(d, ms, pf)
    ensures var f, p := ReadRoot(ms, NO_FIELDS, pf), PayloadOf(d, ms, pf);
            && f.mid == p.merchantId && PlainId(p.merchantId) && f.merchantAvg == p.merchantAvg
            && f.mcc == SpelledMcc(ms, pf) && p.merchantMcc == d.unquote(SpelledMcc(ms, pf))
  {
    hide FieldsOK, ReadRoot, RootOK, ReadFields, Denotes, ToInt32, StampVal, IntVal, IsInt32, IsNum, NumVal;
    hide StampMember, KeysClear, Strict;
    assert SectionClear(d, MerchantObj, ms);
    SectionFields(MerchantObj, ms, pf);
    MerchantByLookup(SectionMembers(MerchantObj, ms), NO_FIELDS, pf);
    assert IsAscii([]);
  }

  lemma TerminalMatches(d: Decoder, ms: Members, pf: ParseFloat)
    requires d.Valid() && Conforms(d, ms, pf)
    ensures var f, p := ReadRoot(ms, NO_FIELDS, pf), PayloadOf(d, ms, pf);
            f.isOnline == p.isOnline && f.cardPresent == p.cardPresent && f.kmHome == p.kmFromHome
  {
    hide FieldsOK, ReadRoot, RootOK, ReadFields, Denotes, ToInt32, StampVal;
    hide IntVal, IsInt32, IsNum, NumVal, StartsWithT;
    hide StampMember, KeysClear, Strict, Decoder.Literal, Decoder.Valid;
    var te := SectionMembers(TerminalObj, ms);
    assert SectionClear(d, TerminalObj, ms);
    SectionFields(TerminalObj, ms, pf);
    TerminalByLookup(te, NO_FIELDS, pf);
    if "is_online" in Keys(te) {
      BoolExtracted(Lookup(te, "is_online"));
    }
    if "card_present" in Keys(te) {
      BoolExtracted(Lookup(te, "card_present"));
    }
  }

  lemma LastMatches(d: Decoder, ms: Members, pf: ParseFloat)
    requires d.Valid() && Conforms(d, ms, pf)
    ensures var f, p := ReadRoot(ms, NO_FIELDS, pf), PayloadOf(d, ms, pf);
            && f.hasLastTx == p.last.Some?
            && (p.last.Some? ==> TimeOf(p.last.value.timestamp, f.lastTS) && f.kmLast == p.last.value.kmFromCurrent)
  {
    hide FieldsOK, ReadRoot, RootOK, ReadFields, TimeOf, ToInt32, StampVal, IntVal, IsInt32, IsNum, NumVal;
    hide StampMember, KeysClear, Strict, Decoder.Literal, Decoder.Valid;
    var la, blank := SectionMembers(LastTxObj, ms), if HasLast(ms) then NO_FIELDS.(hasLastTx := true) else NO_FIELDS;
    assert SectionClear(d, LastTxObj, ms);
    SectionFields(LastTxObj, ms, pf);
    LastByLookup(la, blank, pf);
    TimeExtracted(d, la, "timestamp", ReadFields(LastTxObj, la, blank, pf).lastTS);
  }

  // ---- The merchant flag ------------------------------------------------------------------------

  /** The comma texts between the listed merchants. */
  function KnownSeparators(ms: Members): seq<bytes>
    requires KnownOK(SectionMembers(CustomerObj, ms))
  {
    var cu := SectionMembers(CustomerObj, ms);
    if "known_merchants" in Keys(cu) && Lookup(cu, "known_merchants").Arr?
    then Separators(Lookup(cu, "known_merchants").elems) else []
  }

  /** When the raw-text search and list membership agree: the id is listed, or it is not one
      of the separator texts; an empty id must not be listed, for the search never finds it. */
  predicate MerchantAgrees(id: bytes, list: seq<bytes>, seps: seq<bytes>) {
    if id == [] then id !in list else id in list || id !in seps
  }

  lemma MerchantIff(ms: Members, id: bytes)
    requires KnownOK(SectionMembers(CustomerObj, ms)) && PlainId(id)
    ensures var list := KnownOf(SectionMembers(CustomerObj, ms));
            (FoundIn(KnownText(ms), id) <==> id in list) <==> MerchantAgrees(id, list, KnownSeparators(ms))
  {
    var cu := SectionMembers(CustomerObj, ms);
    if "known_merchants" in Keys(cu) && Lookup(cu, "known_merchants").Arr? {
      var v := Lookup(cu, "known_merchants");
      assert Print(v) != [];
      SearchIsMembership(v.aws, v.elems, id);
    }
  }

  // ---- The theorem --------------------------------------------------------------------------------

  /** When the cursor's query and the quantized reference vector of a document are equal. */
  ghost predicate VectorsAgree(n: Normalizer, d: Decoder, ms: Members, pf: ParseFloat)
    requires n.Valid() && Conforms(d, ms, pf)
  {
    var p := PayloadOf(d, ms, pf);
    var at := TimeParse(p.requestedAt);
    && at.Some? && ClockAgrees(at.value) && LastAgrees(n, p, at.value)
    && MerchantAgrees(p.merchantId, p.knownMerchants, KnownSeparators(ms))
    && RiskAgrees(n.Risk(SpelledMcc(ms, pf)), n.Risk(p.merchantMcc))
  }

  /** For every payload document, printed with any member order, any white space and any
      further members, and whatever decoding does to escapes: the cursor-based query is the
      quantized reference vector exactly when the document has a request time, not before the
      epoch or on a day boundary; a last transaction without a time does not count; the
      merchant id is not mistaken for a separator; and the risk of the code is the same clamped
      and as it is spelled. */
  lemma QueryAgrees(n: Normalizer, d: Decoder, front: bytes, ws: bytes, ms: Members, rest: bytes, pf: ParseFloat)
    requires n.Valid() && d.Valid() && AllSpace(front) && AllSpace(ws) && AllSpace(rest) && Conforms(d, ms, pf)
    ensures var query := QueryOf(n, front + Print(Obj(ws, ms)) + rest, pf);
            query == Some(QuantizeAll(Vectorize(n, PayloadOf(d, ms, pf)))) <==> VectorsAgree(n, d, ms, pf)
  {
    hide PayloadOf, Conforms, ParseBody, ReadRoot, RootOK, QueryVec, FoundIn, Vectorize, ClockAgrees, MerchantAgrees;
    hide Matches, LastAgrees, RiskAgrees, Decoder.Valid, TimeParse, SpelledMcc;
    ConformsParts(d, ms, pf);
    var p, f := PayloadOf(d, ms, pf), ReadRoot(ms, NO_FIELDS, pf);
    ParsePrintedPayload(front, ws, ms, rest, pf);
    FieldsMatch(d, ms, pf);
    LanesIff(n, f, p);
    MerchantIff(ms, p.merchantId);
    TimeParsed(f, p);
  }

  /** The lanes of the query of a conforming document requested at or after the epoch, by the
      payload and in numbers: hours since midnight and days since Monday in UTC, a last time that
      is missing counted as the epoch, and the code as it is spelled. */
  ghost predicate QueryMeansFor(n: Normalizer, p: Payload, code: bytes, at: int, q: seq<int>)
    requires n.Valid() && |q| == 14
  {
    && IsShare(q[0], p.amount / n.c.maxAmount)
    && IsShare(q[1], p.installments as real / n.c.maxInstallments)
    && (if p.customerAvg > 0.0 then IsShare(q[2], (p.amount / p.customerAvg) / n.c.amountVsAvgRatio)
        else q[2] == 10000)
    && ClockShares(q[3], q[4], (at % 86400) / 3600, (at / 86400 + 3) % 7)
    && (if p.last.Some?
        then
          && IsShare(q[5], ((at - LastInstant(p.last.value.timestamp)) as real / 60.0) / n.c.maxMinutes)
          && IsShare(q[6], p.last.value.kmFromCurrent / n.c.maxKm)
        else q[5] == q[6] == -10000)
    && IsShare(q[7], p.kmFromHome / n.c.maxKm)
    && IsShare(q[8], p.txCount24h as real / n.c.maxTxCount24h)
    && q[9] == (if p.isOnline then 10000 else 0) && q[10] == (if p.cardPresent then 10000 else 0)
    && IsShare(q[12], if code in n.mcc then n.mcc[code] else 0.5)
    && IsShare(q[13], p.merchantAvg / n.c.maxMerchantAvgAmount)
  }

  ghost function LastInstant(text: bytes): int {
    if TimeParse(text).Some? then TimeParse(text).value else 0
  }

  lemma QueryMeans(n: Normalizer, d: Decoder, front: bytes, ws: bytes, ms: Members, rest: bytes, pf: ParseFloat)
    requires n.Valid() && d.Valid() && AllSpace(front) && AllSpace(ws) && AllSpace(rest) && Conforms(d, ms, pf)
    ensures var query := QueryOf(n, front + Print(Obj(ws, ms)) + rest, pf);
            var p := PayloadOf(d, ms, pf);
            query.Some? && (TimeParse(p.requestedAt).Some? && TimeParse(p.requestedAt).value >= 0 ==>
              QueryMeansFor(n, p, SpelledMcc(ms, pf), TimeParse(p.requestedAt).value, query.value))
  {
    hide PayloadOf, Conforms, ParseBody, ReadRoot, RootOK, QueryVec, FoundIn, Decoder.Valid, TimeParse, SpelledMcc;
    hide Matches, IsShare, ClockShares, QueryMeansFor;
    ConformsParts(d, ms, pf);
    var p, f := PayloadOf(d, ms, pf), ReadRoot(ms, NO_FIELDS, pf);
    ParsePrintedPayload(front, ws, ms, rest, pf);
    FieldsMatch(d, ms, pf);
    TimeParsed(f, p);
    FieldsMean(n, f, p);
  }

  lemma FieldsMean(n: Normalizer, f: Fields, p: Payload)
    requires n.Valid() && Matches(f, p)
    ensures p.requestedAt != [] && f.ts >= 0 ==> QueryMeansFor(n, p, f.mcc, f.ts, QueryVec(n, f))
  {
    hide QueryVec, IsShare, ClockShares, Denotes, FoundIn, TimeParse;
    LanesMean(n, f);
    if p.last.Some? {
      LastRead(p.last.value.timestamp, f.lastTS);
    }
  }

  lemma LastRead(text: bytes, ts: int)
    requires TimeOf(text, ts)
    ensures LastInstant(text) == ts
  {
    EmptyHasNoTime();
    if text != [] {
      DenotesUnique(text, ts);
    }
    hide Denotes, TimeParse;
  }

  /** On any JSON text of an object there is a query exactly when its interpreted members have
      the kinds that the parser expects. Documents with a null elsewhere unmarshal, and have
      none (NullsRejected). */
  lemma QueryAbsentIff(n: Normalizer, front: bytes, ws: bytes, ms: Members, rest: bytes, pf: ParseFloat)
    requires n.Valid() && AllSpace(front) && AllSpace(ws) && MembersOK(ms) && StrictMembers(ms) && RootUncut(ms)
    ensures QueryOf(n, front + Print(Obj(ws, ms)) + rest, pf).None? <==> !RootOK(ms, pf)
    ensures NullInRoot(ms) ==> QueryOf(n, front + Print(Obj(ws, ms)) + rest, pf).None?
  {
    hide ParseBody, RootOK, StrictMembers, RootUncut, NullInRoot, MembersOK, Print;
    assert WellFormed(Obj(ws, ms));
    ParseIff(front, ws, ms, rest, pf);
    if NullInRoot(ms) {
      NullsRejected(ms, pf);
    }
  }

  lemma TimeParsed(f: Fields, p: Payload)
    requires Matches(f, p)
    ensures TimeParse(p.requestedAt) == if p.requestedAt == [] then None else Some(f.ts)
  {
    hide Denotes;
    EmptyHasNoTime();
    if p.requestedAt != [] {
      DenotesUnique(p.requestedAt, f.ts);
    }
  }

  lemma ConformsParts(d: Decoder, ms: Members, pf: ParseFloat)
    requires Conforms(d, ms, pf)
    ensures MembersOK(ms) && RootOK(ms, pf) && KnownOK(SectionMembers(CustomerObj, ms))
    ensures PayloadOf(d, ms, pf).knownMerchants == KnownOf(SectionMembers(CustomerObj, ms))
  {
    hide FieldsOK, KeysClear, Strict, StampMember;
    var known := KnownOf(SectionMembers(CustomerObj, ms));
    forall i | 0 <= i < |known|
      ensures DecodedIds(d, known)[i] == known[i]
    {
      assert known[i] in known;
    }
  }

  lemma FieldsMatch(d: Decoder, ms: Members, pf: ParseFloat)
    requires d.Valid() && Conforms(d, ms, pf)
    ensures RootOK(ms, pf)
    ensures var f, p := ReadRoot(ms, NO_FIELDS, pf), PayloadOf(d, ms, pf);
            && Matches(f, p) && f.known == KnownText(ms) && f.mid == p.merchantId && PlainId(p.merchantId)
            && f.mcc == SpelledMcc(ms, pf)
  {
    hide PayloadOf, ReadRoot, RootOK, KnownText, TimeOf, Decoder.Valid, Conforms, PlainId, SpelledMcc;
    TxMatches(d, ms, pf);
    CustomerMatches(d, ms, pf);
    MerchantMatches(d, ms, pf);
    TerminalMatches(d, ms, pf);
    LastMatches(d, ms, pf);
    ConformsParts(d, ms, pf);
  }
}
