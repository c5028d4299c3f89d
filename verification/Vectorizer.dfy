/** The reference vectorizer (internal/vectorize/vectorize.go), in exact arithmetic. */
module Vectorizer {
  import opened Numbers
  import opened Bytes
  import opened Stamps

  const DIMS: nat := 14
  const QSCALE: int := 10000
  const DEFAULT_MCC_RISK: real := 0.5

  datatype Consts = Consts(
    maxAmount: real, maxInstallments: real, amountVsAvgRatio: real, maxMinutes: real,
    maxKm: real, maxTxCount24h: real, maxMerchantAvgAmount: real)

  datatype Normalizer = Normalizer(c: Consts, mcc: map<bytes, real>) {
    /** Real division needs nonzero scales; floating point would yield infinities. */
    predicate Valid() {
      && c.maxAmount != 0.0 && c.maxInstallments != 0.0 && c.amountVsAvgRatio != 0.0
      && c.maxMinutes != 0.0 && c.maxKm != 0.0 && c.maxTxCount24h != 0.0 && c.maxMerchantAvgAmount != 0.0
    }

    function Risk(code: bytes): real {
      if code in mcc then mcc[code] else DEFAULT_MCC_RISK
    }
  }

  datatype LastTransaction = LastTransaction(timestamp: bytes, kmFromCurrent: real)

  datatype Payload = Payload(
    amount: real, installments: int, requestedAt: bytes,
    customerAvg: real, txCount24h: int, knownMerchants: seq<bytes>,
    merchantId: bytes, merchantMcc: bytes, merchantAvg: real,
    isOnline: bool, cardPresent: bool, kmFromHome: real,
    last: Option<LastTransaction>)

  function Clamp01(x: real): (r: real)
    ensures 0.0 <= r <= 1.0
  {
    if x < 0.0 then 0.0 else if x > 1.0 then 1.0 else x
  }

  function Boolf(b: bool): real {
    if b then 1.0 else 0.0
  }

  /** Hours and weekdays as shares of the last one. */
  function HourShare(h: int): real {
    h as real / 23.0
  }

  function WeekdayShare(d: int): real {
    d as real / 6.0
  }

  /** math.Round: half away from zero. */
  function Round(x: real): int {
    if x < 0.0 then -((-x + 0.5).Floor) else (x + 0.5).Floor
  }

  function QuantizeOne(x: real): int {
    Wrap16(Round(x * QSCALE as real))
  }

  /** The nearest integer to 10000 times x, and of two the one farther from zero. */
  lemma QuantizeMeans(x: real)
    requires -3.2768 <= x <= 3.2767
    ensures var q := QuantizeOne(x);
            if x >= 0.0 then (2 * q - 1) as real <= 20000.0 * x < (2 * q + 1) as real
            else (2 * q - 1) as real < 20000.0 * x <= (2 * q + 1) as real
  {
  }

  function QuantizeAll(v: seq<real>): (q: seq<int>)
    ensures |q| == |v| && forall i :: 0 <= i < |v| ==> q[i] == QuantizeOne(v[i])
  {
    seq(|v|, i requires 0 <= i < |v| => QuantizeOne(v[i]))
  }

  method Quantize(v: seq<real>) returns (q: array<int>)
    requires |v| == DIMS
    ensures fresh(q) && q[..] == QuantizeAll(v)
  {
    q := new int[DIMS];
    for i := 0 to DIMS
      invariant forall j :: 0 <= j < i ==> q[j] == QuantizeOne(v[j])
    {
      q[i] := Wrap16(Round(v[i] * QSCALE as real));
    }
  }

  method Known(id: bytes, list: seq<bytes>) returns (r: bool)
    ensures r <==> id in list
  {
    for i := 0 to |list|
      invariant id !in list[..i]
    {
      if list[i] == id {
        return true;
      }
    }
    return false;
  }

  /** time.Parse on timestamps without fractional seconds. */
  ghost predicate Denotes(s: bytes, ts: int) {
    exists t: Stamp :: t.Valid() && t.Print() == s && t.Instant() == ts
  }

  ghost function TimeParse(s: bytes): (r: Option<int>)
    ensures r.Some? ==> Denotes(s, r.value)
    ensures r.None? ==> forall ts :: !Denotes(s, ts)
  {
    if exists ts :: Denotes(s, ts) then
      var ts :| Denotes(s, ts);
      Some(ts)
    else None
  }

  /** A timestamp denotes one instant only, the one the cursor's decoder finds. */
  lemma DenotesUnique(s: bytes, ts: int)
    requires Denotes(s, ts)
    ensures ParseISO8601(s, 0, |s|) == ts && TimeParse(s) == Some(ts)
    ensures (|s| == 20 && s[19] == 'Z') || |s| == 25
  {
    hide ParseISO8601, Stamp.Print, Stamp.Instant;
    ParseIsDenoted(s, ts);
    ParseIsDenoted(s, TimeParse(s).value);
    var t: Stamp :| t.Valid() && t.Print() == s && t.Instant() == ts;
    PrintShape(t);
  }

  lemma PrintShape(t: Stamp)
    requires t.Valid()
    ensures (|t.Print()| == 20 && t.Print()[19] == 'Z') || |t.Print()| == 25
  {
    if t.zone.Utc? {
      assert t.Print()[19] == (t.PrintDate() + t.PrintTime() + ['Z'])[19];
    }
  }

  lemma ParseIsDenoted(s: bytes, ts: int)
    requires Denotes(s, ts)
    ensures ParseISO8601(s, 0, |s|) == ts
  {
    var t: Stamp :| t.Valid() && t.Print() == s && t.Instant() == ts;
    ParsePrinted(t, s, 0);
  }

  /** Time.Sub: nanoseconds in an int64, cut off at its ends. */
  function Sub(current: int, last: int): (d: int64)
    ensures FitsDuration(current - last) ==> d == (current - last) * 1_000_000_000
  {
    var ns := (current - last) * 1_000_000_000;
    if ns > 0x7FFF_FFFF_FFFF_FFFF then 0x7FFF_FFFF_FFFF_FFFF
    else if ns < -0x8000_0000_0000_0000 then -0x8000_0000_0000_0000
    else ns
  }

  /** Differences in seconds, up to about 292 years, whose nanoseconds fit an int64. */
  predicate FitsDuration(seconds: int) {
    -9_223_372_036 <= seconds <= 9_223_372_036
  }

  function Minutes(d: int64): real {
    d as real / 60_000_000_000.0
  }

  ghost function MinutesBetween(last: bytes, current: bytes): real {
    var lt, ct := TimeParse(last), TimeParse(current);
    if lt.None? || ct.None? then 0.0 else Minutes(Sub(ct.value, lt.value))
  }

  ghost function Vectorize(n: Normalizer, p: Payload): (v: seq<real>)
    requires n.Valid()
    ensures |v| == DIMS
  {
    var c := n.c;
    var at := TimeParse(p.requestedAt);
    [ Clamp01(p.amount / c.maxAmount),
      Clamp01(p.installments as real / c.maxInstallments),
      if p.customerAvg > 0.0 then Clamp01((p.amount / p.customerAvg) / c.amountVsAvgRatio) else 1.0,
      if at.Some? then HourShare(UtcHour(at.value)) else 0.0,
      if at.Some? then WeekdayShare(UtcWeekday(at.value)) else 0.0,
      if p.last.Some? then Clamp01(MinutesBetween(p.last.value.timestamp, p.requestedAt) / c.maxMinutes) else -1.0,
      if p.last.Some? then Clamp01(p.last.value.kmFromCurrent / c.maxKm) else -1.0,
      Clamp01(p.kmFromHome / c.maxKm),
      Clamp01(p.txCount24h as real / c.maxTxCount24h),
      Boolf(p.isOnline),
      Boolf(p.cardPresent),
      Boolf(p.merchantId !in p.knownMerchants),
      n.Risk(p.merchantMcc),
      Clamp01(p.merchantAvg / c.maxMerchantAvgAmount) ]
  }
}
