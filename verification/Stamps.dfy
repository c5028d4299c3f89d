/** Timestamps of section 5.6 of RFC 3339 without fractional seconds, the cursor's decoder
    for them, and the clock fields derived from the epoch second. */
module Stamps {
  import opened Numbers
  import opened Bytes
  import opened Calendar

  datatype Zone = Utc | Offset(minus: bool, oh: nat, om: nat)

  datatype Stamp = Stamp(date: Date, h: nat, mi: nat, s: nat, zone: Zone) {
    predicate Valid() {
      && date.Valid() && 0 <= date.y <= 9999
      && h < 24 && mi < 60 && s < 60
      && (zone.Offset? ==> zone.oh < 24 && zone.om < 60)
    }

    /** Seconds between 1970-01-01T00:00:00Z and the instant denoted. */
    function Instant(): int
      requires Valid()
    {
      DayNumber(date) * 86400 + h * 3600 + mi * 60 + s -
      match zone
      case Utc => 0
      case Offset(minus, oh, om) => if minus then -(oh * 3600 + om * 60) else oh * 3600 + om * 60
    }

    function PrintDate(): bytes
      requires Valid()
    {
      Two(date.y / 100) + Two(date.y % 100) + ['-'] + Two(date.m) + ['-'] + Two(date.d)
    }

    function PrintTime(): bytes
      requires Valid()
    {
      ['T'] + Two(h) + [':'] + Two(mi) + [':'] + Two(s)
    }

    function PrintZone(): bytes
      requires Valid()
    {
      match zone
      case Utc => ['Z']
      case Offset(minus, oh, om) => [if minus then '-' else '+'] + Two(oh) + [':'] + Two(om)
    }

    function Print(): bytes
      requires Valid()
    {
      PrintDate() + PrintTime() + PrintZone()
    }
  }

  /** Slices past the string stay within its capacity; a byte past the body reads as NUL. */
  function ByteAt(b: bytes, i: nat): byte {
    if i < |b| then b[i] else '\0'
  }

  function Atoi2(b: bytes, i: nat): int {
    DigitVal(ByteAt(b, i)) * 10 + DigitVal(ByteAt(b, i + 1))
  }

  /** parseISO8601 on the string b[cs..ce]. */
  function ParseISO8601(b: bytes, cs: nat, ce: nat): int
    requires cs <= ce
  {
    if ce - cs < 19 then
      0
    else
      var y := DigitVal(ByteAt(b, cs)) * 1000 + DigitVal(ByteAt(b, cs + 1)) * 100
               + DigitVal(ByteAt(b, cs + 2)) * 10 + DigitVal(ByteAt(b, cs + 3));
      var ep := DaysFromCivil(y, Atoi2(b, cs + 5), Atoi2(b, cs + 8)) * 86400
                + Atoi2(b, cs + 11) * 3600 + Atoi2(b, cs + 14) * 60 + Atoi2(b, cs + 17);
      if ce - cs > 19 && (ByteAt(b, cs + 19) == '+' || ByteAt(b, cs + 19) == '-') then
        var om := if ce - cs >= 25 then Atoi2(b, cs + 23) else 0;
        var off := Atoi2(b, cs + 20) * 3600 + om * 60;
        if ByteAt(b, cs + 19) == '+' then ep - off else ep + off
      else
        ep
  }

  lemma AtTwo(b: bytes, p: nat, n: nat)
    requires n < 100 && At(b, p, Two(n))
    ensures Atoi2(b, p) == n
  {
    assert b[p + 0] == Two(n)[0] && b[p + 1] == Two(n)[1];
  }

  lemma AtOne(b: bytes, p: nat, c: byte)
    requires At(b, p, [c])
    ensures ByteAt(b, p) == c
  {
    assert b[p + 0] == [c][0];
  }

  /** A printed timestamp decodes to the instant it denotes, wherever it stands. */
  lemma ParsePrinted(t: Stamp, b: bytes, cs: nat)
    requires t.Valid() && At(b, cs, t.Print())
    ensures ParseISO8601(b, cs, cs + |t.Print()|) == t.Instant()
  {
    AtAppend(b, cs, t.PrintDate() + t.PrintTime(), t.PrintZone());
    AtAppend(b, cs, t.PrintDate(), t.PrintTime());
    DateFields(t, b, cs);
    TimeFields(t, b, cs + 10);
    ZoneFields(t, b, cs + 19);
    CivilIsDayNumber(t.date);
  }

  /** With a fraction after the seconds the offset is not looked at: the decoded second is that of
      the same clock in UTC, right exactly for offsets of zero. */
  lemma ParseFraction(t: Stamp, fraction: bytes)
    requires t.Valid()
    ensures var text := t.PrintDate() + t.PrintTime() + ("." + fraction + t.PrintZone());
            var utc := Stamp(t.date, t.h, t.mi, t.s, Utc);
            && utc.Valid() && ParseISO8601(text, 0, |text|) == utc.Instant()
            && (utc.Instant() == t.Instant() <==> t.zone.Utc? || (t.zone.oh == 0 && t.zone.om == 0))
  {
    var more := "." + fraction + t.PrintZone();
    FractionDecodes(t, more);
    hide ParseISO8601, DayNumber, Stamp.PrintDate, Stamp.PrintTime, Stamp.PrintZone;
  }

  lemma FractionDecodes(t: Stamp, more: bytes)
    requires t.Valid() && more != [] && more[0] == '.'
    ensures var text := t.PrintDate() + t.PrintTime() + more;
            ParseISO8601(text, 0, |text|) == Stamp(t.date, t.h, t.mi, t.s, Utc).Instant()
  {
    hide ParseISO8601, Stamp.PrintDate, Stamp.PrintTime, Atoi2, ByteAt, DigitVal, DayNumber, DaysFromCivil, At;
    var text := t.PrintDate() + t.PrintTime() + more;
    FractionAt(t, more);
    DateFields(t, text, 0);
    TimeFields(t, text, 10);
    CivilIsDayNumber(t.date);
    NoOffset(text);
  }

  /** Without a sign after the seconds the clock is taken for one in UTC. */
  lemma NoOffset(b: bytes)
    requires |b| > 19 && ByteAt(b, 19) == '.'
    ensures var y := DigitVal(ByteAt(b, 0)) * 1000 + DigitVal(ByteAt(b, 1)) * 100
                     + DigitVal(ByteAt(b, 2)) * 10 + DigitVal(ByteAt(b, 3));
            ParseISO8601(b, 0, |b|) ==
              DaysFromCivil(y, Atoi2(b, 5), Atoi2(b, 8)) * 86400
              + Atoi2(b, 11) * 3600 + Atoi2(b, 14) * 60 + Atoi2(b, 17)
  {
    hide Atoi2, ByteAt, DigitVal, DaysFromCivil;
  }

  lemma FractionAt(t: Stamp, more: bytes)
    requires t.Valid() && more != []
    ensures var text := t.PrintDate() + t.PrintTime() + more;
            && At(text, 0, t.PrintDate()) && At(text, 10, t.PrintTime())
            && |text| == 19 + |more| && ByteAt(text, 19) == more[0]
  {
    var text := t.PrintDate() + t.PrintTime() + more;
    AtSlice(text, 0, text);
    AtAppend(text, 0, t.PrintDate() + t.PrintTime(), more);
    AtAppend(text, 0, t.PrintDate(), t.PrintTime());
    assert more == [more[0]] + more[1..];
    AtAppend(text, 19, [more[0]], more[1..]);
    AtOne(text, 19, more[0]);
  }

  /** A text too short for a date and a time counts as the epoch. */
  lemma ShortText(b: bytes, cs: nat, ce: nat)
    requires cs <= ce < cs + 19
    ensures ParseISO8601(b, cs, ce) == Stamp(Date(1970, 1, 1), 0, 0, 0, Utc).Instant()
  {
  }

  lemma DateFields(t: Stamp, b: bytes, p: nat)
    requires t.Valid() && At(b, p, t.PrintDate())
    ensures DigitVal(ByteAt(b, p)) * 1000 + DigitVal(ByteAt(b, p + 1)) * 100
            + DigitVal(ByteAt(b, p + 2)) * 10 + DigitVal(ByteAt(b, p + 3)) == t.date.y
    ensures Atoi2(b, p + 5) == t.date.m && Atoi2(b, p + 8) == t.date.d
  {
    var y1, y2 := Two(t.date.y / 100), Two(t.date.y % 100);
    AtAppend(b, p, y1 + y2 + ['-'] + Two(t.date.m) + ['-'], Two(t.date.d));
    AtAppend(b, p, y1 + y2 + ['-'] + Two(t.date.m), ['-']);
    AtAppend(b, p, y1 + y2 + ['-'], Two(t.date.m));
    AtAppend(b, p, y1 + y2, ['-']);
    AtAppend(b, p, y1, y2);
    AtTwo(b, p, t.date.y / 100);
    AtTwo(b, p + 2, t.date.y % 100);
    AtTwo(b, p + 5, t.date.m);
    AtTwo(b, p + 8, t.date.d);
  }

  lemma TimeFields(t: Stamp, b: bytes, p: nat)
    requires t.Valid() && At(b, p, t.PrintTime())
    ensures Atoi2(b, p + 1) == t.h && Atoi2(b, p + 4) == t.mi && Atoi2(b, p + 7) == t.s
  {
    AtAppend(b, p, ['T'] + Two(t.h) + [':'] + Two(t.mi) + [':'], Two(t.s));
    AtAppend(b, p, ['T'] + Two(t.h) + [':'] + Two(t.mi), [':']);
    AtAppend(b, p, ['T'] + Two(t.h) + [':'], Two(t.mi));
    AtAppend(b, p, ['T'] + Two(t.h), [':']);
    AtAppend(b, p, ['T'], Two(t.h));
    AtTwo(b, p + 1, t.h);
    AtTwo(b, p + 4, t.mi);
    AtTwo(b, p + 7, t.s);
  }

  lemma ZoneFields(t: Stamp, b: bytes, p: nat)
    requires t.Valid() && At(b, p, t.PrintZone())
    ensures t.zone.Utc? ==> ByteAt(b, p) == 'Z'
    ensures t.zone.Offset? ==>
      && ByteAt(b, p) == (if t.zone.minus then '-' else '+')
      && Atoi2(b, p + 1) == t.zone.oh && Atoi2(b, p + 4) == t.zone.om
  {
    match t.zone
    case Utc =>
      AtOne(b, p, 'Z');
    case Offset(minus, oh, om) =>
      var sign: bytes := [if minus then '-' else '+'];
      AtAppend(b, p, sign + Two(oh) + [':'], Two(om));
      AtAppend(b, p, sign + Two(oh), [':']);
      AtAppend(b, p, sign, Two(oh));
      AtOne(b, p, sign[0]);
      AtTwo(b, p + 1, oh);
      AtTwo(b, p + 4, om);
  }

  // ---- Hour and weekday ------------------------------------------------------

  /** UTC hour and Monday-based weekday of an epoch second; 1970-01-01 was a Thursday. */
  function UtcHour(ts: int): (h: int)
    ensures 0 <= h < 24
  {
    (ts % 86400) / 3600
  }

  function UtcWeekday(ts: int): (w: int)
    ensures 0 <= w < 7
  {
    (ts / 86400 + 3) % 7
  }

  /** In UTC the hour and the weekday are those written on the clock and the calendar; day 0 was
      a Thursday. */
  lemma UtcParts(t: Stamp)
    requires t.Valid() && t.zone.Utc?
    ensures (t.Instant() % 86400) / 3600 == t.h && (t.Instant() / 86400 + 3) % 7 == (DayNumber(t.date) + 3) % 7
    ensures UtcHour(t.Instant()) == t.h && UtcWeekday(t.Instant()) == (DayNumber(t.date) + 3) % 7
  {
    hide DayNumber;
    var r := t.h * 3600 + t.mi * 60 + t.s;
    DivModUnique(t.Instant(), 86400, DayNumber(t.date), r);
    DivModUnique(r, 3600, t.h, t.mi * 60 + t.s);
  }

  /** Two examples of section 5.8 of RFC 3339, each with its equivalent in UTC: an offset is
      ahead of UTC when positive. */
  lemma OffsetExamples()
    ensures var a, b := Stamp(Date(1996, 12, 19), 16, 39, 57, Offset(true, 8, 0)),
                        Stamp(Date(1996, 12, 20), 0, 39, 57, Utc);
            a.Valid() && b.Valid() && a.Instant() == b.Instant()
    ensures var a, b := Stamp(Date(1937, 1, 1), 12, 0, 27, Offset(false, 0, 20)),
                        Stamp(Date(1937, 1, 1), 11, 40, 27, Utc);
            a.Valid() && b.Valid() && a.Instant() == b.Instant()
  {
    NextDay(Date(1996, 12, 19));
  }

  /** The expressions of QueryFromBody, with Go's truncating operators. */
  function CodeHour(ts: int): (h: int)
    ensures 0 <= h < 24
  {
    GoMod(GoMod(GoDiv(ts, 3600), 24) + 24, 24)
  }

  function CodeWeekday(ts: int): (w: int)
    ensures 0 <= w < 7
  {
    GoMod(GoMod(GoDiv(ts, 86400) + 3, 7) + 7, 7)
  }

  lemma WeekCongruent(x: int)
    ensures GoMod(GoMod(x, 7) + 7, 7) == x % 7
  {
  }

  lemma DayCongruent(x: int)
    ensures GoMod(GoMod(x, 24) + 24, 24) == x % 24
  {
  }

  /** Truncation rounds a negative dividend up unless it divides evenly. */
  lemma Truncation(ts: int, n: int)
    requires n > 0
    ensures GoDiv(ts, n) == if ts >= 0 || ts % n == 0 then ts / n else ts / n + 1
  {
    if ts < 0 {
      var k, m := (-ts) % n, (-ts) / n;
      assert -ts == n * m + k;
      if k == 0 {
        DivModUnique(ts, n, -m, 0);
      } else {
        DivModUnique(ts, n, -m - 1, n - k);
      }
    }
  }

  /** The code's weekday is the UTC one exactly from the epoch on, or on a day boundary. */
  lemma WeekdayIff(ts: int)
    ensures CodeWeekday(ts) == UtcWeekday(ts) <==> ts >= 0 || ts % 86400 == 0
  {
    hide GoDiv, GoMod;
    WeekCongruent(GoDiv(ts, 86400) + 3);
    Truncation(ts, 86400);
  }

  /** The code's hour is the UTC one exactly from the epoch on, or on the hour. */
  lemma HourIff(ts: int)
    ensures CodeHour(ts) == UtcHour(ts) <==> ts >= 0 || ts % 3600 == 0
  {
    hide GoDiv, GoMod, UtcHour;
    DayCongruent(GoDiv(ts, 3600));
    Truncation(ts, 3600);
    HourOfDay(ts);
  }

  lemma HourOfDay(ts: int)
    ensures UtcHour(ts) == (ts / 3600) % 24
  {
    var d, r := ts / 86400, ts % 86400;
    var h, s := r / 3600, r % 3600;
    assert ts == 3600 * (24 * d + h) + s;
    DivModUnique(ts, 3600, 24 * d + h, s);
    DivModUnique(24 * d + h, 24, d, h);
  }
}
