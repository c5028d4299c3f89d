/** Civil-day arithmetic (internal/vectorize/parse.go): the closed form against the day
    count obtained by adding up year and month lengths. */
module Calendar {
  import opened Numbers

  /** Go's integer division truncates towards zero. */
  function GoDiv(a: int, b: int): int
    requires b > 0
  {
    if a >= 0 then a / b else -((-a) / b)
  }

  function GoMod(a: int, b: int): int
    requires b > 0
  {
    a - b * GoDiv(a, b)
  }

  predicate Leap(y: int) {
    y % 4 == 0 && (y % 100 != 0 || y % 400 == 0)
  }

  function YearLength(y: int): nat {
    if Leap(y) then 366 else 365
  }

  function MonthLength(y: int, m: int): nat
    requires 1 <= m <= 12
  {
    if m == 2 then (if Leap(y) then 29 else 28)
    else if m == 4 || m == 6 || m == 9 || m == 11 then 30
    else 31
  }

  /** Days from 1970-01-01 to January 1st of y, year by year. */
  function DaysBeforeYear(y: int): int
    decreases if y > 1970 then y - 1970 else 1970 - y
  {
    if y == 1970 then 0
    else if y > 1970 then DaysBeforeYear(y - 1) + YearLength(y - 1)
    else DaysBeforeYear(y + 1) - YearLength(y)
  }

  /** Days from January 1st to the first of month m, month by month. */
  function DaysBeforeMonth(y: int, m: int): nat
    requires 1 <= m <= 13
  {
    if m == 1 then 0 else DaysBeforeMonth(y, m - 1) + MonthLength(y, m - 1)
  }

  datatype Date = Date(y: int, m: int, d: int) {
    predicate Valid() {
      1 <= m <= 12 && 1 <= d <= MonthLength(y, m)
    }

    predicate Before(o: Date) {
      y < o.y || (y == o.y && (m < o.m || (m == o.m && d < o.d)))
    }

    function Next(): Date
      requires Valid()
    {
      if d < MonthLength(y, m) then Date(y, m, d + 1)
      else if m < 12 then Date(y, m + 1, 1)
      else Date(y + 1, 1, 1)
    }
  }

  /** The day count since 1970-01-01. */
  function DayNumber(t: Date): int
    requires 1 <= t.m <= 12
  {
    DaysBeforeYear(t.y) + DaysBeforeMonth(t.y, t.m) + t.d - 1
  }

  /** daysFromCivil, with Go's division throughout. */
  function DaysFromCivil(y0: int, m: int, d: int): int {
    var y := if m <= 2 then y0 - 1 else y0;
    var era := if y >= 0 then GoDiv(y, 400) else GoDiv(y - 399, 400);
    var yoe := y - era * 400;
    var mp := if m > 2 then m - 3 else m + 9;
    var doy := GoDiv(153 * mp + 2, 5) + d - 1;
    var doe := yoe * 365 + GoDiv(yoe, 4) - GoDiv(yoe, 100) + doy;
    era * 146097 + doe - 719468
  }

  /** Days in the March-based years before year y, up to a constant. */
  function MarchDays(y: int): int {
    365 * y + y / 4 - y / 100 + y / 400
  }

  lemma EraForm(y: int)
    ensures var era := if y >= 0 then GoDiv(y, 400) else GoDiv(y - 399, 400);
            var yoe := y - era * 400;
            0 <= yoe < 400 && era * 146097 + yoe * 365 + GoDiv(yoe, 4) - GoDiv(yoe, 100) == MarchDays(y)
  {
    var era := if y >= 0 then GoDiv(y, 400) else GoDiv(y - 399, 400);
    var yoe := y - era * 400;
    assert 0 <= yoe < 400;
    assert y / 4 == 100 * era + yoe / 4;
    assert y / 100 == 4 * era + yoe / 100;
  }

  lemma ClosedForm(y: int, m: int, d: int)
    requires 1 <= m <= 12
    ensures var mp := if m > 2 then m - 3 else m + 9;
            DaysFromCivil(y, m, d) ==
            MarchDays(if m <= 2 then y - 1 else y) + (153 * mp + 2) / 5 + d - 1 - 719468
  {
    EraForm(if m <= 2 then y - 1 else y);
  }

  lemma QuotientStep(y: int, n: int)
    requires n > 0
    ensures y / n - (y - 1) / n == if y % n == 0 then 1 else 0
  {
    var q, r := y / n, y % n;
    if r == 0 {
      DivModUnique(y - 1, n, q - 1, n - 1);
    } else {
      DivModUnique(y - 1, n, q, r - 1);
    }
  }

  lemma MultipleChain(y: int)
    ensures y % 400 == 0 ==> y % 100 == 0
    ensures y % 100 == 0 ==> y % 4 == 0
  {
    if y % 400 == 0 {
      DivModUnique(y, 100, 4 * (y / 400), 0);
    }
    if y % 100 == 0 {
      DivModUnique(y, 4, 25 * (y / 100), 0);
    }
  }

  lemma MarchStep(y: int)
    ensures MarchDays(y) - MarchDays(y - 1) == YearLength(y)
  {
    QuotientStep(y, 4);
    QuotientStep(y, 100);
    QuotientStep(y, 400);
    MultipleChain(y);
  }

  lemma {:induction false} YearStart(y: int)
    ensures MarchDays(y - 1) == DaysBeforeYear(y) + 719162
    decreases if y > 1970 then y - 1970 else 1970 - y
  {
    if y > 1970 {
      YearStart(y - 1);
      MarchStep(y - 1);
    } else if y < 1970 {
      YearStart(y + 1);
      MarchStep(y);
    }
  }

  lemma MonthStart(y: int, m: int)
    requires 1 <= m <= 12
    ensures m <= 2 ==> (153 * (m + 9) + 2) / 5 == DaysBeforeMonth(y, m) + 306
    ensures m > 2 ==> (153 * (m - 3) + 2) / 5 == DaysBeforeMonth(y, m) - (YearLength(y) - 306)
  {
    assert DaysBeforeMonth(y, 2) == 31;
    assert DaysBeforeMonth(y, 3) == 59 + (if Leap(y) then 1 else 0);
    var march := DaysBeforeMonth(y, 3);
    assert DaysBeforeMonth(y, 4) == march + 31;
    assert DaysBeforeMonth(y, 5) == march + 61;
    assert DaysBeforeMonth(y, 6) == march + 92;
    assert DaysBeforeMonth(y, 7) == march + 122;
    assert DaysBeforeMonth(y, 8) == march + 153;
    assert DaysBeforeMonth(y, 9) == march + 184;
    assert DaysBeforeMonth(y, 10) == march + 214;
    assert DaysBeforeMonth(y, 11) == march + 245;
    assert DaysBeforeMonth(y, 12) == march + 275;
  }

  /** For every Gregorian date, in any year, the closed form is the day count. */
  lemma CivilIsDayNumber(t: Date)
    requires 1 <= t.m <= 12
    ensures DaysFromCivil(t.y, t.m, t.d) == DayNumber(t)
  {
    ClosedForm(t.y, t.m, t.d);
    YearStart(t.y);
    MarchStep(t.y);
    MonthStart(t.y, t.m);
  }

  /** Hence the next day is one later. */
  lemma NextDay(t: Date)
    requires t.Valid()
    ensures t.Next().Valid()
    ensures DaysFromCivil(t.Next().y, t.Next().m, t.Next().d) == DaysFromCivil(t.y, t.m, t.d) + 1
  {
    hide DaysFromCivil, DaysBeforeYear, DaysBeforeMonth, YearLength, MonthLength, Leap;
    NextIsValid(t);
    CivilIsDayNumber(t);
    CivilIsDayNumber(t.Next());
    YearSuccessor(t.y);
    YearTotal(t.y);
    MonthSuccessor(t.y, t.m);
  }

  lemma NextIsValid(t: Date)
    requires t.Valid()
    ensures t.Next().Valid()
    ensures DaysBeforeMonth(t.y, 1) == 0 && DaysBeforeMonth(t.y + 1, 1) == 0
  {
  }

  lemma MonthSuccessor(y: int, m: int)
    requires 1 <= m <= 12
    ensures DaysBeforeMonth(y, m + 1) == DaysBeforeMonth(y, m) + MonthLength(y, m)
  {
  }

  lemma YearSuccessor(y: int)
    ensures DaysBeforeYear(y + 1) == DaysBeforeYear(y) + YearLength(y)
  {
  }

  lemma {:induction false} YearsMono(a: int, b: int)
    requires a <= b
    ensures DaysBeforeYear(b) >= DaysBeforeYear(a)
    decreases b - a
  {
    if a < b {
      YearsMono(a, b - 1);
      YearSuccessor(b - 1);
    }
  }

  lemma {:induction false} MonthsMono(y: int, a: int, b: int)
    requires 1 <= a <= b <= 13
    ensures DaysBeforeMonth(y, b) >= DaysBeforeMonth(y, a)
    decreases b - a
  {
    if a < b {
      MonthsMono(y, a, b - 1);
    }
  }

  lemma YearTotal(y: int)
    ensures DaysBeforeMonth(y, 13) == YearLength(y)
  {
    MonthStart(y, 12);
  }

  /** And later dates have larger day numbers. */
  lemma StrictlyMonotone(a: Date, b: Date)
    requires a.Valid() && b.Valid() && a.Before(b)
    ensures DaysFromCivil(a.y, a.m, a.d) < DaysFromCivil(b.y, b.m, b.d)
  {
    hide DaysFromCivil, DaysBeforeYear, DaysBeforeMonth, YearLength;
    CivilIsDayNumber(a);
    CivilIsDayNumber(b);
    WithinYear(a);
    MonthNonNegative(b);
    if a.y < b.y {
      YearSuccessor(a.y);
      YearsMono(a.y + 1, b.y);
    } else if a.m < b.m {
      MonthsMono(a.y, a.m + 1, b.m);
    }
  }

  lemma MonthNonNegative(b: Date)
    requires b.Valid()
    ensures DaysBeforeMonth(b.y, b.m) >= 0 && b.d >= 1
  {
  }

  lemma WithinYear(a: Date)
    requires a.Valid()
    ensures DaysBeforeMonth(a.y, a.m) + a.d <= DaysBeforeMonth(a.y, a.m + 1) <= YearLength(a.y)
  {
    MonthsMono(a.y, a.m + 1, 13);
    YearTotal(a.y);
  }
}
