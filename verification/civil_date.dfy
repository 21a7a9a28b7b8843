/**
 * UTC calendar dates as `Date.prototype.toISOString` produces them (ECMA-262 5.1, sections 15.9.1.3
 * to 15.9.1.5 for year, month and date, section 15.9.1.15 for the `YYYY-MM-DD` text), restricted to
 * instants from the Unix epoch up to the end of year 9999, where the year has exactly four digits.
 */
module CivilDate {
  import opened Wrappers
  import opened Decimal

  const SecondsPerDay: int := 86400

  /** 10000-01-01T00:00:00Z in epoch seconds: the first instant whose year needs five digits. */
  const EndOfYear9999: int := 253402300800

  datatype Date = Date(year: int, month: int, day: int)

  /** Number of days in year `y` (ECMA-262 5.1 section 15.9.1.3). */
  function DaysInYear(y: int): int {
    if y % 4 != 0 then 365
    else if y % 100 != 0 then 366
    else if y % 400 != 0 then 365
    else 366
  }

  function InLeapYear(y: int): int {
    if DaysInYear(y) == 366 then 1 else 0
  }

  /** Day number of the first day of year `y`, counted from 1970-01-01 (section 15.9.1.3). */
  function DayFromYear(y: int): int {
    365 * (y - 1970) + (y - 1969) / 4 - (y - 1901) / 100 + (y - 1601) / 400
  }

  lemma FloorStep(a: int, k: int)
    requires k == 4 || k == 100 || k == 400
    ensures (a + 1) / k == a / k + (if (a + 1) % k == 0 then 1 else 0)
  {
  }

  /** Consecutive year starts differ by the length of the year. */
  lemma DayFromYearStep(y: int)
    ensures DayFromYear(y + 1) == DayFromYear(y) + DaysInYear(y)
  {
    var i4 := if y % 4 == 0 then 1 else 0;
    var i100 := if y % 100 == 0 then 1 else 0;
    var i400 := if y % 400 == 0 then 1 else 0;
    LeapRemainders(y);
    FloorStep(y - 1969, 4);
    FloorStep(y - 1901, 100);
    FloorStep(y - 1601, 400);
    assert DayFromYear(y + 1) == DayFromYear(y) + 365 + i4 - i100 + i400;
    assert DaysInYear(y) == 365 + i4 - i100 + i400;
  }

  /** The shifted year counts in DayFromYear have the remainders of `y` itself. */
  lemma LeapRemainders(y: int)
    ensures (y - 1968) % 4 == y % 4
    ensures (y - 1900) % 100 == y % 100
    ensures (y - 1600) % 400 == y % 400
    ensures y % 400 == 0 ==> y % 100 == 0
    ensures y % 100 == 0 ==> y % 4 == 0
  {
    ShiftBy4(y);
    ShiftBy100(y);
    ShiftBy400(y);
    LeapDivides(y);
  }

  lemma ShiftBy4(y: int)
    ensures (y - 1968) % 4 == y % 4
  {
    assert y - 1968 == 4 * (y / 4 - 492) + y % 4;
  }

  lemma ShiftBy100(y: int)
    ensures (y - 1900) % 100 == y % 100
  {
    assert y - 1900 == 100 * (y / 100 - 19) + y % 100;
  }

  lemma ShiftBy400(y: int)
    ensures (y - 1600) % 400 == y % 400
  {
    assert y - 1600 == 400 * (y / 400 - 4) + y % 400;
  }

  lemma LeapDivides(y: int)
    ensures y % 400 == 0 ==> y % 100 == 0
    ensures y % 100 == 0 ==> y % 4 == 0
  {
    var q400, q100 := y / 400, y / 100;
    assert y == 400 * q400 + y % 400;
    assert y == 100 * q100 + y % 100;
    if y % 400 == 0 {
      assert y == 100 * (4 * q400) + 0;
    }
    if y % 100 == 0 {
      assert y == 4 * (25 * q100) + 0;
    }
  }

  lemma {:induction false} DayFromYearMonotone(a: int, b: int)
    requires a < b
    ensures DayFromYear(a) < DayFromYear(b)
    decreases b - a
  {
    DayFromYearStep(a);
    if a + 1 < b {
      DayFromYearMonotone(a + 1, b);
    }
  }

  /** Day within the year at which month `m` (0 = January, 12 = past December) begins (section 15.9.1.4). */
  function MonthStart(m: int, leap: int): int
    requires 0 <= m <= 12
  {
    [0, 31, 59, 90, 120, 151, 181, 212, 243, 273, 304, 334, 365][m] + (if m >= 2 then leap else 0)
  }

  /** The year of day number `n`, searching upward from year `y`. */
  function YearFrom(n: int, y: int): (r: int)
    requires DayFromYear(y) <= n
    ensures y <= r
    ensures DayFromYear(r) <= n < DayFromYear(r + 1)
    decreases n - DayFromYear(y)
  {
    DayFromYearStep(y);
    if n < DayFromYear(y + 1) then y else YearFrom(n, y + 1)
  }

  /** The 0-based month holding day `d` of a year, searching upward from month `m`. */
  function MonthFrom(d: int, leap: int, m: int): (r: int)
    requires 0 <= leap <= 1
    requires 0 <= m <= 11
    requires MonthStart(m, leap) <= d < MonthStart(12, leap)
    ensures m <= r <= 11
    ensures MonthStart(r, leap) <= d < MonthStart(r + 1, leap)
    decreases 12 - m
  {
    if d < MonthStart(m + 1, leap) then m else MonthFrom(d, leap, m + 1)
  }

  predicate ValidDate(date: Date) {
    && 1 <= date.month <= 12
    && 1 <= date.day <= MonthStart(date.month, InLeapYear(date.year)) - MonthStart(date.month - 1, InLeapYear(date.year))
  }

  /** No month is longer than 31 days. */
  lemma ValidDateDay(date: Date)
    requires ValidDate(date)
    ensures date.day <= 31
  {
  }

  /** The day number of a calendar date: ECMA-262's MakeDay for a valid date. */
  function DaysFromCivil(date: Date): int
    requires ValidDate(date)
  {
    DayFromYear(date.year) + MonthStart(date.month - 1, InLeapYear(date.year)) + date.day - 1
  }

  /**
   * The calendar date of day number `n` (days since 1970-01-01): YearFromTime, MonthFromTime and
   * DateFromTime of section 15.9.1, with the month made 1-based.
   */
  function CivilFromDays(n: int): (date: Date)
    requires 0 <= n
    ensures date.year >= 1970
    ensures DayFromYear(date.year) <= n < DayFromYear(date.year + 1)
    ensures ValidDate(date)
    ensures DaysFromCivil(date) == n
  {
    var y := YearFrom(n, 1970);
    DayFromYearStep(y);
    var leap := InLeapYear(y);
    var m := MonthFrom(n - DayFromYear(y), leap, 0);
    Date(y, m + 1, n - DayFromYear(y) - MonthStart(m, leap) + 1)
  }

  /** Only one year's span contains a given day number. */
  lemma YearUnique(a: int, b: int, n: int)
    requires DayFromYear(a) <= n < DayFromYear(a + 1)
    requires DayFromYear(b) <= n < DayFromYear(b + 1)
    ensures a == b
  {
    if a < b {
      if a + 1 < b { DayFromYearMonotone(a + 1, b); }
    } else if b < a {
      if b + 1 < a { DayFromYearMonotone(b + 1, a); }
    }
  }

  lemma MonthStartIncreasing(i: int, j: int, leap: int)
    requires 0 <= i < j <= 12 && 0 <= leap <= 1
    ensures MonthStart(i, leap) < MonthStart(j, leap)
  {
  }

  /** Only one month's span contains a given day of the year. */
  lemma MonthUnique(a: int, b: int, d: int, leap: int)
    requires 0 <= a <= 11 && 0 <= b <= 11 && 0 <= leap <= 1
    requires MonthStart(a, leap) <= d < MonthStart(a + 1, leap)
    requires MonthStart(b, leap) <= d < MonthStart(b + 1, leap)
    ensures a == b
  {
    if a + 1 < b { MonthStartIncreasing(a + 1, b, leap); }
    if b + 1 < a { MonthStartIncreasing(b + 1, a, leap); }
  }

  /** Every valid date from 1970 on is the date of exactly the day number DaysFromCivil gives it. */
  lemma CivilRoundTrip(date: Date)
    requires ValidDate(date) && date.year >= 1970
    ensures DaysFromCivil(date) >= 0
    ensures CivilFromDays(DaysFromCivil(date)) == date
  {
    var y, leap := date.year, InLeapYear(date.year);
    var n := DaysFromCivil(date);
    DayFromYearStep(y);
    if y > 1970 {
      DayFromYearMonotone(1970, y);
    }
    assert DayFromYear(y) <= n < DayFromYear(y + 1);
    var c := CivilFromDays(n);
    YearUnique(c.year, y, n);
    MonthUnique(c.month - 1, date.month - 1, n - DayFromYear(y), leap);
  }

  /** Reads back a `YYYY-MM-DD` text; anything else is `None`. */
  function ParseDate(s: string): Option<Date> {
    if |s| == 10 && s[4] == '-' && s[7] == '-' && AllDigits(s[..4]) && AllDigits(s[5..7]) && AllDigits(s[8..]) then
      Some(Date(ParseDigits(s[..4]), ParseDigits(s[5..7]), ParseDigits(s[8..])))
    else
      None
  }

  /** The ISO 8601 extended calendar date `YYYY-MM-DD` of section 15.9.1.15, every field zero padded. */
  function FormatDate(date: Date): string
    requires 0 <= date.year <= 9999 && 1 <= date.month <= 12 && 1 <= date.day <= 31
  {
    Padded(date.year, 4) + "-" + Padded(date.month, 2) + "-" + Padded(date.day, 2)
  }

  /** The text is ten characters with dashes at positions 4 and 7, and it reads back as the date. */
  lemma FormatDateRoundTrip(date: Date)
    requires 0 <= date.year <= 9999 && 1 <= date.month <= 12 && 1 <= date.day <= 31
    ensures |FormatDate(date)| == 10 && FormatDate(date)[4] == '-' && FormatDate(date)[7] == '-'
    ensures ParseDate(FormatDate(date)) == Some(date)
  {
    var y, m, d := Padded(date.year, 4), Padded(date.month, 2), Padded(date.day, 2);
    var s := y + "-" + m + "-" + d;
    assert s[..4] == y && s[5..7] == m && s[8..] == d;
  }

  lemma YearBelow10000(n: int)
    requires 0 <= n < EndOfYear9999 / SecondsPerDay
    ensures CivilFromDays(n).year <= 9999
  {
    var y := CivilFromDays(n).year;
    assert DayFromYear(10000) == EndOfYear9999 / SecondsPerDay;
    if y > 10000 {
      DayFromYearMonotone(10000, y);
    }
  }

  /**
   * The bucket key of an airing time `t` in epoch seconds: the UTC calendar date of its day,
   * `new Date(t * 1000).toISOString().slice(0, 10)`.
   */
  function DateKey(t: int): (k: string)
    requires 0 <= t < EndOfYear9999
    ensures |k| == 10 && k[4] == '-' && k[7] == '-'
  {
    var n := t / SecondsPerDay;
    DayBound(t);
    YearBelow10000(n);
    ValidDateDay(CivilFromDays(n));
    FormatDateRoundTrip(CivilFromDays(n));
    FormatDate(CivilFromDays(n))
  }

  /** The key is a `YYYY-MM-DD` text that reads back as the calendar date of `t`'s UTC day. */
  lemma DateKeyParses(t: int)
    requires 0 <= t < EndOfYear9999
    ensures ParseDate(DateKey(t)) == Some(CivilFromDays(t / SecondsPerDay))
  {
    var n := t / SecondsPerDay;
    DayBound(t);
    YearBelow10000(n);
    var date := CivilFromDays(n);
    ValidDateDay(date);
    FormatDateRoundTrip(date);
    assert DateKey(t) == FormatDate(date);
  }

  lemma DayBound(t: int)
    requires 0 <= t < EndOfYear9999
    ensures 0 <= t / SecondsPerDay < EndOfYear9999 / SecondsPerDay
  {
  }

  /** Two airing times get the same key exactly when they fall on the same UTC day. */
  lemma SameKeyIffSameDay(a: int, b: int)
    requires 0 <= a < EndOfYear9999 && 0 <= b < EndOfYear9999
    ensures DateKey(a) == DateKey(b) <==> a / SecondsPerDay == b / SecondsPerDay
  {
    DateKeyParses(a);
    DateKeyParses(b);
    if DateKey(a) == DateKey(b) {
      var da, db := CivilFromDays(a / SecondsPerDay), CivilFromDays(b / SecondsPerDay);
      assert Some(da) == ParseDate(DateKey(a)) == ParseDate(DateKey(b)) == Some(db);
      assert DaysFromCivil(da) == DaysFromCivil(db);
    }
  }

  /** The epoch itself, as a check of the constants: second 0 is keyed `1970-01-01`. */
  lemma EpochDayKey()
    ensures DateKey(0) == "1970-01-01"
  {
    EpochKeyDate();
    EpochFormat();
  }

  lemma EpochKeyDate()
    ensures DateKey(0) == FormatDate(Date(1970, 1, 1))
  {
    EpochCivil();
  }

  lemma EpochCivil()
    ensures CivilFromDays(0) == Date(1970, 1, 1)
  {
    assert DayFromYear(1970) == 0 && InLeapYear(1970) == 0;
    assert MonthStart(0, 0) == 0 && MonthStart(1, 0) == 31;
    assert DaysFromCivil(Date(1970, 1, 1)) == 0;
    CivilRoundTrip(Date(1970, 1, 1));
  }

  lemma EpochFormat()
    ensures FormatDate(Date(1970, 1, 1)) == "1970-01-01"
  {
    var y, m := Padded(1970, 4), Padded(1, 2);
    assert FormatDate(Date(1970, 1, 1)) == y + "-" + m + "-" + m;
    EpochDigits();
    assert y + "-" + m + "-" + m == "1970" + "-" + "01" + "-" + "01";
    EpochText();
  }

  lemma EpochText()
    ensures "1970" + "-" + "01" + "-" + "01" == "1970-01-01"
  {
  }

  lemma EpochDigits()
    ensures Padded(1, 2) == "01" && Padded(1970, 4) == "1970"
  {
    assert Padded(0, 0) == [];
    assert Padded(0, 1) == "0";
    assert Padded(1, 1) == "1";
    assert Padded(19, 2) == Padded(1, 1) + "9";
    assert Padded(197, 3) == Padded(19, 2) + "7";
    assert Padded(1970, 4) == Padded(197, 3) + "0";
  }
}
