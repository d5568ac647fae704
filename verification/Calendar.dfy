/** Civil dates, day numbers and RFC 3339 full-date text (sections 5.1 and 5.6, Appendix C). */
module Calendar {
  import opened Sequences
  import opened Digits

  datatype Civil = Civil(year: int, month: int, day: int)

  predicate Leap(y: int) {
    y % 4 == 0 && (y % 100 != 0 || y % 400 == 0)
  }

  function DaysInMonth(y: int, m: int): (n: int)
    requires 1 <= m <= 12
    ensures 28 <= n <= 31
  {
    if m == 2 then (if Leap(y) then 29 else 28)
    else if m == 4 || m == 6 || m == 9 || m == 11 then 30
    else 31
  }

  predicate Valid(c: Civil) {
    1 <= c.month <= 12 && 1 <= c.day <= DaysInMonth(c.year, c.month)
  }

  /** The next calendar day, by the calendar alone. */
  function NextDay(c: Civil): (n: Civil)
    requires Valid(c)
    ensures Valid(n)
  {
    if c.day < DaysInMonth(c.year, c.month) then c.(day := c.day + 1)
    else if c.month < 12 then Civil(c.year, c.month + 1, 1)
    else Civil(c.year + 1, 1, 1)
  }

  // Counting days.

  /** Days before year y, counted year by year from year 1 in either direction. */
  function DaysBeforeYear(y: int): int
    decreases if y < 1 then 2 - y else y
  {
    if y == 1 then 0
    else if y > 1 then DaysBeforeYear(y - 1) + DaysInYear(y - 1)
    else DaysBeforeYear(y + 1) - DaysInYear(y)
  }

  /** Days of the year before month m, counted month by month. */
  function DaysBeforeMonth(y: int, m: int): (n: int)
    requires 1 <= m <= 12
    ensures 0 <= n
    decreases m
  {
    if m == 1 then 0 else DaysBeforeMonth(y, m - 1) + DaysInMonth(y, m - 1)
  }

  /** The twelve months make up the year. */
  lemma TwelveMonths(y: int)
    ensures DaysBeforeMonth(y, 12) + DaysInMonth(y, 12) == DaysInYear(y)
  {
    assert DaysBeforeMonth(y, 3) == 59 + if Leap(y) then 1 else 0;
    assert DaysBeforeMonth(y, 6) == DaysBeforeMonth(y, 3) + 92;
    assert DaysBeforeMonth(y, 9) == DaysBeforeMonth(y, 6) + 92;
    assert DaysBeforeMonth(y, 12) == DaysBeforeMonth(y, 9) + 91;
  }

  function DaysInYear(y: int): int {
    if Leap(y) then 366 else 365
  }

  /** Day 1 is 1 January of year 1. */
  function DayNumber(c: Civil): int
    requires Valid(c)
  {
    DaysBeforeYear(c.year) + DaysBeforeMonth(c.year, c.month) + c.day
  }

  lemma YearLength(y: int)
    ensures DaysBeforeYear(y + 1) == DaysBeforeYear(y) + DaysInYear(y)
  {
  }

  /** Leap years from year 1 through y. */
  function LeapsThrough(y: int): int {
    y / 4 - y / 100 + y / 400
  }

  function ClosedForm(y: int): int {
    365 * (y - 1) + LeapsThrough(y - 1)
  }

  lemma LeapsStep(y: int)
    ensures LeapsThrough(y) == LeapsThrough(y - 1) + if Leap(y) then 1 else 0
  {
    FourthYear(y);
    HundredthYear(y);
    FourHundredthYear(y);
  }

  lemma ClosedFormStep(y: int)
    ensures ClosedForm(y + 1) == ClosedForm(y) + DaysInYear(y)
  {
    LeapsStep(y);
    assert y + 1 - 1 == y;
  }

  lemma FourthYear(y: int)
    ensures y / 4 == (y - 1) / 4 + if y % 4 == 0 then 1 else 0
  {
  }

  lemma HundredthYear(y: int)
    ensures y / 100 == (y - 1) / 100 + if y % 100 == 0 then 1 else 0
    ensures y % 100 == 0 ==> y % 4 == 0
  {
  }

  lemma FourHundredthYear(y: int)
    ensures y / 400 == (y - 1) / 400 + if y % 400 == 0 then 1 else 0
    ensures y % 400 == 0 ==> y % 100 == 0
  {
  }

  /** The leap rule adds up to three quotients. */
  lemma {:induction false} DaysBeforeYearClosed(y: int)
    ensures DaysBeforeYear(y) == ClosedForm(y)
    decreases if y < 1 then 2 - y else y
  {
    if y > 1 {
      DaysBeforeYearClosed(y - 1);
      ClosedFormStep(y - 1);
    } else if y < 1 {
      DaysBeforeYearClosed(y + 1);
      ClosedFormStep(y);
    }
  }

  /** Days before a month in closed form, as if February had thirty days, and then less one or two. */
  lemma {:induction false} DaysBeforeMonthClosed(y: int, m: int)
    requires 1 <= m <= 12
    ensures DaysBeforeMonth(y, m) == (367 * m - 362) / 12 - if m <= 2 then 0 else if Leap(y) then 1 else 2
    decreases m
  {
    if m > 1 {
      DaysBeforeMonthClosed(y, m - 1);
    }
  }

  /** A date's number without counting: years by the three quotients of the leap rule, months by one quotient. */
  lemma DayNumberClosed(c: Civil)
    requires Valid(c)
    ensures DayNumber(c)
         == 365 * (c.year - 1) + (c.year - 1) / 4 - (c.year - 1) / 100 + (c.year - 1) / 400
            + (367 * c.month - 362) / 12
            - (if c.month <= 2 then 0 else if c.year % 4 == 0 && (c.year % 100 != 0 || c.year % 400 == 0) then 1 else 2)
            + c.day
    ensures c == Civil(1970, 1, 1) ==> DayNumber(c) == 719163
  {
    DaysBeforeYearClosed(c.year);
    DaysBeforeMonthClosed(c.year, c.month);
  }

  /** The day after has the next number. */
  lemma NextDayNumber(c: Civil)
    requires Valid(c)
    ensures DayNumber(NextDay(c)) == DayNumber(c) + 1
  {
    YearLength(c.year);
    TwelveMonths(c.year);
  }

  predicate Earlier(a: Civil, b: Civil) {
    || a.year < b.year
    || (a.year == b.year && a.month < b.month)
    || (a.year == b.year && a.month == b.month && a.day < b.day)
  }

  lemma {:induction false} MonthsApart(y: int, m: int, n: int)
    requires 1 <= m < n <= 12
    ensures DaysBeforeMonth(y, m) + DaysInMonth(y, m) <= DaysBeforeMonth(y, n)
    decreases n
  {
    if m + 1 < n {
      MonthsApart(y, m, n - 1);
    }
  }

  lemma {:induction false} YearsApart(y: int, z: int)
    requires y < z
    ensures DaysBeforeYear(y) + DaysInYear(y) <= DaysBeforeYear(z)
    decreases z - y
  {
    YearLength(z - 1);
    if y + 1 < z {
      YearsApart(y, z - 1);
    } else {
      YearLength(y);
    }
  }

  lemma WithinYear(c: Civil)
    requires Valid(c)
    ensures 1 <= DaysBeforeMonth(c.year, c.month) + c.day <= DaysInYear(c.year)
  {
    TwelveMonths(c.year);
    if c.month < 12 {
      MonthsApart(c.year, c.month, 12);
    }
  }

  /** Later dates have larger numbers, and only they. */
  lemma DayOrder(a: Civil, b: Civil)
    requires Valid(a) && Valid(b)
    ensures DayNumber(a) < DayNumber(b) <==> Earlier(a, b)
    ensures DayNumber(a) == DayNumber(b) <==> a == b
  {
    WithinYear(a);
    WithinYear(b);
    if a.year < b.year {
      YearsApart(a.year, b.year);
    } else if b.year < a.year {
      YearsApart(b.year, a.year);
    } else if a.month < b.month {
      MonthsApart(a.year, a.month, b.month);
    } else if b.month < a.month {
      MonthsApart(a.year, b.month, a.month);
    }
  }

  // From a day number back to the date.

  const ERA_DAYS := 146097

  lemma EraShift(y: int, era: int)
    ensures DaysBeforeYear(y + 400 * era) == DaysBeforeYear(y) + ERA_DAYS * era
  {
    DaysBeforeYearClosed(y);
    DaysBeforeYearClosed(y + 400 * era);
    assert (y - 1 + 400 * era) / 4 == (y - 1) / 4 + 100 * era;
    assert (y - 1 + 400 * era) / 100 == (y - 1) / 100 + 4 * era;
    assert (y - 1 + 400 * era) / 400 == (y - 1) / 400 + era;
  }

  /** The year at or after y in which day n falls. */
  function YearFrom(y: int, n: int): (r: int)
    requires DaysBeforeYear(y) < n
    ensures DaysBeforeYear(r) < n <= DaysBeforeYear(r + 1)
    decreases n - DaysBeforeYear(y)
  {
    YearLength(y);
    if n <= DaysBeforeYear(y + 1) then y else YearFrom(y + 1, n)
  }

  function YearOf(n: int): (r: int)
    ensures DaysBeforeYear(r) < n <= DaysBeforeYear(r + 1)
  {
    var era := (n - 1) / ERA_DAYS;
    EraShift(1, era);
    YearFrom(1 + 400 * era, n)
  }

  function MonthFrom(y: int, m: int, n: int): (r: int)
    requires 1 <= m <= 12 && DaysBeforeMonth(y, m) < n <= DaysInYear(y)
    ensures 1 <= r <= 12 && DaysBeforeMonth(y, r) < n <= DaysBeforeMonth(y, r) + DaysInMonth(y, r)
    decreases 12 - m
  {
    TwelveMonths(y);
    if n <= DaysBeforeMonth(y, m) + DaysInMonth(y, m) then m else MonthFrom(y, m + 1, n)
  }

  function SearchCivil(n: int): (c: Civil)
    ensures Valid(c) && DayNumber(c) == n
  {
    var y := YearOf(n);
    YearLength(y);
    var m := MonthFrom(y, 1, n - DaysBeforeYear(y));
    Civil(y, m, n - DaysBeforeYear(y) - DaysBeforeMonth(y, m))
  }

  predicate IsCivil(n: int, c: Civil) {
    Valid(c) && DayNumber(c) == n
  }

  lemma OneCivil(n: int)
    ensures IsCivil(n, SearchCivil(n))
    ensures forall c, d :: IsCivil(n, c) && IsCivil(n, d) ==> c == d
  {
    forall c, d | IsCivil(n, c) && IsCivil(n, d) ensures c == d {
      DayOrder(c, d);
    }
  }

  /** The date a day number stands for; every integer stands for exactly one. */
  function CivilOf(n: int): (c: Civil)
    ensures Valid(c) && DayNumber(c) == n
  {
    OneCivil(n);
    var c :| IsCivil(n, c);
    c
  }

  lemma CivilRoundTrip(c: Civil)
    requires Valid(c)
    ensures CivilOf(DayNumber(c)) == c
  {
    DayOrder(CivilOf(DayNumber(c)), c);
  }

  // Text.

  function MonthDay(c: Civil): (s: string)
    requires Valid(c)
    ensures |s| == 6
  {
    assert Pow10(2) == 100;
    "-" + Fixed(c.month, 2) + "-" + Fixed(c.day, 2)
  }

  /** YYYY-MM-DD, for the years four digits can hold. */
  function Format(c: Civil): (s: string)
    requires Valid(c) && 0 <= c.year <= 9999
    ensures |s| == 10
  {
    assert Pow10(4) == 10000;
    Fixed(c.year, 4) + MonthDay(c)
  }

  lemma MonthDayOrder(a: Civil, b: Civil)
    requires Valid(a) && Valid(b)
    ensures LexLess(MonthDay(a), MonthDay(b)) <==> a.month < b.month || (a.month == b.month && a.day < b.day)
    ensures MonthDay(a) == MonthDay(b) <==> a.month == b.month && a.day == b.day
  {
    assert Pow10(2) == 100;
    var am, bm, ad, bd := Fixed(a.month, 2), Fixed(b.month, 2), Fixed(a.day, 2), Fixed(b.day, 2);
    FixedOrder(a.month, b.month, 2);
    FixedOrder(a.day, b.day, 2);
    assert MonthDay(a) == "-" + (am + ("-" + ad)) && MonthDay(b) == "-" + (bm + ("-" + bd));
    AfterDash(am + ("-" + ad), bm + ("-" + bd));
    LexConcat(am, "-" + ad, bm, "-" + bd);
    ConcatEqual(am, "-" + ad, bm, "-" + bd);
    AfterDash(ad, bd);
  }

  /** A shared dash in front changes no comparison. */
  lemma AfterDash(x: string, y: string)
    ensures LexLess("-" + x, "-" + y) <==> LexLess(x, y)
    ensures "-" + x == "-" + y <==> x == y
  {
    LexConcat("-", x, "-", y);
    LexIrreflexive("-");
    ConcatEqual("-", x, "-", y);
  }

  lemma ConcatEqual(a: string, b: string, c: string, d: string)
    requires |a| == |c|
    ensures a + b == c + d <==> a == c && b == d
  {
    if a + b == c + d {
      assert a == (a + b)[..|a|] && c == (c + d)[..|a|];
      assert b == (a + b)[|a|..] && d == (c + d)[|a|..];
    }
  }

  /** String order of the text is day order, as section 5.1 intends. */
  lemma TextOrder(a: Civil, b: Civil)
    requires Valid(a) && Valid(b) && 0 <= a.year <= 9999 && 0 <= b.year <= 9999
    ensures LexLess(Format(a), Format(b)) <==> DayNumber(a) < DayNumber(b)
    ensures Format(a) == Format(b) <==> a == b
  {
    assert Pow10(4) == 10000;
    FixedOrder(a.year, b.year, 4);
    MonthDayOrder(a, b);
    LexConcat(Fixed(a.year, 4), MonthDay(a), Fixed(b.year, 4), MonthDay(b));
    ConcatEqual(Fixed(a.year, 4), MonthDay(a), Fixed(b.year, 4), MonthDay(b));
    DayOrder(a, b);
  }

  /** The number two digits of s make. */
  function Two(s: string, i: nat): (v: int)
    requires i + 2 <= |s| && IsDigit(s[i]) && IsDigit(s[i + 1])
    ensures 0 <= v <= 99
  {
    10 * DigitValue(s[i]) + DigitValue(s[i + 1])
  }

  lemma TwoIsValue(s: string)
    requires AllDigits(s) && |s| == 2
    ensures Value(s) == Two(s, 0)
  {
    assert s == [s[0]] + [s[1]];
    ValueConcat([s[0]], [s[1]]);
    assert [s[0]][1..] == "" && [s[1]][1..] == "";
    assert Pow10(1) == 10 && Pow10(0) == 1;
  }

  predicate DateShaped(s: string) {
    && |s| == 10 && s[4] == '-' && s[7] == '-'
    && IsDigit(s[0]) && IsDigit(s[1]) && IsDigit(s[2]) && IsDigit(s[3])
    && IsDigit(s[5]) && IsDigit(s[6]) && IsDigit(s[8]) && IsDigit(s[9])
  }

  /** The date a well-formed text names. */
  function Parse(s: string): (r: Option<Civil>)
    ensures r.Some? ==> Valid(r.value) && 0 <= r.value.year <= 9999
  {
    if !DateShaped(s) then None
    else
      var c := Civil(100 * Two(s, 0) + Two(s, 2), Two(s, 5), Two(s, 8));
      if Valid(c) then Some(c) else None
  }

  lemma FixedDigits(c: Civil)
    requires Valid(c) && 0 <= c.year <= 9999
    ensures DateShaped(Format(c))
    ensures Two(Format(c), 5) == c.month && Two(Format(c), 8) == c.day
    ensures 100 * Two(Format(c), 0) + Two(Format(c), 2) == c.year
  {
    assert Pow10(4) == 10000 && Pow10(2) == 100;
    var s, y := Format(c), Fixed(c.year, 4);
    assert s[..4] == y && s[5..7] == Fixed(c.month, 2) && s[8..] == Fixed(c.day, 2);
    assert forall i :: 0 <= i < 4 ==> s[i] == y[i];
    assert s[5] == s[5..7][0] && s[6] == s[5..7][1] && s[8] == s[8..][0] && s[9] == s[8..][1];
    TwoIsValue(s[5..7]);
    TwoIsValue(s[8..]);
    TwoIsValue(y[..2]);
    TwoIsValue(y[2..]);
    ValueConcat(y[..2], y[2..]);
    assert y == y[..2] + y[2..];
  }

  lemma ParseFormat(c: Civil)
    requires Valid(c) && 0 <= c.year <= 9999
    ensures Parse(Format(c)) == Some(c)
  {
    FixedDigits(c);
  }

  lemma FormatParse(date: string)
    requires Parse(date).Some?
    ensures Format(Parse(date).value) == date
  {
    var c := Parse(date).value;
    FixedDigits(c);
    SameTwo(Format(c), date, 0);
    SameTwo(Format(c), date, 2);
    SameTwo(Format(c), date, 5);
    SameTwo(Format(c), date, 8);
    assert forall i :: 0 <= i < 10 ==> Format(c)[i] == date[i];
  }

  lemma SameTwo(s: string, t: string, i: nat)
    requires i + 2 <= |s| && i + 2 <= |t|
    requires IsDigit(s[i]) && IsDigit(s[i + 1]) && IsDigit(t[i]) && IsDigit(t[i + 1])
    ensures Two(s, i) == Two(t, i) <==> s[i] == t[i] && s[i + 1] == t[i + 1]
  {
  }

  // Shifting a date's text by days.

  /** A day number printed without padding the year. */
  function DayText(n: int): string {
    Decimal(CivilOf(n).year) + MonthDay(CivilOf(n))
  }

  function DayOf(date: string): int
    requires Parse(date).Some?
  {
    DayNumber(Parse(date).value)
  }

  /** A date whose year is written with four digits and is no abbreviation of one in the twentieth century. */
  predicate IsDate(s: string) {
    Parse(s).Some? && Parse(s).value.year >= 1000
  }

  function AddDaysUtc(date: string, days: int): string
    requires IsDate(date)
  {
    DayText(DayOf(date) + days)
  }

  lemma {:induction false} DecimalLength(n: int)
    requires n >= 0
    ensures 1000 <= n <= 9999 <==> |Decimal(n)| == 4
  {
    DecimalValue(n);
    ValueBound(Decimal(n));
    var w := |Decimal(n)|;
    assert Pow10(3) == 1000 && Pow10(4) == 10000;
    if w > 4 {
      Pow10Monotone(4, w - 1);
    } else if w < 4 {
      Pow10Monotone(w, 3);
    }
  }

  lemma FourDigits(n: int)
    requires 1000 <= n <= 9999
    ensures Pow10(4) == 10000 && Decimal(n) == Fixed(n, 4)
  {
    assert Pow10(4) == 10000;
    DecimalLength(n);
    DecimalValue(n);
    SameLengthOrder(Decimal(n), Fixed(n, 4));
  }

  lemma DayTextParses(n: int)
    ensures Parse(DayText(n)) == Some(CivilOf(n)) <==> 1000 <= CivilOf(n).year <= 9999
    ensures 1000 <= CivilOf(n).year <= 9999 ==> DayText(n) == Format(CivilOf(n))
  {
    var target := CivilOf(n);
    if 1000 <= target.year <= 9999 {
      FourDigits(target.year);
      ParseFormat(target);
    } else if Parse(DayText(n)) == Some(target) {
      DecimalLength(target.year);
    }
  }

  /** The shift prints a date again if and only if it lands in a year of exactly four digits. */
  lemma AddDaysWellFormedIff(date: string, days: int)
    requires IsDate(date)
    ensures var target := CivilOf(DayOf(date) + days);
      Parse(AddDaysUtc(date, days)) == Some(target) <==> 1000 <= target.year <= 9999
  {
    var n := DayOf(date) + days;
    assert Parse(AddDaysUtc(date, days)) == Some(CivilOf(n)) <==> 1000 <= CivilOf(n).year <= 9999 by {
      DayTextParses(n);
    }
  }

  /** Shifting the text of day n. */
  lemma ShiftText(n: int, k: int)
    requires 1000 <= CivilOf(n).year <= 9999
    ensures IsDate(DayText(n)) && DayOf(DayText(n)) == n
    ensures AddDaysUtc(DayText(n), k) == DayText(n + k)
  {
    DayTextParses(n);
  }

  /** A shifted date is the shifted day. */
  lemma ShiftedDay(date: string, j: int)
    requires IsDate(date) && 1000 <= CivilOf(DayOf(date) + j).year <= 9999
    ensures IsDate(AddDaysUtc(date, j))
    ensures DayOf(AddDaysUtc(date, j)) == DayOf(date) + j
  {
    ShiftText(DayOf(date) + j, 0);
  }

  /** A shift depends on the day alone. */
  lemma ShiftFrom(x: string, y: string, j: int, k: int)
    requires IsDate(x) && IsDate(y) && DayOf(y) == DayOf(x) + j
    ensures AddDaysUtc(y, k) == AddDaysUtc(x, j + k)
  {
    SameDayText(DayOf(y) + k, DayOf(x) + (j + k));
  }

  lemma SameDayText(m: int, n: int)
    requires m == n
    ensures DayText(m) == DayText(n)
  {
  }

  /** Shifts add up while they stay within four-digit years. */
  lemma ShiftsAdd(date: string, j: int, k: int)
    requires IsDate(date) && 1000 <= CivilOf(DayOf(date) + j).year <= 9999
    ensures IsDate(AddDaysUtc(date, j))
    ensures AddDaysUtc(AddDaysUtc(date, j), k) == AddDaysUtc(date, j + k)
  {
    ShiftedDay(date, j);
    ShiftFrom(date, AddDaysUtc(date, j), j, k);
  }

  /** A shift by nothing leaves a four-digit date as written. */
  lemma NoShift(date: string)
    requires IsDate(date)
    ensures AddDaysUtc(date, 0) == date
  {
    var c := Parse(date).value;
    CivilRoundTrip(c);
    DayTextParses(DayNumber(c));
    FormatParse(date);
  }

  /** A shift and its opposite cancel. */
  lemma ShiftsCancel(date: string, days: int)
    requires IsDate(date) && 1000 <= CivilOf(DayOf(date) + days).year <= 9999
    ensures IsDate(AddDaysUtc(date, days))
    ensures AddDaysUtc(AddDaysUtc(date, days), -days) == date
  {
    ShiftedDay(date, days);
    ShiftFrom(date, AddDaysUtc(date, days), days, -days);
    NoShift(date);
  }

  /** Days from one date to another, both counted, never negative. */
  function DaysBetweenInclusive(from: Civil, last: Civil): int
    requires Valid(from) && Valid(last)
  {
    var n := DayNumber(last) - DayNumber(from) + 1;
    if n < 0 then 0 else n
  }

  /** Shifting forward and counting back agree; there are no days to a date before. */
  lemma SpanOfShift(c: Civil, days: int)
    requires Valid(c)
    ensures DaysBetweenInclusive(c, CivilOf(DayNumber(c) + days)) == if days >= 0 then days + 1 else 0
  {
  }

  // Comparing dates as text.

  /** Text comparison with equality, as date strings are compared. */
  predicate AtMost(a: string, b: string) {
    a == b || LexLess(a, b)
  }

  /** On dates, text order is day order. */
  lemma AtMostIsDayOrder(a: string, b: string)
    requires IsDate(a) && IsDate(b)
    ensures AtMost(a, b) <==> DayOf(a) <= DayOf(b)
  {
    FormatParse(a);
    FormatParse(b);
    TextOrder(Parse(a).value, Parse(b).value);
    DayOrder(Parse(a).value, Parse(b).value);
  }
}
