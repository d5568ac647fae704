/** The dividend list's date windows, compared as text. */
module DividendList {
  import opened Sequences
  import opened Digits
  import opened Calendar

  const NEXT12_PAID_WINDOW_DAYS := 365

  datatype DividendRow = DividendRow(id: nat, paymentDate: Option<string>, exDate: Option<string>, notPaid: bool)

  ghost predicate Dated(row: DividendRow) {
    && (row.paymentDate.Some? ==> IsDate(row.paymentDate.value))
    && (row.exDate.Some? ==> IsDate(row.exDate.value))
  }

  /** Payment date, else ex-date. */
  function Attribution(row: DividendRow): Option<string> {
    if row.paymentDate.Some? then row.paymentDate else row.exDate
  }

  /** The row belongs to some day of the window. */
  function InWindow(start: string, end: string): DividendRow -> bool {
    (row: DividendRow) =>
      Attribution(row).Some? && AtMost(start, Attribution(row).value) && AtMost(Attribution(row).value, end)
  }

  function Undated(): DividendRow -> bool {
    (row: DividendRow) => row.paymentDate.None? && row.exDate.None?
  }

  /** Rows attributed to the window, and how many rows have no date at all, whatever the window. */
  method FilterRowsForFyWindow(rows: seq<DividendRow>, start: string, end: string)
    returns (matched: seq<DividendRow>, undated: nat)
    ensures matched == Filter(InWindow(start, end), rows)
    ensures undated == |Filter(Undated(), rows)|
  {
    matched, undated := [], 0;
    for i := 0 to |rows|
      invariant matched == Filter(InWindow(start, end), rows[..i])
      invariant undated == |Filter(Undated(), rows[..i])|
    {
      assert rows[..i + 1] == rows[..i] + [rows[i]];
      FilterConcat(InWindow(start, end), rows[..i], [rows[i]]);
      FilterConcat(Undated(), rows[..i], [rows[i]]);
      var date := Attribution(rows[i]);
      if date.None? {
        undated := undated + 1;
      } else if AtMost(start, date.value) && AtMost(date.value, end) {
        matched := matched + [rows[i]];
      }
    }
    assert rows[..|rows|] == rows;
  }

  /** A matched row's day lies in the window's days, and only then is it matched; no undated row ever is. */
  lemma FyWindowByDays(row: DividendRow, start: string, end: string)
    requires Dated(row) && IsDate(start) && IsDate(end)
    ensures InWindow(start, end)(row) <==>
      if row.paymentDate.Some? then DayOf(start) <= DayOf(row.paymentDate.value) <= DayOf(end)
      else row.exDate.Some? && DayOf(start) <= DayOf(row.exDate.value) <= DayOf(end)
    ensures Undated()(row) ==> !InWindow(start, end)(row)
  {
    if Attribution(row).Some? {
      AtMostIsDayOrder(start, Attribution(row).value);
      AtMostIsDayOrder(Attribution(row).value, end);
    }
  }

  /** Unpaid rows without limit, paid ones up to a year ahead. */
  function InNext12(start: string): DividendRow -> bool
    requires IsDate(start)
  {
    (row: DividendRow) =>
      row.notPaid
      || (row.paymentDate.Some? && AtMost(start, row.paymentDate.value)
          && AtMost(row.paymentDate.value, AddDaysUtc(start, NEXT12_PAID_WINDOW_DAYS)))
  }

  /** The paid leg covers exactly the start day and the 365 days after it. */
  lemma Next12ByDays(row: DividendRow, start: string)
    requires Dated(row) && IsDate(start) && Parse(start).value.year <= 9998
    ensures InNext12(start)(row) <==>
      row.notPaid
      || (row.paymentDate.Some? && 0 <= DayOf(row.paymentDate.value) - DayOf(start) <= NEXT12_PAID_WINDOW_DAYS)
  {
    var n := DayOf(start) + NEXT12_PAID_WINDOW_DAYS;
    YearAhead(Parse(start).value);
    ShiftText(n, 0);
    DayTextParses(n);
    if row.paymentDate.Some? {
      AtMostIsDayOrder(start, row.paymentDate.value);
      AtMostIsDayOrder(row.paymentDate.value, DayText(n));
    }
  }

  /** A year of days from a date lands in its year or the next. */
  lemma YearAhead(c: Civil)
    requires Valid(c)
    ensures c.year <= CivilOf(DayNumber(c) + NEXT12_PAID_WINDOW_DAYS).year <= c.year + 1
  {
    var later := CivilOf(DayNumber(c) + NEXT12_PAID_WINDOW_DAYS);
    DayOrder(c, later);
    WithinYear(c);
    WithinYear(later);
    YearLength(c.year);
    YearLength(c.year + 1);
    if later.year > c.year + 1 {
      YearsApart(c.year + 1, later.year);
    }
  }
}
