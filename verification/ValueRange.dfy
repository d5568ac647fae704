/** The dates a portfolio's value series covers, decided by comparing date text. */
module ValueRange {
  import opened Sequences
  import opened Digits
  import opened Calendar
  import ValueHistory

  const MAX_CANDIDATE_DATES := ValueHistory.MAX_CANDIDATE_DATES

  datatype DateRange = DateRange(from: string, to: string, clamped: bool)

  /** Earliest trade to today, raised to ten years back, never past today. */
  function ResolveRange(earliest: Option<string>, today: string): DateRange
    requires Parse(today).Some?
  {
    var from := if earliest.Some? && Parse(earliest.value).Some? then earliest.value else today;
    var allowed := DayText(DayOf(today) - (MAX_CANDIDATE_DATES - 1));
    var clamped := LexLess(from, allowed);
    var raised := if clamped then allowed else from;
    DateRange(if LexLess(today, raised) then today else raised, today, clamped)
  }

  /** The text comparisons clamp the days: at most MAX_CANDIDATE_DATES of them, ending today. */
  lemma RangeByDays(earliest: Option<string>, today: string)
    requires IsDate(today) && CivilOf(DayOf(today) - (MAX_CANDIDATE_DATES - 1)).year >= 1000
    requires earliest.Some? && Parse(earliest.value).Some? ==> IsDate(earliest.value)
    ensures var r := ResolveRange(earliest, today);
      var first := if earliest.Some? && Parse(earliest.value).Some? then DayOf(earliest.value) else DayOf(today);
      && IsDate(r.from)
      && DayOf(r.from) == (if first > DayOf(today) then DayOf(today)
                           else if first < DayOf(today) - (MAX_CANDIDATE_DATES - 1)
                           then DayOf(today) - (MAX_CANDIDATE_DATES - 1) else first)
      && DayOf(today) - DayOf(r.from) + 1 <= MAX_CANDIDATE_DATES
  {
    var n := DayOf(today) - (MAX_CANDIDATE_DATES - 1);
    var from := if earliest.Some? && Parse(earliest.value).Some? then earliest.value else today;
    DayOrder(CivilOf(n), Parse(today).value);
    ShiftText(n, 0);
    DayTextParses(n);
    AtMostIsDayOrder(DayText(n), from);
    AtMostIsDayOrder(from, DayText(n));
    AtMostIsDayOrder(from, today);
    AtMostIsDayOrder(today, from);
    AtMostIsDayOrder(DayText(n), today);
    AtMostIsDayOrder(today, DayText(n));
  }

  /** The clamp is reported exactly when it applied, and the range always ends today. */
  lemma ClampedIff(earliest: Option<string>, today: string)
    requires IsDate(today) && CivilOf(DayOf(today) - (MAX_CANDIDATE_DATES - 1)).year >= 1000
    requires earliest.Some? && Parse(earliest.value).Some? ==> IsDate(earliest.value)
    ensures ResolveRange(earliest, today).to == today
    ensures ResolveRange(earliest, today).clamped <==>
      earliest.Some? && Parse(earliest.value).Some? && DayOf(earliest.value) < DayOf(today) - (MAX_CANDIDATE_DATES - 1)
  {
    var n := DayOf(today) - (MAX_CANDIDATE_DATES - 1);
    var from := if earliest.Some? && Parse(earliest.value).Some? then earliest.value else today;
    DayOrder(CivilOf(n), Parse(today).value);
    ShiftText(n, 0);
    AtMostIsDayOrder(DayText(n), from);
    AtMostIsDayOrder(from, DayText(n));
    LexTotal(from, DayText(n));
    LexIrreflexive(from);
  }

  /** The text of a day within four-digit years, as the ledger stores its trade dates. */
  function Written(day: Option<int>): Option<string> {
    if day.Some? then Some(DayText(day.value)) else None
  }

  /** So the text range starts on the very day the value series is said to start on. */
  lemma RangeIsRangeFrom(s: ValueHistory.State, today: string)
    requires IsDate(today) && DayOf(today) == s.localDay && CivilOf(s.localDay - (MAX_CANDIDATE_DATES - 1)).year >= 1000
    requires var earliest := ValueHistory.EarliestTrade(s.facts.ledger);
      earliest.Some? ==> 1000 <= CivilOf(earliest.value).year <= 9999
    ensures var r := ResolveRange(Written(ValueHistory.EarliestTrade(s.facts.ledger)), today);
      IsDate(r.from) && DayOf(r.from) == ValueHistory.RangeFrom(s)
  {
    var earliest := ValueHistory.EarliestTrade(s.facts.ledger);
    if earliest.Some? {
      ShiftText(earliest.value, 0);
    }
    RangeByDays(Written(earliest), today);
  }
}
