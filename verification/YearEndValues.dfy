/** Values at a few requested dates, each looked up within a lookback of a week. */
module YearEndValues {
  import opened Sequences
  import opened Valuation
  import opened ValueLocality
  import opened ValueHistory

  const PRICE_TOLERANCE_DAYS := 7

  const GAP := Point(None, false, 0, 0, false)

  /** The earliest date still valued: the range's start, widened to the earliest request, clamped to ten years. */
  function BoundedFrom(s: State, earliest: int): int {
    var widened := earliest - PRICE_TOLERANCE_DAYS;
    var from := if widened < RangeFrom(s) then widened else RangeFrom(s);
    var allowed := s.localDay - (MAX_CANDIDATE_DATES - 1);
    if from < allowed then allowed else from
  }

  /** A date is valued if it is within ten years of today and no earlier than the series or a week before the first request. */
  lemma BoundedFromIff(s: State, earliest: int, d: int)
    ensures BoundedFrom(s, earliest) <= d <==>
      s.localDay - d < MAX_CANDIDATE_DATES && (RangeFrom(s) <= d || earliest - 7 <= d)
  {
  }

  function InRange(from: int, last: int): int -> bool {
    (d: int) => from <= d <= last
  }

  /** Each in-range date is valued as its full observation history would value it; the others are gaps. */
  method ValuesAtDates(s: State, requested: seq<int>) returns (values: map<int, Point>)
    ensures values.Keys == SetOf(requested)
    ensures forall d :: d in requested ==>
      values[d] ==
        if BoundedFrom(s, MinOf(SetOf(requested)).value) <= d <= s.localDay
        then Derive(s.facts, s.localDay, UtcDay(s.now), d, PRICE_TOLERANCE_DAYS)
        else GAP
  {
    values := map[];
    if requested == [] {
      return;
    }
    assert requested[0] in SetOf(requested);
    var from := BoundedFrom(s, MinOf(SetOf(requested)).value);
    var windows := LookbackWindows(Filter(InRange(from, s.localDay), requested), PRICE_TOLERANCE_DAYS);
    var facts := Narrow(s.facts, windows);
    for i := 0 to |requested|
      invariant values.Keys == SetOf(requested[..i])
      invariant forall d :: d in requested[..i] ==>
        values[d] == if from <= d <= s.localDay
                     then Derive(s.facts, s.localDay, UtcDay(s.now), d, PRICE_TOLERANCE_DAYS)
                     else GAP
    {
      var d := requested[i];
      if d < from || d > s.localDay {
        values := values[d := GAP];
      } else {
        LookbackCovers(Filter(InRange(from, s.localDay), requested), PRICE_TOLERANCE_DAYS, d);
        NarrowDerive(s.facts, windows, s.localDay, UtcDay(s.now), d, PRICE_TOLERANCE_DAYS);
        var p := ComputeSeries(facts, s.localDay, UtcDay(s.now), [d], PRICE_TOLERANCE_DAYS);
        values := values[d := p[0]];
      }
      assert requested[..i + 1] == requested[..i] + [d];
    }
    assert requested[..|requested|] == requested;
  }
}
