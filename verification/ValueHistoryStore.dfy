/** The value history as the program updates it: tables changed in place, loops, and a convergence marker. */
module ValueHistoryStore {
  import opened Sequences
  import opened Ledger
  import opened Selection
  import opened Valuation
  import opened ValueLocality
  import opened MarkSoundness
  import opened ValueHistory
  import opened ValueHistoryProgress

  datatype Outcome = Outcome(candidateDates: nat, missingDates: nat, datesDerived: nat, rowsPersisted: nat,
                             backfillPending: bool, skipped: bool)

  lemma FilledSnoc(stored: map<int, Row>, slice: seq<int>, point: int -> Point, now: int, d: int)
    ensures ValuedIn(slice + [d], point) == ValuedIn(slice, point) + if point(d).value.Some? then {d} else {}
    ensures Filled(stored, slice + [d], point, now)
         == if point(d).value.Some? then Filled(stored, slice, point, now)[d := Row(point(d), now)]
            else Filled(stored, slice, point, now)
  {
    assert ValuedIn(slice + [d], point) == ValuedIn(slice, point) + if point(d).value.Some? then {d} else {};
  }

  lemma OneMoreFilled(stored: map<int, Row>, slice: seq<int>, i: nat, point: int -> Point, now: int)
    requires Increasing(slice) && i < |slice|
    ensures |ValuedIn(slice[..i + 1], point)| == |ValuedIn(slice[..i], point)| + if point(slice[i]).value.Some? then 1 else 0
    ensures Filled(stored, slice[..i + 1], point, now)
         == if point(slice[i]).value.Some? then Filled(stored, slice[..i], point, now)[slice[i] := Row(point(slice[i]), now)]
            else Filled(stored, slice[..i], point, now)
  {
    assert slice[..i + 1] == slice[..i] + [slice[i]];
    assert slice[i] !in slice[..i];
    FilledSnoc(stored, slice[..i], point, now, slice[i]);
  }

  lemma MarkedSnoc(marked: map<int, int>, slice: seq<int>, point: int -> Point, now: int, d: int)
    ensures MarkedOff(marked, slice + [d], point, now)
         == if d <= UtcDay(now) && WrittenOff(point(d)) then MarkedOff(marked, slice, point, now)[d := now]
            else MarkedOff(marked, slice, point, now)
  {
    assert forall x :: x in slice + [d] <==> x in slice || x == d;
  }

  /** Only a held security can wait for a rate. */
  lemma BlockedIsHeld(outs: seq<Valuation.Outcome>)
    requires PointOf(outs).fxBlocked
    ensures PointOf(outs).held > 0
  {
    CountPositive(IS_FX_MISSING, outs);
    var i :| 0 <= i < |outs| && IS_FX_MISSING(outs[i]);
    assert IS_HELD(outs[i]);
    CountPositive(IS_HELD, outs);
  }

  lemma {:induction false} SeriesSnoc(s: State, slice: seq<int>, dates: seq<int>, d: int)
    ensures Series(s, slice, dates + [d]) == Series(s, slice, dates) + Series(s, slice, [d])
  {
    if dates == [] {
      assert dates + [d] == [d];
    } else {
      assert (dates + [d])[1..] == dates[1..] + [d];
      SeriesSnoc(s, slice, dates[1..], d);
    }
  }

  lemma SeriesOne(s: State, slice: seq<int>, d: int)
    ensures Series(s, slice, [d])
         == if d in s.stored then [Dated(d, s.stored[d].point)]
            else if d in slice then [Dated(d, Derived(s, d))]
            else []
  {
    assert [d][1..] == [];
  }

  lemma {:induction false} IncreasingSlice(missing: seq<int>, end: End, bound: nat)
    requires Increasing(missing)
    ensures Increasing(Slice(missing, end, bound))
  {
  }

  lemma {:induction false} FilterIncreasing(p: int -> bool, s: seq<int>)
    requires Increasing(s)
    ensures Increasing(Filter(p, s))
  {
    if s != [] {
      FilterIncreasing(p, s[1..]);
      var rest := Filter(p, s[1..]);
      forall i | 0 <= i < |rest| ensures s[0] < rest[i] {
        assert rest[i] in rest;
      }
    }
  }

  /** A slice read through one window over its own span derives each of its dates as the full facts would. */
  lemma SpanDerives(s: State, slice: seq<int>)
    requires slice != [] && Increasing(slice)
    ensures forall d :: d in slice ==>
      Derive(Narrow(s.facts, [Window(slice[0], slice[|slice| - 1])]), s.localDay, UtcDay(s.now), d, 0) == Derived(s, d)
  {
    forall d | d in slice
      ensures Derive(Narrow(s.facts, [Window(slice[0], slice[|slice| - 1])]), s.localDay, UtcDay(s.now), d, 0)
           == Derived(s, d)
    {
      SpanCovers(slice[0], slice[|slice| - 1], d);
      NarrowDerive(s.facts, [Window(slice[0], slice[|slice| - 1])], s.localDay, UtcDay(s.now), d, 0);
    }
  }

  predicate Between(first: int, d: int, last: int) {
    first <= d <= last
  }

  /** Every day from the first of some dates to the last. */
  function Span(dates: seq<int>): set<int> {
    if dates == [] then {}
    else
      assert dates[0] in SetOf(dates);
      var first, last := MinOf(SetOf(dates)).value, MaxOf(SetOf(dates)).value;
      set d | first <= d <= last && Between(first, d, last)
  }

  /** The calls of an import: its price batches, and then one deletion for each security it wrote. */
  function ImportSteps(versions: seq<seq<PriceRow>>, written: seq<seq<int>>): seq<Step>
    decreases |versions| + |written|
  {
    if versions != [] then [PriceWrite(versions[0], {})] + ImportSteps(versions[1..], written)
    else if written != [] then [Invalidate(Span(written[0]))] + ImportSteps(versions, written[1..])
    else []
  }

  lemma {:induction false} ImportCalls(versions: seq<seq<PriceRow>>, written: seq<seq<int>>)
    ensures |ImportSteps(versions, written)| == |versions| + |written|
    ensures forall k :: 0 <= k < |versions| ==> ImportSteps(versions, written)[k] == PriceWrite(versions[k], {})
    ensures forall k :: 0 <= k < |written| ==> ImportSteps(versions, written)[|versions| + k] == Invalidate(Span(written[k]))
    decreases |versions| + |written|
  {
    var steps := ImportSteps(versions, written);
    if versions != [] {
      ImportCalls(versions[1..], written);
      assert steps[1..] == ImportSteps(versions[1..], written);
    } else if written != [] {
      ImportCalls(versions, written[1..]);
      assert steps[1..] == ImportSteps(versions, written[1..]);
      forall k | 0 <= k < |written| ensures steps[k] == Invalidate(Span(written[k])) {
        if k > 0 {
          assert steps[k] == steps[1..][k - 1] && written[k] == written[1..][k - 1];
        }
      }
    }
  }

  lemma {:induction false} AfterSnoc(s: State, steps: seq<Step>, step: Step)
    ensures After(s, steps + [step]) == Apply(After(s, steps), step)
    decreases steps
  {
    if steps == [] {
      assert (steps + [step])[1..] == [];
    } else {
      assert (steps + [step])[1..] == steps[1..] + [step];
      AfterSnoc(Apply(s, steps[0]), steps[1..], step);
    }
  }

  function Spans(written: seq<seq<int>>): set<int> {
    if written == [] then {} else Span(written[0]) + Spans(written[1..])
  }

  /** Every batch changes prices only on the days the import reports as written. */
  ghost predicate ImportWithin(f: Facts, versions: seq<seq<PriceRow>>, days: set<int>)
    decreases versions
  {
    versions != [] ==>
      PricesChangedOn(f, versions[0], days) && ImportWithin(f.(prices := versions[0]), versions[1..], days)
  }

  /** What may happen between two calls of an import: reads, ticks, ledger mutations and the passage of time. */
  predicate Meanwhile(step: Step) {
    step.Read? || step.Tick? || step.Clock? || step.Mutating?
  }

  const IS_CALL := (step: Step) => !Meanwhile(step)

  /** The import's own calls among some steps. */
  function CallsAmong(steps: seq<Step>): seq<Step> {
    Filter(IS_CALL, steps)
  }

  lemma {:induction false} SameWithin(f: Facts, g: Facts, versions: seq<seq<PriceRow>>, days: set<int>)
    requires f.prices == g.prices && f.holdings == g.holdings && ImportWithin(f, versions, days)
    ensures ImportWithin(g, versions, days)
    decreases versions
  {
    if versions != [] {
      FilterAgree(Untouched(f, days), Untouched(g, days), versions[0]);
      FilterAgree(Untouched(f, days), Untouched(g, days), f.prices);
      SameWithin(f.(prices := versions[0]), g.(prices := versions[0]), versions[1..], days);
    }
  }

  /** None of this adds a debt, or changes a price. */
  lemma MeanwhileOwes(s: State, step: Step, versions: seq<seq<PriceRow>>, owed: set<int>, days: set<int>)
    requires Meanwhile(step) && ImportWithin(s.facts, versions, days)
    ensures Owed(s, step, owed) <= owed && ImportWithin(Apply(s, step).facts, versions, days)
  {
    SameWithin(s.facts, Apply(s, step).facts, versions, days);
  }

  lemma PriceBatchOwes(s: State, prices: seq<PriceRow>, owed: set<int>, days: set<int>)
    requires PricesChangedOn(s.facts, prices, days) && owed <= days
    ensures Owed(s, PriceWrite(prices, {}), owed) <= days
    ensures Apply(s, PriceWrite(prices, {})).facts == s.facts.(prices := prices)
  {
    forall d | d in Owed(s, PriceWrite(prices, {}), owed) ensures d in days {
      if d !in owed && d !in days {
        ChangedWithin(s.facts, prices, days, d);
      }
    }
  }

  lemma DeletionOwes(s: State, written: seq<seq<int>>, owed: set<int>)
    requires written != []
    ensures Owed(s, Invalidate(Span(written[0])), owed) <= owed
    ensures owed <= Spans(written) ==> Owed(s, Invalidate(Span(written[0])), owed) <= Spans(written[1..])
  {
  }

  /** The first of some steps, if it is one of the import's calls, and the calls among the others. */
  lemma NextCall(steps: seq<Step>, versions: seq<seq<PriceRow>>, written: seq<seq<int>>, calls: nat)
    requires calls <= |ImportSteps(versions, written)| && CallsAmong(steps) == ImportSteps(versions, written)[..calls]
    requires steps != [] && !Meanwhile(steps[0])
    ensures calls > 0 && (versions != [] || written != [])
    ensures if versions != [] then
              && steps[0] == PriceWrite(versions[0], {})
              && CallsAmong(steps[1..]) == ImportSteps(versions[1..], written)[..calls - 1]
            else
              && steps[0] == Invalidate(Span(written[0]))
              && CallsAmong(steps[1..]) == ImportSteps([], written[1..])[..calls - 1]
  {
    var all := ImportSteps(versions, written);
    assert CallsAmong(steps) == [steps[0]] + CallsAmong(steps[1..]);
    assert CallsAmong(steps)[1..] == CallsAmong(steps[1..]);
    assert all[..calls][1..] == all[1..][..calls - 1];
  }

  /** Stopped after any of its calls, whatever happened in between, an import owes at most days it wrote between. */
  lemma {:induction false} ImportOwesAtMost(s: State, steps: seq<Step>, versions: seq<seq<PriceRow>>, written: seq<seq<int>>,
      owed: set<int>, days: set<int>, calls: nat)
    requires ImportWithin(s.facts, versions, days) && owed <= days && calls <= |ImportSteps(versions, written)|
    requires CallsAmong(steps) == ImportSteps(versions, written)[..calls]
    ensures OwedAfter(s, steps, owed) <= days
    decreases steps
  {
    if steps != [] {
      var t, next := Apply(s, steps[0]), Owed(s, steps[0], owed);
      if Meanwhile(steps[0]) {
        MeanwhileOwes(s, steps[0], versions, owed, days);
        ImportOwesAtMost(t, steps[1..], versions, written, next, days, calls);
      } else {
        NextCall(steps, versions, written, calls);
        if versions != [] {
          PriceBatchOwes(s, versions[0], owed, days);
          ImportOwesAtMost(t, steps[1..], versions[1..], written, next, days, calls - 1);
        } else {
          DeletionOwes(s, written, owed);
          ImportOwesAtMost(t, steps[1..], [], written[1..], next, days, calls - 1);
        }
      }
    }
  }

  /** Run to its end, whatever happened in between, it owes nothing. */
  lemma {:induction false} ImportSettles(s: State, steps: seq<Step>, versions: seq<seq<PriceRow>>, written: seq<seq<int>>,
      owed: set<int>)
    requires ImportWithin(s.facts, versions, Spans(written)) && owed <= Spans(written)
    requires CallsAmong(steps) == ImportSteps(versions, written)
    ensures OwedAfter(s, steps, owed) == {}
    decreases steps
  {
    var all := ImportSteps(versions, written);
    assert all[..|all|] == all;
    if steps == [] {
      assert versions == [] && written == [];
    } else {
      var t, next := Apply(s, steps[0]), Owed(s, steps[0], owed);
      if Meanwhile(steps[0]) {
        MeanwhileOwes(s, steps[0], versions, owed, Spans(written));
        ImportSettles(t, steps[1..], versions, written, next);
      } else {
        NextCall(steps, versions, written, |all|);
        if versions != [] {
          PriceBatchOwes(s, versions[0], owed, Spans(written));
          assert ImportSteps(versions[1..], written)[..|all| - 1] == ImportSteps(versions[1..], written);
          ImportSettles(t, steps[1..], versions[1..], written, next);
        } else {
          DeletionOwes(s, written, owed);
          assert ImportSteps([], written[1..])[..|all| - 1] == ImportSteps([], written[1..]);
          ImportSettles(t, steps[1..], [], written[1..], next);
        }
      }
    }
  }

  /** The attempted dates that have a value are stored, those written off are marked, and nothing else changes. */
  ghost predicate Attempted(before: State, after: State, attempted: seq<int>) {
    && (forall d :: d in after.stored <==> d in before.stored || (d in attempted && Derived(before, d).value.Some?))
    && (forall d :: d in after.marked <==>
          d in before.marked || (d in attempted && d <= UtcDay(before.now) && WrittenOff(Derived(before, d))))
    && (forall d :: d in before.stored && d !in attempted ==> after.stored[d] == before.stored[d])
    && (forall d :: d in attempted && d in after.stored ==> after.stored[d] == Row(Derived(before, d), before.now))
    && (forall d :: d in before.marked && d !in attempted ==> after.marked[d] == before.marked[d])
  }

  /** What a sweep attempts is the end of the missing dates it is asked for. */
  lemma SliceAttempted(s: State, end: End, bound: nat)
    ensures TakesEnd(Missing(s), SliceOf(s, end, bound), end, bound)
    ensures Attempted(s, Sweep(s, end, bound), SliceOf(s, end, bound))
  {
    CandidatesBounded(s);
    FilterIncreasing(Open(s), Candidates(s));
    SliceTakesEnd(Missing(s), end, bound);
    PersistTables(s, SliceOf(s, end, bound));
    forall d | d in SliceOf(s, end, bound) ensures d !in s.stored && d !in s.marked {
      SliceDates(s, end, bound, d);
    }
  }

  function OutcomeOf(s: State, end: End, bound: nat): Outcome {
    var slice := SliceOf(s, end, bound);
    Outcome(|Candidates(s)|, |Missing(s)|, |slice|, |Stores(s, slice)|, |slice| < |Missing(s)|, false)
  }

  /** Derived points are those of the specification, and none waits for a rate without holding anything. */
  lemma PointsFit(s: State, slice: seq<int>, points: seq<Point>)
    requires |points| == |slice| && forall i :: 0 <= i < |slice| ==> points[i] == Derived(s, slice[i])
    ensures forall i :: 0 <= i < |slice| ==> points[i] == DerivedBy(s)(slice[i])
    ensures forall i :: 0 <= i < |slice| ==> (points[i].fxBlocked ==> points[i].held > 0)
  {
    forall i | 0 <= i < |slice| && points[i].fxBlocked ensures points[i].held > 0 {
      BlockedIsHeld(Outcomes(s.facts, s.facts.holdings, s.localDay, slice[i], 0));
    }
  }

  class Store {
    var facts: Facts
    var stored: map<int, Row>
    var marked: map<int, int>
    var marker: Option<Marker>
    var now: int
    var localDay: int

    function Snapshot(): State
      reads this
    {
      State(facts, stored, marked, marker, now, localDay)
    }

    /** A portfolio whose series has never been filled. */
    constructor (facts: Facts, now: int, localDay: int)
      ensures Snapshot() == State(facts, map[], map[], None, now, localDay)
    {
      this.facts := facts;
      stored, marked, marker := map[], map[], None;
      this.now, this.localDay := now, localDay;
    }

    /** One row per derived date that has a value. */
    method Upsert(slice: seq<int>, points: seq<Point>, ghost point: int -> Point) returns (written: nat)
      requires |points| == |slice| && Increasing(slice)
      requires forall i :: 0 <= i < |slice| ==> points[i] == point(slice[i])
      modifies this`stored
      ensures stored == Filled(old(stored), slice, point, now)
      ensures written == |ValuedIn(slice, point)|
    {
      NothingFilled(stored, marked, point, now);
      written := 0;
      for i := 0 to |slice|
        invariant stored == Filled(old(stored), slice[..i], point, now)
        invariant written == |ValuedIn(slice[..i], point)|
      {
        OneMoreFilled(old(stored), slice, i, point, now);
        if points[i].value.Some? {
          stored := stored[slice[i] := Row(points[i], now)];
          written := written + 1;
        }
      }
      assert slice[..|slice|] == slice;
    }

    /** A mark for each derived date that has no value, is past, and waits for no rate. */
    method RecordUnresolvable(slice: seq<int>, points: seq<Point>, ghost point: int -> Point)
      requires |points| == |slice|
      requires forall i :: 0 <= i < |slice| ==> points[i] == point(slice[i])
      requires forall i :: 0 <= i < |slice| ==> (points[i].fxBlocked ==> points[i].held > 0)
      modifies this`marked
      ensures marked == MarkedOff(old(marked), slice, point, now)
    {
      NothingFilled(stored, marked, point, now);
      for i := 0 to |slice|
        invariant marked == MarkedOff(old(marked), slice[..i], point, now)
      {
        assert slice[..i + 1] == slice[..i] + [slice[i]];
        MarkedSnoc(old(marked), slice[..i], point, now, slice[i]);
        if points[i].value.None? && slice[i] <= UtcDay(now) && !(points[i].held > 0 && points[i].fxBlocked) {
          marked := marked[slice[i] := now];
        }
      }
      assert slice[..|slice|] == slice;
    }

    /** Stored points and this call's own, in date order. */
    method CollectPoints(dates: seq<int>, slice: seq<int>, points: seq<Point>, before: map<int, Row>, ghost s: State)
      returns (series: seq<Dated>)
      requires |points| == |slice|
      requires forall i :: 0 <= i < |slice| ==> points[i] == Derived(s, slice[i])
      requires before == s.stored
      ensures series == Series(s, slice, dates)
    {
      var derivedByDate: map<int, Point> := map[];
      for i := 0 to |slice|
        invariant forall d :: d in derivedByDate <==> d in slice[..i]
        invariant forall d :: d in derivedByDate ==> derivedByDate[d] == Derived(s, d)
      {
        derivedByDate := derivedByDate[slice[i] := points[i]];
      }
      series := [];
      for i := 0 to |dates|
        invariant series == Series(s, slice, dates[..i])
      {
        var d := dates[i];
        assert dates[..i + 1] == dates[..i] + [d];
        SeriesSnoc(s, slice, dates[..i], d);
        SeriesOne(s, slice, d);
        if d in before {
          series := series + [Dated(d, before[d].point)];
        } else if d in derivedByDate {
          series := series + [Dated(d, derivedByDate[d])];
        }
      }
      assert dates[..|dates|] == dates;
    }

    /** Deriving a slice on the rows read for its span, and writing what came out into both tables. */
    method DeriveAndPersist(slice: seq<int>) returns (points: seq<Point>, written: nat)
      requires slice != [] && Increasing(slice)
      modifies this`stored, this`marked
      ensures Snapshot() == Persist(old(Snapshot()), slice)
      ensures |points| == |slice| && forall i :: 0 <= i < |slice| ==> points[i] == Derived(old(Snapshot()), slice[i])
      ensures written == |Stores(old(Snapshot()), slice)|
    {
      ghost var s := Snapshot();
      var span := Window(slice[0], slice[|slice| - 1]);
      SpanDerives(s, slice);
      points := ComputeSeries(Narrow(facts, [span]), localDay, UtcDay(now), slice, 0);
      PointsFit(s, slice, points);
      written := Upsert(slice, points, DerivedBy(s));
      RecordUnresolvable(slice, points, DerivedBy(s));
    }

    /** The one bounded derive-and-persist slice that reads and ticks share. */
    method ResolveSeries(bound: nat, end: End) returns (series: seq<Dated>, outcome: Outcome)
      requires bound > 0
      modifies this
      ensures Snapshot() == Sweep(old(Snapshot()), end, bound)
      ensures series == Series(old(Snapshot()), SliceOf(old(Snapshot()), end, bound), Candidates(old(Snapshot())))
      ensures outcome == OutcomeOf(old(Snapshot()), end, bound)
    {
      ghost var s := Snapshot();
      var before := stored;
      var dates := Candidates(Snapshot());
      CandidatesBounded(s);
      assert |dates| <= MAX_CANDIDATE_DATES;
      var missing := Filter(Open(Snapshot()), dates);
      FilterIncreasing(Open(s), dates);
      var slice := Slice(missing, end, bound);
      IncreasingSlice(missing, end, bound);
      var points: seq<Point>, written := [], 0;
      if slice == [] {
        NothingPersisted(s);
      } else {
        points, written := DeriveAndPersist(slice);
      }
      series := CollectPoints(dates, slice, points, before, s);
      outcome := Outcome(|dates|, |missing|, |slice|, written, |slice| < |missing|, false);
    }

    /** A page read: it attempts the newest missing dates, stores or marks those that settle, and shows what it derived. */
    method ReadSeries() returns (series: seq<Dated>, outcome: Outcome, ghost attempted: seq<int>)
      modifies this
      ensures TakesEnd(Missing(old(Snapshot())), attempted, Newest, 10)
      ensures Attempted(old(Snapshot()), Snapshot(), attempted)
      ensures series == Series(old(Snapshot()), attempted, Candidates(old(Snapshot())))
      ensures Snapshot() == Apply(old(Snapshot()), Read)
      ensures series == ValueHistoryProgress.ReadSeries(old(Snapshot()))
      ensures outcome == OutcomeOf(old(Snapshot()), Newest, MAX_DERIVE_DATES_PER_READ)
    {
      ghost var s := Snapshot();
      attempted := SliceOf(s, Newest, MAX_DERIVE_DATES_PER_READ);
      SliceAttempted(s, Newest, MAX_DERIVE_DATES_PER_READ);
      series, outcome := ResolveSeries(MAX_DERIVE_DATES_PER_READ, Newest);
    }

    /** A fresh marker that still matches the tables. */
    method StillConverged() returns (matches: bool)
      ensures matches <==> Skips(Snapshot())
    {
      if marker.None? {
        return false;
      }
      var age := now - marker.value.verifiedAt;
      if age < 0 || age >= CONVERGENCE_RECHECK_MS {
        return false;
      }
      matches := marker.value.fingerprint == FingerprintOf(Snapshot());
    }

    /** A tick that does the work: the oldest missing dates, and a new marker once none were left. */
    method FillOldest(bound: nat) returns (outcome: Outcome, ghost attempted: seq<int>)
      requires bound > 0 && !Skips(Snapshot())
      modifies this
      ensures TakesEnd(Missing(old(Snapshot())), attempted, Oldest, bound)
      ensures Attempted(old(Snapshot()), Snapshot(), attempted)
      ensures Snapshot() == Backfill(old(Snapshot()), bound)
      ensures outcome == OutcomeOf(old(Snapshot()), Oldest, bound)
    {
      attempted := SliceOf(Snapshot(), Oldest, bound);
      SliceAttempted(Snapshot(), Oldest, bound);
      var series;
      series, outcome := ResolveSeries(bound, Oldest);
      if outcome.missingDates == 0 {
        marker := Some(Marker(now, FingerprintOf(Snapshot())));
      }
    }

    /** A cron tick: the oldest missing dates, unless a fresh marker still matches. */
    method BackfillTick(bound: int) returns (outcome: Option<Outcome>, ghost attempted: seq<int>)
      modifies this
      ensures if bound <= 0 || Skips(old(Snapshot())) then attempted == []
              else TakesEnd(Missing(old(Snapshot())), attempted, Oldest, bound)
      ensures Attempted(old(Snapshot()), Snapshot(), attempted)
      ensures Snapshot() == Apply(old(Snapshot()), Tick(bound))
      ensures outcome.None? <==> bound <= 0
      ensures outcome.Some? && Skips(old(Snapshot())) ==>
        outcome.value == Outcome(|old(stored)|, 0, 0, 0, false, true)
      ensures outcome.Some? && !Skips(old(Snapshot())) ==>
        outcome.value == OutcomeOf(old(Snapshot()), Oldest, bound)
    {
      attempted := [];
      if bound <= 0 {
        outcome := None;
        return;
      }
      var matches := StillConverged();
      if matches {
        outcome := Some(Outcome(|stored|, 0, 0, 0, false, true));
        return;
      }
      var done;
      done, attempted := FillOldest(bound);
      outcome := Some(done);
    }

    /** The ranged delete every ledger mutation carries, rows and marks in one unit. */
    method InvalidateFrom(from: int)
      modifies this`stored, this`marked
      ensures Snapshot() == Without(old(Snapshot()), From(from))
    {
      stored := map d | d in stored && d < from :: stored[d];
      marked := map d | d in marked && d < from :: marked[d];
    }

    /** Posting, reversing or superseding: the ledger and its invalidation change together or not at all. */
    method MutateLedger(m: Mutation) returns (ok: bool)
      modifies this`facts, this`stored, this`marked
      ensures Snapshot() == Apply(old(Snapshot()), Mutating(m))
      ensures ok <==> Mutate(m, old(facts.ledger)).Some?
    {
      var r := Mutate(m, facts.ledger);
      if r.None? {
        return false;
      }
      facts := facts.(ledger := r.value.0);
      InvalidateFrom(r.value.1);
      ok := true;
    }

    /** A refresh deletes the rows and marks of the very days it wrote, in the batch that writes them. */
    method WritePrices(prices: seq<PriceRow>, days: set<int>)
      modifies this`facts, this`stored, this`marked
      ensures Snapshot() == Apply(old(Snapshot()), PriceWrite(prices, days))
    {
      facts := facts.(prices := prices);
      stored := map d | d in stored && d !in days :: stored[d];
      marked := map d | d in marked && d !in days :: marked[d];
    }

    /** A price batch that leaves the deletion to a later call, or to none: imports, rollups, primes and deleted uploads. */
    method CommitPrices(prices: seq<PriceRow>)
      modifies this`facts
      ensures Snapshot() == Apply(old(Snapshot()), PriceWrite(prices, {}))
    {
      facts := facts.(prices := prices);
      assert stored == map d | d in stored && !Among({})(d) :: stored[d];
      assert marked == map d | d in marked && !Among({})(d) :: marked[d];
    }

    /** One deletion of every row and mark from the first to the last of some dates. */
    method InvalidateSpan(dates: seq<int>)
      modifies this`stored, this`marked
      ensures Snapshot() == Apply(old(Snapshot()), Invalidate(Span(dates)))
    {
      if dates == [] {
        assert stored == map d | d in stored && !Among({})(d) :: stored[d];
        assert marked == map d | d in marked && !Among({})(d) :: marked[d];
        return;
      }
      assert dates[0] in SetOf(dates);
      var first, last := MinOf(SetOf(dates)).value, MaxOf(SetOf(dates)).value;
      stored := map d | d in stored && !(first <= d <= last) :: stored[d];
      marked := map d | d in marked && !(first <= d <= last) :: marked[d];
    }

    /** An import, which may be stopped between any two of its calls: prices first, the deletions behind them. */
    method ImportPrices(versions: seq<seq<PriceRow>>, written: seq<seq<int>>, calls: nat)
      requires calls <= |ImportSteps(versions, written)|
      modifies this`facts, this`stored, this`marked
      ensures Snapshot() == After(old(Snapshot()), ImportSteps(versions, written)[..calls])
    {
      ghost var s, steps := Snapshot(), ImportSteps(versions, written);
      ImportCalls(versions, written);
      for k := 0 to calls
        invariant Snapshot() == After(s, steps[..k])
      {
        AfterSnoc(s, steps[..k], steps[k]);
        assert steps[..k + 1] == steps[..k] + [steps[k]];
        if k < |versions| {
          CommitPrices(versions[k]);
        } else {
          InvalidateSpan(written[k - |versions|]);
        }
      }
    }

    /** A rate that arrives or is corrected touches neither table. */
    method WriteRates(fx: seq<FxRow>)
      modifies this`facts
      ensures Snapshot() == Apply(old(Snapshot()), FxWrite(fx))
    {
      facts := facts.(fx := fx);
    }

    /** A new rate touches neither table. */
    method InsertRate(k: nat, row: FxRow)
      requires k <= |facts.fx|
      modifies this`facts
      ensures Snapshot() == Apply(old(Snapshot()), FxInsert(k, row))
    {
      facts := facts.(fx := facts.fx[..k] + [row] + facts.fx[k..]);
    }
  }
}
