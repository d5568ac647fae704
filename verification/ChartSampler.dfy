/** Choosing which points of a long series a small chart shows. */
module ChartSampler {
  import opened Sequences

  /** A point without a value, with one, or with text that is not a decimal. */
  datatype Value = Gap | Amount(v: real) | Malformed

  /** Indices start to end, both included. */
  datatype Run = Run(start: int, end: int)

  predicate IsGap(points: seq<Value>, i: int) {
    0 <= i < |points| && points[i].Gap?
  }

  /** A longest stretch of gaps. */
  ghost predicate MaximalRun(points: seq<Value>, r: Run) {
    && 0 <= r.start <= r.end < |points|
    && (forall i :: r.start <= i <= r.end ==> IsGap(points, i))
    && !IsGap(points, r.start - 1)
    && !IsGap(points, r.end + 1)
  }

  /** The longest stretches of gaps, in order, every gap in one of them. */
  ghost predicate AllRuns(points: seq<Value>, runs: seq<Run>) {
    && (forall k :: 0 <= k < |runs| ==> MaximalRun(points, runs[k]))
    && (forall j, k :: 0 <= j < k < |runs| ==> runs[j].end < runs[k].start)
    && (forall i :: IsGap(points, i) ==> exists k :: 0 <= k < |runs| && runs[k].start <= i <= runs[k].end)
  }

  method GapRuns(points: seq<Value>) returns (runs: seq<Run>)
    ensures AllRuns(points, runs)
  {
    runs := [];
    var start: Option<int> := None;
    for index := 0 to |points| + 1
      invariant start.Some? ==> 0 <= start.value < index && index <= |points| && !IsGap(points, start.value - 1)
      invariant start.Some? ==> forall i :: start.value <= i < index ==> IsGap(points, i)
      invariant start.None? && index > 0 ==> !IsGap(points, index - 1)
      invariant index == |points| + 1 ==> start.None?
      invariant forall k :: 0 <= k < |runs| ==>
        MaximalRun(points, runs[k]) && runs[k].end < if start.Some? then start.value else index
      invariant forall j, k :: 0 <= j < k < |runs| ==> runs[j].end < runs[k].start
      invariant forall i :: IsGap(points, i) && i < (if start.Some? then start.value else index) ==>
        exists k :: 0 <= k < |runs| && runs[k].start <= i <= runs[k].end
    {
      var gap := index < |points| && points[index].Gap?;
      if gap && start.None? {
        start := Some(index);
      }
      if !gap && start.Some? {
        ghost var before := runs;
        runs := runs + [Run(start.value, index - 1)];
        assert forall k :: 0 <= k < |before| ==> runs[k] == before[k];
        assert runs[|before|] == Run(start.value, index - 1);
        start := None;
      }
    }
  }

  // Rounding of p / q to the nearest integer, halves up.

  function Round(p: int, q: int): int
    requires q > 0
  {
    (2 * p + q) / (2 * q)
  }

  lemma RoundNear(p: int, q: int)
    requires q > 0
    ensures 2 * q * Round(p, q) <= 2 * p + q < 2 * q * Round(p, q) + 2 * q
  {
  }

  lemma CancelLess(q: int, a: int, b: int)
    requires q > 0 && q * a < q * b
    ensures a < b
  {
  }

  /** Moving the fraction up by a whole unit or more moves its rounding up. */
  lemma RoundSteps(p: int, r: int, q: int)
    requires q > 0 && p + q <= r
    ensures Round(p, q) < Round(r, q)
  {
    RoundNear(p, q);
    RoundNear(r, q);
    var x, y := Round(p, q), Round(r, q);
    assert 2 * q * x + 2 * q == 2 * q * (x + 1) && 2 * q * y + 2 * q == 2 * q * (y + 1);
    CancelLess(2 * q, x + 1, y + 1);
  }

  lemma RoundMonotone(p: int, r: int, q: int)
    requires q > 0 && p <= r
    ensures Round(p, q) <= Round(r, q)
  {
    RoundNear(p, q);
    RoundNear(r, q);
    var x, y := Round(p, q), Round(r, q);
    assert 2 * q * y + 2 * q == 2 * q * (y + 1);
    CancelLess(2 * q, x, y + 1);
  }

  lemma RoundExact(k: int, q: int)
    requires q > 0
    ensures Round(k * q, q) == k
  {
    var x := Round(k * q, q);
    RoundNear(k * q, q);
    assert 2 * (k * q) == 2 * q * k;
    assert 2 * q * x + 2 * q == 2 * q * (x + 1) && 2 * q * k + 2 * q == 2 * q * (k + 1);
    CancelLess(2 * q, x, k + 1);
    CancelLess(2 * q, k, x + 1);
  }

  // Which runs get a representative.

  function RunIndex(slot: int, count: int, runs: int): int
    requires count >= 1
  {
    if count == 1 then (runs - 1) / 2 else Round(slot * (runs - 1), count - 1)
  }

  lemma SlotStep(slot: int, runs: int, count: int)
    requires 2 <= count <= runs
    ensures slot * (runs - 1) + (count - 1) <= (slot + 1) * (runs - 1)
  {
  }

  /** Representatives belong to different runs, in order, and to no run that does not exist. */
  lemma {:induction false} RunIndexSpreads(i: int, j: int, count: int, runs: int)
    requires 0 <= i <= j < count && 1 <= count <= runs
    ensures 0 <= RunIndex(i, count, runs) <= RunIndex(j, count, runs) < runs
    ensures i < j ==> RunIndex(i, count, runs) < RunIndex(j, count, runs)
    decreases j - i
  {
    if count > 1 {
      var q := count - 1;
      RoundExact(0, q);
      RoundExact(runs - 1, q);
      assert q * (runs - 1) == (runs - 1) * q;
      SlotProducts(0, i, runs - 1);
      SlotProducts(j, q, runs - 1);
      RoundMonotone(0, i * (runs - 1), q);
      RoundMonotone(j * (runs - 1), q * (runs - 1), q);
      if i < j {
        SlotStep(i, runs, count);
        SlotProducts(i + 1, j, runs - 1);
        RoundSteps(i * (runs - 1), j * (runs - 1), q);
      }
    }
  }

  lemma SlotProducts(a: int, b: int, n: int)
    requires a <= b && n >= 0
    ensures a * n <= b * n
  {
    assert (b - a) * n >= 0;
  }

  /** With as many representatives as runs, each run has its own. */
  lemma RunIndexCoversAll(slot: int, runs: int)
    requires 0 <= slot < runs
    ensures RunIndex(slot, runs, runs) == slot
  {
    if runs > 1 {
      RoundExact(slot, runs - 1);
    }
  }

  /** Slots lie evenly: each takes the run nearest its share of the way, a tie going up, and a lone one the middle run. */
  lemma RunIndexNear(slot: int, count: int, runs: int)
    requires 0 <= slot < count <= runs
    ensures count == 1 ==> 0 <= runs - 1 - 2 * RunIndex(slot, count, runs) <= 1
    ensures count > 1 ==>
      var error := slot * (runs - 1) - (count - 1) * RunIndex(slot, count, runs);
      -(count - 1) <= 2 * error < count - 1
  {
    if count > 1 {
      RoundNear(slot * (runs - 1), count - 1);
      Doubled(count - 1, RunIndex(slot, count, runs));
    }
  }

  lemma Doubled(q: int, x: int)
    ensures 2 * q * x == 2 * (q * x)
  {
  }

  /** at lists the run of every slot. */
  ghost predicate IsSpread(at: seq<int>, count: int, runs: int)
    requires count >= 1
  {
    |at| == count && forall slot :: 0 <= slot < count ==> at[slot] == RunIndex(slot, count, runs)
  }

  /** The runs that get a representative: all different, in order, and every one when there is room for all. */
  method SpreadRuns(count: int, runs: int) returns (at: seq<int>)
    requires 1 <= count <= runs
    ensures IsSpread(at, count, runs)
    ensures Increasing(at) && forall k :: k in at ==> 0 <= k < runs
    ensures count == runs ==> forall k :: 0 <= k < runs ==> at[k] == k
  {
    at := [];
    for slot := 0 to count
      invariant |at| == slot
      invariant forall j :: 0 <= j < slot ==> at[j] == RunIndex(j, count, runs)
    {
      at := at + [RunIndex(slot, count, runs)];
    }
    SpreadInOrder(at, count, runs);
  }

  lemma SpreadInOrder(at: seq<int>, count: int, runs: int)
    requires 1 <= count <= runs && IsSpread(at, count, runs)
    ensures Increasing(at) && forall k :: k in at ==> 0 <= k < runs
    ensures count == runs ==> forall k :: 0 <= k < runs ==> at[k] == k
  {
    forall i, j | 0 <= i < j < count ensures at[i] < at[j] {
      RunIndexSpreads(i, j, count, runs);
    }
    forall i | 0 <= i < count ensures 0 <= at[i] < runs && (count == runs ==> at[i] == i) {
      RunIndexSpreads(i, i, count, runs);
      if count == runs {
        RunIndexCoversAll(i, runs);
      }
    }
  }

  // The extreme values.

  predicate IsValued(points: seq<Value>, i: int) {
    0 <= i < |points| && !points[i].Gap?
  }

  /** The first of the smallest values. */
  ghost predicate FirstMinimum(points: seq<Value>, i: int) {
    && IsValued(points, i) && points[i].Amount?
    && forall j :: IsValued(points, j) && points[j].Amount? ==>
         points[i].v <= points[j].v && (j < i ==> points[i].v < points[j].v)
  }

  ghost predicate FirstMaximum(points: seq<Value>, i: int) {
    && IsValued(points, i) && points[i].Amount?
    && forall j :: IsValued(points, j) && points[j].Amount? ==>
         points[j].v <= points[i].v && (j < i ==> points[j].v < points[i].v)
  }

  function ValuedIndices(points: seq<Value>, n: nat): (r: seq<int>)
    requires n <= |points|
    ensures Increasing(r)
    ensures forall i :: i in r <==> i < n && IsValued(points, i)
  {
    if n == 0 then []
    else
      var rest := ValuedIndices(points, n - 1);
      assert forall k :: 0 <= k < |rest| ==> rest[k] in rest;
      if points[n - 1].Gap? then rest else rest + [n - 1]
  }

  /** Some value has to be compared and cannot be read. */
  ghost predicate Unreadable(points: seq<Value>) {
    |ValuedIndices(points, |points|)| >= 2 && exists i :: IsValued(points, i) && points[i].Malformed?
  }

  /** m is the first of the smallest (or largest) values among some readable indices. */
  ghost predicate Least(points: seq<Value>, among: seq<int>, m: int) {
    && m in among
    && (forall i :: i in among ==> 0 <= i < |points| && points[i].Amount?)
    && (forall i :: i in among ==> points[m].v <= points[i].v && (i < m ==> points[m].v < points[i].v))
  }

  ghost predicate Greatest(points: seq<Value>, among: seq<int>, m: int) {
    && m in among
    && (forall i :: i in among ==> 0 <= i < |points| && points[i].Amount?)
    && (forall i :: i in among ==> points[i].v <= points[m].v && (i < m ==> points[i].v < points[m].v))
  }

  /** One more, later, readable value. */
  lemma ExtremesSnoc(points: seq<Value>, among: seq<int>, lo: int, hi: int, entry: int)
    requires 0 <= entry < |points| && points[entry].Amount?
    requires forall i :: i in among ==> 0 <= i < entry
    requires 0 <= lo < |points| && 0 <= hi < |points|
    requires (among == [lo] && lo == hi && points[lo].Amount?) || (Least(points, among, lo) && Greatest(points, among, hi))
    ensures Least(points, among + [entry], if points[entry].v < points[lo].v then entry else lo)
    ensures Greatest(points, among + [entry], if points[hi].v < points[entry].v then entry else hi)
  {
  }

  lemma ExtremesAmongAll(points: seq<Value>, lo: int, hi: int)
    requires Least(points, ValuedIndices(points, |points|), lo) && Greatest(points, ValuedIndices(points, |points|), hi)
    ensures FirstMinimum(points, lo) && FirstMaximum(points, hi) && !Unreadable(points)
  {
  }

  lemma UnreadableBy(points: seq<Value>, i: int)
    requires IsValued(points, i) && points[i].Malformed? && |ValuedIndices(points, |points|)| >= 2
    ensures Unreadable(points)
  {
  }

  /** What the scan adds: both extremes, a lone value unread, nothing when a comparison meets unreadable text. */
  ghost predicate ExtremesOf(points: seq<Value>, extremes: set<int>) {
    var valued := ValuedIndices(points, |points|);
    && (|valued| == 0 || Unreadable(points) ==> extremes == {})
    && (|valued| == 1 ==> extremes == {valued[0]})
    && (|valued| >= 2 && !Unreadable(points) ==>
          exists lo, hi :: FirstMinimum(points, lo) && FirstMaximum(points, hi) && extremes == {lo, hi})
  }

  /** The running minimum and maximum over the valued points; a comparison with unreadable text ends the scan. */
  method ScanExtremes(points: seq<Value>, valued: seq<int>) returns (readable: bool, minimum: int, maximum: int)
    requires valued != [] && Increasing(valued) && forall i :: i in valued ==> IsValued(points, i)
    ensures minimum in valued && maximum in valued
    ensures |valued| == 1 ==> readable && minimum == maximum == valued[0]
    ensures |valued| > 1 && readable ==> Least(points, valued, minimum) && Greatest(points, valued, maximum)
    ensures !readable ==> exists i :: i in valued && IsValued(points, i) && points[i].Malformed?
  {
    readable, minimum, maximum := true, valued[0], valued[0];
    for k := 1 to |valued|
      invariant minimum in valued && maximum in valued && readable
      invariant k == 1 ==> minimum == maximum == valued[0]
      invariant k > 1 ==> Least(points, valued[..k], minimum) && Greatest(points, valued[..k], maximum)
    {
      var entry := valued[k];
      assert entry in valued;
      if !points[entry].Amount? || !points[minimum].Amount? {
        return false, minimum, maximum;
      }
      assert valued[..k + 1] == valued[..k] + [entry];
      assert k == 1 ==> valued[..k] == [minimum];
      ExtremesSnoc(points, valued[..k], minimum, maximum, entry);
      if points[entry].v < points[minimum].v {
        minimum := entry;
      }
      if points[maximum].v < points[entry].v {
        maximum := entry;
      }
    }
    assert valued[..|valued|] == valued;
  }

  method Extremes(points: seq<Value>) returns (extremes: set<int>)
    ensures ExtremesOf(points, extremes)
    ensures forall i :: i in extremes ==> IsValued(points, i)
    ensures |extremes| <= 2
  {
    var valued := ValuedIndices(points, |points|);
    extremes := {};
    if valued != [] {
      var readable, minimum, maximum := ScanExtremes(points, valued);
      if readable {
        extremes := {minimum, maximum};
        if |valued| > 1 {
          ExtremesAmongAll(points, minimum, maximum);
        } else {
          NotUnreadable(points);
        }
      } else {
        ghost var i :| i in valued && IsValued(points, i) && points[i].Malformed?;
        UnreadableBy(points, i);
      }
    }
  }

  lemma NotUnreadable(points: seq<Value>)
    requires |ValuedIndices(points, |points|)| == 1
    ensures !Unreadable(points)
  {
  }

  // The sample.

  function Min(a: int, b: int): int {
    if a < b then a else b
  }

  function Max(a: int, b: int): int {
    if a < b then b else a
  }

  function Target(n: nat, maxPoints: int): int {
    Min(n, Max(4, maxPoints))
  }

  function Listing(s: set<int>, n: nat): (r: seq<int>)
    ensures Increasing(r)
    ensures forall i :: i in r <==> 0 <= i < n && i in s
  {
    if n == 0 then []
    else
      var rest := Listing(s, n - 1);
      assert forall k :: 0 <= k < |rest| ==> rest[k] in rest;
      if n - 1 in s then rest + [n - 1] else rest
  }

  /** The listing repeats nothing and misses nothing. */
  lemma ListingSize(s: set<int>, n: nat)
    requires forall i :: i in s ==> 0 <= i < n
    ensures |Listing(s, n)| == |s| && SetOf(Listing(s, n)) == s
  {
    IncreasingSize(Listing(s, n));
    assert SetOf(Listing(s, n)) == s;
  }

  function Middle(run: Run): int {
    (run.start + run.end) / 2
  }

  /** The middle gap of a run, the earlier of two. */
  lemma MiddleCentred(run: Run)
    requires run.start <= run.end
    ensures run.start <= Middle(run) <= run.end
    ensures 0 <= (run.end - Middle(run)) - (Middle(run) - run.start) <= 1
  {
  }

  function EndsOf(runs: seq<Run>): set<int> {
    if runs == [] then {} else EndsOf(runs[..|runs| - 1]) + {runs[|runs| - 1].start} + {runs[|runs| - 1].end}
  }

  predicate SlotsWithin(at: seq<int>, runs: int) {
    forall slot :: 0 <= slot < |at| ==> 0 <= at[slot] < runs
  }

  function MiddlesAt(runs: seq<Run>, at: seq<int>): set<int>
    requires SlotsWithin(at, |runs|)
  {
    if at == [] then {} else MiddlesAt(runs, at[..|at| - 1]) + {Middle(runs[at[|at| - 1]])}
  }

  lemma {:induction false} EndsMembers(runs: seq<Run>)
    ensures forall k :: 0 <= k < |runs| ==> runs[k].start in EndsOf(runs) && runs[k].end in EndsOf(runs)
  {
    if runs != [] {
      var n := |runs| - 1;
      EndsMembers(runs[..n]);
      assert forall k :: 0 <= k < n ==> runs[k] == runs[..n][k];
    }
  }

  lemma {:induction false} MiddlesMembers(runs: seq<Run>, at: seq<int>)
    requires SlotsWithin(at, |runs|)
    ensures MiddlesShown(MiddlesAt(runs, at), runs, at)
  {
    if at != [] {
      var n := |at| - 1;
      MiddlesMembers(runs, at[..n]);
      forall slot | 0 <= slot < |at| ensures 0 <= at[slot] < |runs| && Middle(runs[at[slot]]) in MiddlesAt(runs, at) {
        assert slot < n ==> at[slot] == at[..n][slot];
      }
    }
  }

  /** Just these gaps are added: both ends of every run, or the middles of as many evenly spread runs as there is room for. */
  ghost predicate GapsAdded(added: set<int>, runs: seq<Run>, budget: int, at: seq<int>) {
    if |runs| == 0 || budget == 0 then added == {}
    else if 2 * |runs| <= budget then added == EndsOf(runs)
    else
      && budget > 0 && IsSpread(at, Min(|runs|, budget), |runs|)
      && SlotsWithin(at, |runs|) && added == MiddlesAt(runs, at)
  }

  /** The runs at these positions show their middles. */
  ghost predicate MiddlesShown(chosen: set<int>, runs: seq<Run>, at: seq<int>) {
    forall slot :: 0 <= slot < |at| ==> 0 <= at[slot] < |runs| && Middle(runs[at[slot]]) in chosen
  }

  /** The gap budget decides how every run of gaps is shown; when it is short, as many runs as it has room for. */
  ghost predicate RunsShown(chosen: set<int>, runs: seq<Run>, budget: int, at: seq<int>) {
    && (2 * |runs| <= budget ==> forall k :: 0 <= k < |runs| ==> runs[k].start in chosen && runs[k].end in chosen)
    && (|runs| <= budget < 2 * |runs| ==> forall k :: 0 <= k < |runs| ==> Middle(runs[k]) in chosen)
    && (0 < budget < |runs| ==> |at| == budget && Increasing(at) && MiddlesShown(chosen, runs, at))
  }

  /** Adding one element grows a set by at most one. */
  lemma AddOne(s: set<int>, i: int)
    ensures |s| <= |s + {i}| <= |s| + 1
    ensures i in s ==> s + {i} == s
  {
  }

  predicate Within(chosen: set<int>, n: nat) {
    forall i :: i in chosen ==> 0 <= i < n
  }

  predicate RunsWithin(runs: seq<Run>, n: nat) {
    forall k :: 0 <= k < |runs| ==> 0 <= runs[k].start <= runs[k].end < n
  }

  /** Room for both ends of every run. */
  method AddEnds(runs: seq<Run>, n: nat, before: set<int>) returns (selected: set<int>)
    requires RunsWithin(runs, n) && Within(before, n)
    ensures before <= selected && |selected| <= |before| + 2 * |runs| && Within(selected, n)
    ensures selected == before + EndsOf(runs)
  {
    selected := before;
    for k := 0 to |runs|
      invariant before <= selected && |selected| <= |before| + 2 * k && Within(selected, n)
      invariant selected == before + EndsOf(runs[..k])
    {
      assert runs[..k + 1][..k] == runs[..k];
      AddOne(selected, runs[k].start);
      AddOne(selected + {runs[k].start}, runs[k].end);
      selected := selected + {runs[k].start} + {runs[k].end};
    }
    assert runs[..|runs|] == runs;
  }

  /** The middles of the runs at these positions. */
  method AddMiddles(runs: seq<Run>, n: nat, before: set<int>, at: seq<int>) returns (selected: set<int>)
    requires RunsWithin(runs, n) && Within(before, n) && SlotsWithin(at, |runs|)
    ensures before <= selected && |selected| <= |before| + |at| && Within(selected, n)
    ensures selected == before + MiddlesAt(runs, at)
  {
    selected := before;
    for slot := 0 to |at|
      invariant before <= selected && |selected| <= |before| + slot && Within(selected, n)
      invariant selected == before + MiddlesAt(runs, at[..slot])
    {
      assert at[..slot + 1][..slot] == at[..slot];
      var run := runs[at[slot]];
      AddOne(selected, Middle(run));
      selected := selected + {Middle(run)};
    }
    assert at[..|at|] == at;
  }

  lemma MiddlesAllShown(runs: seq<Run>, at: seq<int>, selected: set<int>)
    requires SlotsWithin(at, |runs|) && MiddlesAt(runs, at) <= selected
    ensures MiddlesShown(selected, runs, at)
    ensures |at| == |runs| && (forall k :: 0 <= k < |runs| ==> at[k] == k) ==>
      forall k :: 0 <= k < |runs| ==> Middle(runs[k]) in selected
  {
    MiddlesMembers(runs, at);
    if |at| == |runs| && forall k :: 0 <= k < |runs| ==> at[k] == k {
      forall k | 0 <= k < |runs| ensures Middle(runs[k]) in selected {
        assert Middle(runs[at[k]]) in MiddlesAt(runs, at);
      }
    }
  }

  /** The middles of as many evenly spread runs as there is room for. */
  method AddSpread(runs: seq<Run>, n: nat, before: set<int>, budget: int) returns (selected: set<int>, ghost at: seq<int>)
    requires RunsWithin(runs, n) && Within(before, n) && |runs| > 0 && 0 < budget < 2 * |runs|
    ensures |selected| <= |before| + budget && Within(selected, n)
    ensures IsSpread(at, Min(|runs|, budget), |runs|) && SlotsWithin(at, |runs|)
    ensures selected == before + MiddlesAt(runs, at) && RunsShown(selected, runs, budget, at)
  {
    var slots := SpreadRuns(Min(|runs|, budget), |runs|);
    at := slots;
    assert SlotsWithin(at, |runs|) by {
      assert forall slot :: 0 <= slot < |at| ==> at[slot] in at;
    }
    selected := AddMiddles(runs, n, before, slots);
    MiddlesAllShown(runs, at, selected);
  }

  method AddGapPoints(points: seq<Value>, runs: seq<Run>, before: set<int>, budget: int)
    returns (selected: set<int>, ghost added: set<int>, ghost at: seq<int>)
    requires AllRuns(points, runs) && budget >= 0 && Within(before, |points|)
    ensures before <= selected && |selected| <= |before| + budget && Within(selected, |points|)
    ensures selected == before + added && GapsAdded(added, runs, budget, at)
    ensures RunsShown(selected, runs, budget, at)
    ensures 0 < budget < |runs| ==> IsSpread(at, budget, |runs|)
  {
    added, at, selected := {}, [], before;
    if |runs| == 0 || budget == 0 {
      return;
    }
    if |runs| * 2 <= budget {
      selected := AddEnds(runs, |points|, before);
      added := EndsOf(runs);
      EndsMembers(runs);
    } else {
      selected, at := AddSpread(runs, |points|, before, budget);
      added := MiddlesAt(runs, at);
    }
  }

  lemma BucketInRange(bucket: int, n: nat, target: int)
    requires n >= 1 && 0 < bucket < target - 1
    ensures 0 <= Bucket(bucket, n, target) <= n - 1
  {
    var q := target - 1;
    RoundExact(0, q);
    RoundExact(n - 1, q);
    assert q * (n - 1) == (n - 1) * q;
    SlotProducts(0, bucket, n - 1);
    SlotProducts(bucket, q, n - 1);
    RoundMonotone(0, bucket * (n - 1), q);
    RoundMonotone(bucket * (n - 1), q * (n - 1), q);
  }

  /** The index nearest a bucket's share of the way, a tie going up. */
  function Bucket(bucket: int, n: nat, target: int): int
    requires target >= 2
  {
    Round(bucket * (n - 1), target - 1)
  }

  lemma BucketNear(bucket: int, n: nat, target: int)
    requires target >= 2
    ensures var error := bucket * (n - 1) - (target - 1) * Bucket(bucket, n, target);
      -(target - 1) <= 2 * error < target - 1
  {
    RoundNear(bucket * (n - 1), target - 1);
    Doubled(target - 1, Bucket(bucket, n, target));
  }

  /** The buckets before the k-th, the first point aside. */
  function Buckets(k: int, n: nat, target: int): set<int>
    requires target >= 2
  {
    if k <= 1 then {} else Buckets(k - 1, n, target) + {Bucket(k - 1, n, target)}
  }

  predicate IsIndex(i: int, m: nat) {
    0 <= i < m
  }

  function Indices(m: nat): set<int> {
    set i: int | 0 <= i < m && IsIndex(i, m)
  }

  /** Buckets in turn until the target is reached; if all of them do not reach it, the first indices until they do. */
  ghost predicate FilledUp(selected: set<int>, before: set<int>, n: nat, target: int, k: int, m: nat) {
    && target >= 2 && 1 <= k <= target - 1 && |selected| == target
    && selected == before + Buckets(k, n, target) + Indices(m)
    && (k < target - 1 ==> |before + Buckets(k, n, target)| == target)
    && (k > 1 ==> |before + Buckets(k - 1, n, target)| < target)
    && (m > 0 ==> k == target - 1 && |before + Buckets(k, n, target) + Indices(m - 1)| < target)
  }

  /** Evenly spread buckets, then the first unused indices, until the target is reached exactly. */
  method FillUp(n: nat, target: int, before: set<int>) returns (selected: set<int>, ghost k: int, ghost m: nat)
    requires |before| <= target <= n && 2 <= target && Within(before, n)
    ensures before <= selected && |selected| == target && Within(selected, n)
    ensures FilledUp(selected, before, n, target, k, m)
  {
    var spread;
    spread, k := AddBuckets(n, target, before);
    selected, m := AddFirst(n, target, spread);
    assert selected == before + Buckets(k, n, target) + Indices(m);
  }

  /** Before and the buckets before the k-th, as long as they were not enough. */
  ghost predicate BucketsTaken(selected: set<int>, before: set<int>, n: nat, target: int, k: int) {
    && target >= 2 && 1 <= k <= target - 1
    && selected == before + Buckets(k, n, target) && |selected| <= target && Within(selected, n)
    && (k > 1 ==> |before + Buckets(k - 1, n, target)| < target)
  }

  lemma OneMoreBucket(selected: set<int>, before: set<int>, n: nat, target: int, k: int)
    requires BucketsTaken(selected, before, n, target, k) && |selected| < target && k < target - 1 && n >= 1
    ensures BucketsTaken(selected + {Bucket(k, n, target)}, before, n, target, k + 1)
  {
    BucketInRange(k, n, target);
    AddOne(selected, Bucket(k, n, target));
    assert selected + {Bucket(k, n, target)} == before + Buckets(k + 1, n, target);
  }

  method AddBuckets(n: nat, target: int, before: set<int>) returns (selected: set<int>, ghost k: int)
    requires |before| <= target <= n && 2 <= target && Within(before, n)
    ensures BucketsTaken(selected, before, n, target, k) && (k < target - 1 ==> |selected| == target)
  {
    selected := before;
    var bucket := 1;
    assert before + Buckets(1, n, target) == before;
    while bucket < target - 1 && |selected| < target
      invariant BucketsTaken(selected, before, n, target, bucket)
      decreases target - bucket
    {
      OneMoreBucket(selected, before, n, target, bucket);
      selected := selected + {Bucket(bucket, n, target)};
      bucket := bucket + 1;
    }
    k := bucket;
  }

  /** Before and the first m indices, up to the first m that make enough. */
  ghost predicate FirstTaken(selected: set<int>, before: set<int>, n: nat, target: int, m: nat) {
    && selected == before + Indices(m) && |selected| <= target && Within(selected, n)
    && (m > 0 ==> |before| < target && |before + Indices(m - 1)| < target)
  }

  lemma TakeOneMore(selected: set<int>, before: set<int>, n: nat, target: int, m: nat)
    requires FirstTaken(selected, before, n, target, m) && |selected| < target && m < n
    ensures FirstTaken(selected + {m}, before, n, target, m + 1)
  {
    AddOne(selected, m);
    OneMoreIndex(before, m);
    SubsetSmaller(before, selected);
  }

  lemma FirstEnough(selected: set<int>, before: set<int>, n: nat, target: int, m: nat)
    requires FirstTaken(selected, before, n, target, m) && target <= n && (m < n ==> |selected| >= target)
    ensures |selected| == target
  {
    RangeSize(before, m);
  }

  method AddFirst(n: nat, target: int, before: set<int>) returns (selected: set<int>, ghost m: nat)
    requires |before| <= target <= n && Within(before, n)
    ensures FirstTaken(selected, before, n, target, m) && |selected| == target
  {
    selected := before;
    var index := 0;
    assert Indices(0) == {};
    while index < n && |selected| < target
      invariant 0 <= index <= n && FirstTaken(selected, before, n, target, index)
    {
      TakeOneMore(selected, before, n, target, index);
      selected := selected + {index};
      index := index + 1;
    }
    m := index;
    FirstEnough(selected, before, n, target, index);
  }

  lemma OneMoreIndex(before: set<int>, m: nat)
    ensures before + Indices(m + 1) == before + Indices(m) + {m}
  {
  }

  lemma RangeSize(before: set<int>, m: nat)
    ensures |before + Indices(m)| >= m
  {
    assert Indices(m) == Range(m);
    SubsetSmaller(Indices(m), before + Indices(m));
  }

  function Range(n: nat): (r: set<int>)
    ensures |r| == n && forall i :: i in r <==> 0 <= i < n
  {
    if n == 0 then {} else Range(n - 1) + {n - 1}
  }

  lemma SubsetSmaller<T>(a: set<T>, b: set<T>)
    requires a <= b
    ensures |a| <= |b|
  {
    assert b == a + (b - a);
  }

  /** Ends and extremes are at most four indices, and never more than there are points. */
  lemma StartSize(n: nat, extremes: set<int>)
    requires n >= 2 && |extremes| <= 2 && Within(extremes, n)
    ensures |{0, n - 1} + extremes| <= Min(4, n)
  {
    SubsetSmaller({0, n - 1} + extremes, Range(n));
    assert {0, n - 1} + extremes == {0, n - 1} + (extremes - {0, n - 1});
    SubsetSmaller(extremes - {0, n - 1}, extremes);
  }

  /** Exactly target indices: the ends, the extremes, and the runs as far as the gap budget goes. */
  ghost predicate Shows(n: nat, maxPoints: int, chosen: set<int>, runs: seq<Run>, extremes: set<int>, at: seq<int>) {
    var budget := Target(n, maxPoints) - |{0, n - 1} + extremes|;
    && |chosen| == Target(n, maxPoints)
    && 0 in chosen && n - 1 in chosen && extremes <= chosen
    && RunsShown(chosen, runs, budget, at) && (0 < budget < |runs| ==> IsSpread(at, budget, |runs|))
  }

  /** What was added for the gaps, how many buckets, and how many first indices. */
  datatype Fill = Fill(gaps: set<int>, buckets: int, first: nat)

  /** Which points are shown, and no others: ends and extremes, then gaps, then even buckets, then the first ones. */
  ghost predicate Chosen(chosen: set<int>, n: nat, maxPoints: int, runs: seq<Run>, extremes: set<int>, at: seq<int>, fill: Fill) {
    var target, start := Target(n, maxPoints), {0, n - 1} + extremes;
    && GapsAdded(fill.gaps, runs, target - |start|, at)
    && FilledUp(chosen, start + fill.gaps, n, target, fill.buckets, fill.first)
  }

  lemma ShownInMore(before: set<int>, after: set<int>, runs: seq<Run>, budget: int, at: seq<int>)
    requires before <= after && RunsShown(before, runs, budget, at)
    ensures RunsShown(after, runs, budget, at)
  {
  }

  /** The sampled set, when there are more points than may be shown. */
  method Choose(points: seq<Value>, maxPoints: int, gaps: seq<Run>, ex: set<int>)
    returns (filled: set<int>, ghost at: seq<int>, ghost fill: Fill)
    requires AllRuns(points, gaps) && |ex| <= 2 && Within(ex, |points|) && 2 <= maxPoints < |points|
    ensures Within(filled, |points|) && Shows(|points|, maxPoints, filled, gaps, ex, at)
    ensures Chosen(filled, |points|, maxPoints, gaps, ex, at, fill)
  {
    var n := |points|;
    var target := Target(n, maxPoints);
    var selected := {0, n - 1} + ex;
    StartSize(n, ex);
    var withGaps;
    ghost var added, k, m;
    withGaps, added, at := AddGapPoints(points, gaps, selected, Max(0, target - |selected|));
    filled, k, m := FillUp(n, target, withGaps);
    fill := Fill(added, k, m);
    ShownInMore(withGaps, filled, gaps, target - |selected|, at);
  }

  method ListChosen(points: seq<Value>, maxPoints: int, gaps: seq<Run>, ex: set<int>)
    returns (indices: seq<int>, ghost at: seq<int>, ghost fill: Fill)
    requires AllRuns(points, gaps) && |ex| <= 2 && Within(ex, |points|) && 2 <= maxPoints < |points|
    ensures Increasing(indices) && Within(SetOf(indices), |points|)
    ensures |indices| == Target(|points|, maxPoints) && Shows(|points|, maxPoints, SetOf(indices), gaps, ex, at)
    ensures Chosen(SetOf(indices), |points|, maxPoints, gaps, ex, at, fill)
  {
    var filled;
    filled, at, fill := Choose(points, maxPoints, gaps, ex);
    ListingSize(filled, |points|);
    indices := Listing(filled, |points|)[..Target(|points|, maxPoints)];
    assert indices == Listing(filled, |points|);
  }

  /** The indices shown, in order. */
  method Sample(points: seq<Value>, maxPoints: int)
    returns (indices: seq<int>, ghost runs: seq<Run>, ghost extremes: set<int>, ghost at: seq<int>, ghost fill: Fill)
    ensures Increasing(indices) && Within(SetOf(indices), |points|)
    ensures AllRuns(points, runs) && ExtremesOf(points, extremes)
    ensures |points| <= maxPoints || maxPoints < 2 ==> |indices| == |points|
    ensures 2 <= maxPoints < |points| ==>
      |indices| == if maxPoints >= 4 then maxPoints else if |points| >= 4 then 4 else |points|
    ensures 2 <= maxPoints < |points| ==> Shows(|points|, maxPoints, SetOf(indices), runs, extremes, at)
    ensures 2 <= maxPoints < |points| ==> Chosen(SetOf(indices), |points|, maxPoints, runs, extremes, at, fill)
  {
    var gaps := GapRuns(points);
    var ex := Extremes(points);
    if |points| <= maxPoints || maxPoints < 2 {
      indices := Listing(Range(|points|), |points|);
      ListingSize(Range(|points|), |points|);
      at, fill := [], Fill({}, 1, 0);
    } else {
      indices, at, fill := ListChosen(points, maxPoints, gaps, ex);
    }
    runs, extremes := gaps, ex;
  }
}
