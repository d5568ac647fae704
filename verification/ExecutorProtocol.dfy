/** The executor as a state machine over repository calls, with crashes, expired leases and queueing in between. */
module ExecutorProtocol {
  import opened Sequences
  import opened RunTable

  /** What the one invocation at work on the portfolio has established about the row it claimed. */
  datatype Phase =
    | Idle
    | Claimed(run: nat, owner: nat)
    | Checked(run: nat, owner: nat)
    | AtLimit(run: nat, owner: nat)
    | Working(run: nat, owner: nat)
    | Chosen(run: nat, owner: nat, security: Option<nat>)
    | Prepared(run: nat, owner: nat, plan: Plan)

  datatype Machine = Machine(table: Table, phase: Phase)

  datatype Step =
    | Queue(pipeline: Pipeline, createdAt: int, highWater: nat)
    | Mutate(ledger: Projections, createdAt: int, highWater: nat)
    | SupersedeStale
    | RetireSnapshots
    | Claim(run: nat, owner: nat, now: int)
    | FailSuperseded
    | CheckNewest
    | Record
    | FailStalled
    | Resolve(highWater: nat)
    | Choose
    | ReadLedger
    | Chunk(now: int, highWater: nat)
    | PublishRun(now: int, highWater: nat)
    | FailBuild
    | Release(now: int)
    | Leave

  /**
   * Queueing, ledger mutations and retiring happen at any time, between a rebuild's reads and its write too;
   * the rest follows the executor's own order of calls.
   */
  predicate Enabled(m: Machine, step: Step) {
    var t := m.table;
    match step
    case Queue(_, _, _) => true
    case Mutate(_, _, _) => true
    case RetireSnapshots => true
    case SupersedeStale => m.phase.Idle?
    case Claim(i, owner, now) =>
      m.phase.Idle? && i < |t.runs| && t.runs[i].pipeline == Projection && Claimable(t.runs[i], now)
    case FailSuperseded => m.phase.Claimed? && m.phase.run < |t.runs| && HasNewer(t.runs, m.phase.run)
    case CheckNewest => m.phase.Claimed? && m.phase.run < |t.runs| && !HasNewer(t.runs, m.phase.run)
    case Record => m.phase.Checked? && RecordClaimProgress(t, m.phase.run, m.phase.owner).Some?
    case FailStalled => m.phase.AtLimit?
    case Resolve(_) => m.phase.Working?
    case Choose => m.phase.Working? && m.phase.run < |t.runs|
    case ReadLedger => m.phase.Chosen? && m.phase.run < |t.runs|
    case Chunk(now, highWater) =>
      && m.phase.Prepared? && m.phase.plan.Write? && MayRebuild(t, m.phase.run, m.phase.owner, now, highWater)
      && DistinctKeys(t.runs[m.phase.run].rows + m.phase.plan.rows)
    case PublishRun(now, highWater) =>
      m.phase.Prepared? && m.phase.plan.Finish? && MayRebuild(t, m.phase.run, m.phase.owner, now, highWater)
    case FailBuild => m.phase.Chosen?
    case Release(_) => m.phase.Working?
    case Leave => true
  }

  function Failing(m: Machine, why: Category): Machine
    requires !m.phase.Idle?
  {
    var failed := FailRun(m.table, m.phase.run, m.phase.owner, why);
    Machine(if failed.Some? then failed.value else m.table, Idle)
  }

  function Next(m: Machine, step: Step): Machine
    requires Enabled(m, step)
  {
    var t := m.table;
    match step
    case Queue(pipeline, createdAt, highWater) => m.(table := Enqueue(t, NewRun(pipeline, createdAt, highWater)))
    case Mutate(ledger, createdAt, highWater) =>
      m.(table := MutateLedger(t, ledger, NewRun(Projection, createdAt, highWater)))
    case SupersedeStale => m.(table := SupersedeStaleQueued(t, Projection))
    case RetireSnapshots => m.(table := TerminatePipeline(t, Snapshot))
    case Claim(i, owner, now) => Machine(ClaimRun(t, i, owner, now).value, Claimed(i, owner))
    case FailSuperseded => Failing(m, SupersededByNewerRun)
    case CheckNewest => m.(phase := Checked(m.phase.run, m.phase.owner))
    case Record =>
      var r := RecordClaimProgress(t, m.phase.run, m.phase.owner).value;
      Machine(r, if r.runs[m.phase.run].stallCount >= MAX_STALL_CLAIMS then AtLimit(m.phase.run, m.phase.owner)
                 else Working(m.phase.run, m.phase.owner))
    case FailStalled => Failing(m, StallLimitExceeded)
    case Resolve(highWater) => m.(table := ResolveEmptyHighWater(t, m.phase.run, m.phase.owner, highWater))
    case Choose =>
      m.(phase := Chosen(m.phase.run, m.phase.owner, CurrentSecurity(t.ledger, t.runs[m.phase.run].checkpoint)))
    case ReadLedger =>
      m.(phase := Prepared(m.phase.run, m.phase.owner,
                           PlanFor(t.ledger, t.runs[m.phase.run].checkpoint, m.phase.security)))
    case Chunk(_, _) =>
      Machine(WriteChunk(t, m.phase.run, m.phase.plan.rows, m.phase.plan.next), Working(m.phase.run, m.phase.owner))
    case PublishRun(_, _) => Machine(Publish(t, m.phase.run), Idle)
    case FailBuild => Failing(m, BuildFailed)
    case Release(now) => Machine(ReleaseLease(t, m.phase.run, m.phase.owner, now), Idle)
    case Leave => m.(phase := Idle)
  }

  // What every reachable state satisfies.

  ghost predicate PublishedIsCompleted(t: Table) {
    t.published.Some? ==>
      && t.published.value < |t.runs|
      && t.runs[t.published.value].pipeline == Projection
      && t.runs[t.published.value].status == Completed
  }

  /** A completed projection row is the published one or older than it. */
  ghost predicate CompletedNotAhead(t: Table) {
    forall i :: 0 <= i < |t.runs| && t.runs[i].pipeline == Projection && t.runs[i].status == Completed ==>
      t.published.Some? && t.published.value < |t.runs| && (i == t.published.value || Newer(t.runs, i, t.published.value))
  }

  /** Only a row with a newer sibling is ever superseded. */
  ghost predicate SupersededHasNewer(t: Table) {
    forall i :: 0 <= i < |t.runs| && t.runs[i].pipeline == Projection && t.runs[i].status == Failed(SupersededByNewerRun)
      ==> HasNewer(t.runs, i)
  }

  ghost predicate NeverAbandoned(t: Table) {
    forall i :: 0 <= i < |t.runs| && t.runs[i].pipeline == Projection ==>
      t.runs[i].status != Abandoned && t.runs[i].status != Failed(PipelineRetired)
  }

  /** The row being advanced is newer than whatever is published. */
  ghost predicate WorkAhead(m: Machine) {
    && (!m.phase.Idle? ==>
          m.phase.run < |m.table.runs| && m.table.runs[m.phase.run].pipeline == Projection)
    && (!m.phase.Idle? && !m.phase.Claimed? ==>
          m.table.published.Some? ==>
            m.table.published.value < |m.table.runs| && Newer(m.table.runs, m.table.published.value, m.phase.run))
    && (m.phase.Claimed? ==> m.table.runs[m.phase.run].status != Completed)
  }

  ghost predicate Inv(m: Machine) {
    && PublishedIsCompleted(m.table)
    && CompletedNotAhead(m.table)
    && SupersededHasNewer(m.table)
    && NeverAbandoned(m.table)
    && WorkAhead(m)
  }

  /** Rows keep their pipeline and creation time, so their order and their newer siblings. */
  ghost predicate SameOrder(a: seq<Run>, b: seq<Run>) {
    && |a| <= |b|
    && forall i :: 0 <= i < |a| ==>
         a[i].createdAt == b[i].createdAt && a[i].pipeline == b[i].pipeline
  }

  lemma OrderKept(a: seq<Run>, b: seq<Run>)
    requires SameOrder(a, b)
    ensures forall i, j :: 0 <= i < |a| && 0 <= j < |a| ==> (Newer(a, i, j) <==> Newer(b, i, j))
    ensures forall i :: 0 <= i < |a| && HasNewer(a, i) ==> HasNewer(b, i)
    ensures |a| == |b| ==> forall i :: 0 <= i < |a| ==> (HasNewer(a, i) <==> HasNewer(b, i))
  {
    forall i | 0 <= i < |a| && HasNewer(a, i) ensures HasNewer(b, i) {
      var j :| 0 <= j < |a| && a[j].pipeline == a[i].pipeline && Newer(a, i, j);
      assert Newer(b, i, j);
    }
    if |a| == |b| {
      forall i | 0 <= i < |a| && HasNewer(b, i) ensures HasNewer(a, i) {
        var j :| 0 <= j < |b| && b[j].pipeline == b[i].pipeline && Newer(b, i, j);
        assert Newer(a, i, j);
      }
    }
  }

  lemma StepKeepsOrder(m: Machine, step: Step)
    requires Enabled(m, step)
    ensures SameOrder(m.table.runs, Next(m, step).table.runs)
    ensures !step.Queue? && !step.Mutate? ==> |Next(m, step).table.runs| == |m.table.runs|
  {
  }

  lemma CompletionStep(m: Machine, step: Step)
    requires Inv(m) && Enabled(m, step)
    ensures PublishedIsCompleted(Next(m, step).table) && CompletedNotAhead(Next(m, step).table)
  {
    StepKeepsOrder(m, step);
    OrderKept(m.table.runs, Next(m, step).table.runs);
  }

  lemma SupersessionStep(m: Machine, step: Step)
    requires Inv(m) && Enabled(m, step)
    ensures SupersededHasNewer(Next(m, step).table)
  {
    StepKeepsOrder(m, step);
    OrderKept(m.table.runs, Next(m, step).table.runs);
  }

  lemma AbandonStep(m: Machine, step: Step)
    requires Inv(m) && Enabled(m, step)
    ensures NeverAbandoned(Next(m, step).table)
  {
  }

  lemma WorkAheadStep(m: Machine, step: Step)
    requires Inv(m) && Enabled(m, step)
    ensures WorkAhead(Next(m, step))
  {
    StepKeepsOrder(m, step);
    OrderKept(m.table.runs, Next(m, step).table.runs);
  }

  /** Every call keeps the invariant, wherever an invocation dies and whatever is queued meanwhile. */
  lemma InvStep(m: Machine, step: Step)
    requires Inv(m) && Enabled(m, step)
    ensures Inv(Next(m, step))
  {
    CompletionStep(m, step);
    SupersessionStep(m, step);
    AbandonStep(m, step);
    WorkAheadStep(m, step);
  }

  // Whole histories.

  function Exec(m: Machine, steps: seq<Step>): Machine
    requires Runs(m, steps)
    decreases steps
  {
    if steps == [] then m else Exec(Next(m, steps[0]), steps[1..])
  }

  /** Each step is enabled where it is taken. */
  predicate Runs(m: Machine, steps: seq<Step>)
    decreases steps
  {
    steps != [] ==> Enabled(m, steps[0]) && Runs(Next(m, steps[0]), steps[1..])
  }

  ghost predicate Goes(m: Machine, step: Step, n: Machine) {
    Enabled(m, step) && Next(m, step) == n
  }

  ghost predicate Reaches(m: Machine, steps: seq<Step>, n: Machine) {
    Runs(m, steps) && Exec(m, steps) == n
  }

  lemma ReachesFirst(m: Machine, step: Step, n: Machine, rest: seq<Step>, end: Machine)
    requires Goes(m, step, n) && Reaches(n, rest, end)
    ensures Reaches(m, [step] + rest, end)
  {
    assert ([step] + rest)[1..] == rest;
  }

  const START := Machine(Table([], None, map[]), Idle)

  /** Later rows only, at or after an earlier publication. */
  ghost predicate PublicationAdvances(before: Table, after: Table) {
    before.published.Some? ==>
      && after.published.Some?
      && before.published.value < |after.runs| && after.published.value < |after.runs|
      && (after.published == before.published || Newer(after.runs, before.published.value, after.published.value))
  }

  lemma PublicationStep(m: Machine, step: Step)
    requires Inv(m) && Enabled(m, step)
    ensures PublicationAdvances(m.table, Next(m, step).table)
    ensures Next(m, step).table.published != m.table.published <==> step.PublishRun?
  {
    StepKeepsOrder(m, step);
    OrderKept(m.table.runs, Next(m, step).table.runs);
  }

  /** Over any history, crashes and expired leases included, publications move only to newer rows. */
  lemma {:induction false} HistoryAdvances(m: Machine, steps: seq<Step>)
    requires Inv(m) && Runs(m, steps)
    ensures Inv(Exec(m, steps)) && SameOrder(m.table.runs, Exec(m, steps).table.runs)
    ensures PublicationAdvances(m.table, Exec(m, steps).table)
    decreases steps
  {
    if steps != [] {
      var n := Next(m, steps[0]);
      InvStep(m, steps[0]);
      StepKeepsOrder(m, steps[0]);
      PublicationStep(m, steps[0]);
      HistoryAdvances(n, steps[1..]);
      OrderKept(n.table.runs, Exec(n, steps[1..]).table.runs);
    }
  }

  /** The newest row is never the superseded one, ties in creation time included. */
  lemma NewestNeverSuperseded(m: Machine, i: nat)
    requires Inv(m) && IsNewest(m.table, i)
    ensures m.table.runs[i].status != Failed(SupersededByNewerRun)
  {
  }

  lemma {:induction false} NewestExists(t: Table, n: nat) returns (i: nat)
    requires n <= |t.runs| && exists j :: 0 <= j < n && t.runs[j].pipeline == Projection
    ensures i < n && t.runs[i].pipeline == Projection
    ensures forall j :: 0 <= j < n && j != i && t.runs[j].pipeline == Projection ==> Newer(t.runs, j, i)
  {
    if t.runs[n - 1].pipeline == Projection {
      i := n - 1;
      if exists j :: 0 <= j < n - 1 && t.runs[j].pipeline == Projection {
        var k := NewestExists(t, n - 1);
        if t.runs[n - 1].createdAt < t.runs[k].createdAt {
          i := k;
        }
      }
    } else {
      i := NewestExists(t, n - 1);
    }
  }

  /** The pending flag is off exactly when the newest row is the published one; when on, its row is the newest. */
  lemma StalenessNeverSilent(m: Machine)
    requires Inv(m) && m.table.published.Some?
    ensures PendingRun(m.table, |m.table.runs|).None? <==> IsNewest(m.table, m.table.published.value)
    ensures PendingRun(m.table, |m.table.runs|).Some? ==> IsNewest(m.table, PendingRun(m.table, |m.table.runs|).value)
  {
    var t := m.table;
    var pending := PendingRun(t, |t.runs|);
    var newest := NewestExists(t, |t.runs|);
    assert forall j :: 0 <= j < |t.runs| && t.runs[j].pipeline == Projection && j != newest ==> !Newer(t.runs, newest, j);
    assert IsNewest(t, newest);
    if newest != t.published.value {
      assert HasNewer(t.runs, t.published.value);
      assert CountsAsPending(t, newest);
    }
  }

  // Stalling, over the history of one row.

  /** The checkpoints row i was at when its claims were recorded, in order. */
  function Seen(m: Machine, steps: seq<Step>, i: nat): seq<Checkpoint>
    requires Runs(m, steps)
    decreases steps
  {
    if steps == [] then []
    else
      (if steps[0].Record? && m.phase.run == i then [m.table.runs[i].checkpoint] else [])
      + Seen(Next(m, steps[0]), steps[1..], i)
  }

  /** The row's stall count never exceeds the latest recorded claims that all saw its mark. */
  ghost predicate StallCounts(run: Run, seen: seq<Checkpoint>) {
    run.stallMark.Some? ==>
      && run.stallCount < |seen|
      && forall k :: |seen| - run.stallCount - 1 <= k < |seen| ==> seen[k] == run.stallMark.value
  }

  lemma StallCountsStep(m: Machine, step: Step, i: nat, seen: seq<Checkpoint>)
    requires Enabled(m, step) && i < |m.table.runs| && StallCounts(m.table.runs[i], seen)
    ensures i < |Next(m, step).table.runs|
    ensures StallCounts(Next(m, step).table.runs[i],
              seen + if step.Record? && m.phase.run == i then [m.table.runs[i].checkpoint] else [])
  {
  }

  lemma {:induction false} StallCountsRun(m: Machine, steps: seq<Step>, i: nat, seen: seq<Checkpoint>)
    requires Runs(m, steps) && i < |m.table.runs| && StallCounts(m.table.runs[i], seen)
    ensures i < |Exec(m, steps).table.runs|
    ensures StallCounts(Exec(m, steps).table.runs[i], seen + Seen(m, steps, i))
    decreases steps
  {
    if steps == [] {
      assert seen + Seen(m, steps, i) == seen;
    } else {
      var now: seq<Checkpoint> := if steps[0].Record? && m.phase.run == i then [m.table.runs[i].checkpoint] else [];
      StallCountsStep(m, steps[0], i, seen);
      StallCountsRun(Next(m, steps[0]), steps[1..], i, seen + now);
      assert seen + Seen(m, steps, i) == (seen + now) + Seen(Next(m, steps[0]), steps[1..], i);
    }
  }

  ghost predicate LimitReached(m: Machine) {
    m.phase.AtLimit? ==>
      && m.phase.run < |m.table.runs|
      && Holds(m.table.runs[m.phase.run], m.phase.owner)
      && m.table.runs[m.phase.run].stallCount >= MAX_STALL_CLAIMS
      && m.table.runs[m.phase.run].stallMark.Some?
  }

  lemma {:induction false} LimitRun(m: Machine, steps: seq<Step>)
    requires Inv(m) && LimitReached(m) && Runs(m, steps)
    ensures LimitReached(Exec(m, steps))
    decreases steps
  {
    if steps != [] {
      InvStep(m, steps[0]);
      LimitRun(Next(m, steps[0]), steps[1..]);
    }
  }

  /** A row is failed for stalling only after five claims in a row saw the checkpoint of the claim before them. */
  lemma StalledOnlyAfterSix(m: Machine, steps: seq<Step>, i: nat)
    requires Inv(m) && LimitReached(m) && Runs(m, steps)
    requires i < |m.table.runs| && m.table.runs[i].stallMark.None?
    requires Enabled(Exec(m, steps), FailStalled) && Exec(m, steps).phase.run == i
    ensures |Seen(m, steps, i)| >= MAX_STALL_CLAIMS + 1
    ensures var seen := Seen(m, steps, i);
      forall k :: |seen| - MAX_STALL_CLAIMS - 1 <= k < |seen| ==> seen[k] == seen[|seen| - 1]
  {
    LimitRun(m, steps);
    StallCountsRun(m, steps, i, []);
    assert [] + Seen(m, steps, i) == Seen(m, steps, i);
  }

  // What the calls leave alone.

  predicate Ended(run: Run) {
    run.status.Completed? || run.status.Failed? || run.status.Abandoned?
  }

  /** Whoever works on a row holds its lease. */
  ghost predicate Held(m: Machine) {
    !m.phase.Idle? ==> m.phase.run < |m.table.runs| && Holds(m.table.runs[m.phase.run], m.phase.owner)
  }

  lemma HeldStep(m: Machine, step: Step)
    requires Inv(m) && Held(m) && Enabled(m, step)
    ensures Held(Next(m, step))
  {
  }

  /** After the bulk supersession a queued row is the newest one, and no row that was not queued has changed. */
  lemma OnlyNewestStaysQueued(t: Table)
    ensures var after := SupersedeStaleQueued(t, Projection);
      && (forall i: nat :: i < |t.runs| && t.runs[i].pipeline == Projection && after.runs[i].status.Queued? ==> IsNewest(after, i))
      && (forall i :: 0 <= i < |t.runs| && !t.runs[i].status.Queued? ==> after.runs[i] == t.runs[i])
  {
    var after := SupersedeStaleQueued(t, Projection);
    OrderKept(t.runs, after.runs);
  }

  lemma EndedStep(m: Machine, step: Step, i: nat)
    requires Held(m) && Enabled(m, step) && i < |m.table.runs| && Ended(m.table.runs[i])
    ensures i < |Next(m, step).table.runs| && Next(m, step).table.runs[i] == m.table.runs[i]
  {
  }

  /** A completed, failed or abandoned row never changes again. */
  lemma {:induction false} EndedStays(m: Machine, steps: seq<Step>, i: nat)
    requires Inv(m) && Held(m) && Runs(m, steps) && i < |m.table.runs| && Ended(m.table.runs[i])
    ensures i < |Exec(m, steps).table.runs| && Exec(m, steps).table.runs[i] == m.table.runs[i]
    decreases steps
  {
    if steps != [] {
      EndedStep(m, steps[0], i);
      InvStep(m, steps[0]);
      HeldStep(m, steps[0]);
      EndedStays(Next(m, steps[0]), steps[1..], i);
    }
  }

  lemma HighWaterStep(m: Machine, step: Step, i: nat)
    requires Enabled(m, step) && i < |m.table.runs| && m.table.runs[i].highWater != 0
    ensures i < |Next(m, step).table.runs| && Next(m, step).table.runs[i].highWater == m.table.runs[i].highWater
  {
  }

  /** A row's ledger mark, once it has one, is never replaced. */
  lemma {:induction false} HighWaterKept(m: Machine, steps: seq<Step>, i: nat)
    requires Runs(m, steps) && i < |m.table.runs| && m.table.runs[i].highWater != 0
    ensures i < |Exec(m, steps).table.runs| && Exec(m, steps).table.runs[i].highWater == m.table.runs[i].highWater
    decreases steps
  {
    if steps != [] {
      HighWaterStep(m, steps[0], i);
      HighWaterKept(Next(m, steps[0]), steps[1..], i);
    }
  }

  /** Leased to owner until expires, or done with. */
  predicate LeasedOrEnded(run: Run, owner: nat, expires: int) {
    run.status == Running(owner, expires) || Ended(run)
  }

  /** No claim reads a clock past the lease, and the holder does not give it up. */
  predicate WithinLease(step: Step, expires: int) {
    !step.Release? && (step.Claim? ==> step.now < expires)
  }

  lemma LeaseStep(m: Machine, step: Step, i: nat, owner: nat, expires: int)
    requires Held(m) && Enabled(m, step) && WithinLease(step, expires)
    requires i < |m.table.runs| && LeasedOrEnded(m.table.runs[i], owner, expires)
    ensures i < |Next(m, step).table.runs| && LeasedOrEnded(Next(m, step).table.runs[i], owner, expires)
  {
  }

  /** Until it runs out or is released, no history takes a lease from its holder: the row stays leased or ends. */
  lemma {:induction false} LeaseKept(m: Machine, steps: seq<Step>, i: nat, owner: nat, expires: int)
    requires Inv(m) && Held(m) && Runs(m, steps)
    requires forall k :: 0 <= k < |steps| ==> WithinLease(steps[k], expires)
    requires i < |m.table.runs| && LeasedOrEnded(m.table.runs[i], owner, expires)
    ensures i < |Exec(m, steps).table.runs| && LeasedOrEnded(Exec(m, steps).table.runs[i], owner, expires)
    decreases steps
  {
    if steps != [] {
      LeaseStep(m, steps[0], i, owner, expires);
      InvStep(m, steps[0]);
      HeldStep(m, steps[0]);
      LeaseKept(Next(m, steps[0]), steps[1..], i, owner, expires);
    }
  }

  // A lease taken and given back.

  /** Nothing of the row but its lease and its claim count differs. */
  predicate SameWork(a: Run, b: Run) {
    && a.pipeline == b.pipeline && a.createdAt == b.createdAt && a.checkpoint == b.checkpoint && a.rows == b.rows
    && a.stallCount == b.stallCount && a.stallMark == b.stallMark && a.highWater == b.highWater
  }

  /** The other rows, the publication and the ledger are as they were. */
  ghost predicate OnlyRow(a: Table, b: Table, i: nat) {
    && |a.runs| == |b.runs| && a.published == b.published && a.ledger == b.ledger
    && forall j :: 0 <= j < |a.runs| && j != i ==> a.runs[j] == b.runs[j]
  }

  /** A claim keeps everybody else away for five minutes, and not a moment longer; the work goes on where it stood. */
  lemma ClaimTakesLease(m: Machine, i: nat, owner: nat, now: int)
    requires Enabled(m, Claim(i, owner, now))
    ensures var n := Next(m, Claim(i, owner, now));
      && OnlyRow(m.table, n.table, i) && SameWork(m.table.runs[i], n.table.runs[i]) && Holds(n.table.runs[i], owner)
      && n.table.runs[i].attempt == m.table.runs[i].attempt + 1
      && forall later :: Claimable(n.table.runs[i], later) <==> now + 5 * 60 * 1000 <= later
  {
  }

  /** A release gives the row back at once, to be claimed by anyone from then on, with its work as it stood. */
  lemma ReleaseHandsBack(m: Machine, now: int)
    requires Inv(m) && Held(m) && Enabled(m, Release(now))
    ensures var n, i := Next(m, Release(now)), m.phase.run;
      && n.phase.Idle? && OnlyRow(m.table, n.table, i) && SameWork(m.table.runs[i], n.table.runs[i])
      && n.table.runs[i].attempt == m.table.runs[i].attempt
      && forall later, owner: nat :: now <= later ==> Enabled(n, Claim(i, owner, later))
  {
    var n, i := Next(m, Release(now)), m.phase.run;
    forall later, owner: nat | now <= later ensures Enabled(n, Claim(i, owner, later)) {
      assert n.table.runs[i].status == Running(m.phase.owner, now) && n.table.runs[i].pipeline == Projection;
    }
  }

  /** Given back, or never taken on by the invocation that died. */
  predicate LyingBy(m: Machine, i: nat, now: int) {
    && i < |m.table.runs| && m.table.runs[i].pipeline == Projection
    && m.table.runs[i].status.Running? && m.table.runs[i].status.expires <= now
    && (m.phase.Idle? || m.phase.run != i)
  }

  lemma LyingByStep(m: Machine, step: Step, i: nat, now: int)
    requires LyingBy(m, i, now) && Enabled(m, step) && !(step.Claim? && step.run == i)
    ensures LyingBy(Next(m, step), i, now) && Next(m, step).table.runs[i] == m.table.runs[i]
  {
  }

  /** Until somebody claims it, no history takes it away: it stays claimable, exactly as it was left. */
  lemma {:induction false} LyingByRun(m: Machine, steps: seq<Step>, i: nat, now: int)
    requires LyingBy(m, i, now) && Runs(m, steps) && forall k :: 0 <= k < |steps| ==> !(steps[k].Claim? && steps[k].run == i)
    ensures LyingBy(Exec(m, steps), i, now) && Exec(m, steps).table.runs[i] == m.table.runs[i]
    ensures forall later :: now <= later ==> Claimable(Exec(m, steps).table.runs[i], later)
    decreases steps
  {
    if steps != [] {
      LyingByStep(m, steps[0], i, now);
      LyingByRun(Next(m, steps[0]), steps[1..], i, now);
    }
  }

  // What a row is worth writing for.

  /** Rows and publications are written only by the holder of an unexpired lease, on the ledger mark of the row. */
  lemma WritesUnderLease(m: Machine, step: Step)
    requires Enabled(m, step) && (step.Chunk? || step.PublishRun?)
    ensures !m.phase.Idle? && m.phase.run < |m.table.runs|
    ensures m.table.runs[m.phase.run].status.Running? && m.table.runs[m.phase.run].status.owner == m.phase.owner
    ensures !Claimable(m.table.runs[m.phase.run], step.now) && m.table.runs[m.phase.run].highWater == step.highWater
  {
  }

  /** Queueing, mutating, retiring and dying are never held up. */
  lemma AnyTime(m: Machine, step: Step)
    requires step.Queue? || step.Mutate? || step.RetireSnapshots? || step.Leave?
    ensures Enabled(m, step)
  {
  }

  /** A run is queued behind all others, with nothing done; with a mutation the ledger changes too, otherwise not. */
  lemma QueuedBehind(m: Machine, step: Step)
    requires step.Queue? || step.Mutate?
    ensures var n := Next(m, step).table;
      && |n.runs| == |m.table.runs| + 1 && n.runs[..|m.table.runs|] == m.table.runs && n.published == m.table.published
      && n.ledger == (if step.Mutate? then step.ledger else m.table.ledger)
      && n.runs[|m.table.runs|] == Run(if step.Queue? then step.pipeline else Projection, step.createdAt, Queued,
                                        Checkpoint(None, None, 0), [], 0, None, 0, step.highWater)
  {
  }

  /** A row without a mark gets the one found, and then has it. */
  lemma MarkResolved(m: Machine, highWater: nat)
    requires Inv(m) && Held(m) && Enabled(m, Resolve(highWater)) && m.table.runs[m.phase.run].highWater == 0
    ensures Next(m, Resolve(highWater)).table.runs[m.phase.run].highWater == highWater
  {
  }

  /** The bulk supersession fails exactly the queued rows that have a newer sibling, and leaves all else. */
  lemma SupersededExactly(t: Table, i: nat)
    requires i < |t.runs|
    ensures var after := SupersedeStaleQueued(t, Projection);
      if t.runs[i].pipeline == Projection && t.runs[i].status == Queued && !IsNewest(t, i)
      then after.runs[i].status == Failed(SupersededByNewerRun) && SameWork(after.runs[i], t.runs[i])
      else after.runs[i] == t.runs[i]
  {
  }

  // The retired pipeline.

  lemma SnapshotStep(m: Machine, step: Step, i: nat)
    requires Inv(m) && Enabled(m, step) && i < |m.table.runs| && m.table.runs[i].pipeline == Snapshot
    ensures i < |Next(m, step).table.runs|
    ensures Next(m, step).table.runs[i] == m.table.runs[i]
         || (!Ended(m.table.runs[i]) && Next(m, step).table.runs[i] == m.table.runs[i].(status := Abandoned))
    ensures step.RetireSnapshots? ==> Ended(Next(m, step).table.runs[i])
  {
  }

  /** Whatever its status, leased and running included, a snapshot row is never claimed again: one retirement ends it. */
  lemma {:induction false} SnapshotsNeverClaimed(m: Machine, steps: seq<Step>, i: nat)
    requires Inv(m) && Runs(m, steps) && i < |m.table.runs| && m.table.runs[i].pipeline == Snapshot
    ensures i < |Exec(m, steps).table.runs|
    ensures Exec(m, steps).table.runs[i] == m.table.runs[i]
         || (!Ended(m.table.runs[i]) && Exec(m, steps).table.runs[i] == m.table.runs[i].(status := Abandoned))
    ensures RetireSnapshots in steps ==> Ended(Exec(m, steps).table.runs[i])
    decreases steps
  {
    if steps != [] {
      SnapshotStep(m, steps[0], i);
      InvStep(m, steps[0]);
      SnapshotsNeverClaimed(Next(m, steps[0]), steps[1..], i);
      assert RetireSnapshots in steps ==> steps[0] == RetireSnapshots || RetireSnapshots in steps[1..];
    }
  }
}
