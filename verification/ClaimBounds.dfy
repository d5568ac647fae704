/** How often a run can be claimed and rebuilt, counted over whole histories. */
module ClaimBounds {
  import opened Sequences
  import opened RunTable
  import opened ExecutorProtocol

  // Checkpoints only move forward.

  function Offset(c: Checkpoint): nat {
    if c.active.Some? then c.offset else 0
  }

  predicate Before(a: Checkpoint, b: Checkpoint) {
    Frontier(a) < Frontier(b) || (Frontier(a) == Frontier(b) && Offset(a) < Offset(b))
  }

  predicate AtOrBefore(a: Checkpoint, b: Checkpoint) {
    Frontier(a) < Frontier(b) || (Frontier(a) == Frontier(b) && Offset(a) <= Offset(b))
  }

  /** Whatever the ledger looks like by then, a chunk's checkpoint is ahead of the one it started from. */
  lemma ChunkAhead(security: nat, outputs: seq<Output>, c: Checkpoint)
    requires InReach(c, security)
    ensures Before(c, ChunkOf(security, outputs, c).next)
  {
  }

  /** The active security, or one not passed yet. */
  predicate InReach(c: Checkpoint, security: nat) {
    Frontier(c) <= security && (c.active.Some? ==> c.active.value == security)
  }

  predicate SawThis(run: Run) {
    run.stallMark == Some(run.checkpoint)
  }

  predicate Stuck(run: Run) {
    SawThis(run) && run.stallCount >= MAX_STALL_CLAIMS
  }

  /** The mark a claim left is not ahead of its row, and only a row that is not stuck is worked on. */
  ghost predicate Steady(m: Machine) {
    && Inv(m) && Held(m)
    && (forall i :: 0 <= i < |m.table.runs| && m.table.runs[i].stallMark.Some? ==>
          AtOrBefore(m.table.runs[i].stallMark.value, m.table.runs[i].checkpoint))
    && (m.phase.Working? || m.phase.Chosen? || m.phase.Prepared? ==> !Stuck(m.table.runs[m.phase.run]))
    && (m.phase.Chosen? && m.phase.security.Some? ==> InReach(m.table.runs[m.phase.run].checkpoint, m.phase.security.value))
    && (m.phase.Prepared? && m.phase.plan.Write? ==> Before(m.table.runs[m.phase.run].checkpoint, m.phase.plan.next))
  }

  lemma SteadyStep(m: Machine, step: Step)
    requires Steady(m) && Enabled(m, step)
    ensures Steady(Next(m, step))
  {
    InvStep(m, step);
    HeldStep(m, step);
    if step.ReadLedger? && m.phase.security.Some? {
      var security := m.phase.security.value;
      ChunkAhead(security, OutputsOf(m.table.ledger, security), m.table.runs[m.phase.run].checkpoint);
    }
  }

  lemma CheckpointStep(m: Machine, step: Step, i: nat)
    requires Steady(m) && Enabled(m, step) && i < |m.table.runs|
    ensures i < |Next(m, step).table.runs|
    ensures if step.Chunk? && m.phase.run == i then Before(m.table.runs[i].checkpoint, Next(m, step).table.runs[i].checkpoint)
            else Next(m, step).table.runs[i].checkpoint == m.table.runs[i].checkpoint
  {
  }

  /** No crash, release, new claim or ledger mutation ever takes a row back behind a checkpoint it reached. */
  lemma {:induction false} CheckpointsKept(m: Machine, steps: seq<Step>, i: nat)
    requires Steady(m) && Runs(m, steps) && i < |m.table.runs|
    ensures i < |Exec(m, steps).table.runs|
    ensures AtOrBefore(m.table.runs[i].checkpoint, Exec(m, steps).table.runs[i].checkpoint)
    decreases steps
  {
    if steps != [] {
      CheckpointStep(m, steps[0], i);
      SteadyStep(m, steps[0]);
      CheckpointsKept(Next(m, steps[0]), steps[1..], i);
    }
  }

  // Counting.

  datatype Tally = Tally(claims: nat, deaths: nat, chunks: nat, rebuilds: nat)

  const NOTHING := Tally(0, 0, 0, 0)

  function Plus(a: Tally, b: Tally): Tally {
    Tally(a.claims + b.claims, a.deaths + b.deaths, a.chunks + b.chunks, a.rebuilds + b.rebuilds)
  }

  /** An invocation that dies between claiming the row and starting its rebuild, or failing it. */
  predicate DiesOn(m: Machine, step: Step, i: nat) {
    step.Leave? && (m.phase.Claimed? || m.phase.Checked? || m.phase.AtLimit?) && m.phase.run == i
  }

  /** Claims of row i, deaths on it, its chunks, and its claims that went on to a rebuild. */
  function TallyOf(m: Machine, step: Step, i: nat): Tally
    requires Enabled(m, step)
  {
    Tally(if step.Claim? && step.run == i then 1 else 0,
          if DiesOn(m, step, i) then 1 else 0,
          if step.Chunk? && m.phase.run == i then 1 else 0,
          if step.Record? && m.phase.run == i && Next(m, step).phase.Working? then 1 else 0)
  }

  function Count(m: Machine, steps: seq<Step>, i: nat): Tally
    requires Runs(m, steps)
    decreases steps
  {
    if steps == [] then NOTHING else Plus(TallyOf(m, steps[0], i), Count(Next(m, steps[0]), steps[1..], i))
  }

  /** Claims a row can still take at its checkpoint; one already claimed and not yet recorded is paid for. */
  function Credit(m: Machine, i: nat): int
    requires i < |m.table.runs|
  {
    var run := m.table.runs[i];
    if Ended(run) then 0
    else
      (if !SawThis(run) then MAX_STALL_CLAIMS + 1
       else if run.stallCount < MAX_STALL_CLAIMS then MAX_STALL_CLAIMS - run.stallCount
       else if m.phase.AtLimit? && m.phase.run == i then 0 else 1)
      - (if (m.phase.Claimed? || m.phase.Checked?) && m.phase.run == i then 1 else 0)
  }

  lemma CreditRange(m: Machine, i: nat)
    requires Steady(m) && i < |m.table.runs|
    ensures 0 <= Credit(m, i) <= MAX_STALL_CLAIMS + 1
  {
  }

  lemma CreditStep(m: Machine, step: Step, i: nat)
    requires Steady(m) && Enabled(m, step) && i < |m.table.runs|
    ensures i < |Next(m, step).table.runs|
    ensures var n := TallyOf(m, step, i);
      n.claims + Credit(Next(m, step), i) <= Credit(m, i) + n.deaths + 6 * n.chunks
  {
    CreditRange(m, i);
    SteadyStep(m, step);
    CreditRange(Next(m, step), i);
    CheckpointStep(m, step, i);
  }

  /** Every claim of a row is one of six at its checkpoint, or is paid for by a chunk or by a death. */
  lemma {:induction false} ClaimsPaidFor(m: Machine, steps: seq<Step>, i: nat)
    requires Steady(m) && Runs(m, steps) && i < |m.table.runs|
    ensures i < |Exec(m, steps).table.runs|
    ensures var n := Count(m, steps, i);
      n.claims + Credit(Exec(m, steps), i) <= Credit(m, i) + n.deaths + 6 * n.chunks
    decreases steps
  {
    if steps != [] {
      CreditStep(m, steps[0], i);
      SteadyStep(m, steps[0]);
      ClaimsPaidFor(Next(m, steps[0]), steps[1..], i);
    }
  }

  /** Linear in the chunks written; and at one checkpoint more than six claims take a death for each further one. */
  lemma ClaimsBounded(m: Machine, steps: seq<Step>, i: nat)
    requires Steady(m) && Runs(m, steps) && i < |m.table.runs|
    ensures var n := Count(m, steps, i);
      && n.claims <= 6 + 6 * n.chunks + n.deaths
      && (n.chunks == 0 ==> n.claims <= MAX_STALL_CLAIMS + 1 + n.deaths)
      && (n.chunks == 0 && n.claims > MAX_STALL_CLAIMS + 1 ==> n.deaths > 0)
  {
    ClaimsPaidFor(m, steps, i);
    CreditRange(m, i);
    HistorySteady(m, steps);
    CreditRange(Exec(m, steps), i);
  }

  lemma {:induction false} HistorySteady(m: Machine, steps: seq<Step>)
    requires Steady(m) && Runs(m, steps)
    ensures Steady(Exec(m, steps)) && |m.table.runs| <= |Exec(m, steps).table.runs|
    decreases steps
  {
    if steps != [] {
      SteadyStep(m, steps[0]);
      StepKeepsOrder(m, steps[0]);
      HistorySteady(Next(m, steps[0]), steps[1..]);
    }
  }

  // Rebuilds, which no death can add to.

  function WorkCredit(run: Run): nat {
    if !SawThis(run) then 5 else if run.stallCount >= 4 then 0 else 4 - run.stallCount
  }

  lemma WorkCreditStep(m: Machine, step: Step, i: nat)
    requires Enabled(m, step) && i < |m.table.runs|
    ensures i < |Next(m, step).table.runs|
    ensures var n := TallyOf(m, step, i);
      n.rebuilds + WorkCredit(Next(m, step).table.runs[i]) <= WorkCredit(m.table.runs[i]) + 5 * n.chunks
  {
    if !(step.Chunk? && m.phase.run == i) {
      assert Next(m, step).table.runs[i].checkpoint == m.table.runs[i].checkpoint;
    }
  }

  /** However often claims crash or lose their lease, a row is rebuilt at most five times for every chunk it writes. */
  lemma {:induction false} WorkBounded(m: Machine, steps: seq<Step>, i: nat)
    requires Runs(m, steps) && i < |m.table.runs|
    ensures i < |Exec(m, steps).table.runs|
    ensures var n := Count(m, steps, i);
      n.rebuilds + WorkCredit(Exec(m, steps).table.runs[i]) <= WorkCredit(m.table.runs[i]) + 5 * n.chunks
    decreases steps
  {
    if steps != [] {
      WorkCreditStep(m, steps[0], i);
      WorkBounded(Next(m, steps[0]), steps[1..], i);
    }
  }

  // The bound is reached: one more claim for every death, at either crash point.

  ghost predicate Leads(m: Machine, step: Step, n: Machine, i: nat, t: Tally) {
    Enabled(m, step) && Next(m, step) == n && TallyOf(m, step, i) == t
  }

  /** A history from m to n with this tally for row i. */
  ghost predicate Path(m: Machine, steps: seq<Step>, n: Machine, i: nat, t: Tally) {
    Runs(m, steps) && Exec(m, steps) == n && Count(m, steps, i) == t
  }

  lemma PathFirst(m: Machine, step: Step, n: Machine, rest: seq<Step>, end: Machine, i: nat, t: Tally, u: Tally)
    requires Leads(m, step, n, i, t) && Path(n, rest, end, i, u)
    ensures Path(m, [step] + rest, end, i, Plus(t, u))
  {
    assert ([step] + rest)[1..] == rest;
  }

  lemma PathNone(m: Machine, i: nat)
    ensures Path(m, [], m, i, NOTHING)
  {
  }

  lemma PathTwo(m: Machine, a: Step, n: Machine, b: Step, o: Machine, rest: seq<Step>, end: Machine, i: nat,
                t: Tally, u: Tally, v: Tally)
    requires Leads(m, a, n, i, t) && Leads(n, b, o, i, u) && Path(o, rest, end, i, v)
    ensures Path(m, [a] + ([b] + rest), end, i, Plus(t, Plus(u, v)))
  {
    PathFirst(n, b, o, rest, end, i, u, v);
    PathFirst(m, a, n, [b] + rest, end, i, t, Plus(u, v));
  }

  function OneRun(ledger: Projections, run: Run): Machine {
    Machine(Table([run], None, ledger), Idle)
  }

  const FRESH := NewRun(Projection, 0, 0)

  /** After n claims whose rebuilds wrote nothing, each made when the lease before it ran out. */
  function Tried(ledger: Projections, n: nat): Machine {
    OneRun(ledger,
      if n == 0 then FRESH
      else FRESH.(status := Running(n - 1, n * LEASE_DURATION_MS), stallCount := n - 1, stallMark := Some(BEGINNING), attempt := n))
  }

  /** The first mutation of an empty portfolio queues the row these histories are about. */
  lemma Opening(ledger: Projections)
    ensures Leads(START, Mutate(ledger, 0, 0), Tried(ledger, 0), 0, NOTHING) && Dropped(ledger, 0) == Tried(ledger, 0)
  {
    assert Next(START, Mutate(ledger, 0, 0)).table.runs == Tried(ledger, 0).table.runs;
  }

  const CLAIMED := Tally(1, 0, 0, 0)
  const DIED := Tally(0, 1, 0, 0)
  const REBUILT := Tally(0, 0, 0, 1)

  function ClaimAt(n: nat): Step {
    Claim(0, n, n * LEASE_DURATION_MS)
  }

  function Leased(ledger: Projections, n: nat, phase: Phase): Machine {
    OneRun(ledger, Tried(ledger, n).table.runs[0].(status := Running(n, (n + 1) * LEASE_DURATION_MS), attempt := n + 1)).(phase := phase)
  }

  lemma TryClaim(ledger: Projections, n: nat)
    ensures Leads(Tried(ledger, n), ClaimAt(n), Leased(ledger, n, Claimed(0, n)), 0, CLAIMED)
  {
    var m := Tried(ledger, n);
    assert n * LEASE_DURATION_MS + LEASE_DURATION_MS == (n + 1) * LEASE_DURATION_MS;
    assert Next(m, ClaimAt(n)).table.runs == Leased(ledger, n, Idle).table.runs;
  }

  lemma TryCheck(ledger: Projections, n: nat)
    ensures Leads(Leased(ledger, n, Claimed(0, n)), CheckNewest, Leased(ledger, n, Checked(0, n)), 0, NOTHING)
  {
    assert !HasNewer(Leased(ledger, n, Idle).table.runs, 0);
  }

  function Recorded(ledger: Projections, n: nat): Machine {
    Tried(ledger, n + 1).(phase := if n < MAX_STALL_CLAIMS then Working(0, n) else AtLimit(0, n))
  }

  lemma TryRecord(ledger: Projections, n: nat)
    ensures Leads(Leased(ledger, n, Checked(0, n)), Record, Recorded(ledger, n), 0, if n < MAX_STALL_CLAIMS then REBUILT else NOTHING)
  {
    var m := Leased(ledger, n, Checked(0, n));
    assert Next(m, Record).table.runs == Recorded(ledger, n).table.runs;
  }

  lemma TryLeave(ledger: Projections, n: nat)
    ensures Leads(Recorded(ledger, n), Leave, Tried(ledger, n + 1), 0, if n < MAX_STALL_CLAIMS then NOTHING else DIED)
  {
  }

  /** n tries from the k-th on, and then the claim of one more. */
  function Tries(k: nat, n: nat): seq<Step>
    decreases n
  {
    if n == 0 then [ClaimAt(k)] + [] else [ClaimAt(k)] + ([CheckNewest] + ([Record] + ([Leave] + Tries(k + 1, n - 1))))
  }

  /** Below the limit a try goes on to the rebuild; from the limit on it dies there. */
  function WorkTally(k: nat): Tally {
    if k < MAX_STALL_CLAIMS then REBUILT else DIED
  }

  lemma TryWork(ledger: Projections, k: nat, rest: seq<Step>, end: Machine, t: Tally)
    requires Path(Tried(ledger, k + 1), rest, end, 0, t)
    ensures Path(Leased(ledger, k, Checked(0, k)), [Record] + ([Leave] + rest), end, 0, Plus(WorkTally(k), t))
  {
    var left := if k < MAX_STALL_CLAIMS then NOTHING else DIED;
    var recorded := if k < MAX_STALL_CLAIMS then REBUILT else NOTHING;
    TryRecord(ledger, k);
    TryLeave(ledger, k);
    PathTwo(Leased(ledger, k, Checked(0, k)), Record, Recorded(ledger, k), Leave, Tried(ledger, k + 1), rest, end, 0, recorded, left, t);
  }

  lemma TryStart(ledger: Projections, k: nat, rest: seq<Step>, end: Machine, t: Tally)
    requires Path(Leased(ledger, k, Checked(0, k)), rest, end, 0, t)
    ensures Path(Tried(ledger, k), [ClaimAt(k)] + ([CheckNewest] + rest), end, 0, Plus(CLAIMED, t))
  {
    TryClaim(ledger, k);
    TryCheck(ledger, k);
    PathTwo(Tried(ledger, k), ClaimAt(k), Leased(ledger, k, Claimed(0, k)), CheckNewest, Leased(ledger, k, Checked(0, k)), rest, end, 0,
            CLAIMED, NOTHING, t);
  }

  lemma TryOnce(ledger: Projections, k: nat, rest: seq<Step>, end: Machine, t: Tally)
    requires Path(Tried(ledger, k + 1), rest, end, 0, t)
    ensures Path(Tried(ledger, k), [ClaimAt(k)] + ([CheckNewest] + ([Record] + ([Leave] + rest))), end, 0,
                 Plus(CLAIMED, Plus(WorkTally(k), t)))
  {
    TryWork(ledger, k, rest, end, t);
    TryStart(ledger, k, [Record] + ([Leave] + rest), end, Plus(WorkTally(k), t));
  }

  lemma TryLast(ledger: Projections, k: nat)
    ensures Path(Tried(ledger, k), [ClaimAt(k)] + [], Leased(ledger, k, Claimed(0, k)), 0, CLAIMED)
  {
    var claimed := Leased(ledger, k, Claimed(0, k));
    TryClaim(ledger, k);
    PathNone(claimed, 0);
    PathFirst(Tried(ledger, k), ClaimAt(k), claimed, [], claimed, 0, CLAIMED, NOTHING);
  }

  function TriesTally(k: nat, n: nat): Tally
    decreases n
  {
    if n == 0 then CLAIMED else Plus(CLAIMED, Plus(WorkTally(k), TriesTally(k + 1, n - 1)))
  }

  lemma {:induction false} TryOn(ledger: Projections, k: nat, n: nat)
    ensures Path(Tried(ledger, k), Tries(k, n), Leased(ledger, k + n, Claimed(0, k + n)), 0, TriesTally(k, n))
    decreases n
  {
    if n == 0 {
      TryLast(ledger, k);
    } else {
      TryOn(ledger, k + 1, n - 1);
      TryOnce(ledger, k, Tries(k + 1, n - 1), Leased(ledger, k + n, Claimed(0, k + n)), TriesTally(k + 1, n - 1));
    }
  }

  /** The sixth and later tries reach the limit, and each of those dies there. */
  lemma {:induction false} DeathsPastLimit(k: nat, n: nat)
    ensures TriesTally(k, n).claims == n + 1 && TriesTally(k, n).chunks == 0
    ensures TriesTally(k, n).deaths
         == if k + n <= MAX_STALL_CLAIMS then 0 else if k <= MAX_STALL_CLAIMS then k + n - MAX_STALL_CLAIMS else n
    decreases n
  {
    if n > 0 {
      DeathsPastLimit(k + 1, n - 1);
      var t := TriesTally(k + 1, n - 1);
      assert WorkTally(k).claims == 0 && WorkTally(k).chunks == 0;
      assert Plus(CLAIMED, Plus(WorkTally(k), t)).claims == 1 + t.claims;
    }
  }

  /**
   * From an empty table, dying at the limit d times and being claimed once more: 6 + d claims at one checkpoint, the
   * most there can be.
   */
  lemma LimitCrashes(ledger: Projections, d: nat)
    ensures var n := MAX_STALL_CLAIMS + d;
      var end := Leased(ledger, n, Claimed(0, n));
      && Path(START, [Mutate(ledger, 0, 0)] + Tries(0, n), end, 0, TriesTally(0, n))
      && end.table.runs[0].checkpoint == BEGINNING
    ensures var t := TriesTally(0, MAX_STALL_CLAIMS + d);
      t.claims == MAX_STALL_CLAIMS + 1 + d && t.deaths == d && t.chunks == 0
  {
    var n := MAX_STALL_CLAIMS + d;
    TryOn(ledger, 0, n);
    DeathsPastLimit(0, n);
    Opened(ledger, Tried(ledger, 0), Tries(0, n), Leased(ledger, n, Claimed(0, n)), TriesTally(0, n));
  }

  function Dropped(ledger: Projections, n: nat): Machine {
    OneRun(ledger, if n == 0 then FRESH else FRESH.(status := Running(n - 1, n * LEASE_DURATION_MS), attempt := n))
  }

  function Drops(k: nat, n: nat): seq<Step>
    decreases n
  {
    if n == 0 then [] else [ClaimAt(k)] + ([Leave] + Drops(k + 1, n - 1))
  }

  lemma DropOnce(ledger: Projections, k: nat)
    ensures var claimed := Dropped(ledger, k + 1).(phase := Claimed(0, k));
      && Leads(Dropped(ledger, k), ClaimAt(k), claimed, 0, CLAIMED)
      && Leads(claimed, Leave, Dropped(ledger, k + 1), 0, DIED)
  {
    assert k * LEASE_DURATION_MS + LEASE_DURATION_MS == (k + 1) * LEASE_DURATION_MS;
    assert Next(Dropped(ledger, k), ClaimAt(k)).table.runs == Dropped(ledger, k + 1).table.runs;
  }

  lemma {:induction false} DropOn(ledger: Projections, k: nat, n: nat)
    ensures Path(Dropped(ledger, k), Drops(k, n), Dropped(ledger, k + n), 0, Tally(n, n, 0, 0))
    decreases n
  {
    if n > 0 {
      var claimed, t := Dropped(ledger, k + 1).(phase := Claimed(0, k)), Tally(n - 1, n - 1, 0, 0);
      DropOn(ledger, k + 1, n - 1);
      DropOnce(ledger, k);
      PathFirst(claimed, Leave, Dropped(ledger, k + 1), Drops(k + 1, n - 1), Dropped(ledger, k + n), 0, DIED, t);
      PathFirst(Dropped(ledger, k), ClaimAt(k), claimed, [Leave] + Drops(k + 1, n - 1), Dropped(ledger, k + n), 0, CLAIMED, Plus(DIED, t));
    }
  }

  /** A history of the first row is one from an empty table, behind the mutation that queued it. */
  lemma Opened(ledger: Projections, first: Machine, steps: seq<Step>, end: Machine, t: Tally)
    requires first == Tried(ledger, 0) && Path(first, steps, end, 0, t)
    ensures Path(START, [Mutate(ledger, 0, 0)] + steps, end, 0, t)
  {
    Opening(ledger);
    PathFirst(START, Mutate(ledger, 0, 0), first, steps, end, 0, NOTHING, t);
  }

  /** From an empty table, n claims that died before being recorded: they leave no trace in the stall count. */
  lemma UnrecordedCrashes(ledger: Projections, n: nat)
    ensures Path(START, [Mutate(ledger, 0, 0)] + Drops(0, n), Dropped(ledger, n), 0, Tally(n, n, 0, 0))
  {
    DropOn(ledger, 0, n);
    Opened(ledger, Dropped(ledger, 0), Drops(0, n), Dropped(ledger, n), Tally(n, n, 0, 0));
  }

  lemma NoTrace(ledger: Projections, n: nat)
    ensures Dropped(ledger, n).table.runs[0].stallCount == 0 && Dropped(ledger, n).table.runs[0].stallMark.None?
    ensures Dropped(ledger, n).table.runs[0].checkpoint == BEGINNING
  {
  }
}
