/** One executor invocation: nested loops under a statement budget, tied call by call to the protocol. */
module Executor {
  import opened Sequences
  import opened RunTable
  import opened ExecutorProtocol
  import opened RebuildProgress

  // Most statements each part of an invocation issues.
  const SUPERSEDE_COST := 1
  const CLAIM_PHASE_COST := 7
  const REBUILD_COST := 27
  const CLOSE_COST := 2

  const READ_TIME_BUDGET := 150

  /** What happens while a call is awaited: time passes, runs are queued, the ledger changes, and a rebuild may fail. */
  datatype Fault = NoFault | TransientFault | BuildFault
  datatype Arrival = Queued(createdAt: int, highWater: nat) | Mutated(ledger: Projections, createdAt: int, highWater: nat)
  datatype Event = Event(elapsed: nat, arrivals: seq<Arrival>, fault: Fault)

  /** How the work on one claimed row ends. */
  /** What the next call meets. */
  function FaultNext(events: seq<Event>): Fault {
    if events == [] then NoFault else events[0].fault
  }

  datatype Stop = OutOfBudget | NothingLeft | Interrupted
  datatype Ending = Completes | Breaks | GivesUp | GivesBack

  function Max(a: int, b: int): int {
    if a < b then b else a
  }

  /** The most an invocation with this budget may issue. */
  function StatementLimit(budget: nat): int {
    Max(SUPERSEDE_COST, budget - 1 + Max(CLAIM_PHASE_COST, REBUILD_COST) + CLOSE_COST)
  }

  lemma {:induction false} ExecSnoc(m: Machine, steps: seq<Step>, step: Step)
    requires Runs(m, steps)
    ensures Runs(m, steps + [step]) <==> Enabled(Exec(m, steps), step)
    ensures Enabled(Exec(m, steps), step) ==> Exec(m, steps + [step]) == Next(Exec(m, steps), step)
    decreases steps
  {
    if steps == [] {
      assert (steps + [step])[1..] == [];
    } else {
      assert (steps + [step])[1..] == steps[1..] + [step];
      ExecSnoc(Next(m, steps[0]), steps[1..], step);
    }
  }

  ghost function Tally(p: Step -> bool, steps: seq<Step>): nat {
    if steps == [] then 0 else Tally(p, steps[..|steps| - 1]) + if p(steps[|steps| - 1]) then 1 else 0
  }

  lemma TallySnoc(p: Step -> bool, steps: seq<Step>, step: Step)
    ensures Tally(p, steps + [step]) == Tally(p, steps) + if p(step) then 1 else 0
  {
    assert (steps + [step])[..|steps|] == steps;
  }

  const IS_CLAIM := (s: Step) => s.Claim?
  const IS_PUBLISH := (s: Step) => s.PublishRun?

  predicate Pending(t: Table) {
    exists i :: 0 <= i < |t.runs| && t.runs[i].pipeline == Projection && (t.runs[i].status.Queued? || t.runs[i].status.Running?)
  }

  /** Some projection row among the first n could be claimed now. */
  ghost predicate SomeClaimable(runs: seq<Run>, now: int) {
    exists j :: 0 <= j < |runs| && runs[j].pipeline == Projection && Claimable(runs[j], now)
  }

  /** Row i of after was the oldest of those that could be claimed before. */
  ghost predicate ClaimedOldest(before: seq<Run>, after: seq<Run>, i: nat, now: int) {
    && i < |after| && |before| <= |after| && after[i].pipeline == Projection
    && forall j: nat :: j < |before| && j != i && before[j].pipeline == Projection && Claimable(before[j], now) ==> Newer(after, i, j)
  }

  /** Some row is leased. */
  ghost predicate SomeHeld(runs: seq<Run>) {
    exists j :: 0 <= j < |runs| && runs[j].status.Running?
  }

  /** A row somebody began and left: its lease is over. */
  ghost predicate SomeLyingBy(runs: seq<Run>, now: int) {
    exists j :: 0 <= j < |runs| && runs[j].pipeline == Projection && runs[j].status.Running? && runs[j].status.expires <= now
  }

  /** Neither rows queued meanwhile nor the bulk supersession take such a row away. */
  lemma LyingByStaysClaimable(runs: seq<Run>, t: Table, now: int, later: int)
    requires SomeLyingBy(runs, now) && now <= later && |runs| <= |t.runs| && t.runs[..|runs|] == runs
    ensures SomeClaimable(SupersedeStaleQueued(t, Projection).runs, later)
  {
    var j :| 0 <= j < |runs| && runs[j].pipeline == Projection && runs[j].status.Running? && runs[j].status.expires <= now;
    assert t.runs[j] == runs[j];
    assert Claimable(SupersedeStaleQueued(t, Projection).runs[j], later);
  }

  /** The run is ready, and there is budget for all of its calls. */
  ghost predicate EnoughFor(t: Table, i: nat, now: int, owner: nat, highWater: nat, statements: nat, budget: nat) {
    Ready(t, i, now, owner, highWater) && statements + (CallsLeft(t, i) - 1) * REBUILD_COST < budget
  }

  lemma StillClaimable(before: seq<Run>, after: seq<Run>, now: int)
    requires |before| <= |after| && after[..|before|] == before
    ensures SomeClaimable(before, now) ==> SomeClaimable(after, now)
  {
    if j :| 0 <= j < |before| && before[j].pipeline == Projection && Claimable(before[j], now) {
      assert after[j] == before[j];
    }
  }

  /** Rows queued later do not change which of the earlier ones was the oldest. */
  lemma StillOldest(before: seq<Run>, seen: seq<Run>, after: seq<Run>, i: nat, now: int)
    requires |before| <= |seen| && seen[..|before|] == before && SameOrder(seen, after) && ClaimedOldest(seen, seen, i, now)
    ensures ClaimedOldest(before, after, i, now)
  {
    OrderKept(seen, after);
    forall j: nat | j < |before| && j != i && before[j].pipeline == Projection && Claimable(before[j], now)
      ensures Newer(after, i, j)
    {
      assert seen[j] == before[j];
    }
  }

  class Invocation {
    var table: Table
    var clock: int
    var statements: nat
    var events: seq<Event>
    var nextOwner: nat
    var latestTransaction: nat

    ghost var origin: Machine
    ghost var trace: seq<Step>
    ghost var phase: Phase

    /** The table is what the protocol reaches by the calls made so far. */
    ghost predicate Valid()
      reads this
    {
      Runs(origin, trace) && Exec(origin, trace) == Machine(table, phase)
    }

    constructor (table: Table, clock: int, events: seq<Event>, latestTransaction: nat)
      ensures Valid() && this.table == table && phase == Idle && statements == 0 && trace == []
      ensures origin == Machine(table, Idle)
    {
      this.table, this.clock, this.events, this.latestTransaction := table, clock, events, latestTransaction;
      statements, nextOwner := 0, 0;
      origin, trace, phase := Machine(table, Idle), [], Idle;
    }

    /** The calls made so far stay made; creation order and time only go forward. */
    twostate predicate Grew()
      reads this
    {
      && origin == old(origin)
      && old(clock) <= clock
      && old(trace) <= trace
    }

    /** Only queueing and ledger mutations happened. */
    twostate predicate Waited()
      reads this
    {
      && Grew()
      && phase == old(phase) && nextOwner == old(nextOwner) && latestTransaction == old(latestTransaction)
      && |old(table.runs)| <= |table.runs| && table.runs[..|old(table.runs)|] == old(table.runs)
      && table.published == old(table.published)
      && Tally(IS_CLAIM, trace) == Tally(IS_CLAIM, old(trace))
      && Tally(IS_PUBLISH, trace) == Tally(IS_PUBLISH, old(trace))
    }

    /** A call whose answer is taken as it comes. */
    method Call(cost: nat)
      requires Valid()
      modifies this
      ensures Valid() && Waited() && statements == old(statements) + cost
      ensures old(events) == [] ==> Still()
    {
      var fault := Await(cost);
    }

    /** Nothing happens but the invocation's own calls. */
    twostate predicate Still()
      reads this
    {
      events == [] && clock == old(clock) && table == old(table)
    }

    ghost method Take(step: Step)
      requires Runs(origin, trace) && Enabled(Exec(origin, trace), step)
      requires Next(Exec(origin, trace), step).table == table
      modifies this`trace, this`phase
      ensures Valid() && trace == old(trace) + [step]
      ensures phase == Next(Exec(origin, old(trace)), step).phase
      ensures Tally(IS_CLAIM, trace) == Tally(IS_CLAIM, old(trace)) + if step.Claim? then 1 else 0
      ensures Tally(IS_PUBLISH, trace) == Tally(IS_PUBLISH, old(trace)) + if step.PublishRun? then 1 else 0
    {
      ExecSnoc(origin, trace, step);
      TallySnoc(IS_CLAIM, trace, step);
      TallySnoc(IS_PUBLISH, trace, step);
      phase := Next(Exec(origin, trace), step).phase;
      trace := trace + [step];
    }

    /** The counting client: some statements go out, and meanwhile the world moves on. */
    method Await(cost: nat) returns (fault: Fault)
      requires Valid()
      modifies this
      ensures Valid() && Waited() && statements == old(statements) + cost
      ensures old(events) == [] ==> Still()
      ensures fault == FaultNext(old(events)) && clock == old(clock) + if old(events) == [] then 0 else old(events)[0].elapsed
      ensures events == if old(events) == [] then [] else old(events)[1..]
    {
      statements := statements + cost;
      if events == [] {
        return NoFault;
      }
      var event := events[0];
      events := events[1..];
      clock := clock + event.elapsed;
      for k := 0 to |event.arrivals|
        invariant Valid() && Waited() && statements == old(statements) + cost
        invariant events == old(events)[1..] && clock == old(clock) + event.elapsed
      {
        match event.arrivals[k] {
          case Queued(createdAt, highWater) =>
            table := Enqueue(table, NewRun(Projection, createdAt, highWater));
            Take(Queue(Projection, createdAt, highWater));
          case Mutated(ledger, createdAt, highWater) =>
            table := MutateLedger(table, ledger, NewRun(Projection, createdAt, highWater));
            Take(Mutate(ledger, createdAt, highWater));
        }
      }
      fault := event.fault;
    }

    method SupersedeStale()
      requires Valid() && phase.Idle?
      modifies this
      ensures Valid() && phase.Idle? && Grew() && statements == old(statements) + SUPERSEDE_COST
      ensures |trace| > |old(trace)|
      ensures SomeLyingBy(old(table.runs), old(clock)) ==> SomeClaimable(table.runs, clock)
      ensures old(events) == [] ==>
        events == [] && clock == old(clock) && table == SupersedeStaleQueued(old(table), Projection)
      ensures Tally(IS_CLAIM, trace) == Tally(IS_CLAIM, old(trace))
      ensures Tally(IS_PUBLISH, trace) == Tally(IS_PUBLISH, old(trace))
    {
      Call(1);
      ghost var before := table;
      table := SupersedeStaleQueued(table, Projection);
      Take(ExecutorProtocol.SupersedeStale);
      if SomeLyingBy(old(table.runs), old(clock)) {
        LyingByStaysClaimable(old(table.runs), before, old(clock), clock);
      }
    }

    /** Row i is leased to owner by the claim the invocation is working through. */
    ghost predicate Leased(i: nat, owner: nat)
      reads this
    {
      i < |table.runs| && Holds(table.runs[i], owner)
    }

    /** The oldest row that can be claimed, if any. */
    method LookUp(now: int) returns (candidate: Option<nat>)
      requires Valid() && phase.Idle?
      modifies this
      ensures Valid() && Waited() && statements == old(statements) + 1
      ensures candidate.None? ==> !SomeClaimable(table.runs, now)
      ensures candidate.Some? ==> ClaimedOldest(table.runs, table.runs, candidate.value, now)
      ensures candidate.Some? ==> Claimable(table.runs[candidate.value], now)
      ensures old(events) == [] ==> Still()
    {
      Call(1);
      candidate := NextClaimable(table.runs, Projection, now, |table.runs|);
    }

    /** The claim, and the read of the row it leased. */
    method ClaimRow(i: nat, owner: nat, now: int)
      requires Valid() && phase.Idle? && i < |table.runs|
      requires table.runs[i].pipeline == Projection && Claimable(table.runs[i], now)
      modifies this
      ensures Valid() && Grew() && statements == old(statements) + 2
      ensures phase == Claimed(i, owner) && Leased(i, owner) && |old(table.runs)| <= |table.runs|
      ensures SameOrder(old(table.runs), table.runs)
      ensures old(events) == [] ==> events == [] && clock == old(clock) && ClaimRun(old(table), i, owner, now) == Some(table)
      ensures Tally(IS_CLAIM, trace) == Tally(IS_CLAIM, old(trace)) + 1
      ensures Tally(IS_PUBLISH, trace) == Tally(IS_PUBLISH, old(trace))
    {
      Call(1);
      table := ClaimRun(table, i, owner, now).value;
      Take(Claim(i, owner, now));
      Call(1);
    }

    /** The oldest claimable row, leased; nothing when there is none. */
    method ClaimNext() returns (claimed: bool, i: nat, owner: nat)
      requires Valid() && phase.Idle?
      modifies this
      ensures Valid() && Grew() && statements <= old(statements) + 3 && statements > old(statements)
      ensures claimed ==> phase == Claimed(i, owner) && Leased(i, owner)
      ensures claimed ==> ClaimedOldest(old(table.runs), table.runs, i, old(clock))
      ensures !claimed ==> phase.Idle? && !SomeClaimable(table.runs, old(clock))
      ensures SomeClaimable(old(table.runs), old(clock)) ==> claimed
      ensures old(events) == [] ==> events == [] && clock == old(clock)
      ensures old(events) == [] && claimed ==> i < |old(table.runs)| && ClaimRun(old(table), i, owner, clock) == Some(table)
      ensures Tally(IS_CLAIM, trace) == Tally(IS_CLAIM, old(trace)) + if claimed then 1 else 0
      ensures Tally(IS_PUBLISH, trace) == Tally(IS_PUBLISH, old(trace))
    {
      var now := clock;
      var candidate := LookUp(now);
      claimed, i, owner := candidate.Some?, 0, nextOwner;
      StillClaimable(old(table.runs), table.runs, now);
      if claimed {
        ghost var before := table.runs;
        nextOwner, i := nextOwner + 1, candidate.value;
        ClaimRow(i, owner, now);
        StillOldest(old(table.runs), before, table.runs, i, now);
      }
    }

    /** Failing the row the invocation holds, for one of its own reasons. */
    method Fail(i: nat, owner: nat, step: Step, why: Category)
      requires Valid() && !phase.Idle? && phase.run == i && phase.owner == owner && Leased(i, owner)
      requires (step == FailSuperseded && why == SupersededByNewerRun && phase.Claimed? && HasNewer(table.runs, i))
            || (step == FailStalled && why == StallLimitExceeded && phase.AtLimit?)
            || (step == FailBuild && why == BuildFailed && phase.Chosen?)
      modifies this
      ensures Valid() && phase.Idle? && Grew() && statements == old(statements) + CLOSE_COST
      ensures i < |table.runs| && table.runs[i].status == Failed(why)
      ensures Tally(IS_CLAIM, trace) == Tally(IS_CLAIM, old(trace))
      ensures Tally(IS_PUBLISH, trace) == Tally(IS_PUBLISH, old(trace))
    {
      ghost var before := table.runs;
      Call(1);
      OrderKept(before, table.runs);
      var r := FailRun(table, i, owner, why);
      table := r.value;
      Take(step);
      Call(1);
    }

    /** A claimed row with a newer one behind it is failed at once. */
    method CheckNewest(i: nat, owner: nat) returns (newest: bool)
      requires Valid() && phase == Claimed(i, owner) && Leased(i, owner)
      modifies this
      ensures Valid() && Grew() && statements == old(statements) + if newest then 1 else 1 + CLOSE_COST
      ensures newest ==> phase == Checked(i, owner) && Leased(i, owner)
      ensures !newest ==> phase.Idle?
      ensures Tally(IS_CLAIM, trace) == Tally(IS_CLAIM, old(trace))
      ensures Tally(IS_PUBLISH, trace) == Tally(IS_PUBLISH, old(trace))
    {
      Call(1);
      newest := !HasNewer(table.runs, i);
      if newest {
        Take(ExecutorProtocol.CheckNewest);
      } else {
        Fail(i, owner, FailSuperseded, SupersededByNewerRun);
      }
    }

    /** Counting this claim against the checkpoint the last one saw. */
    method RecordProgress(i: nat, owner: nat) returns (stalled: bool)
      requires Valid() && phase == Checked(i, owner) && Leased(i, owner)
      modifies this
      ensures Valid() && Grew() && statements == old(statements) + 1 && Leased(i, owner)
      ensures phase == if stalled then AtLimit(i, owner) else Working(i, owner)
      ensures Tally(IS_CLAIM, trace) == Tally(IS_CLAIM, old(trace))
      ensures Tally(IS_PUBLISH, trace) == Tally(IS_PUBLISH, old(trace))
    {
      Call(1);
      table := RecordClaimProgress(table, i, owner).value;
      Take(Record);
      stalled := table.runs[i].stallCount >= MAX_STALL_CLAIMS;
    }

    /** Supersession, then the stall count; only a row that passes both is worked on. */
    method CheckClaim(i: nat, owner: nat) returns (work: bool)
      requires Valid() && phase == Claimed(i, owner) && Leased(i, owner)
      modifies this
      ensures Valid() && Grew() && old(statements) <= statements <= old(statements) + 4
      ensures work ==> phase == Working(i, owner) && Leased(i, owner) && statements <= old(statements) + 2
      ensures !work ==> phase.Idle?
      ensures Tally(IS_CLAIM, trace) == Tally(IS_CLAIM, old(trace))
      ensures Tally(IS_PUBLISH, trace) == Tally(IS_PUBLISH, old(trace))
    {
      work := CheckNewest(i, owner);
      if work {
        var stalled := RecordProgress(i, owner);
        if stalled {
          Fail(i, owner, FailStalled, StallLimitExceeded);
          work := false;
        }
      }
    }

    /** A row queued without a ledger mark gets the current one, stored before it is used. */
    method ResolveHighWater(i: nat, owner: nat) returns (highWater: nat)
      requires Valid() && phase == Working(i, owner) && Leased(i, owner)
      modifies this
      ensures Valid() && phase == Working(i, owner) && Leased(i, owner) && Grew()
      ensures old(statements) <= statements <= old(statements) + 2
      ensures highWater == table.runs[i].highWater && (highWater == 0 ==> old(latestTransaction) == 0)
      ensures Tally(IS_CLAIM, trace) == Tally(IS_CLAIM, old(trace))
      ensures Tally(IS_PUBLISH, trace) == Tally(IS_PUBLISH, old(trace))
    {
      highWater := table.runs[i].highWater;
      if highWater == 0 {
        Call(1);
        var resolved := latestTransaction;
        if resolved != 0 {
          Call(1);
          table := ResolveEmptyHighWater(table, i, owner, resolved);
          Take(Resolve(resolved));
          highWater := resolved;
        }
      }
    }

    /** The completion and the publication, in one batch guarded by the lease the call started under. */
    method PublishDone(i: nat, owner: nat, highWater: nat, now: int) returns (r: RebuildResult)
      requires Valid() && phase == Prepared(i, owner, Finish) && MayRebuild(table, i, owner, now, highWater)
      modifies this
      ensures Valid() && Grew() && old(statements) <= statements <= old(statements) + 6
      ensures r.Finished? ==> phase.Idle?
      ensures r.Finished? ==> table.published == Some(i) && i < |table.runs| && table.runs[i].status.Completed?
      ensures !r.Finished? ==> r.Transient? && phase.Prepared? && Leased(i, owner)
      ensures r.Transient? <==> FaultNext(old(events)).TransientFault?
      ensures old(events) == [] ==> events == [] && clock == old(clock) && r.Finished? && table == Publish(old(table), i)
      ensures Tally(IS_CLAIM, trace) == Tally(IS_CLAIM, old(trace))
      ensures Tally(IS_PUBLISH, trace) == Tally(IS_PUBLISH, old(trace)) + if r.Finished? then 1 else 0
    {
      var fault := Await(2);
      if fault.TransientFault? {
        return Transient;
      }
      table := Publish(table, i);
      Take(PublishRun(now, highWater));
      Call(4);
      r := Finished;
    }

    /** The planned rows and the checkpoint behind them, in one batch that a repeated key makes fail. */
    method WriteRows(i: nat, owner: nat, highWater: nat, now: int, rows: seq<Written>, next: Checkpoint)
      returns (r: RebuildResult)
      requires Valid() && phase == Prepared(i, owner, Write(rows, next)) && |rows| <= OUTPUTS_PER_CHUNK
      requires MayRebuild(table, i, owner, now, highWater)
      modifies this
      ensures Valid() && Grew() && old(statements) <= statements <= old(statements) + OUTPUTS_PER_CHUNK + 4
      ensures if r.Progress? then phase == Working(i, owner) else r.Transient? && phase.Prepared?
      ensures r.Transient? <==> FaultNext(old(events)).TransientFault? || !DistinctKeys(old(table).runs[i].rows + rows)
      ensures Leased(i, owner)
      ensures old(events) == [] ==> events == [] && clock == old(clock)
      ensures old(events) == [] ==>
        if DistinctKeys(old(table).runs[i].rows + rows) then r.Progress? && table == WriteChunk(old(table), i, rows, next)
        else r.Transient? && table == old(table)
      ensures Tally(IS_CLAIM, trace) == Tally(IS_CLAIM, old(trace))
      ensures Tally(IS_PUBLISH, trace) == Tally(IS_PUBLISH, old(trace))
    {
      var fault := Await(|rows| + 1);
      if fault.TransientFault? || !DistinctKeys(table.runs[i].rows + rows) {
        return Transient;
      }
      table := WriteChunk(table, i, rows, next);
      Take(Chunk(now, highWater));
      Call(3);
      r := Progress;
    }

    method ReadTransactions(i: nat, owner: nat, c: Checkpoint, security: Option<nat>) returns (plan: Plan)
      requires Valid() && phase == Chosen(i, owner, security) && Leased(i, owner) && table.runs[i].checkpoint == c
      modifies this`trace, this`phase
      ensures Valid() && Grew() && phase == Prepared(i, owner, plan)
      ensures plan.Write? ==> |plan.rows| <= OUTPUTS_PER_CHUNK
      ensures plan == PlanFor(table.ledger, c, security)
      ensures Tally(IS_CLAIM, trace) == Tally(IS_CLAIM, old(trace))
      ensures Tally(IS_PUBLISH, trace) == Tally(IS_PUBLISH, old(trace))
    {
      plan := PlanFor(table.ledger, c, security);
      if security.Some? {
        ChunkFits(security.value, OutputsOf(table.ledger, security.value), c);
      }
      Take(ReadLedger);
    }

    /** The security being written, or the next one by the ledger as it is read. */
    method ChooseSecurity(i: nat, owner: nat) returns (security: Option<nat>)
      requires Valid() && phase == Working(i, owner) && Leased(i, owner)
      modifies this
      ensures Valid() && Grew() && old(statements) <= statements <= old(statements) + 1
      ensures phase == Chosen(i, owner, security) && Leased(i, owner)
      ensures old(events) == [] ==> Still() && security == CurrentSecurity(table.ledger, table.runs[i].checkpoint)
      ensures i < |table.runs| && i < |old(table.runs)| && table.runs[i] == old(table.runs[i])
      ensures Tally(IS_CLAIM, trace) == Tally(IS_CLAIM, old(trace))
      ensures Tally(IS_PUBLISH, trace) == Tally(IS_PUBLISH, old(trace))
    {
      if table.runs[i].checkpoint.active.None? {
        Call(1);
      }
      security := CurrentSecurity(table.ledger, table.runs[i].checkpoint);
      Take(Choose);
    }

    /** Choosing the security, then reading its transactions; what arrives in between is not seen by the choice. */
    method ReadPlan(i: nat, owner: nat) returns (plan: Option<Plan>, ghost met: Fault)
      requires Valid() && phase == Working(i, owner) && Leased(i, owner)
      modifies this
      ensures Valid() && Grew() && old(statements) <= statements <= old(statements) + 2
      ensures plan.None? <==> met.BuildFault?
      ensures plan.Some? ==> phase == Prepared(i, owner, plan.value)
      ensures plan.Some? && plan.value.Write? ==> |plan.value.rows| <= OUTPUTS_PER_CHUNK
      ensures plan.None? ==> phase.Chosen? && phase.run == i && phase.owner == owner
      ensures old(events) == [] ==>
        Still() && i < |table.runs| && plan == Some(PlanOf(table.ledger, table.runs[i].checkpoint))
      ensures Leased(i, owner) && i < |old(table.runs)| && table.runs[i] == old(table.runs[i])
      ensures Tally(IS_CLAIM, trace) == Tally(IS_CLAIM, old(trace))
      ensures Tally(IS_PUBLISH, trace) == Tally(IS_PUBLISH, old(trace))
    {
      met := NoFault;
      var security := ChooseSecurity(i, owner);
      if security.Some? {
        var fault := Await(1);
        met := fault;
        if fault.BuildFault? {
          plan := None;
          return;
        }
      }
      var p := ReadTransactions(i, owner, table.runs[i].checkpoint, security);
      plan := Some(p);
    }

    /** One rebuild call: a chunk, the publication, or a failure of either kind. */
    method Rebuild(i: nat, owner: nat, highWater: nat) returns (r: RebuildResult)
      requires Valid() && phase == Working(i, owner) && Leased(i, owner)
      modifies this
      ensures Valid() && Grew()
      ensures old(statements) < statements <= old(statements) + REBUILD_COST
      ensures r.Finished? ==> phase.Idle?
      ensures r.Progress? ==> phase == Working(i, owner) && Leased(i, owner)
      ensures r.Structural? ==> phase.Chosen? && phase.run == i && phase.owner == owner && Leased(i, owner)
      ensures r.Transient? ==> Leased(i, owner)
      ensures r.Finished? ==> table.published == Some(i) && i < |table.runs| && table.runs[i].status.Completed?
      ensures old(events) == [] ==>
        events == [] && clock == old(clock) && Rebuilt(old(table), table, i, clock, owner, highWater, r)
      ensures Tally(IS_CLAIM, trace) == Tally(IS_CLAIM, old(trace))
      ensures Tally(IS_PUBLISH, trace) == Tally(IS_PUBLISH, old(trace)) + if r.Finished? then 1 else 0
    {
      var now := clock;
      Call(1);
      if !MayRebuild(table, i, owner, now, highWater) {
        return Transient;
      }
      var plan, met := ReadPlan(i, owner);
      match plan {
        case None => r := Structural;
        case Some(Finish) => r := PublishDone(i, owner, highWater, now);
        case Some(Write(rows, next)) => r := WriteRows(i, owner, highWater, now, rows, next);
      }
    }

    /** Undisturbed work on a run that is ready: a fixed number of calls is left, each of bounded cost. */
    twostate predicate OnTrack(i: nat, owner: nat, highWater: nat)
      reads this
    {
      old(events) == [] && Ready(old(table), i, old(clock), owner, highWater) ==>
        && events == [] && clock == old(clock) && Ready(table, i, clock, owner, highWater)
        && statements + CallsLeft(table, i) * REBUILD_COST <= old(statements) + CallsLeft(old(table), i) * REBUILD_COST
    }

    method RebuildOnTrack(i: nat, owner: nat, highWater: nat) returns (r: RebuildResult)
      requires Valid() && phase == Working(i, owner) && Leased(i, owner)
      modifies this
      ensures Valid() && Grew()
      ensures old(statements) < statements <= old(statements) + REBUILD_COST
      ensures r.Finished? ==> phase.Idle?
      ensures r.Progress? ==> phase == Working(i, owner) && Leased(i, owner)
      ensures r.Structural? ==> phase.Chosen? && phase.run == i && phase.owner == owner && Leased(i, owner)
      ensures r.Transient? ==> Leased(i, owner)
      ensures r.Finished? ==> table.published == Some(i) && i < |table.runs| && table.runs[i].status.Completed?
      ensures r.Progress? ==> OnTrack(i, owner, highWater)
      ensures old(events) == [] && Ready(old(table), i, old(clock), owner, highWater) ==> r.Finished? || r.Progress?
      ensures Tally(IS_CLAIM, trace) == Tally(IS_CLAIM, old(trace))
      ensures Tally(IS_PUBLISH, trace) == Tally(IS_PUBLISH, old(trace)) + if r.Finished? then 1 else 0
    {
      ghost var before := table;
      r := Rebuild(i, owner, highWater);
      if old(events) == [] && Ready(before, i, clock, owner, highWater) {
        ReadyStep(before, table, i, clock, owner, highWater, r);
      }
    }

    /** One claimed row, as far as the remaining budget allows; when that is spent the row is given back. */
    method AdvanceOneRun(i: nat, owner: nat, highWater: nat, budget: nat)
      returns (keepGoing: bool, finished: bool, ghost how: Ending)
      requires Valid() && phase == Working(i, owner) && Leased(i, owner)
      modifies this
      ensures Valid() && phase.Idle? && Grew() && statements >= old(statements)
      ensures statements <= Max(old(statements), budget - 1 + REBUILD_COST) + CLOSE_COST
      ensures i < |table.runs| && Ends(i, owner, budget, how)
      ensures (keepGoing <==> how.Completes? || how.Breaks?) && (finished <==> how.Completes?)
      ensures old(events) == [] && EnoughFor(old(table), i, old(clock), owner, highWater, old(statements), budget) ==> how.Completes?
      ensures Tally(IS_CLAIM, trace) == Tally(IS_CLAIM, old(trace))
      ensures Tally(IS_PUBLISH, trace) == Tally(IS_PUBLISH, old(trace)) + if finished then 1 else 0
    {
      while statements < budget
        invariant Valid() && phase == Working(i, owner) && Leased(i, owner) && Grew()
        invariant OnTrack(i, owner, highWater)
        invariant old(statements) <= statements <= Max(old(statements), budget - 1 + REBUILD_COST)
        invariant Tally(IS_CLAIM, trace) == Tally(IS_CLAIM, old(trace))
        invariant Tally(IS_PUBLISH, trace) == Tally(IS_PUBLISH, old(trace))
        decreases budget - statements
      {
        var r := RebuildOnTrack(i, owner, highWater);
        if !r.Progress? {
          keepGoing, finished, how := Conclude(i, owner, r);
          return;
        }
      }
      GiveBack(i, owner);
      return false, false, GivesBack;
    }

    /** The lease ends now instead of in minutes. */
    method GiveBack(i: nat, owner: nat)
      requires Valid() && phase == Working(i, owner) && Leased(i, owner)
      modifies this
      ensures Valid() && phase.Idle? && Grew() && statements == old(statements) + 1
      ensures i < |table.runs| && forall later :: clock <= later ==> Claimable(table.runs[i], later)
      ensures Tally(IS_CLAIM, trace) == Tally(IS_CLAIM, old(trace))
      ensures Tally(IS_PUBLISH, trace) == Tally(IS_PUBLISH, old(trace))
    {
      var now := clock;
      Call(1);
      table := ReleaseLease(table, i, owner, now);
      Take(Release(now));
    }

    /** Work that did not go on: left for now, failed for good, or published. */
    method Conclude(i: nat, owner: nat, r: RebuildResult) returns (keepGoing: bool, finished: bool, ghost how: Ending)
      requires Valid() && i < |table.runs| && !r.Progress?
      requires r.Finished? ==> phase.Idle? && table.published == Some(i) && table.runs[i].status.Completed?
      requires r.Structural? ==> phase.Chosen? && phase.run == i && phase.owner == owner
      requires !r.Finished? ==> Leased(i, owner)
      modifies this
      ensures Valid() && phase.Idle? && Grew() && old(statements) <= statements <= old(statements) + CLOSE_COST
      ensures i < |table.runs| && !how.GivesBack? && Ends(i, owner, 0, how)
      ensures (keepGoing <==> how.Completes? || how.Breaks?) && (finished <==> how.Completes?)
      ensures how.Completes? <==> r.Finished?
      ensures Tally(IS_CLAIM, trace) == Tally(IS_CLAIM, old(trace))
      ensures Tally(IS_PUBLISH, trace) == Tally(IS_PUBLISH, old(trace))
    {
      match r {
        case Transient =>
          Take(Leave);
          return false, false, GivesUp;
        case Structural =>
          Fail(i, owner, FailBuild, BuildFailed);
          return true, false, Breaks;
        case Finished =>
          return true, true, Completes;
      }
    }

    /** Published, failed for good, left leased for now, or given back with the budget spent. */
    ghost predicate Ends(i: nat, owner: nat, budget: nat, how: Ending)
      requires i < |table.runs|
      reads this
    {
      match how
      case Completes => table.published == Some(i) && table.runs[i].status.Completed?
      case Breaks => table.runs[i].status == Failed(BuildFailed)
      case GivesUp => Holds(table.runs[i], owner)
      case GivesBack => statements >= budget && forall later :: clock <= later ==> Claimable(table.runs[i], later)
    }

    /** One turn of the outer loop: claim the oldest row and take it as far as it goes. */
    method Turn(budget: nat) returns (keepGoing: bool, claimed: bool, finished: bool)
      requires Valid() && phase.Idle? && statements < budget
      modifies this
      ensures Valid() && phase.Idle? && Grew()
      ensures old(statements) < statements <= StatementLimit(budget)
      ensures SomeClaimable(old(table.runs), old(clock)) ==> claimed
      ensures !claimed ==> !keepGoing && !finished && !SomeClaimable(table.runs, old(clock))
      ensures claimed && !keepGoing ==> statements >= budget || SomeHeld(table.runs)
      ensures finished ==> keepGoing && table.published.Some?
      ensures Tally(IS_CLAIM, trace) == Tally(IS_CLAIM, old(trace)) + if claimed then 1 else 0
      ensures Tally(IS_PUBLISH, trace) == Tally(IS_PUBLISH, old(trace)) + if finished then 1 else 0
    {
      finished := false;
      var i, owner;
      claimed, i, owner := ClaimNext();
      keepGoing := claimed;
      if claimed {
        var work := CheckClaim(i, owner);
        if work {
          var highWater := ResolveHighWater(i, owner);
          ghost var how;
          keepGoing, finished, how := AdvanceOneRun(i, owner, highWater, budget);
        }
      }
    }

    /** The outer loop: supersede in bulk, then claim and advance rows, oldest first, while budget is left. */
    method AdvanceCalculationRuns(budget: nat) returns (advanced: nat, completed: nat, remaining: bool, ghost stop: Stop)
      requires Valid() && phase.Idle? && statements == 0
      modifies this
      ensures Valid() && phase.Idle? && Grew()
      ensures statements <= StatementLimit(budget) && |trace| > |old(trace)|
      ensures statements <= 1 || statements <= budget + 28
      ensures Tally(IS_CLAIM, trace) == Tally(IS_CLAIM, old(trace)) + advanced
      ensures Tally(IS_PUBLISH, trace) == Tally(IS_PUBLISH, old(trace)) + completed
      ensures SomeLyingBy(old(table.runs), old(clock)) && budget > SUPERSEDE_COST ==> advanced >= 1
      ensures Stops(stop, budget, old(clock))
      ensures remaining <==> exists i :: 0 <= i < |table.runs| && table.runs[i].pipeline == Projection && !Ended(table.runs[i])
    {
      advanced, completed := 0, 0;
      SupersedeStale();
      var keepGoing := true;
      stop := OutOfBudget;
      while keepGoing && statements < budget
        invariant Valid() && phase.Idle? && Grew() && |trace| > |old(trace)|
        invariant statements <= StatementLimit(budget)
        invariant Tally(IS_CLAIM, trace) == Tally(IS_CLAIM, old(trace)) + advanced
        invariant Tally(IS_PUBLISH, trace) == Tally(IS_PUBLISH, old(trace)) + completed
        invariant SomeLyingBy(old(table.runs), old(clock)) ==> advanced >= 1 || (SomeClaimable(table.runs, clock) && keepGoing)
        invariant advanced == 0 && keepGoing ==> statements == SUPERSEDE_COST
        invariant if keepGoing then stop == OutOfBudget else Stops(stop, budget, old(clock))
        decreases budget - statements
      {
        var claimed, finished;
        ghost var now := clock;
        keepGoing, claimed, finished := Turn(budget);
        advanced := advanced + if claimed then 1 else 0;
        completed := completed + if finished then 1 else 0;
        stop := if keepGoing || statements >= budget then OutOfBudget else if claimed then Interrupted else NothingLeft;
      }
      remaining := Pending(table);
    }

    /** The budget is spent, or no row could be claimed when the last look was taken, or work on one was given up for now. */
    ghost predicate Stops(stop: Stop, budget: nat, start: int)
      reads this
    {
      match stop
      case OutOfBudget => statements >= budget
      case NothingLeft => exists now :: start <= now <= clock && !SomeClaimable(table.runs, now)
      case Interrupted => SomeHeld(table.runs)
    }
  }
}
