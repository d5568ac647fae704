/** Reading a published result, advancing stale work once, and saying whether it is still pending. */
module PublicationRead {
  import opened Sequences
  import opened RunTable
  import opened ExecutorProtocol
  import opened Executor

  datatype Reason = ReasonQueued | ReasonRunning | ReasonFailed
  datatype PendingState = UpToDate | StillPending(reason: Reason)
  datatype Publication = NothingSold | NoPublication | Published(run: nat, pending: PendingState)

  /** The pending subquery's status column; the row it picked is queued, running or failed. */
  function PendingStateFromRow(t: Table): PendingState
    requires t.published.Some? && t.published.value < |t.runs|
  {
    var row := PendingRun(t, |t.runs|);
    if row.None? then UpToDate
    else
      StillPending(match t.runs[row.value].status
                   case Queued => ReasonQueued
                   case Running(_, _) => ReasonRunning
                   case _ => ReasonFailed)
  }

  /** What the reason promises about the newest projection row. */
  ghost predicate Explains(t: Table, reason: Reason) {
    exists i: nat :: IsNewest(t, i) &&
      match reason
      case ReasonQueued => t.runs[i].status.Queued?
      case ReasonRunning => t.runs[i].status.Running?
      case ReasonFailed => t.runs[i].status.Failed? && t.runs[i].status.why != SupersededByNewerRun
  }

  lemma PendingStateExact(m: Machine)
    requires Inv(m) && m.table.published.Some?
    ensures PendingStateFromRow(m.table).UpToDate? <==> IsNewest(m.table, m.table.published.value)
    ensures PendingStateFromRow(m.table).StillPending? ==> Explains(m.table, PendingStateFromRow(m.table).reason)
  {
    StalenessNeverSilent(m);
    var row := PendingRun(m.table, |m.table.runs|);
    if row.Some? {
      assert IsNewest(m.table, row.value);
    }
  }

  /** Once there is a publication there is one after every longer history. */
  lemma {:induction false} PublicationKept(m: Machine, before: seq<Step>, after: seq<Step>)
    requires Inv(m) && Runs(m, before) && Runs(m, after)
    requires |before| <= |after| && after[..|before|] == before
    requires Exec(m, before).table.published.Some?
    ensures Exec(m, after).table.published.Some?
    decreases before
  {
    if before == [] {
      HistoryAdvances(m, after);
    } else {
      InvStep(m, before[0]);
      assert after[0] == before[0] && after[1..][..|before| - 1] == before[1..];
      PublicationKept(Next(m, before[0]), before[1..], after[1..]);
    }
  }

  /** What was read is the publication, and its pending state is exact. */
  ghost predicate Reports(t: Table, p: Publication) {
    && p.Published?
    && t.published == Some(p.run)
    && (p.pending.UpToDate? <==> IsNewest(t, p.run))
    && (p.pending.StillPending? ==> Explains(t, p.pending.reason))
  }

  /** One read of the publication row with its pending column. */
  method ReadRow(t: Table, ghost m: Machine) returns (p: Publication)
    requires Inv(m) && m.table == t && t.published.Some?
    ensures Reports(t, p)
  {
    PendingStateExact(m);
    p := Published(t.published.value, PendingStateFromRow(t));
  }

  /** The newest projection row is queued or running, so an advance may help. */
  ghost predicate Healable(t: Table) {
    exists i: nat :: IsNewest(t, i) && (t.runs[i].status.Queued? || t.runs[i].status.Running?)
  }

  /** Self-heal once when something is queued or running, then report the state as re-read. */
  method LoadPublication(executor: Invocation, activeSells: nat) returns (p: Publication)
    requires executor.Valid() && executor.phase.Idle? && executor.statements == 0 && Inv(executor.origin)
    modifies executor
    ensures p.NothingSold? <==> activeSells == 0
    ensures p.NoPublication? ==> executor.table.published.None?
    ensures p.Published? ==> Reports(executor.table, p)
    ensures p.Published? && p.pending.StillPending? && !p.pending.reason.ReasonFailed? ==> executor.trace != old(executor.trace)
    ensures activeSells == 0 || old(executor.table.published).None? || !Healable(old(executor.table)) ==> unchanged(executor)
    ensures executor.statements <= StatementLimit(READ_TIME_BUDGET)
  {
    if activeSells == 0 {
      return NothingSold;
    }
    if executor.table.published.None? {
      return NoPublication;
    }
    ghost var origin, before := executor.origin, executor.trace;
    HistoryAdvances(origin, before);
    p := ReadRow(executor.table, Exec(origin, before));
    if p.pending.StillPending? && !p.pending.reason.ReasonFailed? {
      var advanced, completed, remaining, stop := executor.AdvanceCalculationRuns(READ_TIME_BUDGET);
      HistoryAdvances(origin, executor.trace);
      PublicationKept(origin, before, executor.trace);
      p := ReadRow(executor.table, Exec(origin, executor.trace));
    }
  }
}
