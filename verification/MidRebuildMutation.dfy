/** A mutation between two chunks of one rebuild: an output is skipped, another is left over, and the run is published. */
module MidRebuildMutation {
  import opened Sequences
  import opened RunTable
  import opened ExecutorProtocol
  import opened RebuildRows

  /** Twenty-five rows of one security, and the same without the first once its purchase is reversed. */
  const BEFORE: Projections := map[1 := Outputs(0, 25)]
  const AFTER: Projections := map[1 := Outputs(1, 24)]

  function Outputs(first: nat, n: nat): seq<Output> {
    seq(n, i requires 0 <= i < n => Output(first + i, 0))
  }

  const HALFWAY := Checkpoint(None, Some(1), 20)
  const FINISHED := Checkpoint(Some(1), None, 0)

  function RowsOf(first: nat, n: nat): seq<Written> {
    seq(n, i requires 0 <= i < n => Written(1, Output(first + i, 0)))
  }

  function RunAt(status: Status, c: Checkpoint, rows: seq<Written>): Run {
    Run(Projection, 0, status, c, rows, 0, Some(BEGINNING), 1, 1)
  }

  const LEASED := Running(0, LEASE_DURATION_MS)
  const LATER := NewRun(Projection, 0, 2)

  function Alone(run: Run, phase: Phase): Machine {
    Machine(Table([run], None, BEFORE), phase)
  }

  function Joined(run: Run, phase: Phase): Machine {
    Machine(Table([run, LATER], None, AFTER), phase)
  }

  lemma First()
    ensures NextSecurity(BEFORE, 0) == Some(1) && NextSecurity(AFTER, 2) == None
  {
    assert 1 in BEFORE;
  }

  lemma FirstPlan()
    ensures PlanOf(BEFORE, BEGINNING) == Write(RowsOf(0, 20), HALFWAY)
  {
    First();
    assert Labelled(1, BEFORE[1][0..20]) == RowsOf(0, 20);
  }

  lemma SecondPlan()
    ensures PlanOf(AFTER, HALFWAY) == Write(RowsOf(21, 4), FINISHED)
    ensures PlanOf(AFTER, FINISHED) == Finish
  {
    assert Labelled(1, AFTER[1][20..24]) == RowsOf(21, 4);
    First();
  }

  const QUEUED := Alone(NewRun(Projection, 0, 1), Idle)
  const CLAIMED := Alone(NewRun(Projection, 0, 1).(status := LEASED, attempt := 1), Claimed(0, 0))

  lemma Claiming()
    ensures Goes(START, Mutate(BEFORE, 0, 1), QUEUED)
    ensures Goes(QUEUED, Claim(0, 0, 0), CLAIMED)
    ensures Goes(CLAIMED, CheckNewest, CLAIMED.(phase := Checked(0, 0)))
    ensures Goes(CLAIMED.(phase := Checked(0, 0)), Record, Alone(RunAt(LEASED, BEGINNING, []), Working(0, 0)))
  {
    assert Next(START, Mutate(BEFORE, 0, 1)).table.runs == QUEUED.table.runs;
    assert Next(QUEUED, Claim(0, 0, 0)).table.runs == CLAIMED.table.runs;
    assert !HasNewer(CLAIMED.table.runs, 0);
    assert Next(CLAIMED.(phase := Checked(0, 0)), Record).table.runs == [RunAt(LEASED, BEGINNING, [])];
  }

  const HALF := RunAt(LEASED, HALFWAY, RowsOf(0, 20))
  const FULL := RunAt(LEASED, FINISHED, RowsOf(0, 20) + RowsOf(21, 4))

  const STARTED := Alone(RunAt(LEASED, BEGINNING, []), Working(0, 0))

  lemma FirstRead()
    ensures Goes(STARTED, Choose, STARTED.(phase := Chosen(0, 0, Some(1))))
    ensures Goes(STARTED.(phase := Chosen(0, 0, Some(1))), ReadLedger,
                 STARTED.(phase := Prepared(0, 0, Write(RowsOf(0, 20), HALFWAY))))
  {
    First();
    FirstPlan();
  }

  lemma FirstChunk()
    ensures Goes(STARTED.(phase := Prepared(0, 0, Write(RowsOf(0, 20), HALFWAY))), Chunk(0, 1), Alone(HALF, Working(0, 0)))
  {
    assert [] + RowsOf(0, 20) == RowsOf(0, 20);
    assert [RunAt(LEASED, BEGINNING, [])][0 := HALF] == [HALF];
  }

  lemma Reversing()
    ensures Goes(Alone(HALF, Working(0, 0)), Mutate(AFTER, 0, 2), Joined(HALF, Working(0, 0)))
  {
    assert [HALF] + [LATER] == [HALF, LATER];
  }

  lemma SecondHalf()
    ensures var half, plan := Joined(HALF, Working(0, 0)), Write(RowsOf(21, 4), FINISHED);
      && Goes(half, Choose, half.(phase := Chosen(0, 0, Some(1))))
      && Goes(half.(phase := Chosen(0, 0, Some(1))), ReadLedger, half.(phase := Prepared(0, 0, plan)))
      && Goes(half.(phase := Prepared(0, 0, plan)), Chunk(0, 1), Joined(FULL, Working(0, 0)))
  {
    SecondPlan();
    assert DistinctKeys(RowsOf(0, 20) + RowsOf(21, 4));
    assert [HALF, LATER][0 := FULL] == [FULL, LATER];
  }

  const PUBLISHED := Machine(Table([FULL.(status := Completed), LATER], Some(0), AFTER), Idle)

  lemma Publishing()
    ensures Goes(Joined(FULL, Working(0, 0)), Choose, Joined(FULL, Chosen(0, 0, None)))
    ensures Goes(Joined(FULL, Chosen(0, 0, None)), ReadLedger, Joined(FULL, Prepared(0, 0, Finish)))
    ensures Goes(Joined(FULL, Prepared(0, 0, Finish)), PublishRun(0, 1), PUBLISHED)
  {
    First();
    assert [FULL, LATER][0 := FULL.(status := Completed)] == [FULL.(status := Completed), LATER];
  }

  function Opening(): seq<Step> {
    [Mutate(BEFORE, 0, 1)] + ([Claim(0, 0, 0)] + ([CheckNewest] + ([Record] + Rebuilding())))
  }

  function Rebuilding(): seq<Step> {
    [Choose] + ([ReadLedger] + ([Chunk(0, 1)] + ([Mutate(AFTER, 0, 2)] + Resuming())))
  }

  function Resuming(): seq<Step> {
    [Choose] + ([ReadLedger] + ([Chunk(0, 1)] + Finishing()))
  }

  function Finishing(): seq<Step> {
    [Choose] + ([ReadLedger] + ([PublishRun(0, 1)] + []))
  }

  lemma FinishingReaches()
    ensures Reaches(Joined(FULL, Working(0, 0)), Finishing(), PUBLISHED)
  {
    Publishing();
    ReachesFirst(Joined(FULL, Prepared(0, 0, Finish)), PublishRun(0, 1), PUBLISHED, [], PUBLISHED);
    ReachesFirst(Joined(FULL, Chosen(0, 0, None)), ReadLedger, Joined(FULL, Prepared(0, 0, Finish)), [PublishRun(0, 1)] + [], PUBLISHED);
    ReachesFirst(Joined(FULL, Working(0, 0)), Choose, Joined(FULL, Chosen(0, 0, None)), [ReadLedger] + ([PublishRun(0, 1)] + []), PUBLISHED);
  }

  lemma ResumingReaches()
    ensures Reaches(Joined(HALF, Working(0, 0)), Resuming(), PUBLISHED)
  {
    var half, plan := Joined(HALF, Working(0, 0)), Write(RowsOf(21, 4), FINISHED);
    SecondHalf();
    FinishingReaches();
    ReachesFirst(half.(phase := Prepared(0, 0, plan)), Chunk(0, 1), Joined(FULL, Working(0, 0)), Finishing(), PUBLISHED);
    ReachesFirst(half.(phase := Chosen(0, 0, Some(1))), ReadLedger, half.(phase := Prepared(0, 0, plan)), [Chunk(0, 1)] + Finishing(), PUBLISHED);
    ReachesFirst(half, Choose, half.(phase := Chosen(0, 0, Some(1))), [ReadLedger] + ([Chunk(0, 1)] + Finishing()), PUBLISHED);
  }

  lemma RebuildingReaches()
    ensures Reaches(Alone(RunAt(LEASED, BEGINNING, []), Working(0, 0)), Rebuilding(), PUBLISHED)
  {
    var start, plan := STARTED, Write(RowsOf(0, 20), HALFWAY);
    var s4 := [Mutate(AFTER, 0, 2)] + Resuming();
    FirstRead();
    FirstChunk();
    Reversing();
    ResumingReaches();
    ReachesFirst(Alone(HALF, Working(0, 0)), Mutate(AFTER, 0, 2), Joined(HALF, Working(0, 0)), Resuming(), PUBLISHED);
    ReachesFirst(start.(phase := Prepared(0, 0, plan)), Chunk(0, 1), Alone(HALF, Working(0, 0)), s4, PUBLISHED);
    ReachesFirst(start.(phase := Chosen(0, 0, Some(1))), ReadLedger, start.(phase := Prepared(0, 0, plan)), [Chunk(0, 1)] + s4, PUBLISHED);
    ReachesFirst(start, Choose, start.(phase := Chosen(0, 0, Some(1))), [ReadLedger] + ([Chunk(0, 1)] + s4), PUBLISHED);
  }

  lemma OpeningReaches()
    ensures Reaches(START, Opening(), PUBLISHED)
  {
    Claiming();
    RebuildingReaches();
    var checked := CLAIMED.(phase := Checked(0, 0));
    ReachesFirst(checked, Record, Alone(RunAt(LEASED, BEGINNING, []), Working(0, 0)), Rebuilding(), PUBLISHED);
    ReachesFirst(CLAIMED, CheckNewest, checked, [Record] + Rebuilding(), PUBLISHED);
    ReachesFirst(QUEUED, Claim(0, 0, 0), CLAIMED, [CheckNewest] + ([Record] + Rebuilding()), PUBLISHED);
    ReachesFirst(START, Mutate(BEFORE, 0, 1), QUEUED, [Claim(0, 0, 0)] + ([CheckNewest] + ([Record] + Rebuilding())), PUBLISHED);
  }

  lemma RowsDiffer()
    ensures Written(1, Output(20, 0)) in AllRows(AFTER) && Written(1, Output(20, 0)) !in FULL.rows
    ensures Written(1, Output(0, 0)) in FULL.rows && Written(1, Output(0, 0)) !in AllRows(AFTER)
  {
    AllRowsMembers(AFTER);
    assert AFTER[1][19] == Output(20, 0);
    assert FULL.rows[0] == Written(1, Output(0, 0));
    assert forall i :: 0 <= i < 24 ==> FULL.rows[i].output.key != 20;
    assert forall i :: 0 <= i < 24 ==> AFTER[1][i].key != 0;
  }

  lemma StillPending()
    ensures PendingRun(PUBLISHED.table, 2) == Some(1)
  {
    assert Newer(PUBLISHED.table.runs, 0, 1);
    assert CountsAsPending(PUBLISHED.table, 1);
  }

  /** The published run lacks a row of the ledger and keeps one the ledger no longer has; the pending flag is on. */
  lemma OutputSkipped()
    ensures Runs(START, Opening()) && Exec(START, Opening()) == PUBLISHED
    ensures PUBLISHED.table.published == Some(0) && PUBLISHED.table.ledger == AFTER && PUBLISHED.table.runs[0].rows == FULL.rows
    ensures Written(1, Output(20, 0)) in AllRows(AFTER) && Written(1, Output(20, 0)) !in FULL.rows
    ensures Written(1, Output(0, 0)) in FULL.rows && Written(1, Output(0, 0)) !in AllRows(AFTER)
    ensures PendingRun(PUBLISHED.table, 2) == Some(1)
  {
    OpeningReaches();
    RowsDiffer();
    StillPending();
  }
}
