/** A mutation stamped before the published run: the flag stays off, though the published rows are not the ledger's. */
module BackwardClock {
  import opened Sequences
  import opened RunTable
  import opened ExecutorProtocol
  import opened RebuildRows

  const BOUGHT: Projections := map[1 := [Output(0, 0)]]

  const FIRST := NewRun(Projection, 10, 1)
  const LEASED := FIRST.(status := Running(0, LEASE_DURATION_MS), attempt := 1)
  const TRIED := LEASED.(stallMark := Some(BEGINNING))
  const EARLIER := NewRun(Projection, 5, 2)

  function Alone(run: Run, phase: Phase): Machine {
    Machine(Table([run], None, map[]), phase)
  }

  const PUBLISHED := Machine(Table([TRIED.(status := Completed)], Some(0), map[]), Idle)
  const MUTATED := Machine(Table([TRIED.(status := Completed), EARLIER], Some(0), BOUGHT), Idle)

  lemma Claiming()
    ensures Goes(START, Mutate(map[], 10, 1), Alone(FIRST, Idle))
    ensures Goes(Alone(FIRST, Idle), Claim(0, 0, 0), Alone(LEASED, Claimed(0, 0)))
    ensures Goes(Alone(LEASED, Claimed(0, 0)), CheckNewest, Alone(LEASED, Checked(0, 0)))
    ensures Goes(Alone(LEASED, Checked(0, 0)), Record, Alone(TRIED, Working(0, 0)))
  {
    assert Next(START, Mutate(map[], 10, 1)).table.runs == [FIRST];
    assert Next(Alone(FIRST, Idle), Claim(0, 0, 0)).table.runs == [LEASED];
    assert !HasNewer([LEASED], 0);
    assert Next(Alone(LEASED, Checked(0, 0)), Record).table.runs == [TRIED];
  }

  lemma Publishing()
    ensures Goes(Alone(TRIED, Working(0, 0)), Choose, Alone(TRIED, Chosen(0, 0, None)))
    ensures Goes(Alone(TRIED, Chosen(0, 0, None)), ReadLedger, Alone(TRIED, Prepared(0, 0, Finish)))
    ensures Goes(Alone(TRIED, Prepared(0, 0, Finish)), PublishRun(0, 1), PUBLISHED)
    ensures Goes(PUBLISHED, Mutate(BOUGHT, 5, 2), MUTATED)
  {
    assert [TRIED][0 := TRIED.(status := Completed)] == [TRIED.(status := Completed)];
    assert [TRIED.(status := Completed)] + [EARLIER] == [TRIED.(status := Completed), EARLIER];
  }

  function Rebuilding(): seq<Step> {
    [Choose] + ([ReadLedger] + ([PublishRun(0, 1)] + ([Mutate(BOUGHT, 5, 2)] + [])))
  }

  function History(): seq<Step> {
    [Mutate(map[], 10, 1)] + ([Claim(0, 0, 0)] + ([CheckNewest] + ([Record] + Rebuilding())))
  }

  lemma RebuildingReaches()
    ensures Reaches(Alone(TRIED, Working(0, 0)), Rebuilding(), MUTATED)
  {
    var last := [Mutate(BOUGHT, 5, 2)] + [];
    Publishing();
    ReachesFirst(PUBLISHED, Mutate(BOUGHT, 5, 2), MUTATED, [], MUTATED);
    ReachesFirst(Alone(TRIED, Prepared(0, 0, Finish)), PublishRun(0, 1), PUBLISHED, last, MUTATED);
    ReachesFirst(Alone(TRIED, Chosen(0, 0, None)), ReadLedger, Alone(TRIED, Prepared(0, 0, Finish)), [PublishRun(0, 1)] + last, MUTATED);
    ReachesFirst(Alone(TRIED, Working(0, 0)), Choose, Alone(TRIED, Chosen(0, 0, None)), [ReadLedger] + ([PublishRun(0, 1)] + last), MUTATED);
  }

  lemma HistoryReaches()
    ensures Reaches(START, History(), MUTATED)
  {
    var checked := Alone(LEASED, Checked(0, 0));
    Claiming();
    RebuildingReaches();
    ReachesFirst(checked, Record, Alone(TRIED, Working(0, 0)), Rebuilding(), MUTATED);
    ReachesFirst(Alone(LEASED, Claimed(0, 0)), CheckNewest, checked, [Record] + Rebuilding(), MUTATED);
    ReachesFirst(Alone(FIRST, Idle), Claim(0, 0, 0), Alone(LEASED, Claimed(0, 0)), [CheckNewest] + ([Record] + Rebuilding()), MUTATED);
    ReachesFirst(START, Mutate(map[], 10, 1), Alone(FIRST, Idle), [Claim(0, 0, 0)] + ([CheckNewest] + ([Record] + Rebuilding())), MUTATED);
  }

  /** The flag is off, and the published run lacks the one row the ledger projects to. */
  lemma MutationUnnoticed()
    ensures Runs(START, History()) && Exec(START, History()) == MUTATED
    ensures PendingRun(MUTATED.table, 2) == None && MUTATED.table.published == Some(0)
    ensures MUTATED.table.runs[0].rows == [] && Written(1, Output(0, 0)) in AllRows(MUTATED.table.ledger)
  {
    HistoryReaches();
    AllRowsMembers(BOUGHT);
    assert BOUGHT[1][0] == Output(0, 0);
    assert !Newer(MUTATED.table.runs, 0, 1) && !Newer(MUTATED.table.runs, 0, 0);
  }
}
