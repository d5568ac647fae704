/** What a rebuild writes, compared with what the ledger projects to while the ledger goes on changing. */
module RebuildRows {
  import opened Sequences
  import opened RunTable
  import opened ExecutorProtocol
  import opened ClaimBounds

  // All rows the ledger projects to, and the part of them behind a checkpoint.

  /** Rows of the securities before the k-th, in order. */
  function RowsBelow(ledger: Projections, k: nat): seq<Written> {
    if k == 0 then [] else RowsBelow(ledger, k - 1) + Labelled(k - 1, OutputsOf(ledger, k - 1))
  }

  function Bound(ledger: Projections): (b: nat)
    ensures forall s :: s in ledger ==> s < b
  {
    var securities := set s | s in ledger :: s as int;
    var last := MaxOf(securities);
    assert forall s :: s in ledger ==> s as int in securities;
    if last.Some? then last.value + 1 else 0
  }

  function AllRows(ledger: Projections): seq<Written> {
    RowsBelow(ledger, Bound(ledger))
  }

  /** Finished securities whole, and the active one up to the offset. */
  function Behind(ledger: Projections, c: Checkpoint): seq<Written> {
    RowsBelow(ledger, Frontier(c))
    + if c.active.None? then []
      else
        var outputs := OutputsOf(ledger, c.active.value);
        Labelled(c.active.value, outputs[..Upto(c.offset, |outputs|)])
  }

  /** The run has written exactly what the ledger has behind its checkpoint. */
  ghost predicate Aligned(ledger: Projections, run: Run) {
    run.rows == Behind(ledger, run.checkpoint)
  }

  /** The same rows under the same keys, in whatever order. */
  ghost predicate Matches(ledger: Projections, run: Run) {
    multiset(run.rows) == multiset(Behind(ledger, run.checkpoint))
  }

  lemma {:induction false} BelowMembers(ledger: Projections, k: nat)
    ensures forall w :: w in RowsBelow(ledger, k) <==> w.security < k && w.output in OutputsOf(ledger, w.security)
  {
    if k > 0 {
      BelowMembers(ledger, k - 1);
      var last := Labelled(k - 1, OutputsOf(ledger, k - 1));
      forall w ensures w in last <==> w.security == k - 1 && w.output in OutputsOf(ledger, k - 1) {
        if w.security == k - 1 && w.output in OutputsOf(ledger, k - 1) {
          var i :| 0 <= i < |OutputsOf(ledger, k - 1)| && OutputsOf(ledger, k - 1)[i] == w.output;
          assert last[i] == w;
        }
      }
    }
  }

  /** All rows are the outputs of every security, and nothing else. */
  lemma AllRowsMembers(ledger: Projections)
    ensures forall w :: w in AllRows(ledger) <==> w.security in ledger && w.output in ledger[w.security]
  {
    BelowMembers(ledger, Bound(ledger));
  }

  lemma {:induction false} NothingBetween(ledger: Projections, a: nat, b: nat)
    requires a <= b && forall s :: s in ledger ==> s < a || b <= s
    ensures RowsBelow(ledger, a) == RowsBelow(ledger, b)
    decreases b
  {
    if a < b {
      NothingBetween(ledger, a, b - 1);
      assert Labelled(b - 1, OutputsOf(ledger, b - 1)) == [];
    }
  }

  lemma LabelledParts(security: nat, outputs: seq<Output>, from: nat, to: nat)
    requires from <= to <= |outputs|
    ensures Labelled(security, outputs[..to]) == Labelled(security, outputs[..from]) + Labelled(security, outputs[from..to])
  {
    assert outputs[..to] == outputs[..from] + outputs[from..to];
  }

  predicate OffsetSound(c: Checkpoint) {
    c.active.None? ==> c.offset == 0
  }

  lemma BehindNow(ledger: Projections, c: Checkpoint, s: nat)
    requires OffsetSound(c) && Frontier(c) <= s && (c.active.Some? ==> c.active.value == s)
    requires forall k :: k in ledger ==> k < Frontier(c) || s <= k
    ensures var outputs := OutputsOf(ledger, s);
      Behind(ledger, c) == RowsBelow(ledger, s) + Labelled(s, outputs[..Upto(c.offset, |outputs|)])
  {
    NothingBetween(ledger, Frontier(c), s);
  }

  /** The checkpoint behind a chunk, by the numbers alone. */
  function After(s: nat, outputs: nat, c: Checkpoint): Checkpoint {
    if c.offset + ChunkSize(outputs, c.offset) >= outputs then Checkpoint(Some(s), None, 0)
    else Checkpoint(c.cursor, Some(s), c.offset + ChunkSize(outputs, c.offset))
  }

  lemma NextIsAfter(s: nat, outputs: seq<Output>, c: Checkpoint)
    ensures ChunkOf(s, outputs, c).next == After(s, |outputs|, c) && OffsetSound(After(s, |outputs|, c))
  {
  }

  lemma BehindAfter(ledger: Projections, c: Checkpoint, s: nat)
    ensures var outputs := OutputsOf(ledger, s);
      Behind(ledger, After(s, |outputs|, c)) == RowsBelow(ledger, s) + Labelled(s, outputs[..ChunkEnd(|outputs|, c.offset)])
  {
    var outputs := OutputsOf(ledger, s);
    ChunkEnds(|outputs|, c.offset);
    if c.offset + ChunkSize(|outputs|, c.offset) >= |outputs| {
      BehindFinished(ledger, s);
      WholeSlice(outputs);
    } else {
      BehindWithin(ledger, c.cursor, s, ChunkEnd(|outputs|, c.offset));
    }
  }

  function ChunkEnd(outputs: nat, offset: nat): nat {
    Upto(Upto(offset, outputs) + OUTPUTS_PER_CHUNK, outputs)
  }

  function ChunkSize(outputs: nat, offset: nat): nat {
    ChunkEnd(outputs, offset) - Upto(offset, outputs)
  }

  /** A chunk that does not reach the end of the outputs starts at the offset. */
  lemma ChunkEnds(outputs: nat, offset: nat)
    ensures if offset + ChunkSize(outputs, offset) >= outputs then ChunkEnd(outputs, offset) == outputs
            else offset + ChunkSize(outputs, offset) == ChunkEnd(outputs, offset) == Upto(ChunkEnd(outputs, offset), outputs)
  {
  }

  lemma WholeSlice<T>(s: seq<T>)
    ensures s[..|s|] == s
  {
  }

  lemma BehindFinished(ledger: Projections, s: nat)
    ensures Behind(ledger, Checkpoint(Some(s), None, 0)) == RowsBelow(ledger, s) + Labelled(s, OutputsOf(ledger, s))
  {
    BehindIdle(ledger, Checkpoint(Some(s), None, 0), s + 1);
    RowsBelowNext(ledger, s);
  }

  lemma BehindIdle(ledger: Projections, c: Checkpoint, frontier: nat)
    requires c.active.None? && frontier == Frontier(c)
    ensures Behind(ledger, c) == RowsBelow(ledger, frontier)
  {
    NothingBehind(RowsBelow(ledger, frontier));
  }

  lemma NothingBehind<T>(rows: seq<T>)
    ensures rows + [] == rows
  {
  }

  lemma RowsBelowNext(ledger: Projections, k: nat)
    ensures RowsBelow(ledger, k + 1) == RowsBelow(ledger, k) + Labelled(k, OutputsOf(ledger, k))
  {
  }

  lemma BehindWithin(ledger: Projections, cursor: Option<nat>, s: nat, offset: nat)
    ensures var outputs := OutputsOf(ledger, s);
      Behind(ledger, Checkpoint(cursor, Some(s), offset)) == RowsBelow(ledger, s) + Labelled(s, outputs[..Upto(offset, |outputs|)])
  {
  }

  lemma ChunkExtends(ledger: Projections, c: Checkpoint, s: nat)
    requires OffsetSound(c) && Frontier(c) <= s && (c.active.Some? ==> c.active.value == s)
    requires forall k :: k in ledger ==> k < Frontier(c) || s <= k
    ensures var plan := ChunkOf(s, OutputsOf(ledger, s), c);
      OffsetSound(plan.next) && Behind(ledger, plan.next) == Behind(ledger, c) + plan.rows
  {
    var outputs := OutputsOf(ledger, s);
    var from := Upto(c.offset, |outputs|);
    var to := Upto(from + OUTPUTS_PER_CHUNK, |outputs|);
    BehindNow(ledger, c, s);
    NextIsAfter(s, outputs, c);
    BehindAfter(ledger, c, s);
    LabelledParts(s, outputs, from, to);
    Regroup(RowsBelow(ledger, s), Labelled(s, outputs[..from]), Labelled(s, outputs[from..to]), Labelled(s, outputs[..to]));
  }

  lemma Regroup<T>(a: seq<T>, b: seq<T>, c: seq<T>, both: seq<T>)
    requires both == b + c
    ensures a + both == (a + b) + c
  {
  }

  /** A plan made from the ledger extends what is behind the checkpoint, and finishes only when nothing is left. */
  lemma PlanExtends(ledger: Projections, c: Checkpoint)
    requires OffsetSound(c)
    ensures var plan := PlanOf(ledger, c);
      if plan.Write? then OffsetSound(plan.next) && Behind(ledger, plan.next) == Behind(ledger, c) + plan.rows
      else Behind(ledger, c) == AllRows(ledger)
  {
    var current := CurrentSecurity(ledger, c);
    if current.None? {
      if Frontier(c) <= Bound(ledger) {
        NothingBetween(ledger, Frontier(c), Bound(ledger));
      } else {
        NothingBetween(ledger, Bound(ledger), Frontier(c));
      }
      assert Behind(ledger, c) == RowsBelow(ledger, Frontier(c));
    } else {
      ChunkExtends(ledger, c, current.value);
    }
  }

  // One call, with the ledger standing still.

  /** A rebuild call on the row has read something of the ledger and not yet written. */
  predicate Planning(m: Machine, i: nat) {
    (m.phase.Chosen? || m.phase.Prepared?) && m.phase.run == i
  }

  /** What a call in progress has read is what the ledger would give now, and a completed run has nothing left. */
  ghost predicate Current(m: Machine, i: nat)
    requires i < |m.table.runs|
  {
    && (m.phase.Chosen? && m.phase.run == i ==>
          m.phase.security == CurrentSecurity(m.table.ledger, m.table.runs[i].checkpoint))
    && (m.phase.Prepared? && m.phase.run == i ==> m.phase.plan == PlanOf(m.table.ledger, m.table.runs[i].checkpoint))
    && (m.table.runs[i].status.Completed? ==> PlanOf(m.table.ledger, m.table.runs[i].checkpoint).Finish?)
  }

  /** Everything the row results rest on that no mutation can spoil. */
  ghost predicate Orderly(m: Machine) {
    && Steady(m)
    && (forall i :: 0 <= i < |m.table.runs| ==> OffsetSound(m.table.runs[i].checkpoint) && DistinctKeys(m.table.runs[i].rows))
    && (m.phase.Prepared? && m.phase.plan.Write? ==> OffsetSound(m.phase.plan.next))
  }

  lemma OrderlyStep(m: Machine, step: Step)
    requires Orderly(m) && Enabled(m, step)
    ensures Orderly(Next(m, step))
  {
    SteadyStep(m, step);
  }

  lemma SameSuffix<T>(a: seq<T>, b: seq<T>, c: seq<T>)
    ensures a + c == b + c <==> a == b
    ensures multiset(a + c) == multiset(b + c) <==> multiset(a) == multiset(b)
  {
    assert multiset(a + c) - multiset(c) == multiset(a) && multiset(b + c) - multiset(c) == multiset(b);
    if a + c == b + c {
      assert a == (a + c)[..|a|] && b == (b + c)[..|b|];
    }
  }

  lemma RowsKept(m: Machine, step: Step, i: nat)
    requires Enabled(m, step) && i < |m.table.runs| && !(step.Chunk? && m.phase.run == i)
    ensures i < |Next(m, step).table.runs|
    ensures Next(m, step).table.runs[i].rows == m.table.runs[i].rows
    ensures Next(m, step).table.runs[i].checkpoint == m.table.runs[i].checkpoint
    ensures Next(m, step).table.runs[i].status.Completed? ==>
      m.table.runs[i].status.Completed? || (step.PublishRun? && m.phase.run == i)
    ensures !step.Mutate? ==> Next(m, step).table.ledger == m.table.ledger
  {
  }

  /** While the ledger stands still no call makes an aligned run misaligned, nor a misaligned one aligned. */
  lemma AlignedStep(m: Machine, step: Step, i: nat)
    requires Orderly(m) && Enabled(m, step) && !step.Mutate? && i < |m.table.runs| && Current(m, i)
    ensures i < |Next(m, step).table.runs| && Current(Next(m, step), i)
    ensures Next(m, step).table.ledger == m.table.ledger
    ensures Aligned(m.table.ledger, Next(m, step).table.runs[i]) <==> Aligned(m.table.ledger, m.table.runs[i])
    ensures Matches(m.table.ledger, Next(m, step).table.runs[i]) <==> Matches(m.table.ledger, m.table.runs[i])
  {
    if step.Chunk? && m.phase.run == i {
      AlignedChunk(m, step);
    } else {
      RowsKept(m, step, i);
    }
  }

  lemma AlignedChunk(m: Machine, step: Step)
    requires Orderly(m) && Enabled(m, step) && step.Chunk? && Current(m, m.phase.run)
    ensures var i, n := m.phase.run, Next(m, step);
      && i < |n.table.runs| && Current(n, i) && n.table.ledger == m.table.ledger
      && (Aligned(m.table.ledger, n.table.runs[i]) <==> Aligned(m.table.ledger, m.table.runs[i]))
      && (Matches(m.table.ledger, n.table.runs[i]) <==> Matches(m.table.ledger, m.table.runs[i]))
  {
    var run := m.table.runs[m.phase.run];
    PlanExtends(m.table.ledger, run.checkpoint);
    SameSuffix(run.rows, Behind(m.table.ledger, run.checkpoint), m.phase.plan.rows);
  }

  ghost predicate LedgerStill(steps: seq<Step>) {
    forall k :: 0 <= k < |steps| ==> !steps[k].Mutate?
  }

  lemma {:induction false} AlignedRun(m: Machine, steps: seq<Step>, i: nat)
    requires Orderly(m) && Runs(m, steps) && LedgerStill(steps) && i < |m.table.runs| && Current(m, i)
    ensures Orderly(Exec(m, steps)) && Exec(m, steps).table.ledger == m.table.ledger
    ensures i < |Exec(m, steps).table.runs| && Current(Exec(m, steps), i)
    ensures Aligned(m.table.ledger, Exec(m, steps).table.runs[i]) <==> Aligned(m.table.ledger, m.table.runs[i])
    ensures Matches(m.table.ledger, Exec(m, steps).table.runs[i]) <==> Matches(m.table.ledger, m.table.runs[i])
    decreases steps
  {
    if steps != [] {
      AlignedStep(m, steps[0], i);
      OrderlyStep(m, steps[0]);
      AlignedRun(Next(m, steps[0]), steps[1..], i);
    }
  }

  /** The rows written are exactly what the ledger projects to: none missing, none left over, none twice. */
  ghost predicate Exact(t: Table, i: nat)
    requires i < |t.runs|
  {
    multiset(t.runs[i].rows) == multiset(AllRows(t.ledger))
  }

  /** From the last mutation on: the run ends up exact if and only if the rows it had by then are the ledger's. */
  lemma CompletedExactlyIff(m: Machine, steps: seq<Step>, i: nat)
    requires Orderly(m) && Runs(m, steps) && LedgerStill(steps) && i < |m.table.runs| && Current(m, i)
    requires i < |Exec(m, steps).table.runs| && Exec(m, steps).table.runs[i].status.Completed?
    ensures Exact(Exec(m, steps).table, i) <==> Matches(m.table.ledger, m.table.runs[i])
  {
    AlignedRun(m, steps, i);
    PlanExtends(m.table.ledger, Exec(m, steps).table.runs[i].checkpoint);
  }

  /** A run that has written nothing yet, and no plan made for it. */
  ghost predicate Untouched(m: Machine, i: nat)
    requires i < |m.table.runs|
  {
    && m.table.runs[i].rows == [] && m.table.runs[i].checkpoint == BEGINNING
    && !m.table.runs[i].status.Completed? && !Planning(m, i)
  }

  /** With no mutation between a run's first chunk and its completion its rows are exactly the outputs, once each. */
  lemma CompletedUndisturbed(m: Machine, steps: seq<Step>, i: nat)
    requires Orderly(m) && Runs(m, steps) && LedgerStill(steps) && i < |m.table.runs| && Untouched(m, i)
    requires i < |Exec(m, steps).table.runs| && Exec(m, steps).table.runs[i].status.Completed?
    ensures Exec(m, steps).table.runs[i].rows == AllRows(Exec(m, steps).table.ledger)
    ensures DistinctKeys(AllRows(Exec(m, steps).table.ledger))
  {
    AlignedRun(m, steps, i);
    PlanExtends(m.table.ledger, Exec(m, steps).table.runs[i].checkpoint);
  }

  /**
   * A mutation between two chunks, and none after it: a run that had the old ledger's rows ends up exact if and only
   * if the new ledger has the same rows behind the run's checkpoint, in whatever order.
   */
  lemma DisturbedExactlyIff(m: Machine, mutation: Step, steps: seq<Step>, i: nat)
    requires Orderly(m) && mutation.Mutate? && i < |m.table.runs| && Matches(m.table.ledger, m.table.runs[i])
    requires !m.table.runs[i].status.Completed? && !Planning(m, i)
    requires Runs(Next(m, mutation), steps) && LedgerStill(steps)
    requires var end := Exec(Next(m, mutation), steps); i < |end.table.runs| && end.table.runs[i].status.Completed?
    ensures Exact(Exec(Next(m, mutation), steps).table, i) <==>
      multiset(Behind(mutation.ledger, m.table.runs[i].checkpoint)) == multiset(Behind(m.table.ledger, m.table.runs[i].checkpoint))
  {
    OrderlyStep(m, mutation);
    RowsKept(m, mutation, i);
    CompletedExactlyIff(Next(m, mutation), steps, i);
  }

  // A mutation between a call's reads and its write.

  /** What the call in progress is going to write. */
  function PlanInHand(m: Machine, i: nat): Plan
    requires i < |m.table.runs| && Planning(m, i)
  {
    if m.phase.Prepared? then m.phase.plan else PlanFor(m.table.ledger, m.table.runs[i].checkpoint, m.phase.security)
  }

  /** With it written, the run has the ledger's rows; a plan to finish leaves the rows as they are. */
  ghost predicate PlanFits(m: Machine, i: nat)
    requires i < |m.table.runs| && Planning(m, i)
  {
    match PlanInHand(m, i)
    case Write(rows, next) => multiset(m.table.runs[i].rows + rows) == multiset(Behind(m.table.ledger, next))
    case Finish => multiset(m.table.runs[i].rows) == multiset(AllRows(m.table.ledger))
  }

  /** The call in progress gets to its write. */
  predicate CallWrites(m: Machine, steps: seq<Step>, i: nat)
    requires Runs(m, steps)
    decreases steps
  {
    steps != [] && Planning(m, i)
    && (steps[0].Chunk? || steps[0].PublishRun? || CallWrites(Next(m, steps[0]), steps[1..], i))
  }

  lemma {:induction false} LedgerKept(m: Machine, steps: seq<Step>)
    requires Runs(m, steps) && LedgerStill(steps)
    ensures Exec(m, steps).table.ledger == m.table.ledger
    decreases steps
  {
    if steps != [] {
      LedgerKept(Next(m, steps[0]), steps[1..]);
    }
  }

  /** A call goes on without writing: its plan, its row and the ledger are as they were. */
  lemma PlanKept(m: Machine, step: Step, i: nat)
    requires Orderly(m) && Enabled(m, step) && !step.Mutate? && i < |m.table.runs| && Planning(m, i)
    requires !step.Chunk? && !step.PublishRun?
    ensures i < |Next(m, step).table.runs|
    ensures Matches(m.table.ledger, Next(m, step).table.runs[i]) <==> Matches(m.table.ledger, m.table.runs[i])
    ensures Next(m, step).table.ledger == m.table.ledger
    ensures Next(m, step).table.runs[i].status.Completed? ==> m.table.runs[i].status.Completed?
    ensures Planning(Next(m, step), i) ==> (PlanFits(Next(m, step), i) <==> PlanFits(m, i))
  {
    RowsKept(m, step, i);
  }

  lemma PlanWritten(m: Machine, step: Step, i: nat)
    requires Orderly(m) && Enabled(m, step) && step.Chunk? && i < |m.table.runs| && Planning(m, i)
    requires !m.table.runs[i].status.Completed?
    ensures i < |Next(m, step).table.runs| && Current(Next(m, step), i) && Next(m, step).table.ledger == m.table.ledger
    ensures Matches(m.table.ledger, Next(m, step).table.runs[i]) <==> PlanFits(m, i)
  {
  }

  lemma PlanFinished(m: Machine, steps: seq<Step>, i: nat)
    requires Orderly(m) && Runs(m, steps) && LedgerStill(steps) && steps != [] && steps[0].PublishRun?
    requires i < |m.table.runs| && Planning(m, i)
    ensures i < |Exec(m, steps).table.runs|
    ensures Exact(Exec(m, steps).table, i) <==> PlanFits(m, i)
  {
    var n := Next(m, steps[0]);
    OrderlyStep(m, steps[0]);
    EndedStays(n, steps[1..], i);
    LedgerKept(m, steps);
    assert n.table.runs[i].rows == m.table.runs[i].rows;
  }

  /** Ending up exact comes down to the call's write, if it gets there, and to the rows before it otherwise. */
  ghost predicate DecidedByCall(m: Machine, steps: seq<Step>, i: nat)
    requires Runs(m, steps) && i < |m.table.runs| && Planning(m, i) && i < |Exec(m, steps).table.runs|
  {
    Exact(Exec(m, steps).table, i) <==>
      if CallWrites(m, steps, i) then PlanFits(m, i) else Matches(m.table.ledger, m.table.runs[i])
  }

  lemma CallWritten(m: Machine, steps: seq<Step>, i: nat)
    requires Orderly(m) && Runs(m, steps) && LedgerStill(steps) && i < |m.table.runs| && Planning(m, i)
    requires steps != [] && steps[0].Chunk? && !m.table.runs[i].status.Completed?
    requires i < |Exec(m, steps).table.runs| && Exec(m, steps).table.runs[i].status.Completed?
    ensures DecidedByCall(m, steps, i)
  {
    OrderlyStep(m, steps[0]);
    PlanWritten(m, steps[0], i);
    CompletedExactlyIff(Next(m, steps[0]), steps[1..], i);
  }

  lemma CallGoesOn(m: Machine, steps: seq<Step>, i: nat)
    requires Orderly(m) && Runs(m, steps) && LedgerStill(steps) && i < |m.table.runs| && Planning(m, i) && steps != []
    requires !steps[0].Chunk? && !steps[0].PublishRun?
    requires i < |Next(m, steps[0]).table.runs| && i < |Exec(m, steps).table.runs|
    requires var n := Next(m, steps[0]);
      if Planning(n, i) then DecidedByCall(n, steps[1..], i)
      else Exact(Exec(n, steps[1..]).table, i) <==> Matches(n.table.ledger, n.table.runs[i])
    ensures DecidedByCall(m, steps, i)
  {
    PlanKept(m, steps[0], i);
  }

  /**
   * Whatever the call in progress has read, stale or not: the run ends up exact if and only if, should the call get to
   * its write, what it wrote by then is the ledger's, and otherwise what it had written before is.
   */
  lemma {:induction false} InCallExactlyIff(m: Machine, steps: seq<Step>, i: nat)
    requires Orderly(m) && Runs(m, steps) && LedgerStill(steps) && i < |m.table.runs| && Planning(m, i)
    requires !m.table.runs[i].status.Completed?
    requires i < |Exec(m, steps).table.runs| && Exec(m, steps).table.runs[i].status.Completed?
    ensures DecidedByCall(m, steps, i)
    decreases steps
  {
    if steps[0].Chunk? {
      CallWritten(m, steps, i);
    } else if steps[0].PublishRun? {
      PlanFinished(m, steps, i);
    } else {
      CallStep(m, steps, i);
      if Planning(Next(m, steps[0]), i) {
        InCallExactlyIff(Next(m, steps[0]), steps[1..], i);
      }
      CallGoesOn(m, steps, i);
    }
  }

  /** Another step of the call, or the end of it without a write. */
  lemma CallStep(m: Machine, steps: seq<Step>, i: nat)
    requires Orderly(m) && Runs(m, steps) && LedgerStill(steps) && i < |m.table.runs| && Planning(m, i)
    requires !m.table.runs[i].status.Completed? && steps != [] && !steps[0].Chunk? && !steps[0].PublishRun?
    requires i < |Exec(m, steps).table.runs| && Exec(m, steps).table.runs[i].status.Completed?
    ensures var n := Next(m, steps[0]);
      && Orderly(n) && Runs(n, steps[1..]) && LedgerStill(steps[1..]) && Exec(n, steps[1..]) == Exec(m, steps)
      && i < |n.table.runs| && !n.table.runs[i].status.Completed?
      && (!Planning(n, i) ==> (Exact(Exec(n, steps[1..]).table, i) <==> Matches(n.table.ledger, n.table.runs[i])))
  {
    OrderlyStep(m, steps[0]);
    PlanKept(m, steps[0], i);
    if !Planning(Next(m, steps[0]), i) {
      CompletedExactlyIff(Next(m, steps[0]), steps[1..], i);
    }
  }

  /** So for a mutation that falls between a call's reads and its write, the new ledger decides by both halves. */
  lemma DisturbedInCallIff(m: Machine, mutation: Step, steps: seq<Step>, i: nat)
    requires Orderly(m) && mutation.Mutate? && i < |m.table.runs| && Planning(m, i) && !m.table.runs[i].status.Completed?
    requires Runs(Next(m, mutation), steps) && LedgerStill(steps)
    requires var end := Exec(Next(m, mutation), steps); i < |end.table.runs| && end.table.runs[i].status.Completed?
    ensures var after := Next(m, mutation);
      i < |after.table.runs| && Planning(after, i) && after.table.ledger == mutation.ledger
      && after.table.runs[i] == m.table.runs[i]
      && DecidedByCall(after, steps, i)
  {
    OrderlyStep(m, mutation);
    InCallExactlyIff(Next(m, mutation), steps, i);
  }

  // Every history: what is shown as up to date is.

  /** The clock a mutation's run is stamped with is not behind that of any run queued before. */
  ghost predicate Forward(m: Machine, step: Step) {
    step.Mutate? ==> forall i :: 0 <= i < |m.table.runs| ==> m.table.runs[i].createdAt <= step.createdAt
  }

  ghost predicate ForwardRun(m: Machine, steps: seq<Step>)
    requires Runs(m, steps)
    decreases steps
  {
    steps != [] ==> Forward(m, steps[0]) && ForwardRun(Next(m, steps[0]), steps[1..])
  }

  /** A run without a newer one has written what the ledger has behind its checkpoint, and plans by the ledger. */
  ghost predicate NewestAligned(m: Machine) {
    forall i: nat :: IsNewest(m.table, i) ==> Aligned(m.table.ledger, m.table.runs[i]) && Current(m, i)
  }

  /** A mutation leaves no earlier run the newest. */
  lemma MutationQueuesNewest(m: Machine, step: Step, i: nat)
    requires step.Mutate? && Forward(m, step) && i < |m.table.runs| && m.table.runs[i].pipeline == Projection
    ensures HasNewer(Next(m, step).table.runs, i)
  {
    var runs := Next(m, step).table.runs;
    assert Newer(runs, i, |m.table.runs|);
  }

  lemma NewRunAligned(m: Machine, step: Step)
    requires Orderly(m) && Enabled(m, step) && (step.Queue? || step.Mutate?)
    ensures var n := Next(m, step); var i := |m.table.runs|;
      i < |n.table.runs| && Aligned(n.table.ledger, n.table.runs[i]) && Current(n, i)
  {
    assert Behind(Next(m, step).table.ledger, BEGINNING) == [];
  }

  lemma NewestAlignedStep(m: Machine, step: Step)
    requires Orderly(m) && NewestAligned(m) && Enabled(m, step) && Forward(m, step)
    ensures NewestAligned(Next(m, step))
  {
    var n := Next(m, step);
    StepKeepsOrder(m, step);
    OrderKept(m.table.runs, n.table.runs);
    forall i: nat | IsNewest(n.table, i) ensures Aligned(n.table.ledger, n.table.runs[i]) && Current(n, i) {
      if i >= |m.table.runs| {
        NewRunAligned(m, step);
      } else if step.Mutate? {
        MutationQueuesNewest(m, step, i);
      } else {
        AlignedStep(m, step, i);
      }
    }
  }

  lemma {:induction false} NewestAlignedRun(m: Machine, steps: seq<Step>)
    requires Orderly(m) && NewestAligned(m) && Runs(m, steps) && ForwardRun(m, steps)
    ensures Orderly(Exec(m, steps)) && NewestAligned(Exec(m, steps))
    decreases steps
  {
    if steps != [] {
      OrderlyStep(m, steps[0]);
      NewestAlignedStep(m, steps[0]);
      NewestAlignedRun(Next(m, steps[0]), steps[1..]);
    }
  }

  lemma {:induction false} OrderlyRun(m: Machine, steps: seq<Step>)
    requires Orderly(m) && Runs(m, steps)
    ensures Orderly(Exec(m, steps))
    decreases steps
  {
    if steps != [] {
      OrderlyStep(m, steps[0]);
      OrderlyRun(Next(m, steps[0]), steps[1..]);
    }
  }

  /**
   * Over every history from an empty table, crashes, expired leases and mutations between any two calls included:
   * while the pending flag is off, the published rows are exactly what the current ledger projects to.
   */
  lemma NothingSilentlyStale(steps: seq<Step>)
    requires Runs(START, steps) && ForwardRun(START, steps)
    ensures var t := Exec(START, steps).table;
      t.published.Some? ==>
        && t.published.value < |t.runs|
        && (PendingRun(t, |t.runs|).None? ==> t.runs[t.published.value].rows == AllRows(t.ledger))
  {
    var m := Exec(START, steps);
    NewestAlignedRun(START, steps);
    if m.table.published.Some? {
      StalenessNeverSilent(m);
      var i := m.table.published.value;
      PlanExtends(m.table.ledger, m.table.runs[i].checkpoint);
    }
  }

  /**
   * In every state any history reaches, whatever its clocks: the pending flag is off exactly when the newest run is
   * the published one, no run has written a key twice, and the newest run is not a superseded one.
   */
  lemma EveryHistory(steps: seq<Step>)
    requires Runs(START, steps)
    ensures var t := Exec(START, steps).table;
      && Orderly(Exec(START, steps))
      && (t.published.Some? ==>
            t.published.value < |t.runs| && (PendingRun(t, |t.runs|).None? <==> IsNewest(t, t.published.value)))
      && (forall i, j, k :: 0 <= i < |t.runs| && 0 <= j < |t.runs[i].rows| && 0 <= k < |t.runs[i].rows| && j != k ==>
            t.runs[i].rows[j].output.key != t.runs[i].rows[k].output.key)
      && (forall i: nat :: IsNewest(t, i) ==> t.runs[i].status != Failed(SupersededByNewerRun))
  {
    var m := Exec(START, steps);
    OrderlyRun(START, steps);
    if m.table.published.Some? {
      StalenessNeverSilent(m);
    }
    forall i: nat | IsNewest(m.table, i) ensures m.table.runs[i].status != Failed(SupersededByNewerRun) {
      NewestNeverSuperseded(m, i);
    }
  }

  /** While the flag is off, a mutation turns it on if and only if its run is not stamped before the published one. */
  lemma MutationNoticedIff(m: Machine, mutation: Step)
    requires Inv(m) && mutation.Mutate?
    requires m.table.published.Some? && PendingRun(m.table, |m.table.runs|).None?
    ensures var t := Next(m, mutation).table;
      t.published == m.table.published
      && (PendingRun(t, |t.runs|).Some? <==> m.table.runs[m.table.published.value].createdAt <= mutation.createdAt)
  {
    var t, i := Next(m, mutation).table, m.table.published.value;
    InvStep(m, mutation);
    StalenessNeverSilent(m);
    StalenessNeverSilent(Next(m, mutation));
    if m.table.runs[i].createdAt <= mutation.createdAt {
      assert Newer(t.runs, i, |m.table.runs|);
    } else {
      forall j | 0 <= j < |t.runs| && t.runs[j].pipeline == Projection ensures !Newer(t.runs, i, j) {
        assert j < |m.table.runs| ==> !Newer(m.table.runs, i, j);
      }
    }
  }

  // How many chunks a run takes while the ledger stands still.

  function ChunksOf(outputs: int): (n: nat)
    ensures n >= 1
    decreases if outputs > OUTPUTS_PER_CHUNK then outputs else 0
  {
    if outputs <= OUTPUTS_PER_CHUNK then 1 else 1 + ChunksOf(outputs - OUTPUTS_PER_CHUNK)
  }

  /** Chunks of the securities from the k-th up to the n-th. */
  function ChunksFrom(ledger: Projections, k: nat, n: nat): nat
    decreases n - k
  {
    if k >= n then 0
    else (if k in ledger then ChunksOf(|ledger[k]|) else 0) + ChunksFrom(ledger, k + 1, n)
  }

  function ChunksLeft(ledger: Projections, c: Checkpoint): nat {
    if c.active.Some? then
      ChunksOf(|OutputsOf(ledger, c.active.value)| - c.offset) + ChunksFrom(ledger, c.active.value + 1, Bound(ledger))
    else ChunksFrom(ledger, Frontier(c), Bound(ledger))
  }

  lemma {:induction false} NoChunksBetween(ledger: Projections, a: nat, b: nat, n: nat)
    requires a <= b && forall s :: s in ledger ==> s < a || b <= s
    ensures ChunksFrom(ledger, a, n) == ChunksFrom(ledger, b, n)
    decreases b - a
  {
    if a < b && a < n {
      NoChunksBetween(ledger, a + 1, b, n);
    }
  }

  /** Each chunk of a plan the ledger still stands by leaves one fewer, and a plan to finish leaves none. */
  lemma ChunkLeavesOneFewer(ledger: Projections, c: Checkpoint)
    requires OffsetSound(c)
    ensures var plan := PlanOf(ledger, c);
      if plan.Write? then ChunksLeft(ledger, plan.next) == ChunksLeft(ledger, c) - 1 else ChunksLeft(ledger, c) == 0
  {
    var current := CurrentSecurity(ledger, c);
    if current.None? {
      NoChunksBetween(ledger, Frontier(c), if Frontier(c) <= Bound(ledger) then Bound(ledger) else Frontier(c), Bound(ledger));
    } else if c.active.None? {
      NoChunksBetween(ledger, Frontier(c), current.value, Bound(ledger));
    }
  }

  lemma {:induction false} ChunksCounted(m: Machine, steps: seq<Step>, i: nat)
    requires Orderly(m) && Runs(m, steps) && LedgerStill(steps) && i < |m.table.runs| && Current(m, i)
    ensures i < |Exec(m, steps).table.runs|
    ensures Count(m, steps, i).chunks + ChunksLeft(m.table.ledger, Exec(m, steps).table.runs[i].checkpoint)
         == ChunksLeft(m.table.ledger, m.table.runs[i].checkpoint)
    decreases steps
  {
    if steps != [] {
      AlignedStep(m, steps[0], i);
      OrderlyStep(m, steps[0]);
      ChunkLeavesOneFewer(m.table.ledger, m.table.runs[i].checkpoint);
      if !(steps[0].Chunk? && m.phase.run == i) {
        RowsKept(m, steps[0], i);
      }
      ChunksCounted(Next(m, steps[0]), steps[1..], i);
    }
  }

  /** While the ledger stands still, claims and rebuilds of a run are linear in the chunks it has left. */
  lemma LinearInChunks(m: Machine, steps: seq<Step>, i: nat)
    requires Orderly(m) && Runs(m, steps) && LedgerStill(steps) && i < |m.table.runs| && Current(m, i)
    ensures var n, left := Count(m, steps, i), ChunksLeft(m.table.ledger, m.table.runs[i].checkpoint);
      n.claims <= 6 * left + 6 + n.deaths && n.rebuilds <= 5 * left + 5
  {
    ChunksCounted(m, steps, i);
    ClaimsBounded(m, steps, i);
    WorkBounded(m, steps, i);
  }
}
