/** What an undisturbed rebuild call does, and that enough of them finish a run. */
module RebuildProgress {
  import opened Sequences
  import opened RunTable
  import opened RebuildRows

  datatype RebuildResult = Progress | Finished | Transient | Structural

  /** What one rebuild call makes of a table nothing else touches meanwhile. */
  ghost predicate Rebuilt(before: Table, after: Table, i: nat, now: int, owner: nat, highWater: nat, r: RebuildResult)
    requires i < |before.runs|
  {
    if !MayRebuild(before, i, owner, now, highWater) then r.Transient? && after == before
    else
      match PlanOf(before.ledger, before.runs[i].checkpoint)
      case Finish => r.Finished? && after == Publish(before, i)
      case Write(rows, next) =>
        if DistinctKeys(before.runs[i].rows + rows) then r.Progress? && after == WriteChunk(before, i, rows, next)
        else r.Transient? && after == before
  }

  lemma {:induction false} BelowPrefix(ledger: Projections, a: nat, b: nat)
    requires a <= b
    ensures |RowsBelow(ledger, a)| <= |RowsBelow(ledger, b)|
    ensures RowsBelow(ledger, b)[..|RowsBelow(ledger, a)|] == RowsBelow(ledger, a)
    decreases b
  {
    if a < b {
      BelowPrefix(ledger, a, b - 1);
    }
  }

  lemma PrefixDistinct(rows: seq<Written>, n: nat)
    requires DistinctKeys(rows) && n <= |rows|
    ensures DistinctKeys(rows[..n])
  {
  }

  lemma BelowDistinct(ledger: Projections, k: nat)
    requires DistinctKeys(AllRows(ledger))
    ensures DistinctKeys(RowsBelow(ledger, k))
  {
    if k <= Bound(ledger) {
      BelowPrefix(ledger, k, Bound(ledger));
      PrefixDistinct(AllRows(ledger), |RowsBelow(ledger, k)|);
    } else {
      NothingBetween(ledger, Bound(ledger), k);
    }
  }

  /** What is behind a checkpoint repeats no key if the whole does not. */
  lemma BehindDistinct(ledger: Projections, c: Checkpoint)
    requires DistinctKeys(AllRows(ledger))
    ensures DistinctKeys(Behind(ledger, c))
  {
    if c.active.None? {
      BelowDistinct(ledger, Frontier(c));
      assert Behind(ledger, c) == RowsBelow(ledger, Frontier(c));
    } else {
      var s := c.active.value;
      var outputs := OutputsOf(ledger, s);
      BelowDistinct(ledger, s + 1);
      LabelledParts(s, outputs, Upto(c.offset, |outputs|), |outputs|);
      assert outputs[..|outputs|] == outputs;
      PrefixDistinct(RowsBelow(ledger, s + 1), |Behind(ledger, c)|);
      assert RowsBelow(ledger, s + 1)[..|Behind(ledger, c)|] == Behind(ledger, c);
    }
  }

  /** Leased and on its mark, with the ledger's rows written so far, and a ledger whose rows can all be written. */
  ghost predicate Ready(t: Table, i: nat, now: int, owner: nat, highWater: nat) {
    && MayRebuild(t, i, owner, now, highWater)
    && OffsetSound(t.runs[i].checkpoint) && Aligned(t.ledger, t.runs[i]) && DistinctKeys(AllRows(t.ledger))
  }

  /** The chunks a run has left, and the call that publishes it. */
  function CallsLeft(t: Table, i: nat): nat
    requires i < |t.runs|
  {
    ChunksLeft(t.ledger, t.runs[i].checkpoint) + 1
  }

  /** An undisturbed call publishes the run or leaves it ready with one call fewer to go. */
  lemma ReadyStep(before: Table, after: Table, i: nat, now: int, owner: nat, highWater: nat, r: RebuildResult)
    requires Ready(before, i, now, owner, highWater) && Rebuilt(before, after, i, now, owner, highWater, r)
    ensures r.Finished? || r.Progress?
    ensures r.Finished? <==> CallsLeft(before, i) == 1
    ensures r.Progress? ==>
      Ready(after, i, now, owner, highWater) && after.ledger == before.ledger && CallsLeft(after, i) == CallsLeft(before, i) - 1
  {
    var run := before.runs[i];
    var plan := PlanOf(before.ledger, run.checkpoint);
    PlanExtends(before.ledger, run.checkpoint);
    ChunkLeavesOneFewer(before.ledger, run.checkpoint);
    if plan.Write? {
      BehindDistinct(before.ledger, plan.next);
    }
  }
}
