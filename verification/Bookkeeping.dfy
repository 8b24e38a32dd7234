/** What the coordinator counts, keeps and forgets besides the records. */
module Bookkeeping {
  import opened Basics
  import opened Records
  import opened SlotBuffer
  import opened Coordinator
  import opened Drains
  import opened Runs
  import opened DiscardSafety
  import opened AccountLedger
  import Gates

  // ---- Which discards are remembered ----

  /** Every frontier that is set has left the slot `retention` behind, or it is slot 0. */
  predicate FarBehind(st: State, slot: Slot, retention: nat) {
    && (st.ixFrontier.Some? || st.acctFrontier.Some?)
    && (st.ixFrontier.Some? ==> slot == 0 || slot + retention <= st.ixFrontier.value)
    && (st.acctFrontier.Some? ==> slot == 0 || slot + retention <= st.acctFrontier.value)
  }

  ghost predicate OnlyNear(st: State, retention: nat) {
    st.retention == Some(retention) && forall s :: s in st.discarded ==> !FarBehind(st, s, retention)
  }

  lemma PrunedIsNear(st: State, retention: nat)
    requires st.retention == Some(retention)
    ensures forall s :: s in st.Pruned().discarded <==> s in st.discarded && !FarBehind(st, s, retention)
  {
  }

  lemma EventRemembers(st: State, e: Event, retention: nat)
    requires OnlyNear(st, retention)
    ensures forall s :: s in st.Apply(e).discarded <==>
              (s in st.discarded || (e.SlotDiscarded? && e.slot == s)) && !FarBehind(st, s, retention)
  {
    if e.SlotDiscarded? {
      var marked := st.(discarded := st.discarded + {e.slot}, eventCounts := st.eventCounts - {e.slot});
      PrunedIsNear(marked, retention);
      assert st.Apply(e).discarded == marked.Pruned().discarded;
    } else {
      assert st.Apply(e).discarded == st.discarded;
    }
  }

  ghost predicate Remembers(st: State, st': State, step: Step, retention: nat) {
    forall s :: s in st'.discarded <==> (s in st.discarded || DiscardsSlot(step, s)) && !FarBehind(st', s, retention)
  }

  lemma DrainRemembers(st: State, swept: State, st': State, step: Step, retention: nat)
    requires OnlyNear(st, retention) && !HasEvent(step)
    requires swept.discarded == st.discarded && swept.retention == st.retention
    requires (st' == swept && swept.ixFrontier == st.ixFrontier && swept.acctFrontier == st.acctFrontier) || st' == swept.Cleaned()
    ensures Remembers(st, st', step, retention)
  {
    CleanedFacts(swept);
    PrunedIsNear(swept.WithoutDrained(), retention);
    assert swept.Cleaned().discarded == swept.WithoutDrained().Pruned().discarded;
  }

  /** A step forgets a discard exactly when it leaves the slot that far behind both frontiers. */
  lemma StepRemembers(run: Run, step: Step, retention: nat)
    requires OnlyNear(run.st, retention)
    ensures Remembers(run.st, run.Next(step).st, step, retention) && OnlyNear(run.Next(step).st, retention)
  {
    if HasEvent(step) {
      ApplyIsLocal(run.st, step.event);
      EventRemembers(run.st, step.event, retention);
    } else if step.DrainInstructions? {
      var swept := DrainIxSweeps(run.st);
      CleanedFacts(swept);
      DrainRemembers(run.st, swept, run.Next(step).st, step, retention);
    } else {
      var swept := DrainAcctSweeps(run.st);
      CleanedFacts(swept);
      DrainRemembers(run.st, swept, run.Next(step).st, step, retention);
    }
  }

  /** Some discard of the slot, and at no point since was it far behind. */
  ghost predicate IsRemembered(commitAt: CommitAt, steps: seq<Step>, slot: Slot, retention: nat) {
    steps != []
    && (IsRemembered(commitAt, steps[..|steps| - 1], slot, retention) || DiscardsSlot(steps[|steps| - 1], slot))
    && !FarBehind(Exec(Start(commitAt, Some(retention)), steps).st, slot, retention)
  }

  /** In every run the markers are the discards of slots that no frontier has left far behind since. */
  lemma {:induction false} MarkersAreRemembered(commitAt: CommitAt, retention: nat, steps: seq<Step>)
    ensures var st := Exec(Start(commitAt, Some(retention)), steps).st;
            OnlyNear(st, retention) && forall s :: s in st.discarded <==> IsRemembered(commitAt, steps, s, retention)
  {
    if steps != [] {
      var prefix, step := steps[..|steps| - 1], steps[|steps| - 1];
      MarkersAreRemembered(commitAt, retention, prefix);
      StepRemembers(Exec(Start(commitAt, Some(retention)), prefix), step, retention);
    }
  }

  // ---- No buffer outlives both of its drains ----

  ghost predicate NoneDead(st: State) {
    forall s :: s in st.buffer ==> !(st.buffer[s].ix.drained && st.buffer[s].acct.drained)
  }

  lemma EventDrainsNothing(st: State, e: Event)
    requires NoneDead(st)
    ensures NoneDead(st.Apply(e))
  {
    ApplyIsLocal(st, e);
    var st' := st.Apply(e);
    if e.slot in st'.buffer {
      if e.FromSource() { SourceDrainsNothing(st, e); } else { ParsedDrainsNothing(st, e); }
    }
  }

  lemma SourceDrainsNothing(st: State, e: Event)
    requires e.FromSource() && !e.SlotDiscarded?
    ensures var b, b' := st.Get(e.slot), st.ApplySource(e).Get(e.slot);
            b'.ix.drained == b.ix.drained && b'.acct.drained == b.acct.drained
  {
  }

  lemma ParsedDrainsNothing(st: State, e: Event)
    requires !e.FromSource()
    ensures var b, b' := st.Get(e.slot), st.ApplyParsed(e).Get(e.slot);
            b'.ix.drained == b.ix.drained && b'.acct.drained == b.acct.drained
  {
  }

  lemma {:induction false} DrainedBuffersGo(commitAt: CommitAt, retention: Option<nat>, steps: seq<Step>)
    ensures NoneDead(Exec(Start(commitAt, retention), steps).st)
  {
    if steps != [] {
      var prefix, step := steps[..|steps| - 1], steps[|steps| - 1];
      DrainedBuffersGo(commitAt, retention, prefix);
      var st := Exec(Start(commitAt, retention), prefix).st;
      if HasEvent(step) {
        EventDrainsNothing(st, step.event);
      } else {
        var ix := DrainIxSweeps(st);
        var acct := DrainAcctSweeps(st);
        CleanedHasNoneDead(ix);
        CleanedHasNoneDead(acct);
      }
    }
  }

  lemma CleanedHasNoneDead(st: State)
    ensures NoneDead(st.Cleaned())
  {
    forall s | s in st.Cleaned().buffer ensures !(st.Cleaned().buffer[s].ix.drained && st.Cleaned().buffer[s].acct.drained) {
      assert s in st.buffer;
      CleanedEntry(st, s);
    }
  }

  // ---- Late arrivals ----

  /** An outcome for an account half that has gone out, of a slot not known to be discarded. */
  predicate ComesLate(st: State, step: Step) {
    && HasEvent(step) && Gates.IsOutcome(step, step.event.slot) && step.event.slot !in st.discarded
    && (AtOrBehind(st.acctFrontier, step.event.slot) || (step.event.slot in st.buffer && st.buffer[step.event.slot].acct.drained))
  }

  /** A sighting after the commitment, of a slot neither discarded nor behind both frontiers. */
  predicate SeenLate(st: State, step: Step) {
    && HasEvent(step) && step.event.AccountEventSeen? && step.event.slot !in st.discarded
    && !(AtOrBehind(st.ixFrontier, step.event.slot) && AtOrBehind(st.acctFrontier, step.event.slot))
    && step.event.slot in st.buffer && st.buffer[step.event.slot].acct.committed
  }

  function LateRecords(commitAt: CommitAt, retention: Option<nat>, steps: seq<Step>): nat {
    if steps == [] then 0 else
      var prefix := steps[..|steps| - 1];
      LateRecords(commitAt, retention, prefix)
      + if ComesLate(Exec(Start(commitAt, retention), prefix).st, steps[|steps| - 1]) then 1 else 0
  }

  function LateSightings(commitAt: CommitAt, retention: Option<nat>, steps: seq<Step>): nat {
    if steps == [] then 0 else
      var prefix := steps[..|steps| - 1];
      LateSightings(commitAt, retention, prefix)
      + if SeenLate(Exec(Start(commitAt, retention), prefix).st, steps[|steps| - 1]) then 1 else 0
  }

  ghost predicate CountsLate(st: State, st': State, step: Step) {
    && st'.lateRecordDrops == st.lateRecordDrops + (if ComesLate(st, step) then 1 else 0)
    && st'.lateEventDrops == st.lateEventDrops + (if SeenLate(st, step) then 1 else 0)
  }

  lemma EventCountsLate(st: State, step: Step)
    requires HasEvent(step)
    requires step.event.slot in st.buffer ==>
               (st.buffer[step.event.slot].acct.committed <==> st.buffer[step.event.slot].acct.expected.Some?)
    ensures CountsLate(st, st.Apply(step.event), step)
  {
    if step.event.FromSource() { SourceCountsLate(st, step); } else { ParsedCountsLate(st, step); }
  }

  lemma SourceCountsLate(st: State, step: Step)
    requires HasEvent(step) && step.event.FromSource()
    requires step.event.slot in st.buffer ==>
               (st.buffer[step.event.slot].acct.committed <==> st.buffer[step.event.slot].acct.expected.Some?)
    ensures CountsLate(st, st.ApplySource(step.event), step)
  {
  }

  lemma ParsedCountsLate(st: State, step: Step)
    requires HasEvent(step) && !step.event.FromSource()
    ensures CountsLate(st, st.ApplyParsed(step.event), step)
  {
  }

  /** The two counters of late arrivals count them, in every run. */
  lemma {:induction false} LateArrivalsAreCounted(commitAt: CommitAt, retention: Option<nat>, steps: seq<Step>)
    ensures var st := Exec(Start(commitAt, retention), steps).st;
            && st.lateRecordDrops == LateRecords(commitAt, retention, steps)
            && st.lateEventDrops == LateSightings(commitAt, retention, steps)
  {
    if steps != [] {
      var prefix, step := steps[..|steps| - 1], steps[|steps| - 1];
      LateArrivalsAreCounted(commitAt, retention, prefix);
      var run := Exec(Start(commitAt, retention), prefix);
      if HasEvent(step) {
        AccountsAreConserved(commitAt, retention, prefix);
        assert BalancedAt(run.st, Audit(Start(commitAt, retention), prefix), step.event.slot);
        EventCountsLate(run.st, step);
      } else {
        DrainCountsNothing(run, step);
      }
    }
  }

  lemma DrainCountsNothing(run: Run, step: Step)
    requires !HasEvent(step)
    ensures run.Next(step).st.lateRecordDrops == run.st.lateRecordDrops
    ensures run.Next(step).st.lateEventDrops == run.st.lateEventDrops
  {
    var ix := DrainIxSweeps(run.st);
    var acct := DrainAcctSweeps(run.st);
  }

  // ---- Finalized slots ----

  /** Until the account frontier reaches a slot it is marked as finalized exactly if the gate waits for that and it came. */
  lemma {:induction false} FinalizedIsTold(commitAt: CommitAt, retention: Option<nat>, steps: seq<Step>, slot: Slot)
    requires AcctInOrder(Start(commitAt, retention), steps) && slot !in Discards(steps)
    ensures var st := Exec(Start(commitAt, retention), steps).st;
            !AtOrBehind(st.acctFrontier, slot) ==>
              (st.Get(slot).acct.finalized <==> commitAt == AtFinalized && Gates.Happened(steps, SlotFinalized(slot)))
  {
    if steps != [] {
      var prefix, step := steps[..|steps| - 1], steps[|steps| - 1];
      FinalizedIsTold(commitAt, retention, prefix, slot);
      AccountsAreOrdered(commitAt, retention, prefix);
      Gates.DiscardedWereDiscarded(commitAt, retention, prefix);
      assert prefix + [step] == steps;
      Gates.HappenedOneMore(prefix, step, SlotFinalized(slot));
      var run := Exec(Start(commitAt, retention), prefix);
      if HasEvent(step) {
        ApplyIsLocal(run.st, step.event);
        if !AtOrBehind(run.st.acctFrontier, slot) { EventTellsFinalized(run.st, step, slot); }
      } else if !AtOrBehind(run.Next(step).st.acctFrontier, slot) {
        Gates.DrainSparesAcct(run, step, slot);
      }
    }
  }

  lemma EventTellsFinalized(st: State, step: Step, slot: Slot)
    requires HasEvent(step) && !DiscardsSlot(step, slot) && !AtOrBehind(st.acctFrontier, slot)
    ensures st.Apply(step.event).acctFrontier == st.acctFrontier
    ensures st.Apply(step.event).Get(slot).acct.finalized <==>
              st.Get(slot).acct.finalized || (st.commitAt == AtFinalized && Gates.Happens(step, SlotFinalized(slot)))
  {
    ApplyIsLocal(st, step.event);
    if slot == step.event.slot && !step.event.FromSource() { ParsedTellsFinalized(st, step.event); }
  }

  lemma ParsedTellsFinalized(st: State, e: Event)
    requires !e.FromSource()
    ensures st.ApplyParsed(e).Get(e.slot).acct.finalized == st.Get(e.slot).acct.finalized
  {
  }
}
