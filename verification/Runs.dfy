/**
 * Runs of the coordinator over both input channels, with a drain allowed between any two events,
 * and the order of what they emit.
 */
module Runs {
  import opened Basics
  import opened Records
  import opened SlotBuffer
  import opened Coordinator
  import opened Drains

  /** One turn of the event loop. A handler message carries the task that sent it. */
  datatype Step =
    | FromSource(event: Event)
    | FromHandler(task: nat, event: Event)
    | DrainInstructions
    | DrainAccounts

  datatype Run = Run(st: State, ixOut: seq<InstructionSlot>, acctOut: seq<AccountSlot>)
  {
    function Next(step: Step): Run {
      match step
      case FromSource(e) => this.(st := st.Apply(e))
      case FromHandler(_, e) => this.(st := st.Apply(e))
      case DrainInstructions => var d := DrainIx(st); Run(d.st, ixOut + d.out, acctOut)
      case DrainAccounts => var d := DrainAcct(st); Run(d.st, ixOut, acctOut + d.out)
    }
  }

  function Start(commitAt: CommitAt, retention: Option<nat>): Run { Run(Init(commitAt, retention), [], []) }

  function Exec(run: Run, steps: seq<Step>): Run {
    if steps == [] then run else Exec(run, steps[..|steps| - 1]).Next(steps[|steps| - 1])
  }

  /** Metadata that makes ready a buffer the instruction frontier has already passed. */
  predicate StaleBlock(st: State, e: Event) {
    && e.BlockFrozen?
    && AtOrBehind(st.ixFrontier, e.slot) && !AtOrBehind(st.acctFrontier, e.slot)
    && !st.Get(e.slot).ix.drained
    && e.metadata.expectedTxCount == 0
  }

  predicate FreezesAccounts(st: State, e: Event) {
    && !st.AlreadyFlushed(e.slot)
    && ((e.SlotConfirmed? && st.commitAt == AtConfirmed) || (e.SlotFinalized? && st.commitAt == AtFinalized))
  }

  /** A fresh account gate frozen empty at a slot the account frontier has already passed. */
  predicate StaleGate(st: State, e: Event) {
    && FreezesAccounts(st, e)
    && AtOrBehind(st.acctFrontier, e.slot)
    && !st.Get(e.slot).acct.drained && st.Get(e.slot).acct.expected.None?
    && (e.slot !in st.eventCounts || st.eventCounts[e.slot] == 0)
  }

  predicate IxInOrderStep(st: State, step: Step) {
    (step.FromSource? || step.FromHandler?) ==> !StaleBlock(st, step.event)
  }

  predicate AcctInOrderStep(st: State, step: Step) {
    (step.FromSource? || step.FromHandler?) ==> !StaleGate(st, step.event)
  }

  /** No stale block ever: all that the order of instruction slots needs. */
  ghost predicate IxInOrder(run: Run, steps: seq<Step>) {
    steps == [] ||
    (IxInOrder(run, steps[..|steps| - 1])
     && IxInOrderStep(Exec(run, steps[..|steps| - 1]).st, steps[|steps| - 1]))
  }

  /** No stale gate ever: all that the order of account slots needs. */
  ghost predicate AcctInOrder(run: Run, steps: seq<Step>) {
    steps == [] ||
    (AcctInOrder(run, steps[..|steps| - 1])
     && AcctInOrderStep(Exec(run, steps[..|steps| - 1]).st, steps[|steps| - 1]))
  }

  ghost predicate InOrder(run: Run, steps: seq<Step>) { IxInOrder(run, steps) && AcctInOrder(run, steps) }

  // ---- What every state of an in-order run satisfies ----

  /** A buffer the frontier has passed: emptied, or created late and unable to become ready. */
  predicate IxBehind(ix: IxSide) {
    && ix.records == []
    && (ix.drained
        || (ix.parsedTx == 0 && (ix.metadata.Some? ==> ix.metadata.value.expectedTxCount > 0)))
  }

  predicate AcctBehind(acct: AcctSide) {
    && acct.records == []
    && (acct.drained || (acct.processed == 0 && (acct.expected.Some? ==> acct.expected.value > 0)))
  }

  ghost predicate IxInv(st: State) {
    forall s :: s in st.buffer ==> IxInvAt(st, s)
  }

  ghost predicate AcctInv(st: State) {
    forall s :: s in st.buffer ==> AcctInvAt(st, s)
  }

  /** An event touches only its own slot's buffer, and no frontier. */
  lemma ApplyIsLocal(st: State, e: Event)
    ensures LocalStep(st, st.Apply(e), e.slot)
  {
    if e.FromSource() { SourceIsLocal(st, e); } else { ParsedIsLocal(st, e); }
  }

  ghost predicate LocalStep(st: State, st': State, slot: Slot) {
    && st'.ixFrontier == st.ixFrontier && st'.acctFrontier == st.acctFrontier
    && st'.commitAt == st.commitAt && st'.retention == st.retention
    && forall s :: s != slot ==> (s in st'.buffer <==> s in st.buffer) && (s in st.buffer ==> st'.buffer[s] == st.buffer[s])
  }

  lemma SourceIsLocal(st: State, e: Event)
    requires e.FromSource()
    ensures LocalStep(st, st.ApplySource(e), e.slot)
  {
  }

  lemma ParsedIsLocal(st: State, e: Event)
    requires !e.FromSource()
    ensures LocalStep(st, st.ApplyParsed(e), e.slot)
  {
  }

  predicate IxInvAt(st: State, s: Slot) {
    s in st.buffer ==> if AtOrBehind(st.ixFrontier, s) then IxBehind(st.buffer[s].ix) else !st.buffer[s].ix.drained
  }

  predicate AcctInvAt(st: State, s: Slot) {
    s in st.buffer ==>
      if AtOrBehind(st.acctFrontier, s) then AcctBehind(st.buffer[s].acct) else !st.buffer[s].acct.drained
  }

  lemma SourceKeepsInvAt(st: State, e: Event)
    requires e.FromSource()
    ensures IxInvAt(st, e.slot) && !StaleBlock(st, e) ==> IxInvAt(st.Apply(e), e.slot)
    ensures AcctInvAt(st, e.slot) && !StaleGate(st, e) ==> AcctInvAt(st.Apply(e), e.slot)
  {
  }

  lemma ParsedKeepsInvAt(st: State, e: Event)
    requires !e.FromSource()
    ensures IxInvAt(st, e.slot) ==> IxInvAt(st.Apply(e), e.slot)
    ensures AcctInvAt(st, e.slot) ==> AcctInvAt(st.Apply(e), e.slot)
  {
  }

  lemma ApplyKeepsInv(st: State, e: Event)
    ensures IxInv(st) && !StaleBlock(st, e) ==> IxInv(st.Apply(e))
    ensures AcctInv(st) && !StaleGate(st, e) ==> AcctInv(st.Apply(e))
  {
    if e.FromSource() { SourceKeepsInvAt(st, e); } else { ParsedKeepsInvAt(st, e); }
    ApplyIsLocal(st, e);
  }

  lemma CleanedKeepsInv(st: State)
    ensures IxInv(st) ==> IxInv(st.Cleaned())
    ensures AcctInv(st) ==> AcctInv(st.Cleaned())
  {
  }

  lemma IxSweepKeepsInv(st: State, st': State, out: seq<InstructionSlot>)
    requires IxInv(st) && IxSweep(st, st', out)
    ensures IxInv(st')
    ensures forall o :: o in out ==> !AtOrBehind(st.ixFrontier, o.slot)
  {
    forall o | o in out ensures !AtOrBehind(st.ixFrontier, o.slot) {
      assert IxFlushed(st, o);
    }
    if out != [] {
      var last := out[|out| - 1].slot;
      assert out[|out| - 1] in out;
      forall s | s in st'.buffer
        ensures if s <= last then IxBehind(st'.buffer[s].ix) else !st'.buffer[s].ix.drained
      {
        assert IxEntryStep(st.buffer[s], st'.buffer[s]);
      }
    }
  }

  lemma IxSweepKeepsAcctInv(st: State, st': State, out: seq<InstructionSlot>)
    requires AcctInv(st) && IxSweep(st, st', out)
    ensures AcctInv(st')
  {
    if out != [] {
      forall s | s in st'.buffer ensures AcctInvAt(st', s) { assert IxEntryStep(st.buffer[s], st'.buffer[s]); }
    }
  }

  lemma AcctSweepKeepsInv(st: State, st': State, out: seq<AccountSlot>)
    requires AcctInv(st) && AcctSweep(st, st', out)
    ensures AcctInv(st')
    ensures forall o :: o in out ==> !AtOrBehind(st.acctFrontier, o.slot)
  {
    forall o | o in out ensures !AtOrBehind(st.acctFrontier, o.slot) {
      assert AcctFlushed(st, o);
    }
    if out != [] {
      var last := out[|out| - 1].slot;
      assert out[|out| - 1] in out;
      forall s | s in st'.buffer
        ensures if s <= last then AcctBehind(st'.buffer[s].acct) else !st'.buffer[s].acct.drained
      {
        assert AcctEntryStep(st.buffer[s], st'.buffer[s]);
      }
    }
  }

  lemma AcctSweepKeepsIxInv(st: State, st': State, out: seq<AccountSlot>)
    requires IxInv(st) && AcctSweep(st, st', out)
    ensures IxInv(st')
  {
    if out != [] {
      forall s | s in st'.buffer ensures IxInvAt(st', s) { assert AcctEntryStep(st.buffer[s], st'.buffer[s]); }
    }
  }

  lemma NextKeepsIxInv(run: Run, step: Step)
    requires IxInv(run.st) && IxInOrderStep(run.st, step)
    ensures IxInv(run.Next(step).st)
  {
    match step
    case FromSource(e) => ApplyKeepsInv(run.st, e);
    case FromHandler(_, e) => ApplyKeepsInv(run.st, e);
    case DrainInstructions =>
      var swept := DrainIxSweeps(run.st);
      IxSweepKeepsInv(run.st, swept, DrainIx(run.st).out);
      CleanedKeepsInv(swept);
    case DrainAccounts =>
      var swept := DrainAcctSweeps(run.st);
      AcctSweepKeepsIxInv(run.st, swept, DrainAcct(run.st).out);
      CleanedKeepsInv(swept);
  }

  lemma NextKeepsAcctInv(run: Run, step: Step)
    requires AcctInv(run.st) && AcctInOrderStep(run.st, step)
    ensures AcctInv(run.Next(step).st)
  {
    match step
    case FromSource(e) => ApplyKeepsInv(run.st, e);
    case FromHandler(_, e) => ApplyKeepsInv(run.st, e);
    case DrainInstructions =>
      var swept := DrainIxSweeps(run.st);
      IxSweepKeepsAcctInv(run.st, swept, DrainIx(run.st).out);
      CleanedKeepsInv(swept);
    case DrainAccounts =>
      var swept := DrainAcctSweeps(run.st);
      AcctSweepKeepsInv(run.st, swept, DrainAcct(run.st).out);
      CleanedKeepsInv(swept);
  }

  /** The slots a run has discarded so far. */
  function Discards(steps: seq<Step>): set<Slot> {
    if steps == [] then {} else
      var step := steps[|steps| - 1];
      var before := Discards(steps[..|steps| - 1]);
      if (step.FromSource? || step.FromHandler?) && step.event.SlotDiscarded? then before + {step.event.slot}
      else before
  }

  function LastIx(out: seq<InstructionSlot>): Option<Slot> { if out == [] then None else Some(out[|out| - 1].slot) }

  function LastAcct(out: seq<AccountSlot>): Option<Slot> { if out == [] then None else Some(out[|out| - 1].slot) }

  /** Instruction outputs so far: ascending, each behind its parent, the last one being the frontier. */
  ghost predicate IxOrdered(run: Run, discards: set<Slot>) {
    && IxAscending(run.ixOut) && Chained(None, run.ixOut, discards)
    && run.st.ixFrontier == LastIx(run.ixOut) && run.st.discarded <= discards
  }

  /** Account outputs so far: ascending, the last one being the frontier. */
  ghost predicate AcctOrdered(run: Run) {
    AcctAscending(run.acctOut) && run.st.acctFrontier == LastAcct(run.acctOut)
  }

  lemma ChainedAppend(out: seq<InstructionSlot>, more: seq<InstructionSlot>, discarded: set<Slot>, discards: set<Slot>)
    requires discarded <= discards && Chained(None, out, discards)
    requires Chained(if out == [] then None else Some(out[|out| - 1].slot), more, discarded)
    ensures Chained(None, out + more, discards)
  {
    forall i, j | 0 <= i && j == i + 1 < |out + more|
      ensures Follows(Some((out + more)[i].slot), (out + more)[j], discards)
    {
      if j < |out| {
        assert Follows(Some(out[i].slot), out[j], discards);
      } else if i >= |out| {
        assert Follows(Some(more[i - |out|].slot), more[j - |out|], discarded);
      }
    }
  }

  lemma CleanedFacts(st: State)
    ensures var st' := st.Cleaned();
            && st'.ixFrontier == st.ixFrontier && st'.acctFrontier == st.acctFrontier
            && st'.commitAt == st.commitAt && st'.retention == st.retention
            && st'.discarded <= st.discarded
  {
  }

  /** A buffer survives the cleanup unchanged unless both halves are drained. */
  lemma CleanedEntry(st: State, s: Slot)
    requires s in st.buffer
    ensures if st.buffer[s].FullyDrained() then s !in st.Cleaned().buffer
            else s in st.Cleaned().buffer && st.Cleaned().buffer[s] == st.buffer[s]
  {
  }

  lemma IxAscendingAppend(out: seq<InstructionSlot>, more: seq<InstructionSlot>)
    requires IxAscending(out) && IxAscending(more)
    requires out != [] ==> forall o :: o in more ==> out[|out| - 1].slot < o.slot
    ensures IxAscending(out + more)
  {
    assert forall i :: 0 <= i < |more| ==> more[i] in more;
  }

  lemma AcctAscendingAppend(out: seq<AccountSlot>, more: seq<AccountSlot>)
    requires AcctAscending(out) && AcctAscending(more)
    requires out != [] ==> forall o :: o in more ==> out[|out| - 1].slot < o.slot
    ensures AcctAscending(out + more)
  {
    assert forall i :: 0 <= i < |more| ==> more[i] in more;
  }

  lemma IxSweepKeepsOrder(run: Run, swept: State, out: seq<InstructionSlot>, discards: set<Slot>)
    requires IxInv(run.st) && IxOrdered(run, discards) && IxSweep(run.st, swept, out)
    ensures IxOrdered(Run(swept, run.ixOut + out, run.acctOut), discards)
  {
    if out != [] {
      IxSweepKeepsInv(run.st, swept, out);
      ChainedAppend(run.ixOut, out, run.st.discarded, discards);
      IxAscendingAppend(run.ixOut, out);
    } else {
      assert run.ixOut + out == run.ixOut;
    }
  }

  lemma AcctSweepKeepsOrder(run: Run, swept: State, out: seq<AccountSlot>)
    requires AcctInv(run.st) && AcctOrdered(run) && AcctSweep(run.st, swept, out)
    ensures AcctOrdered(Run(swept, run.ixOut, run.acctOut + out))
  {
    if out != [] {
      AcctSweepKeepsInv(run.st, swept, out);
      AcctAscendingAppend(run.acctOut, out);
    } else {
      assert run.acctOut + out == run.acctOut;
    }
  }

  lemma ApplyDiscards(st: State, e: Event)
    ensures st.Apply(e).discarded <= st.discarded + {e.slot}
    ensures !e.SlotDiscarded? ==> st.Apply(e).discarded == st.discarded
  {
  }

  lemma ChainedWeaken(out: seq<InstructionSlot>, discards: set<Slot>, more: set<Slot>)
    requires Chained(None, out, discards) && discards <= more
    ensures Chained(None, out, more)
  {
  }

  lemma EventKeepsOrder(run: Run, e: Event, discards: set<Slot>)
    requires IxOrdered(run, discards)
    ensures IxOrdered(run.(st := run.st.Apply(e)), if e.SlotDiscarded? then discards + {e.slot} else discards)
  {
    var more := if e.SlotDiscarded? then discards + {e.slot} else discards;
    ApplyIsLocal(run.st, e);
    ApplyDiscards(run.st, e);
    ChainedWeaken(run.ixOut, discards, more);
  }

  lemma IxDrainKeepsOrder(run: Run, discards: set<Slot>)
    requires IxInv(run.st) && IxOrdered(run, discards)
    ensures IxOrdered(run.Next(DrainInstructions), discards)
  {
    var swept := DrainIxSweeps(run.st);
    IxSweepKeepsOrder(run, swept, DrainIx(run.st).out, discards);
    CleanedFacts(swept);
  }

  /** The other half's drain leaves instruction outputs and their frontier alone. */
  lemma AcctDrainLeavesIx(run: Run, discards: set<Slot>)
    requires IxOrdered(run, discards)
    ensures IxOrdered(run.Next(DrainAccounts), discards)
  {
    var swept := DrainAcctSweeps(run.st);
    CleanedFacts(swept);
  }

  lemma AcctDrainKeepsOrder(run: Run)
    requires AcctInv(run.st) && AcctOrdered(run)
    ensures AcctOrdered(run.Next(DrainAccounts))
  {
    var swept := DrainAcctSweeps(run.st);
    AcctSweepKeepsOrder(run, swept, DrainAcct(run.st).out);
    CleanedFacts(swept);
  }

  lemma IxDrainLeavesAcct(run: Run)
    requires AcctOrdered(run)
    ensures AcctOrdered(run.Next(DrainInstructions))
  {
    var swept := DrainIxSweeps(run.st);
    CleanedFacts(swept);
  }

  lemma NextKeepsIxOrder(run: Run, step: Step, steps: seq<Step>)
    requires IxInv(run.st) && IxOrdered(run, Discards(steps))
    ensures IxOrdered(run.Next(step), Discards(steps + [step]))
  {
    assert (steps + [step])[..|steps|] == steps;
    match step
    case FromSource(e) => EventKeepsOrder(run, e, Discards(steps));
    case FromHandler(_, e) => EventKeepsOrder(run, e, Discards(steps));
    case DrainInstructions => IxDrainKeepsOrder(run, Discards(steps));
    case DrainAccounts => AcctDrainLeavesIx(run, Discards(steps));
  }

  lemma NextKeepsAcctOrder(run: Run, step: Step)
    requires AcctInv(run.st) && AcctOrdered(run)
    ensures AcctOrdered(run.Next(step))
  {
    match step
    case FromSource(e) => ApplyIsLocal(run.st, e);
    case FromHandler(_, e) => ApplyIsLocal(run.st, e);
    case DrainInstructions => IxDrainLeavesAcct(run);
    case DrainAccounts => AcctDrainKeepsOrder(run);
  }

  /**
   * Whole-run order of instruction slots: over any run without a stale block they go out strictly
   * ascending, so none twice, and each one after the first has a parent at or below its predecessor,
   * or one that was discarded.
   */
  lemma {:induction false} InstructionsAreOrdered(commitAt: CommitAt, retention: Option<nat>, steps: seq<Step>)
    requires IxInOrder(Start(commitAt, retention), steps)
    ensures var run := Exec(Start(commitAt, retention), steps); IxOrdered(run, Discards(steps)) && IxInv(run.st)
  {
    if steps != [] {
      var prefix, step := steps[..|steps| - 1], steps[|steps| - 1];
      InstructionsAreOrdered(commitAt, retention, prefix);
      var run := Exec(Start(commitAt, retention), prefix);
      assert prefix + [step] == steps;
      NextKeepsIxOrder(run, step, prefix);
      NextKeepsIxInv(run, step);
    }
  }

  /** Whole-run order of account slots: over any run without a stale gate they go out strictly ascending. */
  lemma {:induction false} AccountsAreOrdered(commitAt: CommitAt, retention: Option<nat>, steps: seq<Step>)
    requires AcctInOrder(Start(commitAt, retention), steps)
    ensures var run := Exec(Start(commitAt, retention), steps); AcctOrdered(run) && AcctInv(run.st)
  {
    if steps != [] {
      var prefix, step := steps[..|steps| - 1], steps[|steps| - 1];
      AccountsAreOrdered(commitAt, retention, prefix);
      var run := Exec(Start(commitAt, retention), prefix);
      NextKeepsAcctOrder(run, step);
      NextKeepsAcctInv(run, step);
    }
  }

  // ---- No drain loses a record ----

  /** In every run, in order or not, a drained account half holds no record. */
  ghost predicate AcctEmptied(st: State) { forall s :: s in st.buffer ==> AcctEmptiedAt(st, s) }

  predicate AcctEmptiedAt(st: State, s: Slot) {
    s in st.buffer && st.buffer[s].acct.drained ==> st.buffer[s].acct.records == []
  }

  lemma SourceKeepsEmptied(st: State, e: Event)
    requires e.FromSource() && AcctEmptiedAt(st, e.slot)
    ensures AcctEmptiedAt(st.Apply(e), e.slot)
  {
  }

  lemma ParsedKeepsEmptied(st: State, e: Event)
    requires !e.FromSource() && AcctEmptiedAt(st, e.slot)
    ensures AcctEmptiedAt(st.Apply(e), e.slot)
  {
  }

  lemma NextKeepsEmptied(run: Run, step: Step)
    requires AcctEmptied(run.st)
    ensures AcctEmptied(run.Next(step).st)
  {
    if step.FromSource? || step.FromHandler? {
      var e := step.event;
      ApplyIsLocal(run.st, e);
      if e.FromSource() { SourceKeepsEmptied(run.st, e); } else { ParsedKeepsEmptied(run.st, e); }
    } else {
      var ix := DrainIxSweeps(run.st);
      var acct := DrainAcctSweeps(run.st);
      IxSweepKeepsEmptied(run.st, ix, DrainIx(run.st).out);
      AcctSweepKeepsEmptied(run.st, acct, DrainAcct(run.st).out);
    }
  }

  lemma IxSweepKeepsEmptied(st: State, st': State, out: seq<InstructionSlot>)
    requires AcctEmptied(st) && IxSweep(st, st', out)
    ensures AcctEmptied(st') && AcctEmptied(st'.Cleaned())
  {
    forall s | s in st'.buffer ensures AcctEmptiedAt(st', s) {
      if out != [] { assert IxEntryStep(st.buffer[s], st'.buffer[s]); }
    }
  }

  lemma AcctSweepKeepsEmptied(st: State, st': State, out: seq<AccountSlot>)
    requires AcctEmptied(st) && AcctSweep(st, st', out)
    ensures AcctEmptied(st') && AcctEmptied(st'.Cleaned())
  {
    forall s | s in st'.buffer ensures AcctEmptiedAt(st', s) {
      if out != [] { assert AcctEntryStep(st.buffer[s], st'.buffer[s]); }
    }
  }

  lemma {:induction false} DrainedAccountsAreEmpty(commitAt: CommitAt, retention: Option<nat>, steps: seq<Step>)
    ensures AcctEmptied(Exec(Start(commitAt, retention), steps).st)
  {
    if steps != [] {
      var prefix := steps[..|steps| - 1];
      DrainedAccountsAreEmpty(commitAt, retention, prefix);
      NextKeepsEmptied(Exec(Start(commitAt, retention), prefix), steps[|steps| - 1]);
    }
  }

  /**
   * A drain of instructions loses nothing in a run without a stale block: a buffer's records stay
   * where they are or go out whole, and a buffer removed by the cleanup held no account record.
   */
  lemma InstructionDrainLosesNothing(st: State, s: Slot)
    requires IxInv(st) && AcctEmptied(st) && s in st.buffer
    ensures var d := DrainIx(st); var b := st.buffer[s];
            && (b.ix.records == [] || (s in d.st.buffer && d.st.buffer[s].ix == b.ix)
                || exists o :: o in d.out && o.slot == s && o.records == Values(b.ix.records))
            && (b.acct.records == [] || (s in d.st.buffer && d.st.buffer[s].acct == b.acct))
  {
    var out := DrainIx(st).out;
    var swept := DrainIxSweeps(st);
    assert AcctEmptiedAt(st, s) && IxInvAt(st, s);
    CleanedEntry(swept, s);
    if swept.buffer[s] != st.buffer[s] {
      var o :| o in out && o.slot == s;
      assert IxFlushed(st, o) && IxEntryStep(st.buffer[s], swept.buffer[s]);
    }
  }

  lemma AccountDrainLosesNothing(st: State, s: Slot)
    requires IxInv(st) && AcctEmptied(st) && s in st.buffer
    ensures var d := DrainAcct(st); var b := st.buffer[s];
            && (b.acct.records == [] || (s in d.st.buffer && d.st.buffer[s].acct == b.acct)
                || exists o :: o in d.out && o.slot == s && o.records == Values(b.acct.records))
            && (b.ix.records == [] || (s in d.st.buffer && d.st.buffer[s].ix == b.ix))
  {
    var out := DrainAcct(st).out;
    var swept := DrainAcctSweeps(st);
    assert AcctEmptiedAt(st, s) && IxInvAt(st, s);
    CleanedEntry(swept, s);
    if swept.buffer[s] != st.buffer[s] {
      var o :| o in out && o.slot == s;
      assert AcctFlushed(st, o) && AcctEntryStep(st.buffer[s], swept.buffer[s]);
    }
  }
}
