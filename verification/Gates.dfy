/** When slots go out, told from the events alone: neither too early, nor too late. */
module Gates {
  import opened Basics
  import opened Records
  import opened SlotBuffer
  import opened Coordinator
  import opened Drains
  import opened Runs
  import opened DiscardSafety
  import opened OrderLimits

  // ---- What has happened to a slot ----

  predicate Happens(step: Step, e: Event) { HasEvent(step) && step.event == e }

  ghost predicate Happened(steps: seq<Step>, e: Event) { exists k :: 0 <= k < |steps| && Happens(steps[k], e) }

  /** The steps since the slot was last discarded. */
  function Since(steps: seq<Step>, slot: Slot): seq<Step> {
    if steps == [] || DiscardsSlot(steps[|steps| - 1], slot) then []
    else Since(steps[..|steps| - 1], slot) + [steps[|steps| - 1]]
  }

  function Times(steps: seq<Step>, e: Event): nat {
    if steps == [] then 0 else
      Times(steps[..|steps| - 1], e) + if Happens(steps[|steps| - 1], e) then 1 else 0
  }

  /** How many transactions of the slot were signalled as parsed. */
  function Parsed(steps: seq<Step>, slot: Slot): nat { Times(steps, TransactionParsed(slot)) }

  /** An account of the slot gave a record, was filtered out or failed. */
  predicate IsOutcome(step: Step, slot: Slot) {
    HasEvent(step) && step.event.slot == slot
    && (step.event.AccountRecordParsed? || step.event == ParseStats(slot, AccountFiltered)
        || step.event == ParseStats(slot, AccountError))
  }

  function Outcomes(steps: seq<Step>, slot: Slot): nat {
    if steps == [] then 0 else
      Outcomes(steps[..|steps| - 1], slot) + if IsOutcome(steps[|steps| - 1], slot) then 1 else 0
  }

  /** The commitment that the account gate waits for. */
  function Commitment(commitAt: CommitAt, slot: Slot): Event {
    match commitAt
    case AtConfirmed => SlotConfirmed(slot)
    case AtFinalized => SlotFinalized(slot)
  }

  lemma HappenedOneMore(steps: seq<Step>, step: Step, e: Event)
    ensures Happened(steps + [step], e) <==> Happened(steps, e) || Happens(step, e)
  {
    if k :| 0 <= k < |steps| && Happens(steps[k], e) { assert Happens((steps + [step])[k], e); }
    if Happens(step, e) { assert Happens((steps + [step])[|steps|], e); }
    if k :| 0 <= k < |steps + [step]| && Happens((steps + [step])[k], e) { assert k < |steps| ==> Happens(steps[k], e); }
  }

  // ---- No slot goes out too early ----

  /** Every mark on a buffer stems from an event since the last discard. */
  ghost predicate Marked(st: State, history: seq<Step>, slot: Slot) {
    var b := st.Get(slot);
    && (b.ix.committed ==> Happened(history, SlotConfirmed(slot)))
    && (b.ix.metadata.Some? ==> Happened(history, BlockFrozen(slot, b.ix.metadata.value)))
    && b.ix.parsedTx <= Parsed(history, slot)
    && (b.acct.committed ==> Happened(history, Commitment(st.commitAt, slot)))
    && b.acct.processed <= Outcomes(history, slot)
  }

  /** Marks are kept, or come from the step's own event. */
  ghost predicate MarksFrom(st: State, st': State, step: Step, slot: Slot) {
    var b, b' := st.Get(slot), st'.Get(slot);
    && st'.commitAt == st.commitAt
    && (b'.ix.committed ==> b.ix.committed || Happens(step, SlotConfirmed(slot)))
    && (b'.ix.metadata.Some? ==> b'.ix.metadata == b.ix.metadata || Happens(step, BlockFrozen(slot, b'.ix.metadata.value)))
    && b'.ix.parsedTx <= b.ix.parsedTx + (if Happens(step, TransactionParsed(slot)) then 1 else 0)
    && (b'.acct.committed ==> b.acct.committed || Happens(step, Commitment(st.commitAt, slot)))
    && b'.acct.processed <= b.acct.processed + (if IsOutcome(step, slot) then 1 else 0)
    && (DiscardsSlot(step, slot) ==> b' == EMPTY_BUFFER)
  }

  lemma SourceMarks(st: State, step: Step)
    requires HasEvent(step) && step.event.FromSource()
    ensures MarksFrom(st, st.ApplySource(step.event), step, step.event.slot)
  {
  }

  lemma ParsedMarks(st: State, step: Step)
    requires HasEvent(step) && !step.event.FromSource()
    ensures MarksFrom(st, st.ApplyParsed(step.event), step, step.event.slot)
  {
  }

  lemma EventMarks(st: State, step: Step, slot: Slot)
    requires HasEvent(step)
    ensures MarksFrom(st, st.Apply(step.event), step, slot)
  {
    if slot != step.event.slot { ApplyIsLocal(st, step.event); }
    else if step.event.FromSource() { SourceMarks(st, step); }
    else { ParsedMarks(st, step); }
  }

  lemma IxSweepMarks(st: State, swept: State, out: seq<InstructionSlot>, step: Step, slot: Slot)
    requires !HasEvent(step) && IxSweep(st, swept, out)
    ensures MarksFrom(st, swept, step, slot) && MarksFrom(st, swept.Cleaned(), step, slot)
  {
    CleanedFacts(swept);
    if slot in st.buffer {
      if out != [] { assert IxEntryStep(st.buffer[slot], swept.buffer[slot]); }
      CleanedEntry(swept, slot);
    }
  }

  lemma AcctSweepMarks(st: State, swept: State, out: seq<AccountSlot>, step: Step, slot: Slot)
    requires !HasEvent(step) && AcctSweep(st, swept, out)
    ensures MarksFrom(st, swept, step, slot) && MarksFrom(st, swept.Cleaned(), step, slot)
  {
    CleanedFacts(swept);
    if slot in st.buffer {
      if out != [] { assert AcctEntryStep(st.buffer[slot], swept.buffer[slot]); }
      CleanedEntry(swept, slot);
    }
  }

  lemma StepMarks(run: Run, step: Step, slot: Slot)
    ensures MarksFrom(run.st, run.Next(step).st, step, slot)
  {
    if HasEvent(step) {
      EventMarks(run.st, step, slot);
    } else if step.DrainInstructions? {
      var swept := DrainIxSweeps(run.st);
      IxSweepMarks(run.st, swept, DrainIx(run.st).out, step, slot);
    } else {
      var swept := DrainAcctSweeps(run.st);
      AcctSweepMarks(run.st, swept, DrainAcct(run.st).out, step, slot);
    }
  }

  lemma MarkedStep(st: State, st': State, history: seq<Step>, step: Step, slot: Slot)
    requires Marked(st, history, slot) && MarksFrom(st, st', step, slot) && !DiscardsSlot(step, slot)
    ensures Marked(st', history + [step], slot)
  {
    var b' := st'.Get(slot);
    assert (history + [step])[..|history|] == history;
    HappenedOneMore(history, step, SlotConfirmed(slot));
    HappenedOneMore(history, step, Commitment(st.commitAt, slot));
    if b'.ix.metadata.Some? { HappenedOneMore(history, step, BlockFrozen(slot, b'.ix.metadata.value)); }
  }

  lemma {:induction false} BuffersAreMarked(commitAt: CommitAt, retention: Option<nat>, steps: seq<Step>, slot: Slot)
    ensures Exec(Start(commitAt, retention), steps).st.commitAt == commitAt
    ensures Marked(Exec(Start(commitAt, retention), steps).st, Since(steps, slot), slot)
  {
    if steps != [] {
      var prefix, step := steps[..|steps| - 1], steps[|steps| - 1];
      BuffersAreMarked(commitAt, retention, prefix, slot);
      var run := Exec(Start(commitAt, retention), prefix);
      StepMarks(run, step, slot);
      if !DiscardsSlot(step, slot) { MarkedStep(run.st, run.Next(step).st, Since(prefix, slot), step, slot); }
    }
  }

  /** Confirmed, frozen as it goes out, and with as many parsed transactions as the block announced. */
  ghost predicate WasReady(history: seq<Step>, o: InstructionSlot) {
    && Happened(history, SlotConfirmed(o.slot))
    && Happened(history, BlockFrozen(o.slot, Metadata(o.parentSlot, o.blockhash, o.executedTxCount)))
    && Parsed(history, o.slot) >= o.executedTxCount
  }

  lemma NextOutputsWereReady(commitAt: CommitAt, retention: Option<nat>, steps: seq<Step>)
    ensures var st := Exec(Start(commitAt, retention), steps).st;
            && (forall o :: o in DrainIx(st).out ==> WasReady(Since(steps, o.slot), o))
            && (forall o :: o in DrainAcct(st).out ==> Happened(Since(steps, o.slot), Commitment(commitAt, o.slot)))
  {
    var st := Exec(Start(commitAt, retention), steps).st;
    var ix := DrainIxSweeps(st);
    var acct := DrainAcctSweeps(st);
    forall o | o in DrainIx(st).out ensures WasReady(Since(steps, o.slot), o) {
      assert IxFlushed(st, o);
      BuffersAreMarked(commitAt, retention, steps, o.slot);
    }
    forall o | o in DrainAcct(st).out ensures Happened(Since(steps, o.slot), Commitment(commitAt, o.slot)) {
      assert AcctFlushed(st, o);
      BuffersAreMarked(commitAt, retention, steps, o.slot);
    }
  }

  /** At some drain of the run the slot was ready. */
  ghost predicate ReadyAt(steps: seq<Step>, k: nat, o: InstructionSlot) {
    k < |steps| && steps[k].DrainInstructions? && WasReady(Since(steps[..k], o.slot), o)
  }

  ghost predicate CommittedAt(commitAt: CommitAt, steps: seq<Step>, k: nat, o: AccountSlot) {
    k < |steps| && steps[k].DrainAccounts? && Happened(Since(steps[..k], o.slot), Commitment(commitAt, o.slot))
  }

  /**
   * Nothing goes out too early, in any run: since its last discard an instruction slot was confirmed,
   * its block frozen and as many of its transactions parsed as that block announced, and an account
   * slot got the commitment that its gate is set to.
   */
  lemma {:induction false} OutputsWereReady(commitAt: CommitAt, retention: Option<nat>, steps: seq<Step>)
    ensures var run := Exec(Start(commitAt, retention), steps);
            && (forall o :: o in run.ixOut ==> EverReady(steps, o))
            && (forall o :: o in run.acctOut ==> EverCommitted(commitAt, steps, o))
  {
    if steps != [] {
      var n := |steps| - 1;
      var prefix := steps[..n];
      OutputsWereReady(commitAt, retention, prefix);
      NextOutputsWereReady(commitAt, retention, prefix);
      var before, run := Exec(Start(commitAt, retention), prefix), Exec(Start(commitAt, retention), steps);
      forall o | o in run.ixOut ensures EverReady(steps, o) {
        if o in before.ixOut { StaysReady(steps, n, o); } else { assert ReadyAt(steps, n, o); }
      }
      forall o | o in run.acctOut ensures EverCommitted(commitAt, steps, o) {
        if o in before.acctOut { StaysCommitted(commitAt, steps, n, o); } else { assert CommittedAt(commitAt, steps, n, o); }
      }
    }
  }

  ghost predicate EverReady(steps: seq<Step>, o: InstructionSlot) { exists k :: 0 <= k < |steps| && ReadyAt(steps, k, o) }

  ghost predicate EverCommitted(commitAt: CommitAt, steps: seq<Step>, o: AccountSlot) {
    exists k :: 0 <= k < |steps| && CommittedAt(commitAt, steps, k, o)
  }

  lemma StaysReady(steps: seq<Step>, n: nat, o: InstructionSlot)
    requires n < |steps| && EverReady(steps[..n], o)
    ensures EverReady(steps, o)
  {
    var k :| 0 <= k < n && ReadyAt(steps[..n], k, o);
    assert steps[..k] == steps[..n][..k] && ReadyAt(steps, k, o);
  }

  lemma StaysCommitted(commitAt: CommitAt, steps: seq<Step>, n: nat, o: AccountSlot)
    requires n < |steps| && EverCommitted(commitAt, steps[..n], o)
    ensures EverCommitted(commitAt, steps, o)
  {
    var k :| 0 <= k < n && CommittedAt(commitAt, steps[..n], k, o);
    assert steps[..k] == steps[..n][..k] && CommittedAt(commitAt, steps, k, o);
  }

  // ---- No slot goes out too late ----

  /** The metadata of the last block frozen for the slot. */
  function LastFrozen(steps: seq<Step>, slot: Slot): Option<Metadata> {
    if steps == [] then None else
      var step := steps[|steps| - 1];
      if HasEvent(step) && step.event.BlockFrozen? && step.event.slot == slot then Some(step.event.metadata)
      else LastFrozen(steps[..|steps| - 1], slot)
  }

  /** Until the instruction frontier reaches it, a slot's buffer tells exactly what has happened to it. */
  ghost predicate IxTold(st: State, steps: seq<Step>, slot: Slot) {
    !AtOrBehind(st.ixFrontier, slot) ==>
      var ix := st.Get(slot).ix;
      && (ix.committed <==> Happened(steps, SlotConfirmed(slot)))
      && ix.metadata == LastFrozen(steps, slot)
      && ix.parsedTx == Parsed(steps, slot)
      && !ix.drained
  }

  /** One event, told by the instruction half. */
  ghost predicate IxTells(ix: IxSide, ix': IxSide, step: Step, slot: Slot) {
    && (ix'.committed <==> ix.committed || Happens(step, SlotConfirmed(slot)))
    && ix'.metadata == (if HasEvent(step) && step.event.BlockFrozen? && step.event.slot == slot
                        then Some(step.event.metadata) else ix.metadata)
    && ix'.parsedTx == ix.parsedTx + (if Happens(step, TransactionParsed(slot)) then 1 else 0)
    && ix'.drained == ix.drained
  }

  lemma SourceTellsIx(st: State, step: Step)
    requires HasEvent(step) && step.event.FromSource() && !step.event.SlotDiscarded?
    requires !AtOrBehind(st.ixFrontier, step.event.slot)
    ensures IxTells(st.Get(step.event.slot).ix, st.ApplySource(step.event).Get(step.event.slot).ix, step, step.event.slot)
  {
  }

  lemma ParsedTellsIx(st: State, step: Step)
    requires HasEvent(step) && !step.event.FromSource() && st.AcceptsIx(step.event.slot)
    ensures IxTells(st.Get(step.event.slot).ix, st.ApplyParsed(step.event).Get(step.event.slot).ix, step, step.event.slot)
  {
  }

  lemma EventTellsIx(st: State, step: Step, slot: Slot)
    requires HasEvent(step) && !DiscardsSlot(step, slot) && slot !in st.discarded && !AtOrBehind(st.ixFrontier, slot)
    ensures IxTells(st.Get(slot).ix, st.Apply(step.event).Get(slot).ix, step, slot)
  {
    if slot != step.event.slot { ApplyIsLocal(st, step.event); }
    else if step.event.FromSource() { SourceTellsIx(st, step); }
    else { ParsedTellsIx(st, step); }
  }

  lemma IxTellsStep(st: State, st': State, steps: seq<Step>, step: Step, slot: Slot)
    requires IxTold(st, steps, slot) && !AtOrBehind(st.ixFrontier, slot)
    requires IxTells(st.Get(slot).ix, st'.Get(slot).ix, step, slot)
    ensures IxTold(st', steps + [step], slot)
  {
    assert (steps + [step])[..|steps|] == steps;
    HappenedOneMore(steps, step, SlotConfirmed(slot));
  }

  /** A drain that stays below the slot leaves its half alone. */
  lemma IxSweepSpares(st: State, swept: State, out: seq<InstructionSlot>, slot: Slot)
    requires IxInv(st) && IxSweep(st, swept, out) && !AtOrBehind(swept.ixFrontier, slot)
    ensures !AtOrBehind(st.ixFrontier, slot)
    ensures swept.Get(slot).ix == st.Get(slot).ix && swept.Cleaned().Get(slot).ix == st.Get(slot).ix
  {
    IxSweepKeepsInv(st, swept, out);
    if out != [] { assert out[|out| - 1] in out; }
    SparedByCleanup(swept, slot);
  }

  lemma SparedByCleanup(st: State, slot: Slot)
    requires IxInv(st) && !AtOrBehind(st.ixFrontier, slot)
    ensures st.Cleaned().Get(slot) == st.Get(slot)
  {
    if slot in st.buffer {
      assert IxInvAt(st, slot);
      CleanedEntry(st, slot);
    }
  }

  lemma AcctSweepSparesIx(st: State, swept: State, out: seq<AccountSlot>, slot: Slot)
    requires IxInv(st) && AcctSweep(st, swept, out) && !AtOrBehind(st.ixFrontier, slot)
    ensures swept.ixFrontier == st.ixFrontier
    ensures swept.Get(slot).ix == st.Get(slot).ix && swept.Cleaned().Get(slot).ix == st.Get(slot).ix
  {
    AcctSweepKeepsIxInv(st, swept, out);
    if slot in st.buffer && out != [] { assert AcctEntryStep(st.buffer[slot], swept.buffer[slot]); }
    SparedByCleanup(swept, slot);
  }

  lemma DrainTellsIx(run: Run, step: Step, slot: Slot)
    requires IxInv(run.st) && !HasEvent(step) && !AtOrBehind(run.Next(step).st.ixFrontier, slot)
    ensures !AtOrBehind(run.st.ixFrontier, slot)
    ensures run.Next(step).st.Get(slot).ix == run.st.Get(slot).ix
  {
    if step.DrainInstructions? {
      var swept := DrainIxSweeps(run.st);
      CleanedFacts(swept);
      IxSweepSpares(run.st, swept, DrainIx(run.st).out, slot);
    } else {
      var swept := DrainAcctSweeps(run.st);
      CleanedFacts(swept);
      AcctSweepSparesIx(run.st, swept, DrainAcct(run.st).out, slot);
    }
  }

  lemma {:induction false} BuffersTellInstructions(commitAt: CommitAt, retention: Option<nat>, steps: seq<Step>, slot: Slot)
    requires IxInOrder(Start(commitAt, retention), steps) && slot !in Discards(steps)
    ensures IxTold(Exec(Start(commitAt, retention), steps).st, steps, slot)
  {
    if steps != [] {
      var prefix, step := steps[..|steps| - 1], steps[|steps| - 1];
      BuffersTellInstructions(commitAt, retention, prefix, slot);
      InstructionsAreOrdered(commitAt, retention, prefix);
      var run := Exec(Start(commitAt, retention), prefix);
      assert prefix + [step] == steps;
      if !AtOrBehind(run.Next(step).st.ixFrontier, slot) {
        if HasEvent(step) {
          ApplyIsLocal(run.st, step.event);
          EventTellsIx(run.st, step, slot);
        } else {
          DrainTellsIx(run, step, slot);
        }
        IxTellsStep(run.st, run.Next(step).st, prefix, step, slot);
      }
    }
  }

  /** Confirmed, frozen, every announced transaction parsed, and the parent out or discarded. */
  ghost predicate IsReady(run: Run, steps: seq<Step>, slot: Slot) {
    && Happened(steps, SlotConfirmed(slot))
    && LastFrozen(steps, slot).Some?
    && Parsed(steps, slot) >= LastFrozen(steps, slot).value.expectedTxCount
    && ParentSettles(run, LastFrozen(steps, slot).value.parentSlot)
  }

  /** Some slot at or above the parent is out, or none is yet, or the parent is a known discard. */
  ghost predicate ParentSettles(run: Run, parent: Slot) {
    || run.ixOut == []
    || (exists o :: o in run.ixOut && parent <= o.slot)
    || parent in run.st.discarded
  }

  /** The slot is next in line: no lower slot waits for its instructions, and none at or above it is out. */
  ghost predicate IxHead(run: Run, slot: Slot) {
    && (forall s :: s in run.st.buffer && s < slot ==> run.st.buffer[s].ix.drained)
    && forall o :: o in run.ixOut ==> o.slot < slot
  }

  lemma FrontierIsLast(run: Run, discards: set<Slot>, slot: Slot)
    requires IxOrdered(run, discards)
    ensures (forall o :: o in run.ixOut ==> o.slot < slot) ==> !AtOrBehind(run.st.ixFrontier, slot)
    ensures (exists o :: o in run.ixOut && slot <= o.slot) <==> AtOrBehind(run.st.ixFrontier, slot)
  {
    if run.ixOut != [] { assert run.ixOut[|run.ixOut| - 1] in run.ixOut; }
  }

  /**
   * Nothing goes out too late, or unready: in every run without a stale block, the next drain emits a
   * slot that is next in line and was never discarded if and only if it is ready.
   */
  lemma HeadGoesOutIffReady(commitAt: CommitAt, retention: Option<nat>, steps: seq<Step>, slot: Slot)
    requires IxInOrder(Start(commitAt, retention), steps) && slot !in Discards(steps)
    requires IxHead(Exec(Start(commitAt, retention), steps), slot)
    ensures var run := Exec(Start(commitAt, retention), steps);
            (exists o :: o in DrainIx(run.st).out && o.slot == slot) <==> IsReady(run, steps, slot)
  {
    var run := Exec(Start(commitAt, retention), steps);
    InstructionsAreOrdered(commitAt, retention, steps);
    BuffersTellInstructions(commitAt, retention, steps, slot);
    FrontierIsLast(run, Discards(steps), slot);
    if IsReady(run, steps, slot) {
      FrontierIsLast(run, Discards(steps), LastFrozen(steps, slot).value.parentSlot);
      ReadyHeadIsDrained(run.st, slot);
    }
    if o :| o in DrainIx(run.st).out && o.slot == slot {
      HeadWasReady(run, steps, slot, o);
    }
  }

  lemma HeadWasReady(run: Run, steps: seq<Step>, slot: Slot, o: InstructionSlot)
    requires IxTold(run.st, steps, slot) && IxHead(run, slot) && !AtOrBehind(run.st.ixFrontier, slot)
    requires IxOrdered(run, Discards(steps)) && o in DrainIx(run.st).out && o.slot == slot
    ensures IsReady(run, steps, slot)
  {
    var swept := DrainIxSweeps(run.st);
    var out := DrainIx(run.st).out;
    assert IxFlushed(run.st, o);
    assert out[0] in out && IxFlushed(run.st, out[0]);
    assert out[0] == o by { var i :| 0 <= i < |out| && out[i] == o; }
    assert Follows(run.st.ixFrontier, o, run.st.discarded);
    if run.ixOut != [] { assert run.ixOut[|run.ixOut| - 1] in run.ixOut; }
  }

  // ---- The same of the account gate ----

  /** The sightings of the slot's accounts before its commitment: what the gate waits for. */
  function SeenBefore(commitAt: CommitAt, steps: seq<Step>, slot: Slot): nat {
    if steps == [] then 0 else
      var prefix := steps[..|steps| - 1];
      SeenBefore(commitAt, prefix, slot)
      + if Happens(steps[|steps| - 1], AccountEventSeen(slot)) && !HasHappened(prefix, Commitment(commitAt, slot)) then 1 else 0
  }

  predicate HasHappened(steps: seq<Step>, e: Event)
    ensures HasHappened(steps, e) <==> Happened(steps, e)
  {
    exists k :: 0 <= k < |steps| && Happens(steps[k], e)
  }

  function Waiting(st: State, slot: Slot): nat { if slot in st.eventCounts then st.eventCounts[slot] else 0 }

  /** Until the account frontier reaches it, a slot's buffer and pending count tell exactly what has happened to it. */
  ghost predicate AcctTold(st: State, steps: seq<Step>, slot: Slot) {
    !AtOrBehind(st.acctFrontier, slot) ==>
      var acct, seen := st.Get(slot).acct, SeenBefore(st.commitAt, steps, slot);
      && (acct.committed <==> Happened(steps, Commitment(st.commitAt, slot)))
      && acct.processed == Outcomes(steps, slot)
      && (if acct.committed then acct.expected == Some(seen) else acct.expected.None? && Waiting(st, slot) == seen)
      && !acct.drained
  }

  /** One event, told by the account half. */
  ghost predicate AcctTells(st: State, st': State, step: Step, slot: Slot) {
    var acct, acct' := st.Get(slot).acct, st'.Get(slot).acct;
    && st'.commitAt == st.commitAt && st'.acctFrontier == st.acctFrontier
    && (acct'.committed <==> acct.committed || Happens(step, Commitment(st.commitAt, slot)))
    && acct'.processed == acct.processed + (if IsOutcome(step, slot) then 1 else 0)
    && acct'.expected == (if acct.expected.None? && acct'.committed then Some(Waiting(st, slot)) else acct.expected)
    && (!acct'.committed ==>
          Waiting(st', slot) == Waiting(st, slot) + if Happens(step, AccountEventSeen(slot)) then 1 else 0)
    && acct'.drained == acct.drained
  }

  ghost predicate AcctOpen(st: State, slot: Slot) {
    && slot !in st.discarded && !AtOrBehind(st.acctFrontier, slot)
    && (st.Get(slot).acct.committed <==> st.Get(slot).acct.expected.Some?) && !st.Get(slot).acct.drained
  }

  lemma SourceTellsAcct(st: State, step: Step)
    requires HasEvent(step) && step.event.FromSource() && !step.event.SlotDiscarded? && AcctOpen(st, step.event.slot)
    ensures AcctTells(st, st.ApplySource(step.event), step, step.event.slot)
  {
  }

  lemma ParsedTellsAcct(st: State, step: Step)
    requires HasEvent(step) && !step.event.FromSource() && AcctOpen(st, step.event.slot)
    ensures AcctTells(st, st.ApplyParsed(step.event), step, step.event.slot)
  {
  }

  lemma OthersWait(st: State, e: Event, slot: Slot)
    requires slot != e.slot
    ensures Waiting(st.Apply(e), slot) == Waiting(st, slot)
  {
  }

  lemma EventTellsAcct(st: State, step: Step, slot: Slot)
    requires HasEvent(step) && !DiscardsSlot(step, slot) && AcctOpen(st, slot)
    ensures AcctTells(st, st.Apply(step.event), step, slot)
  {
    if slot != step.event.slot {
      ApplyIsLocal(st, step.event);
      OthersWait(st, step.event, slot);
    } else if step.event.FromSource() {
      SourceTellsAcct(st, step);
    } else {
      ParsedTellsAcct(st, step);
    }
  }

  lemma AcctTellsStep(st: State, st': State, steps: seq<Step>, step: Step, slot: Slot)
    requires AcctTold(st, steps, slot) && !AtOrBehind(st.acctFrontier, slot) && AcctTells(st, st', step, slot)
    ensures AcctTold(st', steps + [step], slot)
  {
    assert (steps + [step])[..|steps|] == steps;
    HappenedOneMore(steps, step, Commitment(st.commitAt, slot));
  }

  /** A drain that stays below the slot leaves its account half and its pending count alone. */
  ghost predicate AcctSpared(st: State, st': State, slot: Slot) {
    && st'.commitAt == st.commitAt && st'.Get(slot).acct == st.Get(slot).acct && Waiting(st', slot) == Waiting(st, slot)
  }

  lemma AcctSparedByCleanup(st: State, slot: Slot)
    requires AcctInv(st) && !AtOrBehind(st.acctFrontier, slot)
    ensures AcctSpared(st, st.Cleaned(), slot)
  {
    CleanedFacts(st);
    if slot in st.buffer {
      assert AcctInvAt(st, slot);
      CleanedEntry(st, slot);
    }
  }

  lemma AcctSweepSpares(st: State, swept: State, out: seq<AccountSlot>, slot: Slot)
    requires AcctInv(st) && AcctSweep(st, swept, out) && !AtOrBehind(swept.acctFrontier, slot)
    ensures !AtOrBehind(st.acctFrontier, slot)
    ensures AcctSpared(st, swept, slot) && AcctSpared(st, swept.Cleaned(), slot)
  {
    AcctSweepKeepsInv(st, swept, out);
    if out != [] { assert out[|out| - 1] in out; }
    AcctSparedByCleanup(swept, slot);
  }

  lemma IxSweepSparesAcct(st: State, swept: State, out: seq<InstructionSlot>, slot: Slot)
    requires AcctInv(st) && IxSweep(st, swept, out) && !AtOrBehind(st.acctFrontier, slot)
    ensures swept.acctFrontier == st.acctFrontier
    ensures AcctSpared(st, swept, slot) && AcctSpared(st, swept.Cleaned(), slot)
  {
    IxSweepKeepsAcctInv(st, swept, out);
    if slot in st.buffer && out != [] { assert IxEntryStep(st.buffer[slot], swept.buffer[slot]); }
    AcctSparedByCleanup(swept, slot);
  }

  lemma DrainSparesAcct(run: Run, step: Step, slot: Slot)
    requires AcctInv(run.st) && !HasEvent(step) && !AtOrBehind(run.Next(step).st.acctFrontier, slot)
    ensures !AtOrBehind(run.st.acctFrontier, slot) && AcctSpared(run.st, run.Next(step).st, slot)
  {
    if step.DrainInstructions? {
      var swept := DrainIxSweeps(run.st);
      CleanedFacts(swept);
      IxSweepSparesAcct(run.st, swept, DrainIx(run.st).out, slot);
    } else {
      var swept := DrainAcctSweeps(run.st);
      CleanedFacts(swept);
      AcctSweepSpares(run.st, swept, DrainAcct(run.st).out, slot);
    }
  }

  lemma DrainTellsAcct(run: Run, steps: seq<Step>, step: Step, slot: Slot)
    requires AcctInv(run.st) && !HasEvent(step) && !AtOrBehind(run.Next(step).st.acctFrontier, slot)
    requires AcctTold(run.st, steps, slot)
    ensures AcctTold(run.Next(step).st, steps + [step], slot)
  {
    DrainSparesAcct(run, step, slot);
    assert (steps + [step])[..|steps|] == steps;
    HappenedOneMore(steps, step, Commitment(run.st.commitAt, slot));
  }

  lemma {:induction false} DiscardedWereDiscarded(commitAt: CommitAt, retention: Option<nat>, steps: seq<Step>)
    ensures Exec(Start(commitAt, retention), steps).st.discarded <= Discards(steps)
    ensures Exec(Start(commitAt, retention), steps).st.commitAt == commitAt
  {
    if steps != [] {
      var prefix, step := steps[..|steps| - 1], steps[|steps| - 1];
      DiscardedWereDiscarded(commitAt, retention, prefix);
      var run := Exec(Start(commitAt, retention), prefix);
      StepMarks(run, step, 0);
      if HasEvent(step) {
        ApplyDiscards(run.st, step.event);
      } else {
        var ix := DrainIxSweeps(run.st);
        var acct := DrainAcctSweeps(run.st);
        CleanedFacts(ix);
        CleanedFacts(acct);
      }
    }
  }

  lemma {:induction false} BuffersTellAccounts(commitAt: CommitAt, retention: Option<nat>, steps: seq<Step>, slot: Slot)
    requires AcctInOrder(Start(commitAt, retention), steps) && slot !in Discards(steps)
    ensures AcctTold(Exec(Start(commitAt, retention), steps).st, steps, slot)
  {
    if steps != [] {
      var prefix, step := steps[..|steps| - 1], steps[|steps| - 1];
      BuffersTellAccounts(commitAt, retention, prefix, slot);
      AccountsAreOrdered(commitAt, retention, prefix);
      DiscardedWereDiscarded(commitAt, retention, prefix);
      var run := Exec(Start(commitAt, retention), prefix);
      assert prefix + [step] == steps;
      if AtOrBehind(run.Next(step).st.acctFrontier, slot) {
      } else if HasEvent(step) {
        ApplyIsLocal(run.st, step.event);
        EventTellsAcct(run.st, step, slot);
        AcctTellsStep(run.st, run.Next(step).st, prefix, step, slot);
      } else {
        DrainTellsAcct(run, prefix, step, slot);
      }
    }
  }

  /** Committed, and every account seen before that has its outcome. */
  ghost predicate AccountsAreReady(commitAt: CommitAt, steps: seq<Step>, slot: Slot) {
    && Happened(steps, Commitment(commitAt, slot))
    && Outcomes(steps, slot) >= SeenBefore(commitAt, steps, slot)
  }

  ghost predicate AcctHead(run: Run, slot: Slot) {
    && (forall s :: s in run.st.buffer && s < slot ==> run.st.buffer[s].acct.drained)
    && forall o :: o in run.acctOut ==> o.slot < slot
  }

  /** The account gate, likewise: it opens for the slot next in line exactly when its accounts are ready. */
  lemma AccountHeadGoesOutIffReady(commitAt: CommitAt, retention: Option<nat>, steps: seq<Step>, slot: Slot)
    requires AcctInOrder(Start(commitAt, retention), steps) && slot !in Discards(steps)
    requires AcctHead(Exec(Start(commitAt, retention), steps), slot)
    ensures var run := Exec(Start(commitAt, retention), steps);
            (exists o :: o in DrainAcct(run.st).out && o.slot == slot) <==> AccountsAreReady(commitAt, steps, slot)
  {
    var run := Exec(Start(commitAt, retention), steps);
    AccountsAreOrdered(commitAt, retention, steps);
    DiscardedWereDiscarded(commitAt, retention, steps);
    BuffersTellAccounts(commitAt, retention, steps, slot);
    if run.acctOut != [] { assert run.acctOut[|run.acctOut| - 1] in run.acctOut; }
    assert !AtOrBehind(run.st.acctFrontier, slot);
    if AccountsAreReady(commitAt, steps, slot) {
      OpenHeadIsDrained(run.st, slot);
      assert DrainAcct(run.st).out[0].slot == slot;
    }
    if o :| o in DrainAcct(run.st).out && o.slot == slot {
      var swept := DrainAcctSweeps(run.st);
      assert AcctFlushed(run.st, o);
    }
  }
}
