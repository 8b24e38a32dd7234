/** Forgetting old discards is unobservable once both frontiers are set. */
module Pruning {
  // A coordinator that prunes its discard markers and one that keeps them all then emit the same slots,
  // record for record.

  import opened Basics
  import opened Records
  import opened SlotBuffer
  import opened Coordinator
  import opened Drains
  import opened Runs
  import opened OrderLimits

  /** `q` remembers discards that `p` has forgotten, all of them behind both frontiers. */
  ghost predicate Sim(p: State, q: State) {
    && p.ixFrontier.Some? && p.acctFrontier.Some?
    && q == p.(discarded := q.discarded, retention := None,
               lateRecordDrops := q.lateRecordDrops, lateEventDrops := q.lateEventDrops)
    && p.discarded <= q.discarded
    && forall s :: s in q.discarded && s !in p.discarded ==> p.AlreadyFlushed(s)
  }

  lemma PrunedIsSim(p: State, q: State)
    requires Sim(p, q)
    ensures Sim(p.Pruned(), q.Pruned())
  {
  }

  lemma ApplyIsSim(p: State, q: State, e: Event)
    requires Sim(p, q)
    ensures Sim(p.Apply(e), q.Apply(e))
  {
    if e.SlotDiscarded? {
      PrunedIsSim(p.(discarded := p.discarded + {e.slot}, eventCounts := p.eventCounts - {e.slot}),
                  q.(discarded := q.discarded + {e.slot}, eventCounts := q.eventCounts - {e.slot}));
    } else if e.FromSource() {
      SourceIsSim(p, q, e);
    } else {
      ParsedIsSim(p, q, e);
    }
  }

  lemma SourceIsSim(p: State, q: State, e: Event)
    requires Sim(p, q) && e.FromSource() && !e.SlotDiscarded?
    ensures Sim(p.Apply(e), q.Apply(e))
  {
    if !p.AlreadyFlushed(e.slot) { assert e.slot in p.discarded <==> e.slot in q.discarded; }
  }

  lemma ParsedIsSim(p: State, q: State, e: Event)
    requires Sim(p, q) && !e.FromSource()
    ensures Sim(p.Apply(e), q.Apply(e))
  {
    assert p.AcceptsIx(e.slot) <==> q.AcceptsIx(e.slot);
    assert p.AcceptsAcct(e.slot) <==> q.AcceptsAcct(e.slot);
  }

  /** Every slot that could still go out is above the frontier. */
  ghost predicate IxFresh(st: State, slots: seq<Slot>, i: nat) {
    forall k :: i <= k < |slots| && slots[k] in st.buffer ==>
      var ix := st.buffer[slots[k]].ix;
      ix.drained || !ix.Gate() || !AtOrBehind(st.ixFrontier, slots[k])
  }

  ghost predicate AcctFresh(st: State, slots: seq<Slot>, i: nat) {
    forall k :: i <= k < |slots| && slots[k] in st.buffer ==>
      var acct := st.buffer[slots[k]].acct;
      acct.drained || !acct.Gate() || !AtOrBehind(st.acctFrontier, slots[k])
  }

  lemma {:induction false} IxLoopIsSim(p: State, q: State, slots: seq<Slot>, i: nat)
    requires Sim(p, q) && i <= |slots| && StrictlyAscending(slots) && IxFresh(p, slots, i)
    requires forall s :: s in slots ==> s in p.buffer
    ensures Sim(IxLoop(p, slots, i).st, IxLoop(q, slots, i).st)
    ensures IxLoop(p, slots, i).out == IxLoop(q, slots, i).out
    decreases |slots| - i
  {
    if i < |slots| {
      var ix := p.buffer[slots[i]].ix;
      if ix.drained {
        IxLoopIsSim(p, q, slots, i + 1);
      } else if ix.Gate() {
        assert p.ParentOk(ix) <==> q.ParentOk(ix);
        if p.ParentOk(ix) {
          IxLoopIsSim(p.FlushIx(slots[i]), q.FlushIx(slots[i]), slots, i + 1);
        }
      }
    }
  }

  lemma {:induction false} AcctLoopIsSim(p: State, q: State, slots: seq<Slot>, i: nat)
    requires Sim(p, q) && i <= |slots| && StrictlyAscending(slots) && AcctFresh(p, slots, i)
    requires forall s :: s in slots ==> s in p.buffer
    ensures Sim(AcctLoop(p, slots, i).st, AcctLoop(q, slots, i).st)
    ensures AcctLoop(p, slots, i).out == AcctLoop(q, slots, i).out
    decreases |slots| - i
  {
    if i < |slots| {
      var acct := p.buffer[slots[i]].acct;
      if acct.drained {
        AcctLoopIsSim(p, q, slots, i + 1);
      } else if acct.Gate() {
        AcctLoopIsSim(p.FlushAcct(slots[i]), q.FlushAcct(slots[i]), slots, i + 1);
      }
    }
  }

  lemma CleanedIsSim(p: State, q: State)
    requires Sim(p, q)
    ensures Sim(p.Cleaned(), q.Cleaned())
  {
    var kept := map s | s in p.buffer && !p.buffer[s].FullyDrained() :: p.buffer[s];
    PrunedIsSim(p.(buffer := kept), q.(buffer := kept));
  }

  lemma NextIsSim(p: Run, q: Run, step: Step)
    requires Sim(p.st, q.st) && p.ixOut == q.ixOut && p.acctOut == q.acctOut
    requires IxInv(p.st) && AcctInv(p.st)
    ensures Sim(p.Next(step).st, q.Next(step).st)
    ensures p.Next(step).ixOut == q.Next(step).ixOut && p.Next(step).acctOut == q.Next(step).acctOut
  {
    var slots := Ascending(p.st.buffer.Keys);
    match step
    case FromSource(e) => ApplyIsSim(p.st, q.st, e);
    case FromHandler(_, e) => ApplyIsSim(p.st, q.st, e);
    case DrainInstructions =>
      IxLoopIsSim(p.st, q.st, slots, 0);
      CleanedIsSim(IxLoop(p.st, slots, 0).st, IxLoop(q.st, slots, 0).st);
    case DrainAccounts =>
      AcctLoopIsSim(p.st, q.st, slots, 0);
      CleanedIsSim(AcctLoop(p.st, slots, 0).st, AcctLoop(q.st, slots, 0).st);
  }

  lemma {:induction false} RunsAreSim(p: Run, q: Run, steps: seq<Step>)
    requires Sim(p.st, q.st) && p.ixOut == q.ixOut && p.acctOut == q.acctOut
    requires IxInv(p.st) && AcctInv(p.st) && InOrder(p, steps)
    ensures var p', q' := Exec(p, steps), Exec(q, steps);
            && Sim(p'.st, q'.st) && p'.ixOut == q'.ixOut && p'.acctOut == q'.acctOut
            && IxInv(p'.st) && AcctInv(p'.st)
  {
    if steps != [] {
      var prefix, step := steps[..|steps| - 1], steps[|steps| - 1];
      RunsAreSim(p, q, prefix);
      NextIsSim(Exec(p, prefix), Exec(q, prefix), step);
      NextKeepsIxInv(Exec(p, prefix), step);
      NextKeepsAcctInv(Exec(p, prefix), step);
    }
  }

  /**
   * Pruning is unobservable. Take any state of an in-order run of the pruning coordinator in which
   * both frontiers are set, and the same state with pruning switched off: on every in-order
   * continuation the two emit the same instruction and account slots.
   */
  lemma PruningIsUnobservable(commitAt: CommitAt, retention: nat, history: seq<Step>, future: seq<Step>)
    requires InOrder(Start(commitAt, Some(retention)), history)
    requires var st := Exec(Start(commitAt, Some(retention)), history).st; st.ixFrontier.Some? && st.acctFrontier.Some?
    requires InOrder(Exec(Start(commitAt, Some(retention)), history), future)
    ensures var run := Exec(Start(commitAt, Some(retention)), history);
            var forgetful, exact := Exec(run, future), Exec(run.(st := run.st.(retention := None)), future);
            forgetful.ixOut == exact.ixOut && forgetful.acctOut == exact.acctOut
  {
    InstructionsAreOrdered(commitAt, Some(retention), history);
    AccountsAreOrdered(commitAt, Some(retention), history);
    var run := Exec(Start(commitAt, Some(retention)), history);
    RunsAreSim(run, run.(st := run.st.(retention := None)), future);
  }

  // ---- Both frontiers are needed ----

  /** A coordinator that still knows the discard of `slot` gives the slot nothing to show. */
  ghost predicate Shut(st: State, slot: Slot) {
    && st.retention.None? && slot in st.discarded
    && (slot in st.buffer ==>
          var b := st.buffer[slot];
          && !b.ix.drained && b.ix.parsedTx == 0 && b.stats.filteredAcct == 0
          && (b.ix.metadata.Some? ==> b.ix.metadata.value.expectedTxCount > 0))
  }

  predicate FreezesEmpty(e: Event, slot: Slot) {
    e.BlockFrozen? && e.slot == slot && e.metadata.expectedTxCount == 0
  }

  predicate NeverFreezesEmpty(steps: seq<Step>, slot: Slot) {
    forall k :: 0 <= k < |steps| && (steps[k].FromSource? || steps[k].FromHandler?) ==> !FreezesEmpty(steps[k].event, slot)
  }

  lemma SourceKeepsShut(st: State, e: Event, slot: Slot)
    requires Shut(st, slot) && e.FromSource() && !FreezesEmpty(e, slot)
    ensures Shut(st.Apply(e), slot)
  {
  }

  lemma ParsedKeepsShut(st: State, e: Event, slot: Slot)
    requires Shut(st, slot) && !e.FromSource()
    ensures Shut(st.Apply(e), slot)
  {
  }

  /** No instruction slot goes out for it, and no account slot with a filtered account. */
  ghost predicate ShowsNothing(run: Run, slot: Slot) {
    && (forall o :: o in run.ixOut ==> o.slot != slot)
    && (forall o :: o in run.acctOut && o.slot == slot ==> o.stats.filteredAcct == 0)
  }

  lemma IxDrainKeepsShut(run: Run, slot: Slot)
    requires Shut(run.st, slot) && ShowsNothing(run, slot)
    ensures Shut(run.Next(DrainInstructions).st, slot) && ShowsNothing(run.Next(DrainInstructions), slot)
  {
    var out := DrainIx(run.st).out;
    var swept := DrainIxSweeps(run.st);
    forall o | o in out ensures o.slot != slot { assert IxFlushed(run.st, o); }
    if slot in run.st.buffer {
      assert IxEntryStep(run.st.buffer[slot], swept.buffer[slot]);
      CleanedEntry(swept, slot);
    }
    assert swept.discarded == run.st.discarded && swept.retention.None?;
  }

  lemma AcctDrainKeepsShut(run: Run, slot: Slot)
    requires Shut(run.st, slot) && ShowsNothing(run, slot)
    ensures Shut(run.Next(DrainAccounts).st, slot) && ShowsNothing(run.Next(DrainAccounts), slot)
  {
    var out := DrainAcct(run.st).out;
    var swept := DrainAcctSweeps(run.st);
    forall o | o in out && o.slot == slot ensures o.stats.filteredAcct == 0 { assert AcctFlushed(run.st, o); }
    if slot in run.st.buffer {
      assert AcctEntryStep(run.st.buffer[slot], swept.buffer[slot]);
      CleanedEntry(swept, slot);
    }
    assert swept.discarded == run.st.discarded && swept.retention.None?;
  }

  lemma {:induction false} ShutShowsNothing(run: Run, steps: seq<Step>, slot: Slot)
    requires Shut(run.st, slot) && ShowsNothing(run, slot)
    requires NeverFreezesEmpty(steps, slot)
    ensures Shut(Exec(run, steps).st, slot) && ShowsNothing(Exec(run, steps), slot)
  {
    if steps != [] {
      var prefix, step := steps[..|steps| - 1], steps[|steps| - 1];
      ShutShowsNothing(run, prefix, slot);
      var mid := Exec(run, prefix);
      match step
      case FromSource(e) => if e.FromSource() { SourceKeepsShut(mid.st, e, slot); } else { ParsedKeepsShut(mid.st, e, slot); }
      case FromHandler(_, e) => if e.FromSource() { SourceKeepsShut(mid.st, e, slot); } else { ParsedKeepsShut(mid.st, e, slot); }
      case DrainInstructions => IxDrainKeepsShut(mid, slot);
      case DrainAccounts => AcctDrainKeepsShut(mid, slot);
    }
  }

  /** What a forgetful and an exact coordinator emit differs. */
  ghost predicate Differ(forgetful: State, exact: State, steps: seq<Step>) {
    var p, q := Exec(Run(forgetful, [], []), steps), Exec(Run(exact, [], []), steps);
    p.ixOut != q.ixOut || p.acctOut != q.acctOut
  }

  /** Three in-order steps, one by one. */
  lemma StepByStep(run: Run, x: Step, rest: seq<Step>)
    requires InOrderStep(run.st, x) && InOrder(run.Next(x), rest)
    ensures InOrder(run, [x] + rest) && Exec(run, [x] + rest) == Exec(run.Next(x), rest)
  {
    ExecOne(run, x);
    ExecAppend(run, [x], rest);
  }

  predicate InOrderStep(st: State, step: Step) { IxInOrderStep(st, step) && AcctInOrderStep(st, step) }

  /** Without an instruction frontier, a forgotten slot's one announced transaction is believed. */
  lemma ForgottenInstructions(st: State, slot: Slot) returns (cont: seq<Step>)
    requires st.ixFrontier.None? && slot !in st.discarded && slot !in st.buffer
    ensures var run := Run(st, [], []);
            InOrder(run, cont) && NeverFreezesEmpty(cont, slot) && exists o :: o in Exec(run, cont).ixOut && o.slot == slot
  {
    var run := Run(st, [], []);
    var freeze := BlockFrozen(slot, Metadata(0, 0, 1));
    var frozen := run.Next(FromSource(freeze));
    var clear := ClearBelow(frozen, slot);
    var tail := BelievedTransaction(Exec(frozen, clear), slot);
    cont := EventThenDiscards(run, freeze, clear, tail, slot);
  }

  lemma EventThenDiscards(run: Run, x: Event, clear: seq<Step>, tail: seq<Step>, slot: Slot) returns (cont: seq<Step>)
    requires InOrderStep(run.st, FromSource(x)) && !FreezesEmpty(x, slot) && OnlyDiscards(clear)
    requires var next := run.Next(FromSource(x)); InOrder(next, clear) && InOrder(Exec(next, clear), tail)
    requires NeverFreezesEmpty(tail, slot)
    ensures InOrder(run, cont) && NeverFreezesEmpty(cont, slot)
    ensures Exec(run, cont) == Exec(Exec(run.Next(FromSource(x)), clear), tail)
  {
    var next := run.Next(FromSource(x));
    ExecAppend(next, clear, tail);
    StepByStep(run, FromSource(x), clear + tail);
    cont := [FromSource(x)] + (clear + tail);
  }

  lemma BelievedTransaction(run: Run, slot: Slot) returns (cont: seq<Step>)
    requires run.ixOut == [] && run.st.ixFrontier.None? && slot !in run.st.discarded && UndrainedBelow(run.st, slot) == {}
    requires slot in run.st.buffer && run.st.buffer[slot].ix == EMPTY_BUFFER.ix.(metadata := Some(Metadata(0, 0, 1)))
    requires run.st.buffer[slot].acct == EMPTY_BUFFER.acct
    ensures InOrder(run, cont) && NeverFreezesEmpty(cont, slot) && exists o :: o in Exec(run, cont).ixOut && o.slot == slot
  {
    var sighting, parsed, confirm := AccountEventSeen(slot), TransactionParsed(slot), SlotConfirmed(slot);
    Readied(run.st, slot);
    cont := ThreeEventsGoOut(run, sighting, parsed, confirm, slot);
  }

  /** Three events that make `slot` ready, and the drain that takes it out. */
  lemma ThreeEventsGoOut(run: Run, x: Event, y: Event, z: Event, slot: Slot) returns (cont: seq<Step>)
    requires run.ixOut == []
    requires var a := run.st.Apply(x); var b := a.Apply(y); var c := b.Apply(z);
             && InOrderStep(run.st, FromSource(x)) && InOrderStep(a, FromHandler(0, y)) && InOrderStep(b, FromSource(z))
             && slot in c.buffer && UndrainedBelow(c, slot) == {}
             && var ix := c.buffer[slot].ix; !ix.drained && ix.Gate() && c.ParentOk(ix)
    requires !FreezesEmpty(x, slot) && !FreezesEmpty(y, slot) && !FreezesEmpty(z, slot)
    ensures InOrder(run, cont) && NeverFreezesEmpty(cont, slot) && exists o :: o in Exec(run, cont).ixOut && o.slot == slot
  {
    ReadyGoesOut(run.(st := run.st.Apply(x).Apply(y).Apply(z)), slot);
    ThreeEvents(run, x, y, z, [DrainInstructions]);
    cont := FrozenByNone(x, y, z, slot);
  }

  lemma FrozenByNone(x: Event, y: Event, z: Event, slot: Slot) returns (cont: seq<Step>)
    requires !FreezesEmpty(x, slot) && !FreezesEmpty(y, slot) && !FreezesEmpty(z, slot)
    ensures cont == [FromSource(x)] + ([FromHandler(0, y)] + ([FromSource(z)] + [DrainInstructions])) && NeverFreezesEmpty(cont, slot)
  {
    cont := [FromSource(x)] + ([FromHandler(0, y)] + ([FromSource(z)] + [DrainInstructions]));
  }

  lemma ReadyGoesOut(run: Run, slot: Slot)
    requires run.ixOut == [] && slot in run.st.buffer && UndrainedBelow(run.st, slot) == {}
    requires var ix := run.st.buffer[slot].ix; !ix.drained && ix.Gate() && run.st.ParentOk(ix)
    ensures InOrder(run, [DrainInstructions]) && exists o :: o in Exec(run, [DrainInstructions]).ixOut && o.slot == slot
  {
    ReadyHeadIsDrained(run.st, slot);
    assert run.Next(DrainInstructions).ixOut == DrainIx(run.st).out;
    ExecOne(run, DrainInstructions);
  }

  lemma ThreeEvents(run: Run, x: Event, y: Event, z: Event, rest: seq<Step>)
    requires var a := run.st.Apply(x); var b := a.Apply(y);
             && InOrderStep(run.st, FromSource(x)) && InOrderStep(a, FromHandler(0, y)) && InOrderStep(b, FromSource(z))
             && InOrder(run.(st := b.Apply(z)), rest)
    ensures var all := [FromSource(x)] + ([FromHandler(0, y)] + ([FromSource(z)] + rest));
            InOrder(run, all) && Exec(run, all) == Exec(run.(st := run.st.Apply(x).Apply(y).Apply(z)), rest)
  {
    var a := run.(st := run.st.Apply(x));
    var b := a.(st := a.st.Apply(y));
    StepByStep(b, FromSource(z), rest);
    StepByStep(a, FromHandler(0, y), [FromSource(z)] + rest);
    StepByStep(run, FromSource(x), [FromHandler(0, y)] + ([FromSource(z)] + rest));
  }

  lemma Readied(st: State, slot: Slot)
    requires st.ixFrontier.None? && slot !in st.discarded && UndrainedBelow(st, slot) == {}
    requires slot in st.buffer && st.buffer[slot].ix == EMPTY_BUFFER.ix.(metadata := Some(Metadata(0, 0, 1)))
    requires st.buffer[slot].acct == EMPTY_BUFFER.acct
    ensures var a := st.Apply(AccountEventSeen(slot));
            var b := a.Apply(TransactionParsed(slot));
            var c := b.Apply(SlotConfirmed(slot));
            && !StaleGate(b, SlotConfirmed(slot))
            && slot in c.buffer && UndrainedBelow(c, slot) == {}
            && var ix := c.buffer[slot].ix; !ix.drained && ix.Gate() && c.ParentOk(ix)
  {
    var a := st.Apply(AccountEventSeen(slot));
    var b := a.Apply(TransactionParsed(slot));
    var c := b.Apply(SlotConfirmed(slot));
    assert a.buffer == st.buffer && slot in a.eventCounts && a.eventCounts[slot] > 0;
    assert b.eventCounts == a.eventCounts && b.buffer[slot].ix.parsedTx == 1;
    ApplyIsLocal(a, TransactionParsed(slot));
    ApplyIsLocal(b, SlotConfirmed(slot));
    assert c.buffer[slot].ix == b.buffer[slot].ix.(committed := true);
    assert UndrainedBelow(c, slot) <= UndrainedBelow(st, slot);
  }

  function Commitment(commitAt: CommitAt, slot: Slot): Event {
    if commitAt == AtConfirmed then SlotConfirmed(slot) else SlotFinalized(slot)
  }

  /** Without an account frontier, a forgotten slot's one filtered account is believed. */
  lemma ForgottenAccounts(st: State, slot: Slot) returns (cont: seq<Step>)
    requires st.acctFrontier.None? && slot !in st.discarded && slot !in st.buffer && slot !in st.eventCounts
    ensures var run := Run(st, [], []);
            && InOrder(run, cont) && NeverFreezesEmpty(cont, slot)
            && exists o :: o in Exec(run, cont).acctOut && o.slot == slot && o.stats.filteredAcct == 1
  {
    var filtered, commit := ParseStats(slot, AccountFiltered), Commitment(st.commitAt, slot);
    FilteredOpensGate(st, slot);
    var b := Run(st.Apply(filtered).Apply(commit), [], []);
    var tail := OpenGateGoesOut(b, slot);
    assert Exec(b, tail).acctOut[0].stats.filteredAcct == 1;
    forall k | 0 <= k < |tail| - 1 ensures tail[k].FromSource? && tail[k].event.SlotDiscarded? { assert tail[..|tail| - 1][k] == tail[k]; }
    TwoEvents(Run(st, [], []), filtered, commit, tail);
    cont := [FromHandler(0, filtered)] + ([FromSource(commit)] + tail);
  }

  lemma TwoEvents(run: Run, x: Event, y: Event, rest: seq<Step>)
    requires InOrderStep(run.st, FromHandler(0, x)) && InOrderStep(run.st.Apply(x), FromSource(y))
    requires InOrder(run.(st := run.st.Apply(x).Apply(y)), rest)
    ensures var all := [FromHandler(0, x)] + ([FromSource(y)] + rest);
            InOrder(run, all) && Exec(run, all) == Exec(run.(st := run.st.Apply(x).Apply(y)), rest)
  {
    var a := run.(st := run.st.Apply(x));
    StepByStep(a, FromSource(y), rest);
    StepByStep(run, FromHandler(0, x), [FromSource(y)] + rest);
  }

  lemma FilteredOpensGate(st: State, slot: Slot)
    requires st.acctFrontier.None? && slot !in st.discarded && slot !in st.buffer && slot !in st.eventCounts
    ensures var commit := Commitment(st.commitAt, slot);
            var a := st.Apply(ParseStats(slot, AccountFiltered));
            var b := a.Apply(commit);
            && !StaleGate(a, commit) && slot in b.buffer
            && b.buffer[slot].stats.filteredAcct == 1 && !b.buffer[slot].acct.drained && b.buffer[slot].acct.Gate()
  {
    var a := st.Apply(ParseStats(slot, AccountFiltered));
    assert a.buffer[slot].stats.filteredAcct == 1 && a.buffer[slot].acct == EMPTY_BUFFER.acct.(processed := 1);
    assert a.eventCounts == st.eventCounts && a.acctFrontier.None?;
  }

  /**
   * Forgetting a discard shows if and only if a frontier is still unset: then, and only then, some
   * in-order continuation makes the coordinator that has forgotten it and one that has not emit
   * different slots.
   */
  lemma ForgottenTooEarly(st: State, slot: Slot)
    requires IxInv(st) && AcctInv(st)
    requires slot in st.discarded && slot !in st.Pruned().discarded && slot !in st.buffer && slot !in st.eventCounts
    ensures (exists cont :: InOrder(Run(st.Pruned(), [], []), cont) && Differ(st.Pruned(), st.(retention := None), cont))
            <==> st.ixFrontier.None? || st.acctFrontier.None?
  {
    var forgetful, exact := st.Pruned(), st.(retention := None);
    if st.ixFrontier.None? {
      var cont := ForgottenInstructions(forgetful, slot);
      ShutShowsNothing(Run(exact, [], []), cont, slot);
      assert Differ(forgetful, exact, cont);
    } else if st.acctFrontier.None? {
      var cont := ForgottenAccounts(forgetful, slot);
      ShutShowsNothing(Run(exact, [], []), cont, slot);
      assert Differ(forgetful, exact, cont);
    } else {
      assert Sim(forgetful, exact);
      forall cont | InOrder(Run(forgetful, [], []), cont) ensures !Differ(forgetful, exact, cont) {
        RunsAreSim(Run(forgetful, [], []), Run(exact, [], []), cont);
      }
    }
  }
}
