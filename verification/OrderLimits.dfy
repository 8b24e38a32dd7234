/** Both in-order hypotheses are exact. */
module OrderLimits {
  // A lifecycle event is dropped only when both frontiers have passed its slot. So metadata can make
  // ready a buffer that only the instruction frontier has passed, a commitment can freeze an empty gate
  // that only the account frontier has passed, and then that frontier can move back.

  import opened Basics
  import opened Records
  import opened SlotBuffer
  import opened Coordinator
  import opened Drains
  import opened Runs

  lemma {:induction false} ExecAppend(run: Run, a: seq<Step>, b: seq<Step>)
    ensures Exec(run, a + b) == Exec(Exec(run, a), b)
    ensures IxInOrder(run, a + b) <==> IxInOrder(run, a) && IxInOrder(Exec(run, a), b)
    ensures AcctInOrder(run, a + b) <==> AcctInOrder(run, a) && AcctInOrder(Exec(run, a), b)
    decreases |b|
  {
    if b == [] {
      assert a + b == a;
    } else {
      assert (a + b)[..|a + b| - 1] == a + b[..|b| - 1];
      ExecAppend(run, a, b[..|b| - 1]);
    }
  }

  lemma ExecOne(run: Run, step: Step)
    ensures Exec(run, [step]) == run.Next(step)
    ensures IxInOrder(run, [step]) <==> IxInOrderStep(run.st, step)
    ensures AcctInOrder(run, [step]) <==> AcctInOrderStep(run.st, step)
  {
    assert [step][..0] == [];
    assert Exec(run, []) == run && InOrder(run, []);
  }

  function UndrainedBelow(st: State, slot: Slot): set<Slot> {
    set s | s in st.buffer && s < slot && !st.buffer[s].ix.drained
  }

  /** `run'` differs from `run` in no output and in nothing that concerns `slot` or the frontiers. */
  ghost predicate SameFor(run: Run, run': Run, slot: Slot) {
    && run'.ixOut == run.ixOut && run'.acctOut == run.acctOut
    && run'.st.ixFrontier == run.st.ixFrontier && run'.st.acctFrontier == run.st.acctFrontier
    && run'.st.retention == run.st.retention && run'.st.commitAt == run.st.commitAt
    && slot in run'.st.buffer && slot in run.st.buffer && run'.st.buffer[slot] == run.st.buffer[slot]
    && (slot in run'.st.discarded ==> slot in run.st.discarded)
  }

  predicate OnlyDiscards(steps: seq<Step>) {
    forall k :: 0 <= k < |steps| ==> steps[k].FromSource? && steps[k].event.SlotDiscarded?
  }

  /** Everything below `slot` that could hold up an instruction drain can be discarded. */
  lemma {:induction false} ClearBelow(run: Run, slot: Slot) returns (cont: seq<Step>)
    requires slot in run.st.buffer
    ensures InOrder(run, cont) && SameFor(run, Exec(run, cont), slot) && OnlyDiscards(cont)
    ensures UndrainedBelow(Exec(run, cont).st, slot) == {}
    decreases UndrainedBelow(run.st, slot)
  {
    var below := UndrainedBelow(run.st, slot);
    if below == {} {
      return [];
    }
    var s := Least(below);
    var step := FromSource(SlotDiscarded(s, Dead));
    var next := run.Next(step);
    ApplyIsLocal(run.st, step.event);
    assert s !in UndrainedBelow(next.st, slot) && UndrainedBelow(next.st, slot) <= below;
    var rest := ClearBelow(next, slot);
    cont := [step] + rest;
    ExecOne(run, step);
    ExecAppend(run, [step], rest);
  }

  lemma {:induction false} HeadGoesOut(st: State, slots: seq<Slot>, i: nat, j: nat)
    requires i <= j < |slots| && forall s :: s in slots ==> s in st.buffer
    requires forall k :: i <= k < j ==> st.buffer[slots[k]].ix.drained
    requires var ix := st.buffer[slots[j]].ix; !ix.drained && ix.Gate() && st.ParentOk(ix)
    ensures IxLoop(st, slots, i).out != [] && IxLoop(st, slots, i).out[0].slot == slots[j]
    decreases j - i
  {
    if i < j {
      HeadGoesOut(st, slots, i + 1, j);
    }
  }

  /** With nothing undrained below it and its parent settled, a ready slot is the next to go out. */
  lemma ReadyHeadIsDrained(st: State, slot: Slot)
    requires slot in st.buffer && UndrainedBelow(st, slot) == {}
    requires var ix := st.buffer[slot].ix; !ix.drained && ix.Gate() && st.ParentOk(ix)
    ensures DrainIx(st).out != [] && DrainIx(st).out[0].slot == slot
  {
    var slots := Ascending(st.buffer.Keys);
    assert slot in slots;
    var j :| 0 <= j < |slots| && slots[j] == slot;
    forall k | 0 <= k < j ensures st.buffer[slots[k]].ix.drained {
      assert slots[k] in slots && slots[k] !in UndrainedBelow(st, slot);
    }
    HeadGoesOut(st, slots, 0, j);
  }

  /** Discarding the parent settles it: a slot above the frontier is not pruned at once. */
  lemma ParentSettled(run: Run, slot: Slot) returns (cont: seq<Step>)
    requires slot in run.st.buffer && run.st.buffer[slot].ix.metadata.Some?
    requires AtOrBehind(run.st.ixFrontier, slot) && UndrainedBelow(run.st, slot) == {}
    ensures InOrder(run, cont) && SameFor(run, Exec(run, cont), slot)
    ensures UndrainedBelow(Exec(run, cont).st, slot) == {}
    ensures Exec(run, cont).st.ParentOk(run.st.buffer[slot].ix)
  {
    var parent := run.st.buffer[slot].ix.metadata.value.parentSlot;
    cont := [];
    if !AtOrBehind(run.st.ixFrontier, parent) {
      var step := FromSource(SlotDiscarded(parent, Dead));
      cont := [step];
      ExecOne(run, step);
      ApplyIsLocal(run.st, step.event);
      assert parent in run.Next(step).st.discarded;
    }
  }

  /** The confirmation makes the stale slot ready and holds nothing up. */
  lemma ConfirmMakesReady(st: State, slot: Slot)
    requires slot in st.buffer && UndrainedBelow(st, slot) == {} && !AtOrBehind(st.acctFrontier, slot)
    requires var ix := st.buffer[slot].ix;
             !ix.drained && ix.metadata.Some? && ix.metadata.value.expectedTxCount == 0 && st.ParentOk(ix)
    ensures var st' := st.Apply(SlotConfirmed(slot));
            && slot in st'.buffer && UndrainedBelow(st', slot) == {}
            && var ix := st'.buffer[slot].ix; !ix.drained && ix.Gate() && st'.ParentOk(ix)
  {
    var st' := st.Apply(SlotConfirmed(slot));
    ApplyIsLocal(st, SlotConfirmed(slot));
    assert UndrainedBelow(st', slot) <= UndrainedBelow(st, slot);
    assert st'.buffer[slot].ix == st.buffer[slot].ix.(committed := true);
  }

  lemma ConfirmAndDrain(ready: Run, slot: Slot)
    requires slot in ready.st.buffer && UndrainedBelow(ready.st, slot) == {} && ready.ixOut == []
    requires !AtOrBehind(ready.st.acctFrontier, slot)
    requires var ix := ready.st.buffer[slot].ix;
             !ix.drained && ix.metadata.Some? && ix.metadata.value.expectedTxCount == 0 && ready.st.ParentOk(ix)
    ensures var tail := [FromSource(SlotConfirmed(slot)), DrainInstructions];
            InOrder(ready, tail) && Exec(ready, tail).ixOut != [] && Exec(ready, tail).ixOut[0].slot == slot
  {
    var confirm := FromSource(SlotConfirmed(slot));
    var confirmed := ready.Next(confirm);
    ConfirmMakesReady(ready.st, slot);
    ReadyHeadIsDrained(confirmed.st, slot);
    ExecOne(ready, confirm);
    ExecOne(confirmed, DrainInstructions);
    ExecAppend(ready, [confirm], [DrainInstructions]);
    assert [confirm] + [DrainInstructions] == [confirm, DrainInstructions];
  }

  /** From a stale block an in-order continuation emits a slot the frontier had already passed. */
  lemma StaleBlockBreaksOrder(st: State, e: Event) returns (cont: seq<Step>)
    requires IxInv(st) && StaleBlock(st, e)
    ensures var run := Run(st.Apply(e), [], []);
            && InOrder(run, cont)
            && Exec(run, cont).ixOut != []
            && AtOrBehind(st.ixFrontier, Exec(run, cont).ixOut[0].slot)
  {
    var run := Run(st.Apply(e), [], []);
    var clear := ClearBelow(run, e.slot);
    var mid := Exec(run, clear);
    var settle := ParentSettled(mid, e.slot);
    ConfirmAndDrain(Exec(mid, settle), e.slot);
    var tail := [FromSource(SlotConfirmed(e.slot)), DrainInstructions];
    cont := clear + settle + tail;
    ExecAppend(run, clear, settle);
    ExecAppend(run, clear + settle, tail);
  }

  /** Continuations of a sound state without a stale block emit only above its frontier. */
  lemma {:induction false} ContinuationsStayAbove(run: Run, steps: seq<Step>)
    requires IxInv(run.st) && IxInOrder(run, steps) && run.ixOut == []
    ensures var end := Exec(run, steps);
            && IxInv(end.st)
            && (forall o :: o in end.ixOut ==> !AtOrBehind(run.st.ixFrontier, o.slot))
            && (run.st.ixFrontier.Some? ==> end.st.ixFrontier.Some? && run.st.ixFrontier.value <= end.st.ixFrontier.value)
  {
    if steps != [] {
      var prefix, step := steps[..|steps| - 1], steps[|steps| - 1];
      ContinuationsStayAbove(run, prefix);
      var mid := Exec(run, prefix);
      NextKeepsIxInv(mid, step);
      if step.DrainInstructions? {
        var out := DrainIx(mid.st).out;
        var swept := DrainIxSweeps(mid.st);
        IxSweepKeepsInv(mid.st, swept, out);
        CleanedFacts(swept);
        assert out != [] ==> out[|out| - 1] in out;
      } else if step.DrainAccounts? {
        var swept := DrainAcctSweeps(mid.st);
        CleanedFacts(swept);
      } else {
        ApplyIsLocal(mid.st, step.event);
      }
    }
  }

  /**
   * Exactly when an event endangers the order of instruction slots: some continuation without a
   * further stale block emits one at or behind the frontier if and only if the event is a stale block.
   */
  lemma OrderBreaksIffStaleBlock(st: State, e: Event)
    requires IxInv(st)
    ensures (exists cont :: IxInOrder(Run(st.Apply(e), [], []), cont)
              && exists o :: o in Exec(Run(st.Apply(e), [], []), cont).ixOut && AtOrBehind(st.ixFrontier, o.slot))
            <==> StaleBlock(st, e)
  {
    var run := Run(st.Apply(e), [], []);
    ApplyIsLocal(st, e);
    if StaleBlock(st, e) {
      var cont := StaleBlockBreaksOrder(st, e);
      assert Exec(run, cont).ixOut[0] in Exec(run, cont).ixOut;
    } else {
      ApplyKeepsInv(st, e);
      forall cont | IxInOrder(run, cont) {
        ContinuationsStayAbove(run, cont);
      }
    }
  }

  /** The set-up of the finalized-mode test reaches a stale block: 200 is out, then 100 freezes. */
  lemma StaleBlockIsReachable()
    ensures var steps := [FromSource(BlockFrozen(200, Metadata(199, 0, 0))), FromSource(SlotConfirmed(200)), DrainInstructions];
            var start := Start(AtFinalized, Some(RETENTION));
            InOrder(start, steps) && StaleBlock(Exec(start, steps).st, BlockFrozen(100, Metadata(99, 0, 0)))
  {
    var start := Start(AtFinalized, Some(RETENTION));
    var x, y, z := FromSource(BlockFrozen(200, Metadata(199, 0, 0))), FromSource(SlotConfirmed(200)), DrainInstructions;
    var ready := ThreeSteps(start, x, y, z);
    assert ready.st.buffer.Keys == {200};
    OneReadySlot(ready.st, 200);
  }

  lemma ThreeSteps(run: Run, x: Step, y: Step, z: Step) returns (mid: Run)
    ensures mid == run.Next(x).Next(y) && Exec(run, [x, y, z]) == mid.Next(z)
    ensures IxInOrder(run, [x, y, z]) <==>
            IxInOrderStep(run.st, x) && IxInOrderStep(run.Next(x).st, y) && IxInOrderStep(mid.st, z)
    ensures AcctInOrder(run, [x, y, z]) <==>
            AcctInOrderStep(run.st, x) && AcctInOrderStep(run.Next(x).st, y) && AcctInOrderStep(mid.st, z)
  {
    mid := run.Next(x).Next(y);
    TwoSteps(run, x, y);
    ExecOne(mid, z);
    ExecAppend(run, [x, y], [z]);
    assert [x, y] + [z] == [x, y, z];
  }

  lemma OneReadySlot(st: State, slot: Slot)
    requires st.buffer.Keys == {slot}
    requires var ix := st.buffer[slot].ix; !ix.drained && ix.Gate() && st.ParentOk(ix)
    ensures var st' := DrainIx(st).st;
            st'.ixFrontier == Some(slot) && st'.acctFrontier == st.acctFrontier && st'.buffer.Keys <= {slot}
  {
    ReadyHeadIsDrained(st, slot);
    var out := DrainIx(st).out;
    var swept := DrainIxSweeps(st);
    assert out[|out| - 1] in out;
    assert IxFlushed(st, out[|out| - 1]);
    CleanedFacts(swept);
  }

  // ---- The account half ----

  function UndrainedAcctBelow(st: State, slot: Slot): set<Slot> {
    set s | s in st.buffer && s < slot && !st.buffer[s].acct.drained
  }

  /** Everything below `slot` that could hold up an account drain can be discarded. */
  lemma {:induction false} ClearAcctBelow(run: Run, slot: Slot) returns (cont: seq<Step>)
    requires slot in run.st.buffer
    ensures InOrder(run, cont) && SameFor(run, Exec(run, cont), slot) && OnlyDiscards(cont)
    ensures UndrainedAcctBelow(Exec(run, cont).st, slot) == {}
    decreases UndrainedAcctBelow(run.st, slot)
  {
    var below := UndrainedAcctBelow(run.st, slot);
    if below == {} {
      return [];
    }
    var s := Least(below);
    var step := FromSource(SlotDiscarded(s, Dead));
    var next := run.Next(step);
    ApplyIsLocal(run.st, step.event);
    assert s !in UndrainedAcctBelow(next.st, slot) && UndrainedAcctBelow(next.st, slot) <= below;
    var rest := ClearAcctBelow(next, slot);
    cont := [step] + rest;
    ExecOne(run, step);
    ExecAppend(run, [step], rest);
  }

  lemma {:induction false} AcctHeadGoesOut(st: State, slots: seq<Slot>, i: nat, j: nat)
    requires i <= j < |slots| && forall s :: s in slots ==> s in st.buffer
    requires forall k :: i <= k < j ==> st.buffer[slots[k]].acct.drained
    requires var acct := st.buffer[slots[j]].acct; !acct.drained && acct.Gate()
    ensures AcctLoop(st, slots, i).out != [] && AcctLoop(st, slots, i).out[0] == st.buffer[slots[j]].AcctSlot(slots[j])
    decreases j - i
  {
    if i < j {
      AcctHeadGoesOut(st, slots, i + 1, j);
    }
  }

  /** With nothing undrained below it, a slot whose account gate is open is the next to go out. */
  lemma OpenHeadIsDrained(st: State, slot: Slot)
    requires slot in st.buffer && UndrainedAcctBelow(st, slot) == {}
    requires var acct := st.buffer[slot].acct; !acct.drained && acct.Gate()
    ensures DrainAcct(st).out != [] && DrainAcct(st).out[0] == st.buffer[slot].AcctSlot(slot)
  {
    var slots := Ascending(st.buffer.Keys);
    assert slot in slots;
    var j :| 0 <= j < |slots| && slots[j] == slot;
    forall k | 0 <= k < j ensures st.buffer[slots[k]].acct.drained {
      assert slots[k] in slots && slots[k] !in UndrainedAcctBelow(st, slot);
    }
    AcctHeadGoesOut(st, slots, 0, j);
  }

  /** Clearing what lies below it and draining sends an open account gate out. */
  lemma OpenGateGoesOut(run: Run, slot: Slot) returns (cont: seq<Step>)
    requires run.acctOut == [] && slot in run.st.buffer
    requires var acct := run.st.buffer[slot].acct; !acct.drained && acct.Gate()
    ensures InOrder(run, cont) && cont != [] && OnlyDiscards(cont[..|cont| - 1]) && cont[|cont| - 1].DrainAccounts?
    ensures Exec(run, cont).acctOut != [] && Exec(run, cont).acctOut[0] == run.st.buffer[slot].AcctSlot(slot)
  {
    var clear := ClearAcctBelow(run, slot);
    var mid := Exec(run, clear);
    OpenHeadIsDrained(mid.st, slot);
    cont := clear + [DrainAccounts];
    ExecOne(mid, DrainAccounts);
    ExecAppend(run, clear, [DrainAccounts]);
  }

  lemma StaleGateOpens(st: State, e: Event)
    requires StaleGate(st, e)
    ensures var st' := st.Apply(e);
            && e.slot in st'.buffer && !st'.buffer[e.slot].acct.drained && st'.buffer[e.slot].acct.Gate()
  {
  }

  /** From a stale gate an in-order continuation emits an account slot the frontier had already passed. */
  lemma StaleGateBreaksOrder(st: State, e: Event) returns (cont: seq<Step>)
    requires StaleGate(st, e)
    ensures var run := Run(st.Apply(e), [], []);
            && InOrder(run, cont)
            && Exec(run, cont).acctOut != []
            && AtOrBehind(st.acctFrontier, Exec(run, cont).acctOut[0].slot)
  {
    StaleGateOpens(st, e);
    cont := OpenGateGoesOut(Run(st.Apply(e), [], []), e.slot);
  }

  /** Continuations of a sound state without a stale gate emit only above its account frontier. */
  lemma {:induction false} AcctContinuationsStayAbove(run: Run, steps: seq<Step>)
    requires AcctInv(run.st) && AcctInOrder(run, steps) && run.acctOut == []
    ensures var end := Exec(run, steps);
            && AcctInv(end.st)
            && (forall o :: o in end.acctOut ==> !AtOrBehind(run.st.acctFrontier, o.slot))
            && (run.st.acctFrontier.Some? ==>
                  end.st.acctFrontier.Some? && run.st.acctFrontier.value <= end.st.acctFrontier.value)
  {
    if steps != [] {
      var prefix, step := steps[..|steps| - 1], steps[|steps| - 1];
      AcctContinuationsStayAbove(run, prefix);
      var mid := Exec(run, prefix);
      NextKeepsAcctInv(mid, step);
      if step.DrainAccounts? {
        var out := DrainAcct(mid.st).out;
        var swept := DrainAcctSweeps(mid.st);
        AcctSweepKeepsInv(mid.st, swept, out);
        CleanedFacts(swept);
        assert out != [] ==> out[|out| - 1] in out;
      } else if step.DrainInstructions? {
        var swept := DrainIxSweeps(mid.st);
        CleanedFacts(swept);
      } else {
        ApplyIsLocal(mid.st, step.event);
      }
    }
  }

  /**
   * Exactly when an event endangers the order of account slots: some continuation without a further
   * stale gate emits one at or behind the frontier if and only if the event is a stale gate.
   */
  lemma AccountOrderBreaksIffStaleGate(st: State, e: Event)
    requires AcctInv(st)
    ensures (exists cont :: AcctInOrder(Run(st.Apply(e), [], []), cont)
              && exists o :: o in Exec(Run(st.Apply(e), [], []), cont).acctOut && AtOrBehind(st.acctFrontier, o.slot))
            <==> StaleGate(st, e)
  {
    var run := Run(st.Apply(e), [], []);
    ApplyIsLocal(st, e);
    if StaleGate(st, e) {
      var cont := StaleGateBreaksOrder(st, e);
      assert Exec(run, cont).acctOut[0] in Exec(run, cont).acctOut;
    } else {
      ApplyKeepsInv(st, e);
      forall cont | AcctInOrder(run, cont) {
        AcctContinuationsStayAbove(run, cont);
      }
    }
  }

  /** A stale gate is reached too: slot 200 commits and its accounts go out, then 100 commits. */
  lemma StaleGateIsReachable()
    ensures var steps := [FromSource(SlotConfirmed(200)), DrainAccounts];
            var start := Start(AtConfirmed, Some(RETENTION));
            InOrder(start, steps) && StaleGate(Exec(start, steps).st, SlotConfirmed(100))
  {
    var start := Start(AtConfirmed, Some(RETENTION));
    var x := FromSource(SlotConfirmed(200));
    var mid := start.Next(x);
    FirstCommitment(start.st);
    OpenHeadIsDrained(mid.st, 200);
    OneOpenGate(mid.st, 200);
    TwoSteps(start, x, DrainAccounts);
  }

  lemma FirstCommitment(st: State)
    requires st == Init(AtConfirmed, Some(RETENTION))
    ensures !StaleBlock(st, SlotConfirmed(200)) && !StaleGate(st, SlotConfirmed(200))
    ensures var mid := st.Apply(SlotConfirmed(200));
            && mid.buffer.Keys == {200} && UndrainedAcctBelow(mid, 200) == {}
            && !mid.buffer[200].acct.drained && mid.buffer[200].acct.Gate()
            && mid.eventCounts == map[] && mid.ixFrontier.None? && mid.commitAt == AtConfirmed
  {
  }

  lemma TwoSteps(run: Run, x: Step, y: Step)
    ensures Exec(run, [x, y]) == run.Next(x).Next(y)
    ensures IxInOrder(run, [x, y]) <==> IxInOrderStep(run.st, x) && IxInOrderStep(run.Next(x).st, y)
    ensures AcctInOrder(run, [x, y]) <==> AcctInOrderStep(run.st, x) && AcctInOrderStep(run.Next(x).st, y)
  {
    ExecOne(run, x);
    ExecOne(run.Next(x), y);
    ExecAppend(run, [x], [y]);
    assert [x] + [y] == [x, y];
  }

  lemma OneOpenGate(st: State, slot: Slot)
    requires st.buffer.Keys == {slot} && DrainAcct(st).out != []
    ensures var st' := DrainAcct(st).st;
            && st'.acctFrontier == Some(slot) && st'.ixFrontier == st.ixFrontier && st'.commitAt == st.commitAt
            && st'.buffer.Keys <= {slot} && (forall s :: s in st'.eventCounts ==> s in st.eventCounts)
  {
    var out := DrainAcct(st).out;
    var swept := DrainAcctSweeps(st);
    assert out[|out| - 1] in out;
    assert AcctFlushed(st, out[|out| - 1]);
    CleanedFacts(swept);
  }
}
