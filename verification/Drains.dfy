/** What one drain does, in every state: it flushes ready slots, in order, and touches nothing else. */
module Drains {
  import opened Basics
  import opened Records
  import opened SlotBuffer
  import opened Coordinator

  /** `o` comes right after slot `prev`: its parent is out already, or never will be. */
  predicate Follows(prev: Option<Slot>, o: InstructionSlot, discarded: set<Slot>) {
    prev.None? || o.parentSlot <= prev.value || o.parentSlot in discarded
  }

  /** Each output follows the one before it, the first one follows `prev`. */
  ghost predicate Chained(prev: Option<Slot>, out: seq<InstructionSlot>, discarded: set<Slot>) {
    && (out != [] ==> Follows(prev, out[0], discarded))
    && forall i, j :: 0 <= i && j == i + 1 < |out| ==> Follows(Some(out[i].slot), out[j], discarded)
  }

  ghost predicate IxAscending(out: seq<InstructionSlot>) {
    forall i, j :: 0 <= i < j < |out| ==> out[i].slot < out[j].slot
  }

  ghost predicate AcctAscending(out: seq<AccountSlot>) {
    forall i, j :: 0 <= i < j < |out| ==> out[i].slot < out[j].slot
  }

  ghost predicate IxFlushed(st: State, o: InstructionSlot) {
    && o.slot in st.buffer
    && st.buffer[o.slot].ix.Gate()
    && !st.buffer[o.slot].ix.drained
    && o == st.buffer[o.slot].IxSlot(o.slot)
  }

  ghost predicate AcctFlushed(st: State, o: AccountSlot) {
    && o.slot in st.buffer
    && st.buffer[o.slot].acct.Gate()
    && !st.buffer[o.slot].acct.drained
    && o == st.buffer[o.slot].AcctSlot(o.slot)
  }

  /** A buffer is left alone, or it was ready and has been emptied. */
  ghost predicate IxEntryStep(b: Buffer, b': Buffer) {
    b' == b || (b' == b.(ix := b.ix.Emptied()) && b.ix.Gate() && !b.ix.drained)
  }

  ghost predicate AcctEntryStep(b: Buffer, b': Buffer) {
    b' == b || (b' == b.(acct := b.acct.Emptied()) && b.acct.Gate() && !b.acct.drained)
  }

  /** Only buffers changed, and those at or below `last` are all drained. */
  ghost predicate IxEntries(st: State, st': State, last: Slot) {
    && st'.buffer.Keys == st.buffer.Keys
    && (forall s :: s in st.buffer ==> IxEntryStep(st.buffer[s], st'.buffer[s]))
    && (forall s :: s in st'.buffer ==>
          if s <= last then st'.buffer[s].ix.drained else st'.buffer[s] == st.buffer[s])
  }

  ghost predicate IxOutputs(st: State, out: seq<InstructionSlot>) {
    && IxAscending(out)
    && (forall o :: o in out ==> IxFlushed(st, o))
    && Chained(st.ixFrontier, out, st.discarded)
  }

  /** `st'` is `st` after the slots of `out` were flushed, in order. */
  ghost predicate IxSweep(st: State, st': State, out: seq<InstructionSlot>) {
    && IxOutputs(st, out)
    && if out == [] then st' == st else
        var last := out[|out| - 1].slot;
        && st' == st.(buffer := st'.buffer, ixFrontier := Some(last))
        && IxEntries(st, st', last)
  }

  /** Only buffers changed, and those at or below `last` are all drained. */
  ghost predicate AcctEntries(st: State, st': State, last: Slot) {
    && st'.buffer.Keys == st.buffer.Keys
    && (forall s :: s in st.buffer ==> AcctEntryStep(st.buffer[s], st'.buffer[s]))
    && (forall s :: s in st'.buffer ==>
          if s <= last then st'.buffer[s].acct.drained else st'.buffer[s] == st.buffer[s])
  }

  ghost predicate AcctOutputs(st: State, out: seq<AccountSlot>) {
    && AcctAscending(out)
    && (forall o :: o in out ==> AcctFlushed(st, o))
  }

  /** `st'` is `st` after the slots of `out` were flushed, in order. */
  ghost predicate AcctSweep(st: State, st': State, out: seq<AccountSlot>) {
    && AcctOutputs(st, out)
    && if out == [] then st' == st else
        var last := out[|out| - 1].slot;
        && st' == st.(buffer := st'.buffer, acctFrontier := Some(last))
        && AcctEntries(st, st', last)
  }

  /** The loop changes buffers and the frontier only, and emits ascending slots it visits. */
  lemma {:induction false} IxLoopFrame(st: State, slots: seq<Slot>, i: nat)
    requires i <= |slots| && StrictlyAscending(slots) && forall s :: s in slots ==> s in st.buffer
    ensures var d := IxLoop(st, slots, i);
            && d.st.buffer.Keys == st.buffer.Keys
            && (forall o :: o in d.out ==> i < |slots| && slots[i] <= o.slot)
            && if d.out == [] then d.st == st
               else d.st == st.(buffer := d.st.buffer, ixFrontier := Some(d.out[|d.out| - 1].slot))
    decreases |slots| - i
  {
    if i < |slots| {
      var b := st.buffer[slots[i]];
      if b.ix.drained {
        IxLoopFrame(st, slots, i + 1);
      } else if b.ix.Gate() && st.ParentOk(b.ix) {
        IxLoopFrame(st.FlushIx(slots[i]), slots, i + 1);
      }
    }
  }

  /** Drained if the loop emitted it or a later slot; untouched otherwise, and if the loop had passed it. */
  ghost predicate IxEntryDone(st: State, d: Drained<InstructionSlot>, slot: Slot, passed: bool)
    requires slot in st.buffer
  {
    && slot in d.st.buffer
    && IxEntryStep(st.buffer[slot], d.st.buffer[slot])
    && (passed || d.out == [] || d.out[|d.out| - 1].slot < slot ==> d.st.buffer[slot] == st.buffer[slot])
    && (!passed && d.out != [] && slot <= d.out[|d.out| - 1].slot ==> d.st.buffer[slot].ix.drained)
  }

  /** One buffer through the loop. */
  lemma {:induction false} IxLoopEntry(st: State, slots: seq<Slot>, i: nat, j: nat)
    requires i <= |slots| && j < |slots| && StrictlyAscending(slots)
    requires forall s :: s in slots ==> s in st.buffer
    ensures IxEntryDone(st, IxLoop(st, slots, i), slots[j], j < i)
    decreases |slots| - i
  {
    if i < |slots| {
      var b := st.buffer[slots[i]];
      if b.ix.drained {
        IxLoopEntry(st, slots, i + 1, j);
      } else if b.ix.Gate() && st.ParentOk(b.ix) {
        IxLoopFrame(st.FlushIx(slots[i]), slots, i + 1);
        IxLoopEntry(st.FlushIx(slots[i]), slots, i + 1, j);
      }
    }
  }

  /** The loop changes buffers and the frontier only, and emits ascending slots it visits. */
  lemma {:induction false} AcctLoopFrame(st: State, slots: seq<Slot>, i: nat)
    requires i <= |slots| && StrictlyAscending(slots) && forall s :: s in slots ==> s in st.buffer
    ensures var d := AcctLoop(st, slots, i);
            && d.st.buffer.Keys == st.buffer.Keys
            && (forall o :: o in d.out ==> i < |slots| && slots[i] <= o.slot)
            && if d.out == [] then d.st == st
               else d.st == st.(buffer := d.st.buffer, acctFrontier := Some(d.out[|d.out| - 1].slot))
    decreases |slots| - i
  {
    if i < |slots| {
      var b := st.buffer[slots[i]];
      if b.acct.drained {
        AcctLoopFrame(st, slots, i + 1);
      } else if b.acct.Gate() {
        AcctLoopFrame(st.FlushAcct(slots[i]), slots, i + 1);
      }
    }
  }

  /** Drained if the loop emitted it or a later slot; untouched otherwise, and if the loop had passed it. */
  ghost predicate AcctEntryDone(st: State, d: Drained<AccountSlot>, slot: Slot, passed: bool)
    requires slot in st.buffer
  {
    && slot in d.st.buffer
    && AcctEntryStep(st.buffer[slot], d.st.buffer[slot])
    && (passed || d.out == [] || d.out[|d.out| - 1].slot < slot ==> d.st.buffer[slot] == st.buffer[slot])
    && (!passed && d.out != [] && slot <= d.out[|d.out| - 1].slot ==> d.st.buffer[slot].acct.drained)
  }

  /** One buffer through the loop. */
  lemma {:induction false} AcctLoopEntry(st: State, slots: seq<Slot>, i: nat, j: nat)
    requires i <= |slots| && j < |slots| && StrictlyAscending(slots)
    requires forall s :: s in slots ==> s in st.buffer
    ensures AcctEntryDone(st, AcctLoop(st, slots, i), slots[j], j < i)
    decreases |slots| - i
  {
    if i < |slots| {
      var b := st.buffer[slots[i]];
      if b.acct.drained {
        AcctLoopEntry(st, slots, i + 1, j);
      } else if b.acct.Gate() {
        AcctLoopFrame(st.FlushAcct(slots[i]), slots, i + 1);
        AcctLoopEntry(st.FlushAcct(slots[i]), slots, i + 1, j);
      }
    }
  }

  /** What the loop emits: ready slots, ascending, each with the contents of its own buffer. */
  lemma {:induction false} IxLoopOutputs(st: State, slots: seq<Slot>, i: nat)
    requires i <= |slots| && StrictlyAscending(slots) && forall s :: s in slots ==> s in st.buffer
    ensures IxAscending(IxLoop(st, slots, i).out)
    ensures Chained(st.ixFrontier, IxLoop(st, slots, i).out, st.discarded)
    ensures forall o :: o in IxLoop(st, slots, i).out ==> IxFlushed(st, o)
    decreases |slots| - i
  {
    if i < |slots| {
      var slot := slots[i];
      var b := st.buffer[slot];
      if b.ix.drained {
        IxLoopOutputs(st, slots, i + 1);
      } else if b.ix.Gate() && st.ParentOk(b.ix) {
        var mid := st.FlushIx(slot);
        IxLoopOutputs(mid, slots, i + 1);
        IxLoopFrame(mid, slots, i + 1);
        var rest := IxLoop(mid, slots, i + 1).out;
        forall o | o in rest ensures slot < o.slot && IxFlushed(st, o) {
          assert IxFlushed(mid, o);
        }
      }
    }
  }

  /** What the loop emits: ready slots, ascending, each with the contents of its own buffer. */
  lemma {:induction false} AcctLoopOutputs(st: State, slots: seq<Slot>, i: nat)
    requires i <= |slots| && StrictlyAscending(slots) && forall s :: s in slots ==> s in st.buffer
    ensures AcctAscending(AcctLoop(st, slots, i).out)
    ensures forall o :: o in AcctLoop(st, slots, i).out ==> AcctFlushed(st, o)
    decreases |slots| - i
  {
    if i < |slots| {
      var slot := slots[i];
      var b := st.buffer[slot];
      if b.acct.drained {
        AcctLoopOutputs(st, slots, i + 1);
      } else if b.acct.Gate() {
        var mid := st.FlushAcct(slot);
        AcctLoopOutputs(mid, slots, i + 1);
        AcctLoopFrame(mid, slots, i + 1);
        var rest := AcctLoop(mid, slots, i + 1).out;
        forall o | o in rest ensures slot < o.slot && AcctFlushed(st, o) {
          assert AcctFlushed(mid, o);
        }
      }
    }
  }

  /** A buffer the loop empties is a buffer the loop emits. */
  lemma {:induction false} IxLoopEmits(st: State, slots: seq<Slot>, i: nat, s: Slot)
    requires i <= |slots| && StrictlyAscending(slots) && s in st.buffer
    requires forall t :: t in slots ==> t in st.buffer
    ensures var d := IxLoop(st, slots, i);
            s in d.st.buffer
            && (d.st.buffer[s] == st.buffer[s] || exists o :: o in d.out && o.slot == s)
    decreases |slots| - i
  {
    if i < |slots| {
      var b := st.buffer[slots[i]];
      if b.ix.drained {
        IxLoopEmits(st, slots, i + 1, s);
      } else if b.ix.Gate() && st.ParentOk(b.ix) {
        IxLoopEmits(st.FlushIx(slots[i]), slots, i + 1, s);
        var rest := IxLoop(st.FlushIx(slots[i]), slots, i + 1).out;
        assert b.IxSlot(slots[i]) in [b.IxSlot(slots[i])] + rest;
      }
    }
  }

  lemma IxLoopEntries(st: State, slots: seq<Slot>)
    requires StrictlyAscending(slots) && forall s :: s in slots <==> s in st.buffer
    requires IxLoop(st, slots, 0).out != []
    ensures var d := IxLoop(st, slots, 0); IxEntries(st, d.st, d.out[|d.out| - 1].slot)
  {
    IxLoopFrame(st, slots, 0);
    forall s | s in st.buffer ensures IxEntryDone(st, IxLoop(st, slots, 0), s, false) {
      assert s in slots;
      var j :| 0 <= j < |slots| && slots[j] == s;
      IxLoopEntry(st, slots, 0, j);
    }
    IxEntriesDone(st, IxLoop(st, slots, 0));
  }

  lemma IxEntriesDone(st: State, d: Drained<InstructionSlot>)
    requires d.out != [] && d.st.buffer.Keys == st.buffer.Keys
    requires forall s :: s in st.buffer ==> IxEntryDone(st, d, s, false)
    ensures IxEntries(st, d.st, d.out[|d.out| - 1].slot)
  {
    forall s | s in st.buffer
      ensures IxEntryStep(st.buffer[s], d.st.buffer[s])
      ensures if s <= d.out[|d.out| - 1].slot then d.st.buffer[s].ix.drained else d.st.buffer[s] == st.buffer[s]
    {
      assert IxEntryDone(st, d, s, false);
    }
  }

  function IxSwept(st: State): State { IxLoop(st, Ascending(st.buffer.Keys), 0).st }

  /** A drain is a sweep over all slots, then a cleanup if anything went out. */
  lemma DrainIxSweeps(st: State) returns (swept: State)
    ensures swept == IxSwept(st)
    ensures IxSweep(st, swept, DrainIx(st).out)
    ensures DrainIx(st).st == if DrainIx(st).out == [] then swept else swept.Cleaned()
    ensures forall s :: s in st.buffer ==>
              swept.buffer[s] == st.buffer[s] || exists o :: o in DrainIx(st).out && o.slot == s
  {
    var slots := Ascending(st.buffer.Keys);
    forall s | s in st.buffer { IxLoopEmits(st, slots, 0, s); }
    IxLoopOutputs(st, slots, 0);
    IxLoopFrame(st, slots, 0);
    swept := IxLoop(st, slots, 0).st;
    if IxLoop(st, slots, 0).out != [] { IxLoopEntries(st, slots); }
  }

  /** A buffer the loop empties is a buffer the loop emits. */
  lemma {:induction false} AcctLoopEmits(st: State, slots: seq<Slot>, i: nat, s: Slot)
    requires i <= |slots| && StrictlyAscending(slots) && s in st.buffer
    requires forall t :: t in slots ==> t in st.buffer
    ensures var d := AcctLoop(st, slots, i);
            s in d.st.buffer
            && (d.st.buffer[s] == st.buffer[s] || exists o :: o in d.out && o.slot == s)
    decreases |slots| - i
  {
    if i < |slots| {
      var b := st.buffer[slots[i]];
      if b.acct.drained {
        AcctLoopEmits(st, slots, i + 1, s);
      } else if b.acct.Gate() {
        AcctLoopEmits(st.FlushAcct(slots[i]), slots, i + 1, s);
        var rest := AcctLoop(st.FlushAcct(slots[i]), slots, i + 1).out;
        assert b.AcctSlot(slots[i]) in [b.AcctSlot(slots[i])] + rest;
      }
    }
  }

  lemma AcctLoopEntries(st: State, slots: seq<Slot>)
    requires StrictlyAscending(slots) && forall s :: s in slots <==> s in st.buffer
    requires AcctLoop(st, slots, 0).out != []
    ensures var d := AcctLoop(st, slots, 0); AcctEntries(st, d.st, d.out[|d.out| - 1].slot)
  {
    AcctLoopFrame(st, slots, 0);
    forall s | s in st.buffer ensures AcctEntryDone(st, AcctLoop(st, slots, 0), s, false) {
      assert s in slots;
      var j :| 0 <= j < |slots| && slots[j] == s;
      AcctLoopEntry(st, slots, 0, j);
    }
    AcctEntriesDone(st, AcctLoop(st, slots, 0));
  }

  lemma AcctEntriesDone(st: State, d: Drained<AccountSlot>)
    requires d.out != [] && d.st.buffer.Keys == st.buffer.Keys
    requires forall s :: s in st.buffer ==> AcctEntryDone(st, d, s, false)
    ensures AcctEntries(st, d.st, d.out[|d.out| - 1].slot)
  {
    forall s | s in st.buffer
      ensures AcctEntryStep(st.buffer[s], d.st.buffer[s])
      ensures if s <= d.out[|d.out| - 1].slot then d.st.buffer[s].acct.drained else d.st.buffer[s] == st.buffer[s]
    {
      assert AcctEntryDone(st, d, s, false);
    }
  }

  function AcctSwept(st: State): State { AcctLoop(st, Ascending(st.buffer.Keys), 0).st }

  /** A drain is a sweep over all slots, then a cleanup if anything went out. */
  lemma DrainAcctSweeps(st: State) returns (swept: State)
    ensures swept == AcctSwept(st)
    ensures AcctSweep(st, swept, DrainAcct(st).out)
    ensures DrainAcct(st).st == if DrainAcct(st).out == [] then swept else swept.Cleaned()
    ensures forall s :: s in st.buffer ==>
              swept.buffer[s] == st.buffer[s] || exists o :: o in DrainAcct(st).out && o.slot == s
  {
    var slots := Ascending(st.buffer.Keys);
    forall s | s in st.buffer { AcctLoopEmits(st, slots, 0, s); }
    AcctLoopOutputs(st, slots, 0);
    AcctLoopFrame(st, slots, 0);
    swept := AcctLoop(st, slots, 0).st;
    if AcctLoop(st, slots, 0).out != [] { AcctLoopEntries(st, slots); }
  }
}
