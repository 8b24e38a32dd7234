/** What a discard guarantees, in every run, in order or not. */
module DiscardSafety {
  import opened Basics
  import opened Records
  import opened SlotBuffer
  import opened Coordinator
  import opened Drains
  import opened Runs

  /** While a slot's discard is remembered, a buffer re-created for it stays empty. */
  predicate EmptyAt(st: State, s: Slot) {
    s in st.discarded ==>
      && s !in st.eventCounts
      && var b := st.Get(s);
         b.ix.records == [] && b.acct.records == [] && b.ix.parsedTx == 0 && b.acct.processed == 0
  }

  lemma EventKeepsEmpty(st: State, e: Event, s: Slot)
    requires EmptyAt(st, s)
    ensures EmptyAt(st.Apply(e), s)
  {
    ApplyIsLocal(st, e);
  }

  lemma CleanupKeepsEmpty(st: State, s: Slot)
    requires EmptyAt(st, s)
    ensures EmptyAt(st.Cleaned(), s)
  {
    CleanedFacts(st);
    if s in st.buffer { CleanedEntry(st, s); }
  }

  lemma DrainsKeepEmpty(st: State, s: Slot)
    requires EmptyAt(st, s)
    ensures EmptyAt(DrainIx(st).st, s) && EmptyAt(DrainAcct(st).st, s)
  {
    var ix := DrainIxSweeps(st);
    var acct := DrainAcctSweeps(st);
    SweepsKeepEmpty(st, ix, DrainIx(st).out, acct, DrainAcct(st).out, s);
    CleanupKeepsEmpty(ix, s);
    CleanupKeepsEmpty(acct, s);
  }

  lemma SweepsKeepEmpty(st: State, ix: State, ixOut: seq<InstructionSlot>, acct: State, acctOut: seq<AccountSlot>, s: Slot)
    requires EmptyAt(st, s) && IxSweep(st, ix, ixOut) && AcctSweep(st, acct, acctOut)
    ensures EmptyAt(ix, s) && EmptyAt(acct, s)
  {
    if s in st.buffer {
      if ixOut != [] { assert IxEntryStep(st.buffer[s], ix.buffer[s]); }
      if acctOut != [] { assert AcctEntryStep(st.buffer[s], acct.buffer[s]); }
    }
  }

  lemma {:induction false} RememberedDiscardsStayEmpty(commitAt: CommitAt, retention: Option<nat>, steps: seq<Step>, s: Slot)
    ensures EmptyAt(Exec(Start(commitAt, retention), steps).st, s)
  {
    if steps != [] {
      var prefix, step := steps[..|steps| - 1], steps[|steps| - 1];
      RememberedDiscardsStayEmpty(commitAt, retention, prefix, s);
      var st := Exec(Start(commitAt, retention), prefix).st;
      if step.FromSource? || step.FromHandler? { EventKeepsEmpty(st, step.event, s); } else { DrainsKeepEmpty(st, s); }
    }
  }

  // ---- No record outlives the discard of its slot ----

  predicate HasEvent(step: Step) { step.FromSource? || step.FromHandler? }

  predicate DiscardsSlot(step: Step, s: Slot) { HasEvent(step) && step.event.SlotDiscarded? && step.event.slot == s }

  predicate SendsIx(step: Step, s: Slot, e: Entry<Record>) {
    HasEvent(step) && step.event == InstructionRecordParsed(s, e.key, e.record)
  }

  predicate SendsAcct(step: Step, s: Slot, e: Entry<Record>) {
    HasEvent(step) && step.event == AccountRecordParsed(s, e.key, e.record)
  }

  /** Step `i` sent `e` for slot `s`, and the slot was not discarded since. */
  ghost predicate IxSince(steps: seq<Step>, i: nat, s: Slot, e: Entry<Record>) {
    i < |steps| && SendsIx(steps[i], s, e) && forall k :: i < k < |steps| ==> !DiscardsSlot(steps[k], s)
  }

  ghost predicate AcctSince(steps: seq<Step>, i: nat, s: Slot, e: Entry<Record>) {
    i < |steps| && SendsAcct(steps[i], s, e) && forall k :: i < k < |steps| ==> !DiscardsSlot(steps[k], s)
  }

  ghost predicate Sourced(st: State, steps: seq<Step>, s: Slot) {
    && (forall e :: e in st.Get(s).ix.records ==> exists i :: IxSince(steps, i, s, e))
    && (forall e :: e in st.Get(s).acct.records ==> exists i :: AcctSince(steps, i, s, e))
  }

  lemma {:induction false} InsertAddsOnly(s: seq<Entry<Record>>, key: Key, record: Record)
    ensures forall e :: e in Insert(s, key, record) ==> e == Entry(key, record) || e in s
  {
    if s != [] && !LexLess(key, s[0].key) && key != s[0].key {
      InsertAddsOnly(s[1..], key, record);
    }
  }

  lemma SinceStep(steps: seq<Step>, step: Step, i: nat, s: Slot, e: Entry<Record>)
    requires !DiscardsSlot(step, s)
    ensures IxSince(steps, i, s, e) ==> IxSince(steps + [step], i, s, e)
    ensures AcctSince(steps, i, s, e) ==> AcctSince(steps + [step], i, s, e)
    ensures SendsIx(step, s, e) ==> IxSince(steps + [step], |steps|, s, e)
    ensures SendsAcct(step, s, e) ==> AcctSince(steps + [step], |steps|, s, e)
  {
  }

  /** Records only leave a buffer, or come from the step's own event. */
  ghost predicate OnlyFrom(st: State, st': State, step: Step, s: Slot) {
    && (forall e :: e in st'.Get(s).ix.records ==> e in st.Get(s).ix.records || SendsIx(step, s, e))
    && (forall e :: e in st'.Get(s).acct.records ==> e in st.Get(s).acct.records || SendsAcct(step, s, e))
    && (DiscardsSlot(step, s) ==> st'.Get(s) == EMPTY_BUFFER)
  }

  lemma SourceOnlyFrom(st: State, step: Step)
    requires HasEvent(step) && step.event.FromSource()
    ensures OnlyFrom(st, st.Apply(step.event), step, step.event.slot)
  {
  }

  lemma ParsedOnlyFrom(st: State, step: Step)
    requires HasEvent(step) && !step.event.FromSource()
    ensures OnlyFrom(st, st.Apply(step.event), step, step.event.slot)
  {
    var e := step.event;
    if e.InstructionRecordParsed? { InsertAddsOnly(st.Get(e.slot).ix.records, e.key, e.record); }
    if e.AccountRecordParsed? { InsertAddsOnly(st.Get(e.slot).acct.records, e.key, e.record); }
  }

  lemma EventOnlyFrom(st: State, step: Step, s: Slot)
    requires HasEvent(step)
    ensures OnlyFrom(st, st.Apply(step.event), step, s)
  {
    var e := step.event;
    if s != e.slot {
      ApplyIsLocal(st, e);
    } else if e.FromSource() {
      SourceOnlyFrom(st, step);
    } else {
      ParsedOnlyFrom(st, step);
    }
  }

  lemma IxSweepOnlyFrom(st: State, ix: State, out: seq<InstructionSlot>, step: Step, s: Slot)
    requires !HasEvent(step) && IxSweep(st, ix, out)
    ensures OnlyFrom(st, ix, step, s) && OnlyFrom(st, ix.Cleaned(), step, s)
  {
    if s in st.buffer {
      if out != [] { assert IxEntryStep(st.buffer[s], ix.buffer[s]); }
      CleanedEntry(ix, s);
    }
  }

  lemma AcctSweepOnlyFrom(st: State, acct: State, out: seq<AccountSlot>, step: Step, s: Slot)
    requires !HasEvent(step) && AcctSweep(st, acct, out)
    ensures OnlyFrom(st, acct, step, s) && OnlyFrom(st, acct.Cleaned(), step, s)
  {
    if s in st.buffer {
      if out != [] { assert AcctEntryStep(st.buffer[s], acct.buffer[s]); }
      CleanedEntry(acct, s);
    }
  }

  lemma DrainsOnlyFrom(st: State, step: Step, s: Slot)
    requires !HasEvent(step)
    ensures OnlyFrom(st, DrainIx(st).st, step, s) && OnlyFrom(st, DrainAcct(st).st, step, s)
  {
    var ix := DrainIxSweeps(st);
    IxSweepOnlyFrom(st, ix, DrainIx(st).out, step, s);
    var acct := DrainAcctSweeps(st);
    AcctSweepOnlyFrom(st, acct, DrainAcct(st).out, step, s);
  }

  lemma SourcedStep(st: State, st': State, steps: seq<Step>, step: Step, s: Slot)
    requires Sourced(st, steps, s) && OnlyFrom(st, st', step, s)
    ensures Sourced(st', steps + [step], s)
  {
    if DiscardsSlot(step, s) { return; }
    forall e | e in st'.Get(s).ix.records ensures exists i :: IxSince(steps + [step], i, s, e) {
      var i: nat := |steps|;
      if !SendsIx(step, s, e) { i :| 0 <= i && IxSince(steps, i, s, e); }
      SinceStep(steps, step, i, s, e);
    }
    forall e | e in st'.Get(s).acct.records ensures exists i :: AcctSince(steps + [step], i, s, e) {
      var i: nat := |steps|;
      if !SendsAcct(step, s, e) { i :| 0 <= i && AcctSince(steps, i, s, e); }
      SinceStep(steps, step, i, s, e);
    }
  }

  lemma {:induction false} BuffersAreSourced(commitAt: CommitAt, retention: Option<nat>, steps: seq<Step>, s: Slot)
    ensures Sourced(Exec(Start(commitAt, retention), steps).st, steps, s)
  {
    if steps != [] {
      var prefix, step := steps[..|steps| - 1], steps[|steps| - 1];
      BuffersAreSourced(commitAt, retention, prefix, s);
      var st := Exec(Start(commitAt, retention), prefix).st;
      if HasEvent(step) { EventOnlyFrom(st, step, s); } else { DrainsOnlyFrom(st, step, s); }
      assert prefix + [step] == steps;
      SourcedStep(st, Exec(Start(commitAt, retention), steps).st, prefix, step, s);
    }
  }

  /**
   * Discard safety: every record a drain emits was sent for that very slot after the slot's last
   * discard. So no record is invented, moved to another slot, or emitted after its slot was discarded.
   */
  lemma EmittedRecordsPostdateDiscards(commitAt: CommitAt, retention: Option<nat>, steps: seq<Step>)
    ensures var st := Exec(Start(commitAt, retention), steps).st;
            && (forall o, r :: o in DrainIx(st).out && r in o.records ==>
                  exists i, k :: IxSince(steps, i, o.slot, Entry(k, r)))
            && (forall o, r :: o in DrainAcct(st).out && r in o.records ==>
                  exists i, k :: AcctSince(steps, i, o.slot, Entry(k, r)))
  {
    var st := Exec(Start(commitAt, retention), steps).st;
    var ix := DrainIxSweeps(st);
    var acct := DrainAcctSweeps(st);
    forall o, r | o in DrainIx(st).out && r in o.records
      ensures exists i, k :: IxSince(steps, i, o.slot, Entry(k, r))
    {
      assert IxFlushed(st, o);
      BuffersAreSourced(commitAt, retention, steps, o.slot);
      EmittedEntry(st.Get(o.slot).ix.records, r);
    }
    forall o, r | o in DrainAcct(st).out && r in o.records
      ensures exists i, k :: AcctSince(steps, i, o.slot, Entry(k, r))
    {
      assert AcctFlushed(st, o);
      BuffersAreSourced(commitAt, retention, steps, o.slot);
      EmittedEntry(st.Get(o.slot).acct.records, r);
    }
  }

  lemma EmittedEntry(s: seq<Entry<Record>>, r: Record)
    requires r in Values(s)
    ensures exists k :: Entry(k, r) in s
  {
    var j :| 0 <= j < |s| && Values(s)[j] == r;
    assert s[j] == Entry(s[j].key, r);
  }
}
