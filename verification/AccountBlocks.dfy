/** What goes out for the accounts of a slot: the last record of each, and all of them. */
module AccountBlocks {
  import opened Basics
  import opened Records
  import opened SlotBuffer
  import opened Coordinator
  import opened Drains
  import opened Runs
  import opened DiscardSafety
  import Gates

  predicate GivesRecord(step: Step, slot: Slot, key: Key) {
    HasEvent(step) && step.event.AccountRecordParsed? && step.event.slot == slot && step.event.key == key
  }

  /** The last record that was parsed for the key. */
  function LastRecord(steps: seq<Step>, slot: Slot, key: Key): Option<Record> {
    if steps == [] then None
    else if GivesRecord(steps[|steps| - 1], slot, key) then Some(steps[|steps| - 1].event.record)
    else LastRecord(steps[..|steps| - 1], slot, key)
  }

  /** The last records, one for each key. */
  ghost predicate AreLast(records: seq<Entry<Record>>, steps: seq<Step>, slot: Slot) {
    && Sorted(records)
    && (forall e :: e in records ==> LastRecord(steps, slot, e.key) == Some(e.record))
    && forall key :: LastRecord(steps, slot, key).Some? ==> Entry(key, LastRecord(steps, slot, key).value) in records
  }

  lemma OneMoreRecord(records: seq<Entry<Record>>, steps: seq<Step>, step: Step, slot: Slot, key: Key)
    requires AreLast(records, steps, slot) && GivesRecord(step, slot, key)
    ensures AreLast(Insert(records, key, step.event.record), steps + [step], slot)
  {
    assert (steps + [step])[..|steps|] == steps;
    var now := Insert(records, key, step.event.record);
    InsertIsMapUpdate(records, key, step.event.record);
    forall other | LastRecord(steps + [step], slot, other).Some?
      ensures Entry(other, LastRecord(steps + [step], slot, other).value) in now
    {
      if other != key { assert Entry(other, LastRecord(steps, slot, other).value) in records; }
    }
  }

  lemma NoMoreRecord(records: seq<Entry<Record>>, steps: seq<Step>, step: Step, slot: Slot)
    requires AreLast(records, steps, slot) && forall key :: !GivesRecord(step, slot, key)
    ensures AreLast(records, steps + [step], slot)
  {
    assert (steps + [step])[..|steps|] == steps;
    forall key ensures LastRecord(steps + [step], slot, key) == LastRecord(steps, slot, key) {}
  }

  lemma EventStores(st: State, step: Step, slot: Slot)
    requires HasEvent(step) && !DiscardsSlot(step, slot) && st.AcceptsAcct(slot)
    ensures var e, records := step.event, st.Get(slot).acct.records;
            st.Apply(e).Get(slot).acct.records
            == if e.AccountRecordParsed? && e.slot == slot then Insert(records, e.key, e.record) else records
  {
    if slot != step.event.slot { ApplyIsLocal(st, step.event); }
    else if step.event.FromSource() { SourceStoresNothing(st, step.event); }
    else { ParsedStores(st, step.event); }
  }

  lemma SourceStoresNothing(st: State, e: Event)
    requires e.FromSource() && !e.SlotDiscarded?
    ensures st.ApplySource(e).Get(e.slot).acct.records == st.Get(e.slot).acct.records
  {
  }

  lemma ParsedStores(st: State, e: Event)
    requires !e.FromSource() && st.AcceptsAcct(e.slot)
    ensures var records := st.Get(e.slot).acct.records;
            st.ApplyParsed(e).Get(e.slot).acct.records
            == if e.AccountRecordParsed? then Insert(records, e.key, e.record) else records
  {
  }

  /** Until the account frontier reaches a slot, its buffer holds the last record of each account. */
  lemma {:induction false} BuffersHoldLast(commitAt: CommitAt, retention: Option<nat>, steps: seq<Step>, slot: Slot)
    requires AcctInOrder(Start(commitAt, retention), steps) && slot !in Discards(steps)
    ensures var st := Exec(Start(commitAt, retention), steps).st;
            !AtOrBehind(st.acctFrontier, slot) ==> AreLast(st.Get(slot).acct.records, steps, slot)
  {
    if steps != [] {
      var prefix, step := steps[..|steps| - 1], steps[|steps| - 1];
      BuffersHoldLast(commitAt, retention, prefix, slot);
      assert prefix + [step] == steps;
      var run := Exec(Start(commitAt, retention), prefix);
      if !AtOrBehind(run.Next(step).st.acctFrontier, slot) { StepHoldsLast(commitAt, retention, prefix, step, slot); }
    }
  }

  lemma StepHoldsLast(commitAt: CommitAt, retention: Option<nat>, steps: seq<Step>, step: Step, slot: Slot)
    requires AcctInOrder(Start(commitAt, retention), steps) && slot !in Discards(steps) && !DiscardsSlot(step, slot)
    requires var st := Exec(Start(commitAt, retention), steps).st;
             !AtOrBehind(st.acctFrontier, slot) ==> AreLast(st.Get(slot).acct.records, steps, slot)
    requires !AtOrBehind(Exec(Start(commitAt, retention), steps).Next(step).st.acctFrontier, slot)
    ensures AreLast(Exec(Start(commitAt, retention), steps).Next(step).st.Get(slot).acct.records, steps + [step], slot)
  {
    var run := Exec(Start(commitAt, retention), steps);
    AccountsAreOrdered(commitAt, retention, steps);
    if HasEvent(step) {
      Gates.DiscardedWereDiscarded(commitAt, retention, steps);
      Gates.BuffersTellAccounts(commitAt, retention, steps, slot);
      ApplyIsLocal(run.st, step.event);
      EventStores(run.st, step, slot);
      if step.event.AccountRecordParsed? && step.event.slot == slot {
        OneMoreRecord(run.st.Get(slot).acct.records, steps, step, slot, step.event.key);
      } else {
        NoMoreRecord(run.st.Get(slot).acct.records, steps, step, slot);
      }
    } else {
      Gates.DrainSparesAcct(run, step, slot);
      NoMoreRecord(run.st.Get(slot).acct.records, steps, step, slot);
    }
  }

  /** The records are the last ones, in key order, and are counted. */
  ghost predicate IsComplete(o: AccountSlot, steps: seq<Step>) {
    o.decoded == |o.records| && exists entries :: AreLast(entries, steps, o.slot) && o.records == Values(entries)
  }

  /**
   * Nothing is lost on the way to the account slots: in every run without a stale gate, what the next
   * drain emits for a slot that was not discarded is the last record of each of its accounts.
   */
  lemma FlushedAccountsAreComplete(commitAt: CommitAt, retention: Option<nat>, steps: seq<Step>, slot: Slot)
    requires AcctInOrder(Start(commitAt, retention), steps) && slot !in Discards(steps)
    ensures forall o :: o in DrainAcct(Exec(Start(commitAt, retention), steps).st).out && o.slot == slot ==>
              IsComplete(o, steps)
  {
    var st := Exec(Start(commitAt, retention), steps).st;
    AccountsAreOrdered(commitAt, retention, steps);
    BuffersHoldLast(commitAt, retention, steps, slot);
    var swept := DrainAcctSweeps(st);
    AcctSweepKeepsInv(st, swept, DrainAcct(st).out);
    forall o | o in DrainAcct(st).out && o.slot == slot ensures IsComplete(o, steps) {
      assert AcctFlushed(st, o);
    }
  }
}
