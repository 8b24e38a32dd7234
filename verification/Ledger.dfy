/** The account gate against a ledger of accepted events, in every run, in order or not. */
module AccountLedger {
  // The ledger does its own counting; it asks the coordinator only which events it accepted, which
  // buffers a cleanup retired and which gates were frozen by then.

  import opened Basics
  import opened Records
  import opened SlotBuffer
  import opened Coordinator
  import opened Drains
  import opened Runs

  /**
   * What an observer of the events counts per slot: account records taken into the slot's present
   * buffer, and account sightings since they were last forgotten.
   */
  datatype Ledger = Ledger(taken: map<Slot, nat>, seen: map<Slot, nat>)
  {
    function Taken(s: Slot): nat { if s in taken then taken[s] else 0 }

    function Seen(s: Slot): nat { if s in seen then seen[s] else 0 }

    function OnEvent(st: State, e: Event): Ledger {
      if e.AccountRecordParsed? && st.AcceptsAcct(e.slot) then this.(taken := taken[e.slot := Taken(e.slot) + 1])
      else if e.AccountEventSeen? && st.AcceptsEventSeen(e.slot) then this.(seen := seen[e.slot := Seen(e.slot) + 1])
      else if e.SlotDiscarded? then Ledger(taken - {e.slot}, seen - {e.slot})
      else this
    }

    /** A cleanup retires drained buffers and forgets sightings behind the account frontier. */
    function OnCleanup(st: State): Ledger {
      var kept := set s | s in st.buffer && !st.buffer[s].FullyDrained();
      Ledger(map s | s in taken && s in kept :: taken[s],
             map s | s in seen && (s in st.buffer ==> s in kept)
                     && (AtOrBehind(st.acctFrontier, s) ==> s in kept && st.buffer[s].acct.expected.Some?) :: seen[s])
    }

    function OnStep(run: Run, step: Step): Ledger {
      match step
      case FromSource(e) => OnEvent(run.st, e)
      case FromHandler(_, e) => OnEvent(run.st, e)
      case DrainInstructions =>
        if DrainIx(run.st).out == [] then this else OnCleanup(IxSwept(run.st))
      case DrainAccounts =>
        if DrainAcct(run.st).out == [] then this else OnCleanup(AcctSwept(run.st))
    }
  }

  function Audit(run: Run, steps: seq<Step>): Ledger {
    if steps == [] then Ledger(map[], map[]) else
      Audit(run, steps[..|steps| - 1]).OnStep(Exec(run, steps[..|steps| - 1]), steps[|steps| - 1])
  }

  function Pending(st: State, s: Slot): nat { if s in st.eventCounts then st.eventCounts[s] else 0 }

  /** One buffer agrees with the ledger. */
  ghost predicate EntryBalanced(b: Buffer, taken: nat, seen: nat) {
    && b.acct.processed == taken + b.stats.filteredAcct + b.stats.failedAcct
    && |b.acct.records| <= taken
    && (b.acct.committed <==> b.acct.expected.Some?)
    && (b.acct.drained ==> b.acct.expected.Some?)
    && (b.acct.expected.Some? ==> b.acct.expected.value == seen)
    && (b.acct.drained ==> b.acct.records == [])
  }

  ghost predicate BalancedAt(st: State, l: Ledger, s: Slot) {
    && (if s in st.buffer then EntryBalanced(st.buffer[s], l.Taken(s), l.Seen(s)) else l.Taken(s) == 0)
    && (if s in st.buffer && st.buffer[s].acct.expected.Some? then s !in st.eventCounts
        else Pending(st, s) == l.Seen(s))
  }

  ghost predicate Balanced(st: State, l: Ledger) { forall s :: BalancedAt(st, l, s) }

  lemma {:induction false} InsertLength(s: seq<Entry<Record>>, key: Key, record: Record)
    ensures |Insert(s, key, record)| <= |s| + 1
  {
    if s != [] && !LexLess(key, s[0].key) && key != s[0].key { InsertLength(s[1..], key, record); }
  }

  lemma SourceKeepsBalance(st: State, l: Ledger, e: Event)
    requires e.FromSource() && BalancedAt(st, l, e.slot)
    ensures BalancedAt(st.Apply(e), l.OnEvent(st, e), e.slot)
  {
    if e.SlotConfirmed? || e.SlotFinalized? { CommitmentKeepsBalance(st, l, e); }
    else if e.AccountEventSeen? { SightingKeepsBalance(st, l, e); }
  }

  lemma CommitmentKeepsBalance(st: State, l: Ledger, e: Event)
    requires (e.SlotConfirmed? || e.SlotFinalized?) && BalancedAt(st, l, e.slot)
    ensures BalancedAt(st.Apply(e), l.OnEvent(st, e), e.slot)
  {
  }

  lemma SightingKeepsBalance(st: State, l: Ledger, e: Event)
    requires e.AccountEventSeen? && BalancedAt(st, l, e.slot)
    ensures BalancedAt(st.Apply(e), l.OnEvent(st, e), e.slot)
  {
  }

  lemma ParsedKeepsBalance(st: State, l: Ledger, e: Event)
    requires !e.FromSource() && BalancedAt(st, l, e.slot)
    ensures BalancedAt(st.Apply(e), l.OnEvent(st, e), e.slot)
  {
    if e.AccountRecordParsed? { RecordKeepsBalance(st, l, e); }
    else if e.ParseStats? { StatKeepsBalance(st, l, e); }
  }

  lemma RecordKeepsBalance(st: State, l: Ledger, e: Event)
    requires e.AccountRecordParsed? && BalancedAt(st, l, e.slot)
    ensures BalancedAt(st.Apply(e), l.OnEvent(st, e), e.slot)
  {
    InsertLength(st.Get(e.slot).acct.records, e.key, e.record);
  }

  lemma StatKeepsBalance(st: State, l: Ledger, e: Event)
    requires e.ParseStats? && BalancedAt(st, l, e.slot)
    ensures BalancedAt(st.Apply(e), l.OnEvent(st, e), e.slot)
  {
  }

  lemma EventKeepsBalance(st: State, l: Ledger, e: Event, s: Slot)
    requires BalancedAt(st, l, s)
    ensures BalancedAt(st.Apply(e), l.OnEvent(st, e), s)
  {
    if s != e.slot { OtherSlotKeepsBalance(st, l, e, s); }
    else if e.FromSource() { SourceKeepsBalance(st, l, e); }
    else { ParsedKeepsBalance(st, l, e); }
  }

  lemma OtherSlotKeepsBalance(st: State, l: Ledger, e: Event, s: Slot)
    requires BalancedAt(st, l, s) && s != e.slot
    ensures BalancedAt(st.Apply(e), l.OnEvent(st, e), s)
  {
    ApplyIsLocal(st, e);
    if e.FromSource() { SourceLeavesPending(st, e, s); }
  }

  lemma SourceLeavesPending(st: State, e: Event, s: Slot)
    requires e.FromSource() && s != e.slot
    ensures s in st.ApplySource(e).eventCounts <==> s in st.eventCounts
    ensures Pending(st.ApplySource(e), s) == Pending(st, s)
  {
  }

  /** A sweep empties buffers and nothing else that the ledger sees. */
  lemma CleanupKeepsBalance(st: State, l: Ledger, s: Slot)
    requires BalancedAt(st, l, s)
    ensures BalancedAt(st.Cleaned(), l.OnCleanup(st), s)
  {
    CleanedFacts(st);
    if s in st.buffer { CleanedEntry(st, s); }
    var st' := st.Cleaned();
    assert s in st'.eventCounts <==> s in st.eventCounts && !AtOrBehind(st.acctFrontier, s);
  }

  lemma IxSweepKeepsBalance(st: State, st': State, out: seq<InstructionSlot>, l: Ledger, s: Slot)
    requires IxSweep(st, st', out) && BalancedAt(st, l, s)
    ensures BalancedAt(st', l, s)
  {
    if out != [] && s in st.buffer { assert IxEntryStep(st.buffer[s], st'.buffer[s]); }
    assert Pending(st', s) == Pending(st, s);
  }

  lemma AcctSweepKeepsBalance(st: State, st': State, out: seq<AccountSlot>, l: Ledger, s: Slot)
    requires AcctSweep(st, st', out) && BalancedAt(st, l, s)
    ensures BalancedAt(st', l, s)
  {
    if out != [] && s in st.buffer { assert AcctEntryStep(st.buffer[s], st'.buffer[s]); }
    assert Pending(st', s) == Pending(st, s);
  }

  lemma DrainsKeepBalance(st: State, l: Ledger, s: Slot)
    requires BalancedAt(st, l, s)
    ensures BalancedAt(IxSwept(st), l, s) && BalancedAt(IxSwept(st).Cleaned(), l.OnCleanup(IxSwept(st)), s)
    ensures BalancedAt(AcctSwept(st), l, s) && BalancedAt(AcctSwept(st).Cleaned(), l.OnCleanup(AcctSwept(st)), s)
  {
    var swept := DrainIxSweeps(st);
    IxSweepKeepsBalance(st, swept, DrainIx(st).out, l, s);
    CleanupKeepsBalance(swept, l, s);
    var swept' := DrainAcctSweeps(st);
    AcctSweepKeepsBalance(st, swept', DrainAcct(st).out, l, s);
    CleanupKeepsBalance(swept', l, s);
  }

  lemma StepKeepsBalance(run: Run, l: Ledger, step: Step, s: Slot)
    requires BalancedAt(run.st, l, s)
    ensures BalancedAt(run.Next(step).st, l.OnStep(run, step), s)
  {
    if step.FromSource? || step.FromHandler? {
      EventKeepsBalance(run.st, l, step.event, s);
    } else {
      DrainsKeepBalance(run.st, l, s);
      var ix := DrainIxSweeps(run.st);
      var acct := DrainAcctSweeps(run.st);
    }
  }

  /**
   * Conservation: after any run, every buffer has processed exactly the records taken plus those
   * filtered plus those failed; a frozen gate expects exactly the sightings the ledger shows and has
   * none pending; and a drained account half holds no record.
   */
  lemma {:induction false} AccountsAreConserved(commitAt: CommitAt, retention: Option<nat>, steps: seq<Step>)
    ensures var start := Start(commitAt, retention);
            Balanced(Exec(start, steps).st, Audit(start, steps))
  {
    var start := Start(commitAt, retention);
    if steps == [] {
      assert forall s :: BalancedAt(start.st, Audit(start, []), s);
    } else {
      var prefix := steps[..|steps| - 1];
      AccountsAreConserved(commitAt, retention, prefix);
      forall s ensures BalancedAt(Exec(start, steps).st, Audit(start, steps), s) {
        assert BalancedAt(Exec(start, prefix).st, Audit(start, prefix), s);
        StepKeepsBalance(Exec(start, prefix), Audit(start, prefix), steps[|steps| - 1], s);
      }
    }
  }

  /** Every account slot that goes out has accounted for at least the sightings of its slot. */
  lemma FlushedAccountsAreCovered(commitAt: CommitAt, retention: Option<nat>, steps: seq<Step>, o: AccountSlot)
    requires o in DrainAcct(Exec(Start(commitAt, retention), steps).st).out
    ensures var l := Audit(Start(commitAt, retention), steps);
            && l.Taken(o.slot) + o.stats.filteredAcct + o.stats.failedAcct >= l.Seen(o.slot)
            && o.decoded == |o.records| <= l.Taken(o.slot)
  {
    var st := Exec(Start(commitAt, retention), steps).st;
    AccountsAreConserved(commitAt, retention, steps);
    var swept := DrainAcctSweeps(st);
    assert AcctFlushed(st, o);
    assert BalancedAt(st, Audit(Start(commitAt, retention), steps), o.slot);
  }

  /** Once frozen, the expected count stays what it is for as long as the buffer exists. */
  lemma ExpectedCountIsFixed(run: Run, step: Step, s: Slot)
    requires s in run.st.buffer && run.st.buffer[s].acct.expected.Some? && s in run.Next(step).st.buffer
    ensures run.Next(step).st.buffer[s].acct.expected == run.st.buffer[s].acct.expected
  {
    if step.FromSource? || step.FromHandler? {
      EventKeepsExpected(run.st, step.event, s);
    } else {
      var ix := DrainIxSweeps(run.st);
      var acct := DrainAcctSweeps(run.st);
      SweptExpected(run.st, ix, acct, s);
      CleanedEntry(ix, s);
      CleanedEntry(acct, s);
    }
  }

  lemma EventKeepsExpected(st: State, e: Event, s: Slot)
    requires s in st.buffer && st.buffer[s].acct.expected.Some? && s in st.Apply(e).buffer
    ensures st.Apply(e).buffer[s].acct.expected == st.buffer[s].acct.expected
  {
    if s != e.slot { ApplyIsLocal(st, e); }
  }

  lemma SweptExpected(st: State, ix: State, acct: State, s: Slot)
    requires s in st.buffer
    requires exists out :: IxSweep(st, ix, out)
    requires exists out :: AcctSweep(st, acct, out)
    ensures s in ix.buffer && ix.buffer[s].acct.expected == st.buffer[s].acct.expected
    ensures s in acct.buffer && acct.buffer[s].acct.expected == st.buffer[s].acct.expected
  {
    var out :| IxSweep(st, ix, out);
    if out != [] { assert IxEntryStep(st.buffer[s], ix.buffer[s]); }
    var out' :| AcctSweep(st, acct, out');
    if out' != [] { assert AcctEntryStep(st.buffer[s], acct.buffer[s]); }
  }
}
