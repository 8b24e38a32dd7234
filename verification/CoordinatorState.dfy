/** The coordinator object, which does method by method what `Coordinator` says. */
module CoordinatorObject {
  // It owns one buffer object per slot and updates its fields and theirs in place, event by event and
  // slot by slot.

  import opened Basics
  import opened Records
  import opened SlotBuffer
  import opened Coordinator

  /** What a pass does at one slot: pass it over, stop, or flush it. */
  datatype Visit<+Out> = Skip | Stop | Flush(out: Out)

  function VisitIx(st: State, slot: Slot): Visit<InstructionSlot>
    requires slot in st.buffer
  {
    var b := st.buffer[slot];
    if b.ix.drained then Skip else if !b.ix.Gate() || !st.ParentOk(b.ix) then Stop else Flush(b.IxSlot(slot))
  }

  function VisitAcct(st: State, slot: Slot): Visit<AccountSlot>
    requires slot in st.buffer
  {
    var b := st.buffer[slot];
    if b.acct.drained then Skip else if !b.acct.Gate() then Stop else Flush(b.AcctSlot(slot))
  }

  /** A pass that has got to `slots[i]` and flushed `flushed` will end as `goal`. */
  ghost predicate IxOnTheWay(goal: Drained<InstructionSlot>, st: State, slots: seq<Slot>, i: nat, flushed: seq<InstructionSlot>) {
    && i <= |slots| && (forall s :: s in slots ==> s in st.buffer)
    && IxLoop(st, slots, i).st == goal.st && flushed + IxLoop(st, slots, i).out == goal.out
  }

  lemma IxSetsOut(st: State, slots: seq<Slot>)
    requires forall s :: s in slots ==> s in st.buffer
    ensures IxOnTheWay(IxLoop(st, slots, 0), st, slots, 0, [])
  {
    var out := IxLoop(st, slots, 0).out;
    assert [] + out == out;
  }

  lemma IxArrived(goal: Drained<InstructionSlot>, st: State, slots: seq<Slot>, flushed: seq<InstructionSlot>)
    requires IxOnTheWay(goal, st, slots, |slots|, flushed)
    ensures goal == Drained(st, flushed)
  {
    assert flushed + [] == flushed;
  }

  lemma IxVisitOnTheWay(goal: Drained<InstructionSlot>, st: State, slots: seq<Slot>, i: nat, flushed: seq<InstructionSlot>)
    requires IxOnTheWay(goal, st, slots, i, flushed) && i < |slots|
    ensures match VisitIx(st, slots[i])
            case Skip => IxOnTheWay(goal, st, slots, i + 1, flushed)
            case Stop => goal == Drained(st, flushed)
            case Flush(o) => IxOnTheWay(goal, st.FlushIx(slots[i]), slots, i + 1, flushed + [o])
  {
    var more := IxLoop(st, slots, i).out;
    if VisitIx(st, slots[i]).Flush? {
      assert flushed + more == flushed + [more[0]] + more[1..];
    } else if VisitIx(st, slots[i]).Stop? {
      assert flushed + more == flushed;
    }
  }

  /** A pass that has got to `slots[i]` and flushed `flushed` will end as `goal`. */
  ghost predicate AcctOnTheWay(goal: Drained<AccountSlot>, st: State, slots: seq<Slot>, i: nat, flushed: seq<AccountSlot>) {
    && i <= |slots| && (forall s :: s in slots ==> s in st.buffer)
    && AcctLoop(st, slots, i).st == goal.st && flushed + AcctLoop(st, slots, i).out == goal.out
  }

  lemma AcctSetsOut(st: State, slots: seq<Slot>)
    requires forall s :: s in slots ==> s in st.buffer
    ensures AcctOnTheWay(AcctLoop(st, slots, 0), st, slots, 0, [])
  {
    var out := AcctLoop(st, slots, 0).out;
    assert [] + out == out;
  }

  lemma AcctArrived(goal: Drained<AccountSlot>, st: State, slots: seq<Slot>, flushed: seq<AccountSlot>)
    requires AcctOnTheWay(goal, st, slots, |slots|, flushed)
    ensures goal == Drained(st, flushed)
  {
    assert flushed + [] == flushed;
  }

  lemma AcctVisitOnTheWay(goal: Drained<AccountSlot>, st: State, slots: seq<Slot>, i: nat, flushed: seq<AccountSlot>)
    requires AcctOnTheWay(goal, st, slots, i, flushed) && i < |slots|
    ensures match VisitAcct(st, slots[i])
            case Skip => AcctOnTheWay(goal, st, slots, i + 1, flushed)
            case Stop => goal == Drained(st, flushed)
            case Flush(o) => AcctOnTheWay(goal, st.FlushAcct(slots[i]), slots, i + 1, flushed + [o])
  {
    var more := AcctLoop(st, slots, i).out;
    if VisitAcct(st, slots[i]).Flush? {
      assert flushed + more == flushed + [more[0]] + more[1..];
    } else if VisitAcct(st, slots[i]).Stop? {
      assert flushed + more == flushed;
    }
  }

  class CoordinatorState {
    var buffer: map<Slot, SlotRecordBuffer>
    var discardedSlots: set<Slot>
    var lastInstructionFlushed: Option<Slot>
    var lastAccountFlushed: Option<Slot>
    var accountEventCounts: map<Slot, nat>
    var lateAccountRecordDrops: nat
    var lateAccountEventDrops: nat
    const accountCommitAt: CommitAt
    /** The values of the buffers. */
    ghost var contents: map<Slot, Buffer>

    ghost var Repr: set<SlotRecordBuffer>
    /** The slot each buffer belongs to, so that no two slots share one. */
    ghost var owner: map<SlotRecordBuffer, Slot>

    ghost predicate Owned(slot: Slot)
      requires slot in buffer
      reads this`buffer, this`Repr, this`owner
    {
      buffer[slot] in Repr && buffer[slot] in owner && owner[buffer[slot]] == slot
    }

    ghost predicate Told(slot: Slot)
      requires slot in buffer && slot in contents
      reads this`buffer, this`contents, buffer[slot]
    {
      buffer[slot].View() == contents[slot]
    }

    /** Every slot has a buffer of its own, and `contents` tells what it holds. */
    ghost predicate Valid()
      reads this`buffer, this`contents, this`Repr, this`owner, Repr
    {
      && buffer.Keys == contents.Keys
      && (forall s :: s in buffer ==> Owned(s))
      && (forall s :: s in buffer ==> Told(s))
    }

    ghost function View(): State
      reads this
    {
      State(contents, discardedSlots, lastInstructionFlushed, lastAccountFlushed, accountEventCounts,
            accountCommitAt, Some(RETENTION), lateAccountRecordDrops, lateAccountEventDrops)
    }

    constructor (commitAt: CommitAt)
      ensures Valid() && Repr == {} && View() == Init(commitAt, Some(RETENTION))
    {
      buffer, contents, Repr, owner := map[], map[], {}, map[];
      discardedSlots, accountEventCounts := {}, map[];
      lastInstructionFlushed, lastAccountFlushed := None, None;
      lateAccountRecordDrops, lateAccountEventDrops := 0, 0;
      accountCommitAt := commitAt;
    }

    // ---- One buffer at a time ----

    /** `Valid`, but for what `contents` says of one slot. */
    ghost predicate ValidBut(slot: Slot)
      reads this`buffer, this`contents, this`Repr, this`owner, Repr
    {
      && slot in buffer && buffer.Keys == contents.Keys + {slot}
      && (forall s :: s in buffer ==> Owned(s))
      && (forall s :: s in buffer && s != slot ==> Told(s))
    }

    /** The slot's buffer, or a new one put in its place. */
    method Entry(slot: Slot) returns (b: SlotRecordBuffer)
      requires Valid()
      modifies this`buffer, this`Repr, this`owner
      ensures ValidBut(slot) && b == buffer[slot] && fresh(Repr - old(Repr)) && b.View() == View().Get(slot)
    {
      if slot in buffer {
        assert Told(slot);
        return buffer[slot];
      }
      b := new SlotRecordBuffer();
      buffer := buffer[slot := b];
      Repr := Repr + {b};
      owner := owner[b := slot];
    }

    /** Other slots' buffers do not notice a change of this one's. */
    twostate lemma OthersKept(slot: Slot)
      requires old(ValidBut(slot)) && unchanged(this) && forall b :: b in Repr && b != buffer[slot] ==> unchanged(b)
      ensures ValidBut(slot)
    {
      forall s | s in buffer && s != slot ensures Told(s) {
        assert old(Owned(s)) && old(Owned(slot)) && old(Told(s));
        assert buffer[s] in Repr && buffer[s] != buffer[slot];
      }
    }

    /** Neither do the buffers notice a change of the other fields. */
    twostate lemma StillValid()
      requires old(Valid()) && unchanged(this`buffer) && unchanged(this`contents) && unchanged(this`Repr) && unchanged(this`owner)
      requires forall b :: b in Repr ==> unchanged(b)
      ensures Valid()
    {
      forall s | s in buffer ensures Owned(s) && Told(s) { assert old(Owned(s)) && old(Told(s)); }
    }

    /** Once one buffer has changed, `contents` follows at its slot. */
    ghost method Note(slot: Slot)
      requires ValidBut(slot)
      modifies this`contents
      ensures Valid() && contents == old(contents)[slot := buffer[slot].View()]
    {
      contents := contents[slot := buffer[slot].View()];
    }

    method FreezeBlock(slot: Slot, m: Metadata)
      requires Valid()
      modifies this, Repr
      ensures Valid() && fresh(Repr - old(Repr))
      ensures View() == old(View()).PutIx(slot, old(View()).Get(slot).ix.Describe(m))
    {
      var b := Entry(slot);
      label before:
      b.SetBlockMetadata(m);
      OthersKept@before(slot);
      Note(slot);
    }

    method CommitInstructions(slot: Slot)
      requires Valid()
      modifies this, Repr
      ensures Valid() && fresh(Repr - old(Repr))
      ensures View() == old(View()).PutIx(slot, old(View()).Get(slot).ix.Commit())
    {
      var b := Entry(slot);
      label before:
      b.MarkInstructionCommitmentReached();
      OthersKept@before(slot);
      Note(slot);
    }

    method Finalize(slot: Slot)
      requires Valid()
      modifies this, Repr
      ensures Valid() && fresh(Repr - old(Repr))
      ensures View() == old(View()).PutAcct(slot, old(View()).Get(slot).acct.Finalize())
    {
      var b := Entry(slot);
      label before:
      b.MarkAsFinalized();
      OthersKept@before(slot);
      Note(slot);
    }

    method StoreInstruction(slot: Slot, key: Key, record: Record)
      requires Valid()
      modifies this, Repr
      ensures Valid() && fresh(Repr - old(Repr))
      ensures View() == old(View()).PutIx(slot, old(View()).Get(slot).ix.Store(key, record))
    {
      var b := Entry(slot);
      label before:
      b.InsertInstructionRecord(key, record);
      OthersKept@before(slot);
      Note(slot);
    }

    method StoreAccount(slot: Slot, key: Key, record: Record)
      requires Valid()
      modifies this, Repr
      ensures Valid() && fresh(Repr - old(Repr))
      ensures View() == old(View()).PutAcct(slot, old(View()).Get(slot).acct.Store(key, record).CountProcessed())
    {
      var b := Entry(slot);
      label before:
      b.InsertAccountRecord(key, record);
      b.IncrementAccountProcessedCount();
      OthersKept@before(slot);
      Note(slot);
    }

    method CountParsed(slot: Slot)
      requires Valid()
      modifies this, Repr
      ensures Valid() && fresh(Repr - old(Repr))
      ensures View() == old(View()).PutIx(slot, old(View()).Get(slot).ix.CountParsed())
    {
      var b := Entry(slot);
      label before:
      b.IncrementParsedTxCount();
      OthersKept@before(slot);
      Note(slot);
    }

    method CountStat(slot: Slot, kind: StatKind)
      requires Valid()
      modifies this, Repr
      ensures Valid() && fresh(Repr - old(Repr))
      ensures View() == old(View()).Put(slot, old(View()).Get(slot).CountStat(kind))
    {
      var b := Entry(slot);
      label before:
      b.IncrementParseStat(kind);
      OthersKept@before(slot);
      Note(slot);
    }

    method CountAccountStat(slot: Slot, kind: StatKind)
      requires Valid()
      modifies this, Repr
      ensures Valid() && fresh(Repr - old(Repr))
      ensures View() == old(View()).Put(slot, old(View()).Get(slot).CountAccountStat(kind))
    {
      var b := Entry(slot);
      label before:
      b.IncrementParseStat(kind);
      b.IncrementAccountProcessedCount();
      OthersKept@before(slot);
      Note(slot);
    }

    method CloseAccountGate(slot: Slot, count: nat)
      requires Valid()
      modifies this, Repr
      ensures Valid() && fresh(Repr - old(Repr))
      ensures View() == old(View()).PutAcct(slot, old(View()).Get(slot).acct.Freeze(count))
    {
      var b := Entry(slot);
      label before:
      b.SetExpectedAccountCount(count);
      b.MarkAccountCommitmentReached();
      OthersKept@before(slot);
      Note(slot);
    }

    method FreezeAccountGate(slot: Slot)
      requires Valid()
      modifies this, Repr
      ensures Valid() && fresh(Repr - old(Repr))
      ensures View() == old(View()).FreezeAcctGate(slot)
    {
      var count := if slot in accountEventCounts then accountEventCounts[slot] else 0;
      accountEventCounts := accountEventCounts - {slot};
      CloseAccountGate(slot, count);
    }

    // ---- Events ----

    method PruneDiscardedSlots()
      modifies this`discardedSlots
      ensures View() == old(View()).Pruned()
    {
      var last := match (lastInstructionFlushed, lastAccountFlushed)
        case (Some(a), Some(b)) => Some(if a <= b then a else b)
        case (None, b) => b
        case (a, None) => a;
      if last.Some? {
        var minRetained := if last.value < RETENTION then 0 else last.value - RETENTION;
        discardedSlots := set s | s in discardedSlots && s > minRetained;
      }
    }

    method RemoveBuffer(slot: Slot)
      requires Valid()
      modifies this`buffer, this`contents
      ensures Valid() && View() == old(View()).(buffer := old(View()).buffer - {slot})
    {
      buffer := buffer - {slot};
      contents := contents - {slot};
    }

    method DiscardSlot(slot: Slot)
      requires Valid()
      modifies this
      ensures Valid() && Repr == old(Repr) && View() == old(View()).Discard(slot)
    {
      discardedSlots := discardedSlots + {slot};
      accountEventCounts := accountEventCounts - {slot};
      PruneDiscardedSlots();
      RemoveBuffer(slot);
    }

    method ValidateAccountSlot(slot: Slot) returns (ok: bool)
      requires Valid()
      modifies this`lateAccountRecordDrops
      ensures Valid() && ok == old(View()).AcceptsAcct(slot)
      ensures View() == if ok then old(View()) else old(View()).RefuseAcct(slot)
    {
      if slot in discardedSlots { return false; }
      if slot in buffer { assert Told(slot); }
      if AtOrBehind(lastAccountFlushed, slot) || (slot in buffer && buffer[slot].accountsDrained) {
        lateAccountRecordDrops := lateAccountRecordDrops + 1;
        return false;
      }
      return true;
    }

    method AccountGateClosed(slot: Slot) returns (closed: bool)
      requires Valid()
      ensures closed == View().AcctGateClosed(slot)
    {
      if slot !in buffer { return false; }
      assert Told(slot);
      closed := buffer[slot].AccountGateReached() || buffer[slot].IsAccountGateFrozen();
    }

    method SeeAccountEvent(slot: Slot)
      requires Valid()
      modifies this`lateAccountEventDrops, this`accountEventCounts
      ensures Valid() && View() == old(View()).ApplySource(AccountEventSeen(slot))
    {
      if AtOrBehind(lastInstructionFlushed, slot) && AtOrBehind(lastAccountFlushed, slot) { return; }
      if slot in discardedSlots { return; }
      var closed := AccountGateClosed(slot);
      if closed {
        lateAccountEventDrops := lateAccountEventDrops + 1;
      } else {
        var count := if slot in accountEventCounts then accountEventCounts[slot] else 0;
        accountEventCounts := accountEventCounts[slot := count + 1];
      }
    }

    method ApplySource(e: Event)
      requires Valid() && e.FromSource()
      modifies this, Repr
      ensures Valid() && fresh(Repr - old(Repr)) && View() == old(View()).ApplySource(e)
    {
      var slot := e.slot;
      var flushed := AtOrBehind(lastInstructionFlushed, slot) && AtOrBehind(lastAccountFlushed, slot);
      match e {
        case BlockFrozen(_, m) =>
          if !flushed { FreezeBlock(slot, m); }
        case SlotConfirmed(_) =>
          if flushed { return; }
          CommitInstructions(slot);
          if accountCommitAt == AtConfirmed { FreezeAccountGate(slot); }
        case SlotFinalized(_) =>
          if accountCommitAt != AtFinalized || flushed { return; }
          Finalize(slot);
          FreezeAccountGate(slot);
        case SlotDiscarded(_, _) => DiscardSlot(slot);
        case AccountEventSeen(_) => SeeAccountEvent(slot);
      }
    }

    method TakeAccount(slot: Slot, key: Key, record: Record)
      requires Valid()
      modifies this, Repr
      ensures Valid() && fresh(Repr - old(Repr))
      ensures View() == old(View()).ApplyParsed(AccountRecordParsed(slot, key, record))
    {
      var ok := ValidateAccountSlot(slot);
      if !ok { return; }
      StoreAccount(slot, key, record);
    }

    method TakeAccountStat(slot: Slot, kind: StatKind)
      requires Valid() && kind.IsAccount()
      modifies this, Repr
      ensures Valid() && fresh(Repr - old(Repr))
      ensures View() == old(View()).ApplyParsed(ParseStats(slot, kind))
    {
      var ok := ValidateAccountSlot(slot);
      if ok { CountAccountStat(slot, kind); }
    }

    method TakeStat(slot: Slot, kind: StatKind)
      requires Valid()
      modifies this, Repr
      ensures Valid() && fresh(Repr - old(Repr))
      ensures View() == old(View()).ApplyParsed(ParseStats(slot, kind))
    {
      if kind.IsAccount() {
        TakeAccountStat(slot, kind);
      } else if slot !in discardedSlots && !AtOrBehind(lastInstructionFlushed, slot) {
        CountStat(slot, kind);
      }
    }

    method ApplyParsed(e: Event)
      requires Valid() && !e.FromSource()
      modifies this, Repr
      ensures Valid() && fresh(Repr - old(Repr)) && View() == old(View()).ApplyParsed(e)
    {
      var slot := e.slot;
      var acceptsIx := slot !in discardedSlots && !AtOrBehind(lastInstructionFlushed, slot);
      match e {
        case InstructionRecordParsed(_, key, record) =>
          if acceptsIx { StoreInstruction(slot, key, record); }
        case AccountRecordParsed(_, key, record) => TakeAccount(slot, key, record);
        case TransactionParsed(_) =>
          if acceptsIx { CountParsed(slot); }
        case ParseStats(_, kind) => TakeStat(slot, kind);
      }
    }

    method ApplyEvent(e: Event)
      requires Valid()
      modifies this, Repr
      ensures Valid() && fresh(Repr - old(Repr)) && View() == old(View()).Apply(e)
    {
      if e.FromSource() { ApplySource(e); } else { ApplyParsed(e); }
    }

    // ---- Drains ----

    method RemoveFullyDrained()
      requires Valid()
      modifies this`buffer, this`contents
      ensures Valid()
      ensures View() == old(View()).WithoutDrained()
    {
      ghost var was := contents;
      assert forall s :: s in buffer ==> Told(s);
      buffer := map s | s in buffer && !(buffer[s].instructionsDrained && buffer[s].accountsDrained) :: buffer[s];
      contents := map s | s in was && !was[s].FullyDrained() :: was[s];
    }

    method ForgetCounts()
      modifies this`accountEventCounts
      ensures View() == old(View()).CountsAhead()
    {
      if lastAccountFlushed.Some? {
        accountEventCounts := map s | s in accountEventCounts && s > lastAccountFlushed.value :: accountEventCounts[s];
      }
    }

    method CleanupFullyDrained()
      requires Valid()
      modifies this
      ensures Valid() && Repr == old(Repr) && View() == old(View()).Cleaned()
    {
      RemoveFullyDrained();
      PruneDiscardedSlots();
      ForgetCounts();
    }

    method EmptyInstructions(slot: Slot) returns (o: InstructionSlot)
      requires Valid() && slot in buffer && buffer[slot].metadata.Some?
      modifies this`contents, Repr
      ensures Valid() && View() == old(View()).PutIx(slot, old(View()).Get(slot).ix.Emptied())
      ensures o == old(View()).buffer[slot].IxSlot(slot)
    {
      var b := buffer[slot];
      label before:
      var r := b.DrainInstructionRecords(slot);
      o := r.value;
      OthersKept@before(slot);
      Note(slot);
    }

    method FlushInstruction(slot: Slot) returns (o: InstructionSlot)
      requires Valid() && slot in buffer && buffer[slot].metadata.Some?
      modifies this`contents, this`lastInstructionFlushed, Repr
      ensures Valid() && View() == old(View()).FlushIx(slot)
      ensures o == old(View()).buffer[slot].IxSlot(slot)
    {
      label before:
      lastInstructionFlushed := Some(slot);
      StillValid@before();
      o := EmptyInstructions(slot);
    }

    /** A ready slot always has its metadata, so that error cannot be raised. */
    method VisitInstructions(slot: Slot) returns (v: Visit<InstructionSlot>)
      requires Valid() && slot in buffer
      modifies this`contents, this`lastInstructionFlushed, Repr
      ensures Valid() && v == VisitIx(old(View()), slot)
      ensures View() == if v.Flush? then old(View()).FlushIx(slot) else old(View())
    {
      var b := buffer[slot];
      assert Told(slot);
      if b.instructionsDrained { return Skip; }
      if !b.InstructionGateReached() { return Stop; }
      var parent := b.metadata.value.parentSlot;
      var first := lastInstructionFlushed.None?;
      var parentOk := AtOrBehind(lastInstructionFlushed, parent) || parent in discardedSlots;
      if !first && !parentOk { return Stop; }
      var o := FlushInstruction(slot);
      return Flush(o);
    }

    /** One slot of the pass: `more` says whether to go on. */
    method SweepOneInstructions(slots: seq<Slot>, i: nat, flushed: seq<InstructionSlot>, ghost goal: Drained<InstructionSlot>)
      returns (more: bool, now: seq<InstructionSlot>)
      requires Valid() && i < |slots| && IxOnTheWay(goal, View(), slots, i, flushed)
      modifies this`contents, this`lastInstructionFlushed, Repr
      ensures Valid()
      ensures if more then IxOnTheWay(goal, View(), slots, i + 1, now) else goal == Drained(View(), now)
    {
      IxVisitOnTheWay(goal, View(), slots, i, flushed);
      var v := VisitInstructions(slots[i]);
      more := !v.Stop?;
      now := if v.Flush? then flushed + [v.out] else flushed;
    }

    /** One pass over the slots, up to the first that is not ready. */
    method SweepInstructions(slots: seq<Slot>, ghost goal: Drained<InstructionSlot>) returns (flushed: seq<InstructionSlot>)
      requires Valid() && IxOnTheWay(goal, View(), slots, 0, [])
      modifies this`contents, this`lastInstructionFlushed, Repr
      ensures Valid() && goal == Drained(View(), flushed)
    {
      flushed := [];
      var i, more := 0, true;
      while more && i < |slots|
        invariant 0 <= i <= |slots| && Valid()
        invariant if more then IxOnTheWay(goal, View(), slots, i, flushed) else goal == Drained(View(), flushed)
      {
        more, flushed := SweepOneInstructions(slots, i, flushed, goal);
        i := i + 1;
      }
      if more { IxArrived(goal, View(), slots, flushed); }
    }

    method DrainInstructionFlushable() returns (flushed: seq<InstructionSlot>)
      requires Valid()
      modifies this, Repr
      ensures Valid() && Repr == old(Repr) && Drained(View(), flushed) == DrainIx(old(View()))
    {
      var slots := Ascending(buffer.Keys);
      IxSetsOut(View(), slots);
      flushed := SweepInstructions(slots, IxLoop(View(), slots, 0));
      if flushed != [] { CleanupFullyDrained(); }
    }

    method EmptyAccounts(slot: Slot) returns (o: AccountSlot)
      requires Valid() && slot in buffer
      modifies this`contents, Repr
      ensures Valid() && View() == old(View()).PutAcct(slot, old(View()).Get(slot).acct.Emptied())
      ensures o == old(View()).buffer[slot].AcctSlot(slot)
    {
      var b := buffer[slot];
      label before:
      o := b.DrainAccountRecords(slot);
      OthersKept@before(slot);
      Note(slot);
    }

    method FlushAccount(slot: Slot) returns (o: AccountSlot)
      requires Valid() && slot in buffer
      modifies this`contents, this`lastAccountFlushed, Repr
      ensures Valid() && View() == old(View()).FlushAcct(slot)
      ensures o == old(View()).buffer[slot].AcctSlot(slot)
    {
      label before:
      lastAccountFlushed := Some(slot);
      StillValid@before();
      o := EmptyAccounts(slot);
    }

    method VisitAccounts(slot: Slot) returns (v: Visit<AccountSlot>)
      requires Valid() && slot in buffer
      modifies this`contents, this`lastAccountFlushed, Repr
      ensures Valid() && v == VisitAcct(old(View()), slot)
      ensures View() == if v.Flush? then old(View()).FlushAcct(slot) else old(View())
    {
      var b := buffer[slot];
      assert Told(slot);
      if b.accountsDrained { return Skip; }
      if !b.AccountGateReached() { return Stop; }
      var o := FlushAccount(slot);
      return Flush(o);
    }

    /** One slot of the pass: `more` says whether to go on. */
    method SweepOneAccounts(slots: seq<Slot>, i: nat, flushed: seq<AccountSlot>, ghost goal: Drained<AccountSlot>)
      returns (more: bool, now: seq<AccountSlot>)
      requires Valid() && i < |slots| && AcctOnTheWay(goal, View(), slots, i, flushed)
      modifies this`contents, this`lastAccountFlushed, Repr
      ensures Valid()
      ensures if more then AcctOnTheWay(goal, View(), slots, i + 1, now) else goal == Drained(View(), now)
    {
      AcctVisitOnTheWay(goal, View(), slots, i, flushed);
      var v := VisitAccounts(slots[i]);
      more := !v.Stop?;
      now := if v.Flush? then flushed + [v.out] else flushed;
    }

    /** One pass over the slots, up to the first that is not ready. */
    method SweepAccounts(slots: seq<Slot>, ghost goal: Drained<AccountSlot>) returns (flushed: seq<AccountSlot>)
      requires Valid() && AcctOnTheWay(goal, View(), slots, 0, [])
      modifies this`contents, this`lastAccountFlushed, Repr
      ensures Valid() && goal == Drained(View(), flushed)
    {
      flushed := [];
      var i, more := 0, true;
      while more && i < |slots|
        invariant 0 <= i <= |slots| && Valid()
        invariant if more then AcctOnTheWay(goal, View(), slots, i, flushed) else goal == Drained(View(), flushed)
      {
        more, flushed := SweepOneAccounts(slots, i, flushed, goal);
        i := i + 1;
      }
      if more { AcctArrived(goal, View(), slots, flushed); }
    }

    method DrainAccountFlushable() returns (flushed: seq<AccountSlot>)
      requires Valid()
      modifies this, Repr
      ensures Valid() && Repr == old(Repr) && Drained(View(), flushed) == DrainAcct(old(View()))
    {
      var slots := Ascending(buffer.Keys);
      AcctSetsOut(View(), slots);
      flushed := SweepAccounts(slots, AcctLoop(View(), slots, 0));
      if flushed != [] { CleanupFullyDrained(); }
    }
  }
}
