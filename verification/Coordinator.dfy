/**
 * The coordinator state machine as a value: what one event does, and what the two drains emit.
 * The object in CoordinatorState.dfy computes exactly this.
 */
module Coordinator {
  import opened Basics
  import opened Records
  import opened SlotBuffer

  datatype DiscardReason = Dead | Forked | Untracked | Incomplete

  datatype CommitAt = AtConfirmed | AtFinalized

  datatype Event =
    | BlockFrozen(slot: Slot, metadata: Metadata)
    | SlotConfirmed(slot: Slot)
    | SlotFinalized(slot: Slot)
    | SlotDiscarded(slot: Slot, reason: DiscardReason)
    | AccountEventSeen(slot: Slot)
    | InstructionRecordParsed(slot: Slot, key: Key, record: Record)
    | AccountRecordParsed(slot: Slot, key: Key, record: Record)
    | TransactionParsed(slot: Slot)
    | ParseStats(slot: Slot, kind: StatKind)
  {
    predicate FromSource() {
      BlockFrozen? || SlotConfirmed? || SlotFinalized? || SlotDiscarded? || AccountEventSeen?
    }
  }

  /** How far behind the lower frontier a discard marker is kept. */
  const RETENTION: nat := 512

  predicate AtOrBehind(frontier: Option<Slot>, slot: Slot) {
    frontier.Some? && slot <= frontier.value
  }

  /**
   * `retention` is `Some(RETENTION)` in the program. `None` is a coordinator that never forgets a
   * discard; it exists to state that forgetting is unobservable.
   */
  datatype State = State(
    buffer: map<Slot, Buffer>,
    discarded: set<Slot>,
    ixFrontier: Option<Slot>,
    acctFrontier: Option<Slot>,
    eventCounts: map<Slot, nat>,
    commitAt: CommitAt,
    retention: Option<nat>,
    lateRecordDrops: nat,
    lateEventDrops: nat)
  {
    function Get(slot: Slot): Buffer {
      if slot in buffer then buffer[slot] else EMPTY_BUFFER
    }

    function PutIx(slot: Slot, ix: IxSide): State {
      this.(buffer := buffer[slot := Get(slot).(ix := ix)])
    }

    function PutAcct(slot: Slot, acct: AcctSide): State {
      this.(buffer := buffer[slot := Get(slot).(acct := acct)])
    }

    function Put(slot: Slot, b: Buffer): State { this.(buffer := buffer[slot := b]) }

    predicate AlreadyFlushed(slot: Slot) {
      AtOrBehind(ixFrontier, slot) && AtOrBehind(acctFrontier, slot)
    }

    predicate AcceptsIx(slot: Slot) { slot !in discarded && !AtOrBehind(ixFrontier, slot) }

    predicate AcceptsAcct(slot: Slot) {
      slot !in discarded && !AtOrBehind(acctFrontier, slot) && !Get(slot).acct.drained
    }

    predicate AcctGateClosed(slot: Slot) {
      slot in buffer && (buffer[slot].acct.Gate() || buffer[slot].acct.Frozen())
    }

    predicate AcceptsEventSeen(slot: Slot) {
      !AlreadyFlushed(slot) && slot !in discarded && !AcctGateClosed(slot)
    }

    function LastFlushed(): Option<Slot> {
      if ixFrontier.Some? && acctFrontier.Some? then
        Some(if ixFrontier.value <= acctFrontier.value then ixFrontier.value else acctFrontier.value)
      else if ixFrontier.Some? then ixFrontier
      else acctFrontier
    }

    function Pruned(): State {
      if LastFlushed().None? || retention.None? then this
      else
        var last := LastFlushed().value;
        var minRetained := if last < retention.value then 0 else last - retention.value;
        this.(discarded := set s | s in discarded && s > minRetained)
    }

    /** A refused account record is counted as late unless its slot is a known discard. */
    function RefuseAcct(slot: Slot): State {
      if slot in discarded then this else this.(lateRecordDrops := lateRecordDrops + 1)
    }

    function FreezeAcctGate(slot: Slot): State {
      var count := if slot in eventCounts then eventCounts[slot] else 0;
      this.(eventCounts := eventCounts - {slot}).PutAcct(slot, Get(slot).acct.Freeze(count))
    }

    function Discard(slot: Slot): State {
      var st := this.(discarded := discarded + {slot}, eventCounts := eventCounts - {slot}).Pruned();
      st.(buffer := st.buffer - {slot})
    }

    /** Lifecycle and account-stream events, which arrive from the source. */
    function ApplySource(e: Event): State
      requires e.FromSource()
    {
      var slot := e.slot;
      match e
      case BlockFrozen(_, m) =>
        if AlreadyFlushed(slot) then this else PutIx(slot, Get(slot).ix.Describe(m))
      case SlotConfirmed(_) =>
        if AlreadyFlushed(slot) then this else
          var st := PutIx(slot, Get(slot).ix.Commit());
          if commitAt == AtConfirmed then st.FreezeAcctGate(slot) else st
      case SlotFinalized(_) =>
        if commitAt != AtFinalized || AlreadyFlushed(slot) then this
        else PutAcct(slot, Get(slot).acct.Finalize()).FreezeAcctGate(slot)
      case SlotDiscarded(_, _) => Discard(slot)
      case AccountEventSeen(_) =>
        if AlreadyFlushed(slot) || slot in discarded then this
        else if AcctGateClosed(slot) then this.(lateEventDrops := lateEventDrops + 1)
        else
          var count := if slot in eventCounts then eventCounts[slot] else 0;
          this.(eventCounts := eventCounts[slot := count + 1])
    }

    /** Parse results, which arrive from the handlers. */
    function ApplyParsed(e: Event): State
      requires !e.FromSource()
    {
      var slot := e.slot;
      var ix, acct := Get(slot).ix, Get(slot).acct;
      match e
      case InstructionRecordParsed(_, key, record) =>
        if AcceptsIx(slot) then PutIx(slot, ix.Store(key, record)) else this
      case AccountRecordParsed(_, key, record) =>
        if AcceptsAcct(slot) then
          PutAcct(slot, acct.Store(key, record).CountProcessed())
        else RefuseAcct(slot)
      case TransactionParsed(_) =>
        if AcceptsIx(slot) then PutIx(slot, ix.CountParsed()) else this
      case ParseStats(_, kind) =>
        if !kind.IsAccount() then (if AcceptsIx(slot) then Put(slot, Get(slot).CountStat(kind)) else this)
        else if AcceptsAcct(slot) then Put(slot, Get(slot).CountAccountStat(kind))
        else RefuseAcct(slot)
    }

    function Apply(e: Event): State { if e.FromSource() then ApplySource(e) else ApplyParsed(e) }

    /** The head of the instruction queue may go out only behind its parent. */
    predicate ParentOk(ix: IxSide)
      requires ix.metadata.Some?
    {
      ixFrontier.None? || AtOrBehind(ixFrontier, ix.metadata.value.parentSlot)
      || ix.metadata.value.parentSlot in discarded
    }

    function FlushIx(slot: Slot): State {
      PutIx(slot, Get(slot).ix.Emptied()).(ixFrontier := Some(slot))
    }

    function FlushAcct(slot: Slot): State {
      PutAcct(slot, Get(slot).acct.Emptied()).(acctFrontier := Some(slot))
    }

    function WithoutDrained(): State {
      this.(buffer := map s | s in buffer && !buffer[s].FullyDrained() :: buffer[s])
    }

    function CountsAhead(): State {
      if acctFrontier.None? then this else
        this.(eventCounts := map s | s in eventCounts && s > acctFrontier.value :: eventCounts[s])
    }

    function Cleaned(): State { WithoutDrained().Pruned().CountsAhead() }
  }

  function Init(commitAt: CommitAt, retention: Option<nat>): State {
    State(map[], {}, None, None, map[], commitAt, retention, 0, 0)
  }

  datatype Drained<+Out> = Drained(st: State, out: seq<Out>)

  /** One pass over `slots[i..]`, in order, up to the first slot that is not ready. */
  function IxLoop(st: State, slots: seq<Slot>, i: nat): Drained<InstructionSlot>
    requires i <= |slots| && forall s :: s in slots ==> s in st.buffer
    decreases |slots| - i
  {
    if i == |slots| then Drained(st, []) else
      var slot := slots[i];
      var b := st.buffer[slot];
      if b.ix.drained then IxLoop(st, slots, i + 1)
      else if !b.ix.Gate() || !st.ParentOk(b.ix) then Drained(st, [])
      else
        var rest := IxLoop(st.FlushIx(slot), slots, i + 1);
        Drained(rest.st, [b.IxSlot(slot)] + rest.out)
  }

  function AcctLoop(st: State, slots: seq<Slot>, i: nat): Drained<AccountSlot>
    requires i <= |slots| && forall s :: s in slots ==> s in st.buffer
    decreases |slots| - i
  {
    if i == |slots| then Drained(st, []) else
      var slot := slots[i];
      var b := st.buffer[slot];
      if b.acct.drained then AcctLoop(st, slots, i + 1)
      else if !b.acct.Gate() then Drained(st, [])
      else
        var rest := AcctLoop(st.FlushAcct(slot), slots, i + 1);
        Drained(rest.st, [b.AcctSlot(slot)] + rest.out)
  }

  function DrainIx(st: State): Drained<InstructionSlot> {
    var d := IxLoop(st, Ascending(st.buffer.Keys), 0);
    if d.out == [] then d else d.(st := d.st.Cleaned())
  }

  function DrainAcct(st: State): Drained<AccountSlot> {
    var d := AcctLoop(st, Ascending(st.buffer.Keys), 0);
    if d.out == [] then d else d.(st := d.st.Cleaned())
  }
}
