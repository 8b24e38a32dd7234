/** The per-slot buffer of parsed records, as a value and as an object. */
module SlotBuffer {
  // `Buffer` is the value of a buffer; `SlotRecordBuffer` is the object the coordinator owns and mutates,
  // each method of which is tied to a change of that value.

  import opened Basics
  import opened Records

  type Slot = nat

  /** A prepared Kafka record; the coordinator never looks inside. */
  type Record(==, !new)

  datatype Metadata = Metadata(parentSlot: Slot, blockhash: nat, expectedTxCount: nat)

  datatype StatKind =
    | InstructionFiltered | InstructionError
    | AccountFiltered | AccountError
    | TransactionStatusFailed | TransactionStatusSucceeded
  {
    predicate IsAccount() { AccountFiltered? || AccountError? }
  }

  datatype Stats = Stats(filteredIx: nat, failedIx: nat, filteredAcct: nat, failedAcct: nat,
                         txFailed: nat, txSucceeded: nat)
  {
    function Count(kind: StatKind): Stats {
      match kind
      case InstructionFiltered => this.(filteredIx := filteredIx + 1)
      case InstructionError => this.(failedIx := failedIx + 1)
      case AccountFiltered => this.(filteredAcct := filteredAcct + 1)
      case AccountError => this.(failedAcct := failedAcct + 1)
      case TransactionStatusFailed => this.(txFailed := txFailed + 1)
      case TransactionStatusSucceeded => this.(txSucceeded := txSucceeded + 1)
    }
  }

  datatype InstructionSlot = InstructionSlot(slot: Slot, parentSlot: Slot, blockhash: nat,
                                                 executedTxCount: nat, records: seq<Record>, stats: Stats)

  datatype AccountSlot = AccountSlot(slot: Slot, records: seq<Record>, decoded: nat, stats: Stats)

  /** The half of a buffer behind the instruction gate. */
  datatype IxSide = IxSide(records: seq<Entry<Record>>, metadata: Option<Metadata>, parsedTx: nat,
                           committed: bool, drained: bool)
  {
    predicate Gate() {
      metadata.Some? && parsedTx >= metadata.value.expectedTxCount && committed
    }

    function Emptied(): IxSide { this.(records := [], drained := true) }

    function Describe(m: Metadata): IxSide { this.(metadata := Some(m)) }

    function Commit(): IxSide { this.(committed := true) }

    function Store(key: Key, record: Record): IxSide { this.(records := Insert(records, key, record)) }

    function CountParsed(): IxSide { this.(parsedTx := parsedTx + 1) }
  }

  /** The half of a buffer behind the account gate. */
  datatype AcctSide = AcctSide(records: seq<Entry<Record>>, expected: Option<nat>, processed: nat,
                               committed: bool, finalized: bool, drained: bool)
  {
    predicate Gate() { expected.Some? && processed >= expected.value && committed }

    predicate Frozen() { committed && expected.Some? }

    function Emptied(): AcctSide { this.(records := [], drained := true) }

    function Finalize(): AcctSide { this.(finalized := true) }

    function Store(key: Key, record: Record): AcctSide { this.(records := Insert(records, key, record)) }

    function CountProcessed(): AcctSide { this.(processed := processed + 1) }

    /** The expected count is fixed by the first write; the commitment mark is set either way. */
    function Freeze(count: nat): AcctSide {
      this.(expected := if expected.Some? then expected else Some(count), committed := true)
    }
  }

  datatype Buffer = Buffer(ix: IxSide, acct: AcctSide, stats: Stats)
  {
    predicate FullyDrained() { ix.drained && acct.drained }

    function CountStat(kind: StatKind): Buffer { this.(stats := stats.Count(kind)) }

    /** An account that gave no record counts as processed all the same. */
    function CountAccountStat(kind: StatKind): Buffer { this.(stats := stats.Count(kind), acct := acct.CountProcessed()) }

    function IxSlot(slot: Slot): InstructionSlot
      requires ix.metadata.Some?
    {
      var m := ix.metadata.value;
      InstructionSlot(slot, m.parentSlot, m.blockhash, m.expectedTxCount, Values(ix.records), stats)
    }

    function AcctSlot(slot: Slot): AccountSlot {
      AccountSlot(slot, Values(acct.records), |acct.records|, stats)
    }
  }

  const EMPTY_BUFFER: Buffer :=
    Buffer(IxSide([], None, 0, false, false), AcctSide([], None, 0, false, false, false),
           Stats(0, 0, 0, 0, 0, 0))

  class SlotRecordBuffer {
    var instructionRecords: seq<Entry<Record>>
    var accountRecords: seq<Entry<Record>>
    var metadata: Option<Metadata>
    var parsedTxCount: nat
    var instructionCommitmentReached: bool
    var finalized: bool
    var accountCommitmentReached: bool
    var expectedAccountCount: Option<nat>
    var accountProcessedCount: nat
    var instructionsDrained: bool
    var accountsDrained: bool
    var stats: Stats

    function View(): Buffer
      reads this
    {
      Buffer(IxSide(instructionRecords, metadata, parsedTxCount, instructionCommitmentReached,
                    instructionsDrained),
             AcctSide(accountRecords, expectedAccountCount, accountProcessedCount,
                      accountCommitmentReached, finalized, accountsDrained),
             stats)
    }

    predicate InstructionGateReached()
      reads this
      ensures InstructionGateReached() == View().ix.Gate()
    {
      metadata.Some? && parsedTxCount >= metadata.value.expectedTxCount && instructionCommitmentReached
    }

    predicate AccountGateReached()
      reads this
      ensures AccountGateReached() == View().acct.Gate()
    {
      expectedAccountCount.Some? && accountProcessedCount >= expectedAccountCount.value && accountCommitmentReached
    }

    predicate IsAccountGateFrozen()
      reads this
      ensures IsAccountGateFrozen() == View().acct.Frozen()
    {
      accountCommitmentReached && expectedAccountCount.Some?
    }

    constructor ()
      ensures View() == EMPTY_BUFFER
    {
      instructionRecords, accountRecords, metadata := [], [], None;
      parsedTxCount, accountProcessedCount, expectedAccountCount := 0, 0, None;
      instructionCommitmentReached, finalized, accountCommitmentReached := false, false, false;
      instructionsDrained, accountsDrained := false, false;
      stats := Stats(0, 0, 0, 0, 0, 0);
    }

    method InsertInstructionRecord(key: Key, record: Record)
      modifies this
      ensures View() == old(View()).(ix := old(View()).ix.Store(key, record))
    {
      instructionRecords := Insert(instructionRecords, key, record);
    }

    method InsertAccountRecord(key: Key, record: Record)
      modifies this
      ensures View() == old(View()).(acct := old(View()).acct.Store(key, record))
    {
      accountRecords := Insert(accountRecords, key, record);
    }

    method SetBlockMetadata(m: Metadata)
      modifies this
      ensures View() == old(View()).(ix := old(View()).ix.Describe(m))
    {
      metadata := Some(m);
    }

    method IncrementParsedTxCount()
      modifies this
      ensures View() == old(View()).(ix := old(View()).ix.CountParsed())
    {
      parsedTxCount := parsedTxCount + 1;
    }

    method IncrementParseStat(kind: StatKind)
      modifies this
      ensures View() == old(View()).CountStat(kind)
    {
      stats := stats.Count(kind);
    }

    method IncrementAccountProcessedCount()
      modifies this
      ensures View() == old(View()).(acct := old(View()).acct.CountProcessed())
    {
      accountProcessedCount := accountProcessedCount + 1;
    }

    method MarkInstructionCommitmentReached()
      modifies this
      ensures View() == old(View()).(ix := old(View()).ix.Commit())
    {
      instructionCommitmentReached := true;
    }

    /** Setting the expected count, then the commitment mark, is the freeze of the account gate. */
    method SetExpectedAccountCount(count: nat)
      modifies this
      ensures View().(acct := View().acct.(committed := true)) == old(View()).(acct := old(View()).acct.Freeze(count))
      ensures accountCommitmentReached == old(accountCommitmentReached)
    {
      if expectedAccountCount.Some? { return; }
      expectedAccountCount := Some(count);
    }

    method MarkAccountCommitmentReached()
      modifies this
      ensures View() == old(View()).(acct := old(View()).acct.(committed := true))
    {
      accountCommitmentReached := true;
    }

    method MarkAsFinalized()
      modifies this
      ensures View() == old(View()).(acct := old(View()).acct.Finalize())
    {
      finalized := true;
    }

    method DrainInstructionRecords(slot: Slot) returns (r: Option<InstructionSlot>)
      modifies this
      ensures r.None? <==> old(metadata).None?
      ensures r.None? ==> View() == old(View())
      ensures r.Some? ==> r.value == old(View()).IxSlot(slot)
                          && View() == old(View()).(ix := old(View()).ix.Emptied())
    {
      if metadata.None? { return None; }
      r := Some(InstructionSlot(slot, metadata.value.parentSlot, metadata.value.blockhash,
                                metadata.value.expectedTxCount, Values(instructionRecords), stats));
      instructionRecords := [];
      instructionsDrained := true;
    }

    method DrainAccountRecords(slot: Slot) returns (r: AccountSlot)
      modifies this
      ensures r == old(View()).AcctSlot(slot)
      ensures View() == old(View()).(acct := old(View()).acct.Emptied())
    {
      r := AccountSlot(slot, Values(accountRecords), |accountRecords|, stats);
      accountRecords := [];
      accountsDrained := true;
    }
  }
}
