/** What the buffering handler sends for one transaction, and what a block of them becomes. */
module Handler {
  import opened Basics
  import opened Records
  import opened SlotBuffer
  import opened Coordinator
  import opened Runs
  import opened TwoGate
  import opened CallTree
  import opened Visit

  /** What the parsers make of one instruction. A fallback record is sent and counted as well. */
  datatype Parsed =
    | Decoded(record: Record)
    | Fallback(record: Record, failed: bool)
    | NoRecord(failed: bool)

  /** A transaction update, with its instruction tree already built when it has one. */
  datatype Transaction =
    | NoInfo
    | FailedStatus(index: nat)
    | Unbuildable(index: nat)
    | Built(index: nat, instructions: seq<Instruction>)

  type Parser = Visited -> Parsed

  function StatOf(failed: bool): StatKind { if failed then InstructionError else InstructionFiltered }

  /** `sort_key`: the transaction index, then the flat index. */
  function SortKey(txIndex: nat, path: seq<nat>): Key { InstructionKey(txIndex, path) }

  function Messages(slot: Slot, txIndex: nat, v: Visited, parsed: Parsed): seq<Event> {
    match parsed
    case Decoded(r) => [InstructionRecordParsed(slot, SortKey(txIndex, v.index), r)]
    case Fallback(r, failed) =>
      [InstructionRecordParsed(slot, SortKey(txIndex, v.index), r), ParseStats(slot, StatOf(failed))]
    case NoRecord(failed) => [ParseStats(slot, StatOf(failed))]
  }

  function AllMessages(slot: Slot, txIndex: nat, visited: seq<Visited>, parser: Parser): seq<Event> {
    if visited == [] then [] else
      var n := |visited| - 1;
      AllMessages(slot, txIndex, visited[..n], parser) + Messages(slot, txIndex, visited[n], parser(visited[n]))
  }

  /** Every instruction of the transaction, outer by outer, in execution order. */
  function Execution(instructions: seq<Instruction>): seq<Visited> {
    if instructions == [] then [] else
      Execution(instructions[..|instructions| - 1]) + FlatVisit(instructions[|instructions| - 1])
  }

  function TransactionMessages(slot: Slot, tx: Transaction, parser: Parser): seq<Event> {
    match tx
    case NoInfo => [TransactionParsed(slot)]
    case FailedStatus(_) => [ParseStats(slot, TransactionStatusFailed), TransactionParsed(slot)]
    case Unbuildable(_) => [ParseStats(slot, TransactionStatusSucceeded), TransactionParsed(slot)]
    case Built(index, instructions) =>
      [ParseStats(slot, TransactionStatusSucceeded)]
      + AllMessages(slot, index, Execution(instructions), parser) + [TransactionParsed(slot)]
  }

  lemma {:induction false} AllMessagesAppend(slot: Slot, txIndex: nat, a: seq<Visited>, b: seq<Visited>, parser: Parser)
    ensures AllMessages(slot, txIndex, a + b, parser)
            == AllMessages(slot, txIndex, a, parser) + AllMessages(slot, txIndex, b, parser)
    decreases |b|
  {
    if b == [] {
      assert a + b == a;
    } else {
      assert (a + b)[..|a + b| - 1] == a + b[..|b| - 1];
      AllMessagesAppend(slot, txIndex, a, b[..|b| - 1], parser);
    }
  }

  /** The sends for one outer instruction and everything below it. */
  method SendInstruction(slot: Slot, txIndex: nat, ix: Instruction, parser: Parser) returns (sent: seq<Event>)
    ensures sent == AllMessages(slot, txIndex, FlatVisit(ix), parser)
  {
    var visited := VisitAllWithFlatIndices(ix);
    sent := [];
    for k := 0 to |visited|
      invariant sent == AllMessages(slot, txIndex, visited[..k], parser)
    {
      var v := visited[k];
      assert visited[..k + 1][..k] == visited[..k];
      var messages := Messages(slot, txIndex, v, parser(v));
      sent := sent + messages;
    }
    assert visited[..|visited|] == visited;
  }

  lemma ExecutionStep(slot: Slot, txIndex: nat, ixs: seq<Instruction>, i: nat, parser: Parser)
    requires i < |ixs|
    ensures AllMessages(slot, txIndex, Execution(ixs[..i + 1]), parser)
            == AllMessages(slot, txIndex, Execution(ixs[..i]), parser) + AllMessages(slot, txIndex, FlatVisit(ixs[i]), parser)
  {
    assert ixs[..i + 1][..i] == ixs[..i];
    AllMessagesAppend(slot, txIndex, Execution(ixs[..i]), FlatVisit(ixs[i]), parser);
  }

  method SendInstructions(slot: Slot, txIndex: nat, ixs: seq<Instruction>, parser: Parser) returns (sent: seq<Event>)
    ensures sent == AllMessages(slot, txIndex, Execution(ixs), parser)
  {
    sent := [];
    for i := 0 to |ixs|
      invariant sent == AllMessages(slot, txIndex, Execution(ixs[..i]), parser)
    {
      ExecutionStep(slot, txIndex, ixs, i, parser);
      var messages := SendInstruction(slot, txIndex, ixs[i], parser);
      sent := sent + messages;
    }
    assert ixs[..|ixs|] == ixs;
  }

  method HandleTransaction(slot: Slot, tx: Transaction, parser: Parser) returns (sent: seq<Event>)
    ensures sent == TransactionMessages(slot, tx, parser)
  {
    if tx.NoInfo? { return [TransactionParsed(slot)]; }
    if tx.FailedStatus? { return [ParseStats(slot, TransactionStatusFailed), TransactionParsed(slot)]; }
    sent := [ParseStats(slot, TransactionStatusSucceeded)];
    if tx.Built? {
      var messages := SendInstructions(slot, tx.index, tx.instructions, parser);
      sent := sent + messages;
    }
    sent := sent + [TransactionParsed(slot)];
  }

  // ---- The messages of a transaction form a task ----

  /** Outer instruction `i` has path `[i]`, as the transaction builder sets it. */
  predicate OuterPaths(instructions: seq<Instruction>) {
    forall i :: 0 <= i < |instructions| ==> instructions[i].path == [i]
  }

  predicate IndexesIncrease(visited: seq<Visited>) {
    forall i, j :: 0 <= i < j < |visited| ==> LexLess(visited[i].index, visited[j].index)
  }

  lemma FlatVisitIncreases(ix: Instruction)
    requires |ix.path| == 1
    ensures IndexesIncrease(FlatVisit(ix)) && FlatVisit(ix) != []
    ensures forall v :: v in FlatVisit(ix) ==> v.index != [] && v.index[0] == ix.path[0]
  {
    var all := FlatVisit(ix);
    assert all[0].index == ix.path by { assert Preorder([ix])[0] == ix; }
    forall i, j | 0 <= i < j < |all| ensures LexLess(all[i].index, all[j].index) {
      if i == 0 {
        LexPrefixExtends(ix.path, [j - 1]);
        assert ix.path + [j - 1] == [ix.path[0], j - 1];
      } else {
        LexFirstDifference([ix.path[0]], [i - 1], [j - 1]);
      }
    }
  }

  lemma {:induction false} ExecutionIncreases(instructions: seq<Instruction>)
    requires OuterPaths(instructions)
    ensures IndexesIncrease(Execution(instructions))
    ensures forall v :: v in Execution(instructions) ==> v.index != [] && v.index[0] < |instructions|
  {
    if instructions != [] {
      var n := |instructions| - 1;
      ExecutionIncreases(instructions[..n]);
      FlatVisitIncreases(instructions[n]);
      var a, b := Execution(instructions[..n]), FlatVisit(instructions[n]);
      forall i, j | 0 <= i < |a| && 0 <= j < |b| ensures LexLess(a[i].index, b[j].index) {
        assert a[i] in a && b[j] in b;
      }
    }
  }

  /** The records sent, in execution order, under their sort keys. */
  function Produced(txIndex: nat, visited: seq<Visited>, parser: Parser): seq<Entry<Record>> {
    if visited == [] then [] else
      var n := |visited| - 1;
      var before := Produced(txIndex, visited[..n], parser);
      var p := parser(visited[n]);
      if p.NoRecord? then before else before + [Entry(SortKey(txIndex, visited[n].index), p.record)]
  }

  function ProducedBy(tx: Transaction, parser: Parser): seq<Entry<Record>> {
    if tx.Built? then Produced(tx.index, Execution(tx.instructions), parser) else []
  }

  lemma {:induction false} RecordsOfAppend(a: seq<Event>, b: seq<Event>)
    ensures RecordsOf(a + b) == RecordsOf(a) + RecordsOf(b)
    decreases |b|
  {
    if b == [] {
      assert a + b == a;
    } else {
      assert (a + b)[..|a + b| - 1] == a + b[..|b| - 1];
      RecordsOfAppend(a, b[..|b| - 1]);
    }
  }

  lemma RecordsOfOne(e: Event)
    ensures RecordsOf([e]) == if e.InstructionRecordParsed? then [Entry(e.key, e.record)] else []
  {
    assert [e][..0] == [];
  }

  lemma RecordsOfMessages(slot: Slot, txIndex: nat, v: Visited, parsed: Parsed)
    ensures RecordsOf(Messages(slot, txIndex, v, parsed))
            == if parsed.NoRecord? then [] else [Entry(SortKey(txIndex, v.index), parsed.record)]
  {
    var m := Messages(slot, txIndex, v, parsed);
    RecordsOfOne(m[0]);
    if parsed.Fallback? {
      RecordsOfOne(m[1]);
      RecordsOfAppend([m[0]], [m[1]]);
      assert [m[0]] + [m[1]] == m;
    } else {
      assert m == [m[0]];
    }
  }

  lemma {:induction false} AllMessagesFacts(slot: Slot, txIndex: nat, visited: seq<Visited>, parser: Parser)
    ensures RecordsOf(AllMessages(slot, txIndex, visited, parser)) == Produced(txIndex, visited, parser)
    ensures forall e :: e in AllMessages(slot, txIndex, visited, parser) ==> e.slot == slot && !e.TransactionParsed?
  {
    if visited != [] {
      var n := |visited| - 1;
      AllMessagesFacts(slot, txIndex, visited[..n], parser);
      RecordsOfMessages(slot, txIndex, visited[n], parser(visited[n]));
      RecordsOfAppend(AllMessages(slot, txIndex, visited[..n], parser),
                      Messages(slot, txIndex, visited[n], parser(visited[n])));
    }
  }

  /** Sort keys are strictly increasing in execution order. */
  lemma {:induction false} ProducedSorted(txIndex: nat, visited: seq<Visited>, parser: Parser)
    requires IndexesIncrease(visited)
    ensures Sorted(Produced(txIndex, visited, parser))
    ensures forall e :: e in Produced(txIndex, visited, parser) ==>
              exists v :: v in visited && e.key == SortKey(txIndex, v.index)
  {
    if visited != [] {
      var n := |visited| - 1;
      ProducedSorted(txIndex, visited[..n], parser);
      var before := Produced(txIndex, visited[..n], parser);
      forall i | 0 <= i < |before| ensures LexLess(before[i].key, SortKey(txIndex, visited[n].index)) {
        assert before[i] in before;
        var v :| v in visited[..n] && before[i].key == SortKey(txIndex, v.index);
        var k :| 0 <= k < n && visited[..n][k] == v;
        assert LexLess(visited[k].index, visited[n].index);
        InstructionKeyOrder(txIndex, v.index, txIndex, visited[n].index);
      }
      assert visited[n] in visited;
      forall e | e in before ensures exists v :: v in visited && e.key == SortKey(txIndex, v.index) {
        var v :| v in visited[..n] && e.key == SortKey(txIndex, v.index);
        assert v in visited;
      }
    }
  }

  function TxIndex(tx: Transaction, missing: nat): nat { if tx.NoInfo? then missing else tx.index }

  lemma TransactionRecords(slot: Slot, tx: Transaction, parser: Parser)
    ensures RecordsOf(TransactionMessages(slot, tx, parser)) == ProducedBy(tx, parser)
  {
    var msgs := TransactionMessages(slot, tx, parser);
    var last := TransactionParsed(slot);
    RecordsOfOne(last);
    if tx.NoInfo? { return; }
    RecordsOfOne(msgs[0]);
    if tx.Built? {
      var body := AllMessages(slot, tx.index, Execution(tx.instructions), parser);
      AllMessagesFacts(slot, tx.index, Execution(tx.instructions), parser);
      RecordsOfAppend([msgs[0]] + body, [last]);
      RecordsOfAppend([msgs[0]], body);
    } else {
      RecordsOfAppend([msgs[0]], [last]);
      assert [msgs[0]] + [last] == msgs;
    }
  }

  /** A handler's messages for one transaction: records in key order, then its single signal. */
  lemma TransactionIsTask(slot: Slot, tx: Transaction, parser: Parser, missing: nat)
    requires tx.Built? ==> OuterPaths(tx.instructions)
    ensures IsTask(TransactionMessages(slot, tx, parser), slot, TxIndex(tx, missing))
    ensures RecordsOf(TransactionMessages(slot, tx, parser)) == ProducedBy(tx, parser)
  {
    var msgs := TransactionMessages(slot, tx, parser);
    TransactionRecords(slot, tx, parser);
    if tx.Built? {
      var visited := Execution(tx.instructions);
      ExecutionIncreases(tx.instructions);
      AllMessagesFacts(slot, tx.index, visited, parser);
      ProducedSorted(tx.index, visited, parser);
      var body := AllMessages(slot, tx.index, visited, parser);
      forall i | 0 <= i < |msgs| - 1 ensures msgs[i].slot == slot && !msgs[i].TransactionParsed? {
        if i > 0 { assert msgs[i] == body[i - 1]; }
      }
    }
  }

  function TasksOf(slot: Slot, txs: seq<Transaction>, parsers: seq<Parser>): (r: seq<seq<Event>>)
    requires |txs| == |parsers|
    ensures |r| == |txs|
  {
    seq(|txs|, t requires 0 <= t < |txs| => TransactionMessages(slot, txs[t], parsers[t]))
  }

  /** The records of a block: transaction by transaction, each in execution order. */
  function ProducedByBlock(txs: seq<Transaction>, parsers: seq<Parser>): seq<Entry<Record>>
    requires |txs| == |parsers|
  {
    if txs == [] then [] else
      var n := |txs| - 1;
      ProducedByBlock(txs[..n], parsers[..n]) + ProducedBy(txs[n], parsers[n])
  }

  lemma {:induction false} BlockRecordsAreProduced(slot: Slot, txs: seq<Transaction>, parsers: seq<Parser>)
    requires |txs| == |parsers|
    ensures BlockRecords(TasksOf(slot, txs, parsers)) == ProducedByBlock(txs, parsers)
  {
    if txs != [] {
      var n := |txs| - 1;
      BlockRecordsAreProduced(slot, txs[..n], parsers[..n]);
      assert TasksOf(slot, txs, parsers)[..n] == TasksOf(slot, txs[..n], parsers[..n]);
      TransactionRecords(slot, txs[n], parsers[n]);
    }
  }

  /**
   * End to end: take the transactions of a block in index order, let their handler tasks run
   * interleaved in any way with each other, with account handlers, with the source and with the
   * drains. If the run has no stale block, the block announces as many transactions as there are, and the slot is not discarded,
   * then what goes out for the slot is every record the handlers produced, once, in
   * (transaction, execution) order.
   */
  lemma DeliveredBlockIsExecutionOrder(commitAt: CommitAt, steps: seq<Step>, slot: Slot,
                                       txs: seq<Transaction>, parsers: seq<Parser>, indexes: seq<nat>)
    requires |txs| == |parsers| == |indexes| && StrictlyAscending(indexes)
    requires forall t :: 0 <= t < |txs| ==>
               (txs[t].NoInfo? || txs[t].index == indexes[t]) && (txs[t].Built? ==> OuterPaths(txs[t].instructions))
    requires IxInOrder(Start(commitAt, Some(RETENTION)), steps) && slot !in Discards(steps)
    requires Delivers(steps, slot, TasksOf(slot, txs, parsers))
    ensures forall o :: o in Exec(Start(commitAt, Some(RETENTION)), steps).ixOut && o.slot == slot ==>
              o.records == Values(ProducedByBlock(txs, parsers)) && o.executedTxCount == |txs|
  {
    var tasks := TasksOf(slot, txs, parsers);
    forall t | 0 <= t < |tasks| ensures IsTask(tasks[t], slot, indexes[t]) {
      TransactionIsTask(slot, txs[t], parsers[t], indexes[t]);
    }
    FlushedBlockIsComplete(commitAt, Some(RETENTION), steps, slot, indexes, tasks);
    BlockRecordsAreProduced(slot, txs, parsers);
  }
}
