/** Two-gate completeness. */
module TwoGate {
  // Whatever the interleaving of the handler tasks with each other and with the source, a block that
  // goes out holds every record of every one of its transactions, in transaction order and, inside a
  // transaction, in execution order.

  import opened Basics
  import opened Records
  import opened SlotBuffer
  import opened Coordinator
  import opened Drains
  import opened Runs

  // ---- What the handlers have sent ----

  predicate IsHandler(step: Step, t: nat) { step.FromHandler? && step.task == t }

  /** The messages task `t` has sent so far, in order. */
  function TaskLog(steps: seq<Step>, t: nat): seq<Event> {
    if steps == [] then [] else
      var log := TaskLog(steps[..|steps| - 1], t);
      var step := steps[|steps| - 1];
      if IsHandler(step, t) then log + [step.event] else log
  }

  function RecordsOf(msgs: seq<Event>): seq<Entry<Record>> {
    if msgs == [] then [] else
      var before := RecordsOf(msgs[..|msgs| - 1]);
      var e := msgs[|msgs| - 1];
      if e.InstructionRecordParsed? then before + [Entry(e.key, e.record)] else before
  }

  function Signals(msgs: seq<Event>): nat {
    if msgs == [] then 0
    else Signals(msgs[..|msgs| - 1]) + if msgs[|msgs| - 1].TransactionParsed? then 1 else 0
  }

  /** One task: its records, in key order under its transaction index, then its only signal. */
  ghost predicate IsTask(msgs: seq<Event>, slot: Slot, txIndex: nat) {
    && msgs != []
    && msgs[|msgs| - 1].TransactionParsed?
    && (forall i :: 0 <= i < |msgs| ==> msgs[i].slot == slot)
    && (forall i :: 0 <= i < |msgs| - 1 ==> !msgs[i].TransactionParsed?)
    && Sorted(RecordsOf(msgs))
    && (forall e :: e in RecordsOf(msgs) ==> e.key != [] && e.key[0] == txIndex)
  }

  ghost predicate IsBlock(slot: Slot, txs: seq<nat>, tasks: seq<seq<Event>>) {
    && |txs| == |tasks| && StrictlyAscending(txs)
    && forall t :: 0 <= t < |tasks| ==> IsTask(tasks[t], slot, txs[t])
  }

  function BlockRecords(tasks: seq<seq<Event>>): seq<Entry<Record>> {
    if tasks == [] then [] else BlockRecords(tasks[..|tasks| - 1]) + RecordsOf(tasks[|tasks| - 1])
  }

  /** What an account handler sends; it has tasks of its own and signals no transaction. */
  predicate AcctMessage(e: Event) { e.AccountRecordParsed? || (e.ParseStats? && e.kind.IsAccount()) }

  /**
   * Each event comes from its own channel, and of transaction messages only the block's tasks send
   * any for its slot; account messages come from any task, at any time.
   */
  ghost predicate StepOf(slot: Slot, n: nat, step: Step) {
    && (step.FromSource? ==> step.event.FromSource())
    && (step.FromHandler? ==> !step.event.FromSource() && (step.task < n || step.event.slot != slot || AcctMessage(step.event)))
    && (step.FromSource? && step.event.BlockFrozen? && step.event.slot == slot ==>
          step.event.metadata.expectedTxCount == n)
  }

  /** `steps` is an interleaving in which each task has sent a prefix of its messages. */
  ghost predicate Delivers(steps: seq<Step>, slot: Slot, tasks: seq<seq<Event>>) {
    && (forall k :: 0 <= k < |steps| ==> StepOf(slot, |tasks|, steps[k]))
    && (forall t :: 0 <= t < |tasks| ==> TaskLog(steps, t) <= tasks[t])
  }

  lemma DeliversPrefix(steps: seq<Step>, slot: Slot, tasks: seq<seq<Event>>)
    requires steps != [] && Delivers(steps, slot, tasks)
    ensures Delivers(steps[..|steps| - 1], slot, tasks) && StepOf(slot, |tasks|, steps[|steps| - 1])
  {
    forall t | 0 <= t < |tasks| ensures TaskLog(steps[..|steps| - 1], t) <= tasks[t] {
      assert TaskLog(steps[..|steps| - 1], t) <= TaskLog(steps, t) <= tasks[t];
    }
  }

  // ---- What the coordinator has kept ----

  predicate IsMessage(step: Step, slot: Slot) { step.FromHandler? && step.event.slot == slot }

  /** The records sent for `slot`, as one map. */
  function Collected(steps: seq<Step>, slot: Slot): seq<Entry<Record>> {
    if steps == [] then [] else
      var before := Collected(steps[..|steps| - 1], slot);
      var step := steps[|steps| - 1];
      if IsMessage(step, slot) && step.event.InstructionRecordParsed?
      then Insert(before, step.event.key, step.event.record) else before
  }

  function ParsedCount(steps: seq<Step>, slot: Slot): nat {
    if steps == [] then 0 else
      var step := steps[|steps| - 1];
      ParsedCount(steps[..|steps| - 1], slot)
      + if IsMessage(step, slot) && step.event.TransactionParsed? then 1 else 0
  }

  ghost predicate Holds(st: State, slot: Slot, steps: seq<Step>, n: nat) {
    && (!AtOrBehind(st.ixFrontier, slot) ==>
          st.Get(slot).ix.records == Collected(steps, slot) && st.Get(slot).ix.parsedTx == ParsedCount(steps, slot))
    && (st.Get(slot).ix.metadata.Some? ==> st.Get(slot).ix.metadata.value.expectedTxCount == n)
  }

  lemma EventKeepsHolds(st: State, e: Event, steps: seq<Step>, step: Step, slot: Slot, n: nat)
    requires Holds(st, slot, steps, n) && slot !in st.discarded && StepOf(slot, n, step)
    requires (step.FromSource? || step.FromHandler?) && step.event == e
    requires !(e.SlotDiscarded? && e.slot == slot)
    ensures Holds(st.Apply(e), slot, steps + [step], n)
  {
    assert (steps + [step])[..|steps|] == steps;
    ApplyIsLocal(st, e);
  }

  lemma DrainKeepsHolds(st: State, st': State, swept: State, steps: seq<Step>, step: Step, slot: Slot, n: nat)
    requires IxInv(st) && Holds(st, slot, steps, n) && !step.FromSource? && !step.FromHandler?
    requires st' == swept || st' == swept.Cleaned()
    requires (exists out :: IxSweep(st, swept, out)) || (exists out :: AcctSweep(st, swept, out))
    ensures Holds(st', slot, steps + [step], n)
  {
    assert (steps + [step])[..|steps|] == steps;
    assert Collected(steps + [step], slot) == Collected(steps, slot);
    CleanedFacts(swept);
    if slot in swept.buffer { CleanedEntry(swept, slot); }
    if out :| IxSweep(st, swept, out) {
      IxSweepKeepsInv(st, swept, out);
      SweptIxEntry(st, swept, out, slot);
    } else {
      var out :| AcctSweep(st, swept, out);
      SweptAcctEntry(st, swept, out, slot);
    }
  }

  lemma SweptIxEntry(st: State, swept: State, out: seq<InstructionSlot>, slot: Slot)
    requires IxInv(st) && IxSweep(st, swept, out)
    ensures AtOrBehind(st.ixFrontier, slot) ==> AtOrBehind(swept.ixFrontier, slot)
    ensures swept.Get(slot).ix.metadata == st.Get(slot).ix.metadata
    ensures !AtOrBehind(swept.ixFrontier, slot) ==> swept.Get(slot) == st.Get(slot) && !swept.Get(slot).ix.drained
  {
    IxSweepKeepsInv(st, swept, out);
    if out != [] {
      assert out[|out| - 1] in out;
      if slot in st.buffer { assert IxEntryStep(st.buffer[slot], swept.buffer[slot]); }
    }
  }

  lemma SweptAcctEntry(st: State, swept: State, out: seq<AccountSlot>, slot: Slot)
    requires IxInv(st) && AcctSweep(st, swept, out)
    ensures swept.Get(slot).ix == st.Get(slot).ix && swept.ixFrontier == st.ixFrontier
    ensures !AtOrBehind(st.ixFrontier, slot) ==> !swept.Get(slot).ix.drained
  {
    if slot in st.buffer && out != [] { assert AcctEntryStep(st.buffer[slot], swept.buffer[slot]); }
  }

  /** Until the frontier reaches the slot, its buffer holds everything the handlers have sent. */
  lemma {:induction false} BufferHoldsEverything(commitAt: CommitAt, retention: Option<nat>, steps: seq<Step>,
                                                 slot: Slot, n: nat)
    requires IxInOrder(Start(commitAt, retention), steps) && slot !in Discards(steps)
    requires forall k :: 0 <= k < |steps| ==> StepOf(slot, n, steps[k])
    ensures Holds(Exec(Start(commitAt, retention), steps).st, slot, steps, n)
  {
    if steps != [] {
      var prefix, step := steps[..|steps| - 1], steps[|steps| - 1];
      BufferHoldsEverything(commitAt, retention, prefix, slot, n);
      InstructionsAreOrdered(commitAt, retention, prefix);
      var run := Exec(Start(commitAt, retention), prefix);
      assert prefix + [step] == steps;
      assert StepOf(slot, n, steps[|steps| - 1]);
      match step
      case FromSource(e) => EventKeepsHolds(run.st, e, prefix, step, slot, n);
      case FromHandler(_, e) => EventKeepsHolds(run.st, e, prefix, step, slot, n);
      case DrainInstructions =>
        var swept := DrainIxSweeps(run.st);
        DrainKeepsHolds(run.st, run.Next(step).st, swept, prefix, step, slot, n);
      case DrainAccounts =>
        var swept := DrainAcctSweeps(run.st);
        DrainKeepsHolds(run.st, run.Next(step).st, swept, prefix, step, slot, n);
    }
  }

  // ---- Counting signals ----

  lemma {:induction false} PrefixSignals(msgs: seq<Event>, slot: Slot, txIndex: nat, log: seq<Event>)
    requires IsTask(msgs, slot, txIndex) && log <= msgs
    ensures Signals(log) <= 1
    ensures Signals(log) == 1 <==> log == msgs
  {
    if log == msgs {
      NoSignals(msgs[..|msgs| - 1]);
    } else {
      NoSignals(log);
    }
  }

  lemma {:induction false} NoSignals(msgs: seq<Event>)
    requires forall i :: 0 <= i < |msgs| ==> !msgs[i].TransactionParsed?
    ensures Signals(msgs) == 0
  {
    if msgs != [] { NoSignals(msgs[..|msgs| - 1]); }
  }

  /** The signals of tasks `0..k`. */
  function SignalSum(steps: seq<Step>, k: nat): nat {
    if k == 0 then 0 else SignalSum(steps, k - 1) + Signals(TaskLog(steps, k - 1))
  }

  lemma {:induction false} SignalSumStep(steps: seq<Step>, k: nat)
    requires steps != []
    ensures var step := steps[|steps| - 1];
            SignalSum(steps, k) == SignalSum(steps[..|steps| - 1], k)
              + if step.FromHandler? && step.task < k && step.event.TransactionParsed? then 1 else 0
  {
    if k > 0 {
      SignalSumStep(steps, k - 1);
      var log, step := TaskLog(steps[..|steps| - 1], k - 1), steps[|steps| - 1];
      if IsHandler(step, k - 1) {
        assert (log + [step.event])[..|log|] == log;
      }
    }
  }

  lemma {:induction false} SignalSumEmpty(k: nat)
    ensures SignalSum([], k) == 0
  {
    if k > 0 { SignalSumEmpty(k - 1); }
  }

  lemma LastMessageOf(steps: seq<Step>, slot: Slot, txs: seq<nat>, tasks: seq<seq<Event>>)
    requires steps != [] && Delivers(steps, slot, tasks) && IsBlock(slot, txs, tasks)
    requires steps[|steps| - 1].FromHandler? && !AcctMessage(steps[|steps| - 1].event)
    ensures steps[|steps| - 1].task < |tasks| <==> steps[|steps| - 1].event.slot == slot
  {
    var step := steps[|steps| - 1];
    assert StepOf(slot, |tasks|, step);
    if step.task < |tasks| {
      var log := TaskLog(steps, step.task);
      assert log <= tasks[step.task] && log[|log| - 1] == step.event;
      assert IsTask(tasks[step.task], slot, txs[step.task]);
      assert tasks[step.task][|log| - 1] == step.event;
    }
  }

  lemma {:induction false} ParsedIsSignalSum(steps: seq<Step>, slot: Slot, txs: seq<nat>, tasks: seq<seq<Event>>)
    requires Delivers(steps, slot, tasks) && IsBlock(slot, txs, tasks)
    ensures ParsedCount(steps, slot) == SignalSum(steps, |tasks|)
  {
    if steps == [] {
      SignalSumEmpty(|tasks|);
    } else {
      DeliversPrefix(steps, slot, tasks);
      ParsedIsSignalSum(steps[..|steps| - 1], slot, txs, tasks);
      SignalSumStep(steps, |tasks|);
      if steps[|steps| - 1].FromHandler? && !AcctMessage(steps[|steps| - 1].event) { LastMessageOf(steps, slot, txs, tasks); }
    }
  }

  /** Pigeonhole: `k` tasks with at least `k` signals have all finished. */
  lemma {:induction false} EveryTaskDone(steps: seq<Step>, slot: Slot, txs: seq<nat>, tasks: seq<seq<Event>>, k: nat)
    requires Delivers(steps, slot, tasks) && IsBlock(slot, txs, tasks) && k <= |tasks|
    ensures SignalSum(steps, k) <= k
    ensures SignalSum(steps, k) == k ==> forall t :: 0 <= t < k ==> TaskLog(steps, t) == tasks[t]
  {
    if k > 0 {
      EveryTaskDone(steps, slot, txs, tasks, k - 1);
      PrefixSignals(tasks[k - 1], slot, txs[k - 1], TaskLog(steps, k - 1));
    }
  }

  // ---- The records that are kept are the records that were sent ----

  lemma {:induction false} RecordsOfPrefix(log: seq<Event>, msgs: seq<Event>)
    requires log <= msgs
    ensures RecordsOf(log) <= RecordsOf(msgs)
    decreases |msgs|
  {
    if log != msgs {
      assert log <= msgs[..|msgs| - 1];
      RecordsOfPrefix(log, msgs[..|msgs| - 1]);
    }
  }

  /** Some task of the block has sent `e`. */
  ghost predicate Sent(steps: seq<Step>, n: nat, e: Entry<Record>) {
    exists t :: 0 <= t < n && e in RecordsOf(TaskLog(steps, t))
  }

  lemma NewKeyIsFresh(steps: seq<Step>, slot: Slot, txs: seq<nat>, tasks: seq<seq<Event>>, earlier: Entry<Record>)
    requires steps != [] && Delivers(steps, slot, tasks) && IsBlock(slot, txs, tasks)
    requires var step := steps[|steps| - 1];
             step.FromHandler? && step.task < |tasks| && step.event.InstructionRecordParsed?
    requires Sent(steps[..|steps| - 1], |tasks|, earlier)
    ensures earlier.key != steps[|steps| - 1].event.key
  {
    var prefix, step := steps[..|steps| - 1], steps[|steps| - 1];
    var t :| 0 <= t < |tasks| && earlier in RecordsOf(TaskLog(prefix, t));
    var u, e := step.task, step.event;
    var log := TaskLog(prefix, u);
    assert TaskLog(steps, u) == log + [e] && (log + [e])[..|log|] == log;
    RecordsOfPrefix(log + [e], tasks[u]);
    var sent := RecordsOf(log) + [Entry(e.key, e.record)];
    assert sent <= RecordsOf(tasks[u]);
    assert RecordsOf(tasks[u])[|sent| - 1] in RecordsOf(tasks[u]);
    if t == u {
      var i :| 0 <= i < |RecordsOf(log)| && RecordsOf(log)[i] == earlier;
      assert LexLess(RecordsOf(tasks[u])[i].key, RecordsOf(tasks[u])[|sent| - 1].key);
      LexTrichotomy(earlier.key, e.key);
    } else {
      assert TaskLog(prefix, t) == TaskLog(steps, t) <= tasks[t];
      RecordsOfPrefix(TaskLog(prefix, t), tasks[t]);
      assert earlier in RecordsOf(tasks[t]);
    }
  }

  lemma SentStep(steps: seq<Step>, n: nat, e: Entry<Record>)
    requires steps != []
    ensures var step := steps[|steps| - 1];
            Sent(steps, n, e) <==>
              Sent(steps[..|steps| - 1], n, e)
              || (step.FromHandler? && step.task < n && step.event.InstructionRecordParsed?
                  && e == Entry(step.event.key, step.event.record))
  {
    var prefix, step := steps[..|steps| - 1], steps[|steps| - 1];
    if step.FromHandler? {
      var log := TaskLog(prefix, step.task);
      assert (log + [step.event])[..|log|] == log;
      assert RecordsOf(TaskLog(steps, step.task)) ==
             if step.event.InstructionRecordParsed?
             then RecordsOf(log) + [Entry(step.event.key, step.event.record)] else RecordsOf(log);
    }
    forall t | 0 <= t < n && !IsHandler(step, t) ensures TaskLog(steps, t) == TaskLog(prefix, t) {}
    if Sent(prefix, n, e) {
      var t :| 0 <= t < n && e in RecordsOf(TaskLog(prefix, t));
      assert e in RecordsOf(TaskLog(steps, t));
    }
    if Sent(steps, n, e) {
      var t :| 0 <= t < n && e in RecordsOf(TaskLog(steps, t));
    }
  }

  lemma {:induction false} CollectedIsSent(steps: seq<Step>, slot: Slot, txs: seq<nat>, tasks: seq<seq<Event>>)
    requires Delivers(steps, slot, tasks) && IsBlock(slot, txs, tasks)
    ensures Sorted(Collected(steps, slot))
    ensures forall e :: e in Collected(steps, slot) <==> Sent(steps, |tasks|, e)
  {
    if steps == [] {
      assert forall t: nat :: RecordsOf(TaskLog(steps, t)) == [];
    } else {
      var prefix, step := steps[..|steps| - 1], steps[|steps| - 1];
      DeliversPrefix(steps, slot, tasks);
      CollectedIsSent(prefix, slot, txs, tasks);
      if step.FromHandler? && !AcctMessage(step.event) { LastMessageOf(steps, slot, txs, tasks); }
      if IsMessage(step, slot) && step.event.InstructionRecordParsed? {
        InsertIsMapUpdate(Collected(prefix, slot), step.event.key, step.event.record);
        forall e | e in Collected(prefix, slot) ensures e.key != step.event.key {
          NewKeyIsFresh(steps, slot, txs, tasks, e);
        }
      }
      forall e ensures e in Collected(steps, slot) <==> Sent(steps, |tasks|, e) {
        SentStep(steps, |tasks|, e);
      }
    }
  }

  lemma {:induction false} BlockRecordsMember(tasks: seq<seq<Event>>, e: Entry<Record>)
    ensures e in BlockRecords(tasks) <==> exists t :: 0 <= t < |tasks| && e in RecordsOf(tasks[t])
  {
    if tasks != [] {
      var n := |tasks| - 1;
      BlockRecordsMember(tasks[..n], e);
      if e in BlockRecords(tasks[..n]) {
        var t :| 0 <= t < n && e in RecordsOf(tasks[..n][t]);
        assert e in RecordsOf(tasks[t]);
      } else if t :| 0 <= t < |tasks| && e in RecordsOf(tasks[t]) {
        if t < n { assert e in RecordsOf(tasks[..n][t]); }
      }
    }
  }

  lemma {:induction false} BlockRecordsSorted(slot: Slot, txs: seq<nat>, tasks: seq<seq<Event>>)
    requires IsBlock(slot, txs, tasks)
    ensures Sorted(BlockRecords(tasks))
    ensures forall e :: e in BlockRecords(tasks) ==> e.key != [] && tasks != [] && e.key[0] <= txs[|txs| - 1]
  {
    if tasks != [] {
      var n := |tasks| - 1;
      BlockRecordsSorted(slot, txs[..n], tasks[..n]);
      assert IsTask(tasks[n], slot, txs[n]);
      SortedAppend(BlockRecords(tasks[..n]), RecordsOf(tasks[n]), txs[n]);
    }
  }

  lemma SortedAppend(a: seq<Entry<Record>>, b: seq<Entry<Record>>, tx: nat)
    requires Sorted(a) && Sorted(b)
    requires forall e :: e in a ==> e.key != [] && e.key[0] < tx
    requires forall e :: e in b ==> e.key != [] && e.key[0] == tx
    ensures Sorted(a + b)
  {
    forall i, j | 0 <= i < |a| && 0 <= j < |b| ensures LexLess(a[i].key, b[j].key) {
      assert a[i] in a && b[j] in b;
    }
  }

  /** With every task done, what the buffer holds is the block. */
  lemma AllDoneMeansBlock(steps: seq<Step>, slot: Slot, txs: seq<nat>, tasks: seq<seq<Event>>)
    requires Delivers(steps, slot, tasks) && IsBlock(slot, txs, tasks)
    requires ParsedCount(steps, slot) >= |tasks|
    ensures Collected(steps, slot) == BlockRecords(tasks)
  {
    ParsedIsSignalSum(steps, slot, txs, tasks);
    EveryTaskDone(steps, slot, txs, tasks, |tasks|);
    CollectedIsSent(steps, slot, txs, tasks);
    BlockRecordsSorted(slot, txs, tasks);
    forall e ensures e in Collected(steps, slot) <==> e in BlockRecords(tasks) {
      BlockRecordsMember(tasks, e);
      if e in BlockRecords(tasks) {
        var t :| 0 <= t < |tasks| && e in RecordsOf(tasks[t]);
        assert e in RecordsOf(TaskLog(steps, t));
      }
    }
    SortedUnique(Collected(steps, slot), BlockRecords(tasks));
  }

  /**
   * Two-gate completeness. In every run without a stale block and every interleaving of the block's
   * tasks with each other, with account handlers, with the source and with the drains, if the frozen
   * block announces as many transactions as it has tasks and its slot was not discarded,
   * then what goes out for the slot is exactly the block's records in (transaction, execution) order.
   */
  lemma {:induction false} FlushedBlockIsComplete(commitAt: CommitAt, retention: Option<nat>, steps: seq<Step>,
                                                  slot: Slot, txs: seq<nat>, tasks: seq<seq<Event>>)
    requires IxInOrder(Start(commitAt, retention), steps) && slot !in Discards(steps)
    requires Delivers(steps, slot, tasks) && IsBlock(slot, txs, tasks)
    ensures forall o :: o in Exec(Start(commitAt, retention), steps).ixOut && o.slot == slot ==>
              o.records == Values(BlockRecords(tasks)) && o.executedTxCount == |tasks|
  {
    if steps != [] {
      var prefix, step := steps[..|steps| - 1], steps[|steps| - 1];
      DeliversPrefix(steps, slot, tasks);
      FlushedBlockIsComplete(commitAt, retention, prefix, slot, txs, tasks);
      if step.DrainInstructions? {
        var st := Exec(Start(commitAt, retention), prefix).st;
        InstructionsAreOrdered(commitAt, retention, prefix);
        BufferHoldsEverything(commitAt, retention, prefix, slot, |tasks|);
        var out := DrainIx(st).out;
        var swept := DrainIxSweeps(st);
        IxSweepKeepsInv(st, swept, out);
        forall o | o in out && o.slot == slot
          ensures o.records == Values(BlockRecords(tasks)) && o.executedTxCount == |tasks|
        {
          assert IxFlushed(st, o);
          AllDoneMeansBlock(prefix, slot, txs, tasks);
        }
      }
    }
  }
}
