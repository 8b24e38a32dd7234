/** The statistics of a slot that goes out are counts of what its handlers made of the block. */
module Statistics {
  import opened Basics
  import opened Records
  import opened SlotBuffer
  import opened Coordinator
  import opened Drains
  import opened Runs
  import opened TwoGate
  import opened CallTree
  import opened Visit
  import opened Handler
  import opened DiscardSafety
  import Gates

  // ---- A buffer's counters are counts of messages ----

  ghost predicate IxCounted(s: Stats, steps: seq<Step>, slot: Slot) {
    && s.filteredIx == Gates.Times(steps, ParseStats(slot, InstructionFiltered))
    && s.failedIx == Gates.Times(steps, ParseStats(slot, InstructionError))
    && s.txFailed == Gates.Times(steps, ParseStats(slot, TransactionStatusFailed))
    && s.txSucceeded == Gates.Times(steps, ParseStats(slot, TransactionStatusSucceeded))
  }

  ghost predicate AcctCounted(s: Stats, steps: seq<Step>, slot: Slot) {
    && s.filteredAcct == Gates.Times(steps, ParseStats(slot, AccountFiltered))
    && s.failedAcct == Gates.Times(steps, ParseStats(slot, AccountError))
  }

  function One(step: Step, e: Event): nat { if Gates.Happens(step, e) then 1 else 0 }

  ghost predicate IxScores(s: Stats, s': Stats, step: Step, slot: Slot) {
    && s'.filteredIx == s.filteredIx + One(step, ParseStats(slot, InstructionFiltered))
    && s'.failedIx == s.failedIx + One(step, ParseStats(slot, InstructionError))
    && s'.txFailed == s.txFailed + One(step, ParseStats(slot, TransactionStatusFailed))
    && s'.txSucceeded == s.txSucceeded + One(step, ParseStats(slot, TransactionStatusSucceeded))
  }

  ghost predicate AcctScores(s: Stats, s': Stats, step: Step, slot: Slot) {
    && s'.filteredAcct == s.filteredAcct + One(step, ParseStats(slot, AccountFiltered))
    && s'.failedAcct == s.failedAcct + One(step, ParseStats(slot, AccountError))
  }

  ghost predicate Scores(st: State, st': State, step: Step, slot: Slot) {
    && (!AtOrBehind(st.ixFrontier, slot) ==> IxScores(st.Get(slot).stats, st'.Get(slot).stats, step, slot))
    && (st.AcceptsAcct(slot) ==> AcctScores(st.Get(slot).stats, st'.Get(slot).stats, step, slot))
  }

  lemma SourceScores(st: State, step: Step)
    requires HasEvent(step) && step.event.FromSource() && !step.event.SlotDiscarded?
    ensures Scores(st, st.ApplySource(step.event), step, step.event.slot)
  {
    assert st.ApplySource(step.event).Get(step.event.slot).stats == st.Get(step.event.slot).stats;
  }

  lemma ParsedScores(st: State, step: Step)
    requires HasEvent(step) && !step.event.FromSource() && step.event.slot !in st.discarded
    ensures Scores(st, st.ApplyParsed(step.event), step, step.event.slot)
  {
    var e := step.event;
    var s, s' := st.Get(e.slot).stats, st.ApplyParsed(e).Get(e.slot).stats;
    if e.ParseStats? {
      CountScores(s, step);
      StatsApplied(st, e);
    } else {
      assert s' == s;
    }
  }

  lemma StatsApplied(st: State, e: Event)
    requires e.ParseStats?
    ensures var s, s' := st.Get(e.slot).stats, st.ApplyParsed(e).Get(e.slot).stats;
            s' == if (if e.kind.IsAccount() then st.AcceptsAcct(e.slot) else st.AcceptsIx(e.slot)) then s.Count(e.kind) else s
  {
  }

  lemma CountScores(s: Stats, step: Step)
    requires HasEvent(step) && step.event.ParseStats?
    ensures IxScores(s, s.Count(step.event.kind), step, step.event.slot)
    ensures AcctScores(s, s.Count(step.event.kind), step, step.event.slot)
  {
  }

  lemma EventScores(st: State, step: Step, slot: Slot)
    requires HasEvent(step) && !DiscardsSlot(step, slot) && slot !in st.discarded
    ensures Scores(st, st.Apply(step.event), step, slot)
  {
    if slot != step.event.slot { ApplyIsLocal(st, step.event); }
    else if step.event.FromSource() { SourceScores(st, step); }
    else { ParsedScores(st, step); }
  }

  lemma SweepKeepsStats(st: State, swept: State, slot: Slot)
    requires (exists out :: IxSweep(st, swept, out)) || (exists out :: AcctSweep(st, swept, out))
    requires (IxInv(swept) && !AtOrBehind(swept.ixFrontier, slot)) || (AcctInv(swept) && !AtOrBehind(swept.acctFrontier, slot))
    ensures swept.Get(slot).stats == st.Get(slot).stats && swept.Cleaned().Get(slot).stats == st.Get(slot).stats
  {
    if out :| IxSweep(st, swept, out) {
      if slot in st.buffer && out != [] { assert IxEntryStep(st.buffer[slot], swept.buffer[slot]); }
    } else {
      var out :| AcctSweep(st, swept, out);
      if slot in st.buffer && out != [] { assert AcctEntryStep(st.buffer[slot], swept.buffer[slot]); }
    }
    if slot in swept.buffer {
      assert (IxInv(swept) ==> IxInvAt(swept, slot)) && (AcctInv(swept) ==> AcctInvAt(swept, slot));
      CleanedEntry(swept, slot);
    }
  }

  lemma DrainKeepsStats(run: Run, step: Step, slot: Slot)
    requires !HasEvent(step)
    ensures IxInv(run.st) && !AtOrBehind(run.Next(step).st.ixFrontier, slot) ==>
              run.Next(step).st.Get(slot).stats == run.st.Get(slot).stats
    ensures AcctInv(run.st) && !AtOrBehind(run.Next(step).st.acctFrontier, slot) ==>
              run.Next(step).st.Get(slot).stats == run.st.Get(slot).stats
  {
    var swept;
    if step.DrainInstructions? {
      swept := DrainIxSweeps(run.st);
      if IxInv(run.st) { IxSweepKeepsInv(run.st, swept, DrainIx(run.st).out); }
      if AcctInv(run.st) { IxSweepKeepsAcctInv(run.st, swept, DrainIx(run.st).out); }
    } else {
      swept := DrainAcctSweeps(run.st);
      if IxInv(run.st) { AcctSweepKeepsIxInv(run.st, swept, DrainAcct(run.st).out); }
      if AcctInv(run.st) { AcctSweepKeepsInv(run.st, swept, DrainAcct(run.st).out); }
    }
    CleanedFacts(swept);
    if (IxInv(swept) && !AtOrBehind(swept.ixFrontier, slot)) || (AcctInv(swept) && !AtOrBehind(swept.acctFrontier, slot)) {
      SweepKeepsStats(run.st, swept, slot);
    }
  }

  /** Until the instruction frontier reaches a slot, the four counters of its instruction side count its messages. */
  lemma {:induction false} IxCountersCount(commitAt: CommitAt, retention: Option<nat>, steps: seq<Step>, slot: Slot)
    requires IxInOrder(Start(commitAt, retention), steps) && slot !in Discards(steps)
    ensures var st := Exec(Start(commitAt, retention), steps).st;
            !AtOrBehind(st.ixFrontier, slot) ==> IxCounted(st.Get(slot).stats, steps, slot)
  {
    if steps != [] {
      var prefix, step := steps[..|steps| - 1], steps[|steps| - 1];
      IxCountersCount(commitAt, retention, prefix, slot);
      InstructionsAreOrdered(commitAt, retention, prefix);
      Gates.DiscardedWereDiscarded(commitAt, retention, prefix);
      var run := Exec(Start(commitAt, retention), prefix);
      if HasEvent(step) {
        ApplyIsLocal(run.st, step.event);
        EventScores(run.st, step, slot);
      } else if !AtOrBehind(run.Next(step).st.ixFrontier, slot) {
        Gates.DrainTellsIx(run, step, slot);
        DrainKeepsStats(run, step, slot);
      }
    }
  }

  lemma {:induction false} AcctCountersCount(commitAt: CommitAt, retention: Option<nat>, steps: seq<Step>, slot: Slot)
    requires AcctInOrder(Start(commitAt, retention), steps) && slot !in Discards(steps)
    ensures var st := Exec(Start(commitAt, retention), steps).st;
            !AtOrBehind(st.acctFrontier, slot) ==> AcctCounted(st.Get(slot).stats, steps, slot)
  {
    if steps != [] {
      var prefix, step := steps[..|steps| - 1], steps[|steps| - 1];
      AcctCountersCount(commitAt, retention, prefix, slot);
      AccountsAreOrdered(commitAt, retention, prefix);
      Gates.DiscardedWereDiscarded(commitAt, retention, prefix);
      Gates.BuffersTellAccounts(commitAt, retention, prefix, slot);
      var run := Exec(Start(commitAt, retention), prefix);
      if HasEvent(step) {
        ApplyIsLocal(run.st, step.event);
        EventScores(run.st, step, slot);
      } else if !AtOrBehind(run.Next(step).st.acctFrontier, slot) {
        Gates.DrainSparesAcct(run, step, slot);
        DrainKeepsStats(run, step, slot);
      }
    }
  }

  /** The account counters of an account slot count the accounts that were filtered out and that failed. */
  lemma FlushedAccountStatistics(commitAt: CommitAt, retention: Option<nat>, steps: seq<Step>, slot: Slot)
    requires AcctInOrder(Start(commitAt, retention), steps) && slot !in Discards(steps)
    ensures forall o :: o in DrainAcct(Exec(Start(commitAt, retention), steps).st).out && o.slot == slot ==>
              AcctCounted(o.stats, steps, slot)
  {
    var st := Exec(Start(commitAt, retention), steps).st;
    AccountsAreOrdered(commitAt, retention, steps);
    AcctCountersCount(commitAt, retention, steps, slot);
    var swept := DrainAcctSweeps(st);
    AcctSweepKeepsInv(st, swept, DrainAcct(st).out);
    forall o | o in DrainAcct(st).out && o.slot == slot ensures AcctCounted(o.stats, steps, slot) {
      assert AcctFlushed(st, o);
    }
  }

  // ---- Messages are counts of outcomes ----

  function Occurs(msgs: seq<Event>, e: Event): nat {
    if msgs == [] then 0 else Occurs(msgs[..|msgs| - 1], e) + if msgs[|msgs| - 1] == e then 1 else 0
  }

  lemma {:induction false} OccursAppend(a: seq<Event>, b: seq<Event>, e: Event)
    ensures Occurs(a + b, e) == Occurs(a, e) + Occurs(b, e)
    decreases |b|
  {
    if b == [] {
      assert a + b == a;
    } else {
      assert (a + b)[..|a + b| - 1] == a + b[..|b| - 1];
      OccursAppend(a, b[..|b| - 1], e);
    }
  }

  lemma OccursOne(m: Event, e: Event)
    ensures Occurs([m], e) == if m == e then 1 else 0
  {
    assert [m][..0] == [];
  }

  /** How often the first `k` tasks have sent `e`. */
  function SentTimes(steps: seq<Step>, k: nat, e: Event): nat {
    if k == 0 then 0 else SentTimes(steps, k - 1, e) + Occurs(TaskLog(steps, k - 1), e)
  }

  lemma {:induction false} SentTimesStep(steps: seq<Step>, k: nat, e: Event)
    requires steps != []
    ensures var step := steps[|steps| - 1];
            SentTimes(steps, k, e) == SentTimes(steps[..|steps| - 1], k, e)
              + if step.FromHandler? && step.task < k && step.event == e then 1 else 0
  {
    if k > 0 {
      SentTimesStep(steps, k - 1, e);
      var log, step := TaskLog(steps[..|steps| - 1], k - 1), steps[|steps| - 1];
      if IsHandler(step, k - 1) { assert (log + [step.event])[..|log|] == log; }
    }
  }

  lemma {:induction false} SentTimesEmpty(k: nat, e: Event)
    ensures SentTimes([], k, e) == 0
  {
    if k > 0 { SentTimesEmpty(k - 1, e); }
  }

  /** Only the block's tasks send instruction and transaction outcomes for its slot. */
  lemma {:induction false} TimesAreSent(steps: seq<Step>, slot: Slot, tasks: seq<seq<Event>>, kind: StatKind)
    requires Delivers(steps, slot, tasks) && !kind.IsAccount()
    ensures Gates.Times(steps, ParseStats(slot, kind)) == SentTimes(steps, |tasks|, ParseStats(slot, kind))
  {
    var e := ParseStats(slot, kind);
    if steps == [] {
      SentTimesEmpty(|tasks|, e);
    } else {
      DeliversPrefix(steps, slot, tasks);
      TimesAreSent(steps[..|steps| - 1], slot, tasks, kind);
      SentTimesStep(steps, |tasks|, e);
    }
  }

  // ---- The outcomes of a block ----

  function HowMany<T>(s: seq<T>, p: T -> bool): nat {
    if s == [] then 0 else HowMany(s[..|s| - 1], p) + if p(s[|s| - 1]) then 1 else 0
  }

  /** The instruction has no decoded record, for a failure or else because no parser took it. */
  predicate Undecoded(p: Parsed, failed: bool) { (p.Fallback? && p.failed == failed) || p == NoRecord(failed) }

  function UndecodedIn(tx: Transaction, parser: Parser, failed: bool): nat {
    if tx.Built? then HowMany(Execution(tx.instructions), (v: Visited) => Undecoded(parser(v), failed)) else 0
  }

  function UndecodedInBlock(txs: seq<Transaction>, parsers: seq<Parser>, failed: bool): nat
    requires |txs| == |parsers|
  {
    if txs == [] then 0 else
      var n := |txs| - 1;
      UndecodedInBlock(txs[..n], parsers[..n], failed) + UndecodedIn(txs[n], parsers[n], failed)
  }

  predicate Failed(tx: Transaction) { tx.FailedStatus? }

  predicate Succeeded(tx: Transaction) { tx.Unbuildable? || tx.Built? }

  /** Undecoded instructions by cause, and transactions by status; one without information is neither. */
  ghost predicate CountsOutcomes(s: Stats, txs: seq<Transaction>, parsers: seq<Parser>)
    requires |txs| == |parsers|
  {
    && s.filteredIx == UndecodedInBlock(txs, parsers, false)
    && s.failedIx == UndecodedInBlock(txs, parsers, true)
    && s.txFailed == HowMany(txs, Failed)
    && s.txSucceeded == HowMany(txs, Succeeded)
  }

  lemma MessagesOccur(slot: Slot, txIndex: nat, v: Visited, p: Parsed, kind: StatKind)
    ensures Occurs(Messages(slot, txIndex, v, p), ParseStats(slot, kind))
            == if (kind == InstructionFiltered && Undecoded(p, false)) || (kind == InstructionError && Undecoded(p, true))
               then 1 else 0
  {
    var e, m := ParseStats(slot, kind), Messages(slot, txIndex, v, p);
    OccursOne(m[0], e);
    if p.Fallback? {
      OccursOne(m[1], e);
      OccursAppend([m[0]], [m[1]], e);
      assert m == [m[0]] + [m[1]];
    } else {
      assert m == [m[0]];
    }
  }

  lemma {:induction false} BodyOccurs(slot: Slot, txIndex: nat, visited: seq<Visited>, parser: Parser, kind: StatKind)
    ensures Occurs(AllMessages(slot, txIndex, visited, parser), ParseStats(slot, kind))
            == match kind
               case InstructionFiltered => HowMany(visited, (v: Visited) => Undecoded(parser(v), false))
               case InstructionError => HowMany(visited, (v: Visited) => Undecoded(parser(v), true))
               case _ => 0
  {
    if visited != [] {
      var n := |visited| - 1;
      var messages := Messages(slot, txIndex, visited[n], parser(visited[n]));
      BodyOccurs(slot, txIndex, visited[..n], parser, kind);
      MessagesOccur(slot, txIndex, visited[n], parser(visited[n]), kind);
      OccursAppend(AllMessages(slot, txIndex, visited[..n], parser), messages, ParseStats(slot, kind));
    }
  }

  /** The outcomes of one kind in one transaction. */
  function OutcomesIn(tx: Transaction, parser: Parser, kind: StatKind): nat
    requires !kind.IsAccount()
  {
    match kind
    case InstructionFiltered => UndecodedIn(tx, parser, false)
    case InstructionError => UndecodedIn(tx, parser, true)
    case TransactionStatusFailed => if Failed(tx) then 1 else 0
    case TransactionStatusSucceeded => if Succeeded(tx) then 1 else 0
  }

  function OutcomesInBlock(txs: seq<Transaction>, parsers: seq<Parser>, kind: StatKind, k: nat): nat
    requires k <= |txs| == |parsers| && !kind.IsAccount()
  {
    if k == 0 then 0 else
      OutcomesInBlock(txs, parsers, kind, k - 1) + OutcomesIn(txs[k - 1], parsers[k - 1], kind)
  }

  lemma TransactionOccurs(slot: Slot, tx: Transaction, parser: Parser, kind: StatKind)
    requires !kind.IsAccount()
    ensures Occurs(TransactionMessages(slot, tx, parser), ParseStats(slot, kind)) == OutcomesIn(tx, parser, kind)
  {
    var e, m := ParseStats(slot, kind), TransactionMessages(slot, tx, parser);
    var last := TransactionParsed(slot);
    OccursOne(last, e);
    OccursOne(m[0], e);
    if tx.Built? {
      var body := AllMessages(slot, tx.index, Execution(tx.instructions), parser);
      BodyOccurs(slot, tx.index, Execution(tx.instructions), parser, kind);
      OccursAppend([m[0]] + body, [last], e);
      OccursAppend([m[0]], body, e);
    } else if !tx.NoInfo? {
      OccursAppend([m[0]], [last], e);
      assert m == [m[0]] + [last];
    }
  }

  /** The sum over whole tasks is the count over the block. */
  lemma {:induction false} TasksOccur(steps: seq<Step>, slot: Slot, txs: seq<Transaction>, parsers: seq<Parser>,
                                      kind: StatKind, k: nat)
    requires k <= |txs| == |parsers| && !kind.IsAccount()
    requires forall t :: 0 <= t < k ==> TaskLog(steps, t) == TransactionMessages(slot, txs[t], parsers[t])
    ensures SentTimes(steps, k, ParseStats(slot, kind)) == OutcomesInBlock(txs, parsers, kind, k)
  {
    if k > 0 {
      TasksOccur(steps, slot, txs, parsers, kind, k - 1);
      TransactionOccurs(slot, txs[k - 1], parsers[k - 1], kind);
    }
  }

  lemma {:induction false} UndecodedAddUp(txs: seq<Transaction>, parsers: seq<Parser>, k: nat)
    requires k <= |txs| == |parsers|
    ensures OutcomesInBlock(txs, parsers, InstructionFiltered, k) == UndecodedInBlock(txs[..k], parsers[..k], false)
    ensures OutcomesInBlock(txs, parsers, InstructionError, k) == UndecodedInBlock(txs[..k], parsers[..k], true)
  {
    if k > 0 {
      UndecodedAddUp(txs, parsers, k - 1);
      assert txs[..k][..k - 1] == txs[..k - 1] && parsers[..k][..k - 1] == parsers[..k - 1];
    }
  }

  lemma {:induction false} StatusesAddUp(txs: seq<Transaction>, parsers: seq<Parser>, k: nat)
    requires k <= |txs| == |parsers|
    ensures OutcomesInBlock(txs, parsers, TransactionStatusFailed, k) == HowMany(txs[..k], Failed)
    ensures OutcomesInBlock(txs, parsers, TransactionStatusSucceeded, k) == HowMany(txs[..k], Succeeded)
  {
    if k > 0 {
      StatusesAddUp(txs, parsers, k - 1);
      assert txs[..k][..k - 1] == txs[..k - 1];
    }
  }

  lemma DoneTasksSend(steps: seq<Step>, slot: Slot, txs: seq<Transaction>, parsers: seq<Parser>, kind: StatKind)
    requires |txs| == |parsers| && Delivers(steps, slot, TasksOf(slot, txs, parsers)) && !kind.IsAccount()
    requires forall t :: 0 <= t < |txs| ==> TaskLog(steps, t) == TransactionMessages(slot, txs[t], parsers[t])
    ensures Gates.Times(steps, ParseStats(slot, kind)) == OutcomesInBlock(txs, parsers, kind, |txs|)
  {
    TimesAreSent(steps, slot, TasksOf(slot, txs, parsers), kind);
    TasksOccur(steps, slot, txs, parsers, kind, |txs|);
  }

  lemma DoneTasksOccur(steps: seq<Step>, slot: Slot, txs: seq<Transaction>, parsers: seq<Parser>, s: Stats)
    requires |txs| == |parsers| && Delivers(steps, slot, TasksOf(slot, txs, parsers))
    requires forall t :: 0 <= t < |txs| ==> TaskLog(steps, t) == TransactionMessages(slot, txs[t], parsers[t])
    requires IxCounted(s, steps, slot)
    ensures CountsOutcomes(s, txs, parsers)
  {
    assert txs[..|txs|] == txs && parsers[..|txs|] == parsers;
    DoneTasksSend(steps, slot, txs, parsers, InstructionFiltered);
    DoneTasksSend(steps, slot, txs, parsers, InstructionError);
    DoneTasksSend(steps, slot, txs, parsers, TransactionStatusFailed);
    DoneTasksSend(steps, slot, txs, parsers, TransactionStatusSucceeded);
    UndecodedAddUp(txs, parsers, |txs|);
    StatusesAddUp(txs, parsers, |txs|);
  }

  lemma AllTasksDone(steps: seq<Step>, slot: Slot, indexes: seq<nat>, tasks: seq<seq<Event>>)
    requires Delivers(steps, slot, tasks) && IsBlock(slot, indexes, tasks) && ParsedCount(steps, slot) >= |tasks|
    ensures forall t :: 0 <= t < |tasks| ==> TaskLog(steps, t) == tasks[t]
  {
    ParsedIsSignalSum(steps, slot, indexes, tasks);
    EveryTaskDone(steps, slot, indexes, tasks, |tasks|);
  }

  /** Whatever the drain that is due, what it emits for the slot counts its outcomes. */
  lemma NextCountsOutcomes(commitAt: CommitAt, steps: seq<Step>, slot: Slot, txs: seq<Transaction>,
                           parsers: seq<Parser>, indexes: seq<nat>)
    requires |txs| == |parsers| && Delivers(steps, slot, TasksOf(slot, txs, parsers))
    requires IsBlock(slot, indexes, TasksOf(slot, txs, parsers))
    requires IxInOrder(Start(commitAt, Some(RETENTION)), steps) && slot !in Discards(steps)
    ensures forall o :: o in DrainIx(Exec(Start(commitAt, Some(RETENTION)), steps).st).out && o.slot == slot ==>
              CountsOutcomes(o.stats, txs, parsers)
  {
    var st, tasks := Exec(Start(commitAt, Some(RETENTION)), steps).st, TasksOf(slot, txs, parsers);
    InstructionsAreOrdered(commitAt, Some(RETENTION), steps);
    BufferHoldsEverything(commitAt, Some(RETENTION), steps, slot, |tasks|);
    var swept := DrainIxSweeps(st);
    IxSweepKeepsInv(st, swept, DrainIx(st).out);
    forall o | o in DrainIx(st).out && o.slot == slot ensures CountsOutcomes(o.stats, txs, parsers) {
      assert IxFlushed(st, o);
      IxCountersCount(commitAt, Some(RETENTION), steps, slot);
      assert ParsedCount(steps, slot) >= |tasks|;
      AllTasksDone(steps, slot, indexes, tasks);
      DoneTasksOccur(steps, slot, txs, parsers, o.stats);
    }
  }

  /**
   * The statistics that go out with a slot are true: for every interleaving of its handlers with each
   * other, with account handlers, with the source and with the drains, they are the numbers of its
   * instructions without a decoded record, by cause, and of its transactions, by status.
   */
  lemma {:induction false} FlushedStatisticsCount(commitAt: CommitAt, steps: seq<Step>, slot: Slot, txs: seq<Transaction>,
                                                  parsers: seq<Parser>, indexes: seq<nat>)
    requires |txs| == |parsers| == |indexes| && StrictlyAscending(indexes)
    requires forall t :: 0 <= t < |txs| ==>
               (txs[t].NoInfo? || txs[t].index == indexes[t]) && (txs[t].Built? ==> OuterPaths(txs[t].instructions))
    requires IxInOrder(Start(commitAt, Some(RETENTION)), steps) && slot !in Discards(steps)
    requires Delivers(steps, slot, TasksOf(slot, txs, parsers))
    ensures forall o :: o in Exec(Start(commitAt, Some(RETENTION)), steps).ixOut && o.slot == slot ==>
              CountsOutcomes(o.stats, txs, parsers)
  {
    if steps != [] {
      var prefix := steps[..|steps| - 1];
      DeliversPrefix(steps, slot, TasksOf(slot, txs, parsers));
      FlushedStatisticsCount(commitAt, prefix, slot, txs, parsers, indexes);
      forall t | 0 <= t < |txs| ensures IsTask(TasksOf(slot, txs, parsers)[t], slot, indexes[t]) {
        TransactionIsTask(slot, txs[t], parsers[t], indexes[t]);
      }
      NextCountsOutcomes(commitAt, prefix, slot, txs, parsers, indexes);
    }
  }
}
