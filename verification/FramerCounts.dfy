/** What the framer hands on and what it counts, told from its inputs. */
module FramerCounts {
  import opened Basics
  import opened FramerModel

  // ---- What becomes of an input ----

  datatype Fate = NotATransaction | NoResult | Undecodable | NoFilter | Unwanted | Handed

  function PreconfOf(i: Input): Option<Preconf> {
    match i
    case Feed(HarmonicTransaction(p)) => Some(p)
    case Feed(BamTransaction(p)) => Some(p)
    case _ => None
  }

  /** A parser without a rule takes every transaction, one with a rule takes votes only or no votes. */
  predicate Wants(rules: Rules, name: string, isVote: bool) { name in rules ==> (isVote <==> rules[name]) }

  predicate SomeoneWants(rules: Rules, filters: seq<string>, isVote: bool) {
    exists k :: 0 <= k < |filters| && Wants(rules, filters[k], isVote)
  }

  function FateOf(rules: Rules, i: Input): Fate {
    if PreconfOf(i).None? then NotATransaction else
      var p := PreconfOf(i).value;
      if p.success.None? then NoResult
      else if p.tx.None? || |p.tx.value.signatures| == 0 then Undecodable
      else if |p.filters| == 0 then NoFilter
      else if SomeoneWants(rules, p.filters, p.tx.value.isVote) then Handed
      else Unwanted
  }

  lemma {:induction false} WantedName(rules: Rules, filters: seq<string>, isVote: bool, name: string)
    ensures name in Wanted(rules, filters, isVote) <==> name in filters && Wants(rules, name, isVote)
  {
    if filters != [] {
      var init, last := filters[..|filters| - 1], filters[|filters| - 1];
      WantedName(rules, init, isVote, name);
      assert filters == init + [last];
    }
  }

  lemma WantedIfSomeone(rules: Rules, filters: seq<string>, isVote: bool)
    ensures Wanted(rules, filters, isVote) != [] <==> SomeoneWants(rules, filters, isVote)
  {
    var wanted := Wanted(rules, filters, isVote);
    if wanted != [] {
      assert wanted[0] in wanted;
      WantedName(rules, filters, isVote, wanted[0]);
    }
    if k :| 0 <= k < |filters| && Wants(rules, filters[k], isVote) { WantedName(rules, filters, isVote, filters[k]); }
  }

  /** The names that want the transaction, in their order. */
  ghost predicate Retained(rules: Rules, filters: seq<string>, isVote: bool, kept: seq<string>, at: seq<nat>) {
    && |at| == |kept| && StrictlyAscending(at)
    && (forall k :: 0 <= k < |at| ==> at[k] < |filters| && filters[at[k]] == kept[k] && Wants(rules, kept[k], isVote))
    && forall k :: 0 <= k < |filters| && Wants(rules, filters[k], isVote) ==> k in at
  }

  lemma {:induction false} WantedIsRetained(rules: Rules, filters: seq<string>, isVote: bool) returns (at: seq<nat>)
    ensures Retained(rules, filters, isVote, Wanted(rules, filters, isVote), at)
  {
    at := [];
    if filters != [] {
      var n := |filters| - 1;
      at := WantedIsRetained(rules, filters[..n], isVote);
      RetainedOneMore(rules, filters, isVote, Wanted(rules, filters[..n], isVote), at);
      if Wants(rules, filters[n], isVote) { at := at + [n]; }
    }
  }

  lemma RetainedOneMore(rules: Rules, filters: seq<string>, isVote: bool, kept: seq<string>, at: seq<nat>)
    requires filters != [] && Retained(rules, filters[..|filters| - 1], isVote, kept, at)
    ensures var n := |filters| - 1;
            if Wants(rules, filters[n], isVote) then Retained(rules, filters, isVote, kept + [filters[n]], at + [n])
            else Retained(rules, filters, isVote, kept, at)
  {
    var n := |filters| - 1;
    forall k | 0 <= k < n && Wants(rules, filters[k], isVote) ensures k in at && k in at + [n] {
      assert filters[..n][k] == filters[k];
    }
    assert (at + [n])[|at|] == n;
  }

  /** A delivery tells its transaction: slot, first signature, vote flag, result and the filters that want it. */
  ghost predicate TellsOf(rules: Rules, p: Preconf, d: Delivery)
    requires p.tx.Some? && p.tx.value.signatures != [] && p.success.Some?
  {
    && d.slot == p.slot && d.signature == p.tx.value.signatures[0] && d.isVote == p.tx.value.isVote
    && (d.failed <==> p.success == Some(false))
    && exists at :: Retained(rules, p.filters, d.isVote, d.filters, at)
  }

  lemma FateDecides(s: State, rules: Rules, p: Preconf, i: Input)
    requires PreconfOf(i) == Some(p)
    ensures Deliverable(rules, p) <==> FateOf(rules, i) == Handed
    ensures var d := Transaction(s, rules, p).1;
            && (d.Some? <==> FateOf(rules, i) == Handed)
            && (d.Some? ==> TellsOf(rules, p, d.value))
  {
    if p.tx.Some? { WantedIfSomeone(rules, p.filters, p.tx.value.isVote); }
    if Deliverable(rules, p) { var at := WantedIsRetained(rules, p.filters, p.tx.value.isVote); }
  }

  /** In every run an input is delivered exactly if its fate is to be, and the delivery tells of it. */
  lemma DeliveriesTell(t: Trace, rules: Rules, run: seq<Input>, i: nat)
    requires IsRun(t, rules, run) && i < |run|
    ensures t.outs[i].Some? <==> FateOf(rules, run[i]) == Handed
    ensures t.outs[i].Some? ==> TellsOf(rules, PreconfOf(run[i]).value, t.outs[i].value)
  {
    assert StepAt(t, rules, run, i);
    match run[i]
    case Feed(HarmonicTransaction(p)) => FateDecides(t.states[i], rules, p, run[i]);
    case Feed(BamTransaction(p)) =>
      var s := t.states[i];
      FateDecides(s.(frames := s.frames[p.slot := FrameOf(s, p.slot).(open := true)]), rules, p, run[i]);
    case _ =>
  }

  // ---- When a slot is open ----

  predicate Opens(i: Input, slot: nat) {
    i.Feed? && (i.update == SlotStart(slot) || (i.update.BamTransaction? && i.update.preconf.slot == slot))
  }

  predicate Ends(i: Input, slot: nat) { i.Feed? && i.update == SlotEnd(slot) }

  /** Since its entry was last absent the slot was opened, and neither ended nor cut off by a reconnect. */
  function IsOpen(t: Trace, run: seq<Input>, n: nat, slot: nat): bool
    requires n <= |run| < |t.states|
  {
    if n == 0 || slot !in t.states[n].frames then false
    else if Opens(run[n - 1], slot) then true
    else if Ends(run[n - 1], slot) || run[n - 1].Reconnected? then false
    else IsOpen(t, run, n - 1, slot)
  }

  /** It ended, or a reconnect cut it off, and it has not started since. */
  function HasEnded(t: Trace, run: seq<Input>, n: nat, slot: nat): bool
    requires n <= |run| < |t.states|
  {
    if n == 0 || slot !in t.states[n].frames then false
    else if Ends(run[n - 1], slot) then true
    else if run[n - 1] == Feed(SlotStart(slot)) then false
    else HasEnded(t, run, n - 1, slot) || (run[n - 1].Reconnected? && IsOpen(t, run, n - 1, slot))
  }

  ghost predicate FrameStep(s: State, i: Input, s': State, slot: nat) {
    slot in s'.frames ==>
      var f, f' := FrameOf(s, slot), s'.frames[slot];
      && f'.open == (if Opens(i, slot) then true else if Ends(i, slot) || i.Reconnected? then false else f.open)
      && f'.ended == (if Ends(i, slot) then true else if i == Feed(SlotStart(slot)) then false
                      else f.ended || (i.Reconnected? && f.open))
  }

  lemma StepOnFrame(s: State, rules: Rules, i: Input, slot: nat)
    ensures FrameStep(s, i, Step(s, rules, i).0, slot)
  {
    if i.Feed? {
      var h := Handle(s, rules, i.update).0;
      HandleOnFrame(s, rules, i.update, slot);
      assert slot in Capped(h.frames) ==> slot in h.frames && Capped(h.frames)[slot] == h.frames[slot];
    }
  }

  lemma HandleOnFrame(s: State, rules: Rules, u: Update, slot: nat)
    ensures FrameStep(s, Feed(u), Handle(s, rules, u).0, slot)
  {
    match u
    case HarmonicTransaction(p) => TransactionOnFrame(s, rules, p, slot);
    case BamTransaction(p) => TransactionOnFrame(s.(frames := s.frames[p.slot := FrameOf(s, p.slot).(open := true)]), rules, p, slot);
    case _ =>
  }

  lemma TransactionOnFrame(s: State, rules: Rules, p: Preconf, slot: nat)
    ensures var s' := Transaction(s, rules, p).0;
            slot in s'.frames ==> s'.frames[slot].open == FrameOf(s, slot).open && s'.frames[slot].ended == FrameOf(s, slot).ended
  {
  }

  lemma {:induction false} FramesTell(t: Trace, rules: Rules, run: seq<Input>, n: nat, slot: nat)
    requires IsRun(t, rules, run) && n <= |run|
    ensures FrameOf(t.states[n], slot).open == IsOpen(t, run, n, slot)
    ensures FrameOf(t.states[n], slot).ended == HasEnded(t, run, n, slot)
  {
    if n > 0 {
      FramesTell(t, rules, run, n - 1, slot);
      assert StepAt(t, rules, run, n - 1);
      StepOnFrame(t.states[n - 1], rules, run[n - 1], slot);
    }
  }

  // ---- What is counted ----

  /** How many of the first `n` inputs met that fate. */
  function CountFate(rules: Rules, run: seq<Input>, n: nat, fate: Fate): nat
    requires n <= |run|
  {
    if n == 0 then 0 else CountFate(rules, run, n - 1, fate) + if FateOf(rules, run[n - 1]) == fate then 1 else 0
  }

  function CountInputs(run: seq<Input>, n: nat, what: Input): nat
    requires n <= |run|
  {
    if n == 0 then 0 else CountInputs(run, n - 1, what) + if run[n - 1] == what then 1 else 0
  }

  /** All that the feed said it withheld. */
  function Withheld(run: seq<Input>, n: nat): nat
    requires n <= |run|
  {
    if n == 0 then 0 else
      Withheld(run, n - 1) + if run[n - 1].Feed? && run[n - 1].update.Clip? then run[n - 1].update.withheld else 0
  }

  /** Starts of slots that had ended. */
  function Restarts(t: Trace, run: seq<Input>, n: nat): nat
    requires n <= |run| < |t.states|
  {
    if n == 0 then 0 else
      var i := run[n - 1];
      Restarts(t, run, n - 1) + if i.Feed? && i.update.SlotStart? && HasEnded(t, run, n - 1, i.update.slot) then 1 else 0
  }

  /** Transactions handed on while their slot was not open; a BAM transaction opens its own. */
  function OutOfFrame(t: Trace, rules: Rules, run: seq<Input>, n: nat): nat
    requires n <= |run| < |t.states|
  {
    if n == 0 then 0 else
      var i := run[n - 1];
      OutOfFrame(t, rules, run, n - 1)
      + if FateOf(rules, i) == Handed && i.update.HarmonicTransaction? && !IsOpen(t, run, n - 1, i.update.preconf.slot) then 1 else 0
  }

  function Least2(a: nat, b: nat): nat { if a < b then a else b }

  ghost predicate Counted(t: Trace, rules: Rules, run: seq<Input>, n: nat)
    requires n <= |run| < |t.states|
  {
    var c := t.states[n].counts;
    && c.unknownResult == CountFate(rules, run, n, NoResult)
    && c.undecodable == CountFate(rules, run, n, Undecodable)
    && c.voteRuleDropped == CountFate(rules, run, n, Unwanted)
    && c.unknownPayload == CountFate(rules, run, n, NoFilter) + CountInputs(run, n, Feed(UnknownPayload))
    && c.reconnects == CountInputs(run, n, Reconnected)
    && c.clipped == Least2(Withheld(run, n), U64_MAX)
    && c.restarts == Restarts(t, run, n)
    && c.outOfFrame == OutOfFrame(t, rules, run, n)
  }

  /** Every counter is the number of inputs it stands for, in every run; clips saturate. */
  lemma {:induction false} CountersCount(t: Trace, rules: Rules, run: seq<Input>, n: nat)
    requires IsRun(t, rules, run) && n <= |run|
    ensures Counted(t, rules, run, n)
  {
    if n > 0 {
      CountersCount(t, rules, run, n - 1);
      assert StepAt(t, rules, run, n - 1);
      CountsStep(t.states[n - 1], rules, run[n - 1]);
      CountedStep(t, rules, run, n);
    }
  }

  lemma CountedStep(t: Trace, rules: Rules, run: seq<Input>, n: nat)
    requires 0 < n <= |run| && IsRun(t, rules, run) && Counted(t, rules, run, n - 1)
    requires Adds(t.states[n - 1], rules, run[n - 1], t.states[n].counts)
    ensures Counted(t, rules, run, n)
  {
    var i := run[n - 1];
    if i.Feed? && i.update.SlotStart? { FramesTell(t, rules, run, n - 1, i.update.slot); }
    if PreconfOf(i).Some? { FramesTell(t, rules, run, n - 1, PreconfOf(i).value.slot); }
  }

  /** What one input adds to the counters. */
  ghost predicate Adds(s: State, rules: Rules, i: Input, c: Counts) {
    var fate := FateOf(rules, i);
    && c.unknownResult == s.counts.unknownResult + (if fate == NoResult then 1 else 0)
    && c.undecodable == s.counts.undecodable + (if fate == Undecodable then 1 else 0)
    && c.voteRuleDropped == s.counts.voteRuleDropped + (if fate == Unwanted then 1 else 0)
    && c.unknownPayload == s.counts.unknownPayload + (if fate == NoFilter || i == Feed(UnknownPayload) then 1 else 0)
    && c.reconnects == s.counts.reconnects + (if i == Reconnected then 1 else 0)
    && c.clipped == (if i.Feed? && i.update.Clip? then Least2(s.counts.clipped + i.update.withheld, U64_MAX) else s.counts.clipped)
    && c.restarts == s.counts.restarts
                     + (if i.Feed? && i.update.SlotStart? && FrameOf(s, i.update.slot).ended then 1 else 0)
    && c.outOfFrame == s.counts.outOfFrame
                       + (if fate == Handed && i.update.HarmonicTransaction? && !FrameOf(s, i.update.preconf.slot).open then 1 else 0)
  }

  lemma CountsStep(s: State, rules: Rules, i: Input)
    ensures Adds(s, rules, i, Step(s, rules, i).0.counts)
  {
    match i
    case Feed(u) => HandleAdds(s, rules, u);
    case Reconnected =>
  }

  lemma HandleAdds(s: State, rules: Rules, u: Update)
    ensures Adds(s, rules, Feed(u), Handle(s, rules, u).0.counts)
  {
    match u
    case HarmonicTransaction(p) => TransactionAdds(s, rules, p, Feed(u));
    case BamTransaction(p) => BamAdds(s, rules, p);
    case _ => OthersAdd(s, rules, u);
  }

  lemma OthersAdd(s: State, rules: Rules, u: Update)
    requires !u.HarmonicTransaction? && !u.BamTransaction?
    ensures Adds(s, rules, Feed(u), Handle(s, rules, u).0.counts)
  {
  }

  lemma BamAdds(s: State, rules: Rules, p: Preconf)
    ensures Adds(s, rules, Feed(BamTransaction(p)), Handle(s, rules, BamTransaction(p)).0.counts)
  {
    var ready := s.(frames := s.frames[p.slot := FrameOf(s, p.slot).(open := true)]);
    TransactionAdds(ready, rules, p, Feed(BamTransaction(p)));
    assert Handle(s, rules, BamTransaction(p)).0.counts == Transaction(ready, rules, p).0.counts;
  }

  lemma TransactionAdds(s: State, rules: Rules, p: Preconf, i: Input)
    requires PreconfOf(i) == Some(p) && (i.update.BamTransaction? ==> FrameOf(s, p.slot).open)
    ensures Adds(s, rules, i, Transaction(s, rules, p).0.counts)
  {
    FateDecides(s, rules, p, i);
    if p.tx.Some? { WantedIfSomeone(rules, p.filters, p.tx.value.isVote); }
  }

  // ---- What is kept ----

  /** The slot that an input moves the frontier to, if it is ahead. */
  function Reaches(i: Input): Option<nat> {
    match i
    case Feed(SlotEnd(slot)) => Some(slot)
    case Feed(BamTransaction(p)) => Some(p.slot)
    case _ => None
  }

  /** The input makes an entry for the slot: it opens or ends it, or it is delivered. */
  predicate Enters(i: Input, d: Option<Delivery>, slot: nat) {
    i == Feed(SlotStart(slot)) || Reaches(i) == Some(slot) || (d.Some? && d.value.slot == slot)
  }

  predicate Moves(s: State, s': State) { s'.frontier.Some? && s'.frontier != s.frontier }

  /** There before or entered now, and not more than 64 behind a frontier that has moved. */
  predicate Remains(s: State, i: Input, d: Option<Delivery>, s': State, slot: nat) {
    (slot in s.frames || Enters(i, d, slot)) && (Moves(s, s') ==> slot + 64 >= s'.frontier.value)
  }

  ghost predicate KeepsEntries(s: State, i: Input, d: Option<Delivery>, s': State) {
    && (forall k :: k in s'.frames ==> Remains(s, i, d, s', k))
    && (forall k :: Remains(s, i, d, s', k) && k !in s'.frames ==> |s'.frames| == 256 && forall j :: j in s'.frames ==> k < j)
    && s'.frontier == (if Reaches(i).Some? && (s.frontier.None? || s.frontier.value < Reaches(i).value) then Reaches(i) else s.frontier)
  }

  lemma HandleRemains(s: State, rules: Rules, u: Update)
    ensures var h := Handle(s, rules, u);
            && (forall k :: k in h.0.frames <==> Remains(s, Feed(u), h.1, h.0, k))
            && KeepsEntries(s, Feed(u), h.1, h.0)
  {
  }

  lemma StepKeepsEntries(s: State, rules: Rules, i: Input)
    ensures var r := Step(s, rules, i); KeepsEntries(s, i, r.1, r.0)
  {
    if i.Feed? {
      var h := Handle(s, rules, i.update);
      HandleRemains(s, rules, i.update);
      var kept := Capped(h.0.frames);
      forall k | Remains(s, i, h.1, h.0, k) && k !in kept ensures |kept| == 256 && forall j :: j in kept ==> k < j {
        assert k in h.0.frames;
      }
    }
  }

  ghost predicate IsHighest(run: seq<Input>, n: nat, frontier: Option<nat>)
    requires n <= |run|
  {
    && (forall i :: 0 <= i < n && Reaches(run[i]).Some? ==> frontier.Some? && Reaches(run[i]).value <= frontier.value)
    && (frontier.Some? ==> exists i :: 0 <= i < n && Reaches(run[i]) == frontier)
  }

  /**
   * In every run the frontier is the highest slot ended or opened by a BAM transaction. An entry goes
   * only when the frontier moves more than 64 ahead of it, or as one of the lowest past 256 entries.
   */
  lemma {:induction false} EntriesAreKept(t: Trace, rules: Rules, run: seq<Input>, n: nat)
    requires IsRun(t, rules, run) && n <= |run|
    ensures IsHighest(run, n, t.states[n].frontier)
    ensures n > 0 ==> KeepsEntries(t.states[n - 1], run[n - 1], t.outs[n - 1], t.states[n])
  {
    if n > 0 {
      EntriesAreKept(t, rules, run, n - 1);
      assert StepAt(t, rules, run, n - 1);
      StepKeepsEntries(t.states[n - 1], rules, run[n - 1]);
    }
  }
}
