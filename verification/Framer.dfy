/** The preconf framer as steps on a value: which index each delivered transaction gets. */
module FramerModel {
  import opened Basics

  const SLOT_RETENTION: nat := 64
  const MAX_FRAMES: nat := 4 * SLOT_RETENTION
  const U64_MAX: nat := 0xFFFF_FFFF_FFFF_FFFF

  datatype Frame = Frame(next: nat, open: bool, ended: bool)

  const NEW_FRAME: Frame := Frame(0, false, false)

  datatype Counts = Counts(unknownResult: nat, voteRuleDropped: nat, undecodable: nat, outOfFrame: nat,
                           clipped: nat, restarts: nat, unknownPayload: nat, reconnects: nat)

  /** The decoded bytes; `None` where they do not decode. */
  datatype Tx = Tx(signatures: seq<nat>, isVote: bool)

  datatype Preconf = Preconf(filters: seq<string>, slot: nat, success: Option<bool>, tx: Option<Tx>)

  datatype Update =
    | HarmonicTransaction(preconf: Preconf)
    | SlotStart(slot: nat)
    | SlotEnd(slot: nat)
    | BamTransaction(preconf: Preconf)
    | Clip(withheld: nat)
    | Ping
    | UnknownPayload

  datatype Delivery = Delivery(slot: nat, index: nat, filters: seq<string>, signature: nat, isVote: bool, failed: bool)

  datatype State = State(frames: map<nat, Frame>, frontier: Option<nat>, counts: Counts)

  const START: State := State(map[], None, Counts(0, 0, 0, 0, 0, 0, 0, 0))

  type Rules = map<string, bool>

  function FrameOf(s: State, slot: nat): Frame { if slot in s.frames then s.frames[slot] else NEW_FRAME }

  function Wanted(rules: Rules, filters: seq<string>, isVote: bool): seq<string> {
    if filters == [] then [] else
      Wanted(rules, filters[..|filters| - 1], isVote)
      + var name := filters[|filters| - 1]; if name !in rules || rules[name] == isVote then [name] else []
  }

  predicate Deliverable(rules: Rules, p: Preconf) {
    p.success.Some? && p.tx.Some? && p.tx.value.signatures != [] && Wanted(rules, p.filters, p.tx.value.isVote) != []
  }

  /** The counter that a dropped transaction raises. */
  function Dropped(counts: Counts, rules: Rules, p: Preconf): Counts {
    if p.success.None? then counts.(unknownResult := counts.unknownResult + 1)
    else if p.tx.None? || p.tx.value.signatures == [] then counts.(undecodable := counts.undecodable + 1)
    else if p.filters == [] then counts.(unknownPayload := counts.unknownPayload + 1)
    else counts.(voteRuleDropped := counts.voteRuleDropped + 1)
  }

  function Transaction(s: State, rules: Rules, p: Preconf): (r: (State, Option<Delivery>)) {
    if !Deliverable(rules, p) then (s.(counts := Dropped(s.counts, rules, p)), None) else
      var frame, tx := FrameOf(s, p.slot), p.tx.value;
      (s.(frames := s.frames[p.slot := frame.(next := frame.next + 1)],
          counts := s.counts.(outOfFrame := s.counts.outOfFrame + if frame.open then 0 else 1)),
       Some(Delivery(p.slot, frame.next, Wanted(rules, p.filters, tx.isVote), tx.signatures[0], tx.isVote, !p.success.value)))
  }

  function Cutoff(slot: nat): nat { if slot < SLOT_RETENTION then 0 else slot - SLOT_RETENTION }

  function Advance(s: State, slot: nat): State {
    if s.frontier.Some? && slot <= s.frontier.value then s
    else s.(frontier := Some(slot), frames := map k | k in s.frames && k >= Cutoff(slot) :: s.frames[k])
  }

  /** One update, before the cap. */
  function Handle(s: State, rules: Rules, u: Update): (r: (State, Option<Delivery>)) {
    match u
    case HarmonicTransaction(p) => Transaction(s, rules, p)
    case SlotStart(slot) =>
      var frame := FrameOf(s, slot);
      (s.(frames := s.frames[slot := frame.(open := true, ended := false)],
          counts := s.counts.(restarts := s.counts.restarts + if frame.ended then 1 else 0)), None)
    case SlotEnd(slot) =>
      (Advance(s.(frames := s.frames[slot := FrameOf(s, slot).(open := false, ended := true)]), slot), None)
    case BamTransaction(p) =>
      var r := Transaction(s.(frames := s.frames[p.slot := FrameOf(s, p.slot).(open := true)]), rules, p);
      (Advance(r.0, p.slot), r.1)
    case Clip(n) => (s.(counts := s.counts.(clipped := if s.counts.clipped + n > U64_MAX then U64_MAX else s.counts.clipped + n)), None)
    case Ping => (s, None)
    case UnknownPayload => (s.(counts := s.counts.(unknownPayload := s.counts.unknownPayload + 1)), None)
  }

  /** Drops the lowest slots past the cap. */
  function Capped(frames: map<nat, Frame>): (r: map<nat, Frame>)
    ensures |r| <= MAX_FRAMES && r.Keys <= frames.Keys && forall k :: k in r ==> r[k] == frames[k]
    ensures |frames| <= MAX_FRAMES ==> r == frames
    ensures |frames| >= MAX_FRAMES ==> |r| == MAX_FRAMES
    ensures forall k, j :: k in frames && k !in r && j in r ==> k < j
    decreases |frames|
  {
    if |frames| <= MAX_FRAMES then frames else
      assert |frames.Keys| == |frames|;
      var m := Least(frames.Keys);
      WithoutOne(frames, m);
      Capped(frames - {m})
  }

  lemma WithoutOne(frames: map<nat, Frame>, m: nat)
    requires m in frames
    ensures |frames - {m}| == |frames| - 1
  {
    assert (frames - {m}).Keys == frames.Keys - {m};
    assert |frames.Keys| == |frames| && |(frames - {m}).Keys| == |frames - {m}|;
  }

  function Apply(s: State, rules: Rules, u: Update): (r: (State, Option<Delivery>)) {
    var h := Handle(s, rules, u);
    (h.0.(frames := Capped(h.0.frames)), h.1)
  }

  function CloseFrame(f: Frame): Frame { f.(ended := f.ended || f.open, open := false) }

  function Reconnect(s: State): State {
    s.(frames := map k | k in s.frames :: CloseFrame(s.frames[k]),
       counts := s.counts.(reconnects := s.counts.reconnects + 1))
  }

  // ---- Runs ----

  datatype Input = Feed(update: Update) | Reconnected

  function Step(s: State, rules: Rules, i: Input): (State, Option<Delivery>) {
    match i
    case Feed(u) => Apply(s, rules, u)
    case Reconnected => (Reconnect(s), None)
  }

  /** A run: the states between the inputs, and what each input delivered. */
  datatype Trace = Trace(states: seq<State>, outs: seq<Option<Delivery>>)

  ghost predicate StepAt(t: Trace, rules: Rules, run: seq<Input>, i: nat)
    requires |t.states| == |run| + 1 && |t.outs| == |run| && i < |run|
  {
    (t.states[i + 1], t.outs[i]) == Step(t.states[i], rules, run[i])
  }

  ghost predicate IsRun(t: Trace, rules: Rules, run: seq<Input>) {
    && |t.states| == |run| + 1 && |t.outs| == |run| && t.states[0] == START
    && forall i :: 0 <= i < |run| ==> StepAt(t, rules, run, i)
  }

  predicate Delivers(t: Trace, i: nat, slot: nat)
    requires i < |t.outs|
  {
    t.outs[i].Some? && t.outs[i].value.slot == slot
  }

  /** How many transactions of `slot` the first `n` inputs delivered. */
  function CountOf(t: Trace, n: nat, slot: nat): nat
    requires n <= |t.outs|
  {
    if n == 0 then 0 else CountOf(t, n - 1, slot) + if Delivers(t, n - 1, slot) then 1 else 0
  }

  /** Every input list has a run. */
  lemma {:induction false} RunExists(rules: Rules, run: seq<Input>) returns (t: Trace)
    ensures IsRun(t, rules, run)
  {
    if run == [] { return Trace([START], []); }
    var init := run[..|run| - 1];
    var u := RunExists(rules, init);
    var r := Step(u.states[|init|], rules, run[|init|]);
    t := Trace(u.states + [r.0], u.outs + [r.1]);
    OneMoreStep(u, rules, run, t);
  }

  lemma OneMoreStep(u: Trace, rules: Rules, run: seq<Input>, t: Trace)
    requires run != [] && IsRun(u, rules, run[..|run| - 1])
    requires var r := Step(u.states[|run| - 1], rules, run[|run| - 1]); t == Trace(u.states + [r.0], u.outs + [r.1])
    ensures IsRun(t, rules, run)
  {
    forall i | 0 <= i < |run| ensures StepAt(t, rules, run, i) {
      if i < |run| - 1 { assert StepAt(u, rules, run[..|run| - 1], i); }
    }
  }

  /** The map stays bounded, whatever the server sends. */
  lemma {:induction false} MapStaysBounded(t: Trace, rules: Rules, run: seq<Input>, n: nat)
    requires IsRun(t, rules, run) && n <= |run|
    ensures |t.states[n].frames| <= MAX_FRAMES
  {
    if n > 0 {
      MapStaysBounded(t, rules, run, n - 1);
      assert StepAt(t, rules, run, n - 1);
      if run[n - 1].Reconnected? { ReconnectKeepsSize(t.states[n - 1]); }
    }
  }

  lemma ReconnectKeepsSize(s: State)
    ensures |Reconnect(s).frames| == |s.frames|
  {
    var after := Reconnect(s).frames;
    assert after.Keys == s.frames.Keys;
    assert |after| == |after.Keys| && |s.frames| == |s.frames.Keys|;
  }

  // ---- What one step does to one slot ----

  /** A delivery takes its slot's next index; only a delivery moves it, unless the entry is dropped. */
  ghost predicate Counts1(s: State, d: Option<Delivery>, s': State, slot: nat) {
    && (d.Some? && d.value.slot == slot ==> d.value.index == FrameOf(s, slot).next)
    && (slot in s'.frames ==>
          s'.frames[slot].next == FrameOf(s, slot).next + if d.Some? && d.value.slot == slot then 1 else 0)
  }

  lemma StepOnSlot(s: State, rules: Rules, i: Input, slot: nat)
    ensures var (s', d) := Step(s, rules, i); Counts1(s, d, s', slot)
  {
    if i.Feed? { HandleOnSlot(s, rules, i.update, slot); }
  }

  lemma HandleOnSlot(s: State, rules: Rules, u: Update, slot: nat)
    ensures var (s', d) := Handle(s, rules, u); Counts1(s, d, s', slot)
  {
  }

  lemma RunOnSlot(t: Trace, rules: Rules, run: seq<Input>, i: nat, slot: nat)
    requires IsRun(t, rules, run) && i < |run|
    ensures Counts1(t.states[i], t.outs[i], t.states[i + 1], slot)
  {
    assert StepAt(t, rules, run, i);
    StepOnSlot(t.states[i], rules, run[i], slot);
  }

  // ---- In every run an index counts from the last time the entry was absent ----

  /** Deliveries of `slot` since its entry was last absent. */
  function SinceAbsent(t: Trace, n: nat, slot: nat): nat
    requires n <= |t.outs| < |t.states|
  {
    if n == 0 || slot !in t.states[n].frames then 0
    else SinceAbsent(t, n - 1, slot) + if Delivers(t, n - 1, slot) then 1 else 0
  }

  lemma {:induction false} NextCountsSinceAbsent(t: Trace, rules: Rules, run: seq<Input>, n: nat, slot: nat)
    requires IsRun(t, rules, run) && n <= |run|
    ensures FrameOf(t.states[n], slot).next == SinceAbsent(t, n, slot)
  {
    if n > 0 {
      NextCountsSinceAbsent(t, rules, run, n - 1, slot);
      RunOnSlot(t, rules, run, n - 1, slot);
    }
  }

  /** No entry of `slot` that had counted was dropped in the first `n` inputs. */
  ghost predicate NothingLost(t: Trace, n: nat, slot: nat)
    requires n <= |t.outs| < |t.states|
  {
    forall j :: 0 <= j <= n && slot !in t.states[j].frames ==> CountOf(t, j, slot) == 0
  }

  lemma {:induction false} SinceAbsentIsCount(t: Trace, n: nat, slot: nat)
    requires n <= |t.outs| < |t.states|
    ensures SinceAbsent(t, n, slot) <= CountOf(t, n, slot)
    ensures SinceAbsent(t, n, slot) == CountOf(t, n, slot) <==> NothingLost(t, n, slot)
  {
    if n > 0 {
      SinceAbsentIsCount(t, n - 1, slot);
      CountGrows(t, n, slot);
      assert NothingLost(t, n, slot) <==>
             NothingLost(t, n - 1, slot) && (slot !in t.states[n].frames ==> CountOf(t, n, slot) == 0);
    }
  }

  lemma {:induction false} CountGrows(t: Trace, n: nat, slot: nat)
    requires n <= |t.outs|
    ensures forall j :: 0 <= j <= n ==> CountOf(t, j, slot) <= CountOf(t, n, slot)
  {
    if n > 0 { CountGrows(t, n - 1, slot); }
  }

  /** In every run, a delivery gets its slot's running count exactly when no count was lost before it. */
  lemma IndexIsCountIffNothingLost(t: Trace, rules: Rules, run: seq<Input>, i: nat)
    requires IsRun(t, rules, run) && i < |run| && t.outs[i].Some?
    ensures var d := t.outs[i].value; d.index == CountOf(t, i, d.slot) <==> NothingLost(t, i, d.slot)
  {
    var slot := t.outs[i].value.slot;
    RunOnSlot(t, rules, run, i, slot);
    NextCountsSinceAbsent(t, rules, run, i, slot);
    SinceAbsentIsCount(t, i, slot);
  }

  // ---- Inside the retention window nothing is lost ----

  predicate InWindow(s: State, slot: nat) { s.frontier.None? || slot >= Cutoff(s.frontier.value) }

  predicate CapFires(s: State, rules: Rules, i: Input) { i.Feed? && |Handle(s, rules, i.update).0.frames| > MAX_FRAMES }

  /** Every delivered slot is at most 64 behind the frontier, and the cap never evicts. */
  ghost predicate Windowed(t: Trace, rules: Rules, run: seq<Input>)
    requires IsRun(t, rules, run)
  {
    && (forall i :: 0 <= i < |run| && t.outs[i].Some? ==> InWindow(t.states[i], t.outs[i].value.slot))
    && (forall i :: 0 <= i < |run| ==> !CapFires(t.states[i], rules, run[i]))
  }

  /** Only the window moving past a slot drops its entry. */
  ghost predicate Keeps(s: State, d: Option<Delivery>, s': State, slot: nat) {
    InWindow(s', slot) ==>
      InWindow(s, slot) && (slot in s.frames || (d.Some? && d.value.slot == slot) ==> slot in s'.frames)
  }

  lemma StepKeepsWindow(s: State, rules: Rules, i: Input, slot: nat)
    requires !CapFires(s, rules, i)
    ensures var (s', d) := Step(s, rules, i); Keeps(s, d, s', slot)
  {
  }

  lemma RunKeepsWindow(t: Trace, rules: Rules, run: seq<Input>, i: nat, slot: nat)
    requires IsRun(t, rules, run) && Windowed(t, rules, run) && i < |run|
    ensures Keeps(t.states[i], t.outs[i], t.states[i + 1], slot)
  {
    assert StepAt(t, rules, run, i);
    StepKeepsWindow(t.states[i], rules, run[i], slot);
  }

  lemma {:induction false} PresentInWindow(t: Trace, rules: Rules, run: seq<Input>, n: nat, slot: nat)
    requires IsRun(t, rules, run) && Windowed(t, rules, run) && n <= |run|
    requires InWindow(t.states[n], slot) && CountOf(t, n, slot) > 0
    ensures slot in t.states[n].frames
  {
    RunKeepsWindow(t, rules, run, n - 1, slot);
    if !Delivers(t, n - 1, slot) { PresentInWindow(t, rules, run, n - 1, slot); }
  }

  lemma {:induction false} WindowOnlyNarrows(t: Trace, rules: Rules, run: seq<Input>, j: nat, n: nat, slot: nat)
    requires IsRun(t, rules, run) && Windowed(t, rules, run) && j <= n <= |run| && InWindow(t.states[n], slot)
    ensures InWindow(t.states[j], slot)
    decreases n
  {
    if j < n {
      RunKeepsWindow(t, rules, run, n - 1, slot);
      WindowOnlyNarrows(t, rules, run, j, n - 1, slot);
    }
  }

  /** Inside the window, indexes count 0, 1, 2, … per slot, through restarts and reconnects. */
  lemma WindowedIndexesCount(t: Trace, rules: Rules, run: seq<Input>, i: nat)
    requires IsRun(t, rules, run) && Windowed(t, rules, run) && i < |run| && t.outs[i].Some?
    ensures t.outs[i].value.index == CountOf(t, i, t.outs[i].value.slot)
  {
    var slot := t.outs[i].value.slot;
    IndexIsCountIffNothingLost(t, rules, run, i);
    forall j | 0 <= j <= i && slot !in t.states[j].frames ensures CountOf(t, j, slot) == 0 {
      WindowOnlyNarrows(t, rules, run, j, i, slot);
      if CountOf(t, j, slot) > 0 { PresentInWindow(t, rules, run, j, slot); }
    }
  }

  /** So no two deliveries share a slot and an index. */
  lemma WindowedPairsAreDistinct(t: Trace, rules: Rules, run: seq<Input>, i: nat, j: nat)
    requires IsRun(t, rules, run) && Windowed(t, rules, run) && i < j < |run| && t.outs[i].Some? && t.outs[j].Some?
    ensures (t.outs[i].value.slot, t.outs[i].value.index) != (t.outs[j].value.slot, t.outs[j].value.index)
  {
    var slot := t.outs[i].value.slot;
    WindowedIndexesCount(t, rules, run, i);
    WindowedIndexesCount(t, rules, run, j);
    assert CountOf(t, i + 1, slot) == CountOf(t, i, slot) + 1;
    CountGrows(t, j, slot);
  }

  /** Outside the window an index can repeat: slot 10, then slot 500 drops it, then slot 10 again. */
  lemma IndexRepeatsBehindTheWindow(t: Trace, rules: Rules, run: seq<Input>, p: Preconf, q: Preconf)
    requires Deliverable(rules, p) && p.slot == 10 && Deliverable(rules, q) && q.slot == 500
    requires run == [Feed(BamTransaction(p)), Feed(BamTransaction(q)), Feed(BamTransaction(p))] && IsRun(t, rules, run)
    ensures t.outs[0].Some? && t.outs[0] == t.outs[2]
  {
    assert StepAt(t, rules, run, 0) && StepAt(t, rules, run, 1) && StepAt(t, rules, run, 2);
    StepOnSlot(t.states[0], rules, run[0], 10);
    StepOnSlot(t.states[2], rules, run[2], 10);
    assert 10 !in t.states[2].frames by { AdvanceDrops(t.states[1], rules, q); }
  }

  lemma AdvanceDrops(s: State, rules: Rules, q: Preconf)
    requires q.slot == 500 && (s.frontier.None? || s.frontier.value < 500)
    ensures 10 !in Apply(s, rules, BamTransaction(q)).0.frames
  {
  }
}
