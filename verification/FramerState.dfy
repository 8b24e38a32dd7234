/** The framer object, whose methods do exactly the steps of `FramerModel`. */
module FramerObject {
  import opened Basics
  import opened FramerModel

  class Framer {
    const voteRules: Rules
    var frames: map<nat, Frame>
    var frontier: Option<nat>
    var counts: Counts

    function Value(): State
      reads this
    {
      State(frames, frontier, counts)
    }

    constructor (rules: Rules)
      ensures Value() == START && voteRules == rules
    {
      voteRules, frames, frontier, counts := rules, map[], None, START.counts;
    }

    /** At most one runtime update per feed update, and never more than `MAX_FRAMES` entries after. */
    method Apply(u: Update) returns (r: Option<Delivery>)
      modifies this
      ensures (Value(), r) == FramerModel.Apply(old(Value()), voteRules, u)
      ensures |frames| <= MAX_FRAMES
    {
      r := Handle(u);
      ghost var target := Capped(frames);
      while |frames| > MAX_FRAMES
        invariant Capped(frames) == target && frontier == FramerModel.Handle(old(Value()), voteRules, u).0.frontier
        invariant counts == FramerModel.Handle(old(Value()), voteRules, u).0.counts
        decreases |frames|
      {
        PopFirst();
      }
    }

    method PopFirst()
      requires |frames| > MAX_FRAMES
      modifies this`frames
      ensures Capped(frames) == Capped(old(frames)) && |frames| < |old(frames)|
    {
      assert |frames.Keys| == |frames|;
      var m := Least(frames.Keys);
      assert (frames - {m}).Keys == frames.Keys - {m};
      assert |(frames - {m}).Keys| == |frames - {m}|;
      frames := frames - {m};
    }

    method Handle(u: Update) returns (r: Option<Delivery>)
      modifies this
      ensures (Value(), r) == FramerModel.Handle(old(Value()), voteRules, u)
    {
      match u {
        case HarmonicTransaction(p) => r := Transaction(p);
        case BamTransaction(p) =>
          frames := frames[p.slot := FrameOf(Value(), p.slot).(open := true)];
          r := Transaction(p);
          Advance(p.slot);
        case SlotStart(slot) =>
          var frame := FrameOf(Value(), slot);
          if frame.ended { counts := counts.(restarts := counts.restarts + 1); }
          frames := frames[slot := frame.(open := true, ended := false)];
          r := None;
        case SlotEnd(slot) =>
          frames := frames[slot := FrameOf(Value(), slot).(open := false, ended := true)];
          Advance(slot);
          r := None;
        case Clip(n) =>
          counts := counts.(clipped := if counts.clipped + n > U64_MAX then U64_MAX else counts.clipped + n);
          r := None;
        case Ping => r := None;
        case UnknownPayload =>
          counts := counts.(unknownPayload := counts.unknownPayload + 1);
          r := None;
      }
    }

    method Advance(slot: nat)
      modifies this
      ensures Value() == FramerModel.Advance(old(Value()), slot)
    {
      if frontier.Some? && slot <= frontier.value { return; }
      frontier := Some(slot);
      frames := map k | k in frames && k >= Cutoff(slot) :: frames[k];
    }

    method NextIndex(slot: nat) returns (index: nat)
      modifies this
      ensures index == FrameOf(old(Value()), slot).next
      ensures frames == old(frames)[slot := FrameOf(old(Value()), slot).(next := index + 1)] && frontier == old(frontier)
      ensures counts == old(counts).(outOfFrame := old(counts).outOfFrame + if FrameOf(old(Value()), slot).open then 0 else 1)
    {
      var frame := FrameOf(Value(), slot);
      if !frame.open { counts := counts.(outOfFrame := counts.outOfFrame + 1); }
      index := frame.next;
      frames := frames[slot := frame.(next := frame.next + 1)];
    }

    method Transaction(p: Preconf) returns (r: Option<Delivery>)
      modifies this
      ensures (Value(), r) == FramerModel.Transaction(old(Value()), voteRules, p)
    {
      if p.success.None? {
        counts := counts.(unknownResult := counts.unknownResult + 1);
        return None;
      }
      if p.tx.None? || p.tx.value.signatures == [] {
        counts := counts.(undecodable := counts.undecodable + 1);
        return None;
      }
      var tx := p.tx.value;
      if p.filters == [] {
        counts := counts.(unknownPayload := counts.unknownPayload + 1);
        return None;
      }
      var filters := Wanted(voteRules, p.filters, tx.isVote);
      if filters == [] {
        counts := counts.(voteRuleDropped := counts.voteRuleDropped + 1);
        return None;
      }
      var index := NextIndex(p.slot);
      r := Some(Delivery(p.slot, index, filters, tx.signatures[0], tx.isVote, !p.success.value));
    }

    /** Indexes keep counting over a reconnect. */
    method Reconnected()
      modifies this
      ensures Value() == Reconnect(old(Value()))
      ensures forall k :: k in frames ==> k in old(frames) && frames[k].next == old(frames)[k].next && !frames[k].open
    {
      frames := map k | k in frames :: CloseFrame(frames[k]);
      counts := counts.(reconnects := counts.reconnects + 1);
    }
  }
}
