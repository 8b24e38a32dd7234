/** Attributing log lines to instructions: a recursive assigner against a bracket structure. */
module Logs {
  // A flat splitter and a depth filter follow the same structure. A line is its classification; an
  // invoke line also says whether it is an outer one and which program it names.

  import opened Basics
  import opened CallTree

  datatype Line = Invoke(outer: bool, program: Option<Pubkey>) | Close | Other
  {
    predicate OuterInvoke() { Invoke? && outer }
  }

  // ---- The bracket structure ----

  /** With `depth` frames open before `pos`, the index after the line that closes them all, or the end. */
  function Scan(logs: seq<Line>, pos: nat, depth: nat): (end: nat)
    requires pos <= |logs|
    ensures pos <= end <= |logs|
    ensures depth > 0 && pos < |logs| ==> pos < end
    decreases |logs| - pos
  {
    if depth == 0 || pos == |logs| then pos else
      match logs[pos]
      case Invoke(_, _) => Scan(logs, pos + 1, depth + 1)
      case Close => Scan(logs, pos + 1, depth - 1)
      case Other => Scan(logs, pos + 1, depth)
  }

  /** Opens minus closes in `logs[a..b]`. */
  function Balance(logs: seq<Line>, a: nat, b: nat): int
    requires a <= b <= |logs|
  {
    if a == b then 0 else
      Balance(logs, a, b - 1) + match logs[b - 1] case Invoke(_, _) => 1 case Close => -1 case Other => 0
  }

  lemma {:induction false} BalanceSplit(logs: seq<Line>, a: nat, m: nat, b: nat)
    requires a <= m <= b <= |logs|
    ensures Balance(logs, a, b) == Balance(logs, a, m) + Balance(logs, m, b)
    decreases b
  {
    if m < b { BalanceSplit(logs, a, m, b - 1); }
  }

  /**
   * `Scan` finds the matching close: the first place where closes outnumber opens by `depth`, or the
   * end of a log in which they never do.
   */
  lemma {:induction false} ScanIsMatchingClose(logs: seq<Line>, pos: nat, depth: nat)
    requires pos <= |logs|
    ensures var end := Scan(logs, pos, depth);
            && (forall m :: pos <= m < end ==> Balance(logs, pos, m) + depth > 0)
            && (Balance(logs, pos, end) + depth == 0 || (end == |logs| && Balance(logs, pos, end) + depth > 0))
    decreases |logs| - pos
  {
    if depth > 0 && pos < |logs| {
      var next := depth + match logs[pos] case Invoke(_, _) => 1 case Close => -1 case Other => 0;
      ScanIsMatchingClose(logs, pos + 1, next);
      var end := Scan(logs, pos, depth);
      assert Balance(logs, pos, pos + 1) == Balance(logs, pos, pos) + next - depth;
      forall m | pos < m <= end ensures Balance(logs, pos, m) == next - depth + Balance(logs, pos + 1, m) {
        BalanceSplit(logs, pos, pos + 1, m);
      }
    }
  }

  /** Closing `a + b` frames is closing `a`, then `b`. */
  lemma {:induction false} ScanSplit(logs: seq<Line>, pos: nat, a: nat, b: nat)
    requires pos <= |logs|
    ensures Scan(logs, pos, a + b) == Scan(logs, Scan(logs, pos, a), b)
    decreases |logs| - pos
  {
    if a > 0 && pos < |logs| {
      match logs[pos]
      case Invoke(_, _) => ScanSplit(logs, pos + 1, a + 1, b);
      case Close => ScanSplit(logs, pos + 1, a - 1, b);
      case Other => ScanSplit(logs, pos + 1, a, b);
    }
  }

  function FrameEnd(logs: seq<Line>, pos: nat): (end: nat)
    requires pos < |logs|
    ensures pos < end <= |logs|
  {
    Scan(logs, pos + 1, 1)
  }

  /** The frames directly inside a frame whose lines go on at `pos`. */
  function Frames(logs: seq<Line>, pos: nat): (r: seq<Range>)
    requires pos <= |logs|
    ensures forall k :: 0 <= k < |r| ==> pos <= r[k].start < |logs|
    decreases |logs| - pos
  {
    if pos == |logs| then [] else
      match logs[pos]
      case Invoke(_, _) => [Range(pos, FrameEnd(logs, pos))] + Frames(logs, FrameEnd(logs, pos))
      case Close => []
      case Other => Frames(logs, pos + 1)
  }

  // ---- The recursive assigner ----

  /** Children take the frames in order; a child without a frame keeps what it had. */
  function AssignInner(logs: seq<Line>, pos: nat, inner: seq<Instruction>): (r: seq<Instruction>)
    requires pos <= |logs|
    ensures |r| == |inner|
    decreases |logs| - pos, 1
  {
    if pos == |logs| || inner == [] then inner else
      match logs[pos]
      case Invoke(_, _) => [Assign(logs, pos, inner[0])] + AssignInner(logs, FrameEnd(logs, pos), inner[1..])
      case Close => inner
      case Other => AssignInner(logs, pos + 1, inner)
  }

  function Assign(logs: seq<Line>, invokePos: nat, ix: Instruction): Instruction
    requires invokePos < |logs|
    decreases |logs| - invokePos, 0
  {
    ix.(inner := AssignInner(logs, invokePos + 1, ix.inner), logRange := Range(invokePos, FrameEnd(logs, invokePos)))
  }

  /** One nested frame handed to the next child. */
  lemma InnerStep(logs: seq<Line>, pos: nat, original: seq<Instruction>, inner: seq<Instruction>, i: nat)
    requires pos < |logs| && logs[pos].Invoke? && i < |inner| == |original| && inner[i..] == original[i..]
    ensures Scan(logs, FrameEnd(logs, pos), 1) == Scan(logs, pos, 1)
    ensures var after := inner[i := Assign(logs, pos, inner[i])];
            && after[i + 1..] == original[i + 1..]
            && inner[..i] + AssignInner(logs, pos, inner[i..])
               == after[..i + 1] + AssignInner(logs, FrameEnd(logs, pos), after[i + 1..])
  {
    ScanSplit(logs, pos + 1, 1, 1);
    var after := inner[i := Assign(logs, pos, inner[i])];
    assert inner[i..][0] == inner[i] && inner[i..][1..] == inner[i + 1..] == after[i + 1..];
    assert original[i + 1..] == original[i..][1..];
    assert after[..i + 1] == inner[..i] + [after[i]];
  }

  /**
   * The cursor comes back right after the matching close, or at the end of a cut log, whatever the
   * instruction tree is; the instruction's range is its frame.
   */
  method AssignLogsRecursive(logs: seq<Line>, invokePos: nat, ix: Instruction) returns (out: Instruction, pos: nat)
    requires invokePos < |logs|
    ensures out == Assign(logs, invokePos, ix) && pos == FrameEnd(logs, invokePos)
    decreases |logs| - invokePos
  {
    var depth := 1;
    pos := invokePos + 1;
    var innerIdx := 0;
    var inner := ix.inner;
    ghost var end := FrameEnd(logs, invokePos);
    ghost var goal := AssignInner(logs, invokePos + 1, ix.inner);
    InnerStart(logs, pos, inner);
    while pos < |logs| && depth > 0
      invariant invokePos < pos <= |logs| && 0 < depth
      invariant Scan(logs, pos, depth) == end && InnerSoFar(logs, pos, depth, goal, ix.inner, inner, innerIdx)
      decreases |logs| - pos
    {
      match logs[pos] {
        case Invoke(_, _) =>
          if innerIdx < |inner| {
            NestedTaken(logs, pos, depth, goal, ix.inner, inner, innerIdx);
            var child, next := AssignLogsRecursive(logs, pos, inner[innerIdx]);
            inner := inner[innerIdx := child];
            pos, innerIdx := next, innerIdx + 1;
            continue;
          }
          NestedSkipped(logs, pos, depth, goal, ix.inner, inner);
          depth := depth + 1;
        case Close =>
          CloseStep(logs, pos, depth, goal, ix.inner, inner, innerIdx);
          depth := depth - 1;
          if depth == 0 {
            out := ix.(inner := inner, logRange := Range(invokePos, pos + 1));
            pos := pos + 1;
            return;
          }
        case Other => OtherStep(logs, pos, depth, goal, ix.inner, inner, innerIdx);
      }
      pos := pos + 1;
    }
    InnerEnds(logs, depth, goal, ix.inner, inner, innerIdx);
    out := ix.(inner := inner, logRange := Range(invokePos, pos));
  }

  /** The first `i` children are done; at depth 1 the others are still to come, deeper there are none left. */
  ghost predicate InnerSoFar(logs: seq<Line>, pos: nat, depth: nat, goal: seq<Instruction>, original: seq<Instruction>,
                             inner: seq<Instruction>, i: nat)
    requires pos <= |logs|
  {
    && i <= |inner| == |original| && inner[i..] == original[i..]
    && if depth == 1 then goal == inner[..i] + AssignInner(logs, pos, inner[i..]) else i == |inner| && goal == inner
  }

  lemma InnerStart(logs: seq<Line>, pos: nat, inner: seq<Instruction>)
    requires pos <= |logs|
    ensures InnerSoFar(logs, pos, 1, AssignInner(logs, pos, inner), inner, inner, 0)
  {
    var goal := AssignInner(logs, pos, inner);
    assert inner[0..] == inner && inner[..0] + goal == goal;
  }

  lemma InnerEnds(logs: seq<Line>, depth: nat, goal: seq<Instruction>, original: seq<Instruction>, inner: seq<Instruction>, i: nat)
    requires InnerSoFar(logs, |logs|, depth, goal, original, inner, i)
    ensures goal == inner
  {
    assert inner == inner[..i] + inner[i..];
  }

  /** A nested frame goes to the next child, if one is left. */
  lemma NestedTaken(logs: seq<Line>, pos: nat, depth: nat, goal: seq<Instruction>, original: seq<Instruction>,
                    inner: seq<Instruction>, i: nat)
    requires pos < |logs| && InnerSoFar(logs, pos, depth, goal, original, inner, i) && logs[pos].Invoke? && i < |inner|
    ensures depth == 1 && Scan(logs, FrameEnd(logs, pos), 1) == Scan(logs, pos, 1)
    ensures InnerSoFar(logs, FrameEnd(logs, pos), 1, goal, original, inner[i := Assign(logs, pos, inner[i])], i + 1)
  {
    InnerStep(logs, pos, original, inner, i);
  }

  lemma NestedSkipped(logs: seq<Line>, pos: nat, depth: nat, goal: seq<Instruction>, original: seq<Instruction>,
                      inner: seq<Instruction>)
    requires pos < |logs| && depth > 0 && InnerSoFar(logs, pos, depth, goal, original, inner, |inner|) && logs[pos].Invoke?
    ensures InnerSoFar(logs, pos + 1, depth + 1, goal, original, inner, |inner|)
  {
    assert inner[|inner|..] == [] && inner[..|inner|] == inner;
  }

  lemma CloseStep(logs: seq<Line>, pos: nat, depth: nat, goal: seq<Instruction>, original: seq<Instruction>,
                  inner: seq<Instruction>, i: nat)
    requires pos < |logs| && depth > 0 && InnerSoFar(logs, pos, depth, goal, original, inner, i) && logs[pos].Close?
    ensures if depth == 1 then goal == inner else InnerSoFar(logs, pos + 1, depth - 1, goal, original, inner, i)
  {
    assert inner == inner[..i] + inner[i..];
    assert i == |inner| ==> inner[i..] == [];
  }

  lemma OtherStep(logs: seq<Line>, pos: nat, depth: nat, goal: seq<Instruction>, original: seq<Instruction>,
                  inner: seq<Instruction>, i: nat)
    requires pos < |logs| && InnerSoFar(logs, pos, depth, goal, original, inner, i) && logs[pos].Other?
    ensures InnerSoFar(logs, pos + 1, depth, goal, original, inner, i)
  {
    assert i == |inner| ==> inner[i..] == [];
  }

  // ---- Ranges form a laminar family ----

  /** The `k`-th child of an assigned instruction has the `k`-th frame, if there is one. */
  lemma {:induction false} InnerTakesFrames(logs: seq<Line>, pos: nat, inner: seq<Instruction>, k: nat)
    requires pos <= |logs| && k < |inner|
    ensures var frames := Frames(logs, pos);
            AssignInner(logs, pos, inner)[k] == if k < |frames| then Assign(logs, frames[k].start, inner[k]) else inner[k]
    decreases |logs| - pos
  {
    if pos < |logs| {
      match logs[pos]
      case Invoke(_, _) => if k > 0 { InnerTakesFrames(logs, FrameEnd(logs, pos), inner[1..], k - 1); }
      case Close =>
      case Other => InnerTakesFrames(logs, pos + 1, inner, k);
    }
  }

  predicate FramesOk(logs: seq<Line>, pos: nat, end: nat, frames: seq<Range>) {
    && (forall k :: 0 <= k < |frames| ==> FrameOk(logs, pos, end, frames[k]))
    && (forall j, k :: 0 <= j < k < |frames| ==> frames[j].end <= frames[k].start)
  }

  predicate FrameOk(logs: seq<Line>, pos: nat, end: nat, f: Range) {
    pos <= f.start < f.end <= end <= |logs| && f.end == FrameEnd(logs, f.start) && logs[f.start].Invoke?
  }

  /** Frames are nested in the frame they belong to, ordered and disjoint. */
  lemma {:induction false} FramesInside(logs: seq<Line>, pos: nat)
    requires pos <= |logs|
    ensures FramesOk(logs, pos, Scan(logs, pos, 1), Frames(logs, pos))
    decreases |logs| - pos
  {
    if pos < |logs| {
      if logs[pos].Invoke? {
        ScanSplit(logs, pos + 1, 1, 1);
        FramesInside(logs, FrameEnd(logs, pos));
        FramesCons(logs, pos, FrameEnd(logs, pos), Scan(logs, pos, 1), Frames(logs, FrameEnd(logs, pos)));
      } else if logs[pos].Other? {
        FramesInside(logs, pos + 1);
        var frames, end := Frames(logs, pos), Scan(logs, pos, 1);
        forall k | 0 <= k < |frames| ensures FrameOk(logs, pos, end, frames[k]) {
          assert FrameOk(logs, pos + 1, end, frames[k]);
        }
      }
    }
  }

  lemma FramesCons(logs: seq<Line>, pos: nat, next: nat, end: nat, rest: seq<Range>)
    requires pos < |logs| && logs[pos].Invoke? && next == FrameEnd(logs, pos) <= end <= |logs| && FramesOk(logs, next, end, rest)
    ensures FramesOk(logs, pos, end, [Range(pos, next)] + rest)
  {
    var frames := [Range(pos, next)] + rest;
    forall k | 0 <= k < |frames| ensures FrameOk(logs, pos, end, frames[k]) && (k > 0 ==> next <= frames[k].start) {
      if k > 0 { assert FrameOk(logs, next, end, rest[k - 1]); }
    }
  }

  /** `m` children have ranges, in order inside the parent's, and so on below; the rest have none. */
  predicate Laminar(ix: Instruction) {
    && ix.logRange.start < ix.logRange.end
    && exists m :: 0 <= m <= |ix.inner| && LaminarUpTo(ix, m)
  }

  predicate LaminarUpTo(ix: Instruction, m: nat)
    requires m <= |ix.inner|
    decreases ix, 0
  {
    && (forall k :: 0 <= k < m ==>
          ix.logRange.start < ix.inner[k].logRange.start && ix.inner[k].logRange.end <= ix.logRange.end
          && Laminar(ix.inner[k]))
    && (forall j, k :: 0 <= j < k < m ==> ix.inner[j].logRange.end <= ix.inner[k].logRange.start)
    && (forall k :: m <= k < |ix.inner| ==> Unassigned(ix.inner[k]))
  }

  predicate Unassigned(ix: Instruction) {
    ix.logRange == Range(0, 0) && forall k :: 0 <= k < |ix.inner| ==> Unassigned(ix.inner[k])
  }

  lemma {:induction false} AssignedIsLaminar(logs: seq<Line>, invokePos: nat, ix: Instruction)
    requires invokePos < |logs| && Unassigned(ix)
    ensures Laminar(Assign(logs, invokePos, ix))
    decreases |logs| - invokePos
  {
    var out := Assign(logs, invokePos, ix);
    var frames := Frames(logs, invokePos + 1);
    var m := if |frames| < |ix.inner| then |frames| else |ix.inner|;
    FramesInside(logs, invokePos + 1);
    forall k | 0 <= k < |ix.inner|
      ensures out.inner[k] == if k < m then Assign(logs, frames[k].start, ix.inner[k]) else ix.inner[k]
    {
      InnerTakesFrames(logs, invokePos + 1, ix.inner, k);
    }
    var end := FrameEnd(logs, invokePos);
    forall k | 0 <= k < m
      ensures Laminar(out.inner[k]) && out.inner[k].logRange == frames[k] && FrameOk(logs, invokePos + 1, end, frames[k])
    {
      AssignedIsLaminar(logs, frames[k].start, ix.inner[k]);
      assert FrameOk(logs, invokePos + 1, end, frames[k]);
    }
    forall j, k | 0 <= j < k < m ensures out.inner[j].logRange.end <= out.inner[k].logRange.start {
      assert frames[j].end <= frames[k].start;
    }
    assert LaminarUpTo(out, m);
  }

  // ---- Outer instructions and the flat splitter ----

  function FindOuter(logs: seq<Line>, cursor: nat): (pos: nat)
    requires cursor <= |logs|
    ensures cursor <= pos <= |logs|
    ensures pos < |logs| ==> logs[pos].OuterInvoke()
    decreases |logs| - cursor
  {
    if cursor == |logs| || logs[cursor].OuterInvoke() then cursor else FindOuter(logs, cursor + 1)
  }

  predicate AtInvokes(logs: seq<Line>, groups: seq<Range>) {
    forall k :: 0 <= k < |groups| ==>
      groups[k].start < |logs| && logs[groups[k].start].OuterInvoke() && groups[k].end == FrameEnd(logs, groups[k].start)
  }

  /** The outer groups: from each outer invoke outside the previous group to its matching close. */
  function Groups(logs: seq<Line>, cursor: nat): (r: seq<Range>)
    requires cursor <= |logs|
    ensures AtInvokes(logs, r)
    decreases |logs| - cursor
  {
    var pos := FindOuter(logs, cursor);
    if pos == |logs| then [] else [Range(pos, FrameEnd(logs, pos))] + Groups(logs, FrameEnd(logs, pos))
  }

  function AssignOuter(logs: seq<Line>, cursor: nat, outer: seq<Instruction>): (r: seq<Instruction>)
    requires cursor <= |logs|
    ensures |r| == |outer|
    decreases |outer|
  {
    if outer == [] then [] else
      var pos := FindOuter(logs, cursor);
      if pos == |logs| then outer
      else if logs[pos].program != Some(outer[0].program) then [outer[0]] + AssignOuter(logs, cursor, outer[1..])
      else [Assign(logs, pos, outer[0])] + AssignOuter(logs, FrameEnd(logs, pos), outer[1..])
  }

  method FindFrom(logs: seq<Line>, cursor: nat) returns (pos: nat)
    requires cursor <= |logs|
    ensures pos == FindOuter(logs, cursor)
  {
    pos := cursor;
    while pos < |logs| && !logs[pos].OuterInvoke()
      invariant cursor <= pos <= |logs| && FindOuter(logs, pos) == FindOuter(logs, cursor)
    {
      pos := pos + 1;
    }
  }

  lemma AssignOuterStep(logs: seq<Line>, cursor: nat, outer: seq<Instruction>, i: nat, out: seq<Instruction>)
    requires cursor <= |logs| && i < |outer| == |out| && out[i..] == outer[i..]
    ensures var whole := out[..i] + AssignOuter(logs, cursor, outer[i..]); var pos := FindOuter(logs, cursor);
            && out[i] == outer[i]
            && if pos == |logs| then whole == out
               else if logs[pos].program != Some(out[i].program)
                 then whole == out[..i + 1] + AssignOuter(logs, cursor, outer[i + 1..])
               else var ix := Assign(logs, pos, out[i]);
                 whole == out[i := ix][..i + 1] + AssignOuter(logs, FrameEnd(logs, pos), outer[i + 1..])
  {
    assert out[i] == out[i..][0] == outer[i..][0] == outer[i];
    assert outer[i..][1..] == outer[i + 1..];
    assert out == out[..i] + out[i..];
    var pos := FindOuter(logs, cursor);
    if pos < |logs| {
      var ix := Assign(logs, pos, out[i]);
      assert out[i := ix][..i + 1] == out[..i] + [ix];
      assert out[..i + 1] == out[..i] + [out[i]];
    }
  }

  method AssignLogMessages(logs: seq<Line>, outer: seq<Instruction>) returns (out: seq<Instruction>)
    ensures out == AssignOuter(logs, 0, outer)
  {
    out := outer;
    if logs == [] || outer == [] { return; }
    var cursor: nat := 0;
    var i := 0;
    while i < |outer|
      invariant 0 <= i <= |outer| == |out| && cursor <= |logs| && out[i..] == outer[i..]
      invariant AssignOuter(logs, 0, outer) == out[..i] + AssignOuter(logs, cursor, outer[i..])
    {
      AssignOuterStep(logs, cursor, outer, i, out);
      var pos := FindFrom(logs, cursor);
      if pos == |logs| { return; }
      if logs[pos].program == Some(out[i].program) {
        var ix, next := AssignLogsRecursive(logs, pos, out[i]);
        ghost var before := out;
        out := out[i := ix];
        cursor := next;
        assert out[i + 1..] == before[i + 1..];
      }
      i := i + 1;
    }
  }

  /** The group programs match the outer programs greedily: each outer takes the next group if it can. */
  function Matched(logs: seq<Line>, groups: seq<Range>, outer: seq<Instruction>): (m: nat)
    requires AtInvokes(logs, groups)
    ensures m <= |groups| && m <= |outer|
    decreases |outer|
  {
    if groups == [] || outer == [] then 0
    else if logs[groups[0].start].program == Some(outer[0].program) then 1 + Matched(logs, groups[1..], outer[1..])
    else Matched(logs, groups, outer[1..])
  }

  /** Whether outer instruction `i` takes the group after those its predecessors took. */
  predicate Takes(logs: seq<Line>, groups: seq<Range>, outer: seq<Instruction>, i: nat)
    requires AtInvokes(logs, groups) && i < |outer|
  {
    var m := Matched(logs, groups, outer[..i]);
    m < |groups| && logs[groups[m].start].program == Some(outer[i].program)
  }

  predicate TakesNext(logs: seq<Line>, groups: seq<Range>, outer: seq<Instruction>, out: seq<Instruction>, i: nat)
    requires AtInvokes(logs, groups) && i < |outer| == |out|
  {
    var m := Matched(logs, groups, outer[..i]);
    if Takes(logs, groups, outer, i) then
      && out[i] == Assign(logs, groups[m].start, outer[i]) && out[i].logRange == groups[m]
      && Matched(logs, groups, outer[..i + 1]) == m + 1
    else out[i] == outer[i] && Matched(logs, groups, outer[..i + 1]) == m
  }

  lemma MatchedCons(logs: seq<Line>, groups: seq<Range>, outer: seq<Instruction>, i: nat)
    requires AtInvokes(logs, groups) && groups != [] && 0 < i <= |outer|
    ensures Matched(logs, groups, outer[..i]) ==
            if logs[groups[0].start].program == Some(outer[0].program)
            then 1 + Matched(logs, groups[1..], outer[1..][..i - 1]) else Matched(logs, groups, outer[1..][..i - 1])
  {
    assert outer[..i][1..] == outer[1..][..i - 1];
  }

  lemma TakesNextCons(logs: seq<Line>, groups: seq<Range>, rest: seq<Range>, outer: seq<Instruction>,
                      out: seq<Instruction>, i: nat)
    requires AtInvokes(logs, groups) && AtInvokes(logs, rest) && groups != [] && 0 < i < |outer| == |out|
    requires rest == if logs[groups[0].start].program == Some(outer[0].program) then groups[1..] else groups
    requires TakesNext(logs, rest, outer[1..], out[1..], i - 1)
    ensures TakesNext(logs, groups, outer, out, i)
  {
    MatchedCons(logs, groups, outer, i);
    MatchedCons(logs, groups, outer, i + 1);
    assert out[1..][i - 1] == out[i] && outer[1..][i - 1] == outer[i];
    var m := Matched(logs, rest, outer[1..][..i - 1]);
    if rest == groups[1..] { assert m < |rest| ==> rest[m] == groups[m + 1]; }
  }

  /**
   * Assigned outer ranges are exactly the first groups, in order: an outer instruction takes the
   * next group when it names that group's program, and otherwise stays as it was.
   */
  lemma {:induction false} OuterTakesNextGroup(logs: seq<Line>, cursor: nat, outer: seq<Instruction>, i: nat)
    requires cursor <= |logs| && i < |outer|
    ensures TakesNext(logs, Groups(logs, cursor), outer, AssignOuter(logs, cursor, outer), i)
    decreases |outer|
  {
    var groups, out := Groups(logs, cursor), AssignOuter(logs, cursor, outer);
    if groups == [] { return; }
    if i == 0 {
      assert outer[..0] == [] && outer[..1] == [outer[0]];
      return;
    }
    var pos := FindOuter(logs, cursor);
    if logs[pos].program != Some(outer[0].program) {
      OuterTakesNextGroup(logs, cursor, outer[1..], i - 1);
      TakesNextCons(logs, groups, groups, outer, out, i);
    } else {
      OuterTakesNextGroup(logs, FrameEnd(logs, pos), outer[1..], i - 1);
      TakesNextCons(logs, groups, Groups(logs, FrameEnd(logs, pos)), outer, out, i);
    }
  }

  /** Groups are disjoint and in log order. */
  predicate InOrderFrom(logs: seq<Line>, cursor: nat, groups: seq<Range>) {
    && (forall k :: 0 <= k < |groups| ==> cursor <= groups[k].start < groups[k].end <= |logs|)
    && (forall j, k :: 0 <= j < k < |groups| ==> groups[j].end <= groups[k].start)
  }

  lemma {:induction false} GroupsAreOrdered(logs: seq<Line>, cursor: nat)
    requires cursor <= |logs|
    ensures InOrderFrom(logs, cursor, Groups(logs, cursor))
    decreases |logs| - cursor
  {
    var pos := FindOuter(logs, cursor);
    if pos < |logs| { GroupsAreOrdered(logs, FrameEnd(logs, pos)); }
  }

  predicate IsOuterInvoke(line: Line) { line.Invoke? && line.outer }

  predicate InGroup(group: Range, p: nat) { group.start <= p < group.end }

  /** Groups start at outer invokes, and every outer invoke from the cursor on lies in one. */
  lemma {:induction false} GroupsHoldOuterInvokes(logs: seq<Line>, cursor: nat)
    requires cursor <= |logs|
    ensures forall k :: 0 <= k < |Groups(logs, cursor)| ==> IsOuterInvoke(logs[Groups(logs, cursor)[k].start])
    ensures forall p :: cursor <= p < |logs| && IsOuterInvoke(logs[p]) ==>
              exists k :: 0 <= k < |Groups(logs, cursor)| && InGroup(Groups(logs, cursor)[k], p)
    decreases |logs| - cursor
  {
    var pos, groups := FindOuter(logs, cursor), Groups(logs, cursor);
    OnlyOthersBefore(logs, cursor);
    if pos < |logs| {
      var rest := Groups(logs, FrameEnd(logs, pos));
      GroupsHoldOuterInvokes(logs, FrameEnd(logs, pos));
      forall p | cursor <= p < |logs| && IsOuterInvoke(logs[p]) ensures exists k :: 0 <= k < |groups| && InGroup(groups[k], p) {
        if p < FrameEnd(logs, pos) {
          assert InGroup(groups[0], p);
        } else {
          var k :| 0 <= k < |rest| && InGroup(rest[k], p);
          assert groups[k + 1] == rest[k];
        }
      }
    }
  }

  lemma {:induction false} OnlyOthersBefore(logs: seq<Line>, cursor: nat)
    requires cursor <= |logs|
    ensures forall p :: cursor <= p < FindOuter(logs, cursor) ==> !IsOuterInvoke(logs[p])
    decreases |logs| - cursor
  {
    if cursor < |logs| && !logs[cursor].OuterInvoke() { OnlyOthersBefore(logs, cursor + 1); }
  }

  lemma {:induction false} MatchedGrows(logs: seq<Line>, outer: seq<Instruction>, i: nat, j: nat)
    requires i <= j <= |outer|
    ensures Matched(logs, Groups(logs, 0), outer[..i]) <= Matched(logs, Groups(logs, 0), outer[..j])
    decreases j
  {
    if i < j {
      MatchedGrows(logs, outer, i, j - 1);
      OuterTakesNextGroup(logs, 0, outer, j - 1);
    }
  }

  /** So the ranges that outer instructions take are disjoint and in log order, too. */
  lemma OuterRangesAreOrdered(logs: seq<Line>, outer: seq<Instruction>, i: nat, j: nat)
    requires i < j < |outer| && Takes(logs, Groups(logs, 0), outer, i) && Takes(logs, Groups(logs, 0), outer, j)
    ensures var out := AssignOuter(logs, 0, outer);
            out[i].logRange.start < out[i].logRange.end <= out[j].logRange.start < out[j].logRange.end <= |logs|
  {
    OuterTakesNextGroup(logs, 0, outer, i);
    OuterTakesNextGroup(logs, 0, outer, j);
    MatchedGrows(logs, outer, i + 1, j);
    GroupsAreOrdered(logs, 0);
  }

  /** Some choice of outer instructions, in order, names the group programs. */
  ghost predicate Embeds(logs: seq<Line>, groups: seq<Range>, outer: seq<Instruction>, at: seq<nat>) {
    |at| == |groups| && StrictlyAscending(at) && forall k :: 0 <= k < |at| ==> EmbedsAt(logs, groups, outer, at, k)
  }

  predicate EmbedsAt(logs: seq<Line>, groups: seq<Range>, outer: seq<Instruction>, at: seq<nat>, k: nat)
    requires k < |at| == |groups|
  {
    && at[k] < |outer| && groups[k].start < |logs| && logs[groups[k].start].OuterInvoke()
    && logs[groups[k].start].program == Some(outer[at[k]].program)
  }

  lemma {:induction false} EmbeddingIsMatched(logs: seq<Line>, groups: seq<Range>, outer: seq<Instruction>, at: seq<nat>)
    requires AtInvokes(logs, groups)
    requires Embeds(logs, groups, outer, at)
    ensures Matched(logs, groups, outer) == |groups|
    decreases |outer|
  {
    if groups == [] { return; }
    assert EmbedsAt(logs, groups, outer, at, 0);
    if logs[groups[0].start].program == Some(outer[0].program) {
      var rest := seq(|at| - 1, k requires 0 <= k < |at| - 1 => at[k + 1] - 1);
      forall k | 0 <= k < |rest| ensures EmbedsAt(logs, groups[1..], outer[1..], rest, k) {
        assert EmbedsAt(logs, groups, outer, at, k + 1);
      }
      EmbeddingIsMatched(logs, groups[1..], outer[1..], rest);
    } else {
      assert EmbedsAt(logs, groups, outer, at, 0);
      var rest := seq(|at|, k requires 0 <= k < |at| => at[k] - 1);
      forall k | 0 <= k < |rest| ensures EmbedsAt(logs, groups, outer[1..], rest, k) {
        assert EmbedsAt(logs, groups, outer, at, k);
      }
      EmbeddingIsMatched(logs, groups, outer[1..], rest);
    }
  }

  lemma {:induction false} MatchedIsEmbedding(logs: seq<Line>, groups: seq<Range>, outer: seq<Instruction>) returns (at: seq<nat>)
    requires AtInvokes(logs, groups)
    requires Matched(logs, groups, outer) == |groups|
    ensures Embeds(logs, groups, outer, at)
    decreases |outer|
  {
    if groups == [] { return []; }
    if logs[groups[0].start].program == Some(outer[0].program) {
      var rest := MatchedIsEmbedding(logs, groups[1..], outer[1..]);
      at := [0] + seq(|rest|, k requires 0 <= k < |rest| => rest[k] + 1);
      forall k | 0 <= k < |at| ensures EmbedsAt(logs, groups, outer, at, k) {
        if k > 0 { assert EmbedsAt(logs, groups[1..], outer[1..], rest, k - 1); }
      }
    } else {
      var rest := MatchedIsEmbedding(logs, groups, outer[1..]);
      at := seq(|rest|, k requires 0 <= k < |rest| => rest[k] + 1);
      forall k | 0 <= k < |at| ensures EmbedsAt(logs, groups, outer, at, k) {
        assert EmbedsAt(logs, groups, outer[1..], rest, k);
      }
    }
  }

  /**
   * Every group finds its instruction exactly when the group programs are a subsequence of the outer
   * programs: taking the first instruction that fits never loses a match.
   */
  lemma AllGroupsAssignedIffSubsequence(logs: seq<Line>, outer: seq<Instruction>)
    ensures Matched(logs, Groups(logs, 0), outer) == |Groups(logs, 0)|
            <==> exists at :: Embeds(logs, Groups(logs, 0), outer, at)
  {
    if Matched(logs, Groups(logs, 0), outer) == |Groups(logs, 0)| {
      var at := MatchedIsEmbedding(logs, Groups(logs, 0), outer);
    } else if at :| Embeds(logs, Groups(logs, 0), outer, at) {
      EmbeddingIsMatched(logs, Groups(logs, 0), outer, at);
    }
  }
}
