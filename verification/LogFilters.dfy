/** The flat splitter and the depth filter, against the same bracket structure. */
module LogFilters {
  import opened Basics
  import opened CallTree
  import opened Logs

  // ---- split_logs_by_outer_ix ----

  function Slices(logs: seq<Line>, groups: seq<Range>): (r: seq<seq<Line>>)
    requires forall k :: 0 <= k < |groups| ==> groups[k].start <= groups[k].end <= |logs|
    ensures |r| == |groups|
  {
    seq(|groups|, k requires 0 <= k < |groups| => logs[groups[k].start..groups[k].end])
  }

  /** What the splitter still has to produce from `pos`, with `depth` frames of a group open. */
  function Pending(logs: seq<Line>, pos: nat, current: seq<Line>, depth: nat): seq<seq<Line>>
    requires pos <= |logs|
  {
    if depth > 0 then [current + logs[pos..Scan(logs, pos, depth)]] + Slices(logs, Groups(logs, Scan(logs, pos, depth)))
    else (if current == [] then [] else [current]) + Slices(logs, Groups(logs, pos))
  }

  /** One line of the splitter's loop. */
  lemma PendingStep(logs: seq<Line>, pos: nat, current: seq<Line>, depth: nat)
    requires pos < |logs| && (depth > 0 ==> current != [])
    ensures var line := logs[pos];
            if depth == 0 && line.OuterInvoke() then
              Pending(logs, pos, current, depth)
              == (if current == [] then [] else [current]) + Pending(logs, pos + 1, [line], 1)
            else if depth == 0 then
              Pending(logs, pos, current, depth) == Pending(logs, pos + 1, current, 0)
            else
              Pending(logs, pos, current, depth) == Pending(logs, pos + 1, current + [line], NextDepth(line, depth))
  {
    var line := logs[pos];
    if depth == 0 && line.OuterInvoke() {
      var end := FrameEnd(logs, pos);
      assert logs[pos..end] == [line] + logs[pos + 1..end];
      assert Groups(logs, pos) == [Range(pos, end)] + Groups(logs, end);
      assert Slices(logs, Groups(logs, pos)) == [logs[pos..end]] + Slices(logs, Groups(logs, end));
    } else if depth > 0 {
      var next := NextDepth(line, depth);
      var end := Scan(logs, pos, depth);
      assert end == Scan(logs, pos + 1, next);
      assert current + logs[pos..end] == current + [line] + logs[pos + 1..end];
      if next == 0 { assert current + [line] + logs[pos + 1..end] == current + [line]; }
    }
  }

  datatype Split = Split(result: seq<seq<Line>>, current: seq<Line>, depth: nat)

  function NextDepth(line: Line, depth: nat): nat
    requires depth > 0
  {
    if line.Invoke? then depth + 1 else if line.Close? then depth - 1 else depth
  }

  /** The loop body of the splitter. */
  function SplitStep(line: Line, s: Split): Split {
    if s.depth == 0 && line.OuterInvoke() then
      Split(if s.current == [] then s.result else s.result + [s.current], [line], 1)
    else if s.depth > 0 then Split(s.result, s.current + [line], NextDepth(line, s.depth))
    else s
  }

  function Total(logs: seq<Line>, pos: nat, s: Split): seq<seq<Line>>
    requires pos <= |logs|
  {
    s.result + Pending(logs, pos, s.current, s.depth)
  }

  lemma SequenceShift(result: seq<seq<Line>>, current: seq<Line>, rest: seq<seq<Line>>)
    ensures result + ((if current == [] then [] else [current]) + rest)
            == (if current == [] then result else result + [current]) + rest
  {
  }

  lemma SplitStepKeepsTotal(logs: seq<Line>, pos: nat, s: Split)
    requires pos < |logs| && (s.depth > 0 ==> s.current != [])
    ensures Total(logs, pos + 1, SplitStep(logs[pos], s)) == Total(logs, pos, s)
  {
    PendingStep(logs, pos, s.current, s.depth);
    if s.depth == 0 && logs[pos].OuterInvoke() {
      SequenceShift(s.result, s.current, Pending(logs, pos + 1, [logs[pos]], 1));
    }
  }

  method SplitLine(line: Line, result: seq<seq<Line>>, current: seq<Line>, depth: nat)
    returns (result': seq<seq<Line>>, current': seq<Line>, depth': nat)
    ensures Split(result', current', depth') == SplitStep(line, Split(result, current, depth))
  {
    result', current', depth' := result, current, depth;
    if depth == 0 && line.OuterInvoke() {
      if current != [] {
        result' := result + [current];
        current' := [];
      }
      depth' := 1;
      current' := current' + [line];
    } else if depth > 0 {
      match line {
        case Invoke(_, _) => depth' := depth + 1;
        case Close => depth' := depth - 1;
        case Other =>
      }
      current' := current + [line];
    }
  }

  /** The splitter's entries are the lines of the outer groups, in order. */
  method SplitLogsByOuterIx(logs: seq<Line>) returns (result: seq<seq<Line>>)
    ensures result == Slices(logs, Groups(logs, 0))
  {
    result := [];
    var current: seq<Line> := [];
    var depth: nat := 0;
    ghost var goal := Total(logs, 0, Split([], [], 0));
    TotalAtStart(logs);
    for i := 0 to |logs|
      invariant depth > 0 ==> current != []
      invariant Total(logs, i, Split(result, current, depth)) == goal
    {
      SplitStepKeepsTotal(logs, i, Split(result, current, depth));
      result, current, depth := SplitLine(logs[i], result, current, depth);
    }
    TotalAtEnd(logs, Split(result, current, depth));
    if current != [] { result := result + [current]; }
  }

  lemma TotalAtStart(logs: seq<Line>)
    ensures Total(logs, 0, Split([], [], 0)) == Slices(logs, Groups(logs, 0))
  {
    var all := Slices(logs, Groups(logs, 0));
    assert [] + ([] + all) == all;
  }

  lemma TotalAtEnd(logs: seq<Line>, s: Split)
    requires s.depth > 0 ==> s.current != []
    ensures Total(logs, |logs|, s) == if s.current == [] then s.result else s.result + [s.current]
  {
    var n := |logs|;
    assert s.current + logs[n..n] == s.current;
    assert Groups(logs, n) == [] && Slices(logs, []) == [];
  }

  lemma {:induction false} BalanceOfSlice(logs: seq<Line>, a: nat, b: nat, m: nat)
    requires a <= b <= |logs| && m <= b - a
    ensures Balance(logs[a..b], 0, m) == Balance(logs, a, a + m)
    decreases m
  {
    if m > 0 { BalanceOfSlice(logs, a, b, m - 1); }
  }

  /** An outer invoke and all up to its matching close; `cut` is for a log that ends before that. */
  predicate IsWholeGroup(lines: seq<Line>, cut: bool) {
    && lines != [] && IsOuterInvoke(lines[0])
    && (forall m :: 0 < m < |lines| ==> Balance(lines, 0, m) > 0)
    && if cut then Balance(lines, 0, |lines|) >= 0 else Balance(lines, 0, |lines|) == 0
  }

  lemma GroupBalance(logs: seq<Line>, start: nat, m: nat)
    requires start < |logs| && logs[start].Invoke? && 0 < m <= FrameEnd(logs, start) - start
    ensures Balance(logs[start..FrameEnd(logs, start)], 0, m) == 1 + Balance(logs, start + 1, start + m)
  {
    BalanceOfSlice(logs, start, FrameEnd(logs, start), m);
    BalanceSplit(logs, start, start + 1, start + m);
    assert Balance(logs, start, start + 1) == Balance(logs, start, start) + 1;
  }

  lemma FrameIsWhole(logs: seq<Line>, start: nat)
    requires start < |logs| && IsOuterInvoke(logs[start])
    ensures IsWholeGroup(logs[start..FrameEnd(logs, start)], FrameEnd(logs, start) == |logs|)
  {
    var lines := logs[start..FrameEnd(logs, start)];
    ScanIsMatchingClose(logs, start + 1, 1);
    forall m | 0 < m < |lines| ensures Balance(lines, 0, m) > 0 { GroupBalance(logs, start, m); }
    GroupBalance(logs, start, |lines|);
  }

  /** Every entry is a whole group; only the last one may be cut short, where the log ends. */
  lemma EntriesAreWholeGroups(logs: seq<Line>, k: nat)
    requires k < |Groups(logs, 0)|
    ensures var groups := Groups(logs, 0);
            && InOrderFrom(logs, 0, groups) && (k < |groups| - 1 ==> groups[k].end < |logs|)
            && IsWholeGroup(Slices(logs, groups)[k], groups[k].end == |logs|)
  {
    GroupsAreOrdered(logs, 0);
    GroupsHoldOuterInvokes(logs, 0);
    FrameIsWhole(logs, Groups(logs, 0)[k].start);
    if k < |Groups(logs, 0)| - 1 { assert Groups(logs, 0)[k + 1].start < |logs|; }
  }

  // ---- direct_log_messages ----

  /** The filter's depth before line `p` of an instruction's own lines. */
  function DepthAt(lines: seq<Line>, p: nat): nat
    requires p <= |lines|
  {
    if p == 0 then 0 else
      var d := DepthAt(lines, p - 1);
      match lines[p - 1]
      case Invoke(_, _) => d + 1
      case Close => if d == 0 then 0 else d - 1
      case Other => d
  }

  predicate Kept(lines: seq<Line>, p: nat)
    requires p < |lines|
  {
    DepthAt(lines, p) == if lines[p].Invoke? then 0 else 1
  }

  function KeptLines(lines: seq<Line>, n: nat): seq<Line>
    requires n <= |lines|
  {
    if n == 0 then [] else KeptLines(lines, n - 1) + if Kept(lines, n - 1) then [lines[n - 1]] else []
  }

  method DirectLogMessages(lines: seq<Line>) returns (kept: seq<Line>)
    ensures kept == KeptLines(lines, |lines|)
  {
    kept := [];
    var depth: nat := 0;
    for p := 0 to |lines|
      invariant depth == DepthAt(lines, p) && kept == KeptLines(lines, p)
    {
      var line := lines[p];
      match line {
        case Invoke(_, _) =>
          depth := depth + 1;
          if depth == 1 { kept := kept + [line]; }
        case Close =>
          var wasOuter := depth == 1;
          depth := if depth == 0 then 0 else depth - 1;
          if wasOuter { kept := kept + [line]; }
        case Other =>
          if depth == 1 { kept := kept + [line]; }
      }
    }
  }

  predicate Inside(r: Range, p: nat) { r.start <= p < r.end }

  ghost predicate InSome(ranges: seq<Range>, p: nat) { exists k :: 0 <= k < |ranges| && Inside(ranges[k], p) }

  /** `lines` are the lines of the range `own`. */
  predicate Excerpt(logs: seq<Line>, own: Range, lines: seq<Line>) {
    own.start <= own.end <= |logs| && lines == logs[own.start..own.end]
  }

  /** Inside nested frames the filter keeps nothing, and comes out one level up. */
  lemma {:induction false} NestedIsDropped(logs: seq<Line>, own: Range, lines: seq<Line>, q: nat, d: nat, p: nat)
    requires Excerpt(logs, own, lines) && own.start < q <= own.end && d > 0
    requires DepthAt(lines, q - own.start) == d + 1 && Scan(logs, q, d) <= own.end
    ensures q <= p < Scan(logs, q, d) ==> !Kept(lines, p - own.start)
    ensures Scan(logs, q, d) < own.end ==> DepthAt(lines, Scan(logs, q, d) - own.start) == 1
    decreases own.end - q
  {
    if q < own.end {
      assert lines[q - own.start] == logs[q];
      var next := match logs[q] case Invoke(_, _) => d + 1 case Close => d - 1 case Other => d;
      assert DepthAt(lines, q + 1 - own.start) == next + 1;
      if next > 0 { NestedIsDropped(logs, own, lines, q + 1, next, p); }
    }
  }

  /** From a point at depth 1, the filter keeps exactly the lines outside the frames that follow. */
  lemma {:induction false} KeptIsOutsideFrames(logs: seq<Line>, own: Range, lines: seq<Line>, q: nat, p: nat)
    requires Excerpt(logs, own, lines) && own.start < q <= p < own.end == Scan(logs, q, 1)
    requires DepthAt(lines, q - own.start) == 1
    ensures Kept(lines, p - own.start) <==> !InSome(Frames(logs, q), p)
    decreases own.end - q
  {
    assert lines[q - own.start] == logs[q];
    if logs[q].Invoke? {
      SkipFrame(logs, own, lines, q, p);
      if p >= FrameEnd(logs, q) { KeptIsOutsideFrames(logs, own, lines, FrameEnd(logs, q), p); }
    } else {
      PlainLine(logs, own, lines, q, p);
      if p > q { KeptIsOutsideFrames(logs, own, lines, q + 1, p); }
    }
  }

  /** A line that opens nothing is kept, and leaves the depth alone unless it closes the range. */
  lemma PlainLine(logs: seq<Line>, own: Range, lines: seq<Line>, q: nat, p: nat)
    requires Excerpt(logs, own, lines) && own.start < q <= p < own.end == Scan(logs, q, 1)
    requires DepthAt(lines, q - own.start) == 1 && lines[q - own.start] == logs[q] && !logs[q].Invoke?
    ensures p == q ==> Kept(lines, p - own.start) && !InSome(Frames(logs, q), p)
    ensures p > q ==> Scan(logs, q + 1, 1) == own.end && DepthAt(lines, q + 1 - own.start) == 1
                      && Frames(logs, q) == Frames(logs, q + 1)
  {
    if logs[q].Other? { NothingBefore(logs, q + 1, q); }
  }

  /** A frame is dropped whole, and what follows it is at depth 1 again. */
  lemma SkipFrame(logs: seq<Line>, own: Range, lines: seq<Line>, q: nat, p: nat)
    requires Excerpt(logs, own, lines) && own.start < q <= p < own.end == Scan(logs, q, 1)
    requires DepthAt(lines, q - own.start) == 1 && lines[q - own.start] == logs[q] && logs[q].Invoke?
    ensures var next := FrameEnd(logs, q);
            && next <= own.end == Scan(logs, next, 1)
            && (p < next ==> !Kept(lines, p - own.start) && InSome(Frames(logs, q), p))
            && (p >= next ==> DepthAt(lines, next - own.start) == 1
                              && (InSome(Frames(logs, q), p) <==> InSome(Frames(logs, next), p)))
  {
    DepthAfterFrame(logs, own, lines, q, p);
    CoverOfFirst(logs, q, p);
  }

  lemma DepthAfterFrame(logs: seq<Line>, own: Range, lines: seq<Line>, q: nat, p: nat)
    requires Excerpt(logs, own, lines) && own.start < q <= p < own.end == Scan(logs, q, 1)
    requires DepthAt(lines, q - own.start) == 1 && lines[q - own.start] == logs[q] && logs[q].Invoke?
    ensures var next := FrameEnd(logs, q);
            && next <= own.end == Scan(logs, next, 1)
            && (p < next ==> !Kept(lines, p - own.start))
            && (p >= next ==> DepthAt(lines, next - own.start) == 1)
  {
    ScanAfterFrame(logs, q);
    assert DepthAt(lines, q + 1 - own.start) == 2;
    NestedIsDropped(logs, own, lines, q + 1, 1, p);
  }

  lemma ScanAfterFrame(logs: seq<Line>, q: nat)
    requires q < |logs| && logs[q].Invoke?
    ensures Scan(logs, FrameEnd(logs, q), 1) == Scan(logs, q, 1) && FrameEnd(logs, q) <= Scan(logs, q, 1)
  {
    ScanSplit(logs, q + 1, 1, 1);
  }

  lemma CoverOfFirst(logs: seq<Line>, q: nat, p: nat)
    requires q <= p < |logs| && logs[q].Invoke?
    ensures if p < FrameEnd(logs, q) then InSome(Frames(logs, q), p)
            else InSome(Frames(logs, q), p) <==> InSome(Frames(logs, FrameEnd(logs, q)), p)
  {
    CoverCons(Frames(logs, q), Range(q, FrameEnd(logs, q)), Frames(logs, FrameEnd(logs, q)), p);
  }

  lemma CoverCons(frames: seq<Range>, first: Range, rest: seq<Range>, p: nat)
    requires frames == [first] + rest
    ensures if Inside(first, p) then InSome(frames, p) else InSome(frames, p) <==> InSome(rest, p)
  {
    if Inside(first, p) { assert Inside(frames[0], p); }
    if k :| 0 <= k < |frames| && Inside(frames[k], p) && k > 0 { assert Inside(rest[k - 1], p); }
    if k :| 0 <= k < |rest| && Inside(rest[k], p) { assert Inside(frames[k + 1], p); }
  }

  lemma NothingBefore(logs: seq<Line>, q: nat, p: nat)
    requires p < q <= |logs|
    ensures !InSome(Frames(logs, q), p)
  {
  }

  function ChildRanges(ix: Instruction): (r: seq<Range>)
    ensures |r| == |ix.inner| && forall k :: 0 <= k < |r| ==> r[k] == ix.inner[k].logRange
  {
    seq(|ix.inner|, k requires 0 <= k < |ix.inner| => ix.inner[k].logRange)
  }

  /** Each line of the instruction's range is kept by the filter, or lies in one child's range. */
  ghost predicate Partitioned(logs: seq<Line>, ix: Instruction)
    requires ix.logRange.start <= ix.logRange.end <= |logs|
  {
    forall p :: ix.logRange.start <= p < ix.logRange.end ==>
      (Kept(logs[ix.logRange.start..ix.logRange.end], p - ix.logRange.start) <==> !InSome(ChildRanges(ix), p))
  }

  lemma KeptMeansNoFrame(logs: seq<Line>, invokePos: nat, p: nat)
    requires invokePos < |logs| && logs[invokePos].Invoke? && invokePos <= p < FrameEnd(logs, invokePos)
    ensures Kept(logs[invokePos..FrameEnd(logs, invokePos)], p - invokePos)
            <==> !InSome(Frames(logs, invokePos + 1), p)
  {
    var end := FrameEnd(logs, invokePos);
    var lines := logs[invokePos..end];
    assert lines[0] == logs[invokePos] && DepthAt(lines, 0) == 0 && DepthAt(lines, 1) == 1;
    if p > invokePos {
      KeptIsOutsideFrames(logs, Range(invokePos, end), lines, invokePos + 1, p);
    } else {
      NothingBefore(logs, invokePos + 1, p);
    }
  }

  lemma AssignedChildRange(logs: seq<Line>, invokePos: nat, ix: Instruction, k: nat)
    requires invokePos < |logs| && Unassigned(ix) && k < |ix.inner|
    ensures var frames := Frames(logs, invokePos + 1);
            ChildRanges(Assign(logs, invokePos, ix))[k] == if k < |frames| then frames[k] else Range(0, 0)
  {
    InnerTakesFrames(logs, invokePos + 1, ix.inner, k);
    FramesInside(logs, invokePos + 1);
    var frames := Frames(logs, invokePos + 1);
    if k < |frames| { assert FrameOk(logs, invokePos + 1, Scan(logs, invokePos + 1, 1), frames[k]); }
  }

  /**
   * The lines kept by the depth filter and the children's ranges partition an instruction's own
   * range exactly when it has an inner instruction for every frame directly inside it. Logs that were
   * cut before their frames closed are included.
   */
  lemma DirectLinesPartition(logs: seq<Line>, invokePos: nat, ix: Instruction)
    requires invokePos < |logs| && logs[invokePos].Invoke? && Unassigned(ix)
    ensures Partitioned(logs, Assign(logs, invokePos, ix)) <==> |Frames(logs, invokePos + 1)| <= |ix.inner|
  {
    var frames := Frames(logs, invokePos + 1);
    FramesDrop(logs, invokePos, frames);
    ChildrenTake(logs, invokePos, ix, frames);
    CoverDecides(logs, Assign(logs, invokePos, ix), frames);
  }

  /** Within `own` the filter drops exactly the lines of `frames`, which lie inside it one after another. */
  ghost predicate Drops(logs: seq<Line>, own: Range, frames: seq<Range>) {
    && own.start < own.end <= |logs| && FramesOk(logs, own.start + 1, own.end, frames)
    && forall p :: own.start <= p < own.end ==> DropTold(logs[own.start..own.end], own, frames, p)
  }

  ghost predicate DropTold(lines: seq<Line>, own: Range, frames: seq<Range>, p: nat)
    requires own.start <= p < own.start + |lines|
  {
    Kept(lines, p - own.start) <==> !InSome(frames, p)
  }

  lemma FramesDrop(logs: seq<Line>, invokePos: nat, frames: seq<Range>)
    requires invokePos < |logs| && logs[invokePos].Invoke? && frames == Frames(logs, invokePos + 1)
    ensures Drops(logs, Range(invokePos, FrameEnd(logs, invokePos)), frames)
  {
    var own := Range(invokePos, FrameEnd(logs, invokePos));
    FramesInside(logs, invokePos + 1);
    forall p | own.start <= p < own.end ensures DropTold(logs[own.start..own.end], own, frames, p) {
      KeptMeansNoFrame(logs, invokePos, p);
    }
  }

  /** `ranges` are the frames in order, as many as there are, and nothing else. */
  predicate FirstOf(ranges: seq<Range>, frames: seq<Range>) {
    forall k :: 0 <= k < |ranges| ==> ranges[k] == if k < |frames| then frames[k] else Range(0, 0)
  }

  lemma ChildrenTake(logs: seq<Line>, invokePos: nat, ix: Instruction, frames: seq<Range>)
    requires invokePos < |logs| && Unassigned(ix) && frames == Frames(logs, invokePos + 1)
    ensures FirstOf(ChildRanges(Assign(logs, invokePos, ix)), frames)
  {
    var ranges := ChildRanges(Assign(logs, invokePos, ix));
    forall k | 0 <= k < |ranges| ensures ranges[k] == if k < |frames| then frames[k] else Range(0, 0) {
      AssignedChildRange(logs, invokePos, ix, k);
    }
  }

  /** Then the lines are partitioned exactly when there is a range for every frame. */
  lemma CoverDecides(logs: seq<Line>, out: Instruction, frames: seq<Range>)
    requires Drops(logs, out.logRange, frames) && FirstOf(ChildRanges(out), frames)
    ensures Partitioned(logs, out) <==> |frames| <= |out.inner|
  {
    var own, ranges := out.logRange, ChildRanges(out);
    if |frames| <= |ranges| {
      forall p | own.start <= p < own.end
        ensures Kept(logs[own.start..own.end], p - own.start) <==> !InSome(ranges, p)
      {
        assert DropTold(logs[own.start..own.end], own, frames, p);
        SameCover(frames, ranges, p);
      }
    } else {
      var m := |ranges|;
      var p := frames[m].start;
      assert FrameOk(logs, own.start + 1, own.end, frames[m]) && Inside(frames[m], p);
      assert DropTold(logs[own.start..own.end], own, frames, p);
      forall k | 0 <= k < m ensures !Inside(ranges[k], p) {
        assert frames[k].end <= frames[m].start;
      }
      assert InSome(frames, p) && !InSome(ranges, p);
      assert !Kept(logs[own.start..own.end], p - own.start);
    }
  }

  lemma SameCover(frames: seq<Range>, ranges: seq<Range>, p: nat)
    requires |frames| <= |ranges| && FirstOf(ranges, frames)
    ensures InSome(frames, p) <==> InSome(ranges, p)
  {
    if k :| 0 <= k < |frames| && Inside(frames[k], p) { assert Inside(ranges[k], p); }
    if k :| 0 <= k < |ranges| && Inside(ranges[k], p) { assert Inside(frames[k], p); }
  }
}
