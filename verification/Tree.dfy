/** From flat inner-instruction lists to the call tree and back. */
module CallTree {
  // The nesting loop, the path derivation, and the traversal that recovers the flat order.

  import opened Basics

  type Pubkey = nat

  type Height = Option<nat>

  datatype Range = Range(start: nat, end: nat)

  /** An instruction of the tree. `payload` stands for its data and accounts. */
  datatype Instruction = Instruction(program: Pubkey, payload: nat, path: seq<nat>, inner: seq<Instruction>,
                                     logRange: Range)

  /** One entry of a flat inner-instruction list. */
  datatype Flat = Flat(program: Pubkey, payload: nat, height: Height)

  /** An instruction on its way into the tree, still carrying its stack height. */
  datatype Item = Item(ix: Instruction, height: Height)

  // ---- Path derivation ----

  function Bump(stack: seq<nat>): seq<nat> {
    if stack == [] then [] else stack[..|stack| - 1] + [stack[|stack| - 1] + 1]
  }

  function Truncate(stack: seq<nat>, len: nat): seq<nat> { if len < |stack| then stack[..len] else stack }

  /** The path stack after one more instruction. A missing height counts as the same level. */
  function NextStack(stack: seq<nat>, prev: Height, cur: Height): seq<nat> {
    if prev.None? || cur.None? then Bump(stack)
    else if cur.value > prev.value then stack + [0]
    else if cur.value == prev.value then Bump(stack)
    else Bump(Truncate(stack, cur.value))
  }

  function PathAt(outer: nat, heights: seq<Height>, i: nat): seq<nat>
    requires i < |heights|
  {
    if i == 0 then [outer, 0] else NextStack(PathAt(outer, heights, i - 1), heights[i - 1], heights[i])
  }

  method AdvanceStack(stack: seq<nat>, prev: Height, current: Height) returns (next: seq<nat>)
    ensures next == NextStack(stack, prev, current)
  {
    next := stack;
    if current.None? || prev.None? {
      next := Bump(next);
    } else if current.value > prev.value {
      next := next + [0];
    } else if current.value == prev.value {
      next := Bump(next);
    } else {
      next := Truncate(next, current.value);
      next := Bump(next);
    }
  }

  method DerivePathsFromStackHeights(heights: seq<Height>, outer: nat) returns (paths: seq<seq<nat>>)
    ensures |paths| == |heights|
    ensures forall i {:trigger paths[i]} :: 0 <= i < |heights| ==> paths[i] == PathAt(outer, heights, i)
  {
    if heights == [] { return []; }
    var stack := [outer, 0];
    paths := [stack];
    for i := 1 to |heights|
      invariant |paths| == i && stack == PathAt(outer, heights, i - 1)
      invariant forall j {:trigger paths[j]} :: 0 <= j < i ==> paths[j] == PathAt(outer, heights, j)
    {
      stack := AdvanceStack(stack, heights[i - 1], heights[i]);
      paths := paths + [stack];
    }
  }

  /** A return to height 0, which empties the path stack. */
  predicate DropsToZero(heights: seq<Height>, i: nat)
    requires 0 < i < |heights|
  {
    heights[i] == Some(0) && heights[i - 1].Some? && heights[i - 1].value > 0
  }

  lemma BumpIncreases(stack: seq<nat>, len: nat)
    requires stack != [] && len > 0
    ensures Bump(Truncate(stack, len)) != [] && LexLess(stack, Bump(Truncate(stack, len)))
  {
    var t := Truncate(stack, len);
    var n := |t| - 1;
    LexFirstDifference(t[..n], stack[n..], [t[n] + 1]);
    assert t[..n] + stack[n..] == stack;
  }

  lemma {:induction false} NextStackIncreases(outer: nat, heights: seq<Height>, i: nat)
    requires i < |heights|
    requires forall k :: 0 < k < |heights| ==> !DropsToZero(heights, k)
    ensures PathAt(outer, heights, i) != []
    ensures i > 0 ==> LexLess(PathAt(outer, heights, i - 1), PathAt(outer, heights, i))
  {
    if i > 0 {
      NextStackIncreases(outer, heights, i - 1);
      var stack := PathAt(outer, heights, i - 1);
      assert !DropsToZero(heights, i);
      assert Truncate(stack, |stack|) == stack;
      BumpIncreases(stack, |stack|);
      LexPrefixExtends(stack, [0]);
      if heights[i].Some? && heights[i].value > 0 { BumpIncreases(stack, heights[i].value); }
    }
  }

  lemma {:induction false} PathsIncrease(outer: nat, heights: seq<Height>, i: nat, j: nat)
    requires i < j < |heights|
    requires forall k :: 0 < k < |heights| ==> !DropsToZero(heights, k)
    ensures LexLess(PathAt(outer, heights, i), PathAt(outer, heights, j))
  {
    NextStackIncreases(outer, heights, j);
    if i < j - 1 {
      PathsIncrease(outer, heights, i, j - 1);
      LexTransitive(PathAt(outer, heights, i), PathAt(outer, heights, j - 1), PathAt(outer, heights, j));
    }
  }

  predicate PathsAscend(outer: nat, heights: seq<Height>) {
    forall i, j :: 0 <= i < j < |heights| ==> LexLess(PathAt(outer, heights, i), PathAt(outer, heights, j))
  }

  lemma DropBreaksOrder(outer: nat, heights: seq<Height>, k: nat)
    requires 0 < k < |heights| && DropsToZero(heights, k)
    ensures !LexLess(PathAt(outer, heights, k - 1), PathAt(outer, heights, k))
  {
    assert PathAt(outer, heights, k) == [];
  }

  /**
   * The derived paths are strictly increasing, hence distinct, exactly when no instruction returns
   * to height 0. Any other heights will do, missing ones and jumps included.
   */
  lemma PathsAscendIffNoDropToZero(outer: nat, heights: seq<Height>)
    ensures PathsAscend(outer, heights) <==> forall k :: 0 < k < |heights| ==> !DropsToZero(heights, k)
  {
    if forall k :: 0 < k < |heights| ==> !DropsToZero(heights, k) {
      forall i, j | 0 <= i < j < |heights| { PathsIncrease(outer, heights, i, j); }
    } else {
      var k :| 0 < k < |heights| && DropsToZero(heights, k);
      DropBreaksOrder(outer, heights, k);
    }
  }

  // ---- Nesting ----

  /** How many leading items are deeper than `height`. */
  function Deeper(items: seq<Item>, height: nat): (k: nat)
    ensures k <= |items|
    ensures forall i :: 0 <= i < k ==> items[i].height.Some? && items[i].height.value > height
    ensures k < |items| ==> !(items[k].height.Some? && items[k].height.value > height)
  {
    if items != [] && items[0].height.Some? && items[0].height.value > height
    then 1 + Deeper(items[1..], height) else 0
  }

  function Nodes(items: seq<Item>): (r: seq<Instruction>)
    ensures |r| == |items|
    ensures forall i :: 0 <= i < |items| ==> r[i] == items[i].ix
  {
    seq(|items|, i requires 0 <= i < |items| => items[i].ix)
  }

  /** `parent` takes the deeper items right behind it as its children, in order. */
  function Adopt(parent: Item, rest: seq<Item>): seq<Item> {
    if parent.height.None? then [parent] + rest else
      var k := Deeper(rest, parent.height.value);
      [parent.(ix := parent.ix.(inner := parent.ix.inner + Nodes(rest[..k])))] + rest[k..]
  }

  function Nest(items: seq<Item>): seq<Item> {
    if items == [] then [] else Adopt(items[0], Nest(items[1..]))
  }

  lemma NodesAppend(items: seq<Item>, k: nat)
    requires k < |items|
    ensures Nodes(items[..k + 1]) == Nodes(items[..k]) + [items[k].ix]
  {
  }

  function WithChild(p: Item, child: Item): Item { p.(ix := p.ix.(inner := p.ix.inner + [child.ix])) }

  /** `parent` after it has taken the first `k` of `rest`. */
  function Taking(parent: Item, rest: seq<Item>, k: nat): Item
    requires k <= |rest|
  {
    parent.(ix := parent.ix.(inner := parent.ix.inner + Nodes(rest[..k])))
  }

  lemma TakeOne(before: seq<Item>, parent: Item, rest: seq<Item>, k: nat, inner: seq<Item>)
    requires k < |rest| && inner == before + [Taking(parent, rest, k)] + rest[k..]
    ensures inner[|before| + 1] == rest[k] && inner[|before|] == Taking(parent, rest, k)
    ensures inner[..|before| + 1] + inner[|before| + 2..] == before + [Taking(parent, rest, k)] + rest[k + 1..]
    ensures WithChild(Taking(parent, rest, k), rest[k]) == Taking(parent, rest, k + 1)
  {
    NodesAppend(rest, k);
    assert parent.ix.inner + Nodes(rest[..k]) + [rest[k].ix] == parent.ix.inner + (Nodes(rest[..k]) + [rest[k].ix]);
  }

  /** The inner loop: remove the deeper items behind a parent and push them onto it. */
  method TakeChildren(list: seq<Item>, parentIdx: nat, height: nat) returns (inner: seq<Item>)
    requires parentIdx < |list| && list[parentIdx].height == Some(height)
    ensures inner == list[..parentIdx] + Adopt(list[parentIdx], list[parentIdx + 1..])
  {
    inner := list;
    ghost var before, parent, rest := list[..parentIdx], list[parentIdx], list[parentIdx + 1..];
    assert Taking(parent, rest, 0) == parent by { assert parent.ix.inner + [] == parent.ix.inner; }
    assert inner == before + [parent] + rest;
    var i := parentIdx + 1;
    ghost var k := 0;
    while i < |inner| && inner[i].height.Some? && inner[i].height.value > height
      invariant TakenSoFar(before, parent, rest, height, k, inner)
      decreases |rest| - k
    {
      TakenAt(before, parent, rest, height, k, inner);
      TakenOneMore(before, parent, rest, height, k, inner, parentIdx, i);
      var child := inner[i];
      inner := inner[..i] + inner[i + 1..];
      inner := inner[parentIdx := WithChild(inner[parentIdx], child)];
      k := k + 1;
    }
    TakenAt(before, parent, rest, height, k, inner);
    DeeperIs(rest, height, k);
  }

  /** The parent has taken the first `k` of `rest`, all of them deeper. */
  ghost predicate TakenSoFar(before: seq<Item>, parent: Item, rest: seq<Item>, height: nat, k: nat, inner: seq<Item>) {
    && k <= |rest| && inner == before + [Taking(parent, rest, k)] + rest[k..]
    && forall m :: 0 <= m < k ==> rest[m].height.Some? && rest[m].height.value > height
  }

  lemma TakenOneMore(before: seq<Item>, parent: Item, rest: seq<Item>, height: nat, k: nat, inner: seq<Item>,
                     parentIdx: nat, i: nat)
    requires TakenSoFar(before, parent, rest, height, k, inner) && parentIdx == |before| && i == |before| + 1
    requires k < |rest| && rest[k].height.Some? && rest[k].height.value > height
    requires |inner| == |before| + 1 + |rest| - k && inner[i] == rest[k]
    ensures var shorter := inner[..i] + inner[i + 1..];
            parentIdx < |shorter|
            && TakenSoFar(before, parent, rest, height, k + 1, shorter[parentIdx := WithChild(shorter[parentIdx], inner[i])])
  {
    TakeOne(before, parent, rest, k, inner);
  }

  lemma TakenAt(before: seq<Item>, parent: Item, rest: seq<Item>, height: nat, k: nat, inner: seq<Item>)
    requires TakenSoFar(before, parent, rest, height, k, inner)
    ensures |inner| == |before| + 1 + |rest| - k && (k < |rest| ==> inner[|before| + 1] == rest[k])
  {
  }

  /** The backward loop over parents computes `Nest`. */
  method NestInner(items: seq<Item>) returns (inner: seq<Item>)
    ensures inner == Nest(items)
  {
    inner := items;
    if items == [] { return; }
    var i := |inner| - 1;
    assert Nest(items[i..]) == items[i..] by { NestOne(items[i]); }
    while i > 0
      invariant 0 <= i < |items|
      invariant inner == items[..i] + Nest(items[i..])
    {
      var parentIdx := i - 1;
      assert inner[parentIdx] == items[parentIdx] && inner[parentIdx + 1..] == Nest(items[i..]);
      assert inner[..parentIdx] == items[..parentIdx];
      assert items[parentIdx..][0] == items[parentIdx] && items[parentIdx..][1..] == items[i..];
      if inner[parentIdx].height.Some? {
        inner := TakeChildren(inner, parentIdx, inner[parentIdx].height.value);
      }
      i := i - 1;
    }
    assert items[0..] == items;
  }

  lemma NestOne(item: Item)
    ensures Nest([item]) == [item]
  {
    assert [item][1..] == [];
    assert item.ix.inner + [] == item.ix.inner;
  }

  lemma {:induction false} DeeperIs(items: seq<Item>, height: nat, k: nat)
    requires k <= |items|
    requires forall i :: 0 <= i < k ==> items[i].height.Some? && items[i].height.value > height
    requires k < |items| ==> !(items[k].height.Some? && items[k].height.value > height)
    ensures Deeper(items, height) == k
  {
    if k > 0 {
      assert items[0].height.Some? && items[0].height.value > height;
      DeeperIs(items[1..], height, k - 1);
    }
  }

  // ---- Order preservation ----

  datatype Label = Label(program: Pubkey, payload: nat, path: seq<nat>)

  function LabelOf(ix: Instruction): Label { Label(ix.program, ix.payload, ix.path) }

  /** The instructions of a forest in depth-first order, parents first. */
  function Preorder(forest: seq<Instruction>): (r: seq<Instruction>)
    ensures |forest| <= |r|
  {
    if forest == [] then [] else [forest[0]] + Preorder(forest[0].inner) + Preorder(forest[1..])
  }

  function Labels(s: seq<Instruction>): (r: seq<Label>)
    ensures |r| == |s|
    ensures forall i :: 0 <= i < |s| ==> r[i] == LabelOf(s[i])
  {
    seq(|s|, i requires 0 <= i < |s| => LabelOf(s[i]))
  }

  lemma {:induction false} PreorderAppend(a: seq<Instruction>, b: seq<Instruction>)
    ensures Preorder(a + b) == Preorder(a) + Preorder(b)
    decreases |a|
  {
    if a == [] {
      assert a + b == b;
    } else {
      assert (a + b)[1..] == a[1..] + b;
      PreorderAppend(a[1..], b);
    }
  }

  lemma NodesSplit(a: seq<Item>, k: nat)
    requires k <= |a|
    ensures Nodes(a) == Nodes(a[..k]) + Nodes(a[k..])
  {
  }

  /** Adopting moves instructions under a parent without changing the depth-first order. */
  lemma AdoptKeepsOrder(parent: Item, rest: seq<Item>)
    requires parent.ix.inner == []
    ensures Labels(Preorder(Nodes(Adopt(parent, rest)))) == [LabelOf(parent.ix)] + Labels(Preorder(Nodes(rest)))
  {
    if parent.height.None? {
      HeadPreorder(parent.ix, Nodes(rest));
      assert Nodes([parent] + rest) == [parent.ix] + Nodes(rest);
      assert Preorder([]) + Preorder(Nodes(rest)) == Preorder(Nodes(rest));
    } else {
      var k := Deeper(rest, parent.height.value);
      var a, b := Nodes(rest[..k]), Nodes(rest[k..]);
      assert [] + a == a;
      assert Nodes(Adopt(parent, rest)) == [parent.ix.(inner := a)] + b;
      HeadPreorder(parent.ix.(inner := a), b);
      NodesSplit(rest, k);
      PreorderAppend(a, b);
    }
  }

  lemma HeadPreorder(ix: Instruction, rest: seq<Instruction>)
    ensures Labels(Preorder([ix] + rest)) == [LabelOf(ix)] + Labels(Preorder(ix.inner) + Preorder(rest))
  {
    assert ([ix] + rest)[1..] == rest;
    assert Preorder([ix] + rest) == [ix] + (Preorder(ix.inner) + Preorder(rest));
  }

  predicate Leaves(items: seq<Item>) { forall i :: 0 <= i < |items| ==> items[i].ix.inner == [] }

  /** For any heights, present or missing, nesting keeps the depth-first order of the flat list. */
  lemma {:induction false} NestKeepsOrder(items: seq<Item>)
    requires Leaves(items)
    ensures Labels(Preorder(Nodes(Nest(items)))) == Labels(Nodes(items))
  {
    if items != [] {
      var first, rest := items[0], items[1..];
      NestKeepsOrder(rest);
      AdoptKeepsOrder(first, Nest(rest));
      assert Labels(Nodes(items)) == [LabelOf(first.ix)] + Labels(Nodes(rest));
    }
  }

  // ---- The two algorithms agree ----

  /** Heights as the runtime reports them: from 2 up, each call one level deeper than its caller. */
  predicate WellFormed(heights: seq<Height>) {
    && (forall i :: 0 <= i < |heights| ==> heights[i].Some? && heights[i].value >= 2)
    && (heights != [] ==> heights[0] == Some(2))
    && (forall i, j :: 0 <= i && j == i + 1 < |heights| ==> heights[j].value <= heights[i].value + 1)
  }

  /** Every instruction's path is its parent's path plus its child index. */
  predicate PathsAgree(forest: seq<Instruction>, parent: seq<nat>) {
    forall i :: 0 <= i < |forest| ==>
      forest[i].path == parent + [i] && PathsAgree(forest[i].inner, forest[i].path)
  }

  predicate Placed(items: seq<Item>, heights: seq<Height>, outer: nat) {
    && |items| == |heights| && Leaves(items)
    && forall i {:trigger items[i]} :: 0 <= i < |items| ==>
         items[i].height == heights[i] && items[i].ix.path == PathAt(outer, heights, i)
  }

  // The open calls tell where an instruction belongs, with no reference to paths or to the forest.

  /** A call that is still open: its height and its position among its parent's calls. */
  datatype Level = Level(height: Height, index: nat)

  function Top(calls: seq<Level>): Height
    requires calls != []
  {
    calls[|calls| - 1].height
  }

  /** How many leading calls are lower than `height`. */
  function Keep(calls: seq<Level>, height: nat): (t: nat)
    ensures t <= |calls|
    ensures forall i :: 0 <= i < t ==> calls[i].height.Some? && calls[i].height.value < height
    ensures t < |calls| ==> calls[t].height.None? || calls[t].height.value >= height
  {
    if calls == [] || calls[0].height.None? || calls[0].height.value >= height then 0 else 1 + Keep(calls[1..], height)
  }

  /** A call closes those that are as high or higher; with a height missing, all of them. */
  function NextCalls(calls: seq<Level>, cur: Height): (r: seq<Level>)
    requires calls != []
    ensures r != [] && r[|r| - 1].height == cur
  {
    if cur.None? || calls[0].height.None? then [Level(cur, calls[0].index + 1)] else
      var t := Keep(calls, cur.value);
      calls[..t] + [Level(cur, if t < |calls| then calls[t].index + 1 else 0)]
  }

  /** The calls open at instruction `i`, itself included. */
  function OpenCalls(heights: seq<Height>, i: nat): (r: seq<Level>)
    requires i < |heights|
    ensures r != [] && r[|r| - 1].height == heights[i]
  {
    if i == 0 then [Level(heights[0], 0)] else NextCalls(OpenCalls(heights, i - 1), heights[i])
  }

  function Indexes(calls: seq<Level>): (r: seq<nat>)
    ensures |r| == |calls| && forall i :: 0 <= i < |r| ==> r[i] == calls[i].index
  {
    seq(|calls|, i requires 0 <= i < |calls| => calls[i].index)
  }

  /** The place of instruction `i` below outer instruction `outer`. */
  function Place(outer: nat, calls: seq<Level>): seq<nat> { [outer] + Indexes(calls) }

  /** Each open call is higher than its caller; a call without a height has neither. */
  predicate Rising(calls: seq<Level>) {
    && calls != []
    && (forall i, j :: 0 <= i < j < |calls| ==>
          calls[i].height.Some? && calls[j].height.Some? && calls[i].height.value < calls[j].height.value)
  }

  lemma NextCallsRise(calls: seq<Level>, cur: Height)
    requires Rising(calls)
    ensures Rising(NextCalls(calls, cur))
  {
  }

  lemma {:induction false} OpenCallsRise(heights: seq<Height>, i: nat)
    requires i < |heights|
    ensures Rising(OpenCalls(heights, i))
  {
    if i > 0 {
      OpenCallsRise(heights, i - 1);
      NextCallsRise(OpenCalls(heights, i - 1), heights[i]);
    }
  }

  /**
   * The stack is as long as there are open calls. Only two events can break this: a height that goes
   * missing inside a call, and a return to a height that is not the caller's depth.
   */
  predicate StepLinesUp(calls: seq<Level>, prev: Height, cur: Height)
    requires calls != []
  {
    var before, now := |calls|, |NextCalls(calls, cur)|;
    if cur.None? then before == 1
    else prev.Some? && cur.value < prev.value ==> now + 1 == if cur.value < before + 1 then cur.value else before + 1
  }

  predicate LinesUp(heights: seq<Height>, i: nat)
    requires 0 < i < |heights|
  {
    StepLinesUp(OpenCalls(heights, i - 1), heights[i - 1], heights[i])
  }

  predicate LinedUp(heights: seq<Height>) { forall i :: 0 < i < |heights| ==> LinesUp(heights, i) }

  predicate AtPlace(outer: nat, path: seq<nat>, calls: seq<Level>) {
    |path| == |calls| + 1 && path[0] == outer && forall k :: 0 <= k < |calls| ==> path[k + 1] == calls[k].index
  }

  lemma SamePlaceStep(outer: nat, heights: seq<Height>, i: nat)
    requires 0 < i < |heights| && AtPlace(outer, PathAt(outer, heights, i - 1), OpenCalls(heights, i - 1))
    ensures AtPlace(outer, PathAt(outer, heights, i), OpenCalls(heights, i)) <==> LinesUp(heights, i)
  {
    OpenCallsRise(heights, i - 1);
    StepFrom(outer, PathAt(outer, heights, i - 1), OpenCalls(heights, i - 1), heights[i - 1], heights[i]);
  }

  lemma StepFrom(outer: nat, path: seq<nat>, calls: seq<Level>, prev: Height, cur: Height)
    requires Rising(calls) && Top(calls) == prev && AtPlace(outer, path, calls)
    ensures AtPlace(outer, NextStack(path, prev, cur), NextCalls(calls, cur)) <==> StepLinesUp(calls, prev, cur)
  {
    if cur.None? || prev.None? {
      StepMissing(outer, path, calls, prev, cur);
    } else if cur.value > prev.value {
      FirstChild(calls, cur);
    } else {
      var t := Keep(calls, cur.value);
      if cur == prev { KeepIs(calls, cur.value, |calls| - 1); }
      StepCut(outer, path, calls, cur, if cur == prev then |path| else cur.value, t);
    }
  }

  lemma StepMissing(outer: nat, path: seq<nat>, calls: seq<Level>, prev: Height, cur: Height)
    requires Rising(calls) && Top(calls) == prev && (cur.None? || prev.None?) && AtPlace(outer, path, calls)
    ensures AtPlace(outer, Bump(path), NextCalls(calls, cur)) <==> |calls| == 1
    ensures prev.None? ==> |calls| == 1
  {
  }

  /** Back at call `t`: its successor gets the next number, if the stack is cut right there. */
  lemma StepCut(outer: nat, path: seq<nat>, calls: seq<Level>, cur: Height, len: nat, t: nat)
    requires Rising(calls) && Top(calls).Some? && cur.Some? && t == Keep(calls, cur.value) < |calls|
    requires AtPlace(outer, path, calls)
    ensures |NextCalls(calls, cur)| == t + 1
    ensures AtPlace(outer, Bump(Truncate(path, len)), NextCalls(calls, cur)) <==> |Truncate(path, len)| == t + 2
  {
    assert calls[0].height.Some?;
    assert NextCalls(calls, cur) == calls[..t] + [Level(cur, calls[t].index + 1)];
    assert |Bump(Truncate(path, len))| == |Truncate(path, len)|;
  }

  /** Paths are places up to the first instruction that does not line up. */
  lemma {:induction false} PathsArePlaces(outer: nat, heights: seq<Height>, i: nat)
    requires i < |heights| && forall k :: 0 < k <= i ==> LinesUp(heights, k)
    ensures AtPlace(outer, PathAt(outer, heights, i), OpenCalls(heights, i))
  {
    if i > 0 {
      PathsArePlaces(outer, heights, i - 1);
      SamePlaceStep(outer, heights, i);
    }
  }

  // ---- The forest puts every instruction at its place ----

  predicate AtPlaces(items: seq<Item>, heights: seq<Height>, outer: nat) {
    && |items| == |heights| && Leaves(items)
    && forall i {:trigger items[i]} :: 0 <= i < |items| ==>
         items[i].height == heights[i] && AtPlace(outer, items[i].ix.path, OpenCalls(heights, i))
  }

  /** A root with the calls open at it. */
  predicate RootOk(outer: nat, r: Item, calls: seq<Level>) {
    && Rising(calls) && calls[|calls| - 1].height == r.height
    && AtPlace(outer, r.ix.path, calls) && PathsAgree(r.ix.inner, r.ix.path)
  }

  /** The next root is not deeper, and closes what is open at the one before. */
  predicate NextRoot(a: seq<Level>, b: seq<Level>)
    requires a != [] && b != []
  {
    var from, to := a[|a| - 1].height, b[|b| - 1].height;
    b == NextCalls(a, to) && (from.Some? && to.Some? ==> to.value <= from.value)
  }

  predicate RootsOk(outer: nat, roots: seq<Item>, calls: seq<seq<Level>>) {
    && |roots| == |calls|
    && (forall i :: 0 <= i < |roots| ==> RootOk(outer, roots[i], calls[i]))
    && (forall i, j :: 0 <= i && j == i + 1 < |roots| ==> NextRoot(calls[i], calls[j]))
  }

  lemma KeepIs(calls: seq<Level>, height: nat, t: nat)
    requires t <= |calls| && forall i :: 0 <= i < t ==> calls[i].height.Some? && calls[i].height.value < height
    requires t < |calls| ==> calls[t].height.None? || calls[t].height.value >= height
    ensures Keep(calls, height) == t
  {
  }

  lemma FirstChild(calls: seq<Level>, cur: Height)
    requires Rising(calls) && calls[|calls| - 1].height.Some? && cur.Some? && cur.value > calls[|calls| - 1].height.value
    ensures NextCalls(calls, cur) == calls + [Level(cur, 0)]
  {
    KeepIs(calls, cur.value, |calls|);
    assert calls[..|calls|] == calls;
  }

  lemma Sibling(calls: seq<Level>, last: Level, cur: Height)
    requires Rising(calls) && calls[|calls| - 1].height.Some? && cur.Some? && last.height.Some?
    requires calls[|calls| - 1].height.value < cur.value <= last.height.value
    ensures NextCalls(calls + [last], cur) == calls + [Level(cur, last.index + 1)]
  {
    var all := calls + [last];
    assert forall i :: 0 <= i < |calls| ==> all[i] == calls[i];
    KeepIs(all, cur.value, |calls|);
    assert all[..|calls|] == calls;
  }

  /** A call that closes `calls` does not notice what was open above. */
  lemma ClosesBoth(calls: seq<Level>, last: Level, cur: Height)
    requires Rising(calls) && calls[|calls| - 1].height.Some?
    requires cur.Some? ==> cur.value <= calls[|calls| - 1].height.value
    ensures NextCalls(calls + [last], cur) == NextCalls(calls, cur)
  {
    var all := calls + [last];
    assert forall i :: 0 <= i < |calls| ==> all[i] == calls[i];
    if cur.Some? {
      var t := Keep(calls, cur.value);
      KeepIs(all, cur.value, t);
      assert all[..t] == calls[..t];
    }
  }

  /** What a parent and the roots behind it must satisfy for the parent to join them. */
  predicate Joins(outer: nat, parent: Item, own: seq<Level>, rest: seq<Item>, calls: seq<seq<Level>>) {
    && parent.ix.inner == [] && RootOk(outer, parent, own) && RootsOk(outer, rest, calls)
    && (rest != [] ==> calls[0] == NextCalls(own, rest[0].height))
  }

  lemma JoinsAt(outer: nat, parent: Item, own: seq<Level>, rest: seq<Item>, calls: seq<seq<Level>>, i: nat)
    requires Joins(outer, parent, own, rest, calls) && i < |rest|
    ensures |calls| == |rest| && RootOk(outer, rest[i], calls[i])
    ensures i == 0 ==> calls[0] == NextCalls(own, rest[0].height)
    ensures i > 0 ==> calls[i - 1] != [] && NextRoot(calls[i - 1], calls[i])
  {
    assert RootOk(outer, rest[i], calls[i]);
    if i > 0 { assert RootOk(outer, rest[i - 1], calls[i - 1]) && NextRoot(calls[i - 1], calls[i]); }
  }

  /** Each entry closes what the one before left open, the first one what `own` did. */
  predicate Successive(own: seq<Level>, calls: seq<seq<Level>>)
    requires own != []
  {
    && (forall i :: 0 <= i < |calls| ==> calls[i] != [])
    && (calls != [] ==> calls[0] == NextCalls(own, Top(calls[0])))
    && (forall i, j :: 0 <= i && j == i + 1 < |calls| ==> NextRoot(calls[i], calls[j]))
  }

  /** Calls that are all deeper than `own` are its children, numbered from 0. */
  lemma {:induction false} ChildrenNumbered(own: seq<Level>, calls: seq<seq<Level>>, i: nat)
    requires Rising(own) && Top(own).Some? && Successive(own, calls) && i < |calls|
    requires forall m :: 0 <= m <= i ==> Top(calls[m]).Some? && Top(calls[m]).value > Top(own).value
    ensures calls[i] == own + [Level(Top(calls[i]), i)]
  {
    if i == 0 {
      FirstChild(own, Top(calls[0]));
    } else {
      ChildrenNumbered(own, calls, i - 1);
      assert NextRoot(calls[i - 1], calls[i]);
      Sibling(own, Level(Top(calls[i - 1]), i - 1), Top(calls[i]));
    }
  }

  lemma JoinsSuccessive(outer: nat, parent: Item, own: seq<Level>, rest: seq<Item>, calls: seq<seq<Level>>, k: nat)
    requires Joins(outer, parent, own, rest, calls) && parent.height.Some? && k <= Deeper(rest, parent.height.value)
    ensures |calls| == |rest| && Rising(own) && Top(own) == parent.height && Successive(own, calls)
    ensures forall m :: 0 <= m < k ==> Top(calls[m]) == rest[m].height && Top(calls[m]).Some? && Top(calls[m]).value > Top(own).value
  {
    forall i | 0 <= i < |calls| ensures calls[i] != [] && Top(calls[i]) == rest[i].height { JoinsAt(outer, parent, own, rest, calls, i); }
    forall i, j | 0 <= i && j == i + 1 < |calls| ensures NextRoot(calls[i], calls[j]) { JoinsAt(outer, parent, own, rest, calls, j); }
  }

  lemma ChildPath(outer: nat, parent: seq<nat>, own: seq<Level>, child: seq<nat>, last: Level)
    requires AtPlace(outer, parent, own) && AtPlace(outer, child, own + [last])
    ensures child == parent + [last.index]
  {
    var all := own + [last];
    assert all[|own|] == last;
    forall k | 0 <= k < |child| ensures child[k] == (parent + [last.index])[k] {
      if 0 < k <= |own| { assert all[k - 1] == own[k - 1]; }
    }
  }

  /** The first call behind the children is the one after `own`. */
  lemma AfterChildren(own: seq<Level>, calls: seq<seq<Level>>, k: nat)
    requires Rising(own) && Top(own).Some? && Successive(own, calls) && k < |calls|
    requires forall m :: 0 <= m < k ==> Top(calls[m]).Some? && Top(calls[m]).value > Top(own).value
    requires Top(calls[k]).Some? ==> Top(calls[k]).value <= Top(own).value
    ensures NextRoot(own, calls[k])
  {
    if k > 0 {
      ChildrenNumbered(own, calls, k - 1);
      assert NextRoot(calls[k - 1], calls[k]);
      ClosesBoth(own, Level(Top(calls[k - 1]), k - 1), Top(calls[k]));
    }
  }

  lemma ParentRootOk(outer: nat, parent: Item, own: seq<Level>, rest: seq<Item>, calls: seq<seq<Level>>, k: nat)
    requires Joins(outer, parent, own, rest, calls) && parent.height.Some? && k == Deeper(rest, parent.height.value)
    ensures RootOk(outer, Adopt(parent, rest)[0], own)
  {
    var children := Nodes(rest[..k]);
    assert [] + children == children;
    JoinsSuccessive(outer, parent, own, rest, calls, k);
    forall i | 0 <= i < k
      ensures children[i].path == parent.ix.path + [i] && PathsAgree(children[i].inner, children[i].path)
    {
      ChildrenNumbered(own, calls, i);
      JoinsAt(outer, parent, own, rest, calls, i);
      ChildPath(outer, parent.ix.path, own, rest[i].ix.path, Level(rest[i].height, i));
    }
    assert PathsAgree(children, parent.ix.path);
  }

  /** A root in front of the roots from `k` on. */
  lemma InFront(outer: nat, root: Item, own: seq<Level>, rest: seq<Item>, calls: seq<seq<Level>>, k: nat)
    requires RootOk(outer, root, own) && RootsOk(outer, rest, calls) && k <= |rest|
    requires k < |rest| ==> calls[k] != [] && NextRoot(own, calls[k])
    ensures RootsOk(outer, [root] + rest[k..], [own] + calls[k..])
  {
    var roots, all := [root] + rest[k..], [own] + calls[k..];
    forall i | 0 <= i < |roots| ensures RootOk(outer, roots[i], all[i]) {
      if i > 0 { assert roots[i] == rest[k + i - 1] && all[i] == calls[k + i - 1]; }
    }
    forall i, j | 0 <= i && j == i + 1 < |all| ensures NextRoot(all[i], all[j]) {
      assert all[j] == calls[k + i];
      if i > 0 { assert all[i] == calls[k + i - 1] && NextRoot(calls[k + i - 1], calls[k + i]); }
    }
  }

  lemma AdoptKeepsRootsOk(outer: nat, parent: Item, own: seq<Level>, rest: seq<Item>, calls: seq<seq<Level>>)
    returns (all: seq<seq<Level>>)
    requires Joins(outer, parent, own, rest, calls)
    ensures RootsOk(outer, Adopt(parent, rest), all) && all != [] && all[0] == own
  {
    if parent.height.None? {
      if rest != [] { JoinsAt(outer, parent, own, rest, calls, 0); }
      InFront(outer, parent, own, rest, calls, 0);
      assert rest[0..] == rest;
      all := [own] + calls[0..];
    } else {
      var k := Deeper(rest, parent.height.value);
      ParentRootOk(outer, parent, own, rest, calls, k);
      JoinsSuccessive(outer, parent, own, rest, calls, k);
      if k < |rest| {
        JoinsAt(outer, parent, own, rest, calls, k);
        AfterChildren(own, calls, k);
      }
      InFront(outer, Adopt(parent, rest)[0], own, rest, calls, k);
      all := [own] + calls[k..];
    }
  }

  lemma {:induction false} SuffixAgrees(items: seq<Item>, heights: seq<Height>, outer: nat, j: nat) returns (calls: seq<seq<Level>>)
    requires AtPlaces(items, heights, outer) && j < |items|
    ensures RootsOk(outer, Nest(items[j..]), calls) && calls != [] && calls[0] == OpenCalls(heights, j)
    decreases |items| - j
  {
    assert items[j..][0] == items[j] && items[j..][1..] == items[j + 1..];
    var behind: seq<seq<Level>> := [];
    if j + 1 < |items| { behind := SuffixAgrees(items, heights, outer, j + 1); }
    ItemJoins(items, heights, outer, j, behind);
    calls := AdoptKeepsRootsOk(outer, items[j], OpenCalls(heights, j), Nest(items[j + 1..]), behind);
  }

  lemma ItemJoins(items: seq<Item>, heights: seq<Height>, outer: nat, j: nat, behind: seq<seq<Level>>)
    requires AtPlaces(items, heights, outer) && j < |items| && RootsOk(outer, Nest(items[j + 1..]), behind)
    requires j + 1 < |items| ==> behind != [] && behind[0] == OpenCalls(heights, j + 1)
    ensures Joins(outer, items[j], OpenCalls(heights, j), Nest(items[j + 1..]), behind)
  {
    OpenCallsRise(heights, j);
    if behind != [] { assert RootOk(outer, Nest(items[j + 1..])[0], behind[0]); }
  }

  lemma {:induction false} TopLevelNumbered(outer: nat, roots: seq<Item>, calls: seq<seq<Level>>, i: nat)
    requires RootsOk(outer, roots, calls) && i < |roots| && calls[0] == [Level(roots[0].height, 0)]
    ensures calls[i] == [Level(roots[i].height, i)] && roots[i].ix.path == [outer, i]
  {
    assert RootOk(outer, roots[i], calls[i]);
    if i > 0 {
      TopLevelNumbered(outer, roots, calls, i - 1);
      assert NextRoot(calls[i - 1], calls[i]);
    }
  }

  lemma PlacesAgree(items: seq<Item>, heights: seq<Height>, outer: nat)
    requires AtPlaces(items, heights, outer)
    ensures PathsAgree(Nodes(Nest(items)), [outer])
  {
    if items != [] {
      var calls := SuffixAgrees(items, heights, outer, 0);
      assert items[0..] == items;
      var roots := Nest(items);
      assert RootOk(outer, roots[0], calls[0]);
      forall i | 0 <= i < |roots|
        ensures Nodes(roots)[i].path == [outer] + [i] && PathsAgree(Nodes(roots)[i].inner, Nodes(roots)[i].path)
      {
        TopLevelNumbered(outer, roots, calls, i);
        assert RootOk(outer, roots[i], calls[i]);
      }
    }
  }

  // ---- No other paths agree ----

  predicate SameShape(f: seq<Instruction>, g: seq<Instruction>) {
    |f| == |g| && forall i :: 0 <= i < |f| ==> SameShape(f[i].inner, g[i].inner)
  }

  lemma {:induction false} AgreeingPathsAreUnique(f: seq<Instruction>, g: seq<Instruction>, parent: seq<nat>)
    requires SameShape(f, g) && PathsAgree(f, parent) && PathsAgree(g, parent)
    ensures |Preorder(f)| == |Preorder(g)| && forall i :: 0 <= i < |Preorder(f)| ==> Preorder(f)[i].path == Preorder(g)[i].path
  {
    RestIsUnique(f, g, parent, 0);
    assert f[0..] == f && g[0..] == g;
  }

  lemma {:induction false} RestIsUnique(f: seq<Instruction>, g: seq<Instruction>, parent: seq<nat>, k: nat)
    requires SameShape(f, g) && PathsAgree(f, parent) && PathsAgree(g, parent) && k <= |f|
    ensures var p, q := Preorder(f[k..]), Preorder(g[k..]);
            |p| == |q| && forall i :: 0 <= i < |p| ==> p[i].path == q[i].path
    decreases f, |f| - k
  {
    if k < |f| {
      assert f[k..][0] == f[k] && f[k..][1..] == f[k + 1..] && g[k..][0] == g[k] && g[k..][1..] == g[k + 1..];
      assert f[k].path == parent + [k] && PathsAgree(f[k].inner, f[k].path);
      assert g[k].path == parent + [k] && PathsAgree(g[k].inner, g[k].path);
      RestIsUnique(f[k].inner, g[k].inner, f[k].path, 0);
      assert f[k].inner[0..] == f[k].inner && g[k].inner[0..] == g[k].inner;
      RestIsUnique(f, g, parent, k + 1);
    }
  }

  predicate SameHeights(a: seq<Item>, b: seq<Item>) {
    |a| == |b| && forall i :: 0 <= i < |a| ==> a[i].height == b[i].height && SameShape(a[i].ix.inner, b[i].ix.inner)
  }

  lemma {:induction false} SameHeightsNest(a: seq<Item>, b: seq<Item>)
    requires SameHeights(a, b) && Leaves(a) && Leaves(b)
    ensures SameHeights(Nest(a), Nest(b))
  {
    if a != [] {
      SameHeightsNest(a[1..], b[1..]);
      SameHeightsAdopt(a[0], b[0], Nest(a[1..]), Nest(b[1..]));
    }
  }

  lemma SameHeightsAdopt(p: Item, q: Item, a: seq<Item>, b: seq<Item>)
    requires p.height == q.height && p.ix.inner == [] && q.ix.inner == [] && SameHeights(a, b)
    ensures SameHeights(Adopt(p, a), Adopt(q, b))
  {
    if p.height.Some? {
      var k := Deeper(a, p.height.value);
      DeeperIs(b, p.height.value, k);
      var f, g := Nodes(a[..k]), Nodes(b[..k]);
      assert [] + f == f && [] + g == g;
      assert SameShape(f, g);
    }
  }

  /**
   * The forward path derivation and the backward nesting loop agree on one call tree exactly when
   * every height lines up: then the path of every instruction is its parent's path in the nested
   * tree plus its child index. Heights may be missing, jump and drop at will.
   */
  lemma TreeAgreesIffLinedUp(items: seq<Item>, heights: seq<Height>, outer: nat)
    requires Placed(items, heights, outer)
    ensures PathsAgree(Nodes(Nest(items)), [outer]) <==> LinedUp(heights)
  {
    if LinedUp(heights) {
      forall i | 0 <= i < |items| ensures AtPlace(outer, items[i].ix.path, OpenCalls(heights, i)) {
        PathsArePlaces(outer, heights, i);
      }
      PlacesAgree(items, heights, outer);
    } else if PathsAgree(Nodes(Nest(items)), [outer]) {
      var moved := Moved(items, heights, outer);
      MovedAtPlaces(items, heights, outer);
      PlacesAgree(moved, heights, outer);
      AgreeingPathsArePlaces(items, moved, outer);
      NotLinedUp(items, moved, heights, outer);
    }
  }

  /** The same instructions, put at their places. */
  function Moved(items: seq<Item>, heights: seq<Height>, outer: nat): seq<Item>
    requires |items| == |heights|
  {
    seq(|items|, i requires 0 <= i < |items| => MovedTo(items[i], Place(outer, OpenCalls(heights, i))))
  }

  function MovedTo(item: Item, path: seq<nat>): Item { item.(ix := item.ix.(path := path)) }

  lemma MovedAtPlaces(items: seq<Item>, heights: seq<Height>, outer: nat)
    requires |items| == |heights| && Leaves(items) && forall i :: 0 <= i < |items| ==> items[i].height == heights[i]
    ensures AtPlaces(Moved(items, heights, outer), heights, outer) && SameHeights(items, Moved(items, heights, outer))
  {
    var moved := Moved(items, heights, outer);
    forall i | 0 <= i < |items|
      ensures moved[i].height == heights[i] && moved[i].ix.inner == [] && AtPlace(outer, moved[i].ix.path, OpenCalls(heights, i))
    {
      PlaceIsPlace(outer, OpenCalls(heights, i));
      assert moved[i] == MovedTo(items[i], Place(outer, OpenCalls(heights, i)));
    }
  }

  lemma PlaceIsPlace(outer: nat, calls: seq<Level>)
    ensures AtPlace(outer, Place(outer, calls), calls)
  {
  }

  lemma AgreeingPathsArePlaces(items: seq<Item>, moved: seq<Item>, outer: nat)
    requires Leaves(items) && Leaves(moved) && SameHeights(items, moved)
    requires PathsAgree(Nodes(Nest(items)), [outer]) && PathsAgree(Nodes(Nest(moved)), [outer])
    ensures forall i :: 0 <= i < |items| ==> items[i].ix.path == moved[i].ix.path
  {
    SameHeightsNest(items, moved);
    var f, g := Nodes(Nest(items)), Nodes(Nest(moved));
    AgreeingPathsAreUnique(f, g, [outer]);
    NestKeepsOrder(items);
    NestKeepsOrder(moved);
    forall i | 0 <= i < |items| ensures items[i].ix.path == moved[i].ix.path {
      assert Labels(Preorder(f))[i] == Labels(Nodes(items))[i] && Labels(Preorder(g))[i] == Labels(Nodes(moved))[i];
    }
  }

  lemma NotLinedUp(items: seq<Item>, moved: seq<Item>, heights: seq<Height>, outer: nat)
    requires Placed(items, heights, outer) && AtPlaces(moved, heights, outer)
    requires forall i :: 0 <= i < |items| ==> items[i].ix.path == moved[i].ix.path
    ensures LinedUp(heights)
  {
    forall i | 0 <= i < |heights| ensures AtPlace(outer, PathAt(outer, heights, i), OpenCalls(heights, i)) {
      assert items[i].ix.path == moved[i].ix.path;
    }
    forall i | 0 < i < |heights| ensures LinesUp(heights, i) {
      SamePlaceStep(outer, heights, i);
    }
  }

  // ---- Heights that line up ----

  /** With no heights at all, the list stays flat and is numbered through. */
  lemma {:induction false} MissingHeightsStayFlat(heights: seq<Height>, outer: nat, i: nat)
    requires i < |heights| && forall k :: 0 <= k <= i ==> heights[k].None?
    ensures OpenCalls(heights, i) == [Level(None, i)] && PathAt(outer, heights, i) == [outer, i]
    ensures i > 0 ==> LinesUp(heights, i)
  {
    if i > 0 { MissingHeightsStayFlat(heights, outer, i - 1); }
  }

  lemma FlatTreeAgrees(items: seq<Item>, heights: seq<Height>, outer: nat)
    requires Placed(items, heights, outer) && forall i :: 0 <= i < |heights| ==> heights[i].None?
    ensures PathsAgree(Nodes(Nest(items)), [outer])
    ensures forall i :: 0 <= i < |items| ==> items[i].ix.path == [outer, i]
  {
    forall i | 0 <= i < |heights| ensures i > 0 ==> LinesUp(heights, i) {
      MissingHeightsStayFlat(heights, outer, i);
    }
    forall i | 0 <= i < |items| ensures items[i].ix.path == [outer, i] { MissingHeightsStayFlat(heights, outer, i); }
    TreeAgreesIffLinedUp(items, heights, outer);
  }

  /** One open call at each height from 2 up. */
  predicate Stairs(calls: seq<Level>) { forall k :: 0 <= k < |calls| ==> calls[k].height == Some(k + 2) }

  lemma StairsStep(calls: seq<Level>, height: nat)
    requires calls != [] && Stairs(calls) && 2 <= height <= |calls| + 2
    ensures Stairs(NextCalls(calls, Some(height))) && |NextCalls(calls, Some(height))| == height - 1
  {
    assert calls[0].height == Some(2);
    KeepIs(calls, height, height - 2);
  }

  lemma {:induction false} WellFormedCalls(heights: seq<Height>, i: nat)
    requires WellFormed(heights) && i < |heights|
    ensures |OpenCalls(heights, i)| == heights[i].value - 1 && Stairs(OpenCalls(heights, i))
  {
    assert heights[i].Some? && heights[i].value >= 2;
    if i > 0 {
      WellFormedCalls(heights, i - 1);
      assert heights[i].value <= heights[i - 1].value + 1;
      StairsStep(OpenCalls(heights, i - 1), heights[i].value);
    }
  }

  /** Heights as the runtime reports them always line up. */
  lemma TreeAlgorithmsAgree(items: seq<Item>, heights: seq<Height>, outer: nat)
    requires WellFormed(heights) && Placed(items, heights, outer)
    ensures PathsAgree(Nodes(Nest(items)), [outer])
  {
    forall i | 0 < i < |heights| ensures LinesUp(heights, i) {
      assert heights[i].Some? && heights[i].value >= 2;
      WellFormedCalls(heights, i - 1);
      WellFormedCalls(heights, i);
    }
    TreeAgreesIffLinedUp(items, heights, outer);
  }
}
