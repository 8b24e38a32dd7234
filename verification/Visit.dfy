/** Attaching inner instructions to their outer ones, and walking the result back in flat order. */
module Visit {
  import opened Basics
  import opened CallTree

  // ---- Attaching ----

  datatype Group = Group(index: nat, flats: seq<Flat>)

  function Heights(flats: seq<Flat>): seq<Height> {
    seq(|flats|, i requires 0 <= i < |flats| => flats[i].height)
  }

  function Leaf(flat: Flat, path: seq<nat>): Instruction {
    Instruction(flat.program, flat.payload, path, [], Range(0, 0))
  }

  function Items(flats: seq<Flat>, outer: nat): (r: seq<Item>)
    ensures Placed(r, Heights(flats), outer)
  {
    seq(|flats|, i requires 0 <= i < |flats| =>
      Item(Leaf(flats[i], PathAt(outer, Heights(flats), i)), flats[i].height))
  }

  function Children(group: Group): seq<Instruction> { Nodes(Nest(Items(group.flats, group.index))) }

  function AttachOne(group: Group, outer: seq<Instruction>): seq<Instruction>
    requires group.index < |outer|
  {
    var o := outer[group.index];
    outer[group.index := o.(inner := o.inner + Children(group))]
  }

  /** `None` is the error for a group that names no outer instruction. */
  function Attach(groups: seq<Group>, outer: seq<Instruction>): (r: Option<seq<Instruction>>)
    ensures r.Some? ==> |r.value| == |outer|
    ensures r.Some? <==> forall g :: g in groups ==> g.index < |outer|
  {
    if groups == [] then Some(outer)
    else if groups[0].index >= |outer| then None
    else Attach(groups[1..], AttachOne(groups[0], outer))
  }

  method BuildItems(flats: seq<Flat>, outer: nat) returns (items: seq<Item>)
    ensures items == Items(flats, outer)
  {
    var paths := DerivePathsFromStackHeights(Heights(flats), outer);
    items := seq(|flats|, i requires 0 <= i < |flats| => Item(Leaf(flats[i], paths[i]), flats[i].height));
  }

  method AttachInnerInstructions(groups: seq<Group>, outer: seq<Instruction>) returns (r: Option<seq<Instruction>>)
    ensures r == Attach(groups, outer)
  {
    var attached := outer;
    var i := 0;
    while i < |groups|
      invariant 0 <= i <= |groups| && Attach(groups[i..], attached) == Attach(groups, outer)
    {
      var group := groups[i];
      assert groups[i..][0] == group && groups[i..][1..] == groups[i + 1..];
      if group.index >= |attached| { return None; }
      var items := BuildItems(group.flats, group.index);
      var nested := NestInner(items);
      var o := attached[group.index];
      attached := attached[group.index := o.(inner := o.inner + Nodes(nested))];
      i := i + 1;
    }
    return Some(attached);
  }

  /** The flat entries listed for outer instruction `j`, over all groups. */
  function Listed(groups: seq<Group>, j: nat): seq<Flat> {
    if groups == [] then [] else
      (if groups[0].index == j then groups[0].flats else []) + Listed(groups[1..], j)
  }

  /** The instructions `s` are the flat entries `flats`, in the same order. */
  predicate SameOrder(s: seq<Instruction>, flats: seq<Flat>) {
    |s| == |flats| && forall i :: 0 <= i < |s| ==> s[i].program == flats[i].program && s[i].payload == flats[i].payload
  }

  lemma ChildrenInOrder(group: Group)
    ensures SameOrder(Preorder(Children(group)), group.flats)
  {
    var items := Items(group.flats, group.index);
    NestKeepsOrder(items);
    var pre := Preorder(Children(group));
    assert Labels(pre) == Labels(Nodes(items));
    forall i | 0 <= i < |pre| ensures pre[i].program == group.flats[i].program && pre[i].payload == group.flats[i].payload {
      assert Labels(pre)[i] == Labels(Nodes(items))[i];
    }
  }

  lemma SameOrderAppend(a: seq<Instruction>, b: seq<Instruction>, x: seq<Flat>, y: seq<Flat>)
    requires SameOrder(a, x) && SameOrder(b, y)
    ensures SameOrder(a + b, x + y)
  {
  }

  lemma AttachOneInOrder(group: Group, outer: seq<Instruction>, before: seq<Flat>)
    requires group.index < |outer| && SameOrder(Preorder(outer[group.index].inner), before)
    ensures SameOrder(Preorder(AttachOne(group, outer)[group.index].inner), before + group.flats)
  {
    var o := outer[group.index];
    PreorderAppend(o.inner, Children(group));
    ChildrenInOrder(group);
    SameOrderAppend(Preorder(o.inner), Preorder(Children(group)), before, group.flats);
  }

  /** Attaching appends the listed entries to the depth-first order of each outer's children. */
  lemma {:induction false} AttachKeepsOrder(groups: seq<Group>, outer: seq<Instruction>, j: nat, before: seq<Flat>)
    requires Attach(groups, outer).Some? && j < |outer| && SameOrder(Preorder(outer[j].inner), before)
    ensures SameOrder(Preorder(Attach(groups, outer).value[j].inner), before + Listed(groups, j))
  {
    if groups == [] {
      assert before + [] == before;
    } else {
      var group, rest := groups[0], Listed(groups[1..], j);
      if group.index == j {
        AttachOneInOrder(group, outer, before);
        AttachKeepsOrder(groups[1..], AttachOne(group, outer), j, before + group.flats);
        assert before + group.flats + rest == before + (group.flats + rest);
      } else {
        AttachKeepsOrder(groups[1..], AttachOne(group, outer), j, before);
        assert [] + rest == rest;
      }
    }
  }

  /** Attaching changes children only. */
  lemma {:induction false} AttachKeepsOuter(groups: seq<Group>, outer: seq<Instruction>, j: nat)
    requires Attach(groups, outer).Some? && j < |outer|
    ensures Attach(groups, outer).value[j].(inner := []) == outer[j].(inner := [])
    ensures (forall g :: g in groups ==> g.index != j) ==> Attach(groups, outer).value[j] == outer[j]
  {
    if groups != [] { AttachKeepsOuter(groups[1..], AttachOne(groups[0], outer), j); }
  }

  lemma FirstGroupAgrees(group: Group, outer: seq<Instruction>)
    requires group.index < |outer| && outer[group.index].inner == []
    ensures PathsAgree(AttachOne(group, outer)[group.index].inner, [group.index]) <==> LinedUp(Heights(group.flats))
  {
    TreeAgreesIffLinedUp(Items(group.flats, group.index), Heights(group.flats), group.index);
    assert [] + Children(group) == Children(group);
  }

  /** With one group for the outer instruction, paths below it are places in the tree exactly if its heights line up. */
  lemma {:induction false} AttachedPathsAgree(groups: seq<Group>, outer: seq<Instruction>, g: nat)
    requires g < |groups| && Attach(groups, outer).Some? && outer[groups[g].index].inner == []
    requires forall h :: 0 <= h < |groups| && h != g ==> groups[h].index != groups[g].index
    ensures PathsAgree(Attach(groups, outer).value[groups[g].index].inner, [groups[g].index])
            <==> LinedUp(Heights(groups[g].flats))
  {
    var group, j := groups[g], groups[g].index;
    var next := AttachOne(groups[0], outer);
    if g == 0 {
      FirstGroupAgrees(group, outer);
      forall h | h in groups[1..] ensures h.index != j {
        var k :| 0 <= k < |groups[1..]| && groups[1..][k] == h;
        assert groups[k + 1] == h;
      }
      AttachKeepsOuter(groups[1..], next, j);
    } else {
      AttachedPathsAgree(groups[1..], next, g - 1);
    }
  }

  // ---- Walking ----

  /** The order of what is left in a stack of open iterators, innermost last. */
  function StackOrder(stack: seq<seq<Instruction>>): seq<Instruction> {
    if stack == [] then [] else Preorder(stack[|stack| - 1]) + StackOrder(stack[..|stack| - 1])
  }

  class VisitAll {
    var root: Option<Instruction>
    var stack: seq<seq<Instruction>>

    function Remaining(): seq<Instruction>
      reads this
    {
      if root.Some? then Preorder([root.value]) else StackOrder(stack)
    }

    constructor (ix: Instruction)
      ensures Remaining() == Preorder([ix])
    {
      root, stack := Some(ix), [];
    }

    /** One step of the iterator: the next instruction in depth-first order, until none is left. */
    method Next() returns (r: Option<Instruction>)
      modifies this
      ensures r.None? ==> old(Remaining()) == [] && Remaining() == []
      ensures r.Some? ==> old(Remaining()) == [r.value] + Remaining()
    {
      if root.Some? {
        var ix := root.value;
        RootFirst(ix);
        root, stack := None, [ix.inner];
        return Some(ix);
      }
      ghost var order := StackOrder(stack);
      while stack != []
        invariant root.None? && StackOrder(stack) == order
        decreases |stack|
      {
        var top := stack[|stack| - 1];
        var below := stack[..|stack| - 1];
        assert stack == below + [top];
        if top == [] {
          stack := below;
          continue;
        }
        StackPush(below, top);
        stack := below + [top[1..]] + [top[0].inner];
        assert order == [top[0]] + StackOrder(stack);
        return Some(top[0]);
      }
      return None;
    }
  }

  lemma RootFirst(ix: Instruction)
    ensures Preorder([ix]) == [ix] + StackOrder([ix.inner])
  {
    assert [ix][1..] == [] && [ix.inner][..0] == [];
    assert StackOrder([ix.inner]) == Preorder(ix.inner) + StackOrder([]);
    assert Preorder([ix]) == [ix] + Preorder(ix.inner) + Preorder([]);
  }

  lemma StackPush(below: seq<seq<Instruction>>, top: seq<Instruction>)
    requires top != []
    ensures StackOrder(below + [top]) == [top[0]] + StackOrder(below + [top[1..]] + [top[0].inner])
  {
    assert (below + [top])[..|below|] == below;
    assert (below + [top[1..]] + [top[0].inner])[..|below| + 1] == below + [top[1..]];
    assert (below + [top[1..]])[..|below|] == below;
    var a, b, c := Preorder(top[0].inner), Preorder(top[1..]), StackOrder(below);
    assert [top[0]] + a + b + c == [top[0]] + (a + (b + c));
  }

  datatype Visited = Visited(ix: Instruction, index: seq<nat>)

  /** The outer instruction keeps its own path; the `k`-th one behind it gets `[outer, k]`. */
  function Indexed(path: seq<nat>, order: seq<Instruction>): (r: seq<Visited>)
    ensures |r| == |order|
  {
    seq(|order|, k requires 0 <= k < |order| =>
      Visited(order[k], if k == 0 || path == [] then order[k].path else [path[0], k - 1]))
  }

  function FlatVisit(ix: Instruction): seq<Visited> { Indexed(ix.path, Preorder([ix])) }

  method VisitAllWithFlatIndices(ix: Instruction) returns (r: seq<Visited>)
    ensures r == FlatVisit(ix)
  {
    var visit := new VisitAll(ix);
    r := NumberAll(visit, ix.path, Preorder([ix]));
  }

  method NumberAll(visit: VisitAll, path: seq<nat>, ghost order: seq<Instruction>) returns (r: seq<Visited>)
    requires visit.Remaining() == order
    modifies visit
    ensures r == Indexed(path, order)
  {
    var nextInnerIndex := 0;
    var visitedOuter := false;
    r := [];
    var next := visit.Next();
    while next.Some?
      invariant NumberedSoFar(path, order, r, if next.None? then [] else [next.value] + visit.Remaining())
      invariant visitedOuter <==> r != []
      invariant path != [] ==> nextInnerIndex == if r == [] then 0 else |r| - 1
      decreases |order| - |r|, if next.None? then 0 else 1
    {
      NumberOne(path, order, r, next.value, visit.Remaining());
      var index := next.value.path;
      if visitedOuter && path != [] {
        index := [path[0], nextInnerIndex];
        nextInnerIndex := nextInnerIndex + 1;
      }
      visitedOuter := true;
      r := r + [Visited(next.value, index)];
      ghost var left := visit.Remaining();
      next := visit.Next();
      assert left == if next.None? then [] else [next.value] + visit.Remaining();
    }
  }

  /** The part of `order` before `left` has been numbered. */
  ghost predicate NumberedSoFar(path: seq<nat>, order: seq<Instruction>, r: seq<Visited>, left: seq<Instruction>) {
    |r| + |left| == |order| && left == order[|r|..] && r == Indexed(path, order)[..|r|]
  }

  lemma NumberOne(path: seq<nat>, order: seq<Instruction>, r: seq<Visited>, ix: Instruction, rest: seq<Instruction>)
    requires NumberedSoFar(path, order, r, [ix] + rest)
    ensures var index := if r == [] || path == [] then ix.path else [path[0], |r| - 1];
            NumberedSoFar(path, order, r + [Visited(ix, index)], rest)
  {
    var all := Indexed(path, order);
    assert order[|r|] == order[|r|..][0] == ix && order[|r| + 1..] == order[|r|..][1..] == rest;
    assert all[..|r| + 1] == all[..|r|] + [all[|r|]];
  }

  /** So flat index `[j, k]` names the `k`-th entry of Solana's inner list for outer instruction `j`. */
  lemma FlatIndexIsListPosition(groups: seq<Group>, outer: seq<Instruction>, j: nat, k: nat)
    requires Attach(groups, outer).Some? && j < |outer| && outer[j].inner == [] && outer[j].path == [j]
    requires k < |Listed(groups, j)|
    ensures var visited := FlatVisit(Attach(groups, outer).value[j]);
            && |visited| == 1 + |Listed(groups, j)|
            && visited[0].index == [j]
            && visited[k + 1].index == [j, k]
            && visited[k + 1].ix.program == Listed(groups, j)[k].program
            && visited[k + 1].ix.payload == Listed(groups, j)[k].payload
  {
    VisitOrder(groups, outer, j);
    var ix := Attach(groups, outer).value[j];
    IndexedAt(ix, Preorder(ix.inner), Listed(groups, j), j, k);
  }

  lemma IndexedAt(ix: Instruction, below: seq<Instruction>, flats: seq<Flat>, j: nat, k: nat)
    requires SameOrder(below, flats) && k < |flats| && ix.path == [j]
    ensures var visited := Indexed([j], [ix] + below);
            && |visited| == 1 + |flats| && visited[0].index == [j] && visited[k + 1].index == [j, k]
            && visited[k + 1].ix.program == flats[k].program && visited[k + 1].ix.payload == flats[k].payload
  {
    assert ([ix] + below)[k + 1] == below[k];
  }

  /** An attached outer instruction is visited first, then the entries listed for it in order. */
  lemma VisitOrder(groups: seq<Group>, outer: seq<Instruction>, j: nat)
    requires Attach(groups, outer).Some? && j < |outer| && outer[j].inner == [] && outer[j].path == [j]
    ensures var ix := Attach(groups, outer).value[j];
            && FlatVisit(ix) == Indexed([j], [ix] + Preorder(ix.inner)) && ix.path == [j]
            && SameOrder(Preorder(ix.inner), Listed(groups, j))
  {
    var ix := Attach(groups, outer).value[j];
    AttachKeepsOrder(groups, outer, j, []);
    AttachKeepsOuter(groups, outer, j);
    assert [] + Listed(groups, j) == Listed(groups, j);
    OneTree(ix);
  }

  lemma OneTree(ix: Instruction)
    ensures Preorder([ix]) == [ix] + Preorder(ix.inner)
  {
    assert [ix][1..] == [];
  }
}
