/** What an expanded type says of the type it comes from. */
module GenericsReadBack {
  import opened Basics
  import opened Generics

  // ---- Nodes read back as types ----

  /** The type that a node spells out. */
  function TypeOf(node: Node): Ty
    decreases node
  {
    match node
    case LeafNode(name) => Leaf(name)
    case FixedArray(item, count) => Array(TypeOf(item), Fixed(count))
    case PrefixedArray(item) => Vec(TypeOf(item))
    case OptionNode(item, coption) => Optional(TypeOf(item), coption)
    case GroupNode(shape, items) => Group(shape, TypesOf(items))
    case LinkNode(name) => Defined(name, [])
  }

  function TypesOf(items: seq<Node>): (r: seq<Ty>)
    ensures |r| == |items|
    decreases items
  {
    if items == [] then [] else TypesOf(items[..|items| - 1]) + [TypeOf(items[|items| - 1])]
  }

  function Levels(node: Node): nat
    decreases node
  {
    match node
    case FixedArray(item, _) => 1 + Levels(item)
    case PrefixedArray(item) => 1 + Levels(item)
    case OptionNode(item, _) => 1 + Levels(item)
    case GroupNode(_, items) => 1 + LevelsOf(items)
    case _ => 1
  }

  function LevelsOf(items: seq<Node>): nat
    decreases items
  {
    if items == [] then 0 else Max(LevelsOf(items[..|items| - 1]), Levels(items[|items| - 1]))
  }

  /** Array lengths are within the limit and links name plain definitions. */
  predicate Allowed(d: Defs, node: Node)
    decreases node
  {
    match node
    case LeafNode(_) => true
    case FixedArray(item, count) => count <= MAX_ARRAY_LEN && Allowed(d, item)
    case PrefixedArray(item) => Allowed(d, item)
    case OptionNode(item, _) => Allowed(d, item)
    case GroupNode(_, items) => AllAllowed(d, items)
    case LinkNode(name) => name in d.plain && name !in d.generic
  }

  predicate AllAllowed(d: Defs, items: seq<Node>)
    decreases items
  {
    items == [] || (AllAllowed(d, items[..|items| - 1]) && Allowed(d, items[|items| - 1]))
  }

  /** The type of `node` expands to it exactly if it is allowed and not too deep, and to nothing else. */
  predicate IsItsExpansion(d: Defs, s: Scope, node: Node, left: nat) {
    Expand(d, s, TypeOf(node), left).Ok? == (Allowed(d, node) && Levels(node) <= left)
    && (Expand(d, s, TypeOf(node), left).Ok? ==> Expand(d, s, TypeOf(node), left) == Ok(node))
  }

  predicate AreTheirExpansion(d: Defs, s: Scope, items: seq<Node>, left: nat) {
    ExpandItems(d, s, TypesOf(items), left).Ok? == (AllAllowed(d, items) && LevelsOf(items) <= left)
    && (ExpandItems(d, s, TypesOf(items), left).Ok? ==> ExpandItems(d, s, TypesOf(items), left) == Ok(items))
  }

  /** In any scope, every node is the expansion of its own type. */
  lemma {:induction false} NodeIsItsExpansion(d: Defs, s: Scope, node: Node, left: nat)
    ensures IsItsExpansion(d, s, node, left)
    decreases node, 1
  {
    if node.GroupNode? {
      if left > 0 { NodesAreTheirExpansion(d, s, node.items, left - 1); }
    } else if left > 0 && !node.LeafNode? && !node.LinkNode? {
      NodeIsItsExpansion(d, s, node.item, left - 1);
      WrapperIsItsExpansion(d, s, node, left);
    }
  }

  lemma WrapperIsItsExpansion(d: Defs, s: Scope, node: Node, left: nat)
    requires node.FixedArray? || node.PrefixedArray? || node.OptionNode?
    requires left > 0 && IsItsExpansion(d, s, node.item, left - 1)
    ensures IsItsExpansion(d, s, node, left)
  {
  }

  lemma {:induction false} NodesAreTheirExpansion(d: Defs, s: Scope, items: seq<Node>, left: nat)
    ensures AreTheirExpansion(d, s, items, left)
    decreases items, 0
  {
    if items != [] {
      var n := |items| - 1;
      NodesAreTheirExpansion(d, s, items[..n], left);
      NodeIsItsExpansion(d, s, items[n], left);
      LastIsItsExpansion(d, s, items, left);
    }
  }

  lemma LastIsItsExpansion(d: Defs, s: Scope, items: seq<Node>, left: nat)
    requires items != [] && AreTheirExpansion(d, s, items[..|items| - 1], left)
    requires IsItsExpansion(d, s, items[|items| - 1], left)
    ensures AreTheirExpansion(d, s, items, left)
  {
    var n := |items| - 1;
    var types := TypesOf(items);
    assert types[..n] == TypesOf(items[..n]) && types[n] == TypeOf(items[n]);
    assert items == items[..n] + [items[n]];
  }

  /** Whatever expands, generic or not, gives an allowed node. */
  lemma {:induction false} ExpandedIsAllowed(d: Defs, s: Scope, ty: Ty, left: nat)
    requires Expand(d, s, ty, left).Ok?
    ensures Allowed(d, Expand(d, s, ty, left).value) && Levels(Expand(d, s, ty, left).value) <= left
    decreases left, 0
  {
    match ty
    case Leaf(_) =>
    case Array(item, _) => ExpandedIsAllowed(d, s, item, left - 1);
    case Vec(item) => ExpandedIsAllowed(d, s, item, left - 1);
    case Optional(item, _) => ExpandedIsAllowed(d, s, item, left - 1);
    case Alias(target) => ExpandedIsAllowed(d, s, target, left - 1);
    case Generic(name) => ExpandedIsAllowed(d, s, s.types[name].ty, left - 1);
    case Group(_, items) => ExpandedItemsAreAllowed(d, s, items, left - 1);
    case Defined(name, args) =>
      if args != [] {
        var def := d.generic[name];
        ExpandedIsAllowed(d, Bind(s, def.params, args, |def.params|).value, def.body, left - 1);
      }
  }

  lemma {:induction false} ExpandedItemsAreAllowed(d: Defs, s: Scope, items: seq<Ty>, left: nat)
    requires ExpandItems(d, s, items, left).Ok?
    ensures AllAllowed(d, ExpandItems(d, s, items, left).value) && LevelsOf(ExpandItems(d, s, items, left).value) <= left
    decreases left, 1 + |items|
  {
    if items != [] {
      ExpandedItemsAreAllowed(d, s, items[..|items| - 1], left);
      ExpandedIsAllowed(d, s, items[|items| - 1], left);
    }
  }

  // ---- Types without parameters read back ----

  /** Nothing but aliases stands between the type and its node. */
  predicate Concrete(ty: Ty)
    decreases ty
  {
    match ty
    case Leaf(_) => true
    case Num(_) => false
    case Array(item, len) => Concrete(item) && len.Fixed?
    case Vec(item) => Concrete(item)
    case Optional(item, _) => Concrete(item)
    case Alias(target) => Concrete(target)
    case Generic(_) => false
    case Defined(_, args) => args == []
    case Group(_, items) => AllConcrete(items)
  }

  predicate AllConcrete(items: seq<Ty>)
    decreases items
  {
    items == [] || (AllConcrete(items[..|items| - 1]) && Concrete(items[|items| - 1]))
  }

  function WithoutAliases(ty: Ty): Ty
    decreases ty
  {
    match ty
    case Array(item, len) => Array(WithoutAliases(item), len)
    case Vec(item) => Vec(WithoutAliases(item))
    case Optional(item, coption) => Optional(WithoutAliases(item), coption)
    case Alias(target) => WithoutAliases(target)
    case Group(shape, items) => Group(shape, AllWithoutAliases(items))
    case _ => ty
  }

  function AllWithoutAliases(items: seq<Ty>): (r: seq<Ty>)
    ensures |r| == |items|
    decreases items
  {
    if items == [] then [] else AllWithoutAliases(items[..|items| - 1]) + [WithoutAliases(items[|items| - 1])]
  }

  /** A concrete type that expands is read back from its node, its aliases looked through. */
  lemma {:induction false} ConcreteReadsBack(d: Defs, s: Scope, ty: Ty, left: nat)
    requires Concrete(ty) && Expand(d, s, ty, left).Ok?
    ensures TypeOf(Expand(d, s, ty, left).value) == WithoutAliases(ty)
    decreases ty
  {
    match ty
    case Leaf(_) =>
    case Array(item, _) => ConcreteReadsBack(d, s, item, left - 1);
    case Vec(item) => ConcreteReadsBack(d, s, item, left - 1);
    case Optional(item, _) => ConcreteReadsBack(d, s, item, left - 1);
    case Alias(target) => ConcreteReadsBack(d, s, target, left - 1);
    case Group(_, items) => ConcreteItemsReadBack(d, s, items, left - 1);
    case Defined(_, _) =>
  }

  lemma {:induction false} ConcreteItemsReadBack(d: Defs, s: Scope, items: seq<Ty>, left: nat)
    requires AllConcrete(items) && ExpandItems(d, s, items, left).Ok?
    ensures TypesOf(ExpandItems(d, s, items, left).value) == AllWithoutAliases(items)
    decreases items
  {
    if items != [] {
      var n := |items| - 1;
      ConcreteItemsReadBack(d, s, items[..n], left);
      ConcreteReadsBack(d, s, items[n], left);
      var nodes := ExpandItems(d, s, items, left).value;
      assert nodes[..n] == ExpandItems(d, s, items[..n], left).value;
    }
  }

  // ---- What a parameter stands for ----

  /** The argument of parameter `i`, resolved by the caller; one that is not given is missing. */
  function Given(s: Scope, args: seq<Arg>, i: nat): Result<Arg> {
    if i < |args| then ResolveArg(s, args[i], 0) else Ok(Missing)
  }

  predicate IsLast(params: seq<Parameter>, n: nat, i: nat)
    requires i < n <= |params|
  {
    forall j :: i < j < n ==> params[j] != params[i]
  }

  /** Every parameter is bound to the argument at its place, a repeated one to its last. */
  lemma {:induction false} BindLooksUp(s: Scope, params: seq<Parameter>, args: seq<Arg>, n: nat, i: nat)
    requires i < n <= |params| && Bind(s, params, args, n).Ok? && IsLast(params, n, i)
    ensures Given(s, args, i).Ok?
    ensures var inner, p := Bind(s, params, args, n).value, params[i];
            if p.isConst then p.name in inner.consts && inner.consts[p.name] == Given(s, args, i).value
            else p.name in inner.types && inner.types[p.name] == Given(s, args, i).value
  {
    if i < n - 1 {
      assert params[n - 1] != params[i];
      BindLooksUp(s, params, args, n - 1, i);
    }
  }

  /** Nothing else is in scope. */
  lemma {:induction false} BindAddsOnlyParameters(s: Scope, params: seq<Parameter>, args: seq<Arg>, n: nat)
    requires n <= |params| && Bind(s, params, args, n).Ok?
    ensures forall name :: name in Bind(s, params, args, n).value.consts ==> Parameter(name, true) in params[..n]
    ensures forall name :: name in Bind(s, params, args, n).value.types ==> Parameter(name, false) in params[..n]
  {
    if n > 0 {
      BindAddsOnlyParameters(s, params, args, n - 1);
      assert params[..n] == params[..n - 1] + [params[n - 1]];
    }
  }

  /** The const parameter is given as a number, or as a type that is one. */
  predicate IsNumber(s: Scope, name: string, n: nat) {
    name in s.consts && (s.consts[name] == ConstArg(Literal(Some(n))) || s.consts[name] == TypeArg(Num(n)))
  }

  /** An array as long as a parameter is an array of that fixed length; with no number there is no array. */
  lemma ParameterIsLength(d: Defs, s: Scope, item: Ty, name: string, left: nat)
    ensures forall n :: IsNumber(s, name, n) ==>
              Expand(d, s, Array(item, Param(name)), left) == Expand(d, s, Array(item, Fixed(n)), left)
    ensures (forall n :: !IsNumber(s, name, n)) && left > 1 && Expand(d, s, item, left - 1).Ok? ==>
              Expand(d, s, Array(item, Param(name)), left) == Err(InvalidArrayLength)
  {
    if name in s.consts && ConstValue(s.consts[name]).Some? {
      assert IsNumber(s, name, ConstValue(s.consts[name]).value);
    }
  }

  /** Why a reference to a definition fails before its body is looked at. */
  lemma ReferencesFail(d: Defs, s: Scope, name: string, args: seq<Arg>, left: nat)
    requires left > 0
    ensures var r := Expand(d, s, Defined(name, args), left);
            && (args == [] && name in d.generic ==> r == Err(GenericArgsMissing))
            && (args == [] && name !in d.generic && name !in d.plain ==> r == Err(UndefinedType))
            && (args != [] && name !in d.generic ==> r == Err(GenericTypeMissing))
            && (args != [] && name in d.generic && d.generic[name].isEnum ==> r == Err(GenericEnum))
  {
  }
}
