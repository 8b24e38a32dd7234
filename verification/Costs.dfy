/** What the expansion of a type costs: one unit for every node visited and for every node copied. */
module GenericsCosts {
  import opened Basics
  import opened Generics

  // ---- Sizes ----

  function TySize(ty: Ty): nat
    decreases ty
  {
    match ty
    case Array(item, _) => 1 + TySize(item)
    case Vec(item) => 1 + TySize(item)
    case Optional(item, _) => 1 + TySize(item)
    case Alias(target) => 1 + TySize(target)
    case Defined(_, args) => 1 + ArgsSize(args)
    case Group(_, items) => 1 + ItemsSize(items)
    case _ => 1
  }

  function ItemsSize(items: seq<Ty>): nat
    decreases items
  {
    if items == [] then 0 else ItemsSize(items[..|items| - 1]) + TySize(items[|items| - 1])
  }

  function ArgSize(arg: Arg): nat
    decreases arg
  {
    if arg.TypeArg? then 1 + TySize(arg.ty) else 1
  }

  function ArgsSize(args: seq<Arg>): nat
    decreases args
  {
    if args == [] then 0 else ArgsSize(args[..|args| - 1]) + ArgSize(args[|args| - 1])
  }

  function NodeSize(n: Node): nat
    decreases n
  {
    match n
    case LeafNode(_) => 1
    case FixedArray(item, _) => 1 + NodeSize(item)
    case PrefixedArray(item) => 1 + NodeSize(item)
    case OptionNode(item, _) => 1 + NodeSize(item)
    case GroupNode(_, items) => 1 + NodesSize(items)
    case LinkNode(_) => 1
  }

  function NodesSize(nodes: seq<Node>): nat
    decreases nodes
  {
    if nodes == [] then 0 else NodesSize(nodes[..|nodes| - 1]) + NodeSize(nodes[|nodes| - 1])
  }

  // ---- Copying ----

  /** A copy is paid for node by node, until it is complete or nested too deep. */
  function SpendCost(ty: Ty, depth: nat): nat
    decreases ty
  {
    if depth > NESTING_LIMIT then 0 else
      1 + match ty
          case Array(item, _) => SpendCost(item, depth + 1)
          case Vec(item) => SpendCost(item, depth + 1)
          case Optional(item, _) => SpendCost(item, depth + 1)
          case Alias(target) => SpendCost(target, depth + 1)
          case Defined(_, args) => SpendArgsCost(args, depth)
          case Group(_, items) => SpendItemsCost(items, depth)
          case _ => 0
  }

  function SpendItemsCost(items: seq<Ty>, depth: nat): nat
    decreases items
  {
    if items == [] then 0 else
      var init := items[..|items| - 1];
      SpendItemsCost(init, depth)
      + if depth + DepthOfItems(init) > NESTING_LIMIT then 0 else SpendCost(items[|items| - 1], depth + 1)
  }

  function SpendArgCost(arg: Arg, depth: nat): nat
    decreases arg
  {
    if depth > NESTING_LIMIT then 0 else 1 + if arg.TypeArg? then SpendCost(arg.ty, depth + 1) else 0
  }

  function SpendArgsCost(args: seq<Arg>, depth: nat): nat
    decreases args
  {
    if args == [] then 0 else
      var init := args[..|args| - 1];
      SpendArgsCost(init, depth)
      + if depth + DepthOfArgs(init) > NESTING_LIMIT then 0 else SpendArgCost(args[|args| - 1], depth + 1)
  }

  /** A complete copy costs its size. */
  lemma {:induction false} CopyCostsItsSize(ty: Ty, depth: nat)
    ensures SpendCost(ty, depth) <= TySize(ty)
    ensures depth + Depth(ty) <= NESTING_LIMIT ==> SpendCost(ty, depth) == TySize(ty)
    decreases ty
  {
    match ty
    case Array(item, _) => CopyCostsItsSize(item, depth + 1);
    case Vec(item) => CopyCostsItsSize(item, depth + 1);
    case Optional(item, _) => CopyCostsItsSize(item, depth + 1);
    case Alias(target) => CopyCostsItsSize(target, depth + 1);
    case Defined(_, args) => CopiedArgsCost(args, depth);
    case Group(_, items) => CopiedItemsCost(items, depth);
    case Leaf(_) =>
    case Num(_) =>
    case Generic(_) =>
  }

  lemma {:induction false} CopiedItemsCost(items: seq<Ty>, depth: nat)
    ensures SpendItemsCost(items, depth) <= ItemsSize(items)
    ensures depth + DepthOfItems(items) <= NESTING_LIMIT ==> SpendItemsCost(items, depth) == ItemsSize(items)
    decreases items
  {
    if items != [] {
      CopiedItemsCost(items[..|items| - 1], depth);
      CopyCostsItsSize(items[|items| - 1], depth + 1);
    }
  }

  lemma {:induction false} CopiedArgCost(arg: Arg, depth: nat)
    ensures SpendArgCost(arg, depth) <= ArgSize(arg)
    ensures depth + DepthOfArg(arg) <= NESTING_LIMIT ==> SpendArgCost(arg, depth) == ArgSize(arg)
    decreases arg
  {
    if arg.TypeArg? { CopyCostsItsSize(arg.ty, depth + 1); }
  }

  lemma {:induction false} CopiedArgsCost(args: seq<Arg>, depth: nat)
    ensures SpendArgsCost(args, depth) <= ArgsSize(args)
    ensures depth + DepthOfArgs(args) <= NESTING_LIMIT ==> SpendArgsCost(args, depth) == ArgsSize(args)
    decreases args
  {
    if args != [] {
      CopiedArgsCost(args[..|args| - 1], depth);
      CopiedArgCost(args[|args| - 1], depth + 1);
    }
  }

  // ---- Resolving ----

  function ResolveNameCost(s: Scope, name: string, depth: nat): nat {
    if BindsType(s, name) then SpendCost(s.types[name].ty, depth) else 0
  }

  function ResolveLenCost(s: Scope, len: Len, depth: nat): nat {
    1 + if len.Param? then ResolveNameCost(s, len.name, depth) else 0
  }

  /** Every node of the argument up to the first error, and the copies that take the place of names. */
  function ResolveCost(s: Scope, ty: Ty, depth: nat): nat
    decreases ty
  {
    if depth > NESTING_LIMIT then 0 else
      1 + match ty
          case Leaf(_) => 0
          case Num(_) => 0
          case Array(item, len) =>
            ResolveCost(s, item, depth + 1)
            + if ResolveTy(s, item, depth + 1).Err? then 0 else ResolveLenCost(s, len, depth + 1)
          case Vec(item) => ResolveCost(s, item, depth + 1)
          case Optional(item, _) => ResolveCost(s, item, depth + 1)
          case Alias(target) => ResolveCost(s, target, depth + 1)
          case Generic(name) => ResolveNameCost(s, name, depth)
          case Defined(_, args) => ResolveArgsCost(s, args, depth + 1)
          case Group(_, items) => ResolveItemsCost(s, items, depth + 1)
  }

  function ResolveItemsCost(s: Scope, items: seq<Ty>, depth: nat): nat
    decreases items
  {
    if items == [] then 0 else
      var init := items[..|items| - 1];
      ResolveItemsCost(s, init, depth)
      + if ResolveItems(s, init, depth).Err? then 0 else ResolveCost(s, items[|items| - 1], depth)
  }

  function ResolveArgCost(s: Scope, arg: Arg, depth: nat): nat
    decreases arg
  {
    if depth > NESTING_LIMIT then 0 else
      1 + match arg
          case TypeArg(ty) => ResolveCost(s, ty, depth + 1)
          case ConstArg(Name(name)) => if name in s.consts then SpendArgCost(s.consts[name], depth) else 0
          case _ => 0
  }

  function ResolveArgsCost(s: Scope, args: seq<Arg>, depth: nat): nat
    decreases args
  {
    if args == [] then 0 else
      var init := args[..|args| - 1];
      ResolveArgsCost(s, init, depth)
      + if ResolveArgs(s, init, depth).Err? then 0 else ResolveArgCost(s, args[|args| - 1], depth)
  }

  /** Binding resolves the arguments in turn, up to the first error. */
  function BindCost(s: Scope, params: seq<Parameter>, args: seq<Arg>, n: nat): nat
    requires n <= |params|
  {
    if n == 0 then 0 else
      BindCost(s, params, args, n - 1)
      + if Bind(s, params, args, n - 1).Err? || n - 1 >= |args| then 0 else ResolveArgCost(s, args[n - 1], 0)
  }

  // ---- Expanding ----

  /** Every node visited up to the first error, bodies of generic types included. */
  function ExpandCost(d: Defs, s: Scope, ty: Ty, left: nat): nat
    decreases left, 0
  {
    if left == 0 then 0 else
      1 + match ty
          case Leaf(_) => 0
          case Num(_) => 0
          case Array(item, _) => ExpandCost(d, s, item, left - 1)
          case Vec(item) => ExpandCost(d, s, item, left - 1)
          case Optional(item, _) => ExpandCost(d, s, item, left - 1)
          case Alias(target) => ExpandCost(d, s, target, left - 1)
          case Generic(name) => if BindsType(s, name) then ExpandCost(d, s, s.types[name].ty, left - 1) else 0
          case Defined(name, args) => UseCost(d, s, name, args, left - 1)
          case Group(_, items) => ExpandItemsCost(d, s, items, left - 1)
  }

  function UseCost(d: Defs, s: Scope, name: string, args: seq<Arg>, left: nat): nat
    decreases left, 2
  {
    if args == [] || name !in d.generic || d.generic[name].isEnum then 0 else
      var def := d.generic[name];
      var inner := Bind(s, def.params, args, |def.params|);
      BindCost(s, def.params, args, |def.params|) + if inner.Err? then 0 else ExpandCost(d, inner.value, def.body, left)
  }

  function ExpandItemsCost(d: Defs, s: Scope, items: seq<Ty>, left: nat): nat
    decreases left, 1 + |items|
  {
    if items == [] then 0 else
      var init := items[..|items| - 1];
      ExpandItemsCost(d, s, init, left)
      + if ExpandItems(d, s, init, left).Err? then 0 else ExpandCost(d, s, items[|items| - 1], left)
  }

  // ---- What a cost is worth ----

  lemma {:induction false} ResolvedFits(s: Scope, ty: Ty, depth: nat)
    ensures ResolveTy(s, ty, depth).Ok? ==> TySize(ResolveTy(s, ty, depth).value) <= ResolveCost(s, ty, depth)
    decreases ty
  {
    match ty
    case Array(item, _) => ResolvedFits(s, item, depth + 1);
    case Vec(item) => ResolvedFits(s, item, depth + 1);
    case Optional(item, _) => ResolvedFits(s, item, depth + 1);
    case Alias(target) => ResolvedFits(s, target, depth + 1);
    case Defined(_, args) => ResolvedArgsFit(s, args, depth + 1);
    case Group(_, items) => ResolvedItemsFit(s, items, depth + 1);
    case Generic(name) => if BindsType(s, name) { CopyCostsItsSize(s.types[name].ty, depth); }
    case Leaf(_) =>
    case Num(_) =>
  }

  lemma {:induction false} ResolvedItemsFit(s: Scope, items: seq<Ty>, depth: nat)
    ensures ResolveItems(s, items, depth).Ok? ==>
              ItemsSize(ResolveItems(s, items, depth).value) <= ResolveItemsCost(s, items, depth)
    decreases items
  {
    if items != [] {
      var init := items[..|items| - 1];
      ResolvedItemsFit(s, init, depth);
      ResolvedFits(s, items[|items| - 1], depth);
      if ResolveItems(s, items, depth).Ok? { TakeBack(ResolveItems(s, init, depth).value, ResolveTy(s, items[|items| - 1], depth).value); }
    }
  }

  lemma {:induction false} ResolvedArgFits(s: Scope, arg: Arg, depth: nat)
    ensures ResolveArg(s, arg, depth).Ok? ==> ArgSize(ResolveArg(s, arg, depth).value) <= ResolveArgCost(s, arg, depth)
    decreases arg
  {
    if arg.TypeArg? { ResolvedFits(s, arg.ty, depth + 1); }
    if arg.ConstArg? && arg.value.Name? && arg.value.name in s.consts { CopiedArgCost(s.consts[arg.value.name], depth); }
  }

  lemma {:induction false} ResolvedArgsFit(s: Scope, args: seq<Arg>, depth: nat)
    ensures ResolveArgs(s, args, depth).Ok? ==>
              ArgsSize(ResolveArgs(s, args, depth).value) <= ResolveArgsCost(s, args, depth)
    decreases args
  {
    if args != [] {
      var init := args[..|args| - 1];
      ResolvedArgsFit(s, init, depth);
      ResolvedArgFits(s, args[|args| - 1], depth);
      if ResolveArgs(s, args, depth).Ok? { TakeBack(ResolveArgs(s, init, depth).value, ResolveArg(s, args[|args| - 1], depth).value); }
    }
  }

  lemma TakeBack<T>(s: seq<T>, last: T)
    ensures (s + [last])[..|s + [last]| - 1] == s
  {
  }

  /** A node never costs less than its size. */
  lemma {:induction false} ExpandedFits(d: Defs, s: Scope, ty: Ty, left: nat)
    ensures Expand(d, s, ty, left).Ok? ==> NodeSize(Expand(d, s, ty, left).value) <= ExpandCost(d, s, ty, left)
    decreases left, 0
  {
    if left > 0 {
      match ty
      case Array(item, _) => ExpandedFits(d, s, item, left - 1);
      case Vec(item) => ExpandedFits(d, s, item, left - 1);
      case Optional(item, _) => ExpandedFits(d, s, item, left - 1);
      case Alias(target) => ExpandedFits(d, s, target, left - 1);
      case Generic(name) => if BindsType(s, name) { ExpandedFits(d, s, s.types[name].ty, left - 1); }
      case Defined(name, args) => UseFits(d, s, name, args, left - 1);
      case Group(_, items) => ExpandedItemsFit(d, s, items, left - 1);
      case Leaf(_) =>
      case Num(_) =>
    }
  }

  lemma {:induction false} UseFits(d: Defs, s: Scope, name: string, args: seq<Arg>, left: nat)
    ensures var r := Expand(d, s, Defined(name, args), left + 1);
            r.Ok? ==> NodeSize(r.value) <= UseCost(d, s, name, args, left) + 1
    decreases left, 2
  {
    if args != [] && name in d.generic && !d.generic[name].isEnum {
      var inner := Bind(s, d.generic[name].params, args, |d.generic[name].params|);
      if inner.Ok? { ExpandedFits(d, inner.value, d.generic[name].body, left); }
    }
  }

  lemma {:induction false} ExpandedItemsFit(d: Defs, s: Scope, items: seq<Ty>, left: nat)
    ensures ExpandItems(d, s, items, left).Ok? ==>
              NodesSize(ExpandItems(d, s, items, left).value) <= ExpandItemsCost(d, s, items, left)
    decreases left, 1 + |items|
  {
    if items != [] {
      var init := items[..|items| - 1];
      ExpandedItemsFit(d, s, init, left);
      ExpandedFits(d, s, items[|items| - 1], left);
      if ExpandItems(d, s, items, left).Ok? { TakeBack(ExpandItems(d, s, init, left).value, Expand(d, s, items[|items| - 1], left).value); }
    }
  }

  // ---- Costs without generics ----

  /** No parameter and no use with arguments. */
  predicate Plain(ty: Ty)
    decreases ty
  {
    match ty
    case Leaf(_) => true
    case Num(_) => true
    case Array(item, _) => Plain(item)
    case Vec(item) => Plain(item)
    case Optional(item, _) => Plain(item)
    case Alias(target) => Plain(target)
    case Generic(_) => false
    case Defined(_, args) => args == []
    case Group(_, items) => forall i :: 0 <= i < |items| ==> Plain(items[i])
  }

  /** Without generics an expansion costs exactly the size of the type. */
  lemma {:induction false} PlainCostsItsSize(d: Defs, s: Scope, ty: Ty, left: nat)
    requires Plain(ty)
    ensures ExpandCost(d, s, ty, left) <= TySize(ty)
    ensures Expand(d, s, ty, left).Ok? ==> ExpandCost(d, s, ty, left) == TySize(ty)
    decreases left, 0
  {
    if left > 0 {
      match ty
      case Array(item, _) => PlainCostsItsSize(d, s, item, left - 1);
      case Vec(item) => PlainCostsItsSize(d, s, item, left - 1);
      case Optional(item, _) => PlainCostsItsSize(d, s, item, left - 1);
      case Alias(target) => PlainCostsItsSize(d, s, target, left - 1);
      case Group(_, items) => PlainItemsCost(d, s, items, left - 1);
      case Defined(_, _) =>
      case Leaf(_) =>
      case Num(_) =>
    }
  }

  lemma {:induction false} PlainItemsCost(d: Defs, s: Scope, items: seq<Ty>, left: nat)
    requires forall i :: 0 <= i < |items| ==> Plain(items[i])
    ensures ExpandItemsCost(d, s, items, left) <= ItemsSize(items)
    ensures ExpandItems(d, s, items, left).Ok? ==> ExpandItemsCost(d, s, items, left) == ItemsSize(items)
    decreases left, 1 + |items|
  {
    if items != [] {
      PlainItemsCost(d, s, items[..|items| - 1], left);
      PlainCostsItsSize(d, s, items[|items| - 1], left);
    }
  }

  /** How many array lengths a type writes. */
  function Lengths(ty: Ty): nat
    decreases ty
  {
    match ty
    case Array(item, _) => 1 + Lengths(item)
    case Vec(item) => Lengths(item)
    case Optional(item, _) => Lengths(item)
    case Alias(target) => Lengths(target)
    case Defined(_, args) => LengthsInArgs(args)
    case Group(_, items) => LengthsInItems(items)
    case _ => 0
  }

  function LengthsInItems(items: seq<Ty>): nat
    decreases items
  {
    if items == [] then 0 else LengthsInItems(items[..|items| - 1]) + Lengths(items[|items| - 1])
  }

  function LengthsInArgs(args: seq<Arg>): nat
    decreases args
  {
    if args == [] then 0 else LengthsInArgs(args[..|args| - 1]) + LengthsInArg(args[|args| - 1])
  }

  function LengthsInArg(arg: Arg): nat
    decreases arg
  {
    if arg.TypeArg? then Lengths(arg.ty) else 0
  }

  /** An argument that names no parameter costs its nodes and its lengths to resolve. */
  lemma {:induction false} ClosedCostsItsSize(s: Scope, ty: Ty, depth: nat)
    requires Closed(ty)
    ensures ResolveTy(s, ty, depth).Ok? ==> ResolveCost(s, ty, depth) == TySize(ty) + Lengths(ty)
    decreases ty
  {
    match ty
    case Array(item, _) => ClosedCostsItsSize(s, item, depth + 1);
    case Vec(item) => ClosedCostsItsSize(s, item, depth + 1);
    case Optional(item, _) => ClosedCostsItsSize(s, item, depth + 1);
    case Alias(target) => ClosedCostsItsSize(s, target, depth + 1);
    case Defined(_, args) => ClosedArgsCost(s, args, depth + 1);
    case Group(_, items) => ClosedItemsCost(s, items, depth + 1);
    case Leaf(_) =>
    case Num(_) =>
  }

  lemma {:induction false} ClosedItemsCost(s: Scope, items: seq<Ty>, depth: nat)
    requires ItemsClosed(items)
    ensures ResolveItems(s, items, depth).Ok? ==> ResolveItemsCost(s, items, depth) == ItemsSize(items) + LengthsInItems(items)
    decreases items
  {
    if items != [] {
      ClosedItemsCost(s, items[..|items| - 1], depth);
      ClosedCostsItsSize(s, items[|items| - 1], depth);
    }
  }

  lemma {:induction false} ClosedArgsCost(s: Scope, args: seq<Arg>, depth: nat)
    requires ArgsClosed(args)
    ensures ResolveArgs(s, args, depth).Ok? ==> ResolveArgsCost(s, args, depth) == ArgsSize(args) + LengthsInArgs(args)
    decreases args
  {
    if args != [] {
      ClosedArgsCost(s, args[..|args| - 1], depth);
      ClosedArgCost(s, args[|args| - 1], depth);
    }
  }

  lemma {:induction false} ClosedArgCost(s: Scope, arg: Arg, depth: nat)
    requires ArgClosed(arg)
    ensures ResolveArg(s, arg, depth).Ok? ==> ResolveArgCost(s, arg, depth) == ArgSize(arg) + LengthsInArg(arg)
    decreases arg
  {
    if arg.TypeArg? { ClosedCostsItsSize(s, arg.ty, depth + 1); }
  }
}
