/** The converter that expands generic types in place of their uses, on a shared node budget. */
module GenericsExpander {
  import opened Basics
  import opened Generics
  import opened GenericsCosts

  const TYPE_NODE_LIMIT: nat := 100_000

  lemma Longer<T>(s: seq<T>, i: nat)
    requires i < |s|
    ensures s[..i + 1] == s[..i] + [s[i]] && s[..i + 1][..i] == s[..i]
  {
  }

  class Expander {
    const defs: Defs
    /** How many more type nodes may be visited. */
    var budget: nat

    constructor (defs: Defs)
      ensures this.defs == defs && budget == TYPE_NODE_LIMIT
    {
      this.defs, budget := defs, TYPE_NODE_LIMIT;
    }

    method Spend() returns (ok: bool)
      modifies this`budget
      ensures ok <==> old(budget) > 0
      ensures budget == if ok then old(budget) - 1 else 0
    {
      ok := budget > 0;
      if ok { budget := budget - 1; }
    }

    /** A copy costs its size. */
    method SpendOn(ty: Ty, depth: nat) returns (err: Option<Error>)
      modifies this`budget
      ensures err == CopyFails(old(budget), SpendCost(ty, depth), depth + Depth(ty))
      ensures budget == Remaining(old(budget), SpendCost(ty, depth))
      ensures err.None? ==> old(budget) == budget + TySize(ty) && depth + Depth(ty) <= NESTING_LIMIT
      ensures err == Some(TooLarge) ==> old(budget) < TySize(ty)
      decreases ty, 1
    {
      CopyCostsItsSize(ty, depth);
      if depth > NESTING_LIMIT { return Some(RecursionLimit); }
      var ok := Spend();
      if !ok { return Some(TooLarge); }
      err := SpendOnParts(ty, depth);
    }

    method SpendOnParts(ty: Ty, depth: nat) returns (err: Option<Error>)
      requires depth <= NESTING_LIMIT
      modifies this`budget
      ensures err == CopyFails(old(budget), SpendCost(ty, depth) - 1, depth + Depth(ty))
      ensures budget == Remaining(old(budget), SpendCost(ty, depth) - 1)
      decreases ty, 0
    {
      err := None;
      match ty {
        case Array(item, _) => err := SpendOn(item, depth + 1);
        case Vec(item) => err := SpendOn(item, depth + 1);
        case Optional(item, _) => err := SpendOn(item, depth + 1);
        case Alias(target) => err := SpendOn(target, depth + 1);
        case Defined(_, args) => err := SpendOnArgs(args, depth);
        case Group(_, items) => err := SpendOnItems(items, depth);
        case Leaf(_) =>
        case Num(_) =>
        case Generic(_) =>
      }
    }

    method SpendOnItems(items: seq<Ty>, depth: nat) returns (err: Option<Error>)
      requires depth <= NESTING_LIMIT
      modifies this`budget
      ensures err == CopyFails(old(budget), SpendItemsCost(items, depth), depth + DepthOfItems(items))
      ensures budget == Remaining(old(budget), SpendItemsCost(items, depth))
      decreases items
    {
      if items == [] { return None; }
      err := SpendOnItems(items[..|items| - 1], depth);
      if err.None? { err := SpendOn(items[|items| - 1], depth + 1); }
    }

    method SpendOnArgs(args: seq<Arg>, depth: nat) returns (err: Option<Error>)
      requires depth <= NESTING_LIMIT
      modifies this`budget
      ensures err == CopyFails(old(budget), SpendArgsCost(args, depth), depth + DepthOfArgs(args))
      ensures budget == Remaining(old(budget), SpendArgsCost(args, depth))
      decreases args
    {
      if args == [] { return None; }
      err := SpendOnArgs(args[..|args| - 1], depth);
      if err.None? { err := SpendOnArg(args[|args| - 1], depth + 1); }
    }

    method SpendOnArg(arg: Arg, depth: nat) returns (err: Option<Error>)
      modifies this`budget
      ensures err == CopyFails(old(budget), SpendArgCost(arg, depth), depth + DepthOfArg(arg))
      ensures budget == Remaining(old(budget), SpendArgCost(arg, depth))
      decreases arg
    {
      if depth > NESTING_LIMIT { return Some(RecursionLimit); }
      var ok := Spend();
      if !ok { return Some(TooLarge); }
      err := None;
      if arg.TypeArg? { err := SpendOn(arg.ty, depth + 1); }
    }

    // ---- Resolving ----

    method ResolveNameIn(s: Scope, name: string, depth: nat) returns (r: Result<Ty>)
      modifies this`budget
      ensures r == Afforded(old(budget), ResolveNameCost(s, name, depth), ResolveName(s, name, depth))
      ensures budget == Remaining(old(budget), ResolveNameCost(s, name, depth))
    {
      if BindsType(s, name) {
        var err := SpendOn(s.types[name].ty, depth);
        return if err.Some? then Err(err.value) else Ok(s.types[name].ty);
      }
      r := ResolveName(s, name, depth);
    }

    /** A length costs a visit, and a parameter in its place the copy it stands for. */
    method ResolveLenIn(s: Scope, len: Len, depth: nat) returns (r: Result<Len>)
      requires depth <= NESTING_LIMIT
      modifies this`budget
      ensures r == Afforded(old(budget), ResolveLenCost(s, len, depth), ResolveLen(s, len, depth))
      ensures budget == Remaining(old(budget), ResolveLenCost(s, len, depth))
    {
      var ok := Spend();
      if !ok { return Err(TooLarge); }
      if !len.Param? { return Ok(len); }
      var t := ResolveNameIn(s, len.name, depth);
      r := match t
        case Ok(Num(n)) => Ok(Fixed(n))
        case Ok(_) => Ok(NotALength)
        case Err(e) => Err(e);
    }

    /** `ty` with this scope's references replaced; the result is paid for. */
    method Resolve(s: Scope, ty: Ty, depth: nat) returns (r: Result<Ty>)
      modifies this`budget
      ensures r == Afforded(old(budget), ResolveCost(s, ty, depth), ResolveTy(s, ty, depth))
      ensures budget == Remaining(old(budget), ResolveCost(s, ty, depth))
      ensures r.Ok? ==> TySize(r.value) <= old(budget) - budget
      decreases ty, 2
    {
      ResolvedFits(s, ty, depth);
      if depth > NESTING_LIMIT { return Err(RecursionLimit); }
      var ok := Spend();
      if !ok { return Err(TooLarge); }
      r := ResolveParts(s, ty, depth);
    }

    method ResolveParts(s: Scope, ty: Ty, depth: nat) returns (r: Result<Ty>)
      requires depth <= NESTING_LIMIT
      modifies this`budget
      ensures r == Afforded(old(budget), ResolveCost(s, ty, depth) - 1, ResolveTy(s, ty, depth))
      ensures budget == Remaining(old(budget), ResolveCost(s, ty, depth) - 1)
      decreases ty, 1
    {
      match ty {
        case Leaf(_) => r := Ok(ty);
        case Num(_) => r := Ok(ty);
        case Array(item, len) => r := ResolveArray(s, item, len, depth);
        case Vec(item) =>
          var i := Resolve(s, item, depth + 1);
          r := if i.Err? then i else Ok(Vec(i.value));
        case Optional(item, c) =>
          var i := Resolve(s, item, depth + 1);
          r := if i.Err? then i else Ok(Optional(i.value, c));
        case Alias(target) =>
          var i := Resolve(s, target, depth + 1);
          r := if i.Err? then i else Ok(Alias(i.value));
        case Generic(name) => r := ResolveNameIn(s, name, depth);
        case Defined(name, args) =>
          var a := ResolveAll(s, args, depth + 1);
          r := if a.Err? then Err(a.error) else Ok(Defined(name, a.value));
        case Group(shape, items) =>
          var i := ResolveEach(s, items, depth + 1);
          r := if i.Err? then Err(i.error) else Ok(Group(shape, i.value));
      }
    }

    /** First the item, then the length. */
    method ResolveArray(s: Scope, item: Ty, len: Len, depth: nat) returns (r: Result<Ty>)
      requires depth <= NESTING_LIMIT
      modifies this`budget
      ensures r == Afforded(old(budget), ResolveCost(s, Array(item, len), depth) - 1, ResolveTy(s, Array(item, len), depth))
      ensures budget == Remaining(old(budget), ResolveCost(s, Array(item, len), depth) - 1)
      decreases Array(item, len), 0
    {
      var i := Resolve(s, item, depth + 1);
      if i.Err? { return i; }
      if depth + 1 > NESTING_LIMIT { return Err(RecursionLimit); }
      var l := ResolveLenIn(s, len, depth + 1);
      r := if l.Err? then Err(l.error) else Ok(Array(i.value, l.value));
    }

    method ResolveEach(s: Scope, items: seq<Ty>, depth: nat) returns (r: Result<seq<Ty>>)
      modifies this`budget
      ensures r == Afforded(old(budget), ResolveItemsCost(s, items, depth), ResolveItems(s, items, depth))
      ensures budget == Remaining(old(budget), ResolveItemsCost(s, items, depth))
      ensures r.Ok? ==> ItemsSize(r.value) <= old(budget) - budget
      decreases items
    {
      ResolvedItemsFit(s, items, depth);
      if items == [] { return Ok([]); }
      r := ResolveEach(s, items[..|items| - 1], depth);
      if r.Err? { return; }
      var last := Resolve(s, items[|items| - 1], depth);
      if last.Err? { return Err(last.error); }
      r := Ok(r.value + [last.value]);
    }

    method ResolveOne(s: Scope, arg: Arg, depth: nat) returns (r: Result<Arg>)
      modifies this`budget
      ensures r == Afforded(old(budget), ResolveArgCost(s, arg, depth), ResolveArg(s, arg, depth))
      ensures budget == Remaining(old(budget), ResolveArgCost(s, arg, depth))
      ensures r.Ok? ==> ArgSize(r.value) <= old(budget) - budget
      decreases arg
    {
      ResolvedArgFits(s, arg, depth);
      if depth > NESTING_LIMIT { return Err(RecursionLimit); }
      var ok := Spend();
      if !ok { return Err(TooLarge); }
      r := Ok(arg);
      if arg.TypeArg? {
        var t := Resolve(s, arg.ty, depth + 1);
        r := if t.Err? then Err(t.error) else Ok(TypeArg(t.value));
      } else if arg.ConstArg? && arg.value.Name? && arg.value.name in s.consts {
        var err := SpendOnArg(s.consts[arg.value.name], depth);
        r := if err.Some? then Err(err.value) else Ok(s.consts[arg.value.name]);
      }
    }

    method ResolveAll(s: Scope, args: seq<Arg>, depth: nat) returns (r: Result<seq<Arg>>)
      modifies this`budget
      ensures r == Afforded(old(budget), ResolveArgsCost(s, args, depth), ResolveArgs(s, args, depth))
      ensures budget == Remaining(old(budget), ResolveArgsCost(s, args, depth))
      ensures r.Ok? ==> ArgsSize(r.value) <= old(budget) - budget
      decreases args
    {
      ResolvedArgsFit(s, args, depth);
      if args == [] { return Ok([]); }
      r := ResolveAll(s, args[..|args| - 1], depth);
      if r.Err? { return; }
      var last := ResolveOne(s, args[|args| - 1], depth);
      if last.Err? { return Err(last.error); }
      r := Ok(r.value + [last.value]);
    }

    // ---- Expanding ----

    /** The node that `Expand` gives, unless it costs more than the budget; a node costs at least its size. */
    method TypeNodeAt(s: Scope, ty: Ty, depth: nat) returns (r: Result<Node>)
      requires depth <= NESTING_LIMIT
      modifies this`budget
      ensures var left := NESTING_LIMIT - depth;
              && r == Afforded(old(budget), ExpandCost(defs, s, ty, left), Expand(defs, s, ty, left))
              && budget == Remaining(old(budget), ExpandCost(defs, s, ty, left))
      ensures r.Ok? ==> NodeSize(r.value) <= old(budget) - budget
      decreases NESTING_LIMIT - depth, 1
    {
      ExpandedFits(defs, s, ty, NESTING_LIMIT - depth);
      if depth >= NESTING_LIMIT { return Err(RecursionLimit); }
      var ok := Spend();
      if !ok { return Err(TooLarge); }
      r := NodeAt(s, ty, depth);
    }

    /** The node, once its visit is paid for. */
    method NodeAt(s: Scope, ty: Ty, depth: nat) returns (r: Result<Node>)
      requires depth < NESTING_LIMIT
      modifies this`budget
      ensures var left := NESTING_LIMIT - depth;
              && r == Afforded(old(budget), ExpandCost(defs, s, ty, left) - 1, Expand(defs, s, ty, left))
              && budget == Remaining(old(budget), ExpandCost(defs, s, ty, left) - 1)
      decreases NESTING_LIMIT - depth, 0
    {
      match ty {
        case Leaf(name) => r := Ok(LeafNode(name));
        case Num(_) => r := Err(Unrecognized);
        case Array(item, len) =>
          r := TypeNodeAt(s, item, depth + 1);
          if r.Err? { return; }
          var n := ArrayLen(s, len);
          r := if n.Err? then Err(n.error) else Ok(FixedArray(r.value, n.value));
        case Vec(item) =>
          r := TypeNodeAt(s, item, depth + 1);
          if r.Ok? { r := Ok(PrefixedArray(r.value)); }
        case Optional(item, c) =>
          r := TypeNodeAt(s, item, depth + 1);
          if r.Ok? { r := Ok(OptionNode(r.value, c)); }
        case Alias(target) => r := TypeNodeAt(s, target, depth + 1);
        case Generic(name) =>
          if !BindsType(s, name) { return Err(GenericArgMissing); }
          r := TypeNodeAt(s, s.types[name].ty, depth + 1);
        case Defined(name, args) => r := DefinedType(s, name, args, depth + 1);
        case Group(shape, items) =>
          var i := Items(s, items, depth + 1);
          r := if i.Err? then Err(i.error) else Ok(GroupNode(shape, i.value));
      }
    }

    method Items(s: Scope, items: seq<Ty>, depth: nat) returns (r: Result<seq<Node>>)
      requires depth <= NESTING_LIMIT
      modifies this`budget
      ensures var left := NESTING_LIMIT - depth;
              && r == Afforded(old(budget), ExpandItemsCost(defs, s, items, left), ExpandItems(defs, s, items, left))
              && budget == Remaining(old(budget), ExpandItemsCost(defs, s, items, left))
      ensures r.Ok? ==> NodesSize(r.value) <= old(budget) - budget
      decreases NESTING_LIMIT - depth, 2
    {
      ghost var left := NESTING_LIMIT - depth;
      ExpandedItemsFit(defs, s, items, left);
      var out: seq<Node> := [];
      for i := 0 to |items|
        invariant ExpandItems(defs, s, items[..i], left) == Ok(out)
        invariant old(budget) == budget + ExpandItemsCost(defs, s, items[..i], left)
      {
        Longer(items, i);
        ItemsCostGrows(defs, s, items, left, i + 1);
        var n := TypeNodeAt(s, items[i], depth);
        if n.Err? { return Err(n.error); }
        out := out + [n.value];
      }
      assert items[..|items|] == items;
      r := Ok(out);
    }

    method BindParameters(s: Scope, params: seq<Parameter>, args: seq<Arg>) returns (r: Result<Scope>)
      modifies this`budget
      ensures r == Afforded(old(budget), BindCost(s, params, args, |params|), Bind(s, params, args, |params|))
      ensures budget == Remaining(old(budget), BindCost(s, params, args, |params|))
    {
      var scope := PLAIN;
      for i := 0 to |params|
        invariant Bind(s, params, args, i) == Ok(scope) && old(budget) == budget + BindCost(s, params, args, i)
      {
        BindCostGrows(s, params, args, i + 1, |params|);
        var arg := Ok(Missing);
        if i < |args| { arg := ResolveOne(s, args[i], 0); }
        if arg.Err? { return Err(arg.error); }
        scope := BindOne(scope, params[i], arg.value);
      }
      r := Ok(scope);
    }

    method DefinedType(s: Scope, name: string, args: seq<Arg>, depth: nat) returns (r: Result<Node>)
      requires 0 < depth <= NESTING_LIMIT
      modifies this`budget
      ensures var left := NESTING_LIMIT - depth;
              && r == Afforded(old(budget), UseCost(defs, s, name, args, left), Expand(defs, s, Defined(name, args), left + 1))
              && budget == Remaining(old(budget), UseCost(defs, s, name, args, left))
      ensures r.Ok? ==> NodeSize(r.value) <= old(budget) - budget + 1
      decreases NESTING_LIMIT - depth, 3
    {
      UseFits(defs, s, name, args, NESTING_LIMIT - depth);
      if args == [] { return Link(defs, name); }
      if name !in defs.generic { return Err(GenericTypeMissing); }
      var def := defs.generic[name];
      if def.isEnum { return Err(GenericEnum); }
      var scope := BindParameters(s, def.params, args);
      if scope.Err? { return Err(scope.error); }
      r := TypeNodeAt(scope.value, def.body, depth);
    }
  }

  /** An error ends the walk, and so its cost; and the cost of a prefix never exceeds the whole. */
  lemma {:induction false} ItemsCostGrows(d: Defs, s: Scope, items: seq<Ty>, left: nat, n: nat)
    requires n <= |items|
    ensures ExpandItemsCost(d, s, items[..n], left) <= ExpandItemsCost(d, s, items, left)
    ensures ExpandItems(d, s, items[..n], left).Err? ==>
              && ExpandItems(d, s, items, left) == ExpandItems(d, s, items[..n], left)
              && ExpandItemsCost(d, s, items, left) == ExpandItemsCost(d, s, items[..n], left)
    decreases |items|
  {
    if n == |items| {
      assert items[..n] == items;
    } else {
      assert items[..|items| - 1][..n] == items[..n];
      ItemsCostGrows(d, s, items[..|items| - 1], left, n);
    }
  }

  lemma {:induction false} BindCostGrows(s: Scope, params: seq<Parameter>, args: seq<Arg>, n: nat, m: nat)
    requires n <= m <= |params|
    ensures BindCost(s, params, args, n) <= BindCost(s, params, args, m)
    ensures Bind(s, params, args, n).Err? ==>
              Bind(s, params, args, m) == Bind(s, params, args, n) && BindCost(s, params, args, m) == BindCost(s, params, args, n)
  {
    if n < m { BindCostGrows(s, params, args, n, m - 1); }
  }

  // ---- When the budget ends ----

  function Remaining(before: nat, cost: nat): nat { if before < cost then 0 else before - cost }

  /** The budget gives out exactly if it does not cover the cost. */
  function Afforded<T>(before: nat, cost: nat, r: Result<T>): Result<T> { if before < cost then Err(TooLarge) else r }

  function CopyFails(before: nat, cost: nat, depth: nat): Option<Error> {
    if before < cost then Some(TooLarge) else if depth > NESTING_LIMIT then Some(RecursionLimit) else None
  }
}
