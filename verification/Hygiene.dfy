/** Expansion through scopes is capture-free substitution. */
module GenericsHygiene {
  import opened Basics
  import opened Generics

  // ---- Lists, item by item ----

  lemma {:induction false} ArgsClosedAt(args: seq<Arg>)
    ensures ArgsClosed(args) <==> forall i :: 0 <= i < |args| ==> ArgClosed(args[i])
  {
    if args != [] { ArgsClosedAt(args[..|args| - 1]); }
  }

  lemma {:induction false} SubstArgsAt(s: Scope, args: seq<Arg>)
    ensures forall i :: 0 <= i < |args| ==> SubstArgs(s, args)[i] == SubstArg(s, args[i])
  {
    if args != [] { SubstArgsAt(s, args[..|args| - 1]); }
  }

  lemma {:induction false} ArgsInScopeAt(consts: set<string>, lens: bool, args: seq<Arg>)
    ensures ArgsInScope(consts, lens, args) <==> forall i :: 0 <= i < |args| ==> ArgInScope(consts, lens, args[i])
  {
    if args != [] { ArgsInScopeAt(consts, lens, args[..|args| - 1]); }
  }

  // ---- A closed type means the same in every scope ----

  lemma {:induction false} ClosedIsFixed(s: Scope, consts: set<string>, lens: bool, ty: Ty)
    requires Closed(ty)
    ensures Subst(s, ty) == ty && InScope(consts, lens, ty)
    decreases ty
  {
    match ty {
      case Leaf(_) =>
      case Num(_) =>
      case Array(item, _) => ClosedIsFixed(s, consts, lens, item);
      case Vec(item) => ClosedIsFixed(s, consts, lens, item);
      case Optional(item, _) => ClosedIsFixed(s, consts, lens, item);
      case Alias(target) => ClosedIsFixed(s, consts, lens, target);
      case Defined(_, args) => ClosedArgsAreFixed(s, consts, lens, args);
      case Group(_, items) => ClosedItemsAreFixed(s, consts, lens, items);
    }
  }

  lemma {:induction false} ClosedItemsAreFixed(s: Scope, consts: set<string>, lens: bool, items: seq<Ty>)
    requires ItemsClosed(items)
    ensures SubstItems(s, items) == items && ItemsInScope(consts, lens, items)
    decreases items
  {
    if items != [] {
      ClosedItemsAreFixed(s, consts, lens, items[..|items| - 1]);
      ClosedIsFixed(s, consts, lens, items[|items| - 1]);
    }
  }

  lemma {:induction false} ClosedArgsAreFixed(s: Scope, consts: set<string>, lens: bool, args: seq<Arg>)
    requires ArgsClosed(args)
    ensures SubstArgs(s, args) == args && ArgsInScope(consts, lens, args)
    decreases args
  {
    if args != [] {
      ClosedArgsAreFixed(s, consts, lens, args[..|args| - 1]);
      ClosedArgIsFixed(s, consts, lens, args[|args| - 1]);
    }
  }

  lemma {:induction false} ClosedArgIsFixed(s: Scope, consts: set<string>, lens: bool, arg: Arg)
    requires ArgClosed(arg)
    ensures SubstArg(s, arg) == arg && ArgInScope(consts, lens, arg)
    decreases arg
  {
    if arg.TypeArg? { ClosedIsFixed(s, consts, lens, arg.ty); }
  }

  // ---- Resolving is substituting ----

  lemma {:induction false} ResolveTyIsSubst(s: Scope, lens: bool, ty: Ty, depth: nat)
    requires GoodScope(s) && InScope(s.consts.Keys, lens, ty) && ResolveTy(s, ty, depth).Ok?
    ensures ResolveTy(s, ty, depth).value == Subst(s, ty) && Closed(Subst(s, ty))
    decreases ty
  {
    match ty {
      case Leaf(_) =>
      case Num(_) =>
      case Array(item, len) => ResolveTyIsSubst(s, lens, item, depth + 1);
      case Vec(item) => ResolveTyIsSubst(s, lens, item, depth + 1);
      case Optional(item, _) => ResolveTyIsSubst(s, lens, item, depth + 1);
      case Alias(target) => ResolveTyIsSubst(s, lens, target, depth + 1);
      case Generic(name) =>
      case Defined(_, args) => ResolveArgsIsSubst(s, lens, args, depth + 1);
      case Group(_, items) => ResolveItemsIsSubst(s, lens, items, depth + 1);
    }
  }

  lemma {:induction false} ResolveItemsIsSubst(s: Scope, lens: bool, items: seq<Ty>, depth: nat)
    requires GoodScope(s) && ItemsInScope(s.consts.Keys, lens, items) && ResolveItems(s, items, depth).Ok?
    ensures ResolveItems(s, items, depth).value == SubstItems(s, items) && ItemsClosed(SubstItems(s, items))
    decreases items
  {
    if items != [] {
      ResolveItemsIsSubst(s, lens, items[..|items| - 1], depth);
      ResolveTyIsSubst(s, lens, items[|items| - 1], depth);
      assert SubstItems(s, items)[..|items| - 1] == SubstItems(s, items[..|items| - 1]);
    }
  }

  lemma {:induction false} ResolveArgIsSubst(s: Scope, lens: bool, arg: Arg, depth: nat)
    requires GoodScope(s) && ArgInScope(s.consts.Keys, lens, arg) && ResolveArg(s, arg, depth).Ok?
    ensures ResolveArg(s, arg, depth).value == SubstArg(s, arg) && ArgClosed(SubstArg(s, arg))
    decreases arg
  {
    if arg.TypeArg? { ResolveTyIsSubst(s, lens, arg.ty, depth + 1); }
  }

  lemma {:induction false} ResolveArgsIsSubst(s: Scope, lens: bool, args: seq<Arg>, depth: nat)
    requires GoodScope(s) && ArgsInScope(s.consts.Keys, lens, args) && ResolveArgs(s, args, depth).Ok?
    ensures ResolveArgs(s, args, depth).value == SubstArgs(s, args) && ArgsClosed(SubstArgs(s, args))
    decreases args
  {
    if args != [] {
      ResolveArgsIsSubst(s, lens, args[..|args| - 1], depth);
      ResolveArgIsSubst(s, lens, args[|args| - 1], depth);
      assert SubstArgs(s, args)[..|args| - 1] == SubstArgs(s, args[..|args| - 1]);
    }
  }

  /** Resolving fails only on the nesting limit where substitution leaves nothing open. */
  lemma {:induction false} ClosedResolves(s: Scope, ty: Ty, depth: nat)
    requires Closed(Subst(s, ty))
    ensures ResolveTy(s, ty, depth).Err? ==> ResolveTy(s, ty, depth).error == RecursionLimit
    decreases ty, 1
  {
    match ty {
      case Leaf(_) =>
      case Num(_) =>
      case Array(_, _) => ClosedInnerResolves(s, ty, depth);
      case Vec(_) => ClosedInnerResolves(s, ty, depth);
      case Optional(_, _) => ClosedInnerResolves(s, ty, depth);
      case Alias(_) => ClosedInnerResolves(s, ty, depth);
      case Generic(name) => ClosedNameResolves(s, name, depth);
      case Defined(_, args) => ClosedArgsResolve(s, args, depth + 1);
      case Group(_, items) => ClosedItemsResolve(s, items, depth + 1);
    }
  }

  lemma ClosedNameResolves(s: Scope, name: string, depth: nat)
    requires SubstName(s, name) != Generic(name) || BindsType(s, name)
    ensures ResolveName(s, name, depth).Err? ==> ResolveName(s, name, depth).error == RecursionLimit
  {
  }

  lemma {:induction false} ClosedInnerResolves(s: Scope, ty: Ty, depth: nat)
    requires (ty.Array? || ty.Vec? || ty.Optional? || ty.Alias?) && Closed(Subst(s, ty))
    ensures ResolveTy(s, ty, depth).Err? ==> ResolveTy(s, ty, depth).error == RecursionLimit
    decreases ty, 0
  {
    match ty {
      case Array(item, len) =>
        ClosedResolves(s, item, depth + 1);
        if len.Param? { ClosedNameResolves(s, len.name, depth + 1); }
      case Vec(item) => ClosedResolves(s, item, depth + 1);
      case Optional(item, _) => ClosedResolves(s, item, depth + 1);
      case Alias(target) => ClosedResolves(s, target, depth + 1);
    }
  }

  lemma {:induction false} ClosedItemsResolve(s: Scope, items: seq<Ty>, depth: nat)
    requires ItemsClosed(SubstItems(s, items))
    ensures ResolveItems(s, items, depth).Err? ==> ResolveItems(s, items, depth).error == RecursionLimit
    decreases items
  {
    if items != [] {
      assert SubstItems(s, items)[..|items| - 1] == SubstItems(s, items[..|items| - 1]);
      ClosedItemsResolve(s, items[..|items| - 1], depth);
      ClosedResolves(s, items[|items| - 1], depth);
    }
  }

  lemma {:induction false} ClosedArgResolves(s: Scope, arg: Arg, depth: nat)
    requires ArgClosed(SubstArg(s, arg))
    ensures ResolveArg(s, arg, depth).Err? ==> ResolveArg(s, arg, depth).error == RecursionLimit
    decreases arg
  {
    if arg.TypeArg? { ClosedResolves(s, arg.ty, depth + 1); }
  }

  lemma {:induction false} ClosedArgsResolve(s: Scope, args: seq<Arg>, depth: nat)
    requires ArgsClosed(SubstArgs(s, args))
    ensures ResolveArgs(s, args, depth).Err? ==> ResolveArgs(s, args, depth).error == RecursionLimit
    decreases args
  {
    if args != [] {
      assert SubstArgs(s, args)[..|args| - 1] == SubstArgs(s, args[..|args| - 1]);
      ClosedArgsResolve(s, args[..|args| - 1], depth);
      ClosedArgResolves(s, args[|args| - 1], depth);
    }
  }

  // ---- Binding ----

  predicate UsedClosed(args: seq<Arg>, n: nat) { forall i :: 0 <= i < n && i < |args| ==> ArgClosed(args[i]) }

  lemma UsedArgsClosed(params: seq<Parameter>, args: seq<Arg>)
    ensures var used := if |args| < |params| then args else args[..|params|];
            ArgsClosed(used) <==> UsedClosed(args, |params|)
  {
    ArgsClosedAt(if |args| < |params| then args else args[..|params|]);
  }

  lemma {:induction false} BindSubstitutes(s: Scope, lens: bool, params: seq<Parameter>, args: seq<Arg>, n: nat)
    requires GoodScope(s) && ArgsInScope(s.consts.Keys, lens, args) && n <= |params| && Bind(s, params, args, n).Ok?
    ensures Bind(s, params, args, n).value == BindAsIs(params, SubstArgs(s, args), n) && UsedClosed(SubstArgs(s, args), n)
  {
    if n > 0 {
      BindSubstitutes(s, lens, params, args, n - 1);
      SubstArgsAt(s, args);
      ArgsInScopeAt(s.consts.Keys, lens, args);
      if n - 1 < |args| { ResolveArgIsSubst(s, lens, args[n - 1], 0); }
    }
  }

  lemma {:induction false} BindResolves(s: Scope, params: seq<Parameter>, args: seq<Arg>, n: nat)
    requires n <= |params| && UsedClosed(SubstArgs(s, args), n)
    ensures Bind(s, params, args, n).Err? ==> Bind(s, params, args, n).error == RecursionLimit
  {
    if n > 0 {
      BindResolves(s, params, args, n - 1);
      SubstArgsAt(s, args);
      if n - 1 < |args| { ClosedArgResolves(s, args[n - 1], 0); }
    }
  }

  lemma {:induction false} BindKeys(params: seq<Parameter>, args: seq<Arg>, n: nat)
    requires n <= |params| && UsedClosed(args, n)
    ensures var s := BindAsIs(params, args, n);
            && s.consts.Keys == ParamNames(params[..n], true) && s.types.Keys == ParamNames(params[..n], false)
            && (forall k :: k in s.types ==> ArgClosed(s.types[k]))
            && (forall k :: k in s.consts ==> ArgClosed(s.consts[k]))
  {
    if n > 0 {
      BindKeys(params, args, n - 1);
      ParamNamesOneMore(params, n, true);
      ParamNamesOneMore(params, n, false);
    }
  }

  lemma ParamNamesOneMore(params: seq<Parameter>, n: nat, isConst: bool)
    requires 0 < n <= |params|
    ensures ParamNames(params[..n], isConst)
            == ParamNames(params[..n - 1], isConst) + if params[n - 1].isConst == isConst then {params[n - 1].name} else {}
  {
    assert params[..n] == params[..n - 1] + [params[n - 1]];
  }

  /** The scope of a use is good again. */
  lemma BindIsGood(d: Defs, lens: bool, name: string, args: seq<Arg>)
    requires WellScoped(d, lens) && name in d.generic && UsedClosed(args, |d.generic[name].params|)
    ensures var def := d.generic[name];
            var s := BindAsIs(def.params, args, |def.params|);
            GoodScope(s) && InScope(s.consts.Keys, lens, def.body)
  {
    var def := d.generic[name];
    BindKeys(def.params, args, |def.params|);
    assert def.params[..|def.params|] == def.params;
  }

  // ---- The two expansions agree ----

  /** What expansion through a scope gives is what substitution gives. */
  lemma {:induction false} ExpandIsMacro(d: Defs, s: Scope, ty: Ty, left: nat)
    requires WellScoped(d, false) && GoodScope(s) && InScope(s.consts.Keys, false, ty)
    requires Expand(d, s, ty, left).Ok?
    ensures Macro(d, Subst(s, ty), left) == Expand(d, s, ty, left)
    decreases left, 0
  {
    match ty {
      case Leaf(_) =>
      case Array(item, len) => ExpandIsMacro(d, s, item, left - 1);
      case Vec(item) => ExpandIsMacro(d, s, item, left - 1);
      case Optional(item, _) => ExpandIsMacro(d, s, item, left - 1);
      case Alias(target) => ExpandIsMacro(d, s, target, left - 1);
      case Generic(name) =>
        var t := s.types[name].ty;
        ClosedIsFixed(s, s.consts.Keys, false, t);
        ExpandIsMacro(d, s, t, left - 1);
        OneMoreLevel(d, t, left - 1);
      case Defined(name, args) => if args != [] { UseIsMacro(d, s, name, args, left); }
      case Group(_, items) => ExpandItemsIsMacro(d, s, items, left - 1);
    }
  }

  lemma {:induction false} ExpandItemsIsMacro(d: Defs, s: Scope, items: seq<Ty>, left: nat)
    requires WellScoped(d, false) && GoodScope(s) && ItemsInScope(s.consts.Keys, false, items)
    requires ExpandItems(d, s, items, left).Ok?
    ensures MacroItems(d, SubstItems(s, items), left) == ExpandItems(d, s, items, left)
    decreases left, 1 + |items|
  {
    if items != [] {
      ExpandItemsIsMacro(d, s, items[..|items| - 1], left);
      ExpandIsMacro(d, s, items[|items| - 1], left);
      assert SubstItems(s, items)[..|items| - 1] == SubstItems(s, items[..|items| - 1]);
    }
  }

  lemma {:induction false} UseIsMacro(d: Defs, s: Scope, name: string, args: seq<Arg>, left: nat)
    requires WellScoped(d, false) && GoodScope(s) && ArgsInScope(s.consts.Keys, false, args) && args != []
    requires left > 0 && Expand(d, s, Defined(name, args), left).Ok?
    ensures Macro(d, Defined(name, SubstArgs(s, args)), left) == Expand(d, s, Defined(name, args), left)
    decreases left - 1, 1
  {
    var def := d.generic[name];
    var bound := SubstArgs(s, args);
    BindSubstitutes(s, false, def.params, args, |def.params|);
    BindIsGood(d, false, name, bound);
    UsedArgsClosed(def.params, bound);
    ExpandIsMacro(d, BindAsIs(def.params, bound, |def.params|), def.body, left - 1);
  }

  /** A level to spare does no harm. */
  lemma {:induction false} OneMoreLevel(d: Defs, ty: Ty, left: nat)
    requires Macro(d, ty, left).Ok?
    ensures Macro(d, ty, left + 1) == Macro(d, ty, left)
    decreases left, 0
  {
    match ty {
      case Leaf(_) =>
      case Array(item, _) => OneMoreLevel(d, item, left - 1);
      case Vec(item) => OneMoreLevel(d, item, left - 1);
      case Optional(item, _) => OneMoreLevel(d, item, left - 1);
      case Alias(target) => OneMoreLevel(d, target, left - 1);
      case Defined(name, args) =>
        if args != [] {
          var def := d.generic[name];
          OneMoreLevel(d, Subst(BindAsIs(def.params, args, |def.params|), def.body), left - 1);
        }
      case Group(_, items) => OneMoreLevelItems(d, items, left - 1);
    }
  }

  lemma {:induction false} OneMoreLevelItems(d: Defs, items: seq<Ty>, left: nat)
    requires MacroItems(d, items, left).Ok?
    ensures MacroItems(d, items, left + 1) == MacroItems(d, items, left)
    decreases left, 1 + |items|
  {
    if items != [] {
      OneMoreLevelItems(d, items[..|items| - 1], left);
      OneMoreLevel(d, items[|items| - 1], left);
    }
  }

  ghost predicate IsOr<T(!new)>(r: Result<T>, value: T) { r == Ok(value) || r == Err(RecursionLimit) }

  lemma SubstLenAgrees(s: Scope, len: Len)
    requires GoodScope(s) && (len.Param? ==> len.name in s.consts)
    ensures ArrayLen(PLAIN, SubstLen(s, len)).Ok? ==> ArrayLen(s, len) == ArrayLen(PLAIN, SubstLen(s, len))
  {
  }

  lemma BoundTypeIsFixed(s: Scope, name: string)
    requires GoodScope(s) && !SubstName(s, name).Generic? && !SubstName(s, name).Num?
    ensures BindsType(s, name) && Subst(s, s.types[name].ty) == s.types[name].ty
    ensures InScope(s.consts.Keys, true, s.types[name].ty)
  {
    ClosedIsFixed(s, s.consts.Keys, true, s.types[name].ty);
  }

  /** And what substitution gives, expansion through a scope gives too, unless it meets the nesting limit. */
  lemma {:induction false} MacroIsExpand(d: Defs, s: Scope, ty: Ty, left: nat, k: nat)
    requires WellScoped(d, true) && GoodScope(s) && InScope(s.consts.Keys, true, ty)
    requires Macro(d, Subst(s, ty), k).Ok?
    ensures IsOr(Expand(d, s, ty, left), Macro(d, Subst(s, ty), k).value)
    decreases left, 0
  {
    if left > 0 {
      match ty {
        case Leaf(_) =>
        case Array(_, _) => MacroIsInner(d, s, ty, left, k);
        case Vec(_) => MacroIsInner(d, s, ty, left, k);
        case Optional(_, _) => MacroIsInner(d, s, ty, left, k);
        case Alias(_) => MacroIsInner(d, s, ty, left, k);
        case Generic(name) => MacroIsBound(d, s, name, left, k);
        case Defined(name, args) => if args != [] { MacroIsUse(d, s, name, args, left, k); }
        case Group(_, items) => MacroItemsIsExpand(d, s, items, left - 1, k - 1);
      }
    }
  }

  lemma {:induction false} MacroIsInner(d: Defs, s: Scope, ty: Ty, left: nat, k: nat)
    requires WellScoped(d, true) && GoodScope(s) && InScope(s.consts.Keys, true, ty)
    requires left > 0 && (ty.Array? || ty.Vec? || ty.Optional? || ty.Alias?)
    requires Macro(d, Subst(s, ty), k).Ok?
    ensures IsOr(Expand(d, s, ty, left), Macro(d, Subst(s, ty), k).value)
    decreases left - 1, 1
  {
    match ty {
      case Array(item, len) =>
        SubstLenAgrees(s, len);
        MacroIsExpand(d, s, item, left - 1, k - 1);
      case Vec(item) => MacroIsExpand(d, s, item, left - 1, k - 1);
      case Optional(item, _) => MacroIsExpand(d, s, item, left - 1, k - 1);
      case Alias(target) => MacroIsExpand(d, s, target, left - 1, k - 1);
    }
  }

  lemma {:induction false} MacroIsBound(d: Defs, s: Scope, name: string, left: nat, k: nat)
    requires WellScoped(d, true) && GoodScope(s) && left > 0
    requires Macro(d, SubstName(s, name), k).Ok?
    ensures IsOr(Expand(d, s, Generic(name), left), Macro(d, SubstName(s, name), k).value)
    decreases left - 1, 1
  {
    BoundTypeIsFixed(s, name);
    MacroIsExpand(d, s, s.types[name].ty, left - 1, k);
  }

  lemma {:induction false} MacroItemsIsExpand(d: Defs, s: Scope, items: seq<Ty>, left: nat, k: nat)
    requires WellScoped(d, true) && GoodScope(s)
    requires ItemsInScope(s.consts.Keys, true, items)
    requires MacroItems(d, SubstItems(s, items), k).Ok?
    ensures IsOr(ExpandItems(d, s, items, left), MacroItems(d, SubstItems(s, items), k).value)
    decreases left, 1 + |items|
  {
    if items != [] {
      assert SubstItems(s, items)[..|items| - 1] == SubstItems(s, items[..|items| - 1]);
      MacroItemsIsExpand(d, s, items[..|items| - 1], left, k);
      MacroIsExpand(d, s, items[|items| - 1], left, k);
    }
  }

  lemma {:induction false} MacroIsUse(d: Defs, s: Scope, name: string, args: seq<Arg>, left: nat, k: nat)
    requires WellScoped(d, true) && GoodScope(s) && ArgsInScope(s.consts.Keys, true, args) && args != []
    requires left > 0 && Macro(d, Defined(name, SubstArgs(s, args)), k).Ok?
    ensures IsOr(Expand(d, s, Defined(name, args), left), Macro(d, Defined(name, SubstArgs(s, args)), k).value)
    decreases left - 1, 1
  {
    var def := d.generic[name];
    var bound := SubstArgs(s, args);
    UsedArgsClosed(def.params, bound);
    BindResolves(s, def.params, args, |def.params|);
    if Bind(s, def.params, args, |def.params|).Ok? {
      BindSubstitutes(s, true, def.params, args, |def.params|);
      BindIsGood(d, true, name, bound);
      MacroIsExpand(d, BindAsIs(def.params, bound, |def.params|), def.body, left - 1, k - 1);
    }
  }

  /** A use expands to its body with the caller-resolved arguments put in. */
  lemma UseIsSubstitutedBody(d: Defs, s: Scope, name: string, args: seq<Arg>, left: nat)
    requires WellScoped(d, false) && GoodScope(s) && ArgsInScope(s.consts.Keys, false, args) && args != []
    requires left > 0 && Expand(d, s, Defined(name, args), left).Ok?
    ensures name in d.generic && Bind(s, d.generic[name].params, args, |d.generic[name].params|).Ok?
    ensures var def := d.generic[name];
            var scope := Bind(s, def.params, args, |def.params|).value;
            Macro(d, Subst(scope, def.body), left - 1) == Expand(d, s, Defined(name, args), left)
  {
    var def := d.generic[name];
    BindSubstitutes(s, false, def.params, args, |def.params|);
    BindIsGood(d, false, name, SubstArgs(s, args));
    ExpandIsMacro(d, Bind(s, def.params, args, |def.params|).value, def.body, left - 1);
  }

  /** `Outer<const c, t> = t` and `Inner<const c> = [u8; c]`, under any names. */
  predicate SharesConst(d: Defs, outer: string, inner: string, c: string, t: string) {
    && c != t && outer in d.generic && inner in d.generic
    && d.generic[outer] == GenericDef([Parameter(c, true), Parameter(t, false)], Generic(t), false)
    && d.generic[inner] == GenericDef([Parameter(c, true)], Array(Leaf("u8"), Param(c)), false)
  }

  /**
   * Without the rule on const names the callee captures, whatever the names and the number: the
   * caller's unbound `c` becomes the `n` that `Outer` was given for its own `c`.
   */
  lemma UnboundConstIsCaptured(d: Defs, outer: string, inner: string, c: string, t: string, n: nat)
    requires SharesConst(d, outer, inner, c, t) && n <= MAX_ARRAY_LEN
    ensures var use := Defined(outer, [ConstArg(Literal(Some(n))), TypeArg(Defined(inner, [ConstArg(Name(c))]))]);
            !InScope({}, false, use) && Expand(d, PLAIN, use, 9) == Ok(FixedArray(LeafNode("u8"), n)) && Macro(d, use, 9).Err?
  {
    var unbound := Defined(inner, [ConstArg(Name(c))]);
    var args := [ConstArg(Literal(Some(n))), TypeArg(unbound)];
    ArgsInScopeAt({}, false, [ConstArg(Name(c))]);
    ArgsInScopeAt({}, false, args);
    assert ArgInScope({}, false, args[1]) == ArgsInScope({}, false, unbound.args);
    ArgsClosedAt(unbound.args);
    UsedArgsClosed(d.generic[outer].params, args);
    assert Closed(unbound) == ArgsClosed(unbound.args);
    CapturedExpansion(d, outer, inner, c, t, n);
  }

  lemma CapturedExpansion(d: Defs, outer: string, inner: string, c: string, t: string, n: nat)
    requires SharesConst(d, outer, inner, c, t) && n <= MAX_ARRAY_LEN
    ensures var use := Defined(outer, [ConstArg(Literal(Some(n))), TypeArg(Defined(inner, [ConstArg(Name(c))]))]);
            Expand(d, PLAIN, use, 9) == Ok(FixedArray(LeafNode("u8"), n))
  {
    var unbound := Defined(inner, [ConstArg(Name(c))]);
    var args := [ConstArg(Literal(Some(n))), TypeArg(unbound)];
    var scope := CallerLeavesName(d, outer, inner, c, t, n);
    var three := ConstArg(Literal(Some(n)));
    assert Bind(scope, d.generic[inner].params, unbound.args, 1) == Ok(Scope(map[], map[c := three]));
    assert Expand(d, scope, unbound, 7) == Ok(FixedArray(LeafNode("u8"), n));
    assert Expand(d, scope, Generic(t), 8) == Expand(d, scope, unbound, 7);
  }

  lemma CallerLeavesName(d: Defs, outer: string, inner: string, c: string, t: string, n: nat) returns (scope: Scope)
    requires SharesConst(d, outer, inner, c, t)
    ensures var unbound := Defined(inner, [ConstArg(Name(c))]);
            var args := [ConstArg(Literal(Some(n))), TypeArg(unbound)];
            && scope == Scope(map[t := TypeArg(unbound)], map[c := ConstArg(Literal(Some(n)))])
            && Bind(PLAIN, d.generic[outer].params, args, 2) == Ok(scope)
  {
    var unbound := Defined(inner, [ConstArg(Name(c))]);
    var args := [ConstArg(Literal(Some(n))), TypeArg(unbound)];
    var params := d.generic[outer].params;
    scope := Scope(map[t := TypeArg(unbound)], map[c := ConstArg(Literal(Some(n)))]);
    var nothing: seq<Arg> := [];
    assert unbound.args[..0] == nothing && nothing + [unbound.args[0]] == unbound.args;
    assert ResolveArgs(PLAIN, nothing, 2) == Ok(nothing);
    assert ResolveArg(PLAIN, unbound.args[0], 2) == Ok(unbound.args[0]);
    assert ResolveArgs(PLAIN, unbound.args, 2) == Ok(unbound.args);
    assert ResolveArg(PLAIN, args[1], 0) == Ok(args[1]);
    assert Bind(PLAIN, params, args, 1) == Ok(Scope(map[], map[c := ConstArg(Literal(Some(n)))]));
  }
}
