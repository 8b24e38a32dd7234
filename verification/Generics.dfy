/** Expansion of generic types, through scopes and by substitution. */
module Generics {
  // `Expand` carries a scope, as the converter does; `Macro` knows no scopes and replaces a use by its
  // body with the arguments put in. The two agree.

  import opened Basics

  const NESTING_LIMIT: nat := 128
  const MAX_ARRAY_LEN: nat := 10 * 1024 * 1024

  datatype Error =
    | RecursionLimit | TooLarge | GenericArgMissing | InvalidArrayLength | Unrecognized
    | GenericArgsMissing | UndefinedType | GenericTypeMissing | GenericEnum

  datatype Result<+T> = Ok(value: T) | Err(error: Error)

  /** A length; `NotALength` is a type in a length's place. */
  datatype Len = Fixed(n: nat) | Param(name: string) | NotALength

  /** The text of a const argument: digits, or the name of an outer parameter. */
  datatype Const = Literal(value: Option<nat>) | Name(name: string)

  datatype Arg = TypeArg(ty: Ty) | ConstArg(value: Const) | Missing

  /** Field, item and variant names; they pass through unchanged. */
  datatype Shape = StructOf(names: seq<string>) | TupleOf | EnumOf(variants: seq<(string, nat)>)

  datatype Ty =
    | Leaf(name: string)
    | Num(n: nat)
    | Array(item: Ty, len: Len)
    | Vec(item: Ty)
    | Optional(item: Ty, coption: bool)
    | Alias(target: Ty)
    | Generic(name: string)
    | Defined(name: string, args: seq<Arg>)
    | Group(shape: Shape, items: seq<Ty>)

  datatype Node =
    | LeafNode(name: string)
    | FixedArray(item: Node, count: nat)
    | PrefixedArray(item: Node)
    | OptionNode(item: Node, coption: bool)
    | GroupNode(shape: Shape, items: seq<Node>)
    | LinkNode(name: string)

  datatype Parameter = Parameter(name: string, isConst: bool)

  datatype GenericDef = GenericDef(params: seq<Parameter>, body: Ty, isEnum: bool)

  datatype Defs = Defs(generic: map<string, GenericDef>, plain: set<string>)

  /** What the parameters of the type being expanded are bound to. */
  datatype Scope = Scope(types: map<string, Arg>, consts: map<string, Arg>)

  const PLAIN: Scope := Scope(map[], map[])

  // ---- Lookups ----

  predicate BindsType(s: Scope, name: string) { name in s.types && s.types[name].TypeArg? }

  function ConstValue(arg: Arg): Option<nat> {
    match arg
    case TypeArg(Num(n)) => Some(n)
    case ConstArg(Literal(n)) => n
    case _ => None
  }

  function ArrayLen(s: Scope, len: Len): Result<nat> {
    var n := match len
      case Fixed(n) => Some(n)
      case Param(name) => if name in s.consts then ConstValue(s.consts[name]) else None
      case NotALength => None;
    if n.None? || n.value > MAX_ARRAY_LEN then Err(InvalidArrayLength) else Ok(n.value)
  }

  function Depth(ty: Ty): nat
    decreases ty
  {
    match ty
    case Array(item, _) => 1 + Depth(item)
    case Vec(item) => 1 + Depth(item)
    case Optional(item, _) => 1 + Depth(item)
    case Alias(target) => 1 + Depth(target)
    case Defined(_, args) => DepthOfArgs(args)
    case Group(_, items) => DepthOfItems(items)
    case _ => 0
  }

  function DepthOfItems(items: seq<Ty>): nat
    decreases items
  {
    if items == [] then 0 else Max(DepthOfItems(items[..|items| - 1]), 1 + Depth(items[|items| - 1]))
  }

  function DepthOfArgs(args: seq<Arg>): nat
    decreases args
  {
    if args == [] then 0 else Max(DepthOfArgs(args[..|args| - 1]), 1 + DepthOfArg(args[|args| - 1]))
  }

  function DepthOfArg(arg: Arg): nat
    decreases arg
  {
    if arg.TypeArg? then 1 + Depth(arg.ty) else 0
  }

  function Max(a: nat, b: nat): nat { if a < b then b else a }

  // ---- Resolving an argument in its caller's scope ----

  /** A bound type is copied whole, as long as the copy stays within the nesting limit. */
  function ResolveName(s: Scope, name: string, depth: nat): Result<Ty> {
    if BindsType(s, name) then
      if depth + Depth(s.types[name].ty) > NESTING_LIMIT then Err(RecursionLimit) else Ok(s.types[name].ty)
    else if name in s.consts then
      var n := ConstValue(s.consts[name]); if n.None? then Err(InvalidArrayLength) else Ok(Num(n.value))
    else Err(GenericArgMissing)
  }

  function ResolveLen(s: Scope, len: Len, depth: nat): Result<Len> {
    match len
    case Param(name) =>
      var t := ResolveName(s, name, depth);
      (match t
       case Ok(Num(n)) => Ok(Fixed(n))
       case Ok(_) => Ok(NotALength)
       case Err(e) => Err(e))
    case _ => Ok(len)
  }

  function ResolveTy(s: Scope, ty: Ty, depth: nat): Result<Ty>
    decreases ty
  {
    if depth > NESTING_LIMIT then Err(RecursionLimit) else
      match ty
      case Leaf(_) => Ok(ty)
      case Num(_) => Ok(ty)
      case Array(item, len) =>
        var i := ResolveTy(s, item, depth + 1);
        if i.Err? then Err(i.error) else
          var l := ResolveLen(s, len, depth + 1);
          if l.Err? then Err(l.error) else Ok(Array(i.value, l.value))
      case Vec(item) => var i := ResolveTy(s, item, depth + 1); if i.Err? then i else Ok(Vec(i.value))
      case Optional(item, c) => var i := ResolveTy(s, item, depth + 1); if i.Err? then i else Ok(Optional(i.value, c))
      case Alias(target) => var i := ResolveTy(s, target, depth + 1); if i.Err? then i else Ok(Alias(i.value))
      case Generic(name) => ResolveName(s, name, depth)
      case Defined(name, args) =>
        var a := ResolveArgs(s, args, depth + 1); if a.Err? then Err(a.error) else Ok(Defined(name, a.value))
      case Group(shape, items) =>
        var i := ResolveItems(s, items, depth + 1); if i.Err? then Err(i.error) else Ok(Group(shape, i.value))
  }

  function ResolveItems(s: Scope, items: seq<Ty>, depth: nat): (r: Result<seq<Ty>>)
    ensures r.Ok? ==> |r.value| == |items|
    decreases items
  {
    if items == [] then Ok([]) else
      var before := ResolveItems(s, items[..|items| - 1], depth);
      if before.Err? then before else
        var last := ResolveTy(s, items[|items| - 1], depth);
        if last.Err? then Err(last.error) else Ok(before.value + [last.value])
  }

  function ResolveArg(s: Scope, arg: Arg, depth: nat): Result<Arg>
    decreases arg
  {
    if depth > NESTING_LIMIT then Err(RecursionLimit) else
      match arg
      case TypeArg(ty) => var t := ResolveTy(s, ty, depth + 1); if t.Err? then Err(t.error) else Ok(TypeArg(t.value))
      case ConstArg(Name(name)) =>
        if name !in s.consts then Ok(arg)
        else if depth + DepthOfArg(s.consts[name]) > NESTING_LIMIT then Err(RecursionLimit) else Ok(s.consts[name])
      case _ => Ok(arg)
  }

  function ResolveArgs(s: Scope, args: seq<Arg>, depth: nat): (r: Result<seq<Arg>>)
    ensures r.Ok? ==> |r.value| == |args|
    decreases args
  {
    if args == [] then Ok([]) else
      var before := ResolveArgs(s, args[..|args| - 1], depth);
      if before.Err? then before else
        var last := ResolveArg(s, args[|args| - 1], depth);
        if last.Err? then Err(last.error) else Ok(before.value + [last.value])
  }

  // ---- Expansion through scopes ----

  /** The scope of a use: each parameter bound to its argument, resolved by the caller. */
  function Bind(s: Scope, params: seq<Parameter>, args: seq<Arg>, n: nat): Result<Scope>
    requires n <= |params|
  {
    if n == 0 then Ok(PLAIN) else
      var before := Bind(s, params, args, n - 1);
      if before.Err? then before else
        var arg := if n - 1 < |args| then ResolveArg(s, args[n - 1], 0) else Ok(Missing);
        if arg.Err? then Err(arg.error) else Ok(BindOne(before.value, params[n - 1], arg.value))
  }

  function BindOne(s: Scope, p: Parameter, arg: Arg): Scope {
    if p.isConst then s.(consts := s.consts[p.name := arg]) else s.(types := s.types[p.name := arg])
  }

  /** `left` is how many more levels may be entered. */
  function Expand(d: Defs, s: Scope, ty: Ty, left: nat): Result<Node>
    decreases left, 0
  {
    if left == 0 then Err(RecursionLimit) else
      match ty
      case Leaf(name) => Ok(LeafNode(name))
      case Num(_) => Err(Unrecognized)
      case Array(item, len) =>
        var i := Expand(d, s, item, left - 1);
        if i.Err? then i else
          var n := ArrayLen(s, len); if n.Err? then Err(n.error) else Ok(FixedArray(i.value, n.value))
      case Vec(item) => var i := Expand(d, s, item, left - 1); if i.Err? then i else Ok(PrefixedArray(i.value))
      case Optional(item, c) => var i := Expand(d, s, item, left - 1); if i.Err? then i else Ok(OptionNode(i.value, c))
      case Alias(target) => Expand(d, s, target, left - 1)
      case Generic(name) =>
        if BindsType(s, name) then Expand(d, s, s.types[name].ty, left - 1) else Err(GenericArgMissing)
      case Defined(name, args) =>
        if args == [] then Link(d, name)
        else if name !in d.generic then Err(GenericTypeMissing)
        else if d.generic[name].isEnum then Err(GenericEnum)
        else
          var def := d.generic[name];
          var inner := Bind(s, def.params, args, |def.params|);
          if inner.Err? then Err(inner.error) else Expand(d, inner.value, def.body, left - 1)
      case Group(shape, items) =>
        var i := ExpandItems(d, s, items, left - 1); if i.Err? then Err(i.error) else Ok(GroupNode(shape, i.value))
  }

  function Link(d: Defs, name: string): Result<Node> {
    if name in d.generic then Err(GenericArgsMissing)
    else if name !in d.plain then Err(UndefinedType) else Ok(LinkNode(name))
  }

  function ExpandItems(d: Defs, s: Scope, items: seq<Ty>, left: nat): (r: Result<seq<Node>>)
    ensures r.Ok? ==> |r.value| == |items|
    decreases left, 1 + |items|
  {
    if items == [] then Ok([]) else
      var before := ExpandItems(d, s, items[..|items| - 1], left);
      if before.Err? then before else
        var last := Expand(d, s, items[|items| - 1], left);
        if last.Err? then Err(last.error) else Ok(before.value + [last.value])
  }

  // ---- Substitution ----

  /** No reference to a parameter is left. */
  predicate Closed(ty: Ty)
    decreases ty
  {
    match ty
    case Leaf(_) => true
    case Num(_) => true
    case Array(item, len) => Closed(item) && !len.Param?
    case Vec(item) => Closed(item)
    case Optional(item, _) => Closed(item)
    case Alias(target) => Closed(target)
    case Generic(_) => false
    case Defined(_, args) => ArgsClosed(args)
    case Group(_, items) => ItemsClosed(items)
  }

  predicate ItemsClosed(items: seq<Ty>)
    decreases items
  {
    items == [] || (ItemsClosed(items[..|items| - 1]) && Closed(items[|items| - 1]))
  }

  predicate ArgClosed(arg: Arg)
    decreases arg
  {
    match arg
    case TypeArg(ty) => Closed(ty)
    case ConstArg(c) => c.Literal?
    case Missing => true
  }

  predicate ArgsClosed(args: seq<Arg>)
    decreases args
  {
    args == [] || (ArgsClosed(args[..|args| - 1]) && ArgClosed(args[|args| - 1]))
  }

  function SubstName(s: Scope, name: string): Ty {
    if BindsType(s, name) then s.types[name].ty
    else if name in s.consts && ConstValue(s.consts[name]).Some? then Num(ConstValue(s.consts[name]).value)
    else Generic(name)
  }

  function SubstLen(s: Scope, len: Len): Len {
    match len
    case Param(name) =>
      (match SubstName(s, name)
       case Num(n) => Fixed(n)
       case Generic(_) => if BindsType(s, name) then NotALength else len
       case _ => NotALength)
    case _ => len
  }

  /** Textbook substitution; what is not bound stays. */
  function Subst(s: Scope, ty: Ty): Ty
    decreases ty
  {
    match ty
    case Leaf(_) => ty
    case Num(_) => ty
    case Array(item, len) => Array(Subst(s, item), SubstLen(s, len))
    case Vec(item) => Vec(Subst(s, item))
    case Optional(item, c) => Optional(Subst(s, item), c)
    case Alias(target) => Alias(Subst(s, target))
    case Generic(name) => SubstName(s, name)
    case Defined(name, args) => Defined(name, SubstArgs(s, args))
    case Group(shape, items) => Group(shape, SubstItems(s, items))
  }

  function SubstItems(s: Scope, items: seq<Ty>): (r: seq<Ty>)
    ensures |r| == |items|
    decreases items
  {
    if items == [] then [] else SubstItems(s, items[..|items| - 1]) + [Subst(s, items[|items| - 1])]
  }

  function SubstArg(s: Scope, arg: Arg): Arg
    decreases arg
  {
    match arg
    case TypeArg(ty) => TypeArg(Subst(s, ty))
    case ConstArg(Name(name)) => if name in s.consts then s.consts[name] else arg
    case _ => arg
  }

  function SubstArgs(s: Scope, args: seq<Arg>): (r: seq<Arg>)
    ensures |r| == |args|
    decreases args
  {
    if args == [] then [] else SubstArgs(s, args[..|args| - 1]) + [SubstArg(s, args[|args| - 1])]
  }

  /** The parameters bound to the arguments as they stand. */
  function BindAsIs(params: seq<Parameter>, args: seq<Arg>, n: nat): Scope
    requires n <= |params|
  {
    if n == 0 then PLAIN else
      BindOne(BindAsIs(params, args, n - 1), params[n - 1], if n - 1 < |args| then args[n - 1] else Missing)
  }

  /** Expansion without scopes: a use becomes its body with the arguments substituted. */
  function Macro(d: Defs, ty: Ty, left: nat): Result<Node>
    decreases left, 0
  {
    if left == 0 then Err(RecursionLimit) else
      match ty
      case Leaf(name) => Ok(LeafNode(name))
      case Num(_) => Err(Unrecognized)
      case Array(item, len) =>
        var i := Macro(d, item, left - 1);
        if i.Err? then i else
          var n := ArrayLen(PLAIN, len); if n.Err? then Err(n.error) else Ok(FixedArray(i.value, n.value))
      case Vec(item) => var i := Macro(d, item, left - 1); if i.Err? then i else Ok(PrefixedArray(i.value))
      case Optional(item, c) => var i := Macro(d, item, left - 1); if i.Err? then i else Ok(OptionNode(i.value, c))
      case Alias(target) => Macro(d, target, left - 1)
      case Generic(_) => Err(GenericArgMissing)
      case Defined(name, args) =>
        if args == [] then Link(d, name)
        else if name !in d.generic then Err(GenericTypeMissing)
        else if d.generic[name].isEnum then Err(GenericEnum)
        else
          var def := d.generic[name];
          var used := if |args| < |def.params| then args else args[..|def.params|];
          if !ArgsClosed(used) then Err(GenericArgMissing)
          else Macro(d, Subst(BindAsIs(def.params, args, |def.params|), def.body), left - 1)
      case Group(shape, items) =>
        var i := MacroItems(d, items, left - 1); if i.Err? then Err(i.error) else Ok(GroupNode(shape, i.value))
  }

  function MacroItems(d: Defs, items: seq<Ty>, left: nat): (r: Result<seq<Node>>)
    ensures r.Ok? ==> |r.value| == |items|
    decreases left, 1 + |items|
  {
    if items == [] then Ok([]) else
      var before := MacroItems(d, items[..|items| - 1], left);
      if before.Err? then before else
        var last := Macro(d, items[|items| - 1], left);
        if last.Err? then Err(last.error) else Ok(before.value + [last.value])
  }

  // ---- What must be in scope ----

  /** Every name a const argument gives is in `consts`; with `lens`, every length parameter too. */
  predicate InScope(consts: set<string>, lens: bool, ty: Ty)
    decreases ty
  {
    match ty
    case Leaf(_) => true
    case Num(_) => true
    case Array(item, len) => InScope(consts, lens, item) && (lens && len.Param? ==> len.name in consts)
    case Vec(item) => InScope(consts, lens, item)
    case Optional(item, _) => InScope(consts, lens, item)
    case Alias(target) => InScope(consts, lens, target)
    case Generic(_) => true
    case Defined(_, args) => ArgsInScope(consts, lens, args)
    case Group(_, items) => ItemsInScope(consts, lens, items)
  }

  predicate ItemsInScope(consts: set<string>, lens: bool, items: seq<Ty>)
    decreases items
  {
    items == [] || (ItemsInScope(consts, lens, items[..|items| - 1]) && InScope(consts, lens, items[|items| - 1]))
  }

  predicate ArgInScope(consts: set<string>, lens: bool, arg: Arg)
    decreases arg
  {
    match arg
    case TypeArg(ty) => InScope(consts, lens, ty)
    case ConstArg(c) => c.Name? ==> c.name in consts
    case Missing => true
  }

  predicate ArgsInScope(consts: set<string>, lens: bool, args: seq<Arg>)
    decreases args
  {
    args == [] || (ArgsInScope(consts, lens, args[..|args| - 1]) && ArgInScope(consts, lens, args[|args| - 1]))
  }

  function ParamNames(params: seq<Parameter>, isConst: bool): set<string> {
    set p | p in params && p.isConst == isConst :: p.name
  }

  /** A definition names only its own parameters, and no parameter is both a type and a const. */
  ghost predicate WellScoped(d: Defs, lens: bool) {
    forall n :: n in d.generic ==>
      && InScope(ParamNames(d.generic[n].params, true), lens, d.generic[n].body)
      && ParamNames(d.generic[n].params, true) !! ParamNames(d.generic[n].params, false)
  }

  /** Every bound argument is closed, and no name is bound twice over. */
  ghost predicate GoodScope(s: Scope) {
    && (forall n :: n in s.types ==> ArgClosed(s.types[n]))
    && (forall n :: n in s.consts ==> ArgClosed(s.consts[n]))
    && s.types.Keys !! s.consts.Keys
  }
}
