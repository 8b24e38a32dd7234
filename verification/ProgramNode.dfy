/** The program node that the passes rewrite in place. */
module ProgramObject {
  import opened Basics
  import opened TypeNodes
  import opened NodeRewrites
  import opened ProgramPasses

  // ---- Counting uses ----

  datatype Uses = Uses(total: nat, directArg: nat)

  type UseMap = map<string, Uses>

  function UsesOf(uses: UseMap, n: string): Uses { if n in uses then uses[n] else Uses(0, 0) }

  /** The map's totals are the counts of `total`, its direct uses those of `direct`. */
  ghost predicate Tells(uses: UseMap, total: multiset<string>, direct: multiset<string>) {
    forall n :: UsesOf(uses, n) == Uses(total[n], direct[n])
  }

  method CountOne(name: string, uses: UseMap, ghost total: multiset<string>, ghost direct: multiset<string>) returns (r: UseMap)
    requires Tells(uses, total, direct)
    ensures Tells(r, total + multiset{name}, direct)
  {
    r := uses[name := UsesOf(uses, name).(total := UsesOf(uses, name).total + 1)];
  }

  method CountLinks(ty: Node, uses: UseMap, ghost total: multiset<string>, ghost direct: multiset<string>) returns (r: UseMap)
    requires Tells(uses, total, direct)
    ensures Tells(r, total + Links(ty), direct)
    decreases ty, 1
  {
    r := uses;
    match ty {
      case Link(name) => r := CountOne(name, uses, total, direct);
      case FixedSize(inner, _) => r := CountLinks(inner, uses, total, direct);
      case SizePrefix(inner, _) => r := CountLinks(inner, uses, total, direct);
      case Optional(item, _, _) => r := CountLinks(item, uses, total, direct);
      case FixedArray(item, _) => r := CountLinks(item, uses, total, direct);
      case PrefixedArray(item, _) => r := CountLinks(item, uses, total, direct);
      case HiddenPrefix(constants, inner) => r := CountHidden(constants, inner, uses, total, direct);
      case Struct(fields) => r := CountFields(fields, uses, total, direct);
      case Tuple(items) => r := CountFields(items, uses, total, direct);
      case Enum(variants, _) => r := CountFields(variants, uses, total, direct);
      case Number(_) =>
      case Boolean =>
      case PublicKey =>
      case Text =>
      case Bytes =>
    }
  }

  method CountHidden(constants: seq<Field>, inner: Node, uses: UseMap, ghost total: multiset<string>, ghost direct: multiset<string>)
    returns (r: UseMap)
    requires Tells(uses, total, direct)
    ensures Tells(r, total + Links(HiddenPrefix(constants, inner)), direct)
    decreases HiddenPrefix(constants, inner), 0
  {
    r := CountLinks(inner, uses, total, direct);
    r := CountFields(constants, r, total + Links(inner), direct);
    AddInTurn(total, Links(inner), FieldLinks(constants));
  }

  lemma AddInTurn(total: multiset<string>, a: multiset<string>, b: multiset<string>)
    ensures total + a + b == total + (a + b)
  {
  }

  method CountFields(fields: seq<Field>, uses: UseMap, ghost total: multiset<string>, ghost direct: multiset<string>) returns (r: UseMap)
    requires Tells(uses, total, direct)
    ensures Tells(r, total + FieldLinks(fields), direct)
    decreases fields, 0
  {
    r := uses;
    for i := 0 to |fields|
      invariant Tells(r, total + FieldLinks(fields[..i]), direct)
    {
      assert fields[..i + 1][..i] == fields[..i];
      r := CountLinks(fields[i].ty, r, total + FieldLinks(fields[..i]), direct);
    }
    assert fields[..|fields|] == fields;
  }

  method CountArg(arg: Field, uses: UseMap, ghost total: multiset<string>, ghost direct: multiset<string>) returns (r: UseMap)
    requires Tells(uses, total, direct)
    ensures Tells(r, total + Links(arg.ty), direct + DirectName(arg))
  {
    if arg.ty.Link? {
      var n := arg.ty.name;
      r := uses[n := Uses(UsesOf(uses, n).total + 1, UsesOf(uses, n).directArg + 1)];
    } else {
      r := CountLinks(arg.ty, uses, total, direct);
    }
  }

  method CountArgs(args: seq<Field>, uses: UseMap, ghost total: multiset<string>, ghost direct: multiset<string>) returns (r: UseMap)
    requires Tells(uses, total, direct)
    ensures Tells(r, total + FieldLinks(args), direct + DirectArgs(args))
    decreases |args|
  {
    if args == [] { return uses; }
    var init, last := args[..|args| - 1], args[|args| - 1];
    r := CountArgs(init, uses, total, direct);
    r := CountArg(last, r, total + FieldLinks(init), direct + DirectArgs(init));
    assert total + FieldLinks(init) + Links(last.ty) == total + FieldLinks(args);
    assert direct + DirectArgs(init) + DirectName(last) == direct + DirectArgs(args);
  }

  method CountPdas(pdas: seq<Pda>, uses: UseMap, ghost total: multiset<string>, ghost direct: multiset<string>) returns (r: UseMap)
    requires Tells(uses, total, direct)
    ensures Tells(r, total + CountedInPdas(pdas), direct)
  {
    r := uses;
    for i := 0 to |pdas|
      invariant Tells(r, total + CountedInPdas(pdas[..i]), direct)
    {
      assert pdas[..i + 1][..i] == pdas[..i];
      if pdas[i].owned { r := CountFields(pdas[i].variables, r, total + CountedInPdas(pdas[..i]), direct); }
    }
    assert pdas[..|pdas|] == pdas;
  }

  method CountInstructions(ixs: seq<Instruction>, uses: UseMap, ghost total: multiset<string>, ghost direct: multiset<string>)
    returns (r: UseMap)
    requires Tells(uses, total, direct)
    ensures Tells(r, total + CountedInInstructions(ixs), direct + Direct(ixs))
  {
    r := uses;
    for i := 0 to |ixs|
      invariant Tells(r, total + CountedInInstructions(ixs[..i]), direct + Direct(ixs[..i]))
    {
      assert ixs[..i + 1][..i] == ixs[..i];
      r := CountPdas(ixs[i].pdas, r, total + CountedInInstructions(ixs[..i]), direct + Direct(ixs[..i]));
      r := CountArgs(ixs[i].args, r, total + CountedInInstructions(ixs[..i]) + CountedInPdas(ixs[i].pdas), direct + Direct(ixs[..i]));
    }
    assert ixs[..|ixs|] == ixs;
  }

  // ---- Replacing links ----

  ghost function Replaceable(m: Defs, links: multiset<string>): nat { if forall n :: n in m ==> n !in links then 0 else 1 }

  /** Replaces a link, then goes on into the children of what took its place. */
  method InlineLinks(m: Defs, ty: Node) returns (r: Node)
    requires OneStep(m)
    ensures r == Inline(m, ty)
    decreases Replaceable(m, Links(ty)), ty, 1
  {
    if ty.Link? && ty.name in m {
      assert Avoids(m[ty.name], m.Keys) && ty.name in Links(ty);
      InlineAvoids(m, m[ty.name]);
      r := InlineChildren(m, m[ty.name]);
    } else {
      r := InlineChildren(m, ty);
    }
  }

  method InlineChildren(m: Defs, ty: Node) returns (r: Node)
    requires OneStep(m) && !(ty.Link? && ty.name in m)
    ensures r == Inline(m, ty)
    decreases Replaceable(m, Links(ty)), ty, 0
  {
    match ty {
      case FixedSize(inner, size) => var i := InlineLinks(m, inner); r := FixedSize(i, size);
      case SizePrefix(inner, prefix) => var i := InlineLinks(m, inner); r := SizePrefix(i, prefix);
      case Optional(item, prefix, fixed) => var i := InlineLinks(m, item); r := Optional(i, prefix, fixed);
      case FixedArray(item, count) => var i := InlineLinks(m, item); r := FixedArray(i, count);
      case PrefixedArray(item, prefix) => var i := InlineLinks(m, item); r := PrefixedArray(i, prefix);
      case HiddenPrefix(constants, inner) =>
        var i := InlineLinks(m, inner);
        var c := InlineEach(m, constants);
        r := HiddenPrefix(c, i);
      case Struct(fields) => var f := InlineEach(m, fields); r := Struct(f);
      case Tuple(items) => var f := InlineEach(m, items); r := Tuple(f);
      case Enum(variants, tag) => var f := InlineEach(m, variants); r := Enum(f, tag);
      case Link(_) => r := ty;
      case Number(_) => r := ty;
      case Boolean => r := ty;
      case PublicKey => r := ty;
      case Text => r := ty;
      case Bytes => r := ty;
    }
  }

  lemma MemberReplaceable(m: Defs, fields: seq<Field>, i: nat)
    requires i < |fields|
    ensures Replaceable(m, Links(fields[i].ty)) <= Replaceable(m, FieldLinks(fields))
  {
    FieldLinksOf(fields, i);
  }

  method InlineEach(m: Defs, fields: seq<Field>) returns (r: seq<Field>)
    requires OneStep(m)
    ensures r == InlineFields(m, fields)
    decreases Replaceable(m, FieldLinks(fields)), fields, 0
  {
    r := [];
    for i := 0 to |fields|
      invariant r == InlineFields(m, fields[..i])
    {
      assert fields[..i + 1][..i] == fields[..i];
      MemberReplaceable(m, fields, i);
      var t := InlineLinks(m, fields[i].ty);
      r := r + [fields[i].(ty := t)];
    }
    assert fields[..|fields|] == fields;
  }

  method InlineInPdas(m: Defs, pdas: seq<Pda>) returns (r: seq<Pda>)
    requires OneStep(m)
    ensures r == InlinePdas(m, pdas)
  {
    r := [];
    for i := 0 to |pdas|
      invariant r == InlinePdas(m, pdas[..i])
    {
      assert pdas[..i + 1][..i] == pdas[..i];
      var v := InlineEach(m, pdas[i].variables);
      var c := InlineEach(m, pdas[i].constants);
      r := r + [Pda(pdas[i].owned, v, c)];
    }
    assert pdas[..|pdas|] == pdas;
  }

  method InlineInInstructions(m: Defs, ixs: seq<Instruction>) returns (r: seq<Instruction>)
    requires OneStep(m)
    ensures r == InlineInstructions(m, ixs)
  {
    r := [];
    for i := 0 to |ixs|
      invariant r == InlineInstructions(m, ixs[..i])
    {
      assert ixs[..i + 1][..i] == ixs[..i];
      var args := InlineEach(m, ixs[i].args);
      var pdas := InlineInPdas(m, ixs[i].pdas);
      r := r + [Instruction(ixs[i].name, args, pdas)];
    }
    assert ixs[..|ixs|] == ixs;
  }

  // ---- Byte arrays ----

  method U8ArraysToBytes(ty: Node) returns (r: Node)
    ensures r == U8Bytes(ty)
    decreases ty
  {
    match ty {
      case FixedSize(inner, size) => var i := U8ArraysToBytes(inner); r := FixedSize(i, size);
      case SizePrefix(inner, prefix) => var i := U8ArraysToBytes(inner); r := SizePrefix(i, prefix);
      case Optional(item, prefix, fixed) => var i := U8ArraysToBytes(item); r := Optional(i, prefix, fixed);
      case FixedArray(item, count) =>
        var i := U8ArraysToBytes(item);
        r := if i == Number(U8) then FixedSize(Bytes, count) else FixedArray(i, count);
      case PrefixedArray(item, prefix) => var i := U8ArraysToBytes(item); r := PrefixedArray(i, prefix);
      case HiddenPrefix(constants, inner) =>
        var i := U8ArraysToBytes(inner);
        var c := BytesEach(constants);
        r := HiddenPrefix(c, i);
      case Struct(fields) => var f := BytesEach(fields); r := Struct(f);
      case Tuple(items) => var f := BytesEach(items); r := Tuple(f);
      case Enum(variants, tag) => var f := BytesEach(variants); r := Enum(f, tag);
      case Link(_) => r := ty;
      case Number(_) => r := ty;
      case Boolean => r := ty;
      case PublicKey => r := ty;
      case Text => r := ty;
      case Bytes => r := ty;
    }
  }

  method BytesEach(fields: seq<Field>) returns (r: seq<Field>)
    ensures r == U8BytesFields(fields)
    decreases fields
  {
    r := [];
    for i := 0 to |fields|
      invariant r == U8BytesFields(fields[..i])
    {
      assert fields[..i + 1][..i] == fields[..i];
      var t := U8ArraysToBytes(fields[i].ty);
      r := r + [fields[i].(ty := t)];
    }
    assert fields[..|fields|] == fields;
  }

  method BytesInPdas(pdas: seq<Pda>) returns (r: seq<Pda>)
    ensures r == BytesPdas(pdas)
  {
    r := [];
    for i := 0 to |pdas|
      invariant r == BytesPdas(pdas[..i])
    {
      assert pdas[..i + 1][..i] == pdas[..i];
      var v := BytesEach(pdas[i].variables);
      var c := BytesEach(pdas[i].constants);
      r := r + [Pda(pdas[i].owned, v, c)];
    }
    assert pdas[..|pdas|] == pdas;
  }

  method BytesInInstructions(ixs: seq<Instruction>) returns (r: seq<Instruction>)
    ensures r == BytesInstructions(ixs)
  {
    r := [];
    for i := 0 to |ixs|
      invariant r == BytesInstructions(ixs[..i])
    {
      assert ixs[..i + 1][..i] == ixs[..i];
      var args := BytesEach(ixs[i].args);
      var pdas := BytesInPdas(ixs[i].pdas);
      r := r + [Instruction(ixs[i].name, args, pdas)];
    }
    assert ixs[..|ixs|] == ixs;
  }

  // ---- Repeated names ----

  /** The names given to more than one argument. */
  method FindDuplicates(args: seq<Field>) returns (names: set<string>)
    ensures forall n :: n in names <==> Repeated(args, n)
  {
    names := {};
    var seen: set<string> := {};
    for i := 0 to |args|
      invariant forall n :: n in seen <==> exists j :: 0 <= j < i && args[j].name == n
      invariant forall n :: n in names <==> Repeated(args[..i], n)
    {
      var n := args[i].name;
      RepeatedOneMore(args, i);
      if n in seen { names := names + {n}; }
      seen := seen + {n};
    }
    assert args[..|args|] == args;
  }

  lemma RepeatedOneMore(args: seq<Field>, i: nat)
    requires i < |args|
    ensures forall n :: Repeated(args[..i + 1], n) <==>
                        Repeated(args[..i], n) || (n == args[i].name && exists j :: 0 <= j < i && args[j].name == n)
  {
    var more, less := args[..i + 1], args[..i];
    forall n ensures Repeated(more, n) <==> Repeated(less, n) || (n == args[i].name && exists j :: 0 <= j < i && args[j].name == n) {
      if a, b :| 0 <= a < b < |less| && less[a].name == n && less[b].name == n { assert more[a].name == n && more[b].name == n; }
      if j :| 0 <= j < i && args[j].name == n && n == args[i].name { assert more[j].name == n && more[i].name == n; }
      if a, b :| 0 <= a < b < |more| && more[a].name == n && more[b].name == n {
        if b < i { assert less[a].name == n && less[b].name == n; } else { assert args[a].name == n; }
      }
    }
  }

  datatype FlattenResult = Done | Conflict(instruction: nat, names: set<string>)

  method Partition(uses: UseMap, types: seq<Field>, ghost counted: multiset<string>, ghost direct: multiset<string>)
    returns (inlined: seq<Field>, kept: seq<Field>)
    requires Tells(uses, counted, direct)
    ensures inlined == InlinedTypes(counted, direct, types) && kept == KeptTypes(counted, direct, types)
  {
    inlined, kept := [], [];
    for i := 0 to |types|
      invariant inlined == InlinedTypes(counted, direct, types[..i]) && kept == KeptTypes(counted, direct, types[..i])
    {
      assert types[..i + 1][..i] == types[..i];
      var u := UsesOf(uses, types[i].name);
      if u.total == 1 && u.directArg == 1 && !types[i].ty.Enum? {
        inlined := inlined + [types[i]];
      } else {
        kept := kept + [types[i]];
      }
    }
    assert types[..|types|] == types;
  }

  /** Flattening some instruction's arguments repeats a name. */
  ghost predicate Clashes(ixs: seq<Instruction>) {
    exists i, n :: 0 <= i < |ixs| && Repeated(Flatten(ixs[i].args), n)
  }

  /** The first `n` instructions flattened. */
  ghost function HalfFlattened(ixs: seq<Instruction>, n: nat): (r: seq<Instruction>)
    requires n <= |ixs|
    ensures |r| == |ixs| && forall i :: n <= i < |ixs| ==> r[i] == ixs[i]
  {
    FlattenInstructions(ixs[..n]) + ixs[n..]
  }

  lemma HalfFlattenedStep(ixs: seq<Instruction>, n: nat)
    requires n < |ixs|
    ensures HalfFlattened(ixs, n + 1) == HalfFlattened(ixs, n)[n := FlattenInstruction(ixs[n])]
  {
    assert ixs[..n + 1][..n] == ixs[..n];
    assert FlattenInstructions(ixs[..n + 1]) == FlattenInstructions(ixs[..n]) + [FlattenInstruction(ixs[n])];
  }

  /** What a clash at instruction `n` leaves behind. */
  ghost function CutOff(ixs: seq<Instruction>, n: nat): seq<Instruction>
    requires n < |ixs|
  {
    HalfFlattened(ixs, n)[n := ixs[n].(args := [])]
  }

  class ProgramNode {
    var accounts: seq<Field>
    var events: seq<Field>
    var constants: seq<Field>
    var types: seq<Field>
    var instructions: seq<Instruction>

    function Value(): Program
      reads this
    {
      Program(accounts, events, constants, types, instructions)
    }

    constructor (p: Program)
      ensures Value() == p
    {
      accounts, events, constants, types, instructions := p.accounts, p.events, p.constants, p.types, p.instructions;
    }

    method CountUses() returns (uses: UseMap)
      ensures Tells(uses, Counted(Value()), Direct(instructions))
    {
      ghost var none: multiset<string> := multiset{};
      uses := map[];
      uses := CountFields(accounts, uses, none, none);
      uses := CountFields(events, uses, FieldLinks(accounts), none);
      uses := CountFields(types, uses, FieldLinks(accounts) + FieldLinks(events), none);
      uses := CountFields(constants, uses, FieldLinks(accounts) + FieldLinks(events) + FieldLinks(types), none);
      uses := CountInstructions(instructions, uses,
                                FieldLinks(accounts) + FieldLinks(events) + FieldLinks(types) + FieldLinks(constants), none);
    }

    /** Types with a single use, as a whole argument, move into that argument. */
    method UnwrapInstructionArgsDefinedTypes()
      modifies this
      ensures Value() == Unwrapped(old(Value()))
    {
      var uses := CountUses();
      var inlined, kept := Partition(uses, types, Counted(Value()), Direct(instructions));
      InliningIsOneStep(Value());
      var ixs := InlineInInstructions(DefsOf(inlined), instructions);
      types, instructions := kept, ixs;
    }

    /**
     * Fails exactly at the first instruction whose flattened arguments repeat a name, naming all that
     * repeat. Instructions before it are flattened by then, and its own arguments are gone.
     */
    method FlattenInstructionDataArguments() returns (r: FlattenResult)
      modifies this`instructions
      ensures r == Done ==> instructions == FlattenInstructions(old(instructions))
      ensures r.Conflict? <==> Clashes(old(instructions))
      ensures r.Conflict? ==>
                && r.instruction < |old(instructions)|
                && (forall n :: n in r.names <==> Repeated(Flatten(old(instructions)[r.instruction].args), n))
                && (forall i :: 0 <= i < r.instruction ==> NoRepeats(Flatten(old(instructions)[i].args)))
                && instructions == CutOff(old(instructions), r.instruction)
    {
      ghost var was := instructions;
      var i := 0;
      while i < |instructions|
        invariant 0 <= i <= |instructions| == |was| && instructions == HalfFlattened(was, i)
        invariant forall j :: 0 <= j < i ==> NoRepeats(Flatten(was[j].args))
      {
        var ix := instructions[i];
        var flattened := FlattenArgs(ix.args);
        instructions := instructions[i := ix.(args := [])];
        var names := FindDuplicates(flattened);
        if n :| n in names { return Conflict(i, names); }
        NoneRepeated(flattened);
        instructions := instructions[i := ix.(args := flattened)];
        HalfFlattenedStep(was, i);
        i := i + 1;
      }
      assert was[..|was|] == was;
      r := Done;
    }

    method TransformU8ArraysToBytes()
      modifies this
      ensures Value() == WithBytes(old(Value()))
    {
      accounts := BytesEach(accounts);
      instructions := BytesInInstructions(instructions);
      types := BytesEach(types);
      events := BytesEach(events);
      constants := BytesEach(constants);
    }

    /** What `ProgramPasses.ArgumentsReadSame` speaks of, unless flattened names clash. */
    method Run() returns (r: FlattenResult)
      modifies this
      ensures r == Done ==> Value() == Passed(old(Value()))
      ensures r.Conflict? <==> Clashes(Unwrapped(old(Value())).instructions)
    {
      UnwrapInstructionArgsDefinedTypes();
      r := FlattenInstructionDataArguments();
      if r == Done { TransformU8ArraysToBytes(); }
    }
  }

  method FlattenArgs(args: seq<Field>) returns (r: seq<Field>)
    ensures r == Flatten(args)
  {
    r := [];
    for i := 0 to |args|
      invariant r == Flatten(args[..i])
    {
      assert args[..i + 1][..i] == args[..i];
      r := r + if args[i].ty.Struct? then args[i].ty.fields else [args[i]];
    }
    assert args[..|args|] == args;
  }

  lemma NoneRepeated(args: seq<Field>)
    requires forall n :: !Repeated(args, n)
    ensures NoRepeats(args)
  {
    forall i, j | 0 <= i < j < |args| ensures args[i].name != args[j].name { assert !Repeated(args, args[i].name); }
  }
}
