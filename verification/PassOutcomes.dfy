/** What the passes leave behind: which types go, which arguments are spliced, which arrays become bytes. */
module PassOutcomes {
  import opened Basics
  import opened TypeNodes
  import opened NodeRewrites
  import opened ProgramPasses

  // ---- How often a name is linked ----

  function Occurs(ty: Node, n: string): nat
    decreases ty
  {
    match ty
    case Number(_) => 0 case Boolean => 0 case PublicKey => 0 case Text => 0 case Bytes => 0
    case FixedSize(inner, _) => Occurs(inner, n)
    case SizePrefix(inner, _) => Occurs(inner, n)
    case Optional(item, _, _) => Occurs(item, n)
    case FixedArray(item, _) => Occurs(item, n)
    case PrefixedArray(item, _) => Occurs(item, n)
    case HiddenPrefix(constants, inner) => OccursIn(constants, n) + Occurs(inner, n)
    case Struct(fields) => OccursIn(fields, n)
    case Tuple(items) => OccursIn(items, n)
    case Enum(variants, _) => OccursIn(variants, n)
    case Link(name) => if name == n then 1 else 0
  }

  function OccursIn(fields: seq<Field>, n: string): nat
    decreases fields
  {
    if fields == [] then 0 else Occurs(fields[0].ty, n) + OccursIn(fields[1..], n)
  }

  function OccursInPdas(pdas: seq<Pda>, n: string): nat {
    if pdas == [] then 0 else (if pdas[0].owned then OccursIn(pdas[0].variables, n) else 0) + OccursInPdas(pdas[1..], n)
  }

  function OccursInInstructions(ixs: seq<Instruction>, n: string): nat {
    if ixs == [] then 0 else OccursIn(ixs[0].args, n) + OccursInPdas(ixs[0].pdas, n) + OccursInInstructions(ixs[1..], n)
  }

  /** Links in data and arguments, and in the variable seeds of this program's own PDAs. */
  function LinkCount(p: Program, n: string): nat {
    OccursIn(p.accounts, n) + OccursIn(p.events, n) + OccursIn(p.types, n) + OccursIn(p.constants, n)
    + OccursInInstructions(p.instructions, n)
  }

  predicate IsWholeArgument(p: Program, n: string) {
    exists i, j :: 0 <= i < |p.instructions| && 0 <= j < |p.instructions[i].args| && p.instructions[i].args[j].ty == Link(n)
  }

  lemma {:induction false} OccursInAppend(a: seq<Field>, b: seq<Field>, n: string)
    ensures OccursIn(a + b, n) == OccursIn(a, n) + OccursIn(b, n)
    decreases |a|
  {
    if a == [] {
      assert a + b == b;
    } else {
      assert (a + b)[1..] == a[1..] + b;
      OccursInAppend(a[1..], b, n);
    }
  }

  lemma {:induction false} LinksAreOccurrences(ty: Node, n: string)
    ensures Links(ty)[n] == Occurs(ty, n)
    decreases ty
  {
    match ty {
      case FixedSize(inner, _) => LinksAreOccurrences(inner, n);
      case SizePrefix(inner, _) => LinksAreOccurrences(inner, n);
      case Optional(item, _, _) => LinksAreOccurrences(item, n);
      case FixedArray(item, _) => LinksAreOccurrences(item, n);
      case PrefixedArray(item, _) => LinksAreOccurrences(item, n);
      case HiddenPrefix(constants, inner) => FieldLinksAreOccurrences(constants, n); LinksAreOccurrences(inner, n);
      case Struct(fields) => FieldLinksAreOccurrences(fields, n);
      case Tuple(items) => FieldLinksAreOccurrences(items, n);
      case Enum(variants, _) => FieldLinksAreOccurrences(variants, n);
      case Link(_) =>
      case Number(_) =>
      case Boolean =>
      case PublicKey =>
      case Text =>
      case Bytes =>
    }
  }

  lemma {:induction false} FieldLinksAreOccurrences(fields: seq<Field>, n: string)
    ensures FieldLinks(fields)[n] == OccursIn(fields, n)
    decreases fields
  {
    if fields != [] {
      var init, last := fields[..|fields| - 1], fields[|fields| - 1];
      FieldLinksAreOccurrences(init, n);
      LinksAreOccurrences(last.ty, n);
      assert fields == init + [last] && [last][1..] == [];
      OccursInAppend(init, [last], n);
    }
  }

  lemma {:induction false} PdasAppend(a: seq<Pda>, b: seq<Pda>, n: string)
    ensures OccursInPdas(a + b, n) == OccursInPdas(a, n) + OccursInPdas(b, n)
    decreases |a|
  {
    if a == [] {
      assert a + b == b;
    } else {
      assert (a + b)[1..] == a[1..] + b;
      PdasAppend(a[1..], b, n);
    }
  }

  lemma {:induction false} PdasAreOccurrences(pdas: seq<Pda>, n: string)
    ensures CountedInPdas(pdas)[n] == OccursInPdas(pdas, n)
    decreases |pdas|
  {
    if pdas != [] {
      var init, last := pdas[..|pdas| - 1], pdas[|pdas| - 1];
      PdasAreOccurrences(init, n);
      FieldLinksAreOccurrences(last.variables, n);
      assert pdas == init + [last] && [last][1..] == [];
      PdasAppend(init, [last], n);
    }
  }

  lemma {:induction false} InstructionsAppend(a: seq<Instruction>, b: seq<Instruction>, n: string)
    ensures OccursInInstructions(a + b, n) == OccursInInstructions(a, n) + OccursInInstructions(b, n)
    decreases |a|
  {
    if a == [] {
      assert a + b == b;
    } else {
      assert (a + b)[1..] == a[1..] + b;
      InstructionsAppend(a[1..], b, n);
    }
  }

  lemma {:induction false} InstructionsAreOccurrences(ixs: seq<Instruction>, n: string)
    ensures CountedInInstructions(ixs)[n] == OccursInInstructions(ixs, n)
    decreases |ixs|
  {
    if ixs != [] {
      var init, last := ixs[..|ixs| - 1], ixs[|ixs| - 1];
      InstructionsAreOccurrences(init, n);
      FieldLinksAreOccurrences(last.args, n);
      PdasAreOccurrences(last.pdas, n);
      assert ixs == init + [last] && [last][1..] == [];
      InstructionsAppend(init, [last], n);
    }
  }

  lemma CountedIsLinkCount(p: Program, n: string)
    ensures Counted(p)[n] == LinkCount(p, n)
  {
    FieldLinksAreOccurrences(p.accounts, n);
    FieldLinksAreOccurrences(p.events, n);
    FieldLinksAreOccurrences(p.types, n);
    FieldLinksAreOccurrences(p.constants, n);
    InstructionsAreOccurrences(p.instructions, n);
  }

  lemma {:induction false} DirectArgument(args: seq<Field>, n: string)
    ensures n in DirectArgs(args) <==> exists j :: 0 <= j < |args| && args[j].ty == Link(n)
    decreases |args|
  {
    if args != [] {
      var init := args[..|args| - 1];
      DirectArgument(init, n);
      if j :| 0 <= j < |init| && init[j].ty == Link(n) { assert args[j].ty == Link(n); }
      if j :| 0 <= j < |args| && args[j].ty == Link(n) { assert j < |init| ==> init[j].ty == Link(n); }
    }
  }

  predicate HasArgument(ix: Instruction, n: string) { exists j :: 0 <= j < |ix.args| && ix.args[j].ty == Link(n) }

  lemma {:induction false} DirectIsWholeArgument(ixs: seq<Instruction>, n: string)
    ensures n in Direct(ixs) <==> exists i :: 0 <= i < |ixs| && HasArgument(ixs[i], n)
    decreases |ixs|
  {
    if ixs != [] {
      var init := ixs[..|ixs| - 1];
      DirectIsWholeArgument(init, n);
      DirectArgument(ixs[|ixs| - 1].args, n);
      assert n in Direct(ixs) <==> n in Direct(init) || HasArgument(ixs[|ixs| - 1], n);
      if i :| 0 <= i < |init| && HasArgument(init[i], n) { assert HasArgument(ixs[i], n); }
      if i :| 0 <= i < |ixs| && HasArgument(ixs[i], n) { assert i < |init| ==> HasArgument(init[i], n); }
    }
  }

  /** Types that stay keep their order. */
  ghost predicate InOrderOf(kept: seq<Field>, types: seq<Field>, at: seq<nat>) {
    |at| == |kept| && StrictlyAscending(at) && forall k :: 0 <= k < |kept| ==> at[k] < |types| && kept[k] == types[at[k]]
  }

  lemma {:induction false} KeptInOrder(counted: multiset<string>, direct: multiset<string>, types: seq<Field>) returns (at: seq<nat>)
    ensures InOrderOf(KeptTypes(counted, direct, types), types, at)
    decreases |types|
  {
    at := [];
    if types != [] {
      at := KeptInOrder(counted, direct, types[..|types| - 1]);
      if !IsInlined(counted, direct, types[|types| - 1]) { at := at + [|types| - 1]; }
    }
  }

  /**
   * A definition leaves the program exactly if it is no enum and the one link that counts is a whole
   * instruction argument. The others stay, in their order.
   */
  lemma WhichTypesGo(p: Program)
    ensures forall f :: f in p.types ==>
              (f !in Unwrapped(p).types <==> !f.ty.Enum? && LinkCount(p, f.name) == 1 && IsWholeArgument(p, f.name))
    ensures exists at: seq<nat> :: InOrderOf(Unwrapped(p).types, p.types, at)
  {
    var counted, direct := Counted(p), Direct(p.instructions);
    SplitTypes(counted, direct, p.types);
    var at := KeptInOrder(counted, direct, p.types);
    assert InOrderOf(Unwrapped(p).types, p.types, at);
    forall f | f in p.types
      ensures f !in Unwrapped(p).types <==> !f.ty.Enum? && LinkCount(p, f.name) == 1 && IsWholeArgument(p, f.name)
    {
      InlinedIff(p, f);
    }
  }

  lemma InlinedIff(p: Program, f: Field)
    ensures IsInlined(Counted(p), Direct(p.instructions), f)
            <==> !f.ty.Enum? && LinkCount(p, f.name) == 1 && IsWholeArgument(p, f.name)
  {
    CountedIsLinkCount(p, f.name);
    DirectIsCounted(p.instructions, f.name);
    DirectIsWholeArgument(p.instructions, f.name);
    if i :| 0 <= i < |p.instructions| && HasArgument(p.instructions[i], f.name) { assert IsWholeArgument(p, f.name); }
    if IsWholeArgument(p, f.name) {
      var i, j :| 0 <= i < |p.instructions| && 0 <= j < |p.instructions[i].args| && p.instructions[i].args[j].ty == Link(f.name);
      assert HasArgument(p.instructions[i], f.name);
    }
  }

  // ---- Flattened arguments ----

  /** How many arguments come before those of argument `i`. */
  function Offset(args: seq<Field>, i: nat): nat
    requires i <= |args|
  {
    if i == 0 then 0 else Offset(args, i - 1) + Span(args[i - 1])
  }

  function Span(arg: Field): nat { if arg.ty.Struct? then |arg.ty.fields| else 1 }

  lemma {:induction false} FlattenPrefix(args: seq<Field>, n: nat)
    requires n <= |args|
    ensures Flatten(args[..n]) <= Flatten(args)
    decreases |args|
  {
    if n < |args| {
      assert args[..|args| - 1][..n] == args[..n];
      FlattenPrefix(args[..|args| - 1], n);
    } else {
      assert args[..n] == args;
    }
  }

  /** The place of every argument and of every field of a struct argument in the flattened list. */
  lemma FlattenedAt(args: seq<Field>, i: nat, j: nat)
    requires i < |args| && j < Span(args[i])
    ensures |Flatten(args)| == Offset(args, |args|) && Offset(args, i) + j < |Flatten(args)|
    ensures Flatten(args)[Offset(args, i) + j] == if args[i].ty.Struct? then args[i].ty.fields[j] else args[i]
  {
    var before, upTo := args[..i], args[..i + 1];
    FlattenedLength(args);
    FlattenedLength(before);
    OffsetOfPrefix(args, i, i);
    assert upTo[..i] == before && upTo[i] == args[i];
    assert Flatten(upTo) == Flatten(before) + FlattenOne(args[i]);
    assert Flatten(upTo)[Offset(args, i) + j] == FlattenOne(args[i])[j];
    FlattenPrefix(args, i + 1);
  }

  lemma {:induction false} FlattenedLength(args: seq<Field>)
    ensures |Flatten(args)| == Offset(args, |args|)
    decreases |args|
  {
    if args != [] {
      FlattenedLength(args[..|args| - 1]);
      OffsetOfPrefix(args, |args| - 1, |args| - 1);
    }
  }

  lemma {:induction false} OffsetOfPrefix(args: seq<Field>, n: nat, i: nat)
    requires i <= n <= |args|
    ensures Offset(args[..n], i) == Offset(args, i)
    decreases i
  {
    if i > 0 { OffsetOfPrefix(args, n, i - 1); }
  }

  predicate NestsStruct(arg: Field) { arg.ty.Struct? && exists j :: 0 <= j < |arg.ty.fields| && arg.ty.fields[j].ty.Struct? }

  /** Splicing goes one level deep: a struct is left exactly where a struct argument has one as a field. */
  lemma {:induction false} StructsLeft(args: seq<Field>)
    ensures (exists f :: f in Flatten(args) && f.ty.Struct?) <==> exists i :: 0 <= i < |args| && NestsStruct(args[i])
    decreases |args|
  {
    if args != [] {
      var init, last := args[..|args| - 1], args[|args| - 1];
      StructsLeft(init);
      LastLeft(last);
      if i :| 0 <= i < |init| && NestsStruct(init[i]) { assert NestsStruct(args[i]); }
      if i :| 0 <= i < |args| && NestsStruct(args[i]) { assert i < |init| ==> NestsStruct(init[i]); }
      if f :| f in Flatten(init) && f.ty.Struct? { assert f in Flatten(args); }
      if f :| f in FlattenOne(last) && f.ty.Struct? { assert f in Flatten(args); }
    }
  }

  lemma LastLeft(last: Field)
    ensures (exists f :: f in FlattenOne(last) && f.ty.Struct?) <==> NestsStruct(last)
  {
    if last.ty.Struct? {
      if j :| 0 <= j < |last.ty.fields| && last.ty.fields[j].ty.Struct? { assert last.ty.fields[j] in FlattenOne(last); }
    }
  }

  // ---- Byte arrays ----

  /** No fixed array of `u8` anywhere. */
  predicate NoByteArrays(ty: Node)
    decreases ty
  {
    match ty
    case FixedSize(inner, _) => NoByteArrays(inner)
    case SizePrefix(inner, _) => NoByteArrays(inner)
    case Optional(item, _, _) => NoByteArrays(item)
    case FixedArray(item, _) => item != Number(U8) && NoByteArrays(item)
    case PrefixedArray(item, _) => NoByteArrays(item)
    case HiddenPrefix(constants, inner) => NoneHasByteArrays(constants) && NoByteArrays(inner)
    case Struct(fields) => NoneHasByteArrays(fields)
    case Tuple(items) => NoneHasByteArrays(items)
    case Enum(variants, _) => NoneHasByteArrays(variants)
    case _ => true
  }

  predicate NoneHasByteArrays(fields: seq<Field>)
    decreases fields
  {
    forall i :: 0 <= i < |fields| ==> NoByteArrays(fields[i].ty)
  }

  /** The rewrite leaves no such array, and nothing else changes. */
  lemma {:induction false} ByteArraysGo(ty: Node)
    ensures NoByteArrays(U8Bytes(ty)) && (NoByteArrays(ty) ==> U8Bytes(ty) == ty)
    decreases ty
  {
    match ty {
      case FixedSize(inner, _) => ByteArraysGo(inner);
      case SizePrefix(inner, _) => ByteArraysGo(inner);
      case Optional(item, _, _) => ByteArraysGo(item);
      case FixedArray(item, _) => ByteArraysGo(item);
      case PrefixedArray(item, _) => ByteArraysGo(item);
      case HiddenPrefix(constants, inner) => ByteArraysGoIn(constants); ByteArraysGo(inner);
      case Struct(fields) => ByteArraysGoIn(fields);
      case Tuple(items) => ByteArraysGoIn(items);
      case Enum(variants, _) => ByteArraysGoIn(variants);
      case Link(_) =>
      case Number(_) =>
      case Boolean =>
      case PublicKey =>
      case Text =>
      case Bytes =>
    }
  }

  lemma {:induction false} ByteArraysGoIn(fields: seq<Field>)
    ensures NoneHasByteArrays(U8BytesFields(fields)) && (NoneHasByteArrays(fields) ==> U8BytesFields(fields) == fields)
    decreases fields
  {
    if fields != [] {
      var init, last := fields[..|fields| - 1], fields[|fields| - 1];
      ByteArraysGoIn(init);
      ByteArraysGo(last.ty);
      forall i | 0 <= i < |fields| ensures NoByteArrays(U8BytesFields(fields)[i].ty) {
        if i < |init| { assert U8BytesFields(fields)[i] == U8BytesFields(init)[i]; }
      }
      if NoneHasByteArrays(fields) {
        assert NoByteArrays(fields[|fields| - 1].ty);
        assert forall i :: 0 <= i < |init| ==> init[i] == fields[i];
      }
    }
  }

  predicate PdaHasNoByteArrays(pda: Pda) { NoneHasByteArrays(pda.variables) && NoneHasByteArrays(pda.constants) }

  predicate InstructionHasNoByteArrays(ix: Instruction) {
    NoneHasByteArrays(ix.args) && forall k :: 0 <= k < |ix.pdas| ==> PdaHasNoByteArrays(ix.pdas[k])
  }

  lemma {:induction false} PdasHaveNoByteArrays(pdas: seq<Pda>, k: nat)
    requires k < |pdas|
    ensures PdaHasNoByteArrays(BytesPdas(pdas)[k])
    decreases |pdas|
  {
    if k < |pdas| - 1 {
      PdasHaveNoByteArrays(pdas[..|pdas| - 1], k);
    } else {
      ByteArraysGoIn(pdas[k].variables);
      ByteArraysGoIn(pdas[k].constants);
    }
  }

  /** After all passes no account, event, constant, type, argument or seed has a fixed array of `u8` left. */
  lemma NoByteArraysLeft(p: Program)
    ensures var q := Passed(p);
            && NoneHasByteArrays(q.accounts) && NoneHasByteArrays(q.events) && NoneHasByteArrays(q.constants)
            && NoneHasByteArrays(q.types)
            && forall i :: 0 <= i < |q.instructions| ==> InstructionHasNoByteArrays(q.instructions[i])
  {
    var u := Unwrapped(p);
    ByteArraysGoIn(u.accounts);
    ByteArraysGoIn(u.events);
    ByteArraysGoIn(u.constants);
    ByteArraysGoIn(u.types);
    var ixs := FlattenInstructions(u.instructions);
    forall i | 0 <= i < |ixs| ensures InstructionHasNoByteArrays(BytesInstructions(ixs)[i]) {
      InstructionsAt(map[], ixs, i);
      ByteArraysGoIn(ixs[i].args);
      forall k | 0 <= k < |ixs[i].pdas| ensures PdaHasNoByteArrays(BytesPdas(ixs[i].pdas)[k]) {
        PdasHaveNoByteArrays(ixs[i].pdas, k);
      }
    }
  }

  // ---- An argument after all passes ----

  lemma LastArgument(args: seq<Field>, n: string)
    requires args != []
    ensures var init, last := args[..|args| - 1], args[|args| - 1];
            && DirectArgs(args)[n] == DirectArgs(init)[n] + DirectName(last)[n]
            && FieldLinks(args)[n] == FieldLinks(init)[n] + Links(last.ty)[n]
  {
  }

  lemma LastInstruction(ixs: seq<Instruction>, n: string)
    requires ixs != []
    ensures var init, last := ixs[..|ixs| - 1], ixs[|ixs| - 1];
            && Direct(ixs)[n] == Direct(init)[n] + DirectArgs(last.args)[n]
            && CountedInInstructions(ixs)[n] == CountedInInstructions(init)[n] + CountedInPdas(last.pdas)[n] + FieldLinks(last.args)[n]
  {
  }

  /** What an argument counts beyond its direct use, the whole list counts too. */
  lemma {:induction false} SlackOfArgument(args: seq<Field>, n: string, j: nat)
    requires j < |args|
    ensures FieldLinks(args)[n] + DirectName(args[j])[n] >= Links(args[j].ty)[n] + DirectArgs(args)[n]
    decreases |args|
  {
    var last := |args| - 1;
    LastArgument(args, n);
    DirectArgsAreLinks(args[..last], n);
    DirectNameIsLink(args[last], n);
    if j < last {
      assert args[..last][j] == args[j];
      SlackOfArgument(args[..last], n, j);
    }
  }

  ghost predicate HasSlack(ixs: seq<Instruction>, n: string, args: seq<Field>) {
    CountedInInstructions(ixs)[n] + DirectArgs(args)[n] >= FieldLinks(args)[n] + Direct(ixs)[n]
  }

  lemma SlackOfLast(ixs: seq<Instruction>, n: string)
    requires ixs != []
    ensures HasSlack(ixs, n, ixs[|ixs| - 1].args)
  {
    LastInstruction(ixs, n);
    DirectIsCounted(ixs[..|ixs| - 1], n);
  }

  lemma SlackGrows(ixs: seq<Instruction>, n: string, args: seq<Field>)
    requires ixs != [] && HasSlack(ixs[..|ixs| - 1], n, args)
    ensures HasSlack(ixs, n, args)
  {
    LastInstruction(ixs, n);
    DirectArgsAreLinks(ixs[|ixs| - 1].args, n);
  }

  lemma {:induction false} SlackOfInstruction(ixs: seq<Instruction>, n: string, i: nat)
    requires i < |ixs|
    ensures HasSlack(ixs, n, ixs[i].args)
    decreases |ixs|
  {
    if i < |ixs| - 1 {
      SlackOfInstruction(ixs[..|ixs| - 1], n, i);
      SlackGrows(ixs, n, ixs[i].args);
    } else {
      SlackOfLast(ixs, n);
    }
  }

  /** A link that is not a whole argument counts as well, and is not direct. */
  lemma NestedIsCounted(ixs: seq<Instruction>, n: string, i: nat, j: nat)
    requires i < |ixs| && j < |ixs[i].args| && n in Links(ixs[i].args[j].ty) && ixs[i].args[j].ty != Link(n)
    ensures Direct(ixs)[n] < CountedInInstructions(ixs)[n]
  {
    SlackOfInstruction(ixs, n, i);
    SlackOfArgument(ixs[i].args, n, j);
  }

  /** The definition leaves the program. */
  predicate Leaves(p: Program, f: Field) {
    f in p.types && !f.ty.Enum? && LinkCount(p, f.name) == 1 && IsWholeArgument(p, f.name)
  }

  /** A link to a definition that leaves becomes its body; any other argument stays as it is. */
  ghost predicate IsUnlinked(p: Program, before: Node, after: Node) {
    && (forall f :: Leaves(p, f) && before == Link(f.name) ==> after == f.ty)
    && ((forall f :: Leaves(p, f) ==> before != Link(f.name)) ==> after == before)
  }

  lemma ArgumentIsUnlinked(p: Program, i: nat, j: nat)
    requires UniqueNames(p.types) && i < |p.instructions| && j < |p.instructions[i].args|
    ensures IsUnlinked(p, p.instructions[i].args[j].ty, Inline(InlineMap(p), p.instructions[i].args[j].ty))
  {
    var m, ty := InlineMap(p), p.instructions[i].args[j].ty;
    forall f | Leaves(p, f) && ty == Link(f.name) ensures Inline(m, ty) == f.ty {
      InlineMapOf(p, f);
      InlinedIff(p, f);
    }
    if forall f :: Leaves(p, f) ==> ty != Link(f.name) {
      forall n | n in m ensures n !in Links(ty) {
        InlinedLeaves(p, n);
        if n in Links(ty) { NestedIsCounted(p.instructions, n, i, j); }
      }
      InlineAvoids(m, ty);
    }
  }

  lemma InlinedLeaves(p: Program, n: string)
    requires n in InlineMap(p)
    ensures Leaves(p, Field(n, InlineMap(p)[n])) && Direct(p.instructions)[n] == 1
    ensures CountedInInstructions(p.instructions)[n] <= 1
  {
    var f := Field(n, InlineMap(p)[n]);
    DefsOfNames(InlinedTypes(Counted(p), Direct(p.instructions), p.types));
    SplitTypes(Counted(p), Direct(p.instructions), p.types);
    InlinedIff(p, f);
  }

  /** What argument `arg` of the program leaves in the list: itself, or its fields if it is a struct. */
  function PartOf(arg: Field, ty: Node, k: nat): Field
    requires k < Span(Field(arg.name, ty))
  {
    if ty.Struct? then ty.fields[k] else Field(arg.name, ty)
  }

  /** The types of the arguments, links to definitions that leave replaced by their bodies. */
  ghost predicate AreUnlinked(p: Program, args: seq<Field>, types: seq<Node>) {
    |types| == |args| && forall a :: 0 <= a < |args| ==> IsUnlinked(p, args[a].ty, types[a])
  }

  lemma ArgumentsAreUnlinked(p: Program, i: nat) returns (types: seq<Node>)
    requires UniqueNames(p.types) && i < |p.instructions|
    ensures AreUnlinked(p, p.instructions[i].args, types)
    ensures Retyped(p.instructions[i].args, types) == InlineFields(InlineMap(p), p.instructions[i].args)
  {
    var args, m := p.instructions[i].args, InlineMap(p);
    types := seq(|args|, a requires 0 <= a < |args| => Inline(m, args[a].ty));
    forall a | 0 <= a < |args| ensures IsUnlinked(p, args[a].ty, types[a]) { ArgumentIsUnlinked(p, i, a); }
    forall a | 0 <= a < |args| ensures Retyped(args, types)[a] == InlineFields(m, args)[a] { InlineFieldsAt(m, args, a); }
  }

  /** `part` with its `u8` arrays as bytes is at the place of part `k` of argument `j`. */
  predicate IsSpliced(out: seq<Field>, now: seq<Field>, j: nat, k: nat)
    requires j < |now| && k < Span(now[j])
  {
    var at, part := Offset(now, j) + k, PartOf(now[j], now[j].ty, k);
    at < |out| && out[at] == part.(ty := U8Bytes(part.ty))
  }

  /**
   * The passes together: every argument, its link replaced by the body if the definition leaves, is
   * spliced in at its place if it is a struct, and its `u8` arrays have become bytes; nothing else is
   * in the list.
   */
  lemma ArgumentsAfterPasses(p: Program, i: nat) returns (types: seq<Node>)
    requires UniqueNames(p.types) && i < |p.instructions|
    ensures |Passed(p).instructions| == |p.instructions|
    ensures AreUnlinked(p, p.instructions[i].args, types)
    ensures var now, out := Retyped(p.instructions[i].args, types), Passed(p).instructions[i].args;
            && |out| == Offset(now, |now|)
            && forall j, k :: 0 <= j < |now| && 0 <= k < Span(now[j]) ==> IsSpliced(out, now, j, k)
  {
    types := ArgumentsAreUnlinked(p, i);
    var now := Retyped(p.instructions[i].args, types);
    PassedArgs(p, i);
    FlattenedLength(now);
    forall j, k | 0 <= j < |now| && 0 <= k < Span(now[j]) ensures IsSpliced(U8BytesFields(Flatten(now)), now, j, k) {
      SplicedAt(now, j, k);
    }
  }

  lemma SplicedAt(now: seq<Field>, j: nat, k: nat)
    requires j < |now| && k < Span(now[j])
    ensures IsSpliced(U8BytesFields(Flatten(now)), now, j, k)
  {
    FlattenedLength(now);
    FlattenedAt(now, j, k);
    U8BytesFieldsAt(Flatten(now), Offset(now, j) + k);
  }

  /** The arguments with their types replaced. */
  function Retyped(args: seq<Field>, types: seq<Node>): (r: seq<Field>)
    requires |args| == |types|
    ensures |r| == |args| && forall a :: 0 <= a < |r| ==> r[a] == Field(args[a].name, types[a])
  {
    seq(|args|, a requires 0 <= a < |args| => Field(args[a].name, types[a]))
  }

  // ---- Everything else ----

  predicate SameNames(before: seq<Field>, after: seq<Field>) {
    |after| == |before| && forall i :: 0 <= i < |before| ==> after[i].name == before[i].name
  }

  /** Every reader of one list reads the same from the other, each with its own definitions. */
  ghost predicate ReadSame(p: Program, q: Program, before: seq<Field>, after: seq<Field>) {
    && SameNames(before, after)
    && forall i, bytes, k: nat :: 0 <= i < |before| ==>
         Parse(DefsOf(q.types), after[i].ty, bytes, k) == Parse(DefsOf(p.types), before[i].ty, bytes, k)
  }

  lemma UnlinkedReadsSame(p: Program, ty: Node, bytes: seq<Byte>, k: nat)
    requires UniqueNames(p.types) && Avoids(ty, InlineMap(p).Keys)
    ensures Parse(DefsOf(Passed(p).types), U8Bytes(ty), bytes, k) == Parse(DefsOf(p.types), ty, bytes, k)
  {
    var kept := Unwrapped(p).types;
    UnwrapInlines(p);
    BytesDefsOf(kept);
    BytesReadSame(DefsOf(kept), ty, bytes, k);
    AvoidingReadsSame(InlineMap(p), DefsOf(p.types), DefsOf(kept), ty, bytes, k);
  }

  lemma KeptReadSame(p: Program, fields: seq<Field>)
    requires UniqueNames(p.types) && FieldsAvoid(fields, InlineMap(p).Keys)
    ensures ReadSame(p, Passed(p), fields, U8BytesFields(fields))
  {
    forall i | 0 <= i < |fields|
      ensures U8BytesFields(fields)[i] == fields[i].(ty := U8Bytes(fields[i].ty)) && Avoids(fields[i].ty, InlineMap(p).Keys)
    {
      U8BytesFieldsAt(fields, i);
      FieldLinksOf(fields, i);
    }
    forall i, bytes, k: nat | 0 <= i < |fields|
      ensures Parse(DefsOf(Passed(p).types), U8BytesFields(fields)[i].ty, bytes, k)
              == Parse(DefsOf(p.types), fields[i].ty, bytes, k)
    {
      UnlinkedReadsSame(p, fields[i].ty, bytes, k);
    }
  }

  /** Accounts, events and constants keep their names and read the same after all passes. */
  lemma DataReadsSame(p: Program)
    requires UniqueNames(p.types)
    ensures var q := Passed(p);
            ReadSame(p, q, p.accounts, q.accounts) && ReadSame(p, q, p.events, q.events) && ReadSame(p, q, p.constants, q.constants)
  {
    forall n | n in InlineMap(p)
      ensures n !in FieldLinks(p.accounts) && n !in FieldLinks(p.events) && n !in FieldLinks(p.constants)
    {
      InlinedIsLinkedOnce(p, n);
    }
    KeptReadSame(p, p.accounts);
    KeptReadSame(p, p.events);
    KeptReadSame(p, p.constants);
  }

  /** A definition that stays reads the same under its name. */
  lemma KeptTypeReadsSame(p: Program, n: string, bytes: seq<Byte>, k: nat)
    requires UniqueNames(p.types) && n in DefsOf(Passed(p).types)
    ensures n in DefsOf(p.types)
    ensures Parse(DefsOf(Passed(p).types), Link(n), bytes, k) == Parse(DefsOf(p.types), Link(n), bytes, k)
  {
    BytesDefsOf(Unwrapped(p).types);
    NotInlined(p, n);
    LinkAvoids(n, InlineMap(p).Keys);
    UnlinkedReadsSame(p, Link(n), bytes, k);
  }

  lemma LinkAvoids(n: string, names: set<string>)
    requires n !in names
    ensures Avoids(Link(n), names) && U8Bytes(Link(n)) == Link(n)
  {
  }

  lemma NotInlined(p: Program, n: string)
    requires UniqueNames(p.types) && n in DefsOf(Unwrapped(p).types)
    ensures n !in InlineMap(p) && n in DefsOf(p.types)
  {
    var kept := Unwrapped(p).types;
    var f := Field(n, DefsOf(kept)[n]);
    DefsOfNames(kept);
    SplitTypes(Counted(p), Direct(p.instructions), p.types);
    InlineMapOf(p, f);
    DefsOfUnique(p.types, f);
  }

  /** Seeds keep their names, and a seed reads the same as far as its links unfold. */
  ghost predicate SeedsReadSame(p: Program, q: Program, before: seq<Field>, after: seq<Field>) {
    && SameNames(before, after)
    && forall i, bytes, k: nat :: 0 <= i < |before| ==>
         Agree(Parse(DefsOf(p.types), before[i].ty, bytes, k), Parse(DefsOf(p.types), before[i].ty, bytes, k + 1),
               Parse(DefsOf(q.types), after[i].ty, bytes, k))
  }

  ghost predicate PdaReadsSame(p: Program, q: Program, before: Pda, after: Pda) {
    && after.owned == before.owned
    && SeedsReadSame(p, q, before.variables, after.variables) && SeedsReadSame(p, q, before.constants, after.constants)
  }

  lemma SeedAt(m: Defs, fields: seq<Field>, i: nat)
    requires i < |fields|
    ensures U8BytesFields(InlineFields(m, fields))[i] == Field(fields[i].name, U8Bytes(Inline(m, fields[i].ty)))
  {
    InlineFieldsAt(m, fields, i);
    U8BytesFieldsAt(InlineFields(m, fields), i);
  }

  lemma SeedReadsSame(p: Program, ty: Node, bytes: seq<Byte>, k: nat)
    requires UniqueNames(p.types)
    ensures Agree(Parse(DefsOf(p.types), ty, bytes, k), Parse(DefsOf(p.types), ty, bytes, k + 1),
                  Parse(DefsOf(Passed(p).types), U8Bytes(Inline(InlineMap(p), ty)), bytes, k))
  {
    var m, kept := InlineMap(p), Unwrapped(p).types;
    UnwrapInlines(p);
    BytesDefsOf(kept);
    InlinedReadsSame(m, DefsOf(p.types), DefsOf(kept), ty, bytes, k);
    BytesReadSame(DefsOf(kept), Inline(m, ty), bytes, k);
  }

  lemma SeedsPassed(p: Program, fields: seq<Field>)
    requires UniqueNames(p.types)
    ensures SeedsReadSame(p, Passed(p), fields, U8BytesFields(InlineFields(InlineMap(p), fields)))
  {
    forall i | 0 <= i < |fields|
      ensures U8BytesFields(InlineFields(InlineMap(p), fields))[i]
              == Field(fields[i].name, U8Bytes(Inline(InlineMap(p), fields[i].ty)))
    {
      SeedAt(InlineMap(p), fields, i);
    }
    forall i, bytes, k: nat | 0 <= i < |fields|
      ensures Agree(Parse(DefsOf(p.types), fields[i].ty, bytes, k), Parse(DefsOf(p.types), fields[i].ty, bytes, k + 1),
                    Parse(DefsOf(Passed(p).types), U8Bytes(Inline(InlineMap(p), fields[i].ty)), bytes, k))
    {
      SeedReadsSame(p, fields[i].ty, bytes, k);
    }
  }

  lemma {:induction false} PdasAt(m: Defs, pdas: seq<Pda>, k: nat)
    requires k < |pdas|
    ensures InlinePdas(m, pdas)[k] == InlinePda(m, pdas[k])
    ensures BytesPdas(pdas)[k] == Pda(pdas[k].owned, U8BytesFields(pdas[k].variables), U8BytesFields(pdas[k].constants))
    decreases |pdas|
  {
    if k < |pdas| - 1 { PdasAt(m, pdas[..|pdas| - 1], k); }
  }

  /** Instructions keep their names, and their PDAs stay with them. */
  lemma InstructionsKeepTheRest(p: Program, i: nat)
    requires UniqueNames(p.types) && i < |p.instructions|
    ensures |Passed(p).instructions| == |p.instructions|
    ensures var q, before, after := Passed(p), p.instructions[i], Passed(p).instructions[i];
            && after.name == before.name && |after.pdas| == |before.pdas|
            && forall k :: 0 <= k < |before.pdas| ==> PdaReadsSame(p, q, before.pdas[k], after.pdas[k])
  {
    var m, before := InlineMap(p), p.instructions[i];
    var u := InlineInstructions(m, p.instructions);
    InstructionsAt(m, p.instructions, i);
    InstructionsAt(m, u, i);
    InstructionsAt(m, FlattenInstructions(u), i);
    forall k | 0 <= k < |before.pdas| ensures PdaReadsSame(p, Passed(p), before.pdas[k], Passed(p).instructions[i].pdas[k]) {
      PdasAt(m, before.pdas, k);
      PdasAt(m, InlinePdas(m, before.pdas), k);
      SeedsPassed(p, before.pdas[k].variables);
      SeedsPassed(p, before.pdas[k].constants);
    }
  }
}
