/** The passes over a program: which types are inlined, and that no reader notices. */
module ProgramPasses {
  import opened Basics
  import opened TypeNodes
  import opened NodeRewrites

  /** An inline PDA of an instruction account; `owned` when it belongs to this program. */
  datatype Pda = Pda(owned: bool, variables: seq<Field>, constants: seq<Field>)

  datatype Instruction = Instruction(name: string, args: seq<Field>, pdas: seq<Pda>)

  datatype Program = Program(accounts: seq<Field>, events: seq<Field>, constants: seq<Field>, types: seq<Field>,
                             instructions: seq<Instruction>)

  // ---- Counting ----

  function CountedInPdas(pdas: seq<Pda>): multiset<string> {
    if pdas == [] then multiset{} else
      CountedInPdas(pdas[..|pdas| - 1])
      + if pdas[|pdas| - 1].owned then FieldLinks(pdas[|pdas| - 1].variables) else multiset{}
  }

  function CountedInInstructions(ixs: seq<Instruction>): multiset<string> {
    if ixs == [] then multiset{} else
      CountedInInstructions(ixs[..|ixs| - 1]) + CountedInPdas(ixs[|ixs| - 1].pdas) + FieldLinks(ixs[|ixs| - 1].args)
  }

  /** Uses that count towards `total`. */
  function Counted(p: Program): multiset<string> {
    FieldLinks(p.accounts) + FieldLinks(p.events) + FieldLinks(p.types) + FieldLinks(p.constants)
    + CountedInInstructions(p.instructions)
  }

  function DirectArgs(args: seq<Field>): multiset<string> {
    if args == [] then multiset{} else
      DirectArgs(args[..|args| - 1]) + DirectName(args[|args| - 1])
  }

  function Direct(ixs: seq<Instruction>): multiset<string> {
    if ixs == [] then multiset{} else Direct(ixs[..|ixs| - 1]) + DirectArgs(ixs[|ixs| - 1].args)
  }

  /** Used exactly once, and there as a whole argument. */
  predicate IsInlined(counted: multiset<string>, direct: multiset<string>, f: Field) {
    counted[f.name] == 1 && direct[f.name] == 1 && !f.ty.Enum?
  }

  function InlinedTypes(counted: multiset<string>, direct: multiset<string>, types: seq<Field>): seq<Field> {
    if types == [] then [] else
      InlinedTypes(counted, direct, types[..|types| - 1])
      + if IsInlined(counted, direct, types[|types| - 1]) then [types[|types| - 1]] else []
  }

  function KeptTypes(counted: multiset<string>, direct: multiset<string>, types: seq<Field>): seq<Field> {
    if types == [] then [] else
      KeptTypes(counted, direct, types[..|types| - 1])
      + if IsInlined(counted, direct, types[|types| - 1]) then [] else [types[|types| - 1]]
  }

  function DefsOf(types: seq<Field>): Defs {
    if types == [] then map[] else DefsOf(types[..|types| - 1])[types[|types| - 1].name := types[|types| - 1].ty]
  }

  predicate UniqueNames(types: seq<Field>) { forall i, j :: 0 <= i < j < |types| ==> types[i].name != types[j].name }

  function InlineMap(p: Program): Defs { DefsOf(InlinedTypes(Counted(p), Direct(p.instructions), p.types)) }

  function InlinePda(m: Defs, pda: Pda): Pda {
    pda.(variables := InlineFields(m, pda.variables), constants := InlineFields(m, pda.constants))
  }

  function InlinePdas(m: Defs, pdas: seq<Pda>): (r: seq<Pda>)
    ensures |r| == |pdas|
  {
    if pdas == [] then [] else InlinePdas(m, pdas[..|pdas| - 1]) + [InlinePda(m, pdas[|pdas| - 1])]
  }

  function InlineInstruction(m: Defs, ix: Instruction): Instruction {
    ix.(args := InlineFields(m, ix.args), pdas := InlinePdas(m, ix.pdas))
  }

  function InlineInstructions(m: Defs, ixs: seq<Instruction>): (r: seq<Instruction>)
    ensures |r| == |ixs|
  {
    if ixs == [] then [] else InlineInstructions(m, ixs[..|ixs| - 1]) + [InlineInstruction(m, ixs[|ixs| - 1])]
  }

  function Unwrapped(p: Program): Program {
    p.(types := KeptTypes(Counted(p), Direct(p.instructions), p.types),
       instructions := InlineInstructions(InlineMap(p), p.instructions))
  }

  // ---- Nothing that is counted twice is inlined ----

  function DirectName(f: Field): multiset<string> { if f.ty.Link? then multiset{f.ty.name} else multiset{} }

  lemma DirectNameIsLink(f: Field, n: string)
    ensures DirectName(f)[n] <= Links(f.ty)[n]
  {
  }

  lemma {:induction false} DirectArgsAreLinks(args: seq<Field>, n: string)
    ensures DirectArgs(args)[n] <= FieldLinks(args)[n]
  {
    if args != [] {
      DirectArgsAreLinks(args[..|args| - 1], n);
      DirectNameIsLink(args[|args| - 1], n);
    }
  }

  lemma {:induction false} DirectIsCounted(ixs: seq<Instruction>, n: string)
    ensures Direct(ixs)[n] <= CountedInInstructions(ixs)[n]
  {
    if ixs != [] {
      DirectIsCounted(ixs[..|ixs| - 1], n);
      DirectArgsAreLinks(ixs[|ixs| - 1].args, n);
    }
  }

  lemma {:induction false} SplitTypes(counted: multiset<string>, direct: multiset<string>, types: seq<Field>)
    ensures forall f :: f in InlinedTypes(counted, direct, types) <==> f in types && IsInlined(counted, direct, f)
    ensures forall f :: f in KeptTypes(counted, direct, types) <==> f in types && !IsInlined(counted, direct, f)
  {
    if types != [] {
      SplitTypes(counted, direct, types[..|types| - 1]);
      assert types == types[..|types| - 1] + [types[|types| - 1]];
    }
  }

  lemma {:induction false} DefsOfNames(types: seq<Field>)
    ensures forall n :: n in DefsOf(types) ==> Field(n, DefsOf(types)[n]) in types
    ensures forall f :: f in types ==> f.name in DefsOf(types)
  {
    if types != [] {
      DefsOfNames(types[..|types| - 1]);
      assert types == types[..|types| - 1] + [types[|types| - 1]];
    }
  }

  lemma DefsOfUnique(types: seq<Field>, f: Field)
    requires UniqueNames(types) && f in types
    ensures f.name in DefsOf(types) && DefsOf(types)[f.name] == f.ty
  {
    DefsOfNames(types);
    var g := Field(f.name, DefsOf(types)[f.name]);
    var i :| 0 <= i < |types| && types[i] == f;
    var j :| 0 <= j < |types| && types[j] == g;
    assert !(i < j) && !(j < i);
  }

  /** An inlined name has its one counted use in an argument, so nothing else links to it. */
  lemma InlinedIsLinkedOnce(p: Program, name: string)
    requires name in InlineMap(p)
    ensures name !in FieldLinks(p.accounts) && name !in FieldLinks(p.events)
    ensures name !in FieldLinks(p.types) && name !in FieldLinks(p.constants)
    ensures name in Direct(p.instructions)
  {
    var counted, direct := Counted(p), Direct(p.instructions);
    DefsOfNames(InlinedTypes(counted, direct, p.types));
    SplitTypes(counted, direct, p.types);
    DirectIsCounted(p.instructions, name);
  }

  /** No body, kept or inlined, links to an inlined name: one step of substitution is all there is. */
  lemma BodiesAvoidInlined(p: Program, f: Field)
    requires f in p.types
    ensures Avoids(f.ty, InlineMap(p).Keys)
  {
    var i :| 0 <= i < |p.types| && p.types[i] == f;
    FieldLinksOf(p.types, i);
    forall n | n in InlineMap(p) ensures n !in Links(f.ty) { InlinedIsLinkedOnce(p, n); }
  }

  lemma InliningIsOneStep(p: Program)
    ensures OneStep(InlineMap(p))
  {
    var inlined := InlinedTypes(Counted(p), Direct(p.instructions), p.types);
    DefsOfNames(inlined);
    SplitTypes(Counted(p), Direct(p.instructions), p.types);
    forall n | n in InlineMap(p) ensures Avoids(InlineMap(p)[n], InlineMap(p).Keys) {
      BodiesAvoidInlined(p, Field(n, InlineMap(p)[n]));
    }
  }

  lemma InlineMapOf(p: Program, f: Field)
    requires UniqueNames(p.types) && f in p.types
    ensures f.name in InlineMap(p) <==> IsInlined(Counted(p), Direct(p.instructions), f)
    ensures f.name in InlineMap(p) ==> InlineMap(p)[f.name] == f.ty
  {
    var counted, direct := Counted(p), Direct(p.instructions);
    var inlined := InlinedTypes(counted, direct, p.types);
    SplitTypes(counted, direct, p.types);
    DefsOfNames(inlined);
    if f.name in InlineMap(p) {
      DefsOfUnique(p.types, f);
      DefsOfUnique(p.types, Field(f.name, InlineMap(p)[f.name]));
    }
  }

  lemma {:induction false} KeptAreUnique(counted: multiset<string>, direct: multiset<string>, types: seq<Field>)
    requires UniqueNames(types)
    ensures UniqueNames(KeptTypes(counted, direct, types))
  {
    if types != [] {
      var init := types[..|types| - 1];
      KeptAreUnique(counted, direct, init);
      SplitTypes(counted, direct, init);
      var kept, last := KeptTypes(counted, direct, init), types[|types| - 1];
      forall i | 0 <= i < |kept| ensures kept[i].name != last.name {
        assert kept[i] in kept;
        var j :| 0 <= j < |init| && init[j] == kept[i];
        assert types[j] == kept[i];
      }
    }
  }

  lemma UnwrapInlines(p: Program)
    requires UniqueNames(p.types)
    ensures Inlines(InlineMap(p), DefsOf(p.types), DefsOf(Unwrapped(p).types))
  {
    var m, before, kept := InlineMap(p), DefsOf(p.types), Unwrapped(p).types;
    var counted, direct := Counted(p), Direct(p.instructions);
    SplitTypes(counted, direct, p.types);
    KeptAreUnique(counted, direct, p.types);
    DefsOfNames(p.types);
    DefsOfNames(kept);
    DefsOfNames(InlinedTypes(counted, direct, p.types));
    forall n | n in before ensures Avoids(before[n], m.Keys) { BodiesAvoidInlined(p, Field(n, before[n])); }
    forall n | n in m ensures n in before && before[n] == m[n] { DefsOfUnique(p.types, Field(n, m[n])); }
    forall n | n !in m && n in before ensures n in DefsOf(kept) && DefsOf(kept)[n] == before[n] {
      InlineMapOf(p, Field(n, before[n]));
      DefsOfUnique(kept, Field(n, before[n]));
    }
    forall n | n !in m && n in DefsOf(kept) ensures n in before { DefsOfUnique(p.types, Field(n, DefsOf(kept)[n])); }
  }

  // ---- Links resolve as before ----

  function PdaLinks(pdas: seq<Pda>): multiset<string> {
    if pdas == [] then multiset{} else
      PdaLinks(pdas[..|pdas| - 1]) + FieldLinks(pdas[|pdas| - 1].variables) + FieldLinks(pdas[|pdas| - 1].constants)
  }

  function InstructionLinks(ixs: seq<Instruction>): multiset<string> {
    if ixs == [] then multiset{} else
      InstructionLinks(ixs[..|ixs| - 1]) + FieldLinks(ixs[|ixs| - 1].args) + PdaLinks(ixs[|ixs| - 1].pdas)
  }

  /** Every link of the program, counted by the pass or not. */
  predicate LinkedFrom(p: Program, n: string) {
    n in FieldLinks(p.accounts) || n in FieldLinks(p.events) || n in FieldLinks(p.constants) || n in FieldLinks(p.types)
    || n in InstructionLinks(p.instructions)
  }

  /** A link to `x` becomes, or brings in, a link to `n`. */
  predicate Brings(m: Defs, x: string, n: string) { if x in m then n in Links(m[x]) else x == n }

  /** A link to `x` that is inlined brings in the links of its body. */
  lemma {:induction false} BringsInto(m: Defs, ty: Node, x: string, n: string)
    requires x in Links(ty) && Brings(m, x, n)
    ensures n in Links(Inline(m, ty))
    decreases ty, 1
  {
    if ty.HiddenPrefix? { BringsIntoHidden(m, ty.constants, ty.inner, x, n); }
    else if ty.Struct? || ty.Tuple? || ty.Enum? { BringsIntoLists(m, ty, x, n); }
    else if !ty.Link? { BringsIntoInner(m, ty, x, n); }
  }

  lemma {:induction false} BringsIntoInner(m: Defs, ty: Node, x: string, n: string)
    requires !(ty.HiddenPrefix? || ty.Struct? || ty.Tuple? || ty.Enum? || ty.Link?)
    requires x in Links(ty) && Brings(m, x, n)
    ensures n in Links(Inline(m, ty))
    decreases ty, 0
  {
    match ty
    case FixedSize(inner, _) => BringsInto(m, inner, x, n);
    case SizePrefix(inner, _) => BringsInto(m, inner, x, n);
    case Optional(item, _, _) => BringsInto(m, item, x, n);
    case FixedArray(item, _) => BringsInto(m, item, x, n);
    case PrefixedArray(item, _) => BringsInto(m, item, x, n);
  }

  lemma {:induction false} BringsIntoLists(m: Defs, ty: Node, x: string, n: string)
    requires ty.Struct? || ty.Tuple? || ty.Enum?
    requires x in Links(ty) && Brings(m, x, n)
    ensures n in Links(Inline(m, ty))
    decreases ty, 0
  {
    var fields := if ty.Struct? then ty.fields else if ty.Tuple? then ty.items else ty.variants;
    assert Links(ty) == FieldLinks(fields);
    assert Links(Inline(m, ty)) == FieldLinks(InlineFields(m, fields));
    BringsIntoFields(m, fields, x, n);
  }

  lemma {:induction false} BringsIntoHidden(m: Defs, constants: seq<Field>, inner: Node, x: string, n: string)
    requires x in Links(HiddenPrefix(constants, inner)) && Brings(m, x, n)
    ensures n in Links(Inline(m, HiddenPrefix(constants, inner)))
    decreases HiddenPrefix(constants, inner), 0
  {
    assert Links(Inline(m, HiddenPrefix(constants, inner))) == Links(Inline(m, inner)) + FieldLinks(InlineFields(m, constants));
    if x in Links(inner) { BringsInto(m, inner, x, n); } else { BringsIntoFields(m, constants, x, n); }
  }

  lemma {:induction false} BringsIntoFields(m: Defs, fields: seq<Field>, x: string, n: string)
    requires x in FieldLinks(fields) && Brings(m, x, n)
    ensures n in FieldLinks(InlineFields(m, fields))
    decreases fields, 0
  {
    var k := |fields| - 1;
    assert InlineFields(m, fields)[..k] == InlineFields(m, fields[..k]);
    if x in FieldLinks(fields[..k]) { BringsIntoFields(m, fields[..k], x, n); } else { BringsInto(m, fields[k].ty, x, n); }
  }

  /** And every link left afterwards comes from one that was there. */
  lemma {:induction false} BroughtBy(m: Defs, ty: Node, n: string) returns (x: string)
    requires n in Links(Inline(m, ty))
    ensures x in Links(ty) && Brings(m, x, n)
    decreases ty, 1
  {
    if ty.Link? { x := ty.name; }
    else if ty.HiddenPrefix? { x := BroughtByHidden(m, ty.constants, ty.inner, n); }
    else if ty.Struct? || ty.Tuple? || ty.Enum? { x := BroughtByLists(m, ty, n); }
    else { x := BroughtByInner(m, ty, n); }
  }

  lemma {:induction false} BroughtByInner(m: Defs, ty: Node, n: string) returns (x: string)
    requires !(ty.HiddenPrefix? || ty.Struct? || ty.Tuple? || ty.Enum? || ty.Link?)
    requires n in Links(Inline(m, ty))
    ensures x in Links(ty) && Brings(m, x, n)
    decreases ty, 0
  {
    match ty
    case FixedSize(inner, _) => x := BroughtBy(m, inner, n);
    case SizePrefix(inner, _) => x := BroughtBy(m, inner, n);
    case Optional(item, _, _) => x := BroughtBy(m, item, n);
    case FixedArray(item, _) => x := BroughtBy(m, item, n);
    case PrefixedArray(item, _) => x := BroughtBy(m, item, n);
  }

  lemma {:induction false} BroughtByLists(m: Defs, ty: Node, n: string) returns (x: string)
    requires ty.Struct? || ty.Tuple? || ty.Enum?
    requires n in Links(Inline(m, ty))
    ensures x in Links(ty) && Brings(m, x, n)
    decreases ty, 0
  {
    var fields := if ty.Struct? then ty.fields else if ty.Tuple? then ty.items else ty.variants;
    assert Links(ty) == FieldLinks(fields);
    assert Links(Inline(m, ty)) == FieldLinks(InlineFields(m, fields));
    x := BroughtByFields(m, fields, n);
  }

  lemma {:induction false} BroughtByHidden(m: Defs, constants: seq<Field>, inner: Node, n: string) returns (x: string)
    requires n in Links(Inline(m, HiddenPrefix(constants, inner)))
    ensures x in Links(HiddenPrefix(constants, inner)) && Brings(m, x, n)
    decreases HiddenPrefix(constants, inner), 0
  {
    assert Links(Inline(m, HiddenPrefix(constants, inner))) == Links(Inline(m, inner)) + FieldLinks(InlineFields(m, constants));
    if n in Links(Inline(m, inner)) { x := BroughtBy(m, inner, n); } else { x := BroughtByFields(m, constants, n); }
  }

  lemma {:induction false} BroughtByFields(m: Defs, fields: seq<Field>, n: string) returns (x: string)
    requires n in FieldLinks(InlineFields(m, fields))
    ensures x in FieldLinks(fields) && Brings(m, x, n)
    decreases fields, 0
  {
    var k := |fields| - 1;
    assert InlineFields(m, fields)[..k] == InlineFields(m, fields[..k]);
    if n in FieldLinks(InlineFields(m, fields[..k])) {
      x := BroughtByFields(m, fields[..k], n);
    } else {
      x := BroughtBy(m, fields[k].ty, n);
    }
  }

  lemma {:induction false} BringsIntoPdas(m: Defs, pdas: seq<Pda>, x: string, n: string)
    requires x in PdaLinks(pdas) && Brings(m, x, n)
    ensures n in PdaLinks(InlinePdas(m, pdas))
  {
    var k := |pdas| - 1;
    assert InlinePdas(m, pdas)[..k] == InlinePdas(m, pdas[..k]);
    if x in PdaLinks(pdas[..k]) { BringsIntoPdas(m, pdas[..k], x, n); }
    else if x in FieldLinks(pdas[k].variables) { BringsIntoFields(m, pdas[k].variables, x, n); }
    else { BringsIntoFields(m, pdas[k].constants, x, n); }
  }

  lemma {:induction false} BroughtByPdas(m: Defs, pdas: seq<Pda>, n: string) returns (x: string)
    requires n in PdaLinks(InlinePdas(m, pdas))
    ensures x in PdaLinks(pdas) && Brings(m, x, n)
  {
    var k := |pdas| - 1;
    assert InlinePdas(m, pdas)[..k] == InlinePdas(m, pdas[..k]);
    if n in PdaLinks(InlinePdas(m, pdas[..k])) { x := BroughtByPdas(m, pdas[..k], n); }
    else if n in FieldLinks(InlineFields(m, pdas[k].variables)) { x := BroughtByFields(m, pdas[k].variables, n); }
    else { x := BroughtByFields(m, pdas[k].constants, n); }
  }

  lemma {:induction false} BringsIntoInstructions(m: Defs, ixs: seq<Instruction>, x: string, n: string)
    requires x in InstructionLinks(ixs) && Brings(m, x, n)
    ensures n in InstructionLinks(InlineInstructions(m, ixs))
  {
    var k := |ixs| - 1;
    assert InlineInstructions(m, ixs)[..k] == InlineInstructions(m, ixs[..k]);
    if x in InstructionLinks(ixs[..k]) { BringsIntoInstructions(m, ixs[..k], x, n); }
    else if x in FieldLinks(ixs[k].args) { BringsIntoFields(m, ixs[k].args, x, n); }
    else { BringsIntoPdas(m, ixs[k].pdas, x, n); }
  }

  lemma {:induction false} BroughtByInstructions(m: Defs, ixs: seq<Instruction>, n: string) returns (x: string)
    requires n in InstructionLinks(InlineInstructions(m, ixs))
    ensures x in InstructionLinks(ixs) && Brings(m, x, n)
  {
    var k := |ixs| - 1;
    assert InlineInstructions(m, ixs)[..k] == InlineInstructions(m, ixs[..k]);
    if n in InstructionLinks(InlineInstructions(m, ixs[..k])) { x := BroughtByInstructions(m, ixs[..k], n); }
    else if n in FieldLinks(InlineFields(m, ixs[k].args)) { x := BroughtByFields(m, ixs[k].args, n); }
    else { x := BroughtByPdas(m, ixs[k].pdas, n); }
  }

  lemma {:induction false} DirectIsLinked(ixs: seq<Instruction>, n: string)
    ensures Direct(ixs)[n] <= InstructionLinks(ixs)[n]
  {
    if ixs != [] {
      DirectIsLinked(ixs[..|ixs| - 1], n);
      DirectArgsAreLinks(ixs[|ixs| - 1].args, n);
    }
  }

  lemma {:induction false} LinkInFields(fields: seq<Field>, n: string) returns (f: Field)
    requires n in FieldLinks(fields)
    ensures f in fields && n in Links(f.ty)
  {
    f := fields[|fields| - 1];
    if n !in Links(f.ty) { f := LinkInFields(fields[..|fields| - 1], n); }
  }

  /** The pass removes the links to inlined names and no others. */
  lemma UnwrappedLinks(p: Program, n: string)
    requires UniqueNames(p.types)
    ensures LinkedFrom(Unwrapped(p), n) <==> LinkedFrom(p, n) && n !in InlineMap(p)
  {
    if LinkedFrom(Unwrapped(p), n) { OldLink(p, n); }
    if LinkedFrom(p, n) && n !in InlineMap(p) { LinkStays(p, n); }
  }

  lemma OldLink(p: Program, n: string)
    requires LinkedFrom(Unwrapped(p), n)
    ensures LinkedFrom(p, n) && n !in InlineMap(p)
  {
    var m, ixs, kept := InlineMap(p), p.instructions, Unwrapped(p).types;
    if n in InstructionLinks(InlineInstructions(m, ixs)) {
      var x := BroughtByInstructions(m, ixs, n);
      if x in m { LinkOfInlined(p, x, n); }
    } else {
      if n in FieldLinks(kept) {
        var f := LinkInFields(kept, n);
        SplitTypes(Counted(p), Direct(ixs), p.types);
        LinksOfMember(p.types, f);
      }
      if n in m { InlinedIsLinkedOnce(p, n); }
    }
  }

  lemma LinkStays(p: Program, n: string)
    requires UniqueNames(p.types) && LinkedFrom(p, n) && n !in InlineMap(p)
    ensures LinkedFrom(Unwrapped(p), n)
  {
    var m, ixs, kept := InlineMap(p), p.instructions, Unwrapped(p).types;
    if n in InstructionLinks(ixs) {
      BringsIntoInstructions(m, ixs, n, n);
    } else if n in FieldLinks(p.types) {
      var f := LinkInFields(p.types, n);
      InlineMapOf(p, f);
      SplitTypes(Counted(p), Direct(ixs), p.types);
      if f in kept {
        LinksOfMember(kept, f);
      } else {
        InlinedIsLinkedOnce(p, f.name);
        DirectIsLinked(ixs, f.name);
        BringsIntoInstructions(m, ixs, f.name, n);
      }
    }
  }

  lemma LinksOfMember(fields: seq<Field>, f: Field)
    requires f in fields
    ensures Links(f.ty) <= FieldLinks(fields)
  {
    var i :| 0 <= i < |fields| && fields[i] == f;
    FieldLinksOf(fields, i);
  }

  lemma LinkOfInlined(p: Program, x: string, n: string)
    requires x in InlineMap(p) && n in Links(InlineMap(p)[x])
    ensures n in FieldLinks(p.types) && n !in InlineMap(p)
  {
    InliningIsOneStep(p);
    DefsOfNames(InlinedTypes(Counted(p), Direct(p.instructions), p.types));
    SplitTypes(Counted(p), Direct(p.instructions), p.types);
    LinksOfMember(p.types, Field(x, InlineMap(p)[x]));
  }

  ghost predicate AllResolve(p: Program) { forall n :: LinkedFrom(p, n) ==> n in DefsOf(p.types) }

  /** A link that remains resolves exactly when it did, and so do all of them together. */
  lemma LinksResolveAsBefore(p: Program)
    requires UniqueNames(p.types)
    ensures forall n :: LinkedFrom(Unwrapped(p), n) ==> (n in DefsOf(Unwrapped(p).types) <==> n in DefsOf(p.types))
    ensures AllResolve(Unwrapped(p)) <==> AllResolve(p)
  {
    UnwrapInlines(p);
    forall n ensures LinkedFrom(Unwrapped(p), n) <==> LinkedFrom(p, n) && n !in InlineMap(p) { UnwrappedLinks(p, n); }
  }

  // ---- Flattening and byte arrays ----

  predicate Repeated(args: seq<Field>, n: string) {
    exists i, j :: 0 <= i < j < |args| && args[i].name == n && args[j].name == n
  }

  predicate NoRepeats(args: seq<Field>) { forall i, j :: 0 <= i < j < |args| ==> args[i].name != args[j].name }

  function FlattenInstruction(ix: Instruction): Instruction { ix.(args := Flatten(ix.args)) }

  function FlattenInstructions(ixs: seq<Instruction>): (r: seq<Instruction>)
    ensures |r| == |ixs|
  {
    if ixs == [] then [] else FlattenInstructions(ixs[..|ixs| - 1]) + [FlattenInstruction(ixs[|ixs| - 1])]
  }

  function BytesPdas(pdas: seq<Pda>): (r: seq<Pda>)
    ensures |r| == |pdas|
  {
    if pdas == [] then [] else
      var last := pdas[|pdas| - 1];
      BytesPdas(pdas[..|pdas| - 1])
      + [last.(variables := U8BytesFields(last.variables), constants := U8BytesFields(last.constants))]
  }

  function BytesInstructions(ixs: seq<Instruction>): (r: seq<Instruction>)
    ensures |r| == |ixs|
  {
    if ixs == [] then [] else
      var last := ixs[|ixs| - 1];
      BytesInstructions(ixs[..|ixs| - 1]) + [last.(args := U8BytesFields(last.args), pdas := BytesPdas(last.pdas))]
  }

  function WithBytes(p: Program): Program {
    Program(U8BytesFields(p.accounts), U8BytesFields(p.events), U8BytesFields(p.constants), U8BytesFields(p.types),
            BytesInstructions(p.instructions))
  }

  /** All passes together, when flattening succeeds. */
  function Passed(p: Program): Program {
    var u := Unwrapped(p);
    WithBytes(u.(instructions := FlattenInstructions(u.instructions)))
  }

  lemma {:induction false} InstructionsAt(m: Defs, ixs: seq<Instruction>, i: nat)
    requires i < |ixs|
    ensures InlineInstructions(m, ixs)[i] == InlineInstruction(m, ixs[i])
    ensures FlattenInstructions(ixs)[i] == FlattenInstruction(ixs[i])
    ensures BytesInstructions(ixs)[i] == ixs[i].(args := U8BytesFields(ixs[i].args), pdas := BytesPdas(ixs[i].pdas))
    decreases |ixs|
  {
    if i < |ixs| - 1 { InstructionsAt(m, ixs[..|ixs| - 1], i); }
  }

  lemma BytesDefsOne(before: seq<Field>, bytes: seq<Field>, last: Field)
    requires DefsOf(bytes) == U8BytesDefs(DefsOf(before))
    ensures DefsOf(bytes + [last.(ty := U8Bytes(last.ty))]) == U8BytesDefs(DefsOf(before + [last]))
  {
    DefsOfOne(bytes, last.(ty := U8Bytes(last.ty)));
    DefsOfOne(before, last);
    BytesOfUpdate(DefsOf(before), last.name, last.ty);
  }

  lemma DefsOfOne(before: seq<Field>, last: Field)
    ensures DefsOf(before + [last]) == DefsOf(before)[last.name := last.ty]
  {
    assert (before + [last])[..|before|] == before;
  }

  lemma BytesOfUpdate(defs: Defs, name: string, ty: Node)
    ensures U8BytesDefs(defs[name := ty]) == U8BytesDefs(defs)[name := U8Bytes(ty)]
  {
  }

  lemma {:induction false} BytesDefsOf(types: seq<Field>)
    ensures DefsOf(U8BytesFields(types)) == U8BytesDefs(DefsOf(types))
    decreases |types|
  {
    if types != [] {
      var init, last := types[..|types| - 1], types[|types| - 1];
      BytesDefsOf(init);
      BytesDefsOne(init, U8BytesFields(init), last);
      BytesFieldsOne(init, last);
      assert types == init + [last];
    }
  }

  lemma BytesFieldsOne(before: seq<Field>, last: Field)
    ensures U8BytesFields(before + [last]) == U8BytesFields(before) + [last.(ty := U8Bytes(last.ty))]
  {
    assert (before + [last])[..|before|] == before;
  }

  lemma PassedArgs(p: Program, i: nat)
    requires i < |p.instructions|
    ensures |Passed(p).instructions| == |p.instructions|
    ensures Passed(p).instructions[i].args == U8BytesFields(Flatten(InlineFields(InlineMap(p), p.instructions[i].args)))
  {
    var m := InlineMap(p);
    var u := InlineInstructions(m, p.instructions);
    InstructionsAt(m, p.instructions, i);
    InstructionsAt(m, u, i);
    InstructionsAt(m, FlattenInstructions(u), i);
  }

  /** Every instruction's argument list still reads the same wire leaves from the same bytes. */
  lemma ArgumentsReadSame(p: Program, i: nat, bytes: seq<Byte>, k: nat)
    requires UniqueNames(p.types) && i < |p.instructions|
    ensures |Passed(p).instructions| == |p.instructions|
    ensures var before, args := DefsOf(p.types), p.instructions[i].args;
            Agree(ParseFields(before, args, bytes, k), ParseFields(before, args, bytes, k + 1),
                  ParseFields(DefsOf(Passed(p).types), Passed(p).instructions[i].args, bytes, k))
  {
    var m, kept := InlineMap(p), Unwrapped(p).types;
    var args := InlineFields(m, p.instructions[i].args);
    PassedArgs(p, i);
    UnwrapInlines(p);
    InlinedReadsSameFields(m, DefsOf(p.types), DefsOf(kept), p.instructions[i].args, bytes, k);
    FlattenReadsSame(DefsOf(kept), args, bytes, k);
    BytesDefsOf(kept);
    BytesReadSameFields(DefsOf(kept), Flatten(args), bytes, k);
  }
}
