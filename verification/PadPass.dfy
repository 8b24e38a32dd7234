/** The pass that pads the types of `zero_copy(unsafe)` accounts, and what it guarantees. */
module PadPass {
  import opened Basics
  import opened CLayout
  import opened PaddingMeaning
  import opened LayoutPass
  import opened TypeMentions

  // ---- Every link of a type ----

  function TyNames(ty: Ty): seq<string>
    decreases ty
  {
    match ty
    case Leaf(_) => []
    case Array(item, _) => TyNames(item)
    case Defined(name, args) => [name] + AllNames(args)
    case Wrap(parts) => AllNames(parts)
  }

  function AllNames(tys: seq<Ty>): seq<string>
    decreases tys
  {
    if tys == [] then [] else AllNames(tys[..|tys| - 1]) + TyNames(tys[|tys| - 1])
  }

  function FieldNames(fields: seq<Field>): seq<string> {
    if fields == [] then [] else
      FieldNames(fields[..|fields| - 1])
      + if fields[|fields| - 1].Padding? then [] else TyNames(fields[|fields| - 1].ty)
  }

  function DefNames(def: TypeDef): seq<string> {
    if def.body.None? then [] else
      match def.body.value
      case Struct(fields) => FieldNames(fields)
      case Alias(target) => TyNames(target)
      case Enum(payloads) => AllNames(payloads)
  }

  lemma {:induction false} LayoutLinksAreLinks(ty: Ty)
    ensures forall n :: n in Links(ty) ==> n in TyNames(ty)
  {
    match ty
    case Leaf(_) =>
    case Array(item, _) => LayoutLinksAreLinks(item);
    case Defined(_, _) =>
    case Wrap(_) =>
  }

  lemma {:induction false} FieldLinksAreLinks(fields: seq<Field>)
    ensures forall n :: n in FieldLinks(fields) ==> n in FieldNames(fields)
  {
    if fields != [] {
      FieldLinksAreLinks(fields[..|fields| - 1]);
      if !fields[|fields| - 1].Padding? { LayoutLinksAreLinks(fields[|fields| - 1].ty); }
    }
  }

  lemma DefLinksAreLinks(def: TypeDef)
    ensures forall n :: n in DefLinks(def) ==> n in DefNames(def)
  {
    if def.body.Some? && def.body.value.Struct? { FieldLinksAreLinks(def.body.value.fields); }
    if def.body.Some? && def.body.value.Alias? { LayoutLinksAreLinks(def.body.value.target); }
  }

  /** The names collected are the names mentioned. */
  lemma {:induction false} NamesAreMentioned(ty: Ty, n: string)
    ensures n in TyNames(ty) <==> Mentions(ty, n)
    decreases ty
  {
    match ty
    case Leaf(_) =>
    case Array(item, _) => NamesAreMentioned(item, n);
    case Defined(_, args) => AllNamesAreMentioned(args, n);
    case Wrap(parts) => AllNamesAreMentioned(parts, n);
  }

  lemma {:induction false} AllNamesAreMentioned(tys: seq<Ty>, n: string)
    ensures n in AllNames(tys) <==> exists i :: 0 <= i < |tys| && Mentions(tys[i], n)
    decreases tys
  {
    if tys != [] {
      var init := tys[..|tys| - 1];
      AllNamesAreMentioned(init, n);
      NamesAreMentioned(tys[|tys| - 1], n);
      if i :| 0 <= i < |init| && Mentions(init[i], n) { assert Mentions(tys[i], n); }
      if i :| 0 <= i < |tys| && Mentions(tys[i], n) { assert i < |init| ==> Mentions(init[i], n); }
    }
  }

  lemma {:induction false} FieldNamesAreMentioned(fields: seq<Field>, n: string)
    ensures n in FieldNames(fields) <==> exists i :: 0 <= i < |fields| && !fields[i].Padding? && Mentions(fields[i].ty, n)
    decreases fields
  {
    if fields != [] {
      var init, last := fields[..|fields| - 1], fields[|fields| - 1];
      FieldNamesAreMentioned(init, n);
      if !last.Padding? { NamesAreMentioned(last.ty, n); }
      if i :| 0 <= i < |init| && !init[i].Padding? && Mentions(init[i].ty, n) { assert fields[i] == init[i]; }
      if i :| 0 <= i < |fields| && !fields[i].Padding? && Mentions(fields[i].ty, n) { assert i < |init| ==> init[i] == fields[i]; }
    }
  }

  lemma DefNamesAreLinks(defs: Defs, m: string, n: string)
    requires m in defs
    ensures n in DefNames(defs[m]) <==> LinksTo(defs, m, n)
  {
    if defs[m].body.Some? {
      match defs[m].body.value
      case Struct(fields) => FieldNamesAreMentioned(fields, n);
      case Alias(target) => NamesAreMentioned(target, n);
      case Enum(payloads) => AllNamesAreMentioned(payloads, n);
    }
  }

  // ---- Reachability ----

  ghost predicate Reached(defs: Defs, starts: seq<string>, n: string) { exists s :: s in starts && Leads(defs, s, n) }

  lemma ReachOn(defs: Defs, starts: seq<string>, m: string, n: string)
    requires Reached(defs, starts, m) && LinksTo(defs, m, n)
    ensures Reached(defs, starts, n)
  {
    var s :| s in starts && Leads(defs, s, m);
    LeadsOn(defs, s, m, n);
  }

  ghost predicate ClosedUnder(defs: Defs, seen: set<string>, stack: seq<string>) {
    forall m, n :: m in seen && LinksTo(defs, m, n) ==> n in seen || n in stack
  }

  lemma ClosedCoversReach(defs: Defs, starts: seq<string>, seen: set<string>, n: string)
    requires ClosedUnder(defs, seen, []) && (forall s :: s in starts ==> s in seen) && Reached(defs, starts, n)
    ensures n in seen
  {
    var s :| s in starts && Leads(defs, s, n);
    var path :| LeadsBy(defs, s, n, path);
    ClosedHoldsAll(defs, seen, path);
  }

  ghost function Universe(defs: Defs, starts: seq<string>): set<string> {
    (set n | n in starts) + (set m, n | m in defs && n in DefNames(defs[m]) :: n)
  }

  lemma StrictSubset(a: set<string>, n: string, u: set<string>)
    requires n !in a && n in u
    ensures |u - (a + {n})| < |u - a|
  {
    assert u - (a + {n}) == (u - a) - {n};
  }

  ghost predicate Progress(defs: Defs, starts: seq<string>, seen: set<string>, stack: seq<string>) {
    && (forall n :: n in stack ==> n in Universe(defs, starts) && Reached(defs, starts, n))
    && (forall n :: n in seen ==> Reached(defs, starts, n))
    && (forall n :: n in starts ==> n in seen || n in stack)
    && ClosedUnder(defs, seen, stack)
  }

  lemma PopSeen(defs: Defs, starts: seq<string>, seen: set<string>, rest: seq<string>, name: string)
    requires Progress(defs, starts, seen, rest + [name]) && name in seen
    ensures Progress(defs, starts, seen, rest)
  {
  }

  lemma PopNew(defs: Defs, starts: seq<string>, seen: set<string>, rest: seq<string>, name: string, more: seq<string>)
    requires Progress(defs, starts, seen, rest + [name])
    requires more == if name in defs then DefNames(defs[name]) else []
    ensures name in Universe(defs, starts) && Progress(defs, starts, seen + {name}, rest + more)
  {
    assert (rest + [name])[|rest|] == name;
    forall n ensures name in defs ==> (n in DefNames(defs[name]) <==> LinksTo(defs, name, n)) {
      if name in defs { DefNamesAreLinks(defs, name, n); }
    }
    forall n | n in more ensures Reached(defs, starts, n) && n in Universe(defs, starts) {
      assert LinksTo(defs, name, n);
      ReachOn(defs, starts, name, n);
    }
  }

  lemma Pop(defs: Defs, starts: seq<string>, seen: set<string>, stack: seq<string>, name: string, rest: seq<string>, more: seq<string>)
    requires Progress(defs, starts, seen, stack) && stack != [] && name == stack[|stack| - 1] && rest == stack[..|stack| - 1]
    requires more == if name in defs then DefNames(defs[name]) else []
    ensures if name in seen then Progress(defs, starts, seen, rest)
            else Progress(defs, starts, seen + {name}, rest + more)
                 && |Universe(defs, starts) - (seen + {name})| < |Universe(defs, starts) - seen|
  {
    assert stack == rest + [name];
    if name in seen {
      PopSeen(defs, starts, seen, rest, name);
    } else {
      PopNew(defs, starts, seen, rest, name, more);
      StrictSubset(seen, name, Universe(defs, starts));
    }
  }

  lemma NothingLeft(defs: Defs, starts: seq<string>, seen: set<string>)
    requires Progress(defs, starts, seen, [])
    ensures forall n :: n in seen <==> Reached(defs, starts, n)
  {
    forall n | Reached(defs, starts, n) ensures n in seen {
      ClosedCoversReach(defs, starts, seen, n);
    }
  }

  lemma StartProgress(defs: Defs, starts: seq<string>)
    ensures Progress(defs, starts, {}, starts)
  {
    forall n | n in starts ensures Reached(defs, starts, n) { LeadsToItself(defs, n); }
  }

  /** The worklist finds exactly the names a chain of links leads to. */
  method Reachable(defs: Defs, starts: seq<string>) returns (seen: set<string>)
    ensures forall n :: n in seen <==> Reached(defs, starts, n)
  {
    seen := {};
    var stack := starts;
    StartProgress(defs, starts);
    while stack != []
      invariant Progress(defs, starts, seen, stack)
      decreases |Universe(defs, starts) - seen|, |stack|
    {
      var name := stack[|stack| - 1];
      var rest := stack[..|stack| - 1];
      var more := if name in defs then DefNames(defs[name]) else [];
      Pop(defs, starts, seen, stack, name, rest, more);
      if name in seen {
        stack := rest;
      } else {
        seen := seen + {name};
        stack := rest + more;
      }
    }
    NothingLeft(defs, starts, seen);
  }

  // ---- The roots ----

  predicate UniqueNames(types: seq<TypeDef>) {
    forall i, j :: 0 <= i < j < |types| ==> types[i].name != types[j].name
  }

  function IndexOf(types: seq<TypeDef>, n: nat): Defs
    requires n <= |types|
  {
    if n == 0 then map[] else IndexOf(types, n - 1)[types[n - 1].name := types[n - 1]]
  }

  /** `defs` maps every name of `types` to its definition, and nothing else. */
  ghost predicate Indexes(defs: Defs, types: seq<TypeDef>) {
    && (forall i :: 0 <= i < |types| ==> types[i].name in defs && defs[types[i].name] == types[i])
    && (forall n :: n in defs ==> exists i :: 0 <= i < |types| && types[i].name == n)
  }

  lemma {:induction false} IndexFinds(types: seq<TypeDef>, n: nat)
    requires n <= |types| && UniqueNames(types)
    ensures forall i :: 0 <= i < n ==> types[i].name in IndexOf(types, n) && IndexOf(types, n)[types[i].name] == types[i]
    ensures forall m :: m in IndexOf(types, n) ==> exists i :: 0 <= i < n && types[i].name == m
  {
    if n > 0 { IndexFinds(types, n - 1); }
  }

  lemma IndexOfIndexes(types: seq<TypeDef>)
    requires UniqueNames(types)
    ensures Indexes(IndexOf(types, |types|), types)
  {
    IndexFinds(types, |types|);
  }

  function BytemuckAccounts(defs: Defs, accounts: seq<string>, n: nat): seq<string>
    requires n <= |accounts|
  {
    if n == 0 then [] else
      BytemuckAccounts(defs, accounts, n - 1)
      + var a := accounts[n - 1];
        if a in defs && !defs[a].generic && defs[a].serialization.Bytemuck? then [a] else []
  }

  predicate RootLike(defs: Defs, n: string) {
    n in defs && !defs[n].generic && defs[n].serialization.BytemuckUnsafe?
  }

  /** An account that is read in place and has no padding of its own. */
  ghost predicate SafeAccount(defs: Defs, accounts: seq<string>, a: string) {
    a in accounts && a in defs && !defs[a].generic && defs[a].serialization == Bytemuck
  }

  /** Some account read in place and safely leads to `n`. */
  ghost predicate InSafeAccount(defs: Defs, accounts: seq<string>, n: string) {
    exists a :: SafeAccount(defs, accounts, a) && Leads(defs, a, n)
  }

  /** An unsafe struct that is an account, or that a safe account contains. */
  ghost predicate IsRoot(defs: Defs, accounts: seq<string>, n: string) {
    && n in defs && !defs[n].generic && defs[n].serialization == BytemuckUnsafe
    && (n in accounts || InSafeAccount(defs, accounts, n))
  }

  ghost predicate RootSeq(defs: Defs, accounts: seq<string>, roots: seq<string>) {
    forall n :: n in roots <==> IsRoot(defs, accounts, n)
  }

  lemma {:induction false} BytemuckAccountsAreSafe(defs: Defs, accounts: seq<string>, n: nat, a: string)
    requires n <= |accounts|
    ensures a in BytemuckAccounts(defs, accounts, n) <==> SafeAccount(defs, accounts[..n], a)
  {
    if n > 0 {
      BytemuckAccountsAreSafe(defs, accounts, n - 1, a);
      assert accounts[..n] == accounts[..n - 1] + [accounts[n - 1]];
    }
  }

  lemma ReachedFromSafe(defs: Defs, accounts: seq<string>, n: string)
    ensures Reached(defs, BytemuckAccounts(defs, accounts, |accounts|), n) <==> InSafeAccount(defs, accounts, n)
  {
    assert accounts[..|accounts|] == accounts;
    forall a ensures a in BytemuckAccounts(defs, accounts, |accounts|) <==> SafeAccount(defs, accounts, a) {
      BytemuckAccountsAreSafe(defs, accounts, |accounts|, a);
    }
  }

  // ---- What Borsh reads ----

  /** Where a program's data is read from: its accounts and events, and the types of its arguments. */
  datatype Uses = Uses(accounts: seq<string>, events: seq<string>, args: seq<Ty>)

  /** A Borsh reader starts at instruction arguments, events and Borsh accounts. */
  ghost predicate BorshStart(defs: Defs, uses: Uses, s: string) {
    || (exists i :: 0 <= i < |uses.args| && Mentions(uses.args[i], s))
    || s in uses.events
    || (s in uses.accounts && s in defs && defs[s].serialization == Borsh)
  }

  /** An argument, an event or a Borsh account mentions `n`, directly or through a chain of definitions. */
  ghost predicate ReadByBorsh(defs: Defs, uses: Uses, n: string) {
    exists s :: BorshStart(defs, uses, s) && Leads(defs, s, n)
  }

  function BorshStarts(defs: Defs, uses: Uses): seq<string> {
    AllNames(uses.args) + uses.events + BorshAccounts(defs, uses.accounts, |uses.accounts|)
  }

  function BorshAccounts(defs: Defs, accounts: seq<string>, n: nat): seq<string>
    requires n <= |accounts|
  {
    if n == 0 then [] else
      BorshAccounts(defs, accounts, n - 1)
      + var a := accounts[n - 1]; if a in defs && defs[a].serialization.Borsh? then [a] else []
  }

  lemma {:induction false} BorshAccountsAre(defs: Defs, accounts: seq<string>, n: nat, a: string)
    requires n <= |accounts|
    ensures a in BorshAccounts(defs, accounts, n) <==> a in accounts[..n] && a in defs && defs[a].serialization == Borsh
  {
    if n > 0 {
      BorshAccountsAre(defs, accounts, n - 1, a);
      assert accounts[..n] == accounts[..n - 1] + [accounts[n - 1]];
    }
  }

  lemma ReachedByBorsh(defs: Defs, uses: Uses, n: string)
    ensures Reached(defs, BorshStarts(defs, uses), n) <==> ReadByBorsh(defs, uses, n)
  {
    var accounts := uses.accounts;
    assert accounts[..|accounts|] == accounts;
    forall s ensures s in BorshStarts(defs, uses) <==> BorshStart(defs, uses, s) {
      AllNamesAreMentioned(uses.args, s);
      BorshAccountsAre(defs, accounts, |accounts|, s);
    }
  }

  // ---- Which names have a layout ----

  /** The names the walk gave a layout, within those the roots reach. */
  ghost function LaidOut(known: Known, roots: seq<string>, reach: set<string>): set<string> {
    (set n | n in roots) + (set n | n in reach && n in known && known[n].Some?)
  }

  lemma {:induction false} EvalLinksKnown(known: Known, ty: Ty)
    requires Eval(known, ty).Some?
    ensures forall n :: n in Links(ty) ==> n in known && known[n].Some?
  {
    match ty
    case Leaf(_) =>
    case Array(item, _) => EvalLinksKnown(known, item);
    case Defined(_, _) =>
    case Wrap(_) =>
  }

  lemma {:induction false} EvalFieldLinksKnown(known: Known, fields: seq<Field>, repr: Repr)
    requires EvalFields(known, fields, repr, |fields|).Some?
    ensures forall n :: n in FieldLinks(fields) ==> n in known && known[n].Some?
    decreases |fields|
  {
    if fields != [] {
      var m := |fields| - 1;
      FieldsPrefix(known, fields, repr, m);
      EvalFieldLinksKnown(known, fields[..m], repr);
      EvalLinksKnown(known, fields[m].ty);
    }
  }

  lemma {:induction false} FieldsPrefix(known: Known, fields: seq<Field>, repr: Repr, n: nat)
    requires n <= |fields|
    ensures EvalFields(known, fields[..n], repr, n) == EvalFields(known, fields, repr, n)
    decreases n
  {
    if n > 0 {
      FieldsPrefix(known, fields, repr, n - 1);
      FieldsPrefix(known, fields[..n], repr, n - 1);
      assert fields[..n][..n - 1] == fields[..n - 1];
    }
  }

  ghost predicate HasLayout(known: Known, def: TypeDef) {
    !def.generic && (def.IsAlias() || EvalStruct(known, def).Some?) && EvalDef(known, def).Some?
  }

  lemma HasLayoutLinksKnown(defs: Defs, known: Known, def: TypeDef)
    requires HasLayout(known, def) && (def.repr.Some? ==> def.body.Some? && def.body.value.Struct?)
    ensures forall n :: n in DefLinks(def) ==> n in known && known[n].Some?
  {
    if def.IsAlias() { EvalLinksKnown(known, def.body.value.target); }
    else { EvalFieldLinksKnown(known, def.body.value.fields, def.repr.value); }
  }

  ghost predicate RootsLaidOut(defs: Defs, known: Known, roots: seq<string>) {
    forall n :: n in roots ==> n in defs && EvalStruct(known, defs[n]).Some?
  }

  ghost predicate ReachClosed(defs: Defs, roots: seq<string>, reach: set<string>) {
    (forall n :: n in roots ==> n in reach) && (forall m, n :: m in reach && LinksTo(defs, m, n) ==> n in reach)
  }

  lemma LaidOutHasLayout(defs: Defs, known: Known, roots: seq<string>, reach: set<string>, n: string)
    requires Settled(defs, known) && WellTyped(defs) && RootsLaidOut(defs, known, roots)
    requires n in LaidOut(known, roots, reach)
    ensures n in defs && HasLayout(known, defs[n])
  {
    if n !in roots { assert SettledAt(defs, known, n); }
  }

  /** So a layout never looks outside those names. */
  lemma LaidOutIsClosed(defs: Defs, known: Known, roots: seq<string>, reach: set<string>)
    requires Settled(defs, known) && WellTyped(defs) && RootsLaidOut(defs, known, roots) && ReachClosed(defs, roots, reach)
    ensures Closed(defs, LaidOut(known, roots, reach))
  {
    var names := LaidOut(known, roots, reach);
    forall n | n in names && n in defs ensures DefLinks(defs[n]) <= names {
      LaidOutHasLayout(defs, known, roots, reach, n);
      HasLayoutLinksKnown(defs, known, defs[n]);
      assert n in reach;
      forall m | m in DefLinks(defs[n]) ensures m in names {
        DefLinksAreLinks(defs[n]);
        DefNamesAreLinks(defs, n, m);
      }
    }
  }

  // ---- The rewrite ----

  /** `pad` is what the padding step answered for `def`, told with the memo it started from. */
  ghost predicate PadAnswers(known: Known, def: TypeDef, pad: Option<seq<Field>>) {
    EvalStruct(known, def).Some? ==>
      var padded := PaddedBy(StructFields(def).value, EvalStruct(known, def).value);
      if pad.Some? then pad.value == padded else padded == StructFields(def).value
  }

  function Applied(def: TypeDef, pad: Option<seq<Field>>): TypeDef {
    if pad.None? then def else def.(body := Some(Struct(pad.value)))
  }

  lemma AppliedIsRewritten(defs: Defs, known: Known, def: TypeDef, pad: Option<seq<Field>>)
    requires Settled(defs, known) && HasLayout(known, def) && PadAnswers(known, def, pad)
    requires def.repr.Some? ==> def.body.Some? && def.body.value.Struct?
    requires pad.Some? ==> def.repr.Some?
    ensures RewrittenDef(defs, def, Applied(def, pad))
  {
    if def.repr.Some? {
      var fields, repr := def.body.value.fields, def.repr.value;
      forall k {:trigger AllShapes(defs, fields, repr, k)} | AllShapes(defs, fields, repr, k).Some?
        ensures AllShapes(defs, fields, repr, k) == EvalFields(known, fields, repr, |fields|)
      {
        EvalFieldsAgree(defs, known, fields, repr, |fields|, k);
      }
    }
  }

  /** A root's rewritten definition reads back to back exactly as its C layout, and it has one. */
  ghost predicate RootReadsAsC(defs: Defs, defs': Defs, n: string) {
    && HasSomeShape(defs, n)
    && forall k: nat :: CShape(defs, Defined(n, []), k).Some? ==> ReadsAsC(defs, defs', Defined(n, []), k)
  }

  ghost predicate HasSomeShape(defs: Defs, n: string) { exists k :: CShape(defs, Defined(n, []), k).Some? }

  lemma HasLayoutHasShape(defs: Defs, known: Known, n: string)
    requires Settled(defs, known) && WellTyped(defs) && n in defs && HasLayout(known, defs[n])
    ensures HasSomeShape(defs, n)
  {
    EvalDefIsC(defs, known, n);
    var k :| CShape(defs, Defined(n, []), k) == EvalDef(known, defs[n]);
    assert CShape(defs, Defined(n, []), k).Some?;
  }

  lemma RootsReadAsC(defs: Defs, defs': Defs, known: Known, roots: seq<string>, reach: set<string>, n: string)
    requires Settled(defs, known) && WellTyped(defs) && RootsLaidOut(defs, known, roots) && ReachClosed(defs, roots, reach)
    requires Rewritten(defs, defs', LaidOut(known, roots, reach)) && n in roots
    ensures RootReadsAsC(defs, defs', n)
  {
    var names := LaidOut(known, roots, reach);
    LaidOutIsClosed(defs, known, roots, reach);
    LaidOutHasLayout(defs, known, roots, reach, n);
    HasLayoutHasShape(defs, known, n);
    forall k: nat | CShape(defs, Defined(n, []), k).Some? ensures ReadsAsC(defs, defs', Defined(n, []), k) {
      forall base: nat { ReadsAtCPlaces(defs, defs', names, Defined(n, []), base, k); }
    }
  }

  /** `def` has a gap that its fields alone would not show. */
  ghost predicate NeedsPadding(defs: Defs, def: TypeDef) {
    def.repr.Some? && StructFields(def).Some? &&
    exists k {:trigger AllShapes(defs, StructFields(def).value, def.repr.value, k)} ::
      var shapes := AllShapes(defs, StructFields(def).value, def.repr.value, k);
      && shapes.Some? && LayoutOf(def.repr.value, shapes.value).Some?
      && PaddedBy(StructFields(def).value, LayoutOf(def.repr.value, shapes.value).value) != StructFields(def).value
  }

  lemma PaddedNeedsPadding(defs: Defs, known: Known, def: TypeDef, pad: seq<Field>)
    requires Settled(defs, known) && EvalStruct(known, def).Some? && pad != StructFields(def).value
    requires pad == PaddedBy(StructFields(def).value, EvalStruct(known, def).value)
    ensures NeedsPadding(defs, def)
  {
    var fields, repr := StructFields(def).value, def.repr.value;
    var k := EvalFieldsIsC(defs, known, fields, repr, |fields|);
    assert AllShapes(defs, fields, repr, k).Some?;
  }

  datatype Outcome = Padded | UnknownLayout(name: string) | PaddedBorshType(name: string)

  /** The answers for all definitions, in their order. */
  ghost predicate AnswersAt(known: Known, reach: set<string>, def: TypeDef, pad: Option<seq<Field>>) {
    && (def.name in reach ==> PadAnswers(known, def, pad))
    && (pad.Some? ==> def.name in reach && def.repr.Some?)
  }

  ghost predicate Answers(known: Known, reach: set<string>, types: seq<TypeDef>, pads: seq<Option<seq<Field>>>) {
    |pads| <= |types| && forall i :: 0 <= i < |pads| ==> AnswersAt(known, reach, types[i], pads[i])
  }

  ghost predicate TrulyPadded(defs: Defs, types: seq<TypeDef>, pads: seq<Option<seq<Field>>>) {
    |pads| <= |types| && forall i :: 0 <= i < |pads| && pads[i].Some? ==> NeedsPadding(defs, types[i])
  }

  predicate ReprIsStruct(def: TypeDef) { def.repr.Some? ==> def.body.Some? && def.body.value.Struct? }

  predicate ReprsAreStructs(types: seq<TypeDef>) { forall i :: 0 <= i < |types| ==> ReprIsStruct(types[i]) }

  lemma IndexedReprsAreStructs(defs: Defs, types: seq<TypeDef>)
    requires WellTyped(defs) && Indexes(defs, types)
    ensures ReprsAreStructs(types)
  {
    forall i | 0 <= i < |types| ensures ReprIsStruct(types[i]) { assert types[i].name in defs; }
  }

  method PadAll(layouts: Layouts, types: seq<TypeDef>, reach: set<string>) returns (pads: seq<Option<seq<Field>>>)
    requires layouts.Valid() && Open(layouts.defs, layouts.known, []) && ReprsAreStructs(types)
    modifies layouts`known
    ensures layouts.Valid() && |pads| == |types|
    ensures Answers(old(layouts.known), reach, types, pads) && TrulyPadded(layouts.defs, types, pads)
  {
    pads := [];
    ghost var known := layouts.known;
    for i := 0 to |types|
      invariant layouts.Valid() && Open(layouts.defs, layouts.known, []) && Grows(known, layouts.known) && |pads| == i
      invariant Answers(known, reach, types, pads) && TrulyPadded(layouts.defs, types, pads)
    {
      var pad := PadOne(layouts, types[i], reach, known);
      OneMoreAnswer(layouts.defs, known, reach, types, pads, pad);
      pads := pads + [pad];
    }
  }

  lemma OneMoreAnswer(defs: Defs, known: Known, reach: set<string>, types: seq<TypeDef>, pads: seq<Option<seq<Field>>>,
                      pad: Option<seq<Field>>)
    requires |pads| < |types| && Answers(known, reach, types, pads) && TrulyPadded(defs, types, pads)
    requires var def := types[|pads|]; AnswersAt(known, reach, def, pad) && (pad.Some? ==> NeedsPadding(defs, def))
    ensures Answers(known, reach, types, pads + [pad]) && TrulyPadded(defs, types, pads + [pad])
  {
  }

  method PadOne(layouts: Layouts, def: TypeDef, reach: set<string>, ghost known: Known) returns (pad: Option<seq<Field>>)
    requires layouts.Valid() && Open(layouts.defs, layouts.known, []) && Grows(known, layouts.known)
    requires def.repr.Some? ==> def.body.Some? && def.body.value.Struct?
    modifies layouts`known
    ensures layouts.Valid() && Open(layouts.defs, layouts.known, []) && Grows(known, layouts.known)
    ensures AnswersAt(known, reach, def, pad) && (pad.Some? ==> NeedsPadding(layouts.defs, def))
  {
    if def.name !in reach { return None; }
    if EvalStruct(known, def).Some? { EvalStructMore(known, layouts.known, def); }
    pad := layouts.PaddedFields(def);
    if pad.Some? { PaddedNeedsPadding(layouts.defs, layouts.known, def, pad.value); }
  }

  /** A root that cannot be laid out: no struct with a C layout, or more nesting than the walker follows. */
  ghost predicate NoLayout(defs: Defs, n: string) {
    n in defs && (defs[n].IsAlias() || NoBodyShape(defs, defs[n]) || Deep(defs))
  }

  /** The first root without a layout, if any. */
  method FindUnknown(layouts: Layouts, roots: seq<string>) returns (bad: Option<string>)
    requires layouts.Valid() && Open(layouts.defs, layouts.known, []) && forall n :: n in roots ==> n in layouts.defs
    modifies layouts`known
    ensures layouts.Valid() && Open(layouts.defs, layouts.known, [])
    ensures bad.Some? ==> bad.value in roots && NoLayout(layouts.defs, bad.value)
    ensures bad.None? ==> RootsLaidOut(layouts.defs, layouts.known, roots)
  {
    for i := 0 to |roots|
      invariant layouts.Valid() && Open(layouts.defs, layouts.known, []) && RootsLaidOut(layouts.defs, layouts.known, roots[..i])
    {
      ghost var before := layouts.known;
      var l := layouts.StructLayout(layouts.defs[roots[i]], 0, []);
      if l.None? { return Some(roots[i]); }
      forall n | n in roots[..i + 1] ensures EvalStruct(layouts.known, layouts.defs[n]).Some? {
        if n in roots[..i] { EvalStructMore(before, layouts.known, layouts.defs[n]); }
      }
    }
    assert roots[..|roots|] == roots;
    bad := None;
  }

  method AccountRoots(defs: Defs, accounts: seq<string>) returns (roots: seq<string>)
    ensures forall n :: n in roots <==> n in accounts && RootLike(defs, n)
  {
    roots := [];
    for i := 0 to |accounts|
      invariant forall n :: n in roots <==> n in accounts[..i] && RootLike(defs, n)
    {
      if RootLike(defs, accounts[i]) { roots := roots + [accounts[i]]; }
    }
    assert accounts[..|accounts|] == accounts;
  }

  method TypeRoots(defs: Defs, types: seq<TypeDef>, within: set<string>) returns (roots: seq<string>)
    requires Indexes(defs, types)
    ensures forall n :: n in roots <==> n in within && RootLike(defs, n)
  {
    roots := [];
    for i := 0 to |types|
      invariant forall n :: n in roots ==> n in within && RootLike(defs, n)
      invariant forall j :: 0 <= j < i && types[j].name in within && RootLike(defs, types[j].name) ==> types[j].name in roots
    {
      var n := types[i].name;
      if n in within && RootLike(defs, n) { roots := roots + [n]; }
    }
    forall n | n in within && RootLike(defs, n) ensures n in roots {
      var i :| 0 <= i < |types| && types[i].name == n;
    }
  }

  ghost function ApplyAll(types: seq<TypeDef>, pads: seq<Option<seq<Field>>>): (r: seq<TypeDef>)
    requires |pads| == |types|
    ensures |r| == |types| && forall i :: 0 <= i < |types| ==> r[i] == Applied(types[i], pads[i]) && r[i].name == types[i].name
  {
    seq(|types|, i requires 0 <= i < |types| => Applied(types[i], pads[i]))
  }

  lemma ApplyAllRewrites(defs: Defs, defs': Defs, types: seq<TypeDef>, pads: seq<Option<seq<Field>>>, known: Known,
                         roots: seq<string>, reach: set<string>)
    requires |pads| == |types| && Indexes(defs, types) && Indexes(defs', ApplyAll(types, pads))
    requires Settled(defs, known) && WellTyped(defs) && RootsLaidOut(defs, known, roots) && ReachClosed(defs, roots, reach)
    requires Answers(known, reach, types, pads)
    ensures Rewritten(defs, defs', LaidOut(known, roots, reach))
  {
    forall n | n in LaidOut(known, roots, reach) && n in defs && !defs[n].generic
      ensures n in defs' && RewrittenDef(defs, defs[n], defs'[n])
    {
      var i := AppliedAt(defs, defs', types, pads, n);
      LaidOutHasLayout(defs, known, roots, reach, n);
      assert AnswersAt(known, reach, types[i], pads[i]);
      AppliedIsRewritten(defs, known, types[i], pads[i]);
    }
  }

  lemma AppliedAt(defs: Defs, defs': Defs, types: seq<TypeDef>, pads: seq<Option<seq<Field>>>, n: string) returns (i: nat)
    requires |pads| == |types| && Indexes(defs, types) && Indexes(defs', ApplyAll(types, pads)) && n in defs
    ensures i < |types| && types[i].name == n && defs[n] == types[i]
    ensures n in defs' && defs'[n] == Applied(types[i], pads[i])
  {
    i :| 0 <= i < |types| && types[i].name == n;
    assert ApplyAll(types, pads)[i].name == n;
  }

  /** Once the pads are applied every root reads as its C layout. */
  ghost predicate RootsRead(defs: Defs, accounts: seq<string>, after: seq<TypeDef>) {
    forall n :: IsRoot(defs, accounts, n) ==> RootReadsAsC(defs, IndexOf(after, |after|), n)
  }

  /** No definition that a Borsh reader reaches has changed. */
  ghost predicate BorshUntouched(defs: Defs, uses: Uses, types: seq<TypeDef>, after: seq<TypeDef>) {
    |after| == |types| && forall i :: 0 <= i < |types| && ReadByBorsh(defs, uses, types[i].name) ==> after[i] == types[i]
  }

  /** Some root contains `n`. */
  ghost predicate InRoot(defs: Defs, accounts: seq<string>, n: string) {
    exists r :: IsRoot(defs, accounts, r) && Leads(defs, r, n)
  }

  /** Only definitions with a gap, which some root contains, have changed. */
  ghost predicate OnlyPadded(defs: Defs, accounts: seq<string>, types: seq<TypeDef>, after: seq<TypeDef>) {
    |after| == |types| && forall i :: 0 <= i < |types| && after[i] != types[i] ==> MayChange(defs, accounts, types[i])
  }

  ghost predicate MayChange(defs: Defs, accounts: seq<string>, def: TypeDef) {
    NeedsPadding(defs, def) && InRoot(defs, accounts, def.name)
  }

  /** Roots read as C, Borsh readers see no change, and nothing changes without need. */
  ghost predicate WellPadded(defs: Defs, uses: Uses, types: seq<TypeDef>, after: seq<TypeDef>) {
    && RootsRead(defs, uses.accounts, after)
    && BorshUntouched(defs, uses, types, after)
    && OnlyPadded(defs, uses.accounts, types, after)
  }

  ghost predicate PadsWithin(defs: Defs, accounts: seq<string>, types: seq<TypeDef>, pads: seq<Option<seq<Field>>>)
    requires |pads| == |types|
  {
    forall i :: 0 <= i < |types| && pads[i].Some? ==> MayChange(defs, accounts, types[i])
  }

  lemma PadsChangeWithin(defs: Defs, accounts: seq<string>, known: Known, roots: seq<string>, reach: set<string>,
                         types: seq<TypeDef>, pads: seq<Option<seq<Field>>>)
    requires |pads| == |types| && Answers(known, reach, types, pads) && TrulyPadded(defs, types, pads)
    requires RootSeq(defs, accounts, roots) && forall n :: n in reach <==> Reached(defs, roots, n)
    ensures PadsWithin(defs, accounts, types, pads) && OnlyPadded(defs, accounts, types, ApplyAll(types, pads))
  {
    forall i | 0 <= i < |types| && pads[i].Some? ensures MayChange(defs, accounts, types[i]) {
      assert AnswersAt(known, reach, types[i], pads[i]);
    }
  }

  lemma PadsWorkOnRoots(defs: Defs, accounts: seq<string>, types: seq<TypeDef>, pads: seq<Option<seq<Field>>>, known: Known,
                        roots: seq<string>, reach: set<string>)
    requires UniqueNames(types) && |pads| == |types| && Indexes(defs, types) && RootSeq(defs, accounts, roots)
    requires Settled(defs, known) && WellTyped(defs) && RootsLaidOut(defs, known, roots) && ReachClosed(defs, roots, reach)
    requires Answers(known, reach, types, pads)
    ensures RootsRead(defs, accounts, ApplyAll(types, pads))
  {
    var after := ApplyAll(types, pads);
    IndexOfIndexes(after);
    var defs' := IndexOf(after, |types|);
    ApplyAllRewrites(defs, defs', types, pads, known, roots, reach);
    forall n | IsRoot(defs, accounts, n) ensures RootReadsAsC(defs, defs', n) {
      RootsReadAsC(defs, defs', known, roots, reach, n);
    }
  }

  ghost predicate EnumInBytemuck(defs: Defs, accounts: seq<string>, n: string) {
    n in defs && defs[n].body.Some? && defs[n].body.value.Enum? && InSafeAccount(defs, accounts, n)
  }

  /** The first phase: find the roots and give each a layout. */
  method LayOutRoots(layouts: Layouts, accounts: seq<string>, types: seq<TypeDef>) returns (r: Outcome, roots: seq<string>)
    requires layouts.Valid() && Open(layouts.defs, layouts.known, []) && Indexes(layouts.defs, types)
    modifies layouts`known
    ensures layouts.Valid() && Open(layouts.defs, layouts.known, [])
    ensures r == Padded ==> RootSeq(layouts.defs, accounts, roots) && RootsLaidOut(layouts.defs, layouts.known, roots)
    ensures r != Padded ==> r.UnknownLayout? && ((IsRoot(layouts.defs, accounts, r.name) && NoLayout(layouts.defs, r.name)) || EnumInBytemuck(layouts.defs, accounts, r.name))
    ensures r == Padded ==> forall n :: !EnumInBytemuck(layouts.defs, accounts, n)
  {
    var defs := layouts.defs;
    roots := [];
    var inBytemuck := Reachable(defs, BytemuckAccounts(defs, accounts, |accounts|));
    forall n ensures n in inBytemuck <==> InSafeAccount(defs, accounts, n) { ReachedFromSafe(defs, accounts, n); }
    for i := 0 to |types|
      invariant forall j :: 0 <= j < i ==> !EnumInBytemuck(defs, accounts, types[j].name)
    {
      if types[i].name in inBytemuck && types[i].IsEnum() { return UnknownLayout(types[i].name), []; }
    }
    var direct := AccountRoots(defs, accounts);
    var nested := TypeRoots(defs, types, inBytemuck);
    roots := direct + nested;
    var unknown := FindUnknown(layouts, roots);
    r := if unknown.Some? then UnknownLayout(unknown.value) else Padded;
  }

  /** Who is to blame for a failure. */
  ghost predicate Blamed(defs: Defs, uses: Uses, r: Outcome) {
    match r
    case UnknownLayout(n) => (IsRoot(defs, uses.accounts, n) && NoLayout(defs, n)) || EnumInBytemuck(defs, uses.accounts, n)
    case PaddedBorshType(n) => ReadByBorsh(defs, uses, n) && n in defs && MayChange(defs, uses.accounts, defs[n])
    case Padded => forall n :: !EnumInBytemuck(defs, uses.accounts, n)
  }

  /** The last phase: no padded type may also be read by Borsh. */
  method CheckShared(defs: Defs, uses: Uses, types: seq<TypeDef>, pads: seq<Option<seq<Field>>>) returns (r: Outcome)
    requires |pads| == |types| && Indexes(defs, types) && PadsWithin(defs, uses.accounts, types, pads)
    ensures !r.UnknownLayout? && (r.PaddedBorshType? ==> Blamed(defs, uses, r))
    ensures r == Padded ==> BorshUntouched(defs, uses, types, ApplyAll(types, pads))
  {
    var borsh := Reachable(defs, BorshStarts(defs, uses));
    forall n ensures n in borsh <==> ReadByBorsh(defs, uses, n) { ReachedByBorsh(defs, uses, n); }
    var shared := FindShared(types, pads, borsh);
    if shared.Some? {
      SharedIsBlamed(defs, uses, types, pads, shared.value);
      return PaddedBorshType(types[shared.value].name);
    }
    r := Padded;
  }

  /** The first padded type among `names`, if any. */
  method FindShared(types: seq<TypeDef>, pads: seq<Option<seq<Field>>>, names: set<string>) returns (shared: Option<nat>)
    requires |pads| == |types|
    ensures shared.Some? ==> shared.value < |types| && pads[shared.value].Some? && types[shared.value].name in names
    ensures shared.None? ==> forall i :: 0 <= i < |types| && pads[i].Some? ==> types[i].name !in names
  {
    for i := 0 to |types|
      invariant forall j :: 0 <= j < i && pads[j].Some? ==> types[j].name !in names
    {
      if pads[i].Some? && types[i].name in names { return Some(i); }
    }
    shared := None;
  }

  lemma SharedIsBlamed(defs: Defs, uses: Uses, types: seq<TypeDef>, pads: seq<Option<seq<Field>>>, i: nat)
    requires |pads| == |types| && Indexes(defs, types) && PadsWithin(defs, uses.accounts, types, pads)
    requires i < |types| && pads[i].Some? && ReadByBorsh(defs, uses, types[i].name)
    ensures Blamed(defs, uses, PaddedBorshType(types[i].name))
  {
    assert MayChange(defs, uses.accounts, types[i]);
  }

  /** The pads for all definitions, or the type to blame. */
  method Plan(defs: Defs, uses: Uses, types: seq<TypeDef>)
    returns (r: Outcome, pads: seq<Option<seq<Field>>>)
    requires UniqueNames(types) && WellTyped(defs) && Indexes(defs, types)
    ensures Blamed(defs, uses, r)
    ensures r == Padded ==> |pads| == |types| && WellPadded(defs, uses, types, ApplyAll(types, pads))
  {
    var layouts := new Layouts(defs);
    var roots;
    r, roots := LayOutRoots(layouts, uses.accounts, types);
    pads := [];
    if r != Padded { return; }
    ghost var known := layouts.known;
    var reach := Reachable(defs, roots);
    ReachedIsClosed(defs, roots, reach);
    IndexedReprsAreStructs(defs, types);
    pads := PadAll(layouts, types, reach);
    PadsWorkOnRoots(defs, uses.accounts, types, pads, known, roots, reach);
    PadsChangeWithin(defs, uses.accounts, known, roots, reach, types, pads);
    r := CheckShared(defs, uses, types, pads);
  }

  class Idl {
    const uses: Uses
    var types: seq<TypeDef>

    /** Names are unique, and only structs carry a representation. */
    ghost predicate Valid()
      reads this
    {
      UniqueNames(types) && WellTyped(Defs())
    }

    function Defs(): Defs
      reads this
    {
      IndexOf(types, |types|)
    }

    constructor (uses: Uses, types: seq<TypeDef>)
      ensures this.uses == uses && this.types == types
    {
      this.uses, this.types := uses, types;
    }

    method Apply(pads: seq<Option<seq<Field>>>)
      requires |pads| == |types|
      modifies this`types
      ensures types == ApplyAll(old(types), pads)
    {
      ghost var was := types;
      var i := 0;
      while i < |types|
        invariant 0 <= i <= |types| == |was|
        invariant forall j :: 0 <= j < |was| ==> types[j] == if j < i then Applied(was[j], pads[j]) else was[j]
      {
        if pads[i].Some? { types := types[i := types[i].(body := Some(Struct(pads[i].value)))]; }
        i := i + 1;
      }
    }

    /**
     * On success every root reads back to back as its C layout, and no definition that Borsh
     * reads has changed. On failure nothing changes and the named type is to blame.
     */
    method PadZeroCopy() returns (r: Outcome)
      requires Valid()
      modifies this`types
      ensures Blamed(old(Defs()), uses, r)
      ensures r != Padded ==> types == old(types)
      ensures r == Padded ==> WellPadded(old(Defs()), uses, old(types), types)
      ensures OnlyBodies(old(types), types)
    {
      IndexOfIndexes(types);
      var pads;
      r, pads := Plan(Defs(), uses, types);
      if r == Padded {
        OnlyBodiesApplied(types, pads);
        Apply(pads);
      }
    }
  }

  /** Nothing but bodies differs. */
  ghost predicate OnlyBodies(types: seq<TypeDef>, after: seq<TypeDef>) {
    |after| == |types| && forall i :: 0 <= i < |types| ==> after[i] == types[i].(body := after[i].body)
  }

  lemma OnlyBodiesApplied(types: seq<TypeDef>, pads: seq<Option<seq<Field>>>)
    requires |pads| == |types|
    ensures OnlyBodies(types, ApplyAll(types, pads))
  {
    forall i | 0 <= i < |types| ensures ApplyAll(types, pads)[i] == types[i].(body := ApplyAll(types, pads)[i].body) {
      assert ApplyAll(types, pads)[i] == Applied(types[i], pads[i]);
    }
  }

  lemma ReachedIsClosed(defs: Defs, roots: seq<string>, reach: set<string>)
    requires forall n :: n in reach <==> Reached(defs, roots, n)
    ensures ReachClosed(defs, roots, reach)
  {
    forall n | n in roots ensures n in reach { LeadsToItself(defs, n); }
    forall m, n | m in reach && LinksTo(defs, m, n) ensures n in reach { ReachOn(defs, roots, m, n); }
  }
}
