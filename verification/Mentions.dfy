/** Which definitions a type or a definition mentions, directly or through others. */
module TypeMentions {
  import opened Basics
  import opened CLayout

  /** `n` is written somewhere inside `ty`. */
  predicate Mentions(ty: Ty, n: string)
    decreases ty
  {
    match ty
    case Leaf(_) => false
    case Array(item, _) => Mentions(item, n)
    case Defined(name, args) => name == n || exists i :: 0 <= i < |args| && Mentions(args[i], n)
    case Wrap(parts) => exists i :: 0 <= i < |parts| && Mentions(parts[i], n)
  }

  predicate BodyMentions(body: Body, n: string) {
    match body
    case Struct(fields) => exists i :: 0 <= i < |fields| && !fields[i].Padding? && Mentions(fields[i].ty, n)
    case Alias(target) => Mentions(target, n)
    case Enum(payloads) => exists i :: 0 <= i < |payloads| && Mentions(payloads[i], n)
  }

  predicate LinksTo(defs: Defs, m: string, n: string) {
    m in defs && defs[m].body.Some? && BodyMentions(defs[m].body.value, n)
  }

  /** Each name on the path is mentioned by the definition of the one before. */
  ghost predicate Chain(defs: Defs, path: seq<string>) {
    path != [] && forall i, j :: 0 <= i && j == i + 1 < |path| ==> LinksTo(defs, path[i], path[j])
  }

  ghost predicate Leads(defs: Defs, a: string, b: string) { exists path :: LeadsBy(defs, a, b, path) }

  ghost predicate LeadsBy(defs: Defs, a: string, b: string, path: seq<string>) {
    Chain(defs, path) && path[0] == a && path[|path| - 1] == b
  }

  lemma LeadsToItself(defs: Defs, a: string)
    ensures Leads(defs, a, a)
  {
    assert LeadsBy(defs, a, a, [a]);
  }

  lemma LeadsOn(defs: Defs, a: string, b: string, c: string)
    requires Leads(defs, a, b) && LinksTo(defs, b, c)
    ensures Leads(defs, a, c)
  {
    var path :| LeadsBy(defs, a, b, path);
    assert LeadsBy(defs, a, c, path + [c]);
  }

  /** A set that links never leave holds everything its members lead to. */
  lemma {:induction false} ClosedHoldsAll(defs: Defs, within: set<string>, path: seq<string>)
    requires Chain(defs, path) && path[0] in within
    requires forall m, n :: m in within && LinksTo(defs, m, n) ==> n in within
    ensures path[|path| - 1] in within
    decreases |path|
  {
    if |path| > 1 {
      var init := path[..|path| - 1];
      forall i, j | 0 <= i && j == i + 1 < |init| ensures LinksTo(defs, init[i], init[j]) { assert LinksTo(defs, path[i], path[j]); }
      ClosedHoldsAll(defs, within, init);
      assert LinksTo(defs, path[|path| - 2], path[|path| - 1]);
    }
  }
}
