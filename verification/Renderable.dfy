/** How far alias chains go, and which discriminators can be told apart. */
module Renderable {
  import opened Basics
  import opened TypeNodes

  const NESTING_LIMIT: nat := 128

  // ---- Alias chains ----

  /** What an alias stands for; a struct, an enum or a longer tuple is no alias. */
  function AliasBody(defs: Defs, name: string): Option<Node> {
    if name !in defs then None else
      match defs[name]
      case Tuple(items) => if |items| == 1 then Some(items[0].ty) else None
      case Struct(_) => None
      case Enum(_, _) => None
      case body => Some(body)
  }

  /** An alias reads as what it stands for; a name that stands for nothing is undefined, a struct, an enum or a longer tuple. */
  lemma AliasesReadThrough(defs: Defs, name: string, bytes: seq<Byte>, k: nat)
    ensures AliasBody(defs, name).Some? ==>
              Parse(defs, Link(name), bytes, k + 1) == Parse(defs, AliasBody(defs, name).value, bytes, k)
    ensures AliasBody(defs, name).None? <==>
              name !in defs || defs[name].Struct? || defs[name].Enum? || (defs[name].Tuple? && |defs[name].items| != 1)
  {
    if name in defs && defs[name].Tuple? && |defs[name].items| == 1 {
      var items := defs[name].items;
      var r := Parse(defs, items[0].ty, bytes, k);
      assert ParseFields(defs, items[..0], bytes, k) == Some(Read([], bytes));
      assert ParseFields(defs, items, bytes, k) == Then(Some(Read([], bytes)), r);
      if r.Some? { assert [] + r.value.leaves == r.value.leaves; }
    }
  }

  predicate AliasLinks(defs: Defs, name: string, link: string) {
    AliasBody(defs, name).Some? && link in Links(AliasBody(defs, name).value)
  }

  /** Some chain of `n` alias links starts at `name`. */
  ghost predicate HasChain(defs: Defs, name: string, n: nat)
    decreases n
  {
    n == 0 || exists link :: AliasLinks(defs, name, link) && HasChain(defs, link, n - 1)
  }

  lemma {:induction false} ShorterChain(defs: Defs, name: string, n: nat, m: nat)
    requires HasChain(defs, name, n) && m <= n
    ensures HasChain(defs, name, m)
    decreases n
  {
    if m > 0 {
      var link :| AliasLinks(defs, name, link) && HasChain(defs, link, n - 1);
      ShorterChain(defs, link, n - 1, m - 1);
    }
  }

  ghost predicate IsLongest(defs: Defs, name: string, n: nat) { HasChain(defs, name, n) && !HasChain(defs, name, n + 1) }

  /** No chain from `name` is longer than `n` if none from its links is as long. */
  lemma LongestFromLinks(defs: Defs, name: string, n: nat)
    requires forall link :: AliasLinks(defs, name, link) ==> !HasChain(defs, link, n)
    ensures !HasChain(defs, name, n + 1)
  {
  }

  /** All links of a type, in order. */
  method CollectLinks(ty: Node, out: seq<string>) returns (r: seq<string>)
    ensures forall n :: n in r <==> n in out || n in Links(ty)
    decreases ty
  {
    r := out;
    match ty {
      case Link(name) => r := out + [name];
      case FixedSize(inner, _) => r := CollectLinks(inner, out);
      case SizePrefix(inner, _) => r := CollectLinks(inner, out);
      case Optional(item, _, _) => r := CollectLinks(item, out);
      case FixedArray(item, _) => r := CollectLinks(item, out);
      case PrefixedArray(item, _) => r := CollectLinks(item, out);
      case HiddenPrefix(constants, inner) =>
        r := CollectLinks(inner, out);
        r := CollectFieldLinks(constants, r);
      case Struct(fields) => r := CollectFieldLinks(fields, out);
      case Tuple(items) => r := CollectFieldLinks(items, out);
      case Enum(variants, _) => r := CollectFieldLinks(variants, out);
      case Number(_) =>
      case Boolean =>
      case PublicKey =>
      case Text =>
      case Bytes =>
    }
  }

  method CollectFieldLinks(fields: seq<Field>, out: seq<string>) returns (r: seq<string>)
    ensures forall n :: n in r <==> n in out || n in FieldLinks(fields)
    decreases fields
  {
    r := out;
    for i := 0 to |fields|
      invariant forall n :: n in r <==> n in out || n in FieldLinks(fields[..i])
    {
      assert fields[..i + 1][..i] == fields[..i];
      r := CollectLinks(fields[i].ty, r);
    }
    assert fields[..|fields|] == fields;
  }

  class AliasTable {
    const defs: Defs
    var known: map<string, nat>

    ghost predicate Valid()
      reads this
    {
      forall n :: n in known ==> IsLongest(defs, n, known[n])
    }

    constructor (defs: Defs)
      ensures Valid() && this.defs == defs && known == map[]
    {
      this.defs, known := defs, map[];
    }

    /**
     * The length of the longest alias chain from `name`, or `None` exactly when some chain, a cyclic
     * one included, runs past the nesting limit; the memo makes no difference.
     */
    method AliasDepth(name: string, depth: nat) returns (r: Option<nat>)
      requires Valid() && depth <= NESTING_LIMIT + 1
      modifies this
      ensures Valid()
      ensures r.Some? ==> IsLongest(defs, name, r.value) && depth + r.value <= NESTING_LIMIT
      ensures r.None? <==> HasChain(defs, name, NESTING_LIMIT + 1 - depth)
      decreases NESTING_LIMIT + 1 - depth
    {
      if depth > NESTING_LIMIT { return None; }
      if name in known {
        r := if depth + known[name] > NESTING_LIMIT then None else Some(known[name]);
        Exceeds(defs, name, known[name], NESTING_LIMIT + 1 - depth);
        return;
      }
      var body := AliasBody(defs, name);
      if body.None? { return Some(0); }
      var links := CollectLinks(body.value, []);
      var longest: nat := 0;
      for i := 0 to |links|
        invariant Valid() && HasChain(defs, name, longest) && depth + longest <= NESTING_LIMIT
        invariant forall j :: 0 <= j < i ==> !HasChain(defs, links[j], longest)
      {
        assert AliasLinks(defs, name, links[i]);
        var l := AliasDepth(links[i], depth + 1);
        if l.None? { return None; }
        if l.value + 1 > longest {
          LongerBound(defs, links, i, longest, l.value + 1);
          longest := l.value + 1;
        } else if HasChain(defs, links[i], longest) {
          ShorterChain(defs, links[i], longest, l.value + 1);
        }
      }
      LongestFromLinks(defs, name, longest);
      Exceeds(defs, name, longest, NESTING_LIMIT + 1 - depth);
      known := known[name := longest];
      r := Some(longest);
    }
  }

  lemma Exceeds(defs: Defs, name: string, longest: nat, n: nat)
    requires IsLongest(defs, name, longest)
    ensures HasChain(defs, name, n) <==> n <= longest
  {
    if n <= longest { ShorterChain(defs, name, longest, n); }
    else if HasChain(defs, name, n) { ShorterChain(defs, name, n, longest + 1); }
  }

  lemma LongerBound(defs: Defs, links: seq<string>, i: nat, n: nat, m: nat)
    requires i <= |links| && n <= m && forall j :: 0 <= j < i ==> !HasChain(defs, links[j], n)
    ensures forall j :: 0 <= j < i ==> !HasChain(defs, links[j], m)
  {
    forall j | 0 <= j < i ensures !HasChain(defs, links[j], m) {
      if HasChain(defs, links[j], m) { ShorterChain(defs, links[j], m, n); }
    }
  }

  // ---- Discriminators ----

  datatype Item = Item(name: string, discriminator: seq<Byte>)

  datatype Verdict = Accepted | Collision(item: nat, other: nat) | Ambiguous(item: nat, other: nat) | Duplicate(item: nat, other: nat)

  predicate Matches(item: Item, data: seq<Byte>) { item.discriminator <= data }

  /** Whatever the data, the items that match it agree; where equal ones are refused, they are one. */
  ghost predicate Unambiguous(items: seq<Item>, rejectsEqual: bool) {
    forall data, i, j :: 0 <= i < j < |items| && Matches(items[i], data) && Matches(items[j], data) ==>
      items[i].discriminator == items[j].discriminator && !rejectsEqual
  }

  predicate Clash(items: seq<Item>, rejectsEqual: bool, i: nat, j: nat)
    requires i < |items| && j < |items|
  {
    var a, b := items[i].discriminator, items[j].discriminator;
    (|b| > |a| && a <= b) || (rejectsEqual && j < i && a == b)
  }

  lemma NoClashIsUnambiguous(items: seq<Item>, rejectsEqual: bool)
    requires forall i, j :: 0 <= i < |items| && 0 <= j < |items| ==> !Clash(items, rejectsEqual, i, j)
    ensures Unambiguous(items, rejectsEqual)
  {
    forall data, i, j | 0 <= i < j < |items| && Matches(items[i], data) && Matches(items[j], data)
      ensures items[i].discriminator == items[j].discriminator && !rejectsEqual
    {
      var a, b := items[i].discriminator, items[j].discriminator;
      assert a == data[..|a|] && b == data[..|b|];
      assert !Clash(items, rejectsEqual, i, j) && !Clash(items, rejectsEqual, j, i);
      assert |a| <= |b| ==> b[..|a|] == a;
      assert |b| <= |a| ==> a[..|b|] == b;
    }
  }

  lemma ClashIsAmbiguous(items: seq<Item>, rejectsEqual: bool, i: nat, j: nat)
    requires i < |items| && j < |items| && Clash(items, rejectsEqual, i, j)
    ensures !Unambiguous(items, rejectsEqual)
  {
    var data := items[j].discriminator;
    assert Matches(items[i], data) && Matches(items[j], data);
  }

  /** No two names become the same identifier; `camel` is how a name becomes one. */
  ghost predicate DistinctIdentifiers(names: seq<string>, camel: string -> string) {
    forall i, j :: 0 <= i < j < |names| ==> camel(names[i]) != camel(names[j])
  }

  /** The first two names that become the same identifier, if any. */
  method CheckNames(names: seq<string>, camel: string -> string) returns (clash: Option<(nat, nat)>)
    ensures clash.None? <==> DistinctIdentifiers(names, camel)
    ensures clash.Some? ==> clash.value.0 < clash.value.1 < |names| && camel(names[clash.value.0]) == camel(names[clash.value.1])
  {
    var seen: map<string, nat> := map[];
    for i := 0 to |names|
      invariant forall j :: 0 <= j < i ==> camel(names[j]) in seen
      invariant forall c :: c in seen ==> seen[c] < i && camel(names[seen[c]]) == c
      invariant DistinctIdentifiers(names[..i], camel)
    {
      var c := camel(names[i]);
      if c in seen { return Some((seen[c], i)); }
      seen := seen[c := i];
    }
    assert names[..|names|] == names;
    clash := None;
  }

  function Names(items: seq<Item>): (r: seq<string>)
    ensures |r| == |items| && forall i :: 0 <= i < |items| ==> r[i] == items[i].name
  {
    seq(|items|, i requires 0 <= i < |items| => items[i].name)
  }

  /** Accepts exactly the items whose names stay distinct and that no data can confuse. */
  method CheckItems(items: seq<Item>, rejectsEqual: bool, camel: string -> string) returns (v: Verdict)
    ensures v.Accepted? <==> DistinctIdentifiers(Names(items), camel) && Unambiguous(items, rejectsEqual)
    ensures !v.Accepted? ==> v.item < |items| && v.other < |items|
                             && if v.Collision? then camel(items[v.item].name) == camel(items[v.other].name)
                                else Clash(items, rejectsEqual, v.item, v.other)
  {
    var collision := CheckNames(Names(items), camel);
    if collision.Some? { return Collision(collision.value.1, collision.value.0); }
    v := CheckDiscriminators(items, rejectsEqual);
  }

  /** Accepts exactly the items that no data can confuse. */
  method CheckDiscriminators(items: seq<Item>, rejectsEqual: bool) returns (v: Verdict)
    ensures v.Accepted? <==> Unambiguous(items, rejectsEqual)
    ensures !v.Accepted? ==> !v.Collision? && v.item < |items| && v.other < |items| && Clash(items, rejectsEqual, v.item, v.other)
  {
    for i := 0 to |items|
      invariant forall a, b :: 0 <= a < i && 0 <= b < |items| ==> !Clash(items, rejectsEqual, a, b)
    {
      for j := 0 to |items|
        invariant forall b :: 0 <= b < j ==> !Clash(items, rejectsEqual, i, b)
      {
        var a, b := items[i].discriminator, items[j].discriminator;
        if |b| > |a| && a <= b {
          ClashIsAmbiguous(items, rejectsEqual, i, j);
          return Ambiguous(i, j);
        }
        if rejectsEqual && j < i && a == b {
          ClashIsAmbiguous(items, rejectsEqual, i, j);
          return Duplicate(i, j);
        }
      }
    }
    NoClashIsUnambiguous(items, rejectsEqual);
    v := Accepted;
  }
}
