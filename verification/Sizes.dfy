/** Fixed wire sizes: the capped, memoised computation against the exact size. */
module FixedSizes {
  import opened Basics
  import opened TypeNodes
  import opened NodeRewrites

  const NESTING_LIMIT: nat := 128
  const FIXED_TYPE_SIZE_LIMIT: nat := 10 * 1024 * 1024
  const U64_MAX: nat := 0xFFFF_FFFF_FFFF_FFFF

  // ---- The exact size ----

  /** The number of bytes every value of `ty` takes, unfolding at most `k` links inside each other. */
  function SizeOf(defs: Defs, ty: Node, k: nat): Option<nat>
    decreases k, ty
  {
    match ty
    case Number(f) => Width(f)
    case Boolean => Some(1)
    case PublicKey => Some(32)
    case FixedSize(_, size) => Some(size)
    case Optional(item, prefix, fixed) =>
      if !fixed then None else Plus(Width(prefix), SizeOf(defs, item, k))
    case FixedArray(item, count) =>
      var s := SizeOf(defs, item, k); if s.None? then None else Some(s.value * count)
    case HiddenPrefix(constants, inner) => Plus(SizeOfFields(defs, constants, k), SizeOf(defs, inner, k))
    case Struct(fields) => SizeOfFields(defs, fields, k)
    case Tuple(items) => SizeOfFields(defs, items, k)
    case Link(name) => if k == 0 || name !in defs then None else SizeOf(defs, defs[name], k - 1)
    case _ => None
  }

  function SizeOfFields(defs: Defs, fields: seq<Field>, k: nat): Option<nat>
    decreases k, fields
  {
    if fields == [] then Some(0)
    else Plus(SizeOfFields(defs, fields[..|fields| - 1], k), SizeOf(defs, fields[|fields| - 1].ty, k))
  }

  function Plus(a: Option<nat>, b: Option<nat>): Option<nat> {
    if a.None? || b.None? then None else Some(a.value + b.value)
  }

  lemma {:induction false} SizeMonotone(defs: Defs, ty: Node, k: nat, j: nat)
    requires k <= j && SizeOf(defs, ty, k).Some?
    ensures SizeOf(defs, ty, j) == SizeOf(defs, ty, k)
    decreases k, ty
  {
    match ty
    case Optional(item, _, _) => SizeMonotone(defs, item, k, j);
    case FixedArray(item, _) => SizeMonotone(defs, item, k, j);
    case HiddenPrefix(constants, inner) => SizesMonotone(defs, constants, k, j); SizeMonotone(defs, inner, k, j);
    case Struct(fields) => SizesMonotone(defs, fields, k, j);
    case Tuple(items) => SizesMonotone(defs, items, k, j);
    case Link(name) => SizeMonotone(defs, defs[name], k - 1, j - 1);
    case Number(_) =>
    case Boolean =>
    case PublicKey =>
    case FixedSize(_, _) =>
  }

  lemma {:induction false} SizesMonotone(defs: Defs, fields: seq<Field>, k: nat, j: nat)
    requires k <= j && SizeOfFields(defs, fields, k).Some?
    ensures SizeOfFields(defs, fields, j) == SizeOfFields(defs, fields, k)
    decreases k, fields
  {
    if fields != [] {
      SizesMonotone(defs, fields[..|fields| - 1], k, j);
      SizeMonotone(defs, fields[|fields| - 1].ty, k, j);
    }
  }

  /** Every successful read of a type with a size consumes exactly that many bytes. */
  lemma {:induction false} ReadsTakeTheSize(defs: Defs, ty: Node, bytes: seq<Byte>, k: nat, j: nat)
    requires Parse(defs, ty, bytes, k).Some? && SizeOf(defs, ty, j).Some?
    ensures |bytes| == SizeOf(defs, ty, j).value + |Parse(defs, ty, bytes, k).value.rest|
    decreases k, ty, 0
  {
    match ty
    case Optional(item, prefix, _) => ReadsTakeTheSize(defs, item, ReadNumber(prefix, bytes).value.rest, k, j);
    case FixedArray(item, count) => ManyTakeTheSize(defs, item, count, bytes, k, j);
    case HiddenPrefix(constants, inner) =>
      FieldsTakeTheSize(defs, constants, bytes, k, j);
      ReadsTakeTheSize(defs, inner, ParseFields(defs, constants, bytes, k).value.rest, k, j);
    case Struct(fields) => FieldsTakeTheSize(defs, fields, bytes, k, j);
    case Tuple(items) => FieldsTakeTheSize(defs, items, bytes, k, j);
    case Link(name) => ReadsTakeTheSize(defs, defs[name], bytes, k - 1, j - 1);
    case Number(_) =>
    case Boolean =>
    case PublicKey =>
    case FixedSize(_, _) =>
  }

  lemma {:induction false} FieldsTakeTheSize(defs: Defs, fields: seq<Field>, bytes: seq<Byte>, k: nat, j: nat)
    requires ParseFields(defs, fields, bytes, k).Some? && SizeOfFields(defs, fields, j).Some?
    ensures |bytes| == SizeOfFields(defs, fields, j).value + |ParseFields(defs, fields, bytes, k).value.rest|
    decreases k, fields, 0
  {
    if fields != [] {
      var init := fields[..|fields| - 1];
      FieldsTakeTheSize(defs, init, bytes, k, j);
      ReadsTakeTheSize(defs, fields[|fields| - 1].ty, ParseFields(defs, init, bytes, k).value.rest, k, j);
    }
  }

  lemma OneMoreTime(s: nat, n: nat)
    requires n > 0
    ensures s * n == s * (n - 1) + s
  {
  }

  lemma {:induction false} ManyTakeTheSize(defs: Defs, item: Node, n: nat, bytes: seq<Byte>, k: nat, j: nat)
    requires ParseMany(defs, item, n, bytes, k).Some? && SizeOf(defs, item, j).Some?
    ensures |bytes| == SizeOf(defs, item, j).value * n + |ParseMany(defs, item, n, bytes, k).value.rest|
    decreases k, item, n
  {
    if n > 0 {
      ManyTakeTheSize(defs, item, n - 1, bytes, k, j);
      ReadsTakeTheSize(defs, item, ParseMany(defs, item, n - 1, bytes, k).value.rest, k, j);
      OneMoreTime(SizeOf(defs, item, j).value, n);
    }
  }

  /** Byte arrays keep their size. */
  lemma {:induction false} BytesKeepSize(defs: Defs, ty: Node, k: nat)
    ensures SizeOf(U8BytesDefs(defs), U8Bytes(ty), k) == SizeOf(defs, ty, k)
    decreases k, ty, 1
  {
    match ty
    case Optional(_, _, _) => ItemsKeepSize(defs, ty, k);
    case FixedArray(_, _) => ItemsKeepSize(defs, ty, k);
    case HiddenPrefix(_, _) => ListsKeepSize(defs, ty, k);
    case Struct(_) => ListsKeepSize(defs, ty, k);
    case Tuple(_) => ListsKeepSize(defs, ty, k);
    case Link(name) => if k > 0 && name in defs { BytesKeepSize(defs, defs[name], k - 1); }
    case _ =>
  }

  lemma {:induction false} ItemsKeepSize(defs: Defs, ty: Node, k: nat)
    requires ty.Optional? || ty.FixedArray?
    ensures SizeOf(U8BytesDefs(defs), U8Bytes(ty), k) == SizeOf(defs, ty, k)
    decreases k, ty, 0
  {
    BytesKeepSize(defs, ty.item, k);
    if ty.FixedArray? { ArrayKeepsSize(defs, ty.item, ty.count, k); }
  }

  lemma {:induction false} ListsKeepSize(defs: Defs, ty: Node, k: nat)
    requires ty.HiddenPrefix? || ty.Struct? || ty.Tuple?
    ensures SizeOf(U8BytesDefs(defs), U8Bytes(ty), k) == SizeOf(defs, ty, k)
    decreases k, ty, 0
  {
    match ty
    case HiddenPrefix(constants, inner) => BytesKeepSizes(defs, constants, k); BytesKeepSize(defs, inner, k);
    case Struct(fields) => BytesKeepSizes(defs, fields, k);
    case Tuple(items) => BytesKeepSizes(defs, items, k);
  }

  lemma ArrayKeepsSize(defs: Defs, item: Node, count: nat, k: nat)
    requires SizeOf(U8BytesDefs(defs), U8Bytes(item), k) == SizeOf(defs, item, k)
    ensures SizeOf(U8BytesDefs(defs), U8Bytes(FixedArray(item, count)), k) == SizeOf(defs, FixedArray(item, count), k)
  {
    if U8Bytes(item) == Number(U8) { assert SizeOf(defs, item, k) == Some(1); }
  }

  lemma {:induction false} BytesKeepSizes(defs: Defs, fields: seq<Field>, k: nat)
    ensures SizeOfFields(U8BytesDefs(defs), U8BytesFields(fields), k) == SizeOfFields(defs, fields, k)
    decreases k, fields, 0
  {
    if fields != [] {
      var n := |fields| - 1;
      BytesKeepSizes(defs, fields[..n], k);
      BytesKeepSize(defs, fields[n].ty, k);
      assert U8BytesFields(fields)[..n] == U8BytesFields(fields[..n]);
    }
  }

  // ---- Capped arithmetic ----

  /** `min(n, limit + 1)`. */
  function Cap(n: nat): nat { if n > FIXED_TYPE_SIZE_LIMIT then FIXED_TYPE_SIZE_LIMIT + 1 else n }

  function CheckedAdd(a: nat, b: nat): Option<nat> { if a + b > U64_MAX then None else Some(a + b) }

  function CheckedMul(a: nat, b: nat): Option<nat> { if a * b > U64_MAX then None else Some(a * b) }

  function OrOver(n: Option<nat>): nat {
    if n.Some? && n.value <= FIXED_TYPE_SIZE_LIMIT then n.value else FIXED_TYPE_SIZE_LIMIT + 1
  }

  function CappedAdd(a: nat, b: nat): nat { OrOver(CheckedAdd(a, b)) }

  function CappedMul(a: nat, b: nat): nat { OrOver(CheckedMul(a, b)) }

  /** Capping early loses nothing. */
  lemma CapsCommute(a: nat, b: nat)
    ensures CappedAdd(Cap(a), Cap(b)) == Cap(a + b) && CappedMul(Cap(a), b) == Cap(a * b)
  {
    if b > 0 {
      MulAtLeast(a, b);
      MulAtLeast(Cap(a), b);
    }
  }

  lemma MulAtLeast(a: nat, b: nat)
    requires b > 0
    ensures a * b >= a
  {
    assert a * b == a * (b - 1) + a;
  }

  // ---- The memoised computation ----

  /** `r` is the exact size of `ty`, capped. */
  ghost predicate IsSize(defs: Defs, ty: Node, r: nat) { exists k: nat :: SizeOf(defs, ty, k).Some? && r == Cap(SizeOf(defs, ty, k).value) }

  ghost predicate AreSizes(defs: Defs, fields: seq<Field>, r: nat) {
    exists k: nat :: SizeOfFields(defs, fields, k).Some? && r == Cap(SizeOfFields(defs, fields, k).value)
  }

  lemma SizesOneMore(defs: Defs, fields: seq<Field>, a: nat, b: nat)
    requires fields != [] && AreSizes(defs, fields[..|fields| - 1], a) && IsSize(defs, fields[|fields| - 1].ty, b)
    ensures AreSizes(defs, fields, CappedAdd(a, b))
  {
    var init, last := fields[..|fields| - 1], fields[|fields| - 1].ty;
    var i :| SizeOfFields(defs, init, i).Some? && a == Cap(SizeOfFields(defs, init, i).value);
    var j :| SizeOf(defs, last, j).Some? && b == Cap(SizeOf(defs, last, j).value);
    var k := if i < j then j else i;
    SizesMonotone(defs, init, i, k);
    SizeMonotone(defs, last, j, k);
    CapsCommute(SizeOfFields(defs, init, i).value, SizeOf(defs, last, j).value);
    assert SizeOfFields(defs, fields, k).Some?;
  }

  lemma HiddenSize(defs: Defs, constants: seq<Field>, inner: Node, a: nat, b: nat)
    requires AreSizes(defs, constants, a) && IsSize(defs, inner, b)
    ensures IsSize(defs, HiddenPrefix(constants, inner), CappedAdd(a, b))
  {
    var i :| SizeOfFields(defs, constants, i).Some? && a == Cap(SizeOfFields(defs, constants, i).value);
    var j :| SizeOf(defs, inner, j).Some? && b == Cap(SizeOf(defs, inner, j).value);
    var k := if i < j then j else i;
    SizesMonotone(defs, constants, i, k);
    SizeMonotone(defs, inner, j, k);
    CapsCommute(SizeOfFields(defs, constants, i).value, SizeOf(defs, inner, j).value);
    assert SizeOf(defs, HiddenPrefix(constants, inner), k).Some?;
  }

  lemma ItemSize(defs: Defs, item: Node, s: nat, count: nat, prefix: Format)
    requires IsSize(defs, item, s)
    ensures IsSize(defs, FixedArray(item, count), CappedMul(s, count))
    ensures Width(prefix).Some? ==> IsSize(defs, Optional(item, prefix, true), CappedAdd(Width(prefix).value, s))
  {
    var k :| SizeOf(defs, item, k).Some? && s == Cap(SizeOf(defs, item, k).value);
    var n := SizeOf(defs, item, k).value;
    CapsCommute(n, count);
    assert SizeOf(defs, FixedArray(item, count), k).Some?;
    if Width(prefix).Some? {
      CapsCommute(Width(prefix).value, n);
      assert SizeOf(defs, Optional(item, prefix, true), k).Some?;
    }
  }

  lemma SameSize(defs: Defs, fields: seq<Field>, name: string, r: nat)
    ensures AreSizes(defs, fields, r) ==> IsSize(defs, Struct(fields), r) && IsSize(defs, Tuple(fields), r)
    ensures name in defs && IsSize(defs, defs[name], r) ==> IsSize(defs, Link(name), r)
  {
    if AreSizes(defs, fields, r) {
      var k :| SizeOfFields(defs, fields, k).Some? && r == Cap(SizeOfFields(defs, fields, k).value);
      assert SizeOf(defs, Struct(fields), k).Some? && SizeOf(defs, Tuple(fields), k).Some?;
    }
    if name in defs && IsSize(defs, defs[name], r) {
      var k: nat :| SizeOf(defs, defs[name], k).Some? && r == Cap(SizeOf(defs, defs[name], k).value);
      assert SizeOf(defs, Link(name), k + 1).Some?;
    }
  }

  lemma LeafSize(defs: Defs, ty: Node)
    requires SizeOf(defs, ty, 0).Some?
    ensures IsSize(defs, ty, Cap(SizeOf(defs, ty, 0).value))
  {
  }

  // ---- Where no answer means no size ----

  ghost predicate NoSize(defs: Defs, ty: Node) { forall k: nat :: SizeOf(defs, ty, k).None? }

  /** The size of `ty` is computed from that of `part`. */
  ghost predicate Needs(defs: Defs, ty: Node, part: Node) {
    match ty
    case FixedArray(item, _) => part == item
    case Optional(item, _, _) => part == item
    case HiddenPrefix(constants, inner) => part == inner || IsField(constants, part)
    case Struct(fields) => IsField(fields, part)
    case Tuple(items) => IsField(items, part)
    case Link(name) => name in defs && part == defs[name]
    case _ => false
  }

  predicate IsField(fields: seq<Field>, part: Node) { exists i :: 0 <= i < |fields| && fields[i].ty == part }

  /** Some chain of `n` types, each needed for the one before, starts below `ty`. */
  ghost predicate Descends(defs: Defs, ty: Node, n: nat)
    decreases n
  {
    n == 0 || exists part :: Needs(defs, ty, part) && Descends(defs, part, n - 1)
  }

  lemma {:induction false} FieldHasSize(defs: Defs, fields: seq<Field>, part: Node, k: nat)
    requires IsField(fields, part) && SizeOfFields(defs, fields, k).Some?
    ensures SizeOf(defs, part, k).Some?
  {
    var n := |fields| - 1;
    if fields[n].ty != part {
      var i :| 0 <= i < |fields| && fields[i].ty == part;
      assert fields[..n][i].ty == part;
      FieldHasSize(defs, fields[..n], part, k);
    }
  }

  lemma PartHasSize(defs: Defs, ty: Node, part: Node, k: nat)
    requires Needs(defs, ty, part) && SizeOf(defs, ty, k).Some?
    ensures SizeOf(defs, part, k).Some?
  {
    match ty
    case HiddenPrefix(constants, inner) => if part != inner { FieldHasSize(defs, constants, part, k); }
    case Struct(fields) => FieldHasSize(defs, fields, part, k);
    case Tuple(items) => FieldHasSize(defs, items, part, k);
    case Link(name) => SizeMonotone(defs, part, k - 1, k);
    case _ =>
  }

  lemma PartWithoutSize(defs: Defs, ty: Node, part: Node)
    requires Needs(defs, ty, part) && NoSize(defs, part)
    ensures NoSize(defs, ty)
  {
    forall k: nat ensures SizeOf(defs, ty, k).None? { if SizeOf(defs, ty, k).Some? { PartHasSize(defs, ty, part, k); } }
  }

  /** Any size of `v` would rest on one of `ty`, a link further down. */
  ghost predicate RestsOn(defs: Defs, v: string, ty: Node) {
    forall k: nat :: SizeOf(defs, Link(v), k).Some? ==> k > 0 && SizeOf(defs, ty, k - 1).Some?
  }

  ghost predicate Awaiting(defs: Defs, visiting: set<string>, ty: Node) { forall v :: v in visiting ==> RestsOn(defs, v, ty) }

  lemma PartIsAwaited(defs: Defs, visiting: set<string>, ty: Node, part: Node)
    requires Awaiting(defs, visiting, ty) && Needs(defs, ty, part)
    ensures Awaiting(defs, visiting, part)
  {
    forall v, k: nat | v in visiting && SizeOf(defs, Link(v), k).Some? ensures k > 0 && SizeOf(defs, part, k - 1).Some? {
      assert RestsOn(defs, v, ty);
      PartHasSize(defs, ty, part, k - 1);
    }
  }

  lemma BodyIsAwaited(defs: Defs, visiting: set<string>, name: string)
    requires Awaiting(defs, visiting, Link(name)) && name in defs
    ensures Awaiting(defs, visiting + {name}, defs[name])
  {
    PartIsAwaited(defs, visiting, Link(name), defs[name]);
  }

  /** A definition whose size rests on itself has none. */
  lemma CycleHasNoSize(defs: Defs, name: string)
    requires RestsOn(defs, name, Link(name))
    ensures NoSize(defs, Link(name))
  {
    forall k: nat ensures SizeOf(defs, Link(name), k).None? { NoSizeUpTo(defs, name, k); }
  }

  lemma {:induction false} NoSizeUpTo(defs: Defs, name: string, k: nat)
    requires RestsOn(defs, name, Link(name))
    ensures SizeOf(defs, Link(name), k).None?
  {
    if k > 0 { NoSizeUpTo(defs, name, k - 1); }
  }

  lemma SizesExclude(defs: Defs, ty: Node, r: nat)
    requires IsSize(defs, ty, r)
    ensures !NoSize(defs, ty)
  {
  }

  class SizeTable {
    const defs: Defs
    /** Sizes of finished definitions; `None` may also mean too deep from where it was first met. */
    var known: map<string, Option<nat>>
    var visiting: set<string>
    /** Some type that was asked for nests deeper than the table follows. */
    ghost var deep: bool

    ghost predicate Valid()
      reads this
    {
      && (forall n :: n in known && known[n].Some? ==> IsSize(defs, Link(n), known[n].value))
      && (forall n :: n in known && known[n].None? && !deep ==> NoSize(defs, Link(n)))
    }

    constructor (defs: Defs)
      ensures Valid() && this.defs == defs && known == map[] && visiting == {} && !deep
    {
      this.defs, known, visiting, deep := defs, map[], {}, false;
    }

    /**
     * Whatever is memoised and whatever is being visited, a size given is the exact one, capped; none
     * is given exactly where there is none, unless some type asked for nests deeper than the limit.
     */
    method FixedSizeOfType(ty: Node, depth: nat) returns (r: Option<nat>)
      requires Valid() && depth <= NESTING_LIMIT + 1 && Awaiting(defs, visiting, ty)
      modifies this
      ensures Valid() && visiting == old(visiting)
      ensures r.Some? ==> IsSize(defs, ty, r.value) && r.value <= FIXED_TYPE_SIZE_LIMIT + 1
      ensures !deep ==> (r.None? <==> NoSize(defs, ty))
      ensures (old(deep) ==> deep) && (deep ==> old(deep) || Descends(defs, ty, NESTING_LIMIT + 1 - depth))
      decreases NESTING_LIMIT + 1 - depth, 2
    {
      if depth > NESTING_LIMIT {
        deep := true;
        return None;
      }
      match ty {
        case Number(f) =>
          if Width(f).Some? { LeafSize(defs, ty); }
          return Width(f);
        case Boolean => LeafSize(defs, ty); return Some(1);
        case PublicKey => LeafSize(defs, ty); return Some(32);
        case FixedSize(_, size) => LeafSize(defs, ty); return Some(Cap(size));
        case HiddenPrefix(constants, inner) => r := HiddenSizeOf(constants, inner, depth);
        case Struct(fields) =>
          r := FieldSizes(ty, fields, depth + 1);
          if r.Some? { SameSize(defs, fields, "", r.value); }
        case Tuple(items) =>
          r := FieldSizes(ty, items, depth + 1);
          if r.Some? { SameSize(defs, items, "", r.value); }
        case FixedArray(item, count) =>
          r := PartSize(ty, item, depth + 1);
          if r.None? { return; }
          ItemSize(defs, item, r.value, count, U8);
          r := Some(CappedMul(r.value, count));
        case Optional(item, prefix, fixed) =>
          if !fixed || Width(prefix).None? { return None; }
          r := PartSize(ty, item, depth + 1);
          if r.None? { return; }
          ItemSize(defs, item, r.value, 0, prefix);
          r := Some(CappedAdd(Width(prefix).value, r.value));
        case Link(name) => r := LinkSize(name, depth + 1);
        case _ => return None;
      }
      if r.Some? { SizesExclude(defs, ty, r.value); }
    }

    method HiddenSizeOf(constants: seq<Field>, inner: Node, depth: nat) returns (r: Option<nat>)
      requires Valid() && depth <= NESTING_LIMIT && Awaiting(defs, visiting, HiddenPrefix(constants, inner))
      modifies this
      ensures Valid() && visiting == old(visiting)
      ensures r.Some? ==> IsSize(defs, HiddenPrefix(constants, inner), r.value) && r.value <= FIXED_TYPE_SIZE_LIMIT + 1
      ensures r.None? && !deep ==> NoSize(defs, HiddenPrefix(constants, inner))
      ensures (old(deep) ==> deep) && (deep ==> old(deep) || Descends(defs, HiddenPrefix(constants, inner), NESTING_LIMIT + 1 - depth))
      decreases NESTING_LIMIT + 1 - depth, 1
    {
      var ty := HiddenPrefix(constants, inner);
      var p := FieldSizes(ty, constants, depth + 1);
      if p.None? { return None; }
      var s := PartSize(ty, inner, depth + 1);
      if s.None? { return None; }
      HiddenSize(defs, constants, inner, p.value, s.value);
      r := Some(CappedAdd(p.value, s.value));
    }

    /** The size of something that the size of `ty` needs. */
    method PartSize(ghost ty: Node, part: Node, depth: nat) returns (r: Option<nat>)
      requires Valid() && 0 < depth <= NESTING_LIMIT + 1 && Awaiting(defs, visiting, ty) && Needs(defs, ty, part)
      modifies this
      ensures Valid() && visiting == old(visiting)
      ensures r.Some? ==> IsSize(defs, part, r.value) && r.value <= FIXED_TYPE_SIZE_LIMIT + 1
      ensures r.None? && !deep ==> NoSize(defs, ty)
      ensures (old(deep) ==> deep) && (deep ==> old(deep) || Descends(defs, ty, NESTING_LIMIT + 2 - depth))
      decreases NESTING_LIMIT + 1 - depth, 3
    {
      PartIsAwaited(defs, visiting, ty, part);
      r := FixedSizeOfType(part, depth);
      if r.None? && !deep { PartWithoutSize(defs, ty, part); }
    }

    method LinkSize(name: string, depth: nat) returns (r: Option<nat>)
      requires Valid() && 0 < depth <= NESTING_LIMIT + 1 && Awaiting(defs, visiting, Link(name))
      modifies this
      ensures Valid() && visiting == old(visiting)
      ensures r.Some? ==> IsSize(defs, Link(name), r.value) && r.value <= FIXED_TYPE_SIZE_LIMIT + 1
      ensures r.None? && !deep ==> NoSize(defs, Link(name))
      ensures (old(deep) ==> deep) && (deep ==> old(deep) || Descends(defs, Link(name), NESTING_LIMIT + 2 - depth))
      decreases NESTING_LIMIT + 1 - depth, 3
    {
      if name !in defs { return None; }
      if name in known { return known[name]; }
      if name in visiting {
        CycleHasNoSize(defs, name);
        return None;
      }
      BodyIsAwaited(defs, visiting, name);
      assert Needs(defs, Link(name), defs[name]);
      visiting := visiting + {name};
      r := FixedSizeOfType(defs[name], depth);
      visiting := visiting - {name};
      if r.Some? { SameSize(defs, [], name, r.value); }
      if r.None? && !deep { PartWithoutSize(defs, Link(name), defs[name]); }
      known := known[name := r];
    }

    /** The total of fields that the size of `ty` needs. */
    method FieldSizes(ghost ty: Node, fields: seq<Field>, depth: nat) returns (r: Option<nat>)
      requires Valid() && 0 < depth <= NESTING_LIMIT + 1 && Awaiting(defs, visiting, ty)
      requires forall i :: 0 <= i < |fields| ==> Needs(defs, ty, fields[i].ty)
      modifies this
      ensures Valid() && visiting == old(visiting)
      ensures r.Some? ==> AreSizes(defs, fields, r.value) && r.value <= FIXED_TYPE_SIZE_LIMIT + 1
      ensures r.None? && !deep ==> NoSize(defs, ty)
      ensures (old(deep) ==> deep) && (deep ==> old(deep) || Descends(defs, ty, NESTING_LIMIT + 2 - depth))
      decreases NESTING_LIMIT + 1 - depth, 4
    {
      var sum: nat := 0;
      assert SizeOfFields(defs, [], 0) == Some(0);
      for i := 0 to |fields|
        invariant Valid() && visiting == old(visiting) && AreSizes(defs, fields[..i], sum) && sum <= FIXED_TYPE_SIZE_LIMIT + 1
        invariant (old(deep) ==> deep) && (deep ==> old(deep) || Descends(defs, ty, NESTING_LIMIT + 2 - depth))
      {
        var s := PartSize(ty, fields[i].ty, depth);
        if s.None? { return None; }
        assert fields[..i + 1][..i] == fields[..i];
        SizesOneMore(defs, fields[..i + 1], sum, s.value);
        sum := CappedAdd(sum, s.value);
      }
      assert fields[..|fields|] == fields;
      r := Some(sum);
    }
  }
}
