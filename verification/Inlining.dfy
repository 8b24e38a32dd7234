/** Replacing links by bodies, flattening struct arguments and `u8` arrays: what readers still see. */
module NodeRewrites {
  import opened Basics
  import opened TypeNodes

  // ---- Inlining ----

  /** Links in `m` replaced by their bodies, once. */
  function Inline(m: Defs, ty: Node): Node
    decreases ty
  {
    match ty
    case FixedSize(inner, size) => FixedSize(Inline(m, inner), size)
    case SizePrefix(inner, prefix) => SizePrefix(Inline(m, inner), prefix)
    case Optional(item, prefix, fixed) => Optional(Inline(m, item), prefix, fixed)
    case FixedArray(item, count) => FixedArray(Inline(m, item), count)
    case PrefixedArray(item, prefix) => PrefixedArray(Inline(m, item), prefix)
    case HiddenPrefix(constants, inner) => HiddenPrefix(InlineFields(m, constants), Inline(m, inner))
    case Struct(fields) => Struct(InlineFields(m, fields))
    case Tuple(items) => Tuple(InlineFields(m, items))
    case Enum(variants, tag) => Enum(InlineFields(m, variants), tag)
    case Link(name) => if name in m then m[name] else ty
    case _ => ty
  }

  function InlineFields(m: Defs, fields: seq<Field>): (r: seq<Field>)
    ensures |r| == |fields|
    decreases fields
  {
    if fields == [] then [] else
      var last := fields[|fields| - 1];
      InlineFields(m, fields[..|fields| - 1]) + [last.(ty := Inline(m, last.ty))]
  }

  lemma {:induction false} InlineFieldsAt(m: Defs, fields: seq<Field>, i: nat)
    requires i < |fields|
    ensures InlineFields(m, fields)[i] == fields[i].(ty := Inline(m, fields[i].ty))
    decreases |fields|
  {
    if i < |fields| - 1 { InlineFieldsAt(m, fields[..|fields| - 1], i); }
  }

  /** No body links to an inlined name, so one step is all there is. */
  ghost predicate OneStep(m: Defs) { forall n :: n in m ==> Avoids(m[n], m.Keys) }

  /** `before` without the inlined bodies is `after`, and no body links to an inlined name. */
  ghost predicate Inlines(m: Defs, before: Defs, after: Defs) {
    && (forall n :: n in before ==> Avoids(before[n], m.Keys))
    && (forall n :: n in m ==> n in before && before[n] == m[n])
    && (forall n :: n !in m ==> (n in before <==> n in after))
    && (forall n :: n in before && n !in m ==> after[n] == before[n])
  }

  lemma {:induction false} InlineAvoids(m: Defs, ty: Node)
    requires Avoids(ty, m.Keys)
    ensures Inline(m, ty) == ty
    decreases ty
  {
    match ty {
      case FixedSize(inner, _) => InlineAvoids(m, inner);
      case SizePrefix(inner, _) => InlineAvoids(m, inner);
      case Optional(item, _, _) => InlineAvoids(m, item);
      case FixedArray(item, _) => InlineAvoids(m, item);
      case PrefixedArray(item, _) => InlineAvoids(m, item);
      case HiddenPrefix(constants, inner) => InlineFieldsAvoid(m, constants); InlineAvoids(m, inner);
      case Struct(fields) => InlineFieldsAvoid(m, fields);
      case Tuple(items) => InlineFieldsAvoid(m, items);
      case Enum(variants, _) => InlineFieldsAvoid(m, variants);
      case Link(_) =>
      case Number(_) =>
      case Boolean =>
      case PublicKey =>
      case Text =>
      case Bytes =>
    }
  }

  lemma {:induction false} InlineFieldsAvoid(m: Defs, fields: seq<Field>)
    requires FieldsAvoid(fields, m.Keys)
    ensures InlineFields(m, fields) == fields
    decreases fields
  {
    if fields != [] {
      InlineFieldsAvoid(m, fields[..|fields| - 1]);
      InlineAvoids(m, fields[|fields| - 1].ty);
    }
  }

  /** A type that does not link to inlined names reads as before. */
  lemma {:induction false} AvoidingReadsSame(m: Defs, before: Defs, after: Defs, ty: Node, bytes: seq<Byte>, k: nat)
    requires Inlines(m, before, after) && Avoids(ty, m.Keys)
    ensures Parse(after, ty, bytes, k) == Parse(before, ty, bytes, k)
    decreases k, ty, 1
  {
    if ty.SizePrefix? || ty.Optional? || ty.PrefixedArray? {
      AvoidingReadsSamePrefixed(m, before, after, ty, bytes, k);
    } else if ty.Enum? {
      AvoidingReadsSameEnum(m, before, after, ty.variants, ty.tag, bytes, k);
    } else if ty.HiddenPrefix? {
      AvoidingReadsSameHidden(m, before, after, ty, bytes, k);
    } else if ty.Link? {
      AvoidingLinkReadsSame(m, before, after, ty.name, bytes, k);
    } else {
      AvoidingReadsSamePlain(m, before, after, ty, bytes, k);
    }
  }

  lemma {:induction false} AvoidingReadsSamePlain(m: Defs, before: Defs, after: Defs, ty: Node, bytes: seq<Byte>, k: nat)
    requires !ty.SizePrefix? && !ty.Optional? && !ty.PrefixedArray? && !ty.Enum? && !ty.HiddenPrefix? && !ty.Link?
    requires Inlines(m, before, after) && Avoids(ty, m.Keys)
    ensures Parse(after, ty, bytes, k) == Parse(before, ty, bytes, k)
    decreases k, ty, 0
  {
    match ty {
      case FixedSize(inner, size) => if |bytes| >= size { AvoidingReadsSame(m, before, after, inner, bytes[..size], k); }
      case FixedArray(item, count) => AvoidingReadsSameMany(m, before, after, item, count, bytes, k);
      case Struct(fields) => AvoidingReadsSameFields(m, before, after, fields, bytes, k);
      case Tuple(items) => AvoidingReadsSameFields(m, before, after, items, bytes, k);
      case Number(_) =>
      case Boolean =>
      case PublicKey =>
      case Text =>
      case Bytes =>
    }
  }

  lemma {:induction false} AvoidingLinkReadsSame(m: Defs, before: Defs, after: Defs, name: string, bytes: seq<Byte>, k: nat)
    requires Inlines(m, before, after) && name !in m
    ensures Parse(after, Link(name), bytes, k) == Parse(before, Link(name), bytes, k)
    decreases k, Link(name), 0
  {
    if k > 0 && name in before { AvoidingReadsSame(m, before, after, before[name], bytes, k - 1); }
  }

  lemma {:induction false} AvoidingReadsSameEnum(m: Defs, before: Defs, after: Defs, variants: seq<Field>, tag: Format,
                                                 bytes: seq<Byte>, k: nat)
    requires Inlines(m, before, after) && FieldsAvoid(variants, m.Keys)
    ensures Parse(after, Enum(variants, tag), bytes, k) == Parse(before, Enum(variants, tag), bytes, k)
    decreases k, variants, 0
  {
    var p := ReadNumber(tag, bytes);
    if p.Some? && NumberValue(tag, p.value.leaves[0]) < |variants| {
      var i := NumberValue(tag, p.value.leaves[0]);
      FieldLinksOf(variants, i);
      AvoidingReadsSame(m, before, after, variants[i].ty, p.value.rest, k);
    }
  }

  lemma {:induction false} AvoidingReadsSameHidden(m: Defs, before: Defs, after: Defs, ty: Node, bytes: seq<Byte>, k: nat)
    requires ty.HiddenPrefix? && Inlines(m, before, after) && Avoids(ty, m.Keys)
    ensures Parse(after, ty, bytes, k) == Parse(before, ty, bytes, k)
    decreases k, ty, 0
  {
    AvoidingReadsSameFields(m, before, after, ty.constants, bytes, k);
    var p := ParseFields(before, ty.constants, bytes, k);
    if p.Some? { AvoidingReadsSame(m, before, after, ty.inner, p.value.rest, k); }
  }

  lemma {:induction false} AvoidingReadsSamePrefixed(m: Defs, before: Defs, after: Defs, ty: Node, bytes: seq<Byte>, k: nat)
    requires ty.SizePrefix? || ty.Optional? || ty.PrefixedArray?
    requires Inlines(m, before, after) && Avoids(ty, m.Keys)
    ensures Parse(after, ty, bytes, k) == Parse(before, ty, bytes, k)
    decreases k, ty, 0
  {
    var p := ReadNumber(ty.prefix, bytes);
    if p.Some? {
      match ty {
        case SizePrefix(inner, prefix) =>
          var n := NumberValue(prefix, p.value.leaves[0]);
          if |p.value.rest| >= n { AvoidingReadsSame(m, before, after, inner, p.value.rest[..n], k); }
        case Optional(item, _, _) => AvoidingReadsSame(m, before, after, item, p.value.rest, k);
        case PrefixedArray(item, prefix) =>
          AvoidingReadsSameMany(m, before, after, item, NumberValue(prefix, p.value.leaves[0]), p.value.rest, k);
      }
    }
  }

  lemma {:induction false} AvoidingReadsSameFields(m: Defs, before: Defs, after: Defs, fields: seq<Field>, bytes: seq<Byte>, k: nat)
    requires Inlines(m, before, after) && FieldsAvoid(fields, m.Keys)
    ensures ParseFields(after, fields, bytes, k) == ParseFields(before, fields, bytes, k)
    decreases k, fields, 0
  {
    if fields != [] {
      AvoidingReadsSameFields(m, before, after, fields[..|fields| - 1], bytes, k);
      var p := ParseFields(before, fields[..|fields| - 1], bytes, k);
      if p.Some? { AvoidingReadsSame(m, before, after, fields[|fields| - 1].ty, p.value.rest, k); }
    }
  }

  lemma {:induction false} AvoidingReadsSameMany(m: Defs, before: Defs, after: Defs, item: Node, n: nat, bytes: seq<Byte>, k: nat)
    requires Inlines(m, before, after) && Avoids(item, m.Keys)
    ensures ParseMany(after, item, n, bytes, k) == ParseMany(before, item, n, bytes, k)
    decreases k, item, n + 2
  {
    if n > 0 {
      AvoidingReadsSameMany(m, before, after, item, n - 1, bytes, k);
      var p := ParseMany(before, item, n - 1, bytes, k);
      if p.Some? { AvoidingReadsSame(m, before, after, item, p.value.rest, k); }
    }
  }

  /** What was read before is read after, and what is read after was read before, one unfolding deeper. */
  ghost predicate Agree(p: Option<Read>, deeper: Option<Read>, q: Option<Read>) {
    (p.Some? ==> q == p) && (q.Some? ==> deeper == q)
  }

  /** Agreement carries over to what is read next. */
  lemma AgreeThen(p: Option<Read>, p1: Option<Read>, q: Option<Read>, a: Option<Read>, a1: Option<Read>, b: Option<Read>)
    requires Agree(p, p1, q) && Agree(a, a1, b)
    ensures Agree(Then(p, a), Then(p1, a1), Then(q, b))
  {
  }

  lemma {:induction false} InlinedReadsSame(m: Defs, before: Defs, after: Defs, ty: Node, bytes: seq<Byte>, k: nat)
    requires Inlines(m, before, after)
    ensures Agree(Parse(before, ty, bytes, k), Parse(before, ty, bytes, k + 1), Parse(after, Inline(m, ty), bytes, k))
    decreases k, ty, 1
  {
    match ty {
      case SizePrefix(_, _) => InlinedReadsSamePrefixed(m, before, after, ty, bytes, k);
      case Optional(_, _, _) => InlinedReadsSamePrefixed(m, before, after, ty, bytes, k);
      case PrefixedArray(_, _) => InlinedReadsSamePrefixed(m, before, after, ty, bytes, k);
      case Enum(variants, tag) => InlinedReadsSameEnum(m, before, after, variants, tag, bytes, k);
      case FixedSize(inner, size) => if |bytes| >= size { InlinedReadsSame(m, before, after, inner, bytes[..size], k); }
      case FixedArray(item, count) => InlinedReadsSameMany(m, before, after, item, count, bytes, k);
      case HiddenPrefix(_, _) => InlinedReadsSameHidden(m, before, after, ty, bytes, k);
      case Struct(fields) => InlinedReadsSameFields(m, before, after, fields, bytes, k);
      case Tuple(items) => InlinedReadsSameFields(m, before, after, items, bytes, k);
      case Link(name) => InlinedLinkReadsSame(m, before, after, name, bytes, k);
      case Number(_) =>
      case Boolean =>
      case PublicKey =>
      case Text =>
      case Bytes =>
    }
  }

  lemma {:induction false} InlinedReadsSameHidden(m: Defs, before: Defs, after: Defs, ty: Node, bytes: seq<Byte>, k: nat)
    requires ty.HiddenPrefix? && Inlines(m, before, after)
    ensures Agree(Parse(before, ty, bytes, k), Parse(before, ty, bytes, k + 1), Parse(after, Inline(m, ty), bytes, k))
    decreases k, ty, 0
  {
    InlinedReadsSameFields(m, before, after, ty.constants, bytes, k);
    var p := ParseFields(after, InlineFields(m, ty.constants), bytes, k);
    if p.Some? { InlinedReadsSame(m, before, after, ty.inner, p.value.rest, k); }
  }

  lemma {:induction false} InlinedReadsSamePrefixed(m: Defs, before: Defs, after: Defs, ty: Node, bytes: seq<Byte>, k: nat)
    requires ty.SizePrefix? || ty.Optional? || ty.PrefixedArray?
    requires Inlines(m, before, after)
    ensures Agree(Parse(before, ty, bytes, k), Parse(before, ty, bytes, k + 1), Parse(after, Inline(m, ty), bytes, k))
    decreases k, ty, 0
  {
    var p := ReadNumber(ty.prefix, bytes);
    if p.Some? {
      match ty {
        case SizePrefix(inner, prefix) =>
          var n := NumberValue(prefix, p.value.leaves[0]);
          if |p.value.rest| >= n { InlinedReadsSame(m, before, after, inner, p.value.rest[..n], k); }
        case Optional(item, _, _) => InlinedReadsSame(m, before, after, item, p.value.rest, k);
        case PrefixedArray(item, prefix) =>
          InlinedReadsSameMany(m, before, after, item, NumberValue(prefix, p.value.leaves[0]), p.value.rest, k);
      }
    }
  }

  lemma {:induction false} InlinedReadsSameEnum(m: Defs, before: Defs, after: Defs, variants: seq<Field>, tag: Format,
                                                bytes: seq<Byte>, k: nat)
    requires Inlines(m, before, after)
    ensures var ty := Enum(variants, tag);
            Agree(Parse(before, ty, bytes, k), Parse(before, ty, bytes, k + 1), Parse(after, Inline(m, ty), bytes, k))
    decreases k, variants, 0
  {
    var p := ReadNumber(tag, bytes);
    if p.Some? && NumberValue(tag, p.value.leaves[0]) < |variants| {
      var i := NumberValue(tag, p.value.leaves[0]);
      InlinedReadsSame(m, before, after, variants[i].ty, p.value.rest, k);
      InlinedVariantReadsSame(m, before, after, variants, tag, bytes, k, i);
    }
  }

  lemma InlinedVariantReadsSame(m: Defs, before: Defs, after: Defs, variants: seq<Field>, tag: Format,
                                bytes: seq<Byte>, k: nat, i: nat)
    requires ReadNumber(tag, bytes).Some? && i < |variants|
    requires var p := ReadNumber(tag, bytes).value;
             && i == NumberValue(tag, p.leaves[0])
             && Agree(Parse(before, variants[i].ty, p.rest, k), Parse(before, variants[i].ty, p.rest, k + 1),
                      Parse(after, Inline(m, variants[i].ty), p.rest, k))
    ensures var ty := Enum(variants, tag);
            Agree(Parse(before, ty, bytes, k), Parse(before, ty, bytes, k + 1), Parse(after, Inline(m, ty), bytes, k))
  {
    InlineFieldsAt(m, variants, i);
  }

  lemma InlinedLinkReadsSame(m: Defs, before: Defs, after: Defs, name: string, bytes: seq<Byte>, k: nat)
    requires Inlines(m, before, after)
    ensures Agree(Parse(before, Link(name), bytes, k), Parse(before, Link(name), bytes, k + 1),
                  Parse(after, Inline(m, Link(name)), bytes, k))
  {
    if name in m {
      BodyReadsSame(m, before, after, m[name], bytes, k);
      if k > 0 { BodyReadsSame(m, before, after, m[name], bytes, k - 1); }
    } else if name in before && k > 0 {
      KeptLinkReadsSame(m, before, after, name, bytes, k);
    }
  }

  lemma KeptLinkReadsSame(m: Defs, before: Defs, after: Defs, name: string, bytes: seq<Byte>, k: nat)
    requires Inlines(m, before, after) && name in before && name !in m && k > 0
    ensures Agree(Parse(before, Link(name), bytes, k), Parse(before, Link(name), bytes, k + 1), Parse(after, Link(name), bytes, k))
  {
    BodyReadsSame(m, before, after, before[name], bytes, k - 1);
  }

  lemma BodyReadsSame(m: Defs, before: Defs, after: Defs, body: Node, bytes: seq<Byte>, k: nat)
    requires Inlines(m, before, after) && Avoids(body, m.Keys)
    ensures Parse(after, body, bytes, k) == Parse(before, body, bytes, k)
    ensures Parse(before, body, bytes, k).Some? ==> Parse(before, body, bytes, k + 1) == Parse(before, body, bytes, k)
  {
    AvoidingReadsSame(m, before, after, body, bytes, k);
    if Parse(before, body, bytes, k).Some? { MoreUnfolding(before, body, bytes, k); }
  }

  lemma {:induction false} InlinedReadsSameFields(m: Defs, before: Defs, after: Defs, fields: seq<Field>, bytes: seq<Byte>, k: nat)
    requires Inlines(m, before, after)
    ensures Agree(ParseFields(before, fields, bytes, k), ParseFields(before, fields, bytes, k + 1),
                  ParseFields(after, InlineFields(m, fields), bytes, k))
    decreases k, fields, 0
  {
    if fields != [] {
      var n := |fields| - 1;
      InlinedReadsSameFields(m, before, after, fields[..n], bytes, k);
      assert InlineFields(m, fields)[..n] == InlineFields(m, fields[..n]);
      var q := ParseFields(after, InlineFields(m, fields[..n]), bytes, k);
      if q.Some? {
        var rest := q.value.rest;
        InlinedReadsSame(m, before, after, fields[n].ty, rest, k);
        AgreeThen(ParseFields(before, fields[..n], bytes, k), ParseFields(before, fields[..n], bytes, k + 1), q,
                  Parse(before, fields[n].ty, rest, k), Parse(before, fields[n].ty, rest, k + 1),
                  Parse(after, Inline(m, fields[n].ty), rest, k));
      }
    }
  }

  lemma {:induction false} InlinedReadsSameMany(m: Defs, before: Defs, after: Defs, item: Node, n: nat, bytes: seq<Byte>, k: nat)
    requires Inlines(m, before, after)
    ensures Agree(ParseMany(before, item, n, bytes, k), ParseMany(before, item, n, bytes, k + 1),
                  ParseMany(after, Inline(m, item), n, bytes, k))
    decreases k, item, n + 2
  {
    if n > 0 {
      InlinedReadsSameMany(m, before, after, item, n - 1, bytes, k);
      var q := ParseMany(after, Inline(m, item), n - 1, bytes, k);
      if q.Some? {
        var rest := q.value.rest;
        InlinedReadsSame(m, before, after, item, rest, k);
        AgreeThen(ParseMany(before, item, n - 1, bytes, k), ParseMany(before, item, n - 1, bytes, k + 1), q,
                  Parse(before, item, rest, k), Parse(before, item, rest, k + 1), Parse(after, Inline(m, item), rest, k));
      }
    }
  }

  // ---- Flattening ----

  /** Struct arguments replaced by their fields. */
  function Flatten(args: seq<Field>): seq<Field>
    decreases |args|
  {
    if args == [] then [] else Flatten(args[..|args| - 1]) + FlattenOne(args[|args| - 1])
  }

  function FlattenOne(arg: Field): seq<Field> { if arg.ty.Struct? then arg.ty.fields else [arg] }

  lemma ThenAssociates(p: Option<Read>, q: Option<Read>, r: Option<Read>)
    ensures Then(Then(p, q), r) == Then(p, Then(q, r))
  {
    if p.Some? && q.Some? && r.Some? {
      assert p.value.leaves + q.value.leaves + r.value.leaves == p.value.leaves + (q.value.leaves + r.value.leaves);
    }
  }

  lemma NothingThen(bytes: seq<Byte>, p: Option<Read>)
    ensures Then(Some(Read([], bytes)), p) == p
    ensures p.Some? ==> Then(p, Some(Read([], p.value.rest))) == p
  {
    if p.Some? { assert [] + p.value.leaves == p.value.leaves && p.value.leaves + [] == p.value.leaves; }
  }

  lemma {:induction false} ParseAppended(defs: Defs, a: seq<Field>, b: seq<Field>, bytes: seq<Byte>, k: nat)
    ensures ParseFields(defs, a + b, bytes, k) ==
            var p := ParseFields(defs, a, bytes, k);
            if p.None? then None else Then(p, ParseFields(defs, b, p.value.rest, k))
    decreases |b|
  {
    if b == [] {
      assert a + b == a;
      var p := ParseFields(defs, a, bytes, k);
      if p.Some? { NothingThen(p.value.rest, p); }
    } else {
      var n := |b| - 1;
      assert (a + b)[..|a + b| - 1] == a + b[..n];
      ParseAppended(defs, a, b[..n], bytes, k);
      var p := ParseFields(defs, a, bytes, k);
      if p.Some? {
        var q := ParseFields(defs, b[..n], p.value.rest, k);
        if q.Some? { ThenAssociates(p, q, Parse(defs, b[n].ty, q.value.rest, k)); }
      }
    }
  }

  /** The flattened list reads the same leaves from the same bytes. */
  lemma {:induction false} FlattenReadsSame(defs: Defs, args: seq<Field>, bytes: seq<Byte>, k: nat)
    ensures ParseFields(defs, Flatten(args), bytes, k) == ParseFields(defs, args, bytes, k)
    decreases |args|
  {
    if args != [] {
      var n := |args| - 1;
      FlattenReadsSame(defs, args[..n], bytes, k);
      var p := ParseFields(defs, args[..n], bytes, k);
      ParseAppended(defs, Flatten(args[..n]), FlattenOne(args[n]), bytes, k);
      if p.Some? { FlattenOneReadsSame(defs, args[n], p.value.rest, k); }
    }
  }

  lemma FlattenOneReadsSame(defs: Defs, arg: Field, bytes: seq<Byte>, k: nat)
    ensures ParseFields(defs, FlattenOne(arg), bytes, k) == Parse(defs, arg.ty, bytes, k)
  {
    if !arg.ty.Struct? { ParseOne(defs, arg, bytes, k); }
  }

  lemma ParseOne(defs: Defs, f: Field, bytes: seq<Byte>, k: nat)
    ensures ParseFields(defs, [f], bytes, k) == Parse(defs, f.ty, bytes, k)
  {
    var none: seq<Field> := [];
    assert [f][..0] == none;
    assert ParseFields(defs, none, bytes, k) == Some(Read([], bytes));
    NothingThen(bytes, Parse(defs, f.ty, bytes, k));
  }

  // ---- Byte arrays ----

  function U8Bytes(ty: Node): Node
    decreases ty
  {
    match ty
    case FixedSize(inner, size) => FixedSize(U8Bytes(inner), size)
    case SizePrefix(inner, prefix) => SizePrefix(U8Bytes(inner), prefix)
    case Optional(item, prefix, fixed) => Optional(U8Bytes(item), prefix, fixed)
    case FixedArray(item, count) =>
      if U8Bytes(item) == Number(U8) then FixedSize(Bytes, count) else FixedArray(U8Bytes(item), count)
    case PrefixedArray(item, prefix) => PrefixedArray(U8Bytes(item), prefix)
    case HiddenPrefix(constants, inner) => HiddenPrefix(U8BytesFields(constants), U8Bytes(inner))
    case Struct(fields) => Struct(U8BytesFields(fields))
    case Tuple(items) => Tuple(U8BytesFields(items))
    case Enum(variants, tag) => Enum(U8BytesFields(variants), tag)
    case _ => ty
  }

  function U8BytesFields(fields: seq<Field>): (r: seq<Field>)
    ensures |r| == |fields|
    decreases fields
  {
    if fields == [] then [] else
      var last := fields[|fields| - 1];
      U8BytesFields(fields[..|fields| - 1]) + [last.(ty := U8Bytes(last.ty))]
  }

  function U8BytesDefs(defs: Defs): Defs { map n | n in defs :: U8Bytes(defs[n]) }

  lemma {:induction false} U8BytesFieldsAt(fields: seq<Field>, i: nat)
    requires i < |fields|
    ensures U8BytesFields(fields)[i] == fields[i].(ty := U8Bytes(fields[i].ty))
    decreases |fields|
  {
    if i < |fields| - 1 { U8BytesFieldsAt(fields[..|fields| - 1], i); }
  }

  lemma EachByteOneMore(bytes: seq<Byte>, n: nat)
    requires 0 < n <= |bytes|
    ensures EachByte(bytes[..n]) == EachByte(bytes[..n - 1]) + [[bytes[n - 1]]]
  {
    assert bytes[..n] == bytes[..n - 1] + [bytes[n - 1]];
    assert forall i :: 0 <= i < n - 1 ==> bytes[..n][i] == bytes[..n - 1][i];
  }

  lemma {:induction false} ManyBytes(defs: Defs, n: nat, bytes: seq<Byte>, k: nat)
    ensures ParseMany(defs, Number(U8), n, bytes, k)
            == if |bytes| < n then None else Some(Read(EachByte(bytes[..n]), bytes[n..]))
  {
    if n == 0 {
      assert EachByte(bytes[..0]) == [] && bytes[0..] == bytes;
    } else {
      ManyBytes(defs, n - 1, bytes, k);
      if |bytes| >= n {
        assert bytes[n - 1..][..1] == [bytes[n - 1]] && bytes[n - 1..][1..] == bytes[n..];
        EachByteOneMore(bytes, n);
      }
    }
  }

  /** A fixed array of `u8` read as bytes gives the same leaves. */
  lemma {:induction false} BytesReadSame(defs: Defs, ty: Node, bytes: seq<Byte>, k: nat)
    ensures Parse(U8BytesDefs(defs), U8Bytes(ty), bytes, k) == Parse(defs, ty, bytes, k)
    decreases k, ty, 1
  {
    match ty {
      case FixedSize(inner, size) => if |bytes| >= size { BytesReadSame(defs, inner, bytes[..size], k); }
      case SizePrefix(_, _) => BytesReadSamePrefixed(defs, ty, bytes, k);
      case Optional(_, _, _) => BytesReadSamePrefixed(defs, ty, bytes, k);
      case PrefixedArray(_, _) => BytesReadSamePrefixed(defs, ty, bytes, k);
      case Enum(variants, tag) => BytesReadSameEnum(defs, variants, tag, bytes, k);
      case FixedArray(item, count) =>
        BytesReadSameMany(defs, item, count, bytes, k);
        if U8Bytes(item) == Number(U8) { ManyBytes(U8BytesDefs(defs), count, bytes, k); }
      case HiddenPrefix(_, _) => BytesReadSameHidden(defs, ty, bytes, k);
      case Struct(fields) => BytesReadSameFields(defs, fields, bytes, k);
      case Tuple(items) => BytesReadSameFields(defs, items, bytes, k);
      case Link(name) => if k > 0 && name in defs { BytesReadSame(defs, defs[name], bytes, k - 1); }
      case Number(_) =>
      case Boolean =>
      case PublicKey =>
      case Text =>
      case Bytes =>
    }
  }

  lemma {:induction false} BytesReadSamePrefixed(defs: Defs, ty: Node, bytes: seq<Byte>, k: nat)
    requires ty.SizePrefix? || ty.Optional? || ty.PrefixedArray?
    ensures Parse(U8BytesDefs(defs), U8Bytes(ty), bytes, k) == Parse(defs, ty, bytes, k)
    decreases k, ty, 0
  {
    var p := ReadNumber(ty.prefix, bytes);
    if p.Some? {
      match ty {
        case SizePrefix(inner, prefix) =>
          var n := NumberValue(prefix, p.value.leaves[0]);
          if |p.value.rest| >= n { BytesReadSame(defs, inner, p.value.rest[..n], k); }
        case Optional(item, _, _) => BytesReadSame(defs, item, p.value.rest, k);
        case PrefixedArray(item, prefix) =>
          BytesReadSameMany(defs, item, NumberValue(prefix, p.value.leaves[0]), p.value.rest, k);
      }
    }
  }

  lemma {:induction false} BytesReadSameEnum(defs: Defs, variants: seq<Field>, tag: Format, bytes: seq<Byte>, k: nat)
    ensures Parse(U8BytesDefs(defs), U8Bytes(Enum(variants, tag)), bytes, k) == Parse(defs, Enum(variants, tag), bytes, k)
    decreases k, variants, 0
  {
    var p := ReadNumber(tag, bytes);
    if p.Some? && NumberValue(tag, p.value.leaves[0]) < |variants| {
      var i := NumberValue(tag, p.value.leaves[0]);
      U8BytesFieldsAt(variants, i);
      BytesReadSame(defs, variants[i].ty, p.value.rest, k);
    }
  }

  lemma {:induction false} BytesReadSameHidden(defs: Defs, ty: Node, bytes: seq<Byte>, k: nat)
    requires ty.HiddenPrefix?
    ensures Parse(U8BytesDefs(defs), U8Bytes(ty), bytes, k) == Parse(defs, ty, bytes, k)
    decreases k, ty, 0
  {
    BytesReadSameFields(defs, ty.constants, bytes, k);
    var p := ParseFields(defs, ty.constants, bytes, k);
    if p.Some? { BytesReadSame(defs, ty.inner, p.value.rest, k); }
  }

  lemma {:induction false} BytesReadSameFields(defs: Defs, fields: seq<Field>, bytes: seq<Byte>, k: nat)
    ensures ParseFields(U8BytesDefs(defs), U8BytesFields(fields), bytes, k) == ParseFields(defs, fields, bytes, k)
    decreases k, fields, 0
  {
    if fields != [] {
      var n := |fields| - 1;
      BytesReadSameFields(defs, fields[..n], bytes, k);
      assert U8BytesFields(fields)[..n] == U8BytesFields(fields[..n]);
      var p := ParseFields(defs, fields[..n], bytes, k);
      if p.Some? { BytesReadSame(defs, fields[n].ty, p.value.rest, k); }
    }
  }

  lemma {:induction false} BytesReadSameMany(defs: Defs, item: Node, n: nat, bytes: seq<Byte>, k: nat)
    ensures ParseMany(U8BytesDefs(defs), U8Bytes(item), n, bytes, k) == ParseMany(defs, item, n, bytes, k)
    decreases k, item, n + 2
  {
    if n > 0 {
      BytesReadSameMany(defs, item, n - 1, bytes, k);
      var p := ParseMany(defs, item, n - 1, bytes, k);
      if p.Some? { BytesReadSame(defs, item, p.value.rest, k); }
    }
  }
}
