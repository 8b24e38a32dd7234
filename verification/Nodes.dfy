/** Converted type nodes, the links in them, and what a reader of their wire format sees. */
module TypeNodes {
  import opened Basics

  type Byte = x: int | 0 <= x < 256

  datatype Format = U8 | U16 | U32 | U64 | U128 | I8 | I16 | I32 | I64 | I128 | F32 | F64 | ShortU16

  /** A struct field, tuple item, enum variant, hidden constant, argument or defined type. */
  datatype Field = Field(name: string, ty: Node)

  datatype Node =
    | Number(format: Format)
    | Boolean
    | PublicKey
    | Text
    | Bytes
    | FixedSize(inner: Node, size: nat)
    | SizePrefix(inner: Node, prefix: Format)
    | Optional(item: Node, prefix: Format, fixed: bool)
    | FixedArray(item: Node, count: nat)
    | PrefixedArray(item: Node, prefix: Format)
    | HiddenPrefix(constants: seq<Field>, inner: Node)
    | Struct(fields: seq<Field>)
    | Tuple(items: seq<Field>)
    | Enum(variants: seq<Field>, tag: Format)
    | Link(name: string)

  type Defs = map<string, Node>

  function Width(f: Format): Option<nat> {
    match f
    case U8 => Some(1) case I8 => Some(1)
    case U16 => Some(2) case I16 => Some(2)
    case U32 => Some(4) case I32 => Some(4) case F32 => Some(4)
    case U64 => Some(8) case I64 => Some(8) case F64 => Some(8)
    case U128 => Some(16) case I128 => Some(16)
    case ShortU16 => None
  }

  /** Widths double from format to format; signed and floating numbers are as wide as unsigned ones. */
  lemma WidthsDouble()
    ensures Width(U8) == Some(1)
    ensures var w := (f: Format) requires Width(f).Some? => Width(f).value;
            && (forall f :: Width(f).None? <==> f.ShortU16?)
            && w(U16) == 2 * w(U8) && w(U32) == 2 * w(U16) && w(U64) == 2 * w(U32) && w(U128) == 2 * w(U64)
            && w(I8) == w(U8) && w(I16) == w(U16) && w(I32) == w(U32) && w(I64) == w(U64) && w(I128) == w(U128)
            && w(F32) == w(U32) && w(F64) == w(U64)
  {
  }

  // ---- Links ----

  function Links(ty: Node): multiset<string>
    decreases ty
  {
    match ty
    case FixedSize(inner, _) => Links(inner)
    case SizePrefix(inner, _) => Links(inner)
    case Optional(item, _, _) => Links(item)
    case FixedArray(item, _) => Links(item)
    case PrefixedArray(item, _) => Links(item)
    case HiddenPrefix(constants, inner) => Links(inner) + FieldLinks(constants)
    case Struct(fields) => FieldLinks(fields)
    case Tuple(items) => FieldLinks(items)
    case Enum(variants, _) => FieldLinks(variants)
    case Link(name) => multiset{name}
    case _ => multiset{}
  }

  function FieldLinks(fields: seq<Field>): multiset<string>
    decreases fields
  {
    if fields == [] then multiset{} else FieldLinks(fields[..|fields| - 1]) + Links(fields[|fields| - 1].ty)
  }

  /** The names of `names` do not occur as links. */
  ghost predicate Avoids(ty: Node, names: set<string>) { forall n :: n in names ==> n !in Links(ty) }

  ghost predicate FieldsAvoid(fields: seq<Field>, names: set<string>) { forall n :: n in names ==> n !in FieldLinks(fields) }

  lemma {:induction false} FieldLinksOf(fields: seq<Field>, i: nat)
    requires i < |fields|
    ensures Links(fields[i].ty) <= FieldLinks(fields)
    decreases |fields|
  {
    if i < |fields| - 1 { FieldLinksOf(fields[..|fields| - 1], i); }
  }

  // ---- The wire ----

  /** The wire leaves read, each scalar with its bytes, and what is left. */
  datatype Read = Read(leaves: seq<seq<Byte>>, rest: seq<Byte>)

  function LittleEndian(bytes: seq<Byte>): nat {
    if bytes == [] then 0 else bytes[0] + 256 * LittleEndian(bytes[1..])
  }

  /** A compact `u16` takes one to three bytes, seven bits each. */
  function ShortLength(bytes: seq<Byte>, limit: nat): Option<nat> {
    if limit == 0 || bytes == [] then None
    else if bytes[0] < 128 then Some(1)
    else var more := ShortLength(bytes[1..], limit - 1); if more.None? then None else Some(1 + more.value)
  }

  function ShortValue(bytes: seq<Byte>): nat {
    if bytes == [] then 0 else bytes[0] % 128 + 128 * ShortValue(bytes[1..])
  }

  function Power(base: nat, n: nat): nat { if n == 0 then 1 else base * Power(base, n - 1) }

  lemma Distribute(base: nat, low: nat, power: nat, digit: nat)
    ensures base * (low + power * digit) == base * low + base * power * digit
  {
  }

  /** A further byte counts that much more the later it comes. */
  lemma {:induction false} LaterBytesCountMore(bytes: seq<Byte>, b: Byte)
    ensures LittleEndian(bytes + [b]) == LittleEndian(bytes) + Power(256, |bytes|) * b
  {
    var all := bytes + [b];
    if bytes == [] {
      assert all == [b] && all[1..] == [];
    } else {
      assert all[1..] == bytes[1..] + [b];
      LaterBytesCountMore(bytes[1..], b);
      Distribute(256, LittleEndian(bytes[1..]), Power(256, |bytes| - 1), b);
    }
  }

  lemma {:induction false} LaterGroupsCountMore(bytes: seq<Byte>, b: Byte)
    ensures ShortValue(bytes + [b]) == ShortValue(bytes) + Power(128, |bytes|) * (b % 128)
  {
    var all := bytes + [b];
    if bytes == [] {
      assert all == [b] && all[1..] == [];
    } else {
      assert all[1..] == bytes[1..] + [b];
      LaterGroupsCountMore(bytes[1..], b);
      Distribute(128, ShortValue(bytes[1..]), Power(128, |bytes| - 1), b % 128);
    }
  }

  function Take(bytes: seq<Byte>, n: nat): Option<Read> {
    if |bytes| < n then None else Some(Read([bytes[..n]], bytes[n..]))
  }

  function ReadNumber(f: Format, bytes: seq<Byte>): (r: Option<Read>)
    ensures r.Some? ==> |r.value.leaves| == 1
  {
    if Width(f).Some? then Take(bytes, Width(f).value)
    else var n := ShortLength(bytes, 3); if n.None? then None else Take(bytes, n.value)
  }

  function NumberValue(f: Format, leaf: seq<Byte>): nat { if f.ShortU16? then ShortValue(leaf) else LittleEndian(leaf) }

  /** Raw bytes are one leaf each. */
  function EachByte(bytes: seq<Byte>): (r: seq<seq<Byte>>)
    ensures |r| == |bytes|
  {
    seq(|bytes|, i requires 0 <= i < |bytes| => [bytes[i]])
  }

  function Then(first: Option<Read>, second: Option<Read>): Option<Read> {
    if first.None? || second.None? then None else Some(Read(first.value.leaves + second.value.leaves, second.value.rest))
  }

  /** A part read within its own window of bytes. */
  function Within(window: Option<Read>, rest: seq<Byte>): Option<Read> {
    if window.None? then None else Some(Read(window.value.leaves, rest))
  }

  /** Reads `ty`, unfolding at most `k` links inside each other. */
  function Parse(defs: Defs, ty: Node, bytes: seq<Byte>, k: nat): Option<Read>
    decreases k, ty, 0
  {
    match ty
    case Number(f) => ReadNumber(f, bytes)
    case Boolean => Take(bytes, 1)
    case PublicKey => Take(bytes, 32)
    case Text => Some(Read(EachByte(bytes), []))
    case Bytes => Some(Read(EachByte(bytes), []))
    case FixedSize(inner, size) =>
      if |bytes| < size then None else Within(Parse(defs, inner, bytes[..size], k), bytes[size..])
    case SizePrefix(inner, prefix) =>
      var p := ReadNumber(prefix, bytes);
      if p.None? then None else
        var n := NumberValue(prefix, p.value.leaves[0]);
        if |p.value.rest| < n then None
        else Then(p, Within(Parse(defs, inner, p.value.rest[..n], k), p.value.rest[n..]))
    case Optional(item, prefix, fixed) =>
      var p := ReadNumber(prefix, bytes);
      if p.None? then None
      else if !fixed && NumberValue(prefix, p.value.leaves[0]) == 0 then p
      else Then(p, Parse(defs, item, p.value.rest, k))
    case FixedArray(item, count) => ParseMany(defs, item, count, bytes, k)
    case PrefixedArray(item, prefix) =>
      var p := ReadNumber(prefix, bytes);
      if p.None? then None
      else Then(p, ParseMany(defs, item, NumberValue(prefix, p.value.leaves[0]), p.value.rest, k))
    case HiddenPrefix(constants, inner) =>
      var p := ParseFields(defs, constants, bytes, k);
      if p.None? then None else Then(p, Parse(defs, inner, p.value.rest, k))
    case Struct(fields) => ParseFields(defs, fields, bytes, k)
    case Tuple(items) => ParseFields(defs, items, bytes, k)
    case Enum(variants, size) =>
      var p := ReadNumber(size, bytes);
      if p.None? then None else
        var tag := NumberValue(size, p.value.leaves[0]);
        if tag >= |variants| then None else Then(p, Parse(defs, variants[tag].ty, p.value.rest, k))
    case Link(name) =>
      if k == 0 || name !in defs then None else Parse(defs, defs[name], bytes, k - 1)
  }

  function ParseFields(defs: Defs, fields: seq<Field>, bytes: seq<Byte>, k: nat): Option<Read>
    decreases k, fields, 0
  {
    if fields == [] then Some(Read([], bytes)) else
      var before := ParseFields(defs, fields[..|fields| - 1], bytes, k);
      if before.None? then None else Then(before, Parse(defs, fields[|fields| - 1].ty, before.value.rest, k))
  }

  function ParseMany(defs: Defs, item: Node, n: nat, bytes: seq<Byte>, k: nat): Option<Read>
    decreases k, item, n
  {
    if n == 0 then Some(Read([], bytes)) else
      var before := ParseMany(defs, item, n - 1, bytes, k);
      if before.None? then None else Then(before, Parse(defs, item, before.value.rest, k))
  }

  /** Unfolding more links changes nothing that was read. */
  lemma {:induction false} MoreUnfolding(defs: Defs, ty: Node, bytes: seq<Byte>, k: nat)
    requires Parse(defs, ty, bytes, k).Some?
    ensures Parse(defs, ty, bytes, k + 1) == Parse(defs, ty, bytes, k)
    decreases k, ty, 0
  {
    match ty {
      case FixedSize(inner, size) => MoreUnfolding(defs, inner, bytes[..size], k);
      case SizePrefix(inner, prefix) =>
        var p := ReadNumber(prefix, bytes).value;
        MoreUnfolding(defs, inner, p.rest[..NumberValue(prefix, p.leaves[0])], k);
      case Optional(item, prefix, fixed) =>
        var p := ReadNumber(prefix, bytes).value;
        if fixed || NumberValue(prefix, p.leaves[0]) != 0 { MoreUnfolding(defs, item, p.rest, k); }
      case FixedArray(item, count) => MoreUnfoldingMany(defs, item, count, bytes, k);
      case PrefixedArray(item, prefix) =>
        var p := ReadNumber(prefix, bytes).value;
        MoreUnfoldingMany(defs, item, NumberValue(prefix, p.leaves[0]), p.rest, k);
      case HiddenPrefix(constants, inner) =>
        MoreUnfoldingFields(defs, constants, bytes, k);
        MoreUnfolding(defs, inner, ParseFields(defs, constants, bytes, k).value.rest, k);
      case Struct(fields) => MoreUnfoldingFields(defs, fields, bytes, k);
      case Tuple(items) => MoreUnfoldingFields(defs, items, bytes, k);
      case Enum(variants, size) =>
        var p := ReadNumber(size, bytes).value;
        MoreUnfolding(defs, variants[NumberValue(size, p.leaves[0])].ty, p.rest, k);
      case Link(name) => MoreUnfolding(defs, defs[name], bytes, k - 1);
      case Number(_) =>
      case Boolean =>
      case PublicKey =>
      case Text =>
      case Bytes =>
    }
  }

  lemma {:induction false} MoreUnfoldingFields(defs: Defs, fields: seq<Field>, bytes: seq<Byte>, k: nat)
    requires ParseFields(defs, fields, bytes, k).Some?
    ensures ParseFields(defs, fields, bytes, k + 1) == ParseFields(defs, fields, bytes, k)
    decreases k, fields, 0
  {
    if fields != [] {
      MoreUnfoldingFields(defs, fields[..|fields| - 1], bytes, k);
      var before := ParseFields(defs, fields[..|fields| - 1], bytes, k).value;
      MoreUnfolding(defs, fields[|fields| - 1].ty, before.rest, k);
    }
  }

  lemma {:induction false} MoreUnfoldingMany(defs: Defs, item: Node, n: nat, bytes: seq<Byte>, k: nat)
    requires ParseMany(defs, item, n, bytes, k).Some?
    ensures ParseMany(defs, item, n, bytes, k + 1) == ParseMany(defs, item, n, bytes, k)
    decreases k, item, n
  {
    if n > 0 {
      MoreUnfoldingMany(defs, item, n - 1, bytes, k);
      MoreUnfolding(defs, item, ParseMany(defs, item, n - 1, bytes, k).value.rest, k);
    }
  }
}
