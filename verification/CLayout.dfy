/** Types of an IDL, the `repr(C)` layout they have, and the positions a back-to-back (Borsh) read gives them. */
module CLayout {
  // Definitions may refer to each other in cycles, so both meanings take the number of definitions
  // they may still unfold.

  import opened Basics

  const U64_MAX: nat := 0xFFFF_FFFF_FFFF_FFFF

  /** Leaf types by width; `Dynamic` stands for strings, byte vectors and unknown names. */
  datatype Prim = Byte1 | Byte2 | Byte4 | Byte8 | Byte16 | Pubkey | Dynamic

  /** `Wrap` is any other type form: it links to the types inside it but has no fixed layout. */
  datatype Ty =
    | Leaf(prim: Prim)
    | Array(item: Ty, len: Option<nat>)
    | Defined(name: string, args: seq<Ty>)
    | Wrap(parts: seq<Ty>)

  datatype Repr = ReprRust | ReprTransparent | ReprC(packed: bool, align: Option<nat>)

  /** `Padding` is the `[u8; len]` field the pass inserts; `Bare` is a tuple field. */
  datatype Field = Named(name: string, ty: Ty) | Bare(ty: Ty) | Padding(len: nat)

  datatype Body = Struct(fields: seq<Field>) | Alias(target: Ty) | Enum(payloads: seq<Ty>)

  datatype Serialization = Borsh | Bytemuck | BytemuckUnsafe | OtherSerialization

  datatype TypeDef = TypeDef(name: string, generic: bool, serialization: Serialization,
                             repr: Option<Repr>, body: Option<Body>)
  {
    predicate IsEnum() { body.Some? && body.value.Enum? }

    predicate IsAlias() { !generic && body.Some? && body.value.Alias? }
  }

  type Defs = map<string, TypeDef>

  // ---- The C representation ----

  datatype Shape = Shape(size: nat, align: nat)

  /** `pads[i]` is the gap before field `i`, `tail` the gap after the last one. */
  datatype Layout = Layout(shape: Shape, pads: seq<nat>, tail: nat)

  function PrimShape(p: Prim): (r: Option<Shape>)
    ensures r.Some? ==> r.value.align > 0 && r.value.size % r.value.align == 0
  {
    match p
    case Byte1 => Some(Shape(1, 1))
    case Byte2 => Some(Shape(2, 2))
    case Byte4 => Some(Shape(4, 4))
    case Byte8 => Some(Shape(8, 8))
    case Byte16 => Some(Shape(16, 8))
    case Pubkey => Some(Shape(32, 1))
    case Dynamic => None
  }

  /** The least multiple of `a` that is at least `x`. */
  function AlignUp(x: nat, a: nat): nat
    requires a > 0
  {
    (x + a - 1) / a * a
  }

  lemma AlignUpIsLeast(x: nat, a: nat, m: nat)
    requires a > 0
    ensures AlignUp(x, a) % a == 0 && x <= AlignUp(x, a) < x + a
    ensures m % a == 0 && x <= m ==> AlignUp(x, a) <= m
  {
    var q := (x + a - 1) / a;
    DivMod(x + a - 1, a);
    MultipleOf(q, a);
    if m % a == 0 && x <= m {
      DivMod(m, a);
      var j := m / a;
      if j < q { MulLess(j, q, a); } else { MulLess(q, j + 1, a); }
    }
  }

  lemma DivMod(x: nat, a: nat)
    requires a > 0
    ensures x == (x / a) * a + x % a && 0 <= x % a < a
  {
  }

  lemma MulLess(i: nat, j: nat, a: nat)
    requires i < j
    ensures i * a + a <= j * a
  {
    assert j * a == i * a + (j - i) * a;
    assert (j - i) * a == (j - i - 1) * a + a;
  }

  lemma MultipleOf(q: nat, a: nat)
    requires a > 0
    ensures (q * a) % a == 0
  {
    var x := q * a;
    DivMod(x, a);
    var j, r := x / a, x % a;
    if j < q { MulLess(j, q, a); }
    if q < j { MulLess(q, j, a); }
  }

  lemma MultipleTimes(i: nat, s: nat, a: nat)
    requires a > 0 && s % a == 0
    ensures (i * s) % a == 0
  {
    DivMod(s, a);
    var q := s / a;
    assert i * (q * a) == (i * q) * a;
    MultipleOf(i * q, a);
  }

  function FieldAlign(s: Shape, packed: bool): nat { if packed || s.align == 0 then 1 else s.align }

  /** Where field `i` starts: the end of the field before it, aligned up. */
  function Offset(shapes: seq<Shape>, packed: bool, i: nat): nat
    requires i < |shapes|
    decreases i, 1
  {
    AlignUp(End(shapes, packed, i), FieldAlign(shapes[i], packed))
  }

  /** Where the fields before `i` end. */
  function End(shapes: seq<Shape>, packed: bool, i: nat): nat
    requires i <= |shapes|
    decreases i, 0
  {
    if i == 0 then 0 else Offset(shapes, packed, i - 1) + shapes[i - 1].size
  }

  function Widest(shapes: seq<Shape>, packed: bool, i: nat): (w: nat)
    requires i <= |shapes|
    ensures w > 0
  {
    if i == 0 then 1 else
      var w := Widest(shapes, packed, i - 1);
      if FieldAlign(shapes[i - 1], packed) > w then FieldAlign(shapes[i - 1], packed) else w
  }

  predicate PowerOfTwo(n: nat) { n == 1 || (n > 1 && n % 2 == 0 && PowerOfTwo(n / 2)) }

  predicate ExplicitOk(align: Option<nat>) {
    align.None? || (PowerOfTwo(align.value) && align.value <= 0x2000_0000)
  }

  function StructAlign(shapes: seq<Shape>, packed: bool, align: Option<nat>): (a: nat)
    ensures a > 0
  {
    var w := Widest(shapes, packed, |shapes|);
    if align.Some? && align.value > w then align.value else w
  }

  function StructSize(shapes: seq<Shape>, packed: bool, align: Option<nat>): nat {
    AlignUp(End(shapes, packed, |shapes|), StructAlign(shapes, packed, align))
  }

  lemma GapsAreNatural(shapes: seq<Shape>, packed: bool, i: nat)
    requires i < |shapes|
    ensures End(shapes, packed, i) <= Offset(shapes, packed, i)
  {
    AlignUpIsLeast(End(shapes, packed, i), FieldAlign(shapes[i], packed), 0);
  }

  function Gap(shapes: seq<Shape>, packed: bool, i: nat): nat
    requires i < |shapes|
  {
    GapsAreNatural(shapes, packed, i);
    Offset(shapes, packed, i) - End(shapes, packed, i)
  }

  function LayoutC(shapes: seq<Shape>, packed: bool, align: Option<nat>): (l: Layout)
    ensures |l.pads| == |shapes|
  {
    var end := End(shapes, packed, |shapes|);
    AlignUpIsLeast(end, StructAlign(shapes, packed, align), 0);
    Layout(Shape(StructSize(shapes, packed, align), StructAlign(shapes, packed, align)),
           seq(|shapes|, i requires 0 <= i < |shapes| => Gap(shapes, packed, i)),
           StructSize(shapes, packed, align) - end)
  }

  function NonZero(shapes: seq<Shape>): seq<Shape> {
    if shapes == [] then [] else (if shapes[0].size != 0 then [shapes[0]] else []) + NonZero(shapes[1..])
  }

  /** A transparent struct is its one field of non-zero size; the others must not add alignment. */
  function LayoutTransparent(shapes: seq<Shape>): (l: Option<Layout>)
    ensures l.Some? ==> |l.value.pads| == |shapes|
  {
    if (exists i :: 0 <= i < |shapes| && shapes[i].size == 0 && shapes[i].align != 1) || |NonZero(shapes)| != 1
    then None
    else Some(Layout(NonZero(shapes)[0], seq(|shapes|, _ => 0), 0))
  }

  /** The layout of a struct from its representation and its fields' shapes, if it fits in 64 bits. */
  function LayoutOf(repr: Repr, shapes: seq<Shape>): (l: Option<Layout>)
    ensures l.Some? ==> |l.value.pads| == |shapes|
  {
    match repr
    case ReprRust => None
    case ReprTransparent => LayoutTransparent(shapes)
    case ReprC(packed, align) =>
      if ExplicitOk(align) && StructSize(shapes, packed, align) <= U64_MAX
      then Some(LayoutC(shapes, packed, align)) else None
  }

  /** A tuple field has a usable layout only in a transparent struct. */
  predicate Readable(f: Field, repr: Repr) { f.Named? || (f.Bare? && repr.ReprTransparent?) }

  // ---- Meanings ----

  function CShape(defs: Defs, ty: Ty, k: nat): Option<Shape>
    decreases k, 0, ty
  {
    match ty
    case Leaf(p) => PrimShape(p)
    case Array(item, len) =>
      var s := CShape(defs, item, k);
      if s.None? || len.None? || len.value * s.value.size > U64_MAX then None
      else Some(Shape(len.value * s.value.size, s.value.align))
    case Defined(name, _) =>
      if k == 0 || name !in defs || defs[name].generic || defs[name].body.None? then None
      else CBodyShape(defs, defs[name], k - 1)
    case Wrap(_) => None
  }

  function CBodyShape(defs: Defs, def: TypeDef, k: nat): Option<Shape>
    requires def.body.Some?
    decreases k, 2
  {
    match def.body.value
    case Alias(target) => CShape(defs, target, k)
    case Struct(fields) =>
      if def.repr.None? then None else
        var shapes := CShapes(defs, fields, def.repr.value, |fields|, k);
        if shapes.None? then None else
          var l := LayoutOf(def.repr.value, shapes.value);
          if l.None? then None else Some(l.value.shape)
    case Enum(_) => None
  }

  /** The shapes of the first `n` fields. */
  function CShapes(defs: Defs, fields: seq<Field>, repr: Repr, n: nat, k: nat): (r: Option<seq<Shape>>)
    requires n <= |fields|
    ensures r.Some? ==> |r.value| == n
    decreases k, 1, n
  {
    if n == 0 then Some([])
    else if !Readable(fields[n - 1], repr) then None
    else
      var before := CShapes(defs, fields, repr, n - 1, k);
      var s := CShape(defs, fields[n - 1].ty, k);
      if before.None? || s.None? then None else Some(before.value + [s.value])
  }

  datatype Spot = Spot(at: nat, prim: Prim)

  /** Where field `i` lies: its C offset, or its packed place in a transparent struct. */
  function Place(repr: Repr, shapes: seq<Shape>, i: nat): nat
    requires i < |shapes|
  {
    if repr.ReprC? then Offset(shapes, repr.packed, i) else SizesBefore(shapes, i)
  }

  function Places(repr: Repr, shapes: seq<Shape>): (r: seq<nat>)
    ensures |r| == |shapes|
  {
    seq(|shapes|, i requires 0 <= i < |shapes| => Place(repr, shapes, i))
  }

  function SizesBefore(shapes: seq<Shape>, i: nat): nat
    requires i <= |shapes|
  {
    if i == 0 then 0 else SizesBefore(shapes, i - 1) + shapes[i - 1].size
  }

  /** The primitives of a value at address `base`, with their C addresses. */
  function CSpots(defs: Defs, ty: Ty, base: nat, k: nat): seq<Spot>
    requires CShape(defs, ty, k).Some?
    decreases k, 0, ty, 0
  {
    match ty
    case Leaf(p) => [Spot(base, p)]
    case Array(item, len) => CItems(defs, item, len.value, base, k)
    case Defined(name, _) =>
      assert CBodyShape(defs, defs[name], k - 1).Some?;
      match defs[name].body.value
      case Alias(target) => CSpots(defs, target, base, k - 1)
      case Struct(fields) =>
        var repr := defs[name].repr.value;
        var shapes := CShapes(defs, fields, repr, |fields|, k - 1).value;
        CFields(defs, fields, repr, Places(repr, shapes), |fields|, base, k - 1)
      case Enum(_) => []
  }

  function CItems(defs: Defs, item: Ty, n: nat, base: nat, k: nat): seq<Spot>
    requires CShape(defs, item, k).Some?
    decreases k, 0, item, n + 1
  {
    if n == 0 then [] else
      CItems(defs, item, n - 1, base, k)
      + CSpots(defs, item, base + (n - 1) * CShape(defs, item, k).value.size, k)
  }

  function CFields(defs: Defs, fields: seq<Field>, repr: Repr, places: seq<nat>, n: nat, base: nat, k: nat): seq<Spot>
    requires n <= |places| == |fields| && CShapes(defs, fields, repr, n, k).Some?
    decreases k, 1, n
  {
    if n == 0 then [] else
      CFields(defs, fields, repr, places, n - 1, base, k)
      + CSpots(defs, fields[n - 1].ty, base + places[n - 1], k)
  }

  datatype Read = Read(spots: seq<Spot>, end: nat)

  /** A back-to-back read from `base`: what it reads, where, and where it stops. */
  function Packed(defs: Defs, ty: Ty, base: nat, k: nat): Option<Read>
    decreases k, 0, ty, 0
  {
    match ty
    case Leaf(p) =>
      if PrimShape(p).None? then None else Some(Read([Spot(base, p)], base + PrimShape(p).value.size))
    case Array(item, len) => if len.None? then None else PackedItems(defs, item, len.value, base, k)
    case Defined(name, _) =>
      if k == 0 || name !in defs || defs[name].generic || defs[name].body.None? then None else
        (match defs[name].body.value
         case Alias(target) => Packed(defs, target, base, k - 1)
         case Struct(fields) => PackedFields(defs, fields, base, k - 1)
         case Enum(_) => None)
    case Wrap(_) => None
  }

  function PackedItems(defs: Defs, item: Ty, n: nat, base: nat, k: nat): Option<Read>
    decreases k, 0, item, n + 1
  {
    if n == 0 then Some(Read([], base)) else
      var before := PackedItems(defs, item, n - 1, base, k);
      if before.None? then None else
        var last := Packed(defs, item, before.value.end, k);
        if last.None? then None else Some(Read(before.value.spots + last.value.spots, last.value.end))
  }

  function PackedFields(defs: Defs, fields: seq<Field>, base: nat, k: nat): Option<Read>
    decreases k, 1, |fields|
  {
    if fields == [] then Some(Read([], base)) else
      var n := |fields| - 1;
      var before := PackedFields(defs, fields[..n], base, k);
      if before.None? then None
      else if fields[n].Padding? then Some(Read(before.value.spots, before.value.end + fields[n].len))
      else
        var last := Packed(defs, fields[n].ty, before.value.end, k);
        if last.None? then None else Some(Read(before.value.spots + last.value.spots, last.value.end))
  }

  // ---- Unfolding more changes nothing that is settled ----

  lemma {:induction false} ShapeMonotone(defs: Defs, ty: Ty, k: nat, j: nat)
    requires k <= j && CShape(defs, ty, k).Some?
    ensures CShape(defs, ty, j) == CShape(defs, ty, k)
    decreases k, 0, ty
  {
    match ty
    case Leaf(_) =>
    case Array(item, _) => ShapeMonotone(defs, item, k, j);
    case Defined(name, _) =>
      match defs[name].body.value {
        case Alias(target) => ShapeMonotone(defs, target, k - 1, j - 1);
        case Struct(fields) => ShapesMonotone(defs, fields, defs[name].repr.value, |fields|, k - 1, j - 1);
      }
  }

  lemma {:induction false} ShapesMonotone(defs: Defs, fields: seq<Field>, repr: Repr, n: nat, k: nat, j: nat)
    requires k <= j && n <= |fields| && CShapes(defs, fields, repr, n, k).Some?
    ensures CShapes(defs, fields, repr, n, j) == CShapes(defs, fields, repr, n, k)
    decreases k, 1, n
  {
    if n > 0 {
      ShapesMonotone(defs, fields, repr, n - 1, k, j);
      ShapeMonotone(defs, fields[n - 1].ty, k, j);
    }
  }

  lemma ShapesAgree(defs: Defs, ty: Ty, k: nat, j: nat)
    requires CShape(defs, ty, k).Some? && CShape(defs, ty, j).Some?
    ensures CShape(defs, ty, k) == CShape(defs, ty, j)
  {
    if k <= j { ShapeMonotone(defs, ty, k, j); } else { ShapeMonotone(defs, ty, j, k); }
  }

  // ---- Sizes are multiples of alignments ----

  predicate Sound(s: Shape) { s.align > 0 && s.size % s.align == 0 }

  lemma {:induction false} NonZeroFrom(shapes: seq<Shape>)
    ensures forall s :: s in NonZero(shapes) ==> s in shapes
  {
    if shapes != [] { NonZeroFrom(shapes[1..]); }
  }

  lemma LayoutIsSound(repr: Repr, shapes: seq<Shape>)
    requires LayoutOf(repr, shapes).Some? && forall s :: s in shapes ==> Sound(s)
    ensures Sound(LayoutOf(repr, shapes).value.shape)
  {
    NonZeroFrom(shapes);
    if repr.ReprC? {
      AlignUpIsLeast(End(shapes, repr.packed, |shapes|), StructAlign(shapes, repr.packed, repr.align), 0);
    } else {
      assert NonZero(shapes)[0] in NonZero(shapes);
    }
  }

  /** Every C size is a multiple of its alignment. */
  lemma {:induction false} ShapeIsSound(defs: Defs, ty: Ty, k: nat)
    requires CShape(defs, ty, k).Some?
    ensures Sound(CShape(defs, ty, k).value)
    decreases k, 0, ty
  {
    match ty {
      case Leaf(_) =>
      case Array(item, len) =>
        ShapeIsSound(defs, item, k);
        var s := CShape(defs, item, k).value;
        MultipleTimes(len.value, s.size, s.align);
      case Defined(name, _) =>
        match defs[name].body.value {
          case Alias(target) => ShapeIsSound(defs, target, k - 1);
          case Struct(fields) =>
            var repr := defs[name].repr.value;
            ShapesAreSound(defs, fields, repr, |fields|, k - 1);
            LayoutIsSound(repr, CShapes(defs, fields, repr, |fields|, k - 1).value);
        }
    }
  }

  lemma {:induction false} ShapesAreSound(defs: Defs, fields: seq<Field>, repr: Repr, n: nat, k: nat)
    requires n <= |fields| && CShapes(defs, fields, repr, n, k).Some?
    ensures forall s :: s in CShapes(defs, fields, repr, n, k).value ==> Sound(s)
    decreases k, 1, n
  {
    if n > 0 {
      ShapesAreSound(defs, fields, repr, n - 1, k);
      ShapeIsSound(defs, fields[n - 1].ty, k);
    }
  }

  /** So the items of an array, one size apart, stay aligned. */
  lemma ArrayItemsAligned(defs: Defs, item: Ty, base: nat, i: nat, k: nat)
    requires CShape(defs, item, k).Some? && CShape(defs, item, k).value.align > 0
    requires base % CShape(defs, item, k).value.align == 0
    ensures (base + i * CShape(defs, item, k).value.size) % CShape(defs, item, k).value.align == 0
  {
    ShapeIsSound(defs, item, k);
    StepsStayAligned(base, i, CShape(defs, item, k).value.size, CShape(defs, item, k).value.align);
  }

  lemma StepsStayAligned(base: nat, i: nat, size: nat, align: nat)
    requires align > 0 && base % align == 0 && size % align == 0
    ensures (base + i * size) % align == 0
  {
    MultipleTimes(i, size, align);
    SumOfMultiples(base, i * size, align);
  }

  lemma SumOfMultiples(x: nat, y: nat, a: nat)
    requires a > 0 && x % a == 0 && y % a == 0
    ensures (x + y) % a == 0
  {
    DivMod(x, a);
    DivMod(y, a);
    var i, j := x / a, y / a;
    assert (i + j) * a == i * a + j * a;
    MultipleOf(i + j, a);
  }
}
