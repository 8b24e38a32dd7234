/** What the C layout is for: every primitive lies at an address that is a multiple of its alignment. */
module CAligned {
  import opened Basics
  import opened CLayout
  import opened CStructs

  // ---- Alignments are powers of two ----

  predicate Divides(a: nat, b: nat)
    requires a > 0
  {
    b % a == 0
  }

  lemma {:induction false} PowerDivides(d: nat, e: nat)
    requires d <= e
    ensures Pow2(d) > 0 && Divides(Pow2(d), Pow2(e))
  {
    PowIsPositive(d);
    if d < e {
      PowerDivides(d, e - 1);
      MultipleTimes(2, Pow2(e - 1), Pow2(d));
    } else {
      MultipleOf(1, Pow2(d));
    }
  }

  /** Of two powers of two the larger is a multiple of the smaller. */
  lemma SmallerDivides(a: nat, b: nat)
    requires PowerOfTwo(a) && PowerOfTwo(b) && a <= b
    ensures a > 0 && Divides(a, b)
  {
    var d := PowersOfTwo(a);
    var e := PowersOfTwo(b);
    if e < d { PowsAscend(e, d); }
    PowerDivides(d, e);
  }

  predicate AllPowers(shapes: seq<Shape>) { forall i :: 0 <= i < |shapes| ==> PowerOfTwo(shapes[i].align) }

  lemma {:induction false} WidestIsPower(shapes: seq<Shape>, packed: bool, n: nat)
    requires n <= |shapes| && AllPowers(shapes)
    ensures PowerOfTwo(Widest(shapes, packed, n))
  {
    if n > 0 { WidestIsPower(shapes, packed, n - 1); }
  }

  lemma LayoutIsPower(repr: Repr, shapes: seq<Shape>)
    requires AllPowers(shapes) && LayoutOf(repr, shapes).Some?
    ensures PowerOfTwo(LayoutOf(repr, shapes).value.shape.align)
  {
    if repr.ReprC? {
      WidestIsPower(shapes, repr.packed, |shapes|);
    } else {
      NonZeroFrom(shapes);
      assert NonZero(shapes)[0] in NonZero(shapes);
    }
  }

  lemma {:induction false} AlignIsPower(defs: Defs, ty: Ty, k: nat)
    requires CShape(defs, ty, k).Some?
    ensures PowerOfTwo(CShape(defs, ty, k).value.align)
    decreases k, 0, ty
  {
    match ty
    case Leaf(p) => assert PowerOfTwo(2) && PowerOfTwo(4) && PowerOfTwo(8);
    case Array(item, _) => AlignIsPower(defs, item, k);
    case Defined(name, _) => {
      match defs[name].body.value
      case Alias(target) => AlignIsPower(defs, target, k - 1);
      case Struct(fields) =>
        var repr := defs[name].repr.value;
        AlignsArePowers(defs, fields, repr, |fields|, k - 1);
        LayoutIsPower(repr, CShapes(defs, fields, repr, |fields|, k - 1).value);
    }
  }

  lemma {:induction false} AlignsArePowers(defs: Defs, fields: seq<Field>, repr: Repr, n: nat, k: nat)
    requires n <= |fields| && CShapes(defs, fields, repr, n, k).Some?
    ensures AllPowers(CShapes(defs, fields, repr, n, k).value)
    decreases k, 1, n
  {
    if n > 0 {
      AlignsArePowers(defs, fields, repr, n - 1, k);
      AlignIsPower(defs, fields[n - 1].ty, k);
    }
  }

  // ---- Every primitive is aligned ----

  predicate NonePacked(defs: Defs) {
    forall n :: n in defs && defs[n].repr.Some? && defs[n].repr.value.ReprC? ==> !defs[n].repr.value.packed
  }

  predicate Aligned(spots: seq<Spot>) {
    forall s :: s in spots ==> PrimShape(s.prim).Some? && s.at % PrimShape(s.prim).value.align == 0
  }

  predicate StartsAligned(base: nat, s: Shape) { s.align > 0 && base % s.align == 0 }

  /** The address of field `n` of a struct is aligned where the struct is. */
  lemma FieldStartsAligned(repr: Repr, shapes: seq<Shape>, i: nat, base: nat)
    requires LayoutOf(repr, shapes).Some? && i < |shapes| && (repr.ReprC? ==> !repr.packed)
    requires AllPowers(shapes) && StartsAligned(base, LayoutOf(repr, shapes).value.shape)
    ensures StartsAligned(base + Place(repr, shapes, i), shapes[i])
  {
    var a := shapes[i].align;
    SmallerDivides(a, a);
    if repr.ReprC? {
      StructFieldAligned(repr, shapes, i, base);
    } else {
      TransparentFieldAligned(shapes, i, base);
    }
  }

  lemma StructFieldAligned(repr: Repr, shapes: seq<Shape>, i: nat, base: nat)
    requires repr.ReprC? && !repr.packed && LayoutOf(repr, shapes).Some? && i < |shapes|
    requires AllPowers(shapes) && StartsAligned(base, LayoutOf(repr, shapes).value.shape) && shapes[i].align > 0
    ensures StartsAligned(base + Place(repr, shapes, i), shapes[i])
  {
    var a, whole := shapes[i].align, StructAlign(shapes, false, repr.align);
    LayoutIsPower(repr, shapes);
    WidestCovers(shapes, i, |shapes|);
    SmallerDivides(a, whole);
    DivideOn(a, whole, base);
    AlignUpIsLeast(End(shapes, false, i), a, 0);
    assert Place(repr, shapes, i) == AlignUp(End(shapes, false, i), a);
    SumOfMultiples(base, Place(repr, shapes, i), a);
  }

  lemma {:induction false} WidestCovers(shapes: seq<Shape>, i: nat, n: nat)
    requires i < n <= |shapes|
    ensures Widest(shapes, false, n) >= shapes[i].align
  {
    if i < n - 1 { WidestCovers(shapes, i, n - 1); }
  }

  lemma DivideOn(a: nat, b: nat, x: nat)
    requires a > 0 && b > 0 && b % a == 0 && x % b == 0
    ensures x % a == 0
  {
    DivMod(x, b);
    MultipleTimes(x / b, b, a);
  }

  lemma TransparentFieldAligned(shapes: seq<Shape>, i: nat, base: nat)
    requires LayoutTransparent(shapes).Some? && i < |shapes| && shapes[i].align > 0
    requires StartsAligned(base, LayoutTransparent(shapes).value.shape)
    ensures StartsAligned(base + SizesBefore(shapes, i), shapes[i])
  {
    TransparentIsItsCarrier(shapes);
    var c: nat :| Carries(shapes, c);
    if i == c { NothingBefore(shapes, c, i); }
  }

  lemma {:induction false} NothingBefore(shapes: seq<Shape>, c: nat, i: nat)
    requires Carries(shapes, c) && i <= c
    ensures SizesBefore(shapes, i) == 0
  {
    if i > 0 { NothingBefore(shapes, c, i - 1); }
  }

  /**
   * Without packed structs, every primitive of a value that starts aligned is at a multiple of its own
   * alignment, through nested structs, aliases and arrays.
   */
  lemma {:induction false} PrimitivesAreAligned(defs: Defs, ty: Ty, base: nat, k: nat)
    requires NonePacked(defs) && CShape(defs, ty, k).Some? && StartsAligned(base, CShape(defs, ty, k).value)
    ensures Aligned(CSpots(defs, ty, base, k))
    decreases k, 0, ty, 0
  {
    match ty
    case Leaf(_) =>
    case Array(item, len) => ItemsAreAligned(defs, item, len.value, base, k);
    case Defined(name, _) => {
      assert CBodyShape(defs, defs[name], k - 1).Some?;
      match defs[name].body.value
      case Alias(target) => PrimitivesAreAligned(defs, target, base, k - 1);
      case Struct(fields) =>
        var repr := defs[name].repr.value;
        FieldsAreAligned(defs, fields, repr, |fields|, base, k - 1);
    }
  }

  lemma {:induction false} ItemsAreAligned(defs: Defs, item: Ty, n: nat, base: nat, k: nat)
    requires NonePacked(defs) && CShape(defs, item, k).Some? && StartsAligned(base, CShape(defs, item, k).value)
    ensures Aligned(CItems(defs, item, n, base, k))
    decreases k, 0, item, n + 1
  {
    if n > 0 {
      ItemsAreAligned(defs, item, n - 1, base, k);
      ArrayItemsAligned(defs, item, base, n - 1, k);
      PrimitivesAreAligned(defs, item, base + (n - 1) * CShape(defs, item, k).value.size, k);
    }
  }

  lemma FieldIsAligned(defs: Defs, fields: seq<Field>, repr: Repr, i: nat, base: nat, k: nat)
    requires i < |fields| && (repr.ReprC? ==> !repr.packed) && CShapes(defs, fields, repr, |fields|, k).Some?
    requires LayoutOf(repr, CShapes(defs, fields, repr, |fields|, k).value).Some?
    requires StartsAligned(base, LayoutOf(repr, CShapes(defs, fields, repr, |fields|, k).value).value.shape)
    ensures !fields[i].Padding? && CShape(defs, fields[i].ty, k).Some?
    ensures var shapes := CShapes(defs, fields, repr, |fields|, k).value;
            StartsAligned(base + Places(repr, shapes)[i], CShape(defs, fields[i].ty, k).value)
  {
    AlignsArePowers(defs, fields, repr, |fields|, k);
    ShapesPrefix(defs, fields, repr, i + 1, k);
    FieldStartsAligned(repr, CShapes(defs, fields, repr, |fields|, k).value, i, base);
  }

  lemma {:induction false} FieldsAreAligned(defs: Defs, fields: seq<Field>, repr: Repr, n: nat, base: nat, k: nat)
    requires NonePacked(defs) && n <= |fields| && (repr.ReprC? ==> !repr.packed)
    requires CShapes(defs, fields, repr, |fields|, k).Some?
    requires LayoutOf(repr, CShapes(defs, fields, repr, |fields|, k).value).Some?
    requires StartsAligned(base, LayoutOf(repr, CShapes(defs, fields, repr, |fields|, k).value).value.shape)
    ensures CShapes(defs, fields, repr, n, k).Some?
    ensures var shapes := CShapes(defs, fields, repr, |fields|, k).value;
            Aligned(CFields(defs, fields, repr, Places(repr, shapes), n, base, k))
    decreases k, 1, n
  {
    ShapesPrefix(defs, fields, repr, n, k);
    if n > 0 {
      FieldsAreAligned(defs, fields, repr, n - 1, base, k);
      LastFieldAligned(defs, fields, repr, n, base, k);
    }
  }

  /** With the fields before it aligned, so is field `n - 1`. */
  lemma {:induction false} LastFieldAligned(defs: Defs, fields: seq<Field>, repr: Repr, n: nat, base: nat, k: nat)
    requires NonePacked(defs) && 0 < n <= |fields| && (repr.ReprC? ==> !repr.packed)
    requires CShapes(defs, fields, repr, |fields|, k).Some? && CShapes(defs, fields, repr, n, k).Some?
    requires LayoutOf(repr, CShapes(defs, fields, repr, |fields|, k).value).Some?
    requires StartsAligned(base, LayoutOf(repr, CShapes(defs, fields, repr, |fields|, k).value).value.shape)
    requires Aligned(CFields(defs, fields, repr, Places(repr, CShapes(defs, fields, repr, |fields|, k).value), n - 1, base, k))
    ensures Aligned(CFields(defs, fields, repr, Places(repr, CShapes(defs, fields, repr, |fields|, k).value), n, base, k))
    decreases k, 0, fields[n - 1], 1
  {
    var places := Places(repr, CShapes(defs, fields, repr, |fields|, k).value);
    FieldIsAligned(defs, fields, repr, n - 1, base, k);
    PrimitivesAreAligned(defs, fields[n - 1].ty, base + places[n - 1], k);
    assert CFields(defs, fields, repr, places, n, base, k)
        == CFields(defs, fields, repr, places, n - 1, base, k) + CSpots(defs, fields[n - 1].ty, base + places[n - 1], k);
  }

  lemma {:induction false} ShapesPrefix(defs: Defs, fields: seq<Field>, repr: Repr, n: nat, k: nat)
    requires n <= |fields| && CShapes(defs, fields, repr, |fields|, k).Some?
    ensures CShapes(defs, fields, repr, n, k) == Some(CShapes(defs, fields, repr, |fields|, k).value[..n])
    ensures n > 0 ==> CShape(defs, fields[n - 1].ty, k) == Some(CShapes(defs, fields, repr, |fields|, k).value[n - 1])
    decreases |fields| - n
  {
    var whole := CShapes(defs, fields, repr, |fields|, k).value;
    if n < |fields| {
      ShapesPrefix(defs, fields, repr, n + 1, k);
      assert whole[..n + 1][..n] == whole[..n];
      assert CShapes(defs, fields, repr, n, k).value == CShapes(defs, fields, repr, n + 1, k).value[..n];
    } else {
      assert whole[..n] == whole;
    }
  }
}
