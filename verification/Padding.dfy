/** Padding preserves meaning. */
module PaddingMeaning {
  // With the padding fields put in, a back-to-back read finds every primitive at its C address and
  // stops after exactly the C size.

  import opened Basics
  import opened CLayout

  /** The first `n` fields, each behind its padding. */
  function Interleave(fields: seq<Field>, pads: seq<nat>, n: nat): seq<Field>
    requires n <= |fields| == |pads|
  {
    if n == 0 then [] else
      Interleave(fields, pads, n - 1)
      + (if pads[n - 1] > 0 then [Padding(pads[n - 1])] else []) + [fields[n - 1]]
  }

  function PaddedBy(fields: seq<Field>, l: Layout): seq<Field>
    requires |l.pads| == |fields|
  {
    Interleave(fields, l.pads, |fields|) + if l.tail > 0 then [Padding(l.tail)] else []
  }

  lemma {:induction false} NoPadding(fields: seq<Field>, pads: seq<nat>, n: nat)
    requires n <= |fields| == |pads| && forall i :: 0 <= i < n ==> pads[i] == 0
    ensures Interleave(fields, pads, n) == fields[..n]
  {
    if n > 0 { NoPadding(fields, pads, n - 1); }
  }

  // ---- Links a layout goes through ----

  function Links(ty: Ty): set<string> {
    match ty
    case Leaf(_) => {}
    case Array(item, _) => Links(item)
    case Defined(name, _) => {name}
    case Wrap(_) => {}
  }

  function FieldLinks(fields: seq<Field>): set<string> {
    if fields == [] then {} else
      FieldLinks(fields[..|fields| - 1])
      + if fields[|fields| - 1].Padding? then {} else Links(fields[|fields| - 1].ty)
  }

  function DefLinks(def: TypeDef): set<string> {
    if def.body.None? || def.body.value.Enum? then {}
    else if def.body.value.Struct? then FieldLinks(def.body.value.fields)
    else Links(def.body.value.target)
  }

  ghost predicate Closed(defs: Defs, names: set<string>) {
    forall n :: n in names && n in defs ==> DefLinks(defs[n]) <= names
  }

  function AllShapes(defs: Defs, fields: seq<Field>, repr: Repr, k: nat): (r: Option<seq<Shape>>)
    ensures r.Some? ==> |r.value| == |fields|
  {
    CShapes(defs, fields, repr, |fields|, k)
  }

  /** A definition changes only by taking the padding of its layout, where it has one. */
  ghost predicate RewrittenDef(defs: Defs, def: TypeDef, def': TypeDef) {
    && def' == def.(body := def'.body)
    && (!(def.body.Some? && def.body.value.Struct?) ==> def' == def)
    && (def.body.Some? && def.body.value.Struct? && def.repr.Some? ==>
          forall k {:trigger AllShapes(defs, def.body.value.fields, def.repr.value, k)} ::
            var shapes := AllShapes(defs, def.body.value.fields, def.repr.value, k);
            shapes.Some? && LayoutOf(def.repr.value, shapes.value).Some? ==>
              def'.body == Some(Struct(PaddedBy(def.body.value.fields, LayoutOf(def.repr.value, shapes.value).value))))
  }

  ghost predicate Rewritten(defs: Defs, defs': Defs, names: set<string>) {
    forall n :: n in names && n in defs && !defs[n].generic ==> n in defs' && RewrittenDef(defs, defs[n], defs'[n])
  }

  // ---- The meaning ----

  function EndOf(repr: Repr, shapes: seq<Shape>, n: nat): nat
    requires n <= |shapes|
  {
    if repr.ReprC? then End(shapes, repr.packed, n) else SizesBefore(shapes, n)
  }

  lemma PadsReachPlaces(repr: Repr, shapes: seq<Shape>, n: nat)
    requires LayoutOf(repr, shapes).Some? && n < |shapes|
    ensures EndOf(repr, shapes, n) + LayoutOf(repr, shapes).value.pads[n] == Place(repr, shapes, n)
    ensures EndOf(repr, shapes, n + 1) == Place(repr, shapes, n) + shapes[n].size
  {
  }

  lemma {:induction false} TransparentSize(shapes: seq<Shape>)
    ensures |NonZero(shapes)| == 0 ==> SizesBefore(shapes, |shapes|) == 0
    ensures |NonZero(shapes)| == 1 ==> SizesBefore(shapes, |shapes|) == NonZero(shapes)[0].size
  {
    if shapes != [] {
      TransparentSize(shapes[1..]);
      SizesShift(shapes, |shapes| - 1);
    }
  }

  lemma {:induction false} SizesShift(shapes: seq<Shape>, n: nat)
    requires n < |shapes|
    ensures SizesBefore(shapes, n + 1) == shapes[0].size + SizesBefore(shapes[1..], n)
  {
    if n > 0 { SizesShift(shapes, n - 1); }
  }

  /** The tail padding brings the read to the C size. */
  lemma TailReachesSize(repr: Repr, shapes: seq<Shape>)
    requires LayoutOf(repr, shapes).Some?
    ensures var l := LayoutOf(repr, shapes).value; EndOf(repr, shapes, |shapes|) + l.tail == l.shape.size
  {
    if repr.ReprTransparent? { TransparentSize(shapes); }
  }

  lemma {:induction false} ShapeOfField(defs: Defs, fields: seq<Field>, repr: Repr, n: nat, k: nat, i: nat)
    requires i < n <= |fields| && CShapes(defs, fields, repr, n, k).Some?
    ensures Readable(fields[i], repr) && CShape(defs, fields[i].ty, k) == Some(CShapes(defs, fields, repr, n, k).value[i])
    ensures CShapes(defs, fields, repr, i, k).Some?
  {
    if i < n - 1 { ShapeOfField(defs, fields, repr, n - 1, k, i); }
  }

  lemma PackedOneMore(defs: Defs, fields: seq<Field>, f: Field, base: nat, k: nat)
    requires PackedFields(defs, fields, base, k).Some?
    ensures var r := PackedFields(defs, fields, base, k).value;
            PackedFields(defs, fields + [f], base, k) ==
            if f.Padding? then Some(Read(r.spots, r.end + f.len))
            else if Packed(defs, f.ty, r.end, k).None? then None
            else Some(Read(r.spots + Packed(defs, f.ty, r.end, k).value.spots, Packed(defs, f.ty, r.end, k).value.end))
  {
    assert (fields + [f])[..|fields|] == fields;
  }

  /** A field behind its padding. */
  lemma PackedPadded(defs: Defs, before: seq<Field>, pad: nat, f: Field, base: nat, k: nat, a: Read, b: Read)
    requires !f.Padding? && PackedFields(defs, before, base, k) == Some(a)
    requires Packed(defs, f.ty, a.end + pad, k) == Some(b)
    ensures PackedFields(defs, before + (if pad > 0 then [Padding(pad)] else []) + [f], base, k)
            == Some(Read(a.spots + b.spots, b.end))
  {
    PackedOneMore(defs, before, Padding(pad), base, k);
    var padded := before + if pad > 0 then [Padding(pad)] else [];
    assert pad == 0 ==> padded == before;
    PackedOneMore(defs, padded, f, base, k);
  }

  lemma {:induction false} FieldLinksOf(fields: seq<Field>, i: nat)
    requires i < |fields| && !fields[i].Padding?
    ensures Links(fields[i].ty) <= FieldLinks(fields)
    decreases |fields|
  {
    if i < |fields| - 1 { FieldLinksOf(fields[..|fields| - 1], i); }
  }

  /** A back-to-back read of `ty` is its C layout, wherever it starts. */
  ghost predicate ReadsAsC(defs: Defs, defs': Defs, ty: Ty, k: nat) {
    && CShape(defs, ty, k).Some?
    && forall base: nat :: Packed(defs', ty, base, k)
                           == Some(Read(CSpots(defs, ty, base, k), base + CShape(defs, ty, k).value.size))
  }

  /** Each gap reaches the field's place, and each field ends where the next gap starts. */
  ghost predicate Consecutive(pads: seq<nat>, places: seq<nat>, ends: seq<nat>, sizes: seq<nat>) {
    && |pads| == |places| == |sizes| && |ends| == |pads| + 1 && ends[0] == 0
    && forall i, j :: 0 <= i < |pads| && j == i + 1 ==> ends[i] + pads[i] == places[i] && ends[j] == places[i] + sizes[i]
  }

  lemma CFieldsLast(defs: Defs, fields: seq<Field>, repr: Repr, places: seq<nat>, m: nat, base: nat, k: nat)
    requires m < |places| == |fields| && CShapes(defs, fields, repr, m + 1, k).Some?
    ensures CFields(defs, fields, repr, places, m + 1, base, k)
            == CFields(defs, fields, repr, places, m, base, k) + CSpots(defs, fields[m].ty, base + places[m], k)
  {
  }

  lemma PaddedFieldStep(defs: Defs, fields: seq<Field>, pads: seq<nat>, m: nat, base: nat, k: nat, a: Read, b: Read)
    requires m < |fields| == |pads| && !fields[m].Padding?
    requires PackedFields(defs, Interleave(fields, pads, m), base, k) == Some(a)
    requires Packed(defs, fields[m].ty, a.end + pads[m], k) == Some(b)
    ensures PackedFields(defs, Interleave(fields, pads, m + 1), base, k) == Some(Read(a.spots + b.spots, b.end))
  {
    InterleaveLast(fields, pads, m);
    PackedPadded(defs, Interleave(fields, pads, m), pads[m], fields[m], base, k, a, b);
  }

  lemma ReadsAsCAt(defs: Defs, defs': Defs, ty: Ty, k: nat, base: nat)
    requires ReadsAsC(defs, defs', ty, k)
    ensures Packed(defs', ty, base, k) == Some(Read(CSpots(defs, ty, base, k), base + CShape(defs, ty, k).value.size))
  {
  }

  lemma InterleaveLast(fields: seq<Field>, pads: seq<nat>, m: nat)
    requires m < |fields| == |pads|
    ensures Interleave(fields, pads, m + 1)
            == Interleave(fields, pads, m) + (if pads[m] > 0 then [Padding(pads[m])] else []) + [fields[m]]
  {
  }

  ghost predicate FieldsReadAsC(defs: Defs, defs': Defs, fields: seq<Field>, sizes: seq<nat>, n: nat, k: nat)
    requires n <= |fields| == |sizes|
  {
    n == 0 ||
    (FieldsReadAsC(defs, defs', fields, sizes, n - 1, k)
     && FieldReadsAsC(defs, defs', fields[n - 1], sizes[n - 1], k))
  }

  ghost predicate FieldReadsAsC(defs: Defs, defs': Defs, f: Field, size: nat, k: nat) {
    !f.Padding? && ReadsAsC(defs, defs', f.ty, k) && CShape(defs, f.ty, k).value.size == size
  }

  /** Reading the padded fields back to back puts field after field at its place. */
  lemma {:induction false} PaddedFieldsRead(defs: Defs, defs': Defs, fields: seq<Field>, repr: Repr, pads: seq<nat>,
                                            places: seq<nat>, ends: seq<nat>, sizes: seq<nat>, base: nat, k: nat, n: nat)
    requires Consecutive(pads, places, ends, sizes) && n <= |fields| == |pads|
    requires CShapes(defs, fields, repr, n, k).Some? && FieldsReadAsC(defs, defs', fields, sizes, n, k)
    ensures PackedFields(defs', Interleave(fields, pads, n), base, k)
            == Some(Read(CFields(defs, fields, repr, places, n, base, k), base + ends[n]))
  {
    if n == 0 {
      assert Interleave(fields, pads, 0) == [];
    } else {
      var m := n - 1;
      PaddedFieldsRead(defs, defs', fields, repr, pads, places, ends, sizes, base, k, m);
      FieldAtItsPlace(defs, defs', fields, pads, places, ends, sizes, base, k, m, CFields(defs, fields, repr, places, m, base, k));
      CFieldsLast(defs, fields, repr, places, m, base, k);
    }
  }

  lemma FieldAtItsPlace(defs: Defs, defs': Defs, fields: seq<Field>, pads: seq<nat>, places: seq<nat>, ends: seq<nat>,
                        sizes: seq<nat>, base: nat, k: nat, m: nat, before: seq<Spot>)
    requires Consecutive(pads, places, ends, sizes) && m < |fields| == |pads|
    requires FieldReadsAsC(defs, defs', fields[m], sizes[m], k)
    requires PackedFields(defs', Interleave(fields, pads, m), base, k) == Some(Read(before, base + ends[m]))
    ensures PackedFields(defs', Interleave(fields, pads, m + 1), base, k)
            == Some(Read(before + CSpots(defs, fields[m].ty, base + places[m], k), base + ends[m + 1]))
  {
    var at := base + places[m];
    assert ends[m] + pads[m] == places[m] && ends[m + 1] == places[m] + sizes[m];
    ReadsAsCAt(defs, defs', fields[m].ty, k, at);
    PaddedFieldStep(defs', fields, pads, m, base, k, Read(before, base + ends[m]),
                    Read(CSpots(defs, fields[m].ty, at, k), at + sizes[m]));
  }

  function Ends(repr: Repr, shapes: seq<Shape>): (r: seq<nat>)
    ensures |r| == |shapes| + 1
  {
    seq(|shapes| + 1, i requires 0 <= i <= |shapes| => EndOf(repr, shapes, i))
  }

  function Sizes(shapes: seq<Shape>): (r: seq<nat>)
    ensures |r| == |shapes|
  {
    seq(|shapes|, i requires 0 <= i < |shapes| => shapes[i].size)
  }

  lemma LayoutIsConsecutive(repr: Repr, shapes: seq<Shape>)
    requires LayoutOf(repr, shapes).Some?
    ensures Consecutive(LayoutOf(repr, shapes).value.pads, Places(repr, shapes), Ends(repr, shapes), Sizes(shapes))
    ensures Ends(repr, shapes)[|shapes|] + LayoutOf(repr, shapes).value.tail == LayoutOf(repr, shapes).value.shape.size
  {
    TailReachesSize(repr, shapes);
    var pads := LayoutOf(repr, shapes).value.pads;
    forall i, j | 0 <= i < |pads| && j == i + 1
      ensures Ends(repr, shapes)[i] + pads[i] == Places(repr, shapes)[i]
              && Ends(repr, shapes)[j] == Places(repr, shapes)[i] + Sizes(shapes)[i]
    {
      PadsReachPlaces(repr, shapes, i);
    }
  }

  lemma {:induction false} ItemsReadAtCPlaces(defs: Defs, defs': Defs, names: set<string>, item: Ty, n: nat, base: nat, k: nat)
    requires Rewritten(defs, defs', names) && Closed(defs, names) && Links(item) <= names && CShape(defs, item, k).Some?
    ensures PackedItems(defs', item, n, base, k)
            == Some(Read(CItems(defs, item, n, base, k), base + n * CShape(defs, item, k).value.size))
    decreases k, 0, item, n + 1
  {
    if n > 0 {
      var size := CShape(defs, item, k).value.size;
      ItemsReadAtCPlaces(defs, defs', names, item, n - 1, base, k);
      ReadsAtCPlaces(defs, defs', names, item, base + (n - 1) * size, k);
      assert (n - 1) * size + size == n * size;
    }
  }

  /**
   * Whenever a type has a C layout, a back-to-back read of its rewritten definition, nested types
   * and arrays included, visits every primitive at its C address and ends after the C size.
   */
  lemma {:induction false} ReadsAtCPlaces(defs: Defs, defs': Defs, names: set<string>, ty: Ty, base: nat, k: nat)
    requires Rewritten(defs, defs', names) && Closed(defs, names) && Links(ty) <= names && CShape(defs, ty, k).Some?
    ensures Packed(defs', ty, base, k) == Some(Read(CSpots(defs, ty, base, k), base + CShape(defs, ty, k).value.size))
    decreases k, 0, ty, 0
  {
    match ty
    case Leaf(_) =>
    case Array(item, len) => ArrayReadsAtCPlaces(defs, defs', names, item, len, base, k);
    case Defined(name, args) => NamedReadsAtCPlaces(defs, defs', names, name, args, base, k);
  }

  lemma {:induction false} ArrayReadsAtCPlaces(defs: Defs, defs': Defs, names: set<string>, item: Ty, len: Option<nat>,
                                               base: nat, k: nat)
    requires Rewritten(defs, defs', names) && Closed(defs, names) && Links(item) <= names
    requires CShape(defs, Array(item, len), k).Some?
    ensures var ty := Array(item, len);
            Packed(defs', ty, base, k) == Some(Read(CSpots(defs, ty, base, k), base + CShape(defs, ty, k).value.size))
    decreases k, 0, Array(item, len), -1
  {
    ItemsReadAtCPlaces(defs, defs', names, item, len.value, base, k);
  }

  lemma {:induction false} NamedReadsAtCPlaces(defs: Defs, defs': Defs, names: set<string>, name: string, args: seq<Ty>,
                                               base: nat, k: nat)
    requires Rewritten(defs, defs', names) && Closed(defs, names) && name in names
    requires CShape(defs, Defined(name, args), k).Some?
    ensures var ty := Defined(name, args);
            Packed(defs', ty, base, k) == Some(Read(CSpots(defs, ty, base, k), base + CShape(defs, ty, k).value.size))
    decreases k - 1, 3
  {
    if defs[name].body.value.Alias? {
      AliasReadsAtCPlaces(defs, defs', names, name, args, base, k);
    } else {
      StructReadsAtCPlaces(defs, defs', names, name, base, k);
    }
  }

  lemma {:induction false} AliasReadsAtCPlaces(defs: Defs, defs': Defs, names: set<string>, name: string, args: seq<Ty>,
                                               base: nat, k: nat)
    requires Rewritten(defs, defs', names) && Closed(defs, names) && name in names
    requires var ty := Defined(name, args); CShape(defs, ty, k).Some? && defs[name].body.value.Alias?
    ensures var ty := Defined(name, args);
            Packed(defs', ty, base, k) == Some(Read(CSpots(defs, ty, base, k), base + CShape(defs, ty, k).value.size))
    decreases k - 1, 2
  {
    assert RewrittenDef(defs, defs[name], defs'[name]);
    ReadsAtCPlaces(defs, defs', names, defs[name].body.value.target, base, k - 1);
  }

  lemma {:induction false} StructReadsAtCPlaces(defs: Defs, defs': Defs, names: set<string>, name: string, base: nat, k: nat)
    requires Rewritten(defs, defs', names) && Closed(defs, names) && name in names && k > 0
    requires name in defs && !defs[name].generic && defs[name].body.Some? && defs[name].body.value.Struct?
    requires CBodyShape(defs, defs[name], k - 1).Some?
    ensures name in defs' && !defs'[name].generic && defs'[name].body.Some? && defs'[name].body.value.Struct?
    ensures var fields, repr := defs[name].body.value.fields, defs[name].repr.value;
            PackedFields(defs', defs'[name].body.value.fields, base, k - 1)
            == Some(Read(CFields(defs, fields, repr, Places(repr, AllShapes(defs, fields, repr, k - 1).value), |fields|, base, k - 1),
                         base + CBodyShape(defs, defs[name], k - 1).value.size))
    decreases k - 1, 2
  {
    var def := defs[name];
    var fields, repr := def.body.value.fields, def.repr.value;
    var shapes := AllShapes(defs, fields, repr, k - 1).value;
    assert RewrittenDef(defs, def, defs'[name]);
    assert FieldLinks(fields) <= names;
    AllFieldsReadAsC(defs, defs', names, fields, repr, shapes, k - 1, |fields|);
    PaddedStructRead(defs, defs', fields, repr, shapes, base, k - 1);
  }

  lemma {:induction false} AllFieldsReadAsC(defs: Defs, defs': Defs, names: set<string>, fields: seq<Field>, repr: Repr,
                                            shapes: seq<Shape>, k: nat, n: nat)
    requires Rewritten(defs, defs', names) && Closed(defs, names) && FieldLinks(fields) <= names
    requires AllShapes(defs, fields, repr, k) == Some(shapes) && n <= |fields|
    ensures FieldsReadAsC(defs, defs', fields, Sizes(shapes), n, k)
    decreases k, 1, n
  {
    if n > 0 {
      AllFieldsReadAsC(defs, defs', names, fields, repr, shapes, k, n - 1);
      ShapeOfField(defs, fields, repr, |fields|, k, n - 1);
      FieldLinksOf(fields, n - 1);
      TyReadsAsC(defs, defs', names, fields[n - 1].ty, k);
    }
  }

  lemma {:induction false} TyReadsAsC(defs: Defs, defs': Defs, names: set<string>, ty: Ty, k: nat)
    requires Rewritten(defs, defs', names) && Closed(defs, names) && Links(ty) <= names && CShape(defs, ty, k).Some?
    ensures ReadsAsC(defs, defs', ty, k)
    decreases k, 0, ty, 1
  {
    forall base: nat
      ensures Packed(defs', ty, base, k) == Some(Read(CSpots(defs, ty, base, k), base + CShape(defs, ty, k).value.size))
    {
      ReadsAtCPlaces(defs, defs', names, ty, base, k);
    }
  }

  lemma PaddedStructRead(defs: Defs, defs': Defs, fields: seq<Field>, repr: Repr, shapes: seq<Shape>, base: nat, k: nat)
    requires AllShapes(defs, fields, repr, k) == Some(shapes) && LayoutOf(repr, shapes).Some?
    requires FieldsReadAsC(defs, defs', fields, Sizes(shapes), |fields|, k)
    ensures var l := LayoutOf(repr, shapes).value;
            PackedFields(defs', PaddedBy(fields, l), base, k)
            == Some(Read(CFields(defs, fields, repr, Places(repr, shapes), |fields|, base, k), base + l.shape.size))
  {
    LayoutIsConsecutive(repr, shapes);
    LaidOutRead(defs, defs', fields, repr, LayoutOf(repr, shapes).value, Places(repr, shapes), Ends(repr, shapes), Sizes(shapes), base, k);
  }

  lemma LaidOutRead(defs: Defs, defs': Defs, fields: seq<Field>, repr: Repr, l: Layout, places: seq<nat>, ends: seq<nat>,
                    sizes: seq<nat>, base: nat, k: nat)
    requires |fields| == |l.pads| && Consecutive(l.pads, places, ends, sizes) && ends[|fields|] + l.tail == l.shape.size
    requires CShapes(defs, fields, repr, |fields|, k).Some? && FieldsReadAsC(defs, defs', fields, sizes, |fields|, k)
    ensures PackedFields(defs', PaddedBy(fields, l), base, k)
            == Some(Read(CFields(defs, fields, repr, places, |fields|, base, k), base + l.shape.size))
  {
    PaddedFieldsRead(defs, defs', fields, repr, l.pads, places, ends, sizes, base, k, |fields|);
    TailRead(defs', fields, l, base, k,
             Read(CFields(defs, fields, repr, places, |fields|, base, k), base + ends[|fields|]));
  }

  lemma TailRead(defs: Defs, fields: seq<Field>, l: Layout, base: nat, k: nat, r: Read)
    requires |l.pads| == |fields| && PackedFields(defs, Interleave(fields, l.pads, |fields|), base, k) == Some(r)
    ensures PackedFields(defs, PaddedBy(fields, l), base, k) == Some(Read(r.spots, r.end + l.tail))
  {
    var whole := Interleave(fields, l.pads, |fields|);
    PackedOneMore(defs, whole, Padding(l.tail), base, k);
    assert l.tail == 0 ==> PaddedBy(fields, l) == whole;
  }
}
