/** The layout walker, with its memo and its depth bound, and the pass that pads an IDL. */
module LayoutPass {
  import opened Basics
  import opened CLayout
  import opened PaddingMeaning

  const NESTING_LIMIT: nat := 128

  type Known = map<string, Option<Shape>>

  // ---- What the memo says ----

  /** The shape of an array, if its size fits. */
  function ItemsShape(item: Option<Shape>, len: Option<nat>): Option<Shape> {
    if item.None? || len.None? || len.value * item.value.size > U64_MAX then None
    else Some(Shape(len.value * item.value.size, item.value.align))
  }

  function Eval(known: Known, ty: Ty): Option<Shape> {
    match ty
    case Leaf(p) => PrimShape(p)
    case Array(item, len) => ItemsShape(Eval(known, item), len)
    case Defined(name, _) => if name in known then known[name] else None
    case Wrap(_) => None
  }

  function EvalFields(known: Known, fields: seq<Field>, repr: Repr, n: nat): (r: Option<seq<Shape>>)
    requires n <= |fields|
    ensures r.Some? ==> |r.value| == n
  {
    if n == 0 then Some([])
    else if !Readable(fields[n - 1], repr) then None
    else
      var before := EvalFields(known, fields, repr, n - 1);
      var s := Eval(known, fields[n - 1].ty);
      if before.None? || s.None? then None else Some(before.value + [s.value])
  }

  /** A missing `fields` key reads as no fields. */
  function StructFields(def: TypeDef): Option<seq<Field>> {
    if def.body.None? then None
    else if def.body.value.Struct? then Some(def.body.value.fields) else Some([])
  }

  function EvalStruct(known: Known, def: TypeDef): (r: Option<Layout>)
    ensures r.Some? ==> StructFields(def).Some? && |r.value.pads| == |StructFields(def).value|
  {
    if def.generic || def.body.None? || def.repr.None? then None else
      var fields := StructFields(def).value;
      var shapes := EvalFields(known, fields, def.repr.value, |fields|);
      if shapes.None? then None else LayoutOf(def.repr.value, shapes.value)
  }

  function EvalDef(known: Known, def: TypeDef): Option<Shape> {
    if def.IsAlias() then Eval(known, def.body.value.target)
    else if EvalStruct(known, def).None? then None else Some(EvalStruct(known, def).value.shape)
  }

  /** A body with a representation is a struct; anything else with one would be read as empty. */
  ghost predicate WellTyped(defs: Defs) {
    forall n :: n in defs && defs[n].repr.Some? ==> defs[n].body.Some? && defs[n].body.value.Struct?
  }

  ghost predicate HasShape(defs: Defs, ty: Ty, s: Option<Shape>) { exists k :: CShape(defs, ty, k) == s }

  /** Every settled entry is the true C shape, and follows from the other entries. */
  ghost predicate SettledAt(defs: Defs, known: Known, n: string) {
    n in known && known[n].Some? ==>
      n in defs && !defs[n].generic && EvalDef(known, defs[n]) == known[n] && HasShape(defs, Defined(n, []), known[n])
  }

  ghost predicate Settled(defs: Defs, known: Known) { forall n :: n in known ==> SettledAt(defs, known, n) }

  ghost predicate More(a: Known, b: Known) {
    forall n :: n in a && a[n].Some? ==> n in b && b[n] == a[n]
  }

  ghost predicate Grows(a: Known, b: Known) { forall n :: n in a ==> n in b && b[n] == a[n] }

  lemma {:induction false} EvalMore(a: Known, b: Known, ty: Ty)
    requires More(a, b) && Eval(a, ty).Some?
    ensures Eval(b, ty) == Eval(a, ty)
  {
    match ty
    case Leaf(_) =>
    case Array(item, _) => EvalMore(a, b, item);
    case Defined(_, _) =>
    case Wrap(_) =>
  }

  lemma {:induction false} EvalFieldsMore(a: Known, b: Known, fields: seq<Field>, repr: Repr, n: nat)
    requires More(a, b) && n <= |fields| && EvalFields(a, fields, repr, n).Some?
    ensures EvalFields(b, fields, repr, n) == EvalFields(a, fields, repr, n)
  {
    if n > 0 {
      EvalFieldsMore(a, b, fields, repr, n - 1);
      EvalMore(a, b, fields[n - 1].ty);
    }
  }

  lemma EvalStructMore(a: Known, b: Known, def: TypeDef)
    requires More(a, b) && EvalStruct(a, def).Some?
    ensures EvalStruct(b, def) == EvalStruct(a, def)
  {
    EvalFieldsMore(a, b, StructFields(def).value, def.repr.value, |StructFields(def).value|);
  }

  lemma EvalDefMore(a: Known, b: Known, def: TypeDef)
    requires More(a, b) && EvalDef(a, def).Some?
    ensures EvalDef(b, def) == EvalDef(a, def)
  {
    if def.IsAlias() { EvalMore(a, b, def.body.value.target); } else { EvalStructMore(a, b, def); }
  }

  // ---- The memo speaks of the C representation ----

  lemma {:induction false} EvalIsC(defs: Defs, known: Known, ty: Ty) returns (k: nat)
    requires Settled(defs, known) && Eval(known, ty).Some?
    ensures CShape(defs, ty, k) == Eval(known, ty)
  {
    k := 0;
    if ty.Array? {
      k := EvalIsC(defs, known, ty.item);
    } else if ty.Defined? {
      assert SettledAt(defs, known, ty.name);
      k :| CShape(defs, Defined(ty.name, []), k) == known[ty.name];
    }
  }

  lemma {:induction false} EvalFieldsIsC(defs: Defs, known: Known, fields: seq<Field>, repr: Repr, n: nat) returns (k: nat)
    requires Settled(defs, known) && n <= |fields| && EvalFields(known, fields, repr, n).Some?
    ensures CShapes(defs, fields, repr, n, k) == EvalFields(known, fields, repr, n)
  {
    if n == 0 { return 0; }
    var i := EvalFieldsIsC(defs, known, fields, repr, n - 1);
    var j := EvalIsC(defs, known, fields[n - 1].ty);
    k := if i < j then j else i;
    ShapesMonotone(defs, fields, repr, n - 1, i, k);
    ShapeMonotone(defs, fields[n - 1].ty, j, k);
  }

  lemma EvalDefIsC(defs: Defs, known: Known, n: string)
    requires Settled(defs, known) && WellTyped(defs) && n in defs && !defs[n].generic && EvalDef(known, defs[n]).Some?
    ensures HasShape(defs, Defined(n, []), EvalDef(known, defs[n]))
  {
    var def := defs[n];
    if def.IsAlias() {
      var k := EvalIsC(defs, known, def.body.value.target);
      assert CShape(defs, Defined(n, []), k + 1) == EvalDef(known, def);
    } else {
      var fields := StructFields(def).value;
      var k := EvalFieldsIsC(defs, known, fields, def.repr.value, |fields|);
      assert CShape(defs, Defined(n, []), k + 1) == EvalDef(known, def);
    }
  }

  lemma {:induction false} EvalFieldsAgree(defs: Defs, known: Known, fields: seq<Field>, repr: Repr, n: nat, k: nat)
    requires Settled(defs, known) && n <= |fields|
    requires EvalFields(known, fields, repr, n).Some? && CShapes(defs, fields, repr, n, k).Some?
    ensures CShapes(defs, fields, repr, n, k) == EvalFields(known, fields, repr, n)
  {
    if n > 0 {
      EvalFieldsAgree(defs, known, fields, repr, n - 1, k);
      var j := EvalIsC(defs, known, fields[n - 1].ty);
      ShapesAgree(defs, fields[n - 1].ty, k, j);
    }
  }

  // ---- The offset loop ----

  function CheckedAlignUp(x: nat, a: nat): Option<nat>
    requires a > 0
  {
    if AlignUp(x, a) > U64_MAX then None else Some(AlignUp(x, a))
  }

  lemma EndsGrow(shapes: seq<Shape>, packed: bool, i: nat, n: nat)
    requires i <= n <= |shapes|
    ensures End(shapes, packed, i) <= End(shapes, packed, n)
    ensures i < n ==> Offset(shapes, packed, i) <= End(shapes, packed, n)
    decreases n
  {
    if i < n {
      EndsGrow(shapes, packed, i, n - 1);
      GapsAreNatural(shapes, packed, n - 1);
      if i < n - 1 { GapsAreNatural(shapes, packed, i); }
    }
  }

  lemma SizeCoversEnds(shapes: seq<Shape>, packed: bool, align: Option<nat>, i: nat)
    requires i <= |shapes|
    ensures End(shapes, packed, i) <= StructSize(shapes, packed, align)
    ensures i < |shapes| ==> Offset(shapes, packed, i) <= StructSize(shapes, packed, align)
  {
    EndsGrow(shapes, packed, i, |shapes|);
    AlignUpIsLeast(End(shapes, packed, |shapes|), StructAlign(shapes, packed, align), 0);
  }

  /** A field that does not fit leaves the struct without a layout. */
  lemma FieldFits(shapes: seq<Shape>, packed: bool, align: Option<nat>, i: nat)
    requires i < |shapes|
    ensures FieldAlign(shapes[i], packed) > 0 && Offset(shapes, packed, i) >= End(shapes, packed, i)
    ensures Offset(shapes, packed, i) > U64_MAX || End(shapes, packed, i + 1) > U64_MAX ==> LayoutOf(ReprC(packed, align), shapes).None?
  {
    SizeCoversEnds(shapes, packed, align, i);
    SizeCoversEnds(shapes, packed, align, i + 1);
    GapsAreNatural(shapes, packed, i);
  }

  /** What is left to do after the last field. */
  lemma LayoutAtEnd(shapes: seq<Shape>, packed: bool, align: Option<nat>, pads: seq<nat>)
    requires |pads| == |shapes| && forall j :: 0 <= j < |shapes| ==> pads[j] == Gap(shapes, packed, j)
    ensures var end, a := End(shapes, packed, |shapes|), StructAlign(shapes, packed, align);
            a > 0 && AlignUp(end, a) >= end
            && LayoutOf(ReprC(packed, align), shapes)
               == if !ExplicitOk(align) || AlignUp(end, a) > U64_MAX then None
                  else Some(Layout(Shape(AlignUp(end, a), a), pads, AlignUp(end, a) - end))
  {
    AlignUpIsLeast(End(shapes, packed, |shapes|), StructAlign(shapes, packed, align), 0);
    assert pads == LayoutC(shapes, packed, align).pads;
  }

  /** The checked loop over offsets finds the C layout exactly when it fits. */
  method OffsetLoop(shapes: seq<Shape>, packed: bool, align: Option<nat>) returns (r: Option<Layout>)
    ensures r == LayoutOf(ReprC(packed, align), shapes)
  {
    var offset, widest := 0, 1;
    var pads: seq<nat> := [];
    for i := 0 to |shapes|
      invariant offset == End(shapes, packed, i) && widest == Widest(shapes, packed, i)
      invariant |pads| == i && forall j :: 0 <= j < i ==> pads[j] == Gap(shapes, packed, j)
    {
      FieldFits(shapes, packed, align, i);
      var fieldAlign := FieldAlign(shapes[i], packed);
      var start := CheckedAlignUp(offset, fieldAlign);
      if start.None? { return None; }
      pads := pads + [start.value - offset];
      if start.value + shapes[i].size > U64_MAX { return None; }
      offset := start.value + shapes[i].size;
      widest := if fieldAlign > widest then fieldAlign else widest;
    }
    LayoutAtEnd(shapes, packed, align, pads);
    if !ExplicitOk(align) { return None; }
    var structAlign := if align.Some? && align.value > widest then align.value else widest;
    var size := CheckedAlignUp(offset, structAlign);
    if size.None? { return None; }
    r := Some(Layout(Shape(size.value, structAlign), pads, size.value - offset));
  }

  // ---- Where no answer means no layout ----

  ghost predicate NoShape(defs: Defs, ty: Ty) { forall k :: CShape(defs, ty, k).None? }

  ghost predicate NoBodyShape(defs: Defs, def: TypeDef) {
    def.generic || def.body.None? || forall k :: CBodyShape(defs, def, k).None?
  }

  /** Different definitions, each with the next one inside its layout. */
  ghost predicate Nested(defs: Defs, stack: seq<string>) {
    && (forall i :: 0 <= i < |stack| ==> stack[i] in defs)
    && (forall i, j :: 0 <= i < j < |stack| ==> stack[i] != stack[j])
    && (forall i :: 0 < i < |stack| ==> LinkAt(defs, stack, i))
  }

  ghost predicate LinkAt(defs: Defs, stack: seq<string>, i: nat)
    requires 0 < i < |stack|
  {
    stack[i - 1] in defs && stack[i] in DefLinks(defs[stack[i - 1]])
  }

  /** More definitions nest inside each other than the walker follows. */
  ghost predicate Deep(defs: Defs) { exists stack :: Nested(defs, stack) && |stack| > NESTING_LIMIT }

  /** There is no C layout, unless more definitions nest than the walker follows. */
  ghost predicate Shapeless(defs: Defs, ty: Ty) { NoShape(defs, ty) || Deep(defs) }

  ghost predicate Within(defs: Defs, stack: seq<string>, links: set<string>) {
    stack != [] ==> stack[|stack| - 1] in defs && links <= DefLinks(defs[stack[|stack| - 1]])
  }

  /** The definitions on the stack are unsettled; any other `None` is final. */
  ghost predicate Open(defs: Defs, known: Known, stack: seq<string>) {
    && Nested(defs, stack)
    && (forall s :: s in stack ==> s in known && known[s].None?)
    && (forall n :: n in known && known[n].None? && n !in stack ==> Shapeless(defs, Defined(n, [])))
  }

  lemma {:induction false} LinkHasShape(defs: Defs, ty: Ty, m: string, k: nat)
    requires CShape(defs, ty, k).Some? && m in Links(ty)
    ensures CShape(defs, Defined(m, []), k).Some?
  {
    if ty.Array? { LinkHasShape(defs, ty.item, m, k); }
  }

  lemma {:induction false} FieldLinkHasShape(defs: Defs, fields: seq<Field>, repr: Repr, n: nat, m: string, k: nat)
    requires n <= |fields| && CShapes(defs, fields, repr, n, k).Some? && m in FieldLinks(fields[..n])
    ensures CShape(defs, Defined(m, []), k).Some?
  {
    if n > 0 {
      assert fields[..n][..n - 1] == fields[..n - 1];
      if m in FieldLinks(fields[..n - 1]) {
        FieldLinkHasShape(defs, fields, repr, n - 1, m, k);
      } else {
        LinkHasShape(defs, fields[n - 1].ty, m, k);
      }
    }
  }

  lemma DefLinkHasShape(defs: Defs, n: string, m: string, k: nat)
    requires k > 0 && CShape(defs, Defined(n, []), k).Some? && m in DefLinks(defs[n])
    ensures CShape(defs, Defined(m, []), k - 1).Some?
  {
    var body := defs[n].body.value;
    if body.Alias? {
      LinkHasShape(defs, body.target, m, k - 1);
    } else {
      assert body.fields[..|body.fields|] == body.fields;
      FieldLinkHasShape(defs, body.fields, defs[n].repr.value, |body.fields|, m, k - 1);
    }
  }

  /** A definition nested inside itself has no layout. */
  lemma {:induction false} CycleHasNoShape(defs: Defs, stack: seq<string>, i: nat, j: nat, k: nat)
    requires Nested(defs, stack) && i <= j < |stack| && stack[i] in DefLinks(defs[stack[|stack| - 1]])
    ensures CShape(defs, Defined(stack[j], []), k).None?
    decreases k
  {
    if CShape(defs, Defined(stack[j], []), k).Some? {
      if j == |stack| - 1 {
        DefLinkHasShape(defs, stack[j], stack[i], k);
        CycleHasNoShape(defs, stack, i, i, k - 1);
      } else {
        assert LinkAt(defs, stack, j + 1);
        DefLinkHasShape(defs, stack[j], stack[j + 1], k);
        CycleHasNoShape(defs, stack, i, j + 1, k - 1);
      }
    }
  }

  lemma CycleIsFinal(defs: Defs, known: Known, stack: seq<string>, name: string)
    requires Open(defs, known, stack) && Within(defs, stack, {name}) && name in known && known[name].None?
    ensures Shapeless(defs, Defined(name, []))
  {
    if name in stack {
      var i :| 0 <= i < |stack| && stack[i] == name;
      forall k ensures CShape(defs, Defined(name, []), k).None? { CycleHasNoShape(defs, stack, i, i, k); }
    }
  }

  lemma {:induction false} FieldHasNoShape(defs: Defs, fields: seq<Field>, repr: Repr, n: nat, i: nat, k: nat)
    requires i < n <= |fields| && (!Readable(fields[i], repr) || CShape(defs, fields[i].ty, k).None?)
    ensures CShapes(defs, fields, repr, n, k).None?
  {
    if i < n - 1 { FieldHasNoShape(defs, fields, repr, n - 1, i, k); }
  }

  /** One field without a shape leaves its struct without one. */
  lemma StructHasNoShape(defs: Defs, def: TypeDef, i: nat)
    requires def.body.Some? && def.body.value.Struct? && def.repr.Some? && i < |def.body.value.fields|
    requires !Readable(def.body.value.fields[i], def.repr.value) || NoShape(defs, def.body.value.fields[i].ty)
    ensures NoBodyShape(defs, def)
  {
    var fields := def.body.value.fields;
    forall k ensures CBodyShape(defs, def, k).None? {
      FieldHasNoShape(defs, fields, def.repr.value, |fields|, i, k);
    }
  }

  lemma StructIsShapeless(defs: Defs, def: TypeDef, i: nat)
    requires def.body.Some? && def.body.value.Struct? && def.repr.Some? && i < |def.body.value.fields|
    requires !def.body.value.fields[i].Padding? && Shapeless(defs, def.body.value.fields[i].ty)
    ensures NoBodyShape(defs, def) || Deep(defs)
  {
    if !Deep(defs) { StructHasNoShape(defs, def, i); }
  }

  /** Shapes that do not fit leave it without one, too. */
  lemma UnfitHasNoShape(defs: Defs, known: Known, def: TypeDef)
    requires Settled(defs, known) && def.body.Some? && def.body.value.Struct? && def.repr.Some?
    requires EvalFields(known, def.body.value.fields, def.repr.value, |def.body.value.fields|).Some?
    requires LayoutOf(def.repr.value, EvalFields(known, def.body.value.fields, def.repr.value, |def.body.value.fields|).value).None?
    ensures NoBodyShape(defs, def)
  {
    var fields := def.body.value.fields;
    forall k ensures CBodyShape(defs, def, k).None? {
      if CShapes(defs, fields, def.repr.value, |fields|, k).Some? {
        EvalFieldsAgree(defs, known, fields, def.repr.value, |fields|, k);
      }
    }
  }

  lemma BodyWithoutShape(defs: Defs, name: string)
    requires name in defs && if defs[name].IsAlias() then NoShape(defs, defs[name].body.value.target) else NoBodyShape(defs, defs[name])
    ensures NoShape(defs, Defined(name, []))
  {
    forall k: nat ensures CShape(defs, Defined(name, []), k).None? {
      if k > 0 && defs[name].body.Some? {
        if defs[name].IsAlias() { assert CShape(defs, defs[name].body.value.target, k - 1).None?; }
        else if !defs[name].generic { assert CBodyShape(defs, defs[name], k - 1).None?; }
      }
    }
  }

  lemma ArrayWithoutShape(defs: Defs, known: Known, item: Ty, len: Option<nat>)
    requires Settled(defs, known)
    requires NoShape(defs, item) || len.None? || (Eval(known, item).Some? && len.value * Eval(known, item).value.size > U64_MAX)
    ensures NoShape(defs, Array(item, len))
  {
    forall k ensures CShape(defs, Array(item, len), k).None? {
      if CShape(defs, item, k).Some? && Eval(known, item).Some? {
        var j := EvalIsC(defs, known, item);
        ShapesAgree(defs, item, k, j);
      }
    }
  }

  lemma Enter(defs: Defs, known: Known, stack: seq<string>, name: string)
    requires Open(defs, known, stack) && Within(defs, stack, {name}) && name !in known && name in defs
    ensures Open(defs, known[name := None], stack + [name])
  {
    var more := stack + [name];
    forall i | 0 < i < |more| ensures LinkAt(defs, more, i) {
      if i < |stack| { assert LinkAt(defs, stack, i); }
    }
  }

  lemma Leave(defs: Defs, known: Known, stack: seq<string>, name: string, r: Option<Shape>)
    requires Open(defs, known, stack + [name])
    requires r.None? ==> Shapeless(defs, Defined(name, []))
    ensures Open(defs, known[name := r], stack)
  {
    var more := stack + [name];
    forall i | 0 < i < |stack| ensures LinkAt(defs, stack, i) { assert LinkAt(defs, more, i); }
    assert forall i :: 0 <= i < |stack| ==> more[i] == stack[i];
    assert more[|stack|] == name;
  }

  /** Before a definition is laid out it becomes the last one on the stack. */
  lemma Entered(defs: Defs, known: Known, stack: seq<string>, name: string)
    requires Settled(defs, known) && Open(defs, known, stack) && Within(defs, stack, {name}) && name !in known
    ensures Settled(defs, known[name := None])
    ensures if name in defs then Open(defs, known[name := None], stack + [name])
            else Open(defs, known[name := None], stack) && NoShape(defs, Defined(name, []))
  {
    AddUnsettled(defs, known, name);
    if name in defs { Enter(defs, known, stack, name); }
  }

  /** Afterwards its answer is final. */
  lemma Left(defs: Defs, known: Known, stack: seq<string>, name: string, r: Option<Shape>)
    requires Settled(defs, known) && WellTyped(defs) && Open(defs, known, stack + [name]) && name in defs
    requires r.Some? ==> !defs[name].generic && EvalDef(known, defs[name]) == r
    requires r.None? ==> Deep(defs) || if defs[name].IsAlias() then NoShape(defs, defs[name].body.value.target)
                                       else NoBodyShape(defs, defs[name])
    ensures Settled(defs, known[name := r]) && Open(defs, known[name := r], stack)
    ensures r.None? ==> Shapeless(defs, Defined(name, []))
  {
    assert (stack + [name])[|stack|] == name;
    if r.None? && !Deep(defs) { BodyWithoutShape(defs, name); }
    AddSettled(defs, known, name, r);
    Leave(defs, known, stack, name, r);
  }

  lemma ArrayIsShapeless(defs: Defs, known: Known, item: Ty, len: Option<nat>, s: Option<Shape>)
    requires Settled(defs, known)
    requires if s.None? then Shapeless(defs, item) else s == Eval(known, item)
    requires ItemsShape(s, len).None?
    ensures Shapeless(defs, Array(item, len))
  {
    if !Deep(defs) { ArrayWithoutShape(defs, known, item, len); }
  }

  // ---- The walker ----

  class Layouts {
    const defs: Defs
    var known: Known

    ghost predicate Valid()
      reads this
    {
      Settled(defs, known) && WellTyped(defs)
    }

    constructor (defs: Defs)
      requires WellTyped(defs)
      ensures Valid() && this.defs == defs && known == map[] && Open(defs, known, [])
    {
      this.defs := defs;
      known := map[];
    }

    /** `None` exactly where there is no C layout, unless more definitions nest than the walker follows. */
    method StructLayout(def: TypeDef, depth: nat, ghost stack: seq<string>) returns (r: Option<Layout>)
      requires Valid() && Open(defs, known, stack) && depth == |stack| <= NESTING_LIMIT + 1
      requires def.repr.Some? ==> def.body.Some? && def.body.value.Struct?
      requires Within(defs, stack, DefLinks(def))
      modifies this`known
      ensures Valid() && Open(defs, known, stack) && Grows(old(known), known)
      ensures r.Some? ==> r == EvalStruct(known, def)
      ensures depth <= NESTING_LIMIT && EvalStruct(old(known), def).Some? ==> r == EvalStruct(old(known), def)
      ensures r.None? && !def.IsAlias() ==> NoBodyShape(defs, def) || Deep(defs)
      decreases NESTING_LIMIT + 1 - depth, 1, 1
    {
      if depth > NESTING_LIMIT { return None; }
      if def.generic || def.body.None? || def.repr.None? { return None; }
      var fields := StructFields(def).value;
      var repr := def.repr.value;
      if repr.ReprRust? { return None; }
      var shapes := FieldShapes(def, depth, stack);
      if shapes.None? { return None; }
      if repr.ReprTransparent? {
        r := LayoutTransparent(shapes.value);
      } else {
        r := OffsetLoop(shapes.value, repr.packed, repr.align);
      }
      if r.None? { UnfitHasNoShape(defs, known, def); }
    }

    method FieldShapes(def: TypeDef, depth: nat, ghost stack: seq<string>) returns (r: Option<seq<Shape>>)
      requires Valid() && Open(defs, known, stack) && depth == |stack| <= NESTING_LIMIT
      requires def.repr.Some? && def.body.Some? && def.body.value.Struct? && Within(defs, stack, DefLinks(def))
      modifies this`known
      ensures Valid() && Open(defs, known, stack) && Grows(old(known), known)
      ensures var fields, repr := def.body.value.fields, def.repr.value;
              && (r.Some? ==> r == EvalFields(known, fields, repr, |fields|))
              && (EvalFields(old(known), fields, repr, |fields|).Some? ==> r == EvalFields(old(known), fields, repr, |fields|))
      ensures r.None? ==> NoBodyShape(defs, def) || Deep(defs)
      decreases NESTING_LIMIT + 1 - depth, 1, 0
    {
      var fields, repr := def.body.value.fields, def.repr.value;
      var shapes: seq<Shape> := [];
      var i := 0;
      while i < |fields|
        invariant 0 <= i <= |fields| && Valid() && Open(defs, known, stack) && Grows(old(known), known)
        invariant EvalFields(known, fields, repr, i) == Some(shapes)
      {
        FieldImplied(old(known), known, fields, repr, i);
        if !Readable(fields[i], repr) {
          StructHasNoShape(defs, def, i);
          return None;
        }
        ghost var before := known;
        FieldLinksOf(fields, i);
        var s := FieldLayout(fields[i].ty, depth, stack);
        if s.None? {
          StructIsShapeless(defs, def, i);
          return None;
        }
        EvalFieldsMore(before, known, fields, repr, i);
        shapes := shapes + [s.value];
        i := i + 1;
      }
      AllImplied(old(known), known, fields, repr);
      r := Some(shapes);
    }

    method FieldLayout(ty: Ty, depth: nat, ghost stack: seq<string>) returns (r: Option<Shape>)
      requires Valid() && Open(defs, known, stack) && depth == |stack| <= NESTING_LIMIT + 1 && Within(defs, stack, Links(ty))
      modifies this`known
      ensures Valid() && Open(defs, known, stack) && Grows(old(known), known)
      ensures r.Some? ==> r == Eval(known, ty)
      ensures depth <= NESTING_LIMIT && Eval(old(known), ty).Some? ==> r == Eval(old(known), ty)
      ensures r.None? ==> Shapeless(defs, ty)
      decreases NESTING_LIMIT + 1 - depth, 0, 1, ty, 1
    {
      if depth > NESTING_LIMIT { return None; }
      match ty {
        case Leaf(p) => return PrimShape(p);
        case Array(item, len) => r := ArrayLayout(item, len, depth, stack);
        case Wrap(_) => return None;
        case Defined(name, args) =>
          r := LinkLayout(name, depth, stack);
          if r.None? { ArgsDoNotMatter(defs, name, args); }
      }
    }

    method ArrayLayout(item: Ty, len: Option<nat>, depth: nat, ghost stack: seq<string>) returns (r: Option<Shape>)
      requires Valid() && Open(defs, known, stack) && depth == |stack| <= NESTING_LIMIT && Within(defs, stack, Links(item))
      modifies this`known
      ensures Valid() && Open(defs, known, stack) && Grows(old(known), known)
      ensures r.Some? ==> r == Eval(known, Array(item, len))
      ensures Eval(old(known), Array(item, len)).Some? ==> r == Eval(old(known), Array(item, len))
      ensures r.None? ==> Shapeless(defs, Array(item, len))
      decreases NESTING_LIMIT + 1 - depth, 0, 1, Array(item, len), 0
    {
      var s := FieldLayout(item, depth, stack);
      r := ItemsShape(s, len);
      if r.None? { ArrayIsShapeless(defs, known, item, len, s); }
    }

    method LinkLayout(name: string, depth: nat, ghost stack: seq<string>) returns (r: Option<Shape>)
      requires Valid() && Open(defs, known, stack) && depth == |stack| <= NESTING_LIMIT && Within(defs, stack, {name})
      modifies this`known
      ensures Valid() && Open(defs, known, stack) && Grows(old(known), known) && name in known && known[name] == r
      ensures r.None? ==> Shapeless(defs, Defined(name, []))
      decreases NESTING_LIMIT + 1 - depth, 0, 0, 1
    {
      if name in known {
        r := known[name];
        if r.None? { CycleIsFinal(defs, known, stack, name); }
      } else {
        r := NamedLayout(name, depth, stack);
      }
    }

    /** A type that contains itself meets its own `None` instead of recursing. */
    method NamedLayout(name: string, depth: nat, ghost stack: seq<string>) returns (r: Option<Shape>)
      requires Valid() && Open(defs, known, stack) && depth == |stack| <= NESTING_LIMIT && Within(defs, stack, {name})
      requires name !in known
      modifies this`known
      ensures Valid() && Open(defs, known, stack) && Grows(old(known), known) && name in known && known[name] == r
      ensures r.None? ==> Shapeless(defs, Defined(name, []))
      decreases NESTING_LIMIT + 1 - depth, 0, 0, 0
    {
      Entered(defs, known, stack, name);
      known := known[name := None];
      if name !in defs { return None; }
      var def := defs[name];
      if def.IsAlias() {
        r := FieldLayout(def.body.value.target, depth + 1, stack + [name]);
      } else {
        var l := StructLayout(def, depth + 1, stack + [name]);
        r := if l.None? then None else Some(l.value.shape);
      }
      Left(defs, known, stack, name, r);
      known := known[name := r];
    }

    /** `None` when there is nothing to insert or the layout is not known. */
    method PaddedFields(def: TypeDef) returns (r: Option<seq<Field>>)
      requires Valid() && Open(defs, known, [])
      requires def.repr.Some? ==> def.body.Some? && def.body.value.Struct?
      modifies this`known
      ensures Valid() && Open(defs, known, []) && Grows(old(known), known)
      ensures r.Some? ==> EvalStruct(known, def).Some?
                          && r.value == PaddedBy(StructFields(def).value, EvalStruct(known, def).value)
                          && r.value != StructFields(def).value
      ensures EvalStruct(old(known), def).Some? ==>
                var padded := PaddedBy(StructFields(def).value, EvalStruct(old(known), def).value);
                if r.Some? then r.value == padded else padded == StructFields(def).value
    {
      if StructFields(def).None? { return None; }
      var fields := StructFields(def).value;
      var l := StructLayout(def, 0, []);
      if l.None? { return None; }
      var layout := l.value;
      if layout.tail == 0 && forall i :: 0 <= i < |layout.pads| ==> layout.pads[i] == 0 {
        NoPadding(fields, layout.pads, |fields|);
        assert fields[..|fields|] == fields;
        return None;
      }
      var out := InsertPadding(fields, layout);
      return Some(out);
    }
  }

  lemma ArgsDoNotMatter(defs: Defs, name: string, args: seq<Ty>)
    requires Shapeless(defs, Defined(name, []))
    ensures Shapeless(defs, Defined(name, args))
  {
    forall k | !Deep(defs) ensures CShape(defs, Defined(name, args), k).None? {
      assert CShape(defs, Defined(name, []), k).None?;
    }
  }

  method InsertPadding(fields: seq<Field>, l: Layout) returns (out: seq<Field>)
    requires |l.pads| == |fields|
    ensures out == PaddedBy(fields, l)
    ensures l.tail > 0 || (exists i :: 0 <= i < |l.pads| && l.pads[i] > 0) ==> out != fields
  {
    out := [];
    for i := 0 to |fields|
      invariant out == Interleave(fields, l.pads, i)
      invariant |out| >= i && ((exists j :: 0 <= j < i && l.pads[j] > 0) ==> |out| > i)
    {
      if l.pads[i] > 0 { out := out + [Padding(l.pads[i])]; }
      out := out + [fields[i]];
    }
    if l.tail > 0 { out := out + [Padding(l.tail)]; }
  }

  lemma {:induction false} EvalFieldsSome(known: Known, fields: seq<Field>, repr: Repr, n: nat, i: nat)
    requires i < n <= |fields| && EvalFields(known, fields, repr, n).Some?
    ensures Readable(fields[i], repr) && Eval(known, fields[i].ty).Some?
  {
    if i < n - 1 { EvalFieldsSome(known, fields, repr, n - 1, i); }
  }

  /** What an earlier memo implies for all fields, a later one implies for each. */
  lemma FieldImplied(a: Known, b: Known, fields: seq<Field>, repr: Repr, i: nat)
    requires More(a, b) && i < |fields|
    ensures EvalFields(a, fields, repr, |fields|).Some? ==> Readable(fields[i], repr) && Eval(b, fields[i].ty).Some?
  {
    if EvalFields(a, fields, repr, |fields|).Some? {
      EvalFieldsSome(a, fields, repr, |fields|, i);
      EvalMore(a, b, fields[i].ty);
    }
  }

  lemma AllImplied(a: Known, b: Known, fields: seq<Field>, repr: Repr)
    requires More(a, b)
    ensures EvalFields(a, fields, repr, |fields|).Some? ==> EvalFields(b, fields, repr, |fields|) == EvalFields(a, fields, repr, |fields|)
  {
    if EvalFields(a, fields, repr, |fields|).Some? { EvalFieldsMore(a, b, fields, repr, |fields|); }
  }

  lemma AddUnsettled(defs: Defs, known: Known, name: string)
    requires Settled(defs, known) && name !in known
    ensures Settled(defs, known[name := None])
  {
    var after := known[name := None];
    forall n | n in after ensures SettledAt(defs, after, n) {
      if n != name && known[n].Some? {
        assert SettledAt(defs, known, n);
        EvalDefMore(known, after, defs[n]);
      }
    }
  }

  lemma AddSettled(defs: Defs, known: Known, name: string, r: Option<Shape>)
    requires Settled(defs, known) && WellTyped(defs) && name in known && known[name].None? && name in defs
    requires r.Some? ==> !defs[name].generic && EvalDef(known, defs[name]) == r
    ensures Settled(defs, known[name := r])
  {
    var after := known[name := r];
    forall n | n in after && after[n].Some? ensures SettledAt(defs, after, n) {
      if n != name { assert SettledAt(defs, known, n); }
      EvalDefMore(known, after, defs[n]);
      if n == name { EvalDefIsC(defs, known, name); }
    }
  }
}
