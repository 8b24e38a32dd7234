/** The layout of one struct, told without the offset loop: least offsets, widest alignment, one carrier. */
module CStructs {
  import opened Basics
  import opened CLayout

  // ---- repr(C) ----

  /** The least multiple of `a` from `x` on. */
  ghost predicate IsLeastFrom(x: nat, a: nat, y: nat)
    requires a > 0
  {
    x <= y && y % a == 0 && forall m: nat :: x <= m && m % a == 0 ==> y <= m
  }

  function AlignOf(s: Shape, packed: bool): nat { if packed then 1 else s.align }

  /** The end of the field before field `i`, when fields start at `starts`. */
  function EndBefore(shapes: seq<Shape>, starts: seq<nat>, i: nat): nat
    requires |starts| == |shapes| && i <= |shapes|
  {
    if i == 0 then 0 else starts[i - 1] + shapes[i - 1].size
  }

  ghost predicate StartsAt(shapes: seq<Shape>, packed: bool, pads: seq<nat>, starts: seq<nat>, i: nat)
    requires |pads| == |starts| == |shapes| && i < |shapes| && shapes[i].align > 0
  {
    && IsLeastFrom(EndBefore(shapes, starts, i), AlignOf(shapes[i], packed), starts[i])
    && EndBefore(shapes, starts, i) + pads[i] == starts[i]
  }

  /** The widest alignment, an explicit one included. */
  ghost predicate IsWidest(shapes: seq<Shape>, packed: bool, align: Option<nat>, a: nat) {
    && a >= 1 && (align.Some? ==> a >= align.value) && (forall i :: 0 <= i < |shapes| ==> a >= AlignOf(shapes[i], packed))
    && (a == 1 || align == Some(a) || exists i :: 0 <= i < |shapes| && a == AlignOf(shapes[i], packed))
  }

  /** Fields one after another, each at its next aligned address, and the end aligned as well. */
  ghost predicate IsCLayout(shapes: seq<Shape>, packed: bool, align: Option<nat>, l: Layout, starts: seq<nat>)
    requires forall s :: s in shapes ==> s.align > 0
  {
    && |l.pads| == |starts| == |shapes|
    && (forall i :: 0 <= i < |shapes| ==> StartsAt(shapes, packed, l.pads, starts, i))
    && IsWidest(shapes, packed, align, l.shape.align)
    && IsLeastFrom(EndBefore(shapes, starts, |shapes|), l.shape.align, l.shape.size)
    && EndBefore(shapes, starts, |shapes|) + l.tail == l.shape.size
  }

  function Pow2(e: nat): nat { if e == 0 then 1 else 2 * Pow2(e - 1) }

  ghost predicate AlignAllowed(align: Option<nat>) { align.None? || exists e: nat :: e <= 29 && align.value == Pow2(e) }

  lemma {:induction false} PowersOfTwo(n: nat) returns (e: nat)
    ensures PowerOfTwo(n) <==> n == Pow2(e)
    ensures !PowerOfTwo(n) ==> forall d: nat :: n != Pow2(d)
  {
    e := 0;
    if n > 1 && n % 2 == 0 {
      e := PowersOfTwo(n / 2);
      forall d: nat | !PowerOfTwo(n) ensures n != Pow2(d) { assert d > 0 ==> Pow2(d) / 2 == Pow2(d - 1); }
      e := e + 1;
    } else if n != 1 {
      forall d: nat ensures n != Pow2(d) { assert d > 0 ==> Pow2(d) % 2 == 0; PowIsPositive(d); }
    }
  }

  lemma {:induction false} PowIsPositive(d: nat)
    ensures Pow2(d) > 0
  {
    if d > 0 { PowIsPositive(d - 1); }
  }

  lemma {:induction false} PowsAscend(d: nat, e: nat)
    requires d < e
    ensures Pow2(d) < Pow2(e)
    decreases e
  {
    PowIsPositive(d);
    if d < e - 1 { PowsAscend(d, e - 1); }
  }

  lemma AllowedIsOk(align: Option<nat>)
    ensures ExplicitOk(align) <==> AlignAllowed(align)
  {
    if align.Some? {
      var e := PowersOfTwo(align.value);
      assert Pow2(29) == 0x2000_0000 by { assert Pow2(10) == 1024; assert Pow2(20) == 0x10_0000; }
      if ExplicitOk(align) && e > 29 { PowsAscend(29, e); }
      if d: nat :| d <= 29 && align.value == Pow2(d) {
        if d < 29 { PowsAscend(d, 29); }
      }
    }
  }

  lemma {:induction false} WidestIs(shapes: seq<Shape>, packed: bool, n: nat)
    requires n <= |shapes| && forall s :: s in shapes ==> s.align > 0
    ensures IsWidest(shapes[..n], packed, None, Widest(shapes, packed, n))
  {
    if n > 0 {
      WidestIs(shapes, packed, n - 1);
      var w, last := Widest(shapes, packed, n - 1), AlignOf(shapes[n - 1], packed);
      assert shapes[n - 1] in shapes && FieldAlign(shapes[n - 1], packed) == last;
      assert shapes[..n][n - 1] == shapes[n - 1];
      if last <= w && w != 1 {
        var i :| 0 <= i < n - 1 && w == AlignOf(shapes[..n - 1][i], packed);
        assert w == AlignOf(shapes[..n][i], packed);
      }
      forall i | 0 <= i < n ensures Widest(shapes, packed, n) >= AlignOf(shapes[..n][i], packed) {
        if i < n - 1 { assert shapes[..n - 1][i] == shapes[..n][i]; }
      }
    }
  }

  function Starts(shapes: seq<Shape>, packed: bool): (r: seq<nat>)
    ensures |r| == |shapes|
  {
    seq(|shapes|, i requires 0 <= i < |shapes| => Offset(shapes, packed, i))
  }

  lemma LeastIs(x: nat, a: nat)
    requires a > 0
    ensures IsLeastFrom(x, a, AlignUp(x, a))
  {
    AlignUpIsLeast(x, a, 0);
    forall m: nat | x <= m && m % a == 0 ensures AlignUp(x, a) <= m { AlignUpIsLeast(x, a, m); }
  }

  lemma EndIs(shapes: seq<Shape>, packed: bool, i: nat)
    requires i <= |shapes|
    ensures EndBefore(shapes, Starts(shapes, packed), i) == End(shapes, packed, i)
  {
  }

  lemma StartIs(shapes: seq<Shape>, packed: bool, i: nat)
    requires i < |shapes| && shapes[i].align > 0
    ensures IsLeastFrom(End(shapes, packed, i), AlignOf(shapes[i], packed), Starts(shapes, packed)[i])
  {
    var x, a := End(shapes, packed, i), AlignOf(shapes[i], packed);
    assert Starts(shapes, packed)[i] == AlignUp(x, a);
    LeastIs(x, a);
  }

  /** The layout computed is the C layout, and there is one exactly if the alignment is allowed and it fits. */
  lemma StructIsC(shapes: seq<Shape>, packed: bool, align: Option<nat>)
    requires forall s :: s in shapes ==> s.align > 0
    ensures var l := LayoutC(shapes, packed, align);
            && IsCLayout(shapes, packed, align, l, Starts(shapes, packed))
            && LayoutOf(ReprC(packed, align), shapes)
               == if AlignAllowed(align) && l.shape.size <= U64_MAX then Some(l) else None
  {
    var l, starts := LayoutC(shapes, packed, align), Starts(shapes, packed);
    AllowedIsOk(align);
    forall i | 0 <= i < |shapes| ensures StartsAt(shapes, packed, l.pads, starts, i) {
      EndIs(shapes, packed, i);
      StartIs(shapes, packed, i);
    }
    EndIs(shapes, packed, |shapes|);
    WidestIs(shapes, packed, |shapes|);
    assert shapes[..|shapes|] == shapes;
    LeastIs(End(shapes, packed, |shapes|), StructAlign(shapes, packed, align));
  }

  /** No other layout is the C layout. */
  lemma {:induction false} StartsAreUnique(shapes: seq<Shape>, packed: bool, pads: seq<nat>, a: seq<nat>,
                                           pads': seq<nat>, b: seq<nat>, n: nat)
    requires |pads| == |pads'| == |a| == |b| == |shapes| && n <= |shapes| && forall s :: s in shapes ==> s.align > 0
    requires forall i :: 0 <= i < |shapes| ==> StartsAt(shapes, packed, pads, a, i) && StartsAt(shapes, packed, pads', b, i)
    ensures forall i :: 0 <= i < n ==> a[i] == b[i] && pads[i] == pads'[i]
  {
    if n > 0 {
      StartsAreUnique(shapes, packed, pads, a, pads', b, n - 1);
      assert StartsAt(shapes, packed, pads, a, n - 1) && StartsAt(shapes, packed, pads', b, n - 1);
    }
  }

  lemma LayoutIsUnique(shapes: seq<Shape>, packed: bool, align: Option<nat>, l: Layout, starts: seq<nat>)
    requires forall s :: s in shapes ==> s.align > 0
    requires IsCLayout(shapes, packed, align, l, starts)
    ensures l == LayoutC(shapes, packed, align)
  {
    var c := LayoutC(shapes, packed, align);
    StructIsC(shapes, packed, align);
    StartsAreUnique(shapes, packed, l.pads, starts, c.pads, Starts(shapes, packed), |shapes|);
    assert l.shape.align == c.shape.align;
  }

  // ---- repr(transparent) ----

  /** Field `i` carries the struct: every other field is empty and adds no alignment. */
  predicate Carries(shapes: seq<Shape>, i: nat) {
    && i < |shapes| && shapes[i].size != 0
    && forall j :: 0 <= j < |shapes| && j != i ==> shapes[j] == Shape(0, 1)
  }

  lemma {:induction false} OneNonZero(shapes: seq<Shape>)
    ensures |NonZero(shapes)| == 0 <==> forall i :: 0 <= i < |shapes| ==> shapes[i].size == 0
    ensures |NonZero(shapes)| == 1 ==>
              exists i :: 0 <= i < |shapes| && shapes[i] == NonZero(shapes)[0] && shapes[i].size != 0
                          && forall j :: 0 <= j < |shapes| && j != i ==> shapes[j].size == 0
    ensures forall i, j :: 0 <= i < j < |shapes| && shapes[i].size != 0 && shapes[j].size != 0 ==> |NonZero(shapes)| > 1
  {
    if shapes != [] {
      var rest := shapes[1..];
      OneNonZero(rest);
      assert forall i :: 0 < i < |shapes| ==> shapes[i] == rest[i - 1];
      if |NonZero(shapes)| == 1 {
        if shapes[0].size != 0 {
          assert forall j :: 0 < j < |shapes| ==> shapes[j].size == 0;
        } else {
          var i :| 0 <= i < |rest| && rest[i] == NonZero(rest)[0] && rest[i].size != 0
                   && forall j :: 0 <= j < |rest| && j != i ==> rest[j].size == 0;
          assert shapes[i + 1] == NonZero(shapes)[0];
        }
      }
      forall i, j | 0 <= i < j < |shapes| && shapes[i].size != 0 && shapes[j].size != 0 ensures |NonZero(shapes)| > 1 {
        assert rest[j - 1].size != 0;
        if i > 0 { assert rest[i - 1].size != 0; }
      }
    }
  }

  /** A transparent struct has a layout exactly if one field carries it, and then it is that field's. */
  lemma TransparentIsItsCarrier(shapes: seq<Shape>)
    ensures LayoutTransparent(shapes).Some? <==> exists i: nat :: Carries(shapes, i)
    ensures forall i: nat :: Carries(shapes, i) ==>
              LayoutTransparent(shapes) == Some(Layout(shapes[i], seq(|shapes|, _ => 0), 0))
  {
    OneNonZero(shapes);
    if LayoutTransparent(shapes).Some? {
      var i :| 0 <= i < |shapes| && shapes[i] == NonZero(shapes)[0] && shapes[i].size != 0
               && forall j :: 0 <= j < |shapes| && j != i ==> shapes[j].size == 0;
      assert Carries(shapes, i);
    }
    forall i: nat | Carries(shapes, i)
      ensures LayoutTransparent(shapes) == Some(Layout(shapes[i], seq(|shapes|, _ => 0), 0))
    {
      assert |NonZero(shapes)| == 1 by { NonZeroOnce(shapes, i); }
    }
  }

  lemma {:induction false} NonZeroOnce(shapes: seq<Shape>, i: nat)
    requires Carries(shapes, i)
    ensures |NonZero(shapes)| == 1
  {
    OneNonZero(shapes[1..]);
    if i > 0 {
      assert shapes[0].size == 0;
      NonZeroOnce(shapes[1..], i - 1);
    } else {
      assert forall j :: 0 <= j < |shapes[1..]| ==> shapes[1..][j] == shapes[j + 1];
    }
  }

  /** Numbers align to their width, 128-bit ones to half of it; a public key is a byte array. */
  lemma PrimitivesAlign(p: Prim)
    requires PrimShape(p).Some?
    ensures var s := PrimShape(p).value;
            if p.Pubkey? then s == Shape(32, 1)
            else s.size in {1, 2, 4, 8, 16} && s.align == (if s.size > 8 then 8 else s.size)
  {
  }
}
