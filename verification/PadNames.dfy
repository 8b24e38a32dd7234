/** The names of inserted padding fields: each is the first one that no other field would share. */
module PaddingNames {
  import opened Basics
  import opened CLayout
  import opened PaddingMeaning

  function Decimal(n: nat): (r: string)
    ensures |r| >= 1 && (|r| == 1 <==> n < 10)
  {
    if n < 10 then [Digit(n)] else Decimal(n / 10) + [Digit(n % 10)]
  }

  function Digit(n: nat): char
    requires n < 10
  {
    "0123456789"[n]
  }

  /** The base name, then `base_2`, `base_3` and so on. */
  function Candidate(base: string, n: nat): string { if n <= 1 then base else base + "_" + Decimal(n) }

  /** `camel`, which turns a name into an identifier, tells numbered names apart. */
  ghost predicate TellsNumbersApart(camel: string -> string) {
    forall base, m: nat, n: nat :: 2 <= m < n ==> camel(Candidate(base, m)) != camel(Candidate(base, n))
  }

  /** The numbered names themselves differ. */
  lemma {:induction false} DecimalsDiffer(m: nat, n: nat)
    requires m != n
    ensures Decimal(m) != Decimal(n)
  {
    LastDigit(m);
    LastDigit(n);
    if m >= 10 && n >= 10 && m / 10 != n / 10 { DecimalsDiffer(m / 10, n / 10); }
  }

  lemma LastDigit(n: nat)
    ensures Decimal(n)[|Decimal(n)| - 1] == Digit(n % 10)
    ensures n >= 10 ==> Decimal(n)[..|Decimal(n)| - 1] == Decimal(n / 10)
  {
  }

  lemma PlainNamesTellNumbersApart()
    ensures TellsNumbersApart(name => name)
  {
    forall base, m: nat, n: nat | 2 <= m < n ensures Candidate(base, m) != Candidate(base, n) {
      DecimalsDiffer(m, n);
      assert Candidate(base, m)[|base| + 1..] == Decimal(m) && Candidate(base, n)[|base| + 1..] == Decimal(n);
    }
  }

  ghost predicate IsFirstFree(base: string, taken: set<string>, camel: string -> string, name: string) {
    exists n: nat :: FreeAt(base, taken, camel, name, n)
  }

  ghost predicate FreeAt(base: string, taken: set<string>, camel: string -> string, name: string, n: nat) {
    && n >= 1 && name == Candidate(base, n) && camel(name) !in taken
    && forall m: nat :: 1 <= m < n ==> camel(Candidate(base, m)) in taken
  }

  /** The candidates before the `n`-th are taken, and `passed` holds numbered ones among them. */
  ghost predicate Passed(base: string, taken: set<string>, camel: string -> string, passed: set<string>, n: nat) {
    && passed <= taken
    && (forall m: nat :: 1 <= m < n ==> camel(Candidate(base, m)) in taken)
    && (forall c :: c in passed ==> PassedAt(base, camel, c, n))
  }

  ghost predicate PassedAt(base: string, camel: string -> string, c: string, n: nat) {
    exists m: nat :: 2 <= m < n && c == camel(Candidate(base, m))
  }

  lemma PassOne(base: string, taken: set<string>, camel: string -> string, passed: set<string>, n: nat)
    requires TellsNumbersApart(camel) && Passed(base, taken, camel, passed, n) && n >= 2
    requires camel(Candidate(base, n)) in taken
    ensures var more := passed + {camel(Candidate(base, n))};
            Passed(base, taken, camel, more, n + 1) && |taken - more| < |taken - passed|
  {
    var c := camel(Candidate(base, n));
    forall d | d in passed ensures d != c && PassedAt(base, camel, d, n + 1) {
      var m: nat :| 2 <= m < n && d == camel(Candidate(base, m));
    }
    assert taken - passed == (taken - (passed + {c})) + {c};
  }

  /** Ends because only finitely many identifiers are taken. */
  method FreeName(base: string, taken: set<string>, camel: string -> string) returns (name: string)
    requires TellsNumbersApart(camel)
    ensures IsFirstFree(base, taken, camel, name)
  {
    name := base;
    var n := 2;
    if camel(name) !in taken {
      assert FreeAt(base, taken, camel, name, 1);
      return;
    }
    name := Candidate(base, n);
    ghost var passed: set<string> := {};
    while camel(name) in taken
      invariant n >= 2 && name == Candidate(base, n) && Passed(base, taken, camel, passed, n)
      decreases |taken - passed|
    {
      PassOne(base, taken, camel, passed, n);
      passed := passed + {camel(name)};
      n := n + 1;
      name := Candidate(base, n);
    }
    assert FreeAt(base, taken, camel, name, n);
  }

  // ---- The fields with their names ----

  /** A field that was there, or an inserted one with its name. */
  datatype Entry = Kept(field: Field) | Inserted(name: string, len: nat)
  {
    function Plain(): Field { if Kept? then field else Padding(len) }

    function Name(): Option<string> {
      match this
      case Kept(f) => if f.Named? then Some(f.name) else None
      case Inserted(name, _) => Some(name)
    }
  }

  function Plains(entries: seq<Entry>): (r: seq<Field>)
    ensures |r| == |entries| && forall i :: 0 <= i < |r| ==> r[i] == entries[i].Plain()
  {
    seq(|entries|, i requires 0 <= i < |entries| => entries[i].Plain())
  }

  /** No inserted field becomes the identifier of any other field. */
  ghost predicate NoClash(entries: seq<Entry>, camel: string -> string) {
    forall i, j :: 0 <= i < |entries| && 0 <= j < |entries| && i != j && entries[i].Inserted? && entries[j].Name().Some? ==>
                     camel(entries[i].name) != camel(entries[j].Name().value)
  }

  /** Every identifier in use is taken, and every named field's was from the start. */
  ghost predicate AllTaken(fields: seq<Field>, entries: seq<Entry>, taken: set<string>, camel: string -> string) {
    && (forall i :: 0 <= i < |fields| && fields[i].Named? ==> camel(fields[i].name) in taken)
    && (forall i :: 0 <= i < |entries| && entries[i].Name().Some? ==> camel(entries[i].Name().value) in taken)
  }

  /** An inserted field clashes with no field of the struct either, seen or still to come. */
  ghost predicate ClearOf(fields: seq<Field>, entries: seq<Entry>, camel: string -> string) {
    forall i, j :: 0 <= i < |entries| && 0 <= j < |fields| && entries[i].Inserted? && fields[j].Named? ==>
                     camel(entries[i].name) != camel(fields[j].name)
  }

  ghost predicate WellNamed(fields: seq<Field>, entries: seq<Entry>, taken: set<string>, camel: string -> string) {
    AllTaken(fields, entries, taken, camel) && NoClash(entries, camel) && ClearOf(fields, entries, camel)
  }

  lemma AddInserted(fields: seq<Field>, entries: seq<Entry>, taken: set<string>, camel: string -> string, base: string,
                    name: string, len: nat)
    requires WellNamed(fields, entries, taken, camel) && IsFirstFree(base, taken, camel, name)
    ensures WellNamed(fields, entries + [Inserted(name, len)], taken + {camel(name)}, camel)
  {
  }

  lemma AddKept(fields: seq<Field>, entries: seq<Entry>, taken: set<string>, camel: string -> string, k: nat)
    requires WellNamed(fields, entries, taken, camel) && k < |fields|
    ensures WellNamed(fields, entries + [Kept(fields[k])], taken, camel)
  {
  }

  lemma PlainsOneMore(entries: seq<Entry>, e: Entry)
    ensures Plains(entries + [e]) == Plains(entries) + [e.Plain()]
  {
  }

  /** The identifiers of the struct's own fields. */
  function Own(fields: seq<Field>, camel: string -> string): set<string> {
    set i | 0 <= i < |fields| && fields[i].Named? :: camel(fields[i].name)
  }

  /** The identifiers of the inserted ones. */
  function Given(entries: seq<Entry>, camel: string -> string): set<string> {
    set i | 0 <= i < |entries| && entries[i].Inserted? :: camel(entries[i].name)
  }

  /** A gap is named after the field behind it, the one at the end by its place. */
  function BaseAt(entries: seq<Entry>, i: nat): string
    requires i < |entries|
  {
    if i + 1 < |entries| && entries[i + 1].Kept? && entries[i + 1].field.Named?
    then "padding_before_" + entries[i + 1].field.name else "padding_end"
  }

  ghost predicate LabelledAt(fields: seq<Field>, entries: seq<Entry>, camel: string -> string, i: nat)
    requires i < |entries| && entries[i].Inserted?
  {
    IsFirstFree(BaseAt(entries, i), Own(fields, camel) + Given(entries[..i], camel), camel, entries[i].name)
  }

  /** Every inserted field has the first free name of its gap. */
  ghost predicate Labelled(fields: seq<Field>, entries: seq<Entry>, camel: string -> string) {
    forall i :: 0 <= i < |entries| && entries[i].Inserted? ==> LabelledAt(fields, entries, camel, i)
  }

  predicate EndsKept(entries: seq<Entry>) { entries == [] || entries[|entries| - 1].Kept? }

  lemma LabelledMore(fields: seq<Field>, entries: seq<Entry>, camel: string -> string, more: seq<Entry>)
    requires Labelled(fields, entries, camel) && EndsKept(entries) && 0 < |more| <= 2
    requires |more| == 2 ==> more[0].Inserted? && more[1].Kept? && more[1].field.Named?
    requires more[0].Inserted? ==>
               IsFirstFree(if |more| == 2 then "padding_before_" + more[1].field.name else "padding_end",
                           Own(fields, camel) + Given(entries, camel), camel, more[0].name)
    ensures Labelled(fields, entries + more, camel)
  {
    var all := entries + more;
    forall i | 0 <= i < |all| && all[i].Inserted? ensures LabelledAt(fields, all, camel, i) {
      if i < |entries| {
        assert LabelledAt(fields, entries, camel, i);
        assert all[..i] == entries[..i] && i + 1 < |entries|;
      } else {
        assert all[..i] == entries;
      }
    }
  }

  lemma GivenMore(entries: seq<Entry>, camel: string -> string, e: Entry)
    ensures Given(entries + [e], camel) == Given(entries, camel) + if e.Inserted? then {camel(e.name)} else {}
  {
    var all := entries + [e];
    forall c ensures c in Given(all, camel) <==> c in Given(entries, camel) || (e.Inserted? && c == camel(e.name)) {
      if c in Given(entries, camel) {
        var i :| 0 <= i < |entries| && entries[i].Inserted? && c == camel(entries[i].name);
        assert all[i] == entries[i];
      }
      if e.Inserted? && c == camel(e.name) { assert all[|entries|] == e; }
    }
  }

  method Identifiers(fields: seq<Field>, camel: string -> string) returns (taken: set<string>)
    ensures taken == Own(fields, camel)
  {
    taken := {};
    for i := 0 to |fields|
      invariant taken == Own(fields[..i], camel)
    {
      var init, more := fields[..i], fields[..i + 1];
      assert more == init + [fields[i]];
      forall c ensures c in Own(more, camel) <==> c in Own(init, camel) || (fields[i].Named? && c == camel(fields[i].name)) {
        if c in Own(init, camel) {
          var j :| 0 <= j < i && init[j].Named? && c == camel(init[j].name);
          assert more[j] == init[j];
        }
        if fields[i].Named? && c == camel(fields[i].name) { assert more[i] == fields[i]; }
      }
      if fields[i].Named? { taken := taken + {camel(fields[i].name)}; }
    }
    assert fields[..|fields|] == fields;
  }

  /** The padded fields so far, what is taken, and how they are named. */
  ghost predicate NamedSoFar(fields: seq<Field>, l: Layout, out: seq<Entry>, taken: set<string>, camel: string -> string, i: nat)
    requires |l.pads| == |fields| && i <= |fields|
  {
    && Plains(out) == Interleave(fields, l.pads, i) && WellNamed(fields, out, taken, camel)
    && taken == Own(fields, camel) + Given(out, camel) && Labelled(fields, out, camel) && EndsKept(out)
  }

  lemma NamedAtStart(fields: seq<Field>, l: Layout, camel: string -> string)
    requires |l.pads| == |fields|
    ensures NamedSoFar(fields, l, [], Own(fields, camel), camel, 0)
  {
    assert Given([], camel) == {};
  }

  lemma NamedOneMore(fields: seq<Field>, l: Layout, out: seq<Entry>, taken: set<string>, camel: string -> string, i: nat, name: string)
    requires |l.pads| == |fields| && i < |fields| && l.pads[i] > 0 && fields[i].Named?
    requires NamedSoFar(fields, l, out, taken, camel, i) && IsFirstFree("padding_before_" + fields[i].name, taken, camel, name)
    ensures NamedSoFar(fields, l, out + [Inserted(name, l.pads[i]), Kept(fields[i])], taken + {camel(name)}, camel, i + 1)
  {
    var e, k := Inserted(name, l.pads[i]), Kept(fields[i]);
    assert out + [e, k] == out + [e] + [k];
    AddInserted(fields, out, taken, camel, "padding_before_" + fields[i].name, name, l.pads[i]);
    AddKept(fields, out + [e], taken + {camel(name)}, camel, i);
    PlainsOneMore(out, e);
    PlainsOneMore(out + [e], k);
    GivenMore(out, camel, e);
    GivenMore(out + [e], camel, k);
    LabelledMore(fields, out, camel, [e, k]);
  }

  lemma KeptOneMore(fields: seq<Field>, l: Layout, out: seq<Entry>, taken: set<string>, camel: string -> string, i: nat)
    requires |l.pads| == |fields| && i < |fields| && l.pads[i] == 0 && NamedSoFar(fields, l, out, taken, camel, i)
    ensures NamedSoFar(fields, l, out + [Kept(fields[i])], taken, camel, i + 1)
  {
    var k := Kept(fields[i]);
    AddKept(fields, out, taken, camel, i);
    PlainsOneMore(out, k);
    GivenMore(out, camel, k);
    LabelledMore(fields, out, camel, [k]);
  }

  lemma NamedAtEnd(fields: seq<Field>, l: Layout, out: seq<Entry>, taken: set<string>, camel: string -> string, name: string)
    requires |l.pads| == |fields| && l.tail > 0
    requires NamedSoFar(fields, l, out, taken, camel, |fields|) && IsFirstFree("padding_end", taken, camel, name)
    ensures var all := out + [Inserted(name, l.tail)];
            Plains(all) == PaddedBy(fields, l) && NoClash(all, camel) && Labelled(fields, all, camel)
  {
    AddInserted(fields, out, taken, camel, "padding_end", name, l.tail);
    PlainsOneMore(out, Inserted(name, l.tail));
    LabelledMore(fields, out, camel, [Inserted(name, l.tail)]);
  }

  /** One field, behind its gap if it has one. */
  method NameOne(fields: seq<Field>, l: Layout, out: seq<Entry>, taken: set<string>, camel: string -> string, i: nat)
    returns (out': seq<Entry>, taken': set<string>)
    requires TellsNumbersApart(camel) && |l.pads| == |fields| && i < |fields| && (l.pads[i] > 0 ==> fields[i].Named?)
    requires NamedSoFar(fields, l, out, taken, camel, i)
    ensures NamedSoFar(fields, l, out', taken', camel, i + 1)
  {
    if l.pads[i] > 0 {
      var name := FreeName("padding_before_" + fields[i].name, taken, camel);
      NamedOneMore(fields, l, out, taken, camel, i, name);
      return out + [Inserted(name, l.pads[i]), Kept(fields[i])], taken + {camel(name)};
    }
    KeptOneMore(fields, l, out, taken, camel, i);
    return out + [Kept(fields[i])], taken;
  }

  /**
   * The padded fields. Each gap has the first candidate name that no field of the struct and no gap
   * before it has taken, so that no two clash.
   */
  method NamePadding(fields: seq<Field>, l: Layout, camel: string -> string) returns (out: seq<Entry>)
    requires |l.pads| == |fields| && TellsNumbersApart(camel)
    requires forall i :: 0 <= i < |fields| && l.pads[i] > 0 ==> fields[i].Named?
    ensures Plains(out) == PaddedBy(fields, l) && NoClash(out, camel) && Labelled(fields, out, camel)
  {
    var taken := Identifiers(fields, camel);
    out := [];
    NamedAtStart(fields, l, camel);
    for i := 0 to |fields|
      invariant NamedSoFar(fields, l, out, taken, camel, i)
    {
      out, taken := NameOne(fields, l, out, taken, camel, i);
    }
    if l.tail > 0 {
      var name := FreeName("padding_end", taken, camel);
      NamedAtEnd(fields, l, out, taken, camel, name);
      out := out + [Inserted(name, l.tail)];
    }
  }
}
