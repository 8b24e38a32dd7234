/** The record maps of a slot buffer: sorted lists of entries in place of a `BTreeMap`. */
module Records {
  // A sort key is the concatenation of its fields, which orders it exactly as the derived `Ord` of
  // `InstructionRecordSortKey` and `AccountRecordSortKey` does.

  import opened Basics

  type Key = seq<nat>

  datatype Entry<+R> = Entry(key: Key, record: R)

  function InstructionKey(txIndex: nat, ixPath: seq<nat>): Key { [txIndex] + ixPath }

  /** Field order: the transaction index decides first, then the path lexicographically. */
  lemma InstructionKeyOrder(tx: nat, path: seq<nat>, tx': nat, path': seq<nat>)
    ensures LexLess(InstructionKey(tx, path), InstructionKey(tx', path'))
            <==> tx < tx' || (tx == tx' && LexLess(path, path'))
    ensures InstructionKey(tx, path) == InstructionKey(tx', path') <==> tx == tx' && path == path'
  {
    var a, b := InstructionKey(tx, path), InstructionKey(tx', path');
    assert a[1..] == path && b[1..] == path';
  }

  predicate Sorted<R>(s: seq<Entry<R>>) {
    forall i, j :: 0 <= i < j < |s| ==> LexLess(s[i].key, s[j].key)
  }

  function Insert<R>(s: seq<Entry<R>>, key: Key, record: R): seq<Entry<R>> {
    if s == [] || LexLess(key, s[0].key) then [Entry(key, record)] + s
    else if key == s[0].key then [Entry(key, record)] + s[1..]
    else [s[0]] + Insert(s[1..], key, record)
  }

  function Values<R>(s: seq<Entry<R>>): (r: seq<R>)
    ensures |r| == |s|
    ensures forall i :: 0 <= i < |s| ==> r[i] == s[i].record
  {
    seq(|s|, i requires 0 <= i < |s| => s[i].record)
  }

  /** An insert keeps the entries sorted, binds the key, and leaves every other entry alone. */
  lemma {:induction false} InsertIsMapUpdate<R(!new)>(s: seq<Entry<R>>, key: Key, record: R)
    requires Sorted(s)
    ensures Sorted(Insert(s, key, record))
    ensures forall e: Entry<R> :: e in Insert(s, key, record) <==>
                                  e == Entry(key, record) || (e in s && e.key != key)
  {
    if s == [] {
    } else if LexLess(key, s[0].key) {
      forall i | 0 <= i < |s| ensures LexLess(key, s[i].key) && s[i].key != key {
        if i > 0 { LexTransitive(key, s[0].key, s[i].key); }
        LexTrichotomy(key, s[i].key);
      }
    } else if key == s[0].key {
      forall i | 0 < i < |s| ensures s[i].key != key {
        LexTrichotomy(key, key);
      }
      assert s == [s[0]] + s[1..];
    } else {
      InsertIsMapUpdate(s[1..], key, record);
      LexTrichotomy(key, s[0].key);
      var rest := Insert(s[1..], key, record);
      forall i | 0 <= i < |rest| ensures LexLess(s[0].key, rest[i].key) {
        assert rest[i] in rest;
      }
      assert s == [s[0]] + s[1..];
    }
  }

  /** A sorted list is determined by its entries. */
  lemma {:induction false} SortedUnique<R(!new)>(a: seq<Entry<R>>, b: seq<Entry<R>>)
    requires Sorted(a) && Sorted(b)
    requires forall e: Entry<R> :: e in a <==> e in b
    ensures a == b
  {
    if a != [] && b != [] {
      assert a[0] in a && b[0] in b;
      FirstIsLeast(b, a[0]);
      FirstIsLeast(a, b[0]);
      LexTrichotomy(a[0].key, b[0].key);
      TailMembers(a);
      TailMembers(b);
      SortedUnique(a[1..], b[1..]);
      assert a == [a[0]] + a[1..] && b == [b[0]] + b[1..];
    } else if a != [] {
      FirstIn(a);
    } else if b != [] {
      FirstIn(b);
    }
  }

  lemma FirstIn<R>(s: seq<Entry<R>>)
    requires s != []
    ensures s[0] in s
  {
  }

  lemma FirstIsLeast<R>(s: seq<Entry<R>>, e: Entry<R>)
    requires Sorted(s) && e in s
    ensures e == s[0] || LexLess(s[0].key, e.key)
  {
    var i :| 0 <= i < |s| && s[i] == e;
  }

  lemma TailMembers<R(!new)>(s: seq<Entry<R>>)
    requires Sorted(s) && s != []
    ensures forall e: Entry<R> :: e in s[1..] <==> e in s && e != s[0]
  {
    assert s == [s[0]] + s[1..];
    forall e | e in s[1..] ensures e != s[0] {
      var i :| 0 <= i < |s[1..]| && s[1..][i] == e;
      LexTrichotomy(s[0].key, s[i + 1].key);
    }
  }
}
