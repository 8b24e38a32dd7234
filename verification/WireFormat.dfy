/** The Confluent wire format: a magic byte, the schema id, zigzag varint indices, the payload. */
module WireFormat {
  import opened Basics

  type Byte = x: int | 0 <= x < 256

  const I32_MIN: int := -0x8000_0000
  const I32_MAX: int := 0x7FFF_FFFF
  const I64_MIN: int := -0x8000_0000_0000_0000
  const I64_MAX: int := 0x7FFF_FFFF_FFFF_FFFF
  const U64_MODULUS: int := 0x1_0000_0000_0000_0000

  type I32 = x: int | I32_MIN <= x <= I32_MAX
  type I64 = x: int | I64_MIN <= x <= I64_MAX
  type U64 = x: int | 0 <= x < U64_MODULUS

  const MAX_VARINT_SIZE: nat := 10

  // ---- Zigzag ----

  /** `v << 1` on 64 bits, read as unsigned. */
  function ShiftLeftOne(v: I64): U64 { (2 * v) % U64_MODULUS }

  /** The xor with the sign, which is all zeros or all ones. */
  function Zigzag(v: I64): U64 { if v >= 0 then ShiftLeftOne(v) else U64_MODULUS - 1 - ShiftLeftOne(v) }

  function Unzigzag(u: U64): I64 { if u % 2 == 0 then u / 2 else -(u / 2) - 1 }

  /** Signed and unsigned values correspond one to one; small magnitudes stay small. */
  lemma ZigzagIsBijective(v: I64, u: U64)
    ensures Unzigzag(Zigzag(v)) == v && Zigzag(Unzigzag(u)) == u
    ensures Zigzag(v) == if v >= 0 then 2 * v else -2 * v - 1
  {
    if v < 0 { assert (2 * v) % U64_MODULUS == 2 * v + U64_MODULUS; }
    var w := Unzigzag(u);
    if w < 0 { assert (2 * w) % U64_MODULUS == 2 * w + U64_MODULUS; }
  }

  // ---- Varints ----

  function Varint(u: nat): (bytes: seq<Byte>)
    ensures |bytes| >= 1
  {
    if u < 128 then [u] else [u % 128 + 128] + Varint(u / 128)
  }

  datatype Decoded<+T> = Decoded(value: T, rest: seq<Byte>)

  /** Reads one varint of at most `limit` bytes. */
  function ReadVarint(bytes: seq<Byte>, limit: nat): Option<Decoded<nat>> {
    if limit == 0 || bytes == [] then None
    else if bytes[0] < 128 then Some(Decoded(bytes[0], bytes[1..]))
    else
      var more := ReadVarint(bytes[1..], limit - 1);
      if more.None? then None else Some(Decoded(bytes[0] - 128 + 128 * more.value.value, more.value.rest))
  }

  /** Seven bits from each byte, the least significant first. */
  function Base128(bytes: seq<Byte>): nat { if bytes == [] then 0 else bytes[0] % 128 + 128 * Base128(bytes[1..]) }

  /** A varint is its number in groups of seven bits; the top bit of a byte says that more follow. */
  lemma {:induction false} VarintIsBase128(u: nat)
    ensures Base128(Varint(u)) == u
    ensures forall i :: 0 <= i < |Varint(u)| ==> (Varint(u)[i] >= 128 <==> i < |Varint(u)| - 1)
  {
    if u >= 128 { VarintIsBase128(u / 128); }
  }

  function Pow128(n: nat): nat { if n == 0 then 1 else 128 * Pow128(n - 1) }

  /** The length of a varint is the number of base-128 digits. */
  lemma {:induction false} VarintLength(u: nat, n: nat)
    requires n >= 1
    ensures |Varint(u)| <= n <==> u < Pow128(n)
  {
    if u >= 128 && n > 1 { VarintLength(u / 128, n - 1); }
    if n > 1 { assert Pow128(n) == 128 * Pow128(n - 1); PowPositive(n - 1); }
  }

  lemma {:induction false} PowPositive(n: nat)
    ensures Pow128(n) >= 1
  {
    if n > 0 { PowPositive(n - 1); }
  }

  lemma SixtyFourBitsTakeTenBytes(u: U64)
    ensures 1 <= |Varint(u)| <= MAX_VARINT_SIZE
  {
    assert Pow128(5) == 0x8_0000_0000;
    assert Pow128(10) == 0x40_0000_0000_0000_0000;
    VarintLength(u, 10);
  }

  lemma {:induction false} ReadVarintAfter(u: nat, rest: seq<Byte>, limit: nat)
    requires |Varint(u)| <= limit
    ensures ReadVarint(Varint(u) + rest, limit) == Some(Decoded(u, rest))
  {
    var bytes := Varint(u) + rest;
    if u >= 128 {
      assert bytes[1..] == Varint(u / 128) + rest;
      ReadVarintAfter(u / 128, rest, limit - 1);
    } else {
      assert bytes[1..] == rest;
    }
  }

  /** The iterator that yields a varint byte by byte. */
  class ZigzagIter {
    var value: nat
    var done: bool

    /** What it has still to yield. */
    ghost function Remaining(): seq<Byte>
      reads this
    {
      if done then [] else Varint(value)
    }

    constructor (v: I64)
      ensures Remaining() == Varint(Zigzag(v)) && fresh(this)
    {
      value := Zigzag(v);
      done := false;
    }

    method Next() returns (r: Option<Byte>)
      modifies this
      ensures r == if old(Remaining()) == [] then None else Some(old(Remaining())[0])
      ensures Remaining() == if old(Remaining()) == [] then [] else old(Remaining())[1..]
    {
      if done { return None; }
      var byte := value % 128;
      value := value / 128;
      if value != 0 { byte := byte + 128; } else { done := true; }
      return Some(byte);
    }
  }

  method Extend(buf: seq<Byte>, v: I64) returns (out: seq<Byte>)
    ensures out == buf + Varint(Zigzag(v))
  {
    out := buf;
    var it := new ZigzagIter(v);
    ghost var all := it.Remaining();
    var next := it.Next();
    while next.Some?
      invariant out + (if next.None? then [] else [next.value] + it.Remaining()) == buf + all
      invariant next.None? ==> it.Remaining() == []
      decreases if next.None? then 0 else 1 + |it.Remaining()|
    {
      out := out + [next.value];
      next := it.Next();
    }
  }

  // ---- The message ----

  function BigEndian(id: I32): (bytes: seq<Byte>)
    ensures |bytes| == 4
  {
    var u := id % 0x1_0000_0000;
    [u / 0x100_0000, u / 0x1_0000 % 256, u / 256 % 256, u % 256]
  }

  function FromBigEndian(b: seq<Byte>): I32
    requires |b| == 4
  {
    var b0: int, b1: int, b2: int, b3: int := b[0], b[1], b[2], b[3];
    var u := ((b0 * 256 + b1) * 256 + b2) * 256 + b3;
    if u > I32_MAX then u - 0x1_0000_0000 else u
  }

  lemma BigEndianRoundTrip(id: I32)
    ensures FromBigEndian(BigEndian(id)) == id
  {
    var u := id % 0x1_0000_0000;
    assert u / 0x1_0000 == u / 0x100_0000 * 256 + u / 0x1_0000 % 256;
    assert u / 256 == u / 0x1_0000 * 256 + u / 256 % 256;
    assert u == u / 256 * 256 + u % 256;
  }

  /** The value of bytes, the most significant first. */
  function Base256(bytes: seq<Byte>): nat {
    if bytes == [] then 0 else 256 * Base256(bytes[..|bytes| - 1]) + bytes[|bytes| - 1]
  }

  lemma FourBytes(b: seq<Byte>)
    requires |b| == 4
    ensures Base256(b) == if FromBigEndian(b) < 0 then FromBigEndian(b) + 0x1_0000_0000 else FromBigEndian(b)
  {
    assert b[..3][..2] == b[..2] && b[..2][..1] == b[..1] && b[..1][..0] == [];
    var b0: int, b1: int, b2: int, b3: int := b[0], b[1], b[2], b[3];
    assert Base256(b[..1]) == b0;
    assert Base256(b[..2]) == b0 * 256 + b1;
    assert Base256(b[..3]) == (b0 * 256 + b1) * 256 + b2;
    assert Base256(b) == ((b0 * 256 + b1) * 256 + b2) * 256 + b3;
  }

  lemma BigEndianIsBase256(id: I32)
    ensures Base256(BigEndian(id)) == if id < 0 then id + 0x1_0000_0000 else id
  {
    BigEndianRoundTrip(id);
    FourBytes(BigEndian(id));
  }

  function EncodedIndices(indices: seq<I32>, n: nat): seq<Byte>
    requires n <= |indices|
  {
    if n == 0 then [] else EncodedIndices(indices, n - 1) + Varint(Zigzag(indices[n - 1]))
  }

  function Wrapped(schemaId: I32, indices: seq<I32>, payload: seq<Byte>): seq<Byte>
    requires |indices| <= I64_MAX
  {
    [0] + BigEndian(schemaId) + Varint(Zigzag(|indices|)) + EncodedIndices(indices, |indices|) + payload
  }

  function WireFormatMaxCapacity(indicesCount: nat, payloadLen: nat): nat {
    1 + 4 + (1 + indicesCount) * MAX_VARINT_SIZE + payloadLen
  }

  lemma {:induction false} IndicesFit(indices: seq<I32>, n: nat)
    requires n <= |indices|
    ensures |EncodedIndices(indices, n)| <= n * MAX_VARINT_SIZE
  {
    if n > 0 {
      IndicesFit(indices, n - 1);
      SixtyFourBitsTakeTenBytes(Zigzag(indices[n - 1]));
    }
  }

  /** The buffer never outgrows the capacity it was given. */
  method WrapPayloadWithConfluentWireFormat(schemaId: I32, indices: seq<I32>, payload: seq<Byte>) returns (buf: seq<Byte>)
    requires |indices| <= I64_MAX
    ensures buf == Wrapped(schemaId, indices, payload)
    ensures |buf| <= WireFormatMaxCapacity(|indices|, |payload|)
  {
    buf := [0];
    buf := buf + BigEndian(schemaId);
    ghost var head := buf + Varint(Zigzag(|indices|));
    buf := Extend(buf, |indices|);
    for i := 0 to |indices|
      invariant buf == head + EncodedIndices(indices, i)
    {
      buf := Extend(buf, indices[i]);
    }
    buf := buf + payload;
    IndicesFit(indices, |indices|);
    SixtyFourBitsTakeTenBytes(Zigzag(|indices|));
  }

  /** A zero byte, the schema id with its most significant byte first, the number of indices, and the payload last. */
  lemma WrappedStarts(schemaId: I32, indices: seq<I32>, payload: seq<Byte>)
    requires |indices| <= I64_MAX
    ensures var w := Wrapped(schemaId, indices, payload);
            && |w| >= 5 + |payload| && w[0] == 0 && w[|w| - |payload|..] == payload
            && Base256(w[1..5]) == (if schemaId < 0 then schemaId + 0x1_0000_0000 else schemaId)
            && Varint(2 * |indices|) <= w[5..]
  {
    var w, count := Wrapped(schemaId, indices, payload), Varint(Zigzag(|indices|));
    BigEndianIsBase256(schemaId);
    Pieces([0], BigEndian(schemaId), count, EncodedIndices(indices, |indices|), payload);
  }

  lemma Pieces(head: seq<Byte>, id: seq<Byte>, count: seq<Byte>, indices: seq<Byte>, payload: seq<Byte>)
    requires |head| == 1 && |id| == 4
    ensures var w := head + id + count + indices + payload;
            && |w| >= 5 + |payload| && w[0] == head[0] && w[1..5] == id && count <= w[5..] && w[|w| - |payload|..] == payload
  {
    assert (head + id + count + indices + payload)[5..] == count + (indices + payload);
  }

  // ---- Reading it back ----

  datatype Message = Message(schemaId: I32, indices: seq<int>, payload: seq<Byte>)

  function ReadSigned(bytes: seq<Byte>): Option<Decoded<int>> {
    var r := ReadVarint(bytes, MAX_VARINT_SIZE);
    if r.None? || r.value.value >= U64_MODULUS then None else Some(Decoded(Unzigzag(r.value.value), r.value.rest))
  }

  function ReadIndices(bytes: seq<Byte>, count: nat): Option<Decoded<seq<int>>>
    decreases count
  {
    if count == 0 then Some(Decoded([], bytes)) else
      var first := ReadSigned(bytes);
      if first.None? then None else
        var more := ReadIndices(first.value.rest, count - 1);
        if more.None? then None else Some(Decoded([first.value.value] + more.value.value, more.value.rest))
  }

  function Unwrap(bytes: seq<Byte>): Option<Message> {
    if |bytes| < 5 || bytes[0] != 0 then None else
      var count := ReadSigned(bytes[5..]);
      if count.None? || count.value.value < 0 then None else
        var indices := ReadIndices(count.value.rest, count.value.value);
        if indices.None? then None
        else Some(Message(FromBigEndian(bytes[1..5]), indices.value.value, indices.value.rest))
  }

  lemma ReadSignedAfter(v: I64, rest: seq<Byte>)
    ensures ReadSigned(Varint(Zigzag(v)) + rest) == Some(Decoded(v, rest))
  {
    ZigzagIsBijective(v, 0);
    SixtyFourBitsTakeTenBytes(Zigzag(v));
    ReadVarintAfter(Zigzag(v), rest, MAX_VARINT_SIZE);
  }

  lemma {:induction false} EncodedIndicesFirst(indices: seq<I32>, n: nat)
    requires 1 <= n <= |indices|
    ensures EncodedIndices(indices, n) == Varint(Zigzag(indices[0])) + EncodedIndices(indices[1..], n - 1)
  {
    if n > 1 { EncodedIndicesFirst(indices, n - 1); }
  }

  lemma {:induction false} ReadIndicesAfter(indices: seq<I32>, rest: seq<Byte>)
    ensures ReadIndices(EncodedIndices(indices, |indices|) + rest, |indices|) == Some(Decoded(indices, rest))
  {
    if indices != [] {
      EncodedIndicesFirst(indices, |indices|);
      var tail := EncodedIndices(indices[1..], |indices| - 1) + rest;
      assert EncodedIndices(indices, |indices|) + rest == Varint(Zigzag(indices[0])) + tail;
      ReadSignedAfter(indices[0], tail);
      ReadIndicesAfter(indices[1..], rest);
      assert [indices[0]] + indices[1..] == indices;
    } else {
      assert EncodedIndices(indices, 0) + rest == rest;
    }
  }

  /** Every wrapped payload unwraps to exactly what was put in. */
  lemma UnwrapWrapped(schemaId: I32, indices: seq<I32>, payload: seq<Byte>)
    requires |indices| <= I64_MAX
    ensures Unwrap(Wrapped(schemaId, indices, payload)) == Some(Message(schemaId, indices, payload))
  {
    var bytes := Wrapped(schemaId, indices, payload);
    var body := EncodedIndices(indices, |indices|) + payload;
    assert bytes[1..5] == BigEndian(schemaId);
    assert bytes[5..] == Varint(Zigzag(|indices|)) + body;
    BigEndianRoundTrip(schemaId);
    ReadSignedAfter(|indices|, body);
    ReadIndicesAfter(indices, payload);
  }
}
