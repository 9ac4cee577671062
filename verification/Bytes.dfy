/** Fixed-width integers and their big- and little-endian byte encodings. */
module Bytes {
  type byte = x: int | 0 <= x < 0x100
  type uint16 = x: int | 0 <= x < 0x1_0000
  type uint32 = x: int | 0 <= x < 0x1_0000_0000
  type int32 = x: int | -0x8000_0000 <= x < 0x8000_0000
  type int64 = x: int | -0x8000_0000_0000_0000 <= x < 0x8000_0000_0000_0000

  type Data = seq<byte>

  datatype Option<+T> = None | Some(value: T)

  function BE16(x: uint16): (s: Data)
    ensures |s| == 2
  {
    [x / 0x100, x % 0x100]
  }

  function FromBE16(s: Data): uint16
    requires |s| == 2
  {
    s[0] as int * 0x100 + s[1]
  }

  function BE32(x: uint32): (s: Data)
    ensures |s| == 4
  {
    BE16(x / 0x1_0000) + BE16(x % 0x1_0000)
  }

  function FromBE32(s: Data): uint32
    requires |s| == 4
  {
    FromBE16(s[..2]) * 0x1_0000 + FromBE16(s[2..])
  }

  function LE32(x: uint32): (s: Data)
    ensures |s| == 4
  {
    var hi, lo := x / 0x1_0000, x % 0x1_0000;
    [lo % 0x100, lo / 0x100, hi % 0x100, hi / 0x100]
  }

  function FromLE32(s: Data): uint32
    requires |s| == 4
  {
    s[0] as int + s[1] as int * 0x100 + s[2] as int * 0x1_0000 + s[3] as int * 0x100_0000
  }

  /** Signed integers travel as their two's complement. */
  function BEInt32(x: int32): (s: Data)
    ensures |s| == 4
  {
    BE32(if x < 0 then x + 0x1_0000_0000 else x)
  }

  function FromBEInt32(s: Data): int32
    requires |s| == 4
  {
    var u := FromBE32(s);
    if u < 0x8000_0000 then u else u - 0x1_0000_0000
  }

  function BEInt64(x: int64): (s: Data)
    ensures |s| == 8
  {
    var u := if x < 0 then x + 0x1_0000_0000_0000_0000 else x;
    BE32(u / 0x1_0000_0000) + BE32(u % 0x1_0000_0000)
  }

  function FromBEInt64(s: Data): int64
    requires |s| == 8
  {
    var u := FromBE32(s[..4]) * 0x1_0000_0000 + FromBE32(s[4..]);
    if u < 0x8000_0000_0000_0000 then u else u - 0x1_0000_0000_0000_0000
  }

  lemma RoundTrip16(x: uint16)
    ensures FromBE16(BE16(x)) == x
  {
  }

  lemma RoundTrip32(x: uint32)
    ensures FromBE32(BE32(x)) == x
  {
    assert BE32(x)[..2] == BE16(x / 0x1_0000);
    assert BE32(x)[2..] == BE16(x % 0x1_0000);
  }

  lemma RoundTripLE32(x: uint32)
    ensures FromLE32(LE32(x)) == x
  {
  }

  lemma RoundTripInt32(x: int32)
    ensures FromBEInt32(BEInt32(x)) == x
  {
    RoundTrip32(if x < 0 then x + 0x1_0000_0000 else x);
  }

  lemma RoundTripInt64(x: int64)
    ensures FromBEInt64(BEInt64(x)) == x
  {
    var u := if x < 0 then x + 0x1_0000_0000_0000_0000 else x;
    var s := BEInt64(x);
    assert s[..4] == BE32(u / 0x1_0000_0000);
    assert s[4..] == BE32(u % 0x1_0000_0000);
    RoundTrip32(u / 0x1_0000_0000);
    RoundTrip32(u % 0x1_0000_0000);
  }

  /** The encoding of a 16-bit value is the only two bytes that decode to it. */
  lemma Canonical16(s: Data)
    requires |s| == 2
    ensures BE16(FromBE16(s)) == s
  {
  }

  lemma Canonical32(s: Data)
    requires |s| == 4
    ensures BE32(FromBE32(s)) == s
  {
    var hi, lo := FromBE16(s[..2]), FromBE16(s[2..]);
    Canonical16(s[..2]);
    Canonical16(s[2..]);
    assert FromBE32(s) / 0x1_0000 == hi && FromBE32(s) % 0x1_0000 == lo;
    assert BE16(hi) + BE16(lo) == s[..2] + s[2..] == s;
  }

  lemma Assoc<T>(a: seq<T>, b: seq<T>, c: seq<T>)
    ensures (a + b) + c == a + (b + c)
  {
  }

  lemma SplitFirst<T>(a: seq<T>, b: seq<T>)
    requires b != []
    ensures a + b == a + [b[0]] + b[1..]
  {
  }

  /** The concatenation of a list of byte strings. */
  function Concat(parts: seq<Data>): Data
  {
    if parts == [] then [] else parts[0] + Concat(parts[1..])
  }

  lemma {:induction false} ConcatAppend(a: seq<Data>, b: seq<Data>)
    ensures Concat(a + b) == Concat(a) + Concat(b)
  {
    if a == [] {
      assert a + b == b;
    } else {
      ConcatAppend(a[1..], b);
      assert (a + b)[1..] == a[1..] + b;
      Assoc(a[0], Concat(a[1..]), Concat(b));
    }
  }

  predicate HasNoRepeats<T(==)>(s: seq<T>) {
    forall i, j :: 0 <= i < j < |s| ==> s[i] != s[j]
  }

  /** Whole turns of a 16- or 32-bit counter do not show. */
  lemma AddMultiple(x: int, j: int, modulus: nat)
    requires modulus in {0x1_0000, 0x1_0000_0000}
    ensures (x + modulus * j) % modulus == x % modulus
  {
  }

  /** The number in the bytes from an offset on, most significant byte first. */
  function Number32(s: Data, i: nat): int
    requires i + 4 <= |s|
  {
    s[i] as int * 0x100_0000 + s[i + 1] as int * 0x1_0000 + s[i + 2] as int * 0x100 + s[i + 3]
  }

  function Number16(s: Data, i: nat): int
    requires i + 2 <= |s|
  {
    s[i] as int * 0x100 + s[i + 1]
  }

  /** The same, least significant byte first. */
  function Little32(s: Data, i: nat): int
    requires i + 4 <= |s|
  {
    s[i + 3] as int * 0x100_0000 + s[i + 2] as int * 0x1_0000 + s[i + 1] as int * 0x100 + s[i]
  }

  function Little16(s: Data, i: nat): int
    requires i + 2 <= |s|
  {
    s[i + 1] as int * 0x100 + s[i]
  }

  /** Big-endian and little-endian, byte by byte. */
  lemma BytesByValue(x: uint32, y: uint16)
    ensures Number32(BE32(x), 0) == x && Number16(BE16(y), 0) == y && Little32(LE32(x), 0) == x
  {
  }

  /** A negative number is its two's complement. */
  lemma SignedByValue(x: int32, y: int64)
    ensures FromBE32(BEInt32(x)) == if x < 0 then x + 0x1_0000_0000 else x
    ensures FromBE32(BEInt64(y)[..4]) * 0x1_0000_0000 + FromBE32(BEInt64(y)[4..])
         == if y < 0 then y + 0x1_0000_0000_0000_0000 else y
  {
    RoundTrip32(if x < 0 then x + 0x1_0000_0000 else x);
    var u := if y < 0 then y + 0x1_0000_0000_0000_0000 else y;
    assert BEInt64(y)[..4] == BE32(u / 0x1_0000_0000) && BEInt64(y)[4..] == BE32(u % 0x1_0000_0000);
    RoundTrip32(u / 0x1_0000_0000);
    RoundTrip32(u % 0x1_0000_0000);
  }
}
