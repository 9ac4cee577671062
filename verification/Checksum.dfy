/** The plug-in's fast Internet checksum, and the checksum RFC 1071 defines. */
module Checksum {
  import opened Bytes

  // ----- RFC 1071, sections 1 and 4.1 -----

  /** Sum of the big-endian 16-bit words; an odd last byte is padded with a zero. */
  function WordSum(s: Data): nat {
    if |s| == 0 then 0
    else if |s| == 1 then s[0] as int * 0x100
    else s[0] as int * 0x100 + s[1] + WordSum(s[2..])
  }

  /** End-around carry: the one's complement sum held in an ordinary sum. */
  function Fold(x: nat): (r: nat)
    ensures r < 0x1_0000
    ensures r == 0 <==> x == 0
  {
    if x < 0x1_0000 then x else Fold(x % 0x1_0000 + x / 0x1_0000)
  }

  /** Folding only ever takes away multiples of 0xffff, as 2^16 is congruent to 1. */
  lemma {:induction false} FoldCongruent(x: nat) returns (m: nat)
    ensures x == Fold(x) + 0xffff * m
  {
    if x < 0x1_0000 {
      m := 0;
    } else {
      m := FoldCongruent(x % 0x1_0000 + x / 0x1_0000);
      m := m + x / 0x1_0000;
    }
  }

  function RfcChecksum(s: Data): uint16 {
    0xffff - Fold(WordSum(s))
  }

  /** What the plug-in transmits: it never sends the negative zero 0xffff. */
  function InternetChecksum(s: Data): uint16 {
    if WordSum(s) == 0 then 0 else RfcChecksum(s)
  }

  // ----- sums that may start in the middle of a word -----

  /** Sum of the bytes with weights 256 and 1 in turn; `high` is the weight of the first. */
  ghost function Weighted(s: Data, high: bool): nat {
    if s == [] then 0
    else s[0] as int * (if high then 0x100 else 1) + Weighted(s[1..], !high)
  }

  lemma {:induction false} WordSumIsWeighted(s: Data)
    ensures WordSum(s) == Weighted(s, true)
  {
    if |s| >= 2 {
      WordSumIsWeighted(s[2..]);
      assert s[1..][1..] == s[2..];
    }
  }

  lemma {:induction false} WeightedConcat(a: Data, b: Data, high: bool)
    ensures Weighted(a + b, high) == Weighted(a, high) + Weighted(b, high == (|a| % 2 == 0))
  {
    if a == [] {
      assert a + b == b;
    } else {
      assert (a + b)[1..] == a[1..] + b;
      WeightedConcat(a[1..], b, !high);
    }
  }

  /** RFC 1071, section 2 (A) and (C): a sum can be split at any even offset and computed in parts. */
  lemma {:induction false} WordSumConcat(a: Data, b: Data)
    requires |a| % 2 == 0
    ensures WordSum(a + b) == WordSum(a) + WordSum(b)
  {
    WordSumIsWeighted(a + b);
    WordSumIsWeighted(a);
    WordSumIsWeighted(b);
    WeightedConcat(a, b, true);
  }

  lemma {:induction false} WeightedZeros(n: nat, high: bool)
    ensures Weighted(seq(n, _ => 0), high) == 0
  {
    if n == 0 {
    } else {
      assert seq<byte>(n, _ => 0)[1..] == seq<byte>(n - 1, _ => 0);
      WeightedZeros(n - 1, !high);
    }
  }

  /** RFC 1071, section 2 (B): swapping the bytes of every word multiplies the sum by 256 (mod 0xffff). */
  lemma {:induction false} WeightedSwap(s: Data, high: bool) returns (k: int)
    ensures 0x100 * Weighted(s, high) == Weighted(s, !high) + 0xffff * k
  {
    if s == [] {
      k := 0;
    } else {
      k := WeightedSwap(s[1..], !high);
      if high {
        k := k + s[0];
      }
    }
  }

  // ----- the plug-in's code -----

  const TWO32: int := 0x1_0000_0000
  const TWO64: int := 0x1_0000_0000_0000_0000

  /** A zeroed 32-bit word with `s` copied in at `offset`, read in network byte order. */
  function LoadWord(offset: nat, s: Data): uint32
    requires offset + |s| <= 4
  {
    FromBE32(seq(offset, _ => 0) + s + seq(4 - offset - |s|, _ => 0))
  }

  /** A 32-bit word and its four bytes weigh the same, as 2^16 is congruent to 1. */
  lemma WordWeight(s: Data) returns (k: nat)
    requires |s| == 4
    ensures FromBE32(s) == Weighted(s, true) + 0xffff * k
  {
    assert s[1..][1..] == s[2..] && s[2..][1..] == s[3..] && s[3..][1..] == [];
    assert Weighted(s[3..], false) == s[3];
    assert Weighted(s[2..], true) == s[2] as int * 0x100 + s[3];
    assert Weighted(s[1..], false) == s[1] + Weighted(s[2..], true);
    k := s[0] as int * 0x100 + s[1];
  }

  lemma LoadWordWeight(offset: nat, s: Data) returns (k: nat)
    requires offset + |s| <= 4
    ensures LoadWord(offset, s) == Weighted(s, offset % 2 == 0) + 0xffff * k
  {
    var before: Data, after: Data := seq(offset, _ => 0), seq(4 - offset - |s|, _ => 0);
    k := WordWeight(before + s + after);
    WeightedConcat(before + s, after, true);
    WeightedConcat(before, s, true);
    WeightedZeros(offset, true);
    WeightedZeros(4 - offset - |s|, true);
    WeightedZeros(4 - offset - |s|, false);
  }

  lemma WeightedExtend(s: Data, i: nat, j: nat, high: bool)
    requires i <= j <= |s|
    ensures Weighted(s[..j], high) == Weighted(s[..i], high) + Weighted(s[i..j], high == (i % 2 == 0))
  {
    assert s[..j] == s[..i] + s[i..j];
    WeightedConcat(s[..i], s[i..j], high);
  }

  /** The 16-bit one's complement value congruent to a non-zero sum is unique. */
  lemma FoldUnique(x: nat, acc: nat, k: int)
    requires 0 < acc < 0x1_0000
    requires acc == x + 0xffff * k
    ensures acc == if x == 0 then 0xffff else Fold(x)
  {
    var r := Fold(x);
    var m := FoldCongruent(x);
    assert acc == r + 0xffff * (m + k);
  }

  /**
   * The first half of the computation: the partial block up to a 4-byte boundary, the
   * complete blocks, and the partial block at the end, added into a 64-bit accumulator.
   * Additions are written with their wrap-around; none ever wraps.
   */
  method SumBlocks(data: Data, offset: nat) returns (acc: nat, ghost k: nat)
    requires |data| <= 0x4_0000_0000 - 8
    requires offset < 4
    ensures acc < TWO64
    ensures acc == 0xffff + Weighted(data, offset % 2 == 0) + 0xffff * k
  {
    ghost var high := offset % 2 == 0;
    acc, k := 0xffff, 0;
    var p := 0;
    assert data[..0] == [];
    if offset != 0 {
      p := if 4 - offset > |data| then |data| else 4 - offset;
      acc, k := AddWord(acc, LoadWord(offset, data[0..p]), k, data, 0, p, offset, high);
    }
    p, acc, k := SumCompleteBlocks(data, p, acc, k, high);
    if p < |data| {
      acc, k := AddWord(acc, LoadWord(0, data[p..|data|]), k, data, p, |data|, 0, high);
    }
    assert data[..|data|] == data;
  }

  method SumCompleteBlocks(data: Data, start: nat, acc0: nat, ghost k0: nat, ghost high: bool)
    returns (p: nat, acc: nat, ghost k: nat)
    requires start <= |data| <= 0x4_0000_0000 - 8
    requires start < |data| ==> high == (start % 2 == 0)
    requires acc0 <= 0xffff + 0xffff_ffff
    requires acc0 == 0xffff + Weighted(data[..start], high) + 0xffff * k0
    ensures start <= p <= |data| < p + 4
    ensures p < |data| ==> high == (p % 2 == 0)
    ensures acc < TWO64 - 0xffff_ffff
    ensures acc == 0xffff + Weighted(data[..p], high) + 0xffff * k
  {
    ghost var blocks: nat, total: nat := 0, (|data| - start) / 4;
    acc, k, p := acc0, k0, start;
    var end := start + (|data| - start) / 4 * 4;
    while p != end
      invariant p == start + 4 * blocks && end == start + 4 * total && blocks <= total
      invariant acc <= 0xffff + (blocks + 1) * 0xffff_ffff
      invariant acc == 0xffff + Weighted(data[..p], high) + 0xffff * k
      decreases end - p
    {
      SameParity(start, blocks);
      acc, k := AddWord(acc, LoadWord(0, data[p..p + 4]), k, data, p, p + 4, 0, high);
      blocks := blocks + 1;
      p := p + 4;
    }
    SameParity(start, total);
  }

  lemma SameParity(start: nat, blocks: nat)
    ensures (start + 4 * blocks) % 2 == start % 2
  {
  }

  /** One addition: the bytes s[p..q], loaded at `offset` into a word, join the accumulator. */
  method AddWord(acc: nat, word: uint32, ghost k: nat, ghost s: Data, ghost p: nat, ghost q: nat,
                 ghost offset: nat, ghost high: bool)
    returns (acc': nat, ghost k': nat)
    requires p <= q <= |s| && offset + q - p <= 4
    requires word == LoadWord(offset, s[p..q])
    requires (offset % 2 == 0) == (high == (p % 2 == 0))
    requires acc + 0xffff_ffff < TWO64
    requires acc == 0xffff + Weighted(s[..p], high) + 0xffff * k
    ensures acc <= acc' <= acc + 0xffff_ffff
    ensures acc' == 0xffff + Weighted(s[..q], high) + 0xffff * k'
  {
    acc' := (acc + word) % TWO64;
    ghost var j := LoadWordWeight(offset, s[p..q]);
    WeightedExtend(s, p, q, high);
    k' := k + j;
  }

  /** The second half: deferred carries, each a multiple of 2^16 - 1 taken away. */
  method FoldCarries(sum: nat) returns (acc: nat, ghost j: int)
    requires 0 < sum < TWO64
    ensures 0 < acc < 0x1_0000
    ensures acc == sum + 0xffff * j
  {
    j := -0x1_0001 * (sum / TWO32);
    acc := sum % TWO32 + sum / TWO32;
    while acc / 0x1_0000 != 0
      invariant 0 < acc && acc == sum + 0xffff * j
      decreases acc
    {
      j := j - acc / 0x1_0000;
      acc := acc % 0x1_0000 + acc / 0x1_0000;
    }
  }

  /**
   * Checksum of a buffer whose first byte lies at `address`. The result is the value of
   * the two bytes stored in network order; it does not depend on the address.
   */
  method IpChecksum(data: Data, address: nat) returns (sum: uint16)
    requires |data| <= 0x4_0000_0000 - 8
    ensures sum == InternetChecksum(data)
  {
    var offset := address % 4;
    var acc, k := SumBlocks(data, offset);
    ghost var j: int;
    acc, j := FoldCarries(acc);
    j := j + 1 + k;
    assert acc == Weighted(data, offset % 2 == 0) + 0xffff * j;
    WordSumIsWeighted(data);
    if offset % 2 == 1 {
      ghost var i := WeightedSwap(data, false);
      j := i + 0x100 * j - acc / 0x100;
      acc := acc / 0x100 + acc % 0x100 * 0x100;
    }
    FoldUnique(WordSum(data), acc, j);
    sum := 0xffff - acc;
  }

  // ----- what the checksum means -----

  /** The transmitted value is the negated sum mod 0xffff, in the range 0 .. 0xfffe. */
  lemma ChecksumNegatesSum(s: Data)
    ensures 0 <= InternetChecksum(s) <= 0xfffe
    ensures (InternetChecksum(s) + WordSum(s)) % 0xffff == 0
  {
    if WordSum(s) != 0 {
      var k := FoldCongruent(WordSum(s));
      MultipleOf(k + 1);
    }
  }

  lemma MultipleOf(k: nat)
    ensures 0xffff * k % 0xffff == 0
  {
  }

  /** Only a buffer of zero bytes sums to zero, so only there do the two checksums differ. */
  lemma {:induction false} ZeroSum(s: Data)
    ensures WordSum(s) == 0 <==> forall i :: 0 <= i < |s| ==> s[i] == 0
  {
    if |s| >= 2 {
      ZeroSum(s[2..]);
      assert forall i :: 2 <= i < |s| ==> s[i] == s[2..][i - 2];
      assert forall i :: 0 <= i < |s| - 2 ==> s[2..][i] == s[i + 2];
    }
  }

  lemma ChecksumIsRfcUnlessZero(s: Data)
    ensures InternetChecksum(s) == RfcChecksum(s) <==> exists i :: 0 <= i < |s| && s[i] != 0
  {
    ZeroSum(s);
  }

  /**
   * The receiver's test of RFC 1071, section 1 (3): the sum of a buffer and its checksum is
   * all ones. The checksum of the RFC passes it for every buffer; the transmitted one fails it
   * for buffers of zeros, and only for them.
   */
  lemma ReceiverAccepts(s: Data)
    ensures Fold(WordSum(s) + RfcChecksum(s)) == 0xffff
    ensures Fold(WordSum(s) + InternetChecksum(s)) == 0xffff <==> exists i :: 0 <= i < |s| && s[i] != 0
    ensures |s| % 2 == 0 ==> forall c: uint16 :: WordSum(s + BE16(c)) == WordSum(s) + c
  {
    ZeroSum(s);
    var k := FoldCongruent(WordSum(s));
    var m: int := k;
    FoldUnique(WordSum(s) + RfcChecksum(s), 0xffff, -m);
    if |s| % 2 == 0 {
      forall c: uint16
        ensures WordSum(s + BE16(c)) == WordSum(s) + c
      {
        AppendedSum(s, c);
      }
    }
  }

  lemma AppendedSum(s: Data, c: uint16)
    requires |s| % 2 == 0
    ensures WordSum(s + BE16(c)) == WordSum(s) + c
  {
    WordSumConcat(s, BE16(c));
    assert WordSum(BE16(c)) == c + WordSum(BE16(c)[2..]);
  }

  /**
   * The dump of section 6.4 of the plug-in's documentation: ten times "Hello World!\n", whose
   * checksums run from 74 80 down to 74 77 as the sequence runs up.
   */
  lemma DocumentedDump(k: byte)
    requires k < 10
    ensures InternetChecksum(
              [0xf8, 0x2e, 0x35, 0x53, 0x02, 0x01, 0x00, k, 0x00, 0x00, 0x00, 0x0d] +
              [0x48, 0x65, 0x6c, 0x6c, 0x6f, 0x20, 0x57, 0x6f, 0x72, 0x6c, 0x64, 0x21, 0x0a]) == 0x7480 - k
  {
    hide WordSum, Fold;
    var header: Data := [0xf8, 0x2e, 0x35, 0x53, 0x02, 0x01, 0x00, k, 0x00, 0x00, 0x00, 0x0d];
    var text: Data := [0x48, 0x65, 0x6c, 0x6c, 0x6f, 0x20, 0x57, 0x6f, 0x72, 0x6c, 0x64, 0x21, 0x0a];
    HeaderSum(header, k);
    TextSum(text);
    WordSumConcat(header, text);
    FoldUnique(0x3_8b7c + k, 0x8b7f + k, -3);
  }

  lemma HeaderSum(s: Data, k: byte)
    requires s == [0xf8, 0x2e, 0x35, 0x53, 0x02, 0x01, 0x00, k, 0x00, 0x00, 0x00, 0x0d]
    ensures |s| == 12 && WordSum(s) == 0x1_2f8f + k
  {
    hide WordSum;
    SixWords(s);
  }

  lemma TextSum(s: Data)
    requires s == [0x48, 0x65, 0x6c, 0x6c, 0x6f, 0x20, 0x57, 0x6f, 0x72, 0x6c, 0x64, 0x21, 0x0a]
    ensures WordSum(s) == 0x2_5bed
  {
    var front := s[..12];
    assert |s| == 13 && s == front + [0x0a];
    WordSumConcat(front, [0x0a]);
    assert WordSum([0x0a]) == 0xa00;
    FrontSum(front);
  }

  lemma FrontSum(s: Data)
    requires s == [0x48, 0x65, 0x6c, 0x6c, 0x6f, 0x20, 0x57, 0x6f, 0x72, 0x6c, 0x64, 0x21]
    ensures WordSum(s) == 0x2_51ed
  {
    hide WordSum;
    SixWords(s);
  }

  lemma SixWords(s: Data)
    requires |s| == 12
    ensures WordSum(s) == Word(s, 0) + Word(s, 2) + Word(s, 4) + Word(s, 6) + Word(s, 8) + Word(s, 10)
  {
    hide WordSum;
    FourBytes(s[..4]);
    FourBytes(s[4..8]);
    FourBytes(s[8..]);
    assert s[4..] == s[4..8] + s[8..];
    WordSumConcat(s[4..8], s[8..]);
    assert s == s[..4] + s[4..];
    WordSumConcat(s[..4], s[4..]);
  }

  function Word(s: Data, i: nat): nat
    requires i + 1 < |s|
  {
    s[i] as int * 0x100 + s[i + 1]
  }

  lemma FourBytes(s: Data)
    requires |s| == 4
    ensures WordSum(s) == Word(s, 0) + Word(s, 2)
  {
    assert WordSum(s[2..]) == s[2] as int * 0x100 + s[3] + WordSum(s[2..][2..]);
  }
}
