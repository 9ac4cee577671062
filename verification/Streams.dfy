/** What the decoder does with whole streams: frames, fragment groups, noise and truncation. */
module Streams {
  import opened Bytes
  import opened Proto
  import opened Sorting

  // ----- reading back what was written -----

  lemma ReadFullOfConcat(a: Data, t: Data)
    ensures ReadFull(a + t, |a|) == Done(a, t)
  {
  }

  lemma Read16OfBE16(x: uint16, t: Data)
    ensures Read16(BE16(x) + t) == Done(x, t)
  {
    ReadFullOfConcat(BE16(x), t);
    RoundTrip16(x);
  }

  lemma Read32OfBE32(x: uint32, t: Data)
    ensures Read32(BE32(x) + t) == Done(x, t)
  {
    ReadFullOfConcat(BE32(x), t);
    RoundTrip32(x);
  }

  lemma ReadPreambleOfHead(prefix: uint16, t: Data)
    ensures ReadPreamble(Head(prefix) + t) == Done(prefix, t)
  {
    assert Head(prefix) + t == BE32(PREAMBLE) + (BE16(prefix) + t);
    Read32OfBE32(PREAMBLE, BE16(prefix) + t);
    Read16OfBE16(prefix, t);
  }

  lemma ReadPacketOfBody(p: Packet, t: Data, q: Packet)
    requires p.length == |p.payload|
    ensures ReadPacket(Body(p) + t, q)
         == Done(q.(sequence := p.sequence, length := p.length, payload := p.payload, sum := p.sum), t)
  {
    var t3 := BE16(p.sum) + t;
    var t2 := p.payload + t3;
    var t1 := BE32(p.length) + t2;
    assert Body(p) + t == BE16(p.sequence) + t1;
    Read16OfBE16(p.sequence, t1);
    Read32OfBE32(p.length, t2);
    ReadFullOfConcat(p.payload, t3);
    Read16OfBE16(p.sum, t);
  }

  // ----- single frames -----

  /** The packets a protocol-0 frame can stand for. */
  predicate IsSingle(p: Packet) {
    p.protocol == 0 && p.version < 0x10 && p.length == |p.payload| && p.curr == 0 && p.last == 0
  }

  lemma PrefixFields(protocol: byte, version: byte, instance: byte)
    requires protocol < 0x10 && version < 0x10
    ensures Prefixed(PrefixOf(protocol, version, instance))
         == NEW_PACKET.(protocol := protocol, version := version, instance := instance)
  {
    HexDigits(protocol as int * 0x10 + version, instance, 0x100);
    HexDigits(protocol, version as int * 0x100 + instance, 0x1000);
    HexDigits(protocol, version, 0x10);
  }

  lemma HexDigits(high: nat, low: nat, base: nat)
    requires base in {0x10, 0x100, 0x1000} && low < base
    ensures (high * base + low) / base == high
    ensures (high * base + low) % base == low
  {
  }

  lemma PrefixIsFields(prefix: uint16)
    ensures var p := Prefixed(prefix);
            p.protocol < 0x10 && p.version < 0x10 && prefix == PrefixOf(p.protocol, p.version, p.instance)
  {
  }

  lemma DecodeFrame(p: Packet, t: Data)
    requires IsSingle(p)
    ensures DecodePacket(Frame(p) + t) == Done(p, t)
  {
    var prefix := PrefixOf(0, p.version, p.instance);
    PrefixFields(0, p.version, p.instance);
    Assoc(Head(prefix), Body(p), t);
    ReadPreambleOfHead(prefix, Body(p) + t);
    ReadPacketOfBody(p, t, Prefixed(prefix));
  }

  /** The frame format by literal positions. */
  lemma FrameByBytes(p: Packet)
    requires IsSingle(p)
    ensures var f, n := Frame(p), |p.payload|;
            && |f| == n + 14
            && f[0] == 0xf8 && f[1] == 0x2e && f[2] == 0x35 && f[3] == 0x53
            && f[4] == p.version && f[5] == p.instance
            && Number16(f, 6) == p.sequence && Number32(f, 8) == n
            && f[12..12 + n] == p.payload && Number16(f, 12 + n) == p.sum
  {
    BytesByValue(p.length, p.sequence);
    BytesByValue(PREAMBLE, p.sum);
    BytesByValue(0, PrefixOf(0, p.version, p.instance));
  }

  lemma CanonicalRead16(s: Data)
    requires Read16(s).Done?
    ensures BE16(Read16(s).value) + Read16(s).rest == s
  {
    Canonical16(s[..2]);
  }

  lemma CanonicalRead32(s: Data)
    requires Read32(s).Done?
    ensures BE32(Read32(s).value) + Read32(s).rest == s
  {
    Canonical32(s[..4]);
  }

  lemma CanonicalReadPreamble(s: Data)
    requires ReadPreamble(s).Done?
    ensures Head(ReadPreamble(s).value) + ReadPreamble(s).rest == s
  {
    CanonicalRead32(s);
    CanonicalRead16(Read32(s).rest);
    Assoc(BE32(PREAMBLE), BE16(ReadPreamble(s).value), ReadPreamble(s).rest);
  }

  lemma CanonicalReadPacket(s: Data, q: Packet)
    requires ReadPacket(s, q).Done?
    ensures Body(ReadPacket(s, q).value) + ReadPacket(s, q).rest == s
  {
    hide BE16, BE32, FromBE16, FromBE32;
    var Done(sequence, t1) := Read16(s);
    var Done(length, t2) := Read32(t1);
    var Done(payload, t3) := ReadFull(t2, length);
    var Done(sum, t4) := Read16(t3);
    CanonicalRead16(s);
    CanonicalRead32(t1);
    CanonicalRead16(t3);
    assert payload + t3 == t2;
    Assoc(BE16(sequence) + BE32(length) + payload, BE16(sum), t4);
    Assoc(BE16(sequence) + BE32(length), payload, t3);
    Assoc(BE16(sequence), BE32(length), t2);
  }

  /**
   * Printer after parser: whenever decoding yields a protocol-0 packet, the bytes consumed
   * are exactly the canonical frame of that packet.
   */
  lemma DecodedFrameIsCanonical(s: Data)
    requires DecodePacket(s).Done? && DecodePacket(s).value.protocol == 0
    ensures IsSingle(DecodePacket(s).value)
    ensures Frame(DecodePacket(s).value) + DecodePacket(s).rest == s
  {
    var Done(prefix, t) := ReadPreamble(s);
    var Done(p, r) := ReadPacket(t, Prefixed(prefix));
    PrefixIsFields(prefix);
    CanonicalReadPreamble(s);
    CanonicalReadPacket(t, Prefixed(prefix));
    Assoc(Head(prefix), Body(p), r);
  }

  lemma EncodedIsFrame(p: Packet)
    requires p.version == 0 && p.protocol == 0
    ensures BE32(PREAMBLE) + EncodePacket(p).value == Frame(p) + []
  {
    Assoc(BE32(PREAMBLE), BE16(PrefixOf(0, 0, p.instance)), Body(p));
  }

  lemma OnlySinglesDecodeToThemselves(p: Packet)
    requires p.version == 0
    requires DecodePacket(BE32(PREAMBLE) + EncodePacket(p).value) == Done(p, [])
    ensures IsSingle(p)
  {
    var s := BE32(PREAMBLE) + EncodePacket(p).value;
    PacketFitsInput(s);
    assert p.protocol == 0;
    DecodedFrameIsCanonical(s);
  }

  /**
   * Parser after the library's printer: EncodePacket works for version 0 only, and then the
   * preamble and its bytes decode to the packet, leaving nothing, exactly when the packet is
   * a protocol-0 packet whose length field counts its payload and that is not a fragment.
   */
  lemma EncodePacketRoundTrip(p: Packet)
    ensures EncodePacket(p).Some? <==> p.version == 0
    ensures p.version == 0 ==>
      (DecodePacket(BE32(PREAMBLE) + EncodePacket(p).value) == Done(p, [])
       <==> p.protocol == 0 && p.length == |p.payload| && p.curr == 0 && p.last == 0)
  {
    if p.version == 0 {
      if IsSingle(p) {
        EncodedIsFrame(p);
        DecodeFrame(p, []);
      } else if DecodePacket(BE32(PREAMBLE) + EncodePacket(p).value) == Done(p, []) {
        OnlySinglesDecodeToThemselves(p);
      }
    }
  }

  // ----- noise -----

  lemma DecodeNoise(word: Data, t: Data)
    requires |word| == 4 && word != BE32(PREAMBLE)
    ensures DecodePacket(word + t) == Failed(Skip, t)
  {
    ReadFullOfConcat(word, t);
    Canonical32(word);
  }

  /** No word at the first `n` multiples of 4 is the preamble. */
  ghost predicate NoPreamble(s: Data, n: nat)
    requires 4 * n <= |s|
  {
    forall j :: 0 <= j < n ==> s[4 * j..4 * j + 4] != BE32(PREAMBLE)
  }

  lemma NoPreambleAfter(s: Data, n: nat)
    requires 0 < n && 4 * n <= |s| && NoPreamble(s, n)
    ensures NoPreamble(s[4..], n - 1)
  {
    hide BE32;
    forall j | 0 <= j < n - 1
      ensures s[4..][4 * j..4 * j + 4] != BE32(PREAMBLE)
    {
      assert s[4..][4 * j..4 * j + 4] == s[4 * (j + 1)..4 * (j + 1) + 4];
    }
  }

  lemma SkipsWord(s: Data, instances: seq<byte>)
    requires 4 <= |s| && NoPreamble(s, 1)
    ensures DecodeStream(s, instances) == DecodeStream(s[4..], instances)
  {
    hide DecodePacket, BE32;
    assert s[4 * 0..4 * 0 + 4] == s[..4] && s == s[..4] + s[4..];
    DecodeNoise(s[..4], s[4..]);
  }

  lemma {:induction false} SkipsWords(s: Data, n: nat, instances: seq<byte>)
    requires 4 * n <= |s| && NoPreamble(s, n)
    ensures DecodeStream(s, instances) == DecodeStream(s[4 * n..], instances)
  {
    hide DecodeStream, BE32;
    if n == 0 {
      assert s[0..] == s;
    } else {
      SkipsWord(s, instances);
      NoPreambleAfter(s, n);
      SkipsWords(s[4..], n - 1, instances);
      assert s[4..][4 * (n - 1)..] == s[4 * n..];
    }
  }

  /**
   * The limit of resynchronisation: skipping never changes the alignment, so a stream in which
   * no word at a multiple of 4 is the preamble yields nothing, whatever frames it carries.
   */
  lemma MisalignedIsLost(s: Data, instances: seq<byte>)
    requires NoPreamble(s, |s| / 4)
    ensures DecodeStream(s, instances) == []
  {
    var n := |s| / 4;
    SkipsWords(s, n, instances);
    var t := s[4 * n..];
    assert |t| < 4;
    assert DecodePacket(t).Failed? && DecodePacket(t).rest == [];
    assert DecodeStream([], instances) == [];
  }

  // ----- fragment groups -----

  /** One fragment on the wire. */
  function FragmentBytes(prefix: uint16, f: Packet): Data {
    Head(prefix) + FragmentBody(f)
  }

  function FragmentBody(f: Packet): Data {
    BE16(f.curr) + BE16(f.last) + Body(f)
  }

  /** The format of a fragment by literal positions. */
  lemma FragmentByBytes(prefix: uint16, f: Packet)
    requires IsFragment(f)
    ensures var b, n := FragmentBytes(prefix, f), |f.payload|;
            && |b| == n + 18
            && b[0] == 0xf8 && b[1] == 0x2e && b[2] == 0x35 && b[3] == 0x53
            && Number16(b, 4) == prefix && Number16(b, 6) == f.curr && Number16(b, 8) == f.last
            && Number16(b, 10) == f.sequence && Number32(b, 12) == n
            && b[16..16 + n] == f.payload && Number16(b, 16 + n) == f.sum
  {
    BytesByValue(f.length, f.sequence);
    BytesByValue(PREAMBLE, f.sum);
    BytesByValue(0, prefix);
    BytesByValue(0, f.curr);
    BytesByValue(0, f.last);
  }

  function GroupBytes(prefix: uint16, fs: seq<Packet>): Data {
    if fs == [] then [] else FragmentBytes(prefix, fs[0]) + GroupBytes(prefix, fs[1..])
  }

  /** A group without the head of its first fragment. */
  function AfterHead(prefix: uint16, fs: seq<Packet>): Data
    requires fs != []
  {
    FragmentBody(fs[0]) + GroupBytes(prefix, fs[1..])
  }

  lemma SplitHead(prefix: uint16, fs: seq<Packet>, t: Data)
    requires fs != []
    ensures GroupBytes(prefix, fs) + t == Head(prefix) + (AfterHead(prefix, fs) + t)
    ensures AfterHead(prefix, fs) + t == FragmentBody(fs[0]) + (GroupBytes(prefix, fs[1..]) + t)
  {
    var body, rest := FragmentBody(fs[0]), GroupBytes(prefix, fs[1..]);
    Assoc(Head(prefix), body, rest);
    Assoc(Head(prefix), body + rest, t);
    Assoc(body, rest, t);
  }

  /** What the decoder keeps of a fragment: its numbers and its body. */
  predicate IsFragment(f: Packet) {
    f.protocol == 0 && f.version == 0 && f.instance == 0 && f.length == |f.payload|
  }

  predicate AreFragments(fs: seq<Packet>) {
    forall i :: 0 <= i < |fs| ==> IsFragment(fs[i])
  }

  /** The last fragment is final, and no fragment before it is. */
  predicate IsComplete(fs: seq<Packet>) {
    && fs != []
    && IsFinal(fs[|fs| - 1])
    && forall i :: 0 <= i < |fs| - 1 ==> !IsFinal(fs[i])
  }

  lemma ReadFragmentOfBytes(f: Packet, t: Data)
    requires IsFragment(f)
    ensures ReadFragment(FragmentBody(f) + t) == Done(f, t)
  {
    var u := BE16(f.last) + (Body(f) + t);
    assert FragmentBody(f) + t == BE16(f.curr) + u by {
      Assoc(BE16(f.curr) + BE16(f.last), Body(f), t);
      Assoc(BE16(f.curr), BE16(f.last), Body(f) + t);
    }
    Read16OfBE16(f.curr, u);
    Read16OfBE16(f.last, Body(f) + t);
    ReadPacketOfBody(f, t, NEW_PACKET.(curr := f.curr, last := f.last));
  }

  /** Reading fragments after the head of the first: `got` are the ones already collected. */
  lemma {:induction false} CollectGroup(prefix: uint16, got: seq<Packet>, fs: seq<Packet>, t: Data)
    requires IsComplete(fs) && AreFragments(fs)
    ensures Collect(AfterHead(prefix, fs) + t, prefix, got) == Done(got + fs, t)
    decreases |fs|
  {
    hide ReadFragment, ReadPreamble, FragmentBody, Head;
    var f, rest := fs[0], fs[1..];
    var tail := GroupBytes(prefix, rest) + t;
    SplitHead(prefix, fs, t);
    ReadFragmentOfBytes(f, tail);
    if rest == [] {
      assert tail == t && fs == [f];
    } else {
      assert rest[|rest| - 1] == fs[|fs| - 1];
      CollectGroup(prefix, got + [f], rest, t);
      SplitHead(prefix, rest, t);
      ReadPreambleOfHead(prefix, AfterHead(prefix, rest) + t);
      SplitFirst(got, fs);
    }
  }

  lemma DecodeGroup(prefix: uint16, fs: seq<Packet>, t: Data)
    requires prefix / 0x1000 == 1
    requires IsComplete(fs) && AreFragments(fs)
    ensures DecodePacket(GroupBytes(prefix, fs) + t) == Done(Reassemble(Prefixed(prefix), fs), t)
  {
    CollectGroup(prefix, [], fs, t);
    SplitHead(prefix, fs, t);
    ReadPreambleOfHead(prefix, AfterHead(prefix, fs) + t);
    assert [] + fs == fs;
  }

  /** Without a final fragment the decoder reads on into the end of the stream. */
  lemma {:induction false} CollectUnfinished(prefix: uint16, got: seq<Packet>, fs: seq<Packet>)
    requires fs != [] && AreFragments(fs) && forall i :: 0 <= i < |fs| ==> !IsFinal(fs[i])
    ensures Collect(AfterHead(prefix, fs), prefix, got) == Failed(Eof, [])
    decreases |fs|
  {
    var f, rest := fs[0], fs[1..];
    ReadFragmentOfBytes(f, GroupBytes(prefix, rest));
    if rest == [] {
    } else {
      CollectUnfinished(prefix, got + [f], rest);
      SplitHead(prefix, rest, []);
      assert AfterHead(prefix, rest) + [] == AfterHead(prefix, rest);
      assert GroupBytes(prefix, rest) + [] == GroupBytes(prefix, rest);
      ReadPreambleOfHead(prefix, AfterHead(prefix, rest));
    }
  }

  lemma DecodeUnfinished(prefix: uint16, fs: seq<Packet>)
    requires prefix / 0x1000 == 1
    requires fs != [] && AreFragments(fs) && forall i :: 0 <= i < |fs| ==> !IsFinal(fs[i])
    ensures DecodePacket(GroupBytes(prefix, fs)) == Failed(Eof, [])
  {
    CollectUnfinished(prefix, [], fs);
    SplitHead(prefix, fs, []);
    assert AfterHead(prefix, fs) + [] == AfterHead(prefix, fs);
    assert GroupBytes(prefix, fs) + [] == GroupBytes(prefix, fs);
    ReadPreambleOfHead(prefix, AfterHead(prefix, fs));
  }

  /** After fragments of which none is final: what the next bytes lead to, when no fragment follows. */
  lemma {:induction false} CollectBroken(prefix: uint16, got: seq<Packet>, fs: seq<Packet>, next: Data)
    requires fs != [] && AreFragments(fs) && forall i :: 0 <= i < |fs| ==> !IsFinal(fs[i])
    requires ReadPreamble(next).Done? ==> ReadPreamble(next).value != prefix
    ensures Collect(AfterHead(prefix, fs) + next, prefix, got)
         == match ReadPreamble(next)
            case Failed(e, t) => Failed(e, t)
            case Done(_, t) => Failed(VersionMismatch, t)
    decreases |fs|
  {
    hide ReadFragment, ReadPreamble, FragmentBody, Head;
    var f, rest := fs[0], fs[1..];
    SplitHead(prefix, fs, next);
    ReadFragmentOfBytes(f, GroupBytes(prefix, rest) + next);
    if rest == [] {
      assert GroupBytes(prefix, rest) + next == next;
    } else {
      CollectBroken(prefix, got + [f], rest, next);
      SplitHead(prefix, rest, next);
      ReadPreambleOfHead(prefix, AfterHead(prefix, rest) + next);
    }
  }

  lemma DecodeBroken(prefix: uint16, fs: seq<Packet>, next: Data)
    requires prefix / 0x1000 == 1
    requires fs != [] && AreFragments(fs) && forall i :: 0 <= i < |fs| ==> !IsFinal(fs[i])
    requires ReadPreamble(next).Done? ==> ReadPreamble(next).value != prefix
    ensures DecodePacket(GroupBytes(prefix, fs) + next)
         == match ReadPreamble(next)
            case Failed(e, t) => Failed(e, t)
            case Done(_, t) => Failed(VersionMismatch, t)
  {
    hide ReadPreamble, Collect, AfterHead, GroupBytes, Reassemble;
    CollectBroken(prefix, [], fs, next);
    SplitHead(prefix, fs, next);
    ReadPreambleOfHead(prefix, AfterHead(prefix, fs) + next);
  }

  /**
   * A group that is not finished ends at a preamble with another protocol, version or instance:
   * nothing of it is delivered, and the decoder goes on right after that preamble and prefix.
   */
  lemma ChangedPrefixEndsGroup(prefix: uint16, fs: seq<Packet>, x: uint16, t: Data, instances: seq<byte>)
    requires prefix / 0x1000 == 1 && x != prefix
    requires fs != [] && AreFragments(fs) && forall i :: 0 <= i < |fs| ==> !IsFinal(fs[i])
    ensures DecodePacket(GroupBytes(prefix, fs) + (Head(x) + t)) == Failed(VersionMismatch, t)
    ensures DecodeStream(GroupBytes(prefix, fs) + (Head(x) + t), instances) == DecodeStream(t, instances)
  {
    hide DecodePacket, ReadPreamble, GroupBytes, Head;
    ReadPreambleOfHead(x, t);
    DecodeBroken(prefix, fs, Head(x) + t);
  }

  /** It also ends at a word that is not the preamble, and the decoder goes on after that word. */
  lemma NoiseEndsGroup(prefix: uint16, fs: seq<Packet>, word: Data, t: Data, instances: seq<byte>)
    requires prefix / 0x1000 == 1 && |word| == 4 && word != BE32(PREAMBLE)
    requires fs != [] && AreFragments(fs) && forall i :: 0 <= i < |fs| ==> !IsFinal(fs[i])
    ensures DecodePacket(GroupBytes(prefix, fs) + (word + t)) == Failed(Skip, t)
    ensures DecodeStream(GroupBytes(prefix, fs) + (word + t), instances) == DecodeStream(t, instances)
  {
    hide DecodePacket, ReadPreamble, GroupBytes, BE32;
    NoiseIsNoPreamble(word, t);
    DecodeBroken(prefix, fs, word + t);
  }

  lemma NoiseIsNoPreamble(word: Data, t: Data)
    requires |word| == 4 && word != BE32(PREAMBLE)
    ensures ReadPreamble(word + t) == Failed(Skip, t)
  {
    ReadFullOfConcat(word, t);
    Canonical32(word);
  }

  /** A protocol other than 0 and 1 ends the stream, whatever follows. */
  lemma UnsupportedEndsStream(prefix: uint16, t: Data, instances: seq<byte>)
    requires prefix / 0x1000 >= 2
    ensures DecodePacket(Head(prefix) + t) == Failed(UnsupportedProtocol, t)
    ensures DecodeStream(Head(prefix) + t, instances) == []
  {
    hide ReadPreamble, Head;
    ReadPreambleOfHead(prefix, t);
  }

  /**
   * What a complete group is delivered as, field by field: number and length are those of the
   * final fragment, checksum and fragment numbers are not set.
   */
  lemma GroupFields(prefix: uint16, fs: seq<Packet>, t: Data)
    requires prefix / 0x1000 == 1
    requires IsComplete(fs) && AreFragments(fs)
    ensures var r := DecodePacket(GroupBytes(prefix, fs) + t);
            && r.Done? && r.rest == t
            && r.value.protocol == 1 && r.value.version == prefix / 0x100 % 0x10 && r.value.instance == prefix % 0x100
            && r.value.sequence == fs[|fs| - 1].sequence && r.value.length == fs[|fs| - 1].length
            && r.value.sum == 0 && r.value.curr == 0 && r.value.last == 0
  {
    hide DecodePacket, GroupBytes, Join, SortBy;
    DecodeGroup(prefix, fs, t);
  }

  // ----- reassembly does not depend on the order of arrival -----

  /**
   * Fragments of distinct numbers in any order of arrival decode to the concatenation of
   * their payloads in the order of the numbers.
   */
  lemma ReassemblyInNumberOrder(prefix: uint16, arrived: seq<Packet>, ordered: seq<Packet>, t: Data)
    requires prefix / 0x1000 == 1
    requires IsComplete(arrived) && AreFragments(arrived) && DistinctBy(arrived, BY_CURR)
    requires SortedBy(ordered, BY_CURR) && multiset(ordered) == multiset(arrived)
    ensures DecodePacket(GroupBytes(prefix, arrived) + t).Done?
    ensures DecodePacket(GroupBytes(prefix, arrived) + t).rest == t
    ensures DecodePacket(GroupBytes(prefix, arrived) + t).value.payload == Join(ordered)
  {
    DecodeGroup(prefix, arrived, t);
    SortIsDetermined(arrived, ordered, BY_CURR);
  }

  /** Two orders of arrival of the same fragments, each ended by the final one, decode alike. */
  lemma ReassemblyIgnoresOrder(prefix: uint16, a: seq<Packet>, b: seq<Packet>, t: Data)
    requires prefix / 0x1000 == 1
    requires IsComplete(a) && IsComplete(b) && AreFragments(a) && DistinctBy(a, BY_CURR)
    requires multiset(a) == multiset(b)
    ensures DecodePacket(GroupBytes(prefix, a) + t) == DecodePacket(GroupBytes(prefix, b) + t)
  {
    forall i | 0 <= i < |b|
      ensures IsFragment(b[i])
    {
      assert b[i] in multiset(a);
    }
    DecodeGroup(prefix, a, t);
    DecodeGroup(prefix, b, t);
    SortBySorts(b, BY_CURR);
    SortIsDetermined(a, SortBy(b, BY_CURR), BY_CURR);
    assert a[|a| - 1] in multiset(b);
    var k :| 0 <= k < |b| && b[k] == a[|a| - 1];
    assert k == |b| - 1;
  }

  // ----- progress on arbitrary bytes -----

  lemma {:induction false} JoinSize(fs: seq<Packet>)
    ensures |Join(fs)| == PayloadSize(fs)
  {
    if fs == [] {
    } else {
      JoinSize(fs[..|fs| - 1]);
    }
  }

  lemma {:induction false} SortKeepsSize(fs: seq<Packet>)
    ensures PayloadSize(SortBy(fs, BY_CURR)) == PayloadSize(fs)
  {
    if fs == [] {
    } else {
      SortKeepsSize(fs[..|fs| - 1]);
      InsertKeepsSize(SortBy(fs[..|fs| - 1], BY_CURR), fs[|fs| - 1]);
    }
  }

  lemma {:induction false} InsertKeepsSize(fs: seq<Packet>, f: Packet)
    ensures PayloadSize(InsertBy(fs, f, BY_CURR)) == PayloadSize(fs) + |f.payload|
  {
    if fs == [] || fs[|fs| - 1].curr <= f.curr {
      assert (fs + [f])[..|fs|] == fs;
    } else {
      InsertKeepsSize(fs[..|fs| - 1], f);
      var r := InsertBy(fs[..|fs| - 1], f, BY_CURR);
      assert (r + [fs[|fs| - 1]])[..|r|] == r;
    }
  }

  /** Collected fragments take 12 bytes more than the payloads they add to those already there. */
  lemma {:induction false} CollectFitsInput(s: Data, prefix: uint16, got: seq<Packet>)
    requires Collect(s, prefix, got).Done?
    ensures PayloadSize(Collect(s, prefix, got).value) + 12 + |Collect(s, prefix, got).rest| <= |s| + PayloadSize(got)
    decreases |s|
  {
    var Done(f, t) := ReadFragment(s);
    assert (got + [f])[..|got|] == got;
    if !IsFinal(f) {
      var Done(x, u) := ReadPreamble(t);
      CollectFitsInput(u, prefix, got + [f]);
    }
  }

  /** A packet takes at least 14 bytes more than its payload, and 18 when it came in fragments. */
  lemma PacketFitsInput(s: Data)
    requires DecodePacket(s).Done?
    ensures |DecodePacket(s).value.payload| + 14 + |DecodePacket(s).rest| <= |s|
    ensures DecodePacket(s).value.protocol != 0 ==>
              |DecodePacket(s).value.payload| + 18 + |DecodePacket(s).rest| <= |s|
  {
    var Done(prefix, t) := ReadPreamble(s);
    if Prefixed(prefix).protocol == 1 {
      var Done(fs, r) := Collect(t, prefix, []);
      CollectFitsInput(t, prefix, []);
      JoinSize(SortBy(fs, BY_CURR));
      SortKeepsSize(fs);
    }
  }

  function FramedSize(ps: seq<Packet>): nat {
    if ps == [] then 0 else |ps[0].payload| + 14 + FramedSize(ps[1..])
  }

  /** On every finite stream, whatever its bytes, the decoder emits no more than it was given. */
  lemma {:induction false} EmittedFitsInput(s: Data, instances: seq<byte>)
    ensures FramedSize(DecodeStream(s, instances)) <= |s|
    decreases |s|
  {
    match DecodePacket(s)
    case Done(p, t) =>
      PacketFitsInput(s);
      EmittedFitsInput(t, instances);
      assert ([p] + DecodeStream(t, instances))[1..] == DecodeStream(t, instances);
      assert [] + DecodeStream(t, instances) == DecodeStream(t, instances);
    case Failed(e, t) =>
      if e != Eof && e != UnsupportedProtocol {
        EmittedFitsInput(t, instances);
      }
  }

  // ----- streams of frames, groups and noise -----

  datatype Element =
    | Single(packet: Packet)
    | Group(prefix: uint16, fragments: seq<Packet>)
    | Noise(word: Data)

  predicate ValidElement(e: Element) {
    match e
    case Single(p) => IsSingle(p)
    case Group(prefix, fs) => prefix / 0x1000 == 1 && IsComplete(fs) && AreFragments(fs)
    case Noise(word) => |word| == 4 && word != BE32(PREAMBLE)
  }

  function ElementBytes(e: Element): Data
    requires ValidElement(e)
  {
    match e
    case Single(p) => Frame(p)
    case Group(prefix, fs) => GroupBytes(prefix, fs)
    case Noise(word) => word
  }

  /** The packet an element carries, unless it is noise or its instance is not accepted. */
  function ElementPackets(e: Element, instances: seq<byte>): seq<Packet>
    requires ValidElement(e)
  {
    match e
    case Single(p) => if Accepted(instances, p.instance) then [p] else []
    case Group(prefix, fs) =>
      var p := Reassemble(Prefixed(prefix), fs);
      if Accepted(instances, p.instance) then [p] else []
    case Noise(_) => []
  }

  predicate ValidStream(es: seq<Element>) {
    forall i :: 0 <= i < |es| ==> ValidElement(es[i])
  }

  function StreamBytes(es: seq<Element>): Data
    requires ValidStream(es)
  {
    if es == [] then [] else ElementBytes(es[0]) + StreamBytes(es[1..])
  }

  /** The packets of a stream whose instance is accepted, in order. */
  function StreamPackets(es: seq<Element>, instances: seq<byte>): seq<Packet>
    requires ValidStream(es)
  {
    if es == [] then [] else ElementPackets(es[0], instances) + StreamPackets(es[1..], instances)
  }

  lemma DecodeElement(e: Element, t: Data, instances: seq<byte>)
    requires ValidElement(e)
    ensures DecodeStream(ElementBytes(e) + t, instances) == ElementPackets(e, instances) + DecodeStream(t, instances)
  {
    hide DecodePacket, Frame, GroupBytes;
    match e
    case Single(p) => DecodeFrame(p, t);
    case Group(prefix, fs) => DecodeGroup(prefix, fs, t);
    case Noise(word) => DecodeNoise(word, t);
  }

  /**
   * The decoder recovers exactly the accepted packets of every well-formed stream, in order,
   * and then goes on with whatever follows.
   */
  lemma {:induction false} DecodeWellFormed(es: seq<Element>, t: Data, instances: seq<byte>)
    requires ValidStream(es)
    ensures DecodeStream(StreamBytes(es) + t, instances) == StreamPackets(es, instances) + DecodeStream(t, instances)
  {
    if es == [] {
      assert StreamBytes(es) + t == t;
    } else {
      var tail := StreamBytes(es[1..]);
      Assoc(ElementBytes(es[0]), tail, t);
      DecodeElement(es[0], tail + t, instances);
      DecodeWellFormed(es[1..], t, instances);
      Assoc(ElementPackets(es[0], instances), StreamPackets(es[1..], instances), DecodeStream(t, instances));
    }
  }

  /** The filter by value: no list accepts every instance, a list accepts the instances in it. */
  lemma FilterByInstance(p: Packet, t: Data, instances: seq<byte>)
    requires IsSingle(p)
    ensures DecodeStream(Frame(p) + t, []) == [p] + DecodeStream(t, [])
    ensures instances != [] && p.instance in instances ==>
              DecodeStream(Frame(p) + t, instances) == [p] + DecodeStream(t, instances)
    ensures instances != [] && p.instance !in instances ==>
              DecodeStream(Frame(p) + t, instances) == DecodeStream(t, instances)
  {
    hide DecodeStream, Frame;
    DecodeElement(Single(p), t, []);
    DecodeElement(Single(p), t, instances);
  }
}
