/** What the decoder makes of a stream that is cut off anywhere. */
module Truncation {
  import opened Bytes
  import opened Proto
  import opened Streams

  /** The first `k` bytes of a stream. */
  function Take(s: Data, k: nat): Data {
    if k <= |s| then s[..k] else s
  }

  /**
   * How one read of an n-byte input compares with the same read of its first k bytes: a read
   * that stays within the k bytes is the same, a read that goes beyond them drains the input.
   */
  ghost predicate SameOrDrained<T>(full: Outcome<T>, cut: Outcome<T>, n: nat, k: nat) {
    && |full.rest| <= n
    && if n - |full.rest| <= k then Same(full, cut) && cut.rest == Take(full.rest, k - (n - |full.rest|))
       else cut.Failed? && cut.rest == []
  }

  ghost predicate Same<T>(a: Outcome<T>, b: Outcome<T>) {
    match a
    case Done(v, _) => b.Done? && b.value == v
    case Failed(e, _) => b.Failed? && b.error == e
  }

  /** A read that goes on after `n - m` bytes of an n-byte input. */
  lemma GoOn<T>(full: Outcome<T>, cut: Outcome<T>, n: nat, m: nat, k: nat)
    requires m <= n && n - m <= k
    requires SameOrDrained(full, cut, m, k - (n - m))
    ensures SameOrDrained(full, cut, n, k)
  {
  }

  lemma CutReadFull(s: Data, n: nat, k: nat)
    requires k <= |s|
    ensures SameOrDrained(ReadFull(s, n), ReadFull(Take(s, k), n), |s|, k)
  {
    if n <= k {
      assert Take(s, k)[..n] == s[..n];
      assert Take(s, k)[n..] == Take(s[n..], k - n);
    }
  }

  lemma CutRead16(s: Data, k: nat)
    requires k <= |s|
    ensures SameOrDrained(Read16(s), Read16(Take(s, k)), |s|, k)
  {
    CutReadFull(s, 2, k);
  }

  lemma CutRead32(s: Data, k: nat)
    requires k <= |s|
    ensures SameOrDrained(Read32(s), Read32(Take(s, k)), |s|, k)
  {
    CutReadFull(s, 4, k);
  }

  lemma CutReadPreamble(s: Data, k: nat)
    requires k <= |s|
    ensures SameOrDrained(ReadPreamble(s), ReadPreamble(Take(s, k)), |s|, k)
  {
    CutRead32(s, k);
    match Read32(s)
    case Failed(_, _) =>
    case Done(_, t) =>
      if |s| - |t| <= k {
        CutRead16(t, k - (|s| - |t|));
      }
  }

  /** The part of ReadPacket that follows the length field. */
  function ReadTail(s: Data, length: uint32): (r: Outcome<(Data, uint16)>)
    ensures |r.rest| <= |s|
  {
    match ReadFull(s, length)
    case Failed(e, t) => Failed(e, t)
    case Done(payload, t) =>
    match Read16(t)
    case Failed(e, t) => Failed(e, t)
    case Done(sum, t) => Done((payload, sum), t)
  }

  function ReadNumbers(s: Data): (r: Outcome<(uint16, uint32)>)
    ensures |r.rest| <= |s|
  {
    match Read16(s)
    case Failed(e, t) => Failed(e, t)
    case Done(sequence, t) =>
    match Read32(t)
    case Failed(e, t) => Failed(e, t)
    case Done(length, t) => Done((sequence, length), t)
  }

  lemma ReadPacketInTwo(s: Data, p: Packet)
    ensures ReadPacket(s, p) ==
      match ReadNumbers(s)
      case Failed(e, t) => Failed(e, t)
      case Done((sequence, length), t) =>
        match ReadTail(t, length)
        case Failed(e, t) => Failed(e, t)
        case Done((payload, sum), t) =>
          Done(p.(sequence := sequence, length := length, payload := payload, sum := sum), t)
  {
  }

  lemma CutReadTail(s: Data, length: uint32, k: nat)
    requires k <= |s|
    ensures SameOrDrained(ReadTail(s, length), ReadTail(Take(s, k), length), |s|, k)
  {
    CutReadFull(s, length, k);
    match ReadFull(s, length)
    case Failed(_, _) =>
    case Done(_, t) =>
      if |s| - |t| <= k {
        CutRead16(t, k - (|s| - |t|));
      }
  }

  lemma CutReadNumbers(s: Data, k: nat)
    requires k <= |s|
    ensures SameOrDrained(ReadNumbers(s), ReadNumbers(Take(s, k)), |s|, k)
  {
    CutRead16(s, k);
    match Read16(s)
    case Failed(_, _) =>
    case Done(_, t) =>
      if |s| - |t| <= k {
        CutRead32(t, k - (|s| - |t|));
      }
  }

  lemma CutReadPacket(s: Data, p: Packet, k: nat)
    requires k <= |s|
    ensures SameOrDrained(ReadPacket(s, p), ReadPacket(Take(s, k), p), |s|, k)
  {
    hide ReadPacket, ReadNumbers, ReadTail;
    ReadPacketInTwo(s, p);
    ReadPacketInTwo(Take(s, k), p);
    CutReadNumbers(s, k);
    var r := ReadNumbers(s);
    var k1 := k - (|s| - |r.rest|);
    if r.Done? && k1 >= 0 {
      var length := r.value.1;
      CutReadTail(r.rest, length, k1);
      GoOn(ReadTail(r.rest, length), ReadTail(Take(r.rest, k1), length), |s|, |r.rest|, k);
    }
  }

  function ReadPair(s: Data): (r: Outcome<(uint16, uint16)>)
    ensures |r.rest| <= |s|
  {
    match Read16(s)
    case Failed(e, t) => Failed(e, t)
    case Done(curr, t) =>
    match Read16(t)
    case Failed(e, t) => Failed(e, t)
    case Done(last, t) => Done((curr, last), t)
  }

  lemma CutReadPair(s: Data, k: nat)
    requires k <= |s|
    ensures SameOrDrained(ReadPair(s), ReadPair(Take(s, k)), |s|, k)
  {
    CutRead16(s, k);
    match Read16(s)
    case Failed(_, _) =>
    case Done(_, t) =>
      if |s| - |t| <= k {
        CutRead16(t, k - (|s| - |t|));
      }
  }

  lemma ReadFragmentInTwo(s: Data)
    ensures ReadFragment(s) ==
      match ReadPair(s)
      case Failed(e, t) => Failed(e, t)
      case Done((curr, last), t) => ReadPacket(t, NEW_PACKET.(curr := curr, last := last))
  {
  }

  lemma CutReadFragment(s: Data, k: nat)
    requires k <= |s|
    ensures SameOrDrained(ReadFragment(s), ReadFragment(Take(s, k)), |s|, k)
  {
    hide ReadFragment, ReadPair, ReadPacket;
    ReadFragmentInTwo(s);
    ReadFragmentInTwo(Take(s, k));
    CutReadPair(s, k);
    match ReadPair(s)
    case Failed(_, _) =>
    case Done((curr, last), t) =>
      if |s| - |t| <= k {
        CutReadPacket(t, NEW_PACKET.(curr := curr, last := last), k - (|s| - |t|));
      }
  }

  lemma {:induction false} CutCollect(s: Data, prefix: uint16, got: seq<Packet>, k: nat)
    requires k <= |s|
    ensures SameOrDrained(Collect(s, prefix, got), Collect(Take(s, k), prefix, got), |s|, k)
    decreases |s|
  {
    hide ReadFragment, ReadPreamble;
    CutReadFragment(s, k);
    var r := ReadFragment(s);
    var k1 := k - (|s| - |r.rest|);
    if r.Done? && k1 >= 0 && !IsFinal(r.value) {
      var got' := got + [r.value];
      CutReadPreamble(r.rest, k1);
      var x := ReadPreamble(r.rest);
      var k2 := k1 - (|r.rest| - |x.rest|);
      if x.Done? && k2 >= 0 && x.value == prefix {
        CutCollect(x.rest, prefix, got', k2);
        GoOn(Collect(x.rest, prefix, got'), Collect(Take(x.rest, k2), prefix, got'), |s|, |x.rest|, k);
      }
    }
  }

  lemma CutDecodePacket(s: Data, k: nat)
    requires k <= |s|
    ensures SameOrDrained(DecodePacket(s), DecodePacket(Take(s, k)), |s|, k)
  {
    hide ReadPreamble, ReadPacket, Collect, Reassemble;
    CutReadPreamble(s, k);
    var x := ReadPreamble(s);
    var k1 := k - (|s| - |x.rest|);
    if x.Done? && k1 >= 0 {
      var p := Prefixed(x.value);
      if p.protocol == 0 {
        CutReadPacket(x.rest, p, k1);
        assert DecodePacket(s) == ReadPacket(x.rest, p);
        assert DecodePacket(Take(s, k)) == ReadPacket(Take(x.rest, k1), p);
        GoOn(ReadPacket(x.rest, p), ReadPacket(Take(x.rest, k1), p), |s|, |x.rest|, k);
      } else if p.protocol == 1 {
        CutCollect(x.rest, x.value, [], k1);
        GoOn(Collect(x.rest, x.value, []), Collect(Take(x.rest, k1), x.value, []), |s|, |x.rest|, k);
      } else {
        assert DecodePacket(s) == Failed(UnsupportedProtocol, x.rest);
        assert DecodePacket(Take(s, k)) == Failed(UnsupportedProtocol, Take(x.rest, k1));
      }
    }
  }

  /** What one decoding step emits, and whether the decoding loop goes on after it. */
  function Emitted(r: Outcome<Packet>, instances: seq<byte>): seq<Packet> {
    if r.Done? && Accepted(instances, r.value.instance) then [r.value] else []
  }

  predicate GoesOn(r: Outcome<Packet>) {
    r.Done? || (r.error != Eof && r.error != UnsupportedProtocol)
  }

  lemma StreamFirst(s: Data, instances: seq<byte>)
    ensures var r := DecodePacket(s);
            DecodeStream(s, instances)
            == Emitted(r, instances) + if GoesOn(r) then DecodeStream(r.rest, instances) else []
    ensures DecodeStream([], instances) == []
  {
    hide DecodePacket, Accepted;
  }

  lemma PrefixAfterSame<T>(x: seq<T>, a: seq<T>, b: seq<T>)
    requires a <= b
    ensures x + a <= x + b
  {
  }

  /**
   * Cutting any stream, well-formed or not, loses packets only at its end: what is emitted
   * from the first k bytes is a prefix of what the whole stream emits.
   */
  lemma {:induction false} CutStreamEmitsPrefix(s: Data, k: nat, instances: seq<byte>)
    requires k <= |s|
    ensures DecodeStream(Take(s, k), instances) <= DecodeStream(s, instances)
    decreases |s|
  {
    hide DecodePacket, DecodeStream, Accepted, Take;
    CutDecodePacket(s, k);
    StreamFirst(s, instances);
    StreamFirst(Take(s, k), instances);
    var r := DecodePacket(s);
    var k1 := k - (|s| - |r.rest|);
    if k1 >= 0 {
      var rest := if GoesOn(r) then DecodeStream(r.rest, instances) else [];
      var cut := if GoesOn(r) then DecodeStream(Take(r.rest, k1), instances) else [];
      if GoesOn(r) {
        CutStreamEmitsPrefix(r.rest, k1, instances);
      }
      PrefixAfterSame(Emitted(r, instances), cut, rest);
    }
  }

  /** A frame cut off anywhere is dropped as a whole. */
  lemma CutFrameEmitsNothing(p: Packet, k: nat, instances: seq<byte>)
    requires IsSingle(p) && k < |Frame(p)|
    ensures DecodeStream(Take(Frame(p), k), instances) == []
  {
    assert Frame(p) + [] == Frame(p);
    DecodeElement(Single(p), [], instances);
    CutStreamEmitsPrefix(Frame(p), k, instances);
    EmittedFitsInput(Take(Frame(p), k), instances);
    assert DecodeStream([], instances) == [];
  }

  /** Cutting a stream of frames, groups and noise leaves its first packets. */
  lemma CutWellFormed(es: seq<Element>, k: nat, instances: seq<byte>)
    requires ValidStream(es) && k <= |StreamBytes(es)|
    ensures DecodeStream(Take(StreamBytes(es), k), instances) <= StreamPackets(es, instances)
  {
    DecodeWellFormed(es, [], instances);
    assert StreamBytes(es) + [] == StreamBytes(es);
    assert DecodeStream([], instances) == [];
    CutStreamEmitsPrefix(StreamBytes(es), k, instances);
  }

  /**
   * A frame that is cut after its header is completed by whatever follows it: the decoder
   * delivers its number and length with a payload that ends in foreign bytes, and goes on
   * after them. If there are too few of those, it delivers nothing more at all.
   */
  lemma CutFrameTakesFromNext(p: Packet, k: nat, t: Data, instances: seq<byte>)
    requires IsSingle(p) && 12 <= k < |Frame(p)|
    ensures var r := DecodePacket(Take(Frame(p), k) + t);
            var missing := |Frame(p)| - k;
            if |t| < missing then DecodeStream(Take(Frame(p), k) + t, instances) == []
            else
              && r.Done? && r.rest == t[missing..]
              && r.value == p.(payload := r.value.payload, sum := r.value.sum)
              && r.value.payload == (Take(Frame(p), k) + t)[12..12 + |p.payload|]
  {
    hide DecodePacket, DecodeStream;
    var n := |p.payload|;
    var cut := Take(Frame(p), k);
    FrameLayout(p);
    if |t| >= n + 14 - k {
      var whole := (cut + t)[..n + 14];
      var q := Completed(p, whole);
      assert cut + t == Frame(q) + t[n + 14 - k..] by {
        assert whole == cut + t[..n + 14 - k];
      }
      DecodeFrame(q, t[n + 14 - k..]);
    } else {
      var padded := t + seq(n + 14 - k - |t|, _ => 0);
      assert |padded| == n + 14 - k;
      var whole := cut + padded;
      var q := Completed(p, whole);
      assert Take(Frame(q), k + |t|) == cut + t;
      CutFrameEmitsNothing(q, k + |t|, instances);
    }
  }

  lemma FrameLayout(p: Packet)
    requires IsSingle(p)
    ensures |Frame(p)| == |p.payload| + 14
    ensures Frame(p)[..12] == Head(PrefixOf(0, p.version, p.instance)) + BE16(p.sequence) + BE32(p.length)
  {
  }

  /** Any bytes of the right number that start with the header of a frame are a frame. */
  lemma Completed(p: Packet, whole: Data) returns (q: Packet)
    requires IsSingle(p) && |whole| == |p.payload| + 14
    requires whole[..12] == Frame(p)[..12]
    ensures IsSingle(q) && q == p.(payload := whole[12..12 + |p.payload|], sum := q.sum)
    ensures Frame(q) == whole
  {
    var n := |p.payload|;
    q := p.(payload := whole[12..12 + n], sum := FromBE16(whole[12 + n..]));
    FrameLayout(p);
    FrameLayout(q);
    Canonical16(whole[12 + n..]);
    var head := Head(PrefixOf(0, p.version, p.instance));
    assert whole == whole[..12] + whole[12..12 + n] + whole[12 + n..];
    assert Frame(q) == head + (BE16(q.sequence) + BE32(q.length) + q.payload + BE16(q.sum));
    Assoc(head, BE16(q.sequence) + BE32(q.length) + q.payload, BE16(q.sum));
    Assoc(head, BE16(q.sequence) + BE32(q.length), q.payload);
    Assoc(head, BE16(q.sequence), BE32(q.length));
  }
}
