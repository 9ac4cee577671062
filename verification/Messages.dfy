/** Monitoring messages: their wire form, and the filter in front of every notifier. */
module Messages {
  import opened Bytes
  import opened Decoder
  import opened Proto
  import opened Sorting
  import opened Streams
  import opened Truncation

  /** Strings are their bytes; durations and times are 64-bit integers. */
  datatype Message = Message(
    origin: Data,
    sequence: uint32,
    instance: int32,
    channel: byte,
    realtime: bool,
    count: uint32,
    elapsed: int64,
    generated: int64,
    acquired: int64,
    reference: Data,
    upi: Data)

  // ----- the wire form -----

  /** The length field has 16 bits, whatever the length. */
  function StringBytes(s: Data): Data {
    BE16(|s| % 0x1_0000) + s
  }

  /** The eight fields between the strings, 38 bytes. */
  datatype Middle = Middle(
    sequence: uint32, instance: int32, channel: byte, realtime: bool,
    count: uint32, elapsed: int64, generated: int64, acquired: int64)

  function MiddleOf(m: Message): Middle {
    Middle(m.sequence, m.instance, m.channel, m.realtime, m.count, m.elapsed, m.generated, m.acquired)
  }

  function MiddleBytes(m: Middle): (s: Data)
    ensures |s| == 38
  {
    BE32(m.sequence) + (BEInt32(m.instance) + ([m.channel] + ([if m.realtime then 1 else 0]
    + (BE32(m.count) + (BEInt64(m.elapsed) + (BEInt64(m.generated) + BEInt64(m.acquired)))))))
  }

  function EncodeMessage(m: Message): Data {
    StringBytes(m.origin) + (MiddleBytes(MiddleOf(m)) + (StringBytes(m.reference) + StringBytes(m.upi)))
  }

  function Number64(s: Data, i: nat): int
    requires i + 8 <= |s|
  {
    Number32(s, i) * 0x1_0000_0000 + Number32(s, i + 4)
  }

  lemma SignedByBytes(x: int32, y: int64)
    ensures Number32(BEInt32(x), 0) == if x < 0 then x + 0x1_0000_0000 else x
    ensures Number64(BEInt64(y), 0) == if y < 0 then y + 0x1_0000_0000_0000_0000 else y
  {
    hide BE32;
    var u := if y < 0 then y + 0x1_0000_0000_0000_0000 else y;
    BytesByValue(if x < 0 then x + 0x1_0000_0000 else x, 0);
    BytesByValue(u / 0x1_0000_0000, 0);
    BytesByValue(u % 0x1_0000_0000, 0);
    assert BEInt64(y)[..4] == BE32(u / 0x1_0000_0000) && BEInt64(y)[4..] == BE32(u % 0x1_0000_0000);
  }

  /** The middle of a message by literal positions; negative numbers as their two's complement. */
  lemma MiddleByBytes(m: Middle)
    ensures var b := MiddleBytes(m);
            && Number32(b, 0) == m.sequence
            && Number32(b, 4) == (if m.instance < 0 then m.instance + 0x1_0000_0000 else m.instance)
            && b[8] == m.channel && b[9] == (if m.realtime then 1 else 0)
            && Number32(b, 10) == m.count
            && Number64(b, 14) == (if m.elapsed < 0 then m.elapsed + 0x1_0000_0000_0000_0000 else m.elapsed)
            && Number64(b, 22) == (if m.generated < 0 then m.generated + 0x1_0000_0000_0000_0000 else m.generated)
            && Number64(b, 30) == (if m.acquired < 0 then m.acquired + 0x1_0000_0000_0000_0000 else m.acquired)
  {
    hide BE32, BEInt32, BEInt64, MiddleBytes, Number32, Number64;
    var flag: byte := if m.realtime then 1 else 0;
    var sequence, instance, count := BE32(m.sequence), BEInt32(m.instance), BE32(m.count);
    var elapsed, generated, acquired := BEInt64(m.elapsed), BEInt64(m.generated), BEInt64(m.acquired);
    var front := sequence + instance + [m.channel, flag] + count;
    var back := elapsed + generated + acquired;
    MiddleInTwo(m, flag, front, back);
    BytesByValue(m.sequence, 0);
    BytesByValue(m.count, 0);
    SignedByBytes(m.instance, m.elapsed);
    SignedByBytes(0, m.generated);
    SignedByBytes(0, m.acquired);
    FrontByBytes(sequence, instance, m.channel, flag, count, back);
    BackByBytes(front, elapsed, generated, acquired);
  }

  lemma MiddleInTwo(m: Middle, flag: byte, front: Data, back: Data)
    requires flag == if m.realtime then 1 else 0
    requires front == BE32(m.sequence) + BEInt32(m.instance) + [m.channel, flag] + BE32(m.count)
    requires back == BEInt64(m.elapsed) + BEInt64(m.generated) + BEInt64(m.acquired)
    ensures MiddleBytes(m) == front + back
  {
    hide BE32, BEInt32, BEInt64;
  }

  lemma FrontByBytes(a: Data, b: Data, c: byte, d: byte, e: Data, back: Data)
    requires |a| == |b| == |e| == 4
    ensures var s := a + b + [c, d] + e + back;
            && Number32(s, 0) == Number32(a, 0) && Number32(s, 4) == Number32(b, 0) && s[8] == c && s[9] == d
            && Number32(s, 10) == Number32(e, 0)
  {
  }

  lemma BackByBytes(front: Data, f: Data, g: Data, h: Data)
    requires |front| == 14 && |f| == |g| == |h| == 8
    ensures var s := front + (f + g + h);
            Number64(s, 14) == Number64(f, 0) && Number64(s, 22) == Number64(g, 0) && Number64(s, 30) == Number64(h, 0)
  {
  }

  /** A whole message by positions: three strings behind their lengths, and the middle after the first of them. */
  lemma EncodingByBytes(m: Message)
    requires |m.origin| < 0x1_0000 && |m.reference| < 0x1_0000 && |m.upi| < 0x1_0000
    ensures var b, o, r, u := EncodeMessage(m), |m.origin|, |m.reference|, |m.upi|;
            && |b| == 44 + o + r + u
            && Number16(b, 0) == o && b[2..2 + o] == m.origin
            && b[2 + o..40 + o] == MiddleBytes(MiddleOf(m))
            && Number16(b, 40 + o) == r && b[42 + o..42 + o + r] == m.reference
            && Number16(b, 42 + o + r) == u && b[44 + o + r..] == m.upi
  {
    hide MiddleBytes, BE16, Number16;
    var b, o, r := EncodeMessage(m), |m.origin|, |m.reference|;
    var middle := MiddleBytes(MiddleOf(m));
    StringByBytes([], m.origin, middle + (StringBytes(m.reference) + StringBytes(m.upi)));
    StringByBytes(StringBytes(m.origin) + middle, m.reference, StringBytes(m.upi));
    StringByBytes(StringBytes(m.origin) + middle + StringBytes(m.reference), m.upi, []);
    FourPieces(StringBytes(m.origin), middle, StringBytes(m.reference), StringBytes(m.upi));
  }

  lemma StringByBytes(before: Data, s: Data, after: Data)
    requires |s| < 0x1_0000
    ensures var b, i := before + StringBytes(s) + after, |before|;
            Number16(b, i) == |s| && b[i + 2..i + 2 + |s|] == s
  {
    hide BE16;
    BytesByValue(0, |s|);
    var b, i := before + StringBytes(s) + after, |before|;
    assert b[i] == BE16(|s|)[0] && b[i + 1] == BE16(|s|)[1];
  }

  lemma FourPieces(x: Data, m: Data, y: Data, z: Data)
    ensures x + (m + (y + z)) == [] + x + (m + (y + z)) == x + m + y + z == x + m + y + z + []
    ensures (x + (m + (y + z)))[|x|..|x| + |m|] == m
  {
  }

  // ----- decoding -----

  function ReadString(s: Data): (r: Outcome<Data>)
    ensures |r.rest| <= |s|
    ensures r.Done? ==> |r.rest| < |s|
  {
    match Read16(s)
    case Failed(e, t) => Failed(e, t)
    case Done(n, t) => ReadFull(t, n)
  }

  /** A read whose error is ignored: what is missing is zero, and the input is drained. */
  function ReadOrZero(s: Data, n: nat): (r: (Data, Data))
    ensures |r.0| == n && |r.1| <= |s|
  {
    match ReadFull(s, n)
    case Done(bs, t) => (bs, t)
    case Failed(_, t) => (seq(n, _ => 0), t)
  }

  function ReadMiddle(s: Data): (r: (Middle, Data))
    ensures |r.1| <= |s|
  {
    var (sequence, t) := ReadOrZero(s, 4);
    var (instance, t) := ReadOrZero(t, 4);
    var (channel, t) := ReadOrZero(t, 1);
    var (realtime, t) := ReadOrZero(t, 1);
    var (count, t) := ReadOrZero(t, 4);
    var (elapsed, t) := ReadOrZero(t, 8);
    var (generated, t) := ReadOrZero(t, 8);
    var (acquired, t) := ReadOrZero(t, 8);
    (Middle(FromBE32(sequence), FromBEInt32(instance), channel[0], realtime[0] != 0,
            FromBE32(count), FromBEInt64(elapsed), FromBEInt64(generated), FromBEInt64(acquired)), t)
  }

  function Assembled(origin: Data, m: Middle, reference: Data, upi: Data): Message {
    Message(origin, m.sequence, m.instance, m.channel, m.realtime, m.count,
            m.elapsed, m.generated, m.acquired, reference, upi)
  }

  function DecodeMessage(s: Data): (r: Outcome<Message>)
    ensures r.Done? ==> |r.rest| < |s|
  {
    match ReadString(s)
    case Failed(e, t) => Failed(e, t)
    case Done(origin, t) =>
    var (middle, t) := ReadMiddle(t);
    match ReadString(t)
    case Failed(e, t) => Failed(e, t)
    case Done(reference, t) =>
    match ReadString(t)
    case Failed(e, t) => Failed(e, t)
    case Done(upi, t) => Done(Assembled(origin, middle, reference, upi), t)
  }

  /** The monitoring loop: messages until the first error. */
  function DecodeMessages(s: Data): seq<Message>
    decreases |s|
  {
    match DecodeMessage(s)
    case Failed(_, _) => []
    case Done(m, t) => [m] + DecodeMessages(t)
  }

  // ----- the decoder as it runs -----

  method ReadStringFrom(r: Reader) returns (s: Result<Data>)
    modifies r
    ensures s.Leaving(r.rest) == ReadString(old(r.rest))
  {
    var n :- r.Read16();
    s := r.ReadFull(n);
  }

  method ReadIgnoringError(r: Reader, n: nat) returns (bs: Data)
    modifies r
    ensures (bs, r.rest) == ReadOrZero(old(r.rest), n)
  {
    var v := r.ReadFull(n);
    bs := match v case Ok(got) => got case Err(_) => seq(n, _ => 0);
  }

  method ReadMiddleFrom(r: Reader) returns (m: Middle)
    modifies r
    ensures (m, r.rest) == ReadMiddle(old(r.rest))
  {
    hide ReadOrZero;
    var sequence := ReadIgnoringError(r, 4);
    var instance := ReadIgnoringError(r, 4);
    var channel := ReadIgnoringError(r, 1);
    var realtime := ReadIgnoringError(r, 1);
    var count := ReadIgnoringError(r, 4);
    var elapsed := ReadIgnoringError(r, 8);
    var generated := ReadIgnoringError(r, 8);
    var acquired := ReadIgnoringError(r, 8);
    m := Middle(FromBE32(sequence), FromBEInt32(instance), channel[0], realtime[0] != 0,
                FromBE32(count), FromBEInt64(elapsed), FromBEInt64(generated), FromBEInt64(acquired));
  }

  method DecodeMessageFrom(r: Reader) returns (m: Result<Message>)
    modifies r
    ensures m.Leaving(r.rest) == DecodeMessage(old(r.rest))
  {
    hide ReadString, ReadMiddle;
    var origin :- ReadStringFrom(r);
    var middle := ReadMiddleFrom(r);
    var reference :- ReadStringFrom(r);
    var upi :- ReadStringFrom(r);
    m := Ok(Assembled(origin, middle, reference, upi));
  }

  // ----- round trip -----

  /** What the decoder makes of any 38 bytes: every byte but zero counts as true. */
  lemma MiddleOfBytes(s: Data)
    requires 38 <= |s|
    ensures var (m, t) := ReadMiddle(s);
            && t == s[38..]
            && m.sequence == Number32(s, 0) && m.channel == s[8] && (m.realtime <==> s[9] != 0)
            && m.count == Number32(s, 10)
            && (m.instance - Number32(s, 4)) % 0x1_0000_0000 == 0
  {
    hide ReadOrZero, FromBE32, FromBEInt32, FromBEInt64, Number32;
    var t1 := s[4..];
    var t2 := t1[4..];
    var t3 := t2[1..];
    var t4 := t3[1..];
    var t5 := t4[4..];
    var t6 := t5[8..];
    var t7 := t6[8..];
    ReadWhole(s, 4);
    ReadWhole(t1, 4);
    ReadWhole(t2, 1);
    ReadWhole(t3, 1);
    ReadWhole(t4, 4);
    ReadWhole(t5, 8);
    ReadWhole(t6, 8);
    ReadWhole(t7, 8);
    assert t4 == s[10..] && t7[8..] == s[38..] && t2[0] == s[8] && t3[0] == s[9];
    FromBytes(s, t1, t4);
  }

  lemma ReadWhole(s: Data, n: nat)
    requires n <= |s|
    ensures ReadOrZero(s, n) == (s[..n], s[n..])
  {
  }

  lemma FromBytes(s: Data, t1: Data, t4: Data)
    requires 38 <= |s| && t1 == s[4..] && t4 == s[10..]
    ensures FromBE32(s[..4]) == Number32(s, 0) && FromBE32(t4[..4]) == Number32(s, 10)
    ensures (FromBEInt32(t1[..4]) - Number32(s, 4)) % 0x1_0000_0000 == 0
  {
    assert t1[..4] == s[4..8] && t4[..4] == s[10..14];
    NumberOfBytes(s, 0);
    NumberOfBytes(s, 4);
    NumberOfBytes(s, 10);
    assert s[0..4] == s[..4];
  }

  lemma NumberOfBytes(s: Data, i: nat)
    requires i + 4 <= |s|
    ensures FromBE32(s[i..i + 4]) == Number32(s, i)
  {
    var b := s[i..i + 4];
    assert b[..2][0] == s[i] && b[..2][1] == s[i + 1] && b[2..][0] == s[i + 2] && b[2..][1] == s[i + 3];
  }

  predicate IsShort(s: Data) {
    |s| < 0x1_0000
  }

  predicate IsEncodable(m: Message) {
    IsShort(m.origin) && IsShort(m.reference) && IsShort(m.upi)
  }

  lemma ReadStringOfBytes(s: Data, t: Data)
    requires IsShort(s)
    ensures ReadString(StringBytes(s) + t) == Done(s, t)
  {
    hide Read16, ReadFull, BE16;
    Assoc(BE16(|s|), s, t);
    Read16OfBE16(|s|, s + t);
    ReadFullOfConcat(s, t);
  }

  lemma ReadOrZeroOfBytes(a: Data, t: Data)
    ensures ReadOrZero(a + t, |a|) == (a, t)
  {
    ReadFullOfConcat(a, t);
  }

  lemma ReadMiddleOfBytes(m: Middle, t: Data)
    ensures ReadMiddle(MiddleBytes(m) + t) == (m, t)
  {
    hide ReadOrZero, BE32, BEInt32, BEInt64, FromBE32, FromBEInt32, FromBEInt64, MiddleBytes;
    var t7 := BEInt64(m.acquired) + t;
    var t6 := BEInt64(m.generated) + t7;
    var t5 := BEInt64(m.elapsed) + t6;
    var t4 := BE32(m.count) + t5;
    var flag: Data := [if m.realtime then 1 else 0];
    var t3 := flag + t4;
    var t2 := [m.channel] + t3;
    var t1 := BEInt32(m.instance) + t2;
    MiddleBytesThen(m, t);
    ReadOrZeroOfBytes(BE32(m.sequence), t1);
    ReadOrZeroOfBytes(BEInt32(m.instance), t2);
    ReadOrZeroOfBytes([m.channel], t3);
    ReadOrZeroOfBytes(flag, t4);
    ReadOrZeroOfBytes(BE32(m.count), t5);
    ReadOrZeroOfBytes(BEInt64(m.elapsed), t6);
    ReadOrZeroOfBytes(BEInt64(m.generated), t7);
    ReadOrZeroOfBytes(BEInt64(m.acquired), t);
    RoundTrip32(m.sequence);
    RoundTripInt32(m.instance);
    RoundTrip32(m.count);
    RoundTripInt64(m.elapsed);
    RoundTripInt64(m.generated);
    RoundTripInt64(m.acquired);
  }

  lemma MiddleBytesThen(m: Middle, t: Data)
    ensures MiddleBytes(m) + t ==
      BE32(m.sequence) + (BEInt32(m.instance) + ([m.channel] + ([if m.realtime then 1 else 0]
      + (BE32(m.count) + (BEInt64(m.elapsed) + (BEInt64(m.generated) + (BEInt64(m.acquired) + t)))))))
  {
    hide BE32, BEInt32, BEInt64;
  }

  lemma DecodeOfEncode(m: Message, t: Data)
    requires IsEncodable(m)
    ensures DecodeMessage(EncodeMessage(m) + t) == Done(m, t)
  {
    hide StringBytes, MiddleBytes, ReadString, ReadMiddle;
    var o, b, r, u := StringBytes(m.origin), MiddleBytes(MiddleOf(m)), StringBytes(m.reference), StringBytes(m.upi);
    assert o + (b + (r + u)) + t == o + (b + (r + (u + t)));
    ReadStringOfBytes(m.origin, b + (r + (u + t)));
    ReadMiddleOfBytes(MiddleOf(m), r + (u + t));
    ReadStringOfBytes(m.reference, u + t);
    ReadStringOfBytes(m.upi, t);
  }

  /** Decoding inverts encoding, to the last byte, exactly when all strings fit their length fields. */
  lemma CodecExact(m: Message)
    ensures DecodeMessage(EncodeMessage(m)) == Done(m, []) <==>
            |m.origin| < 0x1_0000 && |m.reference| < 0x1_0000 && |m.upi| < 0x1_0000
  {
    hide DecodeMessage, EncodeMessage;
    if IsEncodable(m) {
      DecodeOfEncode(m, []);
      assert EncodeMessage(m) + [] == EncodeMessage(m);
    } else if DecodeMessage(EncodeMessage(m)).Done? {
      DecodedIsEncodable(EncodeMessage(m));
    }
  }

  lemma DecodedIsEncodable(s: Data)
    requires DecodeMessage(s).Done?
    ensures IsEncodable(DecodeMessage(s).value)
  {
    hide ReadMiddle;
  }

  // ----- every strict prefix is rejected -----

  lemma CutString(s: Data, k: nat)
    requires IsShort(s) && k < |StringBytes(s)|
    ensures ReadString(StringBytes(s)[..k]).Failed?
  {
    if 2 <= k {
      var part := s[..k - 2];
      assert StringBytes(s)[..k] == BE16(|s|) + part;
      Read16OfBE16(|s|, part);
      hide Read16;
    }
  }

  lemma NothingIsNoString()
    ensures ReadString([]).Failed?
  {
  }

  /** The ignored errors do not go unnoticed: a short middle leaves nothing for the next string. */
  lemma CutMiddle(s: Data)
    requires |s| < 38
    ensures ReadMiddle(s).1 == []
  {
  }

  /**
   * Every strict prefix of an encoding is rejected, although the reads in the middle ignore
   * their errors.
   */
  lemma PrefixIsRejected(m: Message, k: nat)
    requires IsEncodable(m) && k < |EncodeMessage(m)|
    ensures DecodeMessage(EncodeMessage(m)[..k]).Failed?
  {
    hide StringBytes, MiddleBytes, ReadString, ReadMiddle;
    var o, b, r, u := StringBytes(m.origin), MiddleBytes(MiddleOf(m)), StringBytes(m.reference), StringBytes(m.upi);
    var cut := EncodeMessage(m)[..k];
    if k < |o| {
      assert cut == o[..k];
      CutString(m.origin, k);
    } else {
      var k1 := k - |o|;
      var tail := (b + (r + u))[..k1];
      assert cut == o + tail;
      ReadStringOfBytes(m.origin, tail);
      if k1 < 38 {
        CutMiddle(tail);
        NothingIsNoString();
      } else {
        var k2 := k1 - 38;
        assert tail == b + (r + u)[..k2];
        ReadMiddleOfBytes(MiddleOf(m), (r + u)[..k2]);
        CutStrings(m.reference, m.upi, k2);
      }
    }
  }

  lemma CutStrings(a: Data, b: Data, k: nat)
    requires IsShort(a) && IsShort(b) && k < |StringBytes(a) + StringBytes(b)|
    ensures var r := ReadString((StringBytes(a) + StringBytes(b))[..k]);
            r.Failed? || ReadString(r.rest).Failed?
  {
    hide StringBytes, ReadString;
    var x, y := StringBytes(a), StringBytes(b);
    if k < |x| {
      assert (x + y)[..k] == x[..k];
      CutString(a, k);
    } else {
      assert (x + y)[..k] == x + y[..k - |x|];
      ReadStringOfBytes(a, y[..k - |x|]);
      CutString(b, k - |x|);
    }
  }

  // ----- concatenated messages -----

  function EncodeMessages(ms: seq<Message>): Data {
    if ms == [] then [] else EncodeMessage(ms[0]) + EncodeMessages(ms[1..])
  }

  predicate AreEncodable(ms: seq<Message>) {
    forall i :: 0 <= i < |ms| ==> IsEncodable(ms[i])
  }

  lemma {:induction false} ConcatenationDecodes(ms: seq<Message>)
    requires AreEncodable(ms)
    ensures DecodeMessages(EncodeMessages(ms)) == ms
  {
    hide EncodeMessage, DecodeMessage;
    if ms != [] {
      DecodeOfEncode(ms[0], EncodeMessages(ms[1..]));
      ConcatenationDecodes(ms[1..]);
    } else {
      NothingDecodesToNothing();
    }
  }

  lemma NothingDecodesToNothing()
    ensures DecodeMessage([]).Failed?
  {
  }

  /** How many of the messages are complete in the first k bytes of their encodings. */
  function CompleteIn(ms: seq<Message>, k: nat): (n: nat)
    ensures n <= |ms|
  {
    if ms == [] || k < |EncodeMessage(ms[0])| then 0
    else 1 + CompleteIn(ms[1..], k - |EncodeMessage(ms[0])|)
  }

  /** A stream of messages that is cut anywhere gives exactly the messages that are complete. */
  lemma {:induction false} CutStreamOfMessages(ms: seq<Message>, k: nat)
    requires AreEncodable(ms) && k <= |EncodeMessages(ms)|
    ensures DecodeMessages(EncodeMessages(ms)[..k]) == ms[..CompleteIn(ms, k)]
  {
    hide EncodeMessage, DecodeMessage;
    if ms == [] {
      NothingDecodesToNothing();
    } else {
      var first, rest := EncodeMessage(ms[0]), EncodeMessages(ms[1..]);
      if k < |first| {
        assert (first + rest)[..k] == first[..k];
        PrefixIsRejected(ms[0], k);
      } else {
        assert (first + rest)[..k] == first + rest[..k - |first|];
        DecodeOfEncode(ms[0], rest[..k - |first|]);
        CutStreamOfMessages(ms[1..], k - |first|);
      }
    }
  }

  /** A stream of messages can be read in one way only. */
  lemma ConcatenationIsUnique(a: seq<Message>, b: seq<Message>)
    requires AreEncodable(a) && AreEncodable(b)
    requires EncodeMessages(a) == EncodeMessages(b)
    ensures a == b
  {
    ConcatenationDecodes(a);
    ConcatenationDecodes(b);
  }

  // ----- the filter -----

  /** A negative instance and an empty list of channels accept everything. */
  datatype Options = Options(source: string, instance: int32, channels: seq<byte>)

  function NotAbove(channels: seq<byte>, channel: byte): nat -> bool {
    (i: nat) => i < |channels| && channels[i] <= channel
  }

  /** What the binary search of Accept finds out about a channel. */
  predicate ChannelFound(channels: seq<byte>, channel: byte) {
    var ix := Probe(NotAbove(channels, channel), 0, |channels|);
    !(|channels| > 0 && (ix >= |channels| || channels[ix] != channel))
  }

  predicate SourceMatches(source: string, realtime: bool) {
    match source
    case "realtime" => realtime
    case "playback" => !realtime
    case "" => true
    case _ => false
  }

  predicate Admits(o: Options, m: Message) {
    && (o.instance < 0 || o.instance == m.instance)
    && ChannelFound(o.channels, m.channel)
    && SourceMatches(o.source, m.realtime)
  }

  method Accept(o: Option<Options>, m: Message) returns (ok: bool)
    ensures ok == (o.None? || Admits(o.value, m))
  {
    if o.None? {
      return true;
    }
    var Options(source, instance, channels) := o.value;
    if instance >= 0 && instance != m.instance {
      return false;
    }
    var ix := Search(|channels|, NotAbove(channels, m.channel));
    if |channels| > 0 && (ix >= |channels| || channels[ix] != m.channel) {
      return false;
    }
    ok := SourceMatches(source, m.realtime);
  }

  /** The three sources that can be configured, and any other. */
  lemma SourceByValue(source: string, realtime: bool)
    ensures SourceMatches("realtime", realtime) <==> realtime
    ensures SourceMatches("playback", realtime) <==> !realtime
    ensures SourceMatches("", realtime)
    ensures source != "realtime" && source != "playback" && source != "" ==> !SourceMatches(source, realtime)
  {
  }

  /** The filter as its configuration reads: instance, membership of the channel, source. */
  predicate Wants(o: Options, m: Message) {
    && (o.instance < 0 || o.instance == m.instance)
    && (o.channels == [] || m.channel in o.channels)
    && SourceMatches(o.source, m.realtime)
  }

  predicate NonIncreasing(s: seq<byte>) {
    forall i, j :: 0 <= i < j < |s| ==> s[i] >= s[j]
  }

  lemma DescendingListIsSearched(channels: seq<byte>, channel: byte)
    requires NonIncreasing(channels)
    ensures ChannelFound(channels, channel) <==> channels == [] || channel in channels
  {
    var f := NotAbove(channels, channel);
    ProbeFindsFirst(f, 0, |channels|);
    if channel in channels {
      var k :| 0 <= k < |channels| && channels[k] == channel;
      var ix := Probe(f, 0, |channels|);
      assert f(k);
      assert ix <= k && f(ix);
    }
  }

  /** For every non-increasing list of channels, exactly what is wanted is accepted. */
  lemma DescendingAdmitsWanted(o: Options, m: Message)
    requires NonIncreasing(o.channels)
    ensures Admits(o, m) <==> Wants(o, m)
  {
    DescendingListIsSearched(o.channels, m.channel);
  }

  lemma ProbeTurns(s: seq<byte>, x: nat, lo: nat, h: nat, hi: nat)
    requires lo <= x < hi <= |s| && h == (lo + hi) / 2
    requires Probe(NotAbove(s, s[x]), lo, hi) == x
    ensures x < h ==> s[x] >= s[h] && Probe(NotAbove(s, s[x]), lo, h) == x
    ensures h < x ==> s[h] > s[x] && Probe(NotAbove(s, s[x]), h + 1, hi) == x
  {
  }

  /** If every element of a part of the list is found at its own index, the part descends. */
  lemma {:induction false} FoundInPlaceDescends(s: seq<byte>, lo: nat, hi: nat)
    requires lo <= hi <= |s|
    requires forall x :: lo <= x < hi ==> Probe(NotAbove(s, s[x]), lo, hi) == x
    ensures forall i, j :: lo <= i < j < hi ==> s[i] >= s[j]
    decreases hi - lo
  {
    hide Probe, NotAbove;
    if lo < hi {
      var h := (lo + hi) / 2;
      forall x | lo <= x < hi
        ensures x < h ==> s[x] >= s[h] && Probe(NotAbove(s, s[x]), lo, h) == x
        ensures h < x ==> s[h] > s[x] && Probe(NotAbove(s, s[x]), h + 1, hi) == x
      {
        ProbeTurns(s, x, lo, h, hi);
      }
      FoundInPlaceDescends(s, lo, h);
      FoundInPlaceDescends(s, h + 1, hi);
    }
  }

  /**
   * The program does not sort the configured list. For a list without repeats the search
   * agrees with membership for every channel exactly when the list is descending.
   */
  lemma ChannelSearchExact(channels: seq<byte>)
    requires HasNoRepeats(channels)
    ensures (forall c: byte :: ChannelFound(channels, c) <==> channels == [] || c in channels)
            <==> forall i, j :: 0 <= i < j < |channels| ==> channels[i] > channels[j]
  {
    if forall i, j :: 0 <= i < j < |channels| ==> channels[i] > channels[j] {
      forall c: byte
        ensures ChannelFound(channels, c) <==> channels == [] || c in channels
      {
        DescendingListIsSearched(channels, c);
      }
    } else if forall c: byte :: ChannelFound(channels, c) <==> channels == [] || c in channels {
      forall x | 0 <= x < |channels|
        ensures Probe(NotAbove(channels, channels[x]), 0, |channels|) == x
      {
        assert ChannelFound(channels, channels[x]);
      }
      FoundInPlaceDescends(channels, 0, |channels|);
    }
  }

  /**
   * A configured list as the search tree that its midpoints make: at the end of every path,
   * the only value of the list within the bounds of that path is the one that stands there.
   */
  predicate IsSearchTree(s: seq<byte>, lo: nat, hi: nat, low: int, high: int)
    requires lo <= hi <= |s|
    decreases hi - lo
  {
    if lo == hi then forall v :: v in s && low <= v < high ==> lo < |s| && v == s[lo]
    else
      var h := (lo + hi) / 2;
      && IsSearchTree(s, lo, h, if low < s[h] then s[h] else low, high)
      && IsSearchTree(s, h + 1, hi, low, if s[h] < high then s[h] else high)
  }

  ghost predicate IsFoundWithin(s: seq<byte>, lo: nat, hi: nat, v: byte)
    requires lo <= hi <= |s|
  {
    var ix := Probe(NotAbove(s, v), lo, hi); ix < |s| && s[ix] == v
  }

  lemma {:induction false} SearchTreeFinds(s: seq<byte>, lo: nat, hi: nat, low: int, high: int)
    requires lo <= hi <= |s|
    ensures IsSearchTree(s, lo, hi, low, high) <==>
            forall v :: v in s && low <= v < high ==> IsFoundWithin(s, lo, hi, v)
    decreases hi - lo
  {
    if lo == hi {
    } else {
      var h := (lo + hi) / 2;
      var left, right := if low < s[h] then s[h] else low, if s[h] < high then s[h] else high;
      SearchTreeFinds(s, lo, h, left, high);
      SearchTreeFinds(s, h + 1, hi, low, right);
      forall v: byte
        ensures IsFoundWithin(s, lo, hi, v) <==>
                if s[h] <= v then IsFoundWithin(s, lo, h, v) else IsFoundWithin(s, h + 1, hi, v)
      {
      }
    }
  }

  /**
   * For every list, with or without repeats, the search agrees with membership for every channel
   * exactly when the list is such a search tree -- which can be checked when it is configured.
   */
  lemma ListSearchExact(channels: seq<byte>)
    ensures (forall c: byte :: ChannelFound(channels, c) <==> channels == [] || c in channels)
            <==> IsSearchTree(channels, 0, |channels|, 0, 0x100)
  {
    SearchTreeFinds(channels, 0, |channels|, 0, 0x100);
    forall c: byte
      ensures channels != [] ==> (ChannelFound(channels, c) <==> IsFoundWithin(channels, 0, |channels|, c))
      ensures IsFoundWithin(channels, 0, |channels|, c) ==> c in channels
    {
    }
  }

  /** In an ascending list the first channel is configured and yet rejected. */
  lemma AscendingListRejectsMember()
    ensures 1 in [1, 2] && !ChannelFound([1, 2], 1)
  {
    assert Probe(NotAbove([1, 2], 1), 2, 2) == 2;
  }

  /** With repeats a list can be searched although it is not descending. */
  lemma RepeatsCanBeFound(c: byte)
    ensures ChannelFound([5, 3, 5], c) <==> c in [5, 3, 5]
    ensures !NonIncreasing([5, 3, 5])
  {
    var s: seq<byte> := [5, 3, 5];
    var f := NotAbove(s, c);
    assert Probe(f, 0, 0) == 0 && Probe(f, 1, 1) == 1 && Probe(f, 2, 2) == 2 && Probe(f, 3, 3) == 3;
    assert Probe(f, 0, 1) == (if f(0) then 0 else 1);
    assert Probe(f, 2, 3) == (if f(2) then 2 else 3);
    assert s[1] < s[2];
  }

  // ----- the external notifier -----

  class ExternalNotifier {
    const options: Option<Options>
    var conn: Data
    /** How many more bytes the network takes before it fails. */
    var room: nat

    constructor (options: Option<Options>, room: nat)
      ensures this.options == options && conn == [] && this.room == room
    {
      this.options, conn, this.room := options, [], room;
    }

    /**
     * An accepted message is written, in full or as far as the network takes it, and then an
     * error is reported; a message that is not accepted leaves the connection alone.
     */
    method Notify(m: Message) returns (ok: bool)
      modifies this
      ensures var sent := if options.None? || Admits(options.value, m) then EncodeMessage(m) else [];
              && conn == old(conn) + Take(sent, old(room))
              && room == old(room) - |Take(sent, old(room))|
              && (ok <==> |sent| <= old(room))
    {
      hide Admits, MiddleBytes, StringBytes;
      var accepted := Accept(options, m);
      if !accepted {
        assert conn == conn + Take([], room);
        return true;
      }
      var buf := BE16(|m.origin| % 0x1_0000) + m.origin;
      buf := buf + MiddleBytes(MiddleOf(m));
      buf := buf + (BE16(|m.reference| % 0x1_0000) + m.reference);
      buf := buf + (BE16(|m.upi| % 0x1_0000) + m.upi);
      BufferIsEncoding(m, buf);
      var part := Take(buf, room);
      ok := |buf| <= room;
      conn, room := conn + part, room - |part|;
    }
  }

  lemma BufferIsEncoding(m: Message, buf: Data)
    requires buf == BE16(|m.origin| % 0x1_0000) + m.origin + MiddleBytes(MiddleOf(m))
                    + (BE16(|m.reference| % 0x1_0000) + m.reference) + (BE16(|m.upi| % 0x1_0000) + m.upi)
    ensures buf == EncodeMessage(m)
  {
    hide MiddleBytes;
  }
}
