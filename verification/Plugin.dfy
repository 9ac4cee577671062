/** The plug-in's frame builder, and what the decoder makes of its frames. */
module Plugin {
  import opened Bytes
  import opened Checksum
  import opened Proto
  import opened Streams
  import Replay

  /** The largest packet whose frame size fits a signed 32-bit int. */
  const MAX_PACKET: nat := 0x7fff_ffff - 14

  /** The packet that stands for `data`: VMU version 2, and the mission mode cut to one byte. */
  function PluginPacket(mode: int, sequence: uint16, data: Data): Packet
    requires |data| <= MAX_PACKET
  {
    var p := NEW_PACKET.(version := 2, instance := mode % 0x100, sequence := sequence,
                        length := |data|, payload := data);
    p.(sum := InternetChecksum(Head(PrefixOf(0, 2, p.instance)) + (BE16(sequence) + BE32(|data|) + data)))
  }

  function PluginFrame(mode: int, sequence: uint16, data: Data): (f: Data)
    requires |data| <= MAX_PACKET
    ensures |f| == |data| + 14
  {
    Frame(PluginPacket(mode, sequence, data))
  }

  class TcpForwardPlugin {
    const missionMode: int
    var sequenceCounter: uint16

    constructor (mode: int)
      ensures missionMode == mode && sequenceCounter == 0
    {
      missionMode, sequenceCounter := mode, 0;
    }

    /**
     * The buffer handed to the client, or null when there is nothing to forward. The buffer
     * is allocated at an arbitrary address.
     */
    method HandlePacket(packetData: array?<byte>, packetSize: nat, address: nat) returns (buf: array?<byte>)
      requires packetSize <= MAX_PACKET
      requires packetData != null ==> packetSize <= packetData.Length
      modifies this
      ensures packetSize == 0 || packetData == null ==> buf == null && sequenceCounter == old(sequenceCounter)
      ensures packetSize != 0 && packetData != null ==>
        && buf != null && fresh(buf)
        && buf[..] == PluginFrame(missionMode, old(sequenceCounter), packetData[..packetSize])
        && sequenceCounter == (old(sequenceCounter) + 1) % 0x1_0000
    {
      if packetSize == 0 {
        return null;
      }
      if packetData == null {
        return null;
      }
      var sequence := sequenceCounter;
      sequenceCounter := (sequenceCounter + 1) % 0x1_0000;

      var bufSize := packetSize + 14;
      buf := new byte[bufSize];
      FillHeader(buf, missionMode, sequence, packetSize);
      forall i | 0 <= i < packetSize {
        buf[12 + i] := packetData[i];
      }
      ghost var data := packetData[..packetSize];
      assert buf[12..12 + packetSize] == data;
      var sum := IpChecksum(buf[..bufSize - 2], address);
      label summed:
      Store16(buf, packetSize + 12, sum);
      assert buf[..bufSize - 2] == old@summed(buf[..bufSize - 2]);
      assert buf[..][..12 + packetSize] == buf[..bufSize - 2];
      assert buf[..][12 + packetSize..] == buf[packetSize + 12..packetSize + 14];
      FrameFromParts(buf[..], missionMode, sequence, data);
    }
  }

  method FillHeader(buf: array<byte>, missionMode: int, sequence: uint16, packetSize: uint32)
    requires buf.Length >= 12
    modifies buf
    ensures buf[..6] == Head(PrefixOf(0, 2, missionMode % 0x100))
    ensures buf[6..12] == BE16(sequence) + BE32(packetSize)
  {
    buf[0], buf[1], buf[2], buf[3] := 0xf8, 0x2e, 0x35, 0x53;
    buf[4] := 0x02;
    buf[5] := missionMode % 0x100;
    assert buf[..6] == Head(PrefixOf(0, 2, missionMode % 0x100));
    Store16(buf, 6, sequence);
    Store32(buf, 8, packetSize);
    assert buf[6..12] == buf[6..8] + buf[8..12];
  }

  lemma FrameFromParts(b: Data, mode: int, sequence: uint16, data: Data)
    requires |data| <= MAX_PACKET && |b| == |data| + 14
    requires b[..6] == Head(PrefixOf(0, 2, mode % 0x100))
    requires b[6..12] == BE16(sequence) + BE32(|data|)
    requires b[12..12 + |data|] == data
    requires b[12 + |data|..] == BE16(InternetChecksum(b[..12 + |data|]))
    ensures b == PluginFrame(mode, sequence, data)
  {
    var n := 12 + |data|;
    assert b[..n] == b[..6] + (b[6..12] + b[12..n]);
    assert b == b[..n] + b[n..];
    Assoc(b[..6], b[6..12] + b[12..n], b[n..]);
  }

  method Store16(buf: array<byte>, at: nat, x: uint16)
    requires at + 2 <= buf.Length
    modifies buf
    ensures buf[at..at + 2] == BE16(x)
    ensures forall i :: 0 <= i < buf.Length && !(at <= i < at + 2) ==> buf[i] == old(buf[i])
  {
    buf[at], buf[at + 1] := x / 0x100, x % 0x100;
  }

  method Store32(buf: array<byte>, at: nat, x: uint32)
    requires at + 4 <= buf.Length
    modifies buf
    ensures buf[at..at + 4] == BE32(x)
    ensures forall i :: 0 <= i < buf.Length && !(at <= i < at + 4) ==> buf[i] == old(buf[i])
  {
    Store16(buf, at, x / 0x1_0000);
    Store16(buf, at + 2, x % 0x1_0000);
    assert buf[at..at + 4] == buf[at..at + 2] + buf[at + 2..at + 4];
  }

  /** The plug-in and the decoder, written in two languages, agree on every frame. */
  lemma PluginFrameDecodes(mode: int, sequence: uint16, data: Data, t: Data)
    requires |data| <= MAX_PACKET
    ensures IsSingle(PluginPacket(mode, sequence, data))
    ensures DecodePacket(PluginFrame(mode, sequence, data) + t) == Done(PluginPacket(mode, sequence, data), t)
  {
    DecodeFrame(PluginPacket(mode, sequence, data), t);
  }

  /** The documented dump itself: the frames of ten packets "Hello World!\n" in mission mode 1, byte by byte. */
  lemma DocumentedFrames(k: byte)
    requires k < 10
    ensures PluginFrame(1, k, [0x48, 0x65, 0x6c, 0x6c, 0x6f, 0x20, 0x57, 0x6f, 0x72, 0x6c, 0x64, 0x21, 0x0a])
         == [0xf8, 0x2e, 0x35, 0x53, 0x02, 0x01, 0x00, k, 0x00, 0x00, 0x00, 0x0d]
            + [0x48, 0x65, 0x6c, 0x6c, 0x6f, 0x20, 0x57, 0x6f, 0x72, 0x6c, 0x64, 0x21, 0x0a]
            + [0x74, 0x80 - k]
  {
    hide InternetChecksum;
    var header: Data := [0xf8, 0x2e, 0x35, 0x53, 0x02, 0x01, 0x00, k, 0x00, 0x00, 0x00, 0x0d];
    var text: Data := [0x48, 0x65, 0x6c, 0x6c, 0x6f, 0x20, 0x57, 0x6f, 0x72, 0x6c, 0x64, 0x21, 0x0a];
    DocumentedDump(k);
    DocumentedHeader(k);
    var f := header + text + [0x74, 0x80 - k];
    assert f[..25] == header + text && f[..6] == header[..6] && f[6..12] == header[6..] && f[12..25] == text;
    assert BE16(0x7480 - k) == [0x74, 0x80 - k];
    FrameFromParts(f, 1, k, text);
  }

  lemma DocumentedHeader(k: byte)
    ensures Head(PrefixOf(0, 2, 1)) == [0xf8, 0x2e, 0x35, 0x53, 0x02, 0x01]
    ensures BE16(k) + BE32(13) == [0x00, k, 0x00, 0x00, 0x00, 0x0d]
  {
  }

  /**
   * Every frame by literal positions: VMU version 2, the mission mode cut to a byte, and the
   * checksum of all before it.
   */
  lemma PluginFrameByBytes(mode: int, sequence: uint16, data: Data)
    requires |data| <= MAX_PACKET
    ensures var f, n := PluginFrame(mode, sequence, data), |data|;
            && |f| == n + 14
            && f[0] == 0xf8 && f[1] == 0x2e && f[2] == 0x35 && f[3] == 0x53
            && f[4] == 2 && f[5] == mode % 0x100
            && Number16(f, 6) == sequence && Number32(f, 8) == n
            && f[12..12 + n] == data && Number16(f, 12 + n) == InternetChecksum(f[..12 + n])
  {
    hide Frame, InternetChecksum;
    var p := PluginPacket(mode, sequence, data);
    FrameByBytes(p);
    var s := FrameInTwo(mode, sequence, data);
    SumOfFrame(mode, sequence, data, s);
  }

  lemma SumOfFrame(mode: int, sequence: uint16, data: Data, s: Data)
    requires |data| <= MAX_PACKET && |s| == |data| + 12
    requires PluginFrame(mode, sequence, data) == s + BE16(InternetChecksum(s))
    ensures PluginFrame(mode, sequence, data)[..12 + |data|] == s
    ensures Number16(PluginFrame(mode, sequence, data), 12 + |data|) == InternetChecksum(s)
  {
    hide PluginFrame, InternetChecksum, BE16;
    BytesByValue(0, InternetChecksum(s));
  }

  /** The plug-in and the replayer write the same bytes, given the same checksum function. */
  lemma EncodersAgree(mode: int, sequence: uint16, data: Data)
    requires |data| <= MAX_PACKET
    ensures Replay.Written(0, PrefixOf(0, 2, mode % 0x100), sequence, InternetChecksum, data)
         == PluginFrame(mode, sequence, data)
  {
    hide InternetChecksum, Head;
    var version := PrefixOf(0, 2, mode % 0x100);
    PrefixFields(0, 2, mode % 0x100);
    Assoc(Head(version), BE16(sequence), BE32(|data|));
    Assoc(Head(version), BE16(sequence) + BE32(|data|), data);
    assert Replay.FrameV1(version, sequence, InternetChecksum, data) == PluginPacket(mode, sequence, data);
  }

  /**
   * Every frame satisfies the receiver's test of RFC 1071: the bytes before the checksum field
   * and the field sum up to all ones, and so does the whole frame if the packet size is even.
   */
  lemma PluginFrameChecks(mode: int, sequence: uint16, data: Data)
    requires |data| <= MAX_PACKET
    ensures var f := PluginFrame(mode, sequence, data);
            && Fold(WordSum(f[..|f| - 2]) + FromBE16(f[|f| - 2..])) == 0xffff
            && (|data| % 2 == 0 ==> Fold(WordSum(f)) == 0xffff)
  {
    hide PluginFrame, WordSum, Fold, BE16, FromBE16;
    var f := PluginFrame(mode, sequence, data);
    var s := FrameInTwo(mode, sequence, data);
    var sum := InternetChecksum(s);
    assert f[..|f| - 2] == s && f[|f| - 2..] == BE16(sum);
    RoundTrip16(sum);
    ReceiverAccepts(s);
  }

  /** A frame is the bytes that are summed, which start with the preamble, and their checksum. */
  lemma FrameInTwo(mode: int, sequence: uint16, data: Data) returns (s: Data)
    requires |data| <= MAX_PACKET
    ensures |s| == |data| + 12 && s[0] == 0xf8
    ensures PluginFrame(mode, sequence, data) == s + BE16(InternetChecksum(s))
  {
    hide InternetChecksum;
    var p := PluginPacket(mode, sequence, data);
    var head, numbers := Head(PrefixOf(0, 2, p.instance)), BE16(sequence) + BE32(|data|);
    s := head + (numbers + data);
    assert s[0] == 0xf8;
    Assoc(head, numbers + data, BE16(p.sum));
  }

  /** The uint32 the sender thread reads back from a buffer to know how much to send. */
  function FrameLength(buffer: Data): nat
    requires |buffer| >= 12
  {
    (FromBE32(buffer[8..12]) + 14) % 0x1_0000_0000
  }

  /** The length read back is the length of the buffer. */
  lemma FrameLengthIsSize(mode: int, sequence: uint16, data: Data)
    requires |data| <= MAX_PACKET
    ensures FrameLength(PluginFrame(mode, sequence, data)) == |PluginFrame(mode, sequence, data)|
    ensures PluginFrame(mode, sequence, data)[6..8] == BE16(sequence)
  {
    var p := PluginPacket(mode, sequence, data);
    var f := PluginFrame(mode, sequence, data);
    var head := Head(PrefixOf(0, 2, p.instance));
    assert f[6..] == Body(p);
    assert f[6..8] == Body(p)[..2] == BE16(sequence);
    assert f[8..12] == Body(p)[2..6] == BE32(|data|);
    RoundTrip32(|data|);
  }
}
