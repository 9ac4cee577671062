/** HRDP records: the writer, its running checksum, and the scanner that takes them apart again. */
module Records {
  import opened Bytes

  const HRDL_MAGIC: uint32 := 0xf82e3553
  const FSL_MAGIC: byte := 2

  const HRDP_HEADER_LEN := 14
  const HRDL_SYNC_LEN := 8
  const VMUH_LEN := 16
  const SDH_LEN_V2 := 56
  const IDH_LEN_V2 := 76

  // ----- the running checksum -----

  function ByteSum(bs: Data): nat {
    if bs == [] then 0 else ByteSum(bs[..|bs| - 1]) + bs[|bs| - 1]
  }

  function SumHRD(bs: Data): uint32 {
    ByteSum(bs) % 0x1_0000_0000
  }

  lemma ByteSumOfMore(bs: Data, b: byte)
    ensures ByteSum([]) == 0 && ByteSum(bs + [b]) == ByteSum(bs) + b
  {
    assert (bs + [b])[..|bs|] == bs;
  }

  class HrdlSum {
    var sum: uint32

    constructor ()
      ensures sum == SumHRD([])
    {
      sum := 0;
    }

    /** Each byte is added with 32-bit wrap-around; `before` is what was written so far. */
    method Write(bs: Data, ghost before: Data)
      requires sum == SumHRD(before)
      modifies this
      ensures sum == SumHRD(before + bs)
    {
      assert before + bs[..0] == before;
      for i := 0 to |bs|
        invariant sum == SumHRD(before + bs[..i])
      {
        assert (before + bs[..i + 1])[..|before| + i] == before + bs[..i];
        sum := (sum + bs[i]) % 0x1_0000_0000;
      }
      assert bs[..|bs|] == bs;
    }

    method Sum32() returns (r: uint32)
      ensures r == sum
    {
      r := sum;
    }
  }

  // ----- packets -----

  /** The three streams that have a header length, and the byte that stands for the stream. */
  datatype Kind = Science | Video1 | Video2 | UnknownStream
  datatype Stream = Stream(kind: Kind, code: byte)

  datatype VmuHeader = VmuHeader(channel: byte, source: byte, sequence: uint32, coarse: uint32, fine: uint16)

  /** The written form of a version-2 header, or None for a header of another version. */
  type Sdh = s: Option<Data> | s.Some? ==> |s.value| == 56 witness None
  type Idh = s: Option<Data> | s.Some? ==> |s.value| == 76 witness None

  datatype HRPacket =
    | Table(stream: Stream, header: VmuHeader, sdh: Sdh, payload: Data)
    | Image(stream: Stream, header: VmuHeader, idh: Idh, payload: Data)
    | OtherPacket(stream: Stream, payload: Data)

  /** A five-byte time. */
  datatype Time5 = Time5(fine: uint32, coarse: byte)

  // ----- what is written -----

  function Wrap32(n: nat): uint32 {
    n % 0x1_0000_0000
  }

  function TimeBytes(t: Time5): (s: Data)
    ensures |s| == 5
  {
    BE32(t.fine) + [t.coarse]
  }

  /** The size field announces the header of the stream's kind, whatever the packet's type. */
  function HrdpHeader(stream: Stream, length: nat, acq: Time5, now: Time5): Option<Data> {
    if stream.kind.UnknownStream? then None
    else
      var size := HRDP_HEADER_LEN + HRDL_SYNC_LEN + VMUH_LEN + 4
                  + (if stream.kind.Science? then SDH_LEN_V2 else IDH_LEN_V2) + length;
      Some(LE32(Wrap32(size)) + ([0, 0, FSL_MAGIC, stream.code] + TimeBytes(acq) + TimeBytes(now)))
  }

  function VmuHeaderBytes(v: VmuHeader): (s: Data)
    ensures |s| == VMUH_LEN
  {
    [v.channel, v.source, 0, 0] + LE32(v.sequence) + LE32(v.coarse) + LE16(v.fine) + [0, 0]
  }

  function LE16(x: uint16): (s: Data)
    ensures |s| == 2
  {
    [x % 0x100, x / 0x100]
  }

  /** VMU header, science or image header, and payload: what the checksum covers. */
  function Covered(v: VmuHeader, header: Data, payload: Data): Data {
    VmuHeaderBytes(v) + header + payload
  }

  /** The inner size field uses the science header's length for both types. */
  function Packed(v: VmuHeader, header: Data, payload: Data): Data {
    var body := Covered(v, header, payload);
    BE32(HRDL_MAGIC) + LE32(Wrap32(VMUH_LEN + SDH_LEN_V2 + |payload| - 4)) + (body + LE32(SumHRD(body)))
  }

  function PacketBytes(p: HRPacket): Option<Data> {
    match p
    case Table(_, v, Some(sdh), payload) => Some(Packed(v, sdh, payload))
    case Image(_, v, Some(idh), payload) => Some(Packed(v, idh, payload))
    case _ => None
  }

  function RecordBytes(p: HRPacket, hrdp: bool, acq: Time5, now: Time5): Option<Data> {
    if !hrdp then PacketBytes(p)
    else
      match HrdpHeader(p.stream, |p.payload|, acq, now)
      case None => None
      case Some(h) =>
        match PacketBytes(p)
        case None => None
        case Some(b) => Some(h + b)
  }

  // ----- the writer -----

  /** The part of encodeTable and encodeImage that writes to the buffer and the digest at once. */
  method EncodeBody(buffer: Data, v: VmuHeader, header: Data, payload: Data) returns (ws: Data)
    ensures ws == buffer + Packed(v, header, payload)
  {
    hide SumHRD, LE32, BE32, VmuHeaderBytes;
    ghost var sync, size := BE32(HRDL_MAGIC), LE32(Wrap32(VMUH_LEN + SDH_LEN_V2 + |payload| - 4));
    ws := buffer + BE32(HRDL_MAGIC);
    ws := ws + LE32(Wrap32(VMUH_LEN + SDH_LEN_V2 + |payload| - 4));
    var digest := new HrdlSum();
    var vs := VmuHeaderBytes(v);
    ws := ws + vs;
    digest.Write(vs, []);
    assert [] + vs == vs;
    ws := ws + header;
    digest.Write(header, vs);
    ws := ws + payload;
    digest.Write(payload, vs + header);
    var sum := digest.Sum32();
    ws := ws + LE32(sum);
    Regrouped(buffer, sync, size, vs, header, payload, LE32(sum));
  }

  lemma Regrouped(buffer: Data, sync: Data, size: Data, v: Data, header: Data, payload: Data, sum: Data)
    ensures buffer + sync + size + v + header + payload + sum
         == buffer + (sync + size + (v + header + payload + sum))
  {
  }

  method EncodeTyped(buffer: Data, p: HRPacket) returns (r: Option<Data>)
    ensures r == match PacketBytes(p) { case None => None case Some(b) => Some(buffer + b) }
  {
    match p {
      case Table(_, v, Some(sdh), payload) =>
        var ws := EncodeBody(buffer, v, sdh, payload);
        r := Some(ws);
      case Image(_, v, Some(idh), payload) =>
        var ws := EncodeBody(buffer, v, idh, payload);
        r := Some(ws);
      case _ => r := None;
    }
  }

  method EncodePacket(p: HRPacket, hrdp: bool, acq: Time5, now: Time5) returns (r: Option<Data>)
    ensures r == RecordBytes(p, hrdp, acq, now)
  {
    hide HrdpHeader, PacketBytes;
    var buffer: Data := [];
    if hrdp {
      var h := HrdpHeader(p.stream, |p.payload|, acq, now);
      match h {
        case None => return None;
        case Some(bs) => buffer := bs;
      }
    }
    r := EncodeTyped(buffer, p);
    assert PacketBytes(p).Some? ==> [] + PacketBytes(p).value == PacketBytes(p).value;
  }

  // ----- the size field and the checksum -----

  /** The VMU packet inside a record: what the decoder of a VMU packet will get. */
  function VmuPacket(p: HRPacket): Data
    requires PacketBytes(p).Some?
  {
    var body := match p
      case Table(_, v, Some(sdh), payload) => Covered(v, sdh, payload)
      case Image(_, v, Some(idh), payload) => Covered(v, idh, payload);
    body + LE32(SumHRD(body))
  }

  predicate KindMatches(p: HRPacket) {
    if p.Table? then p.stream.kind.Science? else p.stream.kind.Video1? || p.stream.kind.Video2?
  }

  lemma HeaderLayout(stream: Stream, length: nat, acq: Time5, now: Time5)
    requires HrdpHeader(stream, length, acq, now).Some?
    ensures var h := HrdpHeader(stream, length, acq, now).value;
            |h| == 18 && h[..4] == LE32(Wrap32(98 + (if stream.kind.Science? then 0 else 20) + length))
  {
  }

  lemma PacketLayout(p: HRPacket)
    requires PacketBytes(p).Some?
    ensures var b := PacketBytes(p).value; |b| == 8 + |VmuPacket(p)| && b[8..] == VmuPacket(p)
    ensures |VmuPacket(p)| == 76 + (if p.Table? then 0 else 20) + |p.payload|
  {
    hide SumHRD, Wrap32, VmuHeaderBytes;
  }

  /** A record is its size field, 22 bytes of headers, and the VMU packet. */
  lemma RecordLayout(p: HRPacket, acq: Time5, now: Time5)
    requires RecordBytes(p, true, acq, now).Some?
    ensures var r := RecordBytes(p, true, acq, now).value;
            && |r| == 26 + |VmuPacket(p)| && r[26..] == VmuPacket(p)
            && FromLE32(r[..4]) == Wrap32(98 + (if p.stream.kind.Science? then 0 else 20) + |p.payload|)
    ensures |VmuPacket(p)| == 76 + (if p.Table? then 0 else 20) + |p.payload|
  {
    hide HrdpHeader, PacketBytes, VmuPacket, Wrap32, FromLE32, LE32;
    HeaderLayout(p.stream, |p.payload|, acq, now);
    PacketLayout(p);
    var h, b := HrdpHeader(p.stream, |p.payload|, acq, now).value, PacketBytes(p).value;
    assert (h + b)[26..] == b[8..];
    assert (h + b)[..4] == h[..4];
    RoundTripLE32(Wrap32(98 + (if p.stream.kind.Science? then 0 else 20) + |p.payload|));
  }

  /**
   * The outer size field counts exactly the bytes after it if and only if the packet's type
   * is the one its stream stands for and the count fits 32 bits.
   */
  lemma SizeFieldExact(p: HRPacket, acq: Time5, now: Time5)
    requires RecordBytes(p, true, acq, now).Some?
    ensures var r := RecordBytes(p, true, acq, now).value;
            FromLE32(r[..4]) == |r| - 4 <==> KindMatches(p) && |r| - 4 < 0x1_0000_0000
  {
    RecordLayout(p, acq, now);
    assert !p.stream.kind.UnknownStream? && !p.OtherPacket?;
    hide VmuPacket, PacketBytes, HrdpHeader, RecordBytes, FromLE32, Wrap32;
    var announced := 98 + (if p.stream.kind.Science? then 0 else 20) + |p.payload|;
    WrapsToCount(announced, 98 + (if p.Table? then 0 else 20) + |p.payload|);
  }

  lemma WrapsToCount(announced: nat, count: nat)
    requires -20 <= announced - count <= 20
    ensures Wrap32(announced) == count <==> announced == count && count < 0x1_0000_0000
  {
  }

  /** The last four bytes of the VMU packet are the sum of all bytes before them. */
  lemma ChecksumCoversPacket(p: HRPacket)
    requires PacketBytes(p).Some?
    ensures var v := VmuPacket(p);
            FromLE32(v[|v| - 4..]) == ByteSum(v[..|v| - 4]) % 0x1_0000_0000
  {
    var v := VmuPacket(p);
    var body := v[..|v| - 4];
    assert v[|v| - 4..] == LE32(SumHRD(body));
    RoundTripLE32(SumHRD(body));
  }

  // ----- the format by literal positions -----

  lemma HeaderByBytes(stream: Stream, length: nat, acq: Time5, now: Time5)
    requires HrdpHeader(stream, length, acq, now).Some?
    ensures var h := HrdpHeader(stream, length, acq, now).value;
            && |h| == 18
            && Little32(h, 0) == ((if stream.kind.Science? then 98 else 118) + length) % 0x1_0000_0000
            && h[4] == 0 && h[5] == 0 && h[6] == 2 && h[7] == stream.code
            && Number32(h, 8) == acq.fine && h[12] == acq.coarse
            && Number32(h, 13) == now.fine && h[17] == now.coarse
  {
    hide BE32, LE32;
    var size := Wrap32(HRDP_HEADER_LEN + HRDL_SYNC_LEN + VMUH_LEN + 4
                       + (if stream.kind.Science? then SDH_LEN_V2 else IDH_LEN_V2) + length);
    BytesByValue(size, 0);
    BytesByValue(acq.fine, 0);
    BytesByValue(now.fine, 0);
    var h := HrdpHeader(stream, length, acq, now).value;
    assert h[8..12] == BE32(acq.fine) && h[13..17] == BE32(now.fine) && h[..4] == LE32(size);
  }

  lemma VmuHeaderByBytes(v: VmuHeader)
    ensures var b := VmuHeaderBytes(v);
            && |b| == 16
            && b[0] == v.channel && b[1] == v.source && b[2] == 0 && b[3] == 0
            && Little32(b, 4) == v.sequence && Little32(b, 8) == v.coarse && Little16(b, 12) == v.fine
            && b[14] == 0 && b[15] == 0
  {
    hide LE32;
    BytesByValue(v.sequence, 0);
    BytesByValue(v.coarse, 0);
    var b := VmuHeaderBytes(v);
    assert b[4..8] == LE32(v.sequence) && b[8..12] == LE32(v.coarse);
  }

  lemma PackedByBytes(v: VmuHeader, header: Data, payload: Data)
    ensures var b, n := Packed(v, header, payload), |header| + |payload|;
            && |b| == n + 28
            && b[0] == 0xf8 && b[1] == 0x2e && b[2] == 0x35 && b[3] == 0x53
            && Little32(b, 4) == (|payload| + 68) % 0x1_0000_0000
            && b[8..24] == VmuHeaderBytes(v) && b[24..24 + |header|] == header && b[24 + |header|..24 + n] == payload
            && Little32(b, 24 + n) == ByteSum(b[8..24 + n]) % 0x1_0000_0000
  {
    hide BE32, LE32, VmuHeaderBytes, ByteSum;
    var body := Covered(v, header, payload);
    var size := Wrap32(VMUH_LEN + SDH_LEN_V2 + |payload| - 4);
    var b, n := Packed(v, header, payload), |header| + |payload|;
    BytesByValue(HRDL_MAGIC, 0);
    BytesByValue(size, 0);
    BytesByValue(SumHRD(body), 0);
    MagicByBytes();
    assert b[..4] == BE32(HRDL_MAGIC) && b[4..8] == LE32(size);
    assert b[8..24 + n] == body && b[24 + n..] == LE32(SumHRD(body));
  }

  lemma MagicByBytes()
    ensures BE32(HRDL_MAGIC) == [0xf8, 0x2e, 0x35, 0x53]
  {
  }

  function DataHeader(p: HRPacket): Data
    requires PacketBytes(p).Some?
  {
    match p
    case Table(_, _, Some(sdh), _) => sdh
    case Image(_, _, Some(idh), _) => idh
  }

  /** A whole record by literal positions: every byte of it, for every packet that is written. */
  lemma RecordByBytes(p: HRPacket, acq: Time5, now: Time5)
    requires RecordBytes(p, true, acq, now).Some?
    ensures !p.OtherPacket?
    ensures var r, v := RecordBytes(p, true, acq, now).value, p.header;
            var m: nat := if p.Table? then 56 else 76;
            var n := |p.payload|;
            && |r| == 46 + m + n
            && Little32(r, 0) == ((if p.stream.kind.Science? then 98 else 118) + n) % 0x1_0000_0000
            && r[4] == 0 && r[5] == 0 && r[6] == 2 && r[7] == p.stream.code
            && Number32(r, 8) == acq.fine && r[12] == acq.coarse
            && Number32(r, 13) == now.fine && r[17] == now.coarse
            && r[18] == 0xf8 && r[19] == 0x2e && r[20] == 0x35 && r[21] == 0x53
            && Little32(r, 22) == (n + 68) % 0x1_0000_0000
            && r[26] == v.channel && r[27] == v.source && r[28] == 0 && r[29] == 0
            && Little32(r, 30) == v.sequence && Little32(r, 34) == v.coarse && Little16(r, 38) == v.fine
            && r[40] == 0 && r[41] == 0
            && r[42..42 + m] == DataHeader(p) && r[42 + m..42 + m + n] == p.payload
            && Little32(r, 42 + m + n) == ByteSum(r[26..42 + m + n]) % 0x1_0000_0000
  {
    hide HrdpHeader, Packed, VmuHeaderBytes, ByteSum;
    HeaderByBytes(p.stream, |p.payload|, acq, now);
    PackedByBytes(p.header, DataHeader(p), p.payload);
    VmuHeaderByBytes(p.header);
    var h, b := HrdpHeader(p.stream, |p.payload|, acq, now).value, Packed(p.header, DataHeader(p), p.payload);
    var r := RecordBytes(p, true, acq, now).value;
    assert r == h + b;
    Shifted(h, b, r, if p.Table? then 56 else 76, |p.payload|);
  }

  lemma Shifted(h: Data, b: Data, r: Data, m: nat, n: nat)
    requires |h| == 18 && |b| == 28 + m + n && r == h + b
    ensures forall i :: 0 <= i < 18 ==> r[i] == h[i]
    ensures forall i :: 18 <= i < |r| ==> r[i] == b[i - 18]
    ensures r[26..42] == b[8..24] && r[42..42 + m] == b[24..24 + m] && r[42 + m..42 + m + n] == b[24 + m..24 + m + n]
    ensures r[26..42 + m + n] == b[8..24 + m + n]
  {
  }

  /** Without the outer header a packet starts at its sync word. */
  lemma PlainRecord(p: HRPacket, acq: Time5, now: Time5)
    requires RecordBytes(p, true, acq, now).Some?
    ensures RecordBytes(p, false, acq, now) == Some(RecordBytes(p, true, acq, now).value[18..])
  {
    hide HrdpHeader, PacketBytes;
    HeaderLength(p.stream, |p.payload|, acq, now);
  }

  lemma HeaderLength(stream: Stream, length: nat, acq: Time5, now: Time5)
    requires HrdpHeader(stream, length, acq, now).Some?
    ensures |HrdpHeader(stream, length, acq, now).value| == 18
  {
  }

  /** Exactly the tables and images of a known stream, with a version-2 header, can be written. */
  lemma WrittenExactly(p: HRPacket, acq: Time5, now: Time5)
    ensures RecordBytes(p, true, acq, now).Some? <==>
            && !p.stream.kind.UnknownStream?
            && ((p.Table? && p.sdh.Some?) || (p.Image? && p.idh.Some?))
    ensures RecordBytes(p, false, acq, now).Some? <==> (p.Table? && p.sdh.Some?) || (p.Image? && p.idh.Some?)
  {
    hide Packed, TimeBytes, LE32;
  }

  // ----- a reader of these positions -----

  /** What a reader finds in a record, given the length of its data header. */
  datatype Fields = Fields(code: byte, acq: Time5, now: Time5, header: VmuHeader, data: Data, payload: Data)

  function ReadRecord(r: Data, m: nat): Option<Fields> {
    if |r| < 46 + m then None
    else
      var n := |r| - 46 - m;
      Some(Fields(r[7], Time5(Number32(r, 8), r[12]), Time5(Number32(r, 13), r[17]),
                  VmuHeader(r[26], r[27], Little32(r, 30), Little32(r, 34), Little16(r, 38)),
                  r[42..42 + m], r[42 + m..42 + m + n]))
  }

  /** Everything that was written is read back. */
  lemma RecordIsReadBack(p: HRPacket, acq: Time5, now: Time5)
    requires RecordBytes(p, true, acq, now).Some?
    ensures !p.OtherPacket?
    ensures ReadRecord(RecordBytes(p, true, acq, now).value, if p.Table? then 56 else 76)
         == Some(Fields(p.stream.code, acq, now, p.header, DataHeader(p), p.payload))
  {
    hide RecordBytes, DataHeader, Number32, Little32, Little16;
    RecordByBytes(p, acq, now);
  }

  // ----- the scanner -----

  /** The answer of a bufio split function. */
  datatype Split =
    | NeedMore
    | Token(advance: nat, token: Data)
    | FinalToken(token: Data)
    | Panic

  /** A size field below 22 makes the program allocate a negative length. */
  function ScanVMUPackets(bs: Data, atEof: bool): (r: Split)
    ensures r.Token? ==> 0 < r.advance <= |bs|
  {
    if atEof then FinalToken(bs)
    else if |bs| < 4 then NeedMore
    else
      var size := FromLE32(bs[..4]);
      if |bs| < size + 4 then NeedMore
      else if size < HRDP_HEADER_LEN + HRDL_SYNC_LEN then Panic
      else Token(size + 4, bs[4 + HRDP_HEADER_LEN + HRDL_SYNC_LEN..size + 4])
  }

  /** The answers of the split function by value, for any bytes. */
  lemma ScanByValue(bs: Data)
    ensures ScanVMUPackets(bs, true) == FinalToken(bs)
    ensures |bs| < 4 ==> ScanVMUPackets(bs, false) == NeedMore
    ensures |bs| >= 4 && |bs| - 4 < Little32(bs, 0) ==> ScanVMUPackets(bs, false) == NeedMore
    ensures |bs| >= 4 && Little32(bs, 0) <= |bs| - 4 && Little32(bs, 0) < 22 ==> ScanVMUPackets(bs, false) == Panic
    ensures |bs| >= 4 && 22 <= Little32(bs, 0) <= |bs| - 4 ==>
              ScanVMUPackets(bs, false) == Token(Little32(bs, 0) + 4, bs[26..Little32(bs, 0) + 4])
  {
    if |bs| >= 4 {
      assert FromLE32(bs[..4]) == Little32(bs, 0);
    }
  }

  /** The scanner's buffer, and so the longest record it can hold. */
  const BUFFER: nat := 0x80_0000

  function TotalSize(chunks: seq<Data>): nat {
    if chunks == [] then 0 else |chunks[0]| + TotalSize(chunks[1..])
  }

  /**
   * bufio.Scanner over a file: it asks for a token as long as there is one, ends on a full
   * buffer without a token, and else reads as much of the next chunk as fits. The end of the
   * file comes alone, after the last chunk.
   */
  function Scan(buffer: Data, chunks: seq<Data>): seq<Data>
    decreases TotalSize(chunks) + |chunks|, |buffer|
  {
    var r := if buffer == [] then NeedMore else ScanVMUPackets(buffer, false);
    match r
    case Token(n, token) => [token] + Scan(buffer[n..], chunks)
    case NeedMore =>
      if |buffer| >= BUFFER then []
      else if chunks == [] then [ScanVMUPackets(buffer, true).token]
      else
        var room := BUFFER - |buffer|;
        if |chunks[0]| <= room then Scan(buffer + chunks[0], chunks[1..])
        else Scan(buffer + chunks[0][..room], [chunks[0][room..]] + chunks[1..])
    case _ => []
  }

  // ----- the scanner does not depend on the chunks -----

  /** As much of a file as the buffer can hold. */
  function Window(s: Data): Data {
    if |s| <= BUFFER then s else s[..BUFFER]
  }

  /** The tokens of a file, by its content alone. */
  function Tokens(s: Data): seq<Data>
    decreases |s|
  {
    var r := if s == [] then NeedMore else ScanVMUPackets(Window(s), false);
    match r
    case Token(n, token) => [token] + Tokens(s[n..])
    case NeedMore => if |s| >= BUFFER then [] else [s]
    case _ => []
  }

  /** More input does not change an answer that has been given. */
  lemma AnswerStays(a: Data, b: Data)
    requires a <= b && ScanVMUPackets(a, false) != NeedMore
    ensures ScanVMUPackets(b, false) == ScanVMUPackets(a, false)
  {
    var size := FromLE32(a[..4]);
    assert b[..4] == a[..4];
    assert size + 4 <= |a| && b[..size + 4] == a[..size + 4];
    assert size >= 22 ==> b[26..size + 4] == a[26..size + 4];
  }

  lemma MoveChunk(buffer: Data, chunks: seq<Data>, room: nat)
    requires chunks != [] && room <= |chunks[0]|
    ensures (buffer + chunks[0][..room]) + Concat([chunks[0][room..]] + chunks[1..]) == buffer + Concat(chunks)
    ensures TotalSize([chunks[0][room..]] + chunks[1..]) == TotalSize(chunks) - room
  {
    var c := chunks[0];
    var more := [c[room..]] + chunks[1..];
    assert more[1..] == chunks[1..];
    assert c == c[..room] + c[room..];
    Assoc(c[..room], c[room..], Concat(chunks[1..]));
    Assoc(buffer, c[..room], Concat(more));
  }

  /** What the scanner yields depends on the bytes of the file only. */
  lemma {:induction false} ScanYieldsTokens(buffer: Data, chunks: seq<Data>)
    requires |buffer| <= BUFFER
    ensures Scan(buffer, chunks) == Tokens(buffer + Concat(chunks))
    decreases TotalSize(chunks) + |chunks|, |buffer|
  {
    hide ScanVMUPackets;
    var s := buffer + Concat(chunks);
    var r := if buffer == [] then NeedMore else ScanVMUPackets(buffer, false);
    if r != NeedMore {
      AnswerStays(buffer, Window(s));
      if r.Token? {
        assert s[r.advance..] == buffer[r.advance..] + Concat(chunks);
        ScanYieldsTokens(buffer[r.advance..], chunks);
      }
    } else if |buffer| == BUFFER {
      assert Window(s) == buffer;
    } else if chunks == [] {
      AtEof(buffer);
      assert s == buffer;
    } else {
      var room := BUFFER - |buffer|;
      if |chunks[0]| <= room {
        Assoc(buffer, chunks[0], Concat(chunks[1..]));
        ScanYieldsTokens(buffer + chunks[0], chunks[1..]);
      } else {
        MoveChunk(buffer, chunks, room);
        ScanYieldsTokens(buffer + chunks[0][..room], [chunks[0][room..]] + chunks[1..]);
      }
    }
  }

  lemma AtEof(buffer: Data)
    ensures ScanVMUPackets(buffer, true) == FinalToken(buffer)
  {
  }

  /** Two readings of the same bytes, well-formed or not, yield the same tokens. */
  lemma ChunksDoNotMatter(a: seq<Data>, b: seq<Data>)
    requires Concat(a) == Concat(b)
    ensures Scan([], a) == Scan([], b)
  {
    ScanYieldsTokens([], a);
    ScanYieldsTokens([], b);
  }

  // ----- files of records -----

  /** A record whose size field is right. */
  predicate IsRecord(r: Data) {
    26 <= |r| <= BUFFER && FromLE32(r[..4]) == |r| - 4
  }

  predicate AreRecords(rs: seq<Data>) {
    forall i :: 0 <= i < |rs| ==> IsRecord(rs[i])
  }

  /** What is left when no further record is complete. */
  predicate IsIncomplete(tail: Data) {
    |tail| < BUFFER && (|tail| < 4 || |tail| < FromLE32(tail[..4]) + 4)
  }

  function Bodies(records: seq<Data>): seq<Data>
    requires AreRecords(records)
  {
    if records == [] then [] else [records[0][26..]] + Bodies(records[1..])
  }

  lemma TokenOfRecord(r: Data, rest: Data)
    requires IsRecord(r)
    ensures Tokens(r + rest) == [r[26..]] + Tokens(rest)
  {
    assert r <= Window(r + rest);
    assert ScanVMUPackets(r, false) == Token(|r|, r[26..]);
    AnswerStays(r, Window(r + rest));
    hide ScanVMUPackets;
    assert (r + rest)[|r|..] == rest;
  }

  lemma {:induction false} TokensOfRecords(records: seq<Data>, tail: Data)
    requires AreRecords(records) && IsIncomplete(tail)
    ensures Tokens(Concat(records) + tail) == Bodies(records) + [tail]
  {
    if records == [] {
      assert Concat(records) + tail == tail;
    } else {
      Assoc(records[0], Concat(records[1..]), tail);
      TokenOfRecord(records[0], Concat(records[1..]) + tail);
      TokensOfRecords(records[1..], tail);
      Assoc([records[0][26..]], Bodies(records[1..]), [tail]);
    }
  }

  /**
   * Under any read chunking, a file of records is taken apart into exactly their VMU packets,
   * and then whatever is left is handed over as it is.
   */
  lemma ScanRecords(chunks: seq<Data>, records: seq<Data>, tail: Data)
    requires AreRecords(records)
    requires IsIncomplete(tail)
    requires Concat(chunks) == Concat(records) + tail
    ensures Scan([], chunks) == Bodies(records) + [tail]
  {
    assert [] + Concat(chunks) == Concat(chunks);
    ScanYieldsTokens([], chunks);
    TokensOfRecords(records, tail);
  }

  /** The longest record that can be scanned, exactly: one of 8 MiB can, a longer one ends the scan of its file. */
  lemma LongestRecordExactly(r: Data)
    requires 26 <= |r| && FromLE32(r[..4]) == |r| - 4
    ensures Scan([], [r]) == [r[26..], []] <==> |r| <= 8_388_608
    ensures |r| > 8_388_608 ==> Scan([], [r]) == []
  {
    hide Scan, FromLE32;
    assert Concat([r]) == r;
    assert [] + r == r;
    ScanYieldsTokens([], [r]);
    if |r| <= 8_388_608 {
      TokenOfRecord(r, []);
      assert r + [] == r;
    } else {
      LongTokens(r);
    }
  }

  lemma LongTokens(r: Data)
    requires |r| > 8_388_608 && FromLE32(r[..4]) == |r| - 4
    ensures Tokens(r) == []
  {
    hide FromLE32;
    assert Window(r)[..4] == r[..4];
    assert ScanVMUPackets(Window(r), false) == NeedMore;
  }

  // ----- writer and scanner together -----

  /** A packet whose record the scanner can hold, written with the type its stream stands for. */
  predicate IsWritable(p: HRPacket) {
    PacketBytes(p).Some? && KindMatches(p) && 26 + |VmuPacket(p)| <= BUFFER
  }

  /** A packet with the two times that its record carries. */
  datatype Entry = Entry(packet: HRPacket, acq: Time5, now: Time5)

  predicate AreWritable(es: seq<Entry>) {
    forall i :: 0 <= i < |es| ==> IsWritable(es[i].packet)
  }

  function RecordsOf(es: seq<Entry>): seq<Data>
    requires AreWritable(es)
  {
    if es == [] then []
    else [RecordBytes(es[0].packet, true, es[0].acq, es[0].now).value] + RecordsOf(es[1..])
  }

  function VmuPackets(es: seq<Entry>): seq<Data>
    requires AreWritable(es)
  {
    if es == [] then [] else [VmuPacket(es[0].packet)] + VmuPackets(es[1..])
  }

  lemma WritableIsWritten(p: HRPacket, acq: Time5, now: Time5)
    requires IsWritable(p)
    ensures RecordBytes(p, true, acq, now).Some?
  {
    hide PacketBytes, VmuPacket, TimeBytes, LE32, Wrap32;
  }

  lemma WrittenIsRecord(p: HRPacket, acq: Time5, now: Time5)
    requires IsWritable(p)
    ensures RecordBytes(p, true, acq, now).Some?
    ensures var r := RecordBytes(p, true, acq, now).value; IsRecord(r) && r[26..] == VmuPacket(p)
  {
    hide VmuPacket, PacketBytes, RecordBytes, FromLE32, Wrap32, KindMatches, HrdpHeader;
    WritableIsWritten(p, acq, now);
    RecordLayout(p, acq, now);
    SizeFieldExact(p, acq, now);
  }

  lemma {:induction false} RecordsAreRecords(es: seq<Entry>)
    requires AreWritable(es)
    ensures AreRecords(RecordsOf(es))
    ensures Bodies(RecordsOf(es)) == VmuPackets(es)
  {
    hide RecordBytes, VmuPacket, PacketBytes, IsWritable;
    if es == [] {
    } else {
      var e := es[0];
      WrittenIsRecord(e.packet, e.acq, e.now);
      var r, rest := RecordBytes(e.packet, true, e.acq, e.now).value, RecordsOf(es[1..]);
      RecordsAreRecords(es[1..]);
      assert ([r] + rest)[1..] == rest;
    }
  }

  /**
   * Round trip: however the file is read, scanning the records written for a list of packets,
   * each with its own times, yields their VMU packets, followed by the empty token of the end
   * of the file.
   */
  lemma RecordRoundTrip(es: seq<Entry>, chunks: seq<Data>)
    requires AreWritable(es)
    requires Concat(chunks) == Concat(RecordsOf(es))
    ensures Scan([], chunks) == VmuPackets(es) + [[]]
  {
    RecordsAreRecords(es);
    assert Concat(chunks) == Concat(RecordsOf(es)) + [];
    ScanRecords(chunks, RecordsOf(es), []);
  }
}
