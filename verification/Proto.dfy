/**
 * The Hadock wire protocol as functions: what one call of the decoder returns on a byte
 * string that ends in EOF, what it leaves unread, and what the decoding loop emits.
 */
module Proto {
  import opened Bytes
  import opened Sorting

  /** Everything a read or a decoding step can report instead of a value. */
  datatype Error = Eof | UnexpectedEof | Skip | UnsupportedProtocol | VersionMismatch

  /** A value or an error, with the bytes that are still unread. */
  datatype Outcome<+T> =
    | Done(value: T, rest: Data)
    | Failed(error: Error, rest: Data)

  datatype Packet = Packet(
    protocol: byte,
    version: byte,
    instance: byte,
    sequence: uint16,
    length: uint32,
    payload: Data,
    sum: uint16,
    curr: uint16,
    last: uint16)

  const NEW_PACKET := Packet(0, 0, 0, 0, 0, [], 0, 0, 0)

  const PREAMBLE: uint32 := 0xf82e3553

  // ----- reading -----

  /** io.ReadFull: nothing left is EOF, a short read drains the input. */
  function ReadFull(s: Data, n: nat): (r: Outcome<Data>)
    ensures r.Done? ==> |r.value| == n && |r.rest| + n == |s|
    ensures r.Failed? ==> r.rest == [] && (r.error == Eof <==> s == [])
  {
    if n <= |s| then Done(s[..n], s[n..])
    else if s == [] then Failed(Eof, [])
    else Failed(UnexpectedEof, [])
  }

  function Read16(s: Data): (r: Outcome<uint16>)
    ensures r.Done? ==> |r.rest| + 2 == |s|
    ensures r.Failed? ==> r.rest == [] && (r.error == Eof <==> s == [])
  {
    match ReadFull(s, 2)
    case Failed(e, t) => Failed(e, t)
    case Done(bs, t) => Done(FromBE16(bs), t)
  }

  function Read32(s: Data): (r: Outcome<uint32>)
    ensures r.Done? ==> |r.rest| + 4 == |s|
    ensures r.Failed? ==> r.rest == [] && (r.error == Eof <==> s == [])
  {
    match ReadFull(s, 4)
    case Failed(e, t) => Failed(e, t)
    case Done(bs, t) => Done(FromBE32(bs), t)
  }

  function ReadPreamble(s: Data): (r: Outcome<uint16>)
    ensures r.Done? ==> |r.rest| + 6 == |s|
    ensures r.Failed? && s != [] ==> |r.rest| < |s|
    ensures r.Failed? && r.error != Skip ==> r.rest == []
    ensures s == [] ==> r == Failed(Eof, [])
  {
    match Read32(s)
    case Failed(e, t) => Failed(e, t)
    case Done(preamble, t) =>
      if preamble != PREAMBLE then Failed(Skip, t) else Read16(t)
  }

  /** Sequence, length, payload and checksum, filled into `p`. */
  function ReadPacket(s: Data, p: Packet): (r: Outcome<Packet>)
    ensures r.Done? ==> |r.rest| + 8 + |r.value.payload| == |s| && r.value.length == |r.value.payload|
    ensures r.Failed? ==> r.rest == []
  {
    match Read16(s)
    case Failed(e, t) => Failed(e, t)
    case Done(sequence, t) =>
    match Read32(t)
    case Failed(e, t) => Failed(e, t)
    case Done(length, t) =>
    match ReadFull(t, length)
    case Failed(e, t) => Failed(e, t)
    case Done(payload, t) =>
    match Read16(t)
    case Failed(e, t) => Failed(e, t)
    case Done(sum, t) =>
      Done(p.(sequence := sequence, length := length, payload := payload, sum := sum), t)
  }

  /** A fragment is its number, the number of the last one, and a packet body. */
  function ReadFragment(s: Data): (r: Outcome<Packet>)
    ensures r.Done? ==> |r.rest| + 12 + |r.value.payload| == |s|
    ensures r.Failed? ==> r.rest == []
  {
    match Read16(s)
    case Failed(e, t) => Failed(e, t)
    case Done(curr, t) =>
    match Read16(t)
    case Failed(e, t) => Failed(e, t)
    case Done(last, t) =>
      ReadPacket(t, NEW_PACKET.(curr := curr, last := last))
  }

  predicate IsFinal(f: Packet) {
    f.curr == f.last
  }

  /** Fragments up to the first final one; between them the same prefix must come again. */
  function Collect(s: Data, prefix: uint16, fs: seq<Packet>): (r: Outcome<seq<Packet>>)
    ensures r.Done? ==> r.value != [] && |r.rest| < |s|
    ensures |r.rest| <= |s|
    ensures r.Failed? && s != [] ==> |r.rest| < |s|
    decreases |s|
  {
    match ReadFragment(s)
    case Failed(e, t) => Failed(e, t)
    case Done(f, t) =>
      var gs := fs + [f];
      if IsFinal(f) then Done(gs, t)
      else
        match ReadPreamble(t)
        case Failed(e, t') => Failed(e, t')
        case Done(x, t') =>
          if x != prefix then Failed(VersionMismatch, t') else Collect(t', prefix, gs)
  }

  /** Number of payload bytes in a list of fragments. */
  function PayloadSize(fs: seq<Packet>): nat {
    if fs == [] then 0 else PayloadSize(fs[..|fs| - 1]) + |fs[|fs| - 1].payload|
  }

  // ----- reassembly -----

  const BY_CURR: Packet -> int := (f: Packet) => f.curr

  function Join(fs: seq<Packet>): Data {
    if fs == [] then [] else Join(fs[..|fs| - 1]) + fs[|fs| - 1].payload
  }

  function Reassemble(p: Packet, fs: seq<Packet>): Packet
    requires fs != []
  {
    var final := fs[|fs| - 1];
    p.(sequence := final.sequence, length := final.length, payload := Join(SortBy(fs, BY_CURR)))
  }

  // ----- the decoder -----

  /** The 16-bit word after the preamble: protocol and version nibbles, instance. */
  function PrefixOf(protocol: byte, version: byte, instance: byte): uint16
    requires protocol < 0x10 && version < 0x10
  {
    protocol as int * 0x1000 + version as int * 0x100 + instance
  }

  function Prefixed(prefix: uint16): Packet {
    NEW_PACKET.(protocol := prefix / 0x1000, version := prefix / 0x100 % 0x10, instance := prefix % 0x100)
  }

  function DecodePacket(s: Data): (r: Outcome<Packet>)
    ensures |r.rest| <= |s|
    ensures s == [] ==> r.Failed? && r.error == Eof
    ensures r.Failed? && s != [] ==> |r.rest| < |s|
    ensures r.Done? ==> |r.rest| < |s|
  {
    match ReadPreamble(s)
    case Failed(e, t) => Failed(e, t)
    case Done(prefix, t) =>
      var p := Prefixed(prefix);
      if p.protocol == 0 then ReadPacket(t, p)
      else if p.protocol == 1 then
        match Collect(t, prefix, [])
        case Failed(e, t') => Failed(e, t')
        case Done(fs, t') => Done(Reassemble(p, fs), t')
      else Failed(UnsupportedProtocol, t)
  }

  /** An empty list of instances accepts every instance. */
  predicate Accepted(instances: seq<byte>, instance: byte) {
    instances == [] || instance in instances
  }

  /** What DecodeBinaryPackets emits on a stream. */
  function DecodeStream(s: Data, instances: seq<byte>): seq<Packet>
    decreases |s|
  {
    match DecodePacket(s)
    case Done(p, t) => (if Accepted(instances, p.instance) then [p] else []) + DecodeStream(t, instances)
    case Failed(e, t) =>
      if e == Eof || e == UnsupportedProtocol then [] else DecodeStream(t, instances)
  }

  // ----- the frame grammar -----

  function Body(p: Packet): Data {
    BE16(p.sequence) + BE32(p.length) + p.payload + BE16(p.sum)
  }

  /** Preamble, protocol and version nibbles, instance. */
  function Head(prefix: uint16): (s: Data)
    ensures |s| == 6
  {
    BE32(PREAMBLE) + BE16(prefix)
  }

  /** The canonical frame of a protocol-0 packet. */
  function Frame(p: Packet): Data
    requires p.version < 0x10
  {
    Head(PrefixOf(0, p.version, p.instance)) + Body(p)
  }

  /** The library's own encoder: it only knows version 0, and writes no preamble. */
  function EncodePacket(p: Packet): Option<Data> {
    if p.version != 0 then None
    else Some([p.protocol as int * 0x10 % 0x100, p.instance] + Body(p))
  }
}
