/** From record files to decoded packets: the writer, the scanner, the replayer and the decoder together. */
module FileReplay {
  import opened Bytes
  import opened Proto
  import opened Records
  import opened Replay
  import opened Truncation

  /** A file of records: the packets and times it was written for, and the pieces in which it is read. */
  datatype File = File(entries: seq<Entry>, chunks: seq<Data>)

  predicate IsRecorded(f: File) {
    AreWritable(f.entries) && Concat(f.chunks) == Concat(RecordsOf(f.entries))
  }

  predicate AreRecorded(files: seq<File>) {
    forall i :: 0 <= i < |files| ==> IsRecorded(files[i])
  }

  /** What the walk over the files puts on the queue. */
  function Queued(files: seq<File>): seq<Data> {
    if files == [] then [] else Scan([], files[0].chunks) + Queued(files[1..])
  }

  /** The replay loop writes what is not empty. */
  function Replayed(tokens: seq<Data>): seq<Data> {
    if tokens == [] then []
    else (if tokens[0] == [] then [] else [tokens[0]]) + Replayed(tokens[1..])
  }

  /** The option -n limits the turns of the loop, empty tokens included. */
  function Limited(queue: seq<Data>, num: int): seq<Data> {
    if 0 < num < |queue| then queue[..num] else queue
  }

  /** The turns that the option allows: all of them for zero or less. */
  lemma LimitByValue(queue: seq<Data>, num: int)
    ensures Limited(queue, num) <= queue
    ensures |Limited(queue, num)| == if num <= 0 || |queue| <= num then |queue| else num
  {
  }

  predicate AreSized(packets: seq<Data>) {
    forall i :: 0 <= i < |packets| ==> |packets[i]| < 0x1_0000_0000
  }

  lemma {:induction false} ReplayedIsSized(tokens: seq<Data>)
    requires AreSized(tokens)
    ensures AreSized(Replayed(tokens))
  {
    if tokens == [] {
    } else {
      ReplayedIsSized(tokens[1..]);
    }
  }

  /** What a replay of the tokens puts on the wire. */
  function ReplayBytes(c: uint16, size: int, version: uint16, digest: Data -> uint16, tokens: seq<Data>,
                       faults: seq<Fault>): Data
    requires AreSized(tokens)
  {
    ReplayedIsSized(tokens);
    Outflow(size, version, c, digest, Replayed(tokens), faults)
  }

  /** The replay loop: a permanent failure ends it, after a temporary one it goes on. */
  method RunReplay(c: Connection, queue: seq<Data>, num: int)
    requires AreSized(queue)
    modifies c
    ensures c.sent == old(c.sent)
                      + ReplayBytes(old(c.counter), c.size, c.version, c.digest, Limited(queue, num), old(c.faults))
  {
    hide ReplayBytes, Written, Part, Remaining, ResultOf;
    ghost var todo := Limited(queue, num);
    ghost var all := ReplayBytes(c.counter, c.size, c.version, c.digest, todo, c.faults);
    var i := 0;
    assert todo[0..] == todo;
    while (num <= 0 || i < num) && i < |queue|
      invariant i <= |todo|
      invariant c.sent + ReplayBytes(c.counter, c.size, c.version, c.digest, todo[i..], c.faults) == old(c.sent) + all
    {
      var bs := queue[i];
      assert todo[i..][0] == bs && todo[i..][1..] == todo[i + 1..];
      FirstReplayed(c.counter, c.size, c.version, c.digest, todo[i..], c.faults);
      if bs != [] {
        ghost var sent, part := c.sent, Part(Written(c.size, c.version, c.counter, c.digest, bs), c.faults);
        var r := c.Write(bs);
        if r == Cut(false) {
          return;
        }
        Assoc(sent, part, ReplayBytes(c.counter, c.size, c.version, c.digest, todo[i + 1..], c.faults));
      }
      i := i + 1;
    }
    NothingReplayed(c.counter, c.size, c.version, c.digest, c.faults);
    assert todo[i..] == [];
    assert c.sent + [] == c.sent;
  }

  lemma FirstReplayed(c: uint16, size: int, version: uint16, digest: Data -> uint16, tokens: seq<Data>,
                      faults: seq<Fault>)
    requires AreSized(tokens) && tokens != []
    ensures ReplayBytes(c, size, version, digest, tokens, faults)
         == if tokens[0] == [] then ReplayBytes(c, size, version, digest, tokens[1..], faults)
            else
              var w := Written(size, version, c, digest, tokens[0]);
              Part(w, faults)
              + if ResultOf(w, faults) == Cut(false) then []
                else ReplayBytes((c + 1) % 0x1_0000, size, version, digest, tokens[1..], Remaining(w, faults))
  {
    hide Written, Part, Remaining, ResultOf;
    ReplayedIsSized(tokens);
    if tokens[0] == [] {
      assert Replayed(tokens) == Replayed(tokens[1..]);
    } else {
      assert Replayed(tokens)[1..] == Replayed(tokens[1..]);
    }
  }

  lemma NothingReplayed(c: uint16, size: int, version: uint16, digest: Data -> uint16, faults: seq<Fault>)
    ensures ReplayBytes(c, size, version, digest, [], faults) == []
  {
  }

  function Recorded(files: seq<File>): seq<Data>
    requires AreRecorded(files)
  {
    if files == [] then [] else VmuPackets(files[0].entries) + Recorded(files[1..])
  }

  lemma {:induction false} ReplayedConcat(a: seq<Data>, b: seq<Data>)
    ensures Replayed(a + b) == Replayed(a) + Replayed(b)
  {
    if a == [] {
      assert a + b == b;
    } else {
      assert (a + b)[1..] == a[1..] + b;
      ReplayedConcat(a[1..], b);
      Assoc(if a[0] == [] then [] else [a[0]], Replayed(a[1..]), Replayed(b));
    }
  }

  predicate AreVmuPackets(packets: seq<Data>) {
    forall i :: 0 <= i < |packets| ==> 0 < |packets[i]| < 0x1_0000_0000
  }

  lemma {:induction false} NothingIsDropped(packets: seq<Data>)
    requires AreVmuPackets(packets)
    ensures Replayed(packets) == packets
  {
    if packets == [] {
    } else {
      NothingIsDropped(packets[1..]);
    }
  }

  lemma {:induction false} VmuPacketsAreNotEmpty(es: seq<Entry>)
    requires AreWritable(es)
    ensures AreVmuPackets(VmuPackets(es))
  {
    hide VmuPacket, PacketBytes;
    if es == [] {
    } else {
      assert IsWritable(es[0].packet);
      PacketLayout(es[0].packet);
      VmuPacketsAreNotEmpty(es[1..]);
    }
  }

  lemma ReplayedFile(f: File)
    requires IsRecorded(f)
    ensures Replayed(Scan([], f.chunks)) == VmuPackets(f.entries)
    ensures AreVmuPackets(VmuPackets(f.entries))
  {
    hide Scan, VmuPackets;
    RecordRoundTrip(f.entries, f.chunks);
    VmuPacketsAreNotEmpty(f.entries);
    NothingIsDropped(VmuPackets(f.entries));
    ReplayedConcat(VmuPackets(f.entries), [[]]);
    var last: seq<Data> := [[]];
    assert last[1..] == [];
  }

  /** However the files are read, the replayer writes the VMU packets of their records, file after file. */
  lemma {:induction false} ReplayedIsRecorded(files: seq<File>)
    requires AreRecorded(files)
    ensures Replayed(Queued(files)) == Recorded(files)
    ensures AreVmuPackets(Recorded(files))
  {
    hide Scan, VmuPackets, IsRecorded, Replayed;
    if files == [] {
      assert Replayed([]) == [] by {
        NothingIsDropped([]);
      }
    } else {
      ReplayedFile(files[0]);
      ReplayedIsRecorded(files[1..]);
      ReplayedConcat(Scan([], files[0].chunks), Queued(files[1..]));
    }
  }

  /** What a receiver gets when the files are replayed over a new connection. */
  function Received(size: int, version: uint16, digest: Data -> uint16, files: seq<File>, instances: seq<byte>)
    : seq<Delivery>
    requires AreRecorded(files)
  {
    ReplayedIsRecorded(files);
    DeliveredAll(DecodeStream(WrittenAll(size, version, 0, digest, Replayed(Queued(files))), instances))
  }

  /**
   * End to end: record files that are replayed in whole frames arrive as exactly the VMU
   * packets that were recorded, in order and numbered from 0. Replayed in chunks they do so
   * exactly when the chunk size divides none of the packets and never gives more than
   * 65536 chunks.
   */
  lemma FilesArrive(size: int, version: uint16, digest: Data -> uint16, files: seq<File>, instances: seq<byte>)
    requires AreRecorded(files)
    requires version / 0x1000 == if size <= 0 then 0 else 1
    requires Accepted(instances, Prefixed(version).instance)
    ensures Received(size, version, digest, files, instances) == Expected(version, 0, Recorded(files))
            <==> size <= 0 || forall i :: 0 <= i < |Recorded(files)| ==>
                   |Recorded(files)[i]| % size != 0 && |Recorded(files)[i]| / size <= 0xffff
  {
    hide Recorded, Replayed, Queued, DecodeStream, WrittenAll, Expected, DeliveredAll;
    ReplayedIsRecorded(files);
    var packets := Recorded(files);
    if size <= 0 {
      ReplayDecodes(size, version, 0, digest, packets, instances);
    } else {
      ReplayExact(size, version, 0, digest, packets, instances);
    }
  }
}
