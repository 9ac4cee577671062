/** The decoder as the program runs it: over a consumed reader, filling packets in place. */
module Decoder {
  import opened Bytes
  import opened Proto
  import opened Sorting

  datatype Result<+T> = Ok(value: T) | Err(error: Error) {
    predicate IsFailure() {
      Err?
    }

    function PropagateFailure<U>(): Result<U>
      requires Err?
    {
      Err(error)
    }

    function Extract(): T
      requires Ok?
    {
      value
    }

    /** The result together with what the reader has left. */
    function Leaving(rest: Data): Outcome<T> {
      match this
      case Ok(v) => Done(v, rest)
      case Err(e) => Failed(e, rest)
    }
  }

  /** A packet under construction. */
  class Record {
    var protocol: byte
    var version: byte
    var instance: byte
    var sequence: uint16
    var length: uint32
    var payload: Data
    var sum: uint16
    var curr: uint16
    var last: uint16

    constructor ()
      ensures Value() == NEW_PACKET
    {
      protocol, version, instance, sequence, length := 0, 0, 0, 0, 0;
      payload, sum, curr, last := [], 0, 0, 0;
    }

    function Value(): Packet
      reads this
    {
      Packet(protocol, version, instance, sequence, length, payload, sum, curr, last)
    }
  }

  class Reader {
    var rest: Data

    constructor (data: Data)
      ensures rest == data
    {
      rest := data;
    }

    method ReadFull(n: nat) returns (r: Result<Data>)
      modifies this
      ensures r.Leaving(rest) == Proto.ReadFull(old(rest), n)
    {
      if n <= |rest| {
        r := Ok(rest[..n]);
        rest := rest[n..];
      } else if rest == [] {
        r := Err(Eof);
      } else {
        r := Err(UnexpectedEof);
        rest := [];
      }
    }

    method Read16() returns (r: Result<uint16>)
      modifies this
      ensures r.Leaving(rest) == Proto.Read16(old(rest))
    {
      var bs :- ReadFull(2);
      r := Ok(FromBE16(bs));
    }

    method Read32() returns (r: Result<uint32>)
      modifies this
      ensures r.Leaving(rest) == Proto.Read32(old(rest))
    {
      var bs :- ReadFull(4);
      r := Ok(FromBE32(bs));
    }

    method ReadPreamble() returns (r: Result<uint16>)
      modifies this
      ensures r.Leaving(rest) == Proto.ReadPreamble(old(rest))
    {
      var preamble :- Read32();
      if preamble != PREAMBLE {
        return Err(Skip);
      }
      r := Read16();
    }

    method ReadPacket(p: Record) returns (r: Result<()>)
      modifies this, p
      ensures match Proto.ReadPacket(old(rest), old(p.Value()))
              case Done(q, t) => r.Ok? && p.Value() == q && rest == t
              case Failed(e, t) => r == Err(e) && rest == t
    {
      p.sequence :- Read16();
      p.length :- Read32();
      p.payload :- ReadFull(p.length);
      p.sum :- Read16();
      r := Ok(());
    }

    method ReadFragment(p: Record) returns (r: Result<bool>)
      requires p.Value() == NEW_PACKET
      modifies this, p
      ensures match Proto.ReadFragment(old(rest))
              case Done(q, t) => r == Ok(IsFinal(q)) && p.Value() == q && rest == t
              case Failed(e, t) => r == Err(e) && rest == t
    {
      p.curr :- Read16();
      p.last :- Read16();
      var _ :- ReadPacket(p);
      r := Ok(p.curr == p.last);
    }

    /** The fragment loop of DecodePacket. */
    method CollectFragments(prefix: uint16) returns (r: Result<seq<Packet>>)
      modifies this
      ensures r.Leaving(rest) == Collect(old(rest), prefix, [])
    {
      var ps: seq<Packet> := [];
      while true
        invariant Collect(rest, prefix, ps) == Collect(old(rest), prefix, [])
        decreases |rest|
      {
        hide Proto.ReadFragment, Proto.ReadPreamble;
        var v := new Record();
        var final :- ReadFragment(v);
        ps := ps + [v.Value()];
        if final {
          return Ok(ps);
        }
        var x :- ReadPreamble();
        if x != prefix {
          return Err(VersionMismatch);
        }
      }
    }

    /** The end of DecodePacket for protocol 1: the fragments, sorted, fill the packet. */
    method Assemble(p: Record, ps: seq<Packet>)
      requires ps != []
      modifies p
      ensures p.Value() == Reassemble(old(p.Value()).(payload := []), ps)
    {
      var v := ps[|ps| - 1];
      p.sequence, p.length, p.payload := v.sequence, v.length, [];
      var sorted := SortBy(ps, BY_CURR);
      for i := 0 to |sorted|
        invariant p.payload == Join(sorted[..i])
        invariant p.Value() == old(p.Value()).(sequence := v.sequence, length := v.length, payload := p.payload)
      {
        assert sorted[..i + 1][..i] == sorted[..i];
        p.payload := p.payload + sorted[i].payload;
      }
      assert sorted[..|sorted|] == sorted;
    }

    method DecodePacket() returns (r: Result<Packet>)
      modifies this
      ensures r.Leaving(rest) == Proto.DecodePacket(old(rest))
    {
      hide Proto.ReadPreamble, Proto.ReadPacket, Collect, Reassemble;
      var prefix :- ReadPreamble();
      var p := new Record();
      p.protocol, p.version, p.instance := prefix / 0x1000, prefix / 0x100 % 0x10, prefix % 0x100;
      assert p.Value() == Prefixed(prefix);
      if p.protocol == 0 {
        var _ :- ReadPacket(p);
      } else if p.protocol == 1 {
        var ps :- CollectFragments(prefix);
        Assemble(p, ps);
      } else {
        return Err(UnsupportedProtocol);
      }
      r := Ok(p.Value());
    }
  }

  const BY_VALUE: byte -> int := (b: byte) => b

  /** sort.Slice on the caller's list of instances. */
  method SortInstances(instances: array<byte>)
    modifies instances
    ensures instances[..] == SortBy(old(instances[..]), BY_VALUE)
  {
    var sorted := SortBy(instances[..], BY_VALUE);
    SortBySorts(instances[..], BY_VALUE);
    forall i | 0 <= i < instances.Length {
      instances[i] := sorted[i];
    }
    assert instances[..] == sorted;
  }

  function NotBelow(instances: seq<byte>, instance: byte): nat -> bool {
    (i: nat) => i < |instances| && instances[i] >= instance
  }

  /** What the binary search of the decoding loop finds out about an instance. */
  predicate Passes(instances: seq<byte>, instance: byte) {
    var ix := Probe(NotBelow(instances, instance), 0, |instances|);
    !(|instances| > 0 && (ix >= |instances| || instances[ix] != instance))
  }

  /** On an ascending list, the search is membership. */
  lemma AscendingPassesAccepted(s: seq<byte>, instance: byte)
    requires SortedBy(s, BY_VALUE)
    ensures Passes(s, instance) <==> Accepted(s, instance)
  {
    var f := NotBelow(s, instance);
    var ix := Probe(f, 0, |s|);
    assert forall a, b :: 0 <= a < b < |s| ==> BY_VALUE(s[a]) <= BY_VALUE(s[b]);
    ProbeFindsFirst(f, 0, |s|);
    if instance in s {
      var k :| 0 <= k < |s| && s[k] == instance;
      assert f(k);
      assert ix <= k;
      assert f(ix);
      assert ix < k ==> BY_VALUE(s[ix]) <= BY_VALUE(s[k]);
    }
  }

  /** The test of the decoding loop: is the instance in the sorted list, or the list empty? */
  method Wanted(instances: array<byte>, instance: byte) returns (wanted: bool)
    ensures wanted == Passes(instances[..], instance)
    ensures SortedBy(instances[..], BY_VALUE) ==> wanted == Accepted(instances[..], instance)
  {
    var ix := Search(instances.Length, NotBelow(instances[..], instance));
    wanted := !(instances.Length > 0 && (ix >= instances.Length || instances[ix] != instance));
    if SortedBy(instances[..], BY_VALUE) {
      AscendingPassesAccepted(instances[..], instance);
    }
  }

  /**
   * The decoding loop. It sorts the list of instances in place and ends on every input;
   * what it emits is a function of the bytes and of the set of accepted instances.
   */
  method DecodeBinaryPackets(r: Reader, instances: array<byte>) returns (q: seq<Packet>)
    modifies r, instances
    ensures q == DecodeStream(old(r.rest), old(instances[..]))
    ensures SortedBy(instances[..], BY_VALUE) && multiset(instances[..]) == multiset(old(instances[..]))
  {
    hide Proto.DecodePacket, DecodeStream, Accepted, SortBy;
    ghost var listed := instances[..];
    SortInstances(instances);
    SortBySorts(listed, BY_VALUE);
    SameMembers(listed, instances[..]);
    q := [];
    while true
      invariant q + DecodeStream(r.rest, listed) == DecodeStream(old(r.rest), listed)
      invariant instances[..] == SortBy(listed, BY_VALUE)
      decreases |r.rest|
    {
      StreamStep(q, r.rest, listed, Proto.DecodePacket(r.rest));
      var p := r.DecodePacket();
      match p {
        case Ok(v) =>
          var wanted := Wanted(instances, v.instance);
          if wanted {
            q := q + [v];
          }
        case Err(e) =>
          if e == Eof || e == UnsupportedProtocol {
            return;
          }
      }
    }
  }

  /** One turn of the loop, after `q` has been emitted. */
  lemma StreamStep(q: seq<Packet>, s: Data, instances: seq<byte>, r: Outcome<Packet>)
    requires r == Proto.DecodePacket(s)
    ensures r.Done? && Accepted(instances, r.value.instance) ==>
              q + DecodeStream(s, instances) == q + [r.value] + DecodeStream(r.rest, instances)
    ensures r.Done? && !Accepted(instances, r.value.instance) ==>
              q + DecodeStream(s, instances) == q + DecodeStream(r.rest, instances)
    ensures r.Failed? && (r.error == Eof || r.error == UnsupportedProtocol) ==> q + DecodeStream(s, instances) == q
    ensures r.Failed? && r.error != Eof && r.error != UnsupportedProtocol ==>
              q + DecodeStream(s, instances) == q + DecodeStream(r.rest, instances)
  {
    hide Proto.DecodePacket;
    if r.Done? {
      Assoc(q, [r.value], DecodeStream(r.rest, instances));
    }
  }

  lemma SameMembers(a: seq<byte>, b: seq<byte>)
    requires multiset(a) == multiset(b)
    ensures forall i :: Accepted(a, i) == Accepted(b, i)
  {
    assert |a| == |multiset(a)| == |multiset(b)| == |b|;
    forall i: byte
      ensures i in a <==> i in b
    {
      assert i in a <==> i in multiset(a);
      assert i in b <==> i in multiset(b);
    }
  }
}
