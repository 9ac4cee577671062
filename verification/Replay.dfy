/** The replayer: VMU packets written as protocol-0 frames, or cut into protocol-1 fragments. */
module Replay {
  import opened Bytes
  import opened Proto
  import opened Sorting
  import opened Streams
  import opened Truncation

  // ----- the version word -----

  function Pow2(k: nat): (p: nat)
    ensures p > 0
  {
    if k == 0 then 1 else 2 * Pow2(k - 1)
  }

  /** Bitwise or. */
  function Or(a: nat, b: nat): nat
    decreases a + b
  {
    if a == 0 && b == 0 then 0
    else (if a % 2 == 1 || b % 2 == 1 then 1 else 0) + 2 * Or(a / 2, b / 2)
  }

  lemma {:induction false} OrStaysBelow(a: nat, b: nat, k: nat)
    requires a < Pow2(k) && b < Pow2(k)
    ensures Or(a, b) < Pow2(k)
  {
    if k == 0 {
    } else {
      OrStaysBelow(a / 2, b / 2, k - 1);
    }
  }

  lemma {:induction false} OrOfZero(a: nat)
    ensures Or(a, 0) == a
  {
    if a == 0 {
    } else {
      OrOfZero(a / 2);
    }
  }

  /** Of numbers that share no bit, the bitwise or is the sum. */
  lemma {:induction false} OrOfDisjoint(high: nat, low: nat, k: nat)
    requires low < Pow2(k)
    ensures Or(high * Pow2(k), low) == high * Pow2(k) + low
  {
    if k == 0 {
      OrOfZero(high);
    } else {
      var p := high * Pow2(k - 1);
      assert high * Pow2(k) == 2 * p;
      OrOfDisjoint(high, low / 2, k - 1);
    }
  }

  lemma Pow2Values()
    ensures Pow2(8) == 0x100 && Pow2(12) == 0x1000 && Pow2(16) == 0x1_0000
  {
    assert Pow2(4) == 16;
    assert Pow2(8) == 256;
    assert Pow2(12) == 4096;
  }

  /** Protocol, VMU version and mode, cut to 16 bits, shifted and combined. */
  function VersionWord(protocol: nat, vmu: int, mode: int): (w: uint16)
    requires protocol < 0x10
  {
    var a, b, c := protocol * 0x1000, vmu % 0x1_0000 * 0x100 % 0x1_0000, mode % 0x1_0000;
    Pow2Values();
    OrStaysBelow(a, b, 16);
    OrStaysBelow(Or(a, b), c, 16);
    Or(Or(a, b), c)
  }

  lemma WordOfFields(protocol: nat, vmu: nat, mode: nat)
    requires protocol < 0x10 && vmu < 0x10 && mode < 0x100
    ensures VersionWord(protocol, vmu, mode) == PrefixOf(protocol, vmu, mode)
  {
    hide Or;
    OrWithByte(protocol * 0x10 + vmu, mode);
    OrWithTwelveBits(protocol, vmu * 0x100);
    assert vmu % 0x1_0000 * 0x100 % 0x1_0000 == vmu * 0x100;
  }

  lemma OrWithByte(high: nat, low: nat)
    requires low < 0x100
    ensures Or(high * 0x100, low) == high * 0x100 + low
  {
    hide Or, Pow2;
    Pow2Values();
    OrOfDisjoint(high, low, 8);
  }

  lemma OrWithTwelveBits(high: nat, low: nat)
    requires low < 0x1000
    ensures Or(high * 0x1000, low) == high * 0x1000 + low
  {
    hide Or, Pow2;
    Pow2Values();
    OrOfDisjoint(high, low, 12);
  }

  /** The three fields are read back as given exactly when the version has 4 bits and the mode 8. */
  lemma VersionFieldsExact(protocol: nat, vmu: int, mode: int)
    requires protocol < 0x10
    ensures var p := Prefixed(VersionWord(protocol, vmu, mode));
            p.protocol == protocol && p.version == vmu && p.instance == mode
            <==> 0 <= vmu < 0x10 && 0 <= mode < 0x100
  {
    hide VersionWord;
    var word := VersionWord(protocol, vmu, mode);
    PrefixIsFields(word);
    if 0 <= vmu < 0x10 && 0 <= mode < 0x100 {
      WordOfFields(protocol, vmu, mode);
      PrefixFields(protocol, vmu, mode);
    }
  }

  // ----- what is written -----

  /** The frame of preparePacketV1; its checksum covers everything before it. */
  function FrameV1(version: uint16, counter: uint16, digest: Data -> uint16, bs: Data): Packet
    requires |bs| < 0x1_0000_0000
  {
    var p := Prefixed(version).(sequence := counter, length := |bs|, payload := bs);
    p.(sum := digest(Head(version) + BE16(counter) + BE32(|bs|) + bs))
  }

  /** The fragments of preparePacketV2, from number `i` on; `c` is announced as the last number. */
  function FragmentsV2(size: nat, c: nat, counter: uint16, digest: Data -> uint16, bs: Data, i: nat): seq<Packet>
    requires 0 < size && |bs| < 0x1_0000_0000
    decreases |bs|
  {
    if bs == [] then []
    else
      var n := if size < |bs| then size else |bs|;
      [NEW_PACKET.(curr := i % 0x1_0000, last := c % 0x1_0000, sequence := counter,
                  length := n, payload := bs[..n], sum := digest(bs[..n]))]
      + FragmentsV2(size, c, counter, digest, bs[n..], i + 1)
  }

  /** The number announced as the last one: the length divided by the chunk size. */
  function LastNumber(size: nat, length: nat): (c: nat)
    requires 0 < size
    ensures c * size <= length < (c + 1) * size
  {
    length / size
  }

  function Fragments(size: nat, counter: uint16, digest: Data -> uint16, bs: Data): seq<Packet>
    requires 0 < size && |bs| < 0x1_0000_0000
  {
    FragmentsV2(size, LastNumber(size, |bs|), counter, digest, bs, 0)
  }

  /** What one Write sends: a frame for a size of zero or less, else the fragments. */
  function Written(size: int, version: uint16, counter: uint16, digest: Data -> uint16, bs: Data): Data
    requires |bs| < 0x1_0000_0000
  {
    if size <= 0 then Head(version) + Body(FrameV1(version, counter, digest, bs))
    else GroupBytes(version, Fragments(size, counter, digest, bs))
  }

  lemma FirstFragment(size: nat, c: nat, counter: uint16, digest: Data -> uint16, version: uint16, bs: Data, i: nat)
    returns (f: Packet, rest: seq<Packet>)
    requires 0 < size && 0 < |bs| < 0x1_0000_0000
    ensures var n := if size < |bs| then size else |bs|;
            && f == NEW_PACKET.(curr := i % 0x1_0000, last := c % 0x1_0000, sequence := counter,
                               length := n, payload := bs[..n], sum := digest(bs[..n]))
            && rest == FragmentsV2(size, c, counter, digest, bs[n..], i + 1)
    ensures FragmentsV2(size, c, counter, digest, bs, i) == [f] + rest
    ensures GroupBytes(version, FragmentsV2(size, c, counter, digest, bs, i))
         == FragmentBytes(version, f) + GroupBytes(version, rest)
  {
    var fs := FragmentsV2(size, c, counter, digest, bs, i);
    f, rest := fs[0], fs[1..];
  }

  // ----- the network -----

  /** The network takes `room` more bytes, and then a write fails, for good or temporarily. */
  datatype Fault = Fault(room: nat, temporary: bool)

  datatype Sent = Whole | Cut(temporary: bool)

  predicate Fits(w: Data, faults: seq<Fault>) {
    faults == [] || |w| <= faults[0].room
  }

  /** The part of a buffer that goes out before the next fault. */
  function Part(w: Data, faults: seq<Fault>): Data {
    if faults == [] then w else Take(w, faults[0].room)
  }

  /** The faults to come after a buffer was sent, or cut by the first of them. */
  function Remaining(w: Data, faults: seq<Fault>): seq<Fault> {
    if faults == [] then []
    else if Fits(w, faults) then [Fault(faults[0].room - |w|, faults[0].temporary)] + faults[1..]
    else faults[1..]
  }

  function ResultOf(w: Data, faults: seq<Fault>): Sent {
    if Fits(w, faults) then Whole else Cut(faults[0].temporary)
  }

  /** Two buffers in turn are sent like one, if the first one fits. */
  lemma SendInTwo(a: Data, b: Data, faults: seq<Fault>)
    requires Fits(a, faults)
    ensures Part(a + b, faults) == a + Part(b, Remaining(a, faults))
    ensures Remaining(a + b, faults) == Remaining(b, Remaining(a, faults))
    ensures ResultOf(a + b, faults) == ResultOf(b, Remaining(a, faults))
  {
  }

  /** What follows a buffer that is cut does not go out. */
  lemma CutBefore(b: Data, c: Data, faults: seq<Fault>)
    requires !Fits(b, faults)
    ensures Part(b + c, faults) == Part(b, faults)
    ensures Remaining(b + c, faults) == Remaining(b, faults) && ResultOf(b + c, faults) == ResultOf(b, faults)
  {
  }

  class Connection {
    const size: int
    const version: uint16
    const digest: Data -> uint16
    var counter: uint16
    var sent: Data
    var faults: seq<Fault>

    /** The protocol depends on the chunk size; `vmu` is the VMU version, `mode` the instance. */
    constructor (size: int, vmu: int, mode: int, digest: Data -> uint16, faults: seq<Fault>)
      ensures this.size == size && this.digest == digest && counter == 0 && sent == [] && this.faults == faults
      ensures version == VersionWord(if size <= 0 then 0 else 1, vmu, mode)
    {
      this.size := size;
      version := VersionWord(if size <= 0 then 0 else 1, vmu, mode);
      this.digest := digest;
      counter, sent, this.faults := 0, [], faults;
    }

    method PreparePacketV1(bs: Data) returns (w: Data)
      requires |bs| < 0x1_0000_0000
      ensures w == Head(version) + Body(FrameV1(version, counter, digest, bs))
    {
      w := BE32(PREAMBLE);
      w := w + BE16(version);
      w := w + BE16(counter);
      w := w + BE32(|bs|);
      w := w + bs;
      w := w + BE16(digest(w));
      ghost var head, p := Head(version), FrameV1(version, counter, digest, bs);
      Assoc(head, BE16(p.sequence), BE32(p.length));
      Assoc(head, BE16(p.sequence) + BE32(p.length), bs);
      Assoc(head, BE16(p.sequence) + BE32(p.length) + bs, BE16(p.sum));
    }

    method PreparePacketV2(bs: Data) returns (rs: seq<Data>)
      requires 0 < size && |bs| < 0x1_0000_0000
      ensures Concat(rs) == GroupBytes(version, Fragments(size, counter, digest, bs))
    {
      var re := bs;
      var c := LastNumber(size, |re|);
      rs := [];
      var i: nat := 0;
      ghost var all := GroupBytes(version, Fragments(size, counter, digest, bs));
      while |re| > 0
        invariant |re| <= |bs|
        invariant Concat(rs) + GroupBytes(version, FragmentsV2(size, c, counter, digest, re, i)) == all
      {
        var n := if size < |re| then size else |re|;
        var vs := re[..n];
        ghost var f, rest := FirstFragment(size, c, counter, digest, version, re, i);
        var w := BE32(PREAMBLE);
        w := w + BE16(version);
        w := w + (BE16(i % 0x1_0000) + BE16(c % 0x1_0000)
                  + (BE16(counter) + BE32(|vs|) + vs + BE16(digest(vs))));
        assert w == FragmentBytes(version, f);
        hide FragmentsV2, FragmentBytes;
        ConcatAppend(rs, [w]);
        Assoc(Concat(rs), w, GroupBytes(version, rest));
        assert Concat([w]) == w;
        rs := rs + [w];
        re := re[n..];
        i := i + 1;
      }
    }

    method Copy(w: Data) returns (r: Sent)
      modifies `sent, `faults
      ensures sent == old(sent) + Part(w, old(faults)) && faults == Remaining(w, old(faults))
      ensures r == ResultOf(w, old(faults))
    {
      if faults == [] {
        sent := sent + w;
        return Whole;
      }
      var fault := faults[0];
      if |w| <= fault.room {
        sent := sent + w;
        faults := [Fault(fault.room - |w|, fault.temporary)] + faults[1..];
        r := Whole;
      } else {
        sent := sent + w[..fault.room];
        faults := faults[1..];
        r := Cut(fault.temporary);
      }
    }

    /** Sends buffer after buffer, up to the first failure. */
    method Send(rs: seq<Data>) returns (r: Sent)
      modifies `sent, `faults
      ensures sent == old(sent) + Part(Concat(rs), old(faults)) && faults == Remaining(Concat(rs), old(faults))
      ensures r == ResultOf(Concat(rs), old(faults))
    {
      hide Part, Remaining, ResultOf, Concat, Fits;
      NothingFits(old(faults));
      assert rs[..0] == [];
      for i := 0 to |rs|
        invariant Fits(Concat(rs[..i]), old(faults))
        invariant faults == Remaining(Concat(rs[..i]), old(faults))
        invariant sent == old(sent) + Concat(rs[..i])
      {
        AroundOne(rs, i);
        ghost var left := faults;
        r := Copy(rs[i]);
        SendInTwo(Concat(rs[..i]), rs[i], old(faults));
        Assoc(old(sent), Concat(rs[..i]), Part(rs[i], left));
        WholeIfFits(rs[i], left);
        WholeIfFits(Concat(rs[..i + 1]), old(faults));
        if r.Cut? {
          CutBefore(Concat(rs[..i + 1]), Concat(rs[i + 1..]), old(faults));
          return;
        }
      }
      assert rs[..|rs|] == rs;
      WholeIfFits(Concat(rs), old(faults));
      r := Whole;
    }

    /** The counter advances whether the write fails or not. */
    method Write(bs: Data) returns (r: Sent)
      requires |bs| < 0x1_0000_0000
      modifies this
      ensures var w := Written(size, version, old(counter), digest, bs);
              && sent == old(sent) + Part(w, old(faults)) && faults == Remaining(w, old(faults))
              && r == ResultOf(w, old(faults))
              && (if old(faults) == [] || |w| <= old(faults)[0].room
                  then r == Whole && sent == old(sent) + w
                  else r == Cut(old(faults)[0].temporary) && sent == old(sent) + w[..old(faults)[0].room]
                       && faults == old(faults)[1..])
      ensures counter == (old(counter) + 1) % 0x1_0000
    {
      hide Part, Remaining, ResultOf;
      if size <= 0 {
        var w := PreparePacketV1(bs);
        r := Copy(w);
      } else {
        var rs := PreparePacketV2(bs);
        r := Send(rs);
      }
      counter := (counter + 1) % 0x1_0000;
      SentByValue(Written(size, version, old(counter), digest, bs), old(faults));
    }
  }

  lemma SentByValue(w: Data, faults: seq<Fault>)
    ensures faults == [] || |w| <= faults[0].room ==> ResultOf(w, faults) == Whole && Part(w, faults) == w
    ensures faults != [] && |w| > faults[0].room ==>
              && ResultOf(w, faults) == Cut(faults[0].temporary) && Part(w, faults) == w[..faults[0].room]
              && Remaining(w, faults) == faults[1..]
  {
  }

  lemma NothingFits(faults: seq<Fault>)
    ensures Concat([]) == [] && Fits([], faults) && Remaining([], faults) == faults
  {
  }

  lemma WholeIfFits(w: Data, faults: seq<Fault>)
    ensures ResultOf(w, faults) == Whole <==> Fits(w, faults)
    ensures Fits(w, faults) ==> Part(w, faults) == w
  {
  }

  lemma AroundOne(rs: seq<Data>, i: nat)
    requires i < |rs|
    ensures Concat(rs[..i + 1]) == Concat(rs[..i]) + rs[i]
    ensures Concat(rs) == Concat(rs[..i + 1]) + Concat(rs[i + 1..])
  {
    assert Concat([rs[i]]) == rs[i];
    assert rs[..i + 1] == rs[..i] + [rs[i]];
    ConcatAppend(rs[..i], [rs[i]]);
    assert rs == rs[..i + 1] + rs[i + 1..];
    ConcatAppend(rs[..i + 1], rs[i + 1..]);
  }

  // ----- the shape of the fragments -----

  lemma {:induction false} FragmentShape(size: nat, c: nat, counter: uint16, digest: Data -> uint16, bs: Data, i: nat)
    requires 0 < size && |bs| < 0x1_0000_0000
    ensures var fs := FragmentsV2(size, c, counter, digest, bs, i);
            && AreFragments(fs)
            && (forall k :: 0 <= k < |fs| ==>
                 fs[k].curr == (i + k) % 0x1_0000 && fs[k].last == c % 0x1_0000 && fs[k].sequence == counter)
    decreases |bs|
  {
    if bs == [] {
    } else {
      var n := if size < |bs| then size else |bs|;
      var rest := FragmentsV2(size, c, counter, digest, bs[n..], i + 1);
      FragmentShape(size, c, counter, digest, bs[n..], i + 1);
      var fs := FragmentsV2(size, c, counter, digest, bs, i);
      forall k | 0 <= k < |fs|
        ensures IsFragment(fs[k]) && fs[k].curr == (i + k) % 0x1_0000
        ensures fs[k].last == c % 0x1_0000 && fs[k].sequence == counter
      {
        if k > 0 {
          assert fs[k] == rest[k - 1];
        }
      }
    }
  }

  /** Fragment k by value: its part of the payload with its own checksum, and the numbers it carries. */
  ghost predicate IsFragmentAt(f: Packet, size: nat, c: nat, counter: uint16, digest: Data -> uint16, bs: Data, k: nat,
                               from: nat)
  {
    var to := if from + size < |bs| then from + size else |bs|;
    && from < to
    && f.payload == bs[from..to] && f.length == to - from && f.sum == digest(bs[from..to])
    && f.sequence == counter && f.curr == k % 0x1_0000 && f.last == c % 0x1_0000
  }

  lemma {:induction false} FragmentAt(size: nat, c: nat, counter: uint16, digest: Data -> uint16, bs: Data, i: nat,
                                      k: nat, from: nat)
    requires 0 < size && |bs| < 0x1_0000_0000
    requires k < |FragmentsV2(size, c, counter, digest, bs, i)| && from == k * size
    ensures IsFragmentAt(FragmentsV2(size, c, counter, digest, bs, i)[k], size, c, counter, digest, bs, i + k, from)
    decreases |bs|
  {
    hide IsFragmentAt;
    var n := if size < |bs| then size else |bs|;
    var fs := FragmentsV2(size, c, counter, digest, bs, i);
    if k == 0 {
      FirstIsFragmentAt(fs[0], size, c, counter, digest, bs, i);
    } else {
      assert fs[k] == FragmentsV2(size, c, counter, digest, bs[n..], i + 1)[k - 1];
      assert n == size;
      StepBack(k, size);
      FragmentAt(size, c, counter, digest, bs[n..], i + 1, k - 1, from - size);
      LaterIsFragmentAt(fs[k], size, c, counter, digest, bs, i + k, from);
    }
  }

  /** The fragments of a packet by value: fragment k has the k-th part, and announces |bs| / size as the last number. */
  lemma FragmentsByValue(size: nat, counter: uint16, digest: Data -> uint16, bs: Data, k: nat)
    requires 0 < size && |bs| < 0x1_0000_0000 && k < |Fragments(size, counter, digest, bs)|
    ensures 0 <= k * size < |bs|
    ensures var f := Fragments(size, counter, digest, bs)[k];
            var to := if k * size + size < |bs| then k * size + size else |bs|;
            && f.payload == bs[k * size..to] && f.length == to - k * size && f.sum == digest(bs[k * size..to])
            && f.sequence == counter && f.curr == k % 0x1_0000 && f.last == |bs| / size % 0x1_0000
  {
    hide FragmentsV2;
    ProductOfNats(k, size);
    FragmentAt(size, |bs| / size, counter, digest, bs, 0, k, k * size);
  }

  lemma {:induction false} ProductOfNats(k: nat, size: nat)
    ensures k * size >= 0
  {
    if k == 0 {
    } else {
      ProductOfNats(k - 1, size);
      assert k * size == (k - 1) * size + size;
    }
  }

  lemma StepBack(k: nat, size: nat)
    requires 0 < k
    ensures k * size == (k - 1) * size + size && (k - 1) * size >= 0
  {
  }

  lemma FirstIsFragmentAt(f: Packet, size: nat, c: nat, counter: uint16, digest: Data -> uint16, bs: Data, i: nat)
    requires 0 < size && 0 < |bs| < 0x1_0000_0000
    requires f == FragmentsV2(size, c, counter, digest, bs, i)[0]
    ensures IsFragmentAt(f, size, c, counter, digest, bs, i, 0)
  {
    assert bs[..|bs|] == bs[0..|bs|] && (size < |bs| ==> bs[..size] == bs[0..size]);
  }

  lemma LaterIsFragmentAt(f: Packet, size: nat, c: nat, counter: uint16, digest: Data -> uint16, bs: Data, k: nat,
                          from: nat)
    requires 0 < size <= from && size <= |bs|
    requires IsFragmentAt(f, size, c, counter, digest, bs[size..], k, from - size)
    ensures IsFragmentAt(f, size, c, counter, digest, bs, k, from)
  {
    SliceAfter(bs, size, from, if from + size < |bs| then from + size else |bs|);
  }

  lemma SliceAfter(bs: Data, n: nat, from: nat, to: nat)
    requires n <= |bs|
    ensures n <= from < to <= |bs| ==> bs[n..][from - n..to - n] == bs[from..to]
  {
  }

  /** The last two bytes of a frame are the checksum of all the others. */
  lemma FrameEndsInDigest(version: uint16, counter: uint16, digest: Data -> uint16, bs: Data)
    requires |bs| < 0x1_0000_0000
    ensures var w := Written(0, version, counter, digest, bs);
            |w| == |bs| + 14 && w[|bs| + 12..] == BE16(digest(w[..|bs| + 12]))
  {
    hide BE16, BE32, Head;
    var head, p := Head(version), FrameV1(version, counter, digest, bs);
    Assoc(head, BE16(counter), BE32(|bs|));
    Assoc(head, BE16(counter) + BE32(|bs|), bs);
    Assoc(head, BE16(counter) + BE32(|bs|) + bs, BE16(p.sum));
  }

  lemma {:induction false} FragmentCount(size: nat, c: nat, counter: uint16, digest: Data -> uint16, bs: Data, i: nat)
    requires 0 < size && |bs| < 0x1_0000_0000
    ensures var n := |FragmentsV2(size, c, counter, digest, bs, i)|;
            |bs| <= n * size && (n == 0 <==> bs == []) && (n > 0 ==> (n - 1) * size < |bs|)
    decreases |bs|
  {
    if bs == [] {
    } else {
      var n := if size < |bs| then size else |bs|;
      FragmentCount(size, c, counter, digest, bs[n..], i + 1);
      var m := |FragmentsV2(size, c, counter, digest, bs[n..], i + 1)|;
      assert (m + 1) * size == m * size + size;
      if m > 0 {
        assert (m - 1) * size + size == m * size;
      }
    }
  }

  /** There is one more fragment than announced, unless the chunk size divides the length. */
  lemma FragmentCountExact(size: nat, counter: uint16, digest: Data -> uint16, bs: Data)
    requires 0 < size && |bs| < 0x1_0000_0000
    ensures |Fragments(size, counter, digest, bs)| == LastNumber(size, |bs|) + (if |bs| % size == 0 then 0 else 1)
  {
    FragmentCount(size, LastNumber(size, |bs|), counter, digest, bs, 0);
    RoundedUp(|Fragments(size, counter, digest, bs)|, LastNumber(size, |bs|), |bs|, size);
  }

  lemma RoundedUp(n: nat, c: nat, length: nat, size: nat)
    requires 0 < size && c == LastNumber(size, length)
    requires length <= n * size && (n == 0 <==> length == 0) && (n > 0 ==> (n - 1) * size < length)
    ensures n == c + (if length % size == 0 then 0 else 1)
  {
    var r := length % size;
    assert length == c * size + r;
    CancelFactor(n - 1, c, size);
    CancelFactor(c, n, size);
    CancelFactor(c - 1, n, size);
    CancelFactor(n - 1, c + 1, size);
  }

  lemma CancelFactor(a: int, b: int, size: nat)
    requires 0 < size
    ensures a * size < b * size <==> a < b
    ensures (a + 1) * size == a * size + size
  {
    if a < b {
      assert (b - a) * size >= size;
    } else {
      assert (a - b) * size >= 0;
    }
  }

  lemma {:induction false} JoinFront(f: Packet, fs: seq<Packet>)
    ensures Join([f] + fs) == f.payload + Join(fs)
  {
    if fs == [] {
      assert [f] + fs == [f] && [f][..0] == [];
    } else {
      var front, top := fs[..|fs| - 1], fs[|fs| - 1];
      assert ([f] + fs)[..|fs|] == [f] + front;
      JoinFront(f, front);
      Assoc(f.payload, Join(front), top.payload);
    }
  }

  lemma {:induction false} FragmentsJoin(size: nat, c: nat, counter: uint16, digest: Data -> uint16, bs: Data, i: nat)
    requires 0 < size && |bs| < 0x1_0000_0000
    ensures Join(FragmentsV2(size, c, counter, digest, bs, i)) == bs
    decreases |bs|
  {
    if bs == [] {
    } else {
      var n := if size < |bs| then size else |bs|;
      var rest := FragmentsV2(size, c, counter, digest, bs[n..], i + 1);
      FragmentsJoin(size, c, counter, digest, bs[n..], i + 1);
      JoinFront(FragmentsV2(size, c, counter, digest, bs, i)[0], rest);
    }
  }

  // ----- the fragmentation round trip, exactly -----

  /** The decoder hands back the whole packet and leaves only what follows it. */
  ghost predicate Recovers(r: Outcome<Packet>, t: Data, version: uint16, counter: uint16, bs: Data) {
    && r.Done? && r.rest == t
    && r.value.payload == bs
    && r.value.sequence == counter
    && r.value.version == Prefixed(version).version
    && r.value.instance == Prefixed(version).instance
  }

  /** Can a packet of this length be sent in chunks of this size? */
  predicate Sendable(size: nat, length: nat)
    requires 0 < size
  {
    length % size != 0 && LastNumber(size, length) <= 0xffff
  }

  /** A length that the chunk size divides. */
  predicate Divided(size: nat, length: nat)
    requires 0 < size
  {
    0 < length < 0x1_0000_0000 && length % size == 0 && LastNumber(size, length) <= 0xffff
  }

  lemma SendableIsComplete(size: nat, counter: uint16, digest: Data -> uint16, bs: Data)
    requires 0 < size && |bs| < 0x1_0000_0000
    requires Sendable(size, |bs|)
    ensures var fs := Fragments(size, counter, digest, bs);
            AreFragments(fs) && IsComplete(fs) && SortedBy(fs, BY_CURR) && Join(fs) == bs
    ensures var fs := Fragments(size, counter, digest, bs); fs[|fs| - 1].sequence == counter
  {
    var c := LastNumber(size, |bs|);
    FragmentShape(size, c, counter, digest, bs, 0);
    FragmentCountExact(size, counter, digest, bs);
    FragmentsJoin(size, c, counter, digest, bs, 0);
    var fs := Fragments(size, counter, digest, bs);
    hide Fragments, Join;
    InOrder(fs, c);
  }

  lemma InOrder(fs: seq<Packet>, c: nat)
    requires c <= 0xffff && |fs| == c + 1
    requires forall k :: 0 <= k < |fs| ==> fs[k].curr == (0 + k) % 0x1_0000 && fs[k].last == c % 0x1_0000
    ensures IsComplete(fs) && SortedBy(fs, BY_CURR)
  {
    assert forall k :: 0 <= k < |fs| ==> fs[k].curr == k && fs[k].last == c;
  }

  lemma SendableIsRecovered(size: nat, version: uint16, counter: uint16, digest: Data -> uint16, bs: Data, t: Data)
    requires 0 < size && |bs| < 0x1_0000_0000 && version / 0x1000 == 1
    requires Sendable(size, |bs|)
    ensures Recovers(DecodePacket(Written(size, version, counter, digest, bs) + t), t, version, counter, bs)
  {
    var fs := Fragments(size, counter, digest, bs);
    SendableIsComplete(size, counter, digest, bs);
    DecodeGroup(version, fs, t);
    SortOfSorted(fs, BY_CURR);
  }

  lemma EarlyFinal(fs: seq<Packet>, c: nat) returns (k: nat)
    requires c > 0xffff && |fs| >= c
    requires forall i :: 0 <= i < |fs| ==> fs[i].curr == i % 0x1_0000 && fs[i].last == c % 0x1_0000
    ensures k + 1 < |fs| && IsComplete(fs[..k + 1])
  {
    k := c % 0x1_0000;
    assert fs[..k + 1][k] == fs[k];
    assert forall i :: 0 <= i < k ==> fs[i].curr == i;
  }

  lemma {:induction false} GroupConcat(prefix: uint16, a: seq<Packet>, b: seq<Packet>)
    ensures GroupBytes(prefix, a + b) == GroupBytes(prefix, a) + GroupBytes(prefix, b)
  {
    if a == [] {
      assert a + b == b;
    } else {
      assert (a + b)[1..] == a[1..] + b;
      GroupConcat(prefix, a[1..], b);
      hide FragmentBytes;
      Assoc(FragmentBytes(prefix, a[0]), GroupBytes(prefix, a[1..]), GroupBytes(prefix, b));
    }
  }

  /** No fragment of an evenly divided packet is final. */
  lemma DividedIsUnfinished(size: nat, counter: uint16, digest: Data -> uint16, bs: Data)
    requires 0 < size && Divided(size, |bs|)
    ensures var fs := Fragments(size, counter, digest, bs);
            AreFragments(fs) && forall i :: 0 <= i < |fs| ==> !IsFinal(fs[i])
    ensures Fragments(size, counter, digest, bs) != []
  {
    FragmentShape(size, LastNumber(size, |bs|), counter, digest, bs, 0);
    FragmentCountExact(size, counter, digest, bs);
  }

  lemma FragmentsSize(size: nat, counter: uint16, digest: Data -> uint16, bs: Data)
    requires 0 < size && |bs| < 0x1_0000_0000
    ensures PayloadSize(Fragments(size, counter, digest, bs)) == |bs|
  {
    FragmentsJoin(size, LastNumber(size, |bs|), counter, digest, bs, 0);
    JoinSize(Fragments(size, counter, digest, bs));
  }

  lemma {:induction false} PayloadSizeConcat(a: seq<Packet>, b: seq<Packet>)
    ensures PayloadSize(a + b) == PayloadSize(a) + PayloadSize(b)
  {
    if b == [] {
      assert a + b == a;
    } else {
      assert (a + b)[..|a + b| - 1] == a + b[..|b| - 1];
      PayloadSizeConcat(a, b[..|b| - 1]);
    }
  }

  predicate NotEmpty(fs: seq<Packet>) {
    forall i :: 0 <= i < |fs| ==> fs[i].payload != []
  }

  lemma {:induction false} FragmentsNotEmpty(size: nat, c: nat, counter: uint16, digest: Data -> uint16,
                                             bs: Data, i: nat)
    requires 0 < size && |bs| < 0x1_0000_0000
    ensures NotEmpty(FragmentsV2(size, c, counter, digest, bs, i))
    decreases |bs|
  {
    if bs == [] {
    } else {
      var n := if size < |bs| then size else |bs|;
      FragmentsNotEmpty(size, c, counter, digest, bs[n..], i + 1);
    }
  }

  // A packet that cannot be sent, whatever fragments follow it

  /** The first fragment that looks final, if there is one. */
  lemma {:induction false} FirstFinal(fs: seq<Packet>) returns (j: nat)
    ensures j <= |fs|
    ensures forall i :: 0 <= i < j ==> !IsFinal(fs[i])
    ensures j < |fs| ==> IsComplete(fs[..j + 1])
  {
    j := 0;
    while j < |fs| && !IsFinal(fs[j])
      invariant j <= |fs|
      invariant forall i :: 0 <= i < j ==> !IsFinal(fs[i])
    {
      j := j + 1;
    }
  }

  /** From a group cut out of more bytes, the decoder takes exactly the payload bytes in it. */
  lemma DecodeFirstGroup(version: uint16, early: seq<Packet>, t: Data)
    requires version / 0x1000 == 1
    requires AreFragments(early) && IsComplete(early)
    ensures DecodePacket(GroupBytes(version, early) + t).Done?
    ensures |DecodePacket(GroupBytes(version, early) + t).value.payload| == PayloadSize(early)
  {
    hide GroupBytes, DecodePacket;
    DecodeGroup(version, early, t);
    JoinSize(SortBy(early, BY_CURR));
    SortKeepsSize(early);
  }

  lemma PartIsSmaller(a: seq<Packet>, b: seq<Packet>)
    requires b != [] && NotEmpty(b)
    ensures PayloadSize(a) < PayloadSize(a + b)
  {
    PayloadSizeConcat(a, b);
    assert PayloadSize(b) >= |b[|b| - 1].payload| > 0;
  }

  /** More than 65536 announced fragments: the numbers wrap, and an early fragment looks final. */
  lemma WrappedSpoils(size: nat, version: uint16, counter: uint16, digest: Data -> uint16, bs: Data, t: Data)
    requires 0 < size && |bs| < 0x1_0000_0000 && version / 0x1000 == 1
    requires LastNumber(size, |bs|) > 0xffff
    ensures var r := DecodePacket(GroupBytes(version, Fragments(size, counter, digest, bs)) + t);
            r.Done? && |r.value.payload| < |bs|
  {
    var c := LastNumber(size, |bs|);
    var fs := Fragments(size, counter, digest, bs);
    FragmentShape(size, c, counter, digest, bs, 0);
    FragmentCountExact(size, counter, digest, bs);
    FragmentsNotEmpty(size, c, counter, digest, bs, 0);
    FragmentsJoin(size, c, counter, digest, bs, 0);
    JoinSize(fs);
    var k := EarlyFinal(fs, c);
    var early, late := fs[..k + 1], fs[k + 1..];
    hide Fragments, GroupBytes, DecodePacket, LastNumber, IsComplete;
    assert fs == early + late;
    PartIsSmaller(early, late);
    assert AreFragments(early);
    GroupConcat(version, early, late);
    Assoc(GroupBytes(version, early), GroupBytes(version, late), t);
    DecodeFirstGroup(version, early, GroupBytes(version, late) + t);
  }

  /** Before further fragments, an evenly divided packet is lost, or delivered with their beginning in it. */
  lemma DividedSpoils(size: nat, version: uint16, counter: uint16, digest: Data -> uint16, bs: Data, more: seq<Packet>)
    requires 0 < size && Divided(size, |bs|) && version / 0x1000 == 1
    requires AreFragments(more) && NotEmpty(more)
    ensures var fs := Fragments(size, counter, digest, bs);
            var r := DecodePacket(GroupBytes(version, fs) + GroupBytes(version, more));
            if r.Done? then |r.value.payload| > |bs| else r == Failed(Eof, [])
  {
    hide Fragments, GroupBytes, DecodePacket, LastNumber;
    var fs := Fragments(size, counter, digest, bs);
    DividedIsUnfinished(size, counter, digest, bs);
    FragmentsSize(size, counter, digest, bs);
    var j := FirstFinal(more);
    hide Divided;
    if j == |more| {
      GroupConcat(version, fs, more);
      DecodeUnfinished(version, fs + more);
    } else {
      UnfinishedTakesMore(version, fs, more[..j + 1], more[j + 1..]);
      assert more == more[..j + 1] + more[j + 1..];
    }
  }

  lemma UnfinishedTakesMore(version: uint16, fs: seq<Packet>, early: seq<Packet>, late: seq<Packet>)
    requires version / 0x1000 == 1
    requires AreFragments(fs) && forall i :: 0 <= i < |fs| ==> !IsFinal(fs[i])
    requires AreFragments(early) && IsComplete(early) && NotEmpty(early)
    ensures var r := DecodePacket(GroupBytes(version, fs) + GroupBytes(version, early + late));
            r.Done? && |r.value.payload| > PayloadSize(fs)
  {
    hide GroupBytes, DecodePacket;
    PartIsSmaller(fs, early);
    assert (fs + early)[|fs + early| - 1] == early[|early| - 1];
    DecodeFirstGroup(version, fs + early, GroupBytes(version, late));
    GroupConcat(version, fs, early);
    GroupConcat(version, early, late);
    Assoc(GroupBytes(version, fs), GroupBytes(version, early), GroupBytes(version, late));
  }

  lemma {:induction false} CollectTakesOne(s: Data, prefix: uint16, got: seq<Packet>)
    requires Collect(s, prefix, got).Done?
    ensures |Collect(s, prefix, got).rest| + 12 <= |s|
    decreases |s|
  {
    hide ReadFragment, ReadPreamble;
    var f := ReadFragment(s);
    if !IsFinal(f.value) {
      CollectTakesOne(ReadPreamble(f.rest).rest, prefix, got + [f.value]);
    }
  }

  /** After fragments of which none is final, any bytes: the group goes on in them or fails. */
  lemma {:induction false} CollectBeyond(prefix: uint16, got: seq<Packet>, fs: seq<Packet>, t: Data)
    requires fs != [] && AreFragments(fs) && forall i :: 0 <= i < |fs| ==> !IsFinal(fs[i])
    ensures var r := Collect(AfterHead(prefix, fs) + t, prefix, got); r.Done? ==> |r.rest| + 18 <= |t|
    decreases |fs|
  {
    hide ReadFragment, ReadPreamble, FragmentBody, Head, AfterHead;
    var f, rest := fs[0], fs[1..];
    SplitHead(prefix, fs, t);
    ReadFragmentOfBytes(f, GroupBytes(prefix, rest) + t);
    if rest == [] {
      assert GroupBytes(prefix, rest) + t == t;
      hide GroupBytes;
      var x := ReadPreamble(t);
      if Collect(AfterHead(prefix, fs) + t, prefix, got).Done? {
        CollectTakesOne(x.rest, prefix, got + [f]);
      }
    } else {
      hide GroupBytes;
      CollectBeyond(prefix, got + [f], rest, t);
      SplitHead(prefix, rest, t);
      ReadPreambleOfHead(prefix, AfterHead(prefix, rest) + t);
    }
  }

  /**
   * Whatever follows it, an evenly divided packet is never decoded by itself: decoding fails, or
   * takes at least one whole fragment, 18 bytes, out of what follows.
   */
  lemma DividedNeedsMore(size: nat, version: uint16, counter: uint16, digest: Data -> uint16, bs: Data, t: Data)
    requires 0 < size && Divided(size, |bs|) && version / 0x1000 == 1
    ensures var r := DecodePacket(GroupBytes(version, Fragments(size, counter, digest, bs)) + t);
            r.Done? ==> |r.rest| + 18 <= |t|
  {
    var fs := Fragments(size, counter, digest, bs);
    DividedIsUnfinished(size, counter, digest, bs);
    hide Fragments, LastNumber, Divided, Collect;
    CollectBeyond(version, [], fs, t);
    SplitHead(version, fs, t);
    ReadPreambleOfHead(version, AfterHead(version, fs) + t);
  }

  /**
   * The fragmentation round trip holds exactly when the chunk size does not divide the
   * length and the number of the last fragment fits its 16-bit field.
   */
  lemma FragmentationExact(size: nat, version: uint16, counter: uint16, digest: Data -> uint16, bs: Data)
    requires 0 < size && |bs| < 0x1_0000_0000 && version / 0x1000 == 1
    ensures Recovers(DecodePacket(Written(size, version, counter, digest, bs)), [], version, counter, bs)
            <==> |bs| % size != 0 && |bs| / size <= 0xffff
  {
    var w := Written(size, version, counter, digest, bs);
    if bs == [] {
      NoFragmentsNoBytes(version);
    } else if LastNumber(size, |bs|) > 0xffff {
      WrappedSpoils(size, version, counter, digest, bs, []);
      assert w + [] == w;
    } else if |bs| % size == 0 {
      DividedIsUnfinished(size, counter, digest, bs);
      FragmentCountExact(size, counter, digest, bs);
      assert LastNumber(size, |bs|) > 0;
      DecodeUnfinished(version, Fragments(size, counter, digest, bs));
    } else {
      SendableIsRecovered(size, version, counter, digest, bs, []);
      assert w + [] == w;
    }
  }

  // ----- whole replays -----

  /** The bytes of a run of Writes that starts with the given counter. */
  function WrittenAll(size: int, version: uint16, counter: uint16, digest: Data -> uint16, packets: seq<Data>): Data
    requires forall i :: 0 <= i < |packets| ==> |packets[i]| < 0x1_0000_0000
    decreases |packets|
  {
    if packets == [] then []
    else Written(size, version, counter, digest, packets[0])
         + WrittenAll(size, version, (counter + 1) % 0x1_0000, digest, packets[1..])
  }

  /** Sequence, version and instance of a packet, and its payload. */
  datatype Delivery = Delivery(sequence: uint16, version: byte, instance: byte, payload: Data)

  function Delivered(p: Packet): Delivery {
    Delivery(p.sequence, p.version, p.instance, p.payload)
  }

  function DeliveredAll(ps: seq<Packet>): seq<Delivery> {
    if ps == [] then [] else [Delivered(ps[0])] + DeliveredAll(ps[1..])
  }

  /** Every packet of a replay, numbered from `counter` on (mod 65536). */
  function Expected(version: uint16, counter: uint16, packets: seq<Data>): seq<Delivery>
    decreases |packets|
  {
    if packets == [] then []
    else [Delivery(counter, Prefixed(version).version, Prefixed(version).instance, packets[0])]
         + Expected(version, (counter + 1) % 0x1_0000, packets[1..])
  }

  predicate AllSendable(size: int, packets: seq<Data>) {
    forall i :: 0 <= i < |packets| ==>
      |packets[i]| < 0x1_0000_0000 && (size > 0 ==> Sendable(size, |packets[i]|))
  }

  function WriteElement(size: int, version: uint16, counter: uint16, digest: Data -> uint16, bs: Data): Element
    requires |bs| < 0x1_0000_0000
  {
    if size <= 0 then Single(FrameV1(version, counter, digest, bs))
    else Group(version, Fragments(size, counter, digest, bs))
  }

  lemma WriteIsElement(size: int, version: uint16, counter: uint16, digest: Data -> uint16,
                       bs: Data, instances: seq<byte>)
    requires |bs| < 0x1_0000_0000
    requires version / 0x1000 == if size <= 0 then 0 else 1
    requires size > 0 ==> Sendable(size, |bs|)
    requires Accepted(instances, Prefixed(version).instance)
    ensures var e := WriteElement(size, version, counter, digest, bs);
            && ValidElement(e) && ElementBytes(e) == Written(size, version, counter, digest, bs)
            && |ElementPackets(e, instances)| == 1
            && Delivered(ElementPackets(e, instances)[0])
               == Delivery(counter, Prefixed(version).version, Prefixed(version).instance, bs)
  {
    PrefixIsFields(version);
    if size > 0 {
      SendableIsComplete(size, counter, digest, bs);
      SortOfSorted(Fragments(size, counter, digest, bs), BY_CURR);
    }
  }

  lemma {:induction false} DeliveredAllOfCons(p: Packet, ps: seq<Packet>)
    ensures DeliveredAll([p] + ps) == [Delivered(p)] + DeliveredAll(ps)
  {
    assert ([p] + ps)[1..] == ps;
  }

  /** The fragments of a run, packet after packet. */
  function RunFragments(size: nat, counter: uint16, digest: Data -> uint16, packets: seq<Data>): seq<Packet>
    requires 0 < size
    requires forall i :: 0 <= i < |packets| ==> |packets[i]| < 0x1_0000_0000
    decreases |packets|
  {
    if packets == [] then []
    else Fragments(size, counter, digest, packets[0])
         + RunFragments(size, (counter + 1) % 0x1_0000, digest, packets[1..])
  }

  lemma {:induction false} RunIsGroup(size: nat, version: uint16, counter: uint16, digest: Data -> uint16,
                                      packets: seq<Data>)
    requires 0 < size
    requires forall i :: 0 <= i < |packets| ==> |packets[i]| < 0x1_0000_0000
    ensures var fs := RunFragments(size, counter, digest, packets);
            && GroupBytes(version, fs) == WrittenAll(size, version, counter, digest, packets)
            && AreFragments(fs) && NotEmpty(fs)
    decreases |packets|
  {
    if packets == [] {
    } else {
      var next := (counter + 1) % 0x1_0000;
      RunIsGroup(size, version, next, digest, packets[1..]);
      var first, rest := Fragments(size, counter, digest, packets[0]), RunFragments(size, next, digest, packets[1..]);
      FragmentShape(size, LastNumber(size, |packets[0]|), counter, digest, packets[0], 0);
      FragmentsNotEmpty(size, LastNumber(size, |packets[0]|), counter, digest, packets[0], 0);
      GroupConcat(version, first, rest);
      hide Fragments, GroupBytes, LastNumber;
    }
  }

  /** An unsendable packet at the head of a run is never delivered, whatever follows it. */
  lemma UnsendableSpoils(size: nat, version: uint16, counter: uint16, digest: Data -> uint16, packets: seq<Data>,
                         instances: seq<byte>)
    requires 0 < size && version / 0x1000 == 1 && packets != []
    requires forall i :: 0 <= i < |packets| ==> |packets[i]| < 0x1_0000_0000
    requires !Sendable(size, |packets[0]|)
    requires Accepted(instances, Prefixed(version).instance)
    ensures var ps := DecodeStream(WrittenAll(size, version, counter, digest, packets), instances);
            ps == [] || ps[0].payload != packets[0]
  {
    hide DecodePacket, GroupBytes, Fragments;
    var bs, next := packets[0], (counter + 1) % 0x1_0000;
    RunIsGroup(size, version, next, digest, packets[1..]);
    RunIsGroup(size, version, counter, digest, packets);
    var more := RunFragments(size, next, digest, packets[1..]);
    if bs == [] {
      GroupsAreNotEmpty(version, RunFragments(size, counter, digest, packets));
    } else if LastNumber(size, |bs|) > 0xffff {
      WrappedSpoils(size, version, counter, digest, bs, GroupBytes(version, more));
    } else {
      DividedSpoils(size, version, counter, digest, bs, more);
    }
    GroupInstance(version, RunFragments(size, counter, digest, packets));
  }

  /** Of fragments that all carry something, no empty packet is decoded. */
  lemma GroupsAreNotEmpty(version: uint16, fs: seq<Packet>)
    requires version / 0x1000 == 1 && AreFragments(fs) && NotEmpty(fs)
    ensures var r := DecodePacket(GroupBytes(version, fs));
            if r.Done? then |r.value.payload| > 0 else r == Failed(Eof, [])
  {
    hide GroupBytes, DecodePacket;
    var j := FirstFinal(fs);
    if j < |fs| {
      var early, late := fs[..j + 1], fs[j + 1..];
      assert fs == early + late;
      GroupConcat(version, early, late);
      DecodeFirstGroup(version, early, GroupBytes(version, late));
      PartIsSmaller([], early);
      assert [] + early == early;
    } else if fs == [] {
      NoFragmentsNoBytes(version);
    } else {
      DecodeUnfinished(version, fs);
    }
  }

  /** Whatever a group decodes to carries the instance of its prefix. */
  lemma GroupInstance(version: uint16, fs: seq<Packet>)
    requires version / 0x1000 == 1
    ensures var r := DecodePacket(GroupBytes(version, fs)); r.Done? ==> r.value.instance == Prefixed(version).instance
  {
    if fs != [] {
      SplitHead(version, fs, []);
      ReadPreambleOfHead(version, AfterHead(version, fs) + []);
      assert GroupBytes(version, fs) + [] == GroupBytes(version, fs);
    }
  }

  /**
   * A run of sendable Writes decodes to exactly the packets written, in order, numbered on from
   * the counter, whatever bytes follow; and then the decoder goes on with those.
   */
  lemma {:induction false} ReplayThenAnything(size: int, version: uint16, counter: uint16, digest: Data -> uint16,
                                              packets: seq<Data>, t: Data, instances: seq<byte>)
    requires version / 0x1000 == if size <= 0 then 0 else 1
    requires AllSendable(size, packets)
    requires Accepted(instances, Prefixed(version).instance)
    ensures DeliveredAll(DecodeStream(WrittenAll(size, version, counter, digest, packets) + t, instances))
         == Expected(version, counter, packets) + DeliveredAll(DecodeStream(t, instances))
    decreases |packets|
  {
    hide DecodeStream, Sendable, Written;
    if packets == [] {
      assert WrittenAll(size, version, counter, digest, packets) + t == t;
    } else {
      var next := (counter + 1) % 0x1_0000;
      var w, rest := Written(size, version, counter, digest, packets[0]),
                     WrittenAll(size, version, next, digest, packets[1..]);
      Assoc(w, rest, t);
      DecodeFirstWrite(size, version, counter, digest, packets[0], rest + t, instances);
      ReplayThenAnything(size, version, next, digest, packets[1..], t, instances);
      Assoc([Expected(version, counter, packets)[0]], Expected(version, next, packets[1..]),
            DeliveredAll(DecodeStream(t, instances)));
    }
  }

  lemma DecodeFirstWrite(size: int, version: uint16, counter: uint16, digest: Data -> uint16,
                         bs: Data, t: Data, instances: seq<byte>)
    requires version / 0x1000 == if size <= 0 then 0 else 1
    requires |bs| < 0x1_0000_0000 && (size > 0 ==> Sendable(size, |bs|))
    requires Accepted(instances, Prefixed(version).instance)
    ensures DeliveredAll(DecodeStream(Written(size, version, counter, digest, bs) + t, instances))
         == [Delivery(counter, Prefixed(version).version, Prefixed(version).instance, bs)]
            + DeliveredAll(DecodeStream(t, instances))
  {
    hide DecodeStream, WriteElement, ElementBytes, ElementPackets, ValidElement, Sendable, Written;
    WriteIsElement(size, version, counter, digest, bs, instances);
    var e := WriteElement(size, version, counter, digest, bs);
    DecodeElement(e, t, instances);
    var p := ElementPackets(e, instances)[0];
    assert ElementPackets(e, instances) == [p];
    DeliveredAllOfCons(p, DecodeStream(t, instances));
  }

  /**
   * End to end for the replayer, in either protocol: a run of Writes decodes to exactly the
   * packets written, in order, numbered on from the counter.
   */
  lemma ReplayDecodes(size: int, version: uint16, counter: uint16, digest: Data -> uint16,
                      packets: seq<Data>, instances: seq<byte>)
    requires version / 0x1000 == if size <= 0 then 0 else 1
    requires AllSendable(size, packets)
    requires Accepted(instances, Prefixed(version).instance)
    ensures DeliveredAll(DecodeStream(WrittenAll(size, version, counter, digest, packets), instances))
         == Expected(version, counter, packets)
  {
    hide DecodePacket, WrittenAll, Sendable, Expected;
    var w := WrittenAll(size, version, counter, digest, packets);
    ReplayThenAnything(size, version, counter, digest, packets, [], instances);
    assert w + [] == w;
    NothingDecodesToNothing(instances);
  }

  lemma NothingDecodesToNothing(instances: seq<byte>)
    ensures DecodeStream([], instances) == []
  {
  }

  /**
   * With chunks, a run of packets arrives as written exactly when every single one of them can
   * be sent with that chunk size. An empty packet never can: nothing is sent for it.
   */
  lemma {:induction false} ReplayExact(size: nat, version: uint16, counter: uint16, digest: Data -> uint16,
                                       packets: seq<Data>, instances: seq<byte>)
    requires 0 < size && version / 0x1000 == 1
    requires forall i :: 0 <= i < |packets| ==> |packets[i]| < 0x1_0000_0000
    requires Accepted(instances, Prefixed(version).instance)
    ensures DeliveredAll(DecodeStream(WrittenAll(size, version, counter, digest, packets), instances))
              == Expected(version, counter, packets)
            <==> forall i :: 0 <= i < |packets| ==> Sendable(size, |packets[i]|)
    decreases |packets|
  {
    hide DecodeStream, WrittenAll, Sendable, LastNumber, Expected, DeliveredAll;
    if packets == [] {
      ReplayDecodes(size, version, counter, digest, packets, instances);
    } else if Sendable(size, |packets[0]|) {
      var next := (counter + 1) % 0x1_0000;
      var rest := WrittenAll(size, version, next, digest, packets[1..]);
      FirstOfAll(size, version, counter, digest, packets);
      DecodeFirstWrite(size, version, counter, digest, packets[0], rest, instances);
      ReplayExact(size, version, next, digest, packets[1..], instances);
      ExpectedFirst(version, counter, packets);
      SameTail(Delivery(counter, Prefixed(version).version, Prefixed(version).instance, packets[0]),
               DeliveredAll(DecodeStream(rest, instances)), Expected(version, next, packets[1..]));
      assert forall i :: 1 <= i < |packets| ==> packets[i] == packets[1..][i - 1];
    } else {
      UnsendableSpoils(size, version, counter, digest, packets, instances);
      NotAsExpected(DecodeStream(WrittenAll(size, version, counter, digest, packets), instances), version, counter,
                    packets);
      assert !Sendable(size, |packets[0]|);
    }
  }

  lemma NotAsExpected(ps: seq<Packet>, version: uint16, counter: uint16, packets: seq<Data>)
    requires packets != [] && (ps == [] || ps[0].payload != packets[0])
    ensures DeliveredAll(ps) != Expected(version, counter, packets)
  {
    assert ps != [] ==> DeliveredAll(ps)[0] == Delivered(ps[0]);
    assert Expected(version, counter, packets)[0].payload == packets[0];
  }

  lemma ExpectedFirst(version: uint16, counter: uint16, packets: seq<Data>)
    requires packets != []
    ensures Expected(version, counter, packets)
         == [Delivery(counter, Prefixed(version).version, Prefixed(version).instance, packets[0])]
            + Expected(version, (counter + 1) % 0x1_0000, packets[1..])
  {
  }

  lemma FirstOfAll(size: int, version: uint16, counter: uint16, digest: Data -> uint16, packets: seq<Data>)
    requires packets != [] && forall i :: 0 <= i < |packets| ==> |packets[i]| < 0x1_0000_0000
    ensures WrittenAll(size, version, counter, digest, packets)
         == Written(size, version, counter, digest, packets[0])
            + WrittenAll(size, version, (counter + 1) % 0x1_0000, digest, packets[1..])
  {
  }

  lemma SameTail<T>(x: T, a: seq<T>, b: seq<T>)
    ensures [x] + a == [x] + b <==> a == b
  {
    assert ([x] + a)[1..] == a && ([x] + b)[1..] == b;
  }

  predicate HasFinal(fs: seq<Packet>) {
    exists i :: 0 <= i < |fs| && IsFinal(fs[i])
  }

  /** Some fragment of a packet looks final, unless there is none or the size divides the length. */
  lemma FinalExactly(size: nat, counter: uint16, digest: Data -> uint16, bs: Data)
    requires 0 < size && |bs| < 0x1_0000_0000
    ensures HasFinal(Fragments(size, counter, digest, bs)) <==> bs != [] && !Divided(size, |bs|)
  {
    var fs, c := Fragments(size, counter, digest, bs), LastNumber(size, |bs|);
    FragmentShape(size, c, counter, digest, bs, 0);
    FragmentCountExact(size, counter, digest, bs);
    if bs != [] {
      if c > 0xffff {
        var k := EarlyFinal(fs, c);
        assert IsFinal(fs[..k + 1][k]) && fs[..k + 1][k] == fs[k];
      } else if |bs| % size != 0 {
        SendableIsComplete(size, counter, digest, bs);
        assert IsFinal(fs[|fs| - 1]);
      } else {
        DividedIsUnfinished(size, counter, digest, bs);
      }
    }
  }

  lemma FinalInEither(a: seq<Packet>, b: seq<Packet>)
    ensures HasFinal(a + b) <==> HasFinal(a) || HasFinal(b)
  {
    if HasFinal(a) {
      var i :| 0 <= i < |a| && IsFinal(a[i]);
      assert (a + b)[i] == a[i];
    }
    if HasFinal(b) {
      var i :| 0 <= i < |b| && IsFinal(b[i]);
      assert (a + b)[|a| + i] == b[i];
    }
  }

  /** All packets of a run are empty or evenly divided. */
  predicate AllDivided(size: nat, packets: seq<Data>)
    requires 0 < size
  {
    forall i :: 0 <= i < |packets| ==> packets[i] == [] || Divided(size, |packets[i]|)
  }

  lemma {:induction false} RunFinalExactly(size: nat, counter: uint16, digest: Data -> uint16, packets: seq<Data>)
    requires 0 < size
    requires forall i :: 0 <= i < |packets| ==> |packets[i]| < 0x1_0000_0000
    ensures HasFinal(RunFragments(size, counter, digest, packets)) <==> !AllDivided(size, packets)
    decreases |packets|
  {
    hide Fragments, Divided;
    if packets == [] {
    } else {
      var next := (counter + 1) % 0x1_0000;
      FinalExactly(size, counter, digest, packets[0]);
      RunFinalExactly(size, next, digest, packets[1..]);
      FinalInEither(Fragments(size, counter, digest, packets[0]), RunFragments(size, next, digest, packets[1..]));
      assert forall i :: 1 <= i < |packets| ==> packets[i] == packets[1..][i - 1];
      assert forall i :: 0 <= i < |packets| - 1 ==> packets[1..][i] == packets[i + 1];
    }
  }

  lemma NoFragmentsNoBytes(version: uint16)
    ensures GroupBytes(version, []) == [] && DecodePacket([]) == Failed(Eof, [])
  {
  }

  /**
   * A replay in chunks is written in full and yet delivers nothing at all exactly when every
   * packet is empty, or divided by the chunk size into at most 65535 chunks.
   */
  lemma NothingArrivesExactly(size: nat, version: uint16, counter: uint16, digest: Data -> uint16,
                              packets: seq<Data>, instances: seq<byte>)
    requires 0 < size && version / 0x1000 == 1
    requires forall i :: 0 <= i < |packets| ==> |packets[i]| < 0x1_0000_0000
    requires Accepted(instances, Prefixed(version).instance)
    ensures DecodeStream(WrittenAll(size, version, counter, digest, packets), instances) == [] <==>
            forall i :: 0 <= i < |packets| ==>
              packets[i] == [] || (|packets[i]| % size == 0 && |packets[i]| / size <= 0xffff)
  {
    hide DecodePacket, RunFragments, WrittenAll, GroupBytes;
    RunIsGroup(size, version, counter, digest, packets);
    RunFinalExactly(size, counter, digest, packets);
    var fs := RunFragments(size, counter, digest, packets);
    var j := FirstFinal(fs);
    if j < |fs| {
      assert IsFinal(fs[j]);
      var early, late := fs[..j + 1], fs[j + 1..];
      assert fs == early + late;
      GroupConcat(version, early, late);
      DecodeFirstGroup(version, early, GroupBytes(version, late));
      GroupInstance(version, fs);
    } else if fs == [] {
      NoFragmentsNoBytes(version);
    } else {
      DecodeUnfinished(version, fs);
    }
  }

  /** A replay that breaks off in the middle of a write delivers the first packets, unspoiled. */
  lemma BrokenReplayDeliversPrefix(size: int, version: uint16, counter: uint16, digest: Data -> uint16,
                                   packets: seq<Data>, k: nat, instances: seq<byte>)
    requires version / 0x1000 == if size <= 0 then 0 else 1
    requires AllSendable(size, packets)
    requires Accepted(instances, Prefixed(version).instance)
    ensures DeliveredAll(DecodeStream(Take(WrittenAll(size, version, counter, digest, packets), k), instances))
            <= Expected(version, counter, packets)
  {
    hide DecodeStream, WrittenAll, Sendable;
    var w := WrittenAll(size, version, counter, digest, packets);
    ReplayDecodes(size, version, counter, digest, packets, instances);
    if k <= |w| {
      CutStreamEmitsPrefix(w, k, instances);
      DeliveredPrefix(DecodeStream(Take(w, k), instances), DecodeStream(w, instances));
    }
  }

  // ----- replays over a network that fails -----

  /** What goes out: after a temporary failure the replay goes on with the next packet. */
  function Outflow(size: int, version: uint16, counter: uint16, digest: Data -> uint16,
                   packets: seq<Data>, faults: seq<Fault>): Data
    requires forall i :: 0 <= i < |packets| ==> |packets[i]| < 0x1_0000_0000
    decreases |packets|
  {
    if packets == [] then []
    else
      var w := Written(size, version, counter, digest, packets[0]);
      Part(w, faults)
      + if ResultOf(w, faults) == Cut(false) then []
        else Outflow(size, version, (counter + 1) % 0x1_0000, digest, packets[1..], Remaining(w, faults))
  }

  /** How many packets go out in full before the first fault. */
  function Intact(size: int, version: uint16, counter: uint16, digest: Data -> uint16,
                  packets: seq<Data>, faults: seq<Fault>): (n: nat)
    requires forall i :: 0 <= i < |packets| ==> |packets[i]| < 0x1_0000_0000
    ensures n <= |packets|
    decreases |packets|
  {
    if packets == [] then 0
    else
      var w := Written(size, version, counter, digest, packets[0]);
      if !Fits(w, faults) then 0
      else 1 + Intact(size, version, (counter + 1) % 0x1_0000, digest, packets[1..], Remaining(w, faults))
  }

  lemma {:induction false} OutflowStarts(size: int, version: uint16, counter: uint16, digest: Data -> uint16,
                                         packets: seq<Data>, faults: seq<Fault>) returns (t: Data)
    requires forall i :: 0 <= i < |packets| ==> |packets[i]| < 0x1_0000_0000
    ensures var n := Intact(size, version, counter, digest, packets, faults);
            Outflow(size, version, counter, digest, packets, faults)
            == WrittenAll(size, version, counter, digest, packets[..n]) + t
    decreases |packets|
  {
    hide Written, Remaining, Part, ResultOf, Fits;
    t := [];
    if packets == [] {
    } else {
      var w, next := Written(size, version, counter, digest, packets[0]), (counter + 1) % 0x1_0000;
      if Fits(w, faults) {
        t := OutflowStarts(size, version, next, digest, packets[1..], Remaining(w, faults));
        var n := Intact(size, version, next, digest, packets[1..], Remaining(w, faults));
        assert packets[..n + 1][1..] == packets[1..][..n];
        WholeIfFits(w, faults);
        Assoc(w, WrittenAll(size, version, next, digest, packets[1..][..n]), t);
      } else {
        t := Outflow(size, version, counter, digest, packets, faults);
        assert [] + t == t;
      }
    }
  }

  /**
   * Whatever faults there are and however the replay goes on after them, all packets written
   * before the first fault are delivered, first and unspoiled.
   */
  lemma FaultyReplayStarts(size: int, version: uint16, counter: uint16, digest: Data -> uint16,
                           packets: seq<Data>, faults: seq<Fault>, instances: seq<byte>)
    requires version / 0x1000 == if size <= 0 then 0 else 1
    requires AllSendable(size, packets)
    requires Accepted(instances, Prefixed(version).instance)
    ensures Expected(version, counter, packets[..Intact(size, version, counter, digest, packets, faults)])
            <= DeliveredAll(DecodeStream(Outflow(size, version, counter, digest, packets, faults), instances))
  {
    hide DecodeStream, Sendable, Outflow, Intact, WrittenAll, Expected;
    var n := Intact(size, version, counter, digest, packets, faults);
    var t := OutflowStarts(size, version, counter, digest, packets, faults);
    ReplayThenAnything(size, version, counter, digest, packets[..n], t, instances);
  }

  /** When the first fault is a permanent one, what goes out is simply cut off there. */
  lemma {:induction false} PermanentFaultCuts(size: int, version: uint16, counter: uint16, digest: Data -> uint16,
                                              packets: seq<Data>, faults: seq<Fault>)
    requires forall i :: 0 <= i < |packets| ==> |packets[i]| < 0x1_0000_0000
    requires faults == [] || !faults[0].temporary
    ensures Outflow(size, version, counter, digest, packets, faults)
         == Part(WrittenAll(size, version, counter, digest, packets), faults)
    decreases |packets|
  {
    hide Written;
    if packets == [] {
    } else {
      var w, next := Written(size, version, counter, digest, packets[0]), (counter + 1) % 0x1_0000;
      var rest := WrittenAll(size, version, next, digest, packets[1..]);
      if Fits(w, faults) {
        PermanentFaultCuts(size, version, next, digest, packets[1..], Remaining(w, faults));
        SendInTwo(w, rest, faults);
        WholeIfFits(w, faults);
      } else {
        CutBefore(w, rest, faults);
      }
    }
  }

  // ----- what goes out, without the replayer -----

  /**
   * What one write puts on the network: `used` faults have happened before it, and `since` bytes
   * have gone out after the last of them. Fault j happens once its `room` of bytes has gone out
   * since fault j - 1, and cuts the buffer that would exceed it.
   */
  ghost predicate IsWrittenPart(w: Data, faults: seq<Fault>, used: nat, since: nat,
                                part: Data, used': nat, since': nat)
  {
    if used >= |faults| || since + |w| <= faults[used].room
    then part == w && used' == used && since' == since + |w|
    else
      && since <= faults[used].room
      && part == w[..faults[used].room - since] && used' == used + 1 && since' == 0
  }

  /** Buffer i was cut by a permanent fault. */
  ghost predicate EndsAt(faults: seq<Fault>, used: seq<nat>, i: nat)
    requires i + 1 < |used|
  {
    used[i] < used[i + 1] && used[i] < |faults| && !faults[used[i]].temporary
  }

  /**
   * A transmission of a list of buffers: every one of them is attempted, in order, and puts its
   * part on the network, unless a permanent fault has ended the list.
   */
  ghost predicate IsTransmission(ws: seq<Data>, faults: seq<Fault>, parts: seq<Data>, used: seq<nat>, since: seq<nat>) {
    && |parts| <= |ws| && |used| == |since| == |parts| + 1
    && (forall i :: 0 <= i < |parts| ==>
          IsWrittenPart(ws[i], faults, used[i], since[i], parts[i], used[i + 1], since[i + 1]))
    && (forall i :: 0 <= i < |parts| - 1 ==> !EndsAt(faults, used, i))
    && (|parts| < |ws| ==> |parts| > 0 && EndsAt(faults, used, |parts| - 1))
  }

  /** The writes of a replay: packet i with its own counter, whatever happened to those before it. */
  ghost predicate AreWrites(ws: seq<Data>, size: int, version: uint16, counter: uint16, digest: Data -> uint16,
                            packets: seq<Data>)
  {
    && |ws| == |packets|
    && forall i :: 0 <= i < |ws| ==>
         |packets[i]| < 0x1_0000_0000 && ws[i] == Written(size, version, (counter + i) % 0x1_0000, digest, packets[i])
  }

  /** The faults to come, `since` bytes after the last of those that have happened. */
  function Ahead(faults: seq<Fault>, used: nat, since: nat): seq<Fault>
    requires used < |faults| ==> since <= faults[used].room
  {
    if used >= |faults| then []
    else [Fault(faults[used].room - since, faults[used].temporary)] + faults[used + 1..]
  }

  /** The faults to come after the one at hand. */
  lemma AheadOfNext(faults: seq<Fault>, used: nat, since: nat)
    requires used < |faults| && since <= faults[used].room
    ensures var ahead := Ahead(faults, used, since);
            && ahead != [] && ahead[0] == Fault(faults[used].room - since, faults[used].temporary)
            && ahead[1..] == Ahead(faults, used + 1, 0)
  {
    if used + 1 < |faults| {
      assert faults[used + 1..] == [faults[used + 1]] + faults[used + 2..];
    }
  }

  lemma WholeOfAhead(w: Data, faults: seq<Fault>, used: nat, since: nat)
    requires used < |faults| ==> since + |w| <= faults[used].room
    ensures var ahead := Ahead(faults, used, since);
            && Part(w, ahead) == w && Remaining(w, ahead) == Ahead(faults, used, since + |w|)
            && ResultOf(w, ahead) == Whole
  {
  }

  lemma CutOfAhead(w: Data, faults: seq<Fault>, used: nat, since: nat)
    requires used < |faults| && since <= faults[used].room < since + |w|
    ensures var ahead := Ahead(faults, used, since);
            && Part(w, ahead) == w[..faults[used].room - since] && Remaining(w, ahead) == Ahead(faults, used + 1, 0)
            && ResultOf(w, ahead) == Cut(faults[used].temporary)
  {
    hide Ahead;
    AheadOfNext(faults, used, since);
  }

  lemma PartOfAhead(w: Data, faults: seq<Fault>, used: nat, since: nat) returns (used': nat, since': nat)
    requires used < |faults| ==> since <= faults[used].room
    ensures IsWrittenPart(w, faults, used, since, Part(w, Ahead(faults, used, since)), used', since')
    ensures used' < |faults| ==> since' <= faults[used'].room
    ensures Remaining(w, Ahead(faults, used, since)) == Ahead(faults, used', since')
    ensures ResultOf(w, Ahead(faults, used, since)) == Cut(false) <==>
              used < used' && used < |faults| && !faults[used].temporary
  {
    hide Ahead, Part, Remaining, ResultOf;
    if used >= |faults| || since + |w| <= faults[used].room {
      used', since' := used, since + |w|;
      WholeOfAhead(w, faults, used, since);
    } else {
      used', since' := used + 1, 0;
      CutOfAhead(w, faults, used, since);
    }
  }

  lemma TransmissionOfMore(w: Data, part: Data, ws: seq<Data>, faults: seq<Fault>, u: nat, s: nat,
                           parts: seq<Data>, used: seq<nat>, since: seq<nat>)
    requires IsTransmission(ws, faults, parts, used, since)
    requires IsWrittenPart(w, faults, u, s, part, used[0], since[0])
    requires !(u < used[0] && u < |faults| && !faults[u].temporary)
    ensures IsTransmission([w] + ws, faults, [part] + parts, [u] + used, [s] + since)
  {
    hide IsWrittenPart;
    var ws', parts', used', since' := [w] + ws, [part] + parts, [u] + used, [s] + since;
    forall i | 0 <= i < |parts'|
      ensures IsWrittenPart(ws'[i], faults, used'[i], since'[i], parts'[i], used'[i + 1], since'[i + 1])
    {
      if i > 0 {
        assert IsWrittenPart(ws[i - 1], faults, used[i - 1], since[i - 1], parts[i - 1], used[i], since[i]);
      }
    }
    forall i | 0 <= i < |parts'| - 1
      ensures !EndsAt(faults, used', i)
    {
      if i > 0 {
        assert !EndsAt(faults, used, i - 1);
      }
    }
    if |parts| < |ws| {
      assert EndsAt(faults, used, |parts| - 1);
    }
  }

  lemma {:induction false} OutflowFrom(size: int, version: uint16, counter: uint16, digest: Data -> uint16,
                                       packets: seq<Data>, ws: seq<Data>, faults: seq<Fault>, u: nat, s: nat)
    returns (parts: seq<Data>, used: seq<nat>, since: seq<nat>)
    requires AreWrites(ws, size, version, counter, digest, packets)
    requires u < |faults| ==> s <= faults[u].room
    ensures IsTransmission(ws, faults, parts, used, since) && used[0] == u && since[0] == s
    ensures Outflow(size, version, counter, digest, packets, Ahead(faults, u, s)) == Concat(parts)
    decreases |packets|
  {
    hide Written, Part, Remaining, ResultOf, Ahead, IsWrittenPart;
    if packets == [] {
      parts, used, since := [], [u], [s];
    } else {
      var w, next := ws[0], (counter + 1) % 0x1_0000;
      assert w == Written(size, version, counter, digest, packets[0]);
      WritesAfterFirst(ws, size, version, counter, digest, packets);
      var u', s' := PartOfAhead(w, faults, u, s);
      var part := Part(w, Ahead(faults, u, s));
      assert ws == [w] + ws[1..];
      if ResultOf(w, Ahead(faults, u, s)) == Cut(false) {
        parts, used, since := [part], [u, u'], [s, s'];
        assert Concat([part]) == part + Concat([]) == part;
        OneAndOver(ws, faults, part, u, s, u', s');
      } else {
        parts, used, since := OutflowFrom(size, version, next, digest, packets[1..], ws[1..], faults, u', s');
        TransmissionOfMore(w, part, ws[1..], faults, u, s, parts, used, since);
        parts, used, since := [part] + parts, [u] + used, [s] + since;
      }
    }
  }

  lemma OneAndOver(ws: seq<Data>, faults: seq<Fault>, part: Data, u: nat, s: nat, u': nat, s': nat)
    requires ws != [] && IsWrittenPart(ws[0], faults, u, s, part, u', s')
    requires u < u' && u < |faults| && !faults[u].temporary
    ensures IsTransmission(ws, faults, [part], [u, u'], [s, s'])
  {
    assert EndsAt(faults, [u, u'], 0);
  }

  lemma WritesAfterFirst(ws: seq<Data>, size: int, version: uint16, counter: uint16, digest: Data -> uint16,
                         packets: seq<Data>)
    requires AreWrites(ws, size, version, counter, digest, packets) && packets != []
    ensures AreWrites(ws[1..], size, version, (counter + 1) % 0x1_0000, digest, packets[1..])
  {
    hide Written;
    var next := (counter + 1) % 0x1_0000;
    forall i | 0 <= i < |ws[1..]|
      ensures |packets[1..][i]| < 0x1_0000_0000
      ensures ws[1..][i] == Written(size, version, (next + i) % 0x1_0000, digest, packets[1..][i])
    {
      assert ws[1..][i] == ws[i + 1] && packets[1..][i] == packets[i + 1];
      WrapOnce(counter, i);
    }
  }

  lemma WrapOnce(counter: uint16, i: nat)
    ensures ((counter + 1) % 0x1_0000 + i) % 0x1_0000 == (counter + (i + 1)) % 0x1_0000
  {
    if counter == 0xffff {
      AddMultiple(i, 1, 0x1_0000);
    }
  }

  /**
   * A replay over a network with any faults, temporary and permanent: its bytes are the parts of
   * a transmission of all its writes, which only a permanent fault ends before the last packet.
   */
  lemma OutflowIsTransmission(size: int, version: uint16, counter: uint16, digest: Data -> uint16,
                              packets: seq<Data>, ws: seq<Data>, faults: seq<Fault>)
    returns (parts: seq<Data>, used: seq<nat>, since: seq<nat>)
    requires AreWrites(ws, size, version, counter, digest, packets)
    ensures IsTransmission(ws, faults, parts, used, since) && used[0] == 0 && since[0] == 0
    ensures Outflow(size, version, counter, digest, packets, faults) == Concat(parts)
    ensures (forall j :: 0 <= j < |faults| ==> faults[j].temporary) ==> |parts| == |packets|
  {
    hide IsWrittenPart, Outflow;
    assert Ahead(faults, 0, 0) == faults;
    parts, used, since := OutflowFrom(size, version, counter, digest, packets, ws, faults, 0, 0);
  }

  lemma {:induction false} DeliveredPrefix(a: seq<Packet>, b: seq<Packet>)
    requires a <= b
    ensures DeliveredAll(a) <= DeliveredAll(b)
  {
    if a == [] {
    } else {
      assert a[0] == b[0] && a[1..] <= b[1..];
      DeliveredPrefix(a[1..], b[1..]);
    }
  }
}
