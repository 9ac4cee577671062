/** From the producers' packets to what the decoder emits, over every run of the protocol. */
module EndToEnd {
  import opened Bytes
  import opened Forward
  import opened ForwardRuns
  import opened Plugin
  import opened Proto
  import opened Streams
  import opened Truncation

  ghost predicate ArePackets(s: State, ids: seq<nat>) {
    forall i :: 0 <= i < |ids| ==> ids[i] < |s.packets| && IsPacket(s.packets[ids[i]])
  }

  /** The packets of a list of buffers, as the decoder should emit them. */
  ghost function PacketsOf(s: State, ids: seq<nat>): seq<Packet>
    requires ArePackets(s, ids)
  {
    if ids == [] then []
    else
      var k := ids[|ids| - 1];
      PacketsOf(s, ids[..|ids| - 1]) + [PluginPacket(s.missionMode, k % 0x1_0000, s.packets[k])]
  }

  lemma {:induction false} DecodeWholeFrames(s: State, ids: seq<nat>, t: Data, instances: seq<byte>)
    requires Numbered(s) && ArePackets(s, ids)
    ensures DecodeStream(Flat(s.buffers, ids) + t, instances)
         == (if Accepted(instances, s.missionMode % 0x100) then PacketsOf(s, ids) else []) + DecodeStream(t, instances)
  {
    hide DecodeStream, PluginPacket, PluginFrame, Accepted;
    if ids == [] {
      assert Flat(s.buffers, ids) + t == t;
    } else {
      var front, k := ids[..|ids| - 1], ids[|ids| - 1];
      var p := PluginPacket(s.missionMode, k % 0x1_0000, s.packets[k]);
      DecodeOneFrame(s, k, t, instances);
      DecodeWholeFrames(s, front, s.buffers[k] + t, instances);
      Assoc(Flat(s.buffers, front), s.buffers[k], t);
      Assoc(PacketsOf(s, front), [p], DecodeStream(t, instances));
    }
  }

  lemma DecodeOneFrame(s: State, k: nat, t: Data, instances: seq<byte>)
    requires Numbered(s) && k < |s.packets|
    ensures var p := PluginPacket(s.missionMode, k % 0x1_0000, s.packets[k]);
            DecodeStream(s.buffers[k] + t, instances)
            == (if Accepted(instances, s.missionMode % 0x100) then [p] else []) + DecodeStream(t, instances)
  {
    hide DecodeStream, Frame;
    var p := PluginPacket(s.missionMode, k % 0x1_0000, s.packets[k]);
    PluginFrameDecodes(s.missionMode, k % 0x1_0000, s.packets[k], t);
    DecodeElement(Single(p), t, instances);
  }

  lemma PartEmitsNothing(s: State, part: Data, instances: seq<byte>)
    requires Numbered(s) && IsStrictPart(s.buffers, part)
    ensures DecodeStream(part, instances) == []
  {
    if part != [] {
      var id :| 0 <= id < |s.buffers| && part < s.buffers[id];
      var p := PluginPacket(s.missionMode, id % 0x1_0000, s.packets[id]);
      assert part == Take(Frame(p), |part|);
      PluginFrameDecodes(s.missionMode, id % 0x1_0000, s.packets[id], []);
      hide DecodeStream, Frame;
      CutFrameEmitsNothing(p, |part|, instances);
    }
  }

  /**
   * For every interleaving of producers, displacements, partial sends, failures and
   * reconnects, each connection carries whole frames and at most one strict part of a frame
   * at its end, and decodes to exactly the packets of those whole frames, in order -- or to
   * nothing, if the mission mode is not an accepted instance.
   */
  lemma ConnectionDecodes(s: State, c: Connection, instances: seq<byte>)
    requires Reachable(s) && c in s.connections
    ensures ArePackets(s, c.sent)
    ensures c.bytes == Flat(s.buffers, c.sent) + c.part && IsStrictPart(s.buffers, c.part)
    ensures DecodeStream(c.bytes, instances)
         == if Accepted(instances, s.missionMode % 0x100) then PacketsOf(s, c.sent) else []
  {
    hide Reachable, Owned, Ordered, DecodeStream, Accepted, PluginFrame;
    ReachableInvariant(s);
    DecodeWholeFrames(s, c.sent, c.part, instances);
    PartEmitsNothing(s, c.part, instances);
  }

  /** The same without naming the history: only the bytes on the wire and the packets produced. */
  lemma WireCarriesFrames(s: State, c: Connection, instances: seq<byte>)
    requires Reachable(s) && c in s.connections && Accepted(instances, s.missionMode % 0x100)
    ensures exists ids, part ::
              && ArePackets(s, ids)
              && c.bytes == Flat(s.buffers, ids) + part
              && IsStrictPart(s.buffers, part)
              && DecodeStream(c.bytes, instances) == PacketsOf(s, ids)
  {
    hide Reachable, DecodeStream, Flat, PacketsOf, IsStrictPart;
    ConnectionDecodes(s, c, instances);
  }

  // ----- runs without a dequeue -----

  /** No step of the run takes a buffer out of the queue, other than to make room for a new one. */
  predicate NothingDequeued(es: seq<Event>) {
    forall i :: 0 <= i < |es| ==> !es[i].Poll? && !es[i].Clear?
  }

  lemma {:induction false} EnqueueAllOfMore<T>(q: seq<T>, size: nat, xs: seq<T>, x: T)
    ensures EnqueueAll(q, size, xs + [x]) == Enqueue(EnqueueAll(q, size, xs), size, x)
    decreases |xs|
  {
    if xs == [] {
      assert xs + [x] == [x] && [x][1..] == [];
    } else {
      assert (xs + [x])[1..] == xs[1..] + [x];
      EnqueueAllOfMore(Enqueue(q, size, xs[0]), size, xs[1..], x);
    }
  }

  /** Between the two states nothing was pushed and the queue is the same, or one buffer was pushed. */
  ghost predicate IsPushOrNothing(s: State, s': State) {
    && s'.queueSize == s.queueSize
    && ((s'.queue == s.queue && s'.pushed == s.pushed)
        || exists id :: s'.queue == Enqueue(s.queue, s.queueSize, id) && s'.pushed == s.pushed + [id])
  }

  /** Of all steps but Poll and Clear, only Push touches the queue. */
  lemma OnlyPushEnqueues(s: State, e: Event)
    requires !e.Poll? && !e.Clear?
    ensures IsPushOrNothing(s, Next(s, e))
  {
    hide PluginFrame, Enqueue;
    if e.Push? && At(s, e.thread).Admitted? {
      assert Next(s, e).pushed == s.pushed + [At(s, e.thread).id];
    }
  }

  /** Pushes since a state s, and one more. */
  lemma OneMorePush(s: State, s1: State, s2: State)
    requires s.pushed <= s1.pushed && s1.queueSize == s.queueSize
    requires s1.queue == EnqueueAll(s.queue, s.queueSize, s1.pushed[|s.pushed|..])
    requires IsPushOrNothing(s1, s2)
    ensures s.pushed <= s2.pushed && s2.queueSize == s.queueSize
    ensures s2.queue == EnqueueAll(s.queue, s.queueSize, s2.pushed[|s.pushed|..])
  {
    hide Enqueue, EnqueueAll;
    if s2.pushed != s1.pushed {
      var id :| s2.queue == Enqueue(s1.queue, s.queueSize, id) && s2.pushed == s1.pushed + [id];
      var more := s1.pushed[|s.pushed|..];
      assert s2.pushed[|s.pushed|..] == more + [id];
      EnqueueAllOfMore(s.queue, s.queueSize, more, id);
    }
  }

  lemma {:induction false} RunEnqueuesAll(s: State, es: seq<Event>)
    requires NothingDequeued(es)
    ensures var s' := Run(s, es);
            && s'.queueSize == s.queueSize
            && s.pushed <= s'.pushed
            && s'.queue == EnqueueAll(s.queue, s.queueSize, s'.pushed[|s.pushed|..])
  {
    hide Next, Enqueue;
    if es == [] {
    } else {
      var front, e := es[..|es| - 1], es[|es| - 1];
      RunEnqueuesAll(s, front);
      OnlyPushEnqueues(Run(s, front), e);
      OneMorePush(s, Run(s, front), Run(s, es));
    }
  }

  /**
   * Section 6.5 of the plug-in's documentation, for every run: as long as nothing is dequeued,
   * whatever else the threads and the network do, a bounded queue holds exactly the last of
   * what it held and all that was pushed since, and an unbounded one holds all of it.
   */
  lemma PushesKeepLast(s: State, es: seq<Event>)
    requires Bounded(s) && NothingDequeued(es)
    ensures var s' := Run(s, es);
            && s.pushed <= s'.pushed
            && var all := s.queue + s'.pushed[|s.pushed|..];
               s'.queue == if s.queueSize == 0 then all else Last(all, s.queueSize)
  {
    RunEnqueuesAll(s, es);
    EnqueueAllKeepsLast(s.queue, s.queueSize, Run(s, es).pushed[|s.pushed|..]);
  }

  /** One thread's call of handlePacket that finds the client connected. */
  function CallSteps(t: nat, packet: Data): seq<Event> {
    [Produce(t, packet), ReadActive(t), ReadConnected(t), Push(t)]
  }

  function CallsSteps(t: nat, packets: seq<Data>): seq<Event> {
    if packets == [] then [] else CallsSteps(t, packets[..|packets| - 1]) + CallSteps(t, packets[|packets| - 1])
  }

  /** The numbers that the next `n` packets will get. */
  function NextNumbers(s: State, n: nat): seq<nat> {
    seq(n, i => |s.packets| + i)
  }

  lemma {:induction false} RunConcat(s: State, a: seq<Event>, b: seq<Event>)
    ensures Run(s, a + b) == Run(Run(s, a), b)
  {
    hide Next;
    if b == [] {
      assert a + b == a;
    } else {
      assert (a + b)[..|a + b| - 1] == a + b[..|b| - 1];
      RunConcat(s, a, b[..|b| - 1]);
    }
  }

  lemma CallPushes(s: State, t: nat, packet: Data)
    requires s.active && s.connected && At(s, t).Idle? && IsPacket(packet)
    ensures var s' := Run(s, CallSteps(t, packet));
            && s'.active && s'.connected && At(s', t).Idle?
            && |s'.packets| == |s.packets| + 1
            && s'.pushed == s.pushed + [|s.packets|]
  {
    hide PluginFrame, Enqueue, Replace;
    var a, b, c := Produce(t, packet), ReadActive(t), ReadConnected(t);
    var s1 := Next(s, a);
    var s2 := Next(s1, b);
    var s3 := Next(s2, c);
    assert At(s1, t) == Holding(|s.packets|);
    assert At(s2, t) == SawActive(|s.packets|);
    assert At(s3, t) == Admitted(|s.packets|);
    assert Run(s, [a]) == s1 by { assert [a][..0] == []; }
    assert Run(s, [a, b]) == s2 by { assert [a, b][..1] == [a]; }
    assert Run(s, [a, b, c]) == s3 by { assert [a, b, c][..2] == [a, b]; }
    assert CallSteps(t, packet)[..3] == [a, b, c];
  }

  /** The state after `n` calls of a thread while connected. */
  ghost predicate HasPushed(s: State, s': State, t: nat, n: nat) {
    && s'.active && s'.connected && At(s', t).Idle?
    && |s'.packets| == |s.packets| + n
    && s'.pushed == s.pushed + NextNumbers(s, n)
  }

  lemma OneMoreCall(s: State, s1: State, s2: State, t: nat, n: nat)
    requires HasPushed(s, s1, t, n)
    requires s2.active && s2.connected && At(s2, t).Idle?
    requires |s2.packets| == |s1.packets| + 1 && s2.pushed == s1.pushed + [|s1.packets|]
    ensures HasPushed(s, s2, t, n + 1)
  {
    assert NextNumbers(s, n + 1) == NextNumbers(s, n) + [|s.packets| + n];
  }

  lemma {:induction false} CallsPush(s: State, t: nat, packets: seq<Data>)
    requires s.active && s.connected && At(s, t).Idle? && forall p :: p in packets ==> IsPacket(p)
    ensures HasPushed(s, Run(s, CallsSteps(t, packets)), t, |packets|)
  {
    hide Next, CallSteps, IsPacket;
    if packets == [] {
      assert s.pushed == s.pushed + NextNumbers(s, 0);
    } else {
      var front, p := packets[..|packets| - 1], packets[|packets| - 1];
      CallsPush(s, t, front);
      MoreCalls(s, t, front, p);
    }
  }

  lemma MoreCalls(s: State, t: nat, front: seq<Data>, p: Data)
    requires HasPushed(s, Run(s, CallsSteps(t, front)), t, |front|) && IsPacket(p)
    ensures HasPushed(s, Run(s, CallsSteps(t, front) + CallSteps(t, p)), t, |front| + 1)
  {
    hide Next, Run, CallSteps, CallsSteps, NextNumbers, IsPacket;
    var s1 := Run(s, CallsSteps(t, front));
    RunConcat(s, CallsSteps(t, front), CallSteps(t, p));
    CallPushes(s1, t, p);
    OneMoreCall(s, s1, Run(s1, CallSteps(t, p)), t, |front|);
  }

  lemma {:induction false} CallsDequeueNothing(t: nat, packets: seq<Data>)
    ensures NothingDequeued(CallsSteps(t, packets))
  {
    if packets == [] {
    } else {
      CallsDequeueNothing(t, packets[..|packets| - 1]);
    }
  }

  /**
   * The documented test itself, for any number of packets and any bound: one thread forwards
   * them all at once while connected, and only the last ones are still queued.
   */
  lemma CallsKeepLast(s: State, t: nat, packets: seq<Data>)
    requires Bounded(s) && s.queueSize != 0
    requires s.active && s.connected && At(s, t).Idle? && forall p :: p in packets ==> IsPacket(p)
    ensures Run(s, CallsSteps(t, packets)).queue == Last(s.queue + NextNumbers(s, |packets|), s.queueSize)
  {
    hide Run, CallsSteps, NextNumbers;
    CallsDequeueNothing(t, packets);
    CallsPush(s, t, packets);
    PushesKeepLast(s, CallsSteps(t, packets));
  }
}
