/** What holds in every reachable state of the forwarding protocol. */
module ForwardRuns {
  import opened Bytes
  import opened Forward
  import opened Plugin

  ghost predicate Invariant(s: State) {
    Numbered(s) && Owned(s) && Bounded(s) && Wired(s) && Ordered(s)
  }

  lemma NextKeepsInvariant(s: State, e: Event)
    requires Invariant(s)
    ensures Invariant(Next(s, e))
  {
    hide Numbered, Owned, Bounded, Wired, Ordered, Next;
    NextKeepsNumbered(s, e);
    NextKeepsOwned(s, e);
    NextKeepsBounded(s, e);
    NextKeepsWired(s, e);
    NextKeepsOrdered(s, e);
  }

  /** The states that some interleaving of the threads and the network can lead to. */
  ghost predicate Reachable(s: State) {
    exists queueSize, missionMode, es :: s == Run(Initial(queueSize, missionMode), es)
  }

  lemma {:induction false} RunKeepsInvariant(queueSize: nat, missionMode: int, es: seq<Event>)
    ensures Invariant(Run(Initial(queueSize, missionMode), es))
  {
    if es == [] {
    } else {
      hide Invariant, Next;
      RunKeepsInvariant(queueSize, missionMode, es[..|es| - 1]);
      NextKeepsInvariant(Run(Initial(queueSize, missionMode), es[..|es| - 1]), es[|es| - 1]);
    }
  }

  lemma ReachableInvariant(s: State)
    requires Reachable(s)
    ensures Invariant(s)
  {
    hide Invariant, Run;
    var queueSize, missionMode, es :| s == Run(Initial(queueSize, missionMode), es);
    RunKeepsInvariant(queueSize, missionMode, es);
  }

  /**
   * Every buffer that was made is in exactly one place, by the program's own variables;
   * none is queued twice and none is freed twice.
   */
  lemma OneOwner(s: State, id: nat)
    requires Reachable(s)
    ensures id < |s.buffers| <==> exists p :: IsAt(s, p, id)
    ensures forall p, q :: IsAt(s, p, id) && IsAt(s, q, id) ==> p == q
    ensures HasNoRepeats(s.queue) && HasNoRepeats(s.freed)
  {
    hide Reachable, Wired, Ordered, Bounded, PluginFrame;
    ReachableInvariant(s);
    if id < |s.buffers| {
      assert IsAt(s, s.place[id], id);
    }
  }

  /** The queue is the end of the push history, and within its bound if it has one. */
  lemma QueueIsSuffix(s: State)
    requires Reachable(s)
    ensures s.queue == Last(s.pushed, |s.queue|)
    ensures s.queueSize != 0 ==> |s.queue| <= s.queueSize
  {
    hide Reachable, Numbered, Owned, Wired, Ordered;
    ReachableInvariant(s);
  }

  // ----- order and loss -----

  lemma SentHeadsChain(s: State)
    ensures forall i :: 0 <= i < |AllSent(s.connections)| ==> Chain(s)[i] == AllSent(s.connections)[i]
    ensures forall k :: k in s.queue ==> k in Chain(s)
    ensures forall k :: k in AllSent(s.connections) + InFlight(s) ==> k in Chain(s)
  {
  }

  /** The frames written, over all connections, are in the order of production for each thread. */
  lemma SentInOrder(s: State)
    requires Reachable(s)
    ensures InOrder(s.maker, AllSent(s.connections))
  {
    hide Reachable, Wired, Owned, Bounded, Numbered, AllSent;
    ReachableInvariant(s);
    SentHeadsChain(s);
    var sent := AllSent(s.connections);
    forall i, j | 0 <= i < j < |sent| && s.maker[sent[i]] == s.maker[sent[j]]
      ensures sent[i] < sent[j]
    {
      assert s.maker[Chain(s)[i]] == s.maker[Chain(s)[j]];
    }
  }

  /** The sequence field of the k-th buffer made. */
  function SequenceOf(s: State, k: nat): uint16 {
    var b := InBuffer(s, k);
    if |b| >= 8 then FromBE16(b[6..8]) else 0
  }

  /** The k-th packet gets sequence k mod 65536, and its buffer is its frame. */
  lemma SequenceIsNumber(s: State, k: nat)
    requires Reachable(s) && k < |s.buffers|
    ensures k < |s.packets| && IsPacket(s.packets[k])
    ensures s.buffers[k] == PluginFrame(s.missionMode, k % 0x1_0000, s.packets[k])
    ensures SequenceOf(s, k) == k % 0x1_0000
  {
    hide Reachable, PluginFrame;
    ReachableInvariant(s);
    FrameLengthIsSize(s.missionMode, k % 0x1_0000, s.packets[k]);
    RoundTrip16(k % 0x1_0000);
  }

  ghost predicate MadeBy(s: State, t: nat) {
    forall k :: 0 <= k < |s.maker| ==> s.maker[k] == t
  }

  lemma ChainIncreases(s: State, t: nat, i: nat, j: nat)
    requires Ordered(s) && MadeBy(s, t) && i <= j < |Chain(s)|
    ensures Chain(s)[i] < |s.maker| && Chain(s)[j] < |s.maker|
    ensures Chain(s)[i] <= Chain(s)[j]
    ensures i < j ==> Chain(s)[i] < Chain(s)[j]
  {
    assert i < j ==> s.maker[Chain(s)[i]] == s.maker[Chain(s)[j]];
  }

  lemma BetweenIsNotInChain(s: State, t: nat, i: nat, k: nat)
    requires Ordered(s) && MadeBy(s, t)
    requires i + 1 < |Chain(s)| && Chain(s)[i] < k < Chain(s)[i + 1]
    ensures k !in Chain(s)
  {
    hide Ordered, MadeBy;
    forall j | 0 <= j < |Chain(s)|
      ensures Chain(s)[j] != k
    {
      if j <= i {
        ChainIncreases(s, t, j, i);
      } else {
        ChainIncreases(s, t, i + 1, j);
      }
    }
  }

  lemma BetweenIsFreed(s: State, t: nat, i: nat, k: nat)
    requires Invariant(s) && MadeBy(s, t)
    requires i + 1 < |AllSent(s.connections)|
    requires AllSent(s.connections)[i] < k < AllSent(s.connections)[i + 1]
    ensures k in s.freed && k !in AllSent(s.connections)
  {
    hide PluginFrame, Wired, Bounded;
    SentHeadsChain(s);
    BetweenIsNotInChain(s, t, i, k);
    ChainIncreases(s, t, i, i + 1);
    var next := Chain(s)[i + 1];
    forall u
      ensures !IsAt(s, AtProducer(u), k)
    {
      assert HeldLast(s, u);
      assert next in Chain(s) && s.maker[next] == t;
    }
    assert !IsAt(s, Queued, k) && !IsAt(s, AtSender, k);
    assert IsAt(s, s.place[k], k);
  }

  lemma WrappedDifference(a: nat, b: nat)
    requires a < b
    ensures (b - a - 1) % 0x1_0000 == (b % 0x1_0000 - a % 0x1_0000 - 1) % 0x1_0000
  {
    var j := b / 0x1_0000 - a / 0x1_0000;
    assert b - a - 1 == (b % 0x1_0000 - a % 0x1_0000 - 1) + 0x1_0000 * j;
    AddMultiple(b % 0x1_0000 - a % 0x1_0000 - 1, j, 0x1_0000);
  }

  lemma SequenceGap(s: State, a: nat, b: nat)
    requires Reachable(s) && a < b < |s.buffers|
    ensures (b - a - 1) % 0x1_0000 == (SequenceOf(s, b) - SequenceOf(s, a) - 1) % 0x1_0000
  {
    hide Reachable, SequenceOf;
    SequenceIsNumber(s, a);
    SequenceIsNumber(s, b);
    WrappedDifference(a, b);
  }

  lemma LostBetween(s: State, t: nat, i: nat)
    requires Invariant(s) && MadeBy(s, t)
    requires i + 1 < |AllSent(s.connections)|
    ensures var a, b := AllSent(s.connections)[i], AllSent(s.connections)[i + 1];
            && a < b < |s.buffers|
            && (forall k :: a < k < b ==> k in s.freed && k !in AllSent(s.connections))
  {
    hide Owned, Wired, Bounded, Numbered, AllSent;
    var a, b := AllSent(s.connections)[i], AllSent(s.connections)[i + 1];
    SentHeadsChain(s);
    ChainIncreases(s, t, i, i + 1);
    hide Ordered, Chain, MadeBy;
    forall k | a < k < b
      ensures k in s.freed && k !in AllSent(s.connections)
    {
      BetweenIsFreed(s, t, i, k);
    }
  }

  /**
   * Loss accounting. With one producing thread the frames written are a strictly increasing
   * subsequence of production. Between two written one after the other, everything produced
   * was lost -- freed, never written in full -- and the number of losses, however they came
   * about, is the sequence difference less one mod 65536.
   */
  lemma LossAccounting(s: State, t: nat, i: nat)
    requires Reachable(s) && MadeBy(s, t)
    requires i + 1 < |AllSent(s.connections)|
    ensures var a, b := AllSent(s.connections)[i], AllSent(s.connections)[i + 1];
            && a < b < |s.buffers|
            && (forall k :: a < k < b ==> k in s.freed && k !in AllSent(s.connections))
            && (b - a - 1) % 0x1_0000 == (SequenceOf(s, b) - SequenceOf(s, a) - 1) % 0x1_0000
  {
    hide Reachable, Invariant, AllSent, SequenceOf, MadeBy;
    ReachableInvariant(s);
    LostBetween(s, t, i);
    SequenceGap(s, AllSent(s.connections)[i], AllSent(s.connections)[i + 1]);
  }
}
