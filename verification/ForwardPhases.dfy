/** Reconnecting and stopping: what a clear leaves behind, and when a shutdown takes hold. */
module ForwardPhases {
  import opened Bytes
  import opened EndToEnd
  import opened Forward
  import opened ForwardRuns
  import opened Plugin

  // ----- frames are pushed after the clear before their connection -----

  /** Everything on its way to a connection past the first `n` is among the pushes past the first `m`. */
  ghost predicate IsFresh(s: State, m: nat, n: nat) {
    && m <= |s.pushed| && n <= |s.connections|
    && (forall id :: id in s.queue ==> id in s.pushed[m..])
    && (s.sender.Sending? ==> s.sender.id in s.pushed[m..])
    && (forall i, id :: n <= i < |s.connections| && id in s.connections[i].sent ==> id in s.pushed[m..])
  }

  /** A step keeps this if what is new on the way was in the queue or with the sender before, or is pushed now. */
  lemma FreshAfter(s: State, s': State, m: nat, n: nat)
    requires IsFresh(s, m, n) && s.pushed <= s'.pushed && |s.connections| <= |s'.connections|
    requires forall id :: id in s'.queue ==> id in s.queue || id in s'.pushed[|s.pushed|..]
    requires s'.sender.Sending? ==> s'.sender.id in s.queue || (s.sender.Sending? && s'.sender.id == s.sender.id)
    requires forall i, id :: 0 <= i < |s'.connections| && id in s'.connections[i].sent ==>
               (i < |s.connections| && id in s.connections[i].sent) || (s.sender.Sending? && id == s.sender.id)
    ensures IsFresh(s', m, n)
  {
    assert s'.pushed[m..] == s.pushed[m..] + s'.pushed[|s.pushed|..];
  }

  /** A step that neither touches the queue nor makes or extends a connection. */
  lemma FreshStays(s: State, s': State, m: nat, n: nat)
    requires IsFresh(s, m, n) && s'.pushed == s.pushed && s'.queue == s.queue && s'.connections == s.connections
    requires s'.sender.Sending? ==> s.sender.Sending? && s'.sender.id == s.sender.id
    ensures IsFresh(s', m, n)
  {
  }

  lemma PushKeepsFresh(s: State, t: nat, id: nat, m: nat, n: nat)
    requires IsFresh(s, m, n)
    ensures IsFresh(DoPush(s, t, id), m, n)
  {
    hide Replace, IsFresh;
    FreshAfter(s, DoPush(s, t, id), m, n);
  }

  lemma PollKeepsFresh(s: State, m: nat, n: nat)
    requires IsFresh(s, m, n) && s.queue != []
    ensures IsFresh(DoPoll(s), m, n)
  {
    hide Replace, LengthToSend, InBuffer, IsFresh;
    assert DoPoll(s).pushed[|s.pushed|..] == [];
    FreshAfter(s, DoPoll(s), m, n);
  }

  lemma TransmitKeepsFresh(s: State, count: nat, m: nat, n: nat)
    requires IsFresh(s, m, n) && s.sender.Sending? && count <= s.sender.len && s.connections != []
    ensures IsFresh(DoTransmit(s, count), m, n)
  {
    hide Slice, InBuffer, IsFresh;
    FreshAfter(s, DoTransmit(s, count), m, n);
  }

  lemma ReleaseKeepsFresh(s: State, m: nat, n: nat)
    requires IsFresh(s, m, n) && s.sender.Sending?
    ensures IsFresh(DoRelease(s), m, n)
  {
    hide Replace, IsFresh;
    FreshStays(s, DoRelease(s), m, n);
  }

  lemma DiscardKeepsFresh(s: State, t: nat, id: nat, m: nat, n: nat)
    requires IsFresh(s, m, n)
    ensures IsFresh(DoDiscard(s, t, id), m, n)
  {
    hide Replace, IsFresh;
    FreshStays(s, DoDiscard(s, t, id), m, n);
  }

  lemma ProduceKeepsFresh(s: State, t: nat, packet: Data, m: nat, n: nat)
    requires IsFresh(s, m, n) && IsPacket(packet)
    ensures IsFresh(DoProduce(s, t, packet), m, n)
  {
    hide PluginFrame, IsFresh;
    FreshStays(s, DoProduce(s, t, packet), m, n);
  }

  lemma ClearKeepsFresh(s: State, m: nat, n: nat)
    requires IsFresh(s, m, n) && s.sender.Clearing?
    ensures IsFresh(DoClear(s), m, n)
  {
    hide Replace, IsFresh;
    FreshAfter(s, DoClear(s), m, n);
  }

  lemma DialKeepsFresh(s: State, ok: bool, m: nat, n: nat)
    requires IsFresh(s, m, n) && s.sender.Dialing?
    ensures IsFresh(DoDial(s, ok), m, n)
  {
    hide IsFresh;
    FreshAfter(s, DoDial(s, ok), m, n);
  }

  lemma QuietKeepsFresh(s: State, s': State, m: nat, n: nat)
    requires IsFresh(s, m, n) && IsQuiet(s, s')
    ensures IsFresh(s', m, n)
  {
    hide IsFresh;
    FreshStays(s, s', m, n);
  }

  lemma NextKeepsFresh(s: State, e: Event, m: nat, n: nat)
    requires IsFresh(s, m, n)
    ensures IsFresh(Next(s, e), m, n)
  {
    hide IsFresh, IsQuiet, DoProduce, DoPush, DoDiscard, DoClear, DoDial, DoPoll, DoTransmit, DoRelease, DoQuietly;
    QuietlyIsQuiet(s, e);
    QuietKeepsFresh(s, DoQuietly(s, e), m, n);
    if Next(s, e) != s && Next(s, e) != DoQuietly(s, e) {
      match e {
        case Produce(t, packet) => ProduceKeepsFresh(s, t, packet, m, n);
        case Push(t) => PushKeepsFresh(s, t, At(s, t).id, m, n);
        case Discard(t) => DiscardKeepsFresh(s, t, At(s, t).id, m, n);
        case Clear => ClearKeepsFresh(s, m, n);
        case Dial(ok) => DialKeepsFresh(s, ok, m, n);
        case Poll => PollKeepsFresh(s, m, n);
        case Transmit(count) => TransmitKeepsFresh(s, count, m, n);
        case Release => ReleaseKeepsFresh(s, m, n);
        case _ =>
      }
    }
  }

  lemma {:induction false} RunKeepsFresh(s: State, es: seq<Event>, m: nat, n: nat)
    requires IsFresh(s, m, n)
    ensures IsFresh(Run(s, es), m, n)
  {
    hide Next, IsFresh;
    if es == [] {
    } else {
      RunKeepsFresh(s, es[..|es| - 1], m, n);
      NextKeepsFresh(Run(s, es[..|es| - 1]), es[|es| - 1], m, n);
    }
  }

  /**
   * Whatever a connection carries was pushed after the clear that came before it: of all
   * connections made after a clear, over every run, each frame is among the pushes since then.
   */
  lemma FramesArePushedAfterClear(s: State, es: seq<Event>, i: nat, id: nat)
    requires s.sender.Clearing?
    requires |s.connections| <= i < |Run(Next(s, Clear), es).connections|
    requires id in Run(Next(s, Clear), es).connections[i].sent
    ensures s.pushed <= Run(Next(s, Clear), es).pushed
    ensures id in Run(Next(s, Clear), es).pushed[|s.pushed|..]
  {
    hide Next, Run;
    ClearIsFresh(s);
    RunKeepsFresh(Next(s, Clear), es, |s.pushed|, |s.connections|);
    PushedGrows(Next(s, Clear), es);
  }

  lemma ClearIsFresh(s: State)
    requires s.sender.Clearing?
    ensures IsFresh(Next(s, Clear), |s.pushed|, |s.connections|)
    ensures Next(s, Clear).pushed == s.pushed
  {
  }

  lemma NextGrowsPushed(s: State, e: Event)
    ensures s.pushed <= Next(s, e).pushed
  {
    hide Replace, Enqueue, Displaced, LengthToSend, InBuffer, DoProduce, DoDiscard, DoDial, DoTransmit, DoRelease;
    if !e.Push? && !e.Clear? && !e.Poll? {
      QueueStays(s, e);
    }
  }

  lemma {:induction false} PushedGrows(s: State, es: seq<Event>)
    ensures s.pushed <= Run(s, es).pushed
  {
    hide Next;
    if es == [] {
    } else {
      PushedGrows(s, es[..|es| - 1]);
      NextGrowsPushed(Run(s, es[..|es| - 1]), es[|es| - 1]);
    }
  }

  // ----- but a frame may have been made before that clear -----

  lemma RunMore(s: State, es: seq<Event>, e: Event)
    ensures Run(s, es + [e]) == Next(Run(s, es), e)
  {
    hide Next;
    assert (es + [e])[..|es|] == es;
  }

  lemma RunThree(s: State, a: Event, b: Event, c: Event)
    ensures Run(s, [a, b, c]) == Next(Next(Next(s, a), b), c)
  {
    hide Next;
    assert [] + [a] == [a] && [a] + [b] == [a, b] && [a, b] + [c] == [a, b, c];
    RunMore(s, [], a);
    RunMore(s, [a], b);
    RunMore(s, [a, b], c);
  }

  /** A thread that was admitted on the old connection pushes after the clear. */
  lemma StaleFrameIsQueued(s: State, t: nat)
    requires s.sender.Clearing? && At(s, t).Admitted?
    ensures var s' := Run(s, [Clear, Dial(true), Push(t)]);
            s'.queue == [At(s, t).id] && s'.connected && |s'.connections| == |s.connections| + 1
  {
    hide PluginFrame, Replace, Run;
    RunThree(s, Clear, Dial(true), Push(t));
  }

  lemma NextIsReachable(s: State, e: Event)
    requires Reachable(s)
    ensures Reachable(Next(s, e))
  {
    hide Next, Run;
    var queueSize, missionMode, es :| s == Run(Initial(queueSize, missionMode), es);
    RunMore(Initial(queueSize, missionMode), es, e);
  }

  /** The state in which a connected client has a buffer of thread 1 to send, while thread 0 is admitted. */
  ghost predicate IsPoised(s: State) {
    && Reachable(s) && s.active && s.connected && At(s, 0).Admitted?
    && s.sender.Sending? && s.sender.len > 0
  }

  lemma ConnectedIsReachable() returns (s: State)
    ensures Reachable(s) && s.active && s.connected && s.sender.Top? && s.queue == [] && s.queueSize == 0
    ensures s.producers == map[]
  {
    hide Run, Reachable, Replace, PluginFrame;
    s := Initial(0, 0);
    InitialIsReachable(0, 0);
    NextIsReachable(s, Start);
    s := Next(s, Start);
    NextIsReachable(s, Enter);
    s := Next(s, Enter);
    NextIsReachable(s, Clear);
    s := Next(s, Clear);
    NextIsReachable(s, Dial(true));
    s := Next(s, Dial(true));
  }

  lemma InitialIsReachable(queueSize: nat, missionMode: int)
    ensures Reachable(Initial(queueSize, missionMode))
  {
    assert Run(Initial(queueSize, missionMode), []) == Initial(queueSize, missionMode);
  }

  /** A call of handlePacket up to the push. */
  lemma AdmittedIsReachable(s: State, t: nat) returns (s': State)
    requires Reachable(s) && s.active && s.connected && At(s, t).Idle?
    ensures Reachable(s') && s'.active && s'.connected && s'.sender == s.sender && s'.queue == s.queue
    ensures s'.queueSize == s.queueSize && At(s', t).Admitted?
    ensures forall u :: u != t ==> At(s', u) == At(s, u)
  {
    hide Reachable, PluginFrame;
    s' := s;
    NextIsReachable(s', Produce(t, [0]));
    s' := Next(s', Produce(t, [0]));
    NextIsReachable(s', ReadActive(t));
    s' := Next(s', ReadActive(t));
    NextIsReachable(s', ReadConnected(t));
    s' := Next(s', ReadConnected(t));
  }

  lemma PoisedIsReachable() returns (s: State)
    ensures IsPoised(s)
  {
    hide Reachable, PluginFrame, Replace, Numbered, FrameLength;
    s := ConnectedIsReachable();
    s := AdmittedIsReachable(s, 0);
    s := AdmittedIsReachable(s, 1);
    NextIsReachable(s, Push(1));
    s := Next(s, Push(1));
    NextIsReachable(s, Loop(false));
    s := Next(s, Loop(false));
    QueuedHasLength(s);
    NextIsReachable(s, Poll);
    s := Next(s, Poll);
  }

  lemma QueuedHasLength(s: State)
    requires Reachable(s) && s.queue != []
    ensures LengthToSend(InBuffer(s, s.queue[0])) > 0
  {
    hide Reachable, PluginFrame, Wired, Ordered, Bounded;
    ReachableInvariant(s);
    var id := s.queue[0];
    assert IsAt(s, Queued, id);
    FrameLengthIsSize(s.missionMode, id % 0x1_0000, s.packets[id]);
  }

  /** Such a thread exists in some run: it was admitted, and then the connection was lost. */
  lemma StaleFrameIsReachable() returns (s: State)
    ensures Reachable(s) && s.sender.Clearing? && At(s, 0).Admitted?
  {
    hide Reachable, PluginFrame, Replace;
    s := PoisedIsReachable();
    NextIsReachable(s, Break);
    s := Next(s, Break);
    NextIsReachable(s, Release);
    s := Next(s, Release);
    NextIsReachable(s, Loop(true));
    s := Next(s, Loop(true));
  }

  // ----- stopping -----

  predicate NoStart(es: seq<Event>) {
    forall i :: 0 <= i < |es| ==> !es[i].Start?
  }

  /** A sender thread that has been told to stop, and is past the point where it would forget it. */
  predicate IsStopping(s: State) {
    !s.active && !s.sender.Entering?
  }

  lemma NextKeepsStopping(s: State, e: Event)
    requires IsStopping(s) && !e.Start?
    ensures IsStopping(Next(s, e))
  {
    hide PluginFrame, Enqueue, Displaced, Replace, LengthToSend, Slice, Extended, InBuffer;
  }

  lemma {:induction false} StoppingStays(s: State, es: seq<Event>)
    requires IsStopping(s) && NoStart(es)
    ensures IsStopping(Run(s, es))
  {
    hide Next, IsStopping;
    if es == [] {
    } else {
      StoppingStays(s, es[..|es| - 1]);
      NextKeepsStopping(Run(s, es[..|es| - 1]), es[|es| - 1]);
    }
  }

  /**
   * A shutdown takes hold -- the thread never runs again as an active one, whatever happens,
   * until it is started anew -- if and only if the thread is not still on its way into its loop.
   */
  lemma ShutdownHoldsExactly(s: State)
    ensures (forall es :: NoStart(es) ==> !Run(Next(s, Shutdown), es).active) <==> !s.sender.Entering?
  {
    var s1 := Next(s, Shutdown);
    if s.sender.Entering? {
      assert [Enter][..0] == [] && Run(s1, []) == s1;
      assert Run(s1, [Enter]).active;
      assert NoStart([Enter]);
    } else {
      forall es | NoStart(es)
        ensures !Run(s1, es).active
      {
        StoppingStays(s1, es);
      }
    }
  }

  /** A stopped thread leaves at its next pass through the head of the loop, and closes the connection. */
  lemma StoppedLeaves(s: State, due: bool)
    requires !s.active && s.sender.Top?
    ensures var s' := Run(s, [Loop(due), Leave]); s'.sender.Absent? && !s'.connected
    ensures Run(s, [Loop(due), Leave]).queue == s.queue
  {
    var s1 := Next(s, Loop(due));
    assert [Loop(due)][..0] == [] && [Loop(due), Leave][..1] == [Loop(due)];
    assert Run(s, [Loop(due)]) == s1;
  }

  // ----- what is queued when the thread leaves -----

  lemma NextKeepsAbsent(s: State, e: Event)
    requires s.sender.Absent? && !e.Start?
    ensures Next(s, e).sender.Absent?
  {
    hide PluginFrame, Enqueue, Displaced, Replace, LengthToSend, Slice, Extended, InBuffer;
  }

  lemma {:induction false} AbsentStays(s: State, es: seq<Event>)
    requires s.sender.Absent? && NoStart(es)
    ensures Run(s, es).sender.Absent?
  {
    hide Next;
    if es == [] {
    } else {
      AbsentStays(s, es[..|es| - 1]);
      NextKeepsAbsent(Run(s, es[..|es| - 1]), es[|es| - 1]);
    }
  }

  lemma {:induction false} AbsentRunEnqueuesAll(s: State, es: seq<Event>)
    requires s.sender.Absent? && NoStart(es)
    ensures var s' := Run(s, es);
            && s'.queueSize == s.queueSize
            && s.pushed <= s'.pushed
            && s'.queue == EnqueueAll(s.queue, s.queueSize, s'.pushed[|s.pushed|..])
  {
    hide Next, Enqueue;
    if es == [] {
    } else {
      var front, e := es[..|es| - 1], es[|es| - 1];
      AbsentRunEnqueuesAll(s, front);
      AbsentStays(s, front);
      AbsentOnlyPushes(Run(s, front), e);
      OneMorePush(s, Run(s, front), Run(s, es));
    }
  }

  lemma AbsentOnlyPushes(s: State, e: Event)
    requires s.sender.Absent?
    ensures IsPushOrNothing(s, Next(s, e))
  {
    if e.Poll? || e.Clear? {
    } else {
      OnlyPushEnqueues(s, e);
    }
  }

  /**
   * Buffers that are queued when the thread has left stay queued until it is started again, and
   * are only displaced by later pushes: no step frees them otherwise.
   */
  lemma LeftoversStay(s: State, es: seq<Event>)
    requires Bounded(s) && s.sender.Absent? && NoStart(es)
    ensures var s' := Run(s, es);
            && s.pushed <= s'.pushed
            && var all := s.queue + s'.pushed[|s.pushed|..];
               s'.queue == if s.queueSize == 0 then all else Last(all, s.queueSize)
  {
    AbsentRunEnqueuesAll(s, es);
    EnqueueAllKeepsLast(s.queue, s.queueSize, Run(s, es).pushed[|s.pushed|..]);
  }

  // ----- one pass of the sender's loop -----

  lemma RunTwo(s: State, a: Event, b: Event)
    ensures Run(s, [a, b]) == Next(Next(s, a), b)
  {
    hide Next;
    assert [] + [a] == [a] && [a] + [b] == [a, b];
    RunMore(s, [], a);
    RunMore(s, [a], b);
  }

  lemma RunOne(s: State, a: Event)
    ensures Run(s, [a]) == Next(s, a)
  {
    hide Next;
    assert [] + [a] == [a];
    RunMore(s, [], a);
  }

  /** Nothing of the program's variables has changed but where the sender is. */
  ghost predicate OnlySenderMoved(s: State, s': State) {
    s' == s.(sender := s'.sender)
  }

  /** Starting the thread and entering its loop function both make the client active; nothing else changes. */
  lemma StartAndEnter(s: State)
    ensures s.sender.Absent? ==> Next(s, Start) == s.(active := true, sender := Entering)
    ensures s.sender.Entering? && s.connected ==> Next(s, Enter) == s.(active := true, sender := Top)
    ensures s.sender.Entering? && !s.connected ==> Next(s, Enter) == s.(active := true, sender := Clearing(true))
  {
  }

  /** The two flags are read one after the other: a buffer is admitted by what each is at its own moment. */
  lemma ChecksInTurn(s: State, t: nat, id: nat)
    ensures At(s, t) == Holding(id) ==>
              At(Next(s, ReadActive(t)), t) == if s.active then SawActive(id) else Refused(id)
    ensures At(s, t) == SawActive(id) ==>
              At(Next(s, ReadConnected(t)), t) == if s.connected then Admitted(id) else Refused(id)
  {
  }

  /** Without a connection, the sender does not look at the queue: it goes back to the head of its loop. */
  lemma DisconnectedPassIsIdle(s: State)
    requires s.sender.Ready? && !s.connected
    ensures Next(s, Poll).sender == Top && OnlySenderMoved(s, Next(s, Poll))
  {
  }

  /** Neither does it with an empty queue. */
  lemma EmptyPassIsIdle(s: State)
    requires s.sender.Ready? && s.queue == []
    ensures Next(s, Poll).sender == Top && OnlySenderMoved(s, Next(s, Poll))
  {
  }

  /** While the reconnect is not due, a whole pass changes nothing at all. */
  lemma PassBeforeDelayIsIdle(s: State)
    requires s.sender.Top? && s.active && !s.connected
    ensures Run(s, [Loop(false), Poll]) == s
  {
    hide Run;
    RunTwo(s, Loop(false), Poll);
  }

  /** While connected, being due makes no difference: the sender goes on to the queue. */
  lemma ConnectedPassGoesOn(s: State, due: bool)
    requires s.sender.Top? && s.active && s.connected
    ensures Next(s, Loop(due)).sender == Ready && OnlySenderMoved(s, Next(s, Loop(due)))
  {
  }

  /** A reconnect that is due clears the queue, and connects exactly if the server accepts. */
  lemma DuePassReconnects(s: State, ok: bool)
    requires s.sender.Top? && s.active && !s.connected
    ensures var s' := Run(s, [Loop(true), Clear, Dial(ok)]);
            && s'.sender == Ready && s'.active && s'.queue == [] && s'.freed == s.freed + s.queue
            && s'.connected == ok
            && s'.connections == if ok then s.connections + [Connection([], [], [])] else s.connections
  {
    hide Run, Replace;
    RunThree(s, Loop(true), Clear, Dial(ok));
  }

  /** One buffer is sent from beginning to end, if the network takes it. */
  lemma SendingPass(s: State, n: nat)
    requires s.sender.Sending? && n == s.sender.len > 0 && s.connections != []
    ensures var s' := Run(s, [Transmit(n), Release]);
            && s'.sender == Top && s'.active == s.active && s'.connected == s.connected && s'.queue == s.queue
            && s'.freed == s.freed + [s.sender.id]
            && |s'.connections| == |s.connections|
            && s'.connections[|s.connections| - 1].sent == s.connections[|s.connections| - 1].sent + [s.sender.id]
  {
    hide Run, Replace, Slice, InBuffer;
    RunTwo(s, Transmit(n), Release);
  }

  /** A failing send disconnects and gives the buffer up. */
  lemma FailingPass(s: State)
    requires s.sender.Sending? && s.sender.len > 0
    ensures var s' := Run(s, [Break, Release]);
            && s'.sender == Top && s'.active == s.active && !s'.connected && s'.queue == s.queue
            && s'.freed == s.freed + [s.sender.id] && s'.connections == s.connections
  {
    hide Run, Replace;
    RunTwo(s, Break, Release);
  }

  // ----- the sender always comes to a connection, or to its end -----

  /** A thread leaves only when told to stop, connects only when not connected, and sends only when connected. */
  ghost predicate InLine(s: State) {
    && (s.sender.Leaving? ==> !s.active)
    && (s.sender.Clearing? || s.sender.Dialing? ==> !s.connected)
    && (s.connected ==> s.connections != [])
    && (s.sender.Sending? && s.sender.len > 0 ==> s.connected)
  }

  lemma ReachableInLine(s: State)
    requires Reachable(s)
    ensures InLine(s)
  {
    hide Numbered, Owned, Bounded, Ordered, Run;
    ReachableInvariant(s);
    var queueSize, missionMode, es :| s == Run(Initial(queueSize, missionMode), es);
    LeavingIsInactive(queueSize, missionMode, es);
  }

  predicate LeavesOrConnects(s: State) {
    (s.sender.Leaving? ==> !s.active) && (s.sender.Clearing? || s.sender.Dialing? ==> !s.connected)
  }

  lemma NextKeepsLeaving(s: State, e: Event)
    requires LeavesOrConnects(s)
    ensures LeavesOrConnects(Next(s, e))
  {
    hide PluginFrame, Enqueue, Displaced, Replace, LengthToSend, Slice, Extended, InBuffer;
  }

  lemma NothingLeaves(queueSize: nat, missionMode: int)
    ensures LeavesOrConnects(Initial(queueSize, missionMode))
  {
  }

  lemma {:induction false} LeavingIsInactive(queueSize: nat, missionMode: int, es: seq<Event>)
    ensures LeavesOrConnects(Run(Initial(queueSize, missionMode), es))
  {
    hide Next, LeavesOrConnects;
    if es == [] {
      NothingLeaves(queueSize, missionMode);
    } else {
      LeavingIsInactive(queueSize, missionMode, es[..|es| - 1]);
      NextKeepsLeaving(Run(Initial(queueSize, missionMode), es[..|es| - 1]), es[|es| - 1]);
    }
  }

  /** The steps of the sender thread that lead to a connection, when a reconnect is due and the server accepts. */
  function StepsToConnect(s: State): seq<Event> {
    match s.sender
    case Absent => []
    case Entering => if s.connected then [Enter] else [Enter, Clear, Dial(true)]
    case Clearing(_) => [Clear, Dial(true)]
    case Dialing(_) => [Dial(true)]
    case Top => if s.connected then [] else [Loop(true), Clear, Dial(true)]
    case Ready => if s.connected then [] else [Poll, Loop(true), Clear, Dial(true)]
    case Sending(_, _, len) => if s.connected then [] else [Release, Loop(true), Clear, Dial(true)]
    case Leaving => []
  }

  lemma RunAll(s: State, a: Event, es: seq<Event>)
    ensures Run(s, [a] + es) == Run(Next(s, a), es)
  {
    hide Next, Run;
    RunConcat(s, [a], es);
    RunOne(s, a);
  }

  /**
   * From every reachable state of an active client whose sender thread is there, the thread's
   * own next steps lead to a connection, as soon as the server accepts one.
   */
  lemma ActiveConnects(s: State)
    requires Reachable(s) && s.active && !s.sender.Absent?
    ensures Run(s, StepsToConnect(s)).connected && Run(s, StepsToConnect(s)).active
  {
    hide Run, Next, Reachable;
    ReachableInLine(s);
    NothingRun(s);
    if s.connected {
      if s.sender.Entering? {
        EnteringConnects(s);
      }
    } else {
      match s.sender {
        case Entering => EnteringConnects(s);
        case Clearing(_) => DialConnects(s);
        case Dialing(_) => DialConnects(s);
        case Top => DuePassReconnects(s, true);
        case Ready =>
          DisconnectedPassIsIdle(s);
          assert StepsToConnect(s) == [Poll] + [Loop(true), Clear, Dial(true)];
          RunAll(s, Poll, [Loop(true), Clear, Dial(true)]);
          DuePassReconnects(Next(s, Poll), true);
        case Sending(_, _, _) =>
          assert StepsToConnect(s) == [Release] + [Loop(true), Clear, Dial(true)];
          RunAll(s, Release, [Loop(true), Clear, Dial(true)]);
          ReleasePass(s);
          RunOne(s, Release);
          DuePassReconnects(Next(s, Release), true);
        case _ =>
      }
    }
  }

  lemma EnteringConnects(s: State)
    requires s.sender.Entering?
    ensures Run(s, StepsToConnect(s)).connected && Run(s, StepsToConnect(s)).active
  {
    hide Run, Replace;
    RunOne(s, Enter);
    RunThree(s, Enter, Clear, Dial(true));
  }

  lemma DialConnects(s: State)
    requires s.active && (s.sender.Clearing? || s.sender.Dialing?)
    ensures Run(s, StepsToConnect(s)).connected && Run(s, StepsToConnect(s)).active
  {
    hide Run, Replace;
    RunOne(s, Dial(true));
    RunTwo(s, Clear, Dial(true));
  }

  lemma NothingRun(s: State)
    ensures Run(s, []) == s
  {
  }

  /** The thread's own steps to the head of its loop; the network takes what is to send, the server does not accept. */
  function StepsToTop(s: State): seq<Event> {
    match s.sender
    case Absent => []
    case Entering => []
    case Clearing(starting) => if starting then [Clear, Dial(false)] else [Clear, Dial(false), Poll]
    case Dialing(starting) => if starting then [Dial(false)] else [Dial(false), Poll]
    case Top => []
    case Ready =>
      if s.connected && s.queue != []
      then [Poll, Transmit(LengthToSend(InBuffer(s, s.queue[0]))), Release]
      else [Poll]
    case Sending(_, _, len) => if len == 0 then [Release] else [Transmit(len), Release]
    case Leaving => []
  }

  /** A connected sender takes the front of the queue and sends it, if the network takes it. */
  lemma QueuePass(s: State, n: nat)
    requires s.sender.Ready? && s.connected && s.queue != [] && s.connections != []
    requires n == LengthToSend(InBuffer(s, s.queue[0])) > 0
    ensures var s' := Run(s, [Poll, Transmit(n), Release]);
            && s'.sender == Top && s'.active == s.active && s'.connected && s'.queue == s.queue[1..]
            && s'.freed == s.freed + [s.queue[0]]
            && |s'.connections| == |s.connections|
            && s'.connections[|s.connections| - 1].sent == s.connections[|s.connections| - 1].sent + [s.queue[0]]
  {
    hide Run, Replace, LengthToSend, InBuffer, DoTransmit, DoRelease, DoQuietly;
    assert [Poll] + [Transmit(n), Release] == [Poll, Transmit(n), Release];
    RunAll(s, Poll, [Transmit(n), Release]);
    SendingPass(Next(s, Poll), n);
  }

  lemma ConnectFails(s: State)
    requires (s.sender.Clearing? || s.sender.Dialing?) && !s.connected
    ensures var s' := Run(s, StepsToTop(s)); s'.sender == Top && s'.active == s.active
  {
    hide Run, Replace;
    if s.sender.Clearing? {
      if s.sender.starting {
        RunTwo(s, Clear, Dial(false));
      } else {
        RunThree(s, Clear, Dial(false), Poll);
      }
    } else if s.sender.starting {
      RunOne(s, Dial(false));
    } else {
      RunTwo(s, Dial(false), Poll);
    }
  }

  lemma ReleasePass(s: State)
    requires s.sender.Sending? && s.sender.len == 0
    ensures var s' := Run(s, [Release]); s'.sender == Top && s'.active == s.active && s'.connected == s.connected
  {
    hide Run, Replace;
    RunOne(s, Release);
  }

  lemma ComesToTop(s: State)
    requires Reachable(s) && !s.sender.Absent? && !s.sender.Entering? && !s.sender.Leaving?
    ensures var s' := Run(s, StepsToTop(s)); s'.sender == Top && s'.active == s.active
  {
    hide Run, Next, Reachable, InBuffer, LengthToSend;
    ReachableInLine(s);
    match s.sender {
      case Clearing(_) => ConnectFails(s);
      case Dialing(_) => ConnectFails(s);
      case Top => NothingRun(s);
      case Ready =>
        if s.connected && s.queue != [] {
          QueuedHasLength(s);
          QueuePass(s, LengthToSend(InBuffer(s, s.queue[0])));
        } else {
          RunOne(s, Poll);
          if s.connected {
            EmptyPassIsIdle(s);
          } else {
            DisconnectedPassIsIdle(s);
          }
        }
      case Sending(_, _, len) =>
        if len == 0 {
          ReleasePass(s);
        } else {
          SendingPass(s, len);
        }
      case _ =>
    }
  }

  /** The steps of a thread that has been told to stop. */
  function StepsToLeave(s: State): seq<Event> {
    if s.sender.Leaving? then [Leave] else StepsToTop(s) + [Loop(false), Leave]
  }

  /**
   * From every reachable state in which the client is inactive and the sender thread is past the
   * start of its loop function, the thread's own next steps lead to its end.
   */
  lemma InactiveLeaves(s: State)
    requires Reachable(s) && !s.active && !s.sender.Absent? && !s.sender.Entering?
    ensures Run(s, StepsToLeave(s)).sender.Absent? && !Run(s, StepsToLeave(s)).connected
  {
    hide Run, Reachable, StepsToTop;
    if s.sender.Leaving? {
      RunOne(s, Leave);
    } else {
      ComesToTop(s);
      RunConcat(s, StepsToTop(s), [Loop(false), Leave]);
      StoppedLeaves(Run(s, StepsToTop(s)), false);
    }
  }

  predicate NoCommand(es: seq<Event>) {
    forall i :: 0 <= i < |es| ==> !es[i].Start? && !es[i].Shutdown?
  }

  /** A thread that has not entered its loop function yet, or runs without having been told to stop. */
  predicate GoesOn(s: State) {
    s.sender.Entering? || (s.active && !s.sender.Absent? && !s.sender.Leaving?)
  }

  lemma NextKeepsGoing(s: State, e: Event)
    requires GoesOn(s) && !e.Start? && !e.Shutdown?
    ensures GoesOn(Next(s, e))
  {
    hide PluginFrame, Enqueue, Displaced, Replace, LengthToSend, Slice, Extended, InBuffer;
  }

  lemma {:induction false} RunKeepsGoing(s: State, es: seq<Event>)
    requires GoesOn(s) && NoCommand(es)
    ensures GoesOn(Run(s, es))
  {
    hide Next, GoesOn;
    if es == [] {
    } else {
      RunKeepsGoing(s, es[..|es| - 1]);
      NextKeepsGoing(Run(s, es[..|es| - 1]), es[|es| - 1]);
    }
  }

  lemma StepsAreNoCommands(s: State)
    ensures NoCommand(StepsToLeave(s))
  {
  }

  /**
   * Without a further command, an inactive client's thread can come to its end if and only if it
   * is not still on its way into its loop function, where it would make the client active again.
   */
  lemma StopsExactly(s: State)
    requires Reachable(s) && !s.active && !s.sender.Absent?
    ensures (exists es :: NoCommand(es) && Run(s, es).sender.Absent?) <==> !s.sender.Entering?
  {
    hide Run, Reachable, StepsToLeave;
    if s.sender.Entering? {
      forall es | NoCommand(es)
        ensures !Run(s, es).sender.Absent?
      {
        RunKeepsGoing(s, es);
      }
    } else {
      InactiveLeaves(s);
      StepsAreNoCommands(s);
    }
  }

}
