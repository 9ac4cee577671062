/**
 * The forwarding protocol as a transition system: producer threads that number packets,
 * check the connection and push; one sender thread that connects, clears, dequeues and sends.
 * Every step is what one thread does between two points where another may interfere.
 */
module Forward {
  import opened Bytes
  import opened Plugin

  // ----- the bounded queue -----

  /** The locked part of `send`: a full queue loses its oldest element. Size 0 means unbounded. */
  function Enqueue<T>(q: seq<T>, size: nat, x: T): seq<T> {
    (if size != 0 && size <= |q| then q[1..] else q) + [x]
  }

  function Displaced<T>(q: seq<T>, size: nat): seq<T> {
    if size != 0 && size <= |q| then q[..1] else []
  }

  function EnqueueAll<T>(q: seq<T>, size: nat, xs: seq<T>): seq<T>
    decreases |xs|
  {
    if xs == [] then q else EnqueueAll(Enqueue(q, size, xs[0]), size, xs[1..])
  }

  function Last<T>(s: seq<T>, n: nat): seq<T> {
    if n <= |s| then s[|s| - n..] else s
  }

  lemma EnqueueKeepsLast<T>(q: seq<T>, size: nat, x: T, rest: seq<T>)
    requires size != 0 ==> |q| <= size
    ensures size == 0 ==> Enqueue(q, size, x) + rest == q + [x] + rest
    ensures size != 0 ==> |Enqueue(q, size, x)| <= size
    ensures size != 0 ==> Last(Enqueue(q, size, x) + rest, size) == Last(q + [x] + rest, size)
  {
    if size != 0 && size <= |q| {
      var all := q + [x] + rest;
      assert q[1..] + [x] + rest == all[1..];
      assert |all| > size;
      assert all[1..][|all[1..]| - size..] == all[|all| - size..];
    }
  }

  /** Pushes without a dequeue keep exactly the last `size` elements of all that went in. */
  lemma {:induction false} EnqueueAllKeepsLast<T>(q: seq<T>, size: nat, xs: seq<T>)
    requires size != 0 ==> |q| <= size
    ensures EnqueueAll(q, size, xs) == if size == 0 then q + xs else Last(q + xs, size)
    decreases |xs|
  {
    if xs == [] {
      assert q + xs == q;
    } else {
      EnqueueAllKeepsLast(Enqueue(q, size, xs[0]), size, xs[1..]);
      EnqueueKeepsLast(q, size, xs[0], xs[1..]);
      assert q + xs == q + [xs[0]] + xs[1..];
    }
  }

  // ----- the state -----

  /** A producer thread inside handlePacket; `id` is the buffer it holds. */
  datatype Producer =
    | Idle
    | Holding(id: nat)
    | SawActive(id: nat)
    | Admitted(id: nat)
    | Refused(id: nat)

  /** Where the sender thread is. `starting` tells the first connect from a reconnect. */
  datatype Sender =
    | Absent
    | Entering
    | Clearing(starting: bool)
    | Dialing(starting: bool)
    | Top
    | Ready
    | Sending(id: nat, cursor: nat, len: nat)
    | Leaving

  /** The places a buffer can be in. */
  datatype Place = AtProducer(thread: nat) | Queued | AtSender | Freed

  /**
   * One TCP connection: the bytes written to it; and, as history, the buffers written in
   * full and the part of a further one.
   */
  datatype Connection = Connection(bytes: Data, sent: seq<nat>, part: Data)

  datatype State = State(
    // configuration
    queueSize: nat,
    missionMode: int,
    // variables of the program; a buffer's number is its place in the order of production
    sequenceCounter: uint16,
    producers: map<nat, Producer>,
    buffers: seq<Data>,
    queue: seq<nat>,
    active: bool,
    connected: bool,
    sender: Sender,
    // the network
    connections: seq<Connection>,
    // history: the packets produced and their threads, the pushes, the frees, the owners
    packets: seq<Data>,
    maker: seq<nat>,
    pushed: seq<nat>,
    freed: seq<nat>,
    place: seq<Place>)

  function Initial(queueSize: nat, missionMode: int): State {
    State(queueSize, missionMode, 0, map[], [], [], false, false, Absent, [], [], [], [], [], [])
  }

  // ----- the steps -----

  datatype Event =
    | Produce(thread: nat, packet: Data)
    | ReadActive(thread: nat)
    | ReadConnected(thread: nat)
    | Push(thread: nat)
    | Discard(thread: nat)
    | Start
    | Shutdown
    | Enter
    | Clear
    | Dial(ok: bool)
    | Loop(due: bool)
    | Poll
    | Transmit(count: nat)
    | Break
    | Release
    | Leave

  function At(s: State, t: nat): Producer {
    if t in s.producers then s.producers[t] else Idle
  }

  function InBuffer(s: State, id: nat): Data {
    if id < |s.buffers| then s.buffers[id] else []
  }

  /** The sender reads the packet size back out of the buffer. */
  function LengthToSend(b: Data): nat {
    if |b| >= 12 then FrameLength(b) else 0
  }

  function Slice(b: Data, from: nat, count: nat): Data {
    if from + count <= |b| then b[from..from + count] else []
  }

  function Replace(place: seq<Place>, ids: seq<nat>, p: Place): (r: seq<Place>)
    ensures |r| == |place|
    ensures forall k :: 0 <= k < |place| ==> r[k] == if k in ids then p else place[k]
  {
    seq(|place|, k requires 0 <= k < |place| => if k in ids then p else place[k])
  }

  predicate IsPacket(data: Data) {
    0 < |data| <= MAX_PACKET
  }

  /** A new number under the counter's mutex, and a buffer no other thread can see yet. */
  function DoProduce(s: State, t: nat, packet: Data): State
    requires IsPacket(packet)
  {
    var id := |s.packets|;
    s.(sequenceCounter := (s.sequenceCounter + 1) % 0x1_0000,
       producers := s.producers[t := Holding(id)],
       buffers := s.buffers + [PluginFrame(s.missionMode, s.sequenceCounter, packet)],
       packets := s.packets + [packet],
       maker := s.maker + [t],
       place := s.place + [AtProducer(t)])
  }

  function DoPush(s: State, t: nat, id: nat): State {
    var lost := Displaced(s.queue, s.queueSize);
    s.(producers := s.producers[t := Idle],
       queue := Enqueue(s.queue, s.queueSize, id),
       pushed := s.pushed + [id],
       freed := s.freed + lost,
       place := Replace(Replace(s.place, lost, Freed), [id], Queued))
  }

  function Free(s: State, ids: seq<nat>): State {
    s.(freed := s.freed + ids, place := Replace(s.place, ids, Freed))
  }

  function DoPoll(s: State): State
    requires s.queue != []
  {
    var id := s.queue[0];
    s.(queue := s.queue[1..],
       sender := Sending(id, 0, LengthToSend(InBuffer(s, id))),
       place := Replace(s.place, [id], AtSender))
  }

  /** `::send` takes `count` bytes of the frame. */
  function DoTransmit(s: State, count: nat): State
    requires s.sender.Sending? && count <= s.sender.len && s.connections != []
  {
    var Sending(id, cursor, len) := s.sender;
    var b := InBuffer(s, id);
    var n := |s.connections| - 1;
    s.(sender := Sending(id, cursor + count, len - count),
       connections := s.connections[n := Extended(s.connections[n], id, b, cursor, count, count == len)])
  }

  function Extended(c: Connection, id: nat, b: Data, cursor: nat, count: nat, whole: bool): Connection {
    var bytes := c.bytes + Slice(b, cursor, count);
    if whole then Connection(bytes, c.sent + [id], []) else Connection(bytes, c.sent, Slice(b, 0, cursor + count))
  }

  function DoDiscard(s: State, t: nat, id: nat): State {
    Free(s.(producers := s.producers[t := Idle]), [id])
  }

  /** The beginning of `connect`, and then what comes of it. */
  function DoClear(s: State): State
    requires s.sender.Clearing?
  {
    Free(s.(queue := [], sender := Dialing(s.sender.starting)), s.queue)
  }

  function DoDial(s: State, ok: bool): State
    requires s.sender.Dialing?
  {
    var s' := s.(sender := if s.sender.starting then Top else Ready);
    if ok then s'.(connected := true, connections := s.connections + [Connection([], [], [])]) else s'
  }

  function DoRelease(s: State): State
    requires s.sender.Sending?
  {
    Free(s.(sender := Top), [s.sender.id])
  }

  /** The steps that move no buffer and no byte. */
  function DoQuietly(s: State, e: Event): State {
    match e
    case ReadActive(t) =>
      var p := At(s, t);
      if !p.Holding? then s
      else s.(producers := s.producers[t := if s.active then SawActive(p.id) else Refused(p.id)])
    case ReadConnected(t) =>
      var p := At(s, t);
      if !p.SawActive? then s
      else s.(producers := s.producers[t := if s.connected then Admitted(p.id) else Refused(p.id)])
    case Start => if s.sender.Absent? then s.(active := true, sender := Entering) else s
    case Shutdown => s.(active := false)
    case Enter =>
      if !s.sender.Entering? then s
      else s.(active := true, sender := if s.connected then Top else Clearing(true))
    case Loop(due) =>
      if !s.sender.Top? then s
      else s.(sender := if !s.active then Leaving
                        else if !s.connected && due then Clearing(false)
                        else Ready)
    case Poll => if s.sender.Ready? then s.(sender := Top) else s
    case Break =>
      if s.sender.Sending? && s.sender.len > 0
      then s.(connected := false, sender := Sending(s.sender.id, s.sender.cursor, 0)) else s
    case Leave => if s.sender.Leaving? then s.(connected := false, sender := Absent) else s
    case _ => s
  }

  /** One step; an event that is not possible in the state changes nothing. */
  function Next(s: State, e: Event): State {
    match e
    case Produce(t, packet) => if At(s, t).Idle? && IsPacket(packet) then DoProduce(s, t, packet) else s
    case Push(t) => if At(s, t).Admitted? then DoPush(s, t, At(s, t).id) else s
    case Discard(t) => if At(s, t).Refused? then DoDiscard(s, t, At(s, t).id) else s
    case Clear => if s.sender.Clearing? then DoClear(s) else s
    case Dial(ok) => if s.sender.Dialing? then DoDial(s, ok) else s
    case Poll => if s.sender.Ready? && s.connected && s.queue != [] then DoPoll(s) else DoQuietly(s, e)
    case Transmit(count) =>
      if s.sender.Sending? && s.sender.len > 0 && count <= s.sender.len && s.connections != []
      then DoTransmit(s, count) else s
    case Release => if s.sender.Sending? && s.sender.len == 0 then DoRelease(s) else s
    case _ => DoQuietly(s, e)
  }

  function Run(s: State, es: seq<Event>): State {
    if es == [] then s else Next(Run(s, es[..|es| - 1]), es[|es| - 1])
  }

  // ----- numbering -----

  ghost predicate Numbered(s: State) {
    && |s.maker| == |s.packets| == |s.buffers| == |s.place|
    && s.sequenceCounter == |s.packets| % 0x1_0000
    && (forall k :: 0 <= k < |s.packets| ==> IsPacket(s.packets[k]))
    && (forall k :: 0 <= k < |s.packets| ==>
          s.buffers[k] == PluginFrame(s.missionMode, k % 0x1_0000, s.packets[k]))
  }

  lemma ProduceKeepsNumbered(s: State, t: nat, packet: Data)
    requires Numbered(s) && IsPacket(packet)
    ensures Numbered(DoProduce(s, t, packet))
  {
    hide PluginFrame;
  }

  /** What a step that makes no buffer leaves as it is. */
  ghost predicate SameMade(s: State, s': State) {
    && s'.missionMode == s.missionMode && s'.sequenceCounter == s.sequenceCounter
    && s'.buffers == s.buffers && s'.packets == s.packets && s'.maker == s.maker
    && |s'.place| == |s.place|
  }

  lemma OnlyProduceMakes(s: State, e: Event)
    requires !e.Produce?
    ensures SameMade(s, Next(s, e))
  {
    hide Replace, Enqueue, Displaced, Extended, Slice, InBuffer, LengthToSend;
  }

  lemma SameMadeKeepsNumbered(s: State, s': State)
    requires Numbered(s) && SameMade(s, s')
    ensures Numbered(s')
  {
    hide PluginFrame, IsPacket;
  }

  lemma NextKeepsNumbered(s: State, e: Event)
    requires Numbered(s)
    ensures Numbered(Next(s, e))
  {
    hide Numbered, SameMade, DoProduce, DoPush, DoDiscard, DoClear, DoDial, DoPoll, DoTransmit, DoRelease, DoQuietly;
    if e.Produce? {
      if At(s, e.thread).Idle? && IsPacket(e.packet) {
        ProduceKeepsNumbered(s, e.thread, e.packet);
      }
    } else {
      OnlyProduceMakes(s, e);
      SameMadeKeepsNumbered(s, Next(s, e));
    }
  }

  // ----- quiet steps -----

  /** No buffer moves; a connection can only be lost, and only while its buffer is given up. */
  ghost predicate IsQuiet(s: State, s': State) {
    && SameMade(s, s')
    && s'.queueSize == s.queueSize && s'.queue == s.queue && s'.pushed == s.pushed
    && s'.freed == s.freed && s'.place == s.place && s'.connections == s.connections
    && (forall t :: At(s', t) == Idle <==> At(s, t) == Idle)
    && (forall t :: At(s, t) != Idle ==> At(s', t).id == At(s, t).id)
    && (s'.sender.Sending? <==> s.sender.Sending?)
    && (s.sender.Sending? ==> s'.sender.id == s.sender.id && s'.sender.cursor == s.sender.cursor)
    && (s.sender.Sending? ==> s'.sender.len == s.sender.len || (s'.sender.len == 0 && !s'.connected))
    && (s'.connected ==> s.connected)
    && (s.sender.Sending? && s'.sender.len > 0 ==> s'.connected == s.connected)
  }

  lemma QuietlyIsQuiet(s: State, e: Event)
    ensures IsQuiet(s, DoQuietly(s, e))
  {
  }

  // ----- ownership -----

  /** Is the buffer, by the program's own variables, at this place? */
  predicate IsAt(s: State, place: Place, id: nat) {
    match place
    case AtProducer(t) => At(s, t) != Idle && At(s, t).id == id
    case Queued => id in s.queue
    case AtSender => s.sender.Sending? && s.sender.id == id
    case Freed => id in s.freed
  }

  /** The recorded places are the actual ones. */
  ghost predicate Owned(s: State) {
    && (forall p: Place, id: nat :: IsAt(s, p, id) ==> id < |s.place| && s.place[id] == p)
    && (forall id: nat :: id < |s.place| ==> IsAt(s, s.place[id], id))
    && HasNoRepeats(s.queue)
    && HasNoRepeats(s.freed)
  }

  lemma JoinWithoutDuplicates(a: seq<nat>, b: seq<nat>)
    requires HasNoRepeats(a) && HasNoRepeats(b) && forall k :: k in a ==> k !in b
    ensures HasNoRepeats(a + b)
  {
    forall i, j | 0 <= i < j < |a + b|
      ensures (a + b)[i] != (a + b)[j]
    {
      assert i < |a| <= j ==> (a + b)[i] in a && (a + b)[j] in b;
    }
  }

  /** A step that moves no buffer. */
  lemma UnmovedKeepsOwned(s: State, s': State)
    requires Owned(s)
    requires s'.place == s.place && s'.queue == s.queue && s'.freed == s.freed
    requires forall t :: At(s', t) == Idle <==> At(s, t) == Idle
    requires forall t :: At(s, t) != Idle ==> At(s', t).id == At(s, t).id
    requires s'.sender.Sending? <==> s.sender.Sending?
    requires s.sender.Sending? ==> s'.sender.id == s.sender.id
    ensures Owned(s')
  {
    assert forall p, id: nat :: IsAt(s', p, id) <==> IsAt(s, p, id);
  }

  lemma ProduceKeepsOwned(s: State, t: nat, packet: Data)
    requires Numbered(s) && Owned(s)
    requires At(s, t).Idle? && IsPacket(packet)
    ensures Owned(DoProduce(s, t, packet))
  {
    hide PluginFrame;
    var s' := DoProduce(s, t, packet);
    var n := |s.place|;
    assert forall p, id: nat :: IsAt(s', p, id) <==> IsAt(s, p, id) || (p == AtProducer(t) && id == n);
  }

  lemma PushKeepsOwned(s: State, t: nat)
    requires Numbered(s) && Owned(s)
    requires At(s, t).Admitted?
    ensures Owned(DoPush(s, t, At(s, t).id))
  {
    var id := At(s, t).id;
    var s' := DoPush(s, t, id);
    var lost := Displaced(s.queue, s.queueSize);
    assert IsAt(s, AtProducer(t), id);
    assert forall k :: k in s.queue ==> IsAt(s, Queued, k);
    assert forall k :: k in s.freed ==> IsAt(s, Freed, k);
    assert forall k :: k in lost ==> k in s.queue;
    forall p, k: nat | IsAt(s', p, k)
      ensures k < |s'.place| && s'.place[k] == p
    {
      if p == Queued {
        assert k == id || k in s.queue;
      } else if p == Freed {
        assert k in lost || k in s.freed;
      } else {
        assert IsAt(s, p, k);
      }
    }
    JoinWithoutDuplicates(s.freed, lost);
    var kept := if lost == [] then s.queue else s.queue[1..];
    assert forall k :: k in kept ==> k in s.queue;
    assert id !in s.queue;
    JoinWithoutDuplicates(kept, [id]);
  }

  /** Buffers that leave the place where they all were, and are freed. */
  lemma FreeKeepsOwned(s: State, s': State, from: Place, ids: seq<nat>)
    requires Owned(s) && HasNoRepeats(ids) && from != Freed
    requires forall k: nat :: IsAt(s, from, k) <==> k in ids
    requires s'.place == Replace(s.place, ids, Freed) && s'.freed == s.freed + ids
    requires HasNoRepeats(s'.queue)
    requires forall k: nat :: !IsAt(s', from, k)
    requires forall p, k: nat :: p != from && p != Freed ==> (IsAt(s', p, k) <==> IsAt(s, p, k))
    ensures Owned(s')
  {
    assert forall k :: k in s.freed ==> IsAt(s, Freed, k);
    forall p, k: nat | IsAt(s', p, k)
      ensures k < |s'.place| && s'.place[k] == p
    {
      if p == Freed {
        assert k in ids || k in s.freed;
      } else {
        assert IsAt(s, p, k);
      }
    }
    forall k: nat | k < |s'.place|
      ensures IsAt(s', s'.place[k], k)
    {
      assert IsAt(s, s.place[k], k);
    }
    JoinWithoutDuplicates(s.freed, ids);
  }

  lemma PollKeepsOwned(s: State)
    requires Owned(s) && s.queue != [] && s.sender.Ready?
    ensures Owned(DoPoll(s))
  {
    var id := s.queue[0];
    var s' := DoPoll(s);
    assert IsAt(s, Queued, id);
    forall p, k: nat | IsAt(s', p, k)
      ensures k < |s'.place| && s'.place[k] == p
    {
      if p == AtSender {
        assert k == id;
      } else {
        assert IsAt(s, p, k);
      }
    }
    forall k: nat | k < |s'.place|
      ensures IsAt(s', s'.place[k], k)
    {
      assert IsAt(s, s.place[k], k);
    }
  }

  lemma DialKeepsOwned(s: State, ok: bool)
    requires Owned(s) && s.sender.Dialing?
    ensures Owned(DoDial(s, ok))
  {
    hide Owned;
    UnmovedKeepsOwned(s, DoDial(s, ok));
  }

  lemma TransmitKeepsOwned(s: State, count: nat)
    requires Owned(s) && s.sender.Sending? && count <= s.sender.len && s.connections != []
    ensures Owned(DoTransmit(s, count))
  {
    hide Owned, Extended, InBuffer;
    UnmovedKeepsOwned(s, DoTransmit(s, count));
  }

  lemma DiscardKeepsOwned(s: State, t: nat)
    requires Owned(s) && At(s, t).Refused?
    ensures Owned(DoDiscard(s, t, At(s, t).id))
  {
    FreeKeepsOwned(s, DoDiscard(s, t, At(s, t).id), AtProducer(t), [At(s, t).id]);
  }

  lemma ClearKeepsOwned(s: State)
    requires Owned(s) && s.sender.Clearing?
    ensures Owned(DoClear(s))
  {
    FreeKeepsOwned(s, DoClear(s), Queued, s.queue);
  }

  lemma ReleaseKeepsOwned(s: State)
    requires Owned(s) && s.sender.Sending?
    ensures Owned(DoRelease(s))
  {
    FreeKeepsOwned(s, DoRelease(s), AtSender, [s.sender.id]);
  }

  lemma QuietKeepsOwned(s: State, s': State)
    requires Owned(s) && IsQuiet(s, s')
    ensures Owned(s')
  {
    hide Owned;
    UnmovedKeepsOwned(s, s');
  }

  lemma NextKeepsOwned(s: State, e: Event)
    requires Numbered(s) && Owned(s)
    ensures Owned(Next(s, e))
  {
    hide Numbered, Owned, IsQuiet, DoProduce, DoPush, DoDiscard, DoClear, DoDial, DoPoll, DoTransmit, DoRelease,
      DoQuietly;
    QuietlyIsQuiet(s, e);
    QuietKeepsOwned(s, DoQuietly(s, e));
    if Next(s, e) != s && Next(s, e) != DoQuietly(s, e) {
      match e {
        case Produce(t, packet) => ProduceKeepsOwned(s, t, packet);
        case Push(t) => PushKeepsOwned(s, t);
        case Discard(t) => DiscardKeepsOwned(s, t);
        case Clear => ClearKeepsOwned(s);
        case Dial(ok) => DialKeepsOwned(s, ok);
        case Poll => PollKeepsOwned(s);
        case Transmit(count) => TransmitKeepsOwned(s, count);
        case Release => ReleaseKeepsOwned(s);
        case _ =>
      }
    }
  }

  // ----- the queue -----

  ghost predicate Bounded(s: State) {
    && (s.queueSize != 0 ==> |s.queue| <= s.queueSize)
    && |s.queue| <= |s.pushed|
    && s.queue == s.pushed[|s.pushed| - |s.queue|..]
  }

  lemma PushKeepsBounded(s: State, t: nat, id: nat)
    requires Bounded(s)
    ensures Bounded(DoPush(s, t, id))
  {
    var n := |s.pushed| - |s.queue|;
    var s' := DoPush(s, t, id);
    assert s.pushed[n..] + [id] == s'.pushed[n..];
    assert s.queue != [] ==> s.queue[1..] + [id] == s'.pushed[n + 1..];
  }

  /** Steps other than these do not touch the queue. */
  lemma QueueStays(s: State, e: Event)
    requires !e.Push? && !e.Clear? && !e.Poll?
    ensures Next(s, e).queue == s.queue && Next(s, e).pushed == s.pushed && Next(s, e).queueSize == s.queueSize
  {
    hide Replace, Extended, Slice, InBuffer, PluginFrame;
  }

  lemma NextKeepsBounded(s: State, e: Event)
    requires Bounded(s)
    ensures Bounded(Next(s, e))
  {
    hide DoPush, Replace, LengthToSend, InBuffer, DoProduce, DoDiscard, DoTransmit, DoDial, DoRelease;
    match e {
      case Push(t) =>
        if At(s, t).Admitted? {
          PushKeepsBounded(s, t, At(s, t).id);
        }
      case Clear =>
      case Poll =>
      case _ => QueueStays(s, e);
    }
  }

  // ----- the wire -----

  /** The frames of a list of buffers, one after the other. */
  function Flat(buffers: seq<Data>, ids: seq<nat>): Data {
    if ids == [] then []
    else
      var id := ids[|ids| - 1];
      Flat(buffers, ids[..|ids| - 1]) + (if id < |buffers| then buffers[id] else [])
  }

  ghost predicate IsStrictPart(buffers: seq<Data>, part: Data) {
    part == [] || exists id :: 0 <= id < |buffers| && part < buffers[id]
  }

  ghost predicate IsFramed(buffers: seq<Data>, c: Connection) {
    && (forall i :: 0 <= i < |c.sent| ==> c.sent[i] < |buffers|)
    && c.bytes == Flat(buffers, c.sent) + c.part
    && IsStrictPart(buffers, c.part)
  }

  /** What the open connection carries beyond whole frames is what the sender has sent so far. */
  ghost predicate Wired(s: State) {
    && (forall i :: 0 <= i < |s.connections| ==> IsFramed(s.buffers, s.connections[i]))
    && (s.connected ==> s.connections != [])
    && (s.connected ==>
          s.connections[|s.connections| - 1].part
          == if s.sender.Sending? && s.sender.len > 0 then Slice(InBuffer(s, s.sender.id), 0, s.sender.cursor) else [])
    && (s.sender.Sending? ==>
          && s.sender.id < |s.buffers|
          && s.sender.cursor + s.sender.len <= |s.buffers[s.sender.id]|
          && (s.sender.len > 0 ==> s.connected && s.sender.cursor + s.sender.len == |s.buffers[s.sender.id]|))
  }

  lemma {:induction false} FlatOfMore(buffers: seq<Data>, more: seq<Data>, ids: seq<nat>)
    requires forall i :: 0 <= i < |ids| ==> ids[i] < |buffers|
    ensures Flat(buffers + more, ids) == Flat(buffers, ids)
  {
    if ids == [] {
    } else {
      FlatOfMore(buffers, more, ids[..|ids| - 1]);
    }
  }

  lemma FramedOfMore(buffers: seq<Data>, more: seq<Data>, c: Connection)
    requires IsFramed(buffers, c)
    ensures IsFramed(buffers + more, c)
  {
    FlatOfMore(buffers, more, c.sent);
    if c.part != [] {
      var id :| 0 <= id < |buffers| && c.part < buffers[id];
      assert (buffers + more)[id] == buffers[id];
    }
  }

  lemma ProduceKeepsWired(s: State, t: nat, packet: Data)
    requires Numbered(s) && Wired(s) && IsPacket(packet)
    ensures Wired(DoProduce(s, t, packet))
  {
    hide PluginFrame, IsFramed;
    var s' := DoProduce(s, t, packet);
    forall i | 0 <= i < |s.connections|
      ensures IsFramed(s'.buffers, s.connections[i])
    {
      FramedOfMore(s.buffers, [PluginFrame(s.missionMode, s.sequenceCounter, packet)], s.connections[i]);
    }
  }

  lemma PollKeepsWired(s: State)
    requires Numbered(s) && Owned(s) && Wired(s) && s.queue != [] && s.sender.Ready? && s.connected
    ensures Wired(DoPoll(s))
  {
    hide PluginFrame, IsFramed, FrameLength;
    var id := s.queue[0];
    assert IsAt(s, Queued, id);
    FrameLengthIsSize(s.missionMode, id % 0x1_0000, s.packets[id]);
    assert Slice(s.buffers[id], 0, 0) == [];
  }

  lemma FlatAppend(buffers: seq<Data>, ids: seq<nat>, id: nat)
    requires id < |buffers|
    ensures Flat(buffers, ids + [id]) == Flat(buffers, ids) + buffers[id]
  {
    assert (ids + [id])[..|ids|] == ids;
  }

  lemma ExtendKeepsFramed(buffers: seq<Data>, c: Connection, id: nat, cursor: nat, count: nat)
    requires IsFramed(buffers, c) && id < |buffers| && cursor + count <= |buffers[id]|
    requires c.part == buffers[id][..cursor]
    ensures IsFramed(buffers, Extended(c, id, buffers[id], cursor, count, cursor + count == |buffers[id]|))
  {
    hide Flat;
    var b := buffers[id];
    var more := b[cursor..cursor + count];
    assert b[..cursor] + more == b[..cursor + count];
    Assoc(Flat(buffers, c.sent), b[..cursor], more);
    if cursor + count == |b| {
      assert b[..cursor + count] == b;
      FlatAppend(buffers, c.sent, id);
      assert Flat(buffers, c.sent + [id]) + [] == Flat(buffers, c.sent + [id]);
    } else {
      assert b[..cursor + count] < b;
    }
  }

  lemma TransmitKeepsWired(s: State, count: nat)
    requires Wired(s) && s.sender.Sending? && 0 < s.sender.len && count <= s.sender.len
    ensures Wired(DoTransmit(s, count))
  {
    hide IsFramed;
    var Sending(id, cursor, len) := s.sender;
    ExtendKeepsFramed(s.buffers, s.connections[|s.connections| - 1], id, cursor, count);
  }

  lemma QuietKeepsWired(s: State, s': State)
    requires Wired(s) && IsQuiet(s, s')
    ensures Wired(s')
  {
    hide IsFramed, Slice;
  }

  /** No byte is sent; the sender stays where it is, or leaves a buffer it is done with. */
  ghost predicate SameWire(s: State, s': State) {
    && s'.buffers == s.buffers && s'.connections == s.connections && s'.connected == s.connected
    && (s'.sender == s.sender || (!s'.sender.Sending? && (s.sender.Sending? ==> s.sender.len == 0)))
  }

  lemma SameWireKeepsWired(s: State, s': State)
    requires Wired(s) && SameWire(s, s')
    ensures Wired(s')
  {
    hide IsFramed, Slice;
  }

  lemma DialKeepsWired(s: State, ok: bool)
    requires Wired(s) && s.sender.Dialing?
    ensures Wired(DoDial(s, ok))
  {
    hide IsFramed;
    NewConnectionIsFramed(s.buffers);
  }

  lemma StepsOffTheWire(s: State, t: nat, id: nat)
    ensures SameWire(s, DoPush(s, t, id)) && SameWire(s, DoDiscard(s, t, id))
    ensures s.sender.Clearing? ==> SameWire(s, DoClear(s))
    ensures s.sender.Sending? && s.sender.len == 0 ==> SameWire(s, DoRelease(s))
  {
    hide Replace, Enqueue, Displaced;
  }

  lemma NextKeepsWired(s: State, e: Event)
    requires Numbered(s) && Owned(s) && Wired(s)
    ensures Wired(Next(s, e))
  {
    hide Numbered, Owned, Wired, IsQuiet, SameWire, DoProduce, DoPush, DoDiscard, DoClear, DoDial, DoPoll, DoTransmit,
      DoRelease, DoQuietly;
    var s' := Next(s, e);
    QuietlyIsQuiet(s, e);
    QuietKeepsWired(s, DoQuietly(s, e));
    if s' != s && s' != DoQuietly(s, e) {
      match e {
        case Produce(t, packet) => ProduceKeepsWired(s, t, packet);
        case Push(t) =>
          StepsOffTheWire(s, t, At(s, t).id);
          SameWireKeepsWired(s, s');
        case Discard(t) =>
          StepsOffTheWire(s, t, At(s, t).id);
          SameWireKeepsWired(s, s');
        case Clear =>
          StepsOffTheWire(s, 0, 0);
          SameWireKeepsWired(s, s');
        case Dial(ok) => DialKeepsWired(s, ok);
        case Poll => PollKeepsWired(s);
        case Transmit(count) => TransmitKeepsWired(s, count);
        case Release =>
          StepsOffTheWire(s, 0, 0);
          SameWireKeepsWired(s, s');
        case _ =>
      }
    }
  }

  lemma NewConnectionIsFramed(buffers: seq<Data>)
    ensures IsFramed(buffers, Connection([], [], []))
  {
  }

  // ----- the order of transmission -----

  /** All buffers written in full, over all connections, in the order they were written. */
  function AllSent(cs: seq<Connection>): seq<nat> {
    if cs == [] then [] else AllSent(cs[..|cs| - 1]) + cs[|cs| - 1].sent
  }

  /** The buffer at the sender, unless it has been written in full. */
  function InFlight(s: State): seq<nat> {
    if s.sender.Sending? && s.sender.cursor < |InBuffer(s, s.sender.id)| then [s.sender.id] else []
  }

  /** What was written, what is being written, what waits. */
  function Chain(s: State): seq<nat> {
    AllSent(s.connections) + InFlight(s) + s.queue
  }

  /** Buffers of one thread appear in the order of their production. */
  ghost predicate InOrder(maker: seq<nat>, ids: seq<nat>) {
    && (forall i :: 0 <= i < |ids| ==> ids[i] < |maker|)
    && (forall i, j :: 0 <= i < j < |ids| && maker[ids[i]] == maker[ids[j]] ==> ids[i] < ids[j])
  }

  /** What a thread holds was made by it, after everything else of its making. */
  ghost predicate HeldLast(s: State, t: nat) {
    At(s, t) != Idle ==>
      var id := At(s, t).id;
      && id < |s.maker| && s.maker[id] == t
      && (forall k :: id < k < |s.maker| ==> s.maker[k] != t)
      && (forall x :: x in Chain(s) && x < |s.maker| && s.maker[x] == t ==> x < id)
  }

  ghost predicate Ordered(s: State) {
    && |s.maker| == |s.buffers|
    && InOrder(s.maker, Chain(s))
    && (forall t :: HeldLast(s, t))
    && (s.sender.Sending? ==> s.sender.id in AllSent(s.connections) + InFlight(s))
  }

  lemma InOrderWithout(maker: seq<nat>, a: seq<nat>, x: seq<nat>, b: seq<nat>)
    requires InOrder(maker, a + x + b)
    ensures InOrder(maker, a + b)
  {
    var all := a + x + b;
    forall i | 0 <= i < |a + b|
      ensures (a + b)[i] == all[if i < |a| then i else i + |x|]
    {
    }
    forall i, j | 0 <= i < j < |a + b| && maker[(a + b)[i]] == maker[(a + b)[j]]
      ensures (a + b)[i] < (a + b)[j]
    {
      assert maker[all[if i < |a| then i else i + |x|]] == maker[all[if j < |a| then j else j + |x|]];
    }
  }

  lemma InOrderAppend(maker: seq<nat>, ids: seq<nat>, id: nat)
    requires InOrder(maker, ids) && id < |maker|
    requires forall x :: x in ids && x < |maker| && maker[x] == maker[id] ==> x < id
    ensures InOrder(maker, ids + [id])
  {
    forall i, j | 0 <= i < j < |ids + [id]| && maker[(ids + [id])[i]] == maker[(ids + [id])[j]]
      ensures (ids + [id])[i] < (ids + [id])[j]
    {
      assert (ids + [id])[i] == ids[i] && ids[i] in ids;
    }
  }

  /** A step that makes no buffer and only takes buffers out of the chain. */
  lemma ShrinkKeepsOrdered(s: State, s': State)
    requires Ordered(s)
    requires s'.maker == s.maker && |s'.buffers| == |s.buffers|
    requires InOrder(s'.maker, Chain(s'))
    requires forall x :: x in Chain(s') ==> x in Chain(s)
    requires forall t :: At(s', t) != Idle ==> At(s, t) != Idle && At(s', t).id == At(s, t).id
    requires s'.sender.Sending? ==> s'.sender.id in AllSent(s'.connections) + InFlight(s')
    ensures Ordered(s')
  {
    forall t
      ensures HeldLast(s', t)
    {
      assert HeldLast(s, t);
    }
  }

  lemma ProduceKeepsOrdered(s: State, t: nat, packet: Data)
    requires Numbered(s) && Wired(s) && Ordered(s) && IsPacket(packet) && At(s, t).Idle?
    ensures Ordered(DoProduce(s, t, packet))
  {
    hide PluginFrame, IsFramed;
    var s' := DoProduce(s, t, packet);
    assert InFlight(s') == InFlight(s);
    assert Chain(s') == Chain(s);
    forall i, j | 0 <= i < j < |Chain(s')| && s'.maker[Chain(s')[i]] == s'.maker[Chain(s')[j]]
      ensures Chain(s')[i] < Chain(s')[j]
    {
      assert s.maker[Chain(s)[i]] == s.maker[Chain(s)[j]];
    }
    forall u
      ensures HeldLast(s', u)
    {
      assert HeldLast(s, u);
      if u == t {
        forall x | x in Chain(s')
          ensures x < |s.maker|
        {
          var i :| 0 <= i < |Chain(s)| && Chain(s)[i] == x;
        }
      }
    }
  }

  lemma InFlightOf(s: State, s': State)
    requires s'.sender == s.sender && s'.buffers == s.buffers
    ensures InFlight(s') == InFlight(s)
  {
  }

  lemma PushKeepsOrdered(s: State, t: nat)
    requires Ordered(s) && At(s, t).Admitted?
    ensures Ordered(DoPush(s, t, At(s, t).id))
  {
    hide Wired, InFlight, AllSent;
    var id := At(s, t).id;
    var s' := DoPush(s, t, id);
    assert InFlight(s') == InFlight(s) by {
      InFlightOf(s, s');
    }
    var before := AllSent(s.connections) + InFlight(s);
    var lost := Displaced(s.queue, s.queueSize);
    var kept := s.queue[|lost|..];
    assert HeldLast(s, t);
    assert Chain(s) == before + lost + kept;
    InOrderWithout(s.maker, before, lost, kept);
    assert forall x :: x in before + kept ==> x in Chain(s);
    InOrderAppend(s.maker, before + kept, id);
    assert Chain(s') == before + kept + [id];
    forall u
      ensures HeldLast(s', u)
    {
      assert HeldLast(s, u);
    }
  }

  lemma ClearKeepsOrdered(s: State)
    requires Ordered(s) && s.sender.Clearing?
    ensures Ordered(DoClear(s))
  {
    var s' := DoClear(s);
    var sent := AllSent(s.connections);
    assert InFlight(s) == [] && InFlight(s') == [];
    assert Chain(s) == sent + s.queue + [];
    assert Chain(s') == sent + [];
    InOrderWithout(s.maker, sent, s.queue, []);
    ShrinkKeepsOrdered(s, s');
  }

  lemma PollKeepsOrdered(s: State)
    requires Numbered(s) && Owned(s) && Ordered(s) && s.queue != [] && s.sender.Ready?
    ensures Ordered(DoPoll(s))
  {
    hide PluginFrame, LengthToSend;
    var id := s.queue[0];
    assert IsAt(s, Queued, id);
    assert |s.buffers[id]| > 0;
    assert Chain(DoPoll(s)) == Chain(s);
    ShrinkKeepsOrdered(s, DoPoll(s));
  }

  lemma TransmitKeepsOrdered(s: State, count: nat)
    requires Wired(s) && Ordered(s) && s.sender.Sending? && 0 < s.sender.len && count <= s.sender.len
    ensures Ordered(DoTransmit(s, count))
  {
    hide IsFramed;
    var Sending(id, cursor, len) := s.sender;
    var s' := DoTransmit(s, count);
    var n := |s.connections| - 1;
    assert s'.connections[..n] == s.connections[..n];
    if count == len {
      assert AllSent(s'.connections) == AllSent(s.connections) + [id];
      assert InFlight(s') == [] && InFlight(s) == [id];
    } else {
      assert AllSent(s'.connections) == AllSent(s.connections);
      assert InFlight(s') == InFlight(s);
    }
    assert Chain(s') == Chain(s);
    ShrinkKeepsOrdered(s, s');
  }

  lemma ReleaseKeepsOrdered(s: State)
    requires Ordered(s) && s.sender.Sending? && s.sender.len == 0
    ensures Ordered(DoRelease(s))
  {
    var s' := DoRelease(s);
    InOrderWithout(s.maker, AllSent(s.connections), InFlight(s), s.queue);
    assert Chain(s') == AllSent(s.connections) + s.queue;
    ShrinkKeepsOrdered(s, s');
  }

  lemma QuietKeepsOrdered(s: State, s': State)
    requires Ordered(s) && IsQuiet(s, s')
    ensures Ordered(s')
  {
    hide Ordered, AllSent;
    SameChainKeepsOrdered(s, s');
  }

  lemma DialKeepsOrdered(s: State, ok: bool)
    requires Ordered(s) && s.sender.Dialing?
    ensures Ordered(DoDial(s, ok))
  {
    hide Ordered;
    var s' := DoDial(s, ok);
    assert s'.connections == s.connections || s'.connections[..|s.connections|] == s.connections;
    SameChainKeepsOrdered(s, s');
  }

  lemma DiscardKeepsOrdered(s: State, t: nat)
    requires Ordered(s) && At(s, t).Refused?
    ensures Ordered(DoDiscard(s, t, At(s, t).id))
  {
    hide Ordered, AllSent, Replace;
    SameChainKeepsOrdered(s, DoDiscard(s, t, At(s, t).id));
  }

  lemma NextKeepsOrdered(s: State, e: Event)
    requires Numbered(s) && Owned(s) && Wired(s) && Ordered(s)
    ensures Ordered(Next(s, e))
  {
    hide Numbered, Owned, Wired, Ordered, IsQuiet, DoProduce, DoPush, DoDiscard, DoClear, DoDial, DoPoll, DoTransmit,
      DoRelease, DoQuietly;
    QuietlyIsQuiet(s, e);
    QuietKeepsOrdered(s, DoQuietly(s, e));
    if Next(s, e) != s && Next(s, e) != DoQuietly(s, e) {
      match e {
        case Produce(t, packet) => ProduceKeepsOrdered(s, t, packet);
        case Push(t) => PushKeepsOrdered(s, t);
        case Discard(t) => DiscardKeepsOrdered(s, t);
        case Clear => ClearKeepsOrdered(s);
        case Dial(ok) => DialKeepsOrdered(s, ok);
        case Poll => PollKeepsOrdered(s);
        case Transmit(count) => TransmitKeepsOrdered(s, count);
        case Release => ReleaseKeepsOrdered(s);
        case _ =>
      }
    }
  }

  lemma SameChainKeepsOrdered(s: State, s': State)
    requires Ordered(s)
    requires s'.maker == s.maker && s'.buffers == s.buffers && s'.queue == s.queue
    requires AllSent(s'.connections) == AllSent(s.connections)
    requires InFlight(s') == InFlight(s)
    requires forall t :: At(s', t) != Idle ==> At(s, t) != Idle && At(s', t).id == At(s, t).id
    requires s'.sender.Sending? ==> s.sender.Sending? && s'.sender.id == s.sender.id
    ensures Ordered(s')
  {
    assert Chain(s') == Chain(s);
    ShrinkKeepsOrdered(s, s');
  }
}
