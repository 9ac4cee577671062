/**
 * The code between two interference points of the forwarding client, over real buffers:
 * the locked push, the locked clear, the locked dequeue and the sending loop.
 */
module Client {
  import opened Bytes
  import opened Forward
  import opened Plugin

  /** A socket; `accepts` is how many bytes the network will take at each call before it fails. */
  class Socket {
    var wire: Data
    var accepts: seq<nat>

    constructor (accepts: seq<nat>)
      ensures wire == [] && this.accepts == accepts
    {
      wire, this.accepts := [], accepts;
    }

    method Send(buffer: array<byte>, cursor: nat, len: nat) returns (tx: int)
      requires cursor + len <= buffer.Length
      modifies this
      ensures old(accepts) == [] ==> tx == -1 && wire == old(wire) && accepts == []
      ensures old(accepts) != [] ==>
        && tx == (if old(accepts)[0] < len then old(accepts)[0] else len)
        && wire == old(wire) + buffer[cursor..cursor + tx]
        && accepts == old(accepts)[1..]
    {
      if accepts == [] {
        tx := -1;
      } else {
        tx := if accepts[0] < len then accepts[0] else len;
        wire := wire + buffer[cursor..cursor + tx];
        accepts := accepts[1..];
      }
    }
  }

  /** How many of `len` bytes go out before the network fails. */
  function Taken(len: nat, accepts: seq<nat>): (n: nat)
    ensures n <= len
    decreases |accepts|
  {
    if len == 0 || accepts == [] then 0
    else
      var tx := if accepts[0] < len then accepts[0] else len;
      tx + Taken(len - tx, accepts[1..])
  }

  lemma TakenInTwo(len: nat, accepts: seq<nat>)
    ensures len == 0 || accepts == [] ==> Taken(len, accepts) == 0
    ensures len > 0 && accepts != [] ==>
              var tx := if accepts[0] < len then accepts[0] else len;
              Taken(len, accepts) == tx + Taken(len - tx, accepts[1..])
  {
  }

  lemma LengthField(buffer: Data)
    requires |buffer| >= 12
    ensures FrameLength(buffer) == (FromBE32(buffer[8..12]) + 14) % 0x1_0000_0000
  {
  }

  class TcpForwardClient {
    const queueSize: nat
    var bufferQueue: seq<array<byte>>
    var active: bool
    var connected: bool
    ghost var deleted: seq<array<byte>>

    constructor (queueSize: nat)
      ensures this.queueSize == queueSize && bufferQueue == [] && deleted == [] && !active && !connected
    {
      this.queueSize := queueSize;
      bufferQueue, active, connected, deleted := [], false, false, [];
    }

    /** The locked part of `send`. */
    method Push(buffer: array<byte>)
      modifies this
      ensures active == old(active) && connected == old(connected)
      ensures bufferQueue == Enqueue(old(bufferQueue), queueSize, buffer)
      ensures deleted == old(deleted) + Displaced(old(bufferQueue), queueSize)
    {
      if queueSize != 0 && queueSize <= |bufferQueue| {
        deleted := deleted + [bufferQueue[0]];
        bufferQueue := bufferQueue[1..];
      }
      bufferQueue := bufferQueue + [buffer];
    }

    /** Without interference between the check and the lock: the buffer is queued or deleted. */
    method Send(buffer: array<byte>)
      modifies this
      ensures active == old(active) && connected == old(connected)
      ensures active && connected ==>
        && bufferQueue == Enqueue(old(bufferQueue), queueSize, buffer)
        && deleted == old(deleted) + Displaced(old(bufferQueue), queueSize)
      ensures !(active && connected) ==>
        bufferQueue == old(bufferQueue) && deleted == old(deleted) + [buffer]
    {
      if active && connected {
        Push(buffer);
      } else {
        deleted := deleted + [buffer];
      }
    }

    /** The beginning of `connect`. */
    method Clear()
      modifies this
      ensures bufferQueue == [] && deleted == old(deleted) + old(bufferQueue)
      ensures active == old(active) && connected == old(connected)
    {
      while bufferQueue != []
        invariant deleted + bufferQueue == old(deleted) + old(bufferQueue)
        invariant active == old(active) && connected == old(connected)
        decreases |bufferQueue|
      {
        Assoc(deleted, [bufferQueue[0]], bufferQueue[1..]);
        assert bufferQueue == [bufferQueue[0]] + bufferQueue[1..];
        deleted := deleted + [bufferQueue[0]];
        bufferQueue := bufferQueue[1..];
      }
    }

    method Dequeue() returns (buffer: array?<byte>)
      modifies this
      ensures old(bufferQueue) == [] ==> buffer == null && bufferQueue == []
      ensures old(bufferQueue) != [] ==> buffer != null && [buffer] + bufferQueue == old(bufferQueue)
      ensures active == old(active) && connected == old(connected) && deleted == old(deleted)
    {
      buffer := null;
      if bufferQueue != [] {
        buffer := bufferQueue[0];
        bufferQueue := bufferQueue[1..];
      }
    }

    method Disconnect()
      modifies this
      ensures !connected
      ensures active == old(active) && bufferQueue == old(bufferQueue) && deleted == old(deleted)
    {
      if !connected {
        return;
      }
      connected := false;
    }

    /**
     * The sender's inner loop: whatever the network does, the wire gains a prefix of the
     * frame, the connection survives exactly if it gained all of it, and the buffer is
     * deleted once.
     */
    method Transmit(socket: Socket, buffer: array<byte>)
      requires connected
      requires buffer.Length >= 12 && FrameLength(buffer[..]) == buffer.Length
      modifies this, socket
      ensures var n := Taken(buffer.Length, old(socket.accepts));
              socket.wire == old(socket.wire) + buffer[..n] && (connected <==> n == buffer.Length)
      ensures deleted == old(deleted) + [buffer]
      ensures bufferQueue == old(bufferQueue) && active == old(active)
    {
      hide FrameLength, FromBE32, Taken;
      var len: nat := (FromBE32(buffer[8..12]) + 14) % 0x1_0000_0000;
      assert buffer[8..12] == buffer[..][8..12];
      LengthField(buffer[..]);
      var cursor: nat := 0;
      ghost var n := Taken(buffer.Length, socket.accepts);
      while len > 0
        invariant cursor + len <= buffer.Length
        invariant socket.wire == old(socket.wire) + buffer[..cursor]
        invariant connected ==> cursor + len == buffer.Length && cursor + Taken(len, socket.accepts) == n
        invariant !connected ==> len == 0 && cursor == n < buffer.Length
        invariant bufferQueue == old(bufferQueue) && active == old(active) && deleted == old(deleted)
        decreases connected, |socket.accepts|, len
      {
        TakenInTwo(len, socket.accepts);
        var tx := socket.Send(buffer, cursor, len);
        if tx == -1 {
          Disconnect();
          len := 0;
        } else {
          assert buffer[..cursor] + buffer[cursor..cursor + tx] == buffer[..cursor + tx];
          len := len - tx;
          cursor := cursor + tx;
        }
      }
      TakenInTwo(len, socket.accepts);
      deleted := deleted + [buffer];
    }
  }

  // ----- the queue and the steps -----

  /** The numbers of a list of buffers. */
  ghost function Ids<B>(q: seq<B>, ids: map<B, nat>): seq<nat>
    requires forall b :: b in q ==> b in ids
  {
    seq(|q|, i requires 0 <= i < |q| => ids[q[i]])
  }

  /** The client's queue, and the buffers it has deleted, are those of the state. */
  ghost predicate Shows<B>(q: seq<B>, deleted: seq<B>, ids: map<B, nat>, s: State) {
    && (forall b :: b in q ==> b in ids)
    && (forall b :: b in deleted ==> b in ids)
    && Ids(q, ids) == s.queue
    && Ids(deleted, ids) == s.freed
  }

  lemma IdsOfConcat<B>(a: seq<B>, b: seq<B>, ids: map<B, nat>)
    requires forall x :: x in a || x in b ==> x in ids
    ensures forall x :: x in a + b ==> x in ids
    ensures Ids(a + b, ids) == Ids(a, ids) + Ids(b, ids)
  {
  }

  /** The locked push is the step Push. */
  lemma PushIsStep<B>(q: seq<B>, deleted: seq<B>, ids: map<B, nat>, b: B, s: State, t: nat)
    requires Shows(q, deleted, ids, s) && b in ids && At(s, t) == Admitted(ids[b])
    ensures Shows(Enqueue(q, s.queueSize, b), deleted + Displaced(q, s.queueSize), ids, Next(s, Push(t)))
  {
    var lost := Displaced(q, s.queueSize);
    var kept := q[|lost|..];
    assert q == lost + kept;
    IdsOfConcat(lost, kept, ids);
    IdsOfConcat(kept, [b], ids);
    IdsOfConcat(deleted, lost, ids);
    assert Ids([b], ids) == [ids[b]];
    assert Ids(lost, ids) == Displaced(s.queue, s.queueSize);
  }

  /** Deleting a refused buffer is the step Discard. */
  lemma DiscardIsStep<B>(q: seq<B>, deleted: seq<B>, ids: map<B, nat>, b: B, s: State, t: nat)
    requires Shows(q, deleted, ids, s) && b in ids && At(s, t) == Refused(ids[b])
    ensures Shows(q, deleted + [b], ids, Next(s, Discard(t)))
  {
    IdsOfConcat(deleted, [b], ids);
    assert Ids([b], ids) == [ids[b]];
  }

  /** A send without interference is the two checks and then the step they lead to. */
  lemma SendIsSteps<B>(q: seq<B>, deleted: seq<B>, ids: map<B, nat>, b: B, s: State, t: nat)
    requires Shows(q, deleted, ids, s) && b in ids && At(s, t) == Holding(ids[b])
    ensures var checked := Next(Next(s, ReadActive(t)), ReadConnected(t));
            if s.active && s.connected
            then Shows(Enqueue(q, s.queueSize, b), deleted + Displaced(q, s.queueSize), ids, Next(checked, Push(t)))
            else Shows(q, deleted + [b], ids, Next(checked, Discard(t)))
  {
    hide Next, Enqueue, Displaced;
    var checked := Next(Next(s, ReadActive(t)), ReadConnected(t));
    Checked(s, t);
    if s.active && s.connected {
      PushIsStep(q, deleted, ids, b, checked, t);
    } else {
      DiscardIsStep(q, deleted, ids, b, checked, t);
    }
  }

  lemma Checked(s: State, t: nat)
    requires At(s, t).Holding?
    ensures var s' := Next(Next(s, ReadActive(t)), ReadConnected(t));
            && s'.queue == s.queue && s'.freed == s.freed && s'.queueSize == s.queueSize
            && At(s', t) == if s.active && s.connected then Admitted(At(s, t).id) else Refused(At(s, t).id)
  {
  }

  /** Deleting everything queued is the step Clear. */
  lemma ClearIsStep<B>(q: seq<B>, deleted: seq<B>, ids: map<B, nat>, s: State)
    requires Shows(q, deleted, ids, s) && s.sender.Clearing?
    ensures Shows([], deleted + q, ids, Next(s, Clear))
  {
    IdsOfConcat(deleted, q, ids);
  }

  /** Taking the front of the queue, or nothing, is the step Poll. */
  lemma DequeueIsStep<B>(q: seq<B>, deleted: seq<B>, ids: map<B, nat>, s: State)
    requires Shows(q, deleted, ids, s) && s.sender.Ready? && s.connected
    ensures var s' := Next(s, Poll);
            if q == [] then Shows(q, deleted, ids, s') && s'.sender == Top
            else
              && Shows(q[1..], deleted, ids, s')
              && s'.sender == Sending(ids[q[0]], 0, LengthToSend(InBuffer(s, ids[q[0]])))
  {
    if q != [] {
      assert q == [q[0]] + q[1..];
      IdsOfConcat([q[0]], q[1..], ids);
      assert Ids([q[0]], ids) == [ids[q[0]]];
    }
  }

  /** Deleting the buffer after the sending loop is the step Release. */
  lemma ReleaseIsStep<B>(q: seq<B>, deleted: seq<B>, ids: map<B, nat>, b: B, s: State)
    requires Shows(q, deleted, ids, s) && b in ids
    requires s.sender.Sending? && s.sender.id == ids[b] && s.sender.len == 0
    ensures Shows(q, deleted + [b], ids, Next(s, Release))
  {
    IdsOfConcat(deleted, [b], ids);
    assert Ids([b], ids) == [ids[b]];
  }

  // ----- the loop and the steps -----

  /** The steps of the protocol that the network's answers stand for. */
  function TransmitEvents(len: nat, accepts: seq<nat>): seq<Event>
    decreases |accepts|
  {
    if accepts == [] then []
    else
      var tx := if accepts[0] < len then accepts[0] else len;
      [Forward.Transmit(tx)] + TransmitEvents(len - tx, accepts[1..])
  }

  lemma {:induction false} RunFirst(s: State, e: Event, es: seq<Event>)
    ensures Run(s, [e] + es) == Run(Next(s, e), es)
  {
    hide Next;
    if es == [] {
      assert [e] + es == [e] && [e][..0] == [];
      assert Run(s, []) == s;
    } else {
      assert ([e] + es)[..|es|] == [e] + es[..|es| - 1];
      RunFirst(s, e, es[..|es| - 1]);
    }
  }

  /** The state after the sender has sent `n` more bytes. */
  ghost predicate HasSent(s: State, s': State, n: nat)
    requires Wired(s) && s.connected && s.sender.Sending? && n <= s.sender.len
  {
    && Wired(s') && s'.connected && s'.buffers == s.buffers
    && s'.sender == Sending(s.sender.id, s.sender.cursor + n, s.sender.len - n)
    && s'.connections[|s'.connections| - 1].bytes
       == s.connections[|s.connections| - 1].bytes
          + s.buffers[s.sender.id][s.sender.cursor..s.sender.cursor + n]
  }

  lemma HasSentNothing(s: State)
    requires Wired(s) && s.connected && s.sender.Sending?
    ensures HasSent(s, s, 0)
  {
    assert s.buffers[s.sender.id][s.sender.cursor..s.sender.cursor] == [];
  }

  lemma TransmitHasSent(s: State, count: nat)
    requires Wired(s) && s.connected && s.sender.Sending? && 0 < s.sender.len && count <= s.sender.len
    ensures HasSent(s, DoTransmit(s, count), count)
  {
    hide IsFramed;
    TransmitKeepsWired(s, count);
  }

  lemma StepTransmits(s: State, count: nat)
    requires Wired(s) && s.connected && s.sender.Sending? && count <= s.sender.len
    ensures HasSent(s, Next(s, Forward.Transmit(count)), count)
  {
    hide Wired, HasSent, DoTransmit;
    WiredSender(s);
    if s.sender.len > 0 {
      TransmitHasSent(s, count);
    } else {
      HasSentNothing(s);
    }
  }

  lemma WiredSender(s: State)
    requires Wired(s) && s.connected && s.sender.Sending?
    ensures s.connections != [] && s.sender.id < |s.buffers|
    ensures s.sender.cursor + s.sender.len <= |s.buffers[s.sender.id]|
  {
  }

  lemma HasSentTwice(s: State, s1: State, s2: State, n: nat, m: nat)
    requires Wired(s) && s.connected && s.sender.Sending? && n <= s.sender.len
    requires HasSent(s, s1, n) && m <= s1.sender.len && HasSent(s1, s2, m)
    ensures HasSent(s, s2, n + m)
  {
    hide Wired;
    WiredSender(s);
    WiredSender(s1);
    WiredSender(s2);
    BytesTwice(s.connections[|s.connections| - 1].bytes, s.buffers[s.sender.id], s.sender.cursor, n, m);
  }

  lemma BytesTwice(wire: Data, b: Data, from: nat, n: nat, m: nat)
    requires from + n + m <= |b|
    ensures wire + b[from..from + n] + b[from + n..from + n + m] == wire + b[from..from + n + m]
  {
    assert b[from..from + n] + b[from + n..from + n + m] == b[from..from + n + m];
    Assoc(wire, b[from..from + n], b[from + n..from + n + m]);
  }

  /** The partial sends of the loop are steps of the protocol, and the same bytes go out. */
  lemma {:induction false} TransmitsAreSteps(s: State, accepts: seq<nat>)
    requires Wired(s) && s.connected && s.sender.Sending?
    ensures HasSent(s, Run(s, TransmitEvents(s.sender.len, accepts)), Taken(s.sender.len, accepts))
    decreases |accepts|
  {
    hide Wired, Next, HasSent;
    var len := s.sender.len;
    if accepts == [] {
      HasSentNothing(s);
    } else {
      var tx := if accepts[0] < len then accepts[0] else len;
      var s1 := Next(s, Forward.Transmit(tx));
      StepTransmits(s, tx);
      HasSentState(s, s1, tx);
      TransmitsAreSteps(s1, accepts[1..]);
      RunFirst(s, Forward.Transmit(tx), TransmitEvents(len - tx, accepts[1..]));
      HasSentTwice(s, s1, Run(s1, TransmitEvents(len - tx, accepts[1..])), tx, Taken(len - tx, accepts[1..]));
    }
  }

  lemma HasSentState(s: State, s': State, n: nat)
    requires Wired(s) && s.connected && s.sender.Sending? && n <= s.sender.len
    requires HasSent(s, s', n)
    ensures Wired(s') && s'.connected && s'.sender.Sending? && s'.sender.len == s.sender.len - n
  {
  }
}
