/** The web monitor: for every key a ring of messages, addressed by the feeds' own counters. */
module WebMonitor {
  import opened Bytes
  import opened Messages
  import opened Pool

  /** A time in nanoseconds; the zero time counts as no time at all. */
  const ZERO_TIME := 0
  const QUARTER := 15 * 60 * 1_000_000_000

  datatype Shown = Shown(uid: string, count: uint32, message: Message)

  datatype Slots = Slots(when: int, ms: seq<Option<Shown>>)

  datatype State = State(count: uint32, next: seq<nat>, rings: map<Key, Slots>)

  datatype Event =
    | Decoded(feed: nat, message: Message, uid: string, now: int)
    | Tick(t: int)

  function MessageKey(m: Message): Key {
    Key(m.realtime, m.origin, m.instance)
  }

  predicate Stale(when: int, t: int) {
    when != ZERO_TIME && t - when > QUARTER
  }

  predicate Fits(n: nat, s: State) {
    n > 0 && forall k :: k in s.rings ==> |s.rings[k].ms| == n
  }

  predicate Fed(e: Event, feeds: nat) {
    e.Decoded? ==> e.feed < feeds
  }

  function EmptyRing(n: nat): seq<Option<Shown>> {
    seq(n, _ => None)
  }

  /** The rings after a message is put into a slot of its key. */
  function Recorded(n: nat, rings: map<Key, Slots>, k: Key, slot: nat, m: Shown, now: int): map<Key, Slots>
    requires slot < n && forall l :: l in rings ==> |rings[l].ms| == n
  {
    var ms := if k in rings then rings[k].ms else EmptyRing(n);
    rings[k := Slots(now, ms[slot := Some(m)])]
  }

  /** The rings that a tick leaves. */
  function Cleaned(rings: map<Key, Slots>, t: int): map<Key, Slots> {
    map k | k in rings && !Stale(rings[k].when, t) :: rings[k]
  }

  lemma SameRings(a: map<Key, Slots>, b: map<Key, Slots>)
    requires forall k :: k in a <==> k in b
    requires forall k :: k in a ==> a[k] == b[k]
    ensures a == b
  {
  }

  function Step(n: nat, s: State, e: Event): (r: State)
    requires Fits(n, s) && Fed(e, |s.next|)
    ensures Fits(n, r) && |r.next| == |s.next|
  {
    match e
    case Tick(t) => s.(rings := Cleaned(s.rings, t))
    case Decoded(f, m, uid, now) =>
      var count := (s.count + 1) % 0x1_0000_0000;
      State(count, s.next[f := s.next[f] + 1],
            Recorded(n, s.rings, MessageKey(m), s.next[f] % n, Shown(uid, count, m), now))
  }

  /** Two messages share a ring exactly if they agree in origin, mode and instance. */
  lemma KeyByValue(a: Message, b: Message)
    ensures MessageKey(a) == MessageKey(b) <==>
            a.origin == b.origin && a.realtime == b.realtime && a.instance == b.instance
  {
  }

  /** A tick removes exactly the rings whose last message is more than 900 seconds old, and keeps the others. */
  lemma CleanByValue(rings: map<Key, Slots>, t: int, k: Key)
    ensures k in Cleaned(rings, t) <==> k in rings && (rings[k].when == 0 || t - rings[k].when <= 900_000_000_000)
    ensures k in Cleaned(rings, t) ==> Cleaned(rings, t)[k] == rings[k]
  {
  }

  // ----- the monitor itself -----

  class Ring {
    var when: int
    const ms: array<Option<Shown>>

    ghost function View(): Slots
      reads this, ms
    {
      Slots(when, ms[..])
    }

    constructor (n: nat)
      ensures fresh(ms) && View() == Slots(ZERO_TIME, EmptyRing(n))
    {
      when := ZERO_TIME;
      ms := new Option<Shown>[n](_ => None);
    }

    method Put(slot: nat, m: Shown, now: int)
      requires slot < ms.Length
      modifies this, ms
      ensures View() == Slots(now, old(ms[..])[slot := Some(m)])
    {
      when := now;
      ms[slot] := Some(m);
    }
  }

  class Monitor {
    const n: nat
    var count: uint32
    var next: seq<nat>
    var messages: map<Key, Ring>
    ghost var Repr: set<object>

    /** Every key has a ring of its own. */
    ghost predicate Valid()
      reads `messages, `Repr
    {
      && n > 0 && this !in Repr
      && (forall k :: k in messages ==> messages[k] in Repr && messages[k].ms in Repr)
      && (forall k :: k in messages ==> messages[k].ms.Length == n)
      && (forall k, l :: k in messages && l in messages && k != l ==>
            messages[k] != messages[l] && messages[k].ms != messages[l].ms)
    }

    ghost function Rings(): map<Key, Slots>
      requires Valid()
      reads `messages, `Repr, Repr
    {
      map k | k in messages :: messages[k].View()
    }

    ghost function View(): State
      requires Valid()
      reads this, Repr
    {
      State(count, next, Rings())
    }

    constructor (slots: nat, feeds: nat)
      requires slots > 0
      ensures Valid() && Repr == {} && n == slots
      ensures View() == Start(feeds)
    {
      n, count, next, messages, Repr := slots, 0, seq(feeds, _ => 0), map[], {};
    }

    /** The ring of a key, or a new one. */
    method Lookup(k: Key) returns (w: Ring)
      requires Valid()
      ensures w.ms.Length == n
      ensures k in messages ==> w == messages[k]
      ensures k !in messages ==> fresh(w) && fresh(w.ms) && w.View().ms == EmptyRing(n)
    {
      if k in messages {
        w := messages[k];
      } else {
        w := new Ring(n);
        assert |w.View().ms| == n;
      }
    }

    /** Makes a ring the one of its key; the rings of the other keys stay. */
    method Attach(k: Key, w: Ring)
      requires Valid() && w.ms.Length == n && (k !in messages ==> w !in Repr && w.ms !in Repr)
      requires k in messages ==> w == messages[k]
      requires this as object !in {w as object, w.ms}
      modifies `messages, `Repr
      ensures Valid() && Repr == old(Repr) + {w, w.ms}
      ensures Rings() == old(Rings())[k := w.View()]
    {
      messages, Repr := messages[k := w], Repr + {w, w.ms};
      forall l | l in messages && l != k
        ensures messages[l].View() == old(messages[l].View())
      {
        assert messages[l] == old(messages)[l];
      }
      SameRings(Rings(), old(Rings())[k := w.View()]);
    }

    /** Writes one slot of the ring of a key, which is made when it is not there. */
    method Record(k: Key, slot: nat, m: Shown, now: int)
      requires Valid() && slot < n
      modifies `messages, `Repr, Repr
      ensures Valid() && fresh(Repr - old(Repr))
      ensures Rings() == Recorded(n, old(Rings()), k, slot, m, now)
    {
      hide EmptyRing;
      var w := Lookup(k);
      ghost var ms := w.View().ms;
      w.Put(slot, m, now);
      assert Valid() && forall l :: l in messages && l != k ==> messages[l].View() == old(messages[l].View());
      Attach(k, w);
      SameRings(Rings(), old(Rings())[k := Slots(now, ms[slot := Some(m)])]);
    }

    /** What one feed does with one decoded message. */
    method Monitor(feed: nat, g: Message, uid: string, now: int)
      requires Valid() && feed < |next|
      modifies this, Repr
      ensures Valid() && fresh(Repr - old(Repr))
      ensures View() == Step(n, old(View()), Decoded(feed, g, uid, now))
    {
      hide Recorded;
      count := (count + 1) % 0x1_0000_0000;
      Record(Key(g.realtime, g.origin, g.instance), next[feed] % n, Shown(uid, count, g), now);
      next := next[feed := next[feed] + 1];
    }

    /** What one tick of the cleaner does. */
    method Clean(t: int)
      requires Valid()
      modifies this
      ensures Valid() && Repr == old(Repr)
      ensures View() == Step(n, old(View()), Tick(t))
    {
      var rest := messages.Keys;
      while rest != {}
        invariant count == old(count) && next == old(next) && Repr == old(Repr)
        invariant rest <= messages.Keys
        invariant forall k :: k in messages <==> k in old(messages) && (k in rest || !Stale(old(messages)[k].when, t))
        invariant forall k :: k in messages ==> messages[k] == old(messages)[k]
        decreases |rest|
      {
        var k :| k in rest;
        var w := messages[k];
        if w.when != ZERO_TIME && t - w.when > QUARTER {
          messages := messages - {k};
        }
        rest := rest - {k};
      }
      forall k | k in messages
        ensures messages[k].View() == old(messages[k].View())
      {
      }
      SameRings(Rings(), Cleaned(old(Rings()), t));
    }
  }

  // ----- runs -----

  function Start(feeds: nat): State {
    State(0, seq(feeds, _ => 0), map[])
  }

  predicate AllFed(events: seq<Event>, feeds: nat) {
    forall i :: 0 <= i < |events| ==> Fed(events[i], feeds)
  }

  function Run(n: nat, feeds: nat, events: seq<Event>): (s: State)
    requires n > 0 && AllFed(events, feeds)
    ensures Fits(n, s) && |s.next| == feeds
  {
    if events == [] then Start(feeds)
    else Step(n, Run(n, feeds, events[..|events| - 1]), events[|events| - 1])
  }

  // ----- the log the rings are compared with -----

  /** How many messages a feed has decoded. */
  function FromFeed(events: seq<Event>, feed: nat): nat {
    if events == [] then 0
    else
      var e := events[|events| - 1];
      FromFeed(events[..|events| - 1], feed) + (if e.Decoded? && e.feed == feed then 1 else 0)
  }

  function FromAll(events: seq<Event>): nat {
    if events == [] then 0
    else FromAll(events[..|events| - 1]) + (if events[|events| - 1].Decoded? then 1 else 0)
  }

  predicate IsOf(events: seq<Event>, p: int, k: Key) {
    0 <= p < |events| && events[p].Decoded? && MessageKey(events[p].message) == k
  }

  /** The slot that the message decoded at p goes to, and how it is shown there. */
  function SlotAt(n: nat, events: seq<Event>, p: nat): nat
    requires n > 0 && p < |events| && events[p].Decoded?
  {
    FromFeed(events[..p], events[p].feed) % n
  }

  function ShownAt(events: seq<Event>, p: nat): Shown
    requires p < |events| && events[p].Decoded?
  {
    Shown(events[p].uid, FromAll(events[..p + 1]) % 0x1_0000_0000, events[p].message)
  }

  /** The time of the key's last message. */
  function LastSeen(events: seq<Event>, k: Key): Option<int> {
    if events == [] then None
    else
      var e := events[|events| - 1];
      if e.Decoded? && MessageKey(e.message) == k then Some(e.now) else LastSeen(events[..|events| - 1], k)
  }

  /** Where the log of the key starts again: just after the last tick that found it stale. */
  function Since(events: seq<Event>, k: Key): (r: nat)
    ensures r <= |events|
  {
    if events == [] then 0
    else
      var front, e := events[..|events| - 1], events[|events| - 1];
      if e.Tick? && LastSeen(front, k).Some? && Stale(LastSeen(front, k).value, e.t) then |events|
      else Since(front, k)
  }

  /** The message decoded at p is the key's last one, from the given position on, for slot j. */
  ghost predicate IsLast(n: nat, events: seq<Event>, since: nat, k: Key, j: nat, p: int)
    requires n > 0
  {
    && since <= p
    && IsOf(events, p, k)
    && SlotAt(n, events, p) == j
    && forall q :: p < q && IsOf(events, q, k) ==> SlotAt(n, events, q) != j
  }

  lemma {:induction false} Counters(n: nat, feeds: nat, events: seq<Event>)
    requires n > 0 && AllFed(events, feeds)
    ensures Run(n, feeds, events).count == FromAll(events) % 0x1_0000_0000
    ensures forall f :: 0 <= f < feeds ==> Run(n, feeds, events).next[f] == FromFeed(events, f)
  {
    hide Recorded, Cleaned;
    if events == [] {
    } else {
      var front := events[..|events| - 1];
      Counters(n, feeds, front);
      NextCount(FromAll(front));
    }
  }

  lemma NextCount(c: nat)
    ensures (c % 0x1_0000_0000 + 1) % 0x1_0000_0000 == (c + 1) % 0x1_0000_0000
  {
  }

  /** A key has a ring from its first message since it was last removed. */
  lemma {:induction false} HasRing(n: nat, feeds: nat, events: seq<Event>, k: Key)
    requires n > 0 && AllFed(events, feeds)
    ensures var rings := Run(n, feeds, events).rings;
            && (k in rings <==> exists p :: Since(events, k) <= p && IsOf(events, p, k))
            && (k in rings ==> LastSeen(events, k) == Some(rings[k].when))
  {
    if events == [] {
    } else {
      var front, e := events[..|events| - 1], events[|events| - 1];
      HasRing(n, feeds, front, k);
      assert forall p :: IsOf(front, p, k) ==> IsOf(events, p, k);
      assert forall p :: IsOf(events, p, k) ==> p == |front| || IsOf(front, p, k);
      if e.Decoded? && MessageKey(e.message) == k {
        assert IsOf(events, |front|, k);
      }
    }
  }

  /** What a slot of a key shows; a key without a ring shows nothing. */
  function SlotOf(n: nat, s: State, k: Key, j: nat): Option<Shown>
    requires Fits(n, s) && j < n
  {
    if k in s.rings then s.rings[k].ms[j] else None
  }

  /** A slot shows the last message for it since the given position, or nothing when there is none. */
  ghost predicate Agrees(n: nat, events: seq<Event>, since: nat, k: Key, j: nat, slot: Option<Shown>)
    requires n > 0
  {
    match slot
    case None => forall p :: !IsLast(n, events, since, k, j, p)
    case Some(m) => exists p :: IsLast(n, events, since, k, j, p) && m == ShownAt(events, p)
  }

  /** One more event does not move the earlier messages. */
  lemma MessagesStay(n: nat, events: seq<Event>, e: Event)
    requires n > 0
    ensures forall p :: 0 <= p < |events| && events[p].Decoded? ==>
              SlotAt(n, events + [e], p) == SlotAt(n, events, p) && ShownAt(events + [e], p) == ShownAt(events, p)
  {
    forall p | 0 <= p < |events| && events[p].Decoded?
      ensures SlotAt(n, events + [e], p) == SlotAt(n, events, p)
      ensures ShownAt(events + [e], p) == ShownAt(events, p)
    {
      assert (events + [e])[..p] == events[..p];
      assert (events + [e])[..p + 1] == events[..p + 1];
    }
  }

  /** An event for another key or another slot leaves the last message as it is. */
  lemma LastStays(n: nat, events: seq<Event>, e: Event, since: nat, k: Key, j: nat, p: int)
    requires n > 0 && p != |events|
    requires IsOf(events + [e], |events|, k) ==> SlotAt(n, events + [e], |events|) != j
    ensures IsLast(n, events + [e], since, k, j, p) <==> IsLast(n, events, since, k, j, p)
  {
    hide SlotAt;
    MessagesStay(n, events, e);
    assert forall q :: q != |events| ==> (IsOf(events + [e], q, k) <==> IsOf(events, q, k));
  }

  lemma AgreesStays(n: nat, events: seq<Event>, e: Event, since: nat, k: Key, j: nat, slot: Option<Shown>)
    requires n > 0 && Agrees(n, events, since, k, j, slot)
    requires IsOf(events + [e], |events|, k) ==> SlotAt(n, events + [e], |events|) != j
    ensures Agrees(n, events + [e], since, k, j, slot)
  {
    hide SlotAt, ShownAt;
    MessagesStay(n, events, e);
    forall p: int | p != |events|
      ensures IsLast(n, events + [e], since, k, j, p) <==> IsLast(n, events, since, k, j, p)
    {
      LastStays(n, events, e, since, k, j, p);
    }
    if slot.Some? {
      var p :| IsLast(n, events, since, k, j, p) && slot.value == ShownAt(events, p);
      assert IsLast(n, events + [e], since, k, j, p) && slot.value == ShownAt(events + [e], p);
    }
  }

  /**
   * The rings agree with the log, for any number of feeds: slot j of a key shows the key's
   * last message, since the key was last removed, whose index in its own feed is j modulo n.
   * Messages of other keys never push it out.
   */
  lemma {:induction false} RingAgreesWithLog(n: nat, feeds: nat, events: seq<Event>, k: Key, j: nat)
    requires n > 0 && AllFed(events, feeds) && j < n
    ensures Agrees(n, events, Since(events, k), k, j, SlotOf(n, Run(n, feeds, events), k, j))
  {
    if events == [] {
    } else {
      var front, e := events[..|events| - 1], events[|events| - 1];
      assert events == front + [e];
      RingAgreesWithLog(n, feeds, front, k, j);
      HasRing(n, feeds, front, k);
      if Since(events, k) == |events| {
        HasRing(n, feeds, events, k);
      } else if IsOf(events, |front|, k) && SlotAt(n, events, |front|) == j {
        Counters(n, feeds, front);
        Counters(n, feeds, events);
        assert events[..|front|] == front && events[..|front| + 1] == events;
        assert IsLast(n, events, Since(events, k), k, j, |front|);
      } else {
        Unmoved(n, feeds, front, e, k, j);
        AgreesStays(n, front, e, Since(front, k), k, j, SlotOf(n, Run(n, feeds, front), k, j));
      }
    }
  }

  lemma Unmoved(n: nat, feeds: nat, front: seq<Event>, e: Event, k: Key, j: nat)
    requires n > 0 && AllFed(front + [e], feeds) && j < n
    requires Since(front + [e], k) < |front + [e]|
    requires IsOf(front + [e], |front|, k) ==> SlotAt(n, front + [e], |front|) != j
    ensures SlotOf(n, Run(n, feeds, front + [e]), k, j) == SlotOf(n, Run(n, feeds, front), k, j)
  {
    assert (front + [e])[..|front|] == front;
    Counters(n, feeds, front);
    HasRing(n, feeds, front, k);
  }

  /** A later message of the same feed has a higher index, below what the feed has decoded. */
  lemma {:induction false} IndexGrows(events: seq<Event>, feed: nat, p: nat, q: nat)
    requires p < q <= |events| && events[p].Decoded? && events[p].feed == feed
    ensures FromFeed(events[..p], feed) < FromFeed(events[..q], feed)
  {
    assert events[..q][..q - 1] == events[..q - 1];
    if p < q - 1 {
      IndexGrows(events, feed, p, q - 1);
    }
  }

  lemma DifferentSlots(n: nat, a: nat, b: nat)
    requires a < b < a + n
    ensures a % n != b % n
  {
    var d := b / n - a / n;
    assert b - a == n * d + (b % n - a % n);
    assert d >= 1 ==> n * d >= n;
    assert d <= 0 ==> n * d <= 0;
  }

  /**
   * With one feed, every message of a key among the last n decoded ones is shown, unless the
   * key has been removed since.
   */
  lemma RecentAreShown(n: nat, events: seq<Event>, k: Key, p: nat)
    requires n > 0 && AllFed(events, 1) && IsOf(events, p, k) && Since(events, k) <= p
    requires FromFeed(events, 0) - FromFeed(events[..p], 0) <= n
    ensures SlotOf(n, Run(n, 1, events), k, SlotAt(n, events, p)) == Some(ShownAt(events, p))
  {
    hide Since, ShownAt, Run, SlotOf;
    var j := SlotAt(n, events, p);
    assert events[..|events|] == events;
    forall q | p < q && IsOf(events, q, k)
      ensures SlotAt(n, events, q) != j
    {
      assert Fed(events[p], 1) && Fed(events[q], 1);
      IndexGrows(events, 0, p, q);
      IndexGrows(events, 0, q, |events|);
      DifferentSlots(n, FromFeed(events[..p], 0), FromFeed(events[..q], 0));
    }
    assert IsLast(n, events, Since(events, k), k, j, p);
    RingAgreesWithLog(n, 1, events, k, j);
  }

  /**
   * Two feeds count apart: the first message of one pushes out the first of the other, however
   * many slots there are.
   */
  lemma FeedsCollide(n: nat, a: Event, b: Event, k: Key)
    requires n > 0 && a.Decoded? && a.feed == 0 && b.Decoded? && b.feed == 1
    requires MessageKey(a.message) == k && MessageKey(b.message) == k
    ensures forall j: nat :: j < n ==>
              SlotOf(n, Run(n, 2, [a, b]), k, j) == if j == 0 then Some(ShownAt([a, b], 1)) else None
    ensures ShownAt([a, b], 0) != ShownAt([a, b], 1)
  {
    assert [a, b][..1] == [a] && [a, b][..2] == [a, b] && [a][..0] == [];
    forall j: nat | j < n
      ensures SlotOf(n, Run(n, 2, [a, b]), k, j) == if j == 0 then Some(ShownAt([a, b], 1)) else None
    {
      assert [a, b][..0] == [] && FromFeed([a], 1) == FromFeed([], 1) == 0;
      assert SlotAt(n, [a, b], 0) == 0 % n && SlotAt(n, [a, b], 1) == 0 % n;
      assert Since([a], k) == 0 && Since([a, b], k) == 0;
      assert j == 0 ==> IsLast(n, [a, b], 0, k, 0, 1);
      RingAgreesWithLog(n, 2, [a, b], k, j);
    }
  }
}
