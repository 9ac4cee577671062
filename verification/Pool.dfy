/** The notification pool: items are cached per key and summed up at every tick. */
module Pool {
  import opened Bytes
  import opened Messages
  import opened Sorting

  /** A time in nanoseconds whose seconds fit 64 bits. */
  type Instant = t: int |
    -0x8000_0000_0000_0000 * 1_000_000_000 <= t < 0x8000_0000_0000_0000 * 1_000_000_000

  /** What the pool reads from a decoded packet. */
  datatype HRPacket = HRPacket(
    notifiable: bool,
    vmuTime: int,
    realtime: bool,
    origin: Data,
    sequence: uint32,
    stream: byte,
    timestamp: Instant,
    generated: Option<Instant>,
    filename: Data,
    userInfo: Data)

  datatype Item = Item(instance: int32, packet: HRPacket)

  datatype Key = Key(realtime: bool, origin: Data, instance: int32)

  function KeyOf(i: Item): Key {
    Key(i.packet.realtime, i.packet.origin, i.instance)
  }

  const BY_SEQUENCE: HRPacket -> int := (p: HRPacket) => p.sequence

  function Seconds(t: Instant): int64 {
    t / 1_000_000_000
  }

  /** The difference of two times saturates. */
  function Sub(t: Instant, u: Instant): int64 {
    if t - u < -0x8000_0000_0000_0000 then -0x8000_0000_0000_0000
    else if t - u > 0x7fff_ffff_ffff_ffff then 0x7fff_ffff_ffff_ffff
    else t - u
  }

  /** The message that sums up the packets of one key. */
  function Summary(k: Key, ps: seq<HRPacket>): Message
    requires ps != []
  {
    var sorted := SortBy(ps, BY_SEQUENCE);
    SortBySorts(ps, BY_SEQUENCE);
    var first, last := sorted[0], sorted[|sorted| - 1];
    var g := if first.generated.Some? then first.generated.value else first.timestamp;
    Message(k.origin, first.sequence, k.instance, first.stream, k.realtime, |ps| % 0x1_0000_0000,
            Sub(last.timestamp, first.timestamp), Seconds(g), Seconds(first.timestamp),
            first.filename, first.userInfo)
  }

  /** The difference of two times in nanoseconds, cut off at the ends of a 64-bit duration. */
  ghost predicate IsElapsed(elapsed: int64, from: Instant, to: Instant) {
    if to - from > 9_223_372_036_854_775_807 then elapsed == 9_223_372_036_854_775_807
    else if to - from < -9_223_372_036_854_775_808 then elapsed == -9_223_372_036_854_775_808
    else elapsed == to - from
  }

  /** A number of whole seconds, rounded down. */
  ghost predicate IsSeconds(seconds: int64, t: Instant) {
    seconds * 1_000_000_000 <= t < (seconds + 1) * 1_000_000_000
  }

  /**
   * What a message says about the packets it sums up, by value: how many they are; and, for some
   * first and last packet by sequence, the fields taken from the first and the time between them.
   */
  ghost predicate Tells(m: Message, k: Key, ps: seq<HRPacket>) {
    && m.count == |ps| % 0x1_0000_0000
    && m.origin == k.origin && m.realtime == k.realtime && m.instance == k.instance
    && exists first, last :: first in ps && last in ps && TellsOf(m, ps, first, last)
  }

  ghost predicate TellsOf(m: Message, ps: seq<HRPacket>, first: HRPacket, last: HRPacket) {
    && (forall p :: p in ps ==> first.sequence <= p.sequence <= last.sequence)
    && m.sequence == first.sequence && m.channel == first.stream
    && m.reference == first.filename && m.upi == first.userInfo
    && IsSeconds(m.acquired, first.timestamp)
    && IsSeconds(m.generated, if first.generated.Some? then first.generated.value else first.timestamp)
    && IsElapsed(m.elapsed, first.timestamp, last.timestamp)
  }

  lemma SortedEnds(ps: seq<HRPacket>)
    requires ps != []
    ensures var sorted := SortBy(ps, BY_SEQUENCE);
            && |sorted| == |ps| && sorted[0] in ps && sorted[|sorted| - 1] in ps
            && forall p :: p in ps ==> sorted[0].sequence <= p.sequence <= sorted[|sorted| - 1].sequence
  {
    var sorted := SortBy(ps, BY_SEQUENCE);
    SortBySorts(ps, BY_SEQUENCE);
    var n := |sorted| - 1;
    assert sorted[0] in multiset(ps) && sorted[n] in multiset(ps);
    forall p | p in ps
      ensures sorted[0].sequence <= p.sequence <= sorted[n].sequence
    {
      assert p in multiset(sorted);
      var i :| 0 <= i < |sorted| && sorted[i] == p;
      assert i > 0 ==> BY_SEQUENCE(sorted[0]) <= BY_SEQUENCE(sorted[i]);
      assert i < n ==> BY_SEQUENCE(sorted[i]) <= BY_SEQUENCE(sorted[n]);
    }
  }

  /** The summary of a batch tells what it should. */
  lemma SummaryTells(k: Key, ps: seq<HRPacket>)
    requires ps != []
    ensures Tells(Summary(k, ps), k, ps)
  {
    hide SortBy;
    SortedEnds(ps);
    var sorted := SortBy(ps, BY_SEQUENCE);
    assert TellsOf(Summary(k, ps), ps, sorted[0], sorted[|sorted| - 1]);
  }

  // ----- the history -----

  datatype Batch = Batch(key: Key, packets: seq<HRPacket>)

  /** The packets dequeued for a source, origin and instance, in order. */
  ghost function Taken(items: seq<Item>, k: Key): seq<HRPacket> {
    if items == [] then []
    else
      var i := items[|items| - 1];
      var matches := i.packet.realtime == k.realtime && i.packet.origin == k.origin && i.instance == k.instance;
      Taken(items[..|items| - 1], k) + (if matches then [i.packet] else [])
  }

  /** The packets emitted for a key, batch after batch. */
  ghost function Emitted(bs: seq<Batch>, k: Key): seq<HRPacket> {
    if bs == [] then []
    else
      var b := bs[|bs| - 1];
      Emitted(bs[..|bs| - 1], k) + (if b.key == k then b.packets else [])
  }

  ghost function Cached(cache: map<Key, seq<HRPacket>>, k: Key): seq<HRPacket> {
    if k in cache then cache[k] else []
  }

  /** The sum of the Count fields of messages. */
  ghost function Counted(ms: seq<Message>): nat {
    if ms == [] then 0 else Counted(ms[..|ms| - 1]) + ms[|ms| - 1].count
  }

  ghost function BatchSize(bs: seq<Batch>): nat {
    if bs == [] then 0 else BatchSize(bs[..|bs| - 1]) + |bs[|bs| - 1].packets|
  }

  ghost function CacheSize(cache: map<Key, seq<HRPacket>>): nat {
    if cache == map[] then 0
    else
      var k :| k in cache;
      |cache[k]| + CacheSize(cache - {k})
  }

  lemma {:induction false} CacheSizeWithout(cache: map<Key, seq<HRPacket>>, k: Key)
    requires k in cache
    ensures CacheSize(cache) == |cache[k]| + CacheSize(cache - {k})
    decreases |cache|
  {
    var j :| j in cache && CacheSize(cache) == |cache[j]| + CacheSize(cache - {j});
    if j != k {
      SmallerCache(cache, j);
      SmallerCache(cache, k);
      CacheSizeWithout(cache - {j}, k);
      CacheSizeWithout(cache - {k}, j);
      assert cache - {j} - {k} == cache - {k} - {j};
    }
  }

  lemma SmallerCache(cache: map<Key, seq<HRPacket>>, k: Key)
    requires k in cache
    ensures |cache - {k}| < |cache|
  {
    assert (cache - {k}).Keys == cache.Keys - {k};
    assert |(cache - {k}).Keys| < |cache.Keys|;
  }

  lemma CacheSizeUpdate(cache: map<Key, seq<HRPacket>>, k: Key, ps: seq<HRPacket>)
    ensures CacheSize(cache[k := ps]) == CacheSize(cache) - |Cached(cache, k)| + |ps|
  {
    CacheSizeWithout(cache[k := ps], k);
    assert cache[k := ps] - {k} == cache - {k};
    if k in cache {
      CacheSizeWithout(cache, k);
    } else {
      assert cache - {k} == cache;
    }
  }

  /** Message j sums up batch j. */
  ghost predicate TellAll(ms: seq<Message>, bs: seq<Batch>) {
    && |ms| == |bs|
    && forall j :: 0 <= j < |ms| ==> Tells(ms[j], bs[j].key, bs[j].packets)
  }

  lemma {:induction false} CountedIsBatchSize(ms: seq<Message>, bs: seq<Batch>) returns (q: nat)
    requires TellAll(ms, bs)
    ensures BatchSize(bs) == Counted(ms) + 0x1_0000_0000 * q
  {
    if bs == [] {
      q := 0;
    } else {
      var n := |bs| - 1;
      TellAllButLast(ms, bs);
      q := CountedIsBatchSize(ms[..n], bs[..n]);
      q := q + |bs[n].packets| / 0x1_0000_0000;
    }
  }

  lemma TellAllButLast(ms: seq<Message>, bs: seq<Batch>)
    requires TellAll(ms, bs) && bs != []
    ensures TellAll(ms[..|bs| - 1], bs[..|bs| - 1])
    ensures ms[|bs| - 1].count == |bs[|bs| - 1].packets| % 0x1_0000_0000
  {
    hide TellsOf;
  }

  lemma TellOneMore(ms: seq<Message>, bs: seq<Batch>, m: Message, b: Batch)
    requires TellAll(ms, bs) && Tells(m, b.key, b.packets)
    ensures TellAll(ms + [m], bs + [b])
  {
    hide Tells;
  }

  /**
   * Conservation: per key, what was emitted followed by what is cached is what was dequeued,
   * in order; in total, batch sizes and cached items add up to the items dequeued.
   */
  ghost predicate Conserved(dequeued: seq<Item>, emitted: seq<Batch>, cache: map<Key, seq<HRPacket>>) {
    && (forall k :: Emitted(emitted, k) + Cached(cache, k) == Taken(dequeued, k))
    && BatchSize(emitted) + CacheSize(cache) == |dequeued|
    && (forall k :: k in cache ==> cache[k] != [])
  }

  lemma TakeConserves(dequeued: seq<Item>, emitted: seq<Batch>, cache: map<Key, seq<HRPacket>>, i: Item)
    requires Conserved(dequeued, emitted, cache)
    ensures Conserved(dequeued + [i], emitted, cache[KeyOf(i) := Cached(cache, KeyOf(i)) + [i.packet]])
  {
    var key := KeyOf(i);
    var ps := Cached(cache, key) + [i.packet];
    CacheSizeUpdate(cache, key, ps);
    assert (dequeued + [i])[..|dequeued|] == dequeued;
    forall k
      ensures Emitted(emitted, k) + Cached(cache[key := ps], k) == Taken(dequeued + [i], k)
    {
      assert Emitted(emitted, k) + Cached(cache, k) == Taken(dequeued, k);
      if k == key {
        Assoc(Emitted(emitted, k), Cached(cache, k), [i.packet]);
      }
    }
  }

  lemma EmitConserves(dequeued: seq<Item>, emitted: seq<Batch>, cache: map<Key, seq<HRPacket>>, key: Key)
    requires Conserved(dequeued, emitted, cache) && key in cache
    ensures Conserved(dequeued, emitted + [Batch(key, cache[key])], cache - {key})
  {
    var b := Batch(key, cache[key]);
    CacheSizeWithout(cache, key);
    assert (emitted + [b])[..|emitted|] == emitted;
    forall k
      ensures Emitted(emitted + [b], k) + Cached(cache - {key}, k) == Taken(dequeued, k)
    {
      assert Emitted(emitted, k) + Cached(cache, k) == Taken(dequeued, k);
      if k == key {
        Assoc(Emitted(emitted, k), cache[k], []);
      }
    }
  }

  // ----- the pool -----

  const CAPACITY: nat := 1000

  class NotificationPool {
    const enabled: bool
    const limit: int
    var queue: seq<Item>
    var cache: map<Key, seq<HRPacket>>
    ghost var enqueued: seq<Item>
    ghost var dequeued: seq<Item>
    ghost var emitted: seq<Batch>
    ghost var sent: seq<Message>

    ghost predicate Valid()
      reads this
    {
      && enqueued == dequeued + queue
      && |queue| <= CAPACITY
      && Conserved(dequeued, emitted, cache)
      && TellAll(sent, emitted)
    }

    /** A pool without an interval has no queue and ignores everything. */
    constructor (limit: int, interval: int)
      ensures Valid() && enqueued == [] && sent == []
      ensures enabled == (interval > 0) && this.limit == limit
    {
      enabled := interval > 0;
      this.limit := limit;
      queue, cache := [], map[];
      enqueued, dequeued, emitted, sent := [], [], [], [];
    }

    /** An item is dropped when it is of no interest, too old, or when the queue is full. */
    method Notify(i: Item, now: int)
      requires Valid()
      modifies this
      ensures Valid()
      ensures var accepted := enabled && i.packet.notifiable && !(limit > 0 && now - i.packet.vmuTime > limit)
                              && |old(queue)| < 1000;
              && enqueued == (if accepted then old(enqueued) + [i] else old(enqueued))
              && queue == (if accepted then old(queue) + [i] else old(queue))
      ensures dequeued == old(dequeued) && emitted == old(emitted) && sent == old(sent) && cache == old(cache)
    {
      if !enabled {
        return;
      }
      if !i.packet.notifiable {
        return;
      }
      if limit > 0 && now - i.packet.vmuTime > limit {
        return;
      }
      if |queue| < CAPACITY {
        Assoc(dequeued, queue, [i]);
        queue, enqueued := queue + [i], enqueued + [i];
      }
    }

    /** The loop's first case: one item from the queue joins the others of its key. */
    method Take()
      requires Valid() && queue != []
      modifies this
      ensures Valid()
      ensures enqueued == old(enqueued) && emitted == old(emitted) && sent == old(sent)
      ensures dequeued == old(dequeued) + [old(queue)[0]] && queue == old(queue)[1..]
      ensures forall k :: Cached(cache, k) == Cached(old(cache), k)
                          + (if k == KeyOf(old(queue)[0]) then [old(queue)[0].packet] else [])
    {
      hide Conserved, TellAll;
      var i := queue[0];
      TakeConserves(dequeued, emitted, cache, i);
      SplitFirst(dequeued, queue);
      queue, dequeued := queue[1..], dequeued + [i];
      var k := KeyOf(i);
      cache := cache[k := (if k in cache then cache[k] else []) + [i.packet]];
    }

    /** The loop's second case: every key gives one message, in any order, and is forgotten. */
    method Tick() returns (ms: seq<Message>)
      requires Valid()
      modifies this
      ensures Valid() && cache == map[]
      ensures enqueued == old(enqueued) && dequeued == old(dequeued) && queue == old(queue)
      ensures old(emitted) <= emitted && sent == old(sent) + ms
      ensures SummedUp(old(cache), map[], emitted[|old(emitted)|..], ms)
    {
      hide Summary, SummedUp, Conserved, TellAll, Tells;
      ms := [];
      ghost var done: seq<Batch> := [];
      NothingSummedUp(cache);
      while cache != map[]
        invariant Valid()
        invariant enqueued == old(enqueued) && dequeued == old(dequeued) && queue == old(queue)
        invariant emitted == old(emitted) + done && sent == old(sent) + ms
        invariant SummedUp(old(cache), cache, done, ms)
        decreases |cache|
      {
        var k :| k in cache;
        var ps := cache[k];
        EmitConserves(dequeued, emitted, cache, k);
        CachedIsNotEmpty(dequeued, emitted, cache, k);
        SumUpOne(old(cache), cache, done, ms, k);
        SmallerCache(cache, k);
        ghost var b := Batch(k, ps);
        Assoc(old(emitted), done, [b]);
        SummaryTells(k, ps);
        TellOneMore(sent, emitted, Summary(k, ps), b);
        Assoc(old(sent), ms, [Summary(k, ps)]);
        sent := sent + [Summary(k, ps)];
        ms := ms + [Summary(k, ps)];
        emitted := emitted + [b];
        cache := cache - {k};
        done := done + [b];
      }
      assert emitted[|old(emitted)|..] == done;
    }
  }

  /**
   * Between two states of the cache: every key that is gone was summed up in one batch, of
   * all its packets, and the message of each batch is its summary.
   */
  ghost predicate SummedUp(before: map<Key, seq<HRPacket>>, after: map<Key, seq<HRPacket>>,
                           done: seq<Batch>, ms: seq<Message>)
  {
    && |ms| == |done|
    && (forall k :: k in after ==> k in before && after[k] == before[k])
    && (forall j :: 0 <= j < |done| ==>
          && done[j].key in before && done[j].key !in after
          && done[j].packets == before[done[j].key] && done[j].packets != []
          && ms[j] == Summary(done[j].key, done[j].packets))
    && (forall i, j :: 0 <= i < j < |done| ==> done[i].key != done[j].key)
    && (forall k :: k in before && k !in after ==> exists j :: 0 <= j < |done| && done[j].key == k)
  }

  lemma NothingSummedUp(cache: map<Key, seq<HRPacket>>)
    ensures SummedUp(cache, cache, [], [])
  {
  }

  lemma CachedIsNotEmpty(dequeued: seq<Item>, emitted: seq<Batch>, cache: map<Key, seq<HRPacket>>, k: Key)
    requires Conserved(dequeued, emitted, cache) && k in cache
    ensures cache[k] != []
  {
  }

  lemma SumUpOne(before: map<Key, seq<HRPacket>>, cache: map<Key, seq<HRPacket>>,
                 done: seq<Batch>, ms: seq<Message>, k: Key)
    requires SummedUp(before, cache, done, ms) && k in cache && cache[k] != []
    ensures SummedUp(before, cache - {k}, done + [Batch(k, cache[k])], ms + [Summary(k, cache[k])])
  {
    hide Summary;
    var done' := done + [Batch(k, cache[k])];
    forall j | j in before && j !in cache - {k}
      ensures exists i :: 0 <= i < |done'| && done'[i].key == j
    {
      if j == k {
        assert done'[|done|].key == k;
      } else {
        var i :| 0 <= i < |done| && done[i].key == j;
        assert done'[i].key == j;
      }
    }
  }

  /**
   * In every state of a pool, after any run: the Counts of all messages sent and the items still
   * cached add up to the items dequeued -- exactly below 2^32 items, and mod 2^32 in any case.
   */
  lemma CountsAddUp(p: NotificationPool)
    requires p.Valid()
    ensures |p.dequeued| < 0x1_0000_0000 ==> Counted(p.sent) + CacheSize(p.cache) == |p.dequeued|
    ensures (Counted(p.sent) + CacheSize(p.cache)) % 0x1_0000_0000 == |p.dequeued| % 0x1_0000_0000
  {
    hide Counted, BatchSize, CacheSize, Taken, Emitted, TellAll;
    var q := CountedIsBatchSize(p.sent, p.emitted);
    WrapsAway(Counted(p.sent) + CacheSize(p.cache), q, |p.dequeued|);
  }

  /**
   * Every message sent sums up packets that were dequeued, and all of them are of its own source,
   * origin and instance.
   */
  lemma MessagesAreOfTheirKey(p: NotificationPool, j: nat)
    requires p.Valid() && j < |p.sent|
    ensures var m, b := p.sent[j], p.emitted[j];
            && Tells(m, b.key, b.packets)
            && forall x :: x in b.packets ==>
                 x.realtime == m.realtime && x.origin == m.origin && Item(m.instance, x) in p.dequeued
  {
    hide Conserved, TellsOf;
    var m, b := p.sent[j], p.emitted[j];
    forall x | x in b.packets
      ensures x.realtime == m.realtime && x.origin == m.origin && Item(m.instance, x) in p.dequeued
    {
      EmittedWithin(p.emitted, j, x);
      EmittedIsTaken(p.dequeued, p.emitted, p.cache, b.key, x);
      TakenIsOfKey(p.dequeued, b.key, x);
    }
  }

  lemma {:induction false} EmittedWithin(bs: seq<Batch>, j: nat, x: HRPacket)
    requires j < |bs| && x in bs[j].packets
    ensures x in Emitted(bs, bs[j].key)
  {
    if j == |bs| - 1 {
    } else {
      EmittedWithin(bs[..|bs| - 1], j, x);
    }
  }

  lemma EmittedIsTaken(dequeued: seq<Item>, emitted: seq<Batch>, cache: map<Key, seq<HRPacket>>, k: Key, x: HRPacket)
    requires Conserved(dequeued, emitted, cache) && x in Emitted(emitted, k)
    ensures x in Taken(dequeued, k)
  {
    hide Emitted, Taken;
    assert Emitted(emitted, k) + Cached(cache, k) == Taken(dequeued, k);
  }

  lemma {:induction false} TakenIsOfKey(items: seq<Item>, k: Key, x: HRPacket)
    requires x in Taken(items, k)
    ensures x.realtime == k.realtime && x.origin == k.origin && Item(k.instance, x) in items
  {
    if items == [] {
    } else {
      var front, i := items[..|items| - 1], items[|items| - 1];
      if x in Taken(front, k) {
        TakenIsOfKey(front, k, x);
      } else {
        assert i == Item(k.instance, x);
      }
    }
  }

  lemma WrapsAway(counted: nat, q: nat, total: nat)
    requires total == counted + 0x1_0000_0000 * q
    ensures total < 0x1_0000_0000 ==> counted == total
    ensures counted % 0x1_0000_0000 == total % 0x1_0000_0000
  {
    AddMultiple(counted, q, 0x1_0000_0000);
  }
}
