/** Bounded drop-oldest event queues and the publish loops (src/leetha/app.py). */
module Subscribers {
  import opened Sequences

  type Event = nat

  const QUEUE_LIMIT := 500

  /** One subscriber: its queue, what was published since it subscribed, and what it has read. */
  datatype Feed = Feed(queue: seq<Event>, published: seq<Event>, read: seq<Event>)

  datatype Action = Publish(event: Event) | Read

  const SUBSCRIBED := Feed([], [], [])

  /** Append, dropping the oldest event first when the queue is full. */
  function PutDroppingOldest(queue: seq<Event>, e: Event): seq<Event> {
    if |queue| < QUEUE_LIMIT then queue + [e] else queue[1..] + [e]
  }

  predicate Enabled(f: Feed, a: Action) {
    a.Read? ==> f.queue != []
  }

  function Next(f: Feed, a: Action): Feed
    requires Enabled(f, a)
  {
    match a
    case Publish(e) => f.(queue := PutDroppingOldest(f.queue, e), published := f.published + [e])
    case Read => f.(queue := f.queue[1..], read := f.read + [f.queue[0]])
  }

  function Exec(actions: seq<Action>): Option<Feed> {
    if actions == [] then Some(SUBSCRIBED)
    else
      var before := Exec(Front(actions));
      if before.Some? && Enabled(before.value, Last(actions)) then Some(Next(before.value, Last(actions))) else None
  }

  /** The queue is the newest part of what was published, within the limit, and what was read
      is an ordered selection of the older part. */
  ghost predicate FeedOk(f: Feed) {
    && |f.queue| <= QUEUE_LIMIT && |f.queue| <= |f.published|
    && f.queue == f.published[|f.published| - |f.queue|..]
    && Subsequence(f.read, f.published[..|f.published| - |f.queue|])
  }

  lemma PublishKeepsFeed(f: Feed, e: Event)
    requires FeedOk(f)
    ensures FeedOk(Next(f, Publish(e)))
    ensures Last(Next(f, Publish(e)).queue) == e
  {
    var t := Next(f, Publish(e));
    var old', new' := |f.published| - |f.queue|, |t.published| - |t.queue|;
    if |f.queue| < QUEUE_LIMIT {
      assert t.published[..new'] == f.published[..old'];
    } else {
      assert t.published[..new'] == f.published[..old'] + [f.published[old']];
      SubsequenceSkip(f.read, f.published[..old'], f.published[old']);
    }
  }

  lemma ReadKeepsFeed(f: Feed)
    requires FeedOk(f) && f.queue != []
    ensures FeedOk(Next(f, Read))
  {
    var t := Next(f, Read);
    var n := |f.published| - |f.queue|;
    assert t.published[..n + 1] == f.published[..n] + [f.queue[0]];
    SubsequenceKeep(f.read, f.published[..n], f.queue[0]);
  }

  /** For every interleaving of publishes and reads. */
  lemma {:induction false} FeedStaysOk(actions: seq<Action>)
    requires Exec(actions).Some?
    ensures FeedOk(Exec(actions).value)
  {
    if actions != [] {
      FeedStaysOk(Front(actions));
      var f := Exec(Front(actions)).value;
      match Last(actions)
      case Publish(e) => PublishKeepsFeed(f, e);
      case Read => ReadKeepsFeed(f);
    }
  }

  /** How many publishes have met a queue holding the limit. */
  function Overflows(actions: seq<Action>): nat
    requires Exec(actions).Some?
  {
    if actions == [] then 0
    else
      Overflows(Front(actions)) +
      if Last(actions).Publish? && |Exec(Front(actions)).value.queue| == 500 then 1 else 0
  }

  /** Over every run exactly one event is lost at each publish that meets 500 queued events, and
      none otherwise. */
  lemma {:induction false} LossesAreOverflows(actions: seq<Action>)
    requires Exec(actions).Some?
    ensures var f := Exec(actions).value;
            |f.published| == |f.read| + |f.queue| + Overflows(actions)
  {
    if actions != [] {
      LossesAreOverflows(Front(actions));
      FeedStaysOk(Front(actions));
    }
  }

  /** Events read, followed by those still queued, are an ordered selection of those published. */
  lemma ReadAndQueuedInOrder(f: Feed)
    requires FeedOk(f)
    ensures Subsequence(f.read + f.queue, f.published)
  {
    var n := |f.published| - |f.queue|;
    assert f.published == f.published[..n] + f.queue;
    SubsequenceExtend(f.read, f.published[..n], f.queue);
  }

  lemma {:induction false} SubsequenceExtend<T>(a: seq<T>, b: seq<T>, c: seq<T>)
    requires Subsequence(a, b)
    ensures Subsequence(a + c, b + c)
  {
    if c == [] {
      assert a + c == a && b + c == b;
    } else {
      SubsequenceExtend(a, b, Front(c));
      SubsequenceKeep(a + Front(c), b + Front(c), Last(c));
      assert a + c == a + Front(c) + [Last(c)] && b + c == b + Front(c) + [Last(c)];
    }
  }

  // ----- the queues and the publish loops -----

  class EventQueue {
    var items: seq<Event>
    ghost var published: seq<Event>
    ghost var taken: seq<Event>

    ghost function View(): Feed
      reads this
    {
      Feed(items, published, taken)
    }

    ghost predicate Valid()
      reads this
    {
      FeedOk(View())
    }

    constructor ()
      ensures Valid() && View() == SUBSCRIBED
    {
      items, published, taken := [], [], [];
    }

    /** `put_nowait`: false stands for QueueFull. */
    method PutNowait(e: Event) returns (ok: bool)
      modifies `items
      ensures ok == (|old(items)| < QUEUE_LIMIT)
      ensures items == if ok then old(items) + [e] else old(items)
    {
      ok := |items| < QUEUE_LIMIT;
      if ok {
        items := items + [e];
      }
    }

    /** `get_nowait`: false stands for QueueEmpty. */
    method DropOldest() returns (ok: bool)
      modifies `items
      ensures ok == (old(items) != [])
      ensures items == if ok then old(items)[1..] else []
    {
      ok := items != [];
      if ok {
        items := items[1..];
      }
    }

    /** A read by the subscriber. */
    method Take() returns (e: Event)
      requires Valid() && items != []
      modifies this
      ensures Valid() && View() == Next(old(View()), Read) && e == old(items)[0]
    {
      ReadKeepsFeed(View());
      e := items[0];
      items, taken := items[1..], taken + [e];
    }

    /** Put, else drop the oldest and put again.  The second put always succeeds. */
    method SafeEnqueue(e: Event) returns (ok: bool)
      requires Valid()
      modifies this
      ensures ok && Valid() && View() == Next(old(View()), Publish(e))
    {
      PublishKeepsFeed(View(), e);
      ok := PutNowait(e);
      if !ok {
        var dropped := DropOldest();
        ok := PutNowait(e);
      }
      published := published + [e];
    }
  }

  lemma RemovedOne<T>(s: seq<T>, i: nat)
    requires Distinct(s) && i < |s|
    ensures var rest := s[..i] + s[i + 1..];
            Distinct(rest) && forall x :: x in rest <==> x in s && x != s[i]
  {
    assert s == s[..i] + [s[i]] + s[i + 1..];
  }

  class EventHub {
    var subscribers: seq<EventQueue>

    /** Each queue was created by one `Subscribe`, so no queue is listed twice. */
    ghost predicate Valid()
      reads this, subscribers
    {
      && (forall i, j :: 0 <= i < j < |subscribers| ==> subscribers[i] != subscribers[j])
      && (forall i :: 0 <= i < |subscribers| ==> subscribers[i].Valid())
    }

    constructor ()
      ensures Valid() && subscribers == []
    {
      subscribers := [];
    }

    method Subscribe() returns (q: EventQueue)
      requires Valid()
      modifies this
      ensures Valid() && fresh(q) && q.View() == SUBSCRIBED && subscribers == old(subscribers) + [q]
    {
      q := new EventQueue();
      assert Valid() && q !in subscribers;
      subscribers := subscribers + [q];
      assert forall i :: 0 <= i < |subscribers| - 1 ==> subscribers[i] == old(subscribers)[i];
    }

    /** Remove the first occurrence of `q`, if any. */
    method Unsubscribe(q: EventQueue)
      requires Valid()
      modifies this
      ensures Valid() && q !in subscribers
      ensures forall x :: x in subscribers <==> x in old(subscribers) && x != q
    {
      var i := 0;
      while i < |subscribers| && subscribers[i] != q
        invariant 0 <= i <= |subscribers| && subscribers == old(subscribers)
        invariant q !in subscribers[..i]
      {
        i := i + 1;
      }
      if i < |subscribers| {
        RemovedOne(subscribers, i);
        subscribers := subscribers[..i] + subscribers[i + 1..];
      }
    }

    /** The first `n` subscribers have received `e`, the others are as before. */
    ghost predicate Delivered(before: seq<Feed>, e: Event, n: nat)
      reads this, subscribers
    {
      && |before| == |subscribers|
      && forall j :: 0 <= j < |subscribers| ==>
           subscribers[j].Valid() && subscribers[j].View() == if j < n then Next(before[j], Publish(e)) else before[j]
    }

    method DeliverNext(e: Event, n: nat, ghost before: seq<Feed>) returns (ok: bool)
      requires Valid() && n < |subscribers| && Delivered(before, e, n)
      modifies subscribers[n]
      ensures ok && Valid() && Delivered(before, e, n + 1)
    {
      ok := subscribers[n].SafeEnqueue(e);
    }

    /** Deliver `e` to every subscriber.  No subscriber is ever found stale, so none is evicted. */
    method Broadcast(e: Event) returns (stale: seq<EventQueue>)
      requires Valid()
      modifies subscribers
      ensures Valid() && stale == [] && subscribers == old(subscribers)
      ensures forall i :: 0 <= i < |subscribers| ==> subscribers[i].View() == Next(old(subscribers[i].View()), Publish(e))
    {
      stale := [];
      ghost var before := seq(|subscribers|, i requires 0 <= i < |subscribers| reads this, subscribers => subscribers[i].View());
      for i := 0 to |subscribers|
        invariant stale == [] && Valid() && Delivered(before, e, i)
      {
        var sub := subscribers[i];
        var ok := DeliverNext(e, i, before);
        stale := if ok then stale else stale + [sub];
      }
    }
  }
}
