/**
 * MAC-sharded packet dispatch (src/leetha/pipeline.py) with the worker loops that read the
 * shard queues (src/leetha/app.py).  Any interleaving of routes and reads is a run.
 */
module Dispatch {
  import opened Sequences

  type Mac = nat
  datatype Packet = Packet(mac: Mac, payload: nat)

  /** Python's `hash(mac) % shard_count`: never negative for a positive count. */
  function ShardOf(hash: Mac -> int, mac: Mac, shards: int): (i: nat)
    requires shards > 0
    ensures i < shards
  {
    hash(mac) % shards
  }

  /** `asyncio.Queue(maxsize)`: a size that is not positive means unbounded. */
  predicate Full(queue: seq<Packet>, maxSize: int) {
    0 < maxSize <= |queue|
  }

  /** `arrived`, `lost` and `processed` are what has happened so far. */
  datatype State = State(
    queues: seq<seq<Packet>>,
    dropped: nat,
    arrived: seq<Packet>,
    lost: seq<Packet>,
    processed: seq<seq<Packet>>)

  datatype Event = Route(packet: Packet) | Work(shard: nat)

  function Start(shards: nat): State {
    State(seq(shards, _ => []), 0, [], [], seq(shards, _ => []))
  }

  predicate Enabled(s: State, e: Event) {
    match e
    case Route(_) => true
    case Work(i) => i < |s.queues| && s.queues[i] != [] && |s.processed| == |s.queues|
  }

  function Next(s: State, e: Event, hash: Mac -> int, maxSize: int): State
    requires s.queues != [] && Enabled(s, e)
  {
    match e
    case Route(p) =>
      var i := ShardOf(hash, p.mac, |s.queues|);
      var t := s.(arrived := s.arrived + [p]);
      if Full(s.queues[i], maxSize) then t.(dropped := s.dropped + 1, lost := s.lost + [p])
      else t.(queues := s.queues[i := s.queues[i] + [p]])
    case Work(i) =>
      s.(queues := s.queues[i := s.queues[i][1..]],
         processed := s.processed[i := s.processed[i] + [s.queues[i][0]]])
  }

  /** The state after a run of enabled events. */
  function Exec(events: seq<Event>, hash: Mac -> int, shards: nat, maxSize: int): Option<State>
    requires shards > 0
    ensures var r := Exec(events, hash, shards, maxSize); r.Some? ==> |r.value.queues| == |r.value.processed| == shards
  {
    if events == [] then Some(Start(shards))
    else
      var before := Exec(Front(events), hash, shards, maxSize);
      if before.Some? && Enabled(before.value, Last(events)) then Some(Next(before.value, Last(events), hash, maxSize))
      else None
  }

  class PacketDispatcher {
    const shardCount: nat
    const maxQueueSize: int
    const hash: Mac -> int
    var workers: seq<seq<Packet>>
    var droppedCount: nat
    ghost var arrived: seq<Packet>
    ghost var lost: seq<Packet>
    ghost var processed: seq<seq<Packet>>

    ghost predicate Valid()
      reads this
    {
      shardCount > 0 && |workers| == |processed| == shardCount
    }

    ghost function View(): State
      reads this
    {
      State(workers, droppedCount, arrived, lost, processed)
    }

    constructor (shardCount: nat, maxQueueSize: int, hash: Mac -> int)
      requires shardCount > 0
      ensures Valid() && View() == Start(shardCount)
      ensures this.shardCount == shardCount && this.maxQueueSize == maxQueueSize && this.hash == hash
    {
      this.shardCount, this.maxQueueSize, this.hash := shardCount, maxQueueSize, hash;
      workers, droppedCount := seq(shardCount, _ => []), 0;
      arrived, lost, processed := [], [], seq(shardCount, _ => []);
    }

    method Route(packet: Packet)
      requires Valid()
      modifies this
      ensures Valid() && View() == Next(old(View()), Event.Route(packet), hash, maxQueueSize)
    {
      var i := ShardOf(hash, packet.mac, shardCount);
      arrived := arrived + [packet];
      if Full(workers[i], maxQueueSize) {
        droppedCount := droppedCount + 1;
        lost := lost + [packet];
      } else {
        workers := workers[i := workers[i] + [packet]];
      }
    }

    /** One turn of a worker loop: take the oldest packet of the shard. */
    method Take(shard: nat) returns (packet: Packet)
      requires Valid() && shard < shardCount && workers[shard] != []
      modifies this
      ensures Valid() && View() == Next(old(View()), Work(shard), hash, maxQueueSize)
      ensures packet == old(workers[shard][0])
    {
      packet := workers[shard][0];
      processed := processed[shard := processed[shard] + [packet]];
      workers := workers[shard := workers[shard][1..]];
    }
  }

  // ----- streams of packets -----

  /** The packets a shard accepted, in order: processed, then queued. */
  function Accepted(s: State, i: nat): seq<Packet>
    requires i < |s.queues| == |s.processed|
  {
    s.processed[i] + s.queues[i]
  }

  /** Of the packets that `p` selects, shard `i` has accepted some in order; the rest were lost. */
  ghost predicate StreamOk(s: State, p: Packet -> bool, i: nat)
    requires i < |s.queues| == |s.processed|
  {
    && Subsequence(Filter(p, Accepted(s, i)), Filter(p, s.arrived))
    && |Filter(p, Accepted(s, i))| + |Filter(p, s.lost)| == |Filter(p, s.arrived)|
  }

  /** Everything `p` selects goes to shard `i`. */
  ghost predicate OneShard(p: Packet -> bool, hash: Mac -> int, shards: nat, i: nat)
    requires shards > 0
  {
    forall x :: p(x) ==> ShardOf(hash, x.mac, shards) == i
  }

  lemma FilterSnoc<T>(p: T -> bool, s: seq<T>, x: T)
    ensures Filter(p, s + [x]) == if p(x) then Filter(p, s) + [x] else Filter(p, s)
  {
    assert Front(s + [x]) == s;
  }

  lemma AcceptedGrows(processed: seq<Packet>, queue: seq<Packet>, p: Packet)
    ensures processed + (queue + [p]) == processed + queue + [p]
  {
  }

  /** What a route does to what shard `i` has accepted. */
  lemma RouteAccepts(s: State, q: Packet, hash: Mac -> int, maxSize: int, i: nat)
    requires i < |s.queues| == |s.processed|
    ensures var t := Next(s, Route(q), hash, maxSize);
            var here := ShardOf(hash, q.mac, |s.queues|) == i;
            Accepted(t, i) == if here && !Full(s.queues[i], maxSize) then Accepted(s, i) + [q] else Accepted(s, i)
  {
    AcceptedGrows(s.processed[i], s.queues[i], q);
  }

  lemma OwnRouteKeepsStream(s: State, q: Packet, p: Packet -> bool, hash: Mac -> int, maxSize: int, i: nat)
    requires i < |s.queues| == |s.processed| && StreamOk(s, p, i)
    requires p(q) && ShardOf(hash, q.mac, |s.queues|) == i
    ensures StreamOk(Next(s, Route(q), hash, maxSize), p, i)
  {
    RouteAccepts(s, q, hash, maxSize, i);
    FilterSnoc(p, s.arrived, q);
    FilterSnoc(p, s.lost, q);
    FilterSnoc(p, Accepted(s, i), q);
    SubsequenceSkip(Filter(p, Accepted(s, i)), Filter(p, s.arrived), q);
    SubsequenceKeep(Filter(p, Accepted(s, i)), Filter(p, s.arrived), q);
  }

  lemma OtherRouteKeepsStream(s: State, q: Packet, p: Packet -> bool, hash: Mac -> int, maxSize: int, i: nat)
    requires i < |s.queues| == |s.processed| && StreamOk(s, p, i) && !p(q)
    ensures StreamOk(Next(s, Route(q), hash, maxSize), p, i)
  {
    RouteAccepts(s, q, hash, maxSize, i);
    FilterSnoc(p, s.arrived, q);
    FilterSnoc(p, s.lost, q);
    FilterSnoc(p, Accepted(s, i), q);
  }

  lemma WorkAccepts(s: State, w: nat, hash: Mac -> int, maxSize: int, i: nat)
    requires i < |s.queues| == |s.processed| && Enabled(s, Work(w))
    ensures Accepted(Next(s, Work(w), hash, maxSize), i) == Accepted(s, i)
  {
  }

  lemma {:induction false} StreamsStayOk(events: seq<Event>, p: Packet -> bool, hash: Mac -> int, shards: nat, maxSize: int, i: nat)
    requires i < shards && Exec(events, hash, shards, maxSize).Some? && OneShard(p, hash, shards, i)
    ensures StreamOk(Exec(events, hash, shards, maxSize).value, p, i)
  {
    if events != [] {
      StreamsStayOk(Front(events), p, hash, shards, maxSize, i);
      var s := Exec(Front(events), hash, shards, maxSize).value;
      match Last(events)
      case Route(q) =>
        if p(q) {
          OwnRouteKeepsStream(s, q, p, hash, maxSize, i);
        } else {
          OtherRouteKeepsStream(s, q, p, hash, maxSize, i);
        }
      case Work(w) => WorkAccepts(s, w, hash, maxSize, i);
    }
  }

  lemma {:induction false} SubsequenceLengths<T>(a: seq<T>, b: seq<T>)
    requires Subsequence(a, b)
    ensures |a| <= |b| && (|a| == |b| ==> a == b)
    decreases |b|
  {
    if a != [] {
      assert a == Front(a) + [Last(a)] && b == Front(b) + [Last(b)];
      if Last(a) == Last(b) && Subsequence(Front(a), Front(b)) {
        SubsequenceLengths(Front(a), Front(b));
      } else {
        SubsequenceLengths(a, Front(b));
      }
    }
  }

  // ----- per shard -----

  function Concern(hash: Mac -> int, shards: int, i: nat): Packet -> bool
    requires shards > 0
  {
    (p: Packet) => ShardOf(hash, p.mac, shards) == i
  }

  /** A queue within bound, holding only packets of its own shard. */
  ghost predicate QueueOk(s: State, hash: Mac -> int, maxSize: int, i: nat)
    requires i < |s.queues| == |s.processed|
  {
    && (maxSize > 0 ==> |s.queues[i]| <= maxSize)
    && forall p :: p in Accepted(s, i) ==> ShardOf(hash, p.mac, |s.queues|) == i
  }

  lemma {:induction false} QueuesStayOk(events: seq<Event>, hash: Mac -> int, shards: nat, maxSize: int, i: nat)
    requires i < shards && Exec(events, hash, shards, maxSize).Some?
    ensures QueueOk(Exec(events, hash, shards, maxSize).value, hash, maxSize, i)
  {
    if events != [] {
      QueuesStayOk(Front(events), hash, shards, maxSize, i);
      var s := Exec(Front(events), hash, shards, maxSize).value;
      match Last(events)
      case Route(q) => RouteAccepts(s, q, hash, maxSize, i);
      case Work(w) => WorkAccepts(s, w, hash, maxSize, i);
    }
  }

  /** In every run a shard's queue keeps its bound; what it processed and then what it holds is
      an ordered part of what hashes to it, and exactly its own drops are missing. */
  lemma ShardsStayOk(events: seq<Event>, hash: Mac -> int, shards: nat, maxSize: int, i: nat)
    requires i < shards && Exec(events, hash, shards, maxSize).Some?
    ensures var s := Exec(events, hash, shards, maxSize).value;
            var due, gone := Filter(Concern(hash, shards, i), s.arrived), Filter(Concern(hash, shards, i), s.lost);
            QueueOk(s, hash, maxSize, i) && Subsequence(Accepted(s, i), due) && |Accepted(s, i)| + |gone| == |due| &&
            (gone == [] ==> Accepted(s, i) == due)
  {
    var s := Exec(events, hash, shards, maxSize).value;
    var concern := Concern(hash, shards, i);
    QueuesStayOk(events, hash, shards, maxSize, i);
    StreamsStayOk(events, concern, hash, shards, maxSize, i);
    FilterAll(concern, Accepted(s, i));
    SubsequenceLengths(Accepted(s, i), Filter(concern, s.arrived));
  }

  // ----- per device -----

  function From(mac: Mac): Packet -> bool {
    (p: Packet) => p.mac == mac
  }

  /** What was processed and then what is queued of one device keeps its arrival order, exactly
      the device's own drops are missing, and without those it is all that arrived. */
  lemma DeviceInOrder(events: seq<Event>, hash: Mac -> int, shards: nat, maxSize: int, mac: Mac)
    requires shards > 0 && Exec(events, hash, shards, maxSize).Some?
    ensures var s := Exec(events, hash, shards, maxSize).value;
            var i := ShardOf(hash, mac, shards);
            var done, waiting := Filter(From(mac), s.processed[i]), Filter(From(mac), s.queues[i]);
            var all, gone := Filter(From(mac), s.arrived), Filter(From(mac), s.lost);
            Subsequence(done + waiting, all) && |done| + |waiting| + |gone| == |all| &&
            (gone == [] ==> done + waiting == all)
  {
    var s := Exec(events, hash, shards, maxSize).value;
    var i := ShardOf(hash, mac, shards);
    StreamsStayOk(events, From(mac), hash, shards, maxSize, i);
    FilterConcat(From(mac), s.processed[i], s.queues[i]);
    SubsequenceLengths(Filter(From(mac), Accepted(s, i)), Filter(From(mac), s.arrived));
  }

  /** A device's packets are never on another shard than the one its MAC hashes to. */
  lemma DeviceStaysOnShard(events: seq<Event>, hash: Mac -> int, shards: nat, maxSize: int, i: nat, p: Packet)
    requires i < shards && Exec(events, hash, shards, maxSize).Some?
    requires p in Exec(events, hash, shards, maxSize).value.queues[i] ||
             p in Exec(events, hash, shards, maxSize).value.processed[i]
    ensures hash(p.mac) % shards == i
  {
    QueuesStayOk(events, hash, shards, maxSize, i);
    assert p in Accepted(Exec(events, hash, shards, maxSize).value, i);
  }

  // ----- when packets are dropped -----

  /** In a reachable state a route drops its packet exactly when the queue of its shard holds as
      many packets as a positive bound allows; otherwise the packet goes to the end of that queue,
      and no other queue changes. */
  lemma RouteDropsExactlyWhen(events: seq<Event>, hash: Mac -> int, shards: nat, maxSize: int, p: Packet)
    requires shards > 0 && Exec(events, hash, shards, maxSize).Some?
    ensures var s := Exec(events, hash, shards, maxSize).value;
            var t, i := Next(s, Route(p), hash, maxSize), hash(p.mac) % shards;
            if 0 < maxSize && |s.queues[i]| == maxSize then
              t.queues == s.queues && t.lost == s.lost + [p] && t.dropped == s.dropped + 1
            else
              t.queues == s.queues[i := s.queues[i] + [p]] && t.lost == s.lost && t.dropped == s.dropped
  {
    QueuesStayOk(events, hash, shards, maxSize, hash(p.mac) % shards);
  }

  /** Shard `i` has lost a packet only after accepting as many as a positive bound allows. */
  ghost predicate LostWhenFull(s: State, hash: Mac -> int, maxSize: int, i: nat)
    requires i < |s.queues| == |s.processed|
  {
    (exists p :: p in s.lost && hash(p.mac) % |s.queues| == i) ==> 0 < maxSize <= |Accepted(s, i)|
  }

  /** Over every run a shard that lost a packet has accepted at least the bound, and without a
      positive bound nothing is ever lost. */
  lemma {:induction false} LossNeedsFullQueue(events: seq<Event>, hash: Mac -> int, shards: nat, maxSize: int, i: nat)
    requires i < shards && Exec(events, hash, shards, maxSize).Some?
    ensures LostWhenFull(Exec(events, hash, shards, maxSize).value, hash, maxSize, i)
    ensures maxSize <= 0 ==> Exec(events, hash, shards, maxSize).value.lost == []
  {
    if events != [] {
      LossNeedsFullQueue(Front(events), hash, shards, maxSize, i);
      var s := Exec(Front(events), hash, shards, maxSize).value;
      match Last(events)
      case Route(p) =>
        RouteDropsExactlyWhen(Front(events), hash, shards, maxSize, p);
        RouteAccepts(s, p, hash, maxSize, i);
      case Work(w) => WorkAccepts(s, w, hash, maxSize, i);
    }
  }

  // ----- conservation -----

  function Lengths(qs: seq<seq<Packet>>): nat {
    if qs == [] then 0 else Lengths(Front(qs)) + |Last(qs)|
  }

  lemma {:induction false} LengthsUpdate(qs: seq<seq<Packet>>, i: nat, q: seq<Packet>)
    requires i < |qs|
    ensures Lengths(qs[i := q]) == Lengths(qs) - |qs[i]| + |q|
  {
    if i == |qs| - 1 {
      assert Front(qs[i := q]) == Front(qs);
    } else {
      assert Front(qs[i := q]) == Front(qs)[i := q];
      LengthsUpdate(Front(qs), i, q);
    }
  }

  lemma {:induction false} LengthsOfEmpty(n: nat)
    ensures Lengths(seq(n, _ => [])) == 0
  {
    if n > 0 {
      var qs: seq<seq<Packet>> := seq(n, _ => []);
      assert Front(qs) == seq(n - 1, _ => []);
      LengthsOfEmpty(n - 1);
    }
  }

  /** In every run each arrival is processed, queued or counted as dropped, and the counter is
      the number of packets lost. */
  lemma {:induction false} PacketsConserved(events: seq<Event>, hash: Mac -> int, shards: nat, maxSize: int)
    requires shards > 0 && Exec(events, hash, shards, maxSize).Some?
    ensures var s := Exec(events, hash, shards, maxSize).value;
            |s.arrived| == Lengths(s.processed) + Lengths(s.queues) + s.dropped && s.dropped == |s.lost|
  {
    if events == [] {
      LengthsOfEmpty(shards);
    } else {
      PacketsConserved(Front(events), hash, shards, maxSize);
      var s := Exec(Front(events), hash, shards, maxSize).value;
      match Last(events)
      case Route(p) =>
        var i := ShardOf(hash, p.mac, shards);
        LengthsUpdate(s.queues, i, s.queues[i] + [p]);
      case Work(i) =>
        LengthsUpdate(s.queues, i, s.queues[i][1..]);
        LengthsUpdate(s.processed, i, s.processed[i] + [s.queues[i][0]]);
    }
  }
}
