/**
 * Legacy sensor mode (sensor/src/main.rs): a capture thread feeds a bounded channel, and the
 * main task drains the ring buffer and the channel into one connection after another.
 *
 * A run is any interleaving of the steps below.  Each captured frame is identified by its
 * capture index; `gone` counts the frames, oldest first, that have left the sensor, each of
 * them either handed to the connection (`sent`) or lost (`lost`).
 */
module LegacySensor {
  import opened Sequences
  import opened WireProtocol
  import opened RingBuffer

  const CHANNEL_CAPACITY := 10_000
  const RING_BYTES := 100 * 1024 * 1024
  const MAX_BACKOFF := 60

  datatype Phase = Connecting | Draining | Streaming | Requeuing | Done

  datatype State = State(
    captured: seq<RawFrame>,
    alive: bool,
    held: seq<RawFrame>,
    channel: seq<RawFrame>,
    ring: seq<RawFrame>,
    buffered: seq<RawFrame>,
    phase: Phase,
    backoff: nat,
    gone: nat,
    sent: seq<nat>,
    lost: set<nat>)

  datatype Step =
    // capture thread
    | Capture(frame: RawFrame)
    | Enqueue
    | DiscardHeld
    | StopCapture
    // main task
    | ConnectFails
    | ConnectAndTakeRing
    | SendBuffered
    | SendBufferedFails
    | StartStreaming
    | SendLive
    | SendLiveFails
    | CloseNormally
    | RequeueOne
    | Retry

  const START := State([], true, [], [], [], [], Connecting, 1, 0, [], {})

  /** `blocking_send` waits while the channel is full and fails only once the receiver is gone. */
  predicate Enabled(s: State, a: Step) {
    match a
    case Capture(_) => s.alive && s.held == []
    case Enqueue => s.held != [] && |s.channel| < CHANNEL_CAPACITY && !s.phase.Done?
    case DiscardHeld => s.held != [] && s.phase.Done?
    case StopCapture => s.alive && s.held == []
    case ConnectFails => s.phase.Connecting?
    case ConnectAndTakeRing => s.phase.Connecting?
    case SendBuffered => s.phase.Draining? && s.buffered != []
    case SendBufferedFails => s.phase.Draining? && s.buffered != []
    case StartStreaming => s.phase.Draining? && s.buffered == []
    case SendLive => s.phase.Streaming? && s.channel != []
    case SendLiveFails => s.phase.Streaming? && s.channel != []
    case CloseNormally => s.phase.Streaming? && s.channel == [] && !s.alive && s.held == []
    case RequeueOne => s.phase.Requeuing? && s.channel != []
    case Retry => s.phase.Requeuing? && s.channel == []
  }

  function Range(lo: nat, hi: nat): (r: set<nat>)
    requires lo <= hi
    ensures forall i :: i in r <==> lo <= i < hi
    ensures |r| == hi - lo
    decreases hi
  {
    if lo == hi then {} else Range(lo, hi - 1) + {hi - 1}
  }

  /** The oldest `n` frames leave without being delivered. */
  function Lose(s: State, n: nat): State {
    s.(gone := s.gone + n, lost := s.lost + Range(s.gone, s.gone + n))
  }

  function Deliver(s: State): State {
    s.(gone := s.gone + 1, sent := s.sent + [s.gone])
  }

  /** How many frames the ring evicts to take the next channel frame. */
  function Evictions(s: State): nat
    requires s.channel != []
  {
    PushDropsOldest(s.ring, s.channel[0], RING_BYTES);
    |s.ring| + 1 - |Pushed(s.ring, s.channel[0], RING_BYTES)|
  }

  function Requeue(s: State): State
    requires s.channel != []
  {
    Lose(s, Evictions(s)).(ring := Pushed(s.ring, s.channel[0], RING_BYTES), channel := s.channel[1..])
  }

  /** How many frames a step loses. */
  function LossOf(s: State, a: Step): nat {
    if !Enabled(s, a) then 0 else
    match a
    case DiscardHeld => 1
    case SendBufferedFails => |s.buffered|
    case SendLiveFails => 1
    case RequeueOne => Evictions(s)
    case _ => 0
  }

  function NextDelay(delay: nat): nat {
    if 2 * delay < MAX_BACKOFF then 2 * delay else MAX_BACKOFF
  }

  /** The state after a step; a step that is not enabled does not happen. */
  function Next(s: State, a: Step): State {
    if !Enabled(s, a) then s else
    match a
    case Capture(f) => s.(captured := s.captured + [f], held := [f])
    case Enqueue => s.(channel := s.channel + s.held, held := [])
    case DiscardHeld => Lose(s, 1).(held := [])
    case StopCapture => s.(alive := false)
    case ConnectFails => s.(phase := Requeuing)
    case ConnectAndTakeRing => s.(phase := Draining, buffered := s.ring, ring := [])
    case SendBuffered => Deliver(s).(buffered := s.buffered[1..])
    case SendBufferedFails => Lose(s, |s.buffered|).(buffered := [], phase := Requeuing)
    case StartStreaming => s.(phase := Streaming)
    case SendLive => Deliver(s).(channel := s.channel[1..])
    case SendLiveFails => Lose(s, 1).(channel := s.channel[1..], phase := Requeuing)
    case CloseNormally => s.(phase := Done)
    case RequeueOne => Requeue(s)
    case Retry => s.(phase := Connecting, backoff := NextDelay(s.backoff))
  }

  /** The state after a run, if every step was enabled when it was taken. */
  function Exec(steps: seq<Step>): Option<State> {
    if steps == [] then Some(START)
    else
      var before := Exec(Front(steps));
      if before.Some? && Enabled(before.value, Last(steps)) then Some(Next(before.value, Last(steps))) else None
  }

  // ----- the invariant -----

  /** What is still inside the sensor, oldest first. */
  function Backlog(s: State): seq<RawFrame> {
    s.buffered + Behind(s)
  }

  function Behind(s: State): seq<RawFrame> {
    s.ring + s.channel + s.held
  }

  ghost predicate Increasing(xs: seq<nat>) {
    forall i, j :: 0 <= i < j < |xs| ==> xs[i] < xs[j]
  }

  /** The backlog is exactly the captured frames that have not left, in capture order. */
  ghost predicate BacklogOk(s: State) {
    s.gone <= |s.captured| && Backlog(s) == s.captured[s.gone..]
  }

  /** Every frame that left was sent or lost, not both, and sent in capture order. */
  ghost predicate LedgerOk(s: State) {
    && Increasing(s.sent)
    && (forall i :: i in s.sent ==> i < s.gone)
    && (forall i :: i in s.lost ==> i < s.gone && i !in s.sent)
    && (forall i: nat :: i < s.gone ==> i in s.sent || i in s.lost)
  }

  ghost predicate PhaseOk(s: State) {
    && (s.buffered != [] ==> s.phase.Draining?)
    && (s.ring != [] ==> s.phase.Connecting? || s.phase.Requeuing?)
    && (s.phase.Done? ==> !s.alive && s.channel == [])
    && (s.held != [] ==> s.alive && |s.held| == 1)
    && |s.channel| <= CHANNEL_CAPACITY
    && (Bytes(s.ring) <= RING_BYTES || |s.ring| == 1)
  }

  ghost predicate Inv(s: State) {
    BacklogOk(s) && LedgerOk(s) && PhaseOk(s)
  }

  lemma BacklogAdvances(s: State, t: State, n: nat)
    requires BacklogOk(s) && t.captured == s.captured && t.gone == s.gone + n
    requires n <= |Backlog(s)| && Backlog(t) == Backlog(s)[n..]
    ensures BacklogOk(t)
  {
  }

  lemma DropOfConcat(a: seq<RawFrame>, b: seq<RawFrame>, n: nat)
    requires n <= |a|
    ensures (a + b)[n..] == a[n..] + b
  {
  }

  lemma RequeueShape(ring: seq<RawFrame>, channel: seq<RawFrame>, held: seq<RawFrame>, n: nat)
    requires channel != [] && n <= |ring| + 1
    ensures (ring + channel + held)[n..] == (ring + [channel[0]])[n..] + channel[1..] + held
  {
    DropOfConcat(ring + [channel[0]], channel[1..] + held, n);
    assert ring + channel + held == ring + [channel[0]] + (channel[1..] + held);
  }

  /** Requeuing moves one frame from the channel to the ring and evicts the oldest ones. */
  lemma RequeueBehind(s: State)
    requires s.channel != []
    ensures Evictions(s) <= |Behind(s)|
    ensures Behind(Requeue(s)) == Behind(s)[Evictions(s)..]
  {
    PushDropsOldest(s.ring, s.channel[0], RING_BYTES);
    RequeueShape(s.ring, s.channel, s.held, Evictions(s));
  }

  lemma RequeueBacklog(s: State)
    requires s.buffered == [] && s.channel != []
    ensures Evictions(s) <= |Backlog(s)|
    ensures Backlog(Requeue(s)) == Backlog(s)[Evictions(s)..]
  {
    RequeueBehind(s);
    assert [] + Behind(s) == Behind(s) && [] + Behind(Requeue(s)) == Behind(Requeue(s));
  }

  lemma DrainBacklog(s: State, n: nat)
    requires n <= |s.buffered|
    ensures n <= |Backlog(s)| && Backlog(s.(buffered := s.buffered[n..])) == Backlog(s)[n..]
  {
  }

  lemma StreamBacklog(s: State)
    requires s.buffered == [] && s.ring == [] && s.channel != []
    ensures 1 <= |Backlog(s)| && Backlog(s.(channel := s.channel[1..])) == Backlog(s)[1..]
  {
    assert Backlog(s) == s.channel + s.held;
  }

  predicate MovesNothing(a: Step) {
    a.ConnectFails? || a.StartStreaming? || a.CloseNormally? || a.Retry? || a.StopCapture?
  }

  /** Enqueuing and taking the ring move frames without reordering them. */
  lemma MoveKeepsBacklog(s: State, a: Step)
    requires BacklogOk(s) && PhaseOk(s) && Enabled(s, a) && (a.Enqueue? || a.ConnectAndTakeRing?)
    ensures BacklogOk(Next(s, a))
  {
    assert Backlog(Next(s, a)) == Backlog(s);
  }

  lemma CaptureKeepsBacklog(s: State, f: RawFrame)
    requires BacklogOk(s) && s.held == []
    ensures BacklogOk(s.(captured := s.captured + [f], held := [f]))
  {
    assert Backlog(s.(captured := s.captured + [f], held := [f])) == Backlog(s) + [f];
  }

  lemma QuietKeepsBacklog(s: State, a: Step)
    requires BacklogOk(s) && Enabled(s, a) && MovesNothing(a)
    ensures BacklogOk(Next(s, a))
  {
    var t := Next(s, a);
    assert t.captured == s.captured && t.gone == s.gone && Backlog(t) == Backlog(s);
  }

  lemma DrainKeepsBacklog(s: State, a: Step)
    requires Inv(s) && Enabled(s, a) && (a.SendBuffered? || a.SendBufferedFails?)
    ensures BacklogOk(Next(s, a))
  {
    var n := if a.SendBuffered? then 1 else |s.buffered|;
    DrainBacklog(s, n);
    assert Backlog(Next(s, a)) == Backlog(s.(buffered := s.buffered[n..]));
    BacklogAdvances(s, Next(s, a), n);
  }

  lemma StepKeepsBacklog(s: State, a: Step)
    requires Inv(s) && Enabled(s, a)
    ensures BacklogOk(Next(s, a))
  {
    if a.RequeueOne? {
      RequeueBacklog(s);
      BacklogAdvances(s, Requeue(s), Evictions(s));
    } else if a.SendBuffered? || a.SendBufferedFails? {
      DrainKeepsBacklog(s, a);
    } else if a.SendLive? || a.SendLiveFails? {
      StreamBacklog(s);
      BacklogAdvances(s, Next(s, a), 1);
    } else if a.Capture? {
      CaptureKeepsBacklog(s, a.frame);
    } else if MovesNothing(a) {
      QuietKeepsBacklog(s, a);
    } else {
      MoveKeepsBacklog(s, a);
    }
  }

  lemma LoseKeepsLedger(s: State, n: nat)
    requires LedgerOk(s)
    ensures LedgerOk(Lose(s, n))
  {
  }

  lemma DeliverKeepsLedger(s: State)
    requires LedgerOk(s)
    ensures LedgerOk(Deliver(s))
  {
    var t := Deliver(s);
    forall i, j | 0 <= i < j < |t.sent| ensures t.sent[i] < t.sent[j] {
      if j == |s.sent| {
        assert s.sent[i] in s.sent;
      }
    }
  }

  lemma StepKeepsLedger(s: State, a: Step)
    requires LedgerOk(s) && Enabled(s, a)
    ensures LedgerOk(Next(s, a))
  {
    LoseKeepsLedger(s, LossOf(s, a));
    DeliverKeepsLedger(s);
  }

  lemma StepKeepsPhase(s: State, a: Step)
    requires PhaseOk(s) && Enabled(s, a)
    ensures PhaseOk(Next(s, a))
  {
    if a.RequeueOne? {
      PushedFits(s.ring, s.channel[0], RING_BYTES);
    }
  }

  lemma {:induction false} RunsKeepInv(steps: seq<Step>)
    requires Exec(steps).Some?
    ensures Inv(Exec(steps).value)
  {
    if steps != [] {
      RunsKeepInv(Front(steps));
      var s, a := Exec(Front(steps)).value, Last(steps);
      StepKeepsBacklog(s, a);
      StepKeepsLedger(s, a);
      StepKeepsPhase(s, a);
    }
  }

  // ----- what a run guarantees -----

  datatype Bucket = Delivered | Lost | Buffered | Ring | Channel | Held

  /** The bucket a captured frame is in, by where its index falls. */
  function BucketOf(s: State, i: nat): Bucket {
    if i in s.lost then Lost
    else if i < s.gone then Delivered
    else if i < s.gone + |s.buffered| then Buffered
    else if i < s.gone + |s.buffered| + |s.ring| then Ring
    else if i < s.gone + |s.buffered| + |s.ring| + |s.channel| then Channel
    else Held
  }

  /** Which queue the backlog position `off` falls in, and that the frame is there. */
  lemma BacklogPosition(s: State, off: nat)
    requires off < |Backlog(s)|
    ensures var r, c, h := off - |s.buffered|, off - |s.buffered| - |s.ring|, off - |s.buffered| - |s.ring| - |s.channel|;
            Backlog(s)[off] ==
            if r < 0 then s.buffered[off] else if c < 0 then s.ring[r] else if h < 0 then s.channel[c] else s.held[h]
  {
  }

  /** What it means for captured frame `i` to be in a bucket, intact. */
  ghost predicate InBucket(s: State, i: nat, b: Bucket)
    requires i < |s.captured|
  {
    var off := i - s.gone;
    match b
    case Delivered => i in s.sent && i !in s.lost
    case Lost => i in s.lost && i !in s.sent
    case Buffered => 0 <= off < |s.buffered| && s.buffered[off] == s.captured[i]
    case Ring =>
      0 <= off - |s.buffered| < |s.ring| && s.ring[off - |s.buffered|] == s.captured[i]
    case Channel =>
      0 <= off - |s.buffered| - |s.ring| < |s.channel| &&
      s.channel[off - |s.buffered| - |s.ring|] == s.captured[i]
    case Held => s.held == [s.captured[i]] && i == |s.captured| - 1
  }

  lemma DepartedInBucket(s: State, i: nat)
    requires LedgerOk(s) && i < s.gone && i < |s.captured|
    ensures InBucket(s, i, BucketOf(s, i))
  {
  }

  lemma WaitingInBucket(s: State, i: nat)
    requires LedgerOk(s) && BacklogOk(s) && |s.held| <= 1 && s.gone <= i < |s.captured|
    ensures InBucket(s, i, BucketOf(s, i))
  {
    assert i !in s.lost;
    assert Backlog(s)[i - s.gone] == s.captured[i];
    BacklogPosition(s, i - s.gone);
    if BucketOf(s, i).Held? {
      assert i == |s.captured| - 1;
    }
  }

  lemma OneBucket(s: State, i: nat, b: Bucket)
    requires Inv(s) && i < |s.captured| && InBucket(s, i, b)
    ensures b == BucketOf(s, i)
  {
    assert |Backlog(s)| == |s.captured| - s.gone;
  }

  /** Every captured frame is in exactly one place, and is intact there. */
  lemma FramesConserved(steps: seq<Step>, i: nat)
    requires Exec(steps).Some? && i < |Exec(steps).value.captured|
    ensures forall b :: InBucket(Exec(steps).value, i, b) <==> b == BucketOf(Exec(steps).value, i)
  {
    RunsKeepInv(steps);
    forall b | InBucket(Exec(steps).value, i, b) ensures b == BucketOf(Exec(steps).value, i) {
      OneBucket(Exec(steps).value, i, b);
    }
    if i < Exec(steps).value.gone {
      DepartedInBucket(Exec(steps).value, i);
    } else {
      WaitingInBucket(Exec(steps).value, i);
    }
  }

  function Pick<T>(items: seq<T>, picks: seq<nat>): (r: seq<T>)
    requires forall p :: p in picks ==> p < |items|
    ensures |r| == |picks|
  {
    seq(|picks|, i requires 0 <= i < |picks| =>
      assert picks[i] in picks;
      items[picks[i]])
  }

  /** The frames handed to a connection, in the order they were handed over. */
  function DeliveredFrames(s: State): seq<RawFrame>
    requires LedgerOk(s) && BacklogOk(s)
  {
    Pick(s.captured, s.sent)
  }

  lemma BelowLast(picks: seq<nat>)
    requires picks != [] && Increasing(picks)
    ensures Increasing(Front(picks))
    ensures forall p :: p in picks ==> p <= Last(picks)
    ensures forall p :: p in Front(picks) ==> p < Last(picks)
  {
  }

  lemma {:induction false} IncreasingIsSubsequence<T>(items: seq<T>, picks: seq<nat>)
    requires Increasing(picks) && forall p :: p in picks ==> p < |items|
    ensures Subsequence(Pick(items, picks), items)
    decreases |items|
  {
    if picks != [] {
      assert Last(picks) in picks;
      var front := Front(items);
      BelowLast(picks);
      if Last(picks) == |items| - 1 {
        IncreasingIsSubsequence(front, Front(picks));
        assert Front(Pick(items, picks)) == Pick(front, Front(picks));
      } else {
        IncreasingIsSubsequence(front, picks);
        assert Pick(items, picks) == Pick(front, picks);
      }
    }
  }

  /** In every run the delivered frames are a duplicate-free subsequence of the capture order. */
  lemma DeliveredInOrder(steps: seq<Step>)
    requires Exec(steps).Some?
    ensures var s := Exec(steps).value;
            Inv(s) && Increasing(s.sent) && Subsequence(DeliveredFrames(s), s.captured)
  {
    RunsKeepInv(steps);
    var s := Exec(steps).value;
    IncreasingIsSubsequence(s.captured, s.sent);
  }

  // ----- loss accounting -----

  /** A step loses exactly what `LossOf` says: nothing when a connection fails before the ring
      is taken, one frame when it fails while streaming, the undelivered rest of the drained
      ring when it fails while draining, and the evicted frames when a full ring is refilled. */
  lemma StepLosesExactly(s: State, a: Step)
    requires LedgerOk(s) && Enabled(s, a)
    ensures Next(s, a).lost == Lose(s, LossOf(s, a)).lost
    ensures |Next(s, a).lost| == |s.lost| + LossOf(s, a)
    ensures a.ConnectFails? ==> LossOf(s, a) == 0
    ensures a.SendLiveFails? ==> LossOf(s, a) == 1
    ensures a.SendBufferedFails? ==> LossOf(s, a) == |s.buffered|
    ensures !IsFailure(a) && !a.RequeueOne? && !a.DiscardHeld? ==> Next(s, a).lost == s.lost
    ensures a.RequeueOne? ==> LossOf(s, a) == |s.ring| + 1 - |Next(s, a).ring|
  {
    LostGrows(s, LossOf(s, a));
    LoseNothing(s);
  }

  lemma LoseNothing(s: State)
    ensures Lose(s, 0) == s
  {
    assert Range(s.gone, s.gone) == {};
  }

  lemma LostGrows(s: State, n: nat)
    requires LedgerOk(s)
    ensures |Lose(s, n).lost| == |s.lost| + n
  {
    assert s.lost !! Range(s.gone, s.gone + n);
  }

  ghost function TotalLoss(steps: seq<Step>): nat
    requires Exec(steps).Some?
  {
    if steps == [] then 0
    else TotalLoss(Front(steps)) + LossOf(Exec(Front(steps)).value, Last(steps))
  }

  /** Over a whole run, delivered, lost and waiting frames add up to those captured. */
  lemma {:induction false} LossesAddUp(steps: seq<Step>)
    requires Exec(steps).Some?
    ensures var s := Exec(steps).value;
            |s.lost| == TotalLoss(steps) && |s.captured| == |s.sent| + |s.lost| + |Backlog(s)|
  {
    RunsKeepInv(steps);
    if steps != [] {
      LossesAddUp(Front(steps));
      var before := Exec(Front(steps)).value;
      RunsKeepInv(Front(steps));
      StepLosesExactly(before, Last(steps));
      GoneIsSentPlusLost(before, Last(steps));
    }
  }

  lemma GoneIsSentPlusLost(s: State, a: Step)
    requires LedgerOk(s) && Enabled(s, a) && s.gone == |s.sent| + |s.lost|
    ensures var t := Next(s, a); t.gone == |t.sent| + |t.lost|
  {
    StepLosesExactly(s, a);
  }

  /** Requeuing a frame keeps as many of the newest frames as fit into the ring, that one included. */
  lemma {:induction false} RequeueKeepsNewest(steps: seq<Step>)
    requires Exec(steps).Some? && Exec(steps).value.phase.Requeuing? && Exec(steps).value.channel != []
    ensures var s := Exec(steps).value;
            var t := Next(s, RequeueOne);
            Retained(t.ring, s.ring + [s.channel[0]], 104_857_600) && t.channel == s.channel[1..]
  {
    RunsKeepInv(steps);
    var s := Exec(steps).value;
    RingGrows(s.ring, s.channel[0], RING_BYTES);
    RequeueMoves(s);
  }

  lemma {:induction false} RequeueMoves(s: State)
    requires s.phase.Requeuing? && s.channel != []
    ensures var t := Next(s, RequeueOne);
            t.ring == Pushed(s.ring, s.channel[0], RING_BYTES) && t.channel == s.channel[1..]
  {
    assert Next(s, RequeueOne) == Requeue(s);
  }

  lemma RingGrows(ring: seq<RawFrame>, f: RawFrame, maxBytes: nat)
    requires Bytes(ring) <= maxBytes || |ring| == 1
    ensures Retained(Pushed(ring, f, maxBytes), ring + [f], maxBytes)
  {
    WholeIsRetained(ring, maxBytes);
    PushRetains(ring, ring, f, maxBytes);
  }

  lemma WholeIsRetained(frames: seq<RawFrame>, maxBytes: nat)
    requires Bytes(frames) <= maxBytes || |frames| == 1
    ensures Retained(frames, frames, maxBytes)
  {
    assert frames == Suffix(frames, |frames|);
  }

  /** Before the next attempt the whole channel has been moved to the ring: what waits then is the
      ring and the frame the capture thread holds. */
  lemma {:induction false} RetryFindsChannelEmpty(steps: seq<Step>)
    requires Exec(steps).Some? && steps != [] && Last(steps).Retry?
    ensures var s := Exec(steps).value;
            s.channel == [] && s.gone <= |s.captured| && s.ring + s.held == s.captured[s.gone..]
  {
    RunsKeepInv(steps);
    assert Exec(steps).value.channel == [];
    OnlyRingWaits(Exec(steps).value);
  }

  lemma OnlyRingWaits(s: State)
    requires s.channel == [] && s.buffered == [] && BacklogOk(s)
    ensures s.ring + s.held == s.captured[s.gone..]
  {
    assert Backlog(s) == s.ring + s.held;
  }

  /** When the mode ends normally nothing is left inside: every frame was delivered or lost. */
  lemma {:induction false} NormalExitLeavesNothing(steps: seq<Step>)
    requires Exec(steps).Some? && Exec(steps).value.phase.Done?
    ensures var s := Exec(steps).value;
            s.ring == [] && s.channel == [] && s.buffered == [] && s.held == [] && |s.captured| == |s.sent| + |s.lost|
  {
    RunsKeepInv(steps);
    LossesAddUp(steps);
  }

  /** The capture thread never meets a closed channel, so its drop branch is never taken. */
  lemma {:induction false} NeverDiscards(steps: seq<Step>)
    requires Exec(steps).Some?
    ensures !Enabled(Exec(steps).value, DiscardHeld)
  {
    RunsKeepInv(steps);
  }

  // ----- backoff -----

  function Retries(steps: seq<Step>): nat {
    if steps == [] then 0 else Retries(Front(steps)) + if Last(steps).Retry? then 1 else 0
  }

  function PowerOfTwo(n: nat): nat {
    if n == 0 then 1 else 2 * PowerOfTwo(n - 1)
  }

  predicate IsFailure(a: Step) {
    a.ConnectFails? || a.SendBufferedFails? || a.SendLiveFails?
  }

  /** How many connections have failed, at any point. */
  function Failures(steps: seq<Step>): nat {
    if steps == [] then 0 else Failures(Front(steps)) + if IsFailure(Last(steps)) then 1 else 0
  }

  lemma PhaseStep(s: State, a: Step)
    requires Enabled(s, a)
    ensures IsFailure(a) ==> !s.phase.Requeuing? && Next(s, a).phase.Requeuing?
    ensures a.Retry? ==> s.phase.Requeuing? && Next(s, a).phase.Connecting?
    ensures !IsFailure(a) && !a.Retry? ==> (Next(s, a).phase.Requeuing? <==> s.phase.Requeuing?)
  {
  }

  /** Every failed connection is followed by one requeuing and one retry, before the next one. */
  lemma {:induction false} FailuresAreRetried(steps: seq<Step>)
    requires Exec(steps).Some?
    ensures Failures(steps) == Retries(steps) + if Exec(steps).value.phase.Requeuing? then 1 else 0
  {
    if steps != [] {
      FailuresAreRetried(Front(steps));
      PhaseStep(Exec(Front(steps)).value, Last(steps));
    }
  }

  /** Two to the number of failures, up to a minute. */
  ghost predicate DelayAfter(failures: nat, delay: nat) {
    delay == if PowerOfTwo(failures) < 60 then PowerOfTwo(failures) else 60
  }

  /** The failure being handled counts once its delay is over. */
  ghost predicate BackoffOk(s: State, failures: nat) {
    if s.phase.Requeuing? then failures > 0 && DelayAfter(failures - 1, s.backoff) else DelayAfter(failures, s.backoff)
  }

  lemma DelayDoubles(failures: nat, delay: nat)
    requires DelayAfter(failures, delay)
    ensures DelayAfter(failures + 1, NextDelay(delay))
  {
  }

  lemma BackoffStep(s: State, a: Step, failures: nat)
    requires BackoffOk(s, failures) && Enabled(s, a)
    ensures BackoffOk(Next(s, a), if IsFailure(a) then failures + 1 else failures)
  {
    PhaseStep(s, a);
    if a.Retry? {
      DelayDoubles(failures - 1, s.backoff);
    }
  }

  /** The delay doubles with every failed connection, whatever it failed at, up to a minute, and
      is never reset. */
  lemma {:induction false} BackoffDoubles(steps: seq<Step>)
    requires Exec(steps).Some?
    ensures BackoffOk(Exec(steps).value, Failures(steps))
  {
    if steps != [] {
      BackoffDoubles(Front(steps));
      BackoffStep(Exec(Front(steps)).value, Last(steps), Failures(Front(steps)));
    }
  }

  // ----- what can happen -----

  lemma {:induction false} ExecStep(steps: seq<Step>, a: Step)
    requires Exec(steps).Some? && Enabled(Exec(steps).value, a)
    ensures Exec(steps + [a]) == Some(Next(Exec(steps).value, a))
  {
    assert Front(steps + [a]) == steps;
  }

  /** In any run the next connection, or the next message of the current one, may fail. */
  lemma {:induction false} AnyConnectionMayFail(steps: seq<Step>)
    requires Exec(steps).Some?
    ensures var s := Exec(steps).value;
            (s.phase.Connecting? ==> Exec(steps + [ConnectFails]).Some?) &&
            (s.phase.Draining? && s.buffered != [] ==> Exec(steps + [SendBufferedFails]).Some?) &&
            (s.phase.Streaming? && s.channel != [] ==> Exec(steps + [SendLiveFails]).Some?)
  {
    var s := Exec(steps).value;
    if s.phase.Connecting? {
      ExecStep(steps, ConnectFails);
    }
    if s.phase.Draining? && s.buffered != [] {
      ExecStep(steps, SendBufferedFails);
    }
    if s.phase.Streaming? && s.channel != [] {
      ExecStep(steps, SendLiveFails);
    }
  }

  /** While the capture thread runs and holds nothing, any frame may be captured; a held frame is
      put into the channel as soon as there is room. */
  lemma {:induction false} CaptureGoesOn(steps: seq<Step>, f: RawFrame)
    requires Exec(steps).Some? && Exec(steps).value.alive
    ensures var s := Exec(steps).value;
            (s.held == [] ==> Exec(steps + [Capture(f)]).Some?) &&
            (s.held != [] && |s.channel| < 10_000 ==>
               Exec(steps + [Enqueue]).Some? && Exec(steps + [Enqueue]).value.channel == s.channel + s.held)
  {
    RunsKeepInv(steps);
    var s := Exec(steps).value;
    if s.held == [] {
      ExecStep(steps, Capture(f));
    } else if |s.channel| < 10_000 {
      EnqueueAppends(s);
      ExecStep(steps, Enqueue);
    }
  }

  lemma EnqueueAppends(s: State)
    requires PhaseOk(s) && s.alive && s.held != [] && |s.channel| < 10_000
    ensures Enabled(s, Enqueue) && Next(s, Enqueue).channel == s.channel + s.held
  {
  }

  function PhaseRank(p: Phase): nat {
    match p
    case Requeuing => 4
    case Connecting => 3
    case Draining => 2
    case Streaming => 1
    case Done => 0
  }

  function Waiting(s: State): nat {
    |s.buffered| + |s.channel| + 2 * |s.held|
  }

  /** What the sensor does next when capture stops and no connection fails any more. */
  function Onward(s: State): Step {
    if s.alive && s.held == [] then StopCapture
    else match s.phase
      case Requeuing => if s.channel != [] then RequeueOne else Retry
      case Connecting => ConnectAndTakeRing
      case Draining => if s.buffered != [] then SendBuffered else StartStreaming
      case Streaming => if s.channel != [] then SendLive else if s.held != [] then Enqueue else CloseNormally
      case Done => CloseNormally
  }

  /** Closer to the end: a later phase, or capture stopped, or fewer frames waiting. */
  ghost predicate Closer(t: State, s: State) {
    || PhaseRank(t.phase) < PhaseRank(s.phase)
    || (t.phase == s.phase && s.alive && !t.alive)
    || (t.phase == s.phase && t.alive == s.alive && Waiting(t) < Waiting(s))
  }

  /** A step of the program's own, without a further failure. */
  ghost predicate Quiet(s: State, a: Step) {
    && Enabled(s, a) && !IsFailure(a)
    && Next(s, a).captured == s.captured
    && (!s.phase.Requeuing? ==> Next(s, a).lost == s.lost && !Next(s, a).phase.Requeuing?)
  }

  lemma OnwardIsQuiet(s: State)
    requires PhaseOk(s) && !s.phase.Done?
    ensures Quiet(s, Onward(s))
  {
  }

  lemma OnwardIsCloser(s: State)
    requires PhaseOk(s) && !s.phase.Done?
    ensures Closer(Next(s, Onward(s)), s)
  {
  }

  /** The state after further steps, if each was enabled. */
  function Continue(s: State, rest: seq<Step>): Option<State>
    decreases |rest|
  {
    if rest == [] then Some(s)
    else if Enabled(s, rest[0]) then Continue(Next(s, rest[0]), rest[1..])
    else None
  }

  lemma {:induction false} ExecContinues(steps: seq<Step>, rest: seq<Step>)
    requires Exec(steps).Some?
    ensures Exec(steps + rest) == Continue(Exec(steps).value, rest)
    decreases |rest|
  {
    if rest == [] {
      assert steps + rest == steps;
    } else {
      var a, more := rest[0], rest[1..];
      assert steps + rest == steps + [a] + more;
      if Enabled(Exec(steps).value, a) {
        ExecStep(steps, a);
        ExecContinues(steps + [a], more);
      } else {
        ExecStops(steps, a, more);
      }
    }
  }

  lemma {:induction false} ExecStops(steps: seq<Step>, a: Step, rest: seq<Step>)
    requires Exec(steps).Some? && !Enabled(Exec(steps).value, a)
    ensures Exec(steps + [a] + rest) == None
  {
    if rest == [] {
      assert steps + [a] + [] == steps + [a] && Front(steps + [a]) == steps;
    } else {
      ExecStops(steps, a, Front(rest));
      assert Front(steps + [a] + rest) == steps + [a] + Front(rest);
    }
  }

  lemma {:induction false} FinishFrom(s: State) returns (rest: seq<Step>)
    requires Inv(s)
    ensures Continue(s, rest).Some? && forall a :: a in rest ==> !IsFailure(a)
    ensures var t := Continue(s, rest).value;
            t.phase.Done? && t.captured == s.captured && (!s.phase.Requeuing? ==> t.lost == s.lost)
    decreases PhaseRank(s.phase), s.alive, Waiting(s)
  {
    rest := [];
    if !s.phase.Done? {
      var a := Onward(s);
      OnwardIsQuiet(s);
      OnwardIsCloser(s);
      StepKeepsBacklog(s, a);
      StepKeepsLedger(s, a);
      StepKeepsPhase(s, a);
      var more := FinishFrom(Next(s, a));
      rest := [a] + more;
      assert rest[1..] == more;
    }
  }

  /** From wherever a run has got to, the sensor can still finish without a further failure, and
      then everything captured has been delivered or was lost before: unless a failure is just
      being handled, nothing more is lost. */
  lemma {:induction false} CanAlwaysFinish(steps: seq<Step>) returns (rest: seq<Step>)
    requires Exec(steps).Some?
    ensures Exec(steps + rest).Some? && forall a :: a in rest ==> !IsFailure(a)
    ensures var s, t := Exec(steps).value, Exec(steps + rest).value;
            t.phase.Done? && t.captured == s.captured && |t.captured| == |t.sent| + |t.lost| &&
            (!s.phase.Requeuing? ==> t.lost == s.lost)
  {
    RunsKeepInv(steps);
    rest := FinishFrom(Exec(steps).value);
    ExecContinues(steps, rest);
    NormalExitLeavesNothing(steps + rest);
  }

  // ----- what the server decodes -----

  /**
   * If the captured frames are encodings, a server session fed any stretch of the delivered
   * messages (those of one connection, say) returns exactly the frames they encode and keeps
   * no partial data.
   */
  lemma ServerDecodesDelivered(steps: seq<Step>, frames: seq<Frame>, lo: nat, hi: nat)
    requires Exec(steps).Some? && lo <= hi <= |Exec(steps).value.sent|
    requires Exec(steps).value.captured == Map(Serialize, frames) && forall f :: f in frames ==> Sendable(f)
    ensures var s := Exec(steps).value;
            Inv(s) && (forall p :: p in s.sent[lo..hi] ==> p < |frames|) &&
            FeedAll([], DeliveredFrames(s)[lo..hi]) == Parsed(Map(Seen, Pick(frames, s.sent[lo..hi])), [])
  {
    RunsKeepInv(steps);
    var s := Exec(steps).value;
    forall p | p in s.sent[lo..hi] ensures p < |frames| {
      assert p in s.sent;
    }
    PickedEncodings(frames, s.captured, s.sent, lo, hi);
    StreamRoundTrip(Pick(frames, s.sent[lo..hi]), DeliveredFrames(s)[lo..hi]);
  }

  lemma PickedEncodings(frames: seq<Frame>, raw: seq<RawFrame>, picks: seq<nat>, lo: nat, hi: nat)
    requires raw == Map(Serialize, frames) && lo <= hi <= |picks|
    requires forall p :: p in picks ==> p < |frames|
    requires forall p :: p in picks[lo..hi] ==> p < |frames|
    ensures Pick(raw, picks)[lo..hi] == Map(Serialize, Pick(frames, picks[lo..hi]))
    ensures forall f :: f in Pick(frames, picks[lo..hi]) ==> f in frames
  {
    var some, part := Pick(raw, picks)[lo..hi], picks[lo..hi];
    forall i | 0 <= i < hi - lo
      ensures part[i] < |frames| && some[i] == Serialize(Pick(frames, part)[i]) && Pick(frames, part)[i] in frames
    {
      assert part[i] in part && picks[lo + i] in picks;
      assert some[i] == raw[picks[lo + i]];
    }
  }
}
