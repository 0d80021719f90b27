/**
 * When the automatic baseline stops learning (src/leetha/baseline.py) on the stored sensor
 * state (src/leetha/store/database.py).  Times are seconds; the saturation ratio is exactly 1/5.
 */
module LearningWindow {
  import opened Sequences

  const LEARNING_FLOOR := 900.0
  const BURST_THRESHOLD := 3

  function Max(a: real, b: real): real { if a >= b then a else b }
  function Min(a: real, b: real): real { if a <= b then a else b }

  function RequiredQuiet(elapsed: real, quiet: real): real {
    Max(quiet, elapsed / 5.0)
  }

  predicate ShouldClose(now: real, first: real, last: real, quiet: real, maxWindow: real, floor: real) {
    var elapsed := now - first;
    if elapsed >= maxWindow then true
    else if elapsed < floor then false
    else now - last >= RequiredQuiet(elapsed, quiet)
  }

  /** The observation time at which the window may close, for a last discovery at offset `l`. */
  function Deadline(l: real, quiet: real, maxWindow: real, floor: real): real {
    Min(maxWindow, Max(floor, Max(l + quiet, 1.25 * l)))
  }

  /** The three-way test is a deadline. */
  lemma ClosableExactlyFromDeadline(now: real, first: real, last: real, quiet: real, maxWindow: real, floor: real)
    ensures ShouldClose(now, first, last, quiet, maxWindow, floor) <==>
            now - first >= Deadline(last - first, quiet, maxWindow, floor)
  {
    var e, l := now - first, last - first;
    assert now - last == e - l;
    assert e - l >= e / 5.0 <==> e >= 1.25 * l;
  }

  /** A discovery only postpones the deadline, and never past the cap. */
  lemma DiscoveryPostpones(l: real, l': real, quiet: real, maxWindow: real, floor: real)
    requires l <= l'
    ensures Deadline(l, quiet, maxWindow, floor) <= Deadline(l', quiet, maxWindow, floor) <= maxWindow
  {
  }

  // ----- stored state -----

  type Mac = nat

  const BURST_WINDOW := 300.0

  datatype Mode = Automatic | AlwaysLearning | Manual
  datatype Config = Config(mode: Mode, quiet: real, maxWindow: real)

  /** When a device was first seen, and whether it arrived while the window was closed. */
  datatype Device = Device(firstSeen: real, monitored: bool)

  datatype Sensor = Sensor(
    firstCapture: Option<real>,
    lastDiscovery: Option<real>,
    closedAt: Option<real>,
    heartbeat: Option<real>,
    devices: map<Mac, Device>,
    known: Option<set<Mac>>)

  /** The MACs that count as seen before: those remembered since the process loaded them, else
      those that have a row. */
  function Cache(s: Sensor): set<Mac> {
    if s.known.Some? then s.known.value else s.devices.Keys
  }

  predicate Closable(s: Sensor, c: Config, now: real) {
    s.firstCapture.Some? && s.lastDiscovery.Some? &&
    ShouldClose(now, s.firstCapture.value, s.lastDiscovery.value, c.quiet, c.maxWindow, LEARNING_FLOOR)
  }

  /** Monitored devices first seen in the burst window. */
  function BurstMacs(devices: map<Mac, Device>, now: real): set<Mac> {
    set m | m in devices && devices[m].monitored && devices[m].firstSeen >= now - BURST_WINDOW
  }

  /** The devices of a burst count as learned after all. */
  function Relearn(devices: map<Mac, Device>, macs: set<Mac>): map<Mac, Device> {
    map m | m in devices :: if m in macs then devices[m].(monitored := false) else devices[m]
  }

  function Evaluate(s: Sensor, c: Config, now: real): Sensor {
    if s.closedAt.Some? then
      var macs := BurstMacs(s.devices, now);
      if |macs| >= BURST_THRESHOLD then s.(closedAt := None, devices := Relearn(s.devices, macs)) else s
    else if !c.mode.Automatic? then s
    else if Closable(s, c, now) then s.(closedAt := Some(now))
    else s
  }

  function Recover(s: Sensor, c: Config, now: real): Sensor {
    if s.closedAt.None? || s.heartbeat.None? then s
    else if now - s.heartbeat.value >= c.maxWindow then s.(closedAt := None)
    else s
  }

  /** The row written for a device; a row that exists keeps its stamp. */
  function RowFor(s: Sensor, mac: Mac, firstSeen: real): Device {
    if mac in s.devices then s.devices[mac].(firstSeen := Min(s.devices[mac].firstSeen, firstSeen))
    else Device(firstSeen, mac !in Cache(s) && s.closedAt.Some?)
  }

  /** A device is written.  Only a MAC that is not remembered counts as a discovery and is stamped
      with the state of the window.  It is remembered before the write, so also if the write is
      rolled back (`kept` is false). */
  function Sighted(s: Sensor, mac: Mac, firstSeen: real, at: real, kept: bool): Sensor {
    var t := s.(known := Some(Cache(s) + {mac}));
    if !kept then t
    else
      t.(devices := s.devices[mac := RowFor(s, mac, firstSeen)],
         lastDiscovery := if mac in Cache(s) then s.lastDiscovery else Some(at))
  }

  class SensorStore {
    var firstCapture: Option<real>
    var lastDiscovery: Option<real>
    var closedAt: Option<real>
    var heartbeat: Option<real>
    var devices: map<Mac, Device>
    var known: Option<set<Mac>>

    ghost function View(): Sensor
      reads this
    {
      Sensor(firstCapture, lastDiscovery, closedAt, heartbeat, devices, known)
    }

    constructor (now: real)
      ensures View() == Sensor(Some(now), Some(now), None, Some(now), map[], None)
    {
      firstCapture, lastDiscovery, closedAt, heartbeat := Some(now), Some(now), None, Some(now);
      devices, known := map[], None;
    }

    /** Whether a MAC is new, remembering it. */
    method NoteDeviceWrite(mac: Mac) returns (isNew: bool)
      modifies `known
      ensures isNew == (mac !in Cache(old(View()))) && known == Some(Cache(old(View())) + {mac})
    {
      if known.None? {
        known := Some(devices.Keys);
      }
      if mac in known.value {
        assert known.value == known.value + {mac};
        return false;
      }
      known := Some(known.value + {mac});
      return true;
    }

    /** `kept` tells whether the statements after the note are committed or rolled back. */
    method UpsertDevice(mac: Mac, firstSeen: real, at: real, kept: bool)
      modifies `devices, `lastDiscovery, `known
      ensures View() == Sighted(old(View()), mac, firstSeen, at, kept)
    {
      var isNew := NoteDeviceWrite(mac);
      var monitored := isNew && closedAt.Some?;
      if !kept {
        return;
      }
      if mac in devices {
        devices := devices[mac := devices[mac].(firstSeen := Min(devices[mac].firstSeen, firstSeen))];
      } else {
        devices := devices[mac := Device(firstSeen, monitored)];
      }
      if isNew {
        lastDiscovery := Some(at);
      }
    }

    /** `close_learning_window` leaves an already recorded time alone. */
    method CloseWindow(at: real)
      modifies `closedAt
      ensures closedAt == if old(closedAt).Some? then old(closedAt) else Some(at)
    {
      if closedAt.Some? {
        return;
      }
      closedAt := Some(at);
    }

    /** Re-enter learning; the devices of the burst flip back. */
    method ApplyBurstReentry(macs: set<Mac>)
      modifies `closedAt, `devices
      ensures macs == {} ==> View() == old(View())
      ensures macs != {} ==> View() == old(View()).(closedAt := None, devices := Relearn(old(devices), macs))
    {
      if macs == {} {
        return;
      }
      devices := Relearn(devices, macs);
      closedAt := None;
    }

    method EvaluateWindow(c: Config, now: real)
      modifies `closedAt, `devices
      ensures View() == Evaluate(old(View()), c, now)
    {
      if closedAt.Some? {
        var macs := BurstMacs(devices, now);
        if |macs| >= BURST_THRESHOLD {
          ApplyBurstReentry(macs);
        }
        return;
      }
      if !c.mode.Automatic? {
        return;
      }
      if firstCapture.None? || lastDiscovery.None? {
        return;
      }
      if ShouldClose(now, firstCapture.value, lastDiscovery.value, c.quiet, c.maxWindow, LEARNING_FLOOR) {
        CloseWindow(now);
      }
    }

    method RecoverFromOutage(c: Config, now: real)
      modifies `closedAt
      ensures View() == Recover(old(View()), c, now)
    {
      if closedAt.None? {
        return;
      }
      if heartbeat.None? {
        return;
      }
      if now - heartbeat.value >= c.maxWindow {
        closedAt := None;
      }
    }
  }

  // ----- runs -----

  /** `Finish` and `Reopen` are the user's own commands; `Restart` is a new process, which
      remembers no MACs and checks for an outage. */
  datatype Event =
    | Tick(now: real)
    | Sight(mac: Mac, firstSeen: real, now: real, kept: bool)
    | Heartbeat(now: real)
    | Restart(now: real)
    | Finish(now: real)
    | Reopen(now: real)

  function Next(s: Sensor, c: Config, e: Event): Sensor {
    match e
    case Tick(now) => Evaluate(s, c, now)
    case Sight(mac, firstSeen, now, kept) => Sighted(s, mac, firstSeen, now, kept)
    case Heartbeat(now) => s.(heartbeat := Some(now))
    case Restart(now) => Recover(s.(known := None), c, now)
    case Finish(now) => if s.closedAt.Some? then s else s.(closedAt := Some(now))
    case Reopen(_) => s.(closedAt := None)
  }

  function Run(s: Sensor, c: Config, events: seq<Event>): Sensor {
    if events == [] then s else Next(Run(s, c, Front(events)), c, Last(events))
  }

  lemma RunStep(s: Sensor, c: Config, events: seq<Event>, i: nat)
    requires i < |events|
    ensures Run(s, c, events[..i + 1]) == Next(Run(s, c, events[..i]), c, events[i])
  {
    PrefixStep(events, i);
  }

  ghost predicate Dated(s: Sensor) {
    s.firstCapture.Some? && s.lastDiscovery.Some?
  }

  ghost predicate Learning(s: Sensor) {
    Dated(s) && s.closedAt.None?
  }

  /** The time from which the window may close. */
  ghost function ClosingTime(s: Sensor, c: Config): real
    requires Dated(s)
  {
    var first := s.firstCapture.value;
    first + Deadline(s.lastDiscovery.value - first, c.quiet, c.maxWindow, 900.0)
  }

  lemma ClosableFromClosingTime(s: Sensor, c: Config, now: real)
    requires Dated(s)
    ensures Closable(s, c, now) <==> now >= ClosingTime(s, c)
  {
    ClosableExactlyFromDeadline(now, s.firstCapture.value, s.lastDiscovery.value, c.quiet, c.maxWindow, LEARNING_FLOOR);
  }

  /** Without a new discovery, once closable means closable from then on. */
  lemma ClosablePersists(s: Sensor, c: Config, now: real, later: real)
    requires Closable(s, c, now) && now <= later
    ensures Closable(s, c, later)
  {
    ClosableFromClosingTime(s, c, now);
    ClosableFromClosingTime(s, c, later);
  }

  // ----- bursts -----

  /** An arrival of the last five minutes. */
  ghost predicate RecentArrival(s: Sensor, m: Mac, now: real) {
    m in s.devices && s.devices[m].monitored && s.devices[m].firstSeen >= now - 300.0
  }

  ghost predicate ThreeRecentArrivals(s: Sensor, now: real) {
    exists a, b, c :: RecentArrival(s, a, now) && RecentArrival(s, b, now) && RecentArrival(s, c, now) &&
      a != b && b != c && a != c
  }

  lemma ThreeElements(x: set<Mac>)
    ensures |x| >= 3 <==> exists a, b, c :: a in x && b in x && c in x && a != b && b != c && a != c
  {
    if |x| >= 3 {
      var a :| a in x;
      assert |x - {a}| == |x| - 1;
      var b :| b in x - {a};
      assert |x - {a} - {b}| == |x| - 2;
      var c :| c in x - {a} - {b};
      assert a in x && b in x && c in x && a != b && b != c && a != c;
    }
    if a, b, c :| a in x && b in x && c in x && a != b && b != c && a != c {
      assert |{a, b, c}| == 3 && {a, b, c} <= x;
      SubsetSize({a, b, c}, x);
    }
  }

  lemma {:induction false} SubsetSize(x: set<Mac>, y: set<Mac>)
    requires x <= y
    ensures |x| <= |y|
  {
    assert y == x + (y - x);
  }

  lemma BurstIs(s: Sensor, now: real)
    ensures |BurstMacs(s.devices, now)| >= 3 <==> ThreeRecentArrivals(s, now)
    ensures forall m :: m in BurstMacs(s.devices, now) <==> RecentArrival(s, m, now)
  {
    var macs := BurstMacs(s.devices, now);
    ThreeElements(macs);
    if |macs| >= 3 {
      var a, b, c :| a in macs && b in macs && c in macs && a != b && b != c && a != c;
      assert RecentArrival(s, a, now) && RecentArrival(s, b, now) && RecentArrival(s, c, now);
    }
    if a, b, c :| RecentArrival(s, a, now) && RecentArrival(s, b, now) && RecentArrival(s, c, now) && a != b && b != c && a != c {
      assert a in macs && b in macs && c in macs;
    }
  }

  /** In any mode a tick on a closed window reopens it exactly when three devices have arrived in the
      last five minutes.  It then forgives exactly the arrivals of that time; otherwise it changes
      nothing. */
  lemma TickReopensExactlyWhen(s: Sensor, c: Config, now: real)
    requires s.closedAt.Some?
    ensures Next(s, c, Tick(now)).closedAt.None? <==> ThreeRecentArrivals(s, now)
    ensures !ThreeRecentArrivals(s, now) ==> Next(s, c, Tick(now)) == s
    ensures ThreeRecentArrivals(s, now) ==>
              var t := Next(s, c, Tick(now));
              t == s.(closedAt := None, devices := t.devices) && t.devices.Keys == s.devices.Keys &&
              forall m :: m in s.devices ==>
                t.devices[m] == if RecentArrival(s, m, now) then Device(s.devices[m].firstSeen, false) else s.devices[m]
  {
    BurstIs(s, now);
  }

  // ----- what an event leaves alone -----

  /** Only a tick that reopens changes the mark of a device that has a row, only heartbeats move the
      heartbeat, only writes that are kept move the last discovery. */
  lemma StepFrame(s: Sensor, c: Config, e: Event, m: Mac)
    ensures var t := Next(s, c, e);
            && t.firstCapture == s.firstCapture
            && t.heartbeat == (if e.Heartbeat? then Some(e.now) else s.heartbeat)
            && (t.lastDiscovery != s.lastDiscovery ==> e.Sight? && e.kept && t.lastDiscovery == Some(e.now))
            && (m in s.devices ==> m in t.devices)
            && (m in s.devices && t.devices[m].monitored != s.devices[m].monitored ==>
                  e.Tick? && s.closedAt.Some? && ThreeRecentArrivals(s, e.now) && RecentArrival(s, m, e.now))
            && (m in s.devices && t.devices[m].firstSeen != s.devices[m].firstSeen ==>
                  e.Sight? && e.kept && e.mac == m && t.devices[m].firstSeen == e.firstSeen < s.devices[m].firstSeen)
            && (m in t.devices && m !in s.devices ==>
                  e.Sight? && e.kept && e.mac == m && t.devices[m].firstSeen == e.firstSeen)
  {
    if e.Tick? && s.closedAt.Some? {
      TickReopensExactlyWhen(s, c, e.now);
    }
  }

  /** `m` was written with this first sighting. */
  ghost predicate SeenFirst(events: seq<Event>, m: Mac, t: real) {
    exists e :: e in events && e.Sight? && e.kept && e.mac == m && e.firstSeen == t
  }

  /** Over every run the first sighting of a device is the earliest of those written and the one it
      started with. */
  lemma {:induction false} FirstSeenIsEarliest(s: Sensor, c: Config, events: seq<Event>, m: Mac)
    requires m in Run(s, c, events).devices
    ensures var t := Run(s, c, events).devices[m].firstSeen;
            && (SeenFirst(events, m, t) || (m in s.devices && t == s.devices[m].firstSeen))
            && (forall e :: e in events && e.Sight? && e.kept && e.mac == m ==> t <= e.firstSeen)
            && (m in s.devices ==> t <= s.devices[m].firstSeen)
  {
    if events != [] {
      var front, last := Front(events), Last(events);
      var before, after := Run(s, c, front), Run(s, c, events);
      assert events == front + [last];
      StepFrame(before, c, last, m);
      RowsStay(s, c, front, m);
      if m in before.devices {
        FirstSeenIsEarliest(s, c, front, m);
        assert last.Sight? && last.kept && last.mac == m ==> after.devices[m].firstSeen <= last.firstSeen;
      } else {
        NoRowNoWrite(s, c, front, m);
      }
    }
  }

  lemma {:induction false} RowsStay(s: Sensor, c: Config, events: seq<Event>, m: Mac)
    ensures m in s.devices ==> m in Run(s, c, events).devices
  {
    if events != [] {
      RowsStay(s, c, Front(events), m);
      StepFrame(Run(s, c, Front(events)), c, Last(events), m);
    }
  }

  lemma {:induction false} NoRowNoWrite(s: Sensor, c: Config, events: seq<Event>, m: Mac)
    requires m !in Run(s, c, events).devices
    ensures forall e :: e in events && e.Sight? && e.mac == m ==> !e.kept
  {
    if events != [] {
      assert events == Front(events) + [Last(events)];
      StepFrame(Run(s, c, Front(events)), c, Last(events), m);
      NoRowNoWrite(s, c, Front(events), m);
    }
  }

  // ----- when the window is closed -----

  /** A tick in automatic mode that has reached the closing time of the state it meets. */
  ghost predicate DueTick(s: Sensor, c: Config, e: Event) {
    e.Tick? && c.mode.Automatic? && Dated(s) && e.now >= ClosingTime(s, c)
  }

  ghost predicate Closes(s: Sensor, c: Config, e: Event) {
    s.closedAt.None? && (e.Finish? || DueTick(s, c, e))
  }

  /** A burst, a long gap in the heartbeat, or the user. */
  ghost predicate Reopens(s: Sensor, c: Config, e: Event) {
    s.closedAt.Some? &&
    match e
    case Tick(now) => ThreeRecentArrivals(s, now)
    case Restart(now) => s.heartbeat.Some? && now - s.heartbeat.value >= c.maxWindow
    case Reopen(_) => true
    case _ => false
  }

  lemma StepMovesWindow(s: Sensor, c: Config, e: Event)
    ensures Next(s, c, e).closedAt ==
            if Closes(s, c, e) then Some(e.now) else if Reopens(s, c, e) then None else s.closedAt
  {
    if e.Tick? {
      BurstIs(s, e.now);
      if Dated(s) {
        ClosableFromClosingTime(s, c, e.now);
      }
    }
  }

  ghost predicate ClosesAt(s: Sensor, c: Config, events: seq<Event>, i: nat) {
    i < |events| && Closes(Run(s, c, events[..i]), c, events[i])
  }

  ghost predicate ReopensAt(s: Sensor, c: Config, events: seq<Event>, i: nat) {
    i < |events| && Reopens(Run(s, c, events[..i]), c, events[i])
  }

  ghost predicate ReopensFrom(s: Sensor, c: Config, events: seq<Event>, i: nat) {
    exists j: nat :: i <= j && ReopensAt(s, c, events, j)
  }

  /** The event after which the window has stayed closed. */
  ghost predicate ClosedSince(s: Sensor, c: Config, events: seq<Event>, i: nat) {
    ClosesAt(s, c, events, i) && !ReopensFrom(s, c, events, i + 1)
  }

  lemma ClosedSinceStep(s: Sensor, c: Config, events: seq<Event>, i: nat)
    requires events != [] && i < |events| - 1
    ensures ClosedSince(s, c, events, i) <==>
            ClosedSince(s, c, Front(events), i) && !Reopens(Run(s, c, Front(events)), c, Last(events))
  {
    var front, last := Front(events), |events| - 1;
    assert forall j: nat :: j < last ==> (ReopensAt(s, c, front, j) <==> ReopensAt(s, c, events, j)) by {
      assert forall j: nat :: j < last ==> front[..j] == events[..j];
    }
    assert ReopensAt(s, c, events, last) <==> Reopens(Run(s, c, front), c, Last(events)) by {
      assert events[..last] == front;
    }
    assert front[..i] == events[..i];
  }

  lemma ClosedByLast(s: Sensor, c: Config, events: seq<Event>)
    requires events != []
    ensures ClosedSince(s, c, events, |events| - 1) <==> Closes(Run(s, c, Front(events)), c, Last(events))
  {
    assert events[..|events| - 1] == Front(events);
  }

  lemma {:induction false} ClosingIsRecorded(s: Sensor, c: Config, events: seq<Event>, i: nat)
    requires ClosedSince(s, c, events, i)
    ensures Run(s, c, events).closedAt == Some(events[i].now)
  {
    StepMovesWindow(Run(s, c, Front(events)), c, Last(events));
    if i < |events| - 1 {
      ClosedSinceStep(s, c, events, i);
      ClosingIsRecorded(s, c, Front(events), i);
    } else {
      ClosedByLast(s, c, events);
    }
  }

  lemma {:induction false} ClosingExists(s: Sensor, c: Config, events: seq<Event>) returns (i: nat)
    requires s.closedAt.None? && Run(s, c, events).closedAt.Some?
    ensures ClosedSince(s, c, events, i)
  {
    var before, e := Run(s, c, Front(events)), Last(events);
    StepMovesWindow(before, c, e);
    if Closes(before, c, e) {
      ClosedByLast(s, c, events);
      i := |events| - 1;
    } else {
      i := ClosingExists(s, c, Front(events));
      ClosedSinceStep(s, c, events, i);
    }
  }

  /** Over any run, with discoveries, bursts, outages and user commands: the window is closed
      exactly when some event closed it, a due tick or the user, and nothing has reopened it
      since; what is recorded is the time of that event. */
  lemma ClosedExactlyWhen(s: Sensor, c: Config, events: seq<Event>)
    requires s.closedAt.None?
    ensures Run(s, c, events).closedAt.Some? <==> exists i: nat :: ClosedSince(s, c, events, i)
    ensures forall i: nat :: ClosedSince(s, c, events, i) ==> Run(s, c, events).closedAt == Some(events[i].now)
  {
    if Run(s, c, events).closedAt.Some? {
      var i := ClosingExists(s, c, events);
    }
    forall i: nat | ClosedSince(s, c, events, i) ensures Run(s, c, events).closedAt == Some(events[i].now) {
      ClosingIsRecorded(s, c, events, i);
    }
  }

  // ----- runs that nothing reopens -----

  ghost predicate DueAt(s: Sensor, c: Config, events: seq<Event>, i: nat) {
    i < |events| && DueTick(Run(s, c, events[..i]), c, events[i])
  }

  ghost predicate FirstDue(s: Sensor, c: Config, events: seq<Event>, i: nat) {
    DueAt(s, c, events, i) && forall j: nat :: j < i ==> !DueAt(s, c, events, j)
  }

  ghost predicate Unattended(events: seq<Event>) {
    forall e :: e in events ==> !e.Finish?
  }

  lemma {:induction false} FirstDueExists(s: Sensor, c: Config, events: seq<Event>, i: nat) returns (k: nat)
    requires DueAt(s, c, events, i)
    ensures k <= i && FirstDue(s, c, events, k)
    decreases i
  {
    if j: nat :| j < i && DueAt(s, c, events, j) {
      k := FirstDueExists(s, c, events, j);
    } else {
      k := i;
    }
  }

  /** Before the first due tick the window stays open. */
  lemma {:induction false} OpenBeforeFirstDue(s: Sensor, c: Config, events: seq<Event>, k: nat)
    requires s.closedAt.None? && Unattended(events) && k <= |events|
    requires forall j: nat :: j < k ==> !DueAt(s, c, events, j)
    ensures Run(s, c, events[..k]).closedAt.None?
  {
    if k > 0 {
      OpenBeforeFirstDue(s, c, events, k - 1);
      RunStep(s, c, events, k - 1);
      StepMovesWindow(Run(s, c, events[..k - 1]), c, events[k - 1]);
      assert events[k - 1] in events && !DueAt(s, c, events, k - 1);
    }
  }

  /** With discoveries at any time, but no command of the user and nothing that reopens: the
      window is closed exactly when some tick reached the closing time of the state it met, and
      what is recorded is the first such tick. */
  lemma FirstDueTickCloses(s: Sensor, c: Config, events: seq<Event>)
    requires s.closedAt.None? && Unattended(events) && !ReopensFrom(s, c, events, 0)
    ensures Run(s, c, events).closedAt.Some? <==> exists i: nat :: DueAt(s, c, events, i)
    ensures forall i: nat :: FirstDue(s, c, events, i) ==> Run(s, c, events).closedAt == Some(events[i].now)
  {
    forall i: nat | FirstDue(s, c, events, i) ensures Run(s, c, events).closedAt == Some(events[i].now) {
      OpenBeforeFirstDue(s, c, events, i);
      ClosingIsRecorded(s, c, events, i);
    }
    if i: nat :| DueAt(s, c, events, i) {
      var k := FirstDueExists(s, c, events, i);
    } else {
      OpenBeforeFirstDue(s, c, events, |events|);
      assert events[..|events|] == events;
    }
  }

  // ----- traffic does not count -----

  /** Every device written is known already. */
  ghost predicate OnlyKnown(events: seq<Event>, known: set<Mac>) {
    forall e :: e in events && e.Sight? ==> e.mac in known
  }

  /** Every device with a row is remembered. */
  ghost predicate CacheOk(s: Sensor) {
    s.devices.Keys <= Cache(s)
  }

  lemma KnownStep(s: Sensor, c: Config, e: Event)
    requires CacheOk(s) && (e.Sight? ==> e.mac in s.devices)
    ensures var t := Next(s, c, e);
            t.lastDiscovery == s.lastDiscovery && t.firstCapture == s.firstCapture &&
            t.devices.Keys == s.devices.Keys && CacheOk(t)
  {
  }

  lemma {:induction false} KnownKeepDiscovery(s: Sensor, c: Config, events: seq<Event>)
    requires CacheOk(s) && OnlyKnown(events, s.devices.Keys)
    ensures var t := Run(s, c, events);
            t.lastDiscovery == s.lastDiscovery && t.firstCapture == s.firstCapture &&
            t.devices.Keys == s.devices.Keys && CacheOk(t)
  {
    if events != [] {
      assert Last(events) in events && forall e :: e in Front(events) ==> e in events;
      KnownKeepDiscovery(s, c, Front(events));
      KnownStep(Run(s, c, Front(events)), c, Last(events));
    }
  }

  /** However much known devices talk, the closing time does not move: unattended, an automatic
      window that nothing reopens is closed exactly when some tick is at or after the closing
      time it started with. */
  lemma TrafficDoesNotPostpone(s: Sensor, c: Config, events: seq<Event>)
    requires c.mode.Automatic? && Learning(s) && CacheOk(s) && OnlyKnown(events, s.devices.Keys)
    requires Unattended(events) && !ReopensFrom(s, c, events, 0)
    ensures Run(s, c, events).closedAt.Some? <==> exists e :: e in events && e.Tick? && e.now >= ClosingTime(s, c)
  {
    FirstDueTickCloses(s, c, events);
    forall i: nat | i < |events| ensures DueAt(s, c, events, i) <==> events[i].Tick? && events[i].now >= ClosingTime(s, c) {
      assert OnlyKnown(events[..i], s.devices.Keys);
      KnownKeepDiscovery(s, c, events[..i]);
    }
  }

  /** Outside automatic mode no run closes an open window unless the user does. */
  lemma {:induction false} OtherModesNeverClose(s: Sensor, c: Config, events: seq<Event>)
    requires !c.mode.Automatic? && s.closedAt.None? && Unattended(events)
    ensures Run(s, c, events).closedAt.None?
  {
    assert events[..|events|] == events;
    OpenBeforeFirstDue(s, c, events, |events|);
  }

  // ----- how devices are stamped -----

  /** The first stamp is final, except that a burst forgives: no run makes a device that was
      learned count as an arrival. */
  lemma {:induction false} StampsOnlyForgiven(s: Sensor, c: Config, events: seq<Event>, mac: Mac)
    requires mac in s.devices
    ensures var t := Run(s, c, events);
            mac in t.devices && t.devices[mac].firstSeen <= s.devices[mac].firstSeen &&
            (t.devices[mac].monitored ==> s.devices[mac].monitored)
  {
    if events != [] {
      StampsOnlyForgiven(s, c, Front(events), mac);
    }
  }

  /** The event at which `mac` got its row. */
  ghost predicate ArrivesAt(s: Sensor, c: Config, events: seq<Event>, mac: Mac, i: nat) {
    i < |events| && events[i].Sight? && events[i].mac == mac && events[i].kept && mac !in Run(s, c, events[..i]).devices
  }

  /** What counts as an arrival came in while the window was closed. */
  lemma {:induction false} MonitoredArrivedClosed(s: Sensor, c: Config, events: seq<Event>, mac: Mac) returns (i: nat)
    requires mac !in s.devices && mac in Run(s, c, events).devices && Run(s, c, events).devices[mac].monitored
    ensures ArrivesAt(s, c, events, mac, i) && Run(s, c, events[..i]).closedAt.Some?
  {
    var before := Run(s, c, Front(events));
    if mac in before.devices {
      i := MonitoredArrivedClosed(s, c, Front(events), mac);
      assert Front(events)[..i] == events[..i];
    } else {
      i := |events| - 1;
      assert events[..i] == Front(events);
    }
  }

  /** A write of `mac` was rolled back, in the process that is running after `i` events. */
  ghost predicate LostBefore(events: seq<Event>, mac: Mac, i: nat) {
    exists j: nat :: j < i && LostAt(events, mac, i, j)
  }

  ghost predicate LostAt(events: seq<Event>, mac: Mac, i: nat, j: nat) {
    && j < i <= |events|
    && events[j].Sight? && events[j].mac == mac && !events[j].kept
    && forall k :: j < k < i ==> !events[k].Restart?
  }

  lemma LostStep(events: seq<Event>, mac: Mac, i: nat)
    requires i < |events|
    ensures LostBefore(events, mac, i + 1) <==>
            (LostBefore(events, mac, i) && !events[i].Restart?) ||
            (events[i].Sight? && events[i].mac == mac && !events[i].kept)
  {
    if LostBefore(events, mac, i) && !events[i].Restart? {
      var j: nat :| j < i && LostAt(events, mac, i, j);
      assert LostAt(events, mac, i + 1, j);
    }
    if events[i].Sight? && events[i].mac == mac && !events[i].kept {
      assert LostAt(events, mac, i + 1, i);
    }
    if LostBefore(events, mac, i + 1) {
      var j: nat :| j < i + 1 && LostAt(events, mac, i + 1, j);
      assert j < i ==> LostAt(events, mac, i, j) && !events[i].Restart?;
    }
  }

  lemma CacheStep(s: Sensor, c: Config, e: Event, mac: Mac)
    requires CacheOk(s)
    ensures var t := Next(s, c, e);
            CacheOk(t) &&
            (mac in t.devices <==> mac in s.devices || (e.Sight? && e.mac == mac && e.kept)) &&
            (mac in Cache(t) <==>
               if e.Restart? then mac in s.devices else mac in Cache(s) || (e.Sight? && e.mac == mac))
  {
  }

  /** What is remembered is what has a row, and what a rolled-back write has left behind. */
  lemma {:induction false} CacheIs(s: Sensor, c: Config, events: seq<Event>, mac: Mac, i: nat)
    requires Cache(s) == s.devices.Keys && i <= |events|
    ensures var t := Run(s, c, events[..i]);
            CacheOk(t) && (mac in Cache(t) <==> mac in t.devices || LostBefore(events, mac, i))
  {
    if i > 0 {
      CacheIs(s, c, events, mac, i - 1);
      RunStep(s, c, events, i - 1);
      CacheStep(Run(s, c, events[..i - 1]), c, events[i - 1], mac);
      LostStep(events, mac, i - 1);
    }
  }

  /** A device that gets its row while the window is closed counts as an arrival, and any device
      that gets its row as a discovery, exactly when no write of it was rolled back earlier in
      the same process. */
  lemma ArrivalCountsExactlyWhen(s: Sensor, c: Config, events: seq<Event>, mac: Mac, i: nat)
    requires Cache(s) == s.devices.Keys && ArrivesAt(s, c, events, mac, i)
    ensures var before, after := Run(s, c, events[..i]), Run(s, c, events[..i + 1]);
            mac in after.devices &&
            (after.devices[mac].monitored <==> before.closedAt.Some? && !LostBefore(events, mac, i)) &&
            after.lastDiscovery == if LostBefore(events, mac, i) then before.lastDiscovery else Some(events[i].now)
  {
    CacheIs(s, c, events, mac, i);
    RunStep(s, c, events, i);
  }

  // ----- reopening -----

  lemma {:induction false} FirstCaptureKept(s: Sensor, c: Config, events: seq<Event>)
    ensures Run(s, c, events).firstCapture == s.firstCapture
    ensures s.lastDiscovery.Some? ==> Run(s, c, events).lastDiscovery.Some?
  {
    if events != [] {
      FirstCaptureKept(s, c, Front(events));
    }
  }

  /** Discoveries and heartbeats only. */
  ghost predicate Passive(events: seq<Event>) {
    forall e :: e in events ==> e.Sight? || e.Heartbeat?
  }

  lemma {:induction false} PassiveKeepsOpen(s: Sensor, c: Config, events: seq<Event>)
    requires Passive(events)
    ensures Run(s, c, events).closedAt == s.closedAt
  {
    if events != [] {
      assert Last(events) in events && forall e :: e in Front(events) ==> e in events;
      PassiveKeepsOpen(s, c, Front(events));
    }
  }

  /** An open window survives the next automatic tick exactly when that tick comes before the
      closing time; reopening does not move the start of observation. */
  lemma ReopenedSurvivesExactlyWhen(s: Sensor, c: Config, between: seq<Event>, now: real)
    requires c.mode.Automatic? && Learning(s) && Passive(between)
    ensures var t := Run(s, c, between);
            Learning(t) && (Run(s, c, between + [Tick(now)]).closedAt.None? <==> now < ClosingTime(t, c))
  {
    PassiveKeepsOpen(s, c, between);
    FirstCaptureKept(s, c, between);
    assert Front(between + [Tick(now)]) == between;
    ClosableFromClosingTime(Run(s, c, between), c, now);
  }

  /** Outage recovery is undone by the very next automatic tick: the outage alone is as long as
      the cap, and the time since first capture is longer still, whatever is discovered. */
  lemma RecoveryUndoneByNextTick(s: Sensor, c: Config, now: real, between: seq<Event>, later: real)
    requires c.mode.Automatic? && s.closedAt.Some? && Recover(s, c, now).closedAt.None?
    requires Dated(s) && s.firstCapture.value <= s.heartbeat.value
    requires Passive(between) && later >= now
    ensures Run(Next(s, c, Restart(now)), c, between + [Tick(later)]).closedAt == Some(later)
  {
    ReopenAfterCap(Next(s, c, Restart(now)), c, between, later);
  }

  lemma ReopenAfterCap(s: Sensor, c: Config, between: seq<Event>, later: real)
    requires c.mode.Automatic? && Learning(s) && Passive(between) && later - s.firstCapture.value >= c.maxWindow
    ensures Run(s, c, between + [Tick(later)]).closedAt == Some(later)
  {
    PassiveKeepsOpen(s, c, between);
    FirstCaptureKept(s, c, between);
    assert Front(between + [Tick(later)]) == between;
  }

  /** So is the user's command to learn again, on a sensor older than the cap. */
  lemma ReopenUndoneByNextTick(s: Sensor, c: Config, now: real, between: seq<Event>, later: real)
    requires c.mode.Automatic? && Dated(s) && now - s.firstCapture.value >= c.maxWindow
    requires Passive(between) && later >= now
    ensures Run(Next(s, c, Reopen(now)), c, between + [Tick(later)]).closedAt == Some(later)
  {
    ReopenAfterCap(Next(s, c, Reopen(now)), c, between, later);
  }

  /** Likewise a burst on a sensor older than the cap reopens learning for one tick only. */
  lemma BurstUndoneByNextTick(s: Sensor, c: Config, now: real, between: seq<Event>, later: real)
    requires c.mode.Automatic? && s.closedAt.Some? && ThreeRecentArrivals(s, now)
    requires Dated(s) && now - s.firstCapture.value >= c.maxWindow
    requires Passive(between) && later >= now
    ensures Next(s, c, Tick(now)).closedAt.None?
    ensures Run(Next(s, c, Tick(now)), c, between + [Tick(later)]).closedAt == Some(later)
  {
    BurstIs(s, now);
    ReopenAfterCap(Evaluate(s, c, now), c, between, later);
  }
}
