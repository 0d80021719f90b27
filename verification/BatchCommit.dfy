/**
 * Batched persistence (src/leetha/pipeline.py, BatchCommitter; the transaction of
 * src/leetha/store/database.py).  Operations are abstract: they transform a database or raise.
 * Producers may enqueue between any two steps of the run loop.
 */
module BatchCommit {
  import opened Sequences

  // ----- one transaction -----

  /** Executing operations in order; `None` once one of them raises. */
  function RunAll<Db, Op>(exec: (Db, Op) -> Option<Db>, db: Db, ops: seq<Op>): Option<Db> {
    if ops == [] then Some(db)
    else
      var before := RunAll(exec, db, Front(ops));
      if before.Some? then exec(before.value, Last(ops)) else None
  }

  lemma {:induction false} RunAllConcat<Db, Op>(exec: (Db, Op) -> Option<Db>, db: Db, a: seq<Op>, b: seq<Op>)
    requires RunAll(exec, db, a).Some?
    ensures RunAll(exec, db, a + b) == RunAll(exec, RunAll(exec, db, a).value, b)
  {
    if b == [] {
      assert a + b == a;
    } else {
      assert Front(a + b) == a + Front(b) && Last(a + b) == Last(b);
      RunAllConcat(exec, db, a, Front(b));
    }
  }

  lemma {:induction false} RunAllStopped<Db, Op>(exec: (Db, Op) -> Option<Db>, db: Db, a: seq<Op>, b: seq<Op>)
    requires RunAll(exec, db, a).None?
    ensures RunAll(exec, db, a + b).None?
  {
    if b == [] {
      assert a + b == a;
    } else {
      assert Front(a + b) == a + Front(b);
      RunAllStopped(exec, db, a, Front(b));
    }
  }

  /** One operation is executed once. */
  lemma RunAllOne<Db, Op>(exec: (Db, Op) -> Option<Db>, db: Db, x: Op)
    ensures RunAll(exec, db, []) == Some(db) && RunAll(exec, db, [x]) == exec(db, x)
  {
    assert Front([x]) == [];
  }

  /** A prefix of operations that raises makes any longer run raise. */
  lemma RunAllPrefix<Db, Op>(exec: (Db, Op) -> Option<Db>, db: Db, ops: seq<Op>, i: nat)
    requires i <= |ops| && RunAll(exec, db, ops[..i]).None?
    ensures RunAll(exec, db, ops).None?
  {
    RunAllStopped(exec, db, ops[..i], ops[i..]);
    assert ops[..i] + ops[i..] == ops;
  }

  /** How a transaction ends, unless an operation raises first.  `CancelledAt(done)`: the loop is
      cancelled after `done` operations, before the commit. */
  datatype End = Commits | CommitFails | CancelledAt(done: nat)

  datatype TxnResult<Db> = Done(db: Db) | Failed | LeftOpen(working: Db)

  /** Whether the cancellation arrives while the transaction is running. */
  predicate CancelHits<Db, Op>(exec: (Db, Op) -> Option<Db>, db: Db, ops: seq<Op>, end: End) {
    end.CancelledAt? && end.done <= |ops| && RunAll(exec, db, ops[..end.done]).Some?
  }

  /**
   * One transaction.  All operations and the commit succeed, or nothing happens; but a
   * cancellation is no `Exception`, so it leaves the transaction open, neither committed nor
   * rolled back, and `BEGIN` raises while one is open.
   */
  method Transact<Db, Op>(exec: (Db, Op) -> Option<Db>, db: Db, isOpen: bool, batch: seq<Op>, end: End) returns (r: TxnResult<Db>)
    ensures isOpen ==> r == Failed
    ensures !isOpen && CancelHits(exec, db, batch, end) ==>
              r == LeftOpen(RunAll(exec, db, batch[..end.done]).value)
    ensures !isOpen && !CancelHits(exec, db, batch, end) ==>
              r == if !end.CommitFails? && RunAll(exec, db, batch).Some? then Done(RunAll(exec, db, batch).value) else Failed
  {
    if isOpen {
      return Failed;
    }
    var working := db;
    for i := 0 to |batch|
      invariant RunAll(exec, db, batch[..i]) == Some(working)
      invariant end.CancelledAt? ==> i <= end.done
    {
      if end == CancelledAt(i) {
        return LeftOpen(working);
      }
      PrefixStep(batch, i);
      var next := exec(working, batch[i]);
      if next.None? {
        RunAllPrefix(exec, db, batch, i + 1);
        if CancelHits(exec, db, batch, end) {
          assert batch[..end.done][..i + 1] == batch[..i + 1];
          RunAllPrefix(exec, db, batch[..end.done], i + 1);
          assert false;
        }
        return Failed;
      }
      working := next.value;
    }
    assert batch[..|batch|] == batch;
    if end == CancelledAt(|batch|) {
      return LeftOpen(working);
    }
    return if end.CommitFails? then Failed else Done(working);
  }

  // ----- the state machine -----

  /** What became of a batch.  `Torn`: its transaction was cancelled after `done` operations;
      `landed` once somebody else's commit on the connection has made them permanent. */
  datatype Outcome = Committed | RolledBack | Abandoned | Torn(done: nat, landed: bool)
  datatype Record<Op> = Record(ops: seq<Op>, outcome: Outcome, isFlush: bool)

  datatype State<Db, Op> = State(
    db: Db,
    enqueued: seq<Op>,
    pending: seq<Op>,
    gathering: bool,
    batch: seq<Op>,
    log: seq<Record<Op>>,
    torn: Option<nat>)

  /** `Settle`: the open transaction is ended from outside, by a commit of another writer on the
      same connection, or by a rollback. */
  datatype Event<Op> =
    | Enqueue(ops: seq<Op>)
    | TakeFirst
    | TakeAnother
    | Commit(end: End)
    | CancelCollect
    | Flush(end: End)
    | Settle(landed: bool)

  function Start<Db, Op>(db: Db): State<Db, Op> {
    State(db, [], [], false, [], [], None)
  }

  predicate Enabled<Db, Op(==)>(s: State<Db, Op>, e: Event<Op>, cap: int) {
    match e
    case Enqueue(_) => true
    case TakeFirst => !s.gathering && s.pending != []
    case TakeAnother => s.gathering && |s.batch| < cap && s.pending != []
    case Commit(_) => s.gathering
    case CancelCollect => s.gathering
    case Flush(_) => !s.gathering && s.pending != []
    case Settle(_) => s.torn.Some?
  }

  function WriteOutcome<Db, Op>(exec: (Db, Op) -> Option<Db>, s: State<Db, Op>, ops: seq<Op>, end: End): Outcome {
    if s.torn.Some? then RolledBack
    else if CancelHits(exec, s.db, ops, end) then Torn(end.done, false)
    else if !end.CommitFails? && RunAll(exec, s.db, ops).Some? then Committed
    else RolledBack
  }

  /** The state after trying to write `ops` in one transaction. */
  function Write<Db, Op>(exec: (Db, Op) -> Option<Db>, s: State<Db, Op>, ops: seq<Op>, end: End, isFlush: bool): State<Db, Op> {
    var outcome := WriteOutcome(exec, s, ops, end);
    s.(db := if outcome.Committed? then RunAll(exec, s.db, ops).value else s.db,
       log := s.log + [Record(ops, outcome, isFlush)],
       torn := if outcome.Torn? then Some(|s.log|) else s.torn)
  }

  /** The operations of a batch that are in the database. */
  function Kept<Op>(r: Record<Op>): seq<Op> {
    match r.outcome
    case Committed => r.ops
    case Torn(done, landed) => if landed && done <= |r.ops| then r.ops[..done] else []
    case _ => []
  }

  function Landed<Op>(r: Record<Op>): Record<Op> {
    if r.outcome.Torn? then r.(outcome := Torn(r.outcome.done, true)) else r
  }

  function Settled<Db, Op>(exec: (Db, Op) -> Option<Db>, s: State<Db, Op>, landed: bool): State<Db, Op> {
    if !landed || s.torn.None? || s.torn.value >= |s.log| then s.(torn := None)
    else
      var r := Landed(s.log[s.torn.value]);
      var after := RunAll(exec, s.db, Kept(r));
      s.(db := if after.Some? then after.value else s.db, log := s.log[s.torn.value := r], torn := None)
  }

  function TakeOne<Db, Op>(s: State<Db, Op>): State<Db, Op> {
    if s.pending == [] then s
    else s.(gathering := true, batch := s.batch + [s.pending[0]], pending := s.pending[1..])
  }

  function Next<Db, Op>(exec: (Db, Op) -> Option<Db>, s: State<Db, Op>, e: Event<Op>): State<Db, Op> {
    match e
    case Enqueue(ops) => s.(enqueued := s.enqueued + ops, pending := s.pending + ops)
    case TakeFirst => TakeOne(s)
    case TakeAnother => TakeOne(s)
    case Commit(end) => Write(exec, s, s.batch, end, false).(gathering := false, batch := [])
    case CancelCollect => s.(log := s.log + [Record(s.batch, Abandoned, false)], gathering := false, batch := [])
    case Flush(end) => Write(exec, s, s.pending, end, true).(pending := [])
    case Settle(landed) => Settled(exec, s, landed)
  }

  function Exec<Db, Op(==)>(exec: (Db, Op) -> Option<Db>, db: Db, events: seq<Event<Op>>, cap: int): Option<State<Db, Op>> {
    if events == [] then Some(Start(db))
    else
      var before := Exec(exec, db, Front(events), cap);
      if before.Some? && Enabled(before.value, Last(events), cap) then Some(Next(exec, before.value, Last(events)))
      else None
  }

  lemma ExecStep<Db, Op>(exec: (Db, Op) -> Option<Db>, db: Db, events: seq<Event<Op>>, e: Event<Op>, cap: int)
    requires Exec(exec, db, events, cap).Some? && Enabled(Exec(exec, db, events, cap).value, e, cap)
    ensures Exec(exec, db, events + [e], cap) == Some(Next(exec, Exec(exec, db, events, cap).value, e))
  {
    assert Front(events + [e]) == events;
  }

  // ----- the class -----

  function BatchBound(cap: int): nat {
    if cap < 1 then 1 else cap
  }

  /** What collecting a batch amounts to: `arrivals[i]` comes in during the i-th wait, and one
      operation is taken after each of the first `took` waits. */
  function CollectEvents<Op>(arrivals: seq<seq<Op>>, took: nat): seq<Event<Op>> {
    if arrivals == [] then []
    else
      CollectEvents(Front(arrivals), took) + [Event.Enqueue(Last(arrivals))] +
      if |arrivals| > took then [] else if |arrivals| == 1 then [TakeFirst] else [TakeAnother]
  }

  /** A wait that runs dry. */
  lemma CollectDry<Op>(arrivals: seq<seq<Op>>, i: nat)
    requires i < |arrivals|
    ensures CollectEvents(arrivals[..i + 1], i) == CollectEvents(arrivals[..i], i) + [Event.Enqueue(arrivals[i])]
  {
    PrefixStep(arrivals, i);
  }

  /** A wait followed by taking one operation. */
  lemma CollectTook<Op>(arrivals: seq<seq<Op>>, i: nat)
    requires i < |arrivals|
    ensures CollectEvents(arrivals[..i + 1], i + 1) ==
            CollectEvents(arrivals[..i], i) + [Event.Enqueue(arrivals[i])] + [if i == 0 then TakeFirst else TakeAnother]
  {
    PrefixStep(arrivals, i);
    SpareTakes(arrivals[..i], i, i + 1);
  }

  /** Takes beyond the waits that were made do not matter. */
  lemma {:induction false} SpareTakes<Op>(arrivals: seq<seq<Op>>, took: nat, more: nat)
    requires |arrivals| <= took <= more
    ensures CollectEvents(arrivals, took) == CollectEvents(arrivals, more)
  {
    if arrivals != [] {
      SpareTakes(Front(arrivals), took, more);
    }
  }

  lemma AppendOne<T>(a: seq<T>, b: seq<T>, x: T)
    ensures a + b + [x] == a + (b + [x])
  {
  }

  /** The committer with its queue and its connection.  `history` is the run of the state machine
      that the calls so far amount to. */
  class BatchCommitter<Db, Op(==)> {
    var db: Db
    var pending: seq<Op>
    var isOpen: bool
    const exec: (Db, Op) -> Option<Db>
    const batchCap: int
    ghost const initial: Db
    ghost var history: seq<Event<Op>>

    ghost predicate Valid()
      reads this
    {
      Follows(Exec(exec, initial, history, batchCap))
    }

    ghost predicate Follows(s: Option<State<Db, Op>>)
      reads this
    {
      s.Some? && s.value.db == db && s.value.pending == pending && s.value.torn.Some? == isOpen
    }

    ghost function View(): State<Db, Op>
      reads this
      requires Valid()
    {
      Exec(exec, initial, history, batchCap).value
    }

    constructor (database: Db, execute: (Db, Op) -> Option<Db>, maxBatch: int)
      ensures Valid() && history == [] && initial == database && exec == execute && batchCap == maxBatch
    {
      db, pending, isOpen, exec, batchCap := database, [], false, execute, maxBatch;
      initial, history := database, [];
    }

    /** What every sequence of calls keeps, on the real queue and database. */
    lemma Guarantees()
      requires Valid()
      ensures View().enqueued == Taken(View().log) + View().batch + pending
      ensures RunAll(exec, initial, Written(View().log)) == Some(db)
      ensures SizesOk(View(), batchCap)
    {
      RunsKeepBatches(exec, initial, history, batchCap);
    }

    /** Extends the history by an event whose effect on the fields has been carried out. */
    ghost method Log(e: Event<Op>, before: State<Db, Op>)
      requires Exec(exec, initial, history, batchCap) == Some(before) && Enabled(before, e, batchCap)
      requires Follows(Some(Next(exec, before, e)))
      modifies `history
      ensures Valid() && history == old(history) + [e] && View() == Next(exec, before, e)
    {
      ExecStep(exec, initial, history, e, batchCap);
      history := history + [e];
    }

    method Enqueue(operations: seq<Op>)
      requires Valid()
      modifies this
      ensures Valid() && history == old(history) + [Event.Enqueue(operations)]
      ensures View() == Next(exec, old(View()), Event.Enqueue(operations))
    {
      ghost var before := View();
      for i := 0 to |operations|
        invariant pending == old(pending) + operations[..i]
        invariant unchanged(`db) && unchanged(`isOpen) && unchanged(`history)
      {
        pending := pending + [operations[i]];
      }
      assert operations[..|operations|] == operations;
      Log(Event.Enqueue(operations), before);
    }

    /** `get` on a queue that is not empty. */
    method Take(ghost e: Event<Op>) returns (op: Op)
      requires Valid() && (e.TakeFirst? || e.TakeAnother?) && Enabled(View(), e, batchCap)
      modifies this
      ensures Valid() && history == old(history) + [e] && View() == TakeOne(old(View()))
      ensures op == old(pending)[0] && pending == old(pending)[1..]
    {
      ghost var before := View();
      op, pending := pending[0], pending[1..];
      Log(e, before);
    }

    /** One more wait: what arrives is queued, and one operation is taken if there is any. */
    method WaitAndTake(arrival: seq<Op>, ghost h: seq<Event<Op>>, ghost arrivals: seq<seq<Op>>, ghost i: nat)
      returns (item: Option<Op>)
      requires Valid() && i < |arrivals| && arrivals[i] == arrival && |View().batch| == i
      requires if i == 0 then !View().gathering else View().gathering && i < batchCap
      requires history == h + CollectEvents(arrivals[..i], i)
      modifies this
      ensures Valid() && history == h + CollectEvents(arrivals[..i + 1], if item.Some? then i + 1 else i)
      ensures (if item.Some? then [item.value] else []) + pending == old(pending) + arrival
      ensures item.None? ==> pending == [] && View().batch == old(View().batch) && View().gathering == old(View().gathering)
      ensures item.Some? ==> View().batch == old(View().batch) + [item.value] && View().gathering
    {
      ghost var events, arrived := CollectEvents(arrivals[..i], i), Event.Enqueue(arrival);
      Enqueue(arrival);
      AppendOne(h, events, arrived);
      if pending == [] {
        CollectDry(arrivals, i);
        return None;
      }
      CollectTook(arrivals, i);
      ghost var e := if i == 0 then TakeFirst else TakeAnother;
      AppendOne(h, events + [arrived], e);
      var op := Take(e);
      return Some(op);
    }

    /**
     * Wait for one operation, then drain greedily up to the cap.  `first` and `later` are what
     * producers enqueue during the waits; the time budget ends with the list.
     */
    method CollectBatch(first: seq<Op>, later: seq<seq<Op>>) returns (collected: seq<Op>, waits: nat)
      requires Valid() && !View().gathering
      modifies this
      ensures 1 <= waits <= 1 + |later|
      ensures Valid() && history == old(history) + CollectEvents(([first] + later)[..waits], |collected|)
      ensures View().batch == collected && View().gathering == (collected != [])
      ensures collected + pending == old(pending) + Flatten(([first] + later)[..waits])
      ensures |collected| <= BatchBound(batchCap)
      ensures collected == [] ==> pending == []
      ensures |collected| < BatchBound(batchCap) && waits <= |later| ==> pending == []
    {
      ghost var arrivals := [first] + later;
      assert View().batch == [] by {
        Guarantees();
      }
      assert CollectEvents(arrivals[..0], 0) == [] && history == history + [];
      assert Flatten(arrivals[..1]) == first by {
        FlattenStep(arrivals, 0);
      }
      var head := WaitAndTake(first, history, arrivals, 0);
      if head.None? {
        return [], 1;
      }
      collected, waits := CollectMore(head.value, later, old(history), arrivals, old(pending));
    }

    /** The drain loop of `_collect_batch`. */
    method CollectMore(head: Op, later: seq<seq<Op>>,
                       ghost h: seq<Event<Op>>, ghost arrivals: seq<seq<Op>>, ghost queued: seq<Op>)
      returns (collected: seq<Op>, waits: nat)
      requires Valid() && View().gathering && View().batch == [head]
      requires |arrivals| == 1 + |later| && arrivals[1..] == later
      requires [head] + pending == queued + Flatten(arrivals[..1])
      requires history == h + CollectEvents(arrivals[..1], 1)
      modifies this
      ensures 1 <= |collected| <= BatchBound(batchCap) && 1 <= waits <= 1 + |later|
      ensures Valid() && history == h + CollectEvents(arrivals[..waits], |collected|)
      ensures View().batch == collected && View().gathering
      ensures collected + pending == queued + Flatten(arrivals[..waits])
      ensures |collected| < BatchBound(batchCap) && waits <= |later| ==> pending == []
    {
      collected, waits := [head], 1;
      while |collected| < batchCap && waits <= |later|
        invariant 1 <= waits == |collected| <= BatchBound(batchCap) && waits <= 1 + |later|
        invariant Valid() && View().gathering && View().batch == collected
        invariant history == h + CollectEvents(arrivals[..waits], waits)
        invariant collected + pending == queued + Flatten(arrivals[..waits])
        decreases |later| - waits
      {
        FlattenStep(arrivals, waits);
        CollectedAndArrived(collected, pending, later[waits - 1], queued, Flatten(arrivals[..waits]));
        var item := WaitAndTake(later[waits - 1], h, arrivals, waits);
        waits := waits + 1;
        if item.None? {
          break;
        }
        AppendOneMore(collected, item.value, pending);
        collected := collected + [item.value];
      }
    }

    /** One transaction on the connection. */
    method WriteAll(ops: seq<Op>, end: End, ghost s: State<Db, Op>, ghost isFlush: bool)
      requires s.db == db && s.torn.Some? == isOpen
      modifies `db, `isOpen
      ensures var t := Write(exec, s, ops, end, isFlush); t.db == db && t.torn.Some? == isOpen
      ensures db == old(db) || (!old(isOpen) && RunAll(exec, old(db), ops) == Some(db))
    {
      var r := Transact(exec, db, isOpen, ops, end);
      if r.Done? {
        db := r.db;
      } else if r.LeftOpen? {
        isOpen := true;
      }
    }

    /** The transaction of the run loop.  A cancellation inside it ends the loop. */
    method CommitBatch(collected: seq<Op>, end: End)
      requires Valid() && View().gathering && collected == View().batch
      modifies this
      ensures Valid() && history == old(history) + [Commit(end)]
      ensures pending == old(pending)
      ensures db == old(db) || (!old(isOpen) && RunAll(exec, old(db), collected) == Some(db))
    {
      ghost var before := View();
      WriteAll(collected, end, before, false);
      Log(Commit(end), before);
    }

    /** One round of the run loop. */
    method RunOnce(first: seq<Op>, later: seq<seq<Op>>, end: End) returns (collected: seq<Op>, waits: nat)
      requires Valid() && !View().gathering
      modifies this
      ensures 1 <= waits <= 1 + |later|
      ensures Valid() && !View().gathering
      ensures history == old(history) + CollectEvents(([first] + later)[..waits], |collected|) +
                         if collected == [] then [] else [Commit(end)]
    {
      collected, waits := CollectBatch(first, later);
      if collected != [] {
        CommitBatch(collected, end);
      }
    }

    method Drain() returns (remaining: seq<Op>)
      modifies `pending
      ensures remaining == old(pending) && pending == []
    {
      remaining := [];
      while pending != []
        invariant remaining + pending == old(pending)
        decreases |pending|
      {
        AppendHead(remaining, pending);
        remaining, pending := remaining + [pending[0]], pending[1..];
      }
    }

    /** Drain the queue and write it in one transaction, at shutdown. */
    method Flush(end: End)
      requires Valid() && !View().gathering
      modifies this
      ensures Valid() && pending == []
      ensures history == old(history) + if old(pending) == [] then [] else [Event.Flush(end)]
    {
      ghost var before := View();
      var remaining := Drain();
      if remaining != [] {
        WriteAll(remaining, end, before, true);
        Log(Event.Flush(end), before);
      }
    }
  }

  lemma CollectedAndArrived<T>(collected: seq<T>, pending: seq<T>, arrival: seq<T>, queued: seq<T>, sofar: seq<T>)
    requires collected + pending == queued + sofar
    ensures collected + (pending + arrival) == queued + (sofar + arrival)
  {
    assert collected + (pending + arrival) == collected + pending + arrival;
    assert queued + (sofar + arrival) == queued + sofar + arrival;
  }

  lemma AppendOneMore<T>(collected: seq<T>, item: T, pending: seq<T>)
    ensures collected + ([item] + pending) == collected + [item] + pending
  {
  }

  lemma FlattenStep<T>(ss: seq<seq<T>>, i: nat)
    requires i < |ss|
    ensures Flatten(ss[..i + 1]) == Flatten(ss[..i]) + ss[i]
  {
    PrefixStep(ss, i);
  }

  lemma AppendHead<T>(a: seq<T>, b: seq<T>)
    requires b != []
    ensures a + [b[0]] + b[1..] == a + b
  {
  }

  // ----- what every run keeps -----

  /** The operations of all batches taken from the queue, in order. */
  function Taken<Op>(log: seq<Record<Op>>): seq<Op> {
    if log == [] then [] else Taken(Front(log)) + Last(log).ops
  }

  /** The operations that reached the database, in order. */
  function Written<Op>(log: seq<Record<Op>>): seq<Op> {
    if log == [] then [] else Written(Front(log)) + Kept(Last(log))
  }

  lemma LogStep<Op>(log: seq<Record<Op>>, r: Record<Op>)
    ensures Taken(log + [r]) == Taken(log) + r.ops
    ensures Written(log + [r]) == Written(log) + Kept(r)
  {
    assert Front(log + [r]) == log;
  }

  /** Nothing is reordered, duplicated or skipped: batches taken, then the partial batch, then
      the queue, are exactly what was enqueued. */
  ghost predicate OrderOk<Db, Op>(s: State<Db, Op>) {
    s.enqueued == Taken(s.log) + s.batch + s.pending
  }

  ghost predicate RecordOk<Op>(r: Record<Op>, cap: int) {
    r.ops != [] && (!r.isFlush ==> |r.ops| <= BatchBound(cap))
  }

  ghost predicate SizesOk<Db, Op>(s: State<Db, Op>, cap: int) {
    && (if s.gathering then 1 <= |s.batch| <= BatchBound(cap) else s.batch == [])
    && forall i :: 0 <= i < |s.log| ==> RecordOk(s.log[i], cap)
  }

  /** The database holds the committed batches, executed in order, and the executed part of
      batches whose cancelled transaction was committed from outside; nothing else. */
  ghost predicate DbOk<Db, Op>(exec: (Db, Op) -> Option<Db>, initial: Db, s: State<Db, Op>) {
    RunAll(exec, initial, Written(s.log)) == Some(s.db)
  }

  /** An open transaction belongs to the last batch that got as far as executing anything. */
  ghost predicate TornOk<Db, Op>(exec: (Db, Op) -> Option<Db>, s: State<Db, Op>) {
    s.torn.Some? ==>
      && s.torn.value < |s.log|
      && s.log[s.torn.value].outcome.Torn?
      && (forall i :: s.torn.value <= i < |s.log| ==> Kept(s.log[i]) == [])
      && RunAll(exec, s.db, Kept(Landed(s.log[s.torn.value]))).Some?
  }

  // ----- order -----

  lemma TakeKeepsOrder<Db, Op>(s: State<Db, Op>)
    requires OrderOk(s)
    ensures OrderOk(TakeOne(s))
  {
    if s.pending != [] {
      AppendOne(Taken(s.log), s.batch, s.pending[0]);
      AppendHead(Taken(s.log) + s.batch, s.pending);
    }
  }

  lemma EnqueueKeepsOrder<Db, Op>(s: State<Db, Op>, ops: seq<Op>)
    requires OrderOk(s)
    ensures OrderOk(s.(enqueued := s.enqueued + ops, pending := s.pending + ops))
  {
    assert Taken(s.log) + s.batch + s.pending + ops == Taken(s.log) + s.batch + (s.pending + ops);
  }

  lemma EndBatchKeepsOrder<Db, Op>(s: State<Db, Op>, t: State<Db, Op>, r: Record<Op>)
    requires OrderOk(s) && t.log == s.log + [r] && t.enqueued == s.enqueued && t.batch == []
    requires if r.isFlush then s.batch == [] && r.ops == s.pending && t.pending == [] else r.ops == s.batch && t.pending == s.pending
    ensures OrderOk(t)
  {
    LogStep(s.log, r);
    assert Taken(t.log) + [] == Taken(t.log);
  }

  lemma {:induction false} TakenUpdate<Op>(log: seq<Record<Op>>, k: nat, r: Record<Op>)
    requires k < |log| && r.ops == log[k].ops
    ensures Taken(log[k := r]) == Taken(log)
  {
    var after := log[k := r];
    if k < |log| - 1 {
      TakenUpdate(Front(log), k, r);
      assert Front(after) == Front(log)[k := r];
    } else {
      assert Front(after) == Front(log);
    }
  }

  lemma SettleKeepsOrder<Db, Op>(exec: (Db, Op) -> Option<Db>, s: State<Db, Op>, landed: bool)
    requires OrderOk(s)
    ensures OrderOk(Settled(exec, s, landed))
  {
    if landed && s.torn.Some? && s.torn.value < |s.log| {
      TakenUpdate(s.log, s.torn.value, Landed(s.log[s.torn.value]));
    }
  }

  lemma StepKeepsOrder<Db, Op>(exec: (Db, Op) -> Option<Db>, s: State<Db, Op>, e: Event<Op>, cap: int)
    requires OrderOk(s) && SizesOk(s, cap) && Enabled(s, e, cap)
    ensures OrderOk(Next(exec, s, e))
  {
    var t := Next(exec, s, e);
    match e
    case Enqueue(ops) => EnqueueKeepsOrder(s, ops);
    case TakeFirst => TakeKeepsOrder(s);
    case TakeAnother => TakeKeepsOrder(s);
    case Commit(end) => EndBatchKeepsOrder(s, t, Record(s.batch, WriteOutcome(exec, s, s.batch, end), false));
    case CancelCollect => EndBatchKeepsOrder(s, t, Record(s.batch, Abandoned, false));
    case Flush(end) => EndBatchKeepsOrder(s, t, Record(s.pending, WriteOutcome(exec, s, s.pending, end), true));
    case Settle(landed) => SettleKeepsOrder(exec, s, landed);
  }

  // ----- sizes -----

  lemma StepKeepsSizes<Db, Op>(exec: (Db, Op) -> Option<Db>, s: State<Db, Op>, e: Event<Op>, cap: int)
    requires SizesOk(s, cap) && Enabled(s, e, cap)
    ensures SizesOk(Next(exec, s, e), cap)
  {
    if e.Settle? && e.landed && s.torn.value < |s.log| {
      assert RecordOk(s.log[s.torn.value], cap);
    }
  }

  // ----- the database -----

  lemma WriteKeepsDb<Db, Op>(exec: (Db, Op) -> Option<Db>, initial: Db, s: State<Db, Op>, ops: seq<Op>, end: End, isFlush: bool)
    requires DbOk(exec, initial, s)
    ensures DbOk(exec, initial, Write(exec, s, ops, end, isFlush))
  {
    var r := Record(ops, WriteOutcome(exec, s, ops, end), isFlush);
    LogStep(s.log, r);
    if r.outcome.Committed? {
      RunAllConcat(exec, initial, Written(s.log), ops);
    } else {
      assert Kept(r) == [] && Written(s.log) + [] == Written(s.log);
    }
  }

  lemma AbandonKeepsDb<Db, Op>(exec: (Db, Op) -> Option<Db>, initial: Db, s: State<Db, Op>)
    requires DbOk(exec, initial, s)
    ensures DbOk(exec, initial, s.(log := s.log + [Record(s.batch, Abandoned, false)], gathering := false, batch := []))
  {
    LogStep(s.log, Record(s.batch, Abandoned, false));
    assert Written(s.log) + [] == Written(s.log);
  }

  lemma {:induction false} WrittenUpdate<Op>(log: seq<Record<Op>>, k: nat, r: Record<Op>)
    requires k < |log| && forall i :: k <= i < |log| ==> Kept(log[i]) == []
    ensures Written(log[k := r]) == Written(log) + Kept(r)
  {
    var after := log[k := r];
    assert Written(log) == Written(Front(log)) + [] == Written(Front(log));
    if k < |log| - 1 {
      WrittenUpdate(Front(log), k, r);
      assert Front(after) == Front(log)[k := r] && Kept(Last(after)) == [];
      assert Written(after) == Written(Front(after)) + [];
    } else {
      assert Front(after) == Front(log);
    }
  }

  lemma SettleKeepsDb<Db, Op>(exec: (Db, Op) -> Option<Db>, initial: Db, s: State<Db, Op>, landed: bool)
    requires DbOk(exec, initial, s) && TornOk(exec, s)
    ensures DbOk(exec, initial, Settled(exec, s, landed))
  {
    if landed && s.torn.Some? {
      var k, r := s.torn.value, Landed(s.log[s.torn.value]);
      WrittenUpdate(s.log, k, r);
      RunAllConcat(exec, initial, Written(s.log), Kept(r));
    }
  }

  lemma StepKeepsDb<Db, Op>(exec: (Db, Op) -> Option<Db>, initial: Db, s: State<Db, Op>, e: Event<Op>, cap: int)
    requires DbOk(exec, initial, s) && TornOk(exec, s) && Enabled(s, e, cap)
    ensures DbOk(exec, initial, Next(exec, s, e))
  {
    match e
    case Commit(end) => WriteKeepsDb(exec, initial, s, s.batch, end, false);
    case CancelCollect => AbandonKeepsDb(exec, initial, s);
    case Flush(end) => WriteKeepsDb(exec, initial, s, s.pending, end, true);
    case Settle(landed) => SettleKeepsDb(exec, initial, s, landed);
    case _ =>
  }

  // ----- the open transaction -----

  lemma WriteKeepsTorn<Db, Op>(exec: (Db, Op) -> Option<Db>, s: State<Db, Op>, ops: seq<Op>, end: End, isFlush: bool)
    requires TornOk(exec, s)
    ensures TornOk(exec, Write(exec, s, ops, end, isFlush))
  {
  }

  lemma StepKeepsTorn<Db, Op>(exec: (Db, Op) -> Option<Db>, s: State<Db, Op>, e: Event<Op>, cap: int)
    requires TornOk(exec, s) && Enabled(s, e, cap)
    ensures TornOk(exec, Next(exec, s, e))
  {
    match e
    case Commit(end) => WriteKeepsTorn(exec, s, s.batch, end, false);
    case Flush(end) => WriteKeepsTorn(exec, s, s.pending, end, true);
    case _ =>
  }

  // ----- the theorems -----

  /** Over every run: order is kept, batches respect the cap, and the database is the fold of
      the committed batches and of the landed parts of cancelled ones. */
  lemma {:induction false} RunsKeepBatches<Db, Op>(exec: (Db, Op) -> Option<Db>, db: Db, events: seq<Event<Op>>, cap: int)
    requires Exec(exec, db, events, cap).Some?
    ensures var s := Exec(exec, db, events, cap).value;
            OrderOk(s) && SizesOk(s, cap) && DbOk(exec, db, s) && TornOk(exec, s)
  {
    if events != [] {
      RunsKeepBatches(exec, db, Front(events), cap);
      var s := Exec(exec, db, Front(events), cap).value;
      StepKeepsOrder(exec, s, Last(events), cap);
      StepKeepsSizes(exec, s, Last(events), cap);
      StepKeepsDb(exec, db, s, Last(events), cap);
      StepKeepsTorn(exec, s, Last(events), cap);
    }
  }

  /** Every operation of the batch is in the database. */
  ghost predicate Whole<Op>(r: Record<Op>) {
    Kept(r) == r.ops
  }

  /** A run that ends with nothing gathered or queued has written exactly the operations that were
      enqueued, in order, if and only if every batch is in the database as a whole. */
  lemma FlushCompletesExactlyWhen<Db, Op>(exec: (Db, Op) -> Option<Db>, db: Db, events: seq<Event<Op>>, cap: int)
    requires Exec(exec, db, events, cap).Some?
    requires var s := Exec(exec, db, events, cap).value; !s.gathering && s.pending == []
    ensures var s := Exec(exec, db, events, cap).value;
            RunAll(exec, db, Written(s.log)) == Some(s.db) &&
            (Written(s.log) == s.enqueued <==> forall r :: r in s.log ==> Whole(r))
  {
    RunsKeepBatches(exec, db, events, cap);
    var s := Exec(exec, db, events, cap).value;
    WrittenWhenWhole(s.log);
    assert s.enqueued == Taken(s.log);
  }

  lemma {:induction false} WrittenWhenWhole<Op>(log: seq<Record<Op>>)
    ensures |Written(log)| <= |Taken(log)|
    ensures Written(log) == Taken(log) <==> forall r :: r in log ==> Whole(r)
  {
    if log == [] {
      assert Written(log) == [] && Taken(log) == [];
    } else {
      var front, r := Front(log), Last(log);
      WrittenWhenWhole(front);
      KeptIsPart(r);
      SameEnds(Written(front), Kept(r), Taken(front), r.ops);
      InFrontOrLast(log);
      assert Whole(r) <==> Kept(r) == r.ops;
      assert (forall x :: x in log ==> Whole(x)) <==> (forall x :: x in front ==> Whole(x)) && Whole(r);
    }
  }

  lemma InFrontOrLast<T>(s: seq<T>)
    requires s != []
    ensures forall x :: x in s <==> x in Front(s) || x == Last(s)
  {
    assert s == Front(s) + [Last(s)];
  }

  lemma KeptIsPart<Op>(r: Record<Op>)
    ensures |Kept(r)| <= |r.ops| && (|Kept(r)| == |r.ops| ==> Kept(r) == r.ops)
  {
  }

  lemma SameEnds<T>(a: seq<T>, b: seq<T>, c: seq<T>, d: seq<T>)
    requires |a| <= |c| && |b| <= |d|
    ensures a + b == c + d <==> a == c && b == d
  {
    if a + b == c + d {
      assert |a| == |c| && |b| == |d|;
      assert a == (a + b)[..|a|] && c == (c + d)[..|c|];
      assert b == (a + b)[|a|..] && d == (c + d)[|c|..];
    }
  }

  /** If every batch is committed, a final flush has written every enqueued operation, in order. */
  lemma FlushCompletes<Db, Op>(exec: (Db, Op) -> Option<Db>, db: Db, events: seq<Event<Op>>, cap: int)
    requires Exec(exec, db, events, cap).Some?
    requires var s := Exec(exec, db, events, cap).value;
             !s.gathering && s.pending == [] && forall r :: r in s.log ==> r.outcome.Committed?
    ensures var s := Exec(exec, db, events, cap).value;
            RunAll(exec, db, s.enqueued) == Some(s.db)
  {
    var s := Exec(exec, db, events, cap).value;
    assert forall r :: r in s.log ==> Whole(r);
    FlushCompletesExactlyWhen(exec, db, events, cap);
  }

  /** What may come next in any run: producers enqueue at any time, gathering goes on up to the cap,
      ends in a transaction of any outcome or is cancelled, a flush finds a loop that is not gathering,
      and an open transaction may be ended from outside at any time. */
  lemma {:induction false} MayComeNext<Db, Op>(exec: (Db, Op) -> Option<Db>, db: Db, events: seq<Event<Op>>, cap: int,
                                               ops: seq<Op>, end: End, landed: bool)
    requires Exec(exec, db, events, cap).Some?
    ensures var s := Exec(exec, db, events, cap).value;
            && Exec(exec, db, events + [Event.Enqueue(ops)], cap).Some?
            && (s.gathering ==> Exec(exec, db, events + [Commit(end)], cap).Some?)
            && (s.gathering ==> Exec(exec, db, events + [CancelCollect], cap).Some?)
            && (s.gathering && |s.batch| < cap && s.pending != [] ==> Exec(exec, db, events + [TakeAnother], cap).Some?)
            && (!s.gathering && s.pending != [] ==> Exec(exec, db, events + [TakeFirst], cap).Some?)
            && (!s.gathering && s.pending != [] ==> Exec(exec, db, events + [Event.Flush(end)], cap).Some?)
            && (s.torn.Some? ==> Exec(exec, db, events + [Settle(landed)], cap).Some?)
  {
    forall e: Event<Op> | Enabled(Exec(exec, db, events, cap).value, e, cap)
      ensures Exec(exec, db, events + [e], cap).Some?
    {
      ExecStep(exec, db, events, e, cap);
    }
  }

  /** How the transaction of a batch ends, case by case, and what the database is then. */
  ghost predicate EndedAs<Db, Op>(exec: (Db, Op) -> Option<Db>, s: State<Db, Op>, t: State<Db, Op>,
                                  ops: seq<Op>, end: End, isFlush: bool) {
    var ran := RunAll(exec, s.db, ops);
    var hit := end.CancelledAt? && end.done <= |ops| && RunAll(exec, s.db, ops[..end.done]).Some?;
    t.log ==
      s.log + [if s.torn.Some? then Record(ops, RolledBack, isFlush)
               else if hit then Record(ops, Torn(end.done, false), isFlush)
               else if ran.Some? && end != CommitFails then Record(ops, Committed, isFlush)
               else Record(ops, RolledBack, isFlush)] &&
    t.db == (if s.torn.None? && !hit && ran.Some? && end != CommitFails then ran.value else s.db) &&
    (t.torn.Some? <==> s.torn.Some? || hit)
  }

  /** The gathered batch, or at a flush the whole queue, is written in one transaction; a batch is
      abandoned only when the loop is cancelled while gathering it. */
  lemma BatchEnds<Db, Op>(exec: (Db, Op) -> Option<Db>, s: State<Db, Op>, end: End)
    ensures EndedAs(exec, s, Next(exec, s, Commit(end)), s.batch, end, false)
    ensures EndedAs(exec, s, Next(exec, s, Event.Flush(end)), s.pending, end, true)
    ensures var t := Next(exec, s, CancelCollect);
            t.log == s.log + [Record(s.batch, Abandoned, false)] && t.db == s.db && t.torn == s.torn
  {
    WriteEndsAs(exec, s, s.batch, end, false);
    WriteEndsAs(exec, s, s.pending, end, true);
  }

  lemma WriteEndsAs<Db, Op>(exec: (Db, Op) -> Option<Db>, s: State<Db, Op>, ops: seq<Op>, end: End, isFlush: bool)
    ensures EndedAs(exec, s, Write(exec, s, ops, end, isFlush), ops, end, isFlush)
  {
  }

  /** A batch cancelled after some operations: the database shows none of them at first, then
      exactly those if somebody else commits, and none for good if the transaction is rolled back. */
  lemma CancelledPartMayLand<Db, Op>(exec: (Db, Op) -> Option<Db>, s: State<Db, Op>, done: nat)
    requires s.torn.None? && done <= |s.batch| && RunAll(exec, s.db, s.batch[..done]).Some?
    ensures var t := Next(exec, s, Commit(CancelledAt(done)));
            t.db == s.db && t.torn.Some? && t.batch == [] &&
            Next(exec, t, Settle(true)).db == RunAll(exec, s.db, s.batch[..done]).value &&
            Next(exec, t, Settle(false)).db == s.db &&
            Next(exec, t, Settle(true)).torn.None? && Next(exec, t, Settle(false)).torn.None?
  {
    var t := Next(exec, s, Commit(CancelledAt(done)));
    assert t.log[|s.log|] == Record(s.batch, Torn(done, false), false);
  }

  /** Any operation will do to get there: enqueued, taken, and cancelled before it executes. */
  lemma OpenTransactionHappens<Db, Op>(exec: (Db, Op) -> Option<Db>, db: Db, x: Op, cap: int)
    ensures var s := Exec(exec, db, [Event.Enqueue([x]), TakeFirst, Commit(CancelledAt(0))], cap);
            s.Some? && s.value.torn.Some? && s.value.db == db
  {
    var first, second, third := Event.Enqueue([x]), TakeFirst, Commit(CancelledAt(0));
    ExecStep(exec, db, [], first, cap);
    assert [] + [first] == [first];
    ExecStep(exec, db, [first], second, cap);
    assert [first] + [second] == [first, second];
    ExecStep(exec, db, [first, second], third, cap);
    assert [first, second] + [third] == [first, second, third];
  }

  /** Once a cancellation has left a transaction open, nothing is written any more: until the
      transaction is ended from outside every later batch is lost, the final flush included. */
  lemma {:induction false} OpenTransactionBlocks<Db, Op>(
      exec: (Db, Op) -> Option<Db>, db: Db, events: seq<Event<Op>>, more: seq<Event<Op>>, cap: int)
    requires Exec(exec, db, events, cap).Some? && Exec(exec, db, events, cap).value.torn.Some?
    requires Exec(exec, db, events + more, cap).Some? && forall e :: e in more ==> !e.Settle?
    ensures var s, t := Exec(exec, db, events, cap).value, Exec(exec, db, events + more, cap).value;
            t.db == s.db && t.torn == s.torn && s.log <= t.log && Written(t.log) == Written(s.log)
  {
    if more == [] {
      assert events + more == events;
    } else {
      assert Front(events + more) == events + Front(more) && Last(events + more) == Last(more);
      assert Last(more) in more && forall e :: e in Front(more) ==> e in more;
      OpenTransactionBlocks(exec, db, events, Front(more), cap);
      var t := Exec(exec, db, events + Front(more), cap).value;
      BlockedStep(exec, t, Last(more));
    }
  }

  lemma UnwrittenStep<Op>(log: seq<Record<Op>>, r: Record<Op>)
    requires Kept(r) == []
    ensures Written(log + [r]) == Written(log)
  {
    LogStep(log, r);
    assert Written(log) + [] == Written(log);
  }

  lemma BlockedStep<Db, Op>(exec: (Db, Op) -> Option<Db>, s: State<Db, Op>, e: Event<Op>)
    requires s.torn.Some? && !e.Settle?
    ensures var t := Next(exec, s, e);
            t.db == s.db && t.torn == s.torn && s.log <= t.log && Written(t.log) == Written(s.log)
  {
    match e
    case Commit(_) => UnwrittenStep(s.log, Record(s.batch, RolledBack, false));
    case CancelCollect => UnwrittenStep(s.log, Record(s.batch, Abandoned, false));
    case Flush(_) => UnwrittenStep(s.log, Record(s.pending, RolledBack, true));
    case _ =>
  }
}
