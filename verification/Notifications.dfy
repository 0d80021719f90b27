/** The notification rate limiter (src/leetha/notifications.py). */
module Notifications {
  import opened Sequences

  const COOLDOWN := 300.0

  /** The "rule:mac" string: one key per rule and device. */
  type Key = nat

  /** One `send`: whether any URL is configured, the severity level, the key and the clock. */
  datatype Call = Call(hasUrls: bool, level: nat, key: Key, now: real)

  /** Severity levels: info 0, low 1, warning 2, high 3, critical 4. */
  predicate Eligible(c: Call, minLevel: nat) {
    c.hasUrls && c.level >= minLevel
  }

  function Prune(recent: map<Key, real>, now: real): map<Key, real> {
    map k | k in recent && now - recent[k] <= COOLDOWN :: recent[k]
  }

  predicate Suppressed(recent: map<Key, real>, c: Call) {
    c.key in recent && c.now - recent[c.key] < COOLDOWN
  }

  /** The limiter's memory after a call, and whether the call dispatched. */
  datatype Reply = Reply(recent: map<Key, real>, sent: bool)

  function Decide(recent: map<Key, real>, minLevel: nat, c: Call): Reply {
    if !Eligible(c, minLevel) then Reply(recent, false)
    else
      var kept := Prune(recent, c.now);
      if Suppressed(kept, c) then Reply(kept, false) else Reply(kept[c.key := c.now], true)
  }

  class NotificationDispatcher {
    var hasUrls: bool
    const minLevel: nat
    var recent: map<Key, real>

    constructor (hasUrls: bool, minLevel: nat)
      ensures this.hasUrls == hasUrls && this.minLevel == minLevel && recent == map[]
    {
      this.hasUrls, this.minLevel, recent := hasUrls, minLevel, map[];
    }

    method UpdateUrls(hasUrls: bool)
      modifies `hasUrls
      ensures this.hasUrls == hasUrls
    {
      this.hasUrls := hasUrls;
    }

    method Send(level: nat, key: Key, now: real) returns (sent: bool)
      modifies `recent
      ensures Reply(recent, sent) == Decide(old(recent), minLevel, Call(hasUrls, level, key, now))
    {
      if !hasUrls || level < minLevel {
        return false;
      }
      var stale := set k | k in recent && now - recent[k] > COOLDOWN;
      while stale != {}
        invariant stale == set k | k in recent && now - recent[k] > COOLDOWN
        invariant Prune(recent, now) == Prune(old(recent), now)
        decreases stale
      {
        var k :| k in stale;
        recent := recent - {k};
        stale := stale - {k};
      }
      assert forall k :: k in recent ==> (k in stale <==> now - recent[k] > COOLDOWN);
      assert recent == Prune(recent, now);
      if key in recent && now - recent[key] < COOLDOWN {
        return false;
      }
      recent := recent[key := now];
      return true;
    }
  }

  // ----- runs -----

  function Memory(calls: seq<Call>, minLevel: nat): map<Key, real> {
    if calls == [] then map[] else Decide(Memory(Front(calls), minLevel), minLevel, Last(calls)).recent
  }

  predicate Sent(calls: seq<Call>, minLevel: nat, j: nat)
    requires j < |calls|
  {
    Decide(Memory(calls[..j], minLevel), minLevel, calls[j]).sent
  }

  /** The limiter without pruning. */
  function FullMemory(calls: seq<Call>, minLevel: nat): map<Key, real> {
    if calls == [] then map[]
    else
      var full, c := FullMemory(Front(calls), minLevel), Last(calls);
      if Eligible(c, minLevel) && !Suppressed(full, c) then full[c.key := c.now] else full
  }

  predicate SentUnpruned(calls: seq<Call>, minLevel: nat, j: nat)
    requires j < |calls|
  {
    Eligible(calls[j], minLevel) && !Suppressed(FullMemory(calls[..j], minLevel), calls[j])
  }

  ghost predicate ClockMonotone(calls: seq<Call>) {
    forall i, j :: 0 <= i <= j < |calls| ==> calls[i].now <= calls[j].now
  }

  /** What pruning forgot is too old to matter from `t` on. */
  ghost predicate Agree(recent: map<Key, real>, full: map<Key, real>, t: real) {
    && (forall k :: k in recent ==> k in full && recent[k] == full[k])
    && (forall k :: k in full && k !in recent ==> t - full[k] > COOLDOWN)
  }

  lemma AgreeStep(recent: map<Key, real>, full: map<Key, real>, t: real, c: Call, minLevel: nat)
    requires Agree(recent, full, t) && t <= c.now
    ensures Eligible(c, minLevel) ==> (Suppressed(Prune(recent, c.now), c) <==> Suppressed(full, c))
    ensures Agree(Decide(recent, minLevel, c).recent,
                  if Eligible(c, minLevel) && !Suppressed(full, c) then full[c.key := c.now] else full, c.now)
  {
  }

  lemma {:induction false} MemoriesAgree(calls: seq<Call>, minLevel: nat, t: real)
    requires ClockMonotone(calls) && (calls != [] ==> Last(calls).now <= t)
    ensures Agree(Memory(calls, minLevel), FullMemory(calls, minLevel), t)
  {
    if calls != [] {
      var c := Last(calls);
      assert forall i :: 0 <= i < |calls| ==> calls[i].now <= c.now;
      MemoriesAgree(Front(calls), minLevel, c.now);
      AgreeStep(Memory(Front(calls), minLevel), FullMemory(Front(calls), minLevel), c.now, c, minLevel);
    }
  }

  /** Pruning never changes a decision. */
  lemma PruningIsInvisible(calls: seq<Call>, minLevel: nat, j: nat)
    requires ClockMonotone(calls) && j < |calls|
    ensures Sent(calls, minLevel, j) <==> SentUnpruned(calls, minLevel, j)
  {
    MemoriesAgree(calls[..j], minLevel, calls[j].now);
    AgreeStep(Memory(calls[..j], minLevel), FullMemory(calls[..j], minLevel), calls[j].now, calls[j], minLevel);
  }

  /** Some call among the first `n` dispatched key `k` at time `t`. */
  ghost predicate DispatchedAt(calls: seq<Call>, sent: seq<bool>, n: nat, k: Key, t: real)
    requires n <= |calls| == |sent|
  {
    exists i :: 0 <= i < n && sent[i] && calls[i].key == k && calls[i].now == t
  }

  /** The memory is as recent as the dispatch of call `i`. */
  ghost predicate Covers(full: map<Key, real>, c: Call) {
    c.key in full && c.now <= full[c.key]
  }

  /** `full` holds, for each key, the time of its last dispatch among the first `n` calls. */
  ghost predicate Records(calls: seq<Call>, sent: seq<bool>, n: nat, full: map<Key, real>)
    requires n <= |calls| == |sent|
  {
    && (forall i :: 0 <= i < n && sent[i] ==> Covers(full, calls[i]))
    && (forall k :: k in full ==> DispatchedAt(calls, sent, n, k, full[k]))
  }

  lemma DispatchedLater(calls: seq<Call>, sent: seq<bool>, n: nat, k: Key, t: real)
    requires n < |calls| == |sent|
    ensures DispatchedAt(calls, sent, n, k, t) ==> DispatchedAt(calls, sent, n + 1, k, t)
    ensures sent[n] ==> DispatchedAt(calls, sent, n + 1, calls[n].key, calls[n].now)
  {
  }

  lemma RecordOne(calls: seq<Call>, sent: seq<bool>, n: nat, full: map<Key, real>, after: map<Key, real>)
    requires n < |calls| == |sent| && ClockMonotone(calls) && Records(calls, sent, n, full)
    requires after == if sent[n] then full[calls[n].key := calls[n].now] else full
    ensures Records(calls, sent, n + 1, after)
  {
    forall k | k in after ensures DispatchedAt(calls, sent, n + 1, k, after[k]) {
      DispatchedLater(calls, sent, n, k, after[k]);
    }
    forall i | 0 <= i < n + 1 && sent[i] ensures Covers(after, calls[i]) {
      assert i < n ==> Covers(full, calls[i]);
    }
  }

  ghost function Decisions(calls: seq<Call>, minLevel: nat): seq<bool> {
    seq(|calls|, j requires 0 <= j < |calls| => SentUnpruned(calls, minLevel, j))
  }

  /** One more call in the memory that is never pruned. */
  lemma FullMemoryStep(calls: seq<Call>, minLevel: nat, n: nat)
    requires n < |calls|
    ensures var full := FullMemory(calls[..n], minLevel);
            FullMemory(calls[..n + 1], minLevel) ==
            if Decisions(calls, minLevel)[n] then full[calls[n].key := calls[n].now] else full
  {
    PrefixStep(calls, n);
  }

  lemma NothingRecorded(calls: seq<Call>, sent: seq<bool>)
    requires |calls| == |sent|
    ensures Records(calls, sent, 0, map[])
  {
  }

  lemma {:induction false} DispatchesRecorded(calls: seq<Call>, minLevel: nat, n: nat)
    requires ClockMonotone(calls) && n <= |calls|
    ensures Records(calls, Decisions(calls, minLevel), n, FullMemory(calls[..n], minLevel))
  {
    var sent := Decisions(calls, minLevel);
    if n == 0 {
      NothingRecorded(calls, sent);
    } else {
      DispatchesRecorded(calls, minLevel, n - 1);
      FullMemoryStep(calls, minLevel, n - 1);
      RecordOne(calls, sent, n - 1, FullMemory(calls[..n - 1], minLevel), FullMemory(calls[..n], minLevel));
    }
  }

  /** A call is dispatched exactly when it is eligible and no call with the same key was
      dispatched less than the cooldown earlier. */
  lemma SentExactlyWhen(calls: seq<Call>, minLevel: nat, j: nat)
    requires ClockMonotone(calls) && j < |calls|
    ensures Sent(calls, minLevel, j) <==>
            calls[j].hasUrls && calls[j].level >= minLevel &&
            !exists i :: 0 <= i < j && Sent(calls, minLevel, i) && calls[i].key == calls[j].key &&
                         calls[j].now - calls[i].now < 300.0
  {
    DispatchesRecorded(calls, minLevel, j);
    PruningIsInvisible(calls, minLevel, j);
    forall i | 0 <= i < j ensures Sent(calls, minLevel, i) <==> Decisions(calls, minLevel)[i] {
      PruningIsInvisible(calls, minLevel, i);
    }
  }

  /** Two dispatches for one rule and device are at least the cooldown apart. */
  lemma DispatchesSpaced(calls: seq<Call>, minLevel: nat, i: nat, j: nat)
    requires ClockMonotone(calls) && i < j < |calls|
    requires Sent(calls, minLevel, i) && Sent(calls, minLevel, j) && calls[i].key == calls[j].key
    ensures calls[j].now - calls[i].now >= 300.0
  {
    SentExactlyWhen(calls, minLevel, j);
  }

  /** A dispatch of key `k` at most the cooldown before the last call. */
  ghost predicate RecentlySent(calls: seq<Call>, minLevel: nat, k: Key, i: nat) {
    i < |calls| && Sent(calls, minLevel, i) && calls[i].key == k && Last(calls).now - calls[i].now <= 300.0
  }

  lemma RecordsAll(calls: seq<Call>, minLevel: nat)
    requires ClockMonotone(calls)
    ensures Records(calls, Decisions(calls, minLevel), |calls|, FullMemory(calls, minLevel))
    ensures forall i :: 0 <= i < |calls| ==> (Decisions(calls, minLevel)[i] <==> Sent(calls, minLevel, i))
  {
    DispatchesRecorded(calls, minLevel, |calls|);
    assert calls[..|calls|] == calls;
    forall i | 0 <= i < |calls| ensures Decisions(calls, minLevel)[i] <==> Sent(calls, minLevel, i) {
      PruningIsInvisible(calls, minLevel, i);
    }
  }

  /** After an eligible call exactly the keys dispatched within the cooldown are remembered. */
  lemma {:induction false} MemoryExactlyWhen(calls: seq<Call>, minLevel: nat, k: Key)
    requires ClockMonotone(calls) && calls != [] && Last(calls).hasUrls && Last(calls).level >= minLevel
    ensures k in Memory(calls, minLevel) <==> exists i: nat :: RecentlySent(calls, minLevel, k, i)
  {
    var sent := Decisions(calls, minLevel);
    RecordsAll(calls, minLevel);
    MemoriesAgree(calls, minLevel, Last(calls).now);
    MemoryIsRecent(calls, minLevel);
    RememberedWhenRecent(calls, sent, Memory(calls, minLevel), FullMemory(calls, minLevel), k);
    forall i: nat ensures RecentlySent(calls, minLevel, k, i) <==> RecentIn(calls, sent, k, i) {
    }
  }

  ghost predicate RecentIn(calls: seq<Call>, sent: seq<bool>, k: Key, i: nat) {
    i < |calls| == |sent| && sent[i] && calls[i].key == k && Last(calls).now - calls[i].now <= 300.0
  }

  lemma RememberedWhenRecent(calls: seq<Call>, sent: seq<bool>, m: map<Key, real>, full: map<Key, real>, k: Key)
    requires calls != [] && |sent| == |calls| && Records(calls, sent, |calls|, full)
    requires Agree(m, full, Last(calls).now) && forall x :: x in m ==> Last(calls).now - m[x] <= COOLDOWN
    ensures k in m <==> exists i: nat :: RecentIn(calls, sent, k, i)
  {
    if k in m {
      assert DispatchedAt(calls, sent, |calls|, k, full[k]);
      var i :| 0 <= i < |calls| && sent[i] && calls[i].key == k && calls[i].now == full[k];
      assert RecentIn(calls, sent, k, i);
    }
    if i: nat :| RecentIn(calls, sent, k, i) {
      assert Covers(full, calls[i]);
    }
  }

  /** After an eligible call everything remembered is at most the cooldown old. */
  lemma MemoryIsRecent(calls: seq<Call>, minLevel: nat)
    requires calls != [] && Eligible(Last(calls), minLevel)
    ensures var m := Memory(calls, minLevel);
            forall k :: k in m ==> Last(calls).now - m[k] <= COOLDOWN
  {
  }
}
