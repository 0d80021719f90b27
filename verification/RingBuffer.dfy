/** The sensor's byte-bounded frame buffer (sensor/src/buffer.rs). */
module RingBuffer {
  import opened Sequences
  import opened WireProtocol

  type RawFrame = seq<Byte>

  function Bytes(frames: seq<RawFrame>): nat {
    if frames == [] then 0 else Bytes(Front(frames)) + |Last(frames)|
  }

  lemma BytesStep(frames: seq<RawFrame>, f: RawFrame)
    ensures Bytes(frames + [f]) == Bytes(frames) + |f|
  {
    assert Front(frames + [f]) == frames;
  }

  lemma {:induction false} BytesConcat(a: seq<RawFrame>, b: seq<RawFrame>)
    ensures Bytes(a + b) == Bytes(a) + Bytes(b)
  {
    if b == [] {
      assert a + b == a;
    } else {
      assert Front(a + b) == a + Front(b);
      BytesConcat(a, Front(b));
    }
  }

  lemma BytesOfTail(frames: seq<RawFrame>)
    requires frames != []
    ensures Bytes(frames) == |frames[0]| + Bytes(frames[1..])
  {
    assert frames == [frames[0]] + frames[1..];
    BytesConcat([frames[0]], frames[1..]);
    BytesStep([], frames[0]);
  }

  function Suffix(s: seq<RawFrame>, n: nat): seq<RawFrame>
    requires n <= |s|
  {
    s[|s| - n..]
  }

  lemma SuffixSnoc(s: seq<RawFrame>, f: RawFrame, n: nat)
    requires n <= |s|
    ensures Suffix(s + [f], n + 1) == Suffix(s, n) + [f]
    ensures Bytes(Suffix(s + [f], n + 1)) == Bytes(Suffix(s, n)) + |f|
  {
    BytesStep(Suffix(s, n), f);
  }

  lemma SuffixOfSuffix(s: seq<RawFrame>, k: nat, n: nat)
    requires n <= k <= |s|
    ensures Suffix(Suffix(s, k), n) == Suffix(s, n)
  {
  }

  /** What `push` evicts frames for: the longest suffix of `frames` that leaves room for `size`. */
  function Fitting(frames: seq<RawFrame>, size: nat, maxBytes: nat): (kept: seq<RawFrame>)
    ensures |kept| <= |frames| && kept == Suffix(frames, |kept|)
  {
    if frames == [] || Bytes(frames) + size <= maxBytes then frames
    else
      var kept := Fitting(frames[1..], size, maxBytes);
      SuffixOfSuffix(frames, |frames| - 1, |kept|);
      assert frames[1..] == Suffix(frames, |frames| - 1);
      kept
  }

  function Pushed(frames: seq<RawFrame>, f: RawFrame, maxBytes: nat): seq<RawFrame> {
    Fitting(frames, |f|, maxBytes) + [f]
  }

  /** The newest `n` frames do not fit. */
  ghost predicate Exceeds(all: seq<RawFrame>, n: nat, maxBytes: nat) {
    n <= |all| && Bytes(Suffix(all, n)) > maxBytes
  }

  /** No suffix of `all` with more than `k` frames is within the limit. */
  ghost predicate LongerExceeds(all: seq<RawFrame>, k: nat, maxBytes: nat) {
    forall n: nat :: k < n <= |all| ==> Exceeds(all, n, maxBytes)
  }

  ghost predicate IsSuffix(kept: seq<RawFrame>, all: seq<RawFrame>) {
    |kept| <= |all| && kept == Suffix(all, |kept|)
  }

  /** `kept` is the longest suffix of `all` within the limit, or just the newest frame when
      that frame alone exceeds it. */
  ghost predicate Retained(kept: seq<RawFrame>, all: seq<RawFrame>, maxBytes: nat) {
    && IsSuffix(kept, all)
    && (all != [] ==> kept != [])
    && (Bytes(kept) <= maxBytes || |kept| == 1)
    && LongerExceeds(all, |kept|, maxBytes)
  }

  /** Fitting keeps as much as fits: any longer suffix would not leave room. */
  lemma {:induction false} FittingIsMaximal(frames: seq<RawFrame>, size: nat, maxBytes: nat)
    ensures var kept := Fitting(frames, size, maxBytes);
            (kept == [] || Bytes(kept) + size <= maxBytes) &&
            forall n :: |kept| < n <= |frames| ==> Bytes(Suffix(frames, n)) + size > maxBytes
  {
    var kept := Fitting(frames, size, maxBytes);
    if frames != [] && Bytes(frames) + size > maxBytes {
      FittingIsMaximal(frames[1..], size, maxBytes);
      assert frames[1..] == Suffix(frames, |frames| - 1);
      forall n | |kept| < n <= |frames| ensures Bytes(Suffix(frames, n)) + size > maxBytes {
        if n == |frames| {
          assert Suffix(frames, n) == frames;
        } else {
          SuffixOfSuffix(frames, |frames| - 1, n);
        }
      }
    }
  }

  /** A suffix longer than what a push keeps exceeds the limit. */
  lemma LongerIsTooMuch(kept: seq<RawFrame>, all: seq<RawFrame>, f: RawFrame, maxBytes: nat, n: nat)
    requires Retained(kept, all, maxBytes) && |Fitting(kept, |f|, maxBytes)| < n <= |all|
    ensures Bytes(Suffix(all, n)) + |f| > maxBytes
  {
    FittingIsMaximal(kept, |f|, maxBytes);
    if n <= |kept| {
      SuffixOfSuffix(all, |kept|, n);
    } else {
      assert Exceeds(all, n, maxBytes);
    }
  }

  lemma PushedLongerExceeds(kept: seq<RawFrame>, all: seq<RawFrame>, f: RawFrame, maxBytes: nat, n: nat)
    requires Retained(kept, all, maxBytes) && |Fitting(kept, |f|, maxBytes)| < n <= |all|
    ensures Exceeds(all + [f], n + 1, maxBytes)
  {
    LongerIsTooMuch(kept, all, f, maxBytes, n);
    SuffixSnoc(all, f, n);
  }

  lemma PushedIsLongest(kept: seq<RawFrame>, all: seq<RawFrame>, f: RawFrame, maxBytes: nat)
    requires Retained(kept, all, maxBytes)
    ensures LongerExceeds(all + [f], |Fitting(kept, |f|, maxBytes)| + 1, maxBytes)
  {
    var k, grown := |Fitting(kept, |f|, maxBytes)|, all + [f];
    forall n: nat | k + 1 < n <= |grown| ensures Exceeds(grown, n, maxBytes) {
      PushedLongerExceeds(kept, all, f, maxBytes, n - 1);
    }
  }

  lemma PushedIsSuffix(kept: seq<RawFrame>, all: seq<RawFrame>, f: RawFrame, maxBytes: nat)
    requires IsSuffix(kept, all)
    ensures IsSuffix(Pushed(kept, f, maxBytes), all + [f])
  {
    var fit := Fitting(kept, |f|, maxBytes);
    SuffixOfSuffix(all, |kept|, |fit|);
    SuffixSnoc(all, f, |fit|);
  }

  /** A push appends the new frame and drops the oldest ones. */
  lemma PushDropsOldest(frames: seq<RawFrame>, f: RawFrame, maxBytes: nat)
    ensures var kept := Pushed(frames, f, maxBytes);
            1 <= |kept| <= |frames| + 1 && kept == (frames + [f])[|frames| + 1 - |kept|..]
  {
    assert frames == Suffix(frames, |frames|);
    PushedIsSuffix(frames, frames, f, maxBytes);
  }

  lemma PushedFits(kept: seq<RawFrame>, f: RawFrame, maxBytes: nat)
    ensures var kept' := Pushed(kept, f, maxBytes);
            kept' != [] && (Bytes(kept') <= maxBytes || |kept'| == 1)
  {
    FittingIsMaximal(kept, |f|, maxBytes);
    BytesStep(Fitting(kept, |f|, maxBytes), f);
  }

  /** The incremental eviction agrees with the global description. */
  lemma PushRetains(kept: seq<RawFrame>, all: seq<RawFrame>, f: RawFrame, maxBytes: nat)
    requires Retained(kept, all, maxBytes)
    ensures Retained(Pushed(kept, f, maxBytes), all + [f], maxBytes)
  {
    PushedIsSuffix(kept, all, f, maxBytes);
    PushedFits(kept, f, maxBytes);
    PushedIsLongest(kept, all, f, maxBytes);
  }

  /** The description determines the contents. */
  lemma RetainedUnique(a: seq<RawFrame>, b: seq<RawFrame>, all: seq<RawFrame>, maxBytes: nat)
    requires Retained(a, all, maxBytes) && Retained(b, all, maxBytes)
    ensures a == b
  {
    SuffixShrinks(all, |a|, |b|);
    SuffixShrinks(all, |b|, |a|);
    assert |a| < |b| ==> Exceeds(all, |b|, maxBytes);
    assert |b| < |a| ==> Exceeds(all, |a|, maxBytes);
  }

  lemma SuffixShrinks(all: seq<RawFrame>, n: nat, m: nat)
    requires n <= |all| && m <= |all|
    ensures n <= m ==> Bytes(Suffix(all, n)) <= Bytes(Suffix(all, m))
  {
    if n <= m {
      assert Suffix(all, m) == Suffix(all, m)[..m - n] + Suffix(all, n);
      BytesConcat(Suffix(all, m)[..m - n], Suffix(all, n));
    }
  }

  // ----- any sequence of pushes and drains -----

  datatype RingOp = PushOp(frame: RawFrame) | DrainOp

  function HeldAfter(ops: seq<RingOp>, maxBytes: nat): seq<RawFrame> {
    if ops == [] then []
    else match Last(ops)
      case PushOp(f) => Pushed(HeldAfter(Front(ops), maxBytes), f, maxBytes)
      case DrainOp => []
  }

  function PushedSinceDrain(ops: seq<RingOp>): seq<RawFrame> {
    if ops == [] then []
    else match Last(ops)
      case PushOp(f) => PushedSinceDrain(Front(ops)) + [f]
      case DrainOp => []
  }

  lemma NothingRetained(maxBytes: nat)
    ensures Retained([], [], maxBytes)
  {
  }

  /** After any run the ring is the longest fitting suffix of what was pushed since the last drain. */
  lemma {:induction false} RingHoldsLongestSuffix(ops: seq<RingOp>, maxBytes: nat)
    ensures Retained(HeldAfter(ops, maxBytes), PushedSinceDrain(ops), maxBytes)
  {
    if ops != [] {
      RingHoldsLongestSuffix(Front(ops), maxBytes);
      if Last(ops).PushOp? {
        PushRetains(HeldAfter(Front(ops), maxBytes), PushedSinceDrain(Front(ops)), Last(ops).frame, maxBytes);
      } else {
        NothingRetained(maxBytes);
      }
    } else {
      NothingRetained(maxBytes);
    }
  }

  class RingBuffer {
    var frames: seq<RawFrame>
    var currentBytes: nat
    const maxBytes: nat
    /** Everything pushed since the last drain. */
    ghost var since: seq<RawFrame>

    ghost predicate Valid()
      reads this
    {
      currentBytes == Bytes(frames) && Retained(frames, since, maxBytes)
    }

    constructor (maxBytes: nat)
      ensures Valid() && this.maxBytes == maxBytes && since == [] && frames == []
    {
      this.maxBytes := maxBytes;
      frames, currentBytes, since := [], 0, [];
    }

    /** The eviction loop of `push`. */
    method MakeRoom(size: nat)
      requires currentBytes == Bytes(frames)
      modifies `frames, `currentBytes
      ensures frames == Fitting(old(frames), size, maxBytes) && currentBytes == Bytes(frames)
    {
      while currentBytes + size > maxBytes && frames != []
        invariant currentBytes == Bytes(frames)
        invariant Fitting(frames, size, maxBytes) == Fitting(old(frames), size, maxBytes)
        decreases |frames|
      {
        BytesOfTail(frames);
        currentBytes := currentBytes - |frames[0]|;
        frames := frames[1..];
      }
    }

    method Push(frame: RawFrame)
      requires Valid()
      modifies this
      ensures Valid() && since == old(since) + [frame]
      ensures frames == Pushed(old(frames), frame, maxBytes)
    {
      ghost var kept, all := Pushed(frames, frame, maxBytes), since + [frame];
      PushRetains(frames, since, frame, maxBytes);
      MakeRoom(|frame|);
      BytesStep(frames, frame);
      currentBytes := currentBytes + |frame|;
      frames := frames + [frame];
      since := all;
      assert frames == kept && currentBytes == Bytes(kept);
    }

    method Drain() returns (drained: seq<RawFrame>)
      requires Valid()
      modifies this
      ensures Valid() && drained == old(frames) && frames == [] && since == []
    {
      drained := frames;
      frames, currentBytes, since := [], 0, [];
    }
  }
}
