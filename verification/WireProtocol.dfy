/**
 * The sensor's packet frames (sensor/src/protocol.rs) and the server's incremental decoder
 * (src/leetha/capture/remote/protocol.py and server.py).
 *
 * A frame is a 16-byte header, all fields big-endian (u32 packet length, i64 timestamp,
 * u32 interface index), followed by the packet.
 */
module WireProtocol {
  import opened Sequences

  type Byte = b: int | 0 <= b < 256
  type U32 = n: int | 0 <= n < 0x1_0000_0000
  type I64 = n: int | -0x8000_0000_0000_0000 <= n < 0x8000_0000_0000_0000

  const HEADER_SIZE := 16
  const TWO_32 := 0x1_0000_0000
  const TWO_64 := 0x1_0000_0000_0000_0000

  // ----- big-endian integers -----

  function ToBytes(n: nat, k: nat): (s: seq<Byte>)
    ensures |s| == k
  {
    if k == 0 then [] else ToBytes(n / 256, k - 1) + [n % 256]
  }

  function FromBytes(s: seq<Byte>): nat {
    if s == [] then 0 else FromBytes(Front(s)) * 256 + Last(s)
  }

  function Pow256(k: nat): nat {
    if k == 0 then 1 else 256 * Pow256(k - 1)
  }

  lemma {:induction false} FromToBytes(n: nat, k: nat)
    requires n < Pow256(k)
    ensures FromBytes(ToBytes(n, k)) == n
  {
    if k > 0 {
      FromToBytes(n / 256, k - 1);
      assert Front(ToBytes(n, k)) == ToBytes(n / 256, k - 1);
    }
  }

  lemma {:induction false} FromBytesBound(s: seq<Byte>)
    ensures FromBytes(s) < Pow256(|s|)
  {
    if s != [] {
      FromBytesBound(Front(s));
    }
  }

  lemma MulAssociates(a: nat, b: nat, c: nat)
    ensures a * (b * c) == (a * b) * c
  {
  }

  lemma MulMonotone(a: nat, b: nat, m: nat)
    requires a <= b
    ensures a * m <= b * m
  {
  }

  lemma QuotientUnique(n: nat, m: nat, q: nat, r: nat)
    requires m > 0 && r < m && n == q * m + r
    ensures n / m == q
  {
    assert n == (n / m) * m + n % m;
    if n / m > q {
      MulMonotone(q + 1, n / m, m);
      assert false;
    } else if n / m < q {
      MulMonotone(n / m + 1, q, m);
      assert false;
    }
  }

  /** Dividing by 256 and then by `p` is dividing by `256 * p`. */
  lemma DivideTwice(n: nat, p: nat)
    requires p > 0
    ensures (n / 256) / p == n / (256 * p)
  {
    var h := n / 256;
    var q, r := h / p, h % p;
    assert h == q * p + r && n == h * 256 + n % 256;
    assert n == q * (256 * p) + (r * 256 + n % 256) by {
      assert (q * p) * 256 == q * (256 * p) by {
        MulAssociates(q, 256, p);
        MulAssociates(q, p, 256);
      }
    }
    QuotientUnique(n, 256 * p, q, r * 256 + n % 256);
  }

  lemma {:induction false} PowPositive(k: nat)
    ensures Pow256(k) > 0
  {
    if k > 0 {
      PowPositive(k - 1);
    }
  }

  /** The most significant byte comes first. */
  lemma {:induction false} BigEndian(n: nat, k: nat, i: nat)
    requires i < k
    ensures Pow256(k - 1 - i) > 0 && ToBytes(n, k)[i] == n / Pow256(k - 1 - i) % 256
  {
    PowPositive(k - 1 - i);
    if i < k - 1 {
      BigEndian(n / 256, k - 1, i);
      DivideTwice(n, Pow256(k - 2 - i));
    }
  }

  lemma LastDigit(n: nat, d: Byte)
    ensures (n * 256 + d) / 256 == n && (n * 256 + d) % 256 == d
  {
  }

  lemma {:induction false} ToFromBytes(s: seq<Byte>)
    ensures ToBytes(FromBytes(s), |s|) == s
  {
    if s != [] {
      ToFromBytes(Front(s));
      LastDigit(FromBytes(Front(s)), Last(s));
      assert s == Front(s) + [Last(s)];
    }
  }

  lemma Widths()
    ensures Pow256(4) == TWO_32 && Pow256(8) == TWO_64
  {
    assert Pow256(2) == 0x1_0000;
    assert Pow256(4) == 256 * (256 * Pow256(2));
    assert Pow256(6) == 256 * (256 * Pow256(4));
    assert Pow256(8) == 256 * (256 * Pow256(6));
  }

  /** Two's complement in 64 bits. */
  function ToUnsigned(t: I64): nat {
    if t >= 0 then t else t + TWO_64
  }

  function ToSigned(n: nat): I64
    requires n < TWO_64
  {
    if n < 0x8000_0000_0000_0000 then n else n - TWO_64
  }

  // ----- frames -----

  datatype Frame = Frame(packet: seq<Byte>, timestamp: I64, iface: U32)
  datatype Decoded = Decoded(length: nat, timestamp: I64, iface: U32, packet: seq<Byte>)
  datatype DecodeResult = Ok(frame: Decoded) | IncompleteHeader | IncompletePayload

  /** `packet.len() as u32` truncates. */
  function Serialize(f: Frame): (bytes: seq<Byte>)
    ensures |bytes| == HEADER_SIZE + |f.packet|
  {
    ToBytes(|f.packet| % TWO_32, 4) + ToBytes(ToUnsigned(f.timestamp), 8) + ToBytes(f.iface, 4) + f.packet
  }

  function LengthField(data: seq<Byte>): U32
    requires |data| >= HEADER_SIZE
  {
    FromBytesBound(data[..4]);
    Widths();
    FromBytes(data[..4])
  }

  function Deserialize(data: seq<Byte>): DecodeResult {
    if |data| < HEADER_SIZE then IncompleteHeader
    else
      var payload := data[HEADER_SIZE..];
      FromBytesBound(data[4..12]);
      FromBytesBound(data[12..16]);
      Widths();
      if |payload| < LengthField(data) then IncompletePayload
      else Ok(Decoded(LengthField(data), ToSigned(FromBytes(data[4..12])), FromBytes(data[12..16]),
                      payload[..LengthField(data)]))
  }

  /** Four bytes as a number, the first the most significant. */
  function Number(a: nat, b: nat, c: nat, d: nat): nat {
    a * 0x100_0000 + b * 0x1_0000 + c * 0x100 + d
  }

  /** Byte by byte: the length modulo 2^32 in four bytes, the timestamp in two's complement in
      eight, the interface in four, each with the most significant byte first, then the packet. */
  lemma {:induction false} FrameLayout(f: Frame, i: nat)
    ensures i < 4 ==> Pow256(3 - i) > 0 && Serialize(f)[i] == |f.packet| % 0x1_0000_0000 / Pow256(3 - i) % 256
    ensures var t := if f.timestamp >= 0 then f.timestamp else f.timestamp + 0x1_0000_0000_0000_0000;
            i < 8 ==> Pow256(7 - i) > 0 && Serialize(f)[4 + i] == t / Pow256(7 - i) % 256
    ensures i < 4 ==> Pow256(3 - i) > 0 && Serialize(f)[12 + i] == f.iface / Pow256(3 - i) % 256
    ensures Serialize(f)[16..] == f.packet
  {
    if i < 4 {
      BigEndian(|f.packet| % TWO_32, 4, i);
      BigEndian(f.iface, 4, i);
    }
    if i < 8 {
      BigEndian(ToUnsigned(f.timestamp), 8, i);
    }
  }

  lemma {:induction false} LengthFieldIs(data: seq<Byte>)
    requires |data| >= HEADER_SIZE
    ensures LengthField(data) == Number(data[0], data[1], data[2], data[3])
  {
    var a, b, c, d := data[..1], data[..2], data[..3], data[..4];
    assert Front(d) == c && Front(c) == b && Front(b) == a && Front(a) == [];
    assert FromBytes(Front(a)) == 0;
    assert FromBytes(a) == FromBytes(Front(a)) * 256 + data[0];
    assert FromBytes(b) == FromBytes(a) * 256 + data[1];
    assert FromBytes(c) == FromBytes(b) * 256 + data[2];
  }

  /** Which data decodes: with a whole header and as many bytes after it as the first four say.
      What is missing otherwise is told apart. */
  lemma {:induction false} DecodesExactlyWhen(data: seq<Byte>)
    ensures Deserialize(data).IncompleteHeader? <==> |data| < 16
    ensures Deserialize(data).IncompletePayload? <==>
              |data| >= 16 &&
              |data| - 16 < Number(data[0], data[1], data[2], data[3])
  {
    if |data| >= 16 {
      LengthFieldIs(data);
    }
  }

  /** What was decoded encodes to the bytes it was decoded from; bytes beyond the length field
      are ignored. */
  lemma {:induction false} DecodedEncodesBack(data: seq<Byte>)
    requires Deserialize(data).Ok?
    ensures var d := Deserialize(data).frame;
            d.length == |d.packet| && 16 + d.length <= |data| &&
            Serialize(Frame(d.packet, d.timestamp, d.iface)) == data[..16 + d.length]
  {
    var d := Deserialize(data).frame;
    assert data[HEADER_SIZE..][..d.length] == data[16..16 + d.length];
    HeaderEncodesBack(data);
    FourParts(data, 16 + d.length);
  }

  lemma {:induction false} HeaderEncodesBack(data: seq<Byte>)
    requires Deserialize(data).Ok?
    ensures var d := Deserialize(data).frame;
            ToBytes(d.length, 4) == data[..4] && ToBytes(ToUnsigned(d.timestamp), 8) == data[4..12] &&
            ToBytes(d.iface, 4) == data[12..16]
  {
    FromBytesBound(data[4..12]);
    FromBytesBound(data[12..16]);
    Widths();
    ToFromBytes(data[..4]);
    ToFromBytes(data[4..12]);
    ToFromBytes(data[12..16]);
  }

  lemma FourParts(data: seq<Byte>, n: nat)
    requires 16 <= n <= |data|
    ensures data[..n] == data[..4] + data[4..12] + data[12..16] + data[16..n]
  {
  }

  /** What the decoder should see of a frame. */
  function Seen(f: Frame): Decoded {
    Decoded(|f.packet|, f.timestamp, f.iface, f.packet)
  }

  lemma {:induction false} HeaderFields(f: Frame, rest: seq<Byte>)
    ensures var data := Serialize(f) + rest;
            LengthField(data) == |f.packet| % TWO_32 &&
            FromBytes(data[4..12]) == ToUnsigned(f.timestamp) && FromBytes(data[12..16]) == f.iface &&
            data[HEADER_SIZE..] == f.packet + rest
  {
    var data := Serialize(f) + rest;
    Widths();
    assert data[..4] == ToBytes(|f.packet| % TWO_32, 4);
    assert data[4..12] == ToBytes(ToUnsigned(f.timestamp), 8);
    assert data[12..16] == ToBytes(f.iface, 4);
    FromToBytes(|f.packet| % TWO_32, 4);
    FromToBytes(ToUnsigned(f.timestamp), 8);
    FromToBytes(f.iface, 4);
  }

  /** Decoding recovers timestamp and interface always, negative timestamps included, and the
      packet exactly when its length fits the 32-bit length field. */
  lemma DecodeExactlyWhen(f: Frame)
    ensures Deserialize(Serialize(f)).Ok?
    ensures var d := Deserialize(Serialize(f)).frame;
            d.timestamp == f.timestamp && d.iface == f.iface && d.packet == f.packet[..|f.packet| % TWO_32] &&
            (d == Seen(f) <==> |f.packet| < TWO_32)
  {
    HeaderFields(f, []);
    assert Serialize(f) + [] == Serialize(f);
    var d := Deserialize(Serialize(f)).frame;
    if |f.packet| >= TWO_32 {
      assert |d.packet| != |f.packet|;
    }
  }

  ghost predicate Sendable(f: Frame) {
    |f.packet| < TWO_32
  }

  // ----- the incremental decoder -----

  datatype Parsed = Parsed(frames: seq<Decoded>, rest: seq<Byte>)

  /** A whole frame is at the head of the buffer. */
  predicate HasFrame(buffer: seq<Byte>) {
    |buffer| >= HEADER_SIZE && |buffer| >= HEADER_SIZE + LengthField(buffer)
  }

  /** The frame at the head decodes, and counts its whole length field. */
  function HeadFrame(buffer: seq<Byte>): (d: Decoded)
    requires HasFrame(buffer)
    ensures Deserialize(buffer[..HEADER_SIZE + LengthField(buffer)]) == Ok(d)
    ensures |d.packet| == LengthField(buffer)
  {
    var data := buffer[..HEADER_SIZE + LengthField(buffer)];
    assert data[..4] == buffer[..4];
    Deserialize(data).frame
  }

  function AfterHead(buffer: seq<Byte>): (rest: seq<Byte>)
    requires HasFrame(buffer)
    ensures |rest| < |buffer|
  {
    buffer[HEADER_SIZE + LengthField(buffer)..]
  }

  function Parse(buffer: seq<Byte>): Parsed
    decreases |buffer|
  {
    if !HasFrame(buffer) then Parsed([], buffer)
    else
      var tail := Parse(AfterHead(buffer));
      Parsed([HeadFrame(buffer)] + tail.frames, tail.rest)
  }

  class SensorSession {
    var buffer: seq<Byte>
    var packetCount: nat
    var byteCount: nat

    constructor ()
      ensures buffer == [] && packetCount == 0 && byteCount == 0
    {
      buffer, packetCount, byteCount := [], 0, 0;
    }

    method Feed(data: seq<Byte>) returns (frames: seq<Decoded>)
      modifies this
      ensures Parsed(frames, buffer) == Parse(old(buffer) + data)
      ensures packetCount == old(packetCount) + |frames|
      ensures byteCount == old(byteCount) + PacketBytes(frames)
    {
      buffer := buffer + data;
      ghost var whole := buffer;
      frames := [];
      while HasFrame(buffer)
        invariant Parse(whole) == Parsed(frames + Parse(buffer).frames, Parse(buffer).rest)
        invariant packetCount == old(packetCount) + |frames|
        invariant byteCount == old(byteCount) + PacketBytes(frames)
        decreases |buffer|
      {
        var total := HEADER_SIZE + LengthField(buffer);
        ghost var before := buffer;
        var frame := Deserialize(buffer[..total]).frame;
        assert frame == HeadFrame(buffer);
        PacketBytesStep(frames, frame);
        byteCount := byteCount + LengthField(buffer);
        packetCount := packetCount + 1;
        buffer := buffer[total..];
        CollectStep(before, frames);
        frames := frames + [frame];
      }
    }
  }

  lemma CollectStep(buffer: seq<Byte>, done: seq<Decoded>)
    requires HasFrame(buffer)
    ensures done + Parse(buffer).frames == done + [HeadFrame(buffer)] + Parse(AfterHead(buffer)).frames
    ensures Parse(buffer).rest == Parse(AfterHead(buffer)).rest
  {
    ConcatAssociates(done, [HeadFrame(buffer)], Parse(AfterHead(buffer)).frames);
  }

  function PacketBytes(frames: seq<Decoded>): nat {
    if frames == [] then 0 else PacketBytes(Front(frames)) + |Last(frames).packet|
  }

  lemma PacketBytesStep(frames: seq<Decoded>, f: Decoded)
    ensures PacketBytes(frames + [f]) == PacketBytes(frames) + |f.packet|
  {
    assert Front(frames + [f]) == frames;
  }

  // ----- chunking does not matter -----

  lemma {:induction false} RestHasNoFrame(buffer: seq<Byte>)
    ensures !HasFrame(Parse(buffer).rest)
    decreases |buffer|
  {
    if HasFrame(buffer) {
      RestHasNoFrame(AfterHead(buffer));
    }
  }

  lemma HeadConcat(a: seq<Byte>, b: seq<Byte>)
    requires HasFrame(a)
    ensures HasFrame(a + b) && HeadFrame(a + b) == HeadFrame(a) && AfterHead(a + b) == AfterHead(a) + b
  {
    var total := HEADER_SIZE + LengthField(a);
    assert (a + b)[..4] == a[..4];
    assert (a + b)[..total] == a[..total];
  }

  lemma ConcatAssociates<T>(a: seq<T>, b: seq<T>, c: seq<T>)
    ensures a + (b + c) == a + b + c
  {
  }

  /** Parsing in two steps, carrying the rest over, equals parsing at once. */
  lemma {:induction false} ParseConcat(a: seq<Byte>, b: seq<Byte>)
    ensures Parse(a + b) == Parsed(Parse(a).frames + Parse(Parse(a).rest + b).frames, Parse(Parse(a).rest + b).rest)
    decreases |a|
  {
    if HasFrame(a) {
      HeadConcat(a, b);
      var tail := AfterHead(a);
      ParseConcat(tail, b);
      ConcatAssociates([HeadFrame(a)], Parse(tail).frames, Parse(Parse(tail).rest + b).frames);
    }
  }

  /** A session fed a list of messages: all frames it returned, and its final buffer. */
  function FeedAll(buffer: seq<Byte>, messages: seq<seq<Byte>>): Parsed {
    if messages == [] then Parsed([], buffer)
    else
      var before := FeedAll(buffer, Front(messages));
      var now := Parse(before.rest + Last(messages));
      Parsed(before.frames + now.frames, now.rest)
  }

  /** The frames a session returns depend on the bytes received, not on how they were cut. */
  lemma {:induction false} ChunkingIsIrrelevant(messages: seq<seq<Byte>>)
    ensures FeedAll([], messages) == Parse(Flatten(messages))
  {
    if messages != [] {
      ChunkingIsIrrelevant(Front(messages));
      ParseConcat(Flatten(Front(messages)), Last(messages));
    }
  }

  function Encode(frames: seq<Frame>): seq<Byte> {
    Flatten(Map(Serialize, frames))
  }

  lemma {:induction false} ParseOne(f: Frame, rest: seq<Byte>)
    requires Sendable(f)
    ensures Parse(Serialize(f) + rest) == Parsed([Seen(f)] + Parse(rest).frames, Parse(rest).rest)
  {
    var data := Serialize(f) + rest;
    HeaderFields(f, rest);
    var total := HEADER_SIZE + |f.packet|;
    assert data[..total] == Serialize(f);
    assert data[total..] == rest;
    DecodeExactlyWhen(f);
    assert HeadFrame(data) == Seen(f) && AfterHead(data) == rest;
  }

  lemma EncodeStep(frames: seq<Frame>, f: Frame)
    ensures Encode(frames + [f]) == Encode(frames) + Serialize(f)
  {
    assert Map(Serialize, frames + [f]) == Map(Serialize, frames) + [Serialize(f)];
    assert Front(Map(Serialize, frames) + [Serialize(f)]) == Map(Serialize, frames);
  }

  lemma {:induction false} ParseOneMore(done: seq<Byte>, seen: seq<Decoded>, f: Frame)
    requires Parse(done) == Parsed(seen, []) && Sendable(f)
    ensures Parse(done + Serialize(f)) == Parsed(seen + [Seen(f)], [])
  {
    ParseConcat(done, Serialize(f));
    assert [] + Serialize(f) == Serialize(f);
    ParseJustOne(f);
  }

  lemma {:induction false} ParseJustOne(f: Frame)
    requires Sendable(f)
    ensures Parse(Serialize(f)) == Parsed([Seen(f)], [])
  {
    ParseOne(f, []);
    assert Serialize(f) + [] == Serialize(f);
    assert Parse([]) == Parsed([], []);
  }

  lemma {:induction false} ParseEncoded(frames: seq<Frame>)
    requires forall f :: f in frames ==> Sendable(f)
    ensures Parse(Encode(frames)) == Parsed(Map(Seen, frames), [])
  {
    if frames != [] {
      var front, last := Front(frames), Last(frames);
      assert frames == front + [last];
      ParseEncoded(front);
      EncodeStep(front, last);
      ParseOneMore(Encode(front), Map(Seen, front), last);
      assert Map(Seen, frames) == Map(Seen, front) + [Seen(last)];
    }
  }

  /** However the encoded stream is cut into messages, the server recovers exactly the frames
      and nothing is left in its buffer. */
  lemma StreamRoundTrip(frames: seq<Frame>, messages: seq<seq<Byte>>)
    requires forall f :: f in frames ==> Sendable(f)
    requires Flatten(messages) == Encode(frames)
    ensures FeedAll([], messages) == Parsed(Map(Seen, frames), [])
  {
    ChunkingIsIrrelevant(messages);
    ParseEncoded(frames);
  }

  /** No encoding is a prefix of another, and different frames have different encodings. */
  lemma PrefixFree(f: Frame, g: Frame)
    requires Sendable(f) && Sendable(g) && Serialize(f) <= Serialize(g)
    ensures f == g
  {
    var rest := Serialize(g)[|Serialize(f)|..];
    assert Serialize(g) == Serialize(f) + rest;
    ParseOne(f, rest);
    ParseOne(g, []);
    assert Serialize(g) + [] == Serialize(g);
    assert Parse(Serialize(g)).frames[0] == Seen(f);
  }
}
