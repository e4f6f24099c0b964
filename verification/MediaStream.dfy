/** The modelled media stream and its simulated sender (src/simulation/sender.rs). */
module MediaStream {
  import opened Arithmetic
  import opened ByteStrings
  import opened Ratchet
  import opened Session
  import opened Generation
  import opened Rekeying

  const FRAME_BYTES: nat := 1920 * 1080 * 5 / 2
  const FRAME_PERIOD: nat := 1500
  const FPS: nat := 60
  const START_TS: nat := 0
  const NS_PER_SECOND: nat := 1_000_000_000

  function PacketsPerFrame(payloadSize: nat): (ppf: nat)
    requires payloadSize > 0
    ensures 1 <= ppf <= FRAME_BYTES
  {
    DivMono(FRAME_BYTES, payloadSize * FRAME_BYTES, payloadSize);
    ModShift(0, payloadSize, FRAME_BYTES);
    Max(FRAME_BYTES / payloadSize, 1)
  }

  /** As many whole payloads as a frame fills, and one where it fills none. */
  lemma FrameFilled(payloadSize: nat)
    requires payloadSize > 0
    ensures var ppf := PacketsPerFrame(payloadSize);
      FRAME_BYTES < (ppf + 1) * payloadSize && (ppf * payloadSize <= FRAME_BYTES || ppf == 1)
  {
    var q := FRAME_BYTES / payloadSize;
    assert FRAME_BYTES < (q + 1) * payloadSize && q * payloadSize <= FRAME_BYTES;
    MulMono(q + 1, PacketsPerFrame(payloadSize) + 1, payloadSize);
  }

  /** The n-th of `perSecond` evenly spaced instants, truncated to whole nanoseconds. */
  function Spread(n: nat, perSecond: nat): nat
    requires perSecond > 0
  {
    n * NS_PER_SECOND / perSecond
  }

  datatype StreamModel = StreamModel(payloadSize: nat, ppf: nat, ssrc: nat)
  {
    predicate Valid()
    {
      payloadSize >= 8 && ppf == PacketsPerFrame(payloadSize) && ssrc < U32
    }

    function Timestamp(i: nat): nat
      requires ppf >= 1
    {
      FrameTimestamp(START_TS, FRAME_PERIOD, i / ppf)
    }

    function SendNs(i: nat): nat
      requires ppf >= 1
    {
      Instant(ppf, i / ppf, i % ppf)
    }

    /** All zeros but for the packet index, little-endian, in the first 8 bytes. */
    function Payload(i: nat): (payload: Bytes)
      requires payloadSize >= 8
      ensures |payload| == payloadSize
    {
      Reverse(BigEndian(8, i)) + seq(payloadSize - 8, _ => 0)
    }

    function PlainPacket(i: nat): (packet: Bytes)
      requires payloadSize >= 8 && ppf >= 1
      ensures |packet| == RTP_HEADER_LEN + payloadSize
    {
      [0x80, 96] + BigEndian(2, i) + BigEndian(4, Timestamp(i)) + BigEndian(4, ssrc) + Payload(i)
    }
  }

  /** A receiver reads position modulo 2^16 and the frame's timestamp off packet i. */
  lemma PlainPacketHeader(m: StreamModel, i: nat)
    requires m.payloadSize >= 8 && m.ppf >= 1
    ensures SeqField(m.PlainPacket(i)) == i % U16
    ensures TimestampField(m.PlainPacket(i)) == m.Timestamp(i)
    ensures m.PlainPacket(i)[..2] == [0x80, 96] && m.PlainPacket(i)[8..12] == BigEndian(4, m.ssrc)
  {
    var p := m.PlainPacket(i);
    HeaderBytes([0x80, 96], BigEndian(2, i), BigEndian(4, m.Timestamp(i)), BigEndian(4, m.ssrc), m.Payload(i));
    assert SeqField(p) == FromBigEndian(p[2..4]) && TimestampField(p) == FromBigEndian(p[4..8]);
    assert p[2..4] == BigEndian(2, i) && p[4..8] == BigEndian(4, m.Timestamp(i));
    FieldBack(2, i);
    FieldBack(4, m.Timestamp(i));
    SmallMod(m.Timestamp(i), U32);
  }

  lemma SmallMod(x: nat, d: nat)
    requires x < d
    ensures x % d == x
  {
  }

  lemma FieldBack(width: nat, v: nat)
    requires width == 2 || width == 4
    ensures FromBigEndian(BigEndian(width, v)) == v % if width == 2 then U16 else U32
  {
    BigEndianRoundTrip(width, v);
    RadixValues();
  }

  lemma HeaderBytes(start: Bytes, field: Bytes, ts: Bytes, ssrc: Bytes, payload: Bytes)
    requires |start| == 2 && |field| == 2 && |ts| == 4
    ensures (start + field + ts + ssrc + payload)[2..4] == field
    ensures (start + field + ts + ssrc + payload)[4..8] == ts
    ensures |ssrc| == 4 ==> (start + field + ts + ssrc + payload)[8..12] == ssrc
    ensures (start + field + ts + ssrc + payload)[..2] == start
  {
  }

  /** A decrypted packet tells which packet it is: its payload is stamped with its 64-bit index. */
  lemma PayloadNamesPacket(m: StreamModel, i: nat)
    requires m.payloadSize >= 8 && m.ppf >= 1 && i < U64
    ensures FromBigEndian(Reverse(m.PlainPacket(i)[RTP_HEADER_LEN..RTP_HEADER_LEN + 8])) == i
    ensures forall j | RTP_HEADER_LEN + 8 <= j < |m.PlainPacket(i)| :: m.PlainPacket(i)[j] == 0
  {
    StampBytes([0x80, 96] + BigEndian(2, i) + BigEndian(4, m.Timestamp(i)) + BigEndian(4, m.ssrc),
               Reverse(BigEndian(8, i)), seq(m.payloadSize - 8, _ => 0));
    ReverseTwice(BigEndian(8, i));
    StampBack(i);
  }

  lemma StampBytes(header: Bytes, stamp: Bytes, zeros: Bytes)
    requires |header| == RTP_HEADER_LEN && |stamp| == 8
    ensures (header + (stamp + zeros))[RTP_HEADER_LEN..RTP_HEADER_LEN + 8] == stamp
    ensures (header + (stamp + zeros))[RTP_HEADER_LEN + 8..] == zeros
  {
  }

  lemma StampBack(i: nat)
    requires i < U64
    ensures FromBigEndian(BigEndian(8, i)) == i
  {
    BigEndianRoundTrip(8, i);
    RadixValues();
  }

  // ---------------------------------------------------------------- pacing

  /** The smallest spacing the pacing can produce. */
  function MinGapNs(ppf: nat): (gap: nat)
    requires 1 <= ppf <= FRAME_BYTES
    ensures gap >= 1
  {
    DivMono(FPS * ppf, NS_PER_SECOND, FPS * ppf);
    NS_PER_SECOND / (FPS * ppf)
  }

  lemma SpreadStep(n: nat, perSecond: nat)
    requires perSecond > 0
    ensures Spread(n + 1, perSecond) >= Spread(n, perSecond) + NS_PER_SECOND / perSecond
  {
    DivSuperadditive(n * NS_PER_SECOND, NS_PER_SECOND, perSecond);
  }

  /** The last offset plus one spacing is one whole frame. */
  lemma FrameLength(ppf: nat)
    requires ppf >= 1
    ensures Spread(ppf, FPS * ppf) == NS_PER_SECOND / FPS
  {
    var q, r := NS_PER_SECOND / FPS, NS_PER_SECOND % FPS;
    assert ppf * NS_PER_SECOND == (FPS * ppf) * q + ppf * r;
    MulMono(r + 1, FPS, ppf);
    DivModUnique(ppf * NS_PER_SECOND, FPS * ppf, q, ppf * r);
  }

  lemma NextInFrame(i: nat, d: nat)
    requires d > 0 && i % d + 1 < d
    ensures (i + 1) / d == i / d && (i + 1) % d == i % d + 1
  {
    assert i + 1 == d * (i / d) + (i % d + 1);
    DivModUnique(i + 1, d, i / d, i % d + 1);
  }

  lemma NextFrame(i: nat, d: nat)
    requires d > 0 && i % d + 1 == d
    ensures (i + 1) / d == i / d + 1 && (i + 1) % d == 0
  {
    assert i + 1 == d * (i / d + 1) + 0;
    DivModUnique(i + 1, d, i / d + 1, 0);
  }

  /** The instant of position p in frame f. */
  function Instant(ppf: nat, f: nat, p: nat): nat
    requires ppf >= 1
  {
    Spread(f, FPS) + Spread(p, FPS * ppf)
  }

  /** From one position to the next, inside a frame or into the following one. */
  lemma InstantStep(ppf: nat, f: nat, p: nat, f': nat, p': nat)
    requires p < ppf <= FRAME_BYTES
    requires if p + 1 < ppf then f' == f && p' == p + 1 else f' == f + 1 && p' == 0
    ensures Instant(ppf, f', p') >= Instant(ppf, f, p) + MinGapNs(ppf)
  {
    SpreadStep(p, FPS * ppf);
    if p + 1 == ppf {
      SpreadStep(f, FPS);
      FrameLength(ppf);
    }
  }

  /** Two truncating divisions notwithstanding, also across a frame boundary. */
  lemma SendSpacing(m: StreamModel, i: nat)
    requires 1 <= m.ppf <= FRAME_BYTES
    ensures m.SendNs(i + 1) >= m.SendNs(i) + MinGapNs(m.ppf)
  {
    var ppf, f, p := m.ppf, i / m.ppf, i % m.ppf;
    if p + 1 < ppf {
      NextInFrame(i, ppf);
      InstantStep(ppf, f, p, f, p + 1);
    } else {
      NextFrame(i, ppf);
      InstantStep(ppf, f, p, f + 1, 0);
    }
  }

  /** The first two packets are exactly that far apart: no larger gap holds for every pair. */
  lemma SpacingAttained(m: StreamModel)
    requires 1 <= m.ppf <= FRAME_BYTES
    ensures m.SendNs(1) == m.SendNs(0) + MinGapNs(m.ppf)
  {
    assert 0 / m.ppf == 0 && 0 % m.ppf == 0;
    assert Spread(0, FPS) == 0 && Spread(0, FPS * m.ppf) == 0;
    if m.ppf == 1 {
      assert m.SendNs(1) == Spread(1, FPS) + Spread(0, FPS);
    } else {
      DivModUnique(1, m.ppf, 0, 1);
    }
  }

  lemma FrameInstant(f: nat, ppf: nat)
    requires ppf >= 1
    ensures Spread(f, FPS) == (f * NS_PER_SECOND * ppf) / (FPS * ppf)
  {
    DivCancel(f * NS_PER_SECOND, FPS, ppf);
  }

  /** Frame by frame pacing follows even pacing of all packets: never ahead of it, and at most a nanosecond behind. */
  lemma SendsEvenly(m: StreamModel, i: nat)
    requires m.ppf >= 1
    ensures m.SendNs(i) <= Spread(i, FPS * m.ppf) <= m.SendNs(i) + 1
  {
    var ppf, f, p := m.ppf, i / m.ppf, i % m.ppf;
    var x, y := f * NS_PER_SECOND * ppf, p * NS_PER_SECOND;
    FrameInstant(f, ppf);
    assert i * NS_PER_SECOND == x + y by {
      assert i == ppf * f + p;
    }
    DivSuperadditive(x, y, FPS * ppf);
    DivSubadditive(x, y, FPS * ppf);
  }

  /** Frame f starts at the f-th sixtieth of a second, and every second is paced like the one before. */
  lemma SendsByTheSecond(m: StreamModel, i: nat)
    requires m.ppf >= 1
    ensures m.SendNs(i + FPS * m.ppf) == m.SendNs(i) + NS_PER_SECOND
    ensures i % m.ppf == 0 ==> m.SendNs(i) == Spread(i / m.ppf, FPS)
  {
    var ppf, f := m.ppf, i / m.ppf;
    assert i + FPS * ppf == i + ppf * FPS;
    ModShift(i, ppf, FPS);
    assert (f + FPS) * NS_PER_SECOND == f * NS_PER_SECOND + FPS * NS_PER_SECOND;
    ModShift(f * NS_PER_SECOND, FPS, NS_PER_SECOND);
    assert Spread(0, FPS * ppf) == 0;
  }

  lemma {:induction false} SendSpacingSum(m: StreamModel, i: nat, j: nat)
    requires 1 <= m.ppf <= FRAME_BYTES && i <= j
    ensures m.SendNs(j) >= m.SendNs(i) + (j - i) * MinGapNs(m.ppf)
    decreases j - i
  {
    if i < j {
      SendSpacingSum(m, i, j - 1);
      SendSpacing(m, j - 1);
      var gap := MinGapNs(m.ppf);
      assert (j - 1 - i) * gap + gap == (j - i) * gap;
    }
  }

  // ---------------------------------------------------------------- the sender

  /** Everything that fixes the wire image of a stream. */
  datatype Stream = Stream(model: StreamModel, granularity: Granularity, kdf: Kdf, seed: Bytes, srtp: Srtp)
  {
    predicate Valid()
    {
      model.Valid() && (granularity.EveryN? ==> granularity.n >= 1) && |seed| == CHAIN_SECRET_LEN
    }

    function Key(i: nat): KeySalt
      requires Valid()
    {
      KeyAt(kdf, seed, GenerationOf(granularity, model.ppf, i))
    }

    /** Packet i on the wire, as a function of its position alone. */
    function Wire(i: nat): (wire: Bytes)
      requires Valid()
      ensures |wire| >= RTP_HEADER_LEN
    {
      Protected(srtp, Key(i), i, model.PlainPacket(i))
    }
  }

  lemma WireHeader(s: Stream, i: nat)
    requires s.Valid()
    ensures SeqField(s.Wire(i)) == i % U16
    ensures TimestampField(s.Wire(i)) == s.model.Timestamp(i)
  {
    PlainPacketHeader(s.model, i);
    assert s.Wire(i)[2..4] == s.model.PlainPacket(i)[2..4];
    assert s.Wire(i)[4..8] == s.model.PlainPacket(i)[4..8];
  }

  class SimulatedSender {
    const model: StreamModel
    const crypto: RekeyingStream
    var nextI: nat

    ghost function Image(): Stream
      reads this, crypto
    {
      Stream.Stream(model, crypto.granularity, crypto.ratchet.kdf, crypto.seed, crypto.session.srtp)
    }

    ghost predicate Valid()
      reads this, crypto, crypto.session, crypto.ratchet
    {
      && Image().Valid() && crypto.Valid()
      && crypto.State() == AfterPackets(crypto.granularity, START_TS, FRAME_PERIOD, model.ppf, nextI)
      && crypto.packetCount == nextI
    }

    constructor (model: StreamModel, granularity: Granularity, srtp: Srtp, kdf: Kdf, seed: Bytes)
      requires Stream.Stream(model, granularity, kdf, seed, srtp).Valid()
      ensures Valid() && fresh(crypto) && fresh(crypto.session) && fresh(crypto.ratchet)
      ensures Image() == Stream.Stream(model, granularity, kdf, seed, srtp) && nextI == 0
    {
      this.model := model;
      crypto := new RekeyingStream(granularity, srtp, kdf, seed);
      nextI := 0;
    }

    /** Stepping the sender produces packet after packet of the position-defined stream. */
    method NextProtected() returns (i: nat, wire: Bytes)
      requires Valid()
      modifies this`nextI, crypto, crypto.session, crypto.ratchet
      ensures Valid() && Image() == old(Image())
      ensures i == old(nextI) && nextI == i + 1
      ensures wire == Image().Wire(i)
    {
      i := nextI;
      PlainPacketHeader(model, i);
      IncrementalRuleMatchesPosition(crypto.granularity, START_TS, FRAME_PERIOD, model.ppf, i);
      wire := crypto.Protect(model.PlainPacket(i));
      nextI := i + 1;
    }
  }
}
