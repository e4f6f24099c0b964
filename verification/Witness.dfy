/**
 * A session and a key derivation that behave as the real ones are meant to: keys that never
 * repeat, a session that refuses replays and packets under another key. They show that what the
 * loss theorems assume of the session can be met, and serve as the ground of concrete runs.
 */
module Witness {
  import opened Arithmetic
  import opened ByteStrings
  import opened Ratchet
  import opened Session
  import opened Generation
  import opened MediaStream
  import opened Displacement
  import opened KeyingLoss
  import opened ZeroLoss

  // ------------------------------------------------- keys that never repeat

  /** Secrets that count the generations. */
  const CountingKdf: Kdf :=
    Kdf((secret, info, len) => BigEndian(len, FromBigEndian(secret) + One(info == CHAIN_LABEL)))

  const FirstSecret: Bytes := BigEndian(CHAIN_SECRET_LEN, 0)

  lemma {:induction false} RadixGrows(a: nat, b: nat)
    requires a <= b
    ensures Radix(a) <= Radix(b)
  {
    if a < b {
      RadixGrows(a, b - 1);
    }
  }

  lemma CountBack(width: nat, v: nat)
    requires width >= 8 && v < U64
    ensures FromBigEndian(BigEndian(width, v)) == v
  {
    BigEndianRoundTrip(width, v);
    RadixGrows(8, width);
    RadixValues();
  }

  lemma {:induction false} CountingSecret(g: nat)
    requires g < U64
    ensures SecretAt(CountingKdf, FirstSecret, g) == BigEndian(CHAIN_SECRET_LEN, g)
  {
    if g > 0 {
      CountingSecret(g - 1);
      CountingNext(g - 1);
      SecretStep(CountingKdf, FirstSecret, g);
    }
  }

  lemma SecretStep(kdf: Kdf, seed: Bytes, g: nat)
    requires g > 0
    ensures SecretAt(kdf, seed, g) == kdf.expand(SecretAt(kdf, seed, g - 1), CHAIN_LABEL, CHAIN_SECRET_LEN)
  {
  }

  lemma CountingNext(v: nat)
    requires v + 1 < U64
    ensures CountingKdf.expand(BigEndian(CHAIN_SECRET_LEN, v), CHAIN_LABEL, CHAIN_SECRET_LEN)
         == BigEndian(CHAIN_SECRET_LEN, v + 1)
  {
    CountBack(CHAIN_SECRET_LEN, v);
  }

  lemma CountingKey(g: nat)
    requires g < U64
    ensures KeyAt(CountingKdf, FirstSecret, g) == BigEndian(SRTP_KEY_MATERIAL_LEN, g)
  {
    CountingSecret(g);
    CountBack(CHAIN_SECRET_LEN, g);
    assert KEY_MATERIAL_LABEL[0] != CHAIN_LABEL[0];
  }

  lemma CountingKeysDiffer(g: nat, h: nat)
    requires g < U64 && h < U64
    ensures KeyAt(CountingKdf, FirstSecret, g) == KeyAt(CountingKdf, FirstSecret, h) <==> g == h
  {
    CountingKey(g);
    CountingKey(h);
    CountBack(SRTP_KEY_MATERIAL_LEN, g);
    CountBack(SRTP_KEY_MATERIAL_LEN, h);
  }

  // ------------------------------------------------- a session that checks

  predicate Seen(log: seq<Accepted>, packet: Bytes)
  {
    log != [] && (log[|log| - 1].packet == packet || Seen(log[..|log| - 1], packet))
  }

  /** Refuses what it accepted before and what was sealed under another key. */
  function CheckedVerdict(key: KeySalt, log: seq<Accepted>, packet: Bytes): Verdict
  {
    var body := RTP_HEADER_LEN + |key|;
    if Seen(log, packet) then ReplayFail
    else if |packet| < body || packet[RTP_HEADER_LEN..body] != key then Verdict.AuthFail
    else Accept(packet[body..])
  }

  const CheckingSession: Srtp :=
    Srtp((key, log, packet) => CheckedVerdict(key, log, packet), (key, count, plain) => key + plain)

  ghost predicate Checked(s: Stream)
  {
    s.Valid() && s.kdf == CountingKdf && s.seed == FirstSecret && s.srtp == CheckingSession
  }

  function CheckedStream(payload: nat, granularity: Granularity): (s: Stream)
    requires payload >= 8 && (granularity.EveryN? ==> granularity.n >= 1)
    ensures Checked(s)
  {
    Stream.Stream(StreamModel(payload, PacketsPerFrame(payload), 1), granularity, CountingKdf, FirstSecret, CheckingSession)
  }

  lemma GenerationSmall(s: Stream, i: nat)
    requires s.Valid()
    ensures Gen(s, i) <= i
  {
    GenerationOrder(s.granularity, s.model.ppf, 0, i);
  }

  lemma KeyLength(s: Stream, i: nat)
    requires Checked(s) && i < U64
    ensures |s.Key(i)| == SRTP_KEY_MATERIAL_LEN
  {
    GenerationSmall(s, i);
    CountingKey(Gen(s, i));
  }

  /** Key and plaintext can be read back off the wire. */
  lemma WireParts(s: Stream, i: nat)
    requires Checked(s) && i < U64
    ensures var body := RTP_HEADER_LEN + SRTP_KEY_MATERIAL_LEN;
      |s.Wire(i)| >= body && s.Wire(i)[RTP_HEADER_LEN..body] == s.Key(i) && s.Wire(i)[body..] == s.model.PlainPacket(i)
  {
    KeyLength(s, i);
  }

  lemma WiresDiffer(s: Stream, i: nat, j: nat)
    requires Checked(s) && i < U64 && j < U64
    ensures s.Wire(i) == s.Wire(j) <==> i == j
  {
    WireParts(s, i);
    WireParts(s, j);
    PayloadNamesPacket(s.model, i);
    PayloadNamesPacket(s.model, j);
  }

  lemma {:induction false} SeenLog(s: Stream, before: seq<nat>, i: nat)
    requires Checked(s) && i < U64 && i !in before && forall p | 0 <= p < |before| :: before[p] < U64
    ensures !Seen(Log(s, before), s.Wire(i))
  {
    if before != [] {
      var n := |before| - 1;
      assert Log(s, before)[..n] == Log(s, before[..n]);
      SeenLog(s, before[..n], i);
      WiresDiffer(s, i, before[n]);
    }
  }

  /** It takes every genuine packet it has not taken before... */
  lemma CheckedAccepts(s: Stream, before: seq<nat>, i: nat)
    requires Checked(s) && i < U64 && i !in before && forall p | 0 <= p < |before| :: before[p] < U64
    ensures AcceptsNext(s, before, i)
  {
    SeenLog(s, before, i);
    KeyLength(s, i);
    WireParts(s, i);
  }

  lemma {:induction false} SeenAgain(s: Stream, before: seq<nat>, i: nat)
    requires s.Valid() && i in before
    ensures Seen(Log(s, before), s.Wire(i))
  {
    var n := |before| - 1;
    assert Log(s, before)[..n] == Log(s, before[..n]);
    if before[n] != i {
      SeenAgain(s, before[..n], i);
    }
  }

  /** ...refuses it a second time, under whatever key... */
  lemma CheckedRefusesReplay(s: Stream, key: KeySalt, before: seq<nat>, i: nat)
    requires Checked(s) && i in before
    ensures s.srtp.judge(key, Log(s, before), s.Wire(i)) == ReplayFail
  {
    SeenAgain(s, before, i);
  }

  /** ...and refuses a packet under any generation's key but its own. */
  lemma CheckedRefusesOtherKeys(s: Stream, log: seq<Accepted>, i: nat, g: nat)
    requires Checked(s) && i < U64 && g < U64 && g != Gen(s, i)
    ensures !s.srtp.judge(KeyAt(s.kdf, s.seed, g), log, s.Wire(i)).Accept?
  {
    GenerationSmall(s, i);
    CountingKeysDiffer(g, Gen(s, i));
    CountingKey(g);
    WireParts(s, i);
  }

  /** So the assumption about a run is met by every order without repetitions. */
  lemma AssumptionCanBeMet(s: Stream, order: seq<nat>)
    requires Checked(s) && Distinct(order) && forall p | 0 <= p < |order| :: order[p] < U64
    ensures AcceptsAll(s, order)
  {
    forall n | 0 <= n < |order|
      ensures AcceptsAt(s, order, n)
    {
      CheckedAccepts(s, order[..n], order[n]);
    }
  }
}
