/** The sender-side rekeying stream (src/keying/granularity.rs). */
module Rekeying {
  import opened Arithmetic
  import opened Options
  import opened ByteStrings
  import opened Ratchet
  import opened Session
  import opened Generation

  /** The boundary-tracking part of a `RekeyingStream`. */
  datatype Boundary = Boundary(installedGen: nat, lastTs: Option<nat>, started: bool, packetCount: nat)

  const Initial: Boundary := Boundary(0, None, false, 0)

  predicate CrossesBoundary(granularity: Granularity, b: Boundary, ts: nat)
    requires granularity.EveryN? ==> granularity.n >= 1
  {
    match granularity
    case EpochOnly => false
    case Packet => b.started
    case Frame => b.started && b.lastTs != Some(ts)
    case EveryN(n) => b.started && b.packetCount % n == 0
  }

  function AdvanceFor(granularity: Granularity, b: Boundary, ts: nat): Boundary
    requires granularity.EveryN? ==> granularity.n >= 1
  {
    Boundary(if CrossesBoundary(granularity, b, ts) then b.installedGen + 1 else b.installedGen,
             Some(ts), true, b.packetCount + 1)
  }

  /** The state after the first `count` packets of a paced stream, each stepped through in turn. */
  function AfterPackets(granularity: Granularity, start: nat, period: nat, ppf: nat, count: nat): Boundary
    requires ppf >= 1 && (granularity.EveryN? ==> granularity.n >= 1)
  {
    if count == 0 then Initial
    else AdvanceFor(granularity, AfterPackets(granularity, start, period, ppf, count - 1),
                    FrameTimestamp(start, period, (count - 1) / ppf))
  }

  /** What the state should be after packet i. */
  function AtPosition(granularity: Granularity, start: nat, period: nat, ppf: nat, i: nat): Boundary
    requires ppf >= 1 && (granularity.EveryN? ==> granularity.n >= 1)
  {
    Boundary(GenerationOf(granularity, ppf, i), Some(FrameTimestamp(start, period, i / ppf)), true, i + 1)
  }

  lemma FrameBoundary(start: nat, period: nat, ppf: nat, i: nat)
    requires ppf >= 1 && 1 <= period < U32
    ensures FrameTimestamp(start, period, i / ppf) != FrameTimestamp(start, period, (i + 1) / ppf)
       <==> (i + 1) / ppf == i / ppf + 1
    ensures (i + 1) / ppf == i / ppf || (i + 1) / ppf == i / ppf + 1
  {
    DivStep(i, ppf);
    NextFrameChangesTimestamp(start, period, i / ppf);
  }

  lemma NextPosition(granularity: Granularity, start: nat, period: nat, ppf: nat, i: nat)
    requires ppf >= 1 && (granularity.EveryN? ==> granularity.n >= 1) && 1 <= period < U32
    ensures AdvanceFor(granularity, AtPosition(granularity, start, period, ppf, i),
                       FrameTimestamp(start, period, (i + 1) / ppf))
         == AtPosition(granularity, start, period, ppf, i + 1)
  {
    match granularity
    case Frame => FrameBoundary(start, period, ppf, i);
    case EveryN(n) => DivStep(i, n);
    case _ =>
  }

  /** The incremental rule installs, for every packet, exactly the generation its position names. */
  lemma {:induction false} IncrementalRuleMatchesPosition(granularity: Granularity, start: nat, period: nat,
                                                          ppf: nat, i: nat)
    requires ppf >= 1 && (granularity.EveryN? ==> granularity.n >= 1)
    requires 1 <= period < U32
    ensures AfterPackets(granularity, start, period, ppf, i + 1) == AtPosition(granularity, start, period, ppf, i)
  {
    if i == 0 {
      FirstPosition(granularity, start, period, ppf);
    } else {
      IncrementalRuleMatchesPosition(granularity, start, period, ppf, i - 1);
      NextPosition(granularity, start, period, ppf, i - 1);
    }
  }

  lemma FirstPosition(granularity: Granularity, start: nat, period: nat, ppf: nat)
    requires ppf >= 1 && (granularity.EveryN? ==> granularity.n >= 1)
    ensures AfterPackets(granularity, start, period, ppf, 1) == AtPosition(granularity, start, period, ppf, 0)
  {
    assert AfterPackets(granularity, start, period, ppf, 0) == Initial;
    DivModUnique(0, ppf, 0, 0);
    if granularity.EveryN? {
      DivModUnique(0, granularity.n, 0, 0);
    }
  }

  /** Packet-level keying is the n = 1 case of every-n keying, frame-level the n = packets-per-frame case. */
  lemma GranularitySpecialCases(start: nat, period: nat, ppf: nat, count: nat)
    requires ppf >= 1 && 1 <= period < U32
    ensures AfterPackets(EveryN(1), start, period, ppf, count) == AfterPackets(Packet, start, period, ppf, count)
    ensures AfterPackets(EveryN(ppf), start, period, ppf, count) == AfterPackets(Frame, start, period, ppf, count)
  {
    if count > 0 {
      IncrementalRuleMatchesPosition(EveryN(1), start, period, ppf, count - 1);
      IncrementalRuleMatchesPosition(Packet, start, period, ppf, count - 1);
      IncrementalRuleMatchesPosition(EveryN(ppf), start, period, ppf, count - 1);
      IncrementalRuleMatchesPosition(Frame, start, period, ppf, count - 1);
    }
  }

  class RekeyingStream {
    const granularity: Granularity
    ghost const seed: Bytes
    const session: SrtpSession
    const ratchet: StreamRatchet
    var installedGen: nat
    var lastTs: Option<nat>
    var started: bool
    var packetCount: nat

    /** The cipher holds the key of the installed generation and the ratchet stands right behind it. */
    ghost predicate Valid()
      reads this, session, ratchet
    {
      && (granularity.EveryN? ==> granularity.n >= 1)
      && ratchet.At(ratchet.kdf, seed, installedGen + 1)
      && session.key == KeyAt(ratchet.kdf, seed, installedGen)
      && session.sent == packetCount
    }

    ghost function State(): Boundary
      reads this
    {
      Boundary(installedGen, lastTs, started, packetCount)
    }

    constructor (granularity: Granularity, srtp: Srtp, kdf: Kdf, seed: Bytes)
      requires granularity.EveryN? ==> granularity.n >= 1
      requires |seed| == CHAIN_SECRET_LEN
      ensures Valid() && fresh(session) && fresh(ratchet)
      ensures State() == Initial && this.granularity == granularity && this.seed == seed
      ensures session.srtp == srtp && ratchet.kdf == kdf
    {
      this.granularity, this.seed := granularity, seed;
      session := new SrtpSession(srtp, seq(28, _ => 0));
      ratchet := new StreamRatchet.FromSeed(kdf, seed);
      installedGen, lastTs, started, packetCount := 0, None, false, 0;
      new;
      var g, ks := ratchet.NextKeySalt(seed);
      session.InplaceRekey(ks);
      installedGen := g;
    }

    method InstallNextGeneration()
      requires Valid()
      modifies this`installedGen, session`key, ratchet
      ensures Valid() && installedGen == old(installedGen) + 1
    {
      var g, ks := ratchet.NextKeySalt(seed);
      session.InplaceRekey(ks);
      installedGen := g;
    }

    method Advance(ts: nat)
      requires Valid() && session.sent == packetCount
      modifies this, session`key, ratchet
      ensures (granularity.EveryN? ==> granularity.n >= 1)
      ensures State() == AdvanceFor(granularity, old(State()), ts)
      ensures ratchet.At(ratchet.kdf, seed, installedGen + 1)
      ensures session.key == KeyAt(ratchet.kdf, seed, installedGen)
    {
      var crossed :=
        match granularity
        case EpochOnly => false
        case Packet => started
        case Frame => started && lastTs != Some(ts)
        case EveryN(n) => started && packetCount % n == 0;
      if crossed {
        InstallNextGeneration();
      }
      lastTs := Some(ts);
      started := true;
      packetCount := packetCount + 1;
    }

    /** Encrypts under the key of the generation the packet belongs to, never under another. */
    method Protect(plain: Bytes) returns (wire: Bytes)
      requires Valid() && |plain| >= RTP_HEADER_LEN
      modifies this, session`key, session`sent, ratchet
      ensures Valid()
      ensures State() == AdvanceFor(granularity, old(State()), TimestampField(plain))
      ensures wire == Protected(session.srtp, KeyAt(ratchet.kdf, seed, installedGen), old(packetCount), plain)
    {
      Advance(TimestampField(plain));
      wire := session.Protect(plain);
    }
  }
}
