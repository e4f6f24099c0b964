/** Runs of genuine packets alone that break the benchmark's second and third cross-check. */
module CrossChecks {
  import opened Arithmetic
  import opened Options
  import opened ByteStrings
  import opened Session
  import opened IndexRecovery
  import opened Generation
  import opened MediaStream
  import opened Network
  import opened Displacement
  import opened ReceiverSpec
  import opened ReceiverRuns
  import opened KeyingLoss
  import opened ZeroLoss
  import opened Witness
  import opened EndToEnd
  import opened Overtaking
  import opened Misplacement
  import opened ThirdCheck

  // ------------------------------------------------- the checking session is exacting

  lemma {:induction false} NeverAccepted(c: Config, packets: seq<Bytes>, replies: seq<Reply>, w: Bytes)
    requires |packets| == |replies| && w !in packets
    ensures !Seen(AcceptedLog(c, packets, replies), w)
  {
    if packets != [] {
      var n := |packets| - 1;
      NeverAccepted(c, packets[..n], replies[..n], w);
      if replies[n].result.Ok? {
        SeenNext(AcceptedLog(c, packets[..n], replies[..n]), Accepted(c.Key(replies[n].result.generation), packets[n]), w);
      } else {
        assert AcceptedLog(c, packets, replies) == AcceptedLog(c, packets[..n], replies[..n]);
      }
    }
  }

  lemma SeenNext(log: seq<Accepted>, a: Accepted, w: Bytes)
    ensures Seen(log + [a], w) <==> a.packet == w || Seen(log, w)
  {
    assert (log + [a])[..|log|] == log;
  }

  lemma NotSent(s: Stream, front: seq<nat>, i: nat)
    requires Checked(s) && i < U64 && Below(front, U64) && i !in front
    ensures s.Wire(i) !in Wires(s, front)
  {
    forall p | 0 <= p < |front|
      ensures Wires(s, front)[p] != s.Wire(i)
    {
      WiresDiffer(s, i, front[p]);
    }
  }

  /** Two positions with the same 16 low bits lie in different groups of up to 65536. */
  lemma WrapsApart(g: nat, i: nat, n: nat)
    requires 1 <= n <= U16 && g % U16 == i % U16 && g != i
    ensures g / n != i / n
  {
    if g / n == i / n {
      SameGroup(g, i, n);
      SameResidue(g, i);
      assert false;
    }
  }

  lemma SameGroup(g: nat, i: nat, n: nat)
    requires n >= 1 && g / n == i / n
    ensures g - i < n && i - g < n
  {
    assert g == n * (g / n) + g % n && i == n * (i / n) + i % n;
  }

  /** No key covers more than one wrap of the sequence number. */
  predicate ShortSpan(granularity: Granularity) { granularity.EveryN? ==> granularity.n <= U16 }

  lemma GuessSmall(highest: Option<nat>, i: nat, n: nat)
    requires n >= 1 && (highest.Some? ==> highest.value < U64 - U16)
    ensures Guess(highest, i) / n <= Guess(highest, i) < U64
  {
    if highest.Some? {
      NearReference(highest.value, i % U16);
    }
    QuotientGap(0, Guess(highest, i), n);
  }

  lemma ClaimedSmall(s: Stream, highest: Option<nat>, i: nat)
    requires s.Valid() && (highest.Some? ==> highest.value < U64 - U16)
    ensures Claimed(s, highest, i) < U64
  {
    if s.granularity.EveryN? {
      GuessSmall(highest, i, s.granularity.n);
    } else if s.granularity.Packet? {
      GuessSmall(highest, i, 1);
    } else if s.granularity.Frame? {
      var elapsed := (s.model.Timestamp(i) - START_TS) % U32;
      QuotientGap(0, elapsed, FRAME_PERIOD);
    }
  }

  /** A packet read wrong is taken for another generation. */
  lemma ClaimedWrong(s: Stream, highest: Option<nat>, i: nat)
    requires s.Valid() && ShortSpan(s.granularity)
    ensures Claimed(s, highest, i) == Gen(s, i) <==> Locatable(s, highest, i)
  {
    ClaimedRight(s, highest, i);
    if s.granularity.EveryN? && Guess(highest, i) != i {
      WrapsApart(Guess(highest, i), i, s.granularity.n);
    }
  }

  lemma CheckedExact(s: Stream, st: State, i: nat)
    requires Checked(s) && ShortSpan(s.granularity) && i < U64 - U16 && !Seen(st.accepted, s.Wire(i))
    requires st.highest.Some? ==> st.highest.value < U64 - U16
    ensures Exact(s, st, i)
  {
    ClaimedWrong(s, st.highest, i);
    ClaimedSmall(s, st.highest, i);
    CheckedJudges(s, st.accepted, i, Claimed(s, st.highest, i));
  }

  lemma CheckedJudges(s: Stream, log: seq<Accepted>, i: nat, g: nat)
    requires Checked(s) && i < U64 && g < U64 && !Seen(log, s.Wire(i))
    ensures s.srtp.judge(GenerationKey(s, g), log, s.Wire(i))
         == if g == Gen(s, i) then Accept(s.model.PlainPacket(i)) else Verdict.AuthFail
  {
    GenerationSmall(s, i);
    CountingKeysDiffer(g, Gen(s, i));
    CountingKey(g);
    KeyLength(s, i);
    WireParts(s, i);
  }

  lemma {:induction false} TrackArrived(s: Stream, order: seq<nat>, seekCap: nat)
    requires s.Valid()
    ensures TrackAfter(s, order, seekCap).highest.Some? ==> TrackAfter(s, order, seekCap).highest.value in order
  {
    if order != [] {
      TrackArrived(s, order[..|order| - 1], seekCap);
    }
  }

  lemma ExactNext(s: Stream, k: nat, seekCap: nat, front: seq<nat>, i: nat)
    requires Checked(s) && ShortSpan(s.granularity) && k >= 1 && i !in front && i < U64 - U16 && Below(front, U64 - U16)
    requires TrackOf(Run(ReceiverFor(s, k, seekCap), Init, Wires(s, front)).0) == TrackAfter(s, front, seekCap)
    ensures Exact(s, Run(ReceiverFor(s, k, seekCap), Init, Wires(s, front)).0, i)
  {
    var c := ReceiverFor(s, k, seekCap);
    var r := Run(c, Init, Wires(s, front));
    DecryptedUnderReportedGeneration(c, Wires(s, front));
    NotSent(s, front, i);
    NeverAccepted(c, Wires(s, front), r.1, s.Wire(i));
    TrackArrived(s, front, seekCap);
    CheckedExact(s, r.0, i);
  }

  lemma DistinctFront(order: seq<nat>, bound: nat)
    requires order != [] && Distinct(order) && Below(order, bound)
    ensures var front, i := order[..|order| - 1], order[|order| - 1];
      Distinct(front) && Below(front, bound) && i !in front && i < bound
  {
  }

  /** The session of `Witness` meets what is assumed of a run, for every order without repetitions. */
  lemma {:induction false} CheckedExacting(s: Stream, k: nat, seekCap: nat, order: seq<nat>)
    requires Checked(s) && ShortSpan(s.granularity) && k >= 1 && Distinct(order) && Below(order, U64 - U16)
    ensures Exacting(s, k, seekCap, order)
  {
    if order != [] {
      var front, i := order[..|order| - 1], order[|order| - 1];
      DistinctFront(order, U64 - U16);
      CheckedExacting(s, k, seekCap, front);
      ExactingDiscerns(s, k, seekCap, front);
      RunWastes(s, k, seekCap, front);
      ExactNext(s, k, seekCap, front, i);
    }
  }

  // ------------------------------------------------- arrivals that climb

  /** Each arrival is the next packet or the one after it. */
  predicate ClimbsAt(order: seq<nat>, p: nat)
    requires p < |order|
  {
    match MaxIndex(order[..p])
    case None => order[p] <= 1
    case Some(m) => m < order[p] <= m + 2
  }

  /** Followed without waste and without seek-cap drops. */
  predicate Smooth(s: Stream, order: seq<nat>, seekCap: nat)
    requires s.Valid()
  {
    && TrackAfter(s, order, seekCap) == Track(Newest(s, order), MaxIndex(order))
    && WastedKeys(s, order, seekCap) == 0 && SeekDrops(s, order, seekCap) == 0 && Displaced(order).maxGap <= 1
    && (s.granularity.Packet? ==> Followed(s, order, seekCap))
  }

  lemma ClimbReached(s: Stream, before: seq<nat>, i: nat, seekCap: nat)
    requires s.Valid() && Indexed(s.granularity) && seekCap >= 2 && ClimbsAt(before + [i], |before|)
    ensures Skipped(before, i) <= 1 && Locatable(s, MaxIndex(before), i) && (MaxIndex(before).Some? ==> i > MaxIndex(before).value)
    ensures Burst(s, Track(Newest(s, before), MaxIndex(before)), i) == CatchupTo(Newest(s, before), Gen(s, i)) <= seekCap
  {
    assert (before + [i])[..|before|] == before;
    ReachablePosition(before, i);
    ClaimedRight(s, MaxIndex(before), i);
    JumpBound(s, before, i);
  }

  lemma ClimbAdvances(s: Stream, before: seq<nat>, i: nat, seekCap: nat)
    requires s.Valid() && Indexed(s.granularity) && seekCap >= 2 && ClimbsAt(before + [i], |before|)
    ensures var t := Track(Newest(s, before), MaxIndex(before));
      && Advances(s, t, i, seekCap) && !Misled(s, t, i, seekCap) && Burst(s, t, i) <= seekCap
      && Next(s, t, i, seekCap) == Track(Newest(s, before + [i]), MaxIndex(before + [i]))
    ensures Skipped(before, i) <= 1
  {
    ClimbReached(s, before, i, seekCap);
    NewestStep(s, before, i);
  }

  lemma SmoothStep(s: Stream, before: seq<nat>, i: nat, seekCap: nat)
    requires s.Valid() && Indexed(s.granularity) && seekCap >= 2
    requires ClimbsAt(before + [i], |before|) && Smooth(s, before, seekCap)
    ensures Smooth(s, before + [i], seekCap)
  {
    assert (before + [i])[..|before|] == before;
    ClimbAdvances(s, before, i, seekCap);
  }

  lemma {:induction false} ClimbSmooth(s: Stream, order: seq<nat>, seekCap: nat, n: nat)
    requires s.Valid() && Indexed(s.granularity) && seekCap >= 2 && n <= |order|
    requires forall p | 0 <= p < |order| :: ClimbsAt(order, p)
    ensures Smooth(s, order[..n], seekCap)
  {
    if n == 0 {
      assert order[..n] == [];
    } else {
      ClimbSmooth(s, order, seekCap, n - 1);
      assert order[..n] == order[..n - 1] + [order[n - 1]];
      assert ClimbsAt(order, n - 1) && order[..n][..n - 1] == order[..n - 1];
      SmoothStep(s, order[..n - 1], order[n - 1], seekCap);
    }
  }

  lemma SkippingSmooth(s: Stream, j: nat, seekCap: nat)
    requires s.Valid() && Indexed(s.granularity) && seekCap >= 2
    ensures Smooth(s, Skipping(0, j), seekCap)
  {
    forall p | 0 <= p < j
      ensures ClimbsAt(Skipping(0, j), p)
    {
      SkippingNewest(0, j, p);
    }
    ClimbSmooth(s, Skipping(0, j), seekCap, j);
    assert Skipping(0, j)[..j] == Skipping(0, j);
  }

  lemma InOrderSmooth(s: Stream, n: nat, seekCap: nat)
    requires s.Valid() && Indexed(s.granularity) && seekCap >= 2
    ensures Smooth(s, InOrder(n), seekCap)
  {
    forall p | 0 <= p < n
      ensures ClimbsAt(InOrder(n), p)
    {
      InOrderNewest(p);
      assert InOrder(n)[..p] == InOrder(p);
    }
    ClimbSmooth(s, InOrder(n), seekCap, n);
    assert InOrder(n)[..n] == InOrder(n);
  }

  // ------------------------------------------------- a late packet

  /** The sweep's seek cap. */
  const SWEEP_SEEK_CAP: nat := 4096

  const OVERTAKER: nat := 62_300

  /** The smallest payload over paths 3.3 milliseconds apart. */
  function WideSkew(baseNs: nat): Bench
  {
    Bench(CheckedStream(16, Packet).model, baseNs, 0, 3_300_000, Independent, false)
  }

  lemma WideSkewNumbers(baseNs: nat)
    ensures LastBefore(WideSkew(baseNs), OVERTAKER + 1, 0, OVERTAKER)
  {
    assert PacketsPerFrame(16) == 324_000;
  }

  /** One key per packet or per n packets, up to the 3236 positions between the overtaker and the next wrap. */
  predicate Fine(granularity: Granularity)
  {
    granularity.Packet? || (granularity.EveryN? && 1 <= granularity.n <= 3236)
  }

  /** Packet 0, overtaken by all the others, is taken for packet 65536 and the keys up to its generation are derived. */
  lemma LatePacketMisled(s: Stream)
    requires s.Valid() && Fine(s.granularity)
    ensures var order := Skipping(0, OVERTAKER) + [0];
      && MisledAt(s, order, SWEEP_SEEK_CAP, OVERTAKER)
      && WastedKeys(s, order, SWEEP_SEEK_CAP) == Gen(s, U16) - Gen(s, OVERTAKER) >= 1
      && SeekDrops(s, order, SWEEP_SEEK_CAP) == 0
      && (s.granularity.Packet? ==> Followed(s, order, SWEEP_SEEK_CAP) && Displaced(order).maxGap <= 1)
  {
    var front := Skipping(0, OVERTAKER);
    var order := front + [0];
    SkippingSmooth(s, OVERTAKER, SWEEP_SEEK_CAP);
    OvertakenNewest(0, OVERTAKER);
    assert order[..OVERTAKER] == front;
    LatePacketBurst(s);
  }

  lemma LatePacketBurst(s: Stream)
    requires s.Valid() && Fine(s.granularity)
    ensures var t := Track(Some(Gen(s, OVERTAKER)), Some(OVERTAKER));
      && Burst(s, t, 0) == Gen(s, U16) - Gen(s, OVERTAKER) <= SWEEP_SEEK_CAP && Misled(s, t, 0, SWEEP_SEEK_CAP)
  {
    var n := if s.granularity.Packet? then 1 else s.granularity.n;
    assert Guess(Some(OVERTAKER), 0) == U16;
    ClaimedRight(s, Some(OVERTAKER), 0);
    DivMono(OVERTAKER + n, U16, n);
    ModShift(OVERTAKER, n, 1);
    GenerationOrder(s.granularity, s.model.ppf, OVERTAKER, U16);
  }

  /** The derivation count disagrees with the frontier, and at packet level the worst catch-up with the worst gap. */
  predicate ChecksBroken(s: Stream, order: seq<nat>, st: State)
    requires s.Valid()
  {
    && st.stats.catchupSteps > Derived(st.frontier) && !SecondCheck(st)
    && (s.granularity.Packet? ==> !Passes(order, st))
  }

  lemma LatePacketBreaks(s: Stream, c: Config, st: State)
    requires s.Valid() && Fine(s.granularity) && Ledger(c, st)
    requires Wasteful(s, Skipping(0, OVERTAKER) + [0], SWEEP_SEEK_CAP, st)
    ensures ChecksBroken(s, Skipping(0, OVERTAKER) + [0], st)
  {
    var order := Skipping(0, OVERTAKER) + [0];
    LatePacketMisled(s);
    if s.granularity.Packet? {
      WorstBurstIsWorstGapIff(s, order, SWEEP_SEEK_CAP);
      assert MisledAt(s, order, SWEEP_SEEK_CAP, OVERTAKER);
      LateBurstTooLarge(s, order);
    }
  }

  lemma LateBurstTooLarge(s: Stream, order: seq<nat>)
    requires s.Valid() && s.granularity.Packet? && order == Skipping(0, OVERTAKER) + [0]
    ensures BurstAt(s, order, SWEEP_SEEK_CAP, OVERTAKER) == 3236
  {
    SkippingSmooth(s, OVERTAKER, SWEEP_SEEK_CAP);
    OvertakenNewest(0, OVERTAKER);
    LatePacketBurst(s);
  }

  lemma WastefulRun(s: Stream, k: nat, seekCap: nat, order: seq<nat>)
    requires Checked(s) && ShortSpan(s.granularity) && k >= 1 && Distinct(order) && Below(order, U64 - U16)
    ensures var c := ReceiverFor(s, k, seekCap);
      Wasteful(s, order, seekCap, Run(c, Init, Wires(s, order)).0) && Ledger(c, Run(c, Init, Wires(s, order)).0)
  {
    CheckedExacting(s, k, seekCap, order);
    ExactingDiscerns(s, k, seekCap, order);
    RunWastes(s, k, seekCap, order);
    RunLedger(ReceiverFor(s, k, seekCap), Wires(s, order));
  }

  lemma LatePacketRun(s: Stream, k: nat, order: seq<nat>)
    requires Checked(s) && Fine(s.granularity) && k >= 1 && order == Skipping(0, OVERTAKER) + [0]
    ensures ChecksBroken(s, order, Run(ReceiverFor(s, k, SWEEP_SEEK_CAP), Init, Wires(s, order)).0)
  {
    var c := ReceiverFor(s, k, SWEEP_SEEK_CAP);
    WastefulRun(s, k, SWEEP_SEEK_CAP, order);
    LatePacketBreaks(s, c, Run(c, Init, Wires(s, order)).0);
  }

  /**
   * A first packet lost on one path and rescued by the other, nothing forged and nothing else out
   * of order: the second cross-check fails at packet level and for every n up to 3236, the third at
   * packet level, for every key window.
   */
  lemma CrossChecksFail(baseNs: nat, granularity: Granularity, k: nat)
    requires k >= 1 && Fine(granularity)
    ensures var s, b := CheckedStream(16, granularity), WideSkew(baseNs);
      var schedule := OvertakenSchedule(b, OVERTAKER + 1, 0, OVERTAKER);
      && Delivery(b, OvertakenDraws(b, OVERTAKER + 1, 0), schedule)
      && ChecksBroken(s, Indexes(schedule), Run(ReceiverFor(s, k, SWEEP_SEEK_CAP), Init, Wires(s, Indexes(schedule))).0)
  {
    var b := WideSkew(baseNs);
    WideSkewNumbers(baseNs);
    OvertakenDelivery(b, OVERTAKER + 1, 0, OVERTAKER);
    OvertakenLast(0, OVERTAKER);
    LatePacketRun(CheckedStream(16, granularity), k, Indexes(OvertakenSchedule(b, OVERTAKER + 1, 0, OVERTAKER)));
  }

  // ------------------------------------------------- a long loss burst

  /** Everything up to `last` arrives in order, then nothing until `next`. */
  function BurstOrder(last: nat, next: nat): (order: seq<nat>)
    ensures |order| == last + 2
  {
    InOrder(last + 1) + [next]
  }

  function SinglePath(payload: nat, baseNs: nat): Bench
    requires payload >= 8
  {
    Bench(CheckedStream(payload, Packet).model, baseNs, 0, 0, Independent, true)
  }

  function BurstDraws(last: nat, next: nat): (draws: seq<Draws>)
    ensures |draws| == next + 1
  {
    seq(next + 1, p => Draws(Draw(last < p < next, 0), Draw(false, 0)))
  }

  function BurstSchedule(b: Bench, last: nat, next: nat): (schedule: seq<Arrival>)
    requires b.model.ppf >= 1
    ensures |schedule| == last + 2
  {
    seq(last + 2, t requires 0 <= t < last + 2 =>
      var p := BurstOrder(last, next)[t]; Arrival(b.model.SendNs(p) + b.baseNs, p))
  }

  lemma BurstHolds(b: Bench, last: nat, next: nat)
    requires b.model.ppf >= 1 && b.loss.Independent? && b.singlePath && last < next
    ensures Holds(b.Net(BurstDraws(last, next)), next + 1, BurstSchedule(b, last, next))
  {
    var net, schedule := b.Net(BurstDraws(last, next)), BurstSchedule(b, last, next);
    forall e: Arrival
      ensures e in schedule <==> e.index < next + 1 && net.Delivered(e.index) == Some(e.at)
    {
      if e.index <= next {
        assert net.DrawsA()[e.index] == BurstDraws(last, next)[e.index].a;
        if e.index <= last {
          assert schedule[e.index].index == e.index;
        } else if e.index == next {
          assert schedule[last + 1].index == next;
        }
      }
    }
  }

  /** The losses of one path under which this is what arrives. */
  lemma BurstDelivery(b: Bench, last: nat, next: nat)
    requires b.model.Valid() && b.loss.Independent? && b.singlePath && last < next
    ensures Delivery(b, BurstDraws(last, next), BurstSchedule(b, last, next))
    ensures Indexes(BurstSchedule(b, last, next)) == BurstOrder(last, next)
  {
    BurstHolds(b, last, next);
    var order, schedule := BurstOrder(last, next), BurstSchedule(b, last, next);
    forall u, t | 0 <= u < t < |schedule|
      ensures Before(schedule[u], schedule[t])
    {
      SendsLater(b.model, order[u], order[t]);
    }
  }

  /** After packet 40000 the next to arrive is packet 90000: read as 24464, it derives nothing. */
  lemma BurstUnfollowed(s: Stream)
    requires s.Valid() && s.granularity.Packet?
    ensures var order := BurstOrder(40_000, 90_000);
      && !Followed(s, order, SWEEP_SEEK_CAP) && SeekDrops(s, order, SWEEP_SEEK_CAP) == 0
      && WastedKeys(s, order, SWEEP_SEEK_CAP) == 0
  {
    var front := InOrder(40_001);
    var order := front + [90_000];
    assert order[..|front|] == front;
    InOrderSmooth(s, 40_001, SWEEP_SEEK_CAP);
    InOrderNewest(40_001);
    PacketBurst(s, Some(40_000), 90_000, SWEEP_SEEK_CAP);
    assert Guess(Some(40_000), 90_000) == 24_464;
  }

  /** The second check passes and the third fails. */
  predicate OnlyThirdBroken(order: seq<nat>, st: State) { SecondCheck(st) && !Passes(order, st) }

  lemma BurstBreaks(s: Stream, c: Config, st: State)
    requires s.Valid() && s.granularity.Packet? && Ledger(c, st)
    requires Wasteful(s, BurstOrder(40_000, 90_000), SWEEP_SEEK_CAP, st)
    ensures OnlyThirdBroken(BurstOrder(40_000, 90_000), st)
  {
    BurstUnfollowed(s);
    WorstBurstIsWorstGapIff(s, BurstOrder(40_000, 90_000), SWEEP_SEEK_CAP);
  }

  lemma BurstRun(s: Stream, k: nat, order: seq<nat>)
    requires Checked(s) && s.granularity.Packet? && k >= 1 && order == BurstOrder(40_000, 90_000)
    ensures OnlyThirdBroken(order, Run(ReceiverFor(s, k, SWEEP_SEEK_CAP), Init, Wires(s, order)).0)
  {
    var c := ReceiverFor(s, k, SWEEP_SEEK_CAP);
    WastefulRun(s, k, SWEEP_SEEK_CAP, order);
    BurstBreaks(s, c, Run(c, Init, Wires(s, order)).0);
  }

  /** Losing packets 40001 to 89999 breaks the third cross-check alone, for every payload and every key window. */
  lemma ThirdCheckFails(payload: nat, baseNs: nat, k: nat)
    requires payload >= 8 && k >= 1
    ensures var s, b := CheckedStream(payload, Packet), SinglePath(payload, baseNs);
      var schedule := BurstSchedule(b, 40_000, 90_000);
      && Delivery(b, BurstDraws(40_000, 90_000), schedule)
      && OnlyThirdBroken(Indexes(schedule), Run(ReceiverFor(s, k, SWEEP_SEEK_CAP), Init, Wires(s, Indexes(schedule))).0)
  {
    var b := SinglePath(payload, baseNs);
    BurstDelivery(b, 40_000, 90_000);
    BurstRun(CheckedStream(payload, Packet), k, Indexes(BurstSchedule(b, 40_000, 90_000)));
  }
}
