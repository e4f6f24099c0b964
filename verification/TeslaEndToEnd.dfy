/** The whole stack on genuine traffic: media stream, TESLA sender, disturbed network, both receiver layers. */
module TeslaEndToEnd {
  import opened Arithmetic
  import opened Options
  import opened ByteStrings
  import opened Session
  import opened IndexRecovery
  import opened MediaStream
  import opened Network
  import opened Displacement
  import opened Schedule
  import opened TeslaSender
  import opened TeslaSpec
  import opened TeslaRuns
  import opened TeslaHonest
  import opened KeyingLoss
  import opened ZeroLoss
  import opened EndToEnd
  import Rx = ReceiverSpec

  // ------------------------------------------------- one undisturbed step

  /** What the SRTP layer admits and the accept test passes is delivered, and its disclosed key is learnt. */
  lemma CleanStep(w: World, s: State, a: Arrival)
    requires w.Valid() && w.Sendable(a.index) && Plausible(w, s, a) && TrustGenuine(w, s.trust)
    requires w.src.sched.Accepts(a.at, w.Label(a.index))
    requires w.src.sched.DisclosedIndex(w.Label(a.index)) <= s.trust.index + w.src.sched.gMax
    requires Rx.Step(w.rx, s.inner, w.wire(a.index)).1.result.Ok?
    ensures var (s', reply) := Process(w.Receiver(), s, w.Image(a.index), a.at);
      && reply.result.Delivered? && reply.buf == Rx.Step(w.rx, s.inner, w.wire(a.index)).1.buf
      && s'.inner == Rx.Step(w.rx, s.inner, w.wire(a.index)).0
      && s'.highest == Some(MaxWith(s.highest, a.index))
      && s'.history == s.history + [w.Record(a.index, a.at)]
      && s'.stats.Drops() == s.stats.Drops()
      && s'.trust.index == Max(s.trust.index, w.src.sched.DisclosedIndex(w.Label(a.index)))
      && TrustGenuine(w, s'.trust)
  {
    ImageSplits(w, a.index);
    CheckGenuine(w, s.trust, a.index);
  }

  // ------------------------------------------------- runs in which nothing is dropped

  function Packets(w: World, hops: seq<Arrival>): (packets: seq<Bytes>)
    ensures |packets| == |hops|
  {
    seq(|hops|, k requires 0 <= k < |hops| => w.wire(hops[k].index))
  }

  function Records(w: World, hops: seq<Arrival>): (records: seq<Labelled>)
    requires w.Valid() && AllSendable(w, hops)
    ensures |records| == |hops|
  {
    seq(|hops|, k requires 0 <= k < |hops| => w.Record(hops[k].index, hops[k].at))
  }

  /** The newest key any of these packets discloses. */
  function MaxDisclosed(w: World, hops: seq<Arrival>): nat
    requires w.Valid() && AllSendable(w, hops)
  {
    if hops == [] then 0
    else
      var n := |hops| - 1;
      Max(MaxDisclosed(w, hops[..n]), w.src.sched.DisclosedIndex(w.Label(hops[n].index)))
  }

  /** The packet left before it arrived and arrives while its key is provably secret. */
  predicate OnTime(w: World, a: Arrival)
    requires w.Valid()
  {
    && w.Sendable(a.index)
    && w.send(a.index) <= a.at + w.src.sched.dtNs
    && w.src.sched.Accepts(a.at, w.Label(a.index))
  }

  /** The key this packet discloses is within the hash-work cap of the newest one disclosed before. */
  predicate GapCovered(w: World, front: seq<Arrival>, a: Arrival)
    requires w.Valid() && AllSendable(w, front) && w.Sendable(a.index)
  {
    w.src.sched.DisclosedIndex(w.Label(a.index)) <= MaxDisclosed(w, front) + w.src.sched.gMax
  }

  /** What each arrival of a clean run meets: accept test, work cap, its position recovered, the SRTP layer's consent. */
  predicate CleanHop(w: World, front: seq<Arrival>, a: Arrival)
    requires w.Valid()
  {
    && OnTime(w, a) && AllSendable(w, front) && GapCovered(w, front, a)
    && Recover(MaxIndex(Indexes(front)), SeqField(w.wire(a.index))) == a.index
    && Rx.Step(w.rx, Rx.Run(w.rx, Rx.Init, Packets(w, front)).0, w.wire(a.index)).1.result.Ok?
  }

  predicate CleanAt(w: World, hops: seq<Arrival>, k: nat)
    requires w.Valid() && k < |hops|
  {
    CleanHop(w, hops[..k], hops[k]) && (k > 0 ==> hops[k - 1].at <= hops[k].at)
  }

  predicate CleanRun(w: World, hops: seq<Arrival>)
    requires w.Valid()
  {
    forall k | 0 <= k < |hops| :: CleanAt(w, hops, k)
  }

  /** Both layers' state after a run in which nothing was dropped. */
  predicate Follows(w: World, st: State, hops: seq<Arrival>)
    requires w.Valid() && AllSendable(w, hops)
  {
    && st.inner == Rx.Run(w.rx, Rx.Init, Packets(w, hops)).0
    && st.highest == MaxIndex(Indexes(hops))
    && st.history == Records(w, hops)
    && st.stats.Drops() == 0
    && st.trust.index == MaxDisclosed(w, hops)
  }

  lemma HopsSnoc(w: World, hops: seq<Arrival>)
    requires w.Valid() && hops != [] && AllSendable(w, hops)
    ensures var n := |hops| - 1;
      && AllSendable(w, hops[..n])
      && Indexes(hops)[..n] == Indexes(hops[..n]) && Indexes(hops)[n] == hops[n].index
      && Packets(w, hops)[..n] == Packets(w, hops[..n]) && Packets(w, hops)[n] == w.wire(hops[n].index)
      && Records(w, hops) == Records(w, hops[..n]) + [w.Record(hops[n].index, hops[n].at)]
  {
  }

  lemma FollowStep(w: World, hops: seq<Arrival>, before: State, after: State)
    requires w.Valid() && hops != [] && AllSendable(w, hops) && AllSendable(w, hops[..|hops| - 1])
    requires Follows(w, before, hops[..|hops| - 1])
    requires var a := hops[|hops| - 1];
      && after.inner == Rx.Step(w.rx, before.inner, w.wire(a.index)).0
      && after.highest == Some(MaxWith(before.highest, a.index))
      && after.history == before.history + [w.Record(a.index, a.at)]
      && after.stats.Drops() == before.stats.Drops()
      && after.trust.index == Max(before.trust.index, w.src.sched.DisclosedIndex(w.Label(a.index)))
    ensures Follows(w, after, hops)
  {
    HopsSnoc(w, hops);
  }

  lemma InitFollows(w: World)
    requires w.Valid()
    ensures Follows(w, After(w, []), []) && TrustGenuine(w, After(w, []).trust)
  {
  }

  lemma SendableSnoc(w: World, hops: seq<Arrival>)
    requires w.Valid() && hops != [] && AllSendable(w, hops[..|hops| - 1]) && w.Sendable(hops[|hops| - 1].index)
    ensures AllSendable(w, hops)
  {
    var n := |hops| - 1;
    assert forall k | 0 <= k < n :: hops[..n][k] == hops[k];
  }

  lemma HopAdmitted(w: World, front: seq<Arrival>, a: Arrival, before: State)
    requires w.Valid() && AllSendable(w, front) && Follows(w, before, front) && CleanHop(w, front, a)
    ensures Plausible(w, before, a) && Rx.Step(w.rx, before.inner, w.wire(a.index)).1.result.Ok?
    ensures w.src.sched.DisclosedIndex(w.Label(a.index)) <= before.trust.index + w.src.sched.gMax
  {
  }

  lemma HopFollows(w: World, hops: seq<Arrival>, before: State)
    requires w.Valid() && hops != [] && AllSendable(w, hops)
    requires var front, a := hops[..|hops| - 1], hops[|hops| - 1];
      && AllSendable(w, front) && before == After(w, front) && Follows(w, before, front)
      && TrustGenuine(w, before.trust) && CleanHop(w, front, a)
    ensures Follows(w, After(w, hops), hops) && TrustGenuine(w, After(w, hops).trust)
  {
    HopAdmitted(w, hops[..|hops| - 1], hops[|hops| - 1], before);
    CleanStep(w, before, hops[|hops| - 1]);
    DatagramsSnoc(w, hops);
    FollowStep(w, hops, before, After(w, hops));
  }

  /** A clean run drops nothing at either layer, and the trusted key is the newest one disclosed. */
  lemma {:induction false} CleanFollows(w: World, hops: seq<Arrival>, n: nat)
    requires w.Valid() && CleanRun(w, hops) && n <= |hops|
    ensures AllSendable(w, hops[..n])
    ensures Follows(w, After(w, hops[..n]), hops[..n]) && TrustGenuine(w, After(w, hops[..n]).trust)
  {
    if n == 0 {
      assert hops[..n] == [];
      InitFollows(w);
    } else {
      CleanFollows(w, hops, n - 1);
      var cur := hops[..n];
      assert cur[..n - 1] == hops[..n - 1] && cur[n - 1] == hops[n - 1];
      assert CleanAt(w, hops, n - 1);
      SendableSnoc(w, cur);
      HopFollows(w, cur, After(w, hops[..n - 1]));
    }
  }

  /** Both layers reply to the same packets, and the caller gets the buffer the SRTP layer decrypted. */
  predicate Handed(w: World, hops: seq<Arrival>)
    requires w.Valid() && AllSendable(w, hops)
  {
    var outer, inner := Run(w.Receiver(), Datagrams(w, hops)).1, Rx.Run(w.rx, Rx.Init, Packets(w, hops)).1;
    |outer| == |inner| && forall k | 0 <= k < |outer| :: outer[k].result.Delivered? && outer[k].buf == inner[k].buf
  }

  lemma HandedSnoc(outer: seq<TeslaReply>, inner: seq<Rx.Reply>, o: TeslaReply, i: Rx.Reply)
    requires |outer| == |inner| && forall k | 0 <= k < |outer| :: outer[k].result.Delivered? && outer[k].buf == inner[k].buf
    requires o.result.Delivered? && o.buf == i.buf
    ensures |outer + [o]| == |inner + [i]|
    ensures forall k | 0 <= k < |outer + [o]| ::
      (outer + [o])[k].result.Delivered? && (outer + [o])[k].buf == (inner + [i])[k].buf
  {
  }

  lemma HopReplies(w: World, hops: seq<Arrival>)
    requires w.Valid() && hops != [] && AllSendable(w, hops) && AllSendable(w, hops[..|hops| - 1])
    ensures var n := |hops| - 1;
      var reply := Process(w.Receiver(), After(w, hops[..n]), w.Image(hops[n].index), hops[n].at).1;
      Run(w.Receiver(), Datagrams(w, hops)).1 == Run(w.Receiver(), Datagrams(w, hops[..n])).1 + [reply]
    ensures var n := |hops| - 1;
      var (before, replies) := Rx.Run(w.rx, Rx.Init, Packets(w, hops[..n]));
      Rx.Run(w.rx, Rx.Init, Packets(w, hops)).1 == replies + [Rx.Step(w.rx, before, w.wire(hops[n].index)).1]
  {
    DatagramsSnoc(w, hops);
    RunLast(w.Receiver(), Datagrams(w, hops));
    HopsSnoc(w, hops);
  }

  lemma HopHanded(w: World, hops: seq<Arrival>, before: State)
    requires w.Valid() && hops != [] && AllSendable(w, hops)
    requires var front, a := hops[..|hops| - 1], hops[|hops| - 1];
      && AllSendable(w, front) && before == After(w, front) && Follows(w, before, front)
      && TrustGenuine(w, before.trust) && CleanHop(w, front, a) && Handed(w, front)
    ensures Handed(w, hops)
  {
    var front, a := hops[..|hops| - 1], hops[|hops| - 1];
    HopAdmitted(w, front, a, before);
    CleanStep(w, before, a);
    HopReplies(w, hops);
    HandedSnoc(Run(w.Receiver(), Datagrams(w, front)).1, Rx.Run(w.rx, Rx.Init, Packets(w, front)).1,
               Process(w.Receiver(), before, w.Image(a.index), a.at).1, Rx.Step(w.rx, before.inner, w.wire(a.index)).1);
  }

  /** In a clean run every datagram is delivered, with the plaintext. */
  lemma {:induction false} CleanHanded(w: World, hops: seq<Arrival>, n: nat)
    requires w.Valid() && CleanRun(w, hops) && n <= |hops|
    ensures AllSendable(w, hops[..n]) && Handed(w, hops[..n])
  {
    if n == 0 {
      assert hops[..n] == [];
    } else {
      CleanHanded(w, hops, n - 1);
      CleanFollows(w, hops, n - 1);
      var cur := hops[..n];
      assert cur[..n - 1] == hops[..n - 1] && cur[n - 1] == hops[n - 1];
      assert CleanAt(w, hops, n - 1);
      SendableSnoc(w, cur);
      HopHanded(w, cur, After(w, hops[..n - 1]));
    }
  }

  lemma HonestSnoc(w: World, hops: seq<Arrival>)
    requires w.Valid() && hops != [] && AllSendable(w, hops)
    requires var front, a := hops[..|hops| - 1], hops[|hops| - 1];
      && HonestRun(w, front) && Plausible(w, After(w, front), a) && (front != [] ==> front[|front| - 1].at <= a.at)
    ensures HonestRun(w, hops)
  {
  }

  lemma CleanPlausible(w: World, hops: seq<Arrival>, n: nat)
    requires w.Valid() && CleanRun(w, hops) && n < |hops|
    ensures AllSendable(w, hops[..n]) && AllSendable(w, hops[..n + 1])
    ensures Plausible(w, After(w, hops[..n]), hops[n]) && (n > 0 ==> hops[n - 1].at <= hops[n].at)
  {
    CleanFollows(w, hops, n);
    assert hops[..n + 1][..n] == hops[..n];
    assert CleanAt(w, hops, n);
    SendableSnoc(w, hops[..n + 1]);
    HopAdmitted(w, hops[..n], hops[n], After(w, hops[..n]));
  }

  lemma {:induction false} CleanIsHonest(w: World, hops: seq<Arrival>, n: nat)
    requires w.Valid() && CleanRun(w, hops) && n <= |hops|
    ensures HonestRun(w, hops[..n])
  {
    if n > 0 {
      CleanIsHonest(w, hops, n - 1);
      CleanPlausible(w, hops, n - 1);
      assert hops[..n][..n - 1] == hops[..n - 1];
      HonestSnoc(w, hops[..n]);
    }
  }

  lemma HonestCounts(w: World, hops: seq<Arrival>)
    requires w.Valid() && CleanRun(w, hops) && AllSendable(w, hops)
    ensures var s := After(w, hops);
      && s.stats.forged == 0 && s.pending == CountAbove(s.history, s.trust.index)
      && s.stats.verified == |s.history| - s.pending && s.stats.delivered == |s.history|
  {
    assert hops[..|hops|] == hops;
    CleanIsHonest(w, hops, |hops|);
    HonestVerdicts(w, hops);
    RunBalanced(w.Receiver(), Datagrams(w, hops), U32);
  }

  /**
   * Everything is delivered, nothing is called forged, and the packets without a verdict are
   * exactly those labelled above the newest disclosed key.
   */
  predicate Authenticated(w: World, hops: seq<Arrival>)
    requires w.Valid() && AllSendable(w, hops)
  {
    var s := After(w, hops);
    && s.stats.Drops() == 0 && s.stats.delivered == |hops| && s.history == Records(w, hops)
    && s.stats.forged == 0 && s.pending == CountAbove(Records(w, hops), MaxDisclosed(w, hops))
    && s.stats.verified == |hops| - s.pending
  }

  lemma CleanVerdicts(w: World, hops: seq<Arrival>)
    requires w.Valid() && CleanRun(w, hops)
    ensures AllSendable(w, hops) && Authenticated(w, hops) && Handed(w, hops)
  {
    assert hops[..|hops|] == hops;
    CleanFollows(w, hops, |hops|);
    CleanHanded(w, hops, |hops|);
    HonestCounts(w, hops);
  }

  // ------------------------------------------------- the disturbed media stream

  function WorldOf(s: Stream, src: Source, k: nat, seekCap: nat): World
    requires s.Valid()
  {
    World(src, ReceiverFor(s, k, seekCap), (j: nat) => s.Wire(j), (j: nat) => s.model.SendNs(j))
  }

  /** The TESLA layer recovers positions at every granularity, so lateness and gaps must fit half the sequence space. */
  predicate PositionsFit(b: Bench, schedule: seq<Arrival>)
    requires b.model.Valid()
  {
    b.WorstLateness() <= 32_767 && WorstAhead(schedule) <= 32_767
  }

  lemma PositionRecovered(s: Stream, before: seq<nat>, i: nat)
    requires s.Valid() && PlaceableFrom(MaxIndex(before), i)
    ensures Recover(MaxIndex(before), SeqField(s.Wire(i))) == i
  {
    WireHeader(s, i);
    RecoverFrom(MaxIndex(before), i);
  }

  /** The chain lasts for the whole stream and every transit fits the travel budget. */
  predicate TeslaProvisioned(src: Source, b: Bench, n: nat)
    requires b.model.ppf >= 1
  {
    var sched := src.sched;
    && sched.Valid()
    && b.baseNs + b.skewNs + b.jitterNs + sched.dtNs <= (sched.d - 1) * sched.tIntNs
    && forall i | 0 <= i < n ::
         sched.Covers(b.model.SendNs(i)) && b.model.SendNs(i) + b.baseNs + b.skewNs + b.jitterNs + sched.dtNs < U64
  }

  lemma WithinBudget(sched: TeslaSchedule, sendNs: nat, at: nat, budget: nat)
    requires sched.Valid() && sched.t0Ns <= sendNs <= at <= sendNs + budget && at + sched.dtNs < U64
    requires budget + sched.dtNs <= (sched.d - 1) * sched.tIntNs
    ensures sched.Accepts(at, ClockInterval(sched, sendNs))
  {
    assert sched.d * sched.tIntNs == (sched.d - 1) * sched.tIntNs + sched.tIntNs;
    AcceptedWithinBudget(sched, sendNs, at - sendNs);
  }

  lemma BenchOnTime(s: Stream, src: Source, b: Bench, draws: seq<Draws>, schedule: seq<Arrival>,
                    k: nat, seekCap: nat, a: Arrival)
    requires s.Valid() && b.model == s.model && b.Net(draws).Valid() && Holds(b.Net(draws), |draws|, schedule)
    requires TeslaProvisioned(src, b, |draws|) && k >= 1 && a in schedule
    ensures var w := WorldOf(s, src, k, seekCap); w.Valid() && OnTime(w, a)
  {
    BenchTransit(b, draws, schedule);
    assert a.index < |draws|;
    WithinBudget(src.sched, b.model.SendNs(a.index), a.at, b.baseNs + (b.skewNs + b.jitterNs));
  }

  lemma PacketsAreWires(s: Stream, src: Source, k: nat, seekCap: nat, hops: seq<Arrival>, n: nat)
    requires s.Valid() && n <= |hops|
    ensures Packets(WorldOf(s, src, k, seekCap), hops[..n]) == Wires(s, Indexes(hops)[..n])
    ensures Indexes(hops[..n]) == Indexes(hops)[..n]
  {
  }

  /** What the inner receiver and the position recovery make of the next arrival. */
  predicate AdmitsNext(s: Stream, k: nat, seekCap: nat, order: seq<nat>, n: nat)
    requires s.Valid() && k >= 1 && n < |order|
  {
    var c := ReceiverFor(s, k, seekCap);
    && Recover(MaxIndex(order[..n]), SeqField(s.Wire(order[n]))) == order[n]
    && Rx.Step(c, Rx.Run(c, Rx.Init, Wires(s, order[..n])).0, s.Wire(order[n])).1.result.Ok?
  }

  lemma CoveredAdmits(s: Stream, k: nat, seekCap: nat, order: seq<nat>, n: nat)
    requires s.Valid() && k >= 1 && n < |order|
    requires Tracked(s, seekCap, order) && NoneBehind(s, k, order) && AcceptsAll(s, order)
    requires PlaceableFrom(MaxIndex(order[..n]), order[n])
    ensures AdmitsNext(s, k, seekCap, order, n)
  {
    PositionRecovered(s, order[..n], order[n]);
    TrackedPrefix(s, seekCap, order, n);
    AllSurvive(s, k, order, n);
    AcceptsAllKept(s, k, order, n);
    ExactKeyingLoss(s, k, seekCap, order[..n]);
    assert AcceptsAt(s, order, n) && !FallsBehindAt(s, k, order, n);
    StepKept(s, k, seekCap, order[..n], order[n], Rx.Run(ReceiverFor(s, k, seekCap), Rx.Init, Wires(s, order[..n])).0);
  }

  lemma BenchAdmitted(s: Stream, b: Bench, draws: seq<Draws>, schedule: seq<Arrival>, k: nat, seekCap: nat, n: nat)
    requires s.Valid() && b.model == s.model && Delivery(b, draws, schedule) && n < |schedule| && k >= 1
    requires Provisioned(s, b, draws, schedule, k, seekCap) && PositionsFit(b, schedule)
    ensures AdmitsNext(s, k, seekCap, Indexes(schedule), n)
  {
    var order := Indexes(schedule);
    ProvisionedTracked(s, b, draws, schedule, k, seekCap);
    assert Within(s, order, b.WorstLateness(), WorstAhead(schedule), n);
    ReachablePosition(order[..n], order[n]);
    CoveredAdmits(s, k, seekCap, order, n);
  }

  /** No run of lost packets hides more keys than one disclosure may prove. */
  predicate GapsCovered(w: World, schedule: seq<Arrival>)
    requires w.Valid()
  {
    AllSendable(w, schedule) &&
    forall n | 0 <= n < |schedule| :: AllSendable(w, schedule[..n]) && GapCovered(w, schedule[..n], schedule[n])
  }
}
