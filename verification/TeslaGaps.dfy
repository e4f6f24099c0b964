/** The whole stack over the disturbed network: it drops nothing exactly when no loss burst hides too many keys. */
module TeslaGaps {
  import opened Arithmetic
  import opened Options
  import opened ByteStrings
  import opened Session
  import opened IndexRecovery
  import opened MediaStream
  import opened Network
  import opened Displacement
  import opened TeslaWire
  import opened TeslaSender
  import opened TeslaSpec
  import opened TeslaHonest
  import opened TeslaStall
  import opened ZeroLoss
  import opened EndToEnd
  import opened TeslaEndToEnd
  import Rx = ReceiverSpec

  // ------------------------------------------------- drops are counted and stay counted

  lemma DiscloseCounted(c: Config, s: State, ext: Extension, entry: Entry, out: Bytes)
    ensures var (s', reply) := Disclose(c, s, ext, entry, out);
      s'.stats.Drops() == s.stats.Drops() + One(reply.result.Dropped?)
  {
  }

  /** Every datagram that is not delivered adds one to the drops, and a delivered one adds none. */
  lemma ProcessCounted(c: Config, s: State, buf: Bytes, nowNs: nat)
    requires c.Valid()
    ensures var (s', reply) := Process(c, s, buf, nowNs);
      s'.stats.Drops() == s.stats.Drops() + One(reply.result.Dropped?)
  {
    var split := SplitExtension(buf);
    if split.Split? && |split.packet| >= RTP_HEADER_LEN && c.sched.Accepts(nowNs, split.ext.interval) {
      var extIndex := Recover(s.highest, SeqField(split.packet));
      var (inner, reply) := Rx.Step(c.rx, s.inner, split.packet);
      var s' := s.(inner := inner, highest := Some(MaxWith(s.highest, extIndex)));
      DiscloseCounted(c, s', split.ext, Entry(extIndex, nowNs, split.ext.mac, split.packet), reply.buf);
    }
  }

  lemma {:induction false} DropsStay(w: World, hops: seq<Arrival>, m: nat)
    requires w.Valid() && m <= |hops| && AllSendable(w, hops) && AllSendable(w, hops[..m])
    ensures After(w, hops[..m]).stats.Drops() <= After(w, hops).stats.Drops()
    decreases |hops|
  {
    if m == |hops| {
      assert hops[..m] == hops;
    } else {
      var n := |hops| - 1;
      assert hops[..n][..m] == hops[..m];
      DropsStay(w, hops[..n], m);
      DatagramsSnoc(w, hops);
      ProcessCounted(w.Receiver(), After(w, hops[..n]), w.Image(hops[n].index), hops[n].at);
    }
  }

  // ------------------------------------------------- runs clean but for the work cap

  /** What an arrival of a clean run meets, its disclosed key aside. */
  predicate CleanButGap(w: World, hops: seq<Arrival>, n: nat)
    requires w.Valid() && n < |hops|
  {
    && OnTime(w, hops[n]) && AllSendable(w, hops[..n])
    && Recover(MaxIndex(Indexes(hops[..n])), SeqField(w.wire(hops[n].index))) == hops[n].index
    && Rx.Step(w.rx, Rx.Run(w.rx, Rx.Init, Packets(w, hops[..n])).0, w.wire(hops[n].index)).1.result.Ok?
    && (n > 0 ==> hops[n - 1].at <= hops[n].at)
  }

  predicate GapAt(w: World, hops: seq<Arrival>, n: nat)
    requires w.Valid() && n < |hops| && AllSendable(w, hops)
  {
    AllSendable(w, hops[..n]) && GapCovered(w, hops[..n], hops[n])
  }

  lemma PrefixClean(w: World, hops: seq<Arrival>, n: nat)
    requires w.Valid() && n <= |hops| && AllSendable(w, hops)
    requires forall k | 0 <= k < |hops| :: CleanButGap(w, hops, k)
    requires forall k | 0 <= k < n :: GapAt(w, hops, k)
    ensures CleanRun(w, hops[..n])
  {
    forall k | 0 <= k < n
      ensures CleanAt(w, hops[..n], k)
    {
      assert hops[..n][..k] == hops[..k];
      assert CleanButGap(w, hops, k) && GapAt(w, hops, k);
    }
  }

  /** The first disclosure beyond the cap is dropped. */
  lemma UncoveredDropped(w: World, hops: seq<Arrival>, n: nat)
    requires w.Valid() && n < |hops| && AllSendable(w, hops)
    requires forall k | 0 <= k < |hops| :: CleanButGap(w, hops, k)
    requires (forall k | 0 <= k < n :: GapAt(w, hops, k)) && !GapAt(w, hops, n)
    ensures After(w, hops).stats.Drops() > 0
  {
    assert CleanButGap(w, hops, n);
    PrefixClean(w, hops, n);
    UncoveredStep(w, hops[..n], hops[n]);
    assert hops[..n + 1] == hops[..n] + [hops[n]];
    DropsStay(w, hops, n + 1);
  }

  lemma TrustAtNewest(w: World, front: seq<Arrival>)
    requires w.Valid() && AllSendable(w, front) && CleanRun(w, front)
    ensures After(w, front).trust.index == MaxDisclosed(w, front) && TrustGenuine(w, After(w, front).trust)
  {
    assert front[..|front|] == front;
    CleanFollows(w, front, |front|);
  }

  lemma BeyondCapCounted(w: World, s: State, j: nat, atNs: nat)
    requires w.Valid() && w.Sendable(j) && TrustGenuine(w, s.trust) && BeyondCap(w, s.trust.index, j)
    ensures Process(w.Receiver(), s, w.Image(j), atNs).0.stats.Drops() == s.stats.Drops() + 1
  {
    BeyondCapDropped(w, s, j, atNs);
    ProcessCounted(w.Receiver(), s, w.Image(j), atNs);
  }

  lemma AfterNext(w: World, front: seq<Arrival>, a: Arrival)
    requires w.Valid() && AllSendable(w, front) && w.Sendable(a.index)
    ensures AllSendable(w, front + [a])
    ensures After(w, front + [a]) == Process(w.Receiver(), After(w, front), w.Image(a.index), a.at).0
  {
    assert (front + [a])[..|front|] == front;
    DatagramsSnoc(w, front + [a]);
  }

  lemma UncoveredStep(w: World, front: seq<Arrival>, a: Arrival)
    requires w.Valid() && AllSendable(w, front) && CleanRun(w, front) && w.Sendable(a.index) && !GapCovered(w, front, a)
    ensures AllSendable(w, front + [a]) && After(w, front + [a]).stats.Drops() > 0
  {
    TrustAtNewest(w, front);
    BeyondCapCounted(w, After(w, front), a.index, a.at);
    AfterNext(w, front, a);
  }

  lemma FirstUncovered(w: World, hops: seq<Arrival>, m: nat, x: nat) returns (n: nat)
    requires w.Valid() && AllSendable(w, hops) && m <= x < |hops|
    requires (forall k | 0 <= k < m :: GapAt(w, hops, k)) && !GapAt(w, hops, x)
    ensures n < |hops| && (forall k | 0 <= k < n :: GapAt(w, hops, k)) && !GapAt(w, hops, n)
    decreases x - m
  {
    if GapAt(w, hops, m) {
      n := FirstUncovered(w, hops, m + 1, x);
    } else {
      n := m;
    }
  }

  lemma CoveredAt(w: World, hops: seq<Arrival>, k: nat)
    requires w.Valid() && k < |hops| && GapsCovered(w, hops)
    ensures GapAt(w, hops, k)
  {
    assert AllSendable(w, hops[..k]) && GapCovered(w, hops[..k], hops[k]);
  }

  lemma CoveredAll(w: World, hops: seq<Arrival>)
    requires w.Valid() && AllSendable(w, hops) && forall k | 0 <= k < |hops| :: GapAt(w, hops, k)
    ensures GapsCovered(w, hops)
  {
    forall k | 0 <= k < |hops|
      ensures AllSendable(w, hops[..k]) && GapCovered(w, hops[..k], hops[k])
    {
      assert GapAt(w, hops, k);
    }
  }

  /** A run that is clean but for the work cap drops nothing if and only if the cap covers every gap. */
  lemma CleanIffCovered(w: World, hops: seq<Arrival>)
    requires w.Valid() && AllSendable(w, hops)
    requires forall k | 0 <= k < |hops| :: CleanButGap(w, hops, k)
    ensures After(w, hops).stats.Drops() == 0 <==> GapsCovered(w, hops)
    ensures GapsCovered(w, hops) ==> Authenticated(w, hops) && Handed(w, hops)
  {
    if forall k | 0 <= k < |hops| :: GapAt(w, hops, k) {
      CoveredAll(w, hops);
      PrefixClean(w, hops, |hops|);
      assert hops[..|hops|] == hops;
      CleanVerdicts(w, hops);
    } else {
      var x :| 0 <= x < |hops| && !GapAt(w, hops, x);
      var n := FirstUncovered(w, hops, 0, x);
      UncoveredDropped(w, hops, n);
      if GapsCovered(w, hops) {
        CoveredAt(w, hops, x);
      }
    }
  }

  lemma AdmitsHop(s: Stream, src: Source, schedule: seq<Arrival>, k: nat, seekCap: nat, n: nat)
    requires s.Valid() && k >= 1 && n < |schedule| && AdmitsNext(s, k, seekCap, Indexes(schedule), n)
    ensures var w, i := WorldOf(s, src, k, seekCap), schedule[n].index;
      && Recover(MaxIndex(Indexes(schedule[..n])), SeqField(w.wire(i))) == i
      && w.rx.Valid() && Rx.Step(w.rx, Rx.Run(w.rx, Rx.Init, Packets(w, schedule[..n])).0, w.wire(i)).1.result.Ok?
  {
    PacketsAreWires(s, src, k, seekCap, schedule, n);
    assert Indexes(schedule)[n] == schedule[n].index;
  }

  lemma BenchCleanButGap(s: Stream, src: Source, b: Bench, draws: seq<Draws>, schedule: seq<Arrival>, k: nat, seekCap: nat,
                         w: World, n: nat)
    requires s.Valid() && b.model == s.model && Delivery(b, draws, schedule) && n < |schedule| && k >= 1
    requires Provisioned(s, b, draws, schedule, k, seekCap) && PositionsFit(b, schedule)
    requires TeslaProvisioned(src, b, |draws|) && w == WorldOf(s, src, k, seekCap) && w.Valid() && AllSendable(w, schedule)
    ensures CleanButGap(w, schedule, n)
  {
    BenchAdmitted(s, b, draws, schedule, k, seekCap, n);
    AdmitsHop(s, src, schedule, k, seekCap, n);
    assert schedule[n] in schedule;
    BenchOnTime(s, src, b, draws, schedule, k, seekCap, schedule[n]);
    NextHop(w, schedule, n);
  }

  lemma NextHop(w: World, schedule: seq<Arrival>, n: nat)
    requires w.Valid() && AllSendable(w, schedule) && Ordered(schedule) && n < |schedule|
    ensures AllSendable(w, schedule[..n]) && (n > 0 ==> schedule[n - 1].at <= schedule[n].at)
  {
    if n > 0 {
      assert Before(schedule[n - 1], schedule[n]);
    }
  }

  lemma BenchSendable(s: Stream, src: Source, b: Bench, draws: seq<Draws>, schedule: seq<Arrival>,
                      k: nat, seekCap: nat, w: World)
    requires s.Valid() && b.model == s.model && Delivery(b, draws, schedule) && k >= 1
    requires TeslaProvisioned(src, b, |draws|) && w == WorldOf(s, src, k, seekCap)
    ensures w.Valid() && AllSendable(w, schedule)
  {
    forall n | 0 <= n < |schedule|
      ensures w.Valid() && w.Sendable(schedule[n].index)
    {
      assert schedule[n] in schedule;
      BenchOnTime(s, src, b, draws, schedule, k, seekCap, schedule[n]);
    }
  }

  /**
   * The whole stack, for every choice of losses and jitter: it drops nothing if and only if no run of
   * lost packets hides more keys than the work cap, and then every delivered packet is decrypted and
   * delivered, none is called forged, and exactly the labels above the newest disclosed key wait.
   */
  lemma StackDropsNothingIff(s: Stream, src: Source, b: Bench, draws: seq<Draws>, schedule: seq<Arrival>,
                             k: nat, seekCap: nat, w: World)
    requires s.Valid() && b.model == s.model && Delivery(b, draws, schedule) && k >= 1
    requires Provisioned(s, b, draws, schedule, k, seekCap) && PositionsFit(b, schedule)
    requires TeslaProvisioned(src, b, |draws|) && w == WorldOf(s, src, k, seekCap)
    ensures w.Valid() && AllSendable(w, schedule)
    ensures After(w, schedule).stats.Drops() == 0 <==> GapsCovered(w, schedule)
    ensures GapsCovered(w, schedule) ==> Authenticated(w, schedule) && Handed(w, schedule)
  {
    BenchSendable(s, src, b, draws, schedule, k, seekCap, w);
    forall n | 0 <= n < |schedule|
      ensures CleanButGap(w, schedule, n)
    {
      BenchCleanButGap(s, src, b, draws, schedule, k, seekCap, w, n);
    }
    CleanIffCovered(w, schedule);
  }

  /** Every datagram is delivered, and the caller is handed the plaintext of the packet it carries. */
  predicate HandsUp(s: Stream, w: World, schedule: seq<Arrival>)
    requires s.Valid() && w.Valid() && AllSendable(w, schedule)
  {
    var replies := Run(w.Receiver(), Datagrams(w, schedule)).1;
    |replies| == |schedule| &&
    forall k | 0 <= k < |replies| :: replies[k].result.Delivered? && replies[k].buf == s.model.PlainPacket(schedule[k].index)
  }

  lemma HandedPlain(s: Stream, src: Source, schedule: seq<Arrival>, k: nat, seekCap: nat, w: World)
    requires s.Valid() && k >= 1 && w == WorldOf(s, src, k, seekCap) && w.Valid() && AllSendable(w, schedule)
    requires Handed(w, schedule) && AllServed(s, Indexes(schedule), k, seekCap)
    ensures HandsUp(s, w, schedule)
  {
    PacketsAreWires(s, src, k, seekCap, schedule, |schedule|);
    assert schedule[..|schedule|] == schedule && Indexes(schedule)[..|schedule|] == Indexes(schedule);
    assert Rx.Run(w.rx, Rx.Init, Packets(w, schedule)).1 == Served(s, Indexes(schedule));
  }

  /**
   * The whole stack, for every choice of losses and jitter: each packet the network delivers is
   * decrypted and delivered with its own plaintext, none is called forged, and the ones left without a verdict are exactly
   * those of the intervals whose key no delivered packet discloses.
   */
  lemma StreamAuthenticatedEndToEnd(s: Stream, src: Source, b: Bench, draws: seq<Draws>, schedule: seq<Arrival>,
                                    k: nat, seekCap: nat, w: World)
    requires s.Valid() && b.model == s.model && Delivery(b, draws, schedule) && k >= 1
    requires Provisioned(s, b, draws, schedule, k, seekCap) && PositionsFit(b, schedule)
    requires TeslaProvisioned(src, b, |draws|)
    requires w == WorldOf(s, src, k, seekCap) && w.Valid() && GapsCovered(w, schedule)
    ensures AllSendable(w, schedule) && Authenticated(w, schedule) && HandsUp(s, w, schedule)
  {
    StackDropsNothingIff(s, src, b, draws, schedule, k, seekCap, w);
    DeliveredMeansDecrypted(s, b, draws, schedule, k, seekCap);
    HandedPlain(s, src, schedule, k, seekCap, w);
  }
}
