/** The sweep's key window (benches/realistic_receiver.rs, `sweep_cfg`): when it loses nothing and when it does. */
module WindowSizing {
  import opened Arithmetic
  import opened Options
  import opened IndexRecovery
  import opened Generation
  import opened MediaStream
  import opened Network
  import opened Displacement
  import opened KeyingLoss
  import opened ZeroLoss
  import opened Witness
  import opened EndToEnd
  import opened Overtaking
  import opened WideWindow

  const DEFAULT_WINDOW: nat := 512

  /** The sweep's K: scaled to the worst lateness at packet granularity, fixed otherwise. */
  function SweepKeyWindow(s: Stream, b: Bench): nat
    requires s.Valid() && b.model == s.model
  {
    if s.granularity.Packet? then Max(LatenessPositions(b.model.payloadSize, b.jitterNs, b.skewNs) + 1, DEFAULT_WINDOW)
    else DEFAULT_WINDOW
  }

  predicate FixedWindow(granularity: Granularity) { granularity.Frame? || granularity.EveryN? }

  /** At packet and epoch granularity no packet can be overtaken by as many generations as the window holds. */
  lemma ScaledWindowSuffices(s: Stream, b: Bench, n: nat, i: nat, j: nat)
    requires s.Valid() && b.model == s.model && !FixedWindow(s.granularity)
    ensures !Overtakes(s, b, n, SweepKeyWindow(s, b), i, j)
  {
    if Overtakes(s, b, n, SweepKeyWindow(s, b), i, j) {
      SendSpacingSum(s.model, i, j);
      assert Slack(b, i) <= b.skewNs + b.jitterNs;
      BelowDivCeil(j - i, MinGapNs(s.model.ppf), b.skewNs + b.jitterNs);
      assert false;
    }
  }

  lemma OvertakenOnlyFixed(s: Stream, b: Bench, n: nat)
    requires s.Valid() && b.model == s.model
    ensures CanBeOvertaken(s, b, n, SweepKeyWindow(s, b))
       <==> FixedWindow(s.granularity) && CanBeOvertaken(s, b, n, DEFAULT_WINDOW)
  {
    if !FixedWindow(s.granularity) && CanBeOvertaken(s, b, n, SweepKeyWindow(s, b)) {
      var i: nat, j: nat :| Overtakes(s, b, n, SweepKeyWindow(s, b), i, j);
      ScaledWindowSuffices(s, b, n, i, j);
    }
  }

  /**
   * On every network: the sweep's window is too small for some losses and jitter if and only if it was
   * left at 512 and a packet 512 generations later leaves before another's slowest copy arrives.
   */
  lemma SweepWindowExact(s: Stream, b: Bench, n: nat)
    requires s.Valid() && b.model == s.model
    ensures SomeFallsBehind(s, b, n, SweepKeyWindow(s, b))
       <==> FixedWindow(s.granularity) && CanBeOvertaken(s, b, n, DEFAULT_WINDOW)
  {
    FallsBehindIff(s, b, n, SweepKeyWindow(s, b));
    OvertakenOnlyFixed(s, b, n);
  }

  /** The same of what the receiver drops, for streams whose positions and ticks can always be told apart. */
  lemma SweepDropsIff(s: Stream, b: Bench, n: nat, seekCap: nat)
    requires s.Valid() && b.model == s.model && seekCap >= 2
    requires AlwaysLocated(s, n) && AcceptsSkips(s, n)
    ensures SomeRunDropsBehind(s, b, n, SweepKeyWindow(s, b), seekCap)
       <==> FixedWindow(s.granularity) && CanBeOvertaken(s, b, n, DEFAULT_WINDOW)
  {
    WindowDropsIff(s, b, n, SweepKeyWindow(s, b), seekCap);
    OvertakenOnlyFixed(s, b, n);
  }

  /** From 65 packets per key on, the window of 512 spans half the sequence space and drops nothing as behind. */
  lemma WideEveryNeverDrops(s: Stream, seekCap: nat, order: seq<nat>)
    requires s.Valid() && s.granularity.EveryN? && s.granularity.n >= 65
    ensures !DropsBehind(s, DEFAULT_WINDOW, seekCap, order)
  {
    WideWindowNeverDrops(ReceiverFor(s, DEFAULT_WINDOW, seekCap), Wires(s, order));
  }

  /**
   * The sweep as it is sized: at packet granularity, with the key window derived from the predicted
   * lateness and a seek cap above the worst gap, everything delivered is decrypted.
   */
  lemma SweepLosesNothing(s: Stream, b: Bench, draws: seq<Draws>, schedule: seq<Arrival>, seekCap: nat)
    requires s.Valid() && b.model == s.model && Delivery(b, draws, schedule) && s.granularity.Packet?
    requires LatenessPositions(b.model.payloadSize, b.jitterNs, b.skewNs) <= 32_768
    requires WorstAhead(schedule) <= Min(seekCap, 32_767)
    requires AcceptsAll(s, Indexes(schedule))
    ensures SweepKeyWindow(s, b) >= 1
    ensures AllServed(s, Indexes(schedule), SweepKeyWindow(s, b), seekCap)
    ensures RunsClean(s, Indexes(schedule), SweepKeyWindow(s, b), seekCap)
  {
    DeliveredMeansDecrypted(s, b, draws, schedule, SweepKeyWindow(s, b), seekCap);
  }

  // ------------------------------------------------- a frame-level run the window of 512 loses a packet of

  /** 1424-byte payloads over two paths nine seconds apart. */
  function SlowRescue(baseNs: nat): Bench
  {
    Bench(CheckedStream(1424, Frame).model, baseNs, 0, 9_000_000_000, Independent, false)
  }

  lemma SkippingDistinct(i: nat, j: nat)
    ensures Distinct(Skipping(i, j))
  {
  }

  lemma SlowRescueNumbers(baseNs: nat)
    ensures var s := CheckedStream(1424, Frame);
      && s.model.ppf == 3640
      && Overtakes(s, SlowRescue(baseNs), 512 * 3640 + 1, DEFAULT_WINDOW, 3639, 512 * 3640)
  {
    assert PacketsPerFrame(1424) == 3640;
  }

  /**
   * The last packet of the first frame is lost on the first path and rescued by the second after
   * packet 512 * 3640, the first of frame 512: its key is gone, although the default window is
   * said to suffice at frame granularity.
   */
  lemma FrameWindowFails(baseNs: nat, seekCap: nat)
    requires seekCap >= 2
    ensures var s, b, n := CheckedStream(1424, Frame), SlowRescue(baseNs), 512 * 3640 + 1;
      && Delivery(b, OvertakenDraws(b, n, 3639), OvertakenSchedule(b, n, 3639, n - 1))
      && SweepKeyWindow(s, b) == DEFAULT_WINDOW
      && LosesLast(s, DEFAULT_WINDOW, seekCap, Indexes(OvertakenSchedule(b, n, 3639, n - 1)))
  {
    var s, b, n := CheckedStream(1424, Frame), SlowRescue(baseNs), 512 * 3640 + 1;
    SlowRescueNumbers(baseNs);
    OvertakenDelivery(b, n, 3639, n - 1);
    OvertakenLast(3639, n - 1);
    SkippingDistinct(3639, n - 1);
    AssumptionCanBeMet(s, Skipping(3639, n - 1));
    OvertakenDropped(s, DEFAULT_WINDOW, seekCap, 3639, n - 1);
  }

  // ------------------------------------------------- the hypotheses can be met

  lemma SkipsAccepted(s: Stream, n: nat)
    requires Checked(s) && n <= U64
    ensures AcceptsSkips(s, n)
  {
    forall i: nat, j: nat | i < j < n
      ensures AcceptsAll(s, Skipping(i, j))
    {
      SkippingDistinct(i, j);
      AssumptionCanBeMet(s, Skipping(i, j));
    }
  }

  /** Two paths five microseconds apart, packets of 1424 bytes: packet 1 overtakes packet 0. */
  function ShortSkew(): Bench
  {
    Bench(CheckedStream(1424, Packet).model, 0, 0, 5_000, Independent, false)
  }

  function SwappedSchedule(): seq<Arrival> { OvertakenSchedule(ShortSkew(), 2, 0, 1) }

  lemma SwappedNumbers()
    ensures var s, b := CheckedStream(1424, Packet), ShortSkew();
      && s.model.ppf == 3640 && s.model.SendNs(0) == 0 && s.model.SendNs(1) == 4578
      && LatenessPositions(1424, 0, 5_000) == 2 && b.WorstLateness() == 1
  {
    assert PacketsPerFrame(1424) == 3640;
  }

  lemma SwappedOrder()
    ensures Indexes(SwappedSchedule()) == [1, 0] && WorstAhead(SwappedSchedule()) == 2
  {
    OvertakenIndexes(ShortSkew(), 2, 0, 1);
    OvertakenLast(0, 1);
    assert Skipping(0, 1) == [1];
    assert [1, 0][..1] == [1] && [1][..0] == [];
    assert Displaced([1]) == DisplacementStats(0, 0, 1, 1);
    assert Displaced([1, 0]).maxGap == 1;
  }

  /** A reordered run that meets every hypothesis of the end-to-end theorem. */
  lemma ProvisionedInstance()
    ensures var s, b, draws := CheckedStream(1424, Packet), ShortSkew(), OvertakenDraws(ShortSkew(), 2, 0);
      && Delivery(b, draws, SwappedSchedule()) && Provisioned(s, b, draws, SwappedSchedule(), 2, 2)
      && AllServed(s, [1, 0], 2, 2)
  {
    var s, b := CheckedStream(1424, Packet), ShortSkew();
    SwappedNumbers();
    SwappedOrder();
    OvertakenDelivery(b, 2, 0, 1);
    AssumptionCanBeMet(s, [1, 0]);
    DeliveredMeansDecrypted(s, b, OvertakenDraws(ShortSkew(), 2, 0), SwappedSchedule(), 2, 2);
  }

  lemma SwappedKept(s: Stream)
    requires Checked(s) && s.granularity.Packet?
    ensures AcceptsKept(s, 1, [1, 0]) && LateBy([1, 0], 1) == 1
  {
    CheckedAccepts(s, [], 1);
    KeptPair(s);
  }

  lemma KeptPair(s: Stream)
    requires s.Valid() && s.granularity.Packet? && AcceptsNext(s, [], 1)
    ensures AcceptsKept(s, 1, [1, 0]) && LateBy([1, 0], 1) == 1
  {
    assert [1][..0] == [] && [1, 0][..1] == [1];
    assert MaxIndex([1]) == Some(1);
    assert Survivors(s, 1, []) == [] && AcceptsKept(s, 1, [1]);
    assert FallsBehind(s, 1, [1], 0);
    assert LateBy([1], 1) == 0;
  }

  /** The same run meets the hypotheses of the exact loss with a window that is too small, and loses packet 0. */
  lemma LossInstance()
    ensures var s, b, draws := CheckedStream(1424, Packet), ShortSkew(), OvertakenDraws(ShortSkew(), 2, 0);
      && Delivery(b, draws, SwappedSchedule()) && Sweepable(s, b, draws, SwappedSchedule(), 1, 2)
      && LateBy([1, 0], 1) == 1 && FatesMet(s, [1, 0], 1, 2)
  {
    ProvisionedInstance();
    SwappedNumbers();
    SwappedOrder();
    SwappedKept(CheckedStream(1424, Packet));
    SweepLosesExactly(CheckedStream(1424, Packet), ShortSkew(), OvertakenDraws(ShortSkew(), 2, 0), SwappedSchedule(), 1, 2);
  }
}
