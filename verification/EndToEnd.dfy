/** The loss theorems applied to whole runs: undisturbed streams and the benchmark's network. */
module EndToEnd {
  import opened Arithmetic
  import opened Options
  import opened IndexRecovery
  import opened Generation
  import opened MediaStream
  import opened Network
  import opened Displacement
  import opened ReceiverSpec
  import opened KeyingLoss
  import opened ZeroLoss
  import ReceiverRuns
  import Rekeying

  // ------------------------------------------------- in-order delivery

  function InOrder(n: nat): (order: seq<nat>)
    ensures |order| == n
  {
    seq(n, i => i)
  }

  lemma {:induction false} InOrderNewest(n: nat)
    ensures MaxIndex(InOrder(n)) == if n == 0 then None else Some(n - 1)
  {
    if n > 0 {
      InOrderNewest(n - 1);
      assert InOrder(n)[..n - 1] == InOrder(n - 1);
    }
  }

  lemma InOrderWithin(s: Stream, n: nat)
    requires s.Valid() && forall i | 0 <= i < n :: TicksFit(s, i)
    ensures AllWithin(s, InOrder(n), 0, 1)
  {
    forall j | 0 <= j < n
      ensures Within(s, InOrder(n), 0, 1, j)
    {
      InOrderNewest(j);
      assert InOrder(n)[..j] == InOrder(j);
    }
  }

  lemma NoLateness(s: Stream)
    requires s.Valid()
    ensures GenerationLag(s, 0) == 0
  {
    if s.granularity.Frame? || s.granularity.EveryN? {
      DivCeilAtMost(0, if s.granularity.Frame? then s.model.ppf else s.granularity.n, 0);
    }
  }

  /** Limits that cover the disturbance lose nothing. */
  lemma CoveredLosesNothing(s: Stream, k: nat, seekCap: nat, order: seq<nat>, late: nat, ahead: nat)
    requires s.Valid() && k >= 1 && Covers(s, k, seekCap, late, ahead) && AllWithin(s, order, late, ahead)
    ensures Tracked(s, seekCap, order) && NoneBehind(s, k, order)
  {
    forall n | 0 <= n < |order|
      ensures !FallsBehindAt(s, k, order, n)
    {
      assert Within(s, order, late, ahead, n);
      WithinKept(s, k, order, late, ahead, n);
    }
    assert order[..|order|] == order;
    WithinTracked(s, seekCap, order, late, ahead, |order|);
  }

  /**
   * Undisturbed delivery: whatever the granularity and however small the window, the windowed
   * receiver decrypts everything and has, after every packet, the same generation installed as
   * the sender's incremental rule.
   */
  lemma InOrderEquivalence(s: Stream, k: nat, seekCap: nat, n: nat)
    requires s.Valid() && k >= 1 && seekCap >= 1 && AcceptsAll(s, InOrder(n))
    requires forall i | 0 <= i < n :: TicksFit(s, i)
    ensures ReceiverFor(s, k, seekCap).Valid()
    ensures var (st, replies) := Run(ReceiverFor(s, k, seekCap), Init, Wires(s, InOrder(n)));
      && replies == Served(s, InOrder(n)) && st.stats.Drops() == 0
      && (n > 0 ==> st.installed == Some(
            Rekeying.AfterPackets(s.granularity, START_TS, FRAME_PERIOD, s.model.ppf, n).installedGen))
  {
    InOrderWithin(s, n);
    NoLateness(s);
    CoveredLosesNothing(s, k, seekCap, InOrder(n), 0, 1);
    NothingIsLost(s, k, seekCap, InOrder(n));
    if n > 0 {
      assert InOrder(n)[n - 1] == n - 1;
      Rekeying.IncrementalRuleMatchesPosition(s.granularity, START_TS, FRAME_PERIOD, s.model.ppf, n - 1);
    }
  }

  // ------------------------------------------------- the disturbed network

  /** These draws make the network deliver this schedule. */
  ghost predicate Delivery(b: Bench, draws: seq<Draws>, schedule: seq<Arrival>)
    requires b.model.ppf >= 1
  {
    b.Net(draws).Valid() && Ordered(schedule) && Holds(b.Net(draws), |draws|, schedule)
  }

  function WorstAhead(schedule: seq<Arrival>): nat { Displaced(Indexes(schedule)).maxGap + 1 }

  /** Whatever the network does to the stream stays within the predicted lateness and the measured gap. */
  lemma DisturbedWithin(s: Stream, b: Bench, draws: seq<Draws>, schedule: seq<Arrival>)
    requires s.Valid() && b.model == s.model && Delivery(b, draws, schedule)
    requires forall i | 0 <= i < |draws| :: TicksFit(s, i)
    ensures AllWithin(s, Indexes(schedule), b.WorstLateness(), WorstAhead(schedule))
  {
    forall j | 0 <= j < |schedule|
      ensures Within(s, Indexes(schedule), b.WorstLateness(), WorstAhead(schedule), j)
    {
      LatenessBound(b, draws, schedule, j);
      MaximaBound(Indexes(schedule), j);
      assert schedule[j] in schedule;
    }
  }

  /** Exactly the packets K generations behind are lost, all others decrypted. */
  predicate FatesMet(s: Stream, order: seq<nat>, k: nat, seekCap: nat)
    requires s.Valid() && k >= 1
  {
    Run(ReceiverFor(s, k, seekCap), Init, Wires(s, order)).1 == Fates(s, k, order)
  }

  /** Every cross-check passes, and at packet level the loss is the number of arrivals K or more positions late. */
  predicate ExactStats(granularity: Granularity, order: seq<nat>, k: nat, st: State)
  {
    ChecksHold(granularity, order, st) && (granularity.Packet? ==> st.stats.dropsBehind == LateBy(order, k))
  }

  predicate LosesExactly(s: Stream, order: seq<nat>, k: nat, seekCap: nat)
    requires s.Valid() && k >= 1
  {
    ExactStats(s.granularity, order, k, Run(ReceiverFor(s, k, seekCap), Init, Wires(s, order)).0)
  }

  lemma TrackedLosesExactly(s: Stream, k: nat, seekCap: nat, order: seq<nat>)
    requires s.Valid() && k >= 1 && Tracked(s, seekCap, order) && AcceptsKept(s, k, order)
    ensures FatesMet(s, order, k, seekCap) && LosesExactly(s, order, k, seekCap)
  {
    ExactKeyingLoss(s, k, seekCap, order);
    TrackedRunPassesChecks(s, k, seekCap, order);
  }

  /** What the K sweep relies on: lateness and gap within seek cap and sequence space, and the session's consent. */
  predicate Sweepable(s: Stream, b: Bench, draws: seq<Draws>, schedule: seq<Arrival>, k: nat, seekCap: nat)
    requires s.Valid() && b.model == s.model
  {
    && Expressible(s, seekCap, b.WorstLateness(), WorstAhead(schedule))
    && AcceptsKept(s, k, Indexes(schedule))
    && forall i | 0 <= i < |draws| :: TicksFit(s, i)
  }

  lemma SweptTracked(s: Stream, b: Bench, draws: seq<Draws>, schedule: seq<Arrival>, k: nat, seekCap: nat)
    requires s.Valid() && b.model == s.model && Delivery(b, draws, schedule)
    requires Sweepable(s, b, draws, schedule, k, seekCap)
    ensures Tracked(s, seekCap, Indexes(schedule)) && AcceptsKept(s, k, Indexes(schedule))
  {
    var order := Indexes(schedule);
    DisturbedWithin(s, b, draws, schedule);
    WithinTracked(s, seekCap, order, b.WorstLateness(), WorstAhead(schedule), |order|);
    assert order[..|order|] == order;
  }

  /**
   * The K sweep: for every K, also one far too small, and every choice of losses and jitter the
   * receiver loses exactly the delivered packets that lie K generations behind.
   */
  lemma SweepLosesExactly(s: Stream, b: Bench, draws: seq<Draws>, schedule: seq<Arrival>, k: nat, seekCap: nat)
    requires s.Valid() && b.model == s.model && Delivery(b, draws, schedule) && k >= 1
    requires Sweepable(s, b, draws, schedule, k, seekCap)
    ensures FatesMet(s, Indexes(schedule), k, seekCap) && LosesExactly(s, Indexes(schedule), k, seekCap)
  {
    SweptTracked(s, b, draws, schedule, k, seekCap);
    TrackedLosesExactly(s, k, seekCap, Indexes(schedule));
  }

  /** What the benchmark may rely on for this stream, network and receiver. */
  predicate Provisioned(s: Stream, b: Bench, draws: seq<Draws>, schedule: seq<Arrival>, k: nat, seekCap: nat)
    requires s.Valid() && b.model == s.model
  {
    && Covers(s, k, seekCap, b.WorstLateness(), WorstAhead(schedule))
    && AcceptsAll(s, Indexes(schedule))
    && forall i | 0 <= i < |draws| :: TicksFit(s, i)
  }

  /** Every packet served under its own generation, with its own plaintext. */
  predicate AllServed(s: Stream, order: seq<nat>, k: nat, seekCap: nat)
    requires s.Valid() && k >= 1
  {
    Run(ReceiverFor(s, k, seekCap), Init, Wires(s, order)).1 == Served(s, order)
  }

  /** No drop, and the cross-checks pass. */
  predicate CleanStats(granularity: Granularity, order: seq<nat>, st: State)
  {
    st.stats.Drops() == 0 && st.stats.decrypted == |order| && ChecksHold(granularity, order, st)
  }

  predicate RunsClean(s: Stream, order: seq<nat>, k: nat, seekCap: nat)
    requires s.Valid() && k >= 1
  {
    CleanStats(s.granularity, order, Run(ReceiverFor(s, k, seekCap), Init, Wires(s, order)).0)
  }

  lemma CoveredRunsClean(s: Stream, order: seq<nat>, k: nat, seekCap: nat)
    requires s.Valid() && k >= 1 && Tracked(s, seekCap, order) && NoneBehind(s, k, order) && AcceptsAll(s, order)
    ensures AllServed(s, order, k, seekCap) && RunsClean(s, order, k, seekCap)
  {
    NothingIsLost(s, k, seekCap, order);
    ReceiverRuns.RunLedger(ReceiverFor(s, k, seekCap), Wires(s, order));
    CaughtChecks(s, k, seekCap, order, Run(ReceiverFor(s, k, seekCap), Init, Wires(s, order)).0);
  }

  lemma ProvisionedTracked(s: Stream, b: Bench, draws: seq<Draws>, schedule: seq<Arrival>, k: nat, seekCap: nat)
    requires s.Valid() && b.model == s.model && Delivery(b, draws, schedule) && k >= 1
    requires Provisioned(s, b, draws, schedule, k, seekCap)
    ensures Tracked(s, seekCap, Indexes(schedule)) && NoneBehind(s, k, Indexes(schedule))
    ensures AllWithin(s, Indexes(schedule), b.WorstLateness(), WorstAhead(schedule))
  {
    DisturbedWithin(s, b, draws, schedule);
    CoveredLosesNothing(s, k, seekCap, Indexes(schedule), b.WorstLateness(), WorstAhead(schedule));
  }

  /**
   * End to end: for every choice of losses and jitter, every packet the network delivers is
   * decrypted under its own generation, all drop counters stay zero, and nothing but what
   * was delivered is counted.
   */
  lemma DeliveredMeansDecrypted(s: Stream, b: Bench, draws: seq<Draws>, schedule: seq<Arrival>, k: nat, seekCap: nat)
    requires s.Valid() && b.model == s.model && Delivery(b, draws, schedule) && k >= 1
    requires Provisioned(s, b, draws, schedule, k, seekCap)
    ensures AllServed(s, Indexes(schedule), k, seekCap) && RunsClean(s, Indexes(schedule), k, seekCap)
  {
    ProvisionedTracked(s, b, draws, schedule, k, seekCap);
    CoveredRunsClean(s, Indexes(schedule), k, seekCap);
  }
}
