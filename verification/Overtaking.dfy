/**
 * When a packet can fall K generations behind: the exact condition on skew and jitter, the run
 * that meets it, and what the receiver makes of that run.
 */
module Overtaking {
  import opened Arithmetic
  import opened Options
  import opened ByteStrings
  import opened IndexRecovery
  import opened Generation
  import opened MediaStream
  import opened Network
  import opened Displacement
  import opened ReceiverSpec
  import opened ReceiverRuns
  import opened KeyingLoss
  import opened ZeroLoss
  import opened EndToEnd

  // ------------------------------------------------- how late a packet can be

  /** Whether packet i can be lost on the first path and still arrive on the second. */
  predicate Rescuable(b: Bench, i: nat)
  {
    !b.singlePath && (b.loss.Independent? || (b.loss.GilbertElliott? && i > 0))
  }

  /** The most its transit can exceed the base delay. */
  function Slack(b: Bench, i: nat): nat { if Rescuable(b, i) then b.skewNs + b.jitterNs else b.jitterNs }

  lemma TransitSlack(b: Bench, draws: seq<Draws>, schedule: seq<Arrival>, e: Arrival)
    requires b.model.ppf >= 1 && b.Net(draws).Valid() && Holds(b.Net(draws), |draws|, schedule) && e in schedule
    ensures b.model.SendNs(e.index) + b.baseNs <= e.at <= b.model.SendNs(e.index) + b.baseNs + Slack(b, e.index)
  {
    BenchTransit(b, draws, schedule);
    var net := b.Net(draws);
    assert e.index < |draws| && net.Delivered(e.index) == Some(e.at);
    if !Rescuable(b, e.index) {
      FirstCopySurvives(b, draws, e.index);
    }
  }

  /** Without a second path the only copy arrived; otherwise the first is never lost. */
  lemma FirstCopySurvives(b: Bench, draws: seq<Draws>, i: nat)
    requires b.model.ppf >= 1 && b.Net(draws).Valid() && i < |draws| && !Rescuable(b, i) && b.Net(draws).Delivered(i).Some?
    ensures b.Net(draws).Delivered(i).value <= b.model.SendNs(i) + b.baseNs + b.jitterNs
  {
    var net := b.Net(draws);
    assert net.DrawsA()[i] == draws[i].a;
    if !b.singlePath {
      assert i == 0 ==> net.DrawsA()[..i] == [];
      assert net.CopyA(i).Some?;
    }
  }

  /** Packet j leaves before the slowest copy of packet i arrives, and belongs K generations later. */
  predicate Overtakes(s: Stream, b: Bench, n: nat, k: nat, i: nat, j: nat)
    requires s.Valid()
  {
    i < j < n && Gen(s, i) + k <= Gen(s, j) && s.model.SendNs(j) < s.model.SendNs(i) + Slack(b, i)
  }

  ghost predicate CanBeOvertaken(s: Stream, b: Bench, n: nat, k: nat)
    requires s.Valid()
  {
    exists i: nat, j: nat :: Overtakes(s, b, n, k, i, j)
  }

  /** An arrival that lies K generations behind an earlier one was overtaken by it. */
  lemma BehindMeansOvertaken(s: Stream, b: Bench, draws: seq<Draws>, schedule: seq<Arrival>, k: nat, u: nat, t: nat)
    requires s.Valid() && b.model == s.model && Delivery(b, draws, schedule) && k >= 1
    requires u < t < |schedule| && Gen(s, schedule[t].index) + k <= Gen(s, schedule[u].index)
    ensures Overtakes(s, b, |draws|, k, schedule[t].index, schedule[u].index)
  {
    var i, j := schedule[t].index, schedule[u].index;
    if j <= i {
      GenerationOrder(s.granularity, s.model.ppf, j, i);
      assert false;
    }
    assert Before(schedule[u], schedule[t]);
    TransitSlack(b, draws, schedule, schedule[u]);
    TransitSlack(b, draws, schedule, schedule[t]);
  }

  lemma FallsBehindWitness(s: Stream, k: nat, order: seq<nat>, t: nat) returns (u: nat)
    requires s.Valid() && k >= 1 && t < |order| && FallsBehindAt(s, k, order, t)
    ensures u < t && Gen(s, order[t]) + k <= Gen(s, order[u])
  {
    var m := MaxIndex(order[..t]).value;
    assert m in order[..t];
    u :| 0 <= u < t && order[u] == m;
  }

  // ------------------------------------------------- the run in which it happens

  /** The packets 0 to j in order, without packet i. */
  function Skipping(i: nat, j: nat): (order: seq<nat>)
    ensures |order| == j
  {
    seq(j, p => if p < i then p else p + 1)
  }

  /** The t-th arrival when packet i comes right after packet j and everything else in order. */
  function Turn(i: nat, j: nat, t: nat): nat
  {
    if t < i || t > j then t else if t == j then i else t + 1
  }

  function OvertakenOrder(n: nat, i: nat, j: nat): (order: seq<nat>)
    ensures |order| == n
  {
    seq(n, t requires 0 <= t < n => Turn(i, j, t))
  }

  /** The coin that loses packet i, and it alone, on the first path. */
  function LosingCoin(b: Bench, i: nat, p: nat): bool
  {
    Rescuable(b, i) && (p == i || (b.loss.GilbertElliott? && p + 1 == i))
  }

  /** Packet i is as slow as it can be, everything else arrives at once. */
  function OvertakenDraw(b: Bench, i: nat, p: nat): Draws
  {
    Draws(Draw(LosingCoin(b, i, p), if p == i then b.jitterNs else 0), Draw(false, if p == i then b.jitterNs else 0))
  }

  function OvertakenDraws(b: Bench, n: nat, i: nat): (draws: seq<Draws>)
    ensures |draws| == n
  {
    seq(n, p requires 0 <= p < n => OvertakenDraw(b, i, p))
  }

  function OvertakenArrival(b: Bench, i: nat, p: nat): Arrival
    requires b.model.ppf >= 1
  {
    Arrival(b.model.SendNs(p) + b.baseNs + if p == i then Slack(b, i) else 0, p)
  }

  function OvertakenSchedule(b: Bench, n: nat, i: nat, j: nat): (schedule: seq<Arrival>)
    requires b.model.ppf >= 1
    ensures |schedule| == n
  {
    seq(n, t requires 0 <= t < n => OvertakenArrival(b, i, Turn(i, j, t)))
  }

  lemma {:induction false} FirstPathState(b: Bench, n: nat, i: nat, p: nat)
    requires b.model.ppf >= 1 && p <= n
    ensures var a := b.Net(OvertakenDraws(b, n, i)).DrawsA(); 
      BadBefore(b.loss, a[..p]) == (Rescuable(b, i) && b.loss.GilbertElliott? && p == i)
  {
    var a := b.Net(OvertakenDraws(b, n, i)).DrawsA();
    if p > 0 {
      FirstPathState(b, n, i, p - 1);
      assert a[..p][..p - 1] == a[..p - 1];
      assert a[p - 1] == OvertakenDraw(b, i, p - 1).a;
    }
  }

  lemma {:induction false} SecondPathState(b: Bench, n: nat, i: nat, p: nat)
    requires b.model.ppf >= 1 && p <= n
    ensures var d := b.Net(OvertakenDraws(b, n, i)).DrawsB(); !BadBefore(b.loss, d[..p])
  {
    var d := b.Net(OvertakenDraws(b, n, i)).DrawsB();
    if p > 0 {
      SecondPathState(b, n, i, p - 1);
      assert d[..p][..p - 1] == d[..p - 1];
      assert d[p - 1] == OvertakenDraw(b, i, p - 1).b;
    }
  }

  lemma OvertakenCopies(b: Bench, n: nat, i: nat, p: nat)
    requires b.model.ppf >= 1 && p < n
    ensures b.Net(OvertakenDraws(b, n, i)).Delivered(p) == Some(OvertakenArrival(b, i, p).at)
  {
    var net := b.Net(OvertakenDraws(b, n, i));
    FirstPathState(b, n, i, p);
    SecondPathState(b, n, i, p);
    assert net.DrawsA()[p] == OvertakenDraw(b, i, p).a;
    assert net.DrawsB()[p] == OvertakenDraw(b, i, p).b;
  }

  lemma OvertakenHolds(b: Bench, n: nat, i: nat, j: nat)
    requires b.model.ppf >= 1 && i < j < n
    ensures Holds(b.Net(OvertakenDraws(b, n, i)), n, OvertakenSchedule(b, n, i, j))
  {
    var net, schedule := b.Net(OvertakenDraws(b, n, i)), OvertakenSchedule(b, n, i, j);
    forall e: Arrival
      ensures e in schedule <==> e.index < n && net.Delivered(e.index) == Some(e.at)
    {
      ScheduledOnce(b, n, i, j, e);
      if e.index < n {
        OvertakenCopies(b, n, i, e.index);
      }
    }
  }

  lemma ScheduledOnce(b: Bench, n: nat, i: nat, j: nat, e: Arrival)
    requires b.model.ppf >= 1 && i < j < n
    ensures e in OvertakenSchedule(b, n, i, j) <==> e.index < n && e == OvertakenArrival(b, i, e.index)
  {
    var schedule, p := OvertakenSchedule(b, n, i, j), e.index;
    if p < n {
      var t := if p < i || p > j then p else if p == i then j else p - 1;
      assert schedule[t] == OvertakenArrival(b, i, p);
    }
  }

  /** Packet j is the last to leave before the slowest copy of packet i arrives. */
  predicate LastBefore(b: Bench, n: nat, i: nat, j: nat)
    requires b.model.ppf >= 1
  {
    var deadline := b.model.SendNs(i) + Slack(b, i);
    b.model.SendNs(j) < deadline && (j + 1 < n ==> deadline <= b.model.SendNs(j + 1))
  }

  lemma OvertakenOrdered(b: Bench, n: nat, i: nat, j: nat)
    requires b.model.Valid() && i < j < n && LastBefore(b, n, i, j)
    ensures Ordered(OvertakenSchedule(b, n, i, j))
  {
    var schedule := OvertakenSchedule(b, n, i, j);
    forall u, t | 0 <= u < t < n
      ensures Before(schedule[u], schedule[t])
    {
      var p, q := Turn(i, j, u), Turn(i, j, t);
      if q == i {
        SendsLater(b.model, p, j);
      } else if p == i {
        SendsLater(b.model, j + 1, q);
      } else {
        SendsLater(b.model, p, q);
      }
    }
  }

  lemma SendsLater(m: StreamModel, p: nat, q: nat)
    requires m.Valid() && p <= q
    ensures m.SendNs(p) <= m.SendNs(q) && (p < q ==> m.SendNs(p) < m.SendNs(q))
  {
    SendSpacingSum(m, p, q);
    MulMono(0, q - p, MinGapNs(m.ppf));
    if p < q {
      MulMono(1, q - p, MinGapNs(m.ppf));
    }
  }

  lemma OvertakenIndexes(b: Bench, n: nat, i: nat, j: nat)
    requires b.model.ppf >= 1 && i < j < n
    ensures Indexes(OvertakenSchedule(b, n, i, j)) == OvertakenOrder(n, i, j)
    ensures OvertakenOrder(n, i, j)[..j] == Skipping(i, j) && OvertakenOrder(n, i, j)[j] == i
    ensures OvertakenOrder(n, i, j)[..j + 1] == Skipping(i, j) + [i]
  {
  }

  lemma OvertakenLast(i: nat, j: nat)
    requires i < j
    ensures OvertakenOrder(j + 1, i, j) == Skipping(i, j) + [i]
  {
  }

  /** On every network: the choices under which the stream arrives in order but for packet i, right after packet j. */
  lemma OvertakenDelivery(b: Bench, n: nat, i: nat, j: nat)
    requires b.model.Valid() && i < j < n && LastBefore(b, n, i, j)
    ensures Delivery(b, OvertakenDraws(b, n, i), OvertakenSchedule(b, n, i, j))
    ensures Indexes(OvertakenSchedule(b, n, i, j)) == OvertakenOrder(n, i, j)
  {
    OvertakenHolds(b, n, i, j);
    OvertakenOrdered(b, n, i, j);
    OvertakenIndexes(b, n, i, j);
  }

  lemma LastOvertaker(b: Bench, n: nat, i: nat, j: nat) returns (last: nat)
    requires b.model.Valid() && j < n && b.model.SendNs(j) < b.model.SendNs(i) + Slack(b, i)
    ensures j <= last < n && LastBefore(b, n, i, last)
    decreases n - j
  {
    if j + 1 < n && b.model.SendNs(j + 1) < b.model.SendNs(i) + Slack(b, i) {
      last := LastOvertaker(b, n, i, j + 1);
    } else {
      last := j;
    }
  }

  lemma {:induction false} SkippingNewest(i: nat, j: nat, p: nat)
    requires p <= j
    ensures MaxIndex(Skipping(i, j)[..p]) == if p == 0 then None else Some(Skipping(i, j)[p - 1])
  {
    if p > 0 {
      SkippingNewest(i, j, p - 1);
      assert Skipping(i, j)[..p][..p - 1] == Skipping(i, j)[..p - 1];
    }
  }

  lemma OvertakenNewest(i: nat, j: nat)
    requires i < j
    ensures MaxIndex(Skipping(i, j)) == Some(j)
    ensures (Skipping(i, j) + [i])[..j] == Skipping(i, j)
  {
    SkippingNewest(i, j, j);
    assert Skipping(i, j)[..j] == Skipping(i, j);
  }

  // ------------------------------------------------- exactly when some packet falls behind

  ghost predicate SomeFallsBehind(s: Stream, b: Bench, n: nat, k: nat)
    requires s.Valid() && b.model == s.model
  {
    exists draws: seq<Draws>, schedule: seq<Arrival>, t: nat ::
      Delivery(b, draws, schedule) && |draws| == n && t < |schedule| && FallsBehindAt(s, k, Indexes(schedule), t)
  }

  lemma OvertakenFallsBehind(s: Stream, b: Bench, n: nat, k: nat, i: nat, j: nat, last: nat)
    requires s.Valid() && b.model == s.model && k >= 1 && Overtakes(s, b, n, k, i, j)
    requires j <= last < n && LastBefore(b, n, i, last)
    ensures Gen(s, i) + k <= Gen(s, last)
    ensures FallsBehindAt(s, k, Indexes(OvertakenSchedule(b, n, i, last)), last)
  {
    GenerationOrder(s.granularity, s.model.ppf, j, last);
    OvertakenIndexes(b, n, i, last);
    OvertakenNewest(i, last);
  }

  /**
   * On every network, with or without loss, over one path or two: some choices make a delivered
   * packet fall K generations behind if and only if a packet K generations later leaves before its
   * slowest copy arrives.
   */
  lemma FallsBehindIff(s: Stream, b: Bench, n: nat, k: nat)
    requires s.Valid() && b.model == s.model && k >= 1
    ensures SomeFallsBehind(s, b, n, k) <==> CanBeOvertaken(s, b, n, k)
  {
    if SomeFallsBehind(s, b, n, k) {
      var draws: seq<Draws>, schedule: seq<Arrival>, t: nat :|
        Delivery(b, draws, schedule) && |draws| == n && t < |schedule| && FallsBehindAt(s, k, Indexes(schedule), t);
      var u := FallsBehindWitness(s, k, Indexes(schedule), t);
      BehindMeansOvertaken(s, b, draws, schedule, k, u, t);
    }
    if CanBeOvertaken(s, b, n, k) {
      var i: nat, j: nat :| Overtakes(s, b, n, k, i, j);
      var last := LastOvertaker(b, n, i, j);
      OvertakenDelivery(b, n, i, last);
      OvertakenFallsBehind(s, b, n, k, i, j, last);
    }
  }

  // ------------------------------------------------- what the receiver makes of it

  /** Positions and ticks that can be told apart whatever the reference is. */
  predicate AlwaysLocated(s: Stream, n: nat)
    requires s.Valid()
  {
    (Indexed(s.granularity) ==> n <= 32_768) && forall i | 0 <= i < n :: TicksFit(s, i)
  }

  predicate Below(order: seq<nat>, n: nat)
  {
    forall p | 0 <= p < |order| :: order[p] < n
  }

  predicate PairAt(s: Stream, k: nat, order: seq<nat>, u: nat, t: nat)
    requires s.Valid()
  {
    u < t < |order| && Gen(s, order[t]) + k <= Gen(s, order[u])
  }

  ghost predicate HasPair(s: Stream, k: nat, order: seq<nat>)
    requires s.Valid()
  {
    exists u: nat, t: nat :: PairAt(s, k, order, u, t)
  }

  predicate GenAt(s: Stream, order: seq<nat>, u: nat, g: nat)
    requires s.Valid()
  {
    u < |order| && Gen(s, order[u]) == g
  }

  /** Frontier and reference belong to packets that arrived, and a drop has its overtaker. */
  ghost predicate Explained(s: Stream, k: nat, order: seq<nat>, st: State)
    requires s.Valid()
  {
    && (st.frontier.Some? ==> exists u: nat :: GenAt(s, order, u, st.frontier.value))
    && (Indexed(s.granularity) && st.highest.Some? ==> st.highest.value in order)
    && (st.stats.dropsBehind > 0 ==> HasPair(s, k, order))
  }

  lemma LocatedAnyway(s: Stream, n: nat, highest: Option<nat>, i: nat)
    requires s.Valid() && AlwaysLocated(s, n) && i < n
    requires Indexed(s.granularity) && highest.Some? ==> highest.value < n
    ensures Locatable(s, highest, i)
  {
  }

  lemma ExplainedStep(s: Stream, k: nat, seekCap: nat, n: nat, before: seq<nat>, i: nat, st: State)
    requires s.Valid() && k >= 1 && AlwaysLocated(s, n) && i < n && Below(before, n)
    requires Explained(s, k, before, st)
    ensures ReceiverFor(s, k, seekCap).Valid()
    ensures Explained(s, k, before + [i], Step(ReceiverFor(s, k, seekCap), st, s.Wire(i)).0)
  {
    var c := ReceiverFor(s, k, seekCap);
    WireHeader(s, i);
    LocatedAnyway(s, n, st.highest, i);
    LocatedRight(s, st.highest, i);
    StepVerdicts(c, st, s.Wire(i), Gen(s, i), if Indexed(s.granularity) then Some(i) else None);
    StepFrontier(c, st, s.Wire(i));
    StepCounts(c, st, s.Wire(i));
    ExplainedNext(s, k, before, i, st, Step(c, st, s.Wire(i)).0, Step(c, st, s.Wire(i)).1.result);
  }

  lemma ExplainedNext(s: Stream, k: nat, before: seq<nat>, i: nat, st: State, st': State, result: Result)
    requires s.Valid() && k >= 1 && Explained(s, k, before, st)
    requires result.Ok? ==> result.generation == Gen(s, i)
    requires result == Err(BehindWindow) ==> Gen(s, i) + k < Derived(st.frontier)
    requires CountedOnce(st.stats, st'.stats, result)
    requires st'.frontier ==
      if result.Ok? && result.generation >= Derived(st.frontier) then Some(result.generation) else st.frontier
    requires Indexed(s.granularity) ==>
      st'.highest == st.highest || st'.highest == Some(MaxWith(st.highest, i))
    ensures Explained(s, k, before + [i], st')
  {
    var order := before + [i];
    assert GenAt(s, order, |before|, Gen(s, i));
    if st.frontier.Some? {
      var u: nat :| GenAt(s, before, u, st.frontier.value);
      assert GenAt(s, order, u, st.frontier.value);
      if result == Err(BehindWindow) {
        assert PairAt(s, k, order, u, |before|);
      }
    }
    if HasPair(s, k, before) {
      var u: nat, t: nat :| PairAt(s, k, before, u, t);
      assert PairAt(s, k, order, u, t);
    }
  }

  /** Whatever the session decides, a drop as behind the window has a packet K generations newer before it. */
  lemma {:induction false} DropHasOvertaker(s: Stream, k: nat, seekCap: nat, n: nat, order: seq<nat>)
    requires s.Valid() && k >= 1 && AlwaysLocated(s, n) && Below(order, n)
    ensures ReceiverFor(s, k, seekCap).Valid()
    ensures Explained(s, k, order, Run(ReceiverFor(s, k, seekCap), Init, Wires(s, order)).0)
  {
    var c := ReceiverFor(s, k, seekCap);
    if order == [] {
      assert Run(c, Init, Wires(s, order)).0 == Init;
    } else {
      var front, i := order[..|order| - 1], order[|order| - 1];
      assert order == front + [i];
      DropHasOvertaker(s, k, seekCap, n, front);
      ExplainedStep(s, k, seekCap, n, front, i, Run(c, Init, Wires(s, front)).0);
      RunStep(s, c, order);
    }
  }

  /** The stream in order but for packet i can be followed with a seek cap of two, and none of it is behind. */
  lemma SkippingTracked(s: Stream, k: nat, seekCap: nat, i: nat, j: nat)
    requires s.Valid() && k >= 1 && seekCap >= 2 && i < j && forall p | 0 <= p <= j :: TicksFit(s, p)
    ensures Tracked(s, seekCap, Skipping(i, j)) && NoneBehind(s, k, Skipping(i, j))
  {
    var order := Skipping(i, j);
    forall p | 0 <= p < j
      ensures Within(s, order, 0, 2, p)
    {
      SkippingNewest(i, j, p);
    }
    NoLateness(s);
    CoveredLosesNothing(s, k, seekCap, order, 0, 2);
  }

  lemma OvertakenTracked(s: Stream, k: nat, seekCap: nat, i: nat, j: nat)
    requires s.Valid() && k >= 1 && seekCap >= 2 && i < j && forall p | 0 <= p <= j :: TicksFit(s, p)
    requires Locatable(s, Some(j), i) && Gen(s, i) + k <= Gen(s, j) && AcceptsAll(s, Skipping(i, j))
    ensures var order := Skipping(i, j) + [i];
      Tracked(s, seekCap, order) && AcceptsKept(s, k, order) && |Survivors(s, k, order)| == j
    ensures FallsBehind(s, k, Skipping(i, j), i)
  {
    SkippingTracked(s, k, seekCap, i, j);
    OvertakenNewest(i, j);
    AllSurvive(s, k, Skipping(i, j), j);
    AcceptsAllKept(s, k, Skipping(i, j), j);
    assert Skipping(i, j)[..j] == Skipping(i, j);
  }

  predicate LosesLast(s: Stream, k: nat, seekCap: nat, order: seq<nat>)
    requires s.Valid() && k >= 1 && order != []
  {
    var r := Run(ReceiverFor(s, k, seekCap), Init, Wires(s, order));
    r.0.stats.dropsBehind == 1 && r.1[|order| - 1].result == Err(BehindWindow)
  }

  /** The overtaken packet is dropped as behind the window, and it alone. */
  lemma OvertakenDropped(s: Stream, k: nat, seekCap: nat, i: nat, j: nat)
    requires s.Valid() && k >= 1 && seekCap >= 2 && i < j && forall p | 0 <= p <= j :: TicksFit(s, p)
    requires Locatable(s, Some(j), i) && Gen(s, i) + k <= Gen(s, j) && AcceptsAll(s, Skipping(i, j))
    ensures LosesLast(s, k, seekCap, Skipping(i, j) + [i])
  {
    var order := Skipping(i, j) + [i];
    OvertakenTracked(s, k, seekCap, i, j);
    ExactKeyingLoss(s, k, seekCap, order);
    assert order[..j] == Skipping(i, j);
    assert Fates(s, k, order)[j] == Fate(s, k, order[..j], order[j]);
  }

  predicate DropsBehind(s: Stream, k: nat, seekCap: nat, order: seq<nat>)
    requires s.Valid() && k >= 1
  {
    Run(ReceiverFor(s, k, seekCap), Init, Wires(s, order)).0.stats.dropsBehind > 0
  }

  ghost predicate SomeRunDropsBehind(s: Stream, b: Bench, n: nat, k: nat, seekCap: nat)
    requires s.Valid() && b.model == s.model && k >= 1
  {
    exists draws: seq<Draws>, schedule: seq<Arrival> ::
      Delivery(b, draws, schedule) && |draws| == n && DropsBehind(s, k, seekCap, Indexes(schedule))
  }

  /** The session takes the stream in order with any one packet missing. */
  ghost predicate AcceptsSkips(s: Stream, n: nat)
    requires s.Valid()
  {
    forall i: nat, j: nat | i < j < n :: AcceptsAll(s, Skipping(i, j))
  }

  lemma DropMeansOvertaken(s: Stream, b: Bench, draws: seq<Draws>, schedule: seq<Arrival>, k: nat, seekCap: nat)
    requires s.Valid() && b.model == s.model && Delivery(b, draws, schedule) && k >= 1
    requires AlwaysLocated(s, |draws|) && DropsBehind(s, k, seekCap, Indexes(schedule))
    ensures CanBeOvertaken(s, b, |draws|, k)
  {
    var order := Indexes(schedule);
    ScheduleDistinct(b.Net(draws), schedule);
    assert forall p | 0 <= p < |order| :: order[p] in order;
    DropHasOvertaker(s, k, seekCap, |draws|, order);
    var u: nat, t: nat :| PairAt(s, k, order, u, t);
    BehindMeansOvertaken(s, b, draws, schedule, k, u, t);
  }

  /** A drop is never taken back. */
  lemma {:induction false} DropsStay(s: Stream, k: nat, seekCap: nat, order: seq<nat>, m: nat)
    requires s.Valid() && k >= 1 && m <= |order| && DropsBehind(s, k, seekCap, order[..m])
    ensures DropsBehind(s, k, seekCap, order)
    decreases |order|
  {
    if m == |order| {
      assert order[..m] == order;
    } else {
      var c, n := ReceiverFor(s, k, seekCap), |order| - 1;
      assert order[..n][..m] == order[..m];
      DropsStay(s, k, seekCap, order[..n], m);
      StepKeepsDrops(c, Run(c, Init, Wires(s, order[..n])).0, s.Wire(order[n]));
      RunStep(s, c, order);
    }
  }

  lemma StepKeepsDrops(c: Config, st: State, buf: Bytes)
    requires c.Valid()
    ensures Step(c, st, buf).0.stats.dropsBehind >= st.stats.dropsBehind
  {
    StepCounts(c, st, buf);
  }

  lemma OvertakenRunDrops(s: Stream, b: Bench, n: nat, k: nat, seekCap: nat, i: nat, last: nat)
    requires s.Valid() && b.model == s.model && k >= 1 && seekCap >= 2 && i < last < n && Gen(s, i) + k <= Gen(s, last)
    requires AlwaysLocated(s, n) && AcceptsSkips(s, n)
    ensures DropsBehind(s, k, seekCap, OvertakenOrder(n, i, last))
  {
    LocatedAnyway(s, n, Some(last), i);
    OvertakenDropped(s, k, seekCap, i, last);
    OvertakenIndexes(b, n, i, last);
    DropsStay(s, k, seekCap, OvertakenOrder(n, i, last), last + 1);
  }

  /**
   * On every network: some choices make the receiver drop a packet as behind its window of K if and
   * only if a packet K generations later leaves before its slowest copy arrives.
   */
  lemma WindowDropsIff(s: Stream, b: Bench, n: nat, k: nat, seekCap: nat)
    requires s.Valid() && b.model == s.model && k >= 1 && seekCap >= 2
    requires AlwaysLocated(s, n) && AcceptsSkips(s, n)
    ensures SomeRunDropsBehind(s, b, n, k, seekCap) <==> CanBeOvertaken(s, b, n, k)
  {
    if SomeRunDropsBehind(s, b, n, k, seekCap) {
      var draws: seq<Draws>, schedule: seq<Arrival> :|
        Delivery(b, draws, schedule) && |draws| == n && DropsBehind(s, k, seekCap, Indexes(schedule));
      DropMeansOvertaken(s, b, draws, schedule, k, seekCap);
    }
    if CanBeOvertaken(s, b, n, k) {
      var i: nat, j: nat :| Overtakes(s, b, n, k, i, j);
      var last := LastOvertaker(b, n, i, j);
      OvertakenDelivery(b, n, i, last);
      OvertakenFallsBehind(s, b, n, k, i, j, last);
      OvertakenRunDrops(s, b, n, k, seekCap, i, last);
    }
  }
}
