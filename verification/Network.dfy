/**
 * The simulated network (src/simulation/network.rs). Every random decision is an arbitrary
 * choice: a coin per copy for the loss model and a jitter draw within the path's span.
 */
module Network {
  import opened Arithmetic
  import opened Options

  datatype LossModel = NoLoss | Independent | GilbertElliott

  datatype PathConfig = PathConfig(baseDelayNs: nat, jitterNs: nat, loss: LossModel)

  datatype NetworkConfig = NetworkConfig(pathA: PathConfig, pathB: Option<PathConfig>)

  /** What the random generator decides for one copy. */
  datatype Draw = Draw(coin: bool, jitter: nat)

  datatype Draws = Draws(a: Draw, b: Draw)

  /** One delivered packet: when it arrives, and which it is. */
  datatype Arrival = Arrival(at: nat, index: nat)

  // ------------------------------------------------- loss

  /** Gilbert-Elliott: the state decides this copy, the coin flips the state for the next. */
  function NextBad(model: LossModel, inBad: bool, coin: bool): bool
  {
    if model.GilbertElliott? then inBad != coin else inBad
  }

  function IsLost(model: LossModel, inBad: bool, coin: bool): bool
  {
    match model
    case NoLoss => false
    case Independent => coin
    case GilbertElliott => inBad
  }

  class LossState {
    const model: LossModel
    var inBad: bool

    constructor (model: LossModel)
      ensures this.model == model && !inBad
    {
      this.model, inBad := model, false;
    }

    method NextLost(coin: bool) returns (lost: bool)
      modifies this
      ensures lost == IsLost(model, old(inBad), coin) && inBad == NextBad(model, old(inBad), coin)
    {
      match model
      case NoLoss => lost := false;
      case Independent => lost := coin;
      case GilbertElliott =>
        lost := inBad;
        if inBad {
          if coin { inBad := false; }
        } else if coin {
          inBad := true;
        }
    }
  }

  /** The path's loss state before copy i. */
  function BadBefore(model: LossModel, draws: seq<Draw>): bool
  {
    if draws == [] then false
    else NextBad(model, BadBefore(model, draws[..|draws| - 1]), draws[|draws| - 1].coin)
  }

  /** When the copy of packet i sent over this path arrives. */
  function CopyArrival(path: PathConfig, draws: seq<Draw>, sendNs: nat, i: nat): Option<nat>
    requires i < |draws|
  {
    if IsLost(path.loss, BadBefore(path.loss, draws[..i]), draws[i].coin) then None
    else Some(sendNs + path.baseDelayNs + draws[i].jitter)
  }

  // ------------------------------------------------- the two paths merged

  function Earlier(a: Option<nat>, b: Option<nat>): Option<nat>
  {
    if a.None? then b else if b.None? then a else Some(Min(a.value, b.value))
  }

  /** One run's inputs: the network, when each packet leaves, and every random decision. */
  datatype Setup = Setup(cfg: NetworkConfig, send: nat -> nat, draws: seq<Draws>)
  {
    predicate Valid()
    {
      forall i | 0 <= i < |draws| ::
        && draws[i].a.jitter <= cfg.pathA.jitterNs
        && (cfg.pathB.Some? ==> draws[i].b.jitter <= cfg.pathB.value.jitterNs)
    }

    function DrawsA(): seq<Draw> { seq(|draws|, i requires 0 <= i < |draws| => draws[i].a) }

    function DrawsB(): seq<Draw> { seq(|draws|, i requires 0 <= i < |draws| => draws[i].b) }

    function CopyA(i: nat): Option<nat>
      requires i < |draws|
    {
      CopyArrival(cfg.pathA, DrawsA(), send(i), i)
    }

    function CopyB(i: nat): Option<nat>
      requires i < |draws|
    {
      if cfg.pathB.None? then None else CopyArrival(cfg.pathB.value, DrawsB(), send(i), i)
    }

    /** The earlier surviving copy is delivered; the packet is lost only if no copy survives. */
    function Delivered(i: nat): Option<nat>
      requires i < |draws|
    {
      Earlier(CopyA(i), CopyB(i))
    }
  }

  /** Every surviving copy arrives no earlier than the delivery, and the delivery is one of them. */
  lemma FirstCopyWins(s: Setup, i: nat)
    requires i < |s.draws|
    ensures var a, b, d := s.CopyA(i), s.CopyB(i), s.Delivered(i);
      && (d.None? <==> a.None? && b.None?)
      && (d.Some? ==> d == a || d == b)
      && (a.Some? ==> d.value <= a.value) && (b.Some? ==> d.value <= b.value)
  {
  }

  // ------------------------------------------------- arrival order

  predicate Before(x: Arrival, y: Arrival)
  {
    x.at < y.at || (x.at == y.at && x.index < y.index)
  }

  predicate Ordered(s: seq<Arrival>)
  {
    forall i, j | 0 <= i < j < |s| :: Before(s[i], s[j])
  }

  /** Insertion behind every element that is not later: what keeps the sort stable. */
  function Insert(s: seq<Arrival>, x: Arrival): (r: seq<Arrival>)
    ensures |r| == |s| + 1
    ensures forall y :: y in r <==> y == x || y in s
  {
    if s == [] then [x]
    else
      var n := |s| - 1;
      assert s == s[..n] + [s[n]];
      if s[n].at <= x.at then s + [x] else Insert(s[..n], x) + [s[n]]
  }

  /** `sort_by_key` on the arrival time. */
  function SortByArrival(s: seq<Arrival>): (r: seq<Arrival>)
    ensures |r| == |s|
    ensures forall y :: y in r <==> y in s
  {
    if s == [] then []
    else
      assert s == s[..|s| - 1] + [s[|s| - 1]];
      Insert(SortByArrival(s[..|s| - 1]), s[|s| - 1])
  }

  lemma {:induction false} InsertOrdered(s: seq<Arrival>, x: Arrival)
    requires Ordered(s) && forall y | y in s :: y.index < x.index
    ensures Ordered(Insert(s, x))
  {
    if s != [] && s[|s| - 1].at > x.at {
      var n := |s| - 1;
      InsertOrdered(s[..n], x);
      var r := Insert(s[..n], x);
      forall i | 0 <= i < |r|
        ensures Before(r[i], s[n])
      {
        assert r[i] in r;
        if r[i] != x {
          assert r[i] in s[..n];
          var j :| 0 <= j < n && s[j] == r[i];
          assert Before(s[j], s[n]);
        }
      }
    }
  }

  /** Sorting packets that were sent in index order: by arrival time, ties in send order. */
  lemma {:induction false} SortOrdered(s: seq<Arrival>)
    requires forall i, j | 0 <= i < j < |s| :: s[i].index < s[j].index
    ensures Ordered(SortByArrival(s))
  {
    if s != [] {
      var n := |s| - 1;
      SortOrdered(s[..n]);
      forall y | y in SortByArrival(s[..n])
        ensures y.index < s[n].index
      {
        var j :| 0 <= j < n && s[..n][j] == y;
      }
      InsertOrdered(SortByArrival(s[..n]), s[n]);
    }
  }

  // ------------------------------------------------- the run

  datatype NetworkStats = NetworkStats(sent: nat, delivered: nat, lostA: nat, lostB: nat, lostPackets: nat,
                                       winsA: nat, winsB: nat, duplicatesDropped: nat)

  /** How many of 0..n satisfy p. */
  function Tally(n: nat, p: nat -> bool): nat
  {
    if n == 0 then 0 else Tally(n - 1, p) + if p(n - 1) then 1 else 0
  }

  // Each outcome a packet or copy can have, as a predicate on the packet's index.

  function LostOnA(s: Setup): nat -> bool { (i: nat) => i < |s.draws| && s.CopyA(i).None? }

  function LostOnB(s: Setup): nat -> bool { (i: nat) => i < |s.draws| && s.cfg.pathB.Some? && s.CopyB(i).None? }

  function LostAltogether(s: Setup): nat -> bool { (i: nat) => i < |s.draws| && s.Delivered(i).None? }

  function Arrives(s: Setup): nat -> bool { (i: nat) => i < |s.draws| && s.Delivered(i).Some? }

  function DeliveredByA(s: Setup): nat -> bool
  {
    (i: nat) => i < |s.draws| && s.CopyA(i).Some? && s.Delivered(i) == s.CopyA(i)
  }

  function DeliveredByB(s: Setup): nat -> bool
  {
    (i: nat) => i < |s.draws| && s.Delivered(i).Some? && s.Delivered(i) != s.CopyA(i)
  }

  function ArrivesTwice(s: Setup): nat -> bool { (i: nat) => i < |s.draws| && s.CopyA(i).Some? && s.CopyB(i).Some? }

  function StatsOf(s: Setup, n: nat): NetworkStats
  {
    NetworkStats(|s.draws|, Tally(n, Arrives(s)), Tally(n, LostOnA(s)), Tally(n, LostOnB(s)), Tally(n, LostAltogether(s)),
                 Tally(n, DeliveredByA(s)), Tally(n, DeliveredByB(s)), Tally(n, ArrivesTwice(s)))
  }

  /** Every copy and every packet is accounted for exactly once. */
  predicate Conserved(st: NetworkStats, dualPath: bool)
  {
    && st.sent == st.delivered + st.lostPackets
    && st.delivered == st.winsA + st.winsB
    && (dualPath ==> 2 * st.sent == st.lostA + st.lostB + st.delivered + st.duplicatesDropped)
    && (!dualPath ==> st.lostB == 0 && st.winsB == 0 && st.duplicatesDropped == 0 && st.lostA == st.lostPackets)
  }

  lemma {:induction false} CopiesConserved(s: Setup, n: nat)
    requires n <= |s.draws|
    ensures Conserved(StatsOf(s, n).(sent := n), s.cfg.pathB.Some?)
  {
    if n > 0 {
      CopiesConserved(s, n - 1);
    }
  }

  /** What one packet's two copies add to the counters. */
  function Account(st: NetworkStats, dualPath: bool, a: Option<nat>, b: Option<nat>): NetworkStats
  {
    st.(lostA := st.lostA + One(a.None?),
        lostB := st.lostB + One(dualPath && b.None?),
        lostPackets := st.lostPackets + One(Earlier(a, b).None?),
        winsA := st.winsA + One(a.Some? && Earlier(a, b) == a),
        winsB := st.winsB + One(Earlier(a, b).Some? && Earlier(a, b) != a),
        duplicatesDropped := st.duplicatesDropped + One(a.Some? && b.Some?))
  }

  lemma StatsStep(s: Setup, i: nat)
    requires i < |s.draws|
    ensures StatsOf(s, i + 1).(delivered := 0)
         == Account(StatsOf(s, i).(delivered := 0), s.cfg.pathB.Some?, s.CopyA(i), s.CopyB(i))
  {
  }

  method CopyOver(path: PathConfig, sendNs: nat, loss: LossState, ghost draws: seq<Draw>, i: nat, draw: Draw)
    returns (arrival: Option<nat>)
    requires i < |draws| && draw == draws[i]
    requires loss.model == path.loss && loss.inBad == BadBefore(path.loss, draws[..i])
    modifies loss
    ensures arrival == CopyArrival(path, draws, sendNs, i)
    ensures loss.inBad == BadBefore(path.loss, draws[..i + 1])
  {
    assert draws[..i + 1][..i] == draws[..i];
    var lost := loss.NextLost(draw.coin);
    if lost {
      return None;
    }
    return Some(sendNs + path.baseDelayNs + draw.jitter);
  }

  /** The merge: keeps the earlier copy and counts what happened to each. */
  method Merge(stats: NetworkStats, sent: seq<Arrival>, dualPath: bool, i: nat, a: Option<nat>, b: Option<nat>)
    returns (stats': NetworkStats, sent': seq<Arrival>)
    requires b.Some? ==> dualPath
    ensures stats' == Account(stats, dualPath, a, b)
    ensures sent' == sent + if Earlier(a, b).Some? then [Arrival(Earlier(a, b).value, i)] else []
  {
    stats', sent' := stats, sent;
    match (a, b)
    case (None, None) =>
      stats' := stats'.(lostA := stats'.lostA + 1);
      if dualPath {
        stats' := stats'.(lostB := stats'.lostB + 1);
      }
      stats' := stats'.(lostPackets := stats'.lostPackets + 1);
    case (Some(ta), None) =>
      if dualPath {
        stats' := stats'.(lostB := stats'.lostB + 1);
      }
      stats' := stats'.(winsA := stats'.winsA + 1);
      sent' := sent' + [Arrival(ta, i)];
    case (None, Some(tb)) =>
      stats' := stats'.(lostA := stats'.lostA + 1);
      stats' := stats'.(winsB := stats'.winsB + 1);
      sent' := sent' + [Arrival(tb, i)];
    case (Some(ta), Some(tb)) =>
      if ta <= tb {
        stats' := stats'.(winsA := stats'.winsA + 1);
      } else {
        stats' := stats'.(winsB := stats'.winsB + 1);
      }
      sent' := sent' + [Arrival(Min(ta, tb), i)];
      stats' := stats'.(duplicatesDropped := stats'.duplicatesDropped + 1);
  }

  ghost predicate Holds(s: Setup, n: nat, schedule: seq<Arrival>)
    requires n <= |s.draws|
  {
    forall e :: e in schedule <==> e.index < n && s.Delivered(e.index) == Some(e.at)
  }

  /** `sent` lists, in send order, what becomes of the first n packets. */
  ghost predicate Sent(s: Setup, n: nat, sent: seq<Arrival>)
    requires n <= |s.draws|
  {
    && (forall j, k | 0 <= j < k < |sent| :: sent[j].index < sent[k].index)
    && Holds(s, n, sent) && |sent| == Tally(n, Arrives(s))
  }

  lemma SentStep(s: Setup, i: nat, sent: seq<Arrival>)
    requires i < |s.draws| && Sent(s, i, sent)
    ensures var d := s.Delivered(i); Sent(s, i + 1, sent + if d.Some? then [Arrival(d.value, i)] else [])
  {
    assert forall j | 0 <= j < |sent| :: sent[j] in sent;
  }

  /** Sends the packets 0..|draws| over both paths, or over one. */
  method Transmit(s: Setup) returns (sent: seq<Arrival>, stats: NetworkStats)
    requires s.Valid()
    ensures Sent(s, |s.draws|, sent)
    ensures stats == StatsOf(s, |s.draws|).(delivered := 0)
  {
    var lossA := new LossState(s.cfg.pathA.loss);
    var lossB := new LossState(if s.cfg.pathB.Some? then s.cfg.pathB.value.loss else NoLoss);
    ghost var drawsA, drawsB := s.DrawsA(), s.DrawsB();
    sent, stats := [], NetworkStats(|s.draws|, 0, 0, 0, 0, 0, 0, 0);
    for i := 0 to |s.draws|
      invariant fresh(lossA) && fresh(lossB) && lossA != lossB
      invariant lossA.model == s.cfg.pathA.loss && lossA.inBad == BadBefore(lossA.model, drawsA[..i])
      invariant s.cfg.pathB.Some? ==>
        lossB.model == s.cfg.pathB.value.loss && lossB.inBad == BadBefore(lossB.model, drawsB[..i])
      invariant Sent(s, i, sent) && stats == StatsOf(s, i).(delivered := 0)
    {
      var t := s.send(i);
      var a := CopyOver(s.cfg.pathA, t, lossA, drawsA, i, s.draws[i].a);
      var b := None;
      if s.cfg.pathB.Some? {
        b := CopyOver(s.cfg.pathB.value, t, lossB, drawsB, i, s.draws[i].b);
      }
      assert a == s.CopyA(i) && b == s.CopyB(i);
      StatsStep(s, i);
      SentStep(s, i, sent);
      stats, sent := Merge(stats, sent, s.cfg.pathB.Some?, i, a, b);
    }
  }

  /** The arrival order and the counters of one run. */
  method Disturb(s: Setup) returns (schedule: seq<Arrival>, stats: NetworkStats)
    requires s.Valid()
    ensures Ordered(schedule) && Holds(s, |s.draws|, schedule)
    ensures stats == StatsOf(s, |s.draws|) && stats.delivered == |schedule|
    ensures Conserved(stats, s.cfg.pathB.Some?)
  {
    var sent, counted := Transmit(s);
    SortOrdered(sent);
    schedule := SortByArrival(sent);
    stats := counted.(delivered := |schedule|);
    CopiesConserved(s, |s.draws|);
  }
}
