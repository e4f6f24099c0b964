/**
 * How far out of place packets arrive (src/simulation/network.rs, `measure_displacement`) and
 * how far they possibly can (benches/realistic_receiver.rs, `lateness_positions`).
 */
module Displacement {
  import opened Arithmetic
  import opened Options
  import opened IndexRecovery
  import opened MediaStream
  import opened Network

  function Indexes(schedule: seq<Arrival>): (order: seq<nat>)
    ensures |order| == |schedule|
  {
    seq(|schedule|, k requires 0 <= k < |schedule| => schedule[k].index)
  }

  predicate Distinct(order: seq<nat>)
  {
    forall j, k | 0 <= j < k < |order| :: order[j] != order[k]
  }

  /** How far arrival i lies behind the newest of the arrivals before it. */
  function Lateness(before: seq<nat>, i: nat): nat
  {
    match MaxIndex(before)
    case Some(m) => if i < m then m - i else 0
    case None => 0
  }

  /** How many packets that have not arrived yet arrival i jumps over. */
  function Skipped(before: seq<nat>, i: nat): nat
  {
    match MaxIndex(before)
    case Some(m) => if i > m then i - m - 1 else 0
    case None => i
  }

  function LatenessAt(order: seq<nat>, k: nat): nat
    requires k < |order|
  {
    Lateness(order[..k], order[k])
  }

  function SkippedAt(order: seq<nat>, k: nat): nat
    requires k < |order|
  {
    Skipped(order[..k], order[k])
  }

  datatype DisplacementStats = DisplacementStats(reordered: nat, maxLateness: nat, gaps: nat, maxGap: nat)

  const NoDisplacement: DisplacementStats := DisplacementStats(0, 0, 0, 0)

  /** The statistics, arrival by arrival. */
  function Displaced(order: seq<nat>): DisplacementStats
  {
    if order == [] then NoDisplacement
    else
      var n := |order| - 1;
      var d, late, skipped := Displaced(order[..n]), LatenessAt(order, n), SkippedAt(order, n);
      DisplacementStats(d.reordered + One(late > 0), Max(d.maxLateness, late),
                        d.gaps + One(skipped > 0), Max(d.maxGap, skipped))
  }

  lemma PrefixDisplacement(order: seq<nat>, k: nat)
    requires k < |order| - 1
    ensures LatenessAt(order, k) == LatenessAt(order[..|order| - 1], k)
    ensures SkippedAt(order, k) == SkippedAt(order[..|order| - 1], k)
  {
    assert order[..|order| - 1][..k] == order[..k];
  }

  /** The maxima bound every arrival... */
  lemma {:induction false} MaximaBound(order: seq<nat>, k: nat)
    requires k < |order|
    ensures LatenessAt(order, k) <= Displaced(order).maxLateness && SkippedAt(order, k) <= Displaced(order).maxGap
  {
    if k < |order| - 1 {
      MaximaBound(order[..|order| - 1], k);
      PrefixDisplacement(order, k);
    }
  }

  /** ...and some arrival attains them. */
  lemma {:induction false} MaximaAttained(order: seq<nat>) returns (j: nat, k: nat)
    requires order != []
    ensures j < |order| && LatenessAt(order, j) == Displaced(order).maxLateness
    ensures k < |order| && SkippedAt(order, k) == Displaced(order).maxGap
  {
    var n := |order| - 1;
    j, k := n, n;
    if n > 0 {
      var j', k' := MaximaAttained(order[..n]);
      PrefixDisplacement(order, j');
      PrefixDisplacement(order, k');
      j := if Displaced(order[..n]).maxLateness > LatenessAt(order, n) then j' else n;
      k := if Displaced(order[..n]).maxGap > SkippedAt(order, n) then k' else n;
    }
  }

  function LateArrival(order: seq<nat>): nat -> bool { (k: nat) => k < |order| && LatenessAt(order, k) > 0 }

  function JumpsAhead(order: seq<nat>): nat -> bool { (k: nat) => k < |order| && SkippedAt(order, k) > 0 }

  lemma {:induction false} SameTally(n: nat, p: nat -> bool, q: nat -> bool)
    requires forall k: nat | k < n :: p(k) == q(k)
    ensures Tally(n, p) == Tally(n, q)
  {
    if n > 0 {
      SameTally(n - 1, p, q);
    }
  }

  lemma TallyPrefix(order: seq<nat>)
    requires order != []
    ensures var n := |order| - 1;
      && Tally(n, LateArrival(order)) == Tally(n, LateArrival(order[..n]))
      && Tally(n, JumpsAhead(order)) == Tally(n, JumpsAhead(order[..n]))
  {
    var n := |order| - 1;
    forall k: nat | k < n
      ensures LateArrival(order)(k) == LateArrival(order[..n])(k) && JumpsAhead(order)(k) == JumpsAhead(order[..n])(k)
    {
      PrefixDisplacement(order, k);
    }
    SameTally(n, LateArrival(order), LateArrival(order[..n]));
    SameTally(n, JumpsAhead(order), JumpsAhead(order[..n]));
  }

  /** The two counts say how many arrivals are late and how many jump over packets. */
  lemma {:induction false} DisplacedCounts(order: seq<nat>)
    ensures Displaced(order).reordered == Tally(|order|, LateArrival(order))
    ensures Displaced(order).gaps == Tally(|order|, JumpsAhead(order))
  {
    if order != [] {
      DisplacedCounts(order[..|order| - 1]);
      TallyPrefix(order);
    }
  }

  method MeasureDisplacement(order: seq<nat>) returns (d: DisplacementStats)
    ensures d == Displaced(order)
  {
    d := NoDisplacement;
    var maxSeen: Option<nat> := None;
    for k := 0 to |order|
      invariant maxSeen == MaxIndex(order[..k]) && d == Displaced(order[..k])
    {
      assert order[..k + 1][..k] == order[..k];
      var i := order[k];
      var late := if maxSeen.Some? && i < maxSeen.value then maxSeen.value - i else 0;
      var skipped := if maxSeen.None? then i else if i > maxSeen.value then i - maxSeen.value - 1 else 0;
      if late > 0 {
        d := d.(reordered := d.reordered + 1);
      }
      d := d.(maxLateness := Max(d.maxLateness, late));
      if skipped > 0 {
        d := d.(gaps := d.gaps + 1, maxGap := Max(d.maxGap, skipped));
      }
      if maxSeen.None? || i > maxSeen.value {
        maxSeen := Some(i);
      }
    }
    assert order[..|order|] == order;
  }

  // ------------------------------------------------- the worst case

  /** Packets leave at least `gap` apart. */
  ghost predicate Paced(send: nat -> nat, gap: nat)
  {
    forall i: nat, j: nat | i <= j :: send(j) >= send(i) + (j - i) * gap
  }

  /** Every transit takes between `lo` and `hi`. */
  ghost predicate TransitWithin(schedule: seq<Arrival>, send: nat -> nat, lo: nat, hi: nat)
  {
    forall e | e in schedule :: send(e.index) + lo <= e.at <= send(e.index) + hi
  }

  /** A late packet was overtaken, so its lateness in time stays below the spread of transit times. */
  lemma LatenessBelowSpread(schedule: seq<Arrival>, send: nat -> nat, gap: nat, lo: nat, hi: nat, k: nat)
    requires Ordered(schedule) && Paced(send, gap) && TransitWithin(schedule, send, lo, hi) && k < |schedule|
    ensures LatenessAt(Indexes(schedule), k) > 0 ==> LatenessAt(Indexes(schedule), k) * gap < hi - lo
  {
    var order := Indexes(schedule);
    var i := order[k];
    if LatenessAt(order, k) > 0 {
      var m := MaxIndex(order[..k]).value;
      assert m in order[..k];
      var j :| 0 <= j < k && order[j] == m;
      assert Before(schedule[j], schedule[k]);
      assert schedule[j] in schedule && schedule[k] in schedule;
      assert send(m) >= send(i) + (m - i) * gap;
    }
  }

  function OneBelow(n: nat): nat { if n == 0 then 0 else n - 1 }

  /** The lateness in positions that `lateness_positions` predicts for one skew plus one jitter span. */
  function LatenessPositions(payload: nat, jitterNs: nat, skewNs: nat): nat
    requires payload > 0
  {
    DivCeil(skewNs + jitterNs, MinGapNs(PacketsPerFrame(payload)))
  }

  /** A multiple strictly below a span is at most one less than the span's rounded-up quotient. */
  lemma BelowDivCeil(x: nat, gap: nat, span: nat)
    requires gap > 0 && x * gap < span
    ensures x < DivCeil(span, gap)
  {
    DivCeilAtMost(span, gap, x);
  }

  /** The benchmark's network: two paths with equal jitter and loss, the second longer by the skew. */
  datatype Bench = Bench(model: StreamModel, baseNs: nat, jitterNs: nat, skewNs: nat, loss: LossModel, singlePath: bool)
  {
    function Net(draws: seq<Draws>): Setup
      requires model.ppf >= 1
    {
      Setup(NetworkConfig(PathConfig(baseNs, jitterNs, loss),
                          if singlePath then None else Some(PathConfig(baseNs + skewNs, jitterNs, loss))),
            i => model.SendNs(i), draws)
    }

    /** The most positions any delivered packet can be late: one less than predicted, as ties keep send order. */
    function WorstLateness(): nat
      requires model.Valid()
    {
      OneBelow(LatenessPositions(model.payloadSize, jitterNs, skewNs))
    }
  }

  /** Every delivered index appears once. */
  lemma ScheduleDistinct(s: Setup, schedule: seq<Arrival>)
    requires Ordered(schedule) && Holds(s, |s.draws|, schedule)
    ensures Distinct(Indexes(schedule))
    ensures forall i | i in Indexes(schedule) :: i < |s.draws|
  {
    forall j, k | 0 <= j < k < |schedule|
      ensures schedule[j].index != schedule[k].index
    {
      assert schedule[j] in schedule && schedule[k] in schedule;
      assert Before(schedule[j], schedule[k]);
    }
    assert forall k | 0 <= k < |schedule| :: schedule[k] in schedule;
  }

  lemma StreamPaced(b: Bench, draws: seq<Draws>)
    requires b.model.Valid()
    ensures Paced(b.Net(draws).send, MinGapNs(b.model.ppf))
  {
    forall i: nat, j: nat | i <= j
      ensures b.Net(draws).send(j) >= b.Net(draws).send(i) + (j - i) * MinGapNs(b.model.ppf)
    {
      SendSpacingSum(b.model, i, j);
    }
  }

  lemma BenchTransit(b: Bench, draws: seq<Draws>, schedule: seq<Arrival>)
    requires b.model.ppf >= 1 && b.Net(draws).Valid() && Holds(b.Net(draws), |draws|, schedule)
    ensures TransitWithin(schedule, b.Net(draws).send, b.baseNs, b.baseNs + (b.skewNs + b.jitterNs))
  {
  }

  lemma LatenessInTime(b: Bench, draws: seq<Draws>, schedule: seq<Arrival>, k: nat)
    requires b.model.Valid() && b.Net(draws).Valid()
    requires Ordered(schedule) && Holds(b.Net(draws), |draws|, schedule) && k < |schedule|
    ensures LatenessAt(Indexes(schedule), k) > 0 ==>
      LatenessAt(Indexes(schedule), k) * MinGapNs(b.model.ppf) < b.skewNs + b.jitterNs
  {
    StreamPaced(b, draws);
    BenchTransit(b, draws, schedule);
    LatenessBelowSpread(schedule, b.Net(draws).send, MinGapNs(b.model.ppf), b.baseNs,
                        b.baseNs + (b.skewNs + b.jitterNs), k);
  }

  lemma PositionsFromTime(b: Bench, late: nat)
    requires b.model.Valid()
    requires late > 0 ==> late * MinGapNs(b.model.ppf) < b.skewNs + b.jitterNs
    ensures late <= b.WorstLateness()
  {
    if late > 0 {
      BelowDivCeil(late, MinGapNs(b.model.ppf), b.skewNs + b.jitterNs);
    }
  }

  /** Whatever is lost and however the jitter falls, no delivered packet is later than the worst case. */
  lemma LatenessBound(b: Bench, draws: seq<Draws>, schedule: seq<Arrival>, k: nat)
    requires b.model.Valid() && b.Net(draws).Valid()
    requires Ordered(schedule) && Holds(b.Net(draws), |draws|, schedule) && k < |schedule|
    ensures LatenessAt(Indexes(schedule), k) <= b.WorstLateness()
  {
    LatenessInTime(b, draws, schedule, k);
    PositionsFromTime(b, LatenessAt(Indexes(schedule), k));
  }
}
