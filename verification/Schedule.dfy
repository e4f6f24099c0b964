/** The TESLA disclosure schedule and the accept test (src/tesla/schedule.rs; section 3.5 of RFC 4082). */
module Schedule {
  import opened Arithmetic

  /** 64-bit saturating arithmetic. */
  function SaturatingAdd(a: nat, b: nat): nat { Min(a + b, U64 - 1) }

  function SaturatingSub(a: nat, b: nat): nat { if a <= b then 0 else a - b }

  datatype TeslaSchedule = TeslaSchedule(t0Ns: nat, tIntNs: nat, d: nat, nChain: nat, dtNs: nat, gMax: nat)
  {
    predicate Valid()
    {
      && tIntNs > 0 && d >= 2 && nChain >= 1 && gMax >= 1
      && t0Ns < U64 && tIntNs < U64 && dtNs < U64 && d < U32 && nChain < U32 && gMax < U32
    }

    /** The sender can label a packet sent at this instant. */
    predicate Covers(sendNs: nat)
      requires tIntNs > 0
    {
      t0Ns <= sendNs < U64 && 1 + (sendNs - t0Ns) / tIntNs <= nChain
    }

    function IntervalOf(sendNs: nat): (i: nat)
      requires tIntNs > 0 && Covers(sendNs)
      ensures 1 <= i <= nChain
    {
      1 + (sendNs - t0Ns) / tIntNs
    }

    function DisclosedIndex(interval: nat): nat { SaturatingSub(interval, d) }

    function SenderUpperBound(arrivalNs: nat): nat
      requires tIntNs > 0
    {
      1 + SaturatingSub(SaturatingAdd(arrivalNs, dtNs), t0Ns) / tIntNs
    }

    /** The accept test: could the sender already be disclosing this interval's key? */
    predicate Accepts(arrivalNs: nat, interval: nat)
      requires tIntNs > 0
    {
      SenderUpperBound(arrivalNs) < interval + d
    }
  }

  /** The interval a sender clock reading falls into, whether or not the chain reaches it. */
  function ClockInterval(p: TeslaSchedule, clockNs: nat): nat
    requires p.tIntNs > 0 && p.t0Ns <= clockNs
  {
    1 + (clockNs - p.t0Ns) / p.tIntNs
  }

  /** A 64-bit sender clock reading that the receiver cannot rule out at this arrival. */
  predicate Possible(p: TeslaSchedule, arrivalNs: nat, clockNs: nat)
  {
    p.t0Ns <= clockNs < U64 && clockNs <= arrivalNs + p.dtNs
  }

  lemma BoundCoversSender(p: TeslaSchedule, arrivalNs: nat, clockNs: nat)
    requires p.Valid() && Possible(p, arrivalNs, clockNs)
    ensures ClockInterval(p, clockNs) <= p.SenderUpperBound(arrivalNs)
  {
    DivMono(clockNs - p.t0Ns, SaturatingSub(SaturatingAdd(arrivalNs, p.dtNs), p.t0Ns), p.tIntNs);
  }

  /**
   * Timing safety, and nothing more than it: for a label i >= 1 the test passes if and only if no
   * sender clock reading the receiver must reckon with discloses the key of interval i or a later one.
   */
  lemma AcceptedMeansStillSecret(p: TeslaSchedule, arrivalNs: nat, interval: nat)
    requires p.Valid() && interval >= 1
    ensures p.Accepts(arrivalNs, interval) <==>
      forall clock: nat | Possible(p, arrivalNs, clock) :: p.DisclosedIndex(ClockInterval(p, clock)) < interval
  {
    if p.Accepts(arrivalNs, interval) {
      forall clock: nat | Possible(p, arrivalNs, clock)
        ensures p.DisclosedIndex(ClockInterval(p, clock)) < interval
      {
        BoundCoversSender(p, arrivalNs, clock);
      }
    } else {
      var latest := SaturatingAdd(arrivalNs, p.dtNs);
      if p.t0Ns <= latest {
        assert Possible(p, arrivalNs, latest);
        assert p.DisclosedIndex(ClockInterval(p, latest)) >= interval;
      } else {
        assert false;
      }
    }
  }

  /** Later clocks reckon with later intervals. */
  lemma BoundMonotone(p: TeslaSchedule, a: nat, b: nat)
    requires p.Valid() && a <= b
    ensures p.SenderUpperBound(a) <= p.SenderUpperBound(b)
  {
    DivMono(SaturatingSub(SaturatingAdd(a, p.dtNs), p.t0Ns), SaturatingSub(SaturatingAdd(b, p.dtNs), p.t0Ns), p.tIntNs);
  }

  /** Exactly how long a packet sent at this instant may take. */
  lemma AcceptedWithinBudget(p: TeslaSchedule, sendNs: nat, transitNs: nat)
    requires p.Valid() && p.t0Ns <= sendNs && sendNs + transitNs + p.dtNs < U64
    ensures p.Accepts(sendNs + transitNs, ClockInterval(p, sendNs)) <==>
      (sendNs - p.t0Ns) % p.tIntNs + transitNs + p.dtNs < p.d * p.tIntNs
  {
    var e, t, extra := sendNs - p.t0Ns, p.tIntNs, transitNs + p.dtNs;
    assert e + extra == (e % t + extra) + t * (e / t);
    ModShift(e % t + extra, t, e / t);
    DivBelow(e % t + extra, t, p.d);
  }

  lemma DivBelow(x: nat, t: nat, q: nat)
    requires t > 0
    ensures x / t < q <==> x < q * t
  {
    if x < q * t {
      if x / t >= q {
        MulMono(q, x / t, t);
        assert false;
      }
    } else {
      DivMono(q * t, x, t);
      ModShift(0, t, q);
    }
  }

  /** A packet sent in the last nanosecond of the first interval. */
  function LastInstant(p: TeslaSchedule): nat
    requires p.tIntNs > 0
  {
    p.t0Ns + p.tIntNs - 1
  }

  /**
   * The travel budget is tight: a transit time is safe for every send time if and only if, with the
   * clock bound added, it fits (d-1) intervals; one nanosecond more fails at an interval's end.
   */
  lemma TravelBudgetTight(p: TeslaSchedule, transitNs: nat)
    requires p.Valid() && LastInstant(p) + transitNs + p.dtNs < U64
    ensures transitNs + p.dtNs <= (p.d - 1) * p.tIntNs <==>
      forall sendNs: nat | p.t0Ns <= sendNs && sendNs + transitNs + p.dtNs < U64 ::
        p.Accepts(sendNs + transitNs, ClockInterval(p, sendNs))
  {
    var t := p.tIntNs;
    assert p.d * t == (p.d - 1) * t + t;
    if transitNs + p.dtNs <= (p.d - 1) * t {
      forall sendNs: nat | p.t0Ns <= sendNs && sendNs + transitNs + p.dtNs < U64
        ensures p.Accepts(sendNs + transitNs, ClockInterval(p, sendNs))
      {
        AcceptedWithinBudget(p, sendNs, transitNs);
      }
    } else {
      AcceptedWithinBudget(p, LastInstant(p), transitNs);
      DivModUnique(t - 1, t, 0, t - 1);
      assert !p.Accepts(LastInstant(p) + transitNs, ClockInterval(p, LastInstant(p)));
    }
  }
}
