/**
 * Which generation key a packet belongs to: the sender's granularity
 * (src/keying/granularity.rs), the receiver's stateless mapping
 * (src/receiver/generation.rs), and when the two agree.
 */
module Generation {
  import opened Arithmetic
  import opened Options
  import opened IndexRecovery

  datatype Granularity = EpochOnly | Frame | Packet | EveryN(n: nat)

  datatype GenerationScheme =
    | EpochScheme
    | FrameScheme(epochStartTs: nat, framePeriod: nat)
    | PacketScheme(base: nat)
    | EveryNScheme(base: nat, every: nat)
  {
    /** What the header arithmetic needs: 32-bit timestamps and non-zero divisors. */
    predicate Valid()
    {
      match this
      case FrameScheme(start, period) => start < U32 && 1 <= period < U32
      case EveryNScheme(_, every) => 1 <= every
      case _ => true
    }
  }

  function ForGranularity(granularity: Granularity, epochStartTs: nat, framePeriod: nat, base: nat): GenerationScheme
  {
    match granularity
    case EpochOnly => EpochScheme
    case Frame => FrameScheme(epochStartTs, framePeriod)
    case Packet => PacketScheme(base)
    case EveryN(n) => EveryNScheme(base, n)
  }

  /** Frames elapsed since the epoch's first frame; the subtraction wraps at 2^32. */
  function FrameGeneration(ts: nat, epochStartTs: nat, framePeriod: nat): nat
    requires framePeriod > 0
  {
    (ts - epochStartTs) % U32 / framePeriod
  }

  /** A packet's generation, and the extended index it was read from if there is one. */
  datatype Located = NoGeneration | Located(g: nat, index: Option<nat>)

  function Locate(scheme: GenerationScheme, highest: Option<nat>, seq16: nat, ts: nat): Located
    requires scheme.Valid() && seq16 < U16
  {
    match scheme
    case EpochScheme => Located(0, None)
    case FrameScheme(start, period) => Located(FrameGeneration(ts, start, period), None)
    case PacketScheme(base) =>
      var index := Recover(highest, seq16);
      if index < base then NoGeneration else Located(index - base, Some(index))
    case EveryNScheme(base, every) =>
      var index := Recover(highest, seq16);
      if index < base then NoGeneration else Located((index - base) / every, Some(index))
  }

  /**
   * With the epoch's first packet at position `base`: a packet is read at its own position if and
   * only if it is not older than the epoch and placeable, and its generation then counts from the base.
   */
  lemma LocatedFromBase(base: nat, every: nat, highest: Option<nat>, i: nat, ts: nat)
    requires every >= 1
    ensures var l := Locate(EveryNScheme(base, every), highest, i % U16, ts);
      && (l.Located? && l.index == Some(i) <==> base <= i && PlaceableFrom(highest, i))
      && (base <= i && PlaceableFrom(highest, i) ==> l.g == (i - base) / every)
    ensures var l := Locate(PacketScheme(base), highest, i % U16, ts);
      && (l.Located? && l.index == Some(i) <==> base <= i && PlaceableFrom(highest, i))
      && (base <= i && PlaceableFrom(highest, i) ==> l.g == i - base)
  {
    RecoverFrom(highest, i);
  }

  /** The timestamp of a frame, in wrapping 32-bit arithmetic. */
  function FrameTimestamp(start: nat, period: nat, frame: nat): (ts: nat)
    ensures ts < U32
  {
    (start + (frame % U32) * period % U32) % U32
  }

  /** The generation packet i of a stream with `ppf` packets per frame is meant to use. */
  function GenerationOf(granularity: Granularity, ppf: nat, i: nat): nat
    requires ppf >= 1 && (granularity.EveryN? ==> granularity.n >= 1)
  {
    match granularity
    case EpochOnly => 0
    case Frame => i / ppf
    case Packet => i
    case EveryN(n) => i / n
  }

  lemma ElapsedTicks(start: nat, period: nat, frame: nat)
    ensures (FrameTimestamp(start, period, frame) - start) % U32 == frame * period % U32
  {
    WrappedProduct(frame, period);
    WrappedDistance(start, frame * period % U32);
  }

  lemma WrappedProduct(frame: nat, period: nat)
    ensures (frame % U32) * period % U32 == frame * period % U32
  {
    var q := frame / U32;
    assert frame * period == (frame % U32) * period + U32 * (q * period) by {
      assert frame == frame % U32 + U32 * q;
    }
    ModShift((frame % U32) * period, U32, q * period);
  }

  lemma WrappedDistance(start: nat, ticks: nat)
    requires ticks < U32
    ensures ((start + ticks) % U32 - start) % U32 == ticks
  {
    var q := (start + ticks) / U32;
    assert (start + ticks) % U32 - start == U32 * (-q) + ticks;
    DivModUnique((start + ticks) % U32 - start, U32, -q, ticks);
  }

  lemma TicksBack(ticks: nat, period: nat, frame: nat)
    requires period >= 1 && ticks == frame * period
    ensures ticks % U32 / period == frame <==> ticks < U32
  {
    DivBounds(ticks % U32, period, frame);
    assert period * (frame + 1) == ticks + period;
  }

  lemma TicksDiffer(ticks: nat, period: nat)
    requires 1 <= period < U32
    ensures ticks % U32 != (ticks + period) % U32
  {
  }

  /**
   * The receiver reads the sender's frame number back from the timestamp if and only if the
   * frame's tick count still fits 32 bits; wrapping of the timestamp itself is harmless.
   */
  lemma FrameNumberRecovered(start: nat, period: nat, frame: nat)
    requires 1 <= period < U32
    ensures FrameGeneration(FrameTimestamp(start, period, frame), start, period) == frame
       <==> frame * period < U32
  {
    ElapsedTicks(start, period, frame);
    TicksBack(frame * period, period, frame);
  }

  /** At 60 fps the mapping first fails in the fourteenth hour of one epoch. */
  lemma FrameNumberLostAfterTickOverflow()
    ensures FrameGeneration(FrameTimestamp(0, 1500, 2_863_312), 0, 1500) == 0
  {
  }

  /** A new frame always shows as a changed timestamp, also where the timestamp wraps. */
  lemma NextFrameChangesTimestamp(start: nat, period: nat, frame: nat)
    requires 1 <= period < U32
    ensures FrameTimestamp(start, period, frame) != FrameTimestamp(start, period, frame + 1)
  {
    ElapsedTicks(start, period, frame);
    ElapsedTicks(start, period, frame + 1);
    assert (frame + 1) * period == frame * period + period;
    TicksDiffer(frame * period, period);
  }

  /** Later packets never use an older generation, and no generation is skipped on the way. */
  lemma GenerationOrder(granularity: Granularity, ppf: nat, i: nat, j: nat)
    requires ppf >= 1 && (granularity.EveryN? ==> granularity.n >= 1) && i <= j
    ensures GenerationOf(granularity, ppf, i) <= GenerationOf(granularity, ppf, j)
    ensures GenerationOf(granularity, ppf, j) - GenerationOf(granularity, ppf, i) <= j - i
  {
    if granularity.Frame? || granularity.EveryN? {
      var d := if granularity.Frame? then ppf else granularity.n;
      DivMono(i, j, d);
      QuotientGap(i, j, d);
    }
  }

  /** How many groups of d apart two positions can lie. */
  lemma QuotientGap(i: nat, j: nat, d: nat)
    requires d >= 1 && i <= j
    ensures j / d - i / d <= DivCeil(j - i, d) <= j - i
  {
    var q := DivCeil(j - i, d);
    assert d * q >= j - i by {
      assert j - i + d - 1 == d * q + (j - i + d - 1) % d;
    }
    assert j <= i + d * q;
    DivMono(j, i + d * q, d);
    ModShift(i, d, q);
    if j > i {
      DivMono(j - i + d - 1, d * (j - i), d) by {
        MulMono(0, (j - i - 1), d - 1);
        assert d * (j - i) - (j - i + d - 1) == (j - i - 1) * (d - 1);
      }
      ModShift(0, d, j - i);
    }
  }
}
