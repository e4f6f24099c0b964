/** One concrete stream, network and schedule that meet every hypothesis of the theorem about the whole stack. */
module TeslaInstance {
  import opened Generation
  import opened Network
  import opened Displacement
  import opened Schedule
  import opened TeslaSender
  import opened TeslaHonest
  import opened Witness
  import opened Overtaking
  import opened WindowSizing
  import opened TeslaEndToEnd
  import opened TeslaGaps

  /** Intervals of one second, keys disclosed two intervals later. */
  const OneSecond: TeslaSchedule := TeslaSchedule(0, 1_000_000_000, 2, 10, 0, 10)

  function SwappedWorld(src: Source): World
  {
    WorldOf(CheckedStream(1424, Packet), src, 2, 2)
  }

  lemma SwappedLabels(src: Source)
    requires src.sched == OneSecond
    ensures var w := SwappedWorld(src);
      w.Valid() && w.Sendable(0) && w.Sendable(1) && w.Label(0) == 1 && w.Label(1) == 1
  {
    SwappedNumbers();
  }

  /** A packet of the first d intervals discloses only the anchor, which needs no proof. */
  lemma EarlyGapCovered(w: World, front: seq<Arrival>, a: Arrival)
    requires w.Valid() && AllSendable(w, front) && w.Sendable(a.index) && w.Label(a.index) <= w.src.sched.d
    ensures GapCovered(w, front, a)
  {
  }

  /** Two packets, both of the first interval. */
  predicate EarlyPair(w: World, schedule: seq<Arrival>)
    requires w.Valid()
  {
    |schedule| == 2 && forall k | 0 <= k < 2 :: w.Sendable(schedule[k].index) && w.Label(schedule[k].index) == 1
  }

  lemma EarlyPairCovered(w: World, schedule: seq<Arrival>)
    requires w.Valid() && EarlyPair(w, schedule)
    ensures GapsCovered(w, schedule)
  {
    forall n | 0 <= n < |schedule|
      ensures AllSendable(w, schedule[..n]) && GapCovered(w, schedule[..n], schedule[n])
    {
      EarlyGapCovered(w, schedule[..n], schedule[n]);
    }
  }

  lemma SwappedIsEarly(w: World, schedule: seq<Arrival>)
    requires w.Valid() && Indexes(schedule) == [1, 0]
    requires w.Sendable(0) && w.Sendable(1) && w.Label(0) == 1 && w.Label(1) == 1
    ensures EarlyPair(w, schedule)
  {
    assert schedule[0].index == Indexes(schedule)[0] && schedule[1].index == Indexes(schedule)[1];
  }

  lemma SwappedGapsCovered(src: Source)
    requires src.sched == OneSecond
    ensures SwappedWorld(src).Valid() && GapsCovered(SwappedWorld(src), SwappedSchedule())
  {
    SwappedLabels(src);
    SwappedOrder();
    SwappedIsEarly(SwappedWorld(src), SwappedSchedule());
    EarlyPairCovered(SwappedWorld(src), SwappedSchedule());
  }

  lemma SwappedProvisioned(src: Source)
    requires src.sched == OneSecond
    ensures ShortSkew().model.Valid() && TeslaProvisioned(src, ShortSkew(), 2)
    ensures PositionsFit(ShortSkew(), SwappedSchedule())
  {
    SwappedNumbers();
    SwappedOrder();
  }

  /** Whatever the algorithms and the final key, the theorem about the whole stack applies to the swapped pair. */
  lemma WholeStackInstance(src: Source)
    requires src.sched == OneSecond
    ensures SwappedWorld(src).Valid() && AllSendable(SwappedWorld(src), SwappedSchedule())
    ensures Authenticated(SwappedWorld(src), SwappedSchedule())
    ensures HandsUp(CheckedStream(1424, Packet), SwappedWorld(src), SwappedSchedule())
  {
    ProvisionedInstance();
    SwappedProvisioned(src);
    SwappedGapsCovered(src);
    StreamAuthenticatedEndToEnd(CheckedStream(1424, Packet), src, ShortSkew(), OvertakenDraws(ShortSkew(), 2, 0),
                                SwappedSchedule(), 2, 2, SwappedWorld(src));
  }
}
