/**
 * Keys derived for nothing: a genuine packet whose header is read as belonging to another place in
 * the stream. When exactly that happens, at every granularity and over every arrival order.
 */
module Misplacement {
  import opened Arithmetic
  import opened Options
  import opened ByteStrings
  import Ratchet
  import opened Session
  import opened IndexRecovery
  import opened Generation
  import opened MediaStream
  import opened ReceiverSpec
  import opened ReceiverRuns
  import opened KeyingLoss

  // ------------------------------------------------- one arrival

  /** How far the receiver has come: the newest generation it decrypted and the position reference. */
  datatype Track = Track(frontier: Option<nat>, highest: Option<nat>)

  function TrackOf(st: State): Track { Track(st.frontier, st.highest) }

  /** Frontier and reference belong to the same packet; without a use for it there is no reference. */
  predicate Consistent(s: Stream, t: Track)
    requires s.Valid()
  {
    if Indexed(s.granularity) then t.frontier == (if t.highest.None? then None else Some(Gen(s, t.highest.value)))
    else t.highest == None
  }

  /** The position the receiver takes packet i for. */
  function Guess(highest: Option<nat>, i: nat): nat { Recover(highest, i % U16) }

  /** The generation the receiver takes packet i for. */
  function Claimed(s: Stream, highest: Option<nat>, i: nat): nat
    requires s.Valid()
  {
    match s.granularity
    case EpochOnly => 0
    case Frame => FrameGeneration(s.model.Timestamp(i), START_TS, FRAME_PERIOD)
    case Packet => Guess(highest, i)
    case EveryN(n) => Guess(highest, i) / n
  }

  /** How many keys reaching that generation takes. */
  function Burst(s: Stream, t: Track, i: nat): nat
    requires s.Valid()
  {
    CatchupTo(t.frontier, Claimed(s, t.highest, i))
  }

  /** Packet i is read right, within the seek cap, and newer than everything before it. */
  predicate Advances(s: Stream, t: Track, i: nat, seekCap: nat)
    requires s.Valid()
  {
    && Locatable(s, t.highest, i) && Burst(s, t, i) <= seekCap
    && (Burst(s, t, i) >= 1 || (Indexed(s.granularity) && (t.highest.None? || i > t.highest.value)))
  }

  function Next(s: Stream, t: Track, i: nat, seekCap: nat): Track
    requires s.Valid()
  {
    if !Advances(s, t, i, seekCap) then t
    else Track(if Burst(s, t, i) >= 1 then Some(Gen(s, i)) else t.frontier,
               if Indexed(s.granularity) then Some(i) else t.highest)
  }

  /** Packet i is read wrong, as a packet ahead of the frontier and within the seek cap. */
  predicate Misled(s: Stream, t: Track, i: nat, seekCap: nat)
    requires s.Valid()
  {
    !Locatable(s, t.highest, i) && 1 <= Burst(s, t, i) <= seekCap
  }

  /** Reading a packet right and claiming its own generation and position are the same thing. */
  lemma ClaimedRight(s: Stream, highest: Option<nat>, i: nat)
    requires s.Valid()
    ensures var scheme := ForGranularity(s.granularity, START_TS, FRAME_PERIOD, 0);
      Locate(scheme, highest, i % U16, s.model.Timestamp(i))
        == Located(Claimed(s, highest, i), if Indexed(s.granularity) then Some(Guess(highest, i)) else None)
    ensures Locatable(s, highest, i) ==> Claimed(s, highest, i) == Gen(s, i)
    ensures Indexed(s.granularity) ==> (Locatable(s, highest, i) <==> Guess(highest, i) == i)
    ensures s.granularity.Frame? ==> (Locatable(s, highest, i) <==> Claimed(s, highest, i) == Gen(s, i))
  {
    RecoverFrom(highest, i);
    LocatedRight(s, highest, i);
  }

  // ------------------------------------------------- the condition in numbers

  lemma NearReference(h: nat, seq16: nat)
    requires seq16 < U16
    ensures h - U16 < Recover(Some(h), seq16) < h + U16
  {
    assert h == U16 * (h / U16) + h % U16;
  }

  lemma SameResidue(x: nat, y: nat)
    requires x % U16 == y % U16 && x - y < U16 && y - x < U16
    ensures x == y
  {
  }

  lemma AheadOfReference(h: nat, i: nat)
    ensures var e := (i - h) % U16;
      (h + e) % U16 == i % U16 && (Guess(Some(h), i) > h <==> e > 0 && Placeable(h, h + e))
      && (Guess(Some(h), i) > h ==> Guess(Some(h), i) == h + e)
  {
    var e := (i - h) % U16;
    assert i - h == U16 * ((i - h) / U16) + e;
    assert h + e == i + U16 * (-((i - h) / U16));
    ModShift(i, U16, -((i - h) / U16));
    RecoverExact(h, h + e);
    var g := Guess(Some(h), i);
    if g > h && g != h + e {
      NearReference(h, i % U16);
      SameResidue(g, h + e);
      assert false;
    }
  }

  /**
   * Where positions are recovered: packet i looks like the packet e ahead of the reference, which
   * belongs to a newer generation within the seek cap, and is not that packet.
   */
  lemma MisledPosition(s: Stream, h: nat, i: nat, seekCap: nat)
    requires s.Valid() && Indexed(s.granularity)
    ensures var e := (i - h) % U16;
      Misled(s, Track(Some(Gen(s, h)), Some(h)), i, seekCap)
      <==> Placeable(h, h + e) && i != h + e && 1 <= Gen(s, h + e) - Gen(s, h) <= seekCap
  {
    var e, g := (i - h) % U16, Guess(Some(h), i);
    ClaimedRight(s, Some(h), i);
    AheadOfReference(h, i);
    GenerationOrder(s.granularity, s.model.ppf, h, h + e);
    if g <= h {
      GenerationOrder(s.granularity, s.model.ppf, g, h);
    }
  }

  lemma MisledAtFirst(s: Stream, i: nat, seekCap: nat)
    requires s.Valid() && Indexed(s.granularity)
    ensures Misled(s, Track(None, None), i, seekCap) <==> i >= U16 && Gen(s, i % U16) + 1 <= seekCap
  {
  }

  /** With one key for the whole epoch no packet is ever misled. */
  lemma NeverMisledByEpoch(s: Stream, t: Track, i: nat, seekCap: nat)
    requires s.Valid() && s.granularity.EpochOnly?
    ensures !Misled(s, t, i, seekCap)
  {
  }

  /** At packet level, less than one wrap late: from half a wrap on, once the rest of it is within the seek cap. */
  lemma MisledByLateness(s: Stream, h: nat, late: nat, seekCap: nat)
    requires s.Valid() && s.granularity.Packet? && 0 < late <= h && late < U16
    ensures Misled(s, Track(Some(h), Some(h)), h - late, seekCap)
       <==> U16 - late <= seekCap && (late > 32_768 || (late == 32_768 && h % U16 < 32_768))
  {
    MisledPosition(s, h, h - late, seekCap);
    ModShift(U16 - late, U16, -1);
    assert (h - late - h) % U16 == U16 - late;
  }

  // ------------------------------------------------- what the receiver makes of it

  function GenerationKey(s: Stream, g: nat): Bytes { Ratchet.KeyAt(s.kdf, s.seed, g) }

  function VerdictOn(s: Stream, st: State, i: nat): Verdict
    requires s.Valid()
  {
    s.srtp.judge(GenerationKey(s, Claimed(s, st.highest, i)), st.accepted, s.Wire(i))
  }

  /** The session refuses a packet that is read wrong, and takes it when it is newer than everything before it. */
  predicate Discerns(s: Stream, seekCap: nat, st: State, i: nat)
    requires s.Valid()
  {
    && (!Locatable(s, st.highest, i) ==> !VerdictOn(s, st, i).Accept?)
    && (Advances(s, TrackOf(st), i, seekCap) ==> VerdictOn(s, st, i).Accept?)
  }

  /** What one arrival does to the counters of derived keys. */
  predicate Worked(s: Stream, seekCap: nat, t: Track, i: nat, a: RecvStats, b: RecvStats)
    requires s.Valid()
  {
    var burst := Burst(s, t, i);
    && b.catchupStepsWasted == a.catchupStepsWasted + (if Misled(s, t, i, seekCap) then burst else 0)
    && b.maxCatchup == Max(a.maxCatchup, if burst <= seekCap then burst else 0)
    && b.dropsSeekCap == a.dropsSeekCap + One(burst > seekCap)
  }

  lemma NewestIsKept(s: Stream, t: Track, i: nat, seekCap: nat)
    requires s.Valid() && Consistent(s, t) && Advances(s, t, i, seekCap)
    ensures Derived(t.frontier) <= Gen(s, i) + 1
    ensures Consistent(s, Next(s, t, i, seekCap))
  {
    ClaimedRight(s, t.highest, i);
    if Indexed(s.granularity) && t.highest.Some? && i > t.highest.value {
      GenerationOrder(s.granularity, s.model.ppf, t.highest.value, i);
    } else if Indexed(s.granularity) && t.highest.Some? {
      GenerationOrder(s.granularity, s.model.ppf, i, t.highest.value);
    }
  }

  lemma NothingNewer(s: Stream, t: Track, i: nat, seekCap: nat)
    requires s.Valid() && Consistent(s, t) && Indexed(s.granularity)
    requires Locatable(s, t.highest, i) && Burst(s, t, i) <= seekCap && !Advances(s, t, i, seekCap)
    ensures t.highest == Some(MaxWith(t.highest, i))
  {
  }

  /** Frontier and reference after a call that the session accepted or not. */
  lemma NextTrack(s: Stream, k: nat, seekCap: nat, t: Track, t': Track, i: nat, result: Result, accepted: bool)
    requires s.Valid() && k >= 1 && Consistent(s, t)
    requires (!Locatable(s, t.highest, i) ==> !accepted) && (Advances(s, t, i, seekCap) ==> accepted)
    requires var g, jump := Claimed(s, t.highest, i), Burst(s, t, i);
      && (result.Ok? <==> Derived(t.frontier) <= g + k && jump <= seekCap && accepted)
      && (result.Ok? ==> result.generation == g)
      && t'.frontier == (if result.Ok? && g >= Derived(t.frontier) then Some(g) else t.frontier)
      && t'.highest == (if result.Ok? && Indexed(s.granularity) then Some(MaxWith(t.highest, Guess(t.highest, i)))
                        else t.highest)
    ensures t' == Next(s, t, i, seekCap)
  {
    ClaimedRight(s, t.highest, i);
    var g := Claimed(s, t.highest, i);
    if Advances(s, t, i, seekCap) {
      NewestIsKept(s, t, i, seekCap);
      assert result.Ok?;
      assert g >= Derived(t.frontier) <==> Burst(s, t, i) >= 1;
      if Indexed(s.granularity) {
        AboveReference(s, t, i, seekCap);
      }
    } else if result.Ok? {
      assert g < Derived(t.frontier);
      if Indexed(s.granularity) {
        NothingNewer(s, t, i, seekCap);
      }
    }
  }

  lemma AboveReference(s: Stream, t: Track, i: nat, seekCap: nat)
    requires s.Valid() && Consistent(s, t) && Indexed(s.granularity) && Advances(s, t, i, seekCap)
    ensures MaxWith(t.highest, i) == i
  {
    ClaimedRight(s, t.highest, i);
    if t.highest.Some? && i < t.highest.value {
      GenerationOrder(s.granularity, s.model.ppf, i, t.highest.value);
    }
  }

  /** What one genuine packet does to frontier and reference and to the counters of derived keys. */
  lemma ArrivalWastes(s: Stream, k: nat, seekCap: nat, st: State, i: nat)
    requires s.Valid() && k >= 1 && Consistent(s, TrackOf(st)) && Discerns(s, seekCap, st, i)
    ensures ReceiverFor(s, k, seekCap).Valid()
    ensures var st' := Step(ReceiverFor(s, k, seekCap), st, s.Wire(i)).0;
      TrackOf(st') == Next(s, TrackOf(st), i, seekCap) && Worked(s, seekCap, TrackOf(st), i, st.stats, st'.stats)
  {
    var c, g := ReceiverFor(s, k, seekCap), Claimed(s, st.highest, i);
    var index := if Indexed(s.granularity) then Some(Guess(st.highest, i)) else None;
    WireHeader(s, i);
    ClaimedRight(s, st.highest, i);
    StepWork(c, st, s.Wire(i), g, index);
    StepVerdicts(c, st, s.Wire(i), g, index);
    StepFrontier(c, st, s.Wire(i));
    if Indexed(s.granularity) {
      StepHighest(c, st, s.Wire(i));
    }
    var (st', reply) := Step(c, st, s.Wire(i));
    NextTrack(s, k, seekCap, TrackOf(st), TrackOf(st'), i, reply.result, VerdictOn(s, st, i).Accept?);
  }

  // ------------------------------------------------- whole runs

  /** How far the receiver comes, as a function of the arrivals alone. */
  function TrackAfter(s: Stream, order: seq<nat>, seekCap: nat): Track
    requires s.Valid()
  {
    if order == [] then Track(None, None)
    else Next(s, TrackAfter(s, order[..|order| - 1], seekCap), order[|order| - 1], seekCap)
  }

  predicate MisledAt(s: Stream, order: seq<nat>, seekCap: nat, n: nat)
    requires s.Valid() && n < |order|
  {
    Misled(s, TrackAfter(s, order[..n], seekCap), order[n], seekCap)
  }

  function BurstAt(s: Stream, order: seq<nat>, seekCap: nat, n: nat): nat
    requires s.Valid() && n < |order|
  {
    Burst(s, TrackAfter(s, order[..n], seekCap), order[n])
  }

  /** All keys derived for misled arrivals. */
  function WastedKeys(s: Stream, order: seq<nat>, seekCap: nat): nat
    requires s.Valid()
  {
    if order == [] then 0
    else
      var n := |order| - 1;
      WastedKeys(s, order[..n], seekCap) + if MisledAt(s, order, seekCap, n) then BurstAt(s, order, seekCap, n) else 0
  }

  /** The most keys derived for one arrival. */
  function WorstBurst(s: Stream, order: seq<nat>, seekCap: nat): (most: nat)
    requires s.Valid()
    ensures most <= seekCap
  {
    if order == [] then 0
    else
      var n := |order| - 1;
      var burst := BurstAt(s, order, seekCap, n);
      Max(WorstBurst(s, order[..n], seekCap), if burst <= seekCap then burst else 0)
  }

  /** How many arrivals seem to lie beyond the seek cap. */
  function SeekDrops(s: Stream, order: seq<nat>, seekCap: nat): nat
    requires s.Valid()
  {
    if order == [] then 0
    else
      var n := |order| - 1;
      SeekDrops(s, order[..n], seekCap) + One(BurstAt(s, order, seekCap, n) > seekCap)
  }

  /** What is assumed of the session, about this run alone. */
  predicate Discerning(s: Stream, k: nat, seekCap: nat, order: seq<nat>)
    requires s.Valid() && k >= 1
  {
    order == [] ||
    var n := |order| - 1;
    && Discerning(s, k, seekCap, order[..n])
    && Discerns(s, seekCap, Run(ReceiverFor(s, k, seekCap), Init, Wires(s, order[..n])).0, order[n])
  }

  predicate Wasteful(s: Stream, order: seq<nat>, seekCap: nat, st: State)
    requires s.Valid()
  {
    && TrackOf(st) == TrackAfter(s, order, seekCap)
    && st.stats.catchupStepsWasted == WastedKeys(s, order, seekCap)
    && st.stats.maxCatchup == WorstBurst(s, order, seekCap) && st.stats.dropsSeekCap == SeekDrops(s, order, seekCap)
  }

  lemma {:induction false} TrackConsistent(s: Stream, order: seq<nat>, seekCap: nat)
    requires s.Valid()
    ensures Consistent(s, TrackAfter(s, order, seekCap))
  {
    if order != [] {
      var t, i := TrackAfter(s, order[..|order| - 1], seekCap), order[|order| - 1];
      TrackConsistent(s, order[..|order| - 1], seekCap);
      if Advances(s, t, i, seekCap) {
        NewestIsKept(s, t, i, seekCap);
      }
    }
  }

  lemma WastefulStep(s: Stream, order: seq<nat>, seekCap: nat, st: State, st': State)
    requires s.Valid() && order != [] && Wasteful(s, order[..|order| - 1], seekCap, st)
    requires TrackOf(st') == Next(s, TrackOf(st), order[|order| - 1], seekCap)
    requires Worked(s, seekCap, TrackOf(st), order[|order| - 1], st.stats, st'.stats)
    ensures Wasteful(s, order, seekCap, st')
  {
  }

  /** For every granularity, arrival order and K the wasted keys and the worst burst follow from the positions alone. */
  lemma {:induction false} RunWastes(s: Stream, k: nat, seekCap: nat, order: seq<nat>)
    requires s.Valid() && k >= 1 && Discerning(s, k, seekCap, order)
    ensures Wasteful(s, order, seekCap, Run(ReceiverFor(s, k, seekCap), Init, Wires(s, order)).0)
  {
    var c := ReceiverFor(s, k, seekCap);
    if order == [] {
      assert Run(c, Init, Wires(s, order)).0 == Init;
    } else {
      var n := |order| - 1;
      RunWastes(s, k, seekCap, order[..n]);
      TrackConsistent(s, order[..n], seekCap);
      var st := Run(c, Init, Wires(s, order[..n])).0;
      ArrivalWastes(s, k, seekCap, st, order[n]);
      WastefulStep(s, order, seekCap, st, Step(c, st, s.Wire(order[n])).0);
      RunStep(s, c, order);
    }
  }

  // ------------------------------------------------- the second cross-check

  predicate NoneMisled(s: Stream, order: seq<nat>, seekCap: nat)
    requires s.Valid()
  {
    forall n | 0 <= n < |order| :: !MisledAt(s, order, seekCap, n)
  }

  lemma PrefixAt(s: Stream, order: seq<nat>, seekCap: nat, n: nat)
    requires s.Valid() && n < |order| - 1
    ensures MisledAt(s, order[..|order| - 1], seekCap, n) == MisledAt(s, order, seekCap, n)
    ensures BurstAt(s, order[..|order| - 1], seekCap, n) == BurstAt(s, order, seekCap, n)
  {
    assert order[..|order| - 1][..n] == order[..n];
  }

  lemma NoneMisledSnoc(s: Stream, order: seq<nat>, seekCap: nat)
    requires s.Valid() && order != []
    ensures NoneMisled(s, order, seekCap)
       <==> NoneMisled(s, order[..|order| - 1], seekCap) && !MisledAt(s, order, seekCap, |order| - 1)
  {
    var front := order[..|order| - 1];
    forall n | 0 <= n < |front|
      ensures MisledAt(s, front, seekCap, n) == MisledAt(s, order, seekCap, n)
    {
      PrefixAt(s, order, seekCap, n);
    }
  }

  lemma {:induction false} NothingWastedIff(s: Stream, order: seq<nat>, seekCap: nat)
    requires s.Valid()
    ensures WastedKeys(s, order, seekCap) == 0 <==> NoneMisled(s, order, seekCap)
  {
    if order != [] {
      NothingWastedIff(s, order[..|order| - 1], seekCap);
      NoneMisledSnoc(s, order, seekCap);
    }
  }

  predicate SecondCheck(st: State) { st.stats.catchupSteps == Derived(st.frontier) }

  /** At every granularity the second cross-check passes if and only if no arrival is misled. */
  lemma SecondCheckIff(s: Stream, k: nat, seekCap: nat, order: seq<nat>)
    requires s.Valid() && k >= 1 && Discerning(s, k, seekCap, order)
    ensures SecondCheck(Run(ReceiverFor(s, k, seekCap), Init, Wires(s, order)).0) <==> NoneMisled(s, order, seekCap)
  {
    RunWastes(s, k, seekCap, order);
    RunLedger(ReceiverFor(s, k, seekCap), Wires(s, order));
    NothingWastedIff(s, order, seekCap);
  }

  // ------------------------------------------------- the fate of every arrival

  /** The session takes exactly the packets that are read right, each with its own plaintext. */
  predicate Exact(s: Stream, st: State, i: nat)
    requires s.Valid()
  {
    VerdictOn(s, st, i) == if Locatable(s, st.highest, i) then Accept(s.model.PlainPacket(i)) else Verdict.AuthFail
  }

  predicate Exacting(s: Stream, k: nat, seekCap: nat, order: seq<nat>)
    requires s.Valid() && k >= 1
  {
    order == [] ||
    var n := |order| - 1;
    && Exacting(s, k, seekCap, order[..n])
    && Exact(s, Run(ReceiverFor(s, k, seekCap), Init, Wires(s, order[..n])).0, order[n])
  }

  lemma {:induction false} ExactingDiscerns(s: Stream, k: nat, seekCap: nat, order: seq<nat>)
    requires s.Valid() && k >= 1 && Exacting(s, k, seekCap, order)
    ensures Discerning(s, k, seekCap, order)
  {
    if order != [] {
      ExactingDiscerns(s, k, seekCap, order[..|order| - 1]);
    }
  }

  /** What packet i meets when the receiver has come this far. */
  function Verdicted(s: Stream, k: nat, seekCap: nat, t: Track, i: nat): Reply
    requires s.Valid()
  {
    if Claimed(s, t.highest, i) + k < Derived(t.frontier) then Reply(Err(BehindWindow), s.Wire(i))
    else if Burst(s, t, i) > seekCap then Reply(Err(SeekCapExceeded), s.Wire(i))
    else if Locatable(s, t.highest, i) then Reply(Ok(Gen(s, i)), s.model.PlainPacket(i))
    else Reply(Err(RecvDrop.AuthFail), [])
  }

  function Verdicts(s: Stream, k: nat, seekCap: nat, order: seq<nat>): (replies: seq<Reply>)
    requires s.Valid()
    ensures |replies| == |order|
  {
    if order == [] then []
    else
      var n := |order| - 1;
      Verdicts(s, k, seekCap, order[..n]) + [Verdicted(s, k, seekCap, TrackAfter(s, order[..n], seekCap), order[n])]
  }

  lemma ArrivalVerdicted(s: Stream, k: nat, seekCap: nat, st: State, i: nat)
    requires s.Valid() && k >= 1 && Exact(s, st, i)
    ensures ReceiverFor(s, k, seekCap).Valid()
    ensures Step(ReceiverFor(s, k, seekCap), st, s.Wire(i)).1 == Verdicted(s, k, seekCap, TrackOf(st), i)
  {
    WireHeader(s, i);
    ClaimedRight(s, st.highest, i);
  }

  /**
   * For every granularity, every K, every seek cap and every arrival order, in reach or not: the
   * reply to each arrival follows from the positions, and the five counters count those replies.
   */
  lemma {:induction false} RunVerdicted(s: Stream, k: nat, seekCap: nat, order: seq<nat>)
    requires s.Valid() && k >= 1 && Exacting(s, k, seekCap, order)
    ensures Run(ReceiverFor(s, k, seekCap), Init, Wires(s, order)).1 == Verdicts(s, k, seekCap, order)
  {
    var c := ReceiverFor(s, k, seekCap);
    if order != [] {
      var n := |order| - 1;
      RunVerdicted(s, k, seekCap, order[..n]);
      ExactingDiscerns(s, k, seekCap, order[..n]);
      RunWastes(s, k, seekCap, order[..n]);
      ArrivalVerdicted(s, k, seekCap, Run(c, Init, Wires(s, order[..n])).0, order[n]);
      RunStep(s, c, order);
    }
  }

  lemma RunTallied(s: Stream, k: nat, seekCap: nat, order: seq<nat>)
    requires s.Valid() && k >= 1 && Exacting(s, k, seekCap, order)
    ensures Tallied(Run(ReceiverFor(s, k, seekCap), Init, Wires(s, order)).0.stats, Verdicts(s, k, seekCap, order))
  {
    RunVerdicted(s, k, seekCap, order);
    RunLedger(ReceiverFor(s, k, seekCap), Wires(s, order));
  }
}
