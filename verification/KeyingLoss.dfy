/**
 * Exactly which packets of a genuine stream the windowed receiver loses: sender, arrival
 * order and receiver put together, for every key window K.
 */
module KeyingLoss {
  import opened Arithmetic
  import opened Options
  import opened ByteStrings
  import opened Session
  import opened IndexRecovery
  import opened Generation
  import opened MediaStream
  import opened Displacement
  import opened ReceiverSpec
  import opened ReceiverRuns

  function Wires(s: Stream, order: seq<nat>): (packets: seq<Bytes>)
    requires s.Valid()
    ensures |packets| == |order|
  {
    seq(|order|, k requires 0 <= k < |order| => s.Wire(order[k]))
  }

  /** The session's log after accepting these packets, each under its own key. */
  function Log(s: Stream, order: seq<nat>): (log: seq<Accepted>)
    requires s.Valid()
    ensures |log| == |order|
  {
    seq(|order|, k requires 0 <= k < |order| => Accepted(s.Key(order[k]), s.Wire(order[k])))
  }

  function ReceiverFor(s: Stream, k: nat, seekCap: nat): Config
  {
    Config(ForGranularity(s.granularity, START_TS, FRAME_PERIOD, 0), s.kdf, s.seed, s.srtp, k, seekCap)
  }

  function Gen(s: Stream, i: nat): nat
    requires s.Valid()
  {
    GenerationOf(s.granularity, s.model.ppf, i)
  }

  /** The newest generation among the packets that arrived. */
  function Newest(s: Stream, order: seq<nat>): Option<nat>
    requires s.Valid()
  {
    match MaxIndex(order)
    case None => None
    case Some(m) => Some(Gen(s, m))
  }

  predicate Indexed(granularity: Granularity) { granularity.Packet? || granularity.EveryN? }

  /** Frame-level keying counts frames in 32-bit ticks. */
  predicate TicksFit(s: Stream, i: nat)
    requires s.Valid()
  {
    s.granularity.Frame? ==> i / s.model.ppf * FRAME_PERIOD < U32
  }

  // ------------------------------------------------- reading the generation off the header

  /** The reference these arrivals leave behind, for the granularities that keep one. */
  function ReferenceOf(s: Stream, order: seq<nat>): Option<nat>
  {
    if Indexed(s.granularity) then MaxIndex(order) else None
  }

  predicate Locatable(s: Stream, highest: Option<nat>, i: nat)
    requires s.Valid()
  {
    TicksFit(s, i) && (Indexed(s.granularity) ==> PlaceableFrom(highest, i))
  }

  /** The receiver reads the sender's generation and position off the header if and only if the packet is locatable. */
  lemma LocatedRight(s: Stream, highest: Option<nat>, i: nat)
    requires s.Valid()
    ensures var scheme := ForGranularity(s.granularity, START_TS, FRAME_PERIOD, 0);
      Locate(scheme, highest, i % U16, s.model.Timestamp(i))
        == Located(Gen(s, i), if Indexed(s.granularity) then Some(i) else None)
      <==> Locatable(s, highest, i)
  {
    if s.granularity.Frame? {
      LocatedByFrame(s, i);
    } else if Indexed(s.granularity) {
      RecoverFrom(highest, i);
    }
  }

  lemma LocatedByFrame(s: Stream, i: nat)
    requires s.Valid() && s.granularity.Frame?
    ensures FrameGeneration(s.model.Timestamp(i), START_TS, FRAME_PERIOD) == Gen(s, i) <==> TicksFit(s, i)
  {
    FrameRead(i / s.model.ppf);
  }

  lemma FrameRead(frame: nat)
    ensures FrameGeneration(FrameTimestamp(START_TS, FRAME_PERIOD, frame), START_TS, FRAME_PERIOD) == frame
       <==> frame * FRAME_PERIOD < U32
  {
    FrameNumberRecovered(START_TS, FRAME_PERIOD, frame);
  }

  // ------------------------------------------------- what becomes of each arrival

  /** Located right, and not further ahead of the newest generation than the seek cap allows. */
  predicate Reached(s: Stream, seekCap: nat, before: seq<nat>, i: nat)
    requires s.Valid()
  {
    Locatable(s, MaxIndex(before), i) && CatchupTo(Newest(s, before), Gen(s, i)) <= seekCap
  }

  predicate Tracked(s: Stream, seekCap: nat, order: seq<nat>)
    requires s.Valid()
  {
    order == [] ||
    var n := |order| - 1;
    Tracked(s, seekCap, order[..n]) && Reached(s, seekCap, order[..n], order[n])
  }

  /** K or more generations behind the newest one that arrived. */
  predicate FallsBehind(s: Stream, k: nat, before: seq<nat>, i: nat)
    requires s.Valid()
  {
    Gen(s, i) + k < Derived(Newest(s, before))
  }

  /** The arrivals whose key is still kept when they arrive. */
  function Survivors(s: Stream, k: nat, order: seq<nat>): seq<nat>
    requires s.Valid()
  {
    if order == [] then []
    else
      var n := |order| - 1;
      Survivors(s, k, order[..n]) + if FallsBehind(s, k, order[..n], order[n]) then [] else [order[n]]
  }

  function Fate(s: Stream, k: nat, before: seq<nat>, i: nat): Reply
    requires s.Valid()
  {
    if FallsBehind(s, k, before, i) then Reply(Err(BehindWindow), s.Wire(i))
    else Reply(Ok(Gen(s, i)), s.model.PlainPacket(i))
  }

  function Fates(s: Stream, k: nat, order: seq<nat>): (replies: seq<Reply>)
    requires s.Valid()
    ensures |replies| == |order|
  {
    if order == [] then []
    else
      var n := |order| - 1;
      Fates(s, k, order[..n]) + [Fate(s, k, order[..n], order[n])]
  }

  /** The most keys any arrival needed at once. */
  function WorstJump(s: Stream, order: seq<nat>): nat
    requires s.Valid()
  {
    if order == [] then 0
    else
      var n := |order| - 1;
      Max(WorstJump(s, order[..n]), CatchupTo(Newest(s, order[..n]), Gen(s, order[n])))
  }

  /** The session takes packet i under its own key, having accepted `before`. */
  predicate AcceptsNext(s: Stream, before: seq<nat>, i: nat)
    requires s.Valid()
  {
    s.srtp.judge(s.Key(i), Log(s, before), s.Wire(i)) == Accept(s.model.PlainPacket(i))
  }

  /** What is assumed of the session, about this run alone: it takes every packet whose key is still kept. */
  predicate AcceptsKept(s: Stream, k: nat, order: seq<nat>)
    requires s.Valid()
  {
    order == [] ||
    var n := |order| - 1;
    && AcceptsKept(s, k, order[..n])
    && (!FallsBehind(s, k, order[..n], order[n]) ==> AcceptsNext(s, Survivors(s, k, order[..n]), order[n]))
  }

  /** The receiver's state after these arrivals, with every counter an arrival can touch. */
  predicate Caught(s: Stream, k: nat, order: seq<nat>, st: State)
    requires s.Valid()
  {
    var kept := Survivors(s, k, order);
    && st.frontier == Newest(s, order) && st.highest == ReferenceOf(s, order) && st.accepted == Log(s, kept)
    && (kept != [] ==> st.installed == Some(Gen(s, kept[|kept| - 1])))
    && st.stats.decrypted == |kept| && st.stats.dropsBehind == |order| - |kept|
    && st.stats.dropsSeekCap == 0 && st.stats.dropsReplay == 0 && st.stats.dropsAuth == 0
    && st.stats.catchupStepsWasted == 0 && st.stats.maxCatchup == WorstJump(s, order)
  }

  /** The newest generation moves exactly with the arrivals that need new keys. */
  lemma NewestStep(s: Stream, before: seq<nat>, i: nat)
    requires s.Valid()
    ensures Newest(s, before + [i]) ==
      (if CatchupTo(Newest(s, before), Gen(s, i)) == 0 then Newest(s, before) else Some(Gen(s, i)))
    ensures MaxIndex(before + [i]) == Some(MaxWith(MaxIndex(before), i))
  {
    assert (before + [i])[..|before|] == before;
    match MaxIndex(before)
    case None =>
    case Some(m) => GenerationOrder(s.granularity, s.model.ppf, Min(i, m), Max(i, m));
  }

  lemma LogStep(s: Stream, kept: seq<nat>, i: nat)
    requires s.Valid()
    ensures Log(s, kept + [i]) == Log(s, kept) + [Accepted(s.Key(i), s.Wire(i))]
  {
  }

  lemma StepKept(s: Stream, k: nat, seekCap: nat, before: seq<nat>, i: nat, st: State)
    requires s.Valid() && k >= 1 && Caught(s, k, before, st) && Reached(s, seekCap, before, i)
    requires !FallsBehind(s, k, before, i) && AcceptsNext(s, Survivors(s, k, before), i)
    ensures ReceiverFor(s, k, seekCap).Valid()
    ensures Caught(s, k, before + [i], Step(ReceiverFor(s, k, seekCap), st, s.Wire(i)).0)
    ensures Step(ReceiverFor(s, k, seekCap), st, s.Wire(i)).1 == Fate(s, k, before, i)
  {
    WireHeader(s, i);
    LocatedRight(s, st.highest, i);
    StepServed(ReceiverFor(s, k, seekCap), st, s.Wire(i), Gen(s, i),
               if Indexed(s.granularity) then Some(i) else None, s.model.PlainPacket(i));
    KeptState(s, k, before, i, st, Step(ReceiverFor(s, k, seekCap), st, s.Wire(i)).0);
  }

  /** The effect of a served packet is the state after one more kept arrival. */
  lemma KeptState(s: Stream, k: nat, before: seq<nat>, i: nat, st: State, st': State)
    requires s.Valid() && Caught(s, k, before, st) && !FallsBehind(s, k, before, i)
    requires var g, jump := Gen(s, i), CatchupTo(st.frontier, Gen(s, i));
      && st'.frontier == (if jump == 0 then st.frontier else Some(g))
      && st'.highest == (if Indexed(s.granularity) then Some(MaxWith(st.highest, i)) else st.highest)
      && st'.installed == Some(g) && st'.accepted == st.accepted + [Accepted(s.Key(i), s.Wire(i))]
      && st'.stats.decrypted == st.stats.decrypted + 1 && st'.stats.Drops() == st.stats.Drops()
      && st'.stats.dropsBehind == st.stats.dropsBehind
      && st'.stats.maxCatchup == Max(st.stats.maxCatchup, jump)
      && st'.stats.catchupStepsWasted == st.stats.catchupStepsWasted
    ensures Caught(s, k, before + [i], st')
  {
    assert (before + [i])[..|before|] == before;
    NewestStep(s, before, i);
    LogStep(s, Survivors(s, k, before), i);
  }

  lemma StepBehind(s: Stream, k: nat, seekCap: nat, before: seq<nat>, i: nat, st: State)
    requires s.Valid() && k >= 1 && Caught(s, k, before, st) && Reached(s, seekCap, before, i)
    requires FallsBehind(s, k, before, i)
    ensures ReceiverFor(s, k, seekCap).Valid()
    ensures Caught(s, k, before + [i], Step(ReceiverFor(s, k, seekCap), st, s.Wire(i)).0)
    ensures Step(ReceiverFor(s, k, seekCap), st, s.Wire(i)).1 == Fate(s, k, before, i)
  {
    WireHeader(s, i);
    LocatedRight(s, st.highest, i);
    NewestStep(s, before, i);
    BehindKeepsReference(s, k, before, i);
    assert (before + [i])[..|before|] == before;
    assert Step(ReceiverFor(s, k, seekCap), st, s.Wire(i)) == Refuse(st, BehindWindow, s.Wire(i));
  }

  /** A packet behind the window is older than the newest arrival. */
  lemma BehindKeepsReference(s: Stream, k: nat, before: seq<nat>, i: nat)
    requires s.Valid() && k >= 1 && FallsBehind(s, k, before, i)
    ensures MaxIndex(before).Some? && i < MaxIndex(before).value
    ensures MaxIndex(before + [i]) == MaxIndex(before)
  {
    NewestStep(s, before, i);
    var m := MaxIndex(before).value;
    if i >= m {
      GenerationOrder(s.granularity, s.model.ppf, m, i);
    }
  }

  lemma LastPacket(s: Stream, order: seq<nat>)
    requires s.Valid() && order != []
    ensures var n := |order| - 1;
      && Wires(s, order)[..n] == Wires(s, order[..n]) && Wires(s, order)[n] == s.Wire(order[n])
      && order == order[..n] + [order[n]]
  {
  }

  /** A run's last step, spelled out. */
  lemma RunStep(s: Stream, c: Config, order: seq<nat>)
    requires s.Valid() && c.Valid() && order != []
    ensures var n := |order| - 1;
      var (before, replies) := Run(c, Init, Wires(s, order[..n]));
      var (after, reply) := Step(c, before, s.Wire(order[n]));
      Run(c, Init, Wires(s, order)) == (after, replies + [reply])
  {
    LastPacket(s, order);
  }

  /**
   * For every K, every granularity and every arrival order that can be located within the seek
   * cap: an arrival is dropped, as behind the window, if and only if its generation lies K or
   * more behind the newest that arrived; every other arrival is decrypted, under the generation
   * the sender used for it and with its own plaintext; no derivation is wasted.
   */
  lemma {:induction false} ExactKeyingLoss(s: Stream, k: nat, seekCap: nat, order: seq<nat>)
    requires s.Valid() && k >= 1 && Tracked(s, seekCap, order) && AcceptsKept(s, k, order)
    ensures ReceiverFor(s, k, seekCap).Valid()
    ensures Caught(s, k, order, Run(ReceiverFor(s, k, seekCap), Init, Wires(s, order)).0)
    ensures Run(ReceiverFor(s, k, seekCap), Init, Wires(s, order)).1 == Fates(s, k, order)
  {
    var c := ReceiverFor(s, k, seekCap);
    if order == [] {
      assert Run(c, Init, Wires(s, order)) == (Init, []);
    } else {
      var n := |order| - 1;
      ExactKeyingLoss(s, k, seekCap, order[..n]);
      StepFated(s, k, seekCap, order, Run(c, Init, Wires(s, order[..n])).0);
      RunStep(s, c, order);
    }
  }

  lemma StepFated(s: Stream, k: nat, seekCap: nat, order: seq<nat>, st: State)
    requires s.Valid() && k >= 1 && order != [] && Caught(s, k, order[..|order| - 1], st)
    requires var n := |order| - 1;
      && Reached(s, seekCap, order[..n], order[n])
      && (!FallsBehind(s, k, order[..n], order[n]) ==> AcceptsNext(s, Survivors(s, k, order[..n]), order[n]))
    ensures ReceiverFor(s, k, seekCap).Valid()
    ensures var n := |order| - 1; var (st', reply) := Step(ReceiverFor(s, k, seekCap), st, s.Wire(order[n]));
      Caught(s, k, order, st') && reply == Fate(s, k, order[..n], order[n])
  {
    var front, i := order[..|order| - 1], order[|order| - 1];
    assert order == front + [i];
    if FallsBehind(s, k, front, i) {
      StepBehind(s, k, seekCap, front, i, st);
    } else {
      StepKept(s, k, seekCap, front, i, st);
    }
  }

  // ------------------------------------------------- at packet level

  function LateBy(order: seq<nat>, k: nat): nat
  {
    if order == [] then 0
    else
      var n := |order| - 1;
      LateBy(order[..n], k) + One(LatenessAt(order, n) >= k)
  }

  /** At packet level the packets lost to a window of K are the arrivals K or more positions late. */
  lemma {:induction false} LossIsLateness(s: Stream, k: nat, order: seq<nat>)
    requires s.Valid() && s.granularity.Packet? && k >= 1
    ensures |order| - |Survivors(s, k, order)| == LateBy(order, k)
  {
    if order != [] {
      LossIsLateness(s, k, order[..|order| - 1]);
    }
  }

  function WorstCatchup(order: seq<nat>): nat
  {
    if order == [] then 0 else Displaced(order).maxGap + 1
  }

  /** At packet level the worst catch-up is the worst gap plus one, whatever the window drops. */
  lemma {:induction false} WorstCatchupIsWorstGap(s: Stream, order: seq<nat>)
    requires s.Valid() && s.granularity.Packet?
    ensures WorstJump(s, order) == WorstCatchup(order)
  {
    if order != [] {
      var n := |order| - 1;
      WorstCatchupIsWorstGap(s, order[..n]);
      JumpIsGap(order[..n], order[n]);
      assert Newest(s, order[..n]) == MaxIndex(order[..n]);
      assert Displaced(order).maxGap == Max(Displaced(order[..n]).maxGap, Skipped(order[..n], order[n]));
      if n == 0 {
        assert order[..n] == [];
      }
    }
  }

  /** Deriving up to position i takes one key for it and one for each position it jumps over. */
  lemma JumpIsGap(before: seq<nat>, i: nat)
    ensures CatchupTo(MaxIndex(before), i)
         == if before != [] && i <= MaxIndex(before).value then 0 else Skipped(before, i) + 1
  {
  }

  /** What the three cross-checks of a run look at. */
  predicate ChecksHold(granularity: Granularity, order: seq<nat>, st: State)
  {
    && st.stats.decrypted + st.stats.Drops() == |order|
    && st.stats.catchupSteps == Derived(st.frontier)
    && (granularity.Packet? && order != [] ==> st.stats.maxCatchup == Displaced(order).maxGap + 1)
  }

  lemma CaughtChecks(s: Stream, k: nat, seekCap: nat, order: seq<nat>, st: State)
    requires s.Valid() && Caught(s, k, order, st) && Ledger(ReceiverFor(s, k, seekCap), st)
    ensures ChecksHold(s.granularity, order, st)
    ensures s.granularity.Packet? && k >= 1 ==> st.stats.dropsBehind == LateBy(order, k)
  {
    if s.granularity.Packet? {
      WorstCatchupIsWorstGap(s, order);
      if k >= 1 {
        LossIsLateness(s, k, order);
      }
    }
  }

  /** With any K, also one that drops packets, all cross-checks pass, and at packet level the loss is counted exactly. */
  lemma TrackedRunPassesChecks(s: Stream, k: nat, seekCap: nat, order: seq<nat>)
    requires s.Valid() && k >= 1 && Tracked(s, seekCap, order) && AcceptsKept(s, k, order)
    ensures ReceiverFor(s, k, seekCap).Valid()
    ensures ChecksHold(s.granularity, order, Run(ReceiverFor(s, k, seekCap), Init, Wires(s, order)).0)
    ensures s.granularity.Packet? ==>
      Run(ReceiverFor(s, k, seekCap), Init, Wires(s, order)).0.stats.dropsBehind == LateBy(order, k)
  {
    ExactKeyingLoss(s, k, seekCap, order);
    RunLedger(ReceiverFor(s, k, seekCap), Wires(s, order));
    CaughtChecks(s, k, seekCap, order, Run(ReceiverFor(s, k, seekCap), Init, Wires(s, order)).0);
  }

  // ------------------------------------------------- among packets that fail

  /**
   * The loss stays exact when any packets that fail, forged, replayed or too far ahead, come in
   * between: the genuine packets meet the same fate, and frontier, reference and log end the same.
   */
  lemma ExactLossAmongFailures(s: Stream, k: nat, seekCap: nat, order: seq<nat>, packets: seq<Bytes>, keep: seq<bool>)
    requires s.Valid() && k >= 1 && Tracked(s, seekCap, order) && AcceptsKept(s, k, order)
    requires ReceiverFor(s, k, seekCap).Valid() && |keep| == |packets| && Kept(packets, keep) == Wires(s, order)
    requires forall i | 0 <= i < |packets| :: !keep[i] ==> Run(ReceiverFor(s, k, seekCap), Init, packets).1[i].result.Err?
    ensures Kept(Run(ReceiverFor(s, k, seekCap), Init, packets).1, keep) == Fates(s, k, order)
    ensures CoreOf(Run(ReceiverFor(s, k, seekCap), Init, packets).0)
         == Core(Newest(s, order), ReferenceOf(s, order), Log(s, Survivors(s, k, order)))
  {
    ExactKeyingLoss(s, k, seekCap, order);
    FailedPacketsAreErasable(ReceiverFor(s, k, seekCap), Init, Init, packets, keep);
  }
}
