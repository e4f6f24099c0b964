/**
 * Genuine packets that arrive more than once: what becomes of every arrival of every order, with all
 * counters, when the session refuses what it has taken before.
 */
module Replays {
  import opened Arithmetic
  import opened Options
  import opened Session
  import opened IndexRecovery
  import opened Generation
  import opened MediaStream
  import opened Displacement
  import opened ReceiverSpec
  import opened ReceiverRuns
  import opened KeyingLoss
  import opened ZeroLoss
  import opened Witness
  import opened EndToEnd

  // ------------------------------------------------- what the arrivals amount to

  /** The packets the session takes: each the first time its key is there. */
  function Taken(s: Stream, k: nat, order: seq<nat>): seq<nat>
    requires s.Valid()
  {
    if order == [] then []
    else
      var n := |order| - 1;
      var taken := Taken(s, k, order[..n]);
      taken + if FallsBehind(s, k, order[..n], order[n]) || order[n] in taken then [] else [order[n]]
  }

  function FateAgain(s: Stream, k: nat, before: seq<nat>, i: nat): Reply
    requires s.Valid()
  {
    if FallsBehind(s, k, before, i) then Reply(Err(BehindWindow), s.Wire(i))
    else if i in Taken(s, k, before) then Reply(Err(SrtpReplay), [])
    else Reply(Ok(Gen(s, i)), s.model.PlainPacket(i))
  }

  function FatesAgain(s: Stream, k: nat, order: seq<nat>): (replies: seq<Reply>)
    requires s.Valid()
    ensures |replies| == |order|
  {
    if order == [] then []
    else
      var n := |order| - 1;
      FatesAgain(s, k, order[..n]) + [FateAgain(s, k, order[..n], order[n])]
  }

  /** How often the generation changes from one of these packets to the next, the first one included. */
  function Switches(s: Stream, tried: seq<nat>): nat
    requires s.Valid()
  {
    if tried == [] then 0
    else
      var n := |tried| - 1;
      Switches(s, tried[..n]) + One(n == 0 || Gen(s, tried[n]) != Gen(s, tried[n - 1]))
  }

  /** How many arrivals find their key kept. */
  function Hits(s: Stream, k: nat, order: seq<nat>): nat
    requires s.Valid()
  {
    if order == [] then 0
    else
      var n := |order| - 1;
      var g, derived := Gen(s, order[n]), Derived(Newest(s, order[..n]));
      Hits(s, k, order[..n]) + One(g < derived <= g + k)
  }

  /** The session takes packet i under its key, with its plaintext, unless it took it before. */
  predicate Refuses(s: Stream, k: nat, before: seq<nat>, i: nat)
    requires s.Valid()
  {
    var taken := Taken(s, k, before);
    s.srtp.judge(s.Key(i), Log(s, taken), s.Wire(i)) == if i in taken then ReplayFail else Accept(s.model.PlainPacket(i))
  }

  /** What is assumed of the session, about this run alone. */
  predicate RefusesReplays(s: Stream, k: nat, order: seq<nat>)
    requires s.Valid()
  {
    order == [] ||
    var n := |order| - 1;
    && RefusesReplays(s, k, order[..n])
    && (!FallsBehind(s, k, order[..n], order[n]) ==> Refuses(s, k, order[..n], order[n]))
  }

  // ------------------------------------------------- one arrival

  /** The key that is loaded after these packets were tried, and how often one was loaded. */
  predicate LoadedBy(s: Stream, tried: seq<nat>, installed: Option<nat>, installs: nat)
    requires s.Valid()
  {
    && installed == (if tried == [] then None else Some(Gen(s, tried[|tried| - 1])))
    && installs == Switches(s, tried)
  }

  predicate Loaded(s: Stream, k: nat, order: seq<nat>, st: State)
    requires s.Valid()
  {
    LoadedBy(s, Survivors(s, k, order), st.installed, st.stats.installs) && st.stats.cacheHits == Hits(s, k, order)
  }

  /** The receiver's state after these arrivals, with every counter there is. */
  predicate Held(s: Stream, k: nat, order: seq<nat>, st: State)
    requires s.Valid()
  {
    var tried, taken := Survivors(s, k, order), Taken(s, k, order);
    && st.frontier == Newest(s, order) && st.highest == ReferenceOf(s, order) && st.accepted == Log(s, taken)
    && Loaded(s, k, order, st)
    && st.stats.decrypted == |taken| && st.stats.dropsBehind == |order| - |tried|
    && st.stats.dropsReplay == |tried| - |taken| && st.stats.dropsSeekCap == 0 && st.stats.dropsAuth == 0
    && st.stats.catchupStepsWasted == 0 && st.stats.maxCatchup == WorstJump(s, order)
  }

  lemma {:induction false} TakenArrived(s: Stream, k: nat, order: seq<nat>, i: nat)
    requires s.Valid() && i in Taken(s, k, order)
    ensures MaxIndex(order).Some? && i <= MaxIndex(order).value && Gen(s, i) < Derived(Newest(s, order))
  {
    var n := |order| - 1;
    if i in Taken(s, k, order[..n]) {
      TakenArrived(s, k, order[..n], i);
    }
    GenerationOrder(s.granularity, s.model.ppf, i, MaxIndex(order).value);
  }

  lemma TriedNext(s: Stream, k: nat, before: seq<nat>, i: nat)
    requires s.Valid()
    ensures var behind := FallsBehind(s, k, before, i);
      && Survivors(s, k, before + [i]) == (if behind then Survivors(s, k, before) else Survivors(s, k, before) + [i])
      && Hits(s, k, before + [i]) == Hits(s, k, before) + One(!behind && Gen(s, i) < Derived(Newest(s, before)))
  {
    assert (before + [i])[..|before|] == before;
  }

  lemma TakenNext(s: Stream, k: nat, before: seq<nat>, i: nat)
    requires s.Valid()
    ensures var refused := FallsBehind(s, k, before, i) || i in Taken(s, k, before);
      && Taken(s, k, before + [i]) == (if refused then Taken(s, k, before) else Taken(s, k, before) + [i])
      && WorstJump(s, before + [i]) == Max(WorstJump(s, before), CatchupTo(Newest(s, before), Gen(s, i)))
  {
    assert (before + [i])[..|before|] == before;
  }

  lemma LoadedSnoc(s: Stream, tried: seq<nat>, i: nat, installed: Option<nat>, installs: nat)
    requires s.Valid() && LoadedBy(s, tried, installed, installs)
    ensures LoadedBy(s, tried + [i], Some(Gen(s, i)), installs + One(Some(Gen(s, i)) != installed))
  {
    assert (tried + [i])[..|tried|] == tried;
  }

  /** What an arrival is tried with: its own generation's key, unless that has left the window. */
  lemma ArrivalTried(s: Stream, k: nat, seekCap: nat, before: seq<nat>, i: nat, st: State)
    requires s.Valid() && k >= 1 && Held(s, k, before, st) && Reached(s, seekCap, before, i)
    requires !FallsBehind(s, k, before, i) ==> Refuses(s, k, before, i)
    ensures ReceiverFor(s, k, seekCap).Valid()
    ensures AttemptOn(ReceiverFor(s, k, seekCap), st, s.Wire(i)) ==
      if FallsBehind(s, k, before, i) then TooOld
      else Tried(Gen(s, i), if i in Taken(s, k, before) then ReplayFail else Accept(s.model.PlainPacket(i)))
  {
    WireHeader(s, i);
    LocatedRight(s, st.highest, i);
  }

  lemma LoadedNext(s: Stream, k: nat, before: seq<nat>, i: nat, st: State, st': State)
    requires s.Valid() && Loaded(s, k, before, st) && st.frontier == Newest(s, before)
    requires var tried := !FallsBehind(s, k, before, i);
      && st'.installed == (if tried then Some(Gen(s, i)) else st.installed)
      && st'.stats.installs == st.stats.installs + One(st'.installed != st.installed)
      && st'.stats.cacheHits == st.stats.cacheHits + One(tried && Gen(s, i) < Derived(st.frontier))
    ensures Loaded(s, k, before + [i], st')
  {
    TriedNext(s, k, before, i);
    if !FallsBehind(s, k, before, i) {
      LoadedSnoc(s, Survivors(s, k, before), i, st.installed, st.stats.installs);
    }
  }

  /** A refused arrival, behind or replayed, moves neither frontier nor reference. */
  lemma RefusedStays(s: Stream, k: nat, before: seq<nat>, i: nat)
    requires s.Valid() && k >= 1 && (FallsBehind(s, k, before, i) || i in Taken(s, k, before))
    ensures Newest(s, before + [i]) == Newest(s, before) && MaxIndex(before + [i]) == MaxIndex(before)
    ensures CatchupTo(Newest(s, before), Gen(s, i)) == 0
  {
    NewestStep(s, before, i);
    if FallsBehind(s, k, before, i) {
      BehindKeepsReference(s, k, before, i);
    } else {
      TakenArrived(s, k, before, i);
    }
  }

  lemma HeldTaken(s: Stream, k: nat, before: seq<nat>, i: nat, st: State, st': State)
    requires s.Valid() && Held(s, k, before, st) && Loaded(s, k, before + [i], st')
    requires !FallsBehind(s, k, before, i) && i !in Taken(s, k, before)
    requires var jump := CatchupTo(st.frontier, Gen(s, i));
      && st'.frontier == (if jump > 0 then Some(Gen(s, i)) else st.frontier)
      && st'.highest == (if Indexed(s.granularity) then Some(MaxWith(st.highest, i)) else st.highest)
      && st'.accepted == st.accepted + [Accepted(s.Key(i), s.Wire(i))]
      && st'.stats.maxCatchup == Max(st.stats.maxCatchup, jump)
      && st'.stats.catchupStepsWasted == st.stats.catchupStepsWasted
    requires CountedOnce(st.stats, st'.stats, Ok(Gen(s, i)))
    ensures Held(s, k, before + [i], st')
  {
    TriedNext(s, k, before, i);
    TakenNext(s, k, before, i);
    NewestStep(s, before, i);
    LogStep(s, Taken(s, k, before), i);
  }

  lemma HeldRefused(s: Stream, k: nat, before: seq<nat>, i: nat, st: State, st': State)
    requires s.Valid() && k >= 1 && Held(s, k, before, st) && Loaded(s, k, before + [i], st')
    requires FallsBehind(s, k, before, i) || i in Taken(s, k, before)
    requires CoreOf(st') == CoreOf(st)
    requires st'.stats.maxCatchup == Max(st.stats.maxCatchup, CatchupTo(st.frontier, Gen(s, i)))
    requires st'.stats.catchupStepsWasted == st.stats.catchupStepsWasted + CatchupTo(st.frontier, Gen(s, i))
    requires CountedOnce(st.stats, st'.stats, Err(if FallsBehind(s, k, before, i) then BehindWindow else SrtpReplay))
    ensures Held(s, k, before + [i], st')
  {
    TriedNext(s, k, before, i);
    TakenNext(s, k, before, i);
    RefusedStays(s, k, before, i);
  }

  /** One more arrival, fresh, repeated or too old. */
  lemma StepHeld(s: Stream, k: nat, seekCap: nat, before: seq<nat>, i: nat, st: State)
    requires s.Valid() && k >= 1 && Held(s, k, before, st) && Reached(s, seekCap, before, i)
    requires !FallsBehind(s, k, before, i) ==> Refuses(s, k, before, i)
    ensures ReceiverFor(s, k, seekCap).Valid()
    ensures Held(s, k, before + [i], Step(ReceiverFor(s, k, seekCap), st, s.Wire(i)).0)
    ensures Step(ReceiverFor(s, k, seekCap), st, s.Wire(i)).1 == FateAgain(s, k, before, i)
  {
    var c := ReceiverFor(s, k, seekCap);
    ArrivalTried(s, k, seekCap, before, i, st);
    StepOutcome(c, st, s.Wire(i));
    StepLoads(c, st, s.Wire(i));
    StepCounts(c, st, s.Wire(i));
    WireHeader(s, i);
    LocatedRight(s, st.highest, i);
    var index := if Indexed(s.granularity) then Some(i) else None;
    StepFrontier(c, st, s.Wire(i));
    StepAccepted(c, st, s.Wire(i));
    StepReference(c, st, s.Wire(i), Gen(s, i), index);
    StepWork(c, st, s.Wire(i), Gen(s, i), index);
    var st' := Step(c, st, s.Wire(i)).0;
    LoadedNext(s, k, before, i, st, st');
    if FallsBehind(s, k, before, i) || i in Taken(s, k, before) {
      HeldRefused(s, k, before, i, st, st');
    } else {
      HeldTaken(s, k, before, i, st, st');
    }
  }

  lemma LastHeld(s: Stream, k: nat, seekCap: nat, order: seq<nat>, st: State)
    requires s.Valid() && k >= 1 && order != [] && Held(s, k, order[..|order| - 1], st)
    requires var n := |order| - 1;
      && Reached(s, seekCap, order[..n], order[n])
      && (!FallsBehind(s, k, order[..n], order[n]) ==> Refuses(s, k, order[..n], order[n]))
    ensures ReceiverFor(s, k, seekCap).Valid()
    ensures var n := |order| - 1; var (st', reply) := Step(ReceiverFor(s, k, seekCap), st, s.Wire(order[n]));
      Held(s, k, order, st') && reply == FateAgain(s, k, order[..n], order[n])
  {
    var n := |order| - 1;
    assert order == order[..n] + [order[n]];
    StepHeld(s, k, seekCap, order[..n], order[n], st);
  }

  // ------------------------------------------------- whole runs

  /**
   * For every K, granularity and arrival order within the seek cap, repetitions included: an arrival is dropped
   * as behind exactly when its key has left the window, refused as a replay exactly when it was taken before,
   * and otherwise decrypted under its own generation; and every counter follows from the positions.
   */
  lemma {:induction false} ExactFateWithReplays(s: Stream, k: nat, seekCap: nat, order: seq<nat>)
    requires s.Valid() && k >= 1 && Tracked(s, seekCap, order) && RefusesReplays(s, k, order)
    ensures ReceiverFor(s, k, seekCap).Valid()
    ensures Held(s, k, order, Run(ReceiverFor(s, k, seekCap), Init, Wires(s, order)).0)
    ensures Run(ReceiverFor(s, k, seekCap), Init, Wires(s, order)).1 == FatesAgain(s, k, order)
  {
    var c := ReceiverFor(s, k, seekCap);
    if order == [] {
      assert Run(c, Init, Wires(s, order)) == (Init, []);
    } else {
      var n := |order| - 1;
      ExactFateWithReplays(s, k, seekCap, order[..n]);
      LastHeld(s, k, seekCap, order, Run(c, Init, Wires(s, order[..n])).0);
      RunStep(s, c, order);
    }
  }

  // ------------------------------------------------- a session that does refuse

  lemma {:induction false} TakenSmall(s: Stream, k: nat, order: seq<nat>)
    requires s.Valid() && forall p | 0 <= p < |order| :: order[p] < U64
    ensures forall p | 0 <= p < |Taken(s, k, order)| :: Taken(s, k, order)[p] < U64
  {
    if order != [] {
      TakenSmall(s, k, order[..|order| - 1]);
    }
  }

  /** The assumption is met by every order whatever of 64-bit positions. */
  lemma {:induction false} ReplaysCanBeRefused(s: Stream, k: nat, order: seq<nat>)
    requires Checked(s) && forall p | 0 <= p < |order| :: order[p] < U64
    ensures RefusesReplays(s, k, order)
  {
    if order != [] {
      var n := |order| - 1;
      ReplaysCanBeRefused(s, k, order[..n]);
      TakenSmall(s, k, order[..n]);
      var taken, i := Taken(s, k, order[..n]), order[n];
      if i in taken {
        CheckedRefusesReplay(s, s.Key(i), taken, i);
      } else {
        CheckedAccepts(s, taken, i);
      }
    }
  }

  // ------------------------------------------------- one packet sent again

  lemma {:induction false} TakenFrom(s: Stream, k: nat, order: seq<nat>, i: nat)
    requires s.Valid() && i in Taken(s, k, order)
    ensures i in order
  {
    var n := |order| - 1;
    if i in Taken(s, k, order[..n]) {
      TakenFrom(s, k, order[..n], i);
    }
  }

  /** Without repetitions the packets taken are all those whose key is kept. */
  lemma {:induction false} DistinctTaken(s: Stream, k: nat, order: seq<nat>)
    requires s.Valid() && Distinct(order)
    ensures Taken(s, k, order) == Survivors(s, k, order)
  {
    if order != [] {
      var n := |order| - 1;
      DistinctTaken(s, k, order[..n]);
      if order[n] in Taken(s, k, order[..n]) {
        TakenFrom(s, k, order[..n], order[n]);
      }
    }
  }

  lemma RepeatedCounts(s: Stream, k: nat, order: seq<nat>, i: nat, st: State)
    requires s.Valid() && Distinct(order) && Held(s, k, order + [i], st)
    requires i in Survivors(s, k, order) && !FallsBehind(s, k, order, i)
    ensures st.stats.dropsReplay == 1 && st.stats.dropsAuth == 0 && st.stats.decrypted == |Survivors(s, k, order)|
    ensures FateAgain(s, k, order, i) == Reply(Err(SrtpReplay), [])
  {
    DistinctTaken(s, k, order);
    TriedNext(s, k, order, i);
    TakenNext(s, k, order, i);
  }

  /**
   * An accepted packet delivered once more while its key is kept: refused as a replay, counted as one, and
   * decrypted no second time.
   */
  lemma RepeatedIsReplay(s: Stream, k: nat, seekCap: nat, order: seq<nat>, i: nat)
    requires Checked(s) && k >= 1 && Distinct(order) && i < U64 && forall p | 0 <= p < |order| :: order[p] < U64
    requires Tracked(s, seekCap, order) && Locatable(s, MaxIndex(order), i)
    requires i in Survivors(s, k, order) && !FallsBehind(s, k, order, i)
    ensures ReceiverFor(s, k, seekCap).Valid()
    ensures var (st, replies) := Run(ReceiverFor(s, k, seekCap), Init, Wires(s, order + [i]));
      && replies[|order|] == Reply(Err(SrtpReplay), [])
      && st.stats.dropsReplay == 1 && st.stats.dropsAuth == 0 && st.stats.decrypted == |Survivors(s, k, order)|
  {
    var again := order + [i];
    assert again[..|order|] == order;
    DistinctTaken(s, k, order);
    RefusedStays(s, k, order, i);
    ReplaysCanBeRefused(s, k, again);
    ExactFateWithReplays(s, k, seekCap, again);
    RepeatedCounts(s, k, order, i, Run(ReceiverFor(s, k, seekCap), Init, Wires(s, again)).0);
  }

  // ------------------------------------------------- undisturbed streams

  lemma {:induction false} InOrderSwitches(s: Stream, n: nat)
    requires s.Valid() && n >= 1
    ensures Switches(s, InOrder(n)) == Gen(s, n - 1) + 1
  {
    assert InOrder(n)[..n - 1] == InOrder(n - 1);
    if n == 1 {
      assert InOrder(n)[..0] == [];
      GenerationSmall(s, 0);
    } else {
      InOrderSwitches(s, n - 1);
      GenerationOrder(s.granularity, s.model.ppf, n - 2, n - 1);
    }
  }

  lemma {:induction false} DistinctNeverRepeats(s: Stream, k: nat, order: seq<nat>)
    requires s.Valid() && Distinct(order) && AcceptsKept(s, k, order)
    ensures RefusesReplays(s, k, order)
  {
    if order != [] {
      var n := |order| - 1;
      DistinctNeverRepeats(s, k, order[..n]);
      DistinctTaken(s, k, order[..n]);
      if order[n] in Taken(s, k, order[..n]) {
        TakenFrom(s, k, order[..n], order[n]);
      }
    }
  }

  lemma InOrderCounts(s: Stream, k: nat, n: nat, st: State)
    requires s.Valid() && n >= 1 && Held(s, k, InOrder(n), st) && Survivors(s, k, InOrder(n)) == InOrder(n)
    ensures st.stats.installs == Gen(s, n - 1) + 1
  {
    InOrderSwitches(s, n);
  }

  lemma InOrderHeld(s: Stream, k: nat, seekCap: nat, n: nat)
    requires s.Valid() && k >= 1 && seekCap >= 1 && AcceptsAll(s, InOrder(n))
    requires forall i | 0 <= i < n :: TicksFit(s, i)
    ensures Tracked(s, seekCap, InOrder(n)) && RefusesReplays(s, k, InOrder(n))
    ensures Survivors(s, k, InOrder(n)) == InOrder(n)
  {
    var order := InOrder(n);
    InOrderWithin(s, n);
    NoLateness(s);
    CoveredLosesNothing(s, k, seekCap, order, 0, 1);
    assert order[..n] == order;
    AllSurvive(s, k, order, n);
    AcceptsAllKept(s, k, order, n);
    DistinctNeverRepeats(s, k, order);
  }

  /** An undisturbed stream loads each generation's key exactly once, however small the window. */
  lemma InOrderLoadsOnce(s: Stream, k: nat, seekCap: nat, n: nat)
    requires s.Valid() && k >= 1 && seekCap >= 1 && n >= 1 && AcceptsAll(s, InOrder(n))
    requires forall i | 0 <= i < n :: TicksFit(s, i)
    ensures ReceiverFor(s, k, seekCap).Valid()
    ensures Run(ReceiverFor(s, k, seekCap), Init, Wires(s, InOrder(n))).0.stats.installs == Gen(s, n - 1) + 1
  {
    InOrderHeld(s, k, seekCap, n);
    ExactFateWithReplays(s, k, seekCap, InOrder(n));
    InOrderCounts(s, k, n, Run(ReceiverFor(s, k, seekCap), Init, Wires(s, InOrder(n))).0);
  }
}
