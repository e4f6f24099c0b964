/**
 * When the windowed receiver loses nothing: the key window, the seek cap and the sequence space
 * cover how far packets arrive out of place.
 */
module ZeroLoss {
  import opened Arithmetic
  import opened IndexRecovery
  import opened Generation
  import opened MediaStream
  import opened Displacement
  import opened ReceiverSpec
  import opened ReceiverRuns
  import opened KeyingLoss

  // ------------------------------------------------- limits that suffice

  /** How many generations `late` positions can span. */
  function GenerationLag(s: Stream, late: nat): nat
    requires s.Valid()
  {
    match s.granularity
    case EpochOnly => 0
    case Packet => late
    case Frame => DivCeil(late, s.model.ppf)
    case EveryN(n) => DivCeil(late, n)
  }

  /** What the seek cap and, where positions are recovered, 16-bit sequence numbers can express. */
  predicate Expressible(s: Stream, seekCap: nat, late: nat, ahead: nat)
  {
    ahead <= seekCap && (Indexed(s.granularity) ==> late <= 32_767 && ahead <= 32_767)
  }

  /** The receiver's limits cover the disturbance. */
  predicate Covers(s: Stream, k: nat, seekCap: nat, late: nat, ahead: nat)
    requires s.Valid()
  {
    GenerationLag(s, late) < k && Expressible(s, seekCap, late, ahead)
  }

  /** The j-th arrival is at most `late` behind and at most `ahead` forward. */
  predicate Within(s: Stream, order: seq<nat>, late: nat, ahead: nat, j: nat)
    requires s.Valid() && j < |order|
  {
    LatenessAt(order, j) <= late && SkippedAt(order, j) + 1 <= ahead && TicksFit(s, order[j])
  }

  predicate AllWithin(s: Stream, order: seq<nat>, late: nat, ahead: nat)
    requires s.Valid()
  {
    forall j | 0 <= j < |order| :: Within(s, order, late, ahead, j)
  }

  /** Within half the sequence space the position is recovered exactly. */
  lemma ReachablePosition(before: seq<nat>, i: nat)
    requires Lateness(before, i) <= 32_767 && Skipped(before, i) + 1 <= 32_767
    ensures PlaceableFrom(MaxIndex(before), i)
  {
  }

  lemma LagBound(s: Stream, i: nat, m: nat, late: nat)
    requires s.Valid() && i <= m <= i + late
    ensures Gen(s, m) - Gen(s, i) <= GenerationLag(s, late)
  {
    if s.granularity.Frame? || s.granularity.EveryN? {
      var d := if s.granularity.Frame? then s.model.ppf else s.granularity.n;
      QuotientGap(i, m, d);
      DivMono(m - i + d - 1, late + d - 1, d);
    }
  }

  lemma JumpBound(s: Stream, before: seq<nat>, i: nat)
    requires s.Valid()
    ensures CatchupTo(Newest(s, before), Gen(s, i)) <= Skipped(before, i) + 1
  {
    match MaxIndex(before)
    case None => GenerationOrder(s.granularity, s.model.ppf, 0, i);
    case Some(m) => GenerationOrder(s.granularity, s.model.ppf, Min(i, m), Max(i, m));
  }

  /** An arrival within the limits can be located and its keys derived... */
  lemma WithinReached(s: Stream, seekCap: nat, order: seq<nat>, late: nat, ahead: nat, j: nat)
    requires s.Valid() && Expressible(s, seekCap, late, ahead) && j < |order| && Within(s, order, late, ahead, j)
    ensures Reached(s, seekCap, order[..j], order[j])
  {
    JumpBound(s, order[..j], order[j]);
    if Indexed(s.granularity) {
      ReachablePosition(order[..j], order[j]);
    }
  }

  /** ...and is not behind a window that spans its lateness. */
  lemma WithinKept(s: Stream, k: nat, order: seq<nat>, late: nat, ahead: nat, j: nat)
    requires s.Valid() && GenerationLag(s, late) < k && j < |order| && Within(s, order, late, ahead, j)
    ensures !FallsBehind(s, k, order[..j], order[j])
  {
    match MaxIndex(order[..j])
    case None =>
    case Some(m) =>
      if order[j] <= m {
        LagBound(s, order[j], m, late);
      } else {
        GenerationOrder(s.granularity, s.model.ppf, m, order[j]);
      }
  }

  lemma {:induction false} WithinTracked(s: Stream, seekCap: nat, order: seq<nat>, late: nat, ahead: nat, n: nat)
    requires s.Valid() && Expressible(s, seekCap, late, ahead) && AllWithin(s, order, late, ahead) && n <= |order|
    ensures Tracked(s, seekCap, order[..n])
  {
    if n > 0 {
      WithinTracked(s, seekCap, order, late, ahead, n - 1);
      assert order[..n][..n - 1] == order[..n - 1];
      assert Within(s, order, late, ahead, n - 1);
      WithinReached(s, seekCap, order, late, ahead, n - 1);
    }
  }

  // ------------------------------------------------- nothing behind, nothing lost

  predicate FallsBehindAt(s: Stream, k: nat, order: seq<nat>, n: nat)
    requires s.Valid() && n < |order|
  {
    FallsBehind(s, k, order[..n], order[n])
  }

  predicate NoneBehind(s: Stream, k: nat, order: seq<nat>)
    requires s.Valid()
  {
    forall n | 0 <= n < |order| :: !FallsBehindAt(s, k, order, n)
  }

  predicate AcceptsAt(s: Stream, order: seq<nat>, n: nat)
    requires s.Valid() && n < |order|
  {
    AcceptsNext(s, order[..n], order[n])
  }

  /** What is assumed of the session, about this run alone: it takes each arrival in its turn. */
  predicate AcceptsAll(s: Stream, order: seq<nat>)
    requires s.Valid()
  {
    forall n | 0 <= n < |order| :: AcceptsAt(s, order, n)
  }

  /** The reply every packet of a loss-free run gets: its own generation and its own plaintext. */
  function Served(s: Stream, order: seq<nat>): (replies: seq<Reply>)
    requires s.Valid()
    ensures |replies| == |order|
  {
    seq(|order|, k requires 0 <= k < |order| => Reply(Ok(Gen(s, order[k])), s.model.PlainPacket(order[k])))
  }

  lemma ServedStep(s: Stream, front: seq<nat>, i: nat)
    requires s.Valid()
    ensures Served(s, front + [i]) == Served(s, front) + [Reply(Ok(Gen(s, i)), s.model.PlainPacket(i))]
  {
  }

  /** Every arrival so far survived and was served. */
  predicate Unharmed(s: Stream, k: nat, order: seq<nat>)
    requires s.Valid()
  {
    Survivors(s, k, order) == order && Fates(s, k, order) == Served(s, order)
  }

  lemma UnharmedStep(s: Stream, k: nat, front: seq<nat>, i: nat, order: seq<nat>)
    requires s.Valid() && order == front + [i] && !FallsBehind(s, k, front, i) && Unharmed(s, k, front)
    ensures Unharmed(s, k, order)
  {
    assert order[..|front|] == front;
    ServedStep(s, front, i);
  }

  lemma {:induction false} AllSurvive(s: Stream, k: nat, order: seq<nat>, n: nat)
    requires s.Valid() && NoneBehind(s, k, order) && n <= |order|
    ensures Unharmed(s, k, order[..n])
  {
    if n == 0 {
      assert order[..n] == [];
    } else {
      AllSurvive(s, k, order, n - 1);
      assert !FallsBehindAt(s, k, order, n - 1);
      UnharmedStep(s, k, order[..n - 1], order[n - 1], order[..n]);
    }
  }

  lemma {:induction false} AcceptsAllKept(s: Stream, k: nat, order: seq<nat>, n: nat)
    requires s.Valid() && NoneBehind(s, k, order) && AcceptsAll(s, order) && n <= |order|
    ensures AcceptsKept(s, k, order[..n])
  {
    if n > 0 {
      AcceptsAllKept(s, k, order, n - 1);
      AllSurvive(s, k, order, n - 1);
      assert order[..n][..n - 1] == order[..n - 1];
      assert AcceptsAt(s, order, n - 1);
    }
  }

  lemma {:induction false} TrackedPrefix(s: Stream, seekCap: nat, order: seq<nat>, n: nat)
    requires s.Valid() && Tracked(s, seekCap, order) && n <= |order|
    ensures Tracked(s, seekCap, order[..n])
    ensures n < |order| ==> Reached(s, seekCap, order[..n], order[n])
    decreases |order|
  {
    if n == |order| {
      assert order[..n] == order;
    } else if n < |order| - 1 {
      TrackedPrefix(s, seekCap, order[..|order| - 1], n);
      assert order[..|order| - 1][..n] == order[..n];
    }
  }

  /**
   * For every arrival order and every granularity: if each arrival can be located within the seek
   * cap and none lies K generations behind, every packet that arrives is decrypted, under the
   * generation the sender used for it, and nothing is dropped.
   */
  lemma NothingIsLost(s: Stream, k: nat, seekCap: nat, order: seq<nat>)
    requires s.Valid() && k >= 1 && Tracked(s, seekCap, order) && NoneBehind(s, k, order) && AcceptsAll(s, order)
    ensures ReceiverFor(s, k, seekCap).Valid() && Survivors(s, k, order) == order
    ensures Caught(s, k, order, Run(ReceiverFor(s, k, seekCap), Init, Wires(s, order)).0)
    ensures Run(ReceiverFor(s, k, seekCap), Init, Wires(s, order)).1 == Served(s, order)
  {
    assert order[..|order|] == order;
    AllSurvive(s, k, order, |order|);
    AcceptsAllKept(s, k, order, |order|);
    ExactKeyingLoss(s, k, seekCap, order);
  }
}
