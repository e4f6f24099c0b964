/** The benchmark's third cross-check, made at packet level: is the worst catch-up the worst gap plus one? */
module ThirdCheck {
  import opened Arithmetic
  import opened Options
  import opened IndexRecovery
  import opened MediaStream
  import opened Displacement
  import opened ReceiverSpec
  import opened ReceiverRuns
  import opened KeyingLoss
  import opened Misplacement

  /** At packet level frontier and reference are the same number. */
  function At(h: Option<nat>): Track { Track(h, h) }

  lemma PacketBurst(s: Stream, h: Option<nat>, i: nat, seekCap: nat)
    requires s.Valid() && s.granularity.Packet?
    ensures Burst(s, At(h), i) == CatchupTo(h, Guess(h, i))
    ensures Misled(s, At(h), i, seekCap) <==> !PlaceableFrom(h, i) && 1 <= Burst(s, At(h), i) <= seekCap
    ensures Advances(s, At(h), i, seekCap) <==> PlaceableFrom(h, i) && 1 <= CatchupTo(h, i) <= seekCap
    ensures PlaceableFrom(h, i) ==> Guess(h, i) == i
  {
    ClaimedRight(s, h, i);
  }

  // ------------------------------------------------- runs that are followed

  /** Every arrival beyond the newest can be placed within the seek cap. */
  predicate Followed(s: Stream, order: seq<nat>, seekCap: nat)
    requires s.Valid()
  {
    order == [] ||
    var n := |order| - 1;
    && Followed(s, order[..n], seekCap)
    && (CatchupTo(MaxIndex(order[..n]), order[n]) > 0 ==> Advances(s, At(MaxIndex(order[..n])), order[n], seekCap))
  }

  lemma {:induction false} FollowedReference(s: Stream, order: seq<nat>, seekCap: nat)
    requires s.Valid() && s.granularity.Packet? && Followed(s, order, seekCap)
    ensures TrackAfter(s, order, seekCap) == At(MaxIndex(order))
  {
    if order != [] {
      var n := |order| - 1;
      FollowedReference(s, order[..n], seekCap);
      PacketBurst(s, MaxIndex(order[..n]), order[n], seekCap);
    }
  }

  function WorstMisled(s: Stream, order: seq<nat>, seekCap: nat): nat
    requires s.Valid()
  {
    if order == [] then 0
    else
      var n := |order| - 1;
      Max(WorstMisled(s, order[..n], seekCap), if MisledAt(s, order, seekCap, n) then BurstAt(s, order, seekCap, n) else 0)
  }

  /** One followed arrival needs the keys of its gap, or wastes its burst, or neither. */
  lemma FollowedBurst(s: Stream, before: seq<nat>, i: nat, seekCap: nat)
    requires s.Valid() && s.granularity.Packet?
    requires CatchupTo(MaxIndex(before), i) > 0 ==> Advances(s, At(MaxIndex(before)), i, seekCap)
    ensures var burst := Burst(s, At(MaxIndex(before)), i);
      (if burst <= seekCap then burst else 0)
      == Max(CatchupTo(MaxIndex(before), i), if Misled(s, At(MaxIndex(before)), i, seekCap) then burst else 0)
  {
    PacketBurst(s, MaxIndex(before), i, seekCap);
  }

  lemma {:induction false} WorstBurstSplits(s: Stream, order: seq<nat>, seekCap: nat)
    requires s.Valid() && s.granularity.Packet? && Followed(s, order, seekCap)
    ensures WorstBurst(s, order, seekCap) == Max(WorstJump(s, order), WorstMisled(s, order, seekCap))
  {
    if order != [] {
      var n := |order| - 1;
      WorstBurstSplits(s, order[..n], seekCap);
      FollowedReference(s, order[..n], seekCap);
      FollowedBurst(s, order[..n], order[n], seekCap);
      assert Newest(s, order[..n]) == MaxIndex(order[..n]);
    }
  }

  /** No misled arrival costs more keys than this. */
  predicate MisledWithin(s: Stream, order: seq<nat>, seekCap: nat, most: nat)
    requires s.Valid()
  {
    forall n | 0 <= n < |order| :: MisledAt(s, order, seekCap, n) ==> BurstAt(s, order, seekCap, n) <= most
  }

  lemma MisledWithinSnoc(s: Stream, order: seq<nat>, seekCap: nat, most: nat)
    requires s.Valid() && order != []
    ensures MisledWithin(s, order, seekCap, most)
       <==> MisledWithin(s, order[..|order| - 1], seekCap, most)
            && (MisledAt(s, order, seekCap, |order| - 1) ==> BurstAt(s, order, seekCap, |order| - 1) <= most)
  {
    var front := order[..|order| - 1];
    forall n | 0 <= n < |front|
      ensures MisledAt(s, front, seekCap, n) == MisledAt(s, order, seekCap, n)
      ensures BurstAt(s, front, seekCap, n) == BurstAt(s, order, seekCap, n)
    {
      PrefixAt(s, order, seekCap, n);
    }
  }

  lemma {:induction false} WorstMisledAtMost(s: Stream, order: seq<nat>, seekCap: nat, most: nat)
    requires s.Valid()
    ensures WorstMisled(s, order, seekCap) <= most <==> MisledWithin(s, order, seekCap, most)
  {
    if order != [] {
      WorstMisledAtMost(s, order[..|order| - 1], seekCap, most);
      MisledWithinSnoc(s, order, seekCap, most);
    }
  }

  // ------------------------------------------------- runs that are not

  /** A jump that can neither be followed nor is refused by the seek cap leaves half the sequence space behind. */
  lemma LostJump(s: Stream, before: seq<nat>, i: nat, seekCap: nat)
    requires s.Valid() && s.granularity.Packet? && CatchupTo(MaxIndex(before), i) > 0
    requires !Advances(s, At(MaxIndex(before)), i, seekCap) && Burst(s, At(MaxIndex(before)), i) <= seekCap
    ensures Skipped(before, i) + 1 >= 32_768
  {
    PacketBurst(s, MaxIndex(before), i, seekCap);
  }

  lemma {:induction false} UnfollowedGap(s: Stream, order: seq<nat>, seekCap: nat)
    requires s.Valid() && s.granularity.Packet? && !Followed(s, order, seekCap) && SeekDrops(s, order, seekCap) == 0
    ensures Displaced(order).maxGap + 1 >= 32_768
  {
    var n := |order| - 1;
    if Followed(s, order[..n], seekCap) {
      FollowedReference(s, order[..n], seekCap);
      LostJump(s, order[..n], order[n], seekCap);
    } else {
      UnfollowedGap(s, order[..n], seekCap);
    }
  }

  // ------------------------------------------------- the check

  /** The check as it is made: at packet level, without seek-cap drops, on runs that deliver something. */
  predicate Passes(order: seq<nat>, st: State)
  {
    st.stats.dropsSeekCap == 0 && order != [] ==> st.stats.maxCatchup == Displaced(order).maxGap + 1
  }

  /** Every jump ahead is followed, and no misled arrival costs more keys than the worst gap. */
  predicate Explained(s: Stream, order: seq<nat>, seekCap: nat)
    requires s.Valid()
  {
    Followed(s, order, seekCap) && MisledWithin(s, order, seekCap, Displaced(order).maxGap + 1)
  }

  /** The worst burst is the worst gap plus one exactly then, for seek caps below half the sequence space. */
  lemma WorstBurstIsWorstGapIff(s: Stream, order: seq<nat>, seekCap: nat)
    requires s.Valid() && s.granularity.Packet? && order != [] && SeekDrops(s, order, seekCap) == 0 && seekCap <= 32_767
    ensures WorstBurst(s, order, seekCap) == Displaced(order).maxGap + 1 <==> Explained(s, order, seekCap)
  {
    if Followed(s, order, seekCap) {
      WorstBurstSplits(s, order, seekCap);
      WorstCatchupIsWorstGap(s, order);
      WorstMisledAtMost(s, order, seekCap, Displaced(order).maxGap + 1);
    } else {
      UnfollowedGap(s, order, seekCap);
    }
  }

  /**
   * The third cross-check compares two numbers that follow from the positions, for every seek cap;
   * below half the sequence space it passes if and only if the seek cap dropped something, nothing
   * arrived, or every jump ahead was followed and no misled arrival cost more keys than the worst gap.
   */
  lemma ThirdCheckIff(s: Stream, k: nat, seekCap: nat, order: seq<nat>)
    requires s.Valid() && s.granularity.Packet? && k >= 1 && Discerning(s, k, seekCap, order)
    ensures var st := Run(ReceiverFor(s, k, seekCap), Init, Wires(s, order)).0;
      && (Passes(order, st) <==> SeekDrops(s, order, seekCap) > 0 || order == []
                                 || WorstBurst(s, order, seekCap) == Displaced(order).maxGap + 1)
      && (seekCap <= 32_767 ==>
            (Passes(order, st) <==> SeekDrops(s, order, seekCap) > 0 || order == [] || Explained(s, order, seekCap)))
  {
    RunWastes(s, k, seekCap, order);
    if order != [] && SeekDrops(s, order, seekCap) == 0 && seekCap <= 32_767 {
      WorstBurstIsWorstGapIff(s, order, seekCap);
    }
  }

  /**
   * Above half the sequence space the two numbers can agree by accident: the jump to 80000 is not
   * followed, but it is exactly as wide as the one to 40000, which is.
   */
  lemma AgreesByAccident(s: Stream, seekCap: nat)
    requires s.Valid() && s.granularity.Packet? && seekCap >= 40_000
    ensures var order := [0, 40_000, 80_000];
      && !Followed(s, order, seekCap) && SeekDrops(s, order, seekCap) == 0
      && WorstBurst(s, order, seekCap) == Displaced(order).maxGap + 1
  {
    AccidentBursts(s, seekCap);
    assert [] + [0] == [0] && [0] + [40_000] == [0, 40_000] && [0, 40_000] + [80_000] == [0, 40_000, 80_000];
    AccidentStep(s, [], 0, seekCap, None, 0, 0);
    AccidentStep(s, [0], 40_000, seekCap, Some(0), 1, 0);
    AccidentStep(s, [0, 40_000], 80_000, seekCap, Some(40_000), 40_000, 39_999);
  }

  lemma AccidentBursts(s: Stream, seekCap: nat)
    requires s.Valid() && s.granularity.Packet? && seekCap >= 40_000
    ensures Burst(s, At(None), 0) == 1 && Next(s, At(None), 0, seekCap) == At(Some(0)) && Advances(s, At(None), 0, seekCap)
    ensures Burst(s, At(Some(0)), 40_000) == 40_000 && Next(s, At(Some(0)), 40_000, seekCap) == At(Some(40_000))
    ensures Advances(s, At(Some(0)), 40_000, seekCap)
    ensures Burst(s, At(Some(40_000)), 80_000) == 0 && !Advances(s, At(Some(40_000)), 80_000, seekCap)
  {
    PacketBurst(s, None, 0, seekCap);
    PacketBurst(s, Some(0), 40_000, seekCap);
    PacketBurst(s, Some(40_000), 80_000, seekCap);
    assert Guess(Some(40_000), 80_000) == 14_464;
  }

  /** The state of both numbers after these arrivals. */
  predicate Numbers(s: Stream, order: seq<nat>, seekCap: nat, h: Option<nat>, burst: nat, gap: nat)
    requires s.Valid()
  {
    && TrackAfter(s, order, seekCap) == At(h) && MaxIndex(order) == h && SeekDrops(s, order, seekCap) == 0
    && WorstBurst(s, order, seekCap) == burst && Displaced(order).maxGap == gap && Followed(s, order, seekCap)
  }

  lemma AccidentStep(s: Stream, front: seq<nat>, i: nat, seekCap: nat, h: Option<nat>, burst: nat, gap: nat)
    requires s.Valid() && s.granularity.Packet? && Numbers(s, front, seekCap, h, burst, gap)
    requires Burst(s, At(h), i) <= seekCap && CatchupTo(h, i) > 0
    ensures var order := front + [i];
      && SeekDrops(s, order, seekCap) == 0 && WorstBurst(s, order, seekCap) == Max(burst, Burst(s, At(h), i))
      && Displaced(order).maxGap == Max(gap, Skipped(front, i)) && MaxIndex(order) == Some(i)
      && (Followed(s, order, seekCap) <==> Advances(s, At(h), i, seekCap))
      && TrackAfter(s, order, seekCap) == Next(s, At(h), i, seekCap)
  {
    assert (front + [i])[..|front|] == front;
  }
}
