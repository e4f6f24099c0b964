/** The measurement loop (benches/realistic_receiver.rs, `run`): produce, stash, feed, account. */
module Benchmark {
  import opened Arithmetic
  import opened Options
  import opened ByteStrings
  import opened Ratchet
  import opened Generation
  import opened MediaStream
  import opened Network
  import opened Displacement
  import opened ReceiverSpec
  import opened Receiver
  import opened KeyingLoss
  import opened EndToEnd
  import opened Misplacement
  import ThirdCheck
  import ReceiverRuns

  /** The stash holds exactly what was produced and has not arrived yet. */
  ghost predicate Stashed(s: Stream, stash: map<nat, Bytes>, produced: nat, arrived: seq<nat>)
    requires s.Valid()
  {
    && (forall j: nat :: j in stash <==> j < produced && j !in arrived)
    && (forall j: nat | j in stash :: stash[j] == s.Wire(j))
    && (forall j | j in arrived :: j < produced)
  }

  lemma StashProduced(s: Stream, stash: map<nat, Bytes>, produced: nat, arrived: seq<nat>)
    requires s.Valid() && Stashed(s, stash, produced, arrived)
    ensures Stashed(s, stash[produced := s.Wire(produced)], produced + 1, arrived)
  {
  }

  lemma StashFetched(s: Stream, stash: map<nat, Bytes>, produced: nat, arrived: seq<nat>, i: nat)
    requires s.Valid() && Stashed(s, stash, produced, arrived) && i in stash
    ensures Stashed(s, stash - {i}, produced, arrived + [i])
  {
  }

  lemma StashPassed(s: Stream, stash: map<nat, Bytes>, i: nat, arrived: seq<nat>)
    requires s.Valid() && Stashed(s, stash, i, arrived)
    ensures Stashed(s, stash, i + 1, arrived + [i])
  {
  }

  /** Fetches packet i, producing everything sent before it that is still missing. */
  method Fetch(ghost s: Stream, sender: SimulatedSender, stash: map<nat, Bytes>, ghost arrived: seq<nat>, i: nat)
    returns (wire: Bytes, stash': map<nat, Bytes>)
    requires s.Valid() && sender.Valid() && sender.Image() == s
    requires Stashed(s, stash, sender.nextI, arrived) && i !in arrived
    modifies sender`nextI, sender.crypto, sender.crypto.session, sender.crypto.ratchet
    ensures sender.Valid() && sender.Image() == s
    ensures wire == s.Wire(i) && Stashed(s, stash', sender.nextI, arrived + [i])
  {
    stash' := stash;
    if i in stash' {
      wire := stash'[i];
      StashFetched(s, stash', sender.nextI, arrived, i);
      stash' := stash' - {i};
    } else {
      // never "neither stashed nor producible"
      assert sender.nextI <= i;
      while true
        invariant sender.Valid() && sender.Image() == s
        invariant old(sender.nextI) <= sender.nextI <= i
        invariant Stashed(s, stash', sender.nextI, arrived)
        decreases i - sender.nextI
      {
        var j, b := sender.NextProtected();
        if j == i {
          wire := b;
          StashPassed(s, stash', i, arrived);
          break;
        }
        StashProduced(s, stash', j, arrived);
        stash' := stash'[j := b];
      }
    }
  }

  /** Successful calls by how their generation compares to the newest one before, and the keys the advances derived. */
  datatype Attribution = Attribution(advances: nat, currents: nat, stragglers: nat, depth: nat)

  method Classify(a: Attribution, maxG: Option<nat>, g: nat) returns (a': Attribution, maxG': Option<nat>)
    ensures a'.advances + a'.currents + a'.stragglers == a.advances + a.currents + a.stragglers + 1
    ensures maxG' == if g >= Derived(maxG) then Some(g) else maxG
    ensures a'.depth - a.depth == Derived(maxG') - Derived(maxG)
    ensures a'.advances - a.advances == One(maxG.None? || g > maxG.value)
    ensures a'.currents - a.currents == One(maxG == Some(g))
    ensures a'.stragglers - a.stragglers == One(maxG.Some? && g < maxG.value)
  {
    a', maxG' := a, maxG;
    if maxG.Some? && g < maxG.value {
      a' := a'.(stragglers := a'.stragglers + 1);
    } else if maxG.Some? && g == maxG.value {
      a' := a'.(currents := a'.currents + 1);
    } else {
      var depth := if maxG.Some? then g - maxG.value else g + 1;
      a' := a'.(advances := a'.advances + 1, depth := a'.depth + depth);
      maxG' := Some(g);
    }
  }

  datatype Outcome = Outcome(schedule: seq<Arrival>, net: NetworkStats, displacement: DisplacementStats,
                             replies: seq<Reply>, recv: RecvStats, frontier: Option<nat>, attribution: Attribution)

  /** Sender and receiver of one stream, sharing nothing. */
  ghost predicate Rig(s: Stream, c: Config, sender: SimulatedSender, receiver: ReceiverKeyManager)
    reads sender, sender.crypto, sender.crypto.session, sender.crypto.ratchet
    reads receiver, receiver.session, receiver.recovery, receiver.ring, receiver.ratchet
  {
    && s.Valid() && sender.Valid() && sender.Image() == s
    && receiver.Valid() && receiver.c == c
    && sender.crypto.session != receiver.session && sender.crypto.ratchet != receiver.ratchet
  }

  /** One arrival: fetch its bytes, hand them to the receiver. */
  method Feed(ghost s: Stream, ghost c: Config, sender: SimulatedSender, receiver: ReceiverKeyManager,
              stash: map<nat, Bytes>, ghost arrived: seq<nat>, i: nat)
    returns (reply: Reply, stash': map<nat, Bytes>)
    requires Rig(s, c, sender, receiver)
    requires Stashed(s, stash, sender.nextI, arrived) && i !in arrived
    modifies sender`nextI, sender.crypto, sender.crypto.session, sender.crypto.ratchet
    modifies receiver, receiver.session, receiver.ring, receiver.recovery
    ensures Rig(s, c, sender, receiver) && (receiver.ratchet == old(receiver.ratchet) || fresh(receiver.ratchet))
    ensures (receiver.Abs(), reply) == Step(c, old(receiver.Abs()), s.Wire(i))
    ensures Stashed(s, stash', sender.nextI, arrived + [i])
  {
    var wire: Bytes;
    wire, stash' := Fetch(s, sender, stash, arrived, i);
    assert receiver.Abs() == old(receiver.Abs());
    var result, out := receiver.Unprotect(wire);
    reply := Reply(result, out);
  }

  lemma RunSnoc(s: Stream, c: Config, order: seq<nat>, n: nat)
    requires s.Valid() && c.Valid() && n < |order|
    ensures var (before, replies) := Run(c, Init, Wires(s, order[..n]));
      var (after, reply) := Step(c, before, s.Wire(order[n]));
      Run(c, Init, Wires(s, order[..n + 1])) == (after, replies + [reply])
  {
    assert order[..n + 1][..n] == order[..n];
    RunStep(s, c, order[..n + 1]);
  }

  /** Everything the loop knows after a prefix of the arrivals, apart from the objects themselves. */
  ghost predicate Progress(s: Stream, c: Config, arrived: seq<nat>, st: State, replies: seq<Reply>,
                           maxG: Option<nat>, a: Attribution)
  {
    && s.Valid() && c.Valid() && (st, replies) == Run(c, Init, Wires(s, arrived))
    && maxG == st.frontier && a.depth == Derived(maxG)
    && a.advances + a.currents + a.stragglers == st.stats.decrypted
  }

  /** The bookkeeping after one more reply. */
  method Account(ghost s: Stream, ghost c: Config, ghost order: seq<nat>, ghost n: nat, ghost st: State, ghost st': State,
                 replies: seq<Reply>, maxG: Option<nat>, a: Attribution, reply: Reply)
    returns (replies': seq<Reply>, maxG': Option<nat>, a': Attribution)
    requires n < |order| && Progress(s, c, order[..n], st, replies, maxG, a)
    requires (st', reply) == Step(c, st, s.Wire(order[n]))
    ensures Progress(s, c, order[..n + 1], st', replies', maxG', a')
  {
    RunSnoc(s, c, order, n);
    ReceiverRuns.StepFrontier(c, st, s.Wire(order[n]));
    ReceiverRuns.StepCounts(c, st, s.Wire(order[n]));
    replies', maxG', a' := replies + [reply], maxG, a;
    if reply.result.Ok? {
      a', maxG' := Classify(a, maxG, reply.result.generation);
    }
  }

  /** Two endpoints keyed from the same seed. */
  method Assemble(s: Stream, k: nat, seekCap: nat) returns (sender: SimulatedSender, receiver: ReceiverKeyManager)
    requires s.Valid() && k >= 1
    ensures fresh({sender, sender.crypto, sender.crypto.session, sender.crypto.ratchet}) && fresh(receiver.Repr())
    ensures Rig(s, ReceiverFor(s, k, seekCap), sender, receiver)
    ensures sender.nextI == 0 && receiver.Abs() == Init
  {
    sender := new SimulatedSender(s.model, s.granularity, s.srtp, s.kdf, s.seed);
    var ratchet := new StreamRatchet.FromSeed(s.kdf, s.seed);
    receiver := new ReceiverKeyManager(ForGranularity(s.granularity, START_TS, FRAME_PERIOD, 0),
                                       s.srtp, ratchet, k, seekCap, s.seed);
  }

  lemma NextArrival(order: seq<nat>, n: nat)
    requires Distinct(order) && n < |order|
    ensures order[n] !in order[..n] && order[..n + 1] == order[..n] + [order[n]]
  {
  }

  /** The loop itself: each call gets exactly its own packet's bytes. */
  method FeedFrom(ghost s: Stream, ghost c: Config, sender: SimulatedSender, receiver: ReceiverKeyManager, order: seq<nat>)
    returns (replies: seq<Reply>, maxG: Option<nat>, attribution: Attribution)
    requires Rig(s, c, sender, receiver) && sender.nextI == 0 && receiver.Abs() == Init && Distinct(order)
    modifies sender`nextI, sender.crypto, sender.crypto.session, sender.crypto.ratchet
    modifies receiver, receiver.session, receiver.ring, receiver.recovery
    ensures Progress(s, c, order, receiver.Abs(), replies, maxG, attribution)
  {
    var stash: map<nat, Bytes> := map[];
    replies, maxG, attribution := [], None, Attribution(0, 0, 0, 0);
    for call := 0 to |order|
      invariant Rig(s, c, sender, receiver)
      invariant Stashed(s, stash, sender.nextI, order[..call])
      invariant Progress(s, c, order[..call], receiver.Abs(), replies, maxG, attribution)
    {
      ghost var st, arrived := receiver.Abs(), order[..call];
      NextArrival(order, call);
      var reply: Reply;
      reply, stash := Feed(s, c, sender, receiver, stash, arrived, order[call]);
      replies, maxG, attribution := Account(s, c, order, call, st, receiver.Abs(), replies, maxG, attribution, reply);
    }
    assert order[..|order|] == order;
  }

  /** Feeds every arrival, in arrival order, to a fresh receiver. */
  method FeedAll(s: Stream, order: seq<nat>, k: nat, seekCap: nat)
    returns (replies: seq<Reply>, recv: RecvStats, frontier: Option<nat>, attribution: Attribution)
    requires s.Valid() && k >= 1 && Distinct(order)
    ensures ReceiverFor(s, k, seekCap).Valid()
    ensures var (st, rs) := Run(ReceiverFor(s, k, seekCap), Init, Wires(s, order));
      replies == rs && recv == st.stats && frontier == st.frontier
    ensures attribution.advances + attribution.currents + attribution.stragglers == recv.decrypted
    ensures attribution.depth == Derived(frontier)
  {
    var sender, receiver := Assemble(s, k, seekCap);
    var maxG;
    replies, maxG, attribution := FeedFrom(s, ReceiverFor(s, k, seekCap), sender, receiver, order);
    recv, frontier := receiver.stats, receiver.frontier;
  }

  /** The counter cross-checks that guard the published numbers. */
  predicate ChecksPass(granularity: Granularity, out: Outcome)
  {
    && out.net.delivered == out.recv.decrypted + out.recv.Drops()
    && out.recv.catchupSteps == Derived(out.frontier)
    && (granularity.Packet? && out.recv.dropsSeekCap == 0 && out.net.delivered > 0 ==>
          out.recv.maxCatchup == out.displacement.maxGap + 1)
  }

  /** The network's half of an outcome: what arrived, in which order, and how that was counted. */
  ghost predicate Carried(b: Bench, draws: seq<Draws>, out: Outcome)
    requires b.model.ppf >= 1
  {
    Delivery(b, draws, out.schedule) && Conserved(out.net, !b.singlePath)
  }

  /** The receiver's half: the state and replies its specification reaches on what arrived. */
  predicate Reports(out: Outcome, order: seq<nat>, st: State, replies: seq<Reply>)
  {
    && out.displacement == Displaced(order) && out.net.delivered == |order|
    && out.replies == replies && out.recv == st.stats && out.frontier == st.frontier
  }

  predicate Received(s: Stream, k: nat, seekCap: nat, out: Outcome)
    requires s.Valid() && k >= 1
  {
    var order := Indexes(out.schedule);
    var r := Run(ReceiverFor(s, k, seekCap), Init, Wires(s, order));
    Reports(out, order, r.0, r.1)
  }

  lemma ReceivedLedger(s: Stream, k: nat, seekCap: nat, out: Outcome)
    requires s.Valid() && k >= 1 && Received(s, k, seekCap, out)
    ensures out.net.delivered == out.recv.decrypted + out.recv.Drops()
    ensures out.recv.catchupSteps == out.recv.catchupStepsWasted + Derived(out.frontier)
  {
    ReceiverRuns.RunLedger(ReceiverFor(s, k, seekCap), Wires(s, Indexes(out.schedule)));
  }

  lemma ReportedChecks(granularity: Granularity, order: seq<nat>, st: State, replies: seq<Reply>, out: Outcome)
    requires Reports(out, order, st, replies) && ChecksHold(granularity, order, st)
    ensures ChecksPass(granularity, out)
  {
  }

  lemma ReportedLoss(granularity: Granularity, order: seq<nat>, k: nat, st: State, replies: seq<Reply>, out: Outcome)
    requires Reports(out, order, st, replies) && ExactStats(granularity, order, k, st)
    ensures ChecksPass(granularity, out) && (granularity.Packet? ==> out.recv.dropsBehind == LateBy(order, k))
  {
  }

  /** An exact loss shows in what the outcome reports. */
  lemma LossReported(s: Stream, k: nat, seekCap: nat, order: seq<nat>, out: Outcome)
    requires s.Valid() && k >= 1 && order == Indexes(out.schedule) && Received(s, k, seekCap, out)
    requires LosesExactly(s, order, k, seekCap)
    ensures ChecksPass(s.granularity, out) && (s.granularity.Packet? ==> out.recv.dropsBehind == LateBy(order, k))
  {
    var r := Run(ReceiverFor(s, k, seekCap), Init, Wires(s, order));
    ReportedLoss(s.granularity, order, k, r.0, r.1, out);
  }

  /** For every key window, also one that drops packets, all cross-checks pass and the loss is exact. */
  lemma SweptOutcome(s: Stream, b: Bench, draws: seq<Draws>, k: nat, seekCap: nat, out: Outcome)
    requires s.Valid() && k >= 1 && b.model == s.model && Carried(b, draws, out) && Received(s, k, seekCap, out)
    requires Sweepable(s, b, draws, out.schedule, k, seekCap)
    ensures FatesMet(s, Indexes(out.schedule), k, seekCap) && ChecksPass(s.granularity, out)
    ensures s.granularity.Packet? ==> out.recv.dropsBehind == LateBy(Indexes(out.schedule), k)
  {
    SweepLosesExactly(s, b, draws, out.schedule, k, seekCap);
    LossReported(s, k, seekCap, Indexes(out.schedule), out);
  }

  /** When the limits cover the disturbance nothing is lost either. */
  lemma ProvisionedOutcome(s: Stream, b: Bench, draws: seq<Draws>, k: nat, seekCap: nat, out: Outcome)
    requires s.Valid() && k >= 1 && b.model == s.model && Carried(b, draws, out) && Received(s, k, seekCap, out)
    requires Provisioned(s, b, draws, out.schedule, k, seekCap)
    ensures AllServed(s, Indexes(out.schedule), k, seekCap)
    ensures out.recv.Drops() == 0 && ChecksPass(s.granularity, out)
  {
    DeliveredMeansDecrypted(s, b, draws, out.schedule, k, seekCap);
    var order := Indexes(out.schedule);
    var r := Run(ReceiverFor(s, k, seekCap), Init, Wires(s, order));
    ReportedChecks(s.granularity, order, r.0, r.1, out);
  }

  /** At every granularity the second cross-check passes if and only if no arrival is misled. */
  lemma SecondCrossCheckIff(s: Stream, k: nat, seekCap: nat, out: Outcome)
    requires s.Valid() && k >= 1 && Received(s, k, seekCap, out) && Discerning(s, k, seekCap, Indexes(out.schedule))
    ensures out.recv.catchupSteps == Derived(out.frontier) <==> NoneMisled(s, Indexes(out.schedule), seekCap)
  {
    SecondCheckIff(s, k, seekCap, Indexes(out.schedule));
  }

  /** The third, as the source makes it: at packet level, without seek-cap drops, when something was delivered. */
  predicate ThirdCrossCheck(out: Outcome)
  {
    out.recv.dropsSeekCap == 0 && out.net.delivered > 0 ==> out.recv.maxCatchup == out.displacement.maxGap + 1
  }

  /** It passes if and only if every jump ahead is followed and no misled arrival costs more keys than the worst gap. */
  lemma ThirdCrossCheckIff(s: Stream, k: nat, seekCap: nat, out: Outcome)
    requires s.Valid() && s.granularity.Packet? && k >= 1 && Received(s, k, seekCap, out) && seekCap <= 32_767
    requires Discerning(s, k, seekCap, Indexes(out.schedule))
    ensures var order := Indexes(out.schedule);
      ThirdCrossCheck(out)
      <==> SeekDrops(s, order, seekCap) > 0 || order == [] || ThirdCheck.Explained(s, order, seekCap)
  {
    ThirdCheck.ThirdCheckIff(s, k, seekCap, Indexes(out.schedule));
  }

  /** One whole run. */
  method RunOnce(s: Stream, b: Bench, draws: seq<Draws>, k: nat, seekCap: nat) returns (out: Outcome)
    requires s.Valid() && k >= 1 && b.model == s.model && b.Net(draws).Valid()
    ensures Carried(b, draws, out) && Received(s, k, seekCap, out)
    ensures out.net.delivered == out.recv.decrypted + out.recv.Drops()
    ensures out.recv.catchupSteps == out.recv.catchupStepsWasted + out.attribution.depth
    ensures out.attribution.advances + out.attribution.currents + out.attribution.stragglers == out.recv.decrypted
    ensures out.attribution.depth == Derived(out.frontier)
  {
    var schedule, net := Disturb(b.Net(draws));
    var displacement := MeasureDisplacement(Indexes(schedule));
    ScheduleDistinct(b.Net(draws), schedule);
    var replies, recv, frontier, attribution := FeedAll(s, Indexes(schedule), k, seekCap);
    out := Outcome(schedule, net, displacement, replies, recv, frontier, attribution);
    ReceivedLedger(s, k, seekCap, out);
  }
}
