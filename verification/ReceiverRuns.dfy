/** Properties of every run of the windowed receiver. */
module ReceiverRuns {
  import opened Arithmetic
  import opened Options
  import opened ByteStrings
  import opened Session
  import opened IndexRecovery
  import opened Generation
  import opened ReceiverSpec

  // ------------------------------------------------- failed packets leave no trace

  /** Everything a later packet's fate can depend on; the ring and the ratchet are functions of the frontier. */
  datatype Core = Core(frontier: Option<nat>, highest: Option<nat>, accepted: seq<Accepted>)

  function CoreOf(s: State): Core { Core(s.frontier, s.highest, s.accepted) }

  lemma DecideReadsCore(c: Config, s: State, t: State, g: nat, index: Option<nat>, jump: nat, buf: Bytes)
    requires CoreOf(s) == CoreOf(t)
    ensures Decide(c, s, g, index, jump, buf).1 == Decide(c, t, g, index, jump, buf).1
    ensures CoreOf(Decide(c, s, g, index, jump, buf).0) == CoreOf(Decide(c, t, g, index, jump, buf).0)
    ensures Decide(c, s, g, index, jump, buf).1.result.Err? ==> CoreOf(Decide(c, s, g, index, jump, buf).0) == CoreOf(s)
  {
  }

  /** Neither the counters nor the installed generation influence a reply; a failure changes nothing else. */
  lemma StepReadsCore(c: Config, s: State, t: State, buf: Bytes)
    requires c.Valid() && CoreOf(s) == CoreOf(t)
    ensures Step(c, s, buf).1 == Step(c, t, buf).1
    ensures CoreOf(Step(c, s, buf).0) == CoreOf(Step(c, t, buf).0)
    ensures Step(c, s, buf).1.result.Err? ==> CoreOf(Step(c, s, buf).0) == CoreOf(s)
  {
    if |buf| >= RTP_HEADER_LEN {
      var l := Locate(c.scheme, s.highest, SeqField(buf), TimestampField(buf));
      if l.Located? {
        DecideReadsCore(c, Hit(s), Hit(t), l.g, l.index, 0, buf);
        var jump := CatchupTo(s.frontier, l.g);
        DecideReadsCore(c, CaughtUp(s, jump), CaughtUp(t, jump), l.g, l.index, jump, buf);
      }
    }
  }

  function Kept<T>(s: seq<T>, keep: seq<bool>): seq<T>
    requires |s| == |keep|
  {
    if s == [] then []
    else Kept(s[..|s| - 1], keep[..|s| - 1]) + if keep[|s| - 1] then [s[|s| - 1]] else []
  }

  /**
   * Forged, replayed, too old and too far packets can be struck out of a run, any number of
   * them: the state that matters and every reply to a remaining packet stay the same.
   */
  lemma {:induction false} FailedPacketsAreErasable(c: Config, s: State, t: State, packets: seq<Bytes>, keep: seq<bool>)
    requires c.Valid() && CoreOf(s) == CoreOf(t) && |keep| == |packets|
    requires forall i | 0 <= i < |packets| :: !keep[i] ==> Run(c, s, packets).1[i].result.Err?
    ensures CoreOf(Run(c, t, Kept(packets, keep)).0) == CoreOf(Run(c, s, packets).0)
    ensures Run(c, t, Kept(packets, keep)).1 == Kept(Run(c, s, packets).1, keep)
  {
    if packets != [] {
      var n := |packets| - 1;
      var front, last := packets[..n], packets[n];
      var (before, replies) := Run(c, s, front);
      var all := Run(c, s, packets).1;
      assert all[..n] == replies;
      assert forall i | 0 <= i < n :: all[i] == replies[i];
      FailedPacketsAreErasable(c, s, t, front, keep[..n]);
      var kept := Kept(front, keep[..n]);
      StepReadsCore(c, before, Run(c, t, kept).0, last);
      assert all[n] == Step(c, before, last).1;
      if keep[n] {
        assert (kept + [last])[..|kept|] == kept;
      } else {
        assert Kept(packets, keep) == kept;
      }
    }
  }

  // ------------------------------------------------- counters

  function Count(replies: seq<Reply>, outcome: Option<RecvDrop>): nat
  {
    if replies == [] then 0
    else
      var last := replies[|replies| - 1].result;
      Count(replies[..|replies| - 1], outcome)
        + if (if last.Ok? then outcome == None else outcome == Some(last.drop)) then 1 else 0
  }

  /** What holds between packets in every run that starts fresh. */
  predicate Ledger(c: Config, s: State)
  {
    && s.stats.catchupSteps == s.stats.catchupStepsWasted + Derived(s.frontier)
    && s.stats.maxCatchup <= c.seekCap
    && s.stats.decrypted == |s.accepted|
    // the loaded key is never one that was deleted
    && (s.installed.Some? ==> s.installed.value + c.k >= Derived(s.frontier))
    && (s.installed.None? ==> s.frontier.None?)
    // nothing is recovered beyond what was derived
    && (s.highest.Some? ==> s.frontier.Some?)
  }

  /** One call adds one to the counter its result names, and to no other outcome counter. */
  predicate CountedOnce(s: RecvStats, s': RecvStats, result: Result)
  {
    var t := if result.Ok? then s.(decrypted := s.decrypted + 1) else s.Dropped(result.drop);
    && s'.decrypted == t.decrypted && s'.dropsBehind == t.dropsBehind && s'.dropsSeekCap == t.dropsSeekCap
    && s'.dropsReplay == t.dropsReplay && s'.dropsAuth == t.dropsAuth
  }

  lemma DecideCounts(c: Config, s: State, g: nat, index: Option<nat>, jump: nat, buf: Bytes)
    ensures CountedOnce(s.stats, Decide(c, s, g, index, jump, buf).0.stats, Decide(c, s, g, index, jump, buf).1.result)
    ensures Decide(c, s, g, index, jump, buf).0.stats.catchupSteps == s.stats.catchupSteps
  {
  }

  lemma ActCounts(c: Config, s: State, located: Located, buf: Bytes)
    ensures CountedOnce(s.stats, Act(c, s, located, buf).0.stats, Act(c, s, located, buf).1.result)
    ensures s.stats.catchupSteps <= Act(c, s, located, buf).0.stats.catchupSteps <= s.stats.catchupSteps + c.seekCap
  {
    if located.Located? {
      var p := Place(c.k, c.seekCap, s.frontier, located.g);
      if p.InWindow? {
        DecideCounts(c, Hit(s), located.g, located.index, 0, buf);
      } else if p.Ahead? {
        DecideCounts(c, CaughtUp(s, p.jump), located.g, located.index, p.jump, buf);
      }
    }
  }

  lemma StepCounts(c: Config, s: State, buf: Bytes)
    requires c.Valid()
    ensures CountedOnce(s.stats, Step(c, s, buf).0.stats, Step(c, s, buf).1.result)
    ensures s.stats.catchupSteps <= Step(c, s, buf).0.stats.catchupSteps <= s.stats.catchupSteps + c.seekCap
  {
    if |buf| >= RTP_HEADER_LEN {
      ActCounts(c, s, Locate(c.scheme, s.highest, SeqField(buf), TimestampField(buf)), buf);
    }
  }

  lemma RefuseLedger(c: Config, s: State, why: RecvDrop)
    requires Ledger(c, s)
    ensures Ledger(c, s.(stats := s.stats.Dropped(why)))
  {
  }

  lemma DecideLedger(c: Config, s: State, g: nat, index: Option<nat>, jump: nat, buf: Bytes)
    requires c.k >= 1
    requires s.stats.catchupSteps == s.stats.catchupStepsWasted + Derived(s.frontier) + jump
    requires s.stats.maxCatchup <= c.seekCap && s.stats.decrypted == |s.accepted|
    requires if jump > 0 then g + 1 == Derived(s.frontier) + jump else g < Derived(s.frontier) <= g + c.k
    requires s.highest.Some? ==> s.frontier.Some?
    ensures Ledger(c, Decide(c, s, g, index, jump, buf).0)
  {
  }

  lemma ActLedger(c: Config, s: State, located: Located, buf: Bytes)
    requires c.Valid() && Ledger(c, s)
    ensures Ledger(c, Act(c, s, located, buf).0)
  {
    if located.NoGeneration? {
      RefuseLedger(c, s, BehindWindow);
    } else {
      var g, index := located.g, located.index;
      match Place(c.k, c.seekCap, s.frontier, g)
      case InWindow => DecideLedger(c, Hit(s), g, index, 0, buf);
      case Ahead(jump) => DecideLedger(c, CaughtUp(s, jump), g, index, jump, buf);
      case _ => RefuseLedger(c, s, BehindWindow); RefuseLedger(c, s, SeekCapExceeded);
    }
  }

  lemma StepLedger(c: Config, s: State, buf: Bytes)
    requires c.Valid() && Ledger(c, s)
    ensures Ledger(c, Step(c, s, buf).0)
  {
    if |buf| < RTP_HEADER_LEN {
      RefuseLedger(c, s, RecvDrop.AuthFail);
    } else {
      ActLedger(c, s, Locate(c.scheme, s.highest, SeqField(buf), TimestampField(buf)), buf);
    }
  }

  /** The five outcome counters count the outcomes. */
  predicate Tallied(stats: RecvStats, replies: seq<Reply>)
  {
    && stats.decrypted == Count(replies, None)
    && stats.dropsBehind == Count(replies, Some(BehindWindow))
    && stats.dropsSeekCap == Count(replies, Some(SeekCapExceeded))
    && stats.dropsReplay == Count(replies, Some(SrtpReplay))
    && stats.dropsAuth == Count(replies, Some(RecvDrop.AuthFail))
    && stats.decrypted + stats.Drops() == |replies|
  }

  lemma TallyStep(before: RecvStats, after: RecvStats, replies: seq<Reply>, reply: Reply)
    requires Tallied(before, replies) && CountedOnce(before, after, reply.result)
    ensures Tallied(after, replies + [reply])
  {
    assert (replies + [reply])[..|replies|] == replies;
  }

  /**
   * Every generation up to the frontier was derived exactly once and kept, all other
   * derivations are accounted as wasted, and every call ended in exactly one counter.
   */
  lemma {:induction false} RunLedger(c: Config, packets: seq<Bytes>)
    requires c.Valid()
    ensures Ledger(c, Run(c, Init, packets).0)
    ensures Tallied(Run(c, Init, packets).0.stats, Run(c, Init, packets).1)
  {
    if packets != [] {
      var n := |packets| - 1;
      RunLedger(c, packets[..n]);
      var (before, replies) := Run(c, Init, packets[..n]);
      var (after, reply) := Step(c, before, packets[n]);
      StepLedger(c, before, packets[n]);
      StepCounts(c, before, packets[n]);
      TallyStep(before.stats, after.stats, replies, reply);
    }
  }

  // ------------------------------------------------- a packet that is served

  /** How many new keys generation g needs. */
  function CatchupTo(frontier: Option<nat>, g: nat): nat
  {
    if g < Derived(frontier) then 0 else g + 1 - Derived(frontier)
  }

  /** The whole effect of an authentic packet whose generation is within reach. */
  lemma StepServed(c: Config, s: State, buf: Bytes, g: nat, index: Option<nat>, plain: Bytes)
    requires c.Valid() && |buf| >= RTP_HEADER_LEN
    requires Locate(c.scheme, s.highest, SeqField(buf), TimestampField(buf)) == Located(g, index)
    requires Derived(s.frontier) <= g + c.k && CatchupTo(s.frontier, g) <= c.seekCap
    requires c.srtp.judge(c.Key(g), s.accepted, buf) == Accept(plain)
    ensures Step(c, s, buf).1 == Reply(Ok(g), plain)
    ensures var s' := Step(c, s, buf).0;
      && s'.frontier == (if CatchupTo(s.frontier, g) == 0 then s.frontier else Some(g))
      && s'.highest == (if index.Some? then Some(MaxWith(s.highest, index.value)) else s.highest)
      && s'.installed == Some(g)
      && s'.accepted == s.accepted + [Accepted(c.Key(g), buf)]
      && s'.stats.decrypted == s.stats.decrypted + 1 && s'.stats.Drops() == s.stats.Drops()
      && s'.stats.dropsBehind == s.stats.dropsBehind
      && s'.stats.maxCatchup == Max(s.stats.maxCatchup, CatchupTo(s.frontier, g))
      && s'.stats.catchupStepsWasted == s.stats.catchupStepsWasted
  {
  }

  /** A success names the located generation; a drop as behind means exactly that its key left the window. */
  lemma StepVerdicts(c: Config, s: State, buf: Bytes, g: nat, index: Option<nat>)
    requires c.Valid() && |buf| >= RTP_HEADER_LEN
    requires Locate(c.scheme, s.highest, SeqField(buf), TimestampField(buf)) == Located(g, index)
    ensures var (s', reply) := Step(c, s, buf);
      && (reply.result.Ok? ==> reply.result.generation == g)
      && (reply.result == Err(BehindWindow) <==> g + c.k < Derived(s.frontier))
      && (s'.highest == s.highest || (index.Some? && s'.highest == Some(MaxWith(s.highest, index.value))))
  {
  }

  /** The generation the header names, if it can be served from here, and the session's verdict under its key. */
  datatype Attempt = Unreadable | TooOld | OutOfReach | Tried(g: nat, verdict: Verdict)

  function AttemptOn(c: Config, s: State, buf: Bytes): Attempt
    requires c.Valid()
  {
    if |buf| < RTP_HEADER_LEN then Unreadable
    else
      var l := Locate(c.scheme, s.highest, SeqField(buf), TimestampField(buf));
      if l.NoGeneration? || l.g + c.k < Derived(s.frontier) then TooOld
      else if CatchupTo(s.frontier, l.g) > c.seekCap then OutOfReach
      else Tried(l.g, c.srtp.judge(c.Key(l.g), s.accepted, buf))
  }

  /** Every outcome has exactly one cause, and the session's three verdicts stay apart in reply and counters. */
  lemma StepOutcome(c: Config, s: State, buf: Bytes)
    requires c.Valid()
    ensures var a, reply := AttemptOn(c, s, buf), Step(c, s, buf).1;
      && (reply.result == Err(RecvDrop.AuthFail) <==> a.Unreadable? || (a.Tried? && a.verdict.AuthFail?))
      && (reply.result == Err(SrtpReplay) <==> a.Tried? && a.verdict.ReplayFail?)
      && (reply.result == Err(BehindWindow) <==> a.TooOld?)
      && (reply.result == Err(SeekCapExceeded) <==> a.OutOfReach?)
      && (reply.result.Ok? <==> a.Tried? && a.verdict.Accept?)
      && (reply.result.Ok? ==> reply == Reply(Ok(a.g), a.verdict.plain))
      && (reply.result.Err? ==> reply.buf == if a.Tried? then [] else buf)
  {
  }

  /** The key is loaded exactly when another one is, and a kept key is a cache hit, whatever the session then says. */
  lemma StepLoads(c: Config, s: State, buf: Bytes)
    requires c.Valid()
    ensures var a, s' := AttemptOn(c, s, buf), Step(c, s, buf).0;
      && s'.installed == (if a.Tried? then Some(a.g) else s.installed)
      && s'.stats.installs == s.stats.installs + One(s'.installed != s.installed)
      && s'.stats.cacheHits == s.stats.cacheHits + One(a.Tried? && a.g < Derived(s.frontier))
  {
  }

  /** What reaching a generation costs, and when the cost is in vain. */
  lemma StepWork(c: Config, s: State, buf: Bytes, g: nat, index: Option<nat>)
    requires c.Valid() && |buf| >= RTP_HEADER_LEN
    requires Locate(c.scheme, s.highest, SeqField(buf), TimestampField(buf)) == Located(g, index)
    ensures var (s', reply) := Step(c, s, buf);
      var jump, accepted := CatchupTo(s.frontier, g), c.srtp.judge(c.Key(g), s.accepted, buf).Accept?;
      && (reply.result.Ok? <==> Derived(s.frontier) <= g + c.k && jump <= c.seekCap && accepted)
      && s'.stats.catchupStepsWasted == s.stats.catchupStepsWasted + (if jump <= c.seekCap && !accepted then jump else 0)
      && s'.stats.maxCatchup == Max(s.stats.maxCatchup, if jump <= c.seekCap then jump else 0)
      && s'.stats.dropsSeekCap == s.stats.dropsSeekCap + One(jump > c.seekCap)
  {
  }

  /** The frontier is the newest generation ever decrypted. */
  lemma StepFrontier(c: Config, s: State, buf: Bytes)
    requires c.Valid()
    ensures var (s', reply) := Step(c, s, buf);
      s'.frontier ==
        if reply.result.Ok? && reply.result.generation >= Derived(s.frontier) then Some(reply.result.generation)
        else s.frontier
  {
  }

  /** Schemes that read the generation off the recovered position. */
  predicate UsesPosition(scheme: GenerationScheme) { scheme.PacketScheme? || scheme.EveryNScheme? }

  lemma ActHighest(c: Config, s: State, located: Located, buf: Bytes)
    ensures var (s', reply) := Act(c, s, located, buf);
      s'.highest ==
        if reply.result.Ok? && located.Located? && located.index.Some? then Some(MaxWith(s.highest, located.index.value))
        else s.highest
    ensures Act(c, s, located, buf).1.result.Ok? ==> located.Located?
  {
  }

  lemma StepReference(c: Config, s: State, buf: Bytes, g: nat, index: Option<nat>)
    requires c.Valid() && |buf| >= RTP_HEADER_LEN
    requires Locate(c.scheme, s.highest, SeqField(buf), TimestampField(buf)) == Located(g, index)
    ensures var (s', reply) := Step(c, s, buf);
      s'.highest == if reply.result.Ok? && index.Some? then Some(MaxWith(s.highest, index.value)) else s.highest
  {
    ActHighest(c, s, Located(g, index), buf);
  }

  lemma LocatedIndex(scheme: GenerationScheme, highest: Option<nat>, seq16: nat, ts: nat)
    requires scheme.Valid() && seq16 < U16 && UsesPosition(scheme)
    ensures var l := Locate(scheme, highest, seq16, ts); l.Located? ==> l.index == Some(Recover(highest, seq16))
  {
  }

  /** The position reference follows exactly the authenticated packets. */
  lemma StepHighest(c: Config, s: State, buf: Bytes)
    requires c.Valid() && UsesPosition(c.scheme)
    ensures var (s', reply) := Step(c, s, buf);
      if reply.result.Ok? then
        |buf| >= RTP_HEADER_LEN && s'.highest == Some(MaxWith(s.highest, Recover(s.highest, SeqField(buf))))
      else s'.highest == s.highest
  {
    if |buf| >= RTP_HEADER_LEN {
      LocatedIndex(c.scheme, s.highest, SeqField(buf), TimestampField(buf));
      ActHighest(c, s, Locate(c.scheme, s.highest, SeqField(buf), TimestampField(buf)), buf);
    }
  }

  // ------------------------------------------------- what was accepted, and under which key

  predicate BaseBeyondFirstWrap(scheme: GenerationScheme)
  {
    (scheme.PacketScheme? || scheme.EveryNScheme?) && scheme.base >= U16
  }

  /** A fresh receiver whose epoch starts at position 65536 or later refuses every packet of every run. */
  lemma {:induction false} BaseRefusesAll(c: Config, packets: seq<Bytes>)
    requires c.Valid() && BaseBeyondFirstWrap(c.scheme)
    ensures CoreOf(Run(c, Init, packets).0) == CoreOf(Init)
    ensures forall i | 0 <= i < |packets| :: Run(c, Init, packets).1[i].result.Err?
  {
    if packets != [] {
      var n := |packets| - 1;
      BaseRefusesAll(c, packets[..n]);
      RefusedWithoutReference(c, Run(c, Init, packets[..n]).0, packets[n]);
      StepReadsCore(c, Run(c, Init, packets[..n]).0, Run(c, Init, packets[..n]).0, packets[n]);
    }
  }

  lemma RefusedWithoutReference(c: Config, s: State, buf: Bytes)
    requires c.Valid() && BaseBeyondFirstWrap(c.scheme) && s.highest == None
    ensures Step(c, s, buf).1.result.Err?
  {
  }

  /** The log of accepted packets implied by the replies alone. */
  function AcceptedLog(c: Config, packets: seq<Bytes>, replies: seq<Reply>): seq<Accepted>
    requires |packets| == |replies|
  {
    if packets == [] then []
    else
      var n := |packets| - 1;
      AcceptedLog(c, packets[..n], replies[..n])
        + if replies[n].result.Ok? then [Accepted(c.Key(replies[n].result.generation), packets[n])] else []
  }

  lemma StepAccepted(c: Config, s: State, buf: Bytes)
    requires c.Valid()
    ensures var (s', reply) := Step(c, s, buf);
      s'.accepted == s.accepted + if reply.result.Ok? then [Accepted(c.Key(reply.result.generation), buf)] else []
  {
  }

  /** The cipher accepted exactly the packets reported as decrypted, each under the reported generation's key. */
  lemma {:induction false} DecryptedUnderReportedGeneration(c: Config, packets: seq<Bytes>)
    requires c.Valid()
    ensures Run(c, Init, packets).0.accepted == AcceptedLog(c, packets, Run(c, Init, packets).1)
  {
    if packets != [] {
      var n := |packets| - 1;
      DecryptedUnderReportedGeneration(c, packets[..n]);
      StepAccepted(c, Run(c, Init, packets[..n]).0, packets[n]);
      assert Run(c, Init, packets).1[..n] == Run(c, Init, packets[..n]).1;
    }
  }
}
