/** What each reply and each verdict of the TESLA receiver means, whatever arrives. */
module TeslaVerdicts {
  import opened Arithmetic
  import opened Options
  import opened ByteStrings
  import opened Session
  import opened IndexRecovery
  import opened Chain
  import opened TeslaWire
  import opened TeslaSpec
  import opened TeslaRuns
  import Rx = ReceiverSpec

  // ------------------------------------------------- one datagram

  /** A header and an extension fit. */
  predicate WellFormed(buf: Bytes) { |buf| >= RTP_HEADER_LEN + TESLA_EXT_LEN }

  function PacketOf(buf: Bytes): (packet: Bytes)
    requires WellFormed(buf)
    ensures |packet| >= RTP_HEADER_LEN
  {
    buf[..|buf| - TESLA_EXT_LEN]
  }

  function ExtOf(buf: Bytes): Extension
    requires WellFormed(buf)
  {
    SplitExtension(buf).ext
  }

  /** What the SRTP layer says of the packet without its extension. */
  function InnerReply(c: Config, s: State, buf: Bytes): Rx.Reply
    requires c.Valid() && WellFormed(buf)
  {
    Rx.Step(c.rx, s.inner, PacketOf(buf)).1
  }

  /** The disclosed key is known already, or hashes down to the trusted one within both limits. */
  predicate Proven(c: Config, trust: IndexedKey, ext: Extension)
  {
    var index := c.sched.DisclosedIndex(ext.interval);
    || index <= trust.index
    || (InReach(c.Limits(), trust.index, index) && Down(c.cr.f, ext.disclosed, index - trust.index) == trust.key)
  }

  predicate Passes(c: Config, buf: Bytes, nowNs: nat)
    requires c.Valid()
  {
    WellFormed(buf) && c.sched.Accepts(nowNs, ExtOf(buf).interval)
  }

  lemma WellFormedSplits(buf: Bytes)
    ensures match SplitExtension(buf)
      case TooShort => !WellFormed(buf)
      case Split(packet, ext) =>
        && (WellFormed(buf) <==> |packet| >= RTP_HEADER_LEN)
        && (WellFormed(buf) ==> packet == PacketOf(buf) && ext == ExtOf(buf))
  {
  }

  lemma DiscloseMeans(c: Config, s: State, ext: Extension, entry: Entry, out: Bytes)
    ensures var r := Disclose(c, s, ext, entry, out).1.result;
      (r.Delivered? <==> Proven(c, s.trust, ext)) && (r.Dropped? ==> r.drop == BadDisclosure)
  {
    CheckVerdict(c.Limits(), s.trust, ext.disclosed, c.sched.DisclosedIndex(ext.interval));
  }

  /** Every reply has exactly one cause: length, clock, SRTP layer, disclosed key. */
  lemma ReplyMeans(c: Config, s: State, buf: Bytes, nowNs: nat)
    requires c.Valid()
    ensures var r := Process(c, s, buf, nowNs).1.result;
      && (r == Dropped(Malformed) <==> |buf| < RTP_HEADER_LEN + TESLA_EXT_LEN)
      && (r == Dropped(UnsafeLate) <==> WellFormed(buf) && !Passes(c, buf, nowNs))
      && (r.Dropped? && r.drop.SrtpDrop? <==> Passes(c, buf, nowNs) && InnerReply(c, s, buf).result.Err?)
      && (r.Dropped? && r.drop.SrtpDrop? ==> InnerReply(c, s, buf).result == Rx.Err(r.drop.why))
      && (r == Dropped(BadDisclosure) <==>
            Passes(c, buf, nowNs) && InnerReply(c, s, buf).result.Ok? && !Proven(c, s.trust, ExtOf(buf)))
      && (r.Delivered? <==>
            Passes(c, buf, nowNs) && InnerReply(c, s, buf).result.Ok? && Proven(c, s.trust, ExtOf(buf)))
  {
    WellFormedSplits(buf);
    if Passes(c, buf, nowNs) && InnerReply(c, s, buf).result.Ok? {
      var packet, ext := PacketOf(buf), ExtOf(buf);
      var extIndex := Recover(s.highest, SeqField(packet));
      var (inner, reply) := Rx.Step(c.rx, s.inner, packet);
      var s' := s.(inner := inner, highest := Some(MaxWith(s.highest, extIndex)));
      DiscloseMeans(c, s', ext, Entry(extIndex, nowNs, ext.mac, packet), reply.buf);
    }
  }

  /**
   * What the caller's buffer holds: untouched when no extension fits, the packet without it when header or clock
   * fail, and from there on what the SRTP layer made of that packet, even if the disclosed key is then refused.
   */
  lemma BufferMeans(c: Config, s: State, buf: Bytes, nowNs: nat)
    requires c.Valid()
    ensures Process(c, s, buf, nowNs).1.buf ==
      if |buf| <= TESLA_EXT_LEN then buf
      else if Passes(c, buf, nowNs) then InnerReply(c, s, buf).buf
      else buf[..|buf| - TESLA_EXT_LEN]
  {
    WellFormedSplits(buf);
  }

  /** What a delivery leaves behind: the record the verdict will be about, and as many verdicts as the reply says. */
  predicate LeftBy(s: State, s': State, interval: nat, entry: Entry, verdicts: nat)
  {
    && s'.history == s.history + [Labelled(interval, entry)]
    && s.settled <= s'.settled && |s'.settled| == |s.settled| + verdicts
    && s'.stats.delivered == s.stats.delivered + 1
    && s'.stats.dropsMalformed == s.stats.dropsMalformed && s'.stats.dropsUnsafe == s.stats.dropsUnsafe
    && s'.stats.dropsBadDisclosure == s.stats.dropsBadDisclosure && s'.stats.dropsSrtp == s.stats.dropsSrtp
  }

  lemma DiscloseLeaves(c: Config, s: State, ext: Extension, entry: Entry, out: Bytes)
    ensures var (s', reply) := Disclose(c, s, ext, entry, out);
      && (reply.result.Delivered? ==> LeftBy(s, s', ext.interval, entry, reply.result.settled) && reply.buf == out)
      && (reply.result.Dropped? ==> s' == s.(stats := s.stats.Dropped(reply.result.drop)))
  {
  }

  /** A delivered datagram hands up the SRTP layer's plaintext and waits with its label, position, arrival time and tag. */
  lemma DeliveredMeans(c: Config, s: State, buf: Bytes, nowNs: nat)
    requires c.Valid() && Process(c, s, buf, nowNs).1.result.Delivered?
    ensures WellFormed(buf)
    ensures var (s', reply) := Process(c, s, buf, nowNs);
      var packet, ext := PacketOf(buf), ExtOf(buf);
      && reply.buf == InnerReply(c, s, buf).buf
      && LeftBy(s, s', ext.interval, Entry(Recover(s.highest, SeqField(packet)), nowNs, ext.mac, packet),
                reply.result.settled)
  {
    ReplyMeans(c, s, buf, nowNs);
    WellFormedSplits(buf);
    var packet, ext := PacketOf(buf), ExtOf(buf);
    var extIndex := Recover(s.highest, SeqField(packet));
    var (inner, reply) := Rx.Step(c.rx, s.inner, packet);
    var s' := s.(inner := inner, highest := Some(MaxWith(s.highest, extIndex)));
    DiscloseLeaves(c, s', ext, Entry(extIndex, nowNs, ext.mac, packet), reply.buf);
  }

  /** A dropped datagram is counted under its own reason and touches no drawer, no verdict and no trusted key. */
  lemma DroppedMeans(c: Config, s: State, buf: Bytes, nowNs: nat)
    requires c.Valid() && Process(c, s, buf, nowNs).1.result.Dropped?
    ensures var (s', reply) := Process(c, s, buf, nowNs);
      && s'.stats == s.stats.Dropped(reply.result.drop)
      && s'.history == s.history && s'.settled == s.settled && s'.drawers == s.drawers
      && s'.pending == s.pending && s'.trust == s.trust
  {
    var split := SplitExtension(buf);
    if split.Split? && |split.packet| >= RTP_HEADER_LEN && c.sched.Accepts(nowNs, split.ext.interval) {
      var extIndex := Recover(s.highest, SeqField(split.packet));
      var (inner, reply) := Rx.Step(c.rx, s.inner, split.packet);
      var s' := s.(inner := inner, highest := Some(MaxWith(s.highest, extIndex)));
      DiscloseLeaves(c, s', split.ext, Entry(extIndex, nowNs, split.ext.mac, split.packet), reply.buf);
    }
  }

  lemma ProvenIsRooted(c: Config, trust: IndexedKey, ext: Extension)
    requires Down(c.cr.f, trust.key, trust.index) == c.anchor && Proven(c, trust, ext)
    ensures var index := c.sched.DisclosedIndex(ext.interval);
      index <= trust.index || (index <= c.sched.nChain && Down(c.cr.f, ext.disclosed, index) == c.anchor)
  {
    var index := c.sched.DisclosedIndex(ext.interval);
    if index > trust.index {
      DownCompose(c.cr.f, ext.disclosed, index - trust.index, trust.index);
    }
  }

  /** No datagram with a key that does not hash down to the signed anchor is delivered, unless it repeats a known index. */
  lemma DeliveredKeyRooted(c: Config, s: State, buf: Bytes, nowNs: nat)
    requires c.Valid() && AllRooted(c, s) && Process(c, s, buf, nowNs).1.result.Delivered?
    ensures WellFormed(buf)
    ensures var index := c.sched.DisclosedIndex(ExtOf(buf).interval);
      index <= s.trust.index || (index <= c.sched.nChain && Down(c.cr.f, ExtOf(buf).disclosed, index) == c.anchor)
  {
    ReplyMeans(c, s, buf, nowNs);
    ProvenIsRooted(c, s.trust, ExtOf(buf));
  }

  /** Over any run: whatever is delivered disclosed a key index that was known, or a key the signed anchor vouches for. */
  lemma RunDeliversRooted(c: Config, datagrams: seq<Datagram>)
    requires c.Valid() && datagrams != [] && Run(c, datagrams).1[|datagrams| - 1].result.Delivered?
    ensures var n := |datagrams| - 1;
      && WellFormed(datagrams[n].buf)
      && var ext := ExtOf(datagrams[n].buf);
         var index := c.sched.DisclosedIndex(ext.interval);
         || index <= Run(c, datagrams[..n]).0.trust.index
         || (index <= c.sched.nChain && Down(c.cr.f, ext.disclosed, index) == c.anchor)
  {
    var n := |datagrams| - 1;
    RunRooted(c, datagrams[..n]);
    RunLast(c, datagrams);
    DeliveredKeyRooted(c, Run(c, datagrams[..n]).0, datagrams[n].buf, datagrams[n].atNs);
  }

  // ------------------------------------------------- every reply is counted

  datatype Outcomes = Outcomes(delivered: nat, malformed: nat, unsafeLate: nat, badDisclosure: nat, srtp: nat, verdicts: nat)

  function Recorded(o: Outcomes, r: TeslaResult): Outcomes
  {
    match r
    case Delivered(n) => o.(delivered := o.delivered + 1, verdicts := o.verdicts + n)
    case Dropped(Malformed) => o.(malformed := o.malformed + 1)
    case Dropped(UnsafeLate) => o.(unsafeLate := o.unsafeLate + 1)
    case Dropped(BadDisclosure) => o.(badDisclosure := o.badDisclosure + 1)
    case Dropped(SrtpDrop(_)) => o.(srtp := o.srtp + 1)
  }

  /** What the replies add up to. */
  function OutcomesOf(replies: seq<TeslaReply>): Outcomes
  {
    if replies == [] then Outcomes(0, 0, 0, 0, 0, 0)
    else Recorded(OutcomesOf(replies[..|replies| - 1]), replies[|replies| - 1].result)
  }

  predicate TalliedBy(s: State, o: Outcomes)
  {
    && s.stats.delivered == o.delivered && s.stats.dropsMalformed == o.malformed && s.stats.dropsUnsafe == o.unsafeLate
    && s.stats.dropsBadDisclosure == o.badDisclosure && s.stats.dropsSrtp == o.srtp && |s.settled| == o.verdicts
  }

  lemma ProcessTallied(c: Config, s: State, buf: Bytes, nowNs: nat, o: Outcomes)
    requires c.Valid() && TalliedBy(s, o)
    ensures TalliedBy(Process(c, s, buf, nowNs).0, Recorded(o, Process(c, s, buf, nowNs).1.result))
  {
    if Process(c, s, buf, nowNs).1.result.Delivered? {
      DeliveredMeans(c, s, buf, nowNs);
    } else {
      DroppedMeans(c, s, buf, nowNs);
    }
  }

  /** The counters count the replies, reason by reason, and the numbers returned add up to the verdicts passed. */
  lemma {:induction false} RunRepliesTallied(c: Config, datagrams: seq<Datagram>)
    requires c.Valid()
    ensures TalliedBy(Run(c, datagrams).0, OutcomesOf(Run(c, datagrams).1))
  {
    if datagrams != [] {
      var n := |datagrams| - 1;
      var (before, replies) := Run(c, datagrams[..n]);
      RunRepliesTallied(c, datagrams[..n]);
      RunLast(c, datagrams);
      ProcessTallied(c, before, datagrams[n].buf, datagrams[n].atNs, OutcomesOf(replies));
      assert (replies + [Process(c, before, datagrams[n].buf, datagrams[n].atNs).1])[..n] == replies;
    }
  }

  // ------------------------------------------------- the most packets that ever waited

  function PeakOf(c: Config, datagrams: seq<Datagram>): int
    requires c.Valid()
  {
    if datagrams == [] then 0
    else
      var before := PeakOf(c, datagrams[..|datagrams| - 1]);
      var now := Run(c, datagrams).0.pending;
      if before <= now then now else before
  }

  lemma DisclosePeak(c: Config, s: State, ext: Extension, entry: Entry, out: Bytes)
    requires s.stats.peakPending >= s.pending
    ensures var s' := Disclose(c, s, ext, entry, out).0;
      s'.stats.peakPending == if s.stats.peakPending <= s'.pending then s'.pending else s.stats.peakPending
  {
  }

  lemma ProcessPeak(c: Config, s: State, buf: Bytes, nowNs: nat)
    requires c.Valid() && s.stats.peakPending >= s.pending
    ensures var s' := Process(c, s, buf, nowNs).0;
      s'.stats.peakPending == if s.stats.peakPending <= s'.pending then s'.pending else s.stats.peakPending
  {
    var split := SplitExtension(buf);
    if split.Split? && |split.packet| >= RTP_HEADER_LEN && c.sched.Accepts(nowNs, split.ext.interval) {
      var extIndex := Recover(s.highest, SeqField(split.packet));
      var (inner, reply) := Rx.Step(c.rx, s.inner, split.packet);
      var s' := s.(inner := inner, highest := Some(MaxWith(s.highest, extIndex)));
      DisclosePeak(c, s', split.ext, Entry(extIndex, nowNs, split.ext.mac, split.packet), reply.buf);
    }
  }

  /** The recorded peak is the most packets that waited after any datagram of the run. */
  lemma {:induction false} RunPeak(c: Config, datagrams: seq<Datagram>)
    requires c.Valid()
    ensures Run(c, datagrams).0.stats.peakPending == PeakOf(c, datagrams)
  {
    if datagrams != [] {
      var n := |datagrams| - 1;
      RunPeak(c, datagrams[..n]);
      RunBalanced(c, datagrams[..n], U32);
      RunLast(c, datagrams);
      ProcessPeak(c, Run(c, datagrams[..n]).0, datagrams[n].buf, datagrams[n].atNs);
    }
  }
}
