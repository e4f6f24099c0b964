/** Properties of every run of the TESLA receiver, whatever arrives. */
module TeslaRuns {
  import opened Arithmetic
  import opened Options
  import opened ByteStrings
  import opened Session
  import opened IndexRecovery
  import opened Chain
  import opened Schedule
  import opened TeslaWire
  import opened TeslaSpec
  import Rx = ReceiverSpec
  import ReceiverRuns

  // ------------------------------------------------- how many packets wait

  /** The packets waiting in the drawers of the intervals below `labels`. */
  function Waiting(d: Drawers, labels: nat): nat
    decreases labels
  {
    if labels == 0 then 0 else Waiting(d, labels - 1) + |Drawer(d, labels - 1)|
  }

  /** Two drawer maps that differ in one interval only. */
  lemma {:induction false} WaitingChange(d: Drawers, d': Drawers, k: nat, labels: nat)
    requires forall i | i != k :: Drawer(d, i) == Drawer(d', i)
    ensures Waiting(d', labels) == Waiting(d, labels) + if k < labels then |Drawer(d', k)| - |Drawer(d, k)| else 0
  {
    if labels > 0 {
      WaitingChange(d, d', k, labels - 1);
    }
  }

  lemma {:induction false} SettledLeave(c: Config, d: Drawers, keys: seq<IndexedKey>, labels: nat)
    requires forall j | 0 <= j < |keys| :: keys[j].index < labels
    ensures var (d', vs) := SettleAll(c, d, keys); Waiting(d, labels) == Waiting(d', labels) + |vs|
  {
    if keys != [] {
      var n := |keys| - 1;
      SettledLeave(c, d, keys[..n], labels);
      var before := SettleAll(c, d, keys[..n]).0;
      WaitingChange(before, before - {keys[n].index}, keys[n].index, labels);
    }
  }

  lemma {:induction false} NoneWaiting(d: Drawers, labels: nat)
    requires forall i | 0 <= i < labels :: i !in d
    ensures Waiting(d, labels) == 0
  {
    if labels > 0 {
      NoneWaiting(d, labels - 1);
    }
  }

  lemma {:induction false} LatencyPerVerified(vs: seq<Ruling>, nowNs: nat)
    ensures |Latencies(vs, nowNs)| == CountGenuine(vs)
  {
    if vs != [] {
      LatencyPerVerified(vs[..|vs| - 1], nowNs);
    }
  }

  // ------------------------------------------------- conservation

  /** Every datagram ended in one counter; `open` of the packets SRTP let through have no outcome yet. */
  predicate Outcomes(s: State, calls: nat, open: nat)
  {
    && s.stats.delivered + s.stats.Drops() == calls
    && s.inner.stats.decrypted == s.stats.delivered + s.stats.dropsBadDisclosure + open
  }

  /** Every delivered packet is verified, forged or pending. */
  predicate Verdicts(s: State)
  {
    && s.stats.delivered == s.stats.verified + s.stats.forged + s.pending
    && |s.stats.latenciesNs| == s.stats.verified
    && |s.history| == s.stats.delivered && |s.settled| == s.stats.verified + s.stats.forged
    && s.stats.peakPending >= s.pending
  }

  predicate Balanced(c: Config, s: State, calls: nat, open: nat, labels: nat)
  {
    && Outcomes(s, calls, open) && Verdicts(s) && s.pending == Waiting(s.drawers, labels)
    // both layers unwrap sequence numbers from the same reference
    && (ReceiverRuns.UsesPosition(c.rx.scheme) ==> s.highest == s.inner.highest)
  }

  lemma SettleBalanced(c: Config, s: State, keys: seq<IndexedKey>, nowNs: nat, calls: nat, labels: nat)
    requires Balanced(c, s, calls, 1, labels) && forall j | 0 <= j < |keys| :: keys[j].index < labels
    ensures Balanced(c, Settle(c, s, keys, nowNs), calls, 1, labels)
  {
    SettledLeave(c, s.drawers, keys, labels);
    LatencyPerVerified(SettleAll(c, s.drawers, keys).1, nowNs);
  }

  lemma DeliverBalanced(c: Config, s: State, interval: nat, entry: Entry, calls: nat, labels: nat)
    requires Balanced(c, s, calls, 1, labels) && interval < labels
    ensures Balanced(c, Deliver(s, interval, entry), calls + 1, 0, labels)
  {
    WaitingChange(s.drawers, Deliver(s, interval, entry).drawers, interval, labels);
  }

  lemma DiscloseBalanced(c: Config, s: State, ext: Extension, entry: Entry, out: Bytes, calls: nat, labels: nat)
    requires Balanced(c, s, calls, 1, labels) && ext.interval < labels && c.sched.nChain < labels
    ensures Balanced(c, Disclose(c, s, ext, entry, out).0, calls + 1, 0, labels)
  {
    var (trust, d) := Check(c.Limits(), s.trust, ext.disclosed, c.sched.DisclosedIndex(ext.interval));
    NewKeysRange(c.Limits(), s.trust, ext.disclosed, c.sched.DisclosedIndex(ext.interval));
    match d
    case New(keys) =>
      assert Balanced(c, s.(trust := trust), calls, 1, labels);
      SettleBalanced(c, s.(trust := trust), keys, entry.arrivalNs, calls, labels);
      DeliverBalanced(c, Settle(c, s.(trust := trust), keys, entry.arrivalNs), ext.interval, entry, calls, labels);
    case NotNew => DeliverBalanced(c, s, ext.interval, entry, calls, labels);
    case _ =>
  }

  lemma AdmitBalanced(c: Config, s: State, packet: Bytes, ext: Extension, nowNs: nat, calls: nat, labels: nat)
    requires c.Valid() && |packet| >= RTP_HEADER_LEN && Balanced(c, s, calls, 0, labels)
    requires ext.interval < labels && c.sched.nChain < labels
    ensures Balanced(c, Admit(c, s, packet, ext, nowNs).0, calls + 1, 0, labels)
  {
    var extIndex := Recover(s.highest, SeqField(packet));
    var (inner, reply) := Rx.Step(c.rx, s.inner, packet);
    ReceiverRuns.StepCounts(c.rx, s.inner, packet);
    if ReceiverRuns.UsesPosition(c.rx.scheme) {
      ReceiverRuns.StepHighest(c.rx, s.inner, packet);
    }
    if reply.result.Ok? {
      var s' := s.(inner := inner, highest := Some(MaxWith(s.highest, extIndex)));
      assert Balanced(c, s', calls, 1, labels);
      DiscloseBalanced(c, s', ext, Entry(extIndex, nowNs, ext.mac, packet), reply.buf, calls, labels);
    }
  }

  /** Labels are 32-bit. */
  lemma LabelRange(buf: Bytes)
    ensures SplitExtension(buf).Split? ==> SplitExtension(buf).ext.interval < U32
  {
    if |buf| > TESLA_EXT_LEN {
      FromBigEndianRange(buf[|buf| - TESLA_EXT_LEN..|buf| - TESLA_EXT_LEN + 4]);
      RadixValues();
    }
  }

  lemma ProcessBalanced(c: Config, s: State, buf: Bytes, nowNs: nat, calls: nat, labels: nat)
    requires c.Valid() && Balanced(c, s, calls, 0, labels) && labels >= U32
    ensures Balanced(c, Process(c, s, buf, nowNs).0, calls + 1, 0, labels)
  {
    var split := SplitExtension(buf);
    LabelRange(buf);
    if split.Split? && |split.packet| >= RTP_HEADER_LEN && c.sched.Accepts(nowNs, split.ext.interval) {
      AdmitBalanced(c, s, split.packet, split.ext, nowNs, calls, labels);
    }
  }

  lemma InitBalanced(c: Config, labels: nat)
    ensures Balanced(c, Init(c), 0, 0, labels)
  {
    NoneWaiting(Init(c).drawers, labels);
  }

  /** A run's last step, spelled out. */
  lemma RunLast(c: Config, datagrams: seq<Datagram>)
    requires c.Valid() && datagrams != []
    ensures var n := |datagrams| - 1;
      var (before, replies) := Run(c, datagrams[..n]);
      var (after, reply) := Process(c, before, datagrams[n].buf, datagrams[n].atNs);
      Run(c, datagrams) == (after, replies + [reply])
  {
  }

  /**
   * Every datagram ends in one counter, every delivered packet is verified, forged or still waiting
   * in a drawer, and the two layers agree on the position reference.
   */
  lemma {:induction false} RunBalanced(c: Config, datagrams: seq<Datagram>, labels: nat)
    requires c.Valid() && labels >= U32
    ensures Balanced(c, Run(c, datagrams).0, |datagrams|, 0, labels)
  {
    if datagrams == [] {
      InitBalanced(c, labels);
    } else {
      var n := |datagrams| - 1;
      var before, last := Run(c, datagrams[..n]).0, datagrams[n];
      RunBalanced(c, datagrams[..n], labels);
      RunLast(c, datagrams);
      ProcessBalanced(c, before, last.buf, last.atNs, n, labels);
    }
  }

  // ------------------------------------------------- which packets wait, and which were judged

  function LabelledAs(history: seq<Labelled>, i: nat): seq<Entry>
  {
    if history == [] then []
    else
      var last := history[|history| - 1];
      LabelledAs(history[..|history| - 1], i) + if last.interval == i then [last.entry] else []
  }

  function RuledAs(vs: seq<Ruling>, i: nat): seq<Entry>
  {
    if vs == [] then []
    else
      var last := vs[|vs| - 1].packet;
      RuledAs(vs[..|vs| - 1], i) + if last.interval == i then [last.entry] else []
  }

  lemma {:induction false} RuledAppend(a: seq<Ruling>, b: seq<Ruling>, i: nat)
    ensures RuledAs(a + b, i) == RuledAs(a, i) + RuledAs(b, i)
  {
    if b == [] {
      assert a + b == a;
    } else {
      RuledAppend(a, b[..|b| - 1], i);
      assert (a + b)[..|a + b| - 1] == a + b[..|b| - 1];
    }
  }

  lemma RuledSnoc(vs: seq<Ruling>, v: Ruling, i: nat)
    ensures RuledAs(vs + [v], i) == RuledAs(vs, i) + if v.packet.interval == i then [v.packet.entry] else []
  {
    assert (vs + [v])[..|vs|] == vs;
  }

  lemma {:induction false} RuledJudged(c: Config, key: IndexedKey, entries: seq<Entry>, i: nat)
    ensures RuledAs(Judged(c, key, entries), i) == if i == key.index then entries else []
  {
    if entries != [] {
      var n := |entries| - 1;
      RuledJudged(c, key, entries[..n], i);
      JudgedSnoc(c, key, entries);
      RuledSnoc(Judged(c, key, entries[..n]), Judge(c, key, entries[n]), i);
    }
  }

  lemma JudgedSnoc(c: Config, key: IndexedKey, entries: seq<Entry>)
    requires entries != []
    ensures var n := |entries| - 1;
      && Judged(c, key, entries) == Judged(c, key, entries[..n]) + [Judge(c, key, entries[n])]
      && entries == entries[..n] + [entries[n]]
  {
  }

  predicate Names(keys: seq<IndexedKey>, i: nat)
  {
    keys != [] && (keys[|keys| - 1].index == i || Names(keys[..|keys| - 1], i))
  }

  lemma {:induction false} NamesIndex(keys: seq<IndexedKey>, lo: nat, i: nat)
    requires forall j | 0 <= j < |keys| :: keys[j].index == lo + 1 + j
    ensures Names(keys, i) <==> lo < i <= lo + |keys|
  {
    if keys != [] {
      NamesIndex(keys[..|keys| - 1], lo, i);
    }
  }

  lemma SettleOneMoves(c: Config, d: Drawers, vs: seq<Ruling>, key: IndexedKey, i: nat)
    ensures RuledAs(vs + Judged(c, key, Drawer(d, key.index)), i)
         == RuledAs(vs, i) + if i == key.index then Drawer(d, i) else []
    ensures Drawer(d - {key.index}, i) == if i == key.index then [] else Drawer(d, i)
  {
    RuledAppend(vs, Judged(c, key, Drawer(d, key.index)), i);
    RuledJudged(c, key, Drawer(d, key.index), i);
  }

  /** Settling moves an interval's packets from its drawer to the rulings, all of them and in order, or not at all. */
  lemma {:induction false} SettleMoves(c: Config, d: Drawers, keys: seq<IndexedKey>, i: nat)
    ensures var (d', vs) := SettleAll(c, d, keys);
      if Names(keys, i) then RuledAs(vs, i) == Drawer(d, i) && Drawer(d', i) == []
      else RuledAs(vs, i) == [] && Drawer(d', i) == Drawer(d, i)
  {
    if keys != [] {
      var n := |keys| - 1;
      SettleMoves(c, d, keys[..n], i);
      var (d', vs) := SettleAll(c, d, keys[..n]);
      SettleOneMoves(c, d', vs, keys[n], i);
    }
  }

  /**
   * What was delivered under label i, in order, is what was judged under it followed by what still
   * waits; labels without a trusted key are never judged.
   */
  predicate Accounted(c: Config, s: State, i: nat)
  {
    && s.trust.index <= c.sched.nChain
    && RuledAs(s.settled, i) + Drawer(s.drawers, i) == LabelledAs(s.history, i)
    && (i == 0 || i > s.trust.index ==> RuledAs(s.settled, i) == [])
  }

  lemma DeliverAccounted(c: Config, s: State, interval: nat, entry: Entry, i: nat)
    requires Accounted(c, s, i)
    ensures Accounted(c, Deliver(s, interval, entry), i)
  {
    LabelledSnoc(s.history, Labelled(interval, entry), i);
    DrawerSnoc(s.drawers, interval, entry, i);
    Lengthened(RuledAs(s.settled, i), Drawer(s.drawers, i), if interval == i then [entry] else []);
  }

  lemma LabelledSnoc(history: seq<Labelled>, l: Labelled, i: nat)
    ensures LabelledAs(history + [l], i) == LabelledAs(history, i) + if l.interval == i then [l.entry] else []
  {
    assert (history + [l])[..|history|] == history;
  }

  lemma DrawerSnoc(d: Drawers, interval: nat, entry: Entry, i: nat)
    ensures Drawer(d[interval := Drawer(d, interval) + [entry]], i) == Drawer(d, i) + if interval == i then [entry] else []
  {
  }

  lemma Lengthened(ruled: seq<Entry>, drawer: seq<Entry>, more: seq<Entry>)
    ensures ruled + (drawer + more) == (ruled + drawer) + more
  {
  }

  lemma SettleAccounted(c: Config, s: State, trust: IndexedKey, keys: seq<IndexedKey>, nowNs: nat, i: nat)
    requires Accounted(c, s, i) && trust.index == s.trust.index + |keys| <= c.sched.nChain
    requires forall j | 0 <= j < |keys| :: keys[j].index == s.trust.index + 1 + j
    ensures Accounted(c, Settle(c, s.(trust := trust), keys, nowNs), i)
  {
    var (d, vs) := SettleAll(c, s.drawers, keys);
    NamesIndex(keys, s.trust.index, i);
    SettleMoves(c, s.drawers, keys, i);
    RuledAppend(s.settled, vs, i);
    Moved(RuledAs(s.settled, i), RuledAs(vs, i), Drawer(d, i), Drawer(s.drawers, i));
  }

  lemma Moved(ruled: seq<Entry>, more: seq<Entry>, left: seq<Entry>, drawer: seq<Entry>)
    requires (more == drawer && left == []) || (more == [] && left == drawer)
    ensures (ruled + more) + left == ruled + drawer
    ensures ruled == [] && more == [] ==> ruled + more == []
  {
  }

  lemma DiscloseAccounted(c: Config, s: State, ext: Extension, entry: Entry, out: Bytes, i: nat)
    requires Accounted(c, s, i)
    ensures Accounted(c, Disclose(c, s, ext, entry, out).0, i)
  {
    var (trust, d) := Check(c.Limits(), s.trust, ext.disclosed, c.sched.DisclosedIndex(ext.interval));
    NewKeysRange(c.Limits(), s.trust, ext.disclosed, c.sched.DisclosedIndex(ext.interval));
    match d
    case New(keys) =>
      SettleAccounted(c, s, trust, keys, entry.arrivalNs, i);
      DeliverAccounted(c, Settle(c, s.(trust := trust), keys, entry.arrivalNs), ext.interval, entry, i);
    case NotNew => DeliverAccounted(c, s, ext.interval, entry, i);
    case _ =>
  }

  lemma ProcessAccounted(c: Config, s: State, buf: Bytes, nowNs: nat, i: nat)
    requires c.Valid() && Accounted(c, s, i)
    ensures Accounted(c, Process(c, s, buf, nowNs).0, i)
  {
    var split := SplitExtension(buf);
    if split.Split? && |split.packet| >= RTP_HEADER_LEN && c.sched.Accepts(nowNs, split.ext.interval) {
      var extIndex := Recover(s.highest, SeqField(split.packet));
      var (inner, reply) := Rx.Step(c.rx, s.inner, split.packet);
      var s' := s.(inner := inner, highest := Some(MaxWith(s.highest, extIndex)));
      DiscloseAccounted(c, s', split.ext, Entry(extIndex, nowNs, split.ext.mac, split.packet), reply.buf, i);
    }
  }

  /** No packet is judged twice, none is lost from a drawer, and order within an interval is kept. */
  lemma {:induction false} RunAccounted(c: Config, datagrams: seq<Datagram>, i: nat)
    requires c.Valid()
    ensures Accounted(c, Run(c, datagrams).0, i)
  {
    if datagrams != [] {
      var n := |datagrams| - 1;
      RunAccounted(c, datagrams[..n], i);
      RunLast(c, datagrams);
      ProcessAccounted(c, Run(c, datagrams[..n]).0, datagrams[n].buf, datagrams[n].atNs, i);
    }
  }

  // ------------------------------------------------- under which key a packet is judged

  predicate UnderKey(c: Config, v: Ruling, key: ChainKey)
  {
    && Down(c.cr.f, key, v.packet.interval) == c.anchor
    && (v.genuine <==> KeyedTag(c.cr, c.alg, key, v.packet.entry.extIndex, v.packet.entry.covered) == v.packet.entry.mac)
  }

  /** The ruling is the tag comparison under a key that hashes down to the signed anchor in its label's number of steps. */
  ghost predicate Rooted(c: Config, v: Ruling)
  {
    exists key: ChainKey :: UnderKey(c, v, key)
  }

  ghost predicate AllRooted(c: Config, s: State)
  {
    Down(c.cr.f, s.trust.key, s.trust.index) == c.anchor && forall v | v in s.settled :: Rooted(c, v)
  }

  lemma {:induction false} SettleRooted(c: Config, d: Drawers, keys: seq<IndexedKey>)
    requires forall j | 0 <= j < |keys| :: Down(c.cr.f, keys[j].key, keys[j].index) == c.anchor
    ensures forall v | v in SettleAll(c, d, keys).1 :: Rooted(c, v)
  {
    if keys != [] {
      var n := |keys| - 1;
      SettleRooted(c, d, keys[..n]);
      var entries := Drawer(SettleAll(c, d, keys[..n]).0, keys[n].index);
      forall v | v in Judged(c, keys[n], entries)
        ensures Rooted(c, v)
      {
        var j :| 0 <= j < |entries| && v == Judge(c, keys[n], entries[j]);
        PreparedTag(c.cr, c.alg, keys[n].key, entries[j].extIndex, entries[j].covered);
        assert UnderKey(c, v, keys[n].key);
      }
    }
  }

  lemma DiscloseRooted(c: Config, s: State, ext: Extension, entry: Entry, out: Bytes)
    requires AllRooted(c, s)
    ensures AllRooted(c, Disclose(c, s, ext, entry, out).0)
  {
    var index := c.sched.DisclosedIndex(ext.interval);
    var (trust, d) := Check(c.Limits(), s.trust, ext.disclosed, index);
    NewKeysRooted(c.Limits(), c.anchor, s.trust, ext.disclosed, index);
    if d.New? {
      SettleRooted(c, s.drawers, d.keys);
    }
  }

  lemma ProcessRooted(c: Config, s: State, buf: Bytes, nowNs: nat)
    requires c.Valid() && AllRooted(c, s)
    ensures AllRooted(c, Process(c, s, buf, nowNs).0)
  {
    var split := SplitExtension(buf);
    if split.Split? && |split.packet| >= RTP_HEADER_LEN && c.sched.Accepts(nowNs, split.ext.interval) {
      var extIndex := Recover(s.highest, SeqField(split.packet));
      var (inner, reply) := Rx.Step(c.rx, s.inner, split.packet);
      var s' := s.(inner := inner, highest := Some(MaxWith(s.highest, extIndex)));
      DiscloseRooted(c, s', split.ext, Entry(extIndex, nowNs, split.ext.mac, split.packet), reply.buf);
    }
  }

  /** Whatever arrives, every verdict rests on a key that the signed anchor vouches for. */
  lemma {:induction false} RunRooted(c: Config, datagrams: seq<Datagram>)
    requires c.Valid()
    ensures AllRooted(c, Run(c, datagrams).0)
  {
    if datagrams != [] {
      var n := |datagrams| - 1;
      RunRooted(c, datagrams[..n]);
      RunLast(c, datagrams);
      ProcessRooted(c, Run(c, datagrams[..n]).0, datagrams[n].buf, datagrams[n].atNs);
    }
  }

  // ------------------------------------------------- when a judged packet arrived

  predicate Timely(c: Config, l: Labelled)
    requires c.sched.Valid()
  {
    c.sched.Accepts(l.entry.arrivalNs, l.interval)
  }

  /** Every delivered, waiting or judged packet had passed the accept test when it arrived. */
  ghost predicate AllTimely(c: Config, s: State)
    requires c.sched.Valid()
  {
    && (forall i: nat, k | 0 <= k < |Drawer(s.drawers, i)| :: Timely(c, Labelled(i, Drawer(s.drawers, i)[k])))
    && (forall v | v in s.settled :: Timely(c, v.packet))
    && (forall l | l in s.history :: Timely(c, l))
  }

  ghost predicate DrawersTimely(c: Config, d: Drawers)
    requires c.sched.Valid()
  {
    forall i: nat, k | 0 <= k < |Drawer(d, i)| :: Timely(c, Labelled(i, Drawer(d, i)[k]))
  }

  lemma {:induction false} SettleTimely(c: Config, d: Drawers, keys: seq<IndexedKey>)
    requires c.sched.Valid() && DrawersTimely(c, d)
    ensures var (d', vs) := SettleAll(c, d, keys);
      DrawersTimely(c, d') && forall v | v in vs :: Timely(c, v.packet)
  {
    if keys != [] {
      var n := |keys| - 1;
      SettleTimely(c, d, keys[..n]);
      var d1, i := SettleAll(c, d, keys[..n]).0, keys[n].index;
      assert forall i': nat :: Drawer(d1 - {i}, i') == if i' == i then [] else Drawer(d1, i');
      forall v | v in Judged(c, keys[n], Drawer(d1, i))
        ensures Timely(c, v.packet)
      {
        var k :| 0 <= k < |Drawer(d1, i)| && v == Judge(c, keys[n], Drawer(d1, i)[k]);
      }
    }
  }

  lemma DeliverTimely(c: Config, s: State, interval: nat, entry: Entry)
    requires c.sched.Valid() && AllTimely(c, s) && c.sched.Accepts(entry.arrivalNs, interval)
    ensures AllTimely(c, Deliver(s, interval, entry))
  {
    var d := Deliver(s, interval, entry).drawers;
    assert forall i: nat :: Drawer(d, i) == Drawer(s.drawers, i) + if i == interval then [entry] else [];
  }

  lemma DiscloseTimely(c: Config, s: State, ext: Extension, entry: Entry, out: Bytes)
    requires c.sched.Valid() && AllTimely(c, s) && c.sched.Accepts(entry.arrivalNs, ext.interval)
    ensures AllTimely(c, Disclose(c, s, ext, entry, out).0)
  {
    var (trust, d) := Check(c.Limits(), s.trust, ext.disclosed, c.sched.DisclosedIndex(ext.interval));
    match d
    case New(keys) =>
      SettleTimely(c, s.drawers, keys);
      DeliverTimely(c, Settle(c, s.(trust := trust), keys, entry.arrivalNs), ext.interval, entry);
    case NotNew => DeliverTimely(c, s, ext.interval, entry);
    case _ =>
  }

  lemma ProcessTimely(c: Config, s: State, buf: Bytes, nowNs: nat)
    requires c.Valid() && AllTimely(c, s)
    ensures AllTimely(c, Process(c, s, buf, nowNs).0)
  {
    var split := SplitExtension(buf);
    if split.Split? && |split.packet| >= RTP_HEADER_LEN && c.sched.Accepts(nowNs, split.ext.interval) {
      var extIndex := Recover(s.highest, SeqField(split.packet));
      var (inner, reply) := Rx.Step(c.rx, s.inner, split.packet);
      var s' := s.(inner := inner, highest := Some(MaxWith(s.highest, extIndex)));
      DiscloseTimely(c, s', split.ext, Entry(extIndex, nowNs, split.ext.mac, split.packet), reply.buf);
    }
  }

  lemma {:induction false} RunTimely(c: Config, datagrams: seq<Datagram>)
    requires c.Valid()
    ensures AllTimely(c, Run(c, datagrams).0)
  {
    if datagrams != [] {
      var n := |datagrams| - 1;
      RunTimely(c, datagrams[..n]);
      RunLast(c, datagrams);
      ProcessTimely(c, Run(c, datagrams[..n]).0, datagrams[n].buf, datagrams[n].atNs);
    }
  }

  /**
   * What a verdict is worth, whatever was sent to the receiver: the packet was tagged, or not, under
   * a key rooted in the signed anchor, and no sender clock the receiver had to reckon with when the
   * packet arrived had reached an interval that discloses this key.
   */
  lemma VerdictsRestOnSecretKeys(c: Config, datagrams: seq<Datagram>, v: Ruling, clockNs: nat)
    requires c.Valid() && v in Run(c, datagrams).0.settled
    requires Possible(c.sched, v.packet.entry.arrivalNs, clockNs)
    ensures Rooted(c, v) && 1 <= v.packet.interval <= c.sched.nChain
    ensures c.sched.DisclosedIndex(ClockInterval(c.sched, clockNs)) < v.packet.interval
  {
    RunRooted(c, datagrams);
    RunTimely(c, datagrams);
    RunAccounted(c, datagrams, v.packet.interval);
    RulingPresent(Run(c, datagrams).0.settled, v);
    assert Timely(c, v.packet);
    BoundCoversSender(c.sched, v.packet.entry.arrivalNs, clockNs);
  }

  lemma {:induction false} RulingPresent(vs: seq<Ruling>, v: Ruling)
    requires v in vs
    ensures RuledAs(vs, v.packet.interval) != []
  {
    if v != vs[|vs| - 1] {
      RulingPresent(vs[..|vs| - 1], v);
    }
  }
}
