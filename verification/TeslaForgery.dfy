/** Under which key a packet is judged, and that forged packets are found out, on runs of arbitrary datagrams. */
module TeslaForgery {
  import opened Arithmetic
  import opened ByteStrings
  import opened Session
  import opened IndexRecovery
  import opened Options
  import opened Chain
  import opened TeslaWire
  import opened TeslaSender
  import opened TeslaSpec
  import opened TeslaRuns
  import opened TeslaHonest
  import opened TeslaVerdicts
  import Rx = ReceiverSpec

  // ------------------------------------------------- the key of a verdict

  /** The verdict is the tag comparison under the trusted key, hashed down to the packet's label. */
  predicate JudgedUnder(c: Config, trust: IndexedKey, v: Ruling)
  {
    var i, e := v.packet.interval, v.packet.entry;
    && 1 <= i <= trust.index
    && (v.genuine <==> KeyedTag(c.cr, c.alg, Down(c.cr.f, trust.key, trust.index - i), e.extIndex, e.covered) == e.mac)
  }

  predicate AllJudgedUnder(c: Config, trust: IndexedKey, vs: seq<Ruling>)
  {
    forall v | v in vs :: JudgedUnder(c, trust, v)
  }

  /** A newer key that proves itself stands for every verdict passed before. */
  lemma StillJudged(c: Config, trust: IndexedKey, trust': IndexedKey, vs: seq<Ruling>)
    requires AllJudgedUnder(c, trust, vs) && trust.index <= trust'.index
    requires Down(c.cr.f, trust'.key, trust'.index - trust.index) == trust.key
    ensures AllJudgedUnder(c, trust', vs)
  {
    forall v | v in vs
      ensures JudgedUnder(c, trust', v)
    {
      assert JudgedUnder(c, trust, v);
      DownCompose(c.cr.f, trust'.key, trust'.index - trust.index, trust.index - v.packet.interval);
    }
  }

  /** These keys are what hashing the trusted one down gives at their indexes. */
  predicate Below(f: Hash, trust: IndexedKey, keys: seq<IndexedKey>)
  {
    forall j | 0 <= j < |keys| ::
      1 <= keys[j].index <= trust.index && keys[j].key == Down(f, trust.key, trust.index - keys[j].index)
  }

  lemma DrawerJudged(c: Config, trust: IndexedKey, key: IndexedKey, entries: seq<Entry>)
    requires 1 <= key.index <= trust.index && key.key == Down(c.cr.f, trust.key, trust.index - key.index)
    ensures AllJudgedUnder(c, trust, Judged(c, key, entries))
  {
    forall v | v in Judged(c, key, entries)
      ensures JudgedUnder(c, trust, v)
    {
      var j :| 0 <= j < |entries| && v == Judge(c, key, entries[j]);
      PreparedTag(c.cr, c.alg, key.key, entries[j].extIndex, entries[j].covered);
    }
  }

  lemma {:induction false} SettleJudged(c: Config, trust: IndexedKey, d: Drawers, keys: seq<IndexedKey>)
    requires Below(c.cr.f, trust, keys)
    ensures AllJudgedUnder(c, trust, SettleAll(c, d, keys).1)
  {
    if keys != [] {
      var n := |keys| - 1;
      SettleJudged(c, trust, d, keys[..n]);
      DrawerJudged(c, trust, keys[n], Drawer(SettleAll(c, d, keys[..n]).0, keys[n].index));
    }
  }

  lemma RevealedBelow(f: Hash, candidate: ChainKey, index: nat, trusted: nat)
    requires trusted <= index
    ensures Below(f, IndexedKey(index, candidate), Revealed(f, candidate, index, trusted))
  {
    forall j | 0 <= j < index - trusted
      ensures Revealed(f, candidate, index, trusted)[j] == Claim(f, candidate, index, trusted + 1 + j)
    {
    }
  }

  lemma DiscloseJudged(c: Config, s: State, ext: Extension, entry: Entry, out: Bytes)
    requires AllJudgedUnder(c, s.trust, s.settled)
    ensures var s' := Disclose(c, s, ext, entry, out).0; AllJudgedUnder(c, s'.trust, s'.settled)
  {
    var index := c.sched.DisclosedIndex(ext.interval);
    var (trust, d) := Check(c.Limits(), s.trust, ext.disclosed, index);
    if d.New? {
      RevealedBelow(c.cr.f, ext.disclosed, index, s.trust.index);
      SettleJudged(c, trust, s.drawers, d.keys);
      StillJudged(c, s.trust, trust, s.settled);
    }
  }

  lemma ProcessJudged(c: Config, s: State, buf: Bytes, nowNs: nat)
    requires c.Valid() && AllJudgedUnder(c, s.trust, s.settled)
    ensures var s' := Process(c, s, buf, nowNs).0; AllJudgedUnder(c, s'.trust, s'.settled)
  {
    var split := SplitExtension(buf);
    if split.Split? && |split.packet| >= RTP_HEADER_LEN && c.sched.Accepts(nowNs, split.ext.interval) {
      var extIndex := Recover(s.highest, SeqField(split.packet));
      var (inner, reply) := Rx.Step(c.rx, s.inner, split.packet);
      var s' := s.(inner := inner, highest := Some(MaxWith(s.highest, extIndex)));
      DiscloseJudged(c, s', split.ext, Entry(extIndex, nowNs, split.ext.mac, split.packet), reply.buf);
    }
  }

  /** Every verdict of every run is the tag comparison under the key the trusted one hashes down to at the packet's label. */
  lemma {:induction false} RunJudged(c: Config, datagrams: seq<Datagram>)
    requires c.Valid()
    ensures var s := Run(c, datagrams).0; AllJudgedUnder(c, s.trust, s.settled)
  {
    if datagrams != [] {
      var n := |datagrams| - 1;
      RunJudged(c, datagrams[..n]);
      RunLast(c, datagrams);
      ProcessJudged(c, Run(c, datagrams[..n]).0, datagrams[n].buf, datagrams[n].atNs);
    }
  }

  // ------------------------------------------------- what gets a verdict

  /** From one state to a later one: histories and verdicts grow, the trusted index does not fall. */
  predicate Later(s: State, s': State)
  {
    s.history <= s'.history && s.settled <= s'.settled && s.trust.index <= s'.trust.index
  }

  lemma ProcessLater(c: Config, s: State, buf: Bytes, nowNs: nat)
    requires c.Valid()
    ensures Later(s, Process(c, s, buf, nowNs).0)
  {
    if Process(c, s, buf, nowNs).1.result.Delivered? {
      DeliveredMeans(c, s, buf, nowNs);
      ProcessTrustGrows(c, s, buf, nowNs);
    } else {
      DroppedMeans(c, s, buf, nowNs);
    }
  }

  lemma DiscloseTrustGrows(c: Config, s: State, ext: Extension, entry: Entry, out: Bytes)
    ensures s.trust.index <= Disclose(c, s, ext, entry, out).0.trust.index
  {
    CheckVerdict(c.Limits(), s.trust, ext.disclosed, c.sched.DisclosedIndex(ext.interval));
  }

  lemma ProcessTrustGrows(c: Config, s: State, buf: Bytes, nowNs: nat)
    requires c.Valid()
    ensures s.trust.index <= Process(c, s, buf, nowNs).0.trust.index
  {
    var split := SplitExtension(buf);
    if split.Split? && |split.packet| >= RTP_HEADER_LEN && c.sched.Accepts(nowNs, split.ext.interval) {
      var extIndex := Recover(s.highest, SeqField(split.packet));
      var (inner, reply) := Rx.Step(c.rx, s.inner, split.packet);
      var s' := s.(inner := inner, highest := Some(MaxWith(s.highest, extIndex)));
      DiscloseTrustGrows(c, s', split.ext, Entry(extIndex, nowNs, split.ext.mac, split.packet), reply.buf);
    }
  }

  lemma {:induction false} RunLater(c: Config, datagrams: seq<Datagram>, m: nat)
    requires c.Valid() && m <= |datagrams|
    ensures Later(Run(c, datagrams[..m]).0, Run(c, datagrams).0)
    decreases |datagrams|
  {
    if m == |datagrams| {
      assert datagrams[..m] == datagrams;
    } else {
      var n := |datagrams| - 1;
      assert datagrams[..n][..m] == datagrams[..m];
      RunLater(c, datagrams[..n], m);
      RunLast(c, datagrams);
      ProcessLater(c, Run(c, datagrams[..n]).0, datagrams[n].buf, datagrams[n].atNs);
    }
  }

  /** The step that reveals the key of label i judges everything delivered under i until then, in order. */
  lemma DiscloseSettles(c: Config, s: State, ext: Extension, entry: Entry, out: Bytes, i: nat)
    requires Accounted(c, s, i) && s.trust.index < i
    ensures var s' := Disclose(c, s, ext, entry, out).0;
      i <= s'.trust.index ==> RuledAs(s'.settled, i) == LabelledAs(s.history, i)
  {
    var index := c.sched.DisclosedIndex(ext.interval);
    var d := Check(c.Limits(), s.trust, ext.disclosed, index).1;
    NewKeysRange(c.Limits(), s.trust, ext.disclosed, index);
    if d.New? {
      NamesIndex(d.keys, s.trust.index, i);
      SettleMoves(c, s.drawers, d.keys, i);
      RuledAppend(s.settled, SettleAll(c, s.drawers, d.keys).1, i);
      Moved(RuledAs(s.settled, i), [], Drawer(s.drawers, i), Drawer(s.drawers, i));
    }
  }

  lemma ProcessSettles(c: Config, s: State, buf: Bytes, nowNs: nat, i: nat)
    requires c.Valid() && Accounted(c, s, i) && s.trust.index < i
    ensures var s' := Process(c, s, buf, nowNs).0;
      i <= s'.trust.index ==> RuledAs(s'.settled, i) == LabelledAs(s.history, i)
  {
    var split := SplitExtension(buf);
    if split.Split? && |split.packet| >= RTP_HEADER_LEN && c.sched.Accepts(nowNs, split.ext.interval) {
      var extIndex := Recover(s.highest, SeqField(split.packet));
      var (inner, reply) := Rx.Step(c.rx, s.inner, split.packet);
      var s' := s.(inner := inner, highest := Some(MaxWith(s.highest, extIndex)));
      DiscloseSettles(c, s', split.ext, Entry(extIndex, nowNs, split.ext.mac, split.packet), reply.buf, i);
    }
  }

  lemma {:induction false} LabelledGrows(history: seq<Labelled>, more: seq<Labelled>, i: nat)
    requires history <= more
    ensures LabelledAs(history, i) <= LabelledAs(more, i)
  {
    if |history| < |more| {
      LabelledGrows(history, more[..|more| - 1], i);
    } else {
      assert history == more;
    }
  }

  lemma RuledGrows(vs: seq<Ruling>, more: seq<Ruling>, i: nat)
    requires vs <= more
    ensures RuledAs(vs, i) <= RuledAs(more, i)
  {
    assert more == vs + more[|vs|..];
    RuledAppend(vs, more[|vs|..], i);
  }

  /**
   * Everything delivered under a label while its key was not out has its verdict, in order of delivery, once
   * the trusted index reaches the label.
   */
  lemma {:induction false} DeliveredThenJudged(c: Config, datagrams: seq<Datagram>, m: nat, i: nat)
    requires c.Valid() && m <= |datagrams| && Run(c, datagrams[..m]).0.trust.index < i
    ensures var early, late := Run(c, datagrams[..m]).0, Run(c, datagrams).0;
      i <= late.trust.index ==> LabelledAs(early.history, i) <= RuledAs(late.settled, i)
    decreases |datagrams|
  {
    if m == |datagrams| {
      assert datagrams[..m] == datagrams;
    } else {
      var n := |datagrams| - 1;
      var front, last := datagrams[..n], datagrams[n];
      assert front[..m] == datagrams[..m];
      DeliveredThenJudged(c, front, m, i);
      RunLast(c, datagrams);
      var early, before := Run(c, datagrams[..m]).0, Run(c, front).0;
      if i <= before.trust.index {
        ProcessLater(c, before, last.buf, last.atNs);
        RuledGrows(before.settled, Process(c, before, last.buf, last.atNs).0.settled, i);
      } else {
        RunAccounted(c, front, i);
        ProcessSettles(c, before, last.buf, last.atNs, i);
        RunLater(c, front, m);
        LabelledGrows(early.history, before.history, i);
      }
    }
  }

  // ------------------------------------------------- against the sender's own keys

  /** The packet carries the tag the sender would have put on it at this position in this interval. */
  predicate Tagged(src: Source, l: Labelled)
  {
    l.interval <= src.sched.nChain && l.entry.mac == src.TagFor(l.interval, l.entry.extIndex, l.entry.covered)
  }

  function CountTagged(src: Source, vs: seq<Ruling>): (n: nat)
    ensures n <= |vs|
  {
    if vs == [] then 0 else CountTagged(src, vs[..|vs| - 1]) + One(Tagged(src, vs[|vs| - 1].packet))
  }

  lemma {:induction false} GenuineIsTagged(src: Source, vs: seq<Ruling>)
    requires forall v | v in vs :: v.genuine <==> Tagged(src, v.packet)
    ensures CountGenuine(vs) == CountTagged(src, vs)
  {
    if vs != [] {
      GenuineIsTagged(src, vs[..|vs| - 1]);
      assert vs[|vs| - 1] in vs;
    }
  }

  lemma JudgedByTag(w: World, trust: IndexedKey, v: Ruling)
    requires TrustGenuine(w, trust) && JudgedUnder(w.Receiver(), trust, v)
    ensures v.genuine <==> Tagged(w.src, v.packet)
  {
    var i, e := v.packet.interval, v.packet.entry;
    GenuineHashesDown(w.src.cr.f, w.src.final, w.src.sched.nChain, trust.index, trust.index - i);
    PreparedTag(w.src.cr, w.src.alg, w.src.Key(i), e.extIndex, e.covered);
  }

  lemma {:induction false} CountGenuineAppend(a: seq<Ruling>, b: seq<Ruling>)
    ensures CountGenuine(a + b) == CountGenuine(a) + CountGenuine(b)
  {
    if b == [] {
      assert a + b == a;
    } else {
      CountGenuineAppend(a, b[..|b| - 1]);
      assert (a + b)[..|a + b| - 1] == a + b[..|b| - 1];
    }
  }

  predicate VerdictsCounted(s: State)
  {
    s.stats.verified == CountGenuine(s.settled) && s.stats.forged == |s.settled| - CountGenuine(s.settled)
  }

  lemma DiscloseVerdictsCounted(c: Config, s: State, ext: Extension, entry: Entry, out: Bytes)
    requires VerdictsCounted(s)
    ensures VerdictsCounted(Disclose(c, s, ext, entry, out).0)
  {
    var d := Check(c.Limits(), s.trust, ext.disclosed, c.sched.DisclosedIndex(ext.interval)).1;
    if d.New? {
      CountGenuineAppend(s.settled, SettleAll(c, s.drawers, d.keys).1);
    }
  }

  lemma ProcessVerdictsCounted(c: Config, s: State, buf: Bytes, nowNs: nat)
    requires c.Valid() && VerdictsCounted(s)
    ensures VerdictsCounted(Process(c, s, buf, nowNs).0)
  {
    var split := SplitExtension(buf);
    if split.Split? && |split.packet| >= RTP_HEADER_LEN && c.sched.Accepts(nowNs, split.ext.interval) {
      var extIndex := Recover(s.highest, SeqField(split.packet));
      var (inner, reply) := Rx.Step(c.rx, s.inner, split.packet);
      var s' := s.(inner := inner, highest := Some(MaxWith(s.highest, extIndex)));
      DiscloseVerdictsCounted(c, s', split.ext, Entry(extIndex, nowNs, split.ext.mac, split.packet), reply.buf);
    }
  }

  lemma {:induction false} RunVerdictsCounted(c: Config, datagrams: seq<Datagram>)
    requires c.Valid()
    ensures VerdictsCounted(Run(c, datagrams).0)
  {
    if datagrams != [] {
      var n := |datagrams| - 1;
      RunVerdictsCounted(c, datagrams[..n]);
      RunLast(c, datagrams);
      ProcessVerdictsCounted(c, Run(c, datagrams[..n]).0, datagrams[n].buf, datagrams[n].atNs);
    }
  }

  /** Whatever arrives, the receiver of a source trusts the source's own key, or has met a collision of F. */
  lemma RunTrustsSource(w: World, datagrams: seq<Datagram>)
    requires w.Valid()
    ensures var trust := Run(w.Receiver(), datagrams).0.trust;
      trust.index <= w.src.sched.nChain && GenuineOrCollision(w.src.cr.f, w.src.final, w.src.sched.nChain, trust)
  {
    var c := w.Receiver();
    RunRooted(c, datagrams);
    RunAccounted(c, datagrams, 0);
    RootedIsGenuine(w.src.cr.f, w.src.final, w.src.sched.nChain, Run(c, datagrams).0.trust);
  }

  /** Verdicts under the source's keys, counted. */
  predicate FoundOut(w: World, s: State)
  {
    && (forall v | v in s.settled :: v.genuine <==> Tagged(w.src, v.packet))
    && s.stats.verified == CountTagged(w.src, s.settled)
    && s.stats.forged == |s.settled| - CountTagged(w.src, s.settled)
  }

  /**
   * On any run of any datagrams, while the trusted key is the sender's: a judged packet counts as verified if it
   * carries the tag of its label's key over its position and bytes, and as forged if it does not.
   */
  lemma ForgeriesCounted(w: World, datagrams: seq<Datagram>)
    requires w.Valid() && TrustGenuine(w, Run(w.Receiver(), datagrams).0.trust)
    ensures FoundOut(w, Run(w.Receiver(), datagrams).0)
  {
    var s := Run(w.Receiver(), datagrams).0;
    RunJudged(w.Receiver(), datagrams);
    RunVerdictsCounted(w.Receiver(), datagrams);
    forall v | v in s.settled
      ensures v.genuine <==> Tagged(w.src, v.packet)
    {
      JudgedByTag(w, s.trust, v);
    }
    GenuineIsTagged(w.src, s.settled);
  }

  lemma {:induction false} LabelledMember(history: seq<Labelled>, l: Labelled)
    requires l in history
    ensures l.entry in LabelledAs(history, l.interval)
  {
    if l != history[|history| - 1] {
      LabelledMember(history[..|history| - 1], l);
    }
  }

  lemma {:induction false} RuledMember(vs: seq<Ruling>, i: nat, e: Entry) returns (v: Ruling)
    requires e in RuledAs(vs, i)
    ensures v in vs && v.packet == Labelled(i, e)
  {
    var n := |vs| - 1;
    if vs[n].packet == Labelled(i, e) {
      v := vs[n];
    } else {
      v := RuledMember(vs[..n], i, e);
    }
  }

  lemma MemberFoundOut(w: World, early: State, late: State, l: Labelled)
    requires l in early.history && LabelledAs(early.history, l.interval) <= RuledAs(late.settled, l.interval)
    requires FoundOut(w, late)
    ensures Ruling(l, Tagged(w.src, l)) in late.settled
  {
    LabelledMember(early.history, l);
    var v := RuledMember(late.settled, l.interval, l.entry);
  }

  lemma JudgedBetween(c: Config, datagrams: seq<Datagram>, m: nat, early: State, late: State, i: nat)
    requires c.Valid() && m <= |datagrams| && early == Run(c, datagrams[..m]).0 && late == Run(c, datagrams).0
    requires early.trust.index < i <= late.trust.index
    ensures LabelledAs(early.history, i) <= RuledAs(late.settled, i)
  {
    DeliveredThenJudged(c, datagrams, m, i);
  }

  lemma LateFoundOut(w: World, datagrams: seq<Datagram>, late: State)
    requires w.Valid() && late == Run(w.Receiver(), datagrams).0 && TrustGenuine(w, late.trust)
    ensures FoundOut(w, late)
  {
    ForgeriesCounted(w, datagrams);
  }

  /** A packet delivered before its key was out is verified or called forged by the sender's own tag once it is out. */
  lemma DeliveredIsFoundOut(w: World, datagrams: seq<Datagram>, m: nat, early: State, late: State, l: Labelled)
    requires w.Valid() && m <= |datagrams|
    requires early == Run(w.Receiver(), datagrams[..m]).0 && late == Run(w.Receiver(), datagrams).0
    requires l in early.history && early.trust.index < l.interval <= late.trust.index && TrustGenuine(w, late.trust)
    ensures Ruling(l, Tagged(w.src, l)) in late.settled
  {
    JudgedBetween(w.Receiver(), datagrams, m, early, late, l.interval);
    LateFoundOut(w, datagrams, late);
    MemberFoundOut(w, early, late, l);
  }
}
