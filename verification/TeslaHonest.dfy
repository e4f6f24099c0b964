/**
 * What the TESLA receiver makes of genuine traffic: the sender's packets arriving lossy,
 * reordered and late, over any inner receiver.
 */
module TeslaHonest {
  import opened Arithmetic
  import opened Options
  import opened ByteStrings
  import opened Session
  import opened IndexRecovery
  import opened Chain
  import opened Schedule
  import opened TeslaWire
  import opened TeslaSender
  import opened TeslaSpec
  import opened TeslaRuns
  import Rx = ReceiverSpec
  import opened Network

  /** The sender's side of a stream, and the receiver that trusts its anchor. */
  datatype World = World(src: Source, rx: Rx.Config, wire: nat -> Bytes, send: nat -> nat)
  {
    predicate Valid() { src.sched.Valid() && rx.Valid() }

    function Receiver(): Config { Config(src.sched, src.cr, src.alg, src.Anchor(), rx) }

    /** Packet j can be authenticated at its send time. */
    predicate Sendable(j: nat)
      requires Valid()
    {
      src.sched.Covers(send(j)) && |wire(j)| >= RTP_HEADER_LEN
    }

    function Label(j: nat): (i: nat)
      requires Valid() && Sendable(j)
      ensures 1 <= i <= src.sched.nChain
    {
      src.sched.IntervalOf(send(j))
    }

    /** Packet j as the sender puts it on the network. */
    function Image(j: nat): Bytes
      requires Valid() && Sendable(j)
    {
      src.Authenticated(wire(j), j, send(j))
    }

    function Ext(j: nat): Extension
      requires Valid() && Sendable(j)
    {
      Extension(Label(j), src.Key(src.sched.DisclosedIndex(Label(j))), src.TagFor(Label(j), j, wire(j)))
    }

    /** The waiting record packet j becomes. */
    function Record(j: nat, at: nat): Labelled
      requires Valid() && Sendable(j)
    {
      Labelled(Label(j), Entry(j, at, src.TagFor(Label(j), j, wire(j)), wire(j)))
    }
  }

  predicate AllSendable(w: World, hops: seq<Arrival>)
    requires w.Valid()
  {
    forall k | 0 <= k < |hops| :: w.Sendable(hops[k].index)
  }

  function Datagrams(w: World, hops: seq<Arrival>): (ds: seq<Datagram>)
    requires w.Valid() && AllSendable(w, hops)
    ensures |ds| == |hops|
  {
    seq(|hops|, k requires 0 <= k < |hops| => Datagram(w.Image(hops[k].index), hops[k].at))
  }

  /** The state after these packets arrived. */
  function After(w: World, hops: seq<Arrival>): State
    requires w.Valid() && AllSendable(w, hops)
  {
    Run(w.Receiver(), Datagrams(w, hops)).0
  }

  /** The sender's clock runs at most D_t ahead, and the sequence number still names the position. */
  predicate Plausible(w: World, s: State, a: Arrival)
    requires w.Valid() && w.Sendable(a.index)
  {
    && w.send(a.index) <= a.at + w.src.sched.dtNs
    && Recover(s.highest, SeqField(w.wire(a.index))) == a.index
  }

  /** A lossy, reordered delivery of genuine packets, arrival times not decreasing. */
  predicate HonestRun(w: World, hops: seq<Arrival>)
    requires w.Valid()
  {
    AllSendable(w, hops) &&
    (hops == [] ||
     var n := |hops| - 1;
     HonestRun(w, hops[..n]) && (n > 0 ==> hops[n - 1].at <= hops[n].at) && Plausible(w, After(w, hops[..n]), hops[n]))
  }

  // ------------------------------------------------- the invariant of honest runs

  /** Everything that waits is genuine and waits for a key that is not out yet. */
  ghost predicate DrawersGenuine(w: World, d: Drawers, trusted: nat)
  {
    forall i: nat | Drawer(d, i) != [] ::
      && trusted < i <= w.src.sched.nChain
      && forall k | 0 <= k < |Drawer(d, i)| ::
           Drawer(d, i)[k].mac == w.src.TagFor(i, Drawer(d, i)[k].extIndex, Drawer(d, i)[k].covered)
  }

  ghost predicate TrustGenuine(w: World, trust: IndexedKey)
  {
    trust.index <= w.src.sched.nChain && trust.key == w.src.Key(trust.index)
  }

  /** No key is trusted before every receiver clock must reckon with its disclosure. */
  predicate TrustTimely(w: World, trusted: nat, now: nat)
    requires w.Valid()
  {
    trusted == 0 || trusted + w.src.sched.d <= w.src.sched.SenderUpperBound(now)
  }

  predicate AllGenuine(vs: seq<Ruling>)
  {
    forall v | v in vs :: v.genuine
  }

  lemma {:induction false} AllGenuineCounted(vs: seq<Ruling>)
    requires AllGenuine(vs)
    ensures CountGenuine(vs) == |vs|
  {
    if vs != [] {
      AllGenuineCounted(vs[..|vs| - 1]);
      assert vs[|vs| - 1] in vs;
    }
  }

  function Keys(w: World, lo: nat, hi: nat): seq<IndexedKey>
    requires lo <= hi <= w.src.sched.nChain
  {
    GenuineKeys(w.src.cr.f, w.src.final, w.src.sched.nChain, lo, hi)
  }

  lemma KeysSnoc(w: World, lo: nat, hi: nat)
    requires lo < hi <= w.src.sched.nChain
    ensures Keys(w, lo, hi) == Keys(w, lo, hi - 1) + [IndexedKey(hi, w.src.Key(hi))]
  {
    var n := w.src.sched.nChain;
    assert Keys(w, lo, hi)[hi - lo - 1] == Genuine(w.src.cr.f, w.src.final, n, hi);
  }

  lemma JudgedGenuine(w: World, d: Drawers, trusted: nat, index: nat)
    requires index <= w.src.sched.nChain && DrawersGenuine(w, d, trusted)
    ensures AllGenuine(Judged(w.Receiver(), IndexedKey(index, w.src.Key(index)), Drawer(d, index)))
  {
    var key, es := IndexedKey(index, w.src.Key(index)), Drawer(d, index);
    forall v | v in Judged(w.Receiver(), key, es)
      ensures v.genuine
    {
      var k :| 0 <= k < |es| && v == Judge(w.Receiver(), key, es[k]);
    }
  }

  /** Settling genuine packets under genuine keys verifies them all and leaves only newer ones waiting. */
  lemma {:induction false} SettleGenuine(w: World, d: Drawers, trusted: nat, index: nat)
    requires trusted <= index <= w.src.sched.nChain && DrawersGenuine(w, d, trusted)
    ensures var (d', vs) := SettleAll(w.Receiver(), d, Keys(w, trusted, index));
      AllGenuine(vs) && DrawersGenuine(w, d', index)
    decreases index
  {
    if trusted < index {
      SettleGenuine(w, d, trusted, index - 1);
      KeysSnoc(w, trusted, index);
      var before := Keys(w, trusted, index - 1);
      assert Keys(w, trusted, index)[..|before|] == before;
      var d1 := SettleAll(w.Receiver(), d, before).0;
      JudgedGenuine(w, d1, index - 1, index);
      assert forall i: nat | Drawer(d1 - {index}, i) != [] :: i != index && Drawer(d1 - {index}, i) == Drawer(d1, i);
    }
  }

  ghost predicate Sound(w: World, s: State, now: nat)
    requires w.Valid()
  {
    && TrustGenuine(w, s.trust) && TrustTimely(w, s.trust.index, now)
    && DrawersGenuine(w, s.drawers, s.trust.index)
    && AllGenuine(s.settled) && s.stats.forged == 0
  }

  /** The disclosed key of a genuine packet: already known, refused for its distance, or proving all keys up to it. */
  lemma CheckGenuine(w: World, trust: IndexedKey, j: nat)
    requires w.Valid() && w.Sendable(j) && TrustGenuine(w, trust)
    ensures var index := w.src.sched.DisclosedIndex(w.Label(j));
      var (trust', d) := Check(w.Receiver().Limits(), trust, w.Ext(j).disclosed, index);
      && TrustGenuine(w, trust')
      && (if index <= trust.index then d.NotNew? && trust' == trust
          else if index - trust.index > w.src.sched.gMax then d.TooFarAhead? && trust' == trust
          else d == New(Keys(w, trust.index, index)) && trust'.index == index)
  {
    var index := w.src.sched.DisclosedIndex(w.Label(j));
    if trust.index < index && index - trust.index <= w.src.sched.gMax {
      GenuineAccepted(w.Receiver().Limits(), w.src.final, trust.index, index);
    }
  }

  lemma SettleSound(w: World, s: State, trust: IndexedKey, now: nat)
    requires w.Valid() && Sound(w, s, now) && s.trust.index <= trust.index
    requires TrustGenuine(w, trust) && TrustTimely(w, trust.index, now)
    ensures Sound(w, Settle(w.Receiver(), s.(trust := trust), Keys(w, s.trust.index, trust.index), now), now)
  {
    SettleGenuine(w, s.drawers, s.trust.index, trust.index);
    AllGenuineCounted(SettleAll(w.Receiver(), s.drawers, Keys(w, s.trust.index, trust.index)).1);
  }

  /** A packet that passed the accept test joins a drawer whose key is still secret. */
  lemma DeliverSound(w: World, s: State, j: nat, now: nat)
    requires w.Valid() && w.Sendable(j) && Sound(w, s, now) && w.src.sched.Accepts(now, w.Label(j))
    ensures Sound(w, Deliver(s, w.Label(j), w.Record(j, now).entry), now)
  {
    var i, e := w.Label(j), w.Record(j, now).entry;
    var d' := Deliver(s, i, e).drawers;
    assert Drawer(d', i) == Drawer(s.drawers, i) + [e];
    assert forall i': nat | i' != i :: Drawer(d', i') == Drawer(s.drawers, i');
  }

  lemma DiscloseSound(w: World, s: State, j: nat, now: nat, out: Bytes)
    requires w.Valid() && w.Sendable(j) && Sound(w, s, now) && w.src.sched.Accepts(now, w.Label(j))
    requires w.send(j) <= now + w.src.sched.dtNs
    ensures Sound(w, Disclose(w.Receiver(), s, w.Ext(j), w.Record(j, now).entry, out).0, now)
  {
    var sched := w.src.sched;
    var index := sched.DisclosedIndex(w.Label(j));
    var (trust, d) := Check(w.Receiver().Limits(), s.trust, w.Ext(j).disclosed, index);
    CheckGenuine(w, s.trust, j);
    BoundCoversSender(sched, now, w.send(j));
    if d.New? {
      SettleSound(w, s, trust, now);
      DeliverSound(w, Settle(w.Receiver(), s.(trust := trust), d.keys, now), j, now);
    } else if d.NotNew? {
      DeliverSound(w, s, j, now);
    }
  }

  /** The extension of a genuine datagram is read back as it was written. */
  lemma ImageSplits(w: World, j: nat)
    requires w.Valid() && w.Sendable(j)
    ensures SplitExtension(w.Image(j)) == Split.Split(w.wire(j), w.Ext(j))
  {
    SplitInvertsAppend(w.wire(j), w.Ext(j));
  }

  lemma ProcessSound(w: World, s: State, a: Arrival)
    requires w.Valid() && w.Sendable(a.index) && Plausible(w, s, a) && Sound(w, s, a.at)
    ensures Sound(w, Process(w.Receiver(), s, w.Image(a.index), a.at).0, a.at)
  {
    var c, packet := w.Receiver(), w.wire(a.index);
    ImageSplits(w, a.index);
    if c.sched.Accepts(a.at, w.Label(a.index)) {
      var (inner, reply) := Rx.Step(c.rx, s.inner, packet);
      var s' := s.(inner := inner, highest := Some(MaxWith(s.highest, a.index)));
      assert Sound(w, s', a.at);
      DiscloseSound(w, s', a.index, a.at, reply.buf);
    }
  }

  lemma LaterStillSound(w: World, s: State, a: nat, b: nat)
    requires w.Valid() && Sound(w, s, a) && a <= b
    ensures Sound(w, s, b)
  {
    BoundMonotone(w.src.sched, a, b);
  }

  lemma DatagramsSnoc(w: World, hops: seq<Arrival>)
    requires w.Valid() && AllSendable(w, hops) && hops != []
    ensures var n := |hops| - 1;
      && Datagrams(w, hops)[..n] == Datagrams(w, hops[..n])
      && Datagrams(w, hops)[n] == Datagram(w.Image(hops[n].index), hops[n].at)
      && After(w, hops) == Process(w.Receiver(), After(w, hops[..n]), w.Image(hops[n].index), hops[n].at).0
  {
    var n := |hops| - 1;
    assert Datagrams(w, hops)[..n] == Datagrams(w, hops[..n]);
    RunLast(w.Receiver(), Datagrams(w, hops));
  }

  lemma {:induction false} HonestSound(w: World, hops: seq<Arrival>, now: nat)
    requires w.Valid() && HonestRun(w, hops) && (hops != [] ==> hops[|hops| - 1].at <= now)
    ensures Sound(w, After(w, hops), now)
  {
    if hops != [] {
      var n := |hops| - 1;
      HonestSound(w, hops[..n], hops[n].at);
      DatagramsSnoc(w, hops);
      ProcessSound(w, After(w, hops[..n]), hops[n]);
      LaterStillSound(w, After(w, hops), hops[n].at, now);
    }
  }

  // ------------------------------------------------- the verdicts of an honest run

  function CountAbove(history: seq<Labelled>, t: nat): (n: nat)
    ensures n <= |history|
  {
    if history == [] then 0
    else CountAbove(history[..|history| - 1], t) + One(history[|history| - 1].interval > t)
  }

  lemma {:induction false} CountAboveSplit(history: seq<Labelled>, t: nat)
    ensures CountAbove(history, t) == CountAbove(history, t + 1) + |LabelledAs(history, t + 1)|
  {
    if history != [] {
      CountAboveSplit(history[..|history| - 1], t);
    }
  }

  /** Every label in the history has something delivered under it. */
  lemma {:induction false} LabelPresent(history: seq<Labelled>, k: nat)
    requires k < |history|
    ensures LabelledAs(history, history[k].interval) != []
  {
    if k < |history| - 1 {
      LabelPresent(history[..|history| - 1], k);
    }
  }

  lemma {:induction false} NoneAbove(history: seq<Labelled>, t: nat)
    requires forall k | 0 <= k < |history| :: history[k].interval <= t
    ensures CountAbove(history, t) == 0
  {
    if history != [] {
      NoneAbove(history[..|history| - 1], t);
    }
  }

  predicate WaitsAbove(d: Drawers, history: seq<Labelled>, t: nat, i: nat)
  {
    Drawer(d, i) == if i > t then LabelledAs(history, i) else []
  }

  /** When exactly the labels above t wait, the waiting packets are the delivered ones above t. */
  lemma {:induction false} WaitingIsAbove(d: Drawers, history: seq<Labelled>, t: nat, labels: nat)
    requires forall i: nat :: WaitsAbove(d, history, t, i)
    requires labels > t
    ensures Waiting(d, labels) + CountAbove(history, labels - 1) == CountAbove(history, t)
    decreases labels
  {
    if labels == t + 1 {
      forall i: nat | i < labels
        ensures Drawer(d, i) == []
      {
        assert WaitsAbove(d, history, t, i);
      }
      NoneBelow(d, labels);
    } else {
      WaitingIsAbove(d, history, t, labels - 1);
      CountAboveSplit(history, labels - 2);
      assert WaitsAbove(d, history, t, labels - 1);
    }
  }

  lemma {:induction false} NoneBelow(d: Drawers, labels: nat)
    requires forall i: nat | i < labels :: Drawer(d, i) == []
    ensures Waiting(d, labels) == 0
  {
    if labels > 0 {
      NoneBelow(d, labels - 1);
    }
  }

  /** Labels up to the trusted index were judged once and completely; labels above it all wait. */
  predicate SettledUpTo(s: State, i: nat)
  {
    if i <= s.trust.index then Drawer(s.drawers, i) == [] && RuledAs(s.settled, i) == LabelledAs(s.history, i)
    else RuledAs(s.settled, i) == [] && Drawer(s.drawers, i) == LabelledAs(s.history, i)
  }

  lemma HonestSettled(w: World, hops: seq<Arrival>, i: nat)
    requires w.Valid() && HonestRun(w, hops)
    ensures SettledUpTo(After(w, hops), i)
  {
    HonestSound(w, hops, if hops == [] then 0 else hops[|hops| - 1].at);
    RunAccounted(w.Receiver(), Datagrams(w, hops), i);
    var s := After(w, hops);
    if i <= s.trust.index {
      assert Drawer(s.drawers, i) == [];
      assert RuledAs(s.settled, i) + [] == RuledAs(s.settled, i);
    } else {
      assert [] + Drawer(s.drawers, i) == Drawer(s.drawers, i);
    }
  }

  lemma HonestPending(w: World, hops: seq<Arrival>)
    requires w.Valid() && HonestRun(w, hops)
    ensures After(w, hops).pending == CountAbove(After(w, hops).history, After(w, hops).trust.index)
  {
    var s, labels := After(w, hops), U32;
    HonestSound(w, hops, if hops == [] then 0 else hops[|hops| - 1].at);
    RunBalanced(w.Receiver(), Datagrams(w, hops), labels);
    forall i: nat
      ensures WaitsAbove(s.drawers, s.history, s.trust.index, i)
    {
      HonestSettled(w, hops, i);
    }
    forall k | 0 <= k < |s.history|
      ensures s.history[k].interval <= labels - 1
    {
      LabelPresent(s.history, k);
      HonestSettled(w, hops, s.history[k].interval);
    }
    NoneAbove(s.history, labels - 1);
    WaitingIsAbove(s.drawers, s.history, s.trust.index, labels);
  }

  /**
   * Genuine traffic is never called forged. Every delivered packet whose interval's key is out has
   * been verified exactly once, in order; exactly the packets of later intervals still wait.
   */
  lemma HonestVerdicts(w: World, hops: seq<Arrival>)
    requires w.Valid() && HonestRun(w, hops)
    ensures var s := After(w, hops);
      && s.stats.forged == 0 && AllGenuine(s.settled)
      && (forall i: nat :: SettledUpTo(s, i))
      && s.pending == CountAbove(s.history, s.trust.index)
      && s.stats.verified == |s.history| - CountAbove(s.history, s.trust.index)
  {
    HonestSound(w, hops, if hops == [] then 0 else hops[|hops| - 1].at);
    forall i: nat
      ensures SettledUpTo(After(w, hops), i)
    {
      HonestSettled(w, hops, i);
    }
    HonestPending(w, hops);
    RunBalanced(w.Receiver(), Datagrams(w, hops), U32);
  }
}
