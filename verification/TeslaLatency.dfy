/** How long packets wait for their verdict: the wrapping subtraction of the code is exact on ordered arrivals. */
module TeslaLatency {
  import opened Arithmetic
  import opened Options
  import opened ByteStrings
  import opened Session
  import opened IndexRecovery
  import opened Chain
  import opened TeslaWire
  import opened TeslaSpec
  import opened TeslaRuns
  import Rx = ReceiverSpec

  /** The verified packets' waiting times, as plain differences. */
  function Waits(vs: seq<Ruling>, nowNs: nat): seq<int>
  {
    if vs == [] then []
    else
      var last := vs[|vs| - 1];
      Waits(vs[..|vs| - 1], nowNs) + if last.genuine then [nowNs - last.packet.entry.arrivalNs] else []
  }

  predicate Arrived(vs: seq<Ruling>, nowNs: nat)
  {
    forall k | 0 <= k < |vs| :: vs[k].packet.entry.arrivalNs <= nowNs
  }

  lemma {:induction false} LatenciesAreWaits(vs: seq<Ruling>, nowNs: nat)
    requires nowNs < U64 && Arrived(vs, nowNs)
    ensures Latencies(vs, nowNs) == Waits(vs, nowNs)
  {
    if vs != [] {
      LatenciesAreWaits(vs[..|vs| - 1], nowNs);
    }
  }

  /** Everything in the drawers came before. */
  ghost predicate AllWaiting(d: Drawers, nowNs: nat)
  {
    forall i: nat, k | 0 <= k < |Drawer(d, i)| :: Drawer(d, i)[k].arrivalNs <= nowNs
  }

  lemma {:induction false} SettleArrived(c: Config, d: Drawers, keys: seq<IndexedKey>, nowNs: nat)
    requires AllWaiting(d, nowNs)
    ensures var (d', vs) := SettleAll(c, d, keys); AllWaiting(d', nowNs) && Arrived(vs, nowNs)
  {
    if keys != [] {
      var n := |keys| - 1;
      SettleArrived(c, d, keys[..n], nowNs);
      var d1, i := SettleAll(c, d, keys[..n]).0, keys[n].index;
      assert forall i': nat :: Drawer(d1 - {i}, i') == if i' == i then [] else Drawer(d1, i');
    }
  }

  lemma DeliverWaiting(s: State, interval: nat, entry: Entry)
    requires AllWaiting(s.drawers, entry.arrivalNs)
    ensures AllWaiting(Deliver(s, interval, entry).drawers, entry.arrivalNs)
  {
    var d := Deliver(s, interval, entry).drawers;
    assert forall i: nat :: Drawer(d, i) == Drawer(s.drawers, i) + if i == interval then [entry] else [];
  }

  /** From one state to the next the latencies grow by the exact waits of the new verdicts. */
  predicate Timed(s: State, s': State, nowNs: nat)
  {
    && s.settled <= s'.settled
    && s'.stats.latenciesNs == s.stats.latenciesNs + Waits(s'.settled[|s.settled|..], nowNs)
  }

  lemma DiscloseTimed(c: Config, s: State, ext: Extension, entry: Entry, out: Bytes)
    requires entry.arrivalNs < U64 && AllWaiting(s.drawers, entry.arrivalNs)
    ensures var s' := Disclose(c, s, ext, entry, out).0;
      Timed(s, s', entry.arrivalNs) && AllWaiting(s'.drawers, entry.arrivalNs)
  {
    var (trust, d) := Check(c.Limits(), s.trust, ext.disclosed, c.sched.DisclosedIndex(ext.interval));
    match d
    case New(keys) =>
      var after := Settle(c, s.(trust := trust), keys, entry.arrivalNs);
      var vs := SettleAll(c, s.drawers, keys).1;
      SettleArrived(c, s.drawers, keys, entry.arrivalNs);
      LatenciesAreWaits(vs, entry.arrivalNs);
      DeliverWaiting(after, ext.interval, entry);
      assert after.settled[|s.settled|..] == vs;
    case NotNew => DeliverWaiting(s, ext.interval, entry);
    case _ =>
  }

  lemma ProcessTimed(c: Config, s: State, buf: Bytes, nowNs: nat)
    requires c.Valid() && nowNs < U64 && AllWaiting(s.drawers, nowNs)
    ensures var s' := Process(c, s, buf, nowNs).0; Timed(s, s', nowNs) && AllWaiting(s'.drawers, nowNs)
  {
    var split := SplitExtension(buf);
    if split.Split? && |split.packet| >= RTP_HEADER_LEN && c.sched.Accepts(nowNs, split.ext.interval) {
      var extIndex := Recover(s.highest, SeqField(split.packet));
      var (inner, reply) := Rx.Step(c.rx, s.inner, split.packet);
      var s' := s.(inner := inner, highest := Some(MaxWith(s.highest, extIndex)));
      DiscloseTimed(c, s', split.ext, Entry(extIndex, nowNs, split.ext.mac, split.packet), reply.buf);
    }
  }

  /** Arrival times that never decrease and fit 64 bits. */
  predicate Clocked(datagrams: seq<Datagram>)
  {
    forall k | 0 <= k < |datagrams| ::
      datagrams[k].atNs < U64 && (k > 0 ==> datagrams[k - 1].atNs <= datagrams[k].atNs)
  }

  lemma {:induction false} RunWaiting(c: Config, datagrams: seq<Datagram>, nowNs: nat)
    requires c.Valid() && Clocked(datagrams) && (datagrams != [] ==> datagrams[|datagrams| - 1].atNs <= nowNs)
    ensures AllWaiting(Run(c, datagrams).0.drawers, nowNs)
  {
    if datagrams != [] {
      var n := |datagrams| - 1;
      RunWaiting(c, datagrams[..n], datagrams[n].atNs);
      RunLast(c, datagrams);
      ProcessTimed(c, Run(c, datagrams[..n]).0, datagrams[n].buf, datagrams[n].atNs);
    }
  }

  /** Over any run with ordered arrivals, every recorded latency is the time its packet waited; none wraps. */
  lemma RunTimed(c: Config, datagrams: seq<Datagram>)
    requires c.Valid() && datagrams != [] && Clocked(datagrams)
    ensures var n := |datagrams| - 1; Timed(Run(c, datagrams[..n]).0, Run(c, datagrams).0, datagrams[n].atNs)
  {
    var n := |datagrams| - 1;
    RunWaiting(c, datagrams[..n], datagrams[n].atNs);
    RunLast(c, datagrams);
    ProcessTimed(c, Run(c, datagrams[..n]).0, datagrams[n].buf, datagrams[n].atNs);
  }
}
