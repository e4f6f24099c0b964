/** The TESLA receiver as it is built (src/tesla/receiver.rs), proved to take the steps of `TeslaSpec`. */
module TeslaReceiver {
  import opened Arithmetic
  import opened ByteStrings
  import opened Session
  import opened IndexRecovery
  import opened Chain
  import opened Schedule
  import opened TeslaWire
  import opened TeslaSpec
  import opened Commitment
  import Receiver

  /** What one more ruling adds to the counters. */
  function CountOne(st: TeslaStats, v: Ruling, nowNs: nat): TeslaStats
  {
    if v.genuine then
      st.(verified := st.verified + 1, latenciesNs := st.latenciesNs + [(nowNs - v.packet.entry.arrivalNs) % U64])
    else st.(forged := st.forged + 1)
  }

  lemma CountedSnoc(st: TeslaStats, vs: seq<Ruling>, v: Ruling, nowNs: nat)
    ensures Counted(st, vs + [v], nowNs) == CountOne(Counted(st, vs, nowNs), v, nowNs)
  {
    assert (vs + [v])[..|vs|] == vs;
  }

  lemma CountedNext(st: TeslaStats, vs: seq<Ruling>, j: nat, nowNs: nat)
    requires j < |vs|
    ensures Counted(st, vs[..j + 1], nowNs) == CountOne(Counted(st, vs[..j], nowNs), vs[j], nowNs)
    ensures vs[..j + 1] == vs[..j] + [vs[j]]
  {
    assert vs[..j + 1] == vs[..j] + [vs[j]];
    CountedSnoc(st, vs[..j], vs[j], nowNs);
  }

  /** Counting rulings piecewise is counting them all. */
  lemma {:induction false} CountedAppend(st: TeslaStats, a: seq<Ruling>, b: seq<Ruling>, nowNs: nat)
    ensures Counted(Counted(st, a, nowNs), b, nowNs) == Counted(st, a + b, nowNs)
  {
    if b == [] {
      assert a + b == a;
    } else {
      var n := |b| - 1;
      CountedAppend(st, a, b[..n], nowNs);
      assert a + b == (a + b[..n]) + [b[n]];
      assert b == b[..n] + [b[n]];
      CountedSnoc(st, a + b[..n], b[n], nowNs);
      CountedSnoc(Counted(st, a, nowNs), b[..n], b[n], nowNs);
    }
  }

  lemma SettleAllNext(c: Config, d: Drawers, keys: seq<IndexedKey>, j: nat)
    requires j < |keys|
    ensures var (d', vs) := SettleAll(c, d, keys[..j]);
      SettleAll(c, d, keys[..j + 1]) == (d' - {keys[j].index}, vs + Judged(c, keys[j], Drawer(d', keys[j].index)))
  {
    assert keys[..j + 1][..j] == keys[..j];
  }

  lemma BookedTwice(s: State, d: Drawers, vs: seq<Ruling>, d': Drawers, more: seq<Ruling>, nowNs: nat)
    ensures Booked(s, d', vs + more, nowNs) == Booked(Booked(s, d, vs, nowNs), d', more, nowNs)
  {
    CountedAppend(s.stats, vs, more, nowNs);
    assert s.settled + (vs + more) == (s.settled + vs) + more;
  }

  /** Settling one more key is settling it on its own. */
  lemma SettleNext(c: Config, s: State, keys: seq<IndexedKey>, j: nat, nowNs: nat)
    requires j < |keys|
    ensures var before := Settle(c, s, keys[..j], nowNs);
      var more := Judged(c, keys[j], Drawer(before.drawers, keys[j].index));
      && Settle(c, s, keys[..j + 1], nowNs) == Booked(before, before.drawers - {keys[j].index}, more, nowNs)
      && |SettleAll(c, s.drawers, keys[..j + 1]).1| == |SettleAll(c, s.drawers, keys[..j]).1| + |more|
  {
    var (d, vs) := SettleAll(c, s.drawers, keys[..j]);
    SettleAllNext(c, s.drawers, keys, j);
    BookedTwice(s, d, vs, d - {keys[j].index}, Judged(c, keys[j], Drawer(d, keys[j].index)), nowNs);
  }

  class TeslaReceiver {
    ghost const c: Config
    const sched: TeslaSchedule
    const cr: TeslaCrypto
    const alg: MacAlg
    const inner: Receiver.ReceiverKeyManager
    const verifier: ChainVerifier
    const recovery: IndexRecovery
    var drawers: Drawers
    var pending: int
    var stats: TeslaStats
    ghost var history: seq<Labelled>
    ghost var settled: seq<Ruling>

    ghost function Abs(): State
      reads this, inner, inner.session, inner.recovery, verifier, recovery
    {
      State(inner.Abs(), recovery.highest, verifier.Trust(), drawers, pending, stats, history, settled)
    }

    ghost predicate Valid()
      reads this, inner, inner.session, inner.recovery, inner.ring, inner.ratchet, verifier, recovery
    {
      && c.Valid() && sched == c.sched && cr == c.cr && alg == c.alg
      && inner.Valid() && inner.c == c.rx && recovery != inner.recovery
      && verifier.l == c.Limits()
    }

    constructor (sched: TeslaSchedule, cr: TeslaCrypto, alg: MacAlg, anchor: ChainKey, inner: Receiver.ReceiverKeyManager)
      requires sched.Valid() && inner.Valid()
      ensures Valid() && c == Config(sched, cr, alg, anchor, inner.c)
      ensures Abs() == Init(c).(inner := inner.Abs()) && this.inner == inner
      ensures fresh(verifier) && fresh(recovery)
    {
      c := Config(sched, cr, alg, anchor, inner.c);
      this.sched, this.cr, this.alg, this.inner := sched, cr, alg, inner;
      verifier := new ChainVerifier(anchor, Limits(cr.f, sched.nChain, sched.gMax));
      recovery := new IndexRecovery();
      drawers, pending, history, settled := map[], 0, [], [];
      stats := TeslaStats(0, 0, 0, 0, 0, 0, 0, 0, []);
    }

    /**
     * The only way in: a receiver comes into being exactly when the signature over the commitment's
     * bytes checks out, and takes its anchor, schedule and algorithm from that commitment.
     */
    static method Accept(commitment: TeslaCommitment, signature: Bytes, publicKey: Bytes,
                         verify: (Bytes, Bytes, Bytes) -> bool, cr: TeslaCrypto, dtNs: nat, gMax: nat,
                         inner: Receiver.ReceiverKeyManager)
      returns (r: TeslaReceiver?)
      requires inner.Valid()
      requires verify(commitment.Encode(), publicKey, signature) ==> Usable(commitment, dtNs, gMax)
      ensures r != null <==> verify(commitment.Encode(), publicKey, signature)
      ensures r != null ==> fresh(r) && r.Valid() && r.Abs() == Init(r.c).(inner := inner.Abs())
      ensures r != null ==>
        && r.c.sched.t0Ns == commitment.t0Ns && r.c.sched.tIntNs == commitment.tIntNs
        && r.c.sched.d == commitment.d && r.c.sched.nChain == commitment.nChain
        && r.c.sched.dtNs == dtNs && r.c.sched.gMax == gMax
        && r.c.cr == cr && r.c.alg == commitment.macAlg && r.c.anchor == commitment.anchor && r.c.rx == inner.c
      // it takes in exactly what is still secret by the signed schedule
      ensures r != null ==> forall at: nat, i: nat | i >= 1 ::
        r.c.sched.Accepts(at, i) <==>
          forall clock: nat | commitment.t0Ns <= clock < U64 && clock <= at + dtNs ::
            SignedInterval(commitment, clock) < i + commitment.d
    {
      var signed := ToBytes(commitment);
      if !verify(signed, publicKey, signature) {
        return null;
      }
      r := new TeslaReceiver(commitment.Schedule(dtNs, gMax), cr, commitment.macAlg, commitment.anchor, inner);
      forall at: nat, i: nat | i >= 1
        ensures r.c.sched.Accepts(at, i) <==>
          forall clock: nat | commitment.t0Ns <= clock < U64 && clock <= at + dtNs ::
            SignedInterval(commitment, clock) < i + commitment.d
      {
        CommittedTiming(commitment, dtNs, gMax, at, i);
      }
    }

    /** Recomputes one packet's tag and counts the verdict. */
    method SettleEntry(ghost key: IndexedKey, prepared: PreparedMac, e: Entry, nowNs: nat)
      requires cr == c.cr && prepared == Prepare(c.cr, c.alg, key.key)
      modifies this`pending, this`stats, this`settled
      ensures settled == old(settled) + [Judge(c, key, e)] && pending == old(pending) - 1
      ensures stats == CountOne(old(stats), Judge(c, key, e), nowNs)
    {
      if Tag(cr, prepared, e.extIndex, e.covered) == e.mac {
        stats := stats.(verified := stats.verified + 1,
                        latenciesNs := stats.latenciesNs + [(nowNs - e.arrivalNs) % U64]);
      } else {
        stats := stats.(forged := stats.forged + 1);
      }
      settled := settled + [Judge(c, key, e)];
      pending := pending - 1;
    }

    /** Verifies one interval's drawer under its key. */
    method SettleDrawer(key: IndexedKey, entries: seq<Entry>, nowNs: nat)
      requires cr == c.cr && alg == c.alg
      modifies this`pending, this`stats, this`settled
      ensures settled == old(settled) + Judged(c, key, entries)
      ensures stats == Counted(old(stats), Judged(c, key, entries), nowNs)
      ensures pending == old(pending) - |entries|
    {
      var prepared := Prepare(cr, alg, key.key);
      ghost var vs := Judged(c, key, entries);
      for j := 0 to |entries|
        invariant settled == old(settled) + vs[..j]
        invariant stats == Counted(old(stats), vs[..j], nowNs)
        invariant pending == old(pending) - j
      {
        CountedNext(old(stats), vs, j, nowNs);
        SettleEntry(key, prepared, entries[j], nowNs);
      }
      assert vs[..|entries|] == vs;
    }

    /** Empties and settles one interval's drawer, if there is one. */
    method SettleKey(key: IndexedKey, nowNs: nat) returns (count: nat)
      requires cr == c.cr && alg == c.alg
      modifies this`drawers, this`pending, this`stats, this`settled
      ensures drawers == old(drawers) - {key.index}
      ensures var vs := Judged(c, key, Drawer(old(drawers), key.index));
        && settled == old(settled) + vs && stats == Counted(old(stats), vs, nowNs)
        && pending == old(pending) - |vs| && count == |vs|
    {
      count := 0;
      if key.index in drawers {
        var entries := drawers[key.index];
        drawers := drawers - {key.index};
        SettleDrawer(key, entries, nowNs);
        count := |entries|;
      } else {
        assert drawers - {key.index} == drawers;
      }
    }

    /** Settles every interval whose key was just revealed. */
    method SettleKeys(keys: seq<IndexedKey>, nowNs: nat) returns (count: nat)
      requires cr == c.cr && alg == c.alg
      modifies this`drawers, this`pending, this`stats, this`settled
      ensures Abs() == Settle(c, old(Abs()), keys, nowNs)
      ensures count == |SettleAll(c, old(drawers), keys).1|
    {
      count := 0;
      ghost var before := Abs();
      for j := 0 to |keys|
        invariant Abs() == Settle(c, before, keys[..j], nowNs)
        invariant count == |SettleAll(c, before.drawers, keys[..j]).1|
      {
        SettleNext(c, before, keys, j, nowNs);
        var n := SettleKey(keys[j], nowNs);
        count := count + n;
      }
      assert keys[..|keys|] == keys;
    }

    /** The packet joins its interval's drawer. */
    method Enqueue(interval: nat, entry: Entry)
      modifies this`drawers, this`pending, this`stats, this`history
      ensures Abs() == Deliver(old(Abs()), interval, entry)
    {
      drawers := drawers[interval := (if interval in drawers then drawers[interval] else []) + [entry]];
      pending := pending + 1;
      stats := stats.(peakPending := if stats.peakPending < pending then pending else stats.peakPending);
      stats := stats.(delivered := stats.delivered + 1);
      history := history + [Labelled(interval, entry)];
    }

    method Refused(why: TeslaDrop) returns (result: TeslaResult)
      modifies this`stats
      ensures result == Dropped(why) && Abs() == old(Abs()).(stats := old(stats).Dropped(why))
    {
      match why {
        case Malformed => stats := stats.(dropsMalformed := stats.dropsMalformed + 1);
        case UnsafeLate => stats := stats.(dropsUnsafe := stats.dropsUnsafe + 1);
        case BadDisclosure => stats := stats.(dropsBadDisclosure := stats.dropsBadDisclosure + 1);
        case SrtpDrop(_) => stats := stats.(dropsSrtp := stats.dropsSrtp + 1);
      }
      result := Dropped(why);
    }

    /** Processes the disclosed key, then lets the packet wait for its own. */
    method HandleDisclosure(ext: Extension, entry: Entry, ghost out: Bytes) returns (result: TeslaResult)
      requires Valid()
      modifies this, verifier
      ensures Valid() && inner.Abs() == old(inner.Abs()) && recovery.highest == old(recovery.highest)
      ensures (Abs(), TeslaReply(result, out)) == Disclose(c, old(Abs()), ext, entry, out)
    {
      ghost var before := Abs();
      var d := verifier.CheckCandidate(ext.disclosed, sched.DisclosedIndex(ext.interval));
      ghost var checked := before.(trust := verifier.Trust());
      assert Abs() == checked;
      if !d.New? && !d.NotNew? {
        result := Refused(BadDisclosure);
        return;
      }
      var count := 0;
      if d.New? {
        count := SettleKeys(d.keys, entry.arrivalNs);
      }
      Enqueue(ext.interval, entry);
      result := Delivered(count);
    }

    /** The SRTP layer decides first; only then is the disclosed key looked at. */
    method Admitted(packet: Bytes, ext: Extension, arrivalNs: nat) returns (result: TeslaResult, out: Bytes)
      requires Valid() && |packet| >= RTP_HEADER_LEN
      modifies this, inner, inner.session, inner.ring, inner.recovery, verifier, recovery
      ensures Valid() && (inner.ratchet == old(inner.ratchet) || fresh(inner.ratchet))
      ensures (Abs(), TeslaReply(result, out)) == Admit(c, old(Abs()), packet, ext, arrivalNs)
    {
      var extIndex := Recover(recovery.highest, SeqField(packet));
      var r, plain := inner.Unprotect(packet);
      if r.Err? {
        result := Refused(SrtpDrop(r.drop));
        return result, plain;
      }
      recovery.Update(extIndex);
      result := HandleDisclosure(ext, Entry(extIndex, arrivalNs, ext.mac, packet), plain);
      out := plain;
    }

    method ProcessArrival(buf: Bytes, arrivalNs: nat) returns (result: TeslaResult, out: Bytes)
      requires Valid()
      modifies this, inner, inner.session, inner.ring, inner.recovery, verifier, recovery
      ensures Valid() && (inner.ratchet == old(inner.ratchet) || fresh(inner.ratchet))
      ensures (Abs(), TeslaReply(result, out)) == Process(c, old(Abs()), buf, arrivalNs)
    {
      var buffer := new PacketBuffer(buf);
      var ext := buffer.Strip();
      if ext.None? || |buffer.data| < RTP_HEADER_LEN {
        result := Refused(Malformed);
        return result, buffer.data;
      }
      if !sched.Accepts(arrivalNs, ext.value.interval) {
        result := Refused(UnsafeLate);
        return result, buffer.data;
      }
      result, out := Admitted(buffer.data, ext.value, arrivalNs);
    }
  }
}
