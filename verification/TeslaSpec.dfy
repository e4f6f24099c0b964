/** What the TESLA receiver does with each datagram (src/tesla/receiver.rs). */
module TeslaSpec {
  import opened Arithmetic
  import opened Options
  import opened ByteStrings
  import opened Session
  import opened IndexRecovery
  import opened Chain
  import opened Schedule
  import opened TeslaWire
  import Rx = ReceiverSpec

  datatype TeslaDrop = Malformed | UnsafeLate | BadDisclosure | SrtpDrop(why: Rx.RecvDrop)

  datatype TeslaResult = Delivered(settled: nat) | Dropped(drop: TeslaDrop)

  datatype TeslaReply = TeslaReply(result: TeslaResult, buf: Bytes)

  /** A waiting packet: all that is needed to verify it once its key arrives. */
  datatype Entry = Entry(extIndex: nat, arrivalNs: nat, mac: Mac, covered: Bytes)

  /** A delivered packet with the interval it is labelled with. */
  datatype Labelled = Labelled(interval: nat, entry: Entry)

  /** A settled packet with its verdict. */
  datatype Ruling = Ruling(packet: Labelled, genuine: bool)

  datatype TeslaStats = TeslaStats(
    delivered: nat, verified: nat, forged: nat,
    dropsMalformed: nat, dropsUnsafe: nat, dropsBadDisclosure: nat, dropsSrtp: nat,
    peakPending: int, latenciesNs: seq<nat>)
  {
    function Dropped(why: TeslaDrop): TeslaStats
    {
      match why
      case Malformed => this.(dropsMalformed := dropsMalformed + 1)
      case UnsafeLate => this.(dropsUnsafe := dropsUnsafe + 1)
      case BadDisclosure => this.(dropsBadDisclosure := dropsBadDisclosure + 1)
      case SrtpDrop(_) => this.(dropsSrtp := dropsSrtp + 1)
    }

    function Drops(): nat { dropsMalformed + dropsUnsafe + dropsBadDisclosure + dropsSrtp }
  }

  datatype Config = Config(sched: TeslaSchedule, cr: TeslaCrypto, alg: MacAlg, anchor: ChainKey, rx: Rx.Config)
  {
    predicate Valid() { sched.Valid() && rx.Valid() }

    function Limits(): Limits { Chain.Limits(cr.f, sched.nChain, sched.gMax) }
  }

  type Drawers = map<nat, seq<Entry>>

  /** `history` and `settled` record which packets were delivered and which got which verdict. */
  datatype State = State(inner: Rx.State, highest: Option<nat>, trust: IndexedKey, drawers: Drawers, pending: int,
                         stats: TeslaStats, history: seq<Labelled>, settled: seq<Ruling>)

  function Init(c: Config): State
  {
    State(Rx.Init, None, IndexedKey(0, c.anchor), map[], 0, TeslaStats(0, 0, 0, 0, 0, 0, 0, 0, []), [], [])
  }

  function Drawer(drawers: Drawers, interval: nat): seq<Entry>
  {
    if interval in drawers then drawers[interval] else []
  }

  /** The ruling on one waiting packet under its interval's key. */
  function Judge(c: Config, key: IndexedKey, e: Entry): Ruling
  {
    Ruling(Labelled(key.index, e), Tag(c.cr, Prepare(c.cr, c.alg, key.key), e.extIndex, e.covered) == e.mac)
  }

  function Judged(c: Config, key: IndexedKey, entries: seq<Entry>): (rulings: seq<Ruling>)
    ensures |rulings| == |entries|
  {
    seq(|entries|, j requires 0 <= j < |entries| => Judge(c, key, entries[j]))
  }

  /** Empties the drawers of all revealed intervals, in order. */
  function SettleAll(c: Config, drawers: Drawers, keys: seq<IndexedKey>): (Drawers, seq<Ruling>)
  {
    if keys == [] then (drawers, [])
    else
      var (d, vs) := SettleAll(c, drawers, keys[..|keys| - 1]);
      var key := keys[|keys| - 1];
      (d - {key.index}, vs + Judged(c, key, Drawer(d, key.index)))
  }

  function CountGenuine(vs: seq<Ruling>): (n: nat)
    ensures n <= |vs|
  {
    if vs == [] then 0 else CountGenuine(vs[..|vs| - 1]) + One(vs[|vs| - 1].genuine)
  }

  /** How long the verified packets waited, in wrapping 64-bit arithmetic. */
  function Latencies(vs: seq<Ruling>, nowNs: nat): seq<nat>
  {
    if vs == [] then []
    else
      var last := vs[|vs| - 1];
      Latencies(vs[..|vs| - 1], nowNs) + if last.genuine then [(nowNs - last.packet.entry.arrivalNs) % U64] else []
  }

  /** The counters after these verdicts. */
  function Counted(st: TeslaStats, vs: seq<Ruling>, nowNs: nat): TeslaStats
  {
    st.(verified := st.verified + CountGenuine(vs),
        forged := st.forged + (|vs| - CountGenuine(vs)),
        latenciesNs := st.latenciesNs + Latencies(vs, nowNs))
  }

  function Refuse(s: State, why: TeslaDrop, buf: Bytes): (State, TeslaReply)
  {
    (s.(stats := s.stats.Dropped(why)), TeslaReply(Dropped(why), buf))
  }

  /** The state once the drawers are d and these rulings are booked. */
  function Booked(s: State, d: Drawers, vs: seq<Ruling>, nowNs: nat): State
  {
    s.(drawers := d, pending := s.pending - |vs|, stats := Counted(s.stats, vs, nowNs), settled := s.settled + vs)
  }

  function Settle(c: Config, s: State, keys: seq<IndexedKey>, nowNs: nat): State
  {
    var (drawers, vs) := SettleAll(c, s.drawers, keys);
    Booked(s, drawers, vs, nowNs)
  }

  function Deliver(s: State, interval: nat, entry: Entry): State
  {
    s.(drawers := s.drawers[interval := Drawer(s.drawers, interval) + [entry]],
       pending := s.pending + 1,
       stats := s.stats.(delivered := s.stats.delivered + 1,
                         peakPending := if s.stats.peakPending <= s.pending then s.pending + 1 else s.stats.peakPending),
       history := s.history + [Labelled(interval, entry)])
  }

  /** The disclosed key: settle what it reveals, then let the packet wait for its own. */
  function Disclose(c: Config, s: State, ext: Extension, entry: Entry, out: Bytes): (State, TeslaReply)
  {
    var (trust, d) := Check(c.Limits(), s.trust, ext.disclosed, c.sched.DisclosedIndex(ext.interval));
    match d
    case New(keys) =>
      var after := Settle(c, s.(trust := trust), keys, entry.arrivalNs);
      (Deliver(after, ext.interval, entry), TeslaReply(Delivered(|SettleAll(c, s.drawers, keys).1|), out))
    case NotNew => (Deliver(s, ext.interval, entry), TeslaReply(Delivered(0), out))
    case _ => Refuse(s, BadDisclosure, out)
  }

  /** The SRTP layer and, if it lets the packet through, the disclosed key. */
  function Admit(c: Config, s: State, packet: Bytes, ext: Extension, nowNs: nat): (State, TeslaReply)
    requires c.Valid() && |packet| >= RTP_HEADER_LEN
  {
    var extIndex := Recover(s.highest, SeqField(packet));
    var (inner, reply) := Rx.Step(c.rx, s.inner, packet);
    if reply.result.Err? then Refuse(s.(inner := inner), SrtpDrop(reply.result.drop), reply.buf)
    else Disclose(c, s.(inner := inner, highest := Some(MaxWith(s.highest, extIndex))), ext,
                  Entry(extIndex, nowNs, ext.mac, packet), reply.buf)
  }

  function Process(c: Config, s: State, buf: Bytes, nowNs: nat): (State, TeslaReply)
    requires c.Valid()
  {
    match SplitExtension(buf)
    case TooShort => Refuse(s, Malformed, buf)
    case Split(packet, ext) =>
      if |packet| < RTP_HEADER_LEN then Refuse(s, Malformed, packet)
      else if !c.sched.Accepts(nowNs, ext.interval) then Refuse(s, UnsafeLate, packet)
      else Admit(c, s, packet, ext, nowNs)
  }

  /** A datagram and when it arrives. */
  datatype Datagram = Datagram(buf: Bytes, atNs: nat)

  function Run(c: Config, datagrams: seq<Datagram>): (r: (State, seq<TeslaReply>))
    requires c.Valid()
    ensures |r.1| == |datagrams|
  {
    if datagrams == [] then (Init(c), [])
    else
      var n := |datagrams| - 1;
      var (before, replies) := Run(c, datagrams[..n]);
      var (after, reply) := Process(c, before, datagrams[n].buf, datagrams[n].atNs);
      (after, replies + [reply])
  }
}
