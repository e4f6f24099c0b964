/**
 * What the windowed key receiver promises (src/receiver.rs), stated without its ring, its
 * cloned ratchet or its rollback: the key of generation g is KeyAt(g), a generation can be
 * served when it lies less than K behind the frontier or at most `seekCap` ahead, and only
 * an authenticated packet moves anything a later packet can depend on.
 */
module ReceiverSpec {
  import opened Arithmetic
  import opened Options
  import opened ByteStrings
  import opened Ratchet
  import opened Session
  import opened Generation

  datatype RecvDrop = BehindWindow | SeekCapExceeded | SrtpReplay | AuthFail

  datatype Result = Ok(generation: nat) | Err(drop: RecvDrop)

  /** What a call hands back: its result and the contents of the packet buffer. */
  datatype Reply = Reply(result: Result, buf: Bytes)

  datatype RecvStats = RecvStats(
    decrypted: nat, cacheHits: nat, catchupSteps: nat, catchupStepsWasted: nat, maxCatchup: nat, installs: nat,
    dropsBehind: nat, dropsSeekCap: nat, dropsReplay: nat, dropsAuth: nat)
  {
    function Dropped(why: RecvDrop): RecvStats
    {
      match why
      case BehindWindow => this.(dropsBehind := dropsBehind + 1)
      case SeekCapExceeded => this.(dropsSeekCap := dropsSeekCap + 1)
      case SrtpReplay => this.(dropsReplay := dropsReplay + 1)
      case AuthFail => this.(dropsAuth := dropsAuth + 1)
    }

    function Drops(): nat { dropsBehind + dropsSeekCap + dropsReplay + dropsAuth }
  }

  const NoStats: RecvStats := RecvStats(0, 0, 0, 0, 0, 0, 0, 0, 0, 0)

  datatype Config = Config(scheme: GenerationScheme, kdf: Kdf, seed: Bytes, srtp: Srtp, k: nat, seekCap: nat)
  {
    predicate Valid() { scheme.Valid() && k >= 1 && |seed| == CHAIN_SECRET_LEN }

    function Key(g: nat): KeySalt { KeyAt(kdf, seed, g) }
  }

  datatype State = State(frontier: Option<nat>, highest: Option<nat>, installed: Option<nat>,
                         accepted: seq<Accepted>, stats: RecvStats)

  const Init: State := State(None, None, None, [], NoStats)

  /** The generations derived so far are 0 up to this bound, exclusive. */
  function Derived(frontier: Option<nat>): nat
  {
    if frontier.None? then 0 else frontier.value + 1
  }

  datatype Placement = Behind | InWindow | Ahead(jump: nat) | TooFar

  function Place(k: nat, seekCap: nat, frontier: Option<nat>, g: nat): Placement
  {
    if g < Derived(frontier) then
      if Derived(frontier) - 1 - g >= k then Behind else InWindow
    else if g + 1 - Derived(frontier) > seekCap then TooFar
    else Ahead(g + 1 - Derived(frontier))
  }

  function Refuse(s: State, why: RecvDrop, buf: Bytes): (State, Reply)
  {
    (s.(stats := s.stats.Dropped(why)), Reply(Err(why), buf))
  }

  function Step(c: Config, s: State, buf: Bytes): (State, Reply)
    requires c.Valid()
  {
    if |buf| < RTP_HEADER_LEN then Refuse(s, RecvDrop.AuthFail, buf)
    else Act(c, s, Locate(c.scheme, s.highest, SeqField(buf), TimestampField(buf)), buf)
  }

  function Act(c: Config, s: State, located: Located, buf: Bytes): (State, Reply)
  {
    match located
    case NoGeneration => Refuse(s, BehindWindow, buf)
    case Located(g, index) =>
      match Place(c.k, c.seekCap, s.frontier, g)
      case Behind => Refuse(s, BehindWindow, buf)
      case TooFar => Refuse(s, SeekCapExceeded, buf)
      case InWindow => Decide(c, Hit(s), g, index, 0, buf)
      case Ahead(jump) => Decide(c, CaughtUp(s, jump), g, index, jump, buf)
  }

  function Hit(s: State): State
  {
    s.(stats := s.stats.(cacheHits := s.stats.cacheHits + 1))
  }

  function CaughtUp(s: State, jump: nat): State
  {
    s.(stats := s.stats.(catchupSteps := s.stats.catchupSteps + jump, maxCatchup := Max(s.stats.maxCatchup, jump)))
  }

  /** The cipher's verdict on a packet of generation g that needed `jump` new keys. */
  function Decide(c: Config, s: State, g: nat, index: Option<nat>, jump: nat, buf: Bytes): (State, Reply)
  {
    var stats := if s.installed == Some(g) then s.stats else s.stats.(installs := s.stats.installs + 1);
    match c.srtp.judge(c.Key(g), s.accepted, buf)
    case Accept(plain) =>
      (State(if jump > 0 then Some(g) else s.frontier,
             if index.Some? then Some(MaxWith(s.highest, index.value)) else s.highest,
             Some(g),
             s.accepted + [Accepted(c.Key(g), buf)],
             stats.(decrypted := stats.decrypted + 1)),
       Reply(Ok(g), plain))
    case ReplayFail => Refuse(Wasted(s.(installed := Some(g)), stats, jump), SrtpReplay, [])
    case AuthFail => Refuse(Wasted(s.(installed := Some(g)), stats, jump), RecvDrop.AuthFail, [])
  }

  function Wasted(s: State, stats: RecvStats, jump: nat): State
  {
    s.(stats := stats.(catchupStepsWasted := stats.catchupStepsWasted + jump))
  }

  /** A whole run: packets handed over one after the other. */
  function Run(c: Config, s: State, packets: seq<Bytes>): (r: (State, seq<Reply>))
    requires c.Valid()
    ensures |r.1| == |packets|
  {
    if packets == [] then (s, [])
    else
      var (before, replies) := Run(c, s, packets[..|packets| - 1]);
      var (after, reply) := Step(c, before, packets[|packets| - 1]);
      (after, replies + [reply])
  }
}
