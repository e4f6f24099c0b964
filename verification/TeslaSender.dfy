/** The TESLA sender (src/tesla/sender.rs). */
module TeslaSender {
  import opened ByteStrings
  import opened Chain
  import opened Schedule
  import opened TeslaWire

  /** Everything that fixes a TESLA stream: schedule, algorithms, and the private final key. */
  datatype Source = Source(sched: TeslaSchedule, cr: TeslaCrypto, alg: MacAlg, final: ChainKey)
  {
    function Key(i: nat): ChainKey
      requires i <= sched.nChain
    {
      KeyOf(cr.f, final, sched.nChain, i)
    }

    function Anchor(): ChainKey { Key(0) }

    /** The tag of a packet under interval i's key. */
    function TagFor(i: nat, extIndex: nat, packet: Bytes): Mac
      requires i <= sched.nChain
    {
      Tag(cr, Prepare(cr, alg, Key(i)), extIndex, packet)
    }

    /** A packet authenticated at this send time: its label, the key d intervals old, its tag. */
    function Authenticated(packet: Bytes, extIndex: nat, sendNs: nat): Bytes
      requires sched.Valid() && sched.Covers(sendNs)
    {
      var i := sched.IntervalOf(sendNs);
      AppendExtension(packet, Extension(i, Key(sched.DisclosedIndex(i)), TagFor(i, extIndex, packet)))
    }
  }

  class TeslaSender {
    const sched: TeslaSchedule
    const cr: TeslaCrypto
    const alg: MacAlg
    const chain: TeslaChain
    var currentInterval: nat
    var prepared: PreparedMac

    ghost function Src(): Source
      reads this
    {
      Source(sched, cr, alg, chain.final)
    }

    /** The prepared state always belongs to the current interval's key. */
    ghost predicate Valid()
      reads this, chain, chain.keys
    {
      && sched.Valid() && chain.Valid() && chain.f == cr.f && chain.keys.Length == sched.nChain + 1
      && 1 <= currentInterval <= sched.nChain
      && prepared == Prepare(cr, alg, Src().Key(currentInterval))
    }

    constructor (sched: TeslaSchedule, cr: TeslaCrypto, alg: MacAlg, final: ChainKey)
      requires sched.Valid()
      ensures Valid() && Src() == Source(sched, cr, alg, final)
    {
      this.sched, this.cr, this.alg := sched, cr, alg;
      var chain := new TeslaChain.FromFinalKey(cr.f, final, sched.nChain);
      this.chain := chain;
      currentInterval := 1;
      prepared := Prepare(cr, alg, chain.keys[1]);
    }

    /** The cached per-interval state never shows: the output depends on the send time alone. */
    method Authenticate(packet: Bytes, extIndex: nat, sendNs: nat) returns (out: Bytes)
      requires Valid() && sched.Covers(sendNs)
      modifies this`currentInterval, this`prepared
      ensures Valid() && out == Src().Authenticated(packet, extIndex, sendNs)
    {
      var interval := sched.IntervalOf(sendNs);
      if interval != currentInterval {
        prepared := Prepare(cr, alg, chain.keys[interval]);
        currentInterval := interval;
      }
      var mac := Tag(cr, prepared, extIndex, packet);
      var disclosed := chain.keys[sched.DisclosedIndex(interval)];
      out := AppendExtension(packet, Extension(interval, disclosed, mac));
    }
  }
}
