/**
 * The receiver as it is built (src/receiver.rs): a ring of K slots addressed modulo K, one
 * real ratchet, a throwaway clone for catching up, and commit or rollback on the verdict.
 * Every call is proved to be one `ReceiverSpec.Step`.
 */
module Receiver {
  import opened Arithmetic
  import opened Options
  import opened ByteStrings
  import opened Ratchet
  import opened Session
  import opened IndexRecovery
  import opened Generation
  import opened ReceiverSpec
  import ReceiverRuns

  // ------------------------------------------------- addressing modulo K

  /** The largest generation not above f that lives in this slot (negative when there is none). */
  function Holder(f: int, k: nat, slot: nat): (g: int)
    requires slot < k
    ensures f - k < g <= f
  {
    f - (f - slot) % k
  }

  lemma HolderCongruent(f: int, k: nat, slot: nat)
    requires slot < k
    ensures Holder(f, k, slot) % k == slot
  {
    var q := (f - slot) / k;
    assert f - slot == k * q + (f - slot) % k;
    DivModUnique(Holder(f, k, slot), k, q, slot);
  }

  /** Inside a window of K generations, the slot names the generation. */
  lemma HolderUnique(f: int, k: nat, g: int)
    requires k >= 1 && f - k < g <= f
    ensures Holder(f, k, g % k) == g
  {
    assert g == k * (g / k) + g % k;
    DivModUnique(f - g % k, k, g / k, f - g);
  }

  lemma HolderStep(f: int, k: nat, slot: nat)
    requires slot < k
    ensures Holder(f + 1, k, slot) == if slot == (f + 1) % k then f + 1 else Holder(f, k, slot)
  {
    if slot == (f + 1) % k {
      HolderUnique(f + 1, k, f + 1);
    } else {
      HolderCongruent(f + 1, k, slot);
      HolderUnique(f, k, Holder(f + 1, k, slot));
    }
  }

  /** A slot untouched by moving the frontier from f to g keeps its generation. */
  lemma HolderStable(f: int, g: int, k: nat, slot: nat)
    requires slot < k && Holder(g, k, slot) <= f <= g
    ensures Holder(f, k, slot) == Holder(g, k, slot)
  {
    HolderCongruent(g, k, slot);
    HolderUnique(f, k, Holder(g, k, slot));
  }

  lemma HolderMonotone(f: int, g: int, k: nat, slot: nat)
    requires slot < k && f <= g
    ensures Holder(f, k, slot) <= Holder(g, k, slot)
  {
    if Holder(g, k, slot) <= f {
      HolderStable(f, g, k, slot);
    }
  }

  // ------------------------------------------------- the ring

  /** A generation with its key and salt. */
  datatype Entry = Entry(generation: nat, keySalt: KeySalt)

  type Slot = Option<Entry>

  function EntryOf(c: Config, g: nat): Entry { Entry(g, c.Key(g)) }

  /** What the slot must hold: the kept generation with its key, and nothing older. */
  function SlotContents(c: Config, derived: nat, slot: nat): Slot
    requires slot < c.k
  {
    var g := Holder(derived - 1, c.k, slot);
    if g < 0 then None else Some(EntryOf(c, g))
  }

  /** The whole ring as a function of how many generations were derived. */
  function RingOf(c: Config, derived: nat): (ring: seq<Slot>)
    ensures |ring| == c.k
  {
    seq(c.k, slot requires 0 <= slot < c.k => SlotContents(c, derived, slot))
  }

  /** The kept generations are exactly the last K: each sits in its slot with its key, and no slot holds another. */
  lemma RingHoldsWindow(c: Config, derived: nat, g: nat)
    requires c.k >= 1
    ensures g < derived <= g + c.k ==> RingOf(c, derived)[g % c.k] == Some(EntryOf(c, g))
    ensures forall e :: Some(e) in RingOf(c, derived) ==>
      e.generation < derived <= e.generation + c.k && e == EntryOf(c, e.generation)
  {
    if g < derived <= g + c.k {
      HolderUnique(derived - 1, c.k, g);
    }
  }

  /** The keys of the last `count` generations up to g, oldest first. */
  function LastKeys(c: Config, g: nat, count: nat): (keys: seq<Entry>)
    requires count <= g + 1
    ensures |keys| == count
  {
    seq(count, j requires 0 <= j < count => EntryOf(c, g + 1 - count + j))
  }

  /** How many of the newly derived keys survive a jump from `derived` generations up to g. */
  function Surviving(c: Config, derived: nat, g: nat): nat
    requires derived <= g
  {
    Min(c.k, g + 1 - derived)
  }

  /** Overwriting the slots of the surviving keys turns the old ring into the new one, for short and long jumps alike. */
  lemma AdoptedSlot(c: Config, derived: nat, g: nat, slot: nat)
    requires slot < c.k && derived <= g
    requires Holder(g, c.k, slot) < g + 1 - Surviving(c, derived, g)
    ensures SlotContents(c, derived, slot) == SlotContents(c, g + 1, slot)
  {
    if 0 <= Holder(g, c.k, slot) {
      HolderStable(derived - 1, g, c.k, slot);
    } else {
      HolderMonotone(derived - 1, g, c.k, slot);
    }
  }

  /** A finished catch-up, held aside until its packet authenticates. */
  datatype PendingCatchup = PendingCatchup(ratchet: StreamRatchet, derived: seq<Entry>, jump: nat)

  class ReceiverKeyManager {
    ghost const c: Config
    const scheme: GenerationScheme
    const seekCap: nat
    const session: SrtpSession
    const recovery: IndexRecovery
    const ring: array<Slot>
    var ratchet: StreamRatchet
    var frontier: Option<nat>
    var installed: Option<nat>
    var stats: RecvStats
    /** How many times the catch-up loop stepped a ratchet. */
    ghost var derivations: nat

    ghost function Repr(): set<object>
      reads this
    {
      {this, session, recovery, ring, ratchet}
    }

    ghost function Abs(): State
      reads this, session, recovery
    {
      State(frontier, recovery.highest, installed, session.accepted, stats)
    }

    /** The concrete parts refine the abstract state. */
    ghost predicate Refines()
      reads this, session, ring, ratchet
    {
      && c.Valid() && scheme == c.scheme && seekCap == c.seekCap && session.srtp == c.srtp
      // the ring holds the last K keys, the ratchet stands right behind the frontier
      && ring.Length == c.k && ring[..] == RingOf(c, Derived(frontier))
      && ratchet.At(c.kdf, c.seed, Derived(frontier))
      // the loaded key is the installed generation's
      && (installed.Some? ==> session.key == c.Key(installed.value))
    }

    ghost predicate Valid()
      reads this, session, recovery, ring, ratchet
    {
      Refines() && ReceiverRuns.Ledger(c, Abs()) && derivations == stats.catchupSteps
    }

    constructor (scheme: GenerationScheme, srtp: Srtp, ratchet: StreamRatchet, k: nat, seekCap: nat, ghost seed: Bytes)
      requires scheme.Valid() && k >= 1 && |seed| == CHAIN_SECRET_LEN
      requires ratchet.At(ratchet.kdf, seed, 0)
      ensures Valid() && Abs() == Init
      ensures c == Config(scheme, ratchet.kdf, seed, srtp, k, seekCap)
      ensures fresh(Repr() - {ratchet}) && this.ratchet == ratchet
    {
      this.scheme, this.seekCap, this.ratchet := scheme, seekCap, ratchet;
      c := Config(scheme, ratchet.kdf, seed, srtp, k, seekCap);
      session := new SrtpSession(srtp, seq(28, _ => 0));
      recovery := new IndexRecovery();
      ring := new Slot[k](_ => None);
      frontier, installed, stats, derivations := None, None, NoStats, 0;
      new;
      assert ring[..] == RingOf(c, 0);
    }

    /** Ratchets a clone forward up to and including g, keeping at most K of the keys. */
    method CatchUp(g: nat) returns (clone: StreamRatchet, derived: seq<Entry>)
      requires Refines() && g >= Derived(frontier)
      modifies this`derivations
      ensures fresh(clone) && clone.At(c.kdf, c.seed, g + 1)
      ensures derived == LastKeys(c, g, Surviving(c, Derived(frontier), g))
      ensures derivations == old(derivations) + (g + 1 - Derived(frontier))
    {
      clone := new StreamRatchet.Clone(ratchet);
      derived := [];
      while clone.generation <= g
        invariant fresh(clone)
        invariant Derived(frontier) <= clone.generation <= g + 1
        invariant clone.At(c.kdf, c.seed, clone.generation)
        invariant |derived| == Min(c.k, clone.generation - Derived(frontier))
        invariant forall j | 0 <= j < |derived| :: derived[j] == EntryOf(c, clone.generation - |derived| + j)
        invariant derivations == old(derivations) + (clone.generation - Derived(frontier))
        decreases g + 1 - clone.generation
      {
        var gg, ks := clone.NextKeySalt(c.seed);
        derivations := derivations + 1;
        if |derived| == ring.Length {
          derived := derived[1..];
        }
        derived := derived + [Entry(gg, ks)];
      }
    }

    /** Folds the newly derived keys into the ring; whatever they overwrite is deleted. */
    method Adopt(g: nat, derived: seq<Entry>)
      requires c.Valid() && ring.Length == c.k && ring[..] == RingOf(c, Derived(frontier))
      requires g >= Derived(frontier) && derived == LastKeys(c, g, Surviving(c, Derived(frontier), g))
      modifies ring
      ensures ring[..] == RingOf(c, g + 1)
    {
      ghost var before := ring[..];
      ghost var lo := g + 1 - |derived|;
      for j := 0 to |derived|
        invariant forall s | 0 <= s < c.k ::
          ring[s] == if lo <= Holder(lo + j - 1, c.k, s) then SlotContents(c, lo + j, s) else before[s]
      {
        ghost var hi := lo + j;
        ghost var prior := hi - 1;
        forall s | 0 <= s < c.k
          ensures Holder(hi, c.k, s) == if s == hi % c.k then hi else Holder(prior, c.k, s)
        {
          HolderStep(prior, c.k, s);
        }
        var e := derived[j];
        assert e == EntryOf(c, hi);
        ring[e.generation % ring.Length] := Some(e);
      }
      forall s | 0 <= s < c.k
        ensures ring[s] == SlotContents(c, g + 1, s)
      {
        if Holder(g, c.k, s) < lo {
          AdoptedSlot(c, Derived(frontier), g, s);
        }
      }
    }

    /** Loads g's key unless it is already the installed one. */
    method Load(g: nat, keySalt: KeySalt)
      requires Refines() && keySalt == c.Key(g)
      modifies this`installed, this`stats, session`key
      ensures Refines() && session.key == c.Key(g) && installed == Some(g)
      ensures stats == if old(installed) == Some(g) then old(stats) else old(stats).(installs := old(stats).installs + 1)
    {
      if installed != Some(g) {
        session.InplaceRekey(keySalt);
        installed := Some(g);
        stats := stats.(installs := stats.installs + 1);
      }
    }

    ghost predicate Pends(pending: Option<PendingCatchup>, g: nat)
      reads this, if pending.Some? then {pending.value.ratchet} else {}
    {
      pending.Some? ==>
        && g >= Derived(frontier) && pending.value.jump == g + 1 - Derived(frontier)
        && pending.value.ratchet.At(c.kdf, c.seed, g + 1)
        && pending.value.derived == LastKeys(c, g, Surviving(c, Derived(frontier), g))
    }

    /** The packet authenticated: the clone becomes the ratchet and the window ends at g. */
    method Commit(g: nat, index: Option<nat>, pending: Option<PendingCatchup>)
      requires Refines() && Pends(pending, g)
      modifies this`ratchet, this`frontier, this`stats, ring, recovery
      ensures Refines()
      ensures ratchet == if pending.Some? then pending.value.ratchet else old(ratchet)
      ensures frontier == if pending.Some? then Some(g) else old(frontier)
      ensures recovery.highest ==
        if index.Some? then Some(MaxWith(old(recovery.highest), index.value)) else old(recovery.highest)
      ensures stats == old(stats).(decrypted := old(stats).decrypted + 1)
    {
      if pending.Some? {
        ratchet := pending.value.ratchet;
        Adopt(g, pending.value.derived);
        frontier := Some(g);
      }
      if index.Some? {
        recovery.Update(index.value);
      }
      stats := stats.(decrypted := stats.decrypted + 1);
    }

    /** The packet failed: the clone is dropped and only its wasted work is recorded. */
    method RollBack(why: RecvDrop, pending: Option<PendingCatchup>)
      modifies this`stats
      ensures stats == old(stats).(catchupStepsWasted :=
        old(stats).catchupStepsWasted + if pending.Some? then pending.value.jump else 0).Dropped(why)
    {
      if pending.Some? {
        stats := stats.(catchupStepsWasted := stats.catchupStepsWasted + pending.value.jump);
      }
      stats := stats.Dropped(why);
    }

    /** Decrypts under g's key; only an authenticated packet's catch-up is adopted. */
    method Finish(g: nat, index: Option<nat>, keySalt: KeySalt, pending: Option<PendingCatchup>, buf: Bytes)
      returns (result: Result, out: Bytes)
      requires Refines() && keySalt == c.Key(g) && Pends(pending, g)
      modifies this`ratchet, this`frontier, this`installed, this`stats, session, ring, recovery
      ensures Refines()
      ensures ratchet == old(ratchet) || (pending.Some? && ratchet == pending.value.ratchet)
      ensures (Abs(), Reply(result, out))
           == Decide(c, old(Abs()), g, index, if pending.Some? then pending.value.jump else 0, buf)
    {
      Load(g, keySalt);
      var verdict := session.Unprotect(buf);
      if verdict.Accept? {
        Commit(g, index, pending);
        return Ok(g), verdict.plain;
      }
      var why := if verdict.ReplayFail? then SrtpReplay else RecvDrop.AuthFail;
      RollBack(why, pending);
      return Err(why), [];
    }

    /** g is at or behind the frontier and less than K behind it: its key is in the ring. */
    method ServeKept(g: nat, index: Option<nat>, buf: Bytes) returns (result: Result, out: Bytes)
      requires Refines() && g < Derived(frontier) <= g + c.k
      modifies this`ratchet, this`frontier, this`installed, this`stats, session, ring, recovery
      ensures Refines() && ratchet == old(ratchet)
      ensures (Abs(), Reply(result, out))
           == Decide(c, Hit(old(Abs())), g, index, 0, buf)
    {
      RingHoldsWindow(c, Derived(frontier), g);
      var slot := ring[g % ring.Length];
      assert slot == ring[..][g % ring.Length];
      // the slot is never empty and never holds another generation
      assert slot.Some? && slot.value.generation == g;
      stats := stats.(cacheHits := stats.cacheHits + 1);
      result, out := Finish(g, index, slot.value.keySalt, None, buf);
    }

    /** g is ahead of the frontier: its key is derived on a clone. */
    method ServeAhead(g: nat, index: Option<nat>, jump: nat, buf: Bytes) returns (result: Result, out: Bytes)
      requires Refines() && jump > 0 && g + 1 == Derived(frontier) + jump
      modifies this, session, ring, recovery
      ensures Refines() && (ratchet == old(ratchet) || fresh(ratchet))
      ensures derivations == old(derivations) + jump
      ensures (Abs(), Reply(result, out))
           == Decide(c, CaughtUp(old(Abs()), jump), g, index, jump, buf)
    {
      var clone, derived := CatchUp(g);
      assert derived[|derived| - 1] == EntryOf(c, g);
      stats := stats.(catchupSteps := stats.catchupSteps + jump, maxCatchup := Max(stats.maxCatchup, jump));
      result, out := Finish(g, index, derived[|derived| - 1].keySalt, Some(PendingCatchup(clone, derived, jump)), buf);
    }

    /** At or behind the frontier: kept or already deleted. */
    method ServeBehind(g: nat, index: Option<nat>, buf: Bytes) returns (result: Result, out: Bytes)
      requires Refines() && g < Derived(frontier)
      modifies this`ratchet, this`frontier, this`installed, this`stats, session, ring, recovery
      ensures Refines() && ratchet == old(ratchet) && stats.catchupSteps == old(stats).catchupSteps
      ensures (Abs(), Reply(result, out)) == Act(c, old(Abs()), Located(g, index), buf)
    {
      if frontier.value - g >= ring.Length {
        stats := stats.(dropsBehind := stats.dropsBehind + 1);
        return Err(BehindWindow), buf;
      }
      ReceiverRuns.DecideCounts(c, Hit(Abs()), g, index, 0, buf);
      result, out := ServeKept(g, index, buf);
    }

    /** Ahead of the frontier: derivable or too far. */
    method ServeBeyond(g: nat, index: Option<nat>, buf: Bytes) returns (result: Result, out: Bytes)
      requires Refines() && g >= Derived(frontier) && derivations == stats.catchupSteps
      modifies this, session, ring, recovery
      ensures Refines() && (ratchet == old(ratchet) || fresh(ratchet)) && derivations == stats.catchupSteps
      ensures (Abs(), Reply(result, out)) == Act(c, old(Abs()), Located(g, index), buf)
    {
      var jump := if frontier.Some? then g - frontier.value else g + 1;
      if jump > seekCap {
        stats := stats.(dropsSeekCap := stats.dropsSeekCap + 1);
        return Err(SeekCapExceeded), buf;
      }
      ReceiverRuns.DecideCounts(c, CaughtUp(Abs(), jump), g, index, jump, buf);
      result, out := ServeAhead(g, index, jump, buf);
    }

    /** Phases 2 to 4 for a packet whose generation is known. */
    method Serve(g: nat, index: Option<nat>, buf: Bytes) returns (result: Result, out: Bytes)
      requires Refines() && derivations == stats.catchupSteps
      modifies this, session, ring, recovery
      ensures Refines() && (ratchet == old(ratchet) || fresh(ratchet)) && derivations == stats.catchupSteps
      ensures (Abs(), Reply(result, out)) == Act(c, old(Abs()), Located(g, index), buf)
    {
      if frontier.Some? && g <= frontier.value {
        result, out := ServeBehind(g, index, buf);
      } else {
        result, out := ServeBeyond(g, index, buf);
      }
    }

    method Unprotect(buf: Bytes) returns (result: Result, out: Bytes)
      requires Valid()
      modifies this, session, ring, recovery
      ensures Valid() && (ratchet == old(ratchet) || fresh(ratchet))
      ensures (Abs(), Reply(result, out)) == Step(c, old(Abs()), buf)
      ensures derivations <= old(derivations) + seekCap
    {
      ghost var before := Abs();
      if |buf| < RTP_HEADER_LEN {
        stats := stats.(dropsAuth := stats.dropsAuth + 1);
        result, out := Err(RecvDrop.AuthFail), buf;
      } else {
        var located := Locate(scheme, recovery.highest, SeqField(buf), TimestampField(buf));
        if located.NoGeneration? {
          stats := stats.(dropsBehind := stats.dropsBehind + 1);
          result, out := Err(BehindWindow), buf;
        } else {
          result, out := Serve(located.g, located.index, buf);
        }
      }
      ReceiverRuns.StepLedger(c, before, buf);
      ReceiverRuns.StepCounts(c, before, buf);
    }
  }

  /** Two receivers of one stream that reached the same frontier hold the same keys, however they got there. */
  lemma FrontierDeterminesKeys(a: ReceiverKeyManager, b: ReceiverKeyManager)
    requires a.Valid() && b.Valid() && a.c == b.c && a.frontier == b.frontier
    ensures a.ring[..] == b.ring[..]
    ensures a.ratchet.generation == b.ratchet.generation && a.ratchet.chainSecret == b.ratchet.chainSecret
  {
  }

  /** A receiver that also saw packets that failed ends with the ring and the ratchet of one that did not. */
  lemma ErasedPacketsLeaveNoKeys(a: ReceiverKeyManager, b: ReceiverKeyManager, packets: seq<Bytes>, keep: seq<bool>)
    requires a.Valid() && b.Valid() && a.c == b.c && |keep| == |packets|
    requires a.Abs() == Run(a.c, Init, packets).0 && b.Abs() == Run(a.c, Init, ReceiverRuns.Kept(packets, keep)).0
    requires forall i | 0 <= i < |packets| :: !keep[i] ==> Run(a.c, Init, packets).1[i].result.Err?
    ensures a.ring[..] == b.ring[..]
    ensures a.ratchet.generation == b.ratchet.generation && a.ratchet.chainSecret == b.ratchet.chainSecret
    ensures a.recovery.highest == b.recovery.highest && a.session.accepted == b.session.accepted
  {
    ReceiverRuns.FailedPacketsAreErasable(a.c, Init, Init, packets, keep);
    assert ReceiverRuns.CoreOf(a.Abs()) == ReceiverRuns.CoreOf(b.Abs());
    FrontierDeterminesKeys(a, b);
  }
}
