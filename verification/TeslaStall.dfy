/** What a loss burst longer than the work cap does: the receiver never recovers. */
module TeslaStall {
  import opened Network
  import opened TeslaSpec
  import opened TeslaHonest

  /** The key this packet discloses takes more hash steps to prove than the cap allows. */
  predicate BeyondCap(w: World, trusted: nat, j: nat)
    requires w.Valid() && w.Sendable(j)
  {
    w.src.sched.DisclosedIndex(w.Label(j)) > trusted + w.src.sched.gMax
  }

  /** Genuine traffic never makes the receiver trust a key that is not the sender's. */
  lemma ProcessTrust(w: World, s: State, j: nat, atNs: nat)
    requires w.Valid() && w.Sendable(j) && TrustGenuine(w, s.trust)
    ensures TrustGenuine(w, Process(w.Receiver(), s, w.Image(j), atNs).0.trust)
  {
    ImageSplits(w, j);
    CheckGenuine(w, s.trust, j);
  }

  lemma {:induction false} RunTrust(w: World, hops: seq<Arrival>)
    requires w.Valid() && AllSendable(w, hops)
    ensures TrustGenuine(w, After(w, hops).trust)
  {
    if hops != [] {
      var n := |hops| - 1;
      RunTrust(w, hops[..n]);
      DatagramsSnoc(w, hops);
      ProcessTrust(w, After(w, hops[..n]), hops[n].index, hops[n].at);
    }
  }

  /** Nothing delivered, nothing judged, nothing learnt. */
  predicate Unmoved(s: State, s': State)
  {
    && s'.trust == s.trust && s'.drawers == s.drawers && s'.history == s.history && s'.settled == s.settled
    && s'.stats.delivered == s.stats.delivered && s'.stats.verified == s.stats.verified && s'.pending == s.pending
  }

  /** A packet beyond the cap is dropped whole, its own delivery included. */
  lemma BeyondCapDropped(w: World, s: State, j: nat, atNs: nat)
    requires w.Valid() && w.Sendable(j) && TrustGenuine(w, s.trust) && BeyondCap(w, s.trust.index, j)
    ensures var (s', reply) := Process(w.Receiver(), s, w.Image(j), atNs); reply.result.Dropped? && Unmoved(s, s')
  {
    ImageSplits(w, j);
    CheckGenuine(w, s.trust, j);
  }

  predicate AllBeyondCap(w: World, trusted: nat, hops: seq<Arrival>, n: nat)
    requires w.Valid() && AllSendable(w, hops)
  {
    forall k | n <= k < |hops| :: BeyondCap(w, trusted, hops[k].index)
  }

  /** Once every later packet discloses a key beyond the cap, nothing is delivered again and the trust never moves. */
  lemma {:induction false} StalledForGood(w: World, hops: seq<Arrival>, n: nat)
    requires w.Valid() && n <= |hops| && AllSendable(w, hops) && AllSendable(w, hops[..n])
    requires AllBeyondCap(w, After(w, hops[..n]).trust.index, hops, n)
    ensures Unmoved(After(w, hops[..n]), After(w, hops))
    decreases |hops|
  {
    if n == |hops| {
      assert hops[..n] == hops;
    } else {
      var last := |hops| - 1;
      var front := hops[..last];
      assert front[..n] == hops[..n];
      StalledForGood(w, front, n);
      RunTrust(w, front);
      DatagramsSnoc(w, hops);
      BeyondCapDropped(w, After(w, front), hops[last].index, hops[last].at);
    }
  }
}
