/** Key windows wider than half the sequence space, where positions are recovered from 16 bits. */
module WideWindow {
  import opened Arithmetic
  import opened Options
  import opened ByteStrings
  import opened Session
  import opened IndexRecovery
  import opened Generation
  import opened ReceiverSpec
  import opened ReceiverRuns

  /** How many positions share a generation, for schemes that count from position 0. */
  function SchemeSpan(scheme: GenerationScheme): nat
  {
    match scheme
    case PacketScheme(_) => 1
    case EveryNScheme(_, n) => n
    case _ => 0
  }

  predicate CountsFromZero(scheme: GenerationScheme) { UsesPosition(scheme) && scheme.base == 0 }

  predicate FrontierAtReference(scheme: GenerationScheme, st: State)
    requires scheme.Valid() && CountsFromZero(scheme)
  {
    st.frontier == if st.highest.None? then None else Some(st.highest.value / SchemeSpan(scheme))
  }

  lemma NotFarBehind(h: nat, seq16: nat)
    requires seq16 < U16
    ensures Recover(Some(h), seq16) + 32_768 >= h
  {
    assert h == U16 * (h / U16) + h % U16;
  }

  lemma ReadNotBehind(n: nat, k: nat, h: nat, r: nat)
    requires n >= 1 && k >= 1 && (k - 1) * n >= 32_768 && r + 32_768 >= h
    ensures h / n < r / n + k
  {
    if h <= r {
      DivMono(h, r, n);
    } else {
      QuotientGap(r, h, n);
      DivCeilAtMost(h - r, n, k - 1);
    }
  }

  /** Frontier and reference move together. */
  lemma FrontierFollows(n: nat, h: Option<nat>, f: Option<nat>, r: nat)
    requires n >= 1 && f == if h.None? then None else Some(h.value / n)
    ensures (if r / n >= Derived(f) then Some(r / n) else f) == Some(MaxWith(h, r) / n)
  {
    if h.Some? {
      DivMono(Min(r, h.value), Max(r, h.value), n);
    }
  }

  lemma WideWindowPlace(n: nat, k: nat, h: Option<nat>, f: Option<nat>, seq16: nat)
    requires n >= 1 && k >= 1 && (k - 1) * n >= 32_768 && seq16 < U16
    requires f == if h.None? then None else Some(h.value / n)
    ensures Derived(f) <= Recover(h, seq16) / n + k
  {
    if h.Some? {
      NotFarBehind(h.value, seq16);
      ReadNotBehind(n, k, h.value, Recover(h, seq16));
    }
  }

  lemma LocatedFromZero(scheme: GenerationScheme, highest: Option<nat>, seq16: nat, ts: nat)
    requires scheme.Valid() && CountsFromZero(scheme) && seq16 < U16
    ensures var r := Recover(highest, seq16);
      Locate(scheme, highest, seq16, ts) == Located(r / SchemeSpan(scheme), Some(r))
  {
  }

  lemma ReferenceStep(c: Config, st: State, buf: Bytes)
    requires c.Valid() && CountsFromZero(c.scheme) && FrontierAtReference(c.scheme, st) && |buf| >= RTP_HEADER_LEN
    ensures FrontierAtReference(c.scheme, Step(c, st, buf).0)
  {
    var n, r := SchemeSpan(c.scheme), Recover(st.highest, SeqField(buf));
    LocatedFromZero(c.scheme, st.highest, SeqField(buf), TimestampField(buf));
    FrontierFollows(n, st.highest, st.frontier, r);
    StepVerdicts(c, st, buf, r / n, Some(r));
    StepFrontier(c, st, buf);
    StepHighest(c, st, buf);
  }

  lemma KeptStep(c: Config, st: State, buf: Bytes)
    requires c.Valid() && CountsFromZero(c.scheme) && |buf| >= RTP_HEADER_LEN
    requires Derived(st.frontier) <= Recover(st.highest, SeqField(buf)) / SchemeSpan(c.scheme) + c.k
    ensures Step(c, st, buf).1.result != Err(BehindWindow)
  {
    var r := Recover(st.highest, SeqField(buf));
    LocatedFromZero(c.scheme, st.highest, SeqField(buf), TimestampField(buf));
    StepVerdicts(c, st, buf, r / SchemeSpan(c.scheme), Some(r));
  }

  lemma WideWindowStep(c: Config, st: State, buf: Bytes)
    requires c.Valid() && CountsFromZero(c.scheme) && (c.k - 1) * SchemeSpan(c.scheme) >= 32_768
    requires FrontierAtReference(c.scheme, st)
    ensures FrontierAtReference(c.scheme, Step(c, st, buf).0)
    ensures Step(c, st, buf).1.result != Err(BehindWindow)
  {
    if |buf| >= RTP_HEADER_LEN {
      WideWindowPlace(SchemeSpan(c.scheme), c.k, st.highest, st.frontier, SeqField(buf));
      ReferenceStep(c, st, buf);
      KeptStep(c, st, buf);
    }
  }

  /**
   * A packet is never read more than half the sequence space behind the reference. So a window that
   * spans it drops nothing as behind, on any run of any packets of any length.
   */
  lemma {:induction false} WideWindowNeverDrops(c: Config, packets: seq<Bytes>)
    requires c.Valid() && CountsFromZero(c.scheme) && (c.k - 1) * SchemeSpan(c.scheme) >= 32_768
    ensures FrontierAtReference(c.scheme, Run(c, Init, packets).0)
    ensures Run(c, Init, packets).0.stats.dropsBehind == 0
  {
    if packets != [] {
      var n := |packets| - 1;
      WideWindowNeverDrops(c, packets[..n]);
      WideWindowStep(c, Run(c, Init, packets[..n]).0, packets[n]);
      StepCounts(c, Run(c, Init, packets[..n]).0, packets[n]);
    }
  }
}
