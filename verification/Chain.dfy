/** The TESLA one-way key chain and its verifier (src/tesla/chain.rs). */
module Chain {
  import opened ByteStrings

  const TESLA_KEY_LEN: nat := 20

  type ChainKey = k: Bytes | |k| == TESLA_KEY_LEN witness seq(TESLA_KEY_LEN, _ => 0)

  /** The chain step F: an arbitrary deterministic function. */
  type Hash = ChainKey -> ChainKey

  /** F applied `steps` times. */
  function Down(f: Hash, k: ChainKey, steps: nat): ChainKey
  {
    if steps == 0 then k else f(Down(f, k, steps - 1))
  }

  lemma {:induction false} DownCompose(f: Hash, k: ChainKey, a: nat, b: nat)
    ensures Down(f, Down(f, k, a), b) == Down(f, k, a + b)
  {
    if b > 0 {
      DownCompose(f, k, a, b - 1);
    }
  }

  lemma DownOne(f: Hash, k: ChainKey)
    ensures Down(f, k, 1) == f(k)
  {
    assert Down(f, k, 0) == k;
  }

  /** K_i of the chain that ends in the final key. */
  function KeyOf(f: Hash, final: ChainKey, n: nat, i: nat): ChainKey
    requires i <= n
  {
    Down(f, final, n - i)
  }

  /** Hashing a genuine key down arrives at the genuine key below. */
  lemma GenuineHashesDown(f: Hash, final: ChainKey, n: nat, i: nat, steps: nat)
    requires steps <= i <= n
    ensures Down(f, KeyOf(f, final, n, i), steps) == KeyOf(f, final, n, i - steps)
  {
    DownCompose(f, final, n - i, steps);
  }

  /** K_n is the final key and F leads from each key to the one below. */
  lemma ChainLinks(f: Hash, final: ChainKey, n: nat, i: nat)
    requires i < n
    ensures KeyOf(f, final, n, n) == final && f(KeyOf(f, final, n, i + 1)) == KeyOf(f, final, n, i)
  {
    DownOne(f, KeyOf(f, final, n, i + 1));
    GenuineHashesDown(f, final, n, i + 1, 1);
  }

  class TeslaChain {
    ghost const f: Hash
    ghost const final: ChainKey
    const keys: array<ChainKey>

    ghost predicate Valid()
      reads this, keys
    {
      keys.Length >= 1 && forall i | 0 <= i < keys.Length :: keys[i] == KeyOf(f, final, keys.Length - 1, i)
    }

    /** Fills the array backwards from the final key. */
    constructor FromFinalKey(f: Hash, final: ChainKey, n: nat)
      ensures Valid() && fresh(keys) && this.f == f && this.final == final && keys.Length == n + 1
    {
      this.f, this.final := f, final;
      var ks := new ChainKey[n + 1](_ => final);
      for i := n downto 0
        invariant fresh(ks)
        invariant forall j | i <= j <= n :: ks[j] == KeyOf(f, final, n, j)
      {
        ks[i] := f(ks[i + 1]);
      }
      keys := ks;
    }
  }

  // ------------------------------------------------- the verifier

  datatype IndexedKey = IndexedKey(index: nat, key: ChainKey)

  datatype Disclosure = New(keys: seq<IndexedKey>) | NotNew | Invalid | TooFarAhead | BeyondChain

  datatype Limits = Limits(f: Hash, nChain: nat, gMax: nat)

  /** What a candidate at `index` claims K_i to be. */
  function Claim(f: Hash, candidate: ChainKey, index: nat, i: nat): IndexedKey
    requires i <= index
  {
    IndexedKey(i, Down(f, candidate, index - i))
  }

  /** The keys a proven candidate at `index` reveals above `trusted`, lowest first. */
  function Revealed(f: Hash, candidate: ChainKey, index: nat, trusted: nat): (keys: seq<IndexedKey>)
    requires trusted <= index
    ensures |keys| == index - trusted
  {
    seq(index - trusted, j requires 0 <= j < index - trusted => Claim(f, candidate, index, trusted + 1 + j))
  }

  function Check(l: Limits, trust: IndexedKey, candidate: ChainKey, index: nat): (IndexedKey, Disclosure)
  {
    if index <= trust.index then (trust, NotNew)
    else if index > l.nChain then (trust, BeyondChain)
    else if index - trust.index > l.gMax then (trust, TooFarAhead)
    else if Down(l.f, candidate, index - trust.index) != trust.key then (trust, Invalid)
    else (IndexedKey(index, candidate), New(Revealed(l.f, candidate, index, trust.index)))
  }

  /** A candidate above the trusted index, inside the chain and within the hash-work cap. */
  predicate InReach(l: Limits, trusted: nat, index: nat)
  {
    trusted < index <= l.nChain && index <= trusted + l.gMax
  }

  /** Exactly when a candidate gets each of the five answers; only a key that proves itself moves the trust. */
  lemma CheckVerdict(l: Limits, trust: IndexedKey, candidate: ChainKey, index: nat)
    ensures var (trust', d) := Check(l, trust, candidate, index);
      var proven := InReach(l, trust.index, index) && Down(l.f, candidate, index - trust.index) == trust.key;
      && (d.NotNew? <==> index <= trust.index)
      && (d.BeyondChain? <==> trust.index < index && l.nChain < index)
      && (d.TooFarAhead? <==> trust.index + l.gMax < index <= l.nChain)
      && (d.Invalid? <==> InReach(l, trust.index, index) && !proven)
      && (d.New? <==> proven)
      && trust' == if proven then IndexedKey(index, candidate) else trust
  {
  }

  /** A success reveals exactly the indexes above the trusted one, in order, and none beyond the chain. */
  lemma NewKeysRange(l: Limits, trust: IndexedKey, candidate: ChainKey, index: nat)
    ensures var (trust', d) := Check(l, trust, candidate, index);
      d.New? ==>
        && trust' == IndexedKey(index, candidate) && trust.index < index <= l.nChain && |d.keys| == index - trust.index
        && (forall j | 0 <= j < |d.keys| :: d.keys[j].index == trust.index + 1 + j)
  {
    var d := Check(l, trust, candidate, index).1;
    if d.New? {
      forall j | 0 <= j < |d.keys|
        ensures d.keys[j].index == trust.index + 1 + j
      {
        assert d.keys[j] == Claim(l.f, candidate, index, trust.index + 1 + j);
      }
    }
  }

  /** From a trusted key rooted in the anchor, every revealed key is rooted in it too. */
  lemma NewKeysRooted(l: Limits, anchor: ChainKey, trust: IndexedKey, candidate: ChainKey, index: nat)
    requires Down(l.f, trust.key, trust.index) == anchor
    ensures var (trust', d) := Check(l, trust, candidate, index);
      && Down(l.f, trust'.key, trust'.index) == anchor
      && (d.New? ==> forall j | 0 <= j < |d.keys| :: Down(l.f, d.keys[j].key, d.keys[j].index) == anchor)
  {
    var d := Check(l, trust, candidate, index).1;
    if d.New? {
      DownCompose(l.f, candidate, index - trust.index, trust.index);
      forall j | 0 <= j < |d.keys|
        ensures Down(l.f, d.keys[j].key, d.keys[j].index) == anchor
      {
        var i := trust.index + 1 + j;
        assert d.keys[j] == Claim(l.f, candidate, index, i);
        DownCompose(l.f, candidate, index - i, i);
      }
    }
  }

  class ChainVerifier {
    const l: Limits
    var trustedIndex: nat
    var trustedKey: ChainKey

    constructor (anchor: ChainKey, l: Limits)
      ensures this.l == l && Trust() == IndexedKey(0, anchor)
    {
      this.l, trustedIndex, trustedKey := l, 0, anchor;
    }

    function Trust(): IndexedKey
      reads this
    {
      IndexedKey(trustedIndex, trustedKey)
    }

    method CheckCandidate(candidate: ChainKey, index: nat) returns (d: Disclosure)
      modifies this
      ensures (Trust(), d) == Check(l, old(Trust()), candidate, index)
    {
      if index <= trustedIndex {
        return NotNew;
      }
      if index > l.nChain {
        return BeyondChain;
      }
      var gap := index - trustedIndex;
      if gap > l.gMax {
        return TooFarAhead;
      }
      var recovered := [IndexedKey(index, candidate)];
      var k := candidate;
      for s := 1 to gap + 1
        invariant k == Down(l.f, candidate, s - 1)
        invariant |recovered| == if s <= gap then s else gap
        invariant forall j | 0 <= j < |recovered| :: recovered[j] == Claim(l.f, candidate, index, index - j)
      {
        k := l.f(k);
        var idx := index - s;
        if idx > trustedIndex {
          recovered := recovered + [IndexedKey(idx, k)];
        }
      }
      if k != trustedKey {
        return Invalid;
      }
      ghost var below := trustedIndex;
      trustedIndex := index;
      trustedKey := candidate;
      assert Reverse(recovered) == Revealed(l.f, candidate, index, below);
      return New(Reverse(recovered));
    }
  }

  // ------------------------------------------------- whole runs

  function Checks(l: Limits, anchor: ChainKey, candidates: seq<IndexedKey>): (r: (IndexedKey, seq<Disclosure>))
    ensures |r.1| == |candidates|
  {
    if candidates == [] then (IndexedKey(0, anchor), [])
    else
      var n := |candidates| - 1;
      var (trust, ds) := Checks(l, anchor, candidates[..n]);
      var (trust', d) := Check(l, trust, candidates[n].key, candidates[n].index);
      (trust', ds + [d])
  }

  /** Every key handed out over a run, in the order it was handed out. */
  function Released(ds: seq<Disclosure>): seq<IndexedKey>
  {
    if ds == [] then [] else Grown(Released(ds[..|ds| - 1]), ds[|ds| - 1])
  }

  /** Position j holds index j+1 and hashes to the key before it, or to the anchor. */
  predicate LinkedAt(f: Hash, anchor: ChainKey, keys: seq<IndexedKey>, j: nat)
    requires j < |keys|
  {
    keys[j].index == j + 1 && f(keys[j].key) == (if j == 0 then anchor else keys[j - 1].key)
  }

  /** The indexes 1..m in ascending order, each once, consecutive keys linked by F down to the anchor. */
  predicate Linked(f: Hash, anchor: ChainKey, keys: seq<IndexedKey>, m: nat)
  {
    |keys| == m && forall j | 0 <= j < m :: LinkedAt(f, anchor, keys, j)
  }

  /** The trusted key is the newest released one. */
  predicate Newest(anchor: ChainKey, keys: seq<IndexedKey>, trust: IndexedKey)
    requires |keys| == trust.index
  {
    trust.key == if trust.index == 0 then anchor else keys[trust.index - 1].key
  }

  function Grown(keys: seq<IndexedKey>, d: Disclosure): seq<IndexedKey>
  {
    keys + if d.New? then d.keys else []
  }

  lemma RevealedLinks(f: Hash, anchor: ChainKey, trust: IndexedKey, keys: seq<IndexedKey>, candidate: ChainKey, index: nat)
    requires Linked(f, anchor, keys, trust.index) && Newest(anchor, keys, trust)
    requires trust.index < index && Down(f, candidate, index - trust.index) == trust.key
    ensures Linked(f, anchor, keys + Revealed(f, candidate, index, trust.index), index)
  {
    var keys' := keys + Revealed(f, candidate, index, trust.index);
    forall j | 0 <= j < index
      ensures LinkedAt(f, anchor, keys', j)
    {
      if j < trust.index {
        assert LinkedAt(f, anchor, keys, j);
      } else {
        assert keys'[j] == Claim(f, candidate, index, j + 1);
        assert f(Down(f, candidate, index - (j + 1))) == Down(f, candidate, index - j);
        if j > trust.index {
          assert keys'[j - 1] == Claim(f, candidate, index, j);
        }
      }
    }
  }

  /** Checking one candidate releases exactly the missing indexes; a failure changes nothing. */
  lemma CheckExtends(l: Limits, anchor: ChainKey, trust: IndexedKey, keys: seq<IndexedKey>, candidate: ChainKey, index: nat)
    requires Linked(l.f, anchor, keys, trust.index) && Newest(anchor, keys, trust) && trust.index <= l.nChain
    ensures var (trust', d) := Check(l, trust, candidate, index);
      && Linked(l.f, anchor, Grown(keys, d), trust'.index) && Newest(anchor, Grown(keys, d), trust')
      && (!d.New? ==> trust' == trust) && trust'.index <= l.nChain
  {
    var (trust', d) := Check(l, trust, candidate, index);
    if d.New? {
      RevealedLinks(l.f, anchor, trust, keys, candidate, index);
      assert Grown(keys, d)[index - 1] == Claim(l.f, candidate, index, index);
    } else {
      assert Grown(keys, d) == keys;
    }
  }

  /** Over any sequence of candidates, genuine or not, every chain index up to the trusted one is released exactly once. */
  lemma {:induction false} ReleasedExactlyOnce(l: Limits, anchor: ChainKey, candidates: seq<IndexedKey>)
    ensures var (trust, ds) := Checks(l, anchor, candidates);
      && Linked(l.f, anchor, Released(ds), trust.index) && Newest(anchor, Released(ds), trust) && trust.index <= l.nChain
  {
    if candidates != [] {
      var n := |candidates| - 1;
      ReleasedExactlyOnce(l, anchor, candidates[..n]);
      var (trust, ds) := Checks(l, anchor, candidates[..n]);
      CheckExtends(l, anchor, trust, Released(ds), candidates[n].key, candidates[n].index);
      var d := Check(l, trust, candidates[n].key, candidates[n].index).1;
      assert (ds + [d])[..n] == ds;
    }
  }

  /** Linked keys hash down to the anchor. */
  lemma {:induction false} LinkedHashesToAnchor(f: Hash, anchor: ChainKey, keys: seq<IndexedKey>, m: nat, j: nat)
    requires Linked(f, anchor, keys, m) && j < m
    ensures Down(f, keys[j].key, j + 1) == anchor
  {
    DownOne(f, keys[j].key);
    assert LinkedAt(f, anchor, keys, j);
    if j > 0 {
      LinkedHashesToAnchor(f, anchor, keys, m, j - 1);
      DownCompose(f, keys[j].key, 1, j);
    }
  }

  /** The trusted key always hashes down to the signed anchor. */
  lemma TrustRootedInAnchor(l: Limits, anchor: ChainKey, candidates: seq<IndexedKey>)
    ensures var trust := Checks(l, anchor, candidates).0; Down(l.f, trust.key, trust.index) == anchor
  {
    ReleasedExactlyOnce(l, anchor, candidates);
    var (trust, ds) := Checks(l, anchor, candidates);
    if trust.index > 0 {
      LinkedHashesToAnchor(l.f, anchor, Released(ds), trust.index, trust.index - 1);
    }
  }

  function Genuine(f: Hash, final: ChainKey, n: nat, i: nat): IndexedKey
    requires i <= n
  {
    IndexedKey(i, KeyOf(f, final, n, i))
  }

  /** Keys of the genuine chain, above `lo` up to `hi` inclusive. */
  function GenuineKeys(f: Hash, final: ChainKey, n: nat, lo: nat, hi: nat): (keys: seq<IndexedKey>)
    requires lo <= hi <= n
    ensures |keys| == hi - lo
  {
    seq(hi - lo, j requires 0 <= j < hi - lo => Genuine(f, final, n, lo + 1 + j))
  }

  lemma GenuineClaims(f: Hash, final: ChainKey, n: nat, index: nat, trusted: nat)
    requires trusted <= index <= n
    ensures Revealed(f, KeyOf(f, final, n, index), index, trusted) == GenuineKeys(f, final, n, trusted, index)
  {
    forall i | trusted < i <= index
      ensures Claim(f, KeyOf(f, final, n, index), index, i) == Genuine(f, final, n, i)
    {
      GenuineHashesDown(f, final, n, index, index - i);
    }
  }

  /** From a genuine trusted key, every later genuine key within the cap proves itself and all the missed ones. */
  lemma GenuineAccepted(l: Limits, final: ChainKey, trusted: nat, index: nat)
    requires trusted < index <= l.nChain && index - trusted <= l.gMax
    ensures var trust := Genuine(l.f, final, l.nChain, trusted);
      Check(l, trust, KeyOf(l.f, final, l.nChain, index), index)
        == (Genuine(l.f, final, l.nChain, index), New(GenuineKeys(l.f, final, l.nChain, trusted, index)))
  {
    GenuineHashesDown(l.f, final, l.nChain, index, index - trusted);
    GenuineClaims(l.f, final, l.nChain, index, trusted);
  }

  // ------------------------------------------------- keys that are not the sender's

  predicate Collides(f: Hash, x: ChainKey, y: ChainKey)
  {
    x != y && f(x) == f(y)
  }

  /** Different keys that hash down to the same one collide on the way. */
  lemma {:induction false} Merging(f: Hash, x: ChainKey, y: ChainKey, steps: nat) returns (k: nat)
    requires x != y && Down(f, x, steps) == Down(f, y, steps)
    ensures k < steps && Collides(f, Down(f, x, k), Down(f, y, k))
  {
    if Down(f, x, steps - 1) == Down(f, y, steps - 1) {
      k := Merging(f, x, y, steps - 1);
    } else {
      k := steps - 1;
    }
  }

  /** The key at `index` is the sender's, or hashing both down runs into a collision of F. */
  ghost predicate GenuineOrCollision(f: Hash, final: ChainKey, n: nat, trust: IndexedKey)
    requires trust.index <= n
  {
    || trust.key == KeyOf(f, final, n, trust.index)
    || exists k: nat | k < trust.index ::
         Collides(f, Down(f, trust.key, k), Down(f, KeyOf(f, final, n, trust.index), k))
  }

  lemma RootedIsGenuine(f: Hash, final: ChainKey, n: nat, trust: IndexedKey)
    requires trust.index <= n && Down(f, trust.key, trust.index) == KeyOf(f, final, n, 0)
    ensures GenuineOrCollision(f, final, n, trust)
  {
    var y := KeyOf(f, final, n, trust.index);
    if trust.key != y {
      GenuineHashesDown(f, final, n, trust.index, trust.index);
      var k := Merging(f, trust.key, y, trust.index);
    }
  }

  /** Whatever candidates come, a verifier anchored in the sender's chain trusts the sender's key, or F has a collision. */
  lemma TrustGenuineOrCollision(l: Limits, final: ChainKey, candidates: seq<IndexedKey>)
    ensures var trust := Checks(l, KeyOf(l.f, final, l.nChain, 0), candidates).0;
      trust.index <= l.nChain && GenuineOrCollision(l.f, final, l.nChain, trust)
  {
    var anchor := KeyOf(l.f, final, l.nChain, 0);
    ReleasedExactlyOnce(l, anchor, candidates);
    TrustRootedInAnchor(l, anchor, candidates);
    RootedIsGenuine(l.f, final, l.nChain, Checks(l, anchor, candidates).0);
  }
}
