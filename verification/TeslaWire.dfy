/** The authentication extension and the TESLA tag (src/tesla/mod.rs, src/tesla/mac.rs). */
module TeslaWire {
  import opened Arithmetic
  import opened Options
  import opened ByteStrings
  import opened Session
  import opened Chain

  const TESLA_MAC_LEN: nat := 10
  const TESLA_EXT_LEN: nat := 4 + TESLA_KEY_LEN + TESLA_MAC_LEN

  type Mac = m: Bytes | |m| == TESLA_MAC_LEN witness seq(TESLA_MAC_LEN, _ => 0)

  datatype Extension = Extension(interval: nat, disclosed: ChainKey, mac: Mac)

  function AppendExtension(packet: Bytes, e: Extension): Bytes
  {
    packet + BigEndian(4, e.interval) + e.disclosed + e.mac
  }

  /** What is left of the buffer, and the extension that was on it. */
  datatype Split = TooShort | Split(packet: Bytes, ext: Extension)

  function SplitExtension(buf: Bytes): Split
  {
    if |buf| <= TESLA_EXT_LEN then TooShort
    else
      var base := |buf| - TESLA_EXT_LEN;
      Split.Split(buf[..base],
                  Extension(FromBigEndian(buf[base..base + 4]), buf[base + 4..base + 4 + TESLA_KEY_LEN],
                            buf[base + 4 + TESLA_KEY_LEN..]))
  }

  /** Every nonempty packet comes back with the fields that were put on it; an empty one is refused. */
  lemma SplitInvertsAppend(packet: Bytes, e: Extension)
    requires e.interval < U32
    ensures SplitExtension(AppendExtension(packet, e)) == if packet == [] then TooShort else Split.Split(packet, e)
  {
    var buf := AppendExtension(packet, e);
    if packet != [] {
      var base := |packet|;
      assert buf[..base] == packet;
      assert buf[base..base + 4] == BigEndian(4, e.interval);
      assert buf[base + 4..base + 4 + TESLA_KEY_LEN] == e.disclosed;
      assert buf[base + 4 + TESLA_KEY_LEN..] == e.mac;
      BigEndianRoundTrip(4, e.interval);
      RadixValues();
    }
  }

  /** Where the fields lie: label, disclosed key and tag, in this order, behind the packet. */
  lemma ExtensionLayout(packet: Bytes, e: Extension)
    ensures var out, base := AppendExtension(packet, e), |packet|;
      && |out| == base + 34 && out[..base] == packet
      && out[base..base + 4] == BigEndian(4, e.interval) && out[base + 4..base + 24] == e.disclosed
      && out[base + 24..] == e.mac
  {
  }

  /** A datagram buffer the two operations work on in place. */
  class PacketBuffer {
    var data: Bytes

    constructor (data: Bytes)
      ensures this.data == data
    {
      this.data := data;
    }

    method Append(interval: nat, disclosed: ChainKey, mac: Mac)
      modifies this
      ensures data == AppendExtension(old(data), Extension(interval, disclosed, mac))
    {
      data := data + BigEndian(4, interval);
      data := data + disclosed;
      data := data + mac;
    }

    /** Strips the extension; a buffer too short to carry one is left alone. */
    method Strip() returns (ext: Option<Extension>)
      modifies this
      ensures match SplitExtension(old(data))
        case TooShort => ext == None && data == old(data)
        case Split(packet, e) => ext == Some(e) && data == packet
    {
      if |data| <= TESLA_EXT_LEN {
        return None;
      }
      var base := |data| - TESLA_EXT_LEN;
      var interval := FromBigEndian(data[base..base + 4]);
      var disclosed: ChainKey := data[base + 4..base + 4 + TESLA_KEY_LEN];
      var mac: Mac := data[base + 4 + TESLA_KEY_LEN..];
      data := data[..base];
      return Some(Extension(interval, disclosed, mac));
    }
  }

  // ------------------------------------------------- tags

  datatype MacAlg = HmacSha256 | GmacAes128

  /** F, F' and the two tag algorithms, cut to ten bytes: arbitrary deterministic functions. */
  datatype TeslaCrypto = TeslaCrypto(f: Hash, macKey: (ChainKey, nat) -> Bytes,
                                     hmac: (Bytes, Bytes) -> Mac, gmac: (Bytes, Bytes, Bytes) -> Mac)

  /** A tag algorithm after its key setup. */
  datatype PreparedMac = PreparedMac(alg: MacAlg, key: Bytes)

  function Prepare(cr: TeslaCrypto, alg: MacAlg, chainKey: ChainKey): PreparedMac
  {
    PreparedMac(alg, cr.macKey(chainKey, if alg.HmacSha256? then 32 else 16))
  }

  /** HMAC sees the position only through the rollover counter, GMAC through its nonce in full. */
  function Tag(cr: TeslaCrypto, p: PreparedMac, extIndex: nat, packet: Bytes): Mac
  {
    match p.alg
    case HmacSha256 => cr.hmac(p.key, HmacInput(extIndex, packet))
    case GmacAes128 => cr.gmac(p.key, GmacNonce(extIndex), packet)
  }

  function HmacInput(extIndex: nat, packet: Bytes): Bytes { BigEndian(4, extIndex / U16) + packet }

  function GmacNonce(extIndex: nat): Bytes { BigEndian(4, 0) + BigEndian(8, extIndex) }

  /**
   * The tag of a packet as the specification writes it: HMAC-SHA256 under a 32-byte key over rollover counter and
   * packet, or GMAC under a 16-byte key with the position as nonce; the key is F' of the interval's chain key.
   */
  function KeyedTag(cr: TeslaCrypto, alg: MacAlg, chainKey: ChainKey, extIndex: nat, packet: Bytes): Mac
  {
    if alg == HmacSha256 then cr.hmac(cr.macKey(chainKey, 32), BigEndian(4, extIndex / U16) + packet)
    else cr.gmac(cr.macKey(chainKey, 16), BigEndian(4, 0) + BigEndian(8, extIndex), packet)
  }

  /** Key setup once per interval and tagging packet by packet give that tag. */
  lemma PreparedTag(cr: TeslaCrypto, alg: MacAlg, chainKey: ChainKey, extIndex: nat, packet: Bytes)
    ensures Tag(cr, Prepare(cr, alg, chainKey), extIndex, packet) == KeyedTag(cr, alg, chainKey, extIndex, packet)
  {
  }

  /**
   * Rollover counter and header together pin the position up to the 48 bits they hold: no packet
   * is tagged alike at two positions less than 2^48 apart.
   */
  lemma HmacInputBindsPosition(i: nat, j: nat, p: Bytes, q: Bytes)
    requires |p| >= RTP_HEADER_LEN && |q| >= RTP_HEADER_LEN
    requires SeqField(p) == i % U16 && SeqField(q) == j % U16
    ensures HmacInput(i, p) == HmacInput(j, q) <==> i % U48 == j % U48 && p == q
  {
    FortyEightBits(i);
    FortyEightBits(j);
    FourBytesEqual(i / U16, j / U16);
    if HmacInput(i, p) == HmacInput(j, q) {
      SplitPrefix(BigEndian(4, i / U16), BigEndian(4, j / U16), p, q);
    } else if i % U48 == j % U48 && p == q {
      SameDigits((i / U16) % U32, (j / U16) % U32, i % U16, j % U16);
    }
  }

  lemma FortyEightBits(i: nat)
    ensures i % U48 == U16 * ((i / U16) % U32) + i % U16
  {
    ModSplit(i, U16, U32);
  }

  lemma SameDigits(a: nat, b: nat, x: nat, y: nat)
    requires x < U16 && y < U16 && U16 * a + x == U16 * b + y
    ensures a == b && x == y
  {
  }

  lemma FourBytesEqual(v: nat, w: nat)
    ensures BigEndian(4, v) == BigEndian(4, w) <==> v % U32 == w % U32
  {
    BigEndianEqual(4, v, w);
    RadixValues();
  }

  lemma SplitPrefix(a: Bytes, b: Bytes, p: Bytes, q: Bytes)
    requires |a| == |b| && a + p == b + q
    ensures a == b && p == q
  {
    assert (a + p)[..|a|] == a && (a + p)[|a|..] == p;
  }

  lemma GmacNonceBindsPosition(i: nat, j: nat)
    ensures GmacNonce(i) == GmacNonce(j) <==> i % U64 == j % U64
  {
    assert GmacNonce(i)[4..] == BigEndian(8, i) && GmacNonce(j)[4..] == BigEndian(8, j);
    BigEndianEqual(8, i, j);
    RadixValues();
  }

  /** Positions the algorithm cannot tell apart: HMAC sees 48 bits of the position, GMAC 64. */
  predicate SamePosition(alg: MacAlg, i: nat, j: nat)
  {
    if alg.HmacSha256? then i % U48 == j % U48 else i % U64 == j % U64
  }

  predicate CollisionFree(cr: TeslaCrypto, p: PreparedMac, i: nat, j: nat, a: Bytes, b: Bytes)
  {
    match p.alg
    case HmacSha256 =>
      cr.hmac(p.key, HmacInput(i, a)) == cr.hmac(p.key, HmacInput(j, b)) ==> HmacInput(i, a) == HmacInput(j, b)
    case GmacAes128 =>
      cr.gmac(p.key, GmacNonce(i), a) == cr.gmac(p.key, GmacNonce(j), b) ==> GmacNonce(i) == GmacNonce(j) && a == b
  }

  /** Barring a collision of the algorithm itself, equal tags mean the same packet at the same position. */
  lemma TagBindsPosition(cr: TeslaCrypto, prepared: PreparedMac, i: nat, j: nat, p: Bytes, q: Bytes)
    requires |p| >= RTP_HEADER_LEN && |q| >= RTP_HEADER_LEN
    requires SeqField(p) == i % U16 && SeqField(q) == j % U16 && CollisionFree(cr, prepared, i, j, p, q)
    ensures Tag(cr, prepared, i, p) == Tag(cr, prepared, j, q) <==> SamePosition(prepared.alg, i, j) && p == q
  {
    if prepared.alg.HmacSha256? {
      HmacInputBindsPosition(i, j, p, q);
    } else {
      GmacNonceBindsPosition(i, j);
    }
  }
}
