/**
 * The libsrtp session as SafeCast uses it: one stream whose key can be swapped in place
 * while the replay database survives. What the library decides is an arbitrary
 * deterministic function of the loaded key, of everything accepted before, and of the packet.
 */
module Session {
  import opened Arithmetic
  import opened ByteStrings
  import opened Ratchet

  const RTP_HEADER_LEN: nat := 12

  /** A packet the session accepted, with the key that was loaded at that moment. */
  datatype Accepted = Accepted(key: KeySalt, packet: Bytes)

  datatype Verdict = Accept(plain: Bytes) | ReplayFail | AuthFail

  /** `seal(key, packets protected before, plain packet)` yields ciphertext and tag. */
  datatype Srtp = Srtp(judge: (KeySalt, seq<Accepted>, Bytes) -> Verdict,
                       seal: (KeySalt, nat, Bytes) -> Bytes)

  /** What `protect` puts on the wire: the header stays in the clear. */
  function Protected(srtp: Srtp, key: KeySalt, count: nat, plain: Bytes): (wire: Bytes)
    requires |plain| >= RTP_HEADER_LEN
    ensures |wire| >= RTP_HEADER_LEN && wire[..RTP_HEADER_LEN] == plain[..RTP_HEADER_LEN]
  {
    plain[..RTP_HEADER_LEN] + srtp.seal(key, count, plain)
  }

  /** Bytes 2-3 of the RTP header. */
  function SeqField(packet: Bytes): (field: nat)
    requires |packet| >= RTP_HEADER_LEN
    ensures field == packet[2] as int * 256 + packet[3] < U16
  {
    TwoBytes(packet[2..4]);
    FromBigEndian(packet[2..4])
  }

  /** Bytes 4-7 of the RTP header. */
  function TimestampField(packet: Bytes): (field: nat)
    requires |packet| >= RTP_HEADER_LEN
    ensures field == ((packet[4] as int * 256 + packet[5]) * 256 + packet[6]) * 256 + packet[7] < U32
  {
    FourBytes(packet[4..8]);
    FromBigEndian(packet[4..8])
  }

  class SrtpSession {
    const srtp: Srtp
    var key: KeySalt
    var accepted: seq<Accepted>
    /** Packets protected so far (sender direction). */
    var sent: nat

    constructor (srtp: Srtp, key: KeySalt)
      ensures this.srtp == srtp && this.key == key && accepted == [] && sent == 0
    {
      this.srtp, this.key, accepted, sent := srtp, key, [], 0;
    }

    method InplaceRekey(key: KeySalt)
      modifies this`key
      ensures this.key == key
    {
      this.key := key;
    }

    method Protect(plain: Bytes) returns (wire: Bytes)
      requires |plain| >= RTP_HEADER_LEN
      modifies this`sent
      ensures wire == Protected(srtp, key, old(sent), plain) && sent == old(sent) + 1
    {
      wire := Protected(srtp, key, sent, plain);
      sent := sent + 1;
    }

    /** A failed `unprotect` leaves the replay database alone. */
    method Unprotect(packet: Bytes) returns (verdict: Verdict)
      modifies this`accepted
      ensures verdict == srtp.judge(key, old(accepted), packet)
      ensures accepted == if verdict.Accept? then old(accepted) + [Accepted(key, packet)] else old(accepted)
    {
      verdict := srtp.judge(key, accepted, packet);
      if verdict.Accept? {
        accepted := accepted + [Accepted(key, packet)];
      }
    }
  }
}
