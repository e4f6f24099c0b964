/**
 * The per-stream key ratchet (src/keying/ratchet.rs). HKDF-Expand is an arbitrary
 * deterministic function; nothing else is assumed of it.
 */
module Ratchet {
  import opened ByteStrings

  /** `expand(secret, label, length)`. */
  datatype Kdf = Kdf(expand: (Bytes, string, nat) -> Bytes)

  type KeySalt = Bytes

  const CHAIN_LABEL: string := "next generation"
  const KEY_MATERIAL_LABEL: string := "srtp key material"
  const CHAIN_SECRET_LEN: nat := 32
  const SRTP_KEY_MATERIAL_LEN: nat := 28

  /** S_g: the seed after g chain steps. */
  function SecretAt(kdf: Kdf, seed: Bytes, g: nat): Bytes
  {
    if g == 0 then seed else kdf.expand(SecretAt(kdf, seed, g - 1), CHAIN_LABEL, CHAIN_SECRET_LEN)
  }

  /** The SRTP key and salt of generation g: the one definition both ends must agree on. */
  function KeyAt(kdf: Kdf, seed: Bytes, g: nat): KeySalt
  {
    kdf.expand(SecretAt(kdf, seed, g), KEY_MATERIAL_LABEL, SRTP_KEY_MATERIAL_LEN)
  }

  class StreamRatchet {
    const kdf: Kdf
    var chainSecret: Bytes
    var generation: nat

    /** This ratchet stands at generation g of the chain that starts from `seed`. */
    ghost predicate At(kdf: Kdf, seed: Bytes, g: nat)
      reads this
    {
      this.kdf == kdf && generation == g && chainSecret == SecretAt(kdf, seed, g)
    }

    constructor FromSeed(kdf: Kdf, seed: Bytes)
      requires |seed| == CHAIN_SECRET_LEN
      ensures At(kdf, seed, 0)
    {
      this.kdf, chainSecret, generation := kdf, seed, 0;
    }

    constructor Clone(from: StreamRatchet)
      ensures kdf == from.kdf && chainSecret == from.chainSecret && generation == from.generation
    {
      kdf, chainSecret, generation := from.kdf, from.chainSecret, from.generation;
    }

    method DeriveKeySalt(ghost seed: Bytes) returns (ks: KeySalt)
      requires At(kdf, seed, generation)
      ensures ks == KeyAt(kdf, seed, generation)
    {
      ks := kdf.expand(chainSecret, KEY_MATERIAL_LABEL, SRTP_KEY_MATERIAL_LEN);
    }

    method Advance(ghost seed: Bytes)
      requires At(kdf, seed, generation)
      modifies this
      ensures At(kdf, seed, old(generation) + 1)
    {
      chainSecret := kdf.expand(chainSecret, CHAIN_LABEL, CHAIN_SECRET_LEN);
      generation := generation + 1;
    }

    method NextKeySalt(ghost seed: Bytes) returns (g: nat, ks: KeySalt)
      requires At(kdf, seed, generation)
      modifies this
      ensures g == old(generation) && ks == KeyAt(kdf, seed, g)
      ensures At(kdf, seed, g + 1)
    {
      g := generation;
      ks := DeriveKeySalt(seed);
      Advance(seed);
    }
  }
}
