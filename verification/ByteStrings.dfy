/** Byte strings and big-endian integers of a fixed width. */
module ByteStrings {
  import opened Arithmetic

  type Byte = x: int | 0 <= x < 256
  type Bytes = seq<Byte>

  /** The number of values a field of `width` bytes can hold. */
  function Radix(width: nat): (p: nat)
    ensures p > 0
  {
    if width == 0 then 1 else 256 * Radix(width - 1)
  }

  /** `v.to_be_bytes()` for an integer type of `width` bytes; higher bits are cut off. */
  function BigEndian(width: nat, v: nat): (b: Bytes)
    ensures |b| == width
  {
    if width == 0 then [] else BigEndian(width - 1, v / 256) + [v % 256]
  }

  function FromBigEndian(b: Bytes): (v: nat)
  {
    if b == [] then 0 else FromBigEndian(b[..|b| - 1]) * 256 + b[|b| - 1]
  }

  function Reverse<T>(s: seq<T>): (r: seq<T>)
    ensures |r| == |s|
  {
    seq(|s|, k requires 0 <= k < |s| => s[|s| - 1 - k])
  }

  lemma ReverseTwice<T>(s: seq<T>)
    ensures Reverse(Reverse(s)) == s
  {
  }

  /** Reading back an encoded integer truncates it to the field's width. */
  lemma {:induction false} BigEndianRoundTrip(width: nat, v: nat)
    ensures FromBigEndian(BigEndian(width, v)) == v % Radix(width)
  {
    if width > 0 {
      BigEndianRoundTrip(width - 1, v / 256);
      var b := BigEndian(width, v);
      assert b[..|b| - 1] == BigEndian(width - 1, v / 256);
      ModSplit(v, 256, Radix(width - 1));
    }
  }

  /** Two integers have the same bytes exactly when they agree up to the field's width. */
  lemma {:induction false} BigEndianEqual(width: nat, v: nat, w: nat)
    ensures BigEndian(width, v) == BigEndian(width, w) <==> v % Radix(width) == w % Radix(width)
  {
    BigEndianRoundTrip(width, v);
    BigEndianRoundTrip(width, w);
    if width > 0 && v % Radix(width) == w % Radix(width) {
      ModSplit(v, 256, Radix(width - 1));
      ModSplit(w, 256, Radix(width - 1));
      BigEndianEqual(width - 1, v / 256, w / 256);
    }
  }

  lemma TwoBytes(b: Bytes)
    requires |b| == 2
    ensures FromBigEndian(b) == b[0] as int * 256 + b[1]
  {
    assert b[..1][..0] == [];
    assert FromBigEndian(b[..1]) == b[0] as int;
  }

  lemma FourBytes(b: Bytes)
    requires |b| == 4
    ensures FromBigEndian(b) == ((b[0] as int * 256 + b[1]) * 256 + b[2]) * 256 + b[3]
  {
    TwoBytes(b[..3][..2]);
    assert b[..3][..2] == b[..2];
  }

  lemma {:induction false} FromBigEndianRange(b: Bytes)
    ensures FromBigEndian(b) < Radix(|b|)
  {
    if b != [] {
      FromBigEndianRange(b[..|b| - 1]);
    }
  }

  lemma RadixValues()
    ensures Radix(2) == U16 && Radix(4) == U32 && Radix(8) == U64
  {
    assert Radix(1) == 256;
    assert Radix(2) == 65536;
    assert Radix(3) == 256 * 65536;
    assert Radix(4) == U32;
    assert Radix(5) == 256 * U32;
    assert Radix(6) == 65536 * U32;
    assert Radix(7) == 256 * 65536 * U32;
  }
}
