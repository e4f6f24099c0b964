/** The signed commitment (src/tesla/commitment.rs): what gets signed determines what was committed to. */
module Commitment {
  import opened Arithmetic
  import opened Options
  import opened ByteStrings
  import opened Chain
  import opened Schedule
  import opened TeslaWire

  function Ascii(text: string): (b: Bytes)
    ensures |b| == |text|
  {
    seq(|text|, i requires 0 <= i < |text| => text[i] as int % 256)
  }

  const DOMAIN_TEXT: string := "MLS-SRTP TESLA commitment"

  datatype TeslaCommitment = TeslaCommitment(
    anchor: ChainKey, t0Ns: nat, tIntNs: nat, d: nat, nChain: nat, macAlg: MacAlg,
    senderIdentity: Bytes, ssrc: nat, groupId: Bytes, epoch: nat)
  {
    /** Every field fits the width it is written in. */
    predicate Fits()
    {
      && t0Ns < U64 && tIntNs < U64 && d < U32 && nChain < U32
      && |senderIdentity| < U32 && ssrc < U32 && |groupId| < U32 && epoch < U64
    }

    /** The schedule this commitment pins, completed with the two receiver-local values. */
    function Schedule(dtNs: nat, gMax: nat): TeslaSchedule
    {
      TeslaSchedule(t0Ns, tIntNs, d, nChain, dtNs, gMax)
    }

    // What is still to be written after each field, from the last field back.

    function FromGroup(): Bytes { BigEndian(4, |groupId|) + (groupId + BigEndian(8, epoch)) }

    function FromIdentity(): Bytes
    {
      BigEndian(4, |senderIdentity|) + (senderIdentity + (BigEndian(4, ssrc) + FromGroup()))
    }

    function FromAlg(): Bytes { [if macAlg.HmacSha256? then 0 else 1] + FromIdentity() }

    function FromSchedule(): Bytes
    {
      BigEndian(8, t0Ns) + (BigEndian(8, tIntNs) + (BigEndian(4, d) + (BigEndian(4, nChain) + FromAlg())))
    }

    /** The bytes that get signed. */
    function Encode(): Bytes { Ascii(DOMAIN_TEXT) + (anchor + FromSchedule()) }
  }

  /** What the schedule's constructor asserts, with the widths its arguments have. */
  predicate Usable(c: TeslaCommitment, dtNs: nat, gMax: nat)
  {
    && c.tIntNs > 0 && c.d >= 2 && c.nChain >= 1 && gMax >= 1
    && c.t0Ns < U64 && c.tIntNs < U64 && c.d < U32 && c.nChain < U32 && dtNs < U64 && gMax < U32
  }

  /**
   * Timing safety in the terms that were signed: under a label i >= 1 a packet that arrives at this time passes
   * the accept test if and only if no sender clock up to D_t ahead lies in interval i + d or later.
   */
  lemma CommittedTiming(c: TeslaCommitment, dtNs: nat, gMax: nat, arrivalNs: nat, i: nat)
    requires Usable(c, dtNs, gMax) && i >= 1
    ensures c.Schedule(dtNs, gMax).Valid()
    ensures c.Schedule(dtNs, gMax).Accepts(arrivalNs, i) <==>
      forall clock: nat | c.t0Ns <= clock < U64 && clock <= arrivalNs + dtNs :: SignedInterval(c, clock) < i + c.d
  {
    var p := c.Schedule(dtNs, gMax);
    AcceptedMeansStillSecret(p, arrivalNs, i);
    forall clock: nat | c.t0Ns <= clock < U64 && clock <= arrivalNs + dtNs
      ensures Possible(p, arrivalNs, clock) && SignedInterval(c, clock) == ClockInterval(p, clock)
    {
    }
  }

  /** The interval a clock reading falls into, by the signed start and length. */
  function SignedInterval(c: TeslaCommitment, clockNs: nat): nat
    requires c.tIntNs > 0 && c.t0Ns <= clockNs
  {
    1 + (clockNs - c.t0Ns) / c.tIntNs
  }

  /** Appending piece by piece produces the encoding. */
  method ToBytes(c: TeslaCommitment) returns (out: Bytes)
    ensures out == c.Encode()
  {
    out := Ascii(DOMAIN_TEXT);
    out := out + c.anchor;
    assert out + c.FromSchedule() == c.Encode();
    out := AppendSchedule(c, out);
    out := out + [match c.macAlg case HmacSha256 => 0 case GmacAes128 => 1];
    assert out + c.FromIdentity() == c.Encode();
    out := AppendContext(c, out);
  }

  method AppendSchedule(c: TeslaCommitment, before: Bytes) returns (out: Bytes)
    ensures out + c.FromAlg() == before + c.FromSchedule()
  {
    ghost var r3 := BigEndian(4, c.nChain) + c.FromAlg();
    ghost var r2 := BigEndian(4, c.d) + r3;
    ghost var r1 := BigEndian(8, c.tIntNs) + r2;
    out := before + BigEndian(8, c.t0Ns);
    assert out + r1 == before + c.FromSchedule();
    out := out + BigEndian(8, c.tIntNs);
    assert out + r2 == before + c.FromSchedule();
    out := out + BigEndian(4, c.d);
    assert out + r3 == before + c.FromSchedule();
    out := out + BigEndian(4, c.nChain);
  }

  method AppendContext(c: TeslaCommitment, before: Bytes) returns (out: Bytes)
    ensures out == before + c.FromIdentity()
  {
    ghost var r2 := BigEndian(4, c.ssrc) + c.FromGroup();
    ghost var r1 := c.senderIdentity + r2;
    out := before + BigEndian(4, |c.senderIdentity|);
    assert out + r1 == before + c.FromIdentity();
    out := out + c.senderIdentity;
    assert out + r2 == before + c.FromIdentity();
    out := out + BigEndian(4, c.ssrc);
    assert out + c.FromGroup() == before + c.FromIdentity();
    out := out + BigEndian(4, |c.groupId|);
    assert out + (c.groupId + BigEndian(8, c.epoch)) == before + c.FromIdentity();
    out := out + c.groupId;
    assert out + BigEndian(8, c.epoch) == before + c.FromIdentity();
    out := out + BigEndian(8, c.epoch);
  }

  lemma FieldAt(before: Bytes, field: Bytes, rest: Bytes)
    ensures (before + (field + rest))[|before|..|before| + |field|] == field
    ensures before + (field + rest) == (before + field) + rest
  {
  }

  /** Where the fields of fixed width lie in the signed bytes. */
  lemma SignedLayout(c: TeslaCommitment)
    ensures var out := c.Encode();
      && |out| >= 90 && out[..25] == Ascii(DOMAIN_TEXT) && out[25..45] == c.anchor
      && out[45..53] == BigEndian(8, c.t0Ns) && out[53..61] == BigEndian(8, c.tIntNs)
      && out[61..65] == BigEndian(4, c.d) && out[65..69] == BigEndian(4, c.nChain)
      && out[69] == if c.macAlg == HmacSha256 then 0 else 1
  {
    var p0 := Ascii(DOMAIN_TEXT);
    var p1 := p0 + c.anchor;
    var p2 := p1 + BigEndian(8, c.t0Ns);
    var p3 := p2 + BigEndian(8, c.tIntNs);
    var p4 := p3 + BigEndian(4, c.d);
    var p5 := p4 + BigEndian(4, c.nChain);
    var r4 := BigEndian(4, c.nChain) + c.FromAlg();
    var r3 := BigEndian(4, c.d) + r4;
    var r2 := BigEndian(8, c.tIntNs) + r3;
    FieldAt(p0, c.anchor, c.FromSchedule());
    FieldAt(p1, BigEndian(8, c.t0Ns), r2);
    FieldAt(p2, BigEndian(8, c.tIntNs), r3);
    FieldAt(p3, BigEndian(4, c.d), r4);
    FieldAt(p4, BigEndian(4, c.nChain), c.FromAlg());
    FieldAt(p5, [if c.macAlg.HmacSha256? then 0 else 1], c.FromIdentity());
  }

  // ------------------------------------------------- decoding

  function Take(b: Bytes, n: nat): Option<(Bytes, Bytes)>
  {
    if n <= |b| then Some((b[..n], b[n..])) else None
  }

  function ReadInt(b: Bytes, width: nat): Option<(nat, Bytes)>
  {
    if width <= |b| then Some((FromBigEndian(b[..width]), b[width..])) else None
  }

  lemma TakeBack(x: Bytes, rest: Bytes)
    ensures Take(x + rest, |x|) == Some((x, rest))
  {
  }

  lemma ReadIntBack(width: nat, v: nat, rest: Bytes)
    requires v < Radix(width)
    ensures ReadInt(BigEndian(width, v) + rest, width) == Some((v, rest))
  {
    BigEndianRoundTrip(width, v);
    assert (BigEndian(width, v) + rest)[..width] == BigEndian(width, v);
  }

  function DecodeGroup(b: Bytes): Option<(Bytes, nat)>
  {
    var (len, b1) :- ReadInt(b, 4);
    var (group, b2) :- Take(b1, len);
    var (epoch, b3) :- ReadInt(b2, 8);
    if b3 == [] then Some((group, epoch)) else None
  }

  function DecodeIdentity(b: Bytes): Option<(Bytes, nat, Bytes, nat)>
  {
    var (len, b1) :- ReadInt(b, 4);
    var (identity, b2) :- Take(b1, len);
    var (ssrc, b3) :- ReadInt(b2, 4);
    var (group, epoch) :- DecodeGroup(b3);
    Some((identity, ssrc, group, epoch))
  }

  function DecodeAlg(b: Bytes): Option<(MacAlg, Bytes)>
  {
    if b == [] || b[0] > 1 then None else Some((if b[0] == 0 then HmacSha256 else GmacAes128, b[1..]))
  }

  function DecodeSchedule(b: Bytes): Option<(nat, nat, nat, nat, Bytes)>
  {
    var (t0, b1) :- ReadInt(b, 8);
    var (tInt, b2) :- ReadInt(b1, 8);
    var (d, b3) :- ReadInt(b2, 4);
    var (nChain, b4) :- ReadInt(b3, 4);
    Some((t0, tInt, d, nChain, b4))
  }

  function DecodeBody(b: Bytes): Option<TeslaCommitment>
  {
    var (anchor, b1) :- Take(b, TESLA_KEY_LEN);
    var (t0, tInt, d, nChain, b2) :- DecodeSchedule(b1);
    var (alg, b3) :- DecodeAlg(b2);
    var (identity, ssrc, group, epoch) :- DecodeIdentity(b3);
    Some(TeslaCommitment(anchor, t0, tInt, d, nChain, alg, identity, ssrc, group, epoch))
  }

  function Decode(b: Bytes): Option<TeslaCommitment>
  {
    var (domain, body) :- Take(b, |DOMAIN_TEXT|);
    if domain != Ascii(DOMAIN_TEXT) then None else DecodeBody(body)
  }

  lemma DecodeGroupBack(c: TeslaCommitment)
    requires c.Fits()
    ensures DecodeGroup(c.FromGroup()) == Some((c.groupId, c.epoch))
  {
    RadixValues();
    ReadIntBack(4, |c.groupId|, c.groupId + BigEndian(8, c.epoch));
    TakeBack(c.groupId, BigEndian(8, c.epoch));
    assert BigEndian(8, c.epoch) + [] == BigEndian(8, c.epoch);
    ReadIntBack(8, c.epoch, []);
  }

  lemma DecodeIdentityBack(c: TeslaCommitment)
    requires c.Fits()
    ensures DecodeIdentity(c.FromIdentity()) == Some((c.senderIdentity, c.ssrc, c.groupId, c.epoch))
  {
    RadixValues();
    ReadIntBack(4, |c.senderIdentity|, c.senderIdentity + (BigEndian(4, c.ssrc) + c.FromGroup()));
    TakeBack(c.senderIdentity, BigEndian(4, c.ssrc) + c.FromGroup());
    ReadIntBack(4, c.ssrc, c.FromGroup());
    DecodeGroupBack(c);
  }

  lemma DecodeScheduleBack(c: TeslaCommitment)
    requires c.Fits()
    ensures DecodeSchedule(c.FromSchedule()) == Some((c.t0Ns, c.tIntNs, c.d, c.nChain, c.FromAlg()))
  {
    RadixValues();
    var r3 := BigEndian(4, c.nChain) + c.FromAlg();
    var r2 := BigEndian(4, c.d) + r3;
    ReadIntBack(8, c.t0Ns, BigEndian(8, c.tIntNs) + r2);
    ReadIntBack(8, c.tIntNs, r2);
    ReadIntBack(4, c.d, r3);
    ReadIntBack(4, c.nChain, c.FromAlg());
  }

  lemma DecodeAlgBack(c: TeslaCommitment)
    ensures DecodeAlg(c.FromAlg()) == Some((c.macAlg, c.FromIdentity()))
  {
  }

  lemma DecodeBodyBack(c: TeslaCommitment)
    requires c.Fits()
    ensures DecodeBody(c.anchor + c.FromSchedule()) == Some(c)
  {
    TakeBack(c.anchor, c.FromSchedule());
    DecodeScheduleBack(c);
    DecodeAlgBack(c);
    DecodeIdentityBack(c);
  }

  /** The signed bytes name the commitment: nothing else encodes to them. */
  lemma DecodeInvertsEncode(c: TeslaCommitment)
    requires c.Fits()
    ensures Decode(c.Encode()) == Some(c)
  {
    TakeBack(Ascii(DOMAIN_TEXT), c.anchor + c.FromSchedule());
    DecodeBodyBack(c);
  }

  /** A signature over one commitment is never a signature over another. */
  lemma SignedBytesDiffer(a: TeslaCommitment, b: TeslaCommitment)
    requires a.Fits() && b.Fits()
    ensures a.Encode() == b.Encode() <==> a == b
  {
    DecodeInvertsEncode(a);
    DecodeInvertsEncode(b);
  }
}
