/** The home subscriber server's resynchronization: the device's sequence number is taken
    out of AUTS, advanced, and put into fresh vectors. */
module Hss {
  import opened ByteStrings
  import opened BigEndian
  import opened Bits
  import opened Card
  import opened Milenage
  import opened Primitives

  const AMF: Bytes := [128, 0]
  const SQN_STEP := 32

  function U32(a: byte, b: byte, c: byte, d: byte): nat { U16(a, b) * 65536 + U16(c, d) }

  function PutU32(n: nat): Bytes { PutU16(n / 65536) + PutU16(n) }

  /** The 48-bit number built from a 16-bit and a 32-bit read. */
  function Unpacked(s: Sqn): nat { U16(s[0], s[1]) * 0x1_0000_0000 + U32(s[2], s[3], s[4], s[5]) }

  /** The 16-bit and 32-bit writes, each truncating. */
  function Packed(n: nat): Sqn { PutU16(n / 0x1_0000_0000) + PutU32(n) }

  function Resynced(c: Crypto, ki: Block, op: Block, rand: Block, auts: Bytes, freshRand: Block): Option<AuthVectors> {
    match Validated(c, ki, op, rand, auts)
    case None => None
    case Some(s) => Some(Vectors(c, ki, op, freshRand, Digits(Value(s) + SQN_STEP, 6), AMF))
  }

  method Resync(c: Crypto, ki: Bytes, op: Bytes, rand: Block, auts: Bytes, freshRand: Block)
    returns (r: Outcome<Option<AuthVectors>>)
    requires |auts| == 14
    ensures r == if |ki| == 16 && |op| == 16 then Ok(Resynced(c, ki, op, rand, auts, freshRand)) else Err
  {
    hide Vectors;
    hide Validated;
    var result := ValidateAuts(c, ki, op, rand, auts);
    if !result.Ok? { return Err; }
    if result.value.None? { return Ok(None); }
    var sqnMs := result.value.value;
    var newSqn := Unpacked(sqnMs) + SQN_STEP;
    var sqnBuf := new byte[6](_ => 0);
    CopyInto(sqnBuf, 0, PutU16(newSqn / 0x1_0000_0000));
    CopyInto(sqnBuf, 2, PutU32(newSqn));
    assert sqnBuf[..] == Packed(newSqn);
    UnpackedIsValue(sqnMs);
    PackedIsDigits(newSqn);
    assert sqnBuf[..][..6] == sqnBuf[..] && AMF[..2] == AMF;
    var vectors := GenerateVectorsWithRand(c, ki, op, freshRand, sqnBuf[..], AMF);
    if !vectors.Ok? { return Err; }
    r := Ok(Some(vectors.value));
  }

  lemma Two(a: byte, b: byte)
    ensures Value([a, b]) == U16(a, b) && Pow256(2) == 65536
  {
    assert [a, b] == [a] + [b];
    ValueAppend([a], [b]);
    One(a);
    One(b);
  }

  lemma UnpackedIsValue(s: Sqn)
    ensures Unpacked(s) == Value(s)
  {
    hide Value;
    assert s == [s[0], s[1]] + ([s[2], s[3]] + [s[4], s[5]]);
    Two(s[0], s[1]);
    Two(s[2], s[3]);
    Two(s[4], s[5]);
    ValueAppend([s[2], s[3]], [s[4], s[5]]);
    ValueAppend([s[0], s[1]], [s[2], s[3]] + [s[4], s[5]]);
    PowAdd(2, 2);
  }

  lemma TwoDigits(v: nat, n: nat)
    requires n >= 2
    ensures Digits(v, n) == Digits(v / 65536, n - 2) + PutU16(v)
  {
    assert v / 256 / 256 == v / 65536;
  }

  lemma PackedIsDigits(n: nat)
    ensures Packed(n) == Digits(n, 6)
  {
    hide Digits;
    TwoDigits(n, 6);
    TwoDigits(n / 65536, 4);
    TwoDigits(n / 65536 / 65536, 2);
    assert n / 65536 / 65536 == n / 0x1_0000_0000;
    NoDigits(n / 65536 / 65536 / 65536);
  }

  lemma NoDigits(n: nat)
    ensures Digits(n, 0) == []
  {
  }

  /** A device's AUTS is always accepted, and the AUTN of the fresh vectors conceals its
      sequence number plus 32, modulo 2^48. */
  lemma ResyncCarriesSqn(c: Crypto, ki: Block, op: Block, rand: Block, sqnMs: Sqn, freshRand: Block)
    ensures var r := Resynced(c, ki, op, rand, Auts(c, ki, op, rand, sqnMs), freshRand);
      && r.Some?
      && r.value.rand == freshRand
      && Value(Xor(r.value.autn[..6], r.value.ak)) == (Value(sqnMs) + 32) % 0x1_0000_0000_0000
  {
    hide Value;
    hide Digits;
    hide Pow256;
    hide Xor;
    hide OutN;
    hide Out1;
    AutsExact(c, ki, op, rand, Auts(c, ki, op, rand, sqnMs), sqnMs);
    var sqn: Sqn := Digits(Value(sqnMs) + SQN_STEP, 6);
    var v := Vectors(c, ki, op, freshRand, sqn, AMF);
    assert v.autn[..6] == Xor(sqn, v.ak);
    XorTwice(sqn, v.ak);
    ValueLowDigits(Value(sqnMs) + SQN_STEP, 6);
    SixBytes();
  }

  lemma SixBytes()
    ensures Pow256(6) == 0x1_0000_0000_0000
  {
    PowAdd(2, 2);
    PowAdd(4, 2);
    Two(0, 0);
  }

  /** Short of the end of the 48-bit range, AUTN conceals exactly SQN_MS + 32, in big-endian
      order. */
  lemma ResyncBelowWrap(c: Crypto, ki: Block, op: Block, rand: Block, sqnMs: Sqn, freshRand: Block)
    requires Value(sqnMs) < 0x1_0000_0000_0000 - 32
    ensures var r := Resynced(c, ki, op, rand, Auts(c, ki, op, rand, sqnMs), freshRand);
      && r.Some?
      && Xor(r.value.autn[..6], r.value.ak) == Packed(Unpacked(sqnMs) + 32)
      && Value(Xor(r.value.autn[..6], r.value.ak)) == Value(sqnMs) + 32
  {
    hide Value;
    hide Xor;
    hide Pow256;
    hide Resynced;
    hide Auts;
    hide Unpacked;
    hide Packed;
    hide Digits;
    ResyncCarriesSqn(c, ki, op, rand, sqnMs, freshRand);
    Unwrapped(Value(sqnMs) + 32);
    var r := Resynced(c, ki, op, rand, Auts(c, ki, op, rand, sqnMs), freshRand).value;
    UnpackedIsValue(sqnMs);
    PackedIsDigits(Value(sqnMs) + 32);
    DigitsValue(Xor(r.autn[..6], r.ak));
  }

  lemma Unwrapped(n: nat)
    requires n < 0x1_0000_0000_0000
    ensures n % 0x1_0000_0000_0000 == n
  {
  }

  /** The fresh vectors are those of the card at SQN_MS + 32 with the operator's AMF: it reads
      that number, accepts AUTN, and computes the same RES, CK and IK. */
  lemma ResyncForCard(c: Crypto, ki: Block, op: Block, rand: Block, sqnMs: Sqn, freshRand: Block)
    ensures var r := Resynced(c, ki, op, rand, Auts(c, ki, op, rand, sqnMs), freshRand);
      && r.Some?
      && var v, o, n := r.value, Value(op), Value(freshRand);
      && v.rand == freshRand && v.autn[6..8] == [0x80, 0]
      && CardSqn(c, ki, op, freshRand, v.autn) == (Value(sqnMs) + 32) % 0x1_0000_0000_0000
      && CardAccepts(c, ki, op, freshRand, v.autn)
      && |v.xres| == 8 && Value(v.xres) == CardRes(c, ki, o, n)
      && v.ck == Digits(CardCk(c, ki, o, n), 16) && v.ik == Digits(CardIk(c, ki, o, n), 16)
  {
    hide Value;
    hide Digits;
    hide Pow256;
    hide Vectors;
    hide Auts;
    hide Validated;
    hide CardSqn;
    hide CardAccepts;
    hide CardRes;
    hide CardCk;
    hide CardIk;
    AutsExact(c, ki, op, rand, Auts(c, ki, op, rand, sqnMs), sqnMs);
    var sqn: Sqn := Digits(Value(sqnMs) + SQN_STEP, 6);
    var v := Vectors(c, ki, op, freshRand, sqn, AMF);
    VectorsForCard(c, ki, op, freshRand, sqn, AMF);
    ValueLowDigits(Value(sqnMs) + 32, 6);
    SixBytes();
    DigitsValue(v.ck);
    DigitsValue(v.ik);
  }
}
