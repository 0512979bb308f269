/** A subscriber's card: MILENAGE over 128-bit integers, written as section 4.1 of 3GPP TS
    35.206 writes it (OUT = E(rot(TEMP xor OPc, r) xor c) xor OPc), with this
    implementation's rotations and constants. The byte-level code agrees with it. */
module Card {
  import opened ByteStrings
  import opened BigEndian
  import opened Bits
  import opened Milenage
  import opened Primitives
  import opened Rotation

  // ---------------------------------------------------------------- the card

  function E(c: Crypto, ki: Block, x: nat): nat { Value(c.aesEncrypt(ki, Digits(x, 16))) }

  function X(x: nat, y: nat): nat { XorBits(x, y, 128) }

  function CardOpc(c: Crypto, ki: Block, op: nat): nat { X(E(c, ki, op), op) }

  function CardTemp(c: Crypto, ki: Block, op: nat, rand: nat): nat {
    E(c, ki, X(rand, CardOpc(c, ki, op)))
  }

  /** f2 to f5 and f5*: rotation r, constant k. */
  function CardOut(c: Crypto, ki: Block, op: nat, rand: nat, r: nat, k: nat): nat
    requires r <= 128
  {
    var opc := CardOpc(c, ki, op);
    X(E(c, ki, X(RotateNumber(X(CardTemp(c, ki, op, rand), opc), r, 128), k)), opc)
  }

  /** SQN || AMF || SQN || AMF */
  function CardIn1(sqn: nat, amf: nat): nat {
    sqn * 0x1_0000_0000_0000_0000_0000 + amf * 0x1_0000_0000_0000_0000 + sqn * 0x1_0000 + amf
  }

  /** f1 and f1*: rotation 64, constant k. */
  function CardOut1(c: Crypto, ki: Block, op: nat, rand: nat, sqn: nat, amf: nat, k: nat): nat {
    var opc := CardOpc(c, ki, op);
    X(E(c, ki, X(X(RotateNumber(X(CardIn1(sqn, amf), opc), 64, 128), CardTemp(c, ki, op, rand)), k)), opc)
  }

  /** The high and low parts of 128-bit outputs. */
  function Top48(x: nat): nat { x / 0x1_0000_0000_0000_0000_0000 }

  function Top64(x: nat): nat { x / 0x1_0000_0000_0000_0000 }

  function Low64(x: nat): nat { x % 0x1_0000_0000_0000_0000 }

  /** What the card computes for RAND, and what it checks AUTN against. */
  function CardRes(c: Crypto, ki: Block, op: nat, rand: nat): nat { Low64(CardOut(c, ki, op, rand, 0, 1)) }

  function CardAk(c: Crypto, ki: Block, op: nat, rand: nat): nat { Top48(CardOut(c, ki, op, rand, 0, 1)) }

  function CardCk(c: Crypto, ki: Block, op: nat, rand: nat): nat { CardOut(c, ki, op, rand, 32, 2) }

  function CardIk(c: Crypto, ki: Block, op: nat, rand: nat): nat { CardOut(c, ki, op, rand, 64, 4) }

  function CardMac(c: Crypto, ki: Block, op: nat, rand: nat, sqn: nat, amf: nat): nat {
    Top64(CardOut1(c, ki, op, rand, sqn, amf, 0))
  }

  /** Of a synchronization failure. */
  function CardAkStar(c: Crypto, ki: Block, op: nat, rand: nat): nat { Top48(CardOut(c, ki, op, rand, 0, 0x10)) }

  function CardMacStar(c: Crypto, ki: Block, op: nat, rand: nat, sqn: nat): nat {
    Top64(CardOut1(c, ki, op, rand, sqn, 0, 0x80))
  }

  /** The sequence number the card reads out of AUTN. */
  function CardSqn(c: Crypto, ki: Block, op: Block, rand: Block, autn: Block): nat {
    XorBits(Value(autn[..6]), CardAk(c, ki, Value(op), Value(rand)), 48)
  }

  /** The card accepts AUTN: its MAC-A is the card's own for that sequence number. */
  predicate CardAccepts(c: Crypto, ki: Block, op: Block, rand: Block, autn: Block) {
    Value(autn[8..16]) == CardMac(c, ki, Value(op), Value(rand), CardSqn(c, ki, op, rand, autn), Value(autn[6..8]))
  }

  // ---------------------------------------------------------------- xor of numbers

  lemma {:induction false} XorShift(x: nat, y: nat, a: nat, b: nat, k: nat, n: nat)
    requires a < Pow2(k) && b < Pow2(k)
    ensures XorBits(Mul(x, Pow2(k)) + a, Mul(y, Pow2(k)) + b, n + k)
      == Mul(XorBits(x, y, n), Pow2(k)) + XorBits(a, b, k)
  {
    hide Mul;
    hide XorBit;
    MulOne(x);
    MulOne(y);
    MulOne(XorBits(x, y, n));
    if k > 0 {
      var p := Pow2(k - 1);
      MulDouble(x, p);
      MulDouble(y, p);
      MulDouble(XorBits(x, y, n), p);
      XorShift(x, y, a / 2, b / 2, k - 1, n);
      HalfSum(Mul(x, p), a);
      HalfSum(Mul(y, p), b);
      XorBitLow(Mul(x, p), a, Mul(y, p), b);
      assert n + k - 1 == n + (k - 1);
    }
  }

  lemma HalfSum(x: nat, a: nat)
    ensures (2 * x + a) / 2 == x + a / 2
  {
  }

  lemma XorBitLow(x: nat, a: nat, y: nat, b: nat)
    ensures XorBit(2 * x + a, 2 * y + b) == XorBit(a, b)
  {
  }

  lemma ByteSize()
    ensures Pow2(8) == 256
  {
  }

  /** The value of an exclusive or of byte strings. */
  lemma {:induction false} XorValue(a: Bytes, b: Bytes)
    requires |a| == |b|
    ensures Value(Xor(a, b)) == XorBits(Value(a), Value(b), 8 * |a|)
  {
    hide Xor;
    hide Value;
    hide Pow2;
    hide Pow256;
    hide XorBits;
    hide XorByte;
    hide Mul;
    if a == [] {
      NoBits(a, b);
    } else {
      var n := |a| - 1;
      var x, y, p, q := a[..n], b[..n], a[n], b[n];
      LastOf(a);
      LastOf(b);
      XorLast(x, y, p, q);
      XorValue(x, y);
      LastByte(x, p);
      LastByte(y, q);
      LastByte(Xor(x, y), XorByte(p, q));
      ByteSize();
      XorShift(Value(x), Value(y), p, q, 8, 8 * n);
      assert 8 * n + 8 == 8 * |a|;
    }
  }

  lemma LastOf(a: Bytes)
    requires a != []
    ensures a == a[..|a| - 1] + [a[|a| - 1]]
  {
  }

  lemma NoBits(a: Bytes, b: Bytes)
    requires a == [] && b == []
    ensures Value(Xor(a, b)) == XorBits(Value(a), Value(b), 0)
  {
  }

  lemma XorLast(x: Bytes, y: Bytes, p: byte, q: byte)
    requires |x| == |y|
    ensures Xor(x + [p], y + [q]) == Xor(x, y) + [XorByte(p, q)]
    ensures XorByte(p, q) == XorBits(p, q, 8)
  {
    hide XorByte;
    var all := Xor(x + [p], y + [q]);
    forall i | 0 <= i < |all| ensures all[i] == (Xor(x, y) + [XorByte(p, q)])[i] {
      assert (x + [p])[i] == if i < |x| then x[i] else p;
      assert (y + [q])[i] == if i < |y| then y[i] else q;
    }
    ByteXor(p, q);
  }

  lemma ByteXor(p: byte, q: byte)
    ensures XorByte(p, q) == XorBits(p, q, 8)
  {
  }

  lemma LastByte(x: Bytes, p: byte)
    ensures Value(x + [p]) == Mul(Value(x), Pow2(8)) + p
  {
    ValueAppend(x, [p]);
    One(p);
    ByteSize();
  }

  // ---------------------------------------------------------------- agreement

  lemma BlockXor(a: Block, b: Block)
    ensures Value(XorBlocks(a, b)) == X(Value(a), Value(b))
  {
    hide Xor;
    hide Value;
    XorValue(a, b);
  }

  lemma Enciphered(c: Crypto, ki: Block, a: Block)
    ensures Value(c.aesEncrypt(ki, a)) == E(c, ki, Value(a))
  {
    DigitsValue(a);
  }

  lemma ConstantValue(last: byte)
    ensures Value(Constant(last)) == last
  {
    hide Pow256;
    ValueAppend(Zeros(15), [last]);
    One(last);
    ZerosValue(15);
  }

  lemma {:induction false} ZerosValue(n: nat)
    ensures Value(Zeros(n)) == 0
  {
    if n > 0 {
      ZerosValue(n - 1);
      assert Zeros(n)[1..] == Zeros(n - 1);
    }
  }

  lemma OpcAgrees(c: Crypto, ki: Block, op: Block)
    ensures Value(Opc(c, ki, op)) == CardOpc(c, ki, Value(op))
  {
    hide XorBlocks;
    hide E;
    hide X;
    Enciphered(c, ki, op);
    BlockXor(c.aesEncrypt(ki, op), op);
  }

  lemma TempAgrees(c: Crypto, ki: Block, op: Block, rand: Block)
    ensures Value(Temp(c, ki, op, rand)) == CardTemp(c, ki, Value(op), Value(rand))
  {
    hide XorBlocks;
    hide E;
    hide X;
    hide Opc;
    hide CardOpc;
    var mixed := XorBlocks(rand, Opc(c, ki, op));
    OpcAgrees(c, ki, op);
    BlockXor(rand, Opc(c, ki, op));
    Enciphered(c, ki, mixed);
  }

  lemma Turned(b: Block, r: nat)
    requires r < 128
    ensures Value(Rotated(b, r)) == RotateNumber(Value(b), r, 128)
  {
    hide RotateNumber;
    hide Value;
    hide Rotated;
    assert r % 128 == r;
    RotateRefines(b, r);
  }

  lemma OutAgrees(c: Crypto, ki: Block, op: Block, rand: Block, r: nat, last: byte)
    requires r < 128
    ensures Value(OutN(c, ki, op, rand, r, last)) == CardOut(c, ki, Value(op), Value(rand), r, last)
  {
    hide XorBlocks;
    hide E;
    hide X;
    hide Opc;
    hide Temp;
    hide CardOpc;
    hide CardTemp;
    hide RotateNumber;
    hide Rotated;
    hide Value;
    var opc, temp := Opc(c, ki, op), Temp(c, ki, op, rand);
    var base := XorBlocks(temp, opc);
    var mixed := XorBlocks(Rotated(base, r), Constant(last));
    OpcAgrees(c, ki, op);
    TempAgrees(c, ki, op, rand);
    BlockXor(temp, opc);
    Turned(base, r);
    ConstantValue(last);
    BlockXor(Rotated(base, r), Constant(last));
    Enciphered(c, ki, mixed);
    BlockXor(c.aesEncrypt(ki, mixed), opc);
  }

  lemma Powers()
    ensures Pow256(2) == 0x1_0000 && Pow256(8) == 0x1_0000_0000_0000_0000
    ensures Pow256(10) == 0x1_0000_0000_0000_0000_0000
  {
    PowAdd(2, 2);
    PowAdd(4, 4);
    PowAdd(8, 2);
    assert Pow256(2) == 256 * Pow256(1) && Pow256(1) == 256 * Pow256(0);
  }

  lemma In1Agrees(sqn: Sqn, amf: Bytes)
    requires |amf| == 2
    ensures Value(In1(sqn, amf)) == CardIn1(Value(sqn), Value(amf))
  {
    hide Value;
    hide Pow256;
    Powers();
    ValueAppend(sqn, amf + (sqn + amf));
    ValueAppend(amf, sqn + amf);
    ValueAppend(sqn, amf);
    assert In1(sqn, amf) == sqn + (amf + (sqn + amf));
  }

  lemma Out1Agrees(c: Crypto, ki: Block, op: Block, rand: Block, sqn: Sqn, amf: Bytes, last: byte)
    requires |amf| == 2
    ensures Value(Out1(c, ki, op, rand, sqn, amf, last))
      == CardOut1(c, ki, Value(op), Value(rand), Value(sqn), Value(amf), last)
  {
    hide XorBlocks;
    hide E;
    hide X;
    hide Opc;
    hide Temp;
    hide CardOpc;
    hide CardTemp;
    hide CardIn1;
    hide RotateNumber;
    hide Rotated;
    hide Value;
    hide In1;
    var opc, temp, in1 := Opc(c, ki, op), Temp(c, ki, op, rand), In1(sqn, amf);
    var base := XorBlocks(in1, opc);
    var turned := XorBlocks(Rotated(base, 64), temp);
    var mixed := XorBlocks(turned, Constant(last));
    OpcAgrees(c, ki, op);
    TempAgrees(c, ki, op, rand);
    In1Agrees(sqn, amf);
    BlockXor(in1, opc);
    Turned(base, 64);
    ConstantValue(last);
    BlockXor(Rotated(base, 64), temp);
    BlockXor(turned, Constant(last));
    Enciphered(c, ki, mixed);
    BlockXor(c.aesEncrypt(ki, mixed), opc);
  }

  /** The parts of a block as a number. */
  lemma Parts(b: Block)
    ensures Value(b[..6]) == Top48(Value(b)) && Value(b[..8]) == Top64(Value(b))
    ensures Value(b[8..16]) == Low64(Value(b))
  {
    hide Value;
    hide Pow256;
    Powers();
    assert b == b[..6] + b[6..] && b == b[..8] + b[8..] && b[8..16] == b[8..];
    ValueAppend(b[..6], b[6..]);
    ValueAppend(b[..8], b[8..]);
    ValueBound(b[6..]);
    ValueBound(b[8..]);
    DivModUnique(Value(b), Value(b[..6]), Value(b[6..]), 0x1_0000_0000_0000_0000_0000);
    DivModUnique(Value(b), Value(b[..8]), Value(b[8..]), 0x1_0000_0000_0000_0000);
  }

  // ---------------------------------------------------------------- vectors and AUTS

  /** The generated vectors are the card's: for every key, OP, RAND, SQN and AMF the card reads
      the sequence number out of AUTN, accepts it, and computes the same RES, CK and IK. */
  lemma VectorsForCard(c: Crypto, ki: Block, op: Block, rand: Block, sqn: Sqn, amf: Bytes)
    requires |amf| == 2
    ensures var v, o, r := Vectors(c, ki, op, rand, sqn, amf), Value(op), Value(rand);
      && v.rand == rand && v.autn[6..8] == amf
      && CardSqn(c, ki, op, rand, v.autn) == Value(sqn)
      && CardAccepts(c, ki, op, rand, v.autn)
      && |v.xres| == 8 && Value(v.xres) == CardRes(c, ki, o, r)
      && Value(v.ck) == CardCk(c, ki, o, r)
      && Value(v.ik) == CardIk(c, ki, o, r)
      && Value(v.ak) == CardAk(c, ki, o, r)
  {
    hide OutN;
    hide Out1;
    hide CardOut;
    hide CardOut1;
    hide Value;
    hide Xor;
    hide Top48;
    hide Top64;
    hide Low64;
    var v := Vectors(c, ki, op, rand, sqn, amf);
    var out1, out2 := Out1(c, ki, op, rand, sqn, amf, 0), OutN(c, ki, op, rand, 0, 1);
    OutAgrees(c, ki, op, rand, 0, 1);
    OutAgrees(c, ki, op, rand, 32, 2);
    OutAgrees(c, ki, op, rand, 64, 4);
    Out1Agrees(c, ki, op, rand, sqn, amf, 0);
    Parts(out1);
    Parts(out2);
    assert v.autn[..6] == Xor(sqn, v.ak) && v.autn[6..8] == amf && v.autn[8..16] == out1[..8];
    XorValue(v.autn[..6], v.ak);
    XorTwice(sqn, v.ak);
  }

  /** What a device sends is the card's own: SQN under AK*, then MAC-S. */
  lemma AutsFromCard(c: Crypto, ki: Block, op: Block, rand: Block, s: Sqn)
    ensures var auts, o, r := Auts(c, ki, op, rand, s), Value(op), Value(rand);
      && Value(auts[..6]) == XorBits(Value(s), CardAkStar(c, ki, o, r), 48)
      && Value(auts[6..14]) == CardMacStar(c, ki, o, r, Value(s))
  {
    hide OutN;
    hide Out1;
    hide CardOut;
    hide CardOut1;
    hide Value;
    hide Xor;
    hide Top48;
    hide Top64;
    hide Low64;
    var auts, ak := Auts(c, ki, op, rand, s), F5Star(c, ki, op, rand);
    var out1, out5 := Out1(c, ki, op, rand, s, Zeros(2), 128), OutN(c, ki, op, rand, 0, 16);
    OutAgrees(c, ki, op, rand, 0, 16);
    Out1Agrees(c, ki, op, rand, s, Zeros(2), 128);
    ZerosValue(2);
    Parts(out1);
    Parts(out5);
    assert auts[..6] == Xor(s, ak) && auts[6..14] == out1[..8];
    XorValue(s, ak);
  }

  /** Section 4.1 of TS 35.206 computes AK* from OUT5, with rotation 96 and constant 8. This
      implementation's is another function: under the cipher that changes nothing, and with a
      zero OP, they differ at this RAND. */
  lemma AkStarIsNotTheStandards(c: Crypto, ki: Block)
    requires forall key: Bytes, block: Block :: c.aesEncrypt(key, block) == block
    ensures var op, rand: Block := Zeros(16), Zeros(12) + [1, 0, 0, 0];
      F5Star(c, ki, op, rand) != OutN(c, ki, op, rand, 96, 8)[..6]
  {
    hide Opc;
    hide Temp;
    hide OutN;
    var rand: Block := Zeros(12) + [1, 0, 0, 0];
    PlainStart(c, ki, rand);
    PlainOut(c, ki, rand, 0, 16, 0);
    PlainOut(c, ki, rand, 96, 8, 12);
    var ours, theirs := F5Star(c, ki, Zeros(16), rand), OutN(c, ki, Zeros(16), rand, 96, 8)[..6];
    assert ours[0] == 0 && theirs[0] == 1;
  }

  lemma PlainStart(c: Crypto, ki: Block, rand: Block)
    requires forall key: Bytes, block: Block :: c.aesEncrypt(key, block) == block
    ensures Opc(c, ki, Zeros(16)) == Zeros(16) && Temp(c, ki, Zeros(16), rand) == rand
  {
    hide Xor;
    XorNothing(Zeros(16), 16);
    XorNothing(rand, 16);
  }

  /** Under that cipher an output is the turned RAND with the constant in its last byte. */
  lemma PlainOut(c: Crypto, ki: Block, rand: Block, r: nat, last: byte, shift: nat)
    requires forall key: Bytes, block: Block :: c.aesEncrypt(key, block) == block
    requires Opc(c, ki, Zeros(16)) == Zeros(16) && Temp(c, ki, Zeros(16), rand) == rand
    requires r == 8 * shift && shift < 16
    ensures OutN(c, ki, Zeros(16), rand, r, last)[0] == rand[shift]
  {
    hide Opc;
    hide Temp;
    XorNothing(rand, 16);
    var turned := Rotated(rand, r);
    assert r / 8 % 16 == shift && r % 8 == 0;
    assert turned[0] == Around(rand, shift) == rand[shift];
    var mixed := XorBlocks(turned, Constant(last));
    XorNothing(mixed, 16);
    FirstByte(turned, last);
  }

  lemma FirstByte(turned: Block, last: byte)
    ensures XorBlocks(turned, Constant(last))[0] == turned[0]
  {
    assert Pow2(8) == 256;
    XorBitsNothing(turned[0], 8);
  }
}
