/** MILENAGE vectors and AUTS (section 4.1 of 3GPP TS 35.206, section 6.3.3 of 3GPP TS
    33.102) over an uninterpreted AES. */
module Milenage {
  import opened ByteStrings
  import opened Bits
  import opened Primitives
  import opened Rotation

  type Sqn = s: Bytes | |s| == 6 witness Zeros(6)

  /** c1, c2, c3, c4, c1* and c5*: fifteen zero bytes and one more. */
  function Constant(last: byte): Block { Zeros(15) + [last] }

  function XorBlocks(a: Block, b: Block): Block { Xor(a, b) }

  /** OPc = AES_K(OP) xor OP. */
  function Opc(c: Crypto, ki: Block, op: Block): Block {
    XorBlocks(c.aesEncrypt(ki, op), op)
  }

  function Temp(c: Crypto, ki: Block, op: Block, rand: Block): Block {
    c.aesEncrypt(ki, XorBlocks(rand, Opc(c, ki, op)))
  }

  /** SQN || AMF || SQN || AMF */
  function In1(sqn: Sqn, amf: Bytes): Block
    requires |amf| == 2
  {
    sqn + amf + sqn + amf
  }

  /** OUT1 of f1 and f1*, which differ in the constant. */
  function Out1(c: Crypto, ki: Block, op: Block, rand: Block, sqn: Sqn, amf: Bytes, last: byte): Block
    requires |amf| == 2
  {
    var opc := Opc(c, ki, op);
    var mixed := XorBlocks(Rotated(XorBlocks(In1(sqn, amf), opc), 64), Temp(c, ki, op, rand));
    XorBlocks(c.aesEncrypt(ki, XorBlocks(mixed, Constant(last))), opc)
  }

  /** OUT2..OUT5 of f2 to f5 and f5*, which differ in the rotation and the constant. */
  function OutN(c: Crypto, ki: Block, op: Block, rand: Block, r: nat, last: byte): Block {
    var opc := Opc(c, ki, op);
    XorBlocks(c.aesEncrypt(ki, XorBlocks(Rotated(XorBlocks(Temp(c, ki, op, rand), opc), r), Constant(last))), opc)
  }

  datatype AuthVectors = AuthVectors(rand: Block, autn: Block, xres: Bytes, ck: Block, ik: Block, ak: Sqn)

  function Ak(c: Crypto, ki: Block, op: Block, rand: Block): Sqn { OutN(c, ki, op, rand, 0, 1)[..6] }

  /** AUTN = (SQN xor AK) || AMF || MAC-A */
  function Vectors(c: Crypto, ki: Block, op: Block, rand: Block, sqn: Sqn, amf: Bytes): AuthVectors
    requires |amf| == 2
  {
    var ak := Ak(c, ki, op, rand);
    AuthVectors(
      rand,
      Xor(sqn, ak) + amf + Out1(c, ki, op, rand, sqn, amf, 0)[..8],
      OutN(c, ki, op, rand, 0, 1)[8..16],
      OutN(c, ki, op, rand, 32, 2),
      OutN(c, ki, op, rand, 64, 4),
      ak)
  }

  function F5Star(c: Crypto, ki: Block, op: Block, rand: Block): Sqn { OutN(c, ki, op, rand, 0, 16)[..6] }

  function F1Star(c: Crypto, ki: Block, op: Block, rand: Block, sqn: Sqn, amf: Bytes): (macS: Bytes)
    requires |amf| == 2
    ensures |macS| == 8
  {
    Out1(c, ki, op, rand, sqn, amf, 128)[..8]
  }

  /** What a device with sequence number s sends. */
  function Auts(c: Crypto, ki: Block, op: Block, rand: Block, s: Sqn): (auts: Bytes)
    ensures |auts| == 14
  {
    Xor(s, F5Star(c, ki, op, rand)) + F1Star(c, ki, op, rand, s, Zeros(2))
  }

  // ---------------------------------------------------------------- the operations

  method OutBlock(c: Crypto, ki: Block, opc: Block, mixed: Block, last: byte) returns (out: Block)
    ensures out == XorBlocks(c.aesEncrypt(ki, XorBlocks(mixed, Constant(last))), opc)
  {
    var input := XorBuffers(mixed, Constant(last));
    var enc := c.aesEncrypt(ki, input);
    out := XorBuffers(enc, opc);
  }

  method Start(c: Crypto, ki: Block, op: Block, rand: Block) returns (opc: Block, temp: Block)
    ensures opc == Opc(c, ki, op) && temp == Temp(c, ki, op, rand)
  {
    opc := XorBuffers(c.aesEncrypt(ki, op), op);
    var input := XorBuffers(rand, opc);
    temp := c.aesEncrypt(ki, input);
  }

  method BuildIn1(sqn: Sqn, amf: Bytes) returns (in1: Block)
    requires |amf| == 2
    ensures in1 == In1(sqn, amf)
  {
    var buf := new byte[16](_ => 0);
    CopyInto(buf, 0, sqn);
    CopyInto(buf, 6, amf);
    CopyInto(buf, 8, sqn);
    CopyInto(buf, 14, amf);
    assert buf[..] == sqn + amf + sqn + amf;
    in1 := buf[..];
  }

  method GenerateVectorsWithRand(c: Crypto, ki: Bytes, op: Bytes, rand: Block, sqn: Bytes, amf: Bytes)
    returns (r: Outcome<AuthVectors>)
    ensures r == if |ki| != 16 || |op| != 16 then Err
      else if |sqn| < 6 || |amf| < 2 then Panic
      else Ok(Vectors(c, ki, op, rand, sqn[..6], amf[..2]))
  {
    if |ki| != 16 || |op| != 16 { return Err; }
    if |sqn| < 6 || |amf| < 2 { return Panic; }
    var opc, temp := Start(c, ki, op, rand);
    var in1 := BuildIn1(sqn[..6], amf[..2]);
    var f1 := XorBuffers(in1, opc);
    f1 := Rotate(f1, 64);
    f1 := XorBuffers(f1, temp);
    var out1 := OutBlock(c, ki, opc, f1, 0);
    var base := XorBuffers(temp, opc);
    var f2 := Rotate(base, 0);
    var out2 := OutBlock(c, ki, opc, f2, 1);
    var f3 := Rotate(base, 32);
    var out3 := OutBlock(c, ki, opc, f3, 2);
    var f4 := Rotate(base, 64);
    var out4 := OutBlock(c, ki, opc, f4, 4);
    var autn := BuildAutn(sqn[..6], amf[..2], out2[..6], out1[..8]);
    r := Ok(AuthVectors(rand, autn, out2[8..16], out3, out4, out2[..6]));
  }

  method BuildAutn(sqn: Sqn, amf: Bytes, ak: Sqn, macA: Bytes) returns (autn: Block)
    requires |amf| == 2 && |macA| == 8
    ensures autn == Xor(sqn, ak) + amf + macA
  {
    var hidden := XorBuffers(sqn, ak);
    var buf := new byte[16](_ => 0);
    CopyInto(buf, 0, hidden);
    CopyInto(buf, 6, amf);
    CopyInto(buf, 8, macA);
    assert buf[..] == hidden + amf + macA;
    autn := buf[..];
  }

  /** Under sound keys the AUTS; a sequence number of another length is cut or overrun. */
  method GenerateAuts(c: Crypto, ki: Bytes, op: Bytes, rand: Block, sqnMs: Bytes) returns (r: Outcome<Bytes>)
    ensures r == if |ki| != 16 || |op| != 16 then Err
      else if |sqnMs| != 6 then Panic
      else Ok(Auts(c, ki, op, rand, sqnMs))
  {
    hide F5Star;
    hide F1Star;
    var akStar := ComputeF5Star(c, ki, op, rand);
    if !akStar.Ok? { return Err; }
    if |sqnMs| > 6 { return Panic; }
    var concealed := XorBuffers(sqnMs, akStar.value);
    var macS := ComputeF1Star(c, ki, op, rand, sqnMs, Zeros(2));
    if |sqnMs| < 6 { return Panic; }
    assert sqnMs[..6] == sqnMs && Zeros(2)[..2] == Zeros(2);
    var auts := new byte[14](_ => 0);
    CopyInto(auts, 0, concealed);
    CopyInto(auts, 6, macS.value);
    assert auts[..] == concealed + macS.value;
    r := Ok(auts[..]);
  }

  method ComputeF5Star(c: Crypto, ki: Bytes, op: Bytes, rand: Block) returns (r: Outcome<Sqn>)
    ensures r == if |ki| == 16 && |op| == 16 then Ok(F5Star(c, ki, op, rand)) else Err
  {
    if |ki| != 16 || |op| != 16 { return Err; }
    var opc, temp := Start(c, ki, op, rand);
    var base := XorBuffers(temp, opc);
    var rotated := Rotate(base, 0);
    var out := OutBlock(c, ki, opc, rotated, 16);
    r := Ok(out[..6]);
  }

  method ComputeF1Star(c: Crypto, ki: Bytes, op: Bytes, rand: Block, sqn: Bytes, amf: Bytes) returns (r: Outcome<Bytes>)
    ensures r == if |ki| != 16 || |op| != 16 then Err
      else if |sqn| < 6 || |amf| < 2 then Panic
      else Ok(F1Star(c, ki, op, rand, sqn[..6], amf[..2]))
  {
    if |ki| != 16 || |op| != 16 { return Err; }
    if |sqn| < 6 || |amf| < 2 { return Panic; }
    var opc, temp := Start(c, ki, op, rand);
    var in1 := BuildIn1(sqn[..6], amf[..2]);
    var f1 := XorBuffers(in1, opc);
    f1 := Rotate(f1, 64);
    f1 := XorBuffers(f1, temp);
    var out := OutBlock(c, ki, opc, f1, 128);
    r := Ok(out[..8]);
  }

  /** None when the AUTS is refused, otherwise the device's sequence number. */
  function Validated(c: Crypto, ki: Block, op: Block, rand: Block, auts: Bytes): Option<Sqn> {
    if |auts| != 14 then None
    else
      var sqn: Sqn := Xor(auts[..6], F5Star(c, ki, op, rand));
      if auts[6..14] == F1Star(c, ki, op, rand, sqn, Zeros(2)) then Some(sqn) else None
  }

  method ValidateAuts(c: Crypto, ki: Bytes, op: Bytes, rand: Block, auts: Bytes) returns (r: Outcome<Option<Sqn>>)
    ensures r == if |auts| != 14 then Ok(None)
      else if |ki| == 16 && |op| == 16 then Ok(Validated(c, ki, op, rand, auts)) else Err
  {
    hide F5Star;
    hide F1Star;
    hide Xor;
    if |auts| != 14 { return Ok(None); }
    var concealed, received := auts[..6], auts[6..14];
    var akStar := ComputeF5Star(c, ki, op, rand);
    if !akStar.Ok? { return Err; }
    var sqnMs := XorBuffers(concealed, akStar.value);
    var expected := ComputeF1Star(c, ki, op, rand, sqnMs, Zeros(2));
    if !expected.Ok? { return Err; }
    assert sqnMs[..6] == sqnMs && Zeros(2)[..2] == Zeros(2);
    if received != expected.value { return Ok(None); }
    r := Ok(Some(sqnMs));
  }

  // ---------------------------------------------------------------- AUTS is exact

  /** An AUTS is accepted with sequence number s just when it is the AUTS for s. */
  lemma AutsExact(c: Crypto, ki: Block, op: Block, rand: Block, auts: Bytes, s: Sqn)
    ensures Validated(c, ki, op, rand, auts) == Some(s) <==> auts == Auts(c, ki, op, rand, s)
  {
    hide OutN;
    hide Out1;
    hide Xor;
    var ak := F5Star(c, ki, op, rand);
    XorTwice(s, ak);
    if |auts| == 14 {
      XorTwice(auts[..6], ak);
      assert auts == auts[..6] + auts[6..14];
      assert Auts(c, ki, op, rand, s)[..6] == Xor(s, ak);
      assert Auts(c, ki, op, rand, s)[6..14] == F1Star(c, ki, op, rand, s, Zeros(2));
    }
  }

  lemma AutsInjective(c: Crypto, ki: Block, op: Block, rand: Block, s: Sqn, t: Sqn)
    requires Auts(c, ki, op, rand, s) == Auts(c, ki, op, rand, t)
    ensures s == t
  {
    AutsExact(c, ki, op, rand, Auts(c, ki, op, rand, s), s);
    AutsExact(c, ki, op, rand, Auts(c, ki, op, rand, s), t);
  }
}
