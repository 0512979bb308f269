/** Bitwise operations on numbers and byte strings. */
module Bits {
  import opened ByteStrings

  function Pow2(n: nat): (p: nat)
    ensures p > 0
  {
    if n == 0 then 1 else 2 * Pow2(n - 1)
  }

  /** Exclusive or of the lowest bits. */
  function XorBit(x: nat, y: nat): (r: nat)
    ensures r < 2
  {
    (x % 2 + y % 2) % 2
  }

  /** Exclusive or of the n low bits. */
  function XorBits(x: nat, y: nat, n: nat): (r: nat)
    ensures r < Pow2(n)
  {
    if n == 0 then 0 else XorBit(x, y) + 2 * XorBits(x / 2, y / 2, n - 1)
  }

  /** Inclusive or of the n low bits. */
  function OrBits(x: nat, y: nat, n: nat): (r: nat)
    ensures r < Pow2(n)
  {
    if n == 0 then 0
    else (if x % 2 == 1 || y % 2 == 1 then 1 else 0) + 2 * OrBits(x / 2, y / 2, n - 1)
  }

  /** Multiplication, under a name that proofs can keep closed. */
  function Mul(x: nat, y: nat): nat { x * y }

  lemma MulOne(x: nat)
    ensures Mul(x, 1) == x && Mul(1, x) == x
  {
  }

  lemma MulDouble(x: nat, y: nat)
    ensures Mul(x, 2 * y) == 2 * Mul(x, y) && Mul(2 * x, y) == 2 * Mul(x, y)
  {
    assert x * (2 * y) == 2 * (x * y) == (2 * x) * y;
  }

  /** Or of numbers with no bit in common is their sum. */
  lemma {:induction false} OrDisjoint(x: nat, y: nat, k: nat, n: nat)
    requires k <= n && x < Pow2(n - k) && y < Pow2(k)
    ensures OrBits(Mul(x, Pow2(k)), y, n) == Mul(x, Pow2(k)) + y
  {
    hide Mul;
    if k == 0 {
      MulOne(x);
      OrNothing(x, n);
    } else {
      var high := Mul(x, Pow2(k - 1));
      MulDouble(x, Pow2(k - 1));
      LowBit(0, high);
      OrDisjoint(x, y / 2, k - 1, n - 1);
    }
  }

  lemma {:induction false} OrNothing(x: nat, n: nat)
    requires x < Pow2(n)
    ensures OrBits(x, 0, n) == x
  {
    if n > 0 {
      LowBit(x % 2, x / 2);
      OrNothing(x / 2, n - 1);
    }
  }

  lemma {:induction false} MulPow(m: nat, n: nat)
    ensures Pow2(m + n) == Mul(Pow2(m), Pow2(n))
  {
    hide Mul;
    if m == 0 {
      MulOne(Pow2(n));
    } else {
      MulPow(m - 1, n);
      MulDouble(Pow2(m - 1), Pow2(n));
    }
  }

  lemma LowBit(low: nat, rest: nat)
    requires low < 2
    ensures (low + 2 * rest) % 2 == low && (low + 2 * rest) / 2 == rest
  {
  }

  lemma {:induction false} XorBitsTwice(x: nat, y: nat, n: nat)
    requires x < Pow2(n)
    ensures XorBits(XorBits(x, y, n), y, n) == x
  {
    hide XorBit;
    if n > 0 {
      var half, other := x / 2, y / 2;
      var low, rest := XorBit(x, y), XorBits(half, other, n - 1);
      XorBitsTwice(half, other, n - 1);
      XorStep(low, rest, y, n);
      BitTwice(x, y, rest);
    }
  }

  lemma XorStep(low: nat, rest: nat, y: nat, n: nat)
    requires low < 2 && n > 0
    ensures XorBits(low + 2 * rest, y, n) == XorBit(low + 2 * rest, y) + 2 * XorBits(rest, y / 2, n - 1)
  {
    LowBit(low, rest);
  }

  lemma BitTwice(x: nat, y: nat, rest: nat)
    ensures XorBit(XorBit(x, y) + 2 * rest, y) == x % 2
  {
    LowBit(XorBit(x, y), rest);
  }

  function XorByte(x: byte, y: byte): byte {
    assert Pow2(8) == 256;
    XorBits(x, y, 8)
  }

  function Xor(a: Bytes, b: Bytes): (r: Bytes)
    requires |a| <= |b|
    ensures |r| == |a| && forall i :: 0 <= i < |a| ==> r[i] == XorByte(a[i], b[i])
  {
    seq(|a|, i requires 0 <= i < |a| => XorByte(a[i], b[i]))
  }

  lemma XorTwice(a: Bytes, b: Bytes)
    requires |a| <= |b|
    ensures Xor(Xor(a, b), b) == a
  {
    var r := Xor(a, b);
    forall i | 0 <= i < |a| ensures Xor(r, b)[i] == a[i] {
      assert Pow2(8) == 256;
      XorBitsTwice(a[i], b[i], 8);
    }
  }

  method XorBuffers(a: Bytes, b: Bytes) returns (r: Bytes)
    requires |a| <= |b|
    ensures r == Xor(a, b)
  {
    var result := new byte[|a|](_ => 0);
    for i := 0 to |a|
      invariant forall k :: 0 <= k < i ==> result[k] == XorByte(a[k], b[k])
    {
      result[i] := XorByte(a[i], b[i]);
    }
    r := result[..];
  }

  lemma {:induction false} XorBitsNothing(x: nat, n: nat)
    requires x < Pow2(n)
    ensures XorBits(x, 0, n) == x
  {
    if n > 0 {
      XorBitsNothing(x / 2, n - 1);
    }
  }

  lemma XorNothing(a: Bytes, n: nat)
    requires |a| <= n
    ensures Xor(a, Zeros(n)) == a
  {
    var r := Xor(a, Zeros(n));
    forall i | 0 <= i < |a| ensures r[i] == a[i] {
      assert Pow2(8) == 256;
      XorBitsNothing(a[i], 8);
    }
  }
}
