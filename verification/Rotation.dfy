/** Circular rotation of a 128-bit value held in 16 bytes (the rot function of section 4.1
    of 3GPP TS 35.206). */
module Rotation {
  import opened ByteStrings
  import opened BigEndian
  import opened Bits

  // ---------------------------------------------------------------- on numbers

  function High(v: nat, p: nat): nat
    requires p > 0
  {
    v / p
  }

  function Low(v: nat, p: nat): nat
    requires p > 0
  {
    v % p
  }

  /** Left rotation by k of a number of w bits. */
  function RotateNumber(v: nat, k: nat, w: nat): nat
    requires k <= w
  {
    Mul(Low(v, Pow2(w - k)), Pow2(k)) + High(v, Pow2(w - k))
  }

  lemma Digit(high: nat, low: nat, p: nat, bound: nat)
    requires low < p && high < bound
    ensures Mul(high, p) + low < Mul(bound, p)
  {
    AtMost(high + 1, bound, p);
    assert (high + 1) * p == high * p + p;
  }

  lemma Decompose(v: nat, p: nat, bound: nat) returns (high: nat, low: nat)
    requires p > 0 && v < Mul(bound, p)
    ensures v == Mul(high, p) + low && low < p && high < bound
  {
    high, low := v / p, v % p;
    if bound <= high {
      AtMost(bound, high, p);
      assert false;
    }
  }

  /** What rotation does to a number given as a high part of k bits and a low part. */
  lemma RotateParts(high: nat, low: nat, k: nat, w: nat)
    requires k <= w && low < Pow2(w - k)
    ensures RotateNumber(Mul(high, Pow2(w - k)) + low, k, w) == Mul(low, Pow2(k)) + high
  {
    hide Pow2;
    DivModUnique(high * Pow2(w - k) + low, high, low, Pow2(w - k));
  }

  lemma Regroup(h1: nat, h2: nat, lo: nat, p: nat, q: nat, s: nat)
    ensures Mul(h1, Mul(q, s)) + (Mul(h2, s) + lo) == Mul(Mul(h1, q) + h2, s) + lo
    ensures Mul(Mul(h2, s) + lo, p) + h1 == Mul(h2, Mul(p, s)) + (Mul(lo, p) + h1)
    ensures Mul(Mul(lo, p) + h1, q) + h2 == Mul(lo, Mul(p, q)) + (Mul(h1, q) + h2)
    ensures Mul(s, p) == Mul(p, s)
  {
    assert h1 * (q * s) == (h1 * q) * s && (h1 * q + h2) * s == (h1 * q) * s + h2 * s;
    assert h2 * (p * s) == (h2 * s) * p && (h2 * s + lo) * p == (h2 * s) * p + lo * p;
    assert lo * (p * q) == (lo * p) * q && (lo * p + h1) * q == (lo * p) * q + h1 * q;
  }

  /** Rotating by a and then by b is rotating by a + b. */
  lemma RotateCompose(v: nat, a: nat, b: nat, w: nat)
    requires a + b <= w && v < Pow2(w)
    ensures RotateNumber(RotateNumber(v, a, w), b, w) == RotateNumber(v, a + b, w)
  {
    hide Pow2;
    hide Mul;
    hide RotateNumber;
    var p, q, s := Pow2(a), Pow2(b), Pow2(w - a - b);
    MulPow(b, w - a - b);
    MulPow(a, w - a - b);
    MulPow(a, b);
    MulPow(a, w - a);
    var h1, low := Decompose(v, Mul(q, s), p);
    var h2, lo := Decompose(low, s, q);
    Regroup(h1, h2, lo, p, q, s);
    RotateParts(h1, low, a, w);
    Digit(lo, h1, p, s);
    RotateParts(h2, Mul(lo, p) + h1, b, w);
    RotateParts(Mul(h1, q) + h2, lo, a + b, w);
  }

  lemma RotateWhole(v: nat, w: nat)
    requires v < Pow2(w)
    ensures RotateNumber(v, w, w) == v
  {
    assert Pow2(0) == 1;
  }

  lemma RotateBound(v: nat, k: nat, w: nat)
    requires k <= w && v < Pow2(w)
    ensures RotateNumber(v, k, w) < Pow2(w)
  {
    hide Pow2;
    hide Mul;
    hide RotateNumber;
    MulPow(k, w - k);
    MulPow(w - k, k);
    var high, low := Decompose(v, Pow2(w - k), Pow2(k));
    RotateParts(high, low, k, w);
    Digit(low, high, Pow2(k), Pow2(w - k));
  }

  /** Rotation amounts add, modulo the width. */
  lemma RotateSum(v: nat, a: nat, b: nat, w: nat)
    requires a < w && b < w && v < Pow2(w)
    ensures RotateNumber(RotateNumber(v, a, w), b, w) == RotateNumber(v, (a + b) % w, w)
  {
    hide Pow2;
    hide RotateNumber;
    if a + b < w {
      DivModUnique(a + b, 0, a + b, w);
      RotateCompose(v, a, b, w);
    } else {
      DivModUnique(a + b, 1, a + b - w, w);
      var x := RotateNumber(v, a, w);
      RotateBound(v, a, w);
      RotateCompose(x, w - a, a + b - w, w);
      RotateCompose(v, a, w - a, w);
      RotateWhole(v, w);
    }
  }

  // ---------------------------------------------------------------- on bytes

  /** (b << s | next >> (8 - s)) & 0xff, b << s keeping eight bits. */
  function ShiftedIn(b: byte, next: byte, s: nat): byte
    requires 0 < s < 8
  {
    Low(OrBits(Low(Mul(b, Pow2(s)), 256), High(next, Pow2(8 - s)), 8), 256)
  }

  /** The byte at i, counting round the 16 bytes. */
  function Around(b: Block, i: nat): byte { b[i % 16] }

  /** Byte i after turning by n bytes and s bits: byte i + n of the source and, unless s is
      0, the top bits of the byte after it. */
  function TurnedByte(b: Block, n: nat, s: nat, i: nat): byte
    requires s < 8
  {
    if s == 0 then Around(b, i + n) else ShiftedIn(Around(b, i + n), Around(b, i + n + 1), s)
  }

  function TurnedBy(b: Block, n: nat, s: nat): Block
    requires s < 8
  {
    var r: Bytes := seq(16, i requires 0 <= i < 16 => TurnedByte(b, n, s, i));
    r
  }

  function Rotated(b: Block, bits: nat): Block {
    TurnedBy(b, bits / 8 % 16, bits % 8)
  }

  method Rotate(b: Block, bits: nat) returns (r: Block)
    ensures r == Rotated(b, bits)
  {
    var byteShift, bitShift := bits / 8 % 16, bits % 8;
    var result := new byte[16](_ => 0);
    for i := 0 to 16
      invariant forall k :: 0 <= k < i ==> result[k] == TurnedByte(b, byteShift, bitShift, k)
    {
      var srcIdx, nextIdx := (i + byteShift) % 16, (i + byteShift + 1) % 16;
      if bitShift == 0 {
        result[i] := b[srcIdx];
      } else {
        result[i] := ShiftedIn(b[srcIdx], b[nextIdx], bitShift);
      }
    }
    r := result[..];
  }

  lemma {:induction false} PowBytes(n: nat)
    ensures Pow256(n) == Pow2(8 * n)
  {
    if n > 0 {
      PowBytes(n - 1);
      MulPow(8, 8 * n - 8);
      assert Pow2(8) == 256;
    }
  }

  /** Rotating whole bytes rotates the value by eight bits each. */
  lemma ByteRotation(x: Bytes, y: Bytes, w: nat)
    requires w == 8 * |x + y|
    ensures Value(y + x) == RotateNumber(Value(x + y), 8 * |x|, w)
  {
    hide Pow2;
    hide Pow256;
    hide Value;
    hide RotateNumber;
    ValueAppend(x, y);
    ValueAppend(y, x);
    ValueBound(y);
    PowBytes(|x|);
    PowBytes(|y|);
    assert w - 8 * |x| == 8 * |y|;
    RotateParts(Value(x), Value(y), 8 * |x|, w);
  }

  // ---------------------------------------------------------------- bit shifts

  /** The bits pushed out of a byte and the byte left behind are its value times 2^s plus
      the bits taken in. */
  lemma ShiftedInValue(b: byte, next: byte, s: nat)
    requires 0 < s < 8
    ensures ShiftedIn(b, next, s) + 256 * High(b, Pow2(8 - s)) == Mul(b, Pow2(s)) + High(next, Pow2(8 - s))
  {
    hide Pow2;
    hide OrBits;
    hide Mul;
    hide High;
    hide Low;
    var p, q := Pow2(s), Pow2(8 - s);
    PowersOfByte(s);
    ByteParts(b, p, q);
    NextPart(next, p, q);
    OrIsSum(Low(b, q), High(next, q), s);
    Digit(Low(b, q), High(next, q), p, q);
    LowSmall(Mul(Low(b, q), p) + High(next, q), 256);
  }

  lemma PowersOfByte(s: nat)
    requires s <= 8
    ensures Mul(Pow2(s), Pow2(8 - s)) == Mul(Pow2(8 - s), Pow2(s)) == 256 && Pow2(8) == 256
  {
    MulPow(s, 8 - s);
    assert Pow2(8) == 256;
  }

  lemma OrIsSum(x: nat, y: nat, s: nat)
    requires s <= 8 && x < Pow2(8 - s) && y < Pow2(s)
    ensures OrBits(Mul(x, Pow2(s)), y, 8) == Mul(x, Pow2(s)) + y
  {
    OrDisjoint(x, y, s, 8);
  }

  lemma LowSmall(x: nat, p: nat)
    requires x < p
    ensures Low(x, p) == x
  {
  }

  lemma ByteParts(b: byte, p: nat, q: nat)
    requires p > 0 && q > 0 && Mul(p, q) == 256
    ensures Low(Mul(b, p), 256) == Mul(Low(b, q), p)
    ensures Mul(b, p) == 256 * High(b, q) + Mul(Low(b, q), p)
    ensures Low(b, q) < q
  {
    var high, low := b / q, b % q;
    assert b == high * q + low;
    assert b * p == high * (p * q) + low * p;
    AtMost(low + 1, q, p);
    assert (low + 1) * p == low * p + p;
    DivModUnique(b * p, high, low * p, 256);
  }

  lemma NextPart(next: byte, p: nat, q: nat)
    requires p > 0 && q > 0 && Mul(p, q) == 256
    ensures High(next, q) < p
  {
    var high, low := Decompose(next, q, p);
    DivModUnique(next, high, low, q);
  }

  /** Every byte shifted left by s bits, the last one taking its low bits from `last`. */
  function Shifted(t: Bytes, last: byte, s: nat): (r: Bytes)
    requires 0 < s < 8
    ensures |r| == |t|
  {
    seq(|t|, i requires 0 <= i < |t| => ShiftedIn(t[i], if i + 1 < |t| then t[i + 1] else last, s))
  }

  lemma HeadValue(h: byte, t: Bytes)
    ensures Value([h] + t) == Mul(h, Pow256(|t|)) + Value(t) && Pow256(|[h] + t|) == 256 * Pow256(|t|)
  {
    assert ([h] + t)[1..] == t;
  }

  lemma ShiftStep(out: nat, top: nat, b: nat, below: nat, r: nat, p: nat)
    requires out + 256 * top == Mul(b, r) + below
    ensures Mul(out, p) + Mul(top, 256 * p) == Mul(Mul(b, p), r) + Mul(below, p)
  {
    assert (out + 256 * top) * p == (b * r + below) * p;
    assert (out + 256 * top) * p == out * p + top * (256 * p);
    assert (b * r + below) * p == (b * p) * r + below * p;
  }

  lemma MulSum(x: nat, y: nat, r: nat)
    ensures Mul(x + y, r) == Mul(x, r) + Mul(y, r)
  {
  }

  /** The shifted string is the value times 2^s, less the bits pushed out at the top. */
  lemma {:induction false} ShiftedValue(t: Bytes, last: byte, s: nat)
    requires 0 < s < 8 && t != []
    ensures Value(Shifted(t, last, s)) + Mul(High(t[0], Pow2(8 - s)), Pow256(|t|))
      == Mul(Value(t), Pow2(s)) + High(last, Pow2(8 - s))
  {
    hide Mul;
    hide Pow2;
    hide Pow256;
    hide Value;
    hide ShiftedIn;
    var rest, d, r := t[1..], Pow2(8 - s), Pow2(s);
    var next := if |t| > 1 then t[1] else last;
    var out, p := ShiftedIn(t[0], next, s), Pow256(|rest|);
    assert t == [t[0]] + rest && Shifted(t, last, s) == [out] + Shifted(rest, last, s);
    hide Shifted;
    HeadValue(t[0], rest);
    HeadValue(out, Shifted(rest, last, s));
    ShiftedInValue(t[0], next, s);
    ShiftStep(out, High(t[0], d), t[0], High(next, d), r, p);
    MulSum(Mul(t[0], p), Value(rest), r);
    if rest != [] {
      ShiftedValue(rest, last, s);
    } else {
      Empty(High(last, d), r);
    }
  }

  lemma Empty(x: nat, r: nat)
    ensures Pow256(0) == 1 && Value([]) == 0 && Mul(x, 1) == x && Mul(0, r) == 0
  {
  }

  /** Shifting with the top bits fed back in at the bottom rotates the value. */
  lemma ShiftRotation(t: Bytes, s: nat, w: nat)
    requires 0 < s < 8 && t != [] && w == 8 * |t|
    ensures Value(Shifted(t, t[0], s)) == RotateNumber(Value(t), s, w)
  {
    hide High;
    hide Low;
    hide Mul;
    hide Pow2;
    hide Pow256;
    hide Value;
    hide RotateNumber;
    hide Shifted;
    var rest, d, r := t[1..], Pow2(8 - s), Pow2(s);
    var p := Pow256(|rest|);
    var top, low := High(t[0], d), Low(t[0], d);
    assert t == [t[0]] + rest;
    HeadValue(t[0], rest);
    ShiftedValue(t, t[0], s);
    TopBits(t[0], d, p, Value(rest));
    ValueBound(rest);
    Digit(low, Value(rest), p, d);
    PowBytes(|rest|);
    PowBytes(|t|);
    MulPow(8 - s, 8 * |rest|);
    MulPow(w - s, s);
    assert w - s == 8 - s + 8 * |rest|;
    RotateParts(top, Mul(low, p) + Value(rest), s, w);
    MulSum(Mul(top, Mul(d, p)), Mul(low, p) + Value(rest), r);
    Reassociate(top, Mul(d, p), r);
  }

  lemma Reassociate(x: nat, y: nat, z: nat)
    ensures Mul(Mul(x, y), z) == Mul(x, Mul(y, z))
  {
    assert (x * y) * z == x * (y * z);
  }

  lemma TopBits(b: nat, d: nat, p: nat, v: nat)
    requires d > 0
    ensures Mul(b, p) + v == Mul(High(b, d), Mul(d, p)) + (Mul(Low(b, d), p) + v)
    ensures Low(b, d) < d
  {
    var high, low := b / d, b % d;
    assert b == high * d + low;
    assert (high * d + low) * p == high * (d * p) + low * p;
  }

  function Turn(t: Block, s: nat): Bytes
    requires s < 8
  {
    if s == 0 then t else Shifted(t, t[0], s)
  }

  lemma TurnedIsShifted(b: Block, n: nat, s: nat, t: Block)
    requires n < 16 && s < 8 && t == b[n..] + b[..n]
    ensures TurnedBy(b, n, s) == Turn(t, s)
  {
    hide TurnedBy;
    hide Shifted;
    forall i | 0 <= i < 16 ensures TurnedBy(b, n, s)[i] == Turn(t, s)[i] {
      TurnedByteIs(b, n, s, t, i);
    }
  }

  lemma TurnedByteIs(b: Block, n: nat, s: nat, t: Block, i: nat)
    requires n < 16 && s < 8 && t == b[n..] + b[..n] && i < 16
    ensures TurnedBy(b, n, s)[i] == Turn(t, s)[i]
  {
    hide ShiftedIn;
    hide Around;
    Turned(b, n, t, i);
    Turned(b, n, t, i + 1);
    assert TurnedBy(b, n, s)[i] == TurnedByte(b, n, s, i);
  }

  lemma Turned(b: Block, n: nat, t: Block, i: nat)
    requires n < 16 && i <= 16 && t == b[n..] + b[..n]
    ensures Around(b, i + n) == t[if i < 16 then i else 0]
  {
    var k := if i < 16 then i else 0;
    assert (i + n) % 16 == if k + n < 16 then k + n else k + n - 16;
  }

  /** The value of Rotate(b, n) is the value of b rotated left by n mod 128. */
  lemma RotateRefines(b: Block, bits: nat)
    ensures Value(Rotated(b, bits)) == RotateNumber(Value(b), bits % 128, 128)
  {
    hide Pow2;
    hide Pow256;
    hide Value;
    hide RotateNumber;
    hide TurnedBy;
    hide Shifted;
    var n, s := bits / 8 % 16, bits % 8;
    var x, y := b[..n], b[n..];
    assert x + y == b;
    assert bits % 128 == 8 * n + s;
    TurnedIsShifted(b, n, s, y + x);
    ByteRotation(x, y, 128);
    if s != 0 {
      ShiftRotation(y + x, s, 128);
      ValueBound(b);
      PowBytes(16);
      RotateCompose(Value(b), 8 * n, s, 128);
    }
  }

  lemma SameValue(x: Block, y: Block)
    requires Value(x) == Value(y)
    ensures x == y
  {
    DigitsValue(x);
    DigitsValue(y);
  }

  lemma ModSum(m: nat, n: nat)
    ensures (m % 128 + n % 128) % 128 == (m + n) % 128
  {
    var q, r := m / 128 + n / 128, m % 128 + n % 128;
    if r < 128 {
      DivModUnique(m + n, q, r, 128);
    } else {
      DivModUnique(m + n, q + 1, r - 128, 128);
    }
  }

  lemma ModBack(n: nat)
    ensures (n + (128 - n % 128)) % 128 == 0
  {
  }

  lemma NoTurn(n: nat)
    requires n % 128 == 0
    ensures n / 8 % 16 == 0 && n % 8 == 0
  {
    var k := n / 128;
    DivModUnique(n, 16 * k, 0, 8);
    DivModUnique(16 * k, k, 0, 16);
  }

  /** Rotations compose by adding their amounts. */
  lemma RotationsCompose(b: Block, m: nat, n: nat)
    ensures Rotated(Rotated(b, m), n) == Rotated(b, m + n)
  {
    hide Pow2;
    hide Pow256;
    hide Value;
    hide RotateNumber;
    hide Rotated;
    RotateRefines(b, m);
    RotateRefines(Rotated(b, m), n);
    RotateRefines(b, m + n);
    ValueBound(b);
    PowBytes(16);
    RotateSum(Value(b), m % 128, n % 128, 128);
    ModSum(m, n);
    SameValue(Rotated(Rotated(b, m), n), Rotated(b, m + n));
  }

  lemma RotationUndone(b: Block, n: nat)
    ensures Rotated(Rotated(b, n), 128 - n % 128) == b
  {
    hide Rotated;
    RotationsCompose(b, n, 128 - n % 128);
    ModBack(n);
    FullTurn(b, n + (128 - n % 128));
  }

  lemma FullTurn(b: Block, n: nat)
    requires n % 128 == 0
    ensures Rotated(b, n) == b
  {
    hide TurnedBy;
    NoTurn(n);
    TurnedIsShifted(b, 0, 0, b);
  }
}
