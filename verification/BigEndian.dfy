/** Byte strings read as big-endian numbers. */
module BigEndian {
  import opened ByteStrings

  function Pow256(n: nat): (p: nat)
    ensures p > 0
  {
    if n == 0 then 1 else 256 * Pow256(n - 1)
  }

  function Value(s: Bytes): nat {
    if s == [] then 0 else s[0] * Pow256(|s| - 1) + Value(s[1..])
  }

  /** The n low bytes of v. */
  function Digits(v: nat, n: nat): (s: Bytes)
    ensures |s| == n
  {
    if n == 0 then [] else Digits(v / 256, n - 1) + [v % 256]
  }

  lemma AtMost(x: nat, y: nat, p: nat)
    requires x <= y
    ensures x * p <= y * p
  {
  }

  lemma {:induction false} ValueBound(s: Bytes)
    ensures Value(s) < Pow256(|s|)
  {
    if s != [] {
      ValueBound(s[1..]);
      AtMost(s[0], 255, Pow256(|s| - 1));
    }
  }

  lemma {:induction false} PowAdd(m: nat, n: nat)
    ensures Pow256(m + n) == Pow256(m) * Pow256(n)
  {
    if m > 0 {
      PowAdd(m - 1, n);
      assert m - 1 + n == m + n - 1;
      assert Pow256(m + n) == 256 * (Pow256(m - 1) * Pow256(n)) == (256 * Pow256(m - 1)) * Pow256(n);
    }
  }

  lemma {:induction false} ValueAppend(s: Bytes, t: Bytes)
    ensures Value(s + t) == Value(s) * Pow256(|t|) + Value(t)
  {
    if s == [] {
      assert s + t == t;
    } else {
      ValueAppend(s[1..], t);
      assert (s + t)[1..] == s[1..] + t;
      var p, q := Pow256(|s| - 1), Pow256(|t|);
      PowAdd(|s| - 1, |t|);
      Distribute(s[0], p, Value(s[1..]), q);
    }
  }

  lemma Distribute(d: nat, p: nat, v: nat, q: nat)
    ensures (d * p + v) * q == d * (p * q) + v * q
  {
  }

  lemma One(b: byte)
    ensures Value([b]) == b && Pow256(|[b]|) == 256
  {
    assert [b][1..] == [];
  }

  lemma {:induction false} DigitsValue(s: Bytes)
    ensures Digits(Value(s), |s|) == s
  {
    if s != [] {
      var n := |s| - 1;
      assert s == s[..n] + [s[n]];
      ValueAppend(s[..n], [s[n]]);
      One(s[n]);
      assert Value(s) / 256 == Value(s[..n]) && Value(s) % 256 == s[n];
      DigitsValue(s[..n]);
    }
  }

  lemma Multiple(k: int, p: nat)
    ensures k >= 1 ==> k * p >= p
    ensures k <= -1 ==> k * p <= -(p as int)
  {
    if k >= 1 {
      assert k * p == (k - 1) * p + p;
    } else if k <= -1 {
      assert k * p == (k + 1) * p - p;
    }
  }

  /** Quotient and remainder are determined by any such decomposition. */
  lemma DivModUnique(x: nat, q: nat, r: nat, p: nat)
    requires p > 0 && r < p && x == q * p + r
    ensures x / p == q && x % p == r
  {
    var k := x / p - q;
    assert x == (x / p) * p + x % p;
    assert k * p == (x / p) * p - q * p;
    Multiple(k, p);
  }

  /** The n low bytes hold the value modulo 256^n. */
  lemma {:induction false} ValueLowDigits(v: nat, n: nat)
    ensures Value(Digits(v, n)) == v % Pow256(n)
  {
    if n > 0 {
      ValueLowDigits(v / 256, n - 1);
      ValueAppend(Digits(v / 256, n - 1), [v % 256]);
      One(v % 256);
      NestedMod(v, Pow256(n - 1));
    }
  }

  lemma NestedMod(v: nat, p: nat)
    requires p > 0
    ensures v / 256 % p * 256 + v % 256 == v % (256 * p)
  {
    var w := v / 256;
    var q, r := w / p, w % p;
    assert v == 256 * w + v % 256 && w == q * p + r;
    assert v == q * (256 * p) + (r * 256 + v % 256);
    DivModUnique(v, q, r * 256 + v % 256, 256 * p);
  }
}
