/** Key derivation: the FIPS 186-2 generator over SHA-1 and the keys cut from its output
    (section 7 and Appendix A of RFC 4187). */
module Keys {
  import opened ByteStrings
  import opened BigEndian
  import opened Primitives

  // ---------------------------------------------------------------- 160-bit arithmetic

  /** a := a + b mod 2^160, both big-endian. */
  method Add160(a: array<byte>, b: Bytes)
    requires a.Length == 20 && |b| == 20
    modifies a
    ensures Value(a[..]) == (Value(old(a[..])) + Value(b)) % Pow256(|b|)
  {
    hide Value;
    hide Pow256;
    ghost var was := a[..];
    var carry := 0;
    assert a[20..] == was[20..] == b[20..] == [];
    Nothing();
    for i := 20 downto 0
      invariant 0 <= carry <= 1
      invariant a[..i] == was[..i]
      invariant Value(a[i..]) + carry * Pow256(|b[i..]|) == Value(was[i..]) + Value(b[i..])
    {
      var sum := a[i] + b[i] + carry;
      ghost var tail := a[i + 1..];
      AddDigit(a[i], b[i], carry, was[i + 1..], b[i + 1..], tail);
      a[i] := sum % 256;
      carry := sum / 256;
      assert a[i..] == [sum % 256] + tail;
      assert was[i..] == [was[i]] + was[i + 1..] && b[i..] == [b[i]] + b[i + 1..];
    }
    assert a[0..] == a[..] && was[0..] == was && b[0..] == b;
    ValueBound(a[..]);
    DivModUnique(Value(was) + Value(b), carry, Value(a[..]), Pow256(|b|));
  }

  lemma Nothing()
    ensures Value([]) == 0 && Pow256(0) == 1
  {
  }

  /** One digit of the addition, given the addition of the digits after it. */
  lemma AddDigit(x: byte, y: byte, carry: nat, xs: Bytes, ys: Bytes, sums: Bytes)
    requires |xs| == |ys| == |sums| && carry <= 1
    requires Value(sums) + carry * Pow256(|ys|) == Value(xs) + Value(ys)
    ensures Value([(x + y + carry) % 256] + sums) + (x + y + carry) / 256 * Pow256(|[y] + ys|)
      == Value([x] + xs) + Value([y] + ys)
  {
    var digit, out, p := (x + y + carry) % 256, (x + y + carry) / 256, Pow256(|ys|);
    hide Value;
    hide Pow256;
    Head(digit, sums);
    Head(x, xs);
    Head(y, ys);
    Carry(x, y, carry, digit, out, p);
  }

  lemma Carry(x: nat, y: nat, carry: nat, digit: nat, out: nat, p: nat)
    requires x + y + carry == digit + 256 * out
    ensures x * p + y * p + carry * p == digit * p + out * (256 * p)
  {
    assert (x + y + carry) * p == x * p + y * p + carry * p;
    assert (digit + 256 * out) * p == digit * p + out * (256 * p);
  }

  lemma Head(h: byte, t: Bytes)
    ensures Value([h] + t) == h * Pow256(|t|) + Value(t) && Pow256(|[h] + t|) == 256 * Pow256(|t|)
  {
    assert ([h] + t)[1..] == t;
  }

  /** a := a + 1 mod 2^160, big-endian. */
  method Increment160(a: array<byte>)
    requires a.Length == 20
    modifies a
    ensures Value(a[..]) == (Value(old(a[..])) + 1) % Pow256(|a[..]|)
  {
    hide Value;
    hide Pow256;
    ghost var was := a[..];
    var i := 19;
    assert a[20..] == was[20..] == [];
    Nothing();
    while i >= 0
      invariant -1 <= i <= 19
      invariant a[..i + 1] == was[..i + 1]
      invariant Value(a[i + 1..]) == 0 && Value(was[i + 1..]) + 1 == Pow256(|was[i + 1..]|)
    {
      var val := 1 + (a[i] as int);
      ghost var tail := a[i + 1..];
      Head(a[i], was[i + 1..]);
      Head(val % 256, tail);
      a[i] := val % 256;
      assert a[i..] == [val % 256] + tail && was[i..] == [was[i]] + was[i + 1..];
      if val < 256 {
        NextDigit(was[i], Pow256(|tail|));
        SmallIncrement(was, a[..], i);
        return;
      }
      i := i - 1;
    }
    assert a[0..] == a[..] && was[0..] == was;
    DivModUnique(Value(was) + 1, 1, 0, Pow256(|was|));
  }

  lemma NextDigit(d: nat, p: nat)
    ensures (d + 1) * p == d * p + p
  {
  }

  lemma SmallIncrement(was: Bytes, now: Bytes, i: nat)
    requires i < |was| == |now| && was[..i] == now[..i]
    requires Value(now[i..]) == Value(was[i..]) + 1
    ensures Value(now) == (Value(was) + 1) % Pow256(|was|)
  {
    hide Value;
    hide Pow256;
    assert was == was[..i] + was[i..] && now == now[..i] + now[i..];
    ValueAppend(was[..i], was[i..]);
    ValueAppend(now[..i], now[i..]);
    ValueBound(now);
    DivModUnique(Value(now), 0, Value(now), Pow256(|was|));
  }

  // ---------------------------------------------------------------- the generator

  /** XKEY after one round that output w: (XKEY + w + 1) mod 2^160. */
  function NextKey(xkey: Digest, w: Digest): Digest {
    Digits((Value(xkey) + Value(w) + 1) % Pow256(|w|), |w|)
  }

  /** The first n bytes of the generator started at xkey. */
  function Stream(c: Crypto, xkey: Digest, n: nat): (s: Bytes)
    ensures |s| == n
    decreases n
  {
    var w := c.sha1(xkey);
    if n <= 20 then w[..n] else w + Stream(c, NextKey(xkey, w), n - 20)
  }

  function Prf(c: Crypto, mk: Bytes, n: nat): (s: Bytes)
    requires |mk| >= 20
    ensures |s| == n
  {
    Stream(c, mk[..20], n)
  }

  method PrfSha1(c: Crypto, mk: Bytes, outputLength: nat) returns (output: Bytes)
    requires |mk| >= 20
    ensures output == Prf(c, mk, outputLength)
  {
    hide NextKey;
    hide Stream;
    var out := new byte[outputLength](_ => 0);
    var offset := 0;
    var xkey := new byte[20](i requires 0 <= i < 20 => mk[i]);
    assert xkey[..] == mk[..20];
    assert out[..0] == [];
    while offset < outputLength
      invariant offset <= outputLength
      invariant Prf(c, mk, outputLength) == out[..offset] + Stream(c, xkey[..], outputLength - offset)
    {
      var w := c.sha1(xkey[..]);
      var toCopy := if outputLength - offset < 20 then outputLength - offset else 20;
      StreamStep(c, xkey[..], outputLength - offset);
      ghost var done := out[..offset];
      CopyInto(out, offset, w[..toCopy]);
      assert out[..offset + toCopy] == done + w[..toCopy];
      Round(xkey, w);
      offset := offset + toCopy;
    }
    assert out[..offset] == out[..];
    StreamStep(c, xkey[..], 0);
    assert c.sha1(xkey[..])[..0] == [];
    output := out[..];
  }

  method Round(xkey: array<byte>, w: Digest)
    requires xkey.Length == 20
    modifies xkey
    ensures xkey[..] == NextKey(old(xkey[..]), w)
  {
    hide NextKey;
    hide Pow256;
    ghost var before := xkey[..];
    Add160(xkey, w);
    Increment160(xkey);
    RoundIs(before, w, xkey[..]);
  }

  lemma StreamStep(c: Crypto, xkey: Digest, n: nat)
    ensures var k := if n < 20 then n else 20;
      Stream(c, xkey, n) == c.sha1(xkey)[..k] + Stream(c, NextKey(xkey, c.sha1(xkey)), n - k)
  {
    hide NextKey;
  }

  lemma RoundIs(before: Digest, w: Digest, now: Digest)
    requires Value(now) == ((Value(before) + Value(w)) % Pow256(|w|) + 1) % Pow256(|now|)
    ensures now == NextKey(before, w)
  {
    hide Value;
    hide Pow256;
    hide Digits;
    AddThenIncrement(Value(before) + Value(w), Pow256(|w|));
    DigitsValue(now);
  }

  lemma AddThenIncrement(x: nat, p: nat)
    requires p > 0
    ensures (x % p + 1) % p == (x + 1) % p
  {
    var q, r := x / p, x % p;
    assert x + 1 == q * p + (r + 1);
    if r + 1 < p {
      DivModUnique(x + 1, q, r + 1, p);
      DivModUnique(r + 1, 0, r + 1, p);
    } else {
      NextDigit(q, p);
      DivModUnique(x + 1, q + 1, 0, p);
      DivModUnique(p, 1, 0, p);
    }
  }

  /** Asking for less output gives a prefix of asking for more. */
  lemma {:induction false} StreamPrefix(c: Crypto, xkey: Digest, m: nat, n: nat)
    requires m <= n
    ensures Stream(c, xkey, m) == Stream(c, xkey, n)[..m]
    decreases m
  {
    hide NextKey;
    if m > 20 {
      StreamPrefix(c, NextKey(xkey, c.sha1(xkey)), m - 20, n - 20);
    }
  }

  /** The i-th XKEY as a 160-bit integer: XKEY' = (XKEY + w + 1) mod 2^160. */
  function XKey(c: Crypto, v: nat, i: nat): nat {
    if i == 0 then v
    else
      var x := XKey(c, v, i - 1);
      (x + Value(c.sha1(Digits(x, 20))) + 1) % 0x1_0000_0000_0000_0000_0000_0000_0000_0000_0000_0000
  }

  lemma TwentyBytes()
    ensures Pow256(20) == 0x1_0000_0000_0000_0000_0000_0000_0000_0000_0000_0000
  {
    PowAdd(2, 2);
    PowAdd(4, 4);
    PowAdd(8, 2);
    PowAdd(10, 10);
    assert Pow256(2) == 256 * Pow256(1) && Pow256(1) == 256 * Pow256(0);
  }

  lemma NextXKey(c: Crypto, xkey: Digest)
    ensures Value(NextKey(xkey, c.sha1(xkey))) == XKey(c, Value(xkey), 1)
  {
    hide Value;
    hide Digits;
    var w := c.sha1(xkey);
    DigitsValue(xkey);
    TwentyBytes();
    hide Pow256;
    assert XKey(c, Value(xkey), 0) == Value(xkey);
    ReducedDigits(Value(xkey) + Value(w) + 1);
  }

  lemma ReducedDigits(n: nat)
    ensures Value(Digits(n % Pow256(20), 20)) == n % Pow256(20)
  {
    hide Value;
    hide Digits;
    ValueLowDigits(n % Pow256(20), 20);
    Reduced(n, Pow256(20));
  }

  lemma Reduced(n: nat, p: nat)
    requires p > 0
    ensures n % p % p == n % p
  {
    DivModUnique(n % p, 0, n % p, p);
  }

  lemma {:induction false} XKeyLater(c: Crypto, v: nat, i: nat)
    ensures XKey(c, XKey(c, v, 1), i) == XKey(c, v, i + 1)
  {
    hide Value;
    hide Digits;
    if i > 0 {
      XKeyLater(c, v, i - 1);
    }
  }

  /** Byte k of the output is byte k mod 20 of SHA-1 of the (k div 20)-th XKEY. */
  lemma {:induction false} StreamRefines(c: Crypto, xkey: Digest, n: nat, k: nat)
    requires k < n
    ensures Stream(c, xkey, n)[k] == c.sha1(Digits(XKey(c, Value(xkey), k / 20), 20))[k % 20]
    decreases n
  {
    hide NextKey;
    hide Value;
    hide Digits;
    var w := c.sha1(xkey);
    if k < 20 {
      DigitsValue(xkey);
      assert k / 20 == 0 && k % 20 == k;
    } else {
      var next := NextKey(xkey, w);
      StreamRefines(c, next, n - 20, k - 20);
      NextXKey(c, xkey);
      XKeyLater(c, Value(xkey), (k - 20) / 20);
      assert k / 20 == (k - 20) / 20 + 1 && k % 20 == (k - 20) % 20;
    }
  }

  // ---------------------------------------------------------------- derived keys

  datatype DerivedKeys = DerivedKeys(kEncr: Bytes, kAut: Bytes, msk: Bytes, emsk: Bytes)

  /** "0", then the IMSI. */
  function BuildIdentity(imsi: Bytes): Bytes { [48] + imsi }

  function DeriveMasterKey(c: Crypto, identity: Bytes, ik: Bytes, ck: Bytes): Digest {
    c.sha1(identity + ik + ck)
  }

  function KeysFrom(c: Crypto, mk: Digest): DerivedKeys {
    var out := Prf(c, mk, 160);
    DerivedKeys(out[..16], out[16..32], out[32..96], out[96..])
  }

  method DeriveKeys(c: Crypto, identity: Bytes, ik: Bytes, ck: Bytes) returns (keys: DerivedKeys)
    ensures keys == KeysFrom(c, DeriveMasterKey(c, identity, ik, ck))
  {
    var mk := DeriveMasterKey(c, identity, ik, ck);
    var out := PrfSha1(c, mk, 160);
    keys := DerivedKeys(out[..16], out[16..32], out[32..96], out[96..160]);
  }

  /** K_encr, K_aut, MSK and EMSK are 16, 16, 64 and 64 bytes and together they are the
      first 160 bytes of any longer generator output, in that order. */
  lemma KeysPartition(c: Crypto, mk: Digest, n: nat)
    requires n >= 160
    ensures var k := KeysFrom(c, mk);
      && |k.kEncr| == 16 && |k.kAut| == 16 && |k.msk| == 64 && |k.emsk| == 64
      && k.kEncr + k.kAut + k.msk + k.emsk == Prf(c, mk, n)[..160]
  {
    StreamPrefix(c, mk[..20], 160, n);
    var out := Prf(c, mk, 160);
    assert out[..16] + out[16..32] + out[32..96] + out[96..] == out;
  }
}
