/** AT_ENCR_DATA: encrypted inner attributes with AT_PADDING (sections 10.12 and 10.13
    of RFC 4187). */
module Encryption {
  import opened ByteStrings
  import opened Bits
  import opened Codec
  import opened Primitives
  import opened RoundTrip

  // ---------------------------------------------------------------- AES-CBC

  function CbcEncrypt(c: Crypto, key: Bytes, iv: Block, plain: Bytes): (cipher: Bytes)
    requires |plain| % 16 == 0
    ensures |cipher| == |plain|
    decreases |plain|
  {
    if plain == [] then []
    else
      var block: Block := c.aesEncrypt(key, Xor(plain[..16], iv));
      block + CbcEncrypt(c, key, block, plain[16..])
  }

  function CbcDecrypt(c: Crypto, key: Bytes, iv: Block, cipher: Bytes): (plain: Bytes)
    requires |cipher| % 16 == 0
    ensures |plain| == |cipher|
    decreases |cipher|
  {
    if cipher == [] then []
    else Xor(c.aesDecrypt(key, cipher[..16]), iv) + CbcDecrypt(c, key, cipher[..16], cipher[16..])
  }

  lemma {:induction false} CbcInverse(c: Crypto, key: Bytes, iv: Block, plain: Bytes)
    requires Invertible(c) && |plain| % 16 == 0
    ensures CbcDecrypt(c, key, iv, CbcEncrypt(c, key, iv, plain)) == plain
    decreases |plain|
  {
    hide Xor;
    if plain != [] {
      var first: Block := plain[..16];
      var mixed: Block := Xor(first, iv);
      var block := c.aesEncrypt(key, mixed);
      var rest := CbcEncrypt(c, key, block, plain[16..]);
      var cipher := CbcEncrypt(c, key, iv, plain);
      assert cipher == block + rest;
      assert cipher[..16] == block && cipher[16..] == rest;
      CbcInverse(c, key, block, plain[16..]);
      XorTwice(first, iv);
      assert c.aesDecrypt(key, block) == mixed;
      assert plain[..16] + plain[16..] == plain;
    }
  }

  /** Block i of a byte string. */
  function BlockAt(s: Bytes, i: nat): Block
    requires 16 * i + 16 <= |s|
  {
    s[16 * i..16 * i + 16]
  }

  lemma BlockAfter(s: Bytes, i: nat)
    requires i > 0 && 16 * i + 16 <= |s|
    ensures BlockAt(s, i) == BlockAt(s[16..], i - 1)
  {
    assert s[16..][16 * i - 16..16 * i] == s[16 * i..16 * i + 16];
  }

  lemma WholeBlocks(s: Bytes, i: nat)
    requires |s| % 16 == 0 && 16 * i < |s|
    ensures 16 * i + 16 <= |s| && |s[16..]| % 16 == 0
  {
  }

  lemma CbcEncryptStep(c: Crypto, key: Bytes, iv: Block, plain: Bytes)
    requires |plain| % 16 == 0 && plain != []
    ensures var cipher := CbcEncrypt(c, key, iv, plain);
      && |plain| >= 16
      && BlockAt(cipher, 0) == c.aesEncrypt(key, Xor(BlockAt(plain, 0), iv))
      && cipher[16..] == CbcEncrypt(c, key, BlockAt(cipher, 0), plain[16..])
  {
    hide Xor;
  }

  lemma CbcDecryptStep(c: Crypto, key: Bytes, iv: Block, cipher: Bytes)
    requires |cipher| % 16 == 0 && cipher != []
    ensures var plain := CbcDecrypt(c, key, iv, cipher);
      && |cipher| >= 16
      && BlockAt(plain, 0) == Xor(c.aesDecrypt(key, BlockAt(cipher, 0)), iv)
      && plain[16..] == CbcDecrypt(c, key, BlockAt(cipher, 0), cipher[16..])
  {
    hide Xor;
  }

  /** Block i of the ciphertext is the cipher applied to block i of the plaintext xor the
      block before it in the ciphertext, the IV for the first. */
  lemma {:induction false} CbcEncryptBlocks(c: Crypto, key: Bytes, iv: Block, plain: Bytes, i: nat)
    requires |plain| % 16 == 0 && 16 * i < |plain|
    ensures var cipher := CbcEncrypt(c, key, iv, plain);
      && 16 * i + 16 <= |plain|
      && BlockAt(cipher, i)
        == c.aesEncrypt(key, Xor(BlockAt(plain, i), if i == 0 then iv else BlockAt(cipher, i - 1)))
    decreases |plain|
  {
    hide Xor;
    WholeBlocks(plain, i);
    CbcEncryptStep(c, key, iv, plain);
    hide CbcEncrypt;
    hide BlockAt;
    if i > 0 {
      var cipher := CbcEncrypt(c, key, iv, plain);
      CbcEncryptBlocks(c, key, BlockAt(cipher, 0), plain[16..], i - 1);
      BlockAfter(cipher, i);
      BlockAfter(plain, i);
      if i > 1 {
        BlockAfter(cipher, i - 1);
      }
    }
  }

  /** Block i of the plaintext is block i of the ciphertext deciphered, xor the block before. */
  lemma {:induction false} CbcDecryptBlocks(c: Crypto, key: Bytes, iv: Block, cipher: Bytes, i: nat)
    requires |cipher| % 16 == 0 && 16 * i < |cipher|
    ensures var plain := CbcDecrypt(c, key, iv, cipher);
      && 16 * i + 16 <= |cipher|
      && BlockAt(plain, i) == Xor(c.aesDecrypt(key, BlockAt(cipher, i)), if i == 0 then iv else BlockAt(cipher, i - 1))
    decreases |cipher|
  {
    hide Xor;
    WholeBlocks(cipher, i);
    CbcDecryptStep(c, key, iv, cipher);
    hide CbcDecrypt;
    hide BlockAt;
    if i > 0 {
      var plain := CbcDecrypt(c, key, iv, cipher);
      CbcDecryptBlocks(c, key, BlockAt(cipher, 0), cipher[16..], i - 1);
      BlockAfter(plain, i);
      BlockAfter(cipher, i);
      if i > 1 {
        BlockAfter(cipher, i - 1);
      }
    }
  }

  /** The key sizes aes.NewCipher accepts. */
  predicate IsAesKey(key: Bytes) { |key| == 16 || |key| == 24 || |key| == 32 }

  // ---------------------------------------------------------------- encrypting

  function PaddingAttribute(needed: nat): EapAttribute
    requires needed >= 2
  {
    EapAttribute(AT_PADDING, Zeros(needed - 2))
  }

  /** The attributes, then AT_PADDING up to a multiple of 16 bytes. A single missing byte
      cannot be an attribute. */
  function Padded(attributes: seq<EapAttribute>): (r: Outcome<Bytes>)
    ensures r.Ok? ==> |r.value| % 16 == 0
  {
    match EncodedList(attributes)
    case Ok(plain) =>
      var needed := 16 - |plain| % 16;
      if needed == 16 then Ok(plain)
      else if needed == 1 then Panic
      else Ok(plain + Encoded(PaddingAttribute(needed)).value)
    case other => other
  }

  function Encrypted(c: Crypto, kEncr: Bytes, iv: Block, attributes: seq<EapAttribute>): Outcome<Bytes> {
    match Padded(attributes)
    case Ok(plain) => if IsAesKey(kEncr) then Ok(CbcEncrypt(c, kEncr, iv, plain)) else Err
    case other => other
  }

  method EncryptAttributes(c: Crypto, kEncr: Bytes, iv: Block, attributes: seq<EapAttribute>)
    returns (r: Outcome<Bytes>)
    ensures r == Encrypted(c, kEncr, iv, attributes)
  {
    var encoded := EncodeAttributes(attributes);
    if !encoded.Ok? { return encoded; }
    var plain := encoded.value;
    var remainder := |plain| % 16;
    if remainder != 0 {
      if 16 - remainder < 2 { return Panic; }
      var padding := EncodeAttribute(PaddingAttribute(16 - remainder));
      plain := plain + padding.value;
    }
    if !IsAesKey(kEncr) { return Err; }
    r := Ok(CbcEncrypt(c, kEncr, iv, plain));
  }

  // ---------------------------------------------------------------- decrypting

  function InnerValue(plain: Bytes, offset: nat, kind: int, total: nat): Outcome<Bytes>
    requires 4 <= total && offset + total <= |plain|
  {
    if kind == AT_COUNTER then Ok(plain[offset + 2..offset + 4])
    else if kind == AT_COUNTER_TOO_SMALL then Ok([])
    else if kind == AT_NONCE_S then Slice(plain, offset + 4, offset + 20)
    else if kind == AT_NEXT_REAUTH_ID then
      Slice(plain, offset + 4, offset + 4 + U16(plain[offset + 2], plain[offset + 3]))
    else Ok(plain[offset + 2..offset + total])
  }

  /** The walk over the decrypted bytes. It stops quietly at the first malformed attribute
      and leaves AT_PADDING out. */
  function InnerFrom(plain: Bytes, offset: nat): Outcome<seq<EapAttribute>>
    decreases |plain| - offset
  {
    if offset + 2 > |plain| || Claimed(plain, offset) == 0 || offset + Claimed(plain, offset) > |plain| then
      Ok([])
    else if plain[offset] == AT_PADDING then
      InnerFrom(plain, offset + Claimed(plain, offset))
    else
      match InnerValue(plain, offset, plain[offset], Claimed(plain, offset))
      case Ok(value) =>
        After([EapAttribute(plain[offset], value)], InnerFrom(plain, offset + Claimed(plain, offset)))
      case Err => Err
      case Panic => Panic
      case Hang => Hang
  }

  function Decrypted(c: Crypto, kEncr: Bytes, iv: Bytes, cipher: Bytes): Outcome<seq<EapAttribute>> {
    if !IsAesKey(kEncr) then Err
    else if |iv| != 16 || |cipher| % 16 != 0 then Panic
    else InnerFrom(CbcDecrypt(c, kEncr, iv, cipher), 0)
  }

  method DecryptAttributes(c: Crypto, kEncr: Bytes, iv: Bytes, cipher: Bytes)
    returns (r: Outcome<seq<EapAttribute>>)
    ensures r == Decrypted(c, kEncr, iv, cipher)
  {
    if !IsAesKey(kEncr) { return Err; }
    if |iv| != 16 || |cipher| % 16 != 0 { return Panic; }
    r := ParseInner(CbcDecrypt(c, kEncr, iv, cipher));
  }

  method ParseInner(plain: Bytes) returns (r: Outcome<seq<EapAttribute>>)
    ensures r == InnerFrom(plain, 0)
  {
    hide InnerValue;
    var attributes: seq<EapAttribute> := [];
    var offset := 0;
    while offset < |plain|
      invariant offset <= |plain|
      invariant InnerFrom(plain, 0) == After(attributes, InnerFrom(plain, offset))
      decreases |plain| - offset
    {
      if offset + 2 > |plain| { break; }
      var total := Claimed(plain, offset);
      if total == 0 || offset + total > |plain| { break; }
      if plain[offset] == AT_PADDING {
        offset := offset + total;
        continue;
      }
      match InnerValue(plain, offset, plain[offset], total) {
        case Ok(value) =>
          AfterAfter(attributes, [EapAttribute(plain[offset], value)], InnerFrom(plain, offset + total));
          attributes := attributes + [EapAttribute(plain[offset], value)];
        case Err => return Err;
        case Panic => return Panic;
        case Hang => return Hang;
      }
      offset := offset + total;
    }
    r := Ok(attributes);
  }

  // ---------------------------------------------------------------- round trip

  function WithoutPadding(attributes: seq<EapAttribute>): seq<EapAttribute> {
    if attributes == [] then []
    else if attributes[0].kind == AT_PADDING then WithoutPadding(attributes[1..])
    else [attributes[0]] + WithoutPadding(attributes[1..])
  }

  /** Kinds the packet parser and the inner parser read the same way. */
  predicate ReadAlike(kind: int) {
    kind != AT_RAND && kind != AT_AUTN && kind != AT_MAC && kind != AT_IV
    && kind != AT_RES && kind != AT_AUTS && kind != AT_ENCR_DATA
  }

  lemma InnerValueAgrees(buf: Bytes, offset: nat)
    requires DecodeAttribute(buf, offset).Ok? && Claimed(buf, offset) > 0 && ReadAlike(buf[offset])
    ensures InnerValue(buf, offset, buf[offset], Claimed(buf, offset)) == Ok(DecodeAttribute(buf, offset).value.value)
  {
  }

  /** Wherever the packet parser accepts the bytes to the end, the inner parser returns the
      same attributes without AT_PADDING. */
  lemma {:induction false} InnerAgrees(buf: Bytes, offset: nat)
    requires ParsedFrom(buf, offset, |buf|).Ok?
    requires forall a :: a in ParsedFrom(buf, offset, |buf|).value ==> ReadAlike(a.kind)
    ensures InnerFrom(buf, offset) == Ok(WithoutPadding(ParsedFrom(buf, offset, |buf|).value))
    decreases |buf| - offset
  {
    hide DecodeAttribute;
    hide InnerValue;
    hide ReadAlike;
    if offset < |buf| {
      var n := Claimed(buf, offset);
      var a, rest := DecodeAttribute(buf, offset).value, ParsedFrom(buf, offset + n, |buf|).value;
      var all := [a] + rest;
      assert all[1..] == rest && a in all && forall x :: x in rest ==> x in all;
      InnerValueAgrees(buf, offset);
      InnerAgrees(buf, offset + n);
    }
  }

  /** Bytes that are no attribute: too few, or claiming nothing or more than there is. */
  predicate Malformed(tail: Bytes) {
    |tail| < 2 || tail[1] == 0 || 4 * (tail[1] as int) > |tail|
  }

  /** Over an encoded list the inner walk reads the list, and stops quietly at malformed bytes
      after it, where the packet parser fails or never ends. */
  lemma MalformedTailIgnored(attributes: seq<EapAttribute>, plain: Bytes, tail: Bytes)
    requires AllWellFramed(attributes) && forall a :: a in attributes ==> ReadAlike(a.kind)
    requires Malformed(tail) && EncodedList(attributes).Ok? && plain == EncodedList(attributes).value + tail
    ensures InnerFrom(plain, 0) == Ok(WithoutPadding(attributes))
  {
    hide WellFramed;
    hide ReadAlike;
    hide EncodedList;
    var n := |EncodedList(attributes).value|;
    assert plain[0..n] == EncodedList(attributes).value;
    InnerOver(attributes, plain, 0, n);
    assert n + 2 <= |plain| ==> plain[n + 1] == tail[1];
    StopsAtTail(plain, n, tail);
    assert WithoutPadding(attributes) + [] == WithoutPadding(attributes);
  }

  lemma StopsAtTail(plain: Bytes, n: nat, tail: Bytes)
    requires n <= |plain| && Malformed(tail) && plain[n..] == tail
    ensures InnerFrom(plain, n) == Ok([])
  {
    assert |tail| >= 2 ==> plain[n + 1] == tail[1];
  }

  lemma {:induction false} InnerOver(attributes: seq<EapAttribute>, buf: Bytes, offset: nat, middle: nat)
    requires AllWellFramed(attributes) && forall a :: a in attributes ==> ReadAlike(a.kind)
    requires offset <= middle <= |buf| && Ok(buf[offset..middle]) == EncodedList(attributes)
    ensures InnerFrom(buf, offset) == After(WithoutPadding(attributes), InnerFrom(buf, middle))
  {
    hide Encoded;
    hide DecodeAttribute;
    hide InnerValue;
    hide WellFramed;
    hide ReadAlike;
    if attributes != [] {
      var a, rest := attributes[0], attributes[1..];
      assert a in attributes && forall x :: x in rest ==> x in attributes;
      FrameSize(a);
      ListSize(rest);
      var n := |Encoded(a).value|;
      SplitSlice(buf, offset, middle, Encoded(a).value, EncodedList(rest).value);
      AttributeRoundTrip(a, buf, offset);
      InnerValueAgrees(buf, offset);
      InnerOver(rest, buf, offset + n, middle);
      AfterAfter([a], WithoutPadding(rest), InnerFrom(buf, middle));
    }
  }

  predicate IsInner(kind: int) {
    kind == AT_COUNTER || kind == AT_COUNTER_TOO_SMALL || kind == AT_NONCE_S || kind == AT_NEXT_REAUTH_ID
  }

  lemma {:induction false} PaddingStripped(attributes: seq<EapAttribute>, padding: seq<EapAttribute>)
    requires forall a :: a in attributes ==> a.kind != AT_PADDING
    requires forall a :: a in padding ==> a.kind == AT_PADDING
    ensures WithoutPadding(attributes + padding) == attributes
  {
    var all := attributes + padding;
    if attributes != [] {
      assert all[0] == attributes[0] && all[1..] == attributes[1..] + padding;
      PaddingStripped(attributes[1..], padding);
    } else if padding != [] {
      assert all[0] == padding[0] && all[1..] == [] + padding[1..];
      PaddingStripped([], padding[1..]);
    }
  }

  /** The padding added after well-framed attributes: nothing, or a well-framed AT_PADDING
      of 4, 8 or 12 bytes. */
  lemma PaddingSizes(attributes: seq<EapAttribute>) returns (padding: seq<EapAttribute>)
    requires AllWellFramed(attributes)
    ensures padding == [] || (exists k :: k in {4, 8, 12} && padding == [PaddingAttribute(k)])
    ensures AllWellFramed(padding) && (forall a :: a in padding ==> a.kind == AT_PADDING)
    ensures EncodedList(attributes + padding).Ok?
    ensures Padded(attributes) == EncodedList(attributes + padding)
  {
    hide EncodedList;
    ListSize(attributes);
    var plain := EncodedList(attributes).value;
    var needed := 16 - |plain| % 16;
    if needed == 16 {
      padding := [];
      assert attributes + padding == attributes;
    } else {
      assert needed in {4, 8, 12};
      padding := [PaddingAttribute(needed)];
      OnePadding(needed);
      EncodedListAppend(attributes, padding);
    }
  }

  lemma OnePadding(needed: nat)
    requires needed in {4, 8, 12}
    ensures WellFramed(PaddingAttribute(needed))
    ensures EncodedList([PaddingAttribute(needed)]) == Encoded(PaddingAttribute(needed))
    ensures Encoded(PaddingAttribute(needed)).Ok?
  {
    var a := PaddingAttribute(needed);
    assert [a][1..] == [];
    assert EncodedList([a][1..]) == Ok([]);
  }

  /** Keys of 16, 24 or 32 bytes only, an IV of 16 and whole blocks. */
  lemma CipherInputs(c: Crypto, kEncr: Bytes, iv: Bytes, cipher: Bytes, attributes: seq<EapAttribute>)
    ensures |kEncr| !in {16, 24, 32} ==> Decrypted(c, kEncr, iv, cipher) == Err
    ensures |kEncr| in {16, 24, 32} && (|iv| != 16 || |cipher| % 16 != 0) ==> Decrypted(c, kEncr, iv, cipher) == Panic
    ensures |iv| == 16 && |kEncr| !in {16, 24, 32} && AllWellFramed(attributes) ==>
      Encrypted(c, kEncr, iv, attributes) == Err
  {
    hide CbcDecrypt;
    hide InnerFrom;
    hide Padded;
    hide AllWellFramed;
    if AllWellFramed(attributes) {
      var padding := PaddingSizes(attributes);
    }
  }

  lemma EncryptionRoundTrip(c: Crypto, kEncr: Bytes, iv: Block, attributes: seq<EapAttribute>)
    requires Invertible(c) && IsAesKey(kEncr)
    requires AllWellFramed(attributes) && forall a :: a in attributes ==> IsInner(a.kind)
    ensures var cipher := Encrypted(c, kEncr, iv, attributes);
      && cipher.Ok? && |cipher.value| % 16 == 0
      && Decrypted(c, kEncr, iv, cipher.value) == Ok(attributes)
  {
    hide EncodedList;
    hide WellFramed;
    hide CbcEncrypt;
    hide CbcDecrypt;
    var padding := PaddingSizes(attributes);
    var all := attributes + padding;
    var plain := EncodedList(all).value;
    CbcInverse(c, kEncr, iv, plain);
    assert plain[0..|plain|] == plain;
    ParsedOver(all, plain, 0, |plain|, |plain|);
    assert ParsedFrom(plain, 0, |plain|) == Ok(all);
    InnerAgrees(plain, 0);
    PaddingStripped(attributes, padding);
  }
}
