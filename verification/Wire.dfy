/** The bytes themselves: attribute layouts of section 10 of RFC 4187, and the two requests
    the server sends, written out. */
module Wire {
  import opened ByteStrings
  import opened Codec
  import opened Encryption
  import opened Keys
  import opened Mac
  import opened Primitives
  import opened Protocol
  import opened RoundTrip

  // ---------------------------------------------------------------- attributes

  /** AT_RAND, AT_AUTN, AT_MAC, AT_NONCE_S and AT_IV: five words, two bytes of them reserved. */
  lemma BlockLayout(kind: int, v: Block)
    requires kind in {1, 2, 11, 21, 129}
    ensures Encoded(EapAttribute(kind, v)) == Ok([kind, 5, 0, 0] + v)
    ensures WellFramed(EapAttribute(kind, v))
  {
    assert v[..16] == v;
    assert [kind, 5] + (Zeros(2) + v) == [kind, 5, 0, 0] + v;
  }

  /** The number of words that hold four bytes and n more. */
  function Words(n: nat): nat { (n + 7) / 4 }

  lemma WordsRound(n: nat)
    ensures RoundUp(4 + n, 4) == 4 * Words(n) && n + 4 <= 4 * Words(n) < n + 8
  {
  }

  /** AT_RES: the length in bits, the value, zeros up to the last word. */
  lemma ResLayout(v: Bytes)
    requires |v| <= 1016
    ensures var n := Words(|v|);
      && n < 256 && 4 * n >= 4 + |v|
      && Encoded(EapAttribute(3, v))
        == Ok([3, n, 8 * |v| / 256, 8 * |v| % 256] + v + Zeros(4 * n - 4 - |v|))
  {
    hide Encoded;
    hide RoundUp;
    WordsRound(|v|);
    var n := Words(|v|);
    PrefixedLayout(3, 8 * |v|, v, n);
  }

  /** AT_NEXT_REAUTH_ID: the length in bytes, the identity, zeros up to the last word. */
  lemma NextIdLayout(v: Bytes)
    requires |v| <= 1016
    ensures var n := Words(|v|);
      && n < 256 && 4 * n >= 4 + |v|
      && Encoded(EapAttribute(14, v)) == Ok([14, n, |v| / 256, |v| % 256] + v + Zeros(4 * n - 4 - |v|))
  {
    hide Encoded;
    hide RoundUp;
    WordsRound(|v|);
    var n := Words(|v|);
    PrefixedLayout(14, |v|, v, n);
  }

  /** The type, the number of words, and the payload. */
  lemma Framed(a: EapAttribute, payload: Bytes, n: nat)
    requires Payload(a) == Ok(payload) && 0 <= a.kind < 256 && 2 + |payload| == 4 * n && n < 256
    ensures Encoded(a) == Ok([a.kind, n] + payload)
  {
    hide Payload;
  }

  lemma PrefixedLayout(kind: int, number: nat, v: Bytes, n: nat)
    requires kind in {3, 14} && number == (if kind == 3 then 8 * |v| else |v|) && number < 65536
    requires n < 256 && RoundUp(4 + |v|, 4) == 4 * n && 4 + |v| <= 4 * n
    ensures Encoded(EapAttribute(kind, v)) == Ok([kind, n, number / 256, number % 256] + v + Zeros(4 * n - 4 - |v|))
  {
    var zeros := Zeros(4 * n - 4 - |v|);
    var payload := PutU16(number) + v + zeros;
    PrefixedPayload(kind, number, v, n);
    hide RoundUp;
    Framed(EapAttribute(kind, v), payload, n);
    assert PutU16(number) == [number / 256, number % 256];
    assert [kind, n] + payload == [kind, n, number / 256, number % 256] + v + zeros;
  }

  lemma PrefixedPayload(kind: int, number: nat, v: Bytes, n: nat)
    requires kind in {3, 14} && number == (if kind == 3 then 8 * |v| else |v|)
    requires RoundUp(4 + |v|, 4) == 4 * n && 4 + |v| <= 4 * n
    ensures Payload(EapAttribute(kind, v)) == Ok(PutU16(number) + v + Zeros(4 * n - 4 - |v|))
  {
    hide RoundUp;
  }

  lemma CounterLayout(hi: byte, lo: byte)
    ensures Encoded(EapAttribute(19, [hi, lo])) == Ok([19, 1, hi, lo])
    ensures WellFramed(EapAttribute(19, [hi, lo]))
  {
    assert [hi, lo][..2] == [hi, lo];
    Framed(EapAttribute(19, [hi, lo]), [hi, lo], 1);
    assert [19, 1] + [hi, lo] == [19, 1, hi, lo];
  }

  lemma TooSmallLayout(v: Bytes)
    ensures Encoded(EapAttribute(20, v)) == Ok([20, 1, 0, 0])
  {
    Framed(EapAttribute(20, v), Zeros(2), 1);
    assert [20, 1] + Zeros(2) == [20, 1, 0, 0];
  }

  /** AT_PADDING is zeros, whatever the value. */
  lemma PaddingLayout(v: Bytes)
    requires |v| % 4 == 2 && |v| <= 1018
    ensures Encoded(EapAttribute(6, v)) == Ok([6, (2 + |v|) / 4] + Zeros(|v|))
  {
  }

  lemma EncrDataLayout(v: Bytes)
    requires |v| % 4 == 0 && |v| <= 1016
    ensures Encoded(EapAttribute(130, v)) == Ok([130, 1 + |v| / 4, 0, 0] + v)
    ensures WellFramed(EapAttribute(130, v))
  {
    assert [130, 1 + |v| / 4] + (Zeros(2) + v) == [130, 1 + |v| / 4, 0, 0] + v;
  }

  /** AT_AUTS, 18 bytes that claim to be four words. */
  lemma AutsLayout(v: Bytes)
    requires |v| >= 14
    ensures Encoded(EapAttribute(4, v)) == Ok([4, 4, 0, 0] + v[..14])
  {
    assert [4, 4] + (Zeros(2) + v[..14]) == [4, 4, 0, 0] + v[..14];
  }

  // ---------------------------------------------------------------- packets

  /** Success and Failure are four bytes; any other packet has eight bytes before its body. */
  lemma PacketLayout(p: EapPacket, body: Bytes)
    requires 0 <= p.identifier < 256 && 1 <= p.code < 256 && 1 <= p.eapType < 256 && 0 <= p.subtype < 256
    requires EncodedList(p.attributes) == Ok(body) && 8 + |body| < 65536
    ensures EncodedPacket(p) ==
      if p.code == 3 || p.code == 4 then Ok([p.code, p.identifier, 0, 4])
      else Ok([p.code, p.identifier, (8 + |body|) / 256, (8 + |body|) % 256, p.eapType, p.subtype, 0, 0] + body)
  {
    hide EncodedList;
    var n := 8 + |body|;
    HeaderBytes(p, 4);
    HeaderBytes(p, n);
    hide Header;
    assert AkaHeader(p) == [p.eapType, p.subtype, 0, 0];
    assert Header(p, n) + AkaHeader(p) == [p.code, p.identifier, n / 256, n % 256, p.eapType, p.subtype, 0, 0];
  }

  lemma HeaderBytes(p: EapPacket, n: nat)
    requires 0 <= p.identifier < 256 && 1 <= p.code < 256 && n < 65536
    ensures Header(p, n) == [p.code, p.identifier, n / 256, n % 256]
  {
  }

  lemma OneFrame(a: EapAttribute)
    requires Encoded(a).Ok?
    ensures EncodedList([a]) == Encoded(a)
  {
    hide Encoded;
    assert [a][1..] == [] && EncodedList([]) == Ok([]);
  }

  lemma TwoFrames(a: EapAttribute, b: EapAttribute)
    requires Encoded(a).Ok? && Encoded(b).Ok?
    ensures EncodedList([a, b]) == Ok(Encoded(a).value + Encoded(b).value)
  {
    hide Encoded;
    OneFrame(a);
    OneFrame(b);
    EncodedListAppend([a], [b]);
    assert [a] + [b] == [a, b];
  }

  // ---------------------------------------------------------------- the challenges

  /** The AKA-Challenge request, byte for byte: type 23, subtype 1, AT_RAND, AT_AUTN and an
      AT_MAC over all of it under the second 16 bytes of what the generator makes of
      SHA-1(0 IMSI IK CK). */
  lemma ChallengeBytes(c: Crypto, imsi: Bytes, identifier: int, v: HssVectors)
    requires |v.rand| == 16 && |v.autn| == 16 && 0 <= identifier < 256
    ensures var front := [1, identifier, 0, 68, 23, 1, 0, 0]
        + ([1, 5, 0, 0] + v.rand + ([2, 5, 0, 0] + v.autn)) + [11, 5, 0, 0];
      var kAut := Prf(c, c.sha1([48] + imsi + v.ik + v.ck), 160)[16..32];
      ChallengeRelay(c, imsi, identifier, v) == Ok(front + c.hmacSha1(kAut, front + Zeros(16))[..16])
  {
    hide EncodedList;
    hide Encoded;
    hide WellFramed;
    hide Sealed;
    hide Find;
    hide Prf;
    var kAut := KeysFrom(c, MasterKey(c, imsi, v)).kAut;
    var p := ChallengePacket(identifier, v);
    var a, b := EapAttribute(AT_RAND, v.rand), EapAttribute(AT_AUTN, v.autn);
    BlockLayout(1, v.rand);
    BlockLayout(2, v.autn);
    TwoFrames(a, b);
    NoMac(a, b);
    assert WithMac(p, [a, b], Zeros(16), []) == p;
    var front, back := SealedBytes(c, kAut, p, [a, b], []);
    assert EncodedList([]) == Ok([]) by { Nothing(); }
    ChallengeHeader(p);
    assert [48] + imsi + v.ik + v.ck == BuildIdentity(imsi) + v.ik + v.ck;
    assert front + Zeros(16) + back == front + Zeros(16);
    var mac := c.hmacSha1(kAut, front + Zeros(16))[..16];
    assert front + mac + back == front + mac;
  }

  lemma Nothing()
    ensures EncodedList([]) == Ok([])
  {
  }

  lemma NoMac(a: EapAttribute, b: EapAttribute)
    requires a.kind != AT_MAC && b.kind != AT_MAC
    ensures Find([a, b], AT_MAC).None?
  {
  }

  lemma ChallengeHeader(p: EapPacket)
    requires p.code == EAP_REQUEST && 0 <= p.identifier < 256 && p.eapType == EAP_TYPE_AKA && p.subtype == AKA_CHALLENGE
    ensures Header(p, 68) + AkaHeader(p) == [1, p.identifier, 0, 68, 23, 1, 0, 0]
  {
  }

  /** The attributes of a re-authentication challenge before encryption: AT_COUNTER,
      AT_NONCE_S, AT_NEXT_REAUTH_ID with 32 characters, and four bytes of AT_PADDING. */
  function InnerBytes(counter: nat, nonceS: Block, nextId: Identity): Bytes {
    [19, 1, counter / 256 % 256, counter % 256] + ([21, 5, 0, 0] + nonceS) + ([14, 9, 0, 32] + nextId) + [6, 1, 0, 0]
  }

  lemma InnerPadded(counter: nat, nonceS: Block, nextId: Identity)
    ensures Padded(InnerAttributes(counter, nonceS, nextId)) == Ok(InnerBytes(counter, nonceS, nextId))
    ensures |InnerBytes(counter, nonceS, nextId)| == 64
  {
    hide Encoded;
    var x, y, z := CounterAttribute(counter), EapAttribute(AT_NONCE_S, nonceS), EapAttribute(AT_NEXT_REAUTH_ID, nextId);
    CounterLayout(PutU16(counter)[0], PutU16(counter)[1]);
    assert [PutU16(counter)[0], PutU16(counter)[1]] == PutU16(counter);
    BlockLayout(21, nonceS);
    NextIdLayout(nextId);
    assert Zeros(0) == [] && [14, 9, 0, 32] + nextId + Zeros(0) == [14, 9, 0, 32] + nextId;
    TwoFrames(x, y);
    OneFrame(z);
    EncodedListAppend([x, y], [z]);
    assert [x, y] + [z] == InnerAttributes(counter, nonceS, nextId);
    PaddingLayout(Zeros(2));
    assert [6, 1] + Zeros(2) == [6, 1, 0, 0];
  }

  /** The AKA-Reauthentication request, byte for byte: subtype 13, AT_IV, AT_ENCR_DATA and an
      AT_MAC over all of it under the identity's K_aut. */
  lemma ReauthRequestBytes(c: Crypto, r: ReauthState, identifier: int, x: ReauthInput)
    requires IsAesKey(r.kEncr) && r.counter >= 0 && 0 <= identifier < 256
    ensures var inner := InnerBytes(r.counter, x.nonceS, x.newId);
      && |inner| % 16 == 0
      && var front := [1, identifier, 0, 116, 23, 13, 0, 0] + ([129, 5, 0, 0] + x.iv
          + ([130, 17, 0, 0] + CbcEncrypt(c, r.kEncr, x.iv, inner))) + [11, 5, 0, 0];
        ReauthRelay(c, r, identifier, x) == Ok(front + c.hmacSha1(r.kAut, front + Zeros(16))[..16])
  {
    hide EncodedList;
    hide Encoded;
    hide WellFramed;
    hide Sealed;
    hide Find;
    hide CbcEncrypt;
    hide InnerAttributes;
    hide InnerBytes;
    hide Padded;
    InnerPadded(r.counter, x.nonceS, x.newId);
    var cipher := CbcEncrypt(c, r.kEncr, x.iv, InnerBytes(r.counter, x.nonceS, x.newId));
    var p := ReauthPacket(EAP_REQUEST, identifier, x.iv, cipher);
    var a, b := EapAttribute(AT_IV, x.iv), EapAttribute(AT_ENCR_DATA, cipher);
    BlockLayout(129, x.iv);
    EncrDataLayout(cipher);
    TwoFrames(a, b);
    NoMac(a, b);
    assert WithMac(p, [a, b], Zeros(16), []) == p;
    var front, back := SealedBytes(c, r.kAut, p, [a, b], []);
    Nothing();
    ReauthHeader(p);
    assert front + Zeros(16) + back == front + Zeros(16);
    var mac := c.hmacSha1(r.kAut, front + Zeros(16))[..16];
    assert front + mac + back == front + mac;
  }

  lemma ReauthHeader(p: EapPacket)
    requires p.code == EAP_REQUEST && 0 <= p.identifier < 256
    requires p.eapType == EAP_TYPE_AKA && p.subtype == AKA_REAUTHENTICATION
    ensures Header(p, 116) + AkaHeader(p) == [1, p.identifier, 0, 116, 23, 13, 0, 0]
  {
  }
}
