/** The EAP-AKA attribute and packet codec (sections 8 and 10 of RFC 4187). */
module Codec {
  import opened ByteStrings

  const EAP_REQUEST := 1
  const EAP_RESPONSE := 2
  const EAP_SUCCESS := 3
  const EAP_FAILURE := 4
  const EAP_TYPE_AKA := 23

  const AKA_CHALLENGE := 1
  const AKA_AUTH_REJECT := 2
  const AKA_SYNC_FAILURE := 4
  const AKA_REAUTHENTICATION := 13

  const AT_RAND := 1
  const AT_AUTN := 2
  const AT_RES := 3
  const AT_AUTS := 4
  const AT_PADDING := 6
  const AT_MAC := 11
  const AT_NEXT_REAUTH_ID := 14
  const AT_COUNTER := 19
  const AT_COUNTER_TOO_SMALL := 20
  const AT_NONCE_S := 21
  const AT_IV := 129
  const AT_ENCR_DATA := 130

  datatype EapAttribute = EapAttribute(kind: int, value: Bytes)

  datatype EapPacket = EapPacket(
    code: int, identifier: int, eapType: int, subtype: int, attributes: seq<EapAttribute>)

  /** Attributes made of two reserved bytes and a 16-byte value. */
  predicate HoldsBlock(kind: int) {
    kind == AT_RAND || kind == AT_AUTN || kind == AT_MAC || kind == AT_IV || kind == AT_NONCE_S
  }

  function RoundUp(n: nat, m: nat): nat
    requires m > 0
  {
    if n % m == 0 then n else n + m - n % m
  }

  // ---------------------------------------------------------------- encoding

  /** A 16-bit number, the value, and zeros up to the 4-byte boundary. */
  function Prefixed(number: int, value: Bytes): Bytes {
    PutU16(number) + value + Zeros(RoundUp(4 + |value|, 4) - 4 - |value|)
  }

  /** What follows the type and length bytes on the wire. */
  function Payload(a: EapAttribute): Outcome<Bytes> {
    var n := |a.value|;
    if HoldsBlock(a.kind) then
      if n < 16 then Panic else Ok(Zeros(2) + a.value[..16])
    else if a.kind == AT_RES then
      Ok(Prefixed(8 * n, a.value))
    else if a.kind == AT_AUTS then
      if n < 14 then Panic else Ok(Zeros(2) + a.value[..14])
    else if a.kind == AT_COUNTER then
      if n < 2 then Panic else Ok(a.value[..2])
    else if a.kind == AT_COUNTER_TOO_SMALL then
      Ok(Zeros(2))
    else if a.kind == AT_PADDING then
      Ok(Zeros(n))
    else if a.kind == AT_ENCR_DATA then
      Ok(Zeros(2) + a.value)
    else if a.kind == AT_NEXT_REAUTH_ID then
      Ok(Prefixed(n, a.value))
    else
      Ok(a.value + Zeros(RoundUp(n, 4) - n))
  }

  /** The attribute's wire form; the length byte counts 4-byte words, rounding down. */
  function Encoded(a: EapAttribute): Outcome<Bytes> {
    var payload := Payload(a);
    if payload.Ok? then
      Ok([a.kind % 256, ((2 + |payload.value|) / 4) % 256] + payload.value)
    else payload
  }

  function EncodedList(attributes: seq<EapAttribute>): Outcome<Bytes> {
    if attributes == [] then Ok([])
    else
      var first := Encoded(attributes[0]);
      if first.Ok? then After(first.value, EncodedList(attributes[1..])) else first
  }

  function Header(p: EapPacket, length: nat): Bytes {
    [p.code % 256, p.identifier % 256] + PutU16(length)
  }

  /** Type (EAP-AKA when the packet leaves it 0), subtype and two reserved bytes. */
  function AkaHeader(p: EapPacket): Bytes {
    [(if p.eapType == 0 then EAP_TYPE_AKA else p.eapType) % 256, p.subtype % 256, 0, 0]
  }

  predicate IsBare(code: int) { code == EAP_SUCCESS || code == EAP_FAILURE }

  function EncodedPacket(p: EapPacket): Outcome<Bytes> {
    if IsBare(p.code) then
      Ok(Header(p, 4))
    else
      var body := EncodedList(p.attributes);
      if body.Ok? then Ok(Header(p, 8 + |body.value|) + AkaHeader(p) + body.value) else body
  }

  /** A zeroed buffer of n bytes holding src from `at` on. */
  method Laid(n: nat, at: nat, src: Bytes) returns (r: Bytes)
    requires at + |src| <= n
    ensures r == Zeros(at) + src + Zeros(n - at - |src|)
  {
    var buf := new byte[n](_ => 0);
    CopyInto(buf, at, src);
    r := buf[..];
  }

  /** Two reserved bytes, then src to the end. */
  method AfterReserved(src: Bytes) returns (r: Bytes)
    ensures r == Zeros(2) + src
  {
    r := Laid(2 + |src|, 2, src);
    assert Zeros(2) + src + Zeros(0) == Zeros(2) + src;
  }

  /** src from the start, then zeros. */
  method FromStart(n: nat, src: Bytes) returns (r: Bytes)
    requires |src| <= n
    ensures r == src + Zeros(n - |src|)
  {
    r := Laid(n, 0, src);
    assert Zeros(0) + src == src;
  }

  method EncodePrefixed(number: int, value: Bytes) returns (r: Bytes)
    ensures r == Prefixed(number, value)
  {
    var total := RoundUp(2 + 2 + |value|, 4);
    r := FromStart(total - 2, PutU16(number) + value);
  }

  method EncodeCounter(value: Bytes) returns (r: Bytes)
    requires |value| >= 2
    ensures r == value[..2]
  {
    r := FromStart(2, PutU16(U16(value[0], value[1])));
    assert r == [value[0], value[1]] == value[..2];
  }

  method EncodePayload(a: EapAttribute) returns (r: Outcome<Bytes>)
    ensures r == Payload(a)
  {
    hide Prefixed;
    var n, v := |a.value|, a.value;
    var payload: Bytes;
    if HoldsBlock(a.kind) {
      if n < 16 { return Panic; }
      payload := AfterReserved(v[..16]);
    } else if a.kind == AT_RES {
      payload := EncodePrefixed(8 * n, v);
    } else if a.kind == AT_AUTS {
      if n < 14 { return Panic; }
      payload := AfterReserved(v[..14]);
    } else if a.kind == AT_COUNTER {
      if n < 2 { return Panic; }
      payload := EncodeCounter(v);
    } else if a.kind == AT_COUNTER_TOO_SMALL {
      payload := Zeros(2);
    } else if a.kind == AT_PADDING {
      payload := Zeros(n);
    } else if a.kind == AT_ENCR_DATA {
      payload := AfterReserved(v);
    } else if a.kind == AT_NEXT_REAUTH_ID {
      payload := EncodePrefixed(n, v);
    } else {
      payload := FromStart(RoundUp(n, 4), v);
    }
    r := Ok(payload);
  }

  method EncodeAttribute(a: EapAttribute) returns (r: Outcome<Bytes>)
    ensures r == Encoded(a)
  {
    var payload := EncodePayload(a);
    if !payload.Ok? { return payload; }
    var total := 2 + |payload.value|;
    var buf := new byte[total](_ => 0);
    buf[0] := a.kind % 256;
    buf[1] := (total / 4) % 256;
    assert buf[..2] == [a.kind % 256, (total / 4) % 256];
    CopyInto(buf, 2, payload.value);
    assert buf[..] == [a.kind % 256, (total / 4) % 256] + payload.value;
    r := Ok(buf[..]);
  }

  method EncodeAttributes(attributes: seq<EapAttribute>) returns (r: Outcome<Bytes>)
    ensures r == EncodedList(attributes)
  {
    var bytes: Bytes := [];
    assert attributes[0..] == attributes;
    for i := 0 to |attributes|
      invariant EncodedList(attributes) == After(bytes, EncodedList(attributes[i..]))
    {
      var one := EncodeAttribute(attributes[i]);
      assert attributes[i..][1..] == attributes[i + 1..];
      if !one.Ok? {
        return one;
      }
      AfterAfter(bytes, one.value, EncodedList(attributes[i + 1..]));
      bytes := bytes + one.value;
    }
    assert attributes[|attributes|..] == [];
    r := Ok(bytes);
  }

  method EncodeEapPacket(p: EapPacket) returns (r: Outcome<Bytes>)
    ensures r == EncodedPacket(p)
  {
    if IsBare(p.code) {
      var bare := new byte[4](_ => 0);
      bare[0], bare[1] := p.code % 256, p.identifier % 256;
      CopyInto(bare, 2, PutU16(4));
      assert bare[..] == Header(p, 4);
      return Ok(bare[..]);
    }
    var body := EncodeAttributes(p.attributes);
    if !body.Ok? {
      return body;
    }
    var packet := FillPacket(p, body.value);
    r := Ok(packet);
  }

  method FillPacket(p: EapPacket, body: Bytes) returns (packet: Bytes)
    ensures packet == Header(p, 8 + |body|) + AkaHeader(p) + body
  {
    var buf := new byte[8 + |body|](_ => 0);
    buf[0], buf[1] := p.code % 256, p.identifier % 256;
    CopyInto(buf, 2, PutU16(8 + |body|));
    assert buf[..] == Header(p, 8 + |body|) + Zeros(4 + |body|);
    buf[4], buf[5] := (if p.eapType == 0 then EAP_TYPE_AKA else p.eapType) % 256, p.subtype % 256;
    assert buf[..8] == Header(p, 8 + |body|) + AkaHeader(p);
    CopyInto(buf, 8, body);
    packet := buf[..];
  }

  // ---------------------------------------------------------------- decoding

  function DecodeValue(buf: Bytes, offset: nat, kind: int, total: nat): Outcome<Bytes> {
    if HoldsBlock(kind) then Slice(buf, offset + 4, offset + 20)
    else if kind == AT_RES then
      if offset + 4 > |buf| then Panic
      else Slice(buf, offset + 4, offset + 4 + U16(buf[offset + 2], buf[offset + 3]) / 8)
    else if kind == AT_AUTS then Slice(buf, offset + 4, offset + 18)
    else if kind == AT_COUNTER then Slice(buf, offset + 2, offset + 4)
    else if kind == AT_COUNTER_TOO_SMALL then Ok([])
    else if kind == AT_PADDING then Slice(buf, offset + 2, offset + total)
    else if kind == AT_ENCR_DATA then Slice(buf, offset + 4, offset + total)
    else if kind == AT_NEXT_REAUTH_ID then
      if offset + 4 > |buf| then Panic
      else Slice(buf, offset + 4, offset + 4 + U16(buf[offset + 2], buf[offset + 3]))
    else Slice(buf, offset + 2, offset + total)
  }

  /** The bytes an attribute claims, by its length byte; possibly none. */
  function Claimed(buf: Bytes, offset: nat): nat
    requires offset + 2 <= |buf|
  {
    4 * (buf[offset + 1] as int)
  }

  function DecodeAttribute(buf: Bytes, offset: nat): (r: Outcome<EapAttribute>)
    ensures r.Ok? ==> offset + 2 <= |buf| && offset + Claimed(buf, offset) <= |buf|
    ensures r.Ok? ==> r.value.kind == buf[offset]
  {
    if offset + 2 > |buf| || offset + Claimed(buf, offset) > |buf| then Err
    else
      match DecodeValue(buf, offset, buf[offset], Claimed(buf, offset))
      case Ok(value) => Ok(EapAttribute(buf[offset], value))
      case Err => Err
      case Panic => Panic
      case Hang => Hang
  }

  /** The attributes from offset up to length. Reading an attribute that claims no
      bytes leaves the offset where it was, so the loop never ends. */
  function ParsedFrom(buf: Bytes, offset: nat, length: nat): Outcome<seq<EapAttribute>>
    decreases |buf| + 1 - offset
  {
    if offset >= length then Ok([])
    else
      match DecodeAttribute(buf, offset)
      case Ok(a) =>
        if Claimed(buf, offset) == 0 then Hang
        else After([a], ParsedFrom(buf, offset + Claimed(buf, offset), length))
      case Err => Err
      case Panic => Panic
      case Hang => Hang
  }

  function HeaderLength(buf: Bytes): nat
    requires |buf| >= 4
  {
    U16(buf[2], buf[3])
  }

  function DecodedPacket(buf: Bytes): Outcome<EapPacket> {
    if |buf| < 4 || |buf| < HeaderLength(buf) then Err
    else if IsBare(buf[0]) then Ok(EapPacket(buf[0], buf[1], 0, 0, []))
    else if HeaderLength(buf) < 8 then Err
    else
      match ParsedFrom(buf, 8, HeaderLength(buf))
      case Ok(attributes) => Ok(EapPacket(buf[0], buf[1], buf[4], buf[5], attributes))
      case Err => Err
      case Panic => Panic
      case Hang => Hang
  }

  // ---------------------------------------------------------------- decoding with spare bytes

  /** The attribute at an offset of buf, whose value may be sliced out of the spare bytes. */
  function AttributeWithin(buf: Bytes, spare: Bytes, offset: nat): Outcome<EapAttribute> {
    if offset + 2 > |buf| || offset + Claimed(buf, offset) > |buf| then Err
    else
      match DecodeValue(buf + spare, offset, buf[offset], Claimed(buf, offset))
      case Ok(value) => Ok(EapAttribute(buf[offset], value))
      case Err => Err
      case Panic => Panic
      case Hang => Hang
  }

  function ParsedWithin(buf: Bytes, spare: Bytes, offset: nat, length: nat): Outcome<seq<EapAttribute>>
    decreases |buf| + 1 - offset
  {
    if offset >= length then Ok([])
    else
      match AttributeWithin(buf, spare, offset)
      case Ok(a) =>
        if offset + 2 > |buf| || Claimed(buf, offset) == 0 then Hang
        else After([a], ParsedWithin(buf, spare, offset + Claimed(buf, offset), length))
      case Err => Err
      case Panic => Panic
      case Hang => Hang
  }

  /** The packet decoder on a buffer with spare bytes behind it. */
  function DecodedWithin(buf: Bytes, spare: Bytes): Outcome<EapPacket> {
    if |buf| < 4 || |buf| < HeaderLength(buf) then Err
    else if IsBare(buf[0]) then Ok(EapPacket(buf[0], buf[1], 0, 0, []))
    else if HeaderLength(buf) < 8 then Err
    else
      match ParsedWithin(buf, spare, 8, HeaderLength(buf))
      case Ok(attributes) => Ok(EapPacket(buf[0], buf[1], buf[4], buf[5], attributes))
      case Err => Err
      case Panic => Panic
      case Hang => Hang
  }

  /** The decoder; with nothing behind the packet it gives DecodedPacket(buf). */
  method DecodeEapPacket(buf: Bytes, spare: Bytes) returns (r: Outcome<EapPacket>)
    ensures r == DecodedWithin(buf, spare)
  {
    hide DecodeValue;
    if |buf| < 4 { return Err; }
    var length := U16(buf[2], buf[3]);
    if |buf| < length { return Err; }
    if IsBare(buf[0]) { return Ok(EapPacket(buf[0], buf[1], 0, 0, [])); }
    if length < 8 { return Err; }
    var attributes: seq<EapAttribute> := [];
    var offset := 8;
    while offset < length
      invariant offset <= |buf|
      invariant ParsedWithin(buf, spare, 8, length) == After(attributes, ParsedWithin(buf, spare, offset, length))
      decreases |buf| - offset
    {
      var one := AttributeWithin(buf, spare, offset);
      match one {
        case Ok(a) =>
          var n := Claimed(buf, offset);
          if n == 0 { return Hang; }
          AfterAfter(attributes, [a], ParsedWithin(buf, spare, offset + n, length));
          attributes := attributes + [a];
          offset := offset + n;
        case Err => return Err;
        case Panic => return Panic;
        case Hang => return Hang;
      }
    }
    r := Ok(EapPacket(buf[0], buf[1], buf[4], buf[5], attributes));
  }

  // ---------------------------------------------------------------- attributes by kind

  /** Attribute i is the first of its kind. */
  predicate FirstAt(attributes: seq<EapAttribute>, i: int, kind: int) {
    && 0 <= i < |attributes| && attributes[i].kind == kind
    && forall k :: 0 <= k < i ==> attributes[k].kind != kind
  }

  /** The first attribute of a kind. */
  function Find(attributes: seq<EapAttribute>, kind: int): (r: Option<EapAttribute>)
    ensures r.None? <==> forall a :: a in attributes ==> a.kind != kind
    ensures r.Some? ==> r.value in attributes && r.value.kind == kind
    ensures r.Some? ==> exists i :: FirstAt(attributes, i, kind) && attributes[i] == r.value
  {
    if attributes == [] then None
    else if attributes[0].kind == kind then
      assert FirstAt(attributes, 0, kind);
      Some(attributes[0])
    else
      var rest := attributes[1..];
      assert forall i :: FirstAt(rest, i, kind) ==> FirstAt(attributes, i + 1, kind) && attributes[i + 1] == rest[i];
      Find(rest, kind)
  }

  method FindAttribute(attributes: seq<EapAttribute>, kind: int) returns (r: Option<EapAttribute>)
    ensures r == Find(attributes, kind)
  {
    assert attributes[0..] == attributes;
    for i := 0 to |attributes|
      invariant Find(attributes, kind) == Find(attributes[i..], kind)
    {
      if attributes[i].kind == kind { return Some(attributes[i]); }
      assert attributes[i..][1..] == attributes[i + 1..];
    }
    r := None;
  }
}
