/** AT_MAC: where it is, how a packet is sealed with it, and how it is checked
    (section 10.15 of RFC 4187). */
module Mac {
  import opened ByteStrings
  import opened Codec
  import opened Primitives
  import opened RoundTrip

  /** HMAC-SHA-1 truncated to 16 bytes. */
  function ComputeMac(c: Crypto, kAut: Bytes, bytes: Bytes): (mac: Block) {
    c.hmacSha1(kAut, bytes)[..16]
  }

  /** The packet with its 16 MAC bytes zeroed. */
  function Zeroed(raw: Bytes, at: nat): Bytes
    requires at + 16 <= |raw|
  {
    raw[..at] + Zeros(16) + raw[at + 16..]
  }

  method ZeroField(raw: Bytes, at: nat) returns (zeroed: Bytes)
    requires at + 16 <= |raw|
    ensures zeroed == Zeroed(raw, at)
  {
    var copy := new byte[|raw|](i requires 0 <= i < |raw| => raw[i]);
    for i := 0 to 16
      invariant forall k :: 0 <= k < |raw| ==> copy[k] == if at <= k < at + i then 0 else raw[k]
    {
      copy[at + i] := 0;
    }
    zeroed := copy[..];
  }

  /** Zeroing runs past the packet unless all 16 bytes lie inside it. */
  method VerifyMac(c: Crypto, kAut: Bytes, raw: Bytes, at: nat, received: Bytes) returns (r: Outcome<bool>)
    ensures r == if at + 16 > |raw| then Panic
      else Ok(received == c.hmacSha1(kAut, raw[..at] + Zeros(16) + raw[at + 16..])[..16])
  {
    if at + 16 > |raw| { return Panic; }
    var copy := ZeroField(raw, at);
    r := Ok(ComputeMac(c, kAut, copy) == received);
  }

  // ------------------------------------------------------------------ locator

  /** The walk over type and length bytes; a zero length byte stops it for ever. */
  function MacOffsetFrom(buf: Bytes, offset: nat): (r: Outcome<int>)
    ensures r.Ok? && r.value >= 0 ==> offset <= r.value && r.value + 2 <= |buf| && buf[r.value] == AT_MAC
    ensures r.Ok? && r.value < 0 ==> r.value == -1
    decreases |buf| - offset
  {
    if offset + 2 > |buf| then Ok(-1)
    else if buf[offset] == AT_MAC then Ok(offset)
    else if Claimed(buf, offset) == 0 then Hang
    else MacOffsetFrom(buf, offset + Claimed(buf, offset))
  }

  method FindAtMacOffset(buf: Bytes) returns (r: Outcome<int>)
    ensures r == MacOffsetFrom(buf, 8)
  {
    var offset := 8;
    while offset + 2 <= |buf|
      invariant MacOffsetFrom(buf, 8) == MacOffsetFrom(buf, offset)
      decreases |buf| - offset
    {
      if buf[offset] == AT_MAC { return Ok(offset); }
      if Claimed(buf, offset) == 0 { return Hang; }
      offset := offset + Claimed(buf, offset);
    }
    r := Ok(-1);
  }

  lemma MacValue(buf: Bytes, offset: nat)
    requires DecodeAttribute(buf, offset).Ok? && buf[offset] == AT_MAC
    ensures offset + 20 <= |buf| && DecodeAttribute(buf, offset).value.value == buf[offset + 4..offset + 20]
  {
  }

  lemma ParsedHead(buf: Bytes, offset: nat, length: nat)
    requires offset < length && ParsedFrom(buf, offset, length).Ok?
    ensures DecodeAttribute(buf, offset).Ok? && offset + 2 <= |buf| && 0 < Claimed(buf, offset) <= |buf| - offset
    ensures var next := ParsedFrom(buf, offset + Claimed(buf, offset), length);
      next.Ok? && ParsedFrom(buf, offset, length).value == [DecodeAttribute(buf, offset).value] + next.value
  {
    hide DecodeAttribute;
  }

  /** Where the parser succeeds, the locator finds the AT_MAC the parser decoded first;
      and when the parser saw none up to the end of the buffer, neither does the locator. */
  lemma {:induction false} WalksAgree(buf: Bytes, offset: nat, length: nat)
    requires length <= |buf| && ParsedFrom(buf, offset, length).Ok?
    ensures match Find(ParsedFrom(buf, offset, length).value, AT_MAC)
      case Some(mac) =>
        var at := MacOffsetFrom(buf, offset);
        at.Ok? && 0 <= at.value && at.value + 20 <= |buf| && mac.value == buf[at.value + 4..at.value + 20]
      case None =>
        length == |buf| ==> MacOffsetFrom(buf, offset) == Ok(-1)
    decreases |buf| - offset
  {
    hide FirstAt;
    hide MacOffsetFrom;
    hide DecodeAttribute;
    hide Find;
    if offset >= length {
      ParsedEnd(buf, offset, length);
      FindNone(AT_MAC);
      LocatorEnds(buf, offset);
    } else {
      ParsedHead(buf, offset, length);
      hide ParsedFrom;
      hide Claimed;
      var n := Claimed(buf, offset);
      var a, rest := DecodeAttribute(buf, offset).value, ParsedFrom(buf, offset + n, length).value;
      FindCons(a, rest, AT_MAC);
      if buf[offset] == AT_MAC {
        LocatorStops(buf, offset);
        MacValue(buf, offset);
      } else {
        LocatorSteps(buf, offset);
        WalksAgree(buf, offset + n, length);
      }
    }
  }

  lemma ParsedEnd(buf: Bytes, offset: nat, length: nat)
    requires offset >= length
    ensures ParsedFrom(buf, offset, length) == Ok([])
  {
  }

  lemma FindNone(kind: int)
    ensures Find([], kind) == None
  {
  }

  lemma FindCons(a: EapAttribute, rest: seq<EapAttribute>, kind: int)
    ensures Find([a] + rest, kind) == if a.kind == kind then Some(a) else Find(rest, kind)
  {
    assert ([a] + rest)[1..] == rest;
  }

  lemma LocatorAgrees(buf: Bytes)
    requires DecodedPacket(buf).Ok? && !IsBare(buf[0])
    ensures match Find(DecodedPacket(buf).value.attributes, AT_MAC)
      case Some(mac) =>
        var at := MacOffsetFrom(buf, 8);
        at.Ok? && 0 <= at.value && at.value + 20 <= |buf| && mac.value == buf[at.value + 4..at.value + 20]
      case None =>
        HeaderLength(buf) == |buf| ==> MacOffsetFrom(buf, 8) == Ok(-1)
  {
    WalksAgree(buf, 8, HeaderLength(buf));
  }

  /** The first AT_MAC of the packet holds the HMAC-SHA-1 of the packet with zeros in the
      16 bytes of that field, cut to 16 bytes. */
  predicate MacValid(c: Crypto, kAut: Bytes, raw: Bytes, p: EapPacket) {
    && Find(p.attributes, AT_MAC).Some?
    && var at := MacOffsetFrom(raw, 8);
      && at.Ok? && at.value >= 0 && at.value + 20 <= |raw|
      && Find(p.attributes, AT_MAC).value.value
        == c.hmacSha1(kAut, raw[..at.value + 4] + Zeros(16) + raw[at.value + 20..])[..16]
  }

  /** The check as it runs on a received packet and the value of its first AT_MAC. */
  function Checked(c: Crypto, kAut: Bytes, raw: Bytes, received: Bytes): Outcome<bool> {
    match MacOffsetFrom(raw, 8)
    case Ok(at) =>
      if at < 0 then Ok(false)
      else if at + 20 > |raw| then Panic
      else Ok(received == ComputeMac(c, kAut, Zeroed(raw, at + 4)))
    case Err => Err
    case Panic => Panic
    case Hang => Hang
  }

  method CheckMac(c: Crypto, kAut: Bytes, raw: Bytes, received: Bytes) returns (r: Outcome<bool>)
    ensures r == Checked(c, kAut, raw, received)
  {
    var offset := FindAtMacOffset(raw);
    match offset {
      case Ok(at) =>
        if at < 0 { return Ok(false); }
        r := VerifyMac(c, kAut, raw, at + 4, received);
      case Err => return Err;
      case Panic => return Panic;
      case Hang => return Hang;
    }
  }

  lemma CheckedIsValid(c: Crypto, kAut: Bytes, raw: Bytes, p: EapPacket)
    requires Find(p.attributes, AT_MAC).Some?
    ensures Checked(c, kAut, raw, Find(p.attributes, AT_MAC).value.value) == Ok(true) <==> MacValid(c, kAut, raw, p)
  {
    hide MacOffsetFrom;
    hide Find;
  }

  // ------------------------------------------------------------------ sealing

  /** copy(packetBytes[at:], mac), which copies what fits. */
  function Patched(buf: Bytes, at: nat, mac: Block): Outcome<Bytes> {
    if at > |buf| then Panic
    else
      var n := if |buf| - at < 16 then |buf| - at else 16;
      Ok(buf[..at] + mac[..n] + buf[at + n..])
  }

  /** A packet encoded with a zero AT_MAC, its MAC computed and written over the zeros. */
  function Sealed(c: Crypto, kAut: Bytes, p: EapPacket): Outcome<Bytes> {
    match EncodedPacket(p)
    case Ok(bytes) =>
      (match MacOffsetFrom(bytes, 8)
       case Ok(at) => Patched(bytes, at + 4, ComputeMac(c, kAut, bytes))
       case Err => Err
       case Panic => Panic
       case Hang => Hang)
    case other => other
  }

  method Seal(c: Crypto, kAut: Bytes, p: EapPacket) returns (r: Outcome<Bytes>)
    ensures r == Sealed(c, kAut, p)
  {
    hide MacOffsetFrom;
    hide Patched;
    var encoded := EncodeEapPacket(p);
    if !encoded.Ok? { return encoded; }
    var mac := ComputeMac(c, kAut, encoded.value);
    var offset := FindAtMacOffset(encoded.value);
    match offset {
      case Ok(at) =>
        LocatorRange(encoded.value);
        r := Patch(encoded.value, at + 4, mac);
      case Err => return Err;
      case Panic => return Panic;
      case Hang => return Hang;
    }
  }

  lemma LocatorRange(buf: Bytes)
    ensures MacOffsetFrom(buf, 8).Ok? ==> MacOffsetFrom(buf, 8).value >= -1
  {
  }

  method Patch(packet: Bytes, at: nat, mac: Block) returns (r: Outcome<Bytes>)
    ensures r == Patched(packet, at, mac)
  {
    var bytes := new byte[|packet|](i requires 0 <= i < |packet| => packet[i]);
    assert bytes[..] == packet;
    if at > bytes.Length { return Panic; }
    var n := if bytes.Length - at < 16 then bytes.Length - at else 16;
    CopyInto(bytes, at, mac[..n]);
    r := Ok(bytes[..]);
  }

  /** The locator passes over a list that has no AT_MAC. */
  lemma {:induction false} LocatorSkips(attributes: seq<EapAttribute>, buf: Bytes, offset: nat, middle: nat)
    requires AllWellFramed(attributes) && Find(attributes, AT_MAC).None?
    requires offset <= middle <= |buf| && Ok(buf[offset..middle]) == EncodedList(attributes)
    ensures MacOffsetFrom(buf, offset) == MacOffsetFrom(buf, middle)
  {
    hide FirstAt;
    hide MacOffsetFrom;
    hide Encoded;
    hide DecodeAttribute;
    hide WellFramed;
    if attributes != [] {
      var a := attributes[0];
      assert a in attributes;
      FrameSize(a);
      ListSize(attributes[1..]);
      SplitSlice(buf, offset, middle, Encoded(a).value, EncodedList(attributes[1..]).value);
      AttributeRoundTrip(a, buf, offset);
      assert buf[offset] == buf[offset..offset + |Encoded(a).value|][0];
      LocatorSteps(buf, offset);
      LocatorSkips(attributes[1..], buf, offset + |Encoded(a).value|, middle);
    }
  }

  /** A packet sealed under kAut decodes to `p` and passes verification. */
  predicate Authentic(c: Crypto, kAut: Bytes, raw: Bytes, p: EapPacket) {
    DecodedPacket(raw) == Ok(p) && MacValid(c, kAut, raw, p)
  }

  function MacAttribute(mac: Bytes): EapAttribute { EapAttribute(AT_MAC, mac) }

  /** The packet with attributes before and after one AT_MAC. */
  function WithMac(p: EapPacket, before: seq<EapAttribute>, mac: Bytes, after: seq<EapAttribute>): EapPacket {
    p.(attributes := before + [MacAttribute(mac)] + after)
  }

  lemma MacFrame(mac: Block)
    ensures WellFramed(MacAttribute(mac))
    ensures EncodedList([MacAttribute(mac)]) == Ok([AT_MAC, 5, 0, 0] + mac)
  {
    var a := MacAttribute(mac);
    assert mac[..16] == mac;
    assert Payload(a) == Ok(Zeros(2) + mac);
    assert Encoded(a).value == [AT_MAC, 5, 0, 0] + mac;
    assert EncodedList([a][1..]) == Ok([]);
  }

  lemma BodyWithMac(before: seq<EapAttribute>, mac: Block, after: seq<EapAttribute>)
    requires AllWellFramed(before) && AllWellFramed(after)
    ensures EncodedList(before).Ok? && EncodedList(after).Ok?
    ensures AllWellFramed(before + [MacAttribute(mac)] + after)
    ensures EncodedList(before + [MacAttribute(mac)] + after)
      == Ok(EncodedList(before).value + ([AT_MAC, 5, 0, 0] + mac) + EncodedList(after).value)
  {
    hide Encoded;
    hide WellFramed;
    hide EncodedList;
    ListSize(before);
    ListSize(after);
    MacFrame(mac);
    EncodedListAppend(before, [MacAttribute(mac)]);
    EncodedListAppend(before + [MacAttribute(mac)], after);
  }

  lemma PacketWithMac(p: EapPacket, before: seq<EapAttribute>, mac: Block, after: seq<EapAttribute>)
    returns (front: Bytes, back: Bytes)
    requires AllWellFramed(before) && AllWellFramed(after) && Find(before, AT_MAC).None? && !IsBare(p.code)
    ensures EncodedList(before).Ok? && EncodedList(after).Ok?
    ensures var (b, a) := (EncodedList(before).value, EncodedList(after).value);
      && front == Header(p, 28 + |b| + |a|) + AkaHeader(p) + b + [AT_MAC, 5, 0, 0] && back == a
    ensures EncodedPacket(WithMac(p, before, mac, after)) == Ok(front + mac + back)
    ensures MacOffsetFrom(front + mac + back, 8) == Ok(|front| - 4)
  {
    hide FirstAt;
    hide EncodedList;
    hide WellFramed;
    var q := WithMac(p, before, mac, after);
    BodyWithMac(before, mac, after);
    var b, a := EncodedList(before).value, EncodedList(after).value;
    var head, tag := Header(p, 28 + |b| + |a|) + AkaHeader(p), [AT_MAC, 5, 0, 0];
    PacketShape(q, b + (tag + mac) + a);
    hide EncodedPacket;
    hide MacOffsetFrom;
    front, back := head + b + tag, a;
    Frames(head, b, tag, mac, a);
    LocatedAfter(before, front + mac + back, b);
  }

  lemma Frames(head: Bytes, b: Bytes, tag: Bytes, mac: Bytes, a: Bytes)
    requires |head| == 8 && |tag| == 4
    ensures head + b + tag + mac + a == head + (b + (tag + mac) + a)
    ensures (head + b + tag + mac + a)[8..8 + |b|] == b && (head + b + tag + mac + a)[8 + |b|] == tag[0]
  {
  }

  /** The locator stops at an AT_MAC that follows a list without one. */
  lemma LocatedAfter(before: seq<EapAttribute>, raw: Bytes, b: Bytes)
    requires AllWellFramed(before) && Find(before, AT_MAC).None? && EncodedList(before) == Ok(b)
    requires |raw| >= 10 + |b| && raw[8..8 + |b|] == b && raw[8 + |b|] == AT_MAC
    ensures MacOffsetFrom(raw, 8) == Ok(8 + |b|)
  {
    hide FirstAt;
    hide EncodedList;
    hide WellFramed;
    hide MacOffsetFrom;
    LocatorSkips(before, raw, 8, 8 + |b|);
    LocatorStops(raw, 8 + |b|);
  }

  lemma LocatorStops(buf: Bytes, at: nat)
    requires at + 2 <= |buf| && buf[at] == AT_MAC
    ensures MacOffsetFrom(buf, at) == Ok(at)
  {
  }

  lemma LocatorEnds(buf: Bytes, at: nat)
    ensures at >= |buf| ==> MacOffsetFrom(buf, at) == Ok(-1)
  {
  }

  lemma LocatorSteps(buf: Bytes, at: nat)
    requires at + 2 <= |buf| && buf[at] != AT_MAC && Claimed(buf, at) > 0
    ensures MacOffsetFrom(buf, at) == MacOffsetFrom(buf, at + Claimed(buf, at))
  {
  }

  lemma SwapMiddle(front: Bytes, x: Block, y: Block, back: Bytes)
    ensures Patched(front + x + back, |front|, y) == Ok(front + y + back)
    ensures (front + y + back)[..|front|] + x + (front + y + back)[|front| + 16..] == front + x + back
  {
    var raw := front + x + back;
    assert |raw| == |front| + 16 + |back|;
    assert raw[..|front|] == front && raw[|front| + 16..] == back && y[..16] == y;
    assert (front + y + back)[|front| + 16..] == back;
  }

  /** The bytes of a sealed packet: its MAC field holds the HMAC-SHA-1 of the packet with
      zeros there, cut to 16 bytes. */
  lemma SealedBytes(c: Crypto, kAut: Bytes, p: EapPacket, before: seq<EapAttribute>, after: seq<EapAttribute>)
    returns (front: Bytes, back: Bytes)
    requires AllWellFramed(before) && AllWellFramed(after) && Find(before, AT_MAC).None? && !IsBare(p.code)
    ensures EncodedList(before).Ok? && EncodedList(after).Ok?
    ensures var (b, a) := (EncodedList(before).value, EncodedList(after).value);
      && front == Header(p, 28 + |b| + |a|) + AkaHeader(p) + b + [AT_MAC, 5, 0, 0] && back == a
    ensures Sealed(c, kAut, WithMac(p, before, Zeros(16), after))
      == Ok(front + c.hmacSha1(kAut, front + Zeros(16) + back)[..16] + back)
  {
    hide EncodedList;
    hide EncodedPacket;
    hide WellFramed;
    hide MacOffsetFrom;
    hide FirstAt;
    hide Header;
    hide AkaHeader;
    front, back := PacketWithMac(p, before, Zeros(16), after);
    SwapMiddle(front, Zeros(16), ComputeMac(c, kAut, front + Zeros(16) + back), back);
  }

  /** Sealing writes the MAC of the zero-MAC packet into the packet's first AT_MAC and
      changes nothing else, and the sealed packet decodes and verifies. */
  lemma SealingCorrect(c: Crypto, kAut: Bytes, p: EapPacket, before: seq<EapAttribute>, after: seq<EapAttribute>)
    requires Representable(WithMac(p, before, Zeros(16), after)) && !IsBare(p.code)
    requires Find(before, AT_MAC).None?
    ensures var plain := EncodedPacket(WithMac(p, before, Zeros(16), after));
      && plain.Ok?
      && var q := WithMac(p, before, ComputeMac(c, kAut, plain.value), after);
      && Representable(q)
      && Sealed(c, kAut, WithMac(p, before, Zeros(16), after)) == EncodedPacket(q)
      && EncodedPacket(q).Ok? && Authentic(c, kAut, EncodedPacket(q).value, q)
  {
    hide FirstAt;
    hide EncodedList;
    hide WellFramed;
    var p0 := WithMac(p, before, Zeros(16), after);
    SplitAttributes(p0.attributes, before, MacAttribute(Zeros(16)), after);
    var front, back := PacketWithMac(p, before, Zeros(16), after);
    var mac := ComputeMac(c, kAut, front + Zeros(16) + back);
    var q := WithMac(p, before, mac, after);
    var _, _ := PacketWithMac(p, before, mac, after);
    SwapMiddle(front, Zeros(16), mac, back);
    SealedIsRepresentable(p, before, mac, after);
    PacketRoundTrip(q);
    FindMac(before, mac, after);
  }

  lemma SplitAttributes(all: seq<EapAttribute>, before: seq<EapAttribute>, a: EapAttribute, after: seq<EapAttribute>)
    requires all == before + [a] + after && AllWellFramed(all)
    ensures AllWellFramed(before) && AllWellFramed(after)
  {
    hide WellFramed;
    forall x | x in before || x in after ensures x in all {
      assert x in before + [a] + after;
    }
  }

  lemma SealedIsRepresentable(p: EapPacket, before: seq<EapAttribute>, mac: Block, after: seq<EapAttribute>)
    requires AllWellFramed(before) && AllWellFramed(after)
    requires Representable(WithMac(p, before, Zeros(16), after)) && !IsBare(p.code)
    ensures Representable(WithMac(p, before, mac, after))
  {
    hide EncodedList;
    hide WellFramed;
    BodyWithMac(before, Zeros(16), after);
    BodyWithMac(before, mac, after);
  }

  lemma {:induction false} FindMac(before: seq<EapAttribute>, mac: Bytes, after: seq<EapAttribute>)
    requires Find(before, AT_MAC).None?
    ensures Find(before + [MacAttribute(mac)] + after, AT_MAC) == Some(MacAttribute(mac))
  {
    var all := before + [MacAttribute(mac)] + after;
    if before != [] {
      assert all[0] == before[0] && all[1..] == before[1..] + [MacAttribute(mac)] + after;
      FindMac(before[1..], mac, after);
    } else {
      assert all[0] == MacAttribute(mac);
    }
  }
}
