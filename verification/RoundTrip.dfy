/** Encoding and decoding undo each other on well-framed attributes. */
module RoundTrip {
  import opened ByteStrings
  import opened Codec

  /** The attributes whose encoding ends on the 4-byte boundary their length byte claims
      and whose value survives. AT_AUTS and unknown kinds never do. */
  predicate WellFramed(a: EapAttribute) {
    var n := |a.value|;
    if HoldsBlock(a.kind) then n == 16
    else if a.kind == AT_RES || a.kind == AT_NEXT_REAUTH_ID then n <= 1016
    else if a.kind == AT_COUNTER then n == 2
    else if a.kind == AT_COUNTER_TOO_SMALL then n == 0
    else if a.kind == AT_ENCR_DATA then n % 4 == 0 && n <= 1016
    else if a.kind == AT_PADDING then n % 4 == 2 && n <= 1018 && a.value == Zeros(n)
    else false
  }

  predicate AllWellFramed(attributes: seq<EapAttribute>) {
    forall a :: a in attributes ==> WellFramed(a)
  }

  /** Decoding what was encoded gives the attribute back and claims exactly its bytes. */
  predicate ReadsBack(a: EapAttribute) {
    && Encoded(a).Ok?
    && DecodeAttribute(Encoded(a).value, 0) == Ok(a)
    && Claimed(Encoded(a).value, 0) == |Encoded(a).value|
  }

  lemma PrefixedSize(number: int, value: Bytes)
    ensures 4 + |value| <= 2 + |Prefixed(number, value)| < 8 + |value|
    ensures |Prefixed(number, value)| % 4 == 2
    ensures Prefixed(number, value)[..2] == PutU16(number)
    ensures Prefixed(number, value)[2..2 + |value|] == value
  {
  }

  lemma PayloadSize(a: EapAttribute)
    requires WellFramed(a)
    ensures Payload(a).Ok? && 2 <= |Payload(a).value| <= 1018 && |Payload(a).value| % 4 == 2
  {
    hide Prefixed;
    if a.kind == AT_RES {
      PrefixedSize(8 * |a.value|, a.value);
      WordsBelow(|Prefixed(8 * |a.value|, a.value)|);
    } else if a.kind == AT_NEXT_REAUTH_ID {
      PrefixedSize(|a.value|, a.value);
      WordsBelow(|Prefixed(|a.value|, a.value)|);
    } else if a.kind == AT_ENCR_DATA {
      TwoMore(|a.value|);
    }
  }

  lemma WordsBelow(n: nat)
    requires n % 4 == 2 && n < 1022
    ensures n <= 1018
  {
  }

  lemma TwoMore(n: nat)
    requires n % 4 == 0
    ensures (2 + n) % 4 == 2
  {
  }

  lemma FrameSize(a: EapAttribute)
    requires WellFramed(a)
    ensures Payload(a).Ok? && Encoded(a).Ok?
    ensures var frame := Encoded(a).value;
      4 <= |frame| <= 1020 && |frame| % 4 == 0 && frame[0] == a.kind && frame[1] == |frame| / 4
      && frame[2..] == Payload(a).value
  {
    hide Payload;
    PayloadSize(a);
    assert 0 <= a.kind < 256;
    assert Encoded(a).value[2..] == Payload(a).value;
  }

  /** A slice of the frame, seen in the buffer that holds it. */
  lemma SliceOfFrame(buf: Bytes, offset: nat, frame: Bytes, x: nat, y: nat)
    requires 2 <= x <= y <= |frame| && offset + |frame| <= |buf| && buf[offset..offset + |frame|] == frame
    ensures buf[offset + x..offset + y] == frame[2..][x - 2..y - 2]
    ensures x < |frame| ==> buf[offset + x] == frame[2..][x - 2]
  {
    var whole, part := buf[offset..offset + |frame|], buf[offset + x..offset + y];
    forall i | 0 <= i < y - x ensures part[i] == frame[2..][x - 2..y - 2][i] {
      assert part[i] == whole[x + i];
    }
    if x < |frame| {
      assert buf[offset + x] == whole[x];
    }
  }

  lemma PrefixedRoundTrip(number: nat, value: Bytes, buf: Bytes, offset: nat, frame: Bytes)
    requires 4 <= |frame| && number < 65536 && Prefixed(number, value) == frame[2..]
    requires offset + |frame| <= |buf| && buf[offset..offset + |frame|] == frame
    ensures U16(buf[offset + 2], buf[offset + 3]) == number
    ensures offset + 4 + |value| <= |buf| && buf[offset + 4..offset + 4 + |value|] == value
  {
    var n := |value|;
    PrefixedSize(number, value);
    hide Prefixed;
    SliceOfFrame(buf, offset, frame, 2, |frame|);
    SliceOfFrame(buf, offset, frame, 3, 4 + n);
    SliceOfFrame(buf, offset, frame, 4, 4 + n);
    assert frame[2..][0] == frame[2..][..2][0] && frame[2..][1] == frame[2..][..2][1];
  }

  lemma BlockRoundTrip(a: EapAttribute, buf: Bytes, offset: nat, frame: Bytes)
    requires 4 <= |frame| && HoldsBlock(a.kind) && WellFramed(a) && Payload(a) == Ok(frame[2..])
    requires offset + |frame| <= |buf| && buf[offset..offset + |frame|] == frame
    ensures DecodeValue(buf, offset, a.kind, |frame|) == Ok(a.value)
  {
    assert |frame[2..]| == 18;
    SliceOfFrame(buf, offset, frame, 4, 20);
    assert frame[2..][2..18] == a.value;
  }

  lemma ValueRoundTrip(a: EapAttribute, buf: Bytes, offset: nat, frame: Bytes)
    requires 4 <= |frame| && WellFramed(a) && Payload(a) == Ok(frame[2..])
    requires offset + |frame| <= |buf| && buf[offset..offset + |frame|] == frame
    ensures DecodeValue(buf, offset, a.kind, |frame|) == Ok(a.value)
  {
    hide Prefixed;
    hide HoldsBlock;
    var n := |a.value|;
    if HoldsBlock(a.kind) {
      BlockRoundTrip(a, buf, offset, frame);
    } else if a.kind == AT_RES {
      PrefixedRoundTrip(8 * n, a.value, buf, offset, frame);
    } else if a.kind == AT_NEXT_REAUTH_ID {
      PrefixedRoundTrip(n, a.value, buf, offset, frame);
    } else if a.kind == AT_ENCR_DATA {
      SliceOfFrame(buf, offset, frame, 4, |frame|);
      assert frame[2..][2..] == a.value;
    } else {
      SliceOfFrame(buf, offset, frame, 2, |frame|);
      assert frame[2..][..|frame| - 2] == frame[2..];
      assert a.kind == AT_COUNTER ==> frame[2..] == a.value && |frame| == 4;
    }
  }

  lemma AttributeRoundTrip(a: EapAttribute, buf: Bytes, offset: nat)
    requires WellFramed(a)
    requires var frame := Encoded(a).value; offset + |frame| <= |buf| && buf[offset..offset + |frame|] == frame
    ensures DecodeAttribute(buf, offset) == Ok(a) && Claimed(buf, offset) == |Encoded(a).value|
  {
    FrameSize(a);
    var frame := Encoded(a).value;
    assert buf[offset] == buf[offset..offset + |frame|][0];
    assert buf[offset + 1] == buf[offset..offset + |frame|][1];
    ValueRoundTrip(a, buf, offset, frame);
  }

  lemma ReadsBackExactly(a: EapAttribute)
    ensures ReadsBack(a) <==> WellFramed(a)
  {
    if WellFramed(a) {
      FrameSize(a);
      AttributeRoundTrip(a, Encoded(a).value, 0);
    } else if ReadsBack(a) {
      OnlyWellFramed(a);
    }
  }

  lemma OnlyWellFramed(a: EapAttribute)
    requires ReadsBack(a)
    ensures WellFramed(a)
  {
    hide DecodeAttribute;
    hide WellFramed;
    hide Payload;
    var frame := Encoded(a).value;
    assert 0 <= a.kind < 256 && |frame| == 4 * (frame[1] as int);
    assert frame[2..] == Payload(a).value;
    ValueReadBack(a, frame);
    SizesDecide(a);
  }

  lemma ValueReadBack(a: EapAttribute, frame: Bytes)
    requires DecodeAttribute(frame, 0) == Ok(a) && Claimed(frame, 0) == |frame|
    ensures DecodeValue(frame, 0, a.kind, |frame|) == Ok(a.value)
    ensures HoldsBlock(a.kind) ==> |a.value| == 16
    ensures a.kind == AT_COUNTER ==> |a.value| == 2
    ensures a.kind == AT_COUNTER_TOO_SMALL ==> |a.value| == 0
    ensures a.kind == AT_PADDING ==> a.value == frame[2..]
  {
  }

  /** With those lengths, a frame of the size a length byte can claim is well framed. */
  lemma SizesDecide(a: EapAttribute)
    requires Payload(a).Ok? && |Payload(a).value| % 4 == 2 && |Payload(a).value| <= 1018
    requires HoldsBlock(a.kind) ==> |a.value| == 16
    requires a.kind == AT_COUNTER ==> |a.value| == 2
    requires a.kind == AT_COUNTER_TOO_SMALL ==> |a.value| == 0
    requires a.kind == AT_PADDING ==> a.value == Payload(a).value
    ensures WellFramed(a)
  {
  }

  lemma {:induction false} EncodedListAppend(xs: seq<EapAttribute>, ys: seq<EapAttribute>)
    requires EncodedList(xs).Ok? && EncodedList(ys).Ok?
    ensures EncodedList(xs + ys) == Ok(EncodedList(xs).value + EncodedList(ys).value)
  {
    if xs == [] {
      assert xs + ys == ys;
      assert [] + EncodedList(ys).value == EncodedList(ys).value;
    } else {
      EncodedListAppend(xs[1..], ys);
      assert (xs + ys)[1..] == xs[1..] + ys;
      AfterAfter(Encoded(xs[0]).value, EncodedList(xs[1..]).value, EncodedList(ys));
    }
  }

  lemma {:induction false} ListSize(attributes: seq<EapAttribute>)
    requires AllWellFramed(attributes)
    ensures EncodedList(attributes).Ok? && |EncodedList(attributes).value| % 4 == 0
  {
    hide Encoded;
    hide WellFramed;
    if attributes != [] {
      assert attributes[0] in attributes;
      FrameSize(attributes[0]);
      ListSize(attributes[1..]);
      SumOfMultiples(|Encoded(attributes[0]).value|, |EncodedList(attributes[1..]).value|);
    }
  }

  lemma SumOfMultiples(x: nat, y: nat)
    requires x % 4 == 0 && y % 4 == 0
    ensures (x + y) % 4 == 0
  {
  }

  /** Parsing over an encoded list yields the list, whatever comes after it. */
  lemma {:induction false} ParsedOver(
    attributes: seq<EapAttribute>, buf: Bytes, offset: nat, middle: nat, length: nat)
    requires AllWellFramed(attributes)
    requires offset <= middle <= length && middle <= |buf|
    requires Ok(buf[offset..middle]) == EncodedList(attributes)
    ensures ParsedFrom(buf, offset, length) == After(attributes, ParsedFrom(buf, middle, length))
  {
    hide Encoded;
    hide DecodeAttribute;
    hide WellFramed;
    if attributes != [] {
      var a := attributes[0];
      assert a in attributes;
      FrameSize(a);
      ListSize(attributes[1..]);
      var n := |Encoded(a).value|;
      SplitSlice(buf, offset, middle, Encoded(a).value, EncodedList(attributes[1..]).value);
      AttributeRoundTrip(a, buf, offset);
      ParsedOver(attributes[1..], buf, offset + n, middle, length);
      AfterAfter([a], attributes[1..], ParsedFrom(buf, middle, length));
      assert [a] + attributes[1..] == attributes;
    }
  }

  /** What fits the header's fields: one byte each, 16 bits of length. */
  predicate Representable(p: EapPacket) {
    && 0 <= p.code < 256
    && 0 <= p.identifier < 256
    && if IsBare(p.code) then p.eapType == 0 && p.subtype == 0 && p.attributes == []
       else
         && 1 <= p.eapType < 256
         && 0 <= p.subtype < 256
         && AllWellFramed(p.attributes)
         && EncodedList(p.attributes).Ok?
         && 8 + |EncodedList(p.attributes).value| < 65536
  }

  lemma PacketRoundTrip(p: EapPacket)
    requires Representable(p)
    ensures EncodedPacket(p).Ok? && DecodedPacket(EncodedPacket(p).value) == Ok(p)
  {
    hide EncodedList;
    hide ParsedFrom;
    if IsBare(p.code) {
      BareRoundTrip(p);
    } else {
      var body := EncodedList(p.attributes).value;
      PacketShape(p, body);
      hide EncodedPacket;
      hide WellFramed;
      var n := 8 + |body|;
      ParsedOver(p.attributes, EncodedPacket(p).value, 8, n, n);
      NothingLeft(EncodedPacket(p).value, n);
      assert AkaHeader(p)[0] == p.eapType && AkaHeader(p)[1] == p.subtype;
    }
  }

  lemma NothingLeft(buf: Bytes, length: nat)
    ensures ParsedFrom(buf, length, length) == Ok([])
  {
  }

  lemma BareRoundTrip(p: EapPacket)
    requires Representable(p) && IsBare(p.code)
    ensures EncodedPacket(p).Ok? && DecodedPacket(EncodedPacket(p).value) == Ok(p)
  {
    var bare := Header(p, 4);
    assert bare[2..4] == PutU16(4);
    assert HeaderLength(bare) == 4;
  }

  lemma PacketShape(p: EapPacket, body: Bytes)
    requires !IsBare(p.code) && EncodedList(p.attributes) == Ok(body)
    ensures EncodedPacket(p) == Ok(Header(p, 8 + |body|) + AkaHeader(p) + body)
    ensures var buf := EncodedPacket(p).value;
      && |buf| == 8 + |body| && buf[8..] == body && buf[8..8 + |body|] == body
      && (|buf| < 65536 ==> HeaderLength(buf) == |buf|)
      && buf[0] == p.code % 256 && buf[1] == p.identifier % 256
      && buf[4] == AkaHeader(p)[0] && buf[5] == AkaHeader(p)[1]
  {
    var head := Header(p, 8 + |body|) + AkaHeader(p);
    var buf := head + body;
    assert buf[8..] == body;
    assert buf[2..4] == PutU16(8 + |body|);
    assert buf[2] == PutU16(8 + |body|)[0] && buf[3] == PutU16(8 + |body|)[1];
  }
}
