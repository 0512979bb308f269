/** Slices with spare capacity. Decoding base64 can leave bytes behind the end of the packet
    that a Go slice expression may still reach, though an index may not. */
module Capacity {
  import opened ByteStrings
  import opened Codec
  import opened Mac
  import opened Primitives
  import opened RoundTrip

  // ---------------------------------------------------------------- where it matters

  lemma SliceAgrees(buf: Bytes, spare: Bytes, a: int, b: int)
    requires Slice(buf, a, b).Ok?
    ensures Slice(buf + spare, a, b) == Slice(buf, a, b)
  {
    assert (buf + spare)[a..b] == buf[a..b];
  }

  lemma PrefixAgrees(buf: Bytes, spare: Bytes, offset: nat, k: nat)
    requires offset + 4 <= |buf| && Slice(buf, offset + 4, offset + 4 + k).Ok?
    ensures Slice(buf + spare, offset + 4, offset + 4 + k) == Slice(buf, offset + 4, offset + 4 + k)
    ensures (buf + spare)[offset + 2] == buf[offset + 2] && (buf + spare)[offset + 3] == buf[offset + 3]
  {
    SliceAgrees(buf, spare, offset + 4, offset + 4 + k);
  }

  lemma ValueAgrees(buf: Bytes, spare: Bytes, offset: nat, kind: int, total: nat)
    requires DecodeValue(buf, offset, kind, total) != Panic
    ensures DecodeValue(buf + spare, offset, kind, total) == DecodeValue(buf, offset, kind, total)
  {
    hide HoldsBlock;
    if HoldsBlock(kind) {
      SliceAgrees(buf, spare, offset + 4, offset + 20);
    } else if kind == AT_RES {
      PrefixAgrees(buf, spare, offset, U16(buf[offset + 2], buf[offset + 3]) / 8);
    } else if kind == AT_AUTS {
      SliceAgrees(buf, spare, offset + 4, offset + 18);
    } else if kind == AT_COUNTER {
      SliceAgrees(buf, spare, offset + 2, offset + 4);
    } else if kind == AT_ENCR_DATA {
      SliceAgrees(buf, spare, offset + 4, offset + total);
    } else if kind == AT_NEXT_REAUTH_ID {
      PrefixAgrees(buf, spare, offset, U16(buf[offset + 2], buf[offset + 3]));
    } else if kind != AT_COUNTER_TOO_SMALL {
      SliceAgrees(buf, spare, offset + 2, offset + total);
    }
  }

  lemma AttributeAgrees(buf: Bytes, spare: Bytes, offset: nat)
    requires DecodeAttribute(buf, offset) != Panic
    ensures AttributeWithin(buf, spare, offset) == DecodeAttribute(buf, offset)
  {
    hide DecodeValue;
    if offset + 2 <= |buf| && offset + Claimed(buf, offset) <= |buf| {
      ValueAgrees(buf, spare, offset, buf[offset], Claimed(buf, offset));
    }
  }

  lemma {:induction false} ParsedAgrees(buf: Bytes, spare: Bytes, offset: nat, length: nat)
    requires ParsedFrom(buf, offset, length) != Panic
    ensures ParsedWithin(buf, spare, offset, length) == ParsedFrom(buf, offset, length)
    decreases |buf| + 1 - offset
  {
    hide DecodeAttribute;
    hide AttributeWithin;
    if offset < length {
      AttributeAgrees(buf, spare, offset);
      if DecodeAttribute(buf, offset).Ok? && Claimed(buf, offset) > 0 {
        ParsedAgrees(buf, spare, offset + Claimed(buf, offset), length);
      }
    }
  }

  /** Spare bytes change nothing unless, without them, decoding runs past the end. */
  lemma DecodedAgrees(buf: Bytes, spare: Bytes)
    requires DecodedPacket(buf) != Panic
    ensures DecodedWithin(buf, spare) == DecodedPacket(buf)
  {
    hide ParsedFrom;
    hide ParsedWithin;
    if |buf| >= 4 && !IsBare(buf[0]) && 8 <= HeaderLength(buf) <= |buf| {
      ParsedAgrees(buf, spare, 8, HeaderLength(buf));
    }
  }

  lemma {:induction false} ParsedWithNone(buf: Bytes, offset: nat, length: nat)
    ensures ParsedWithin(buf, [], offset, length) == ParsedFrom(buf, offset, length)
    decreases |buf| + 1 - offset
  {
    hide DecodeValue;
    assert buf + [] == buf;
    if offset < length && DecodeAttribute(buf, offset).Ok? && Claimed(buf, offset) > 0 {
      ParsedWithNone(buf, offset + Claimed(buf, offset), length);
    }
  }

  lemma DecodedWithNone(buf: Bytes)
    ensures DecodedWithin(buf, []) == DecodedPacket(buf)
  {
    hide ParsedFrom;
    hide ParsedWithin;
    if |buf| >= 4 {
      ParsedWithNone(buf, 8, HeaderLength(buf));
    }
  }

  /** Parsing over an encoded list, spare bytes or not. */
  lemma {:induction false} ParsedOverWithin(
    attributes: seq<EapAttribute>, buf: Bytes, spare: Bytes, offset: nat, middle: nat, length: nat)
    requires AllWellFramed(attributes)
    requires offset <= middle <= length && middle <= |buf|
    requires Ok(buf[offset..middle]) == EncodedList(attributes)
    ensures ParsedWithin(buf, spare, offset, length) == After(attributes, ParsedWithin(buf, spare, middle, length))
  {
    hide Encoded;
    hide DecodeAttribute;
    hide AttributeWithin;
    hide WellFramed;
    if attributes != [] {
      var a := attributes[0];
      assert a in attributes;
      FrameSize(a);
      ListSize(attributes[1..]);
      var n := |Encoded(a).value|;
      SplitSlice(buf, offset, middle, Encoded(a).value, EncodedList(attributes[1..]).value);
      AttributeRoundTrip(a, buf, offset);
      AttributeAgrees(buf, spare, offset);
      ParsedOverWithin(attributes[1..], buf, spare, offset + n, middle, length);
      AfterAfter([a], attributes[1..], ParsedWithin(buf, spare, middle, length));
      assert [a] + attributes[1..] == attributes;
    }
  }

  // ---------------------------------------------------------------- AT_MAC in spare bytes

  lemma MacValueWithin(buf: Bytes, spare: Bytes, offset: nat)
    requires AttributeWithin(buf, spare, offset).Ok? && offset + 2 <= |buf| && buf[offset] == AT_MAC
    ensures offset + 20 <= |buf + spare|
    ensures AttributeWithin(buf, spare, offset).value == EapAttribute(AT_MAC, (buf + spare)[offset + 4..offset + 20])
  {
  }

  lemma WithinKind(buf: Bytes, spare: Bytes, offset: nat)
    requires AttributeWithin(buf, spare, offset).Ok?
    ensures offset + 2 <= |buf| && offset + Claimed(buf, offset) <= |buf|
    ensures AttributeWithin(buf, spare, offset).value.kind == buf[offset]
  {
  }

  lemma EndWithin(buf: Bytes, spare: Bytes, offset: nat, length: nat)
    requires offset >= length
    ensures ParsedWithin(buf, spare, offset, length) == Ok([])
  {
  }

  lemma HeadWithin(buf: Bytes, spare: Bytes, offset: nat, length: nat)
    requires offset < length && ParsedWithin(buf, spare, offset, length).Ok?
    ensures AttributeWithin(buf, spare, offset).Ok? && offset + 2 <= |buf| && 0 < Claimed(buf, offset)
    ensures var next := ParsedWithin(buf, spare, offset + Claimed(buf, offset), length);
      && next.Ok?
      && ParsedWithin(buf, spare, offset, length).value == [AttributeWithin(buf, spare, offset).value] + next.value
  {
    hide AttributeWithin;
  }

  lemma {:induction false} WalksAgreeWithin(buf: Bytes, spare: Bytes, offset: nat, length: nat)
    requires length <= |buf| && ParsedWithin(buf, spare, offset, length).Ok?
    ensures match Find(ParsedWithin(buf, spare, offset, length).value, AT_MAC)
      case Some(mac) =>
        var at := MacOffsetFrom(buf, offset);
        at.Ok? && 0 <= at.value && at.value + 20 <= |buf + spare|
        && mac.value == (buf + spare)[at.value + 4..at.value + 20]
      case None =>
        length == |buf| ==> MacOffsetFrom(buf, offset) == Ok(-1)
    decreases |buf| - offset
  {
    hide FirstAt;
    hide MacOffsetFrom;
    hide AttributeWithin;
    hide Find;
    if offset >= length {
      EndWithin(buf, spare, offset, length);
      FindNone(AT_MAC);
      LocatorEnds(buf, offset);
    } else {
      WithinKind(buf, spare, offset);
      HeadWithin(buf, spare, offset, length);
      hide ParsedWithin;
      hide Claimed;
      var n := Claimed(buf, offset);
      var a, rest := AttributeWithin(buf, spare, offset).value, ParsedWithin(buf, spare, offset + n, length).value;
      FindCons(a, rest, AT_MAC);
      if buf[offset] == AT_MAC {
        LocatorStops(buf, offset);
        MacValueWithin(buf, spare, offset);
      } else {
        LocatorSteps(buf, offset);
        WalksAgreeWithin(buf, spare, offset + n, length);
      }
    }
  }

  /** On every accepted request or response the locator finds the AT_MAC decoded first, its
      16 bytes partly behind the packet if the decoder took them from there; and when none
      was decoded up to the end of the packet, neither is one found. */
  lemma LocatorAgreesWithin(raw: Bytes, spare: Bytes)
    requires DecodedWithin(raw, spare).Ok? && !IsBare(raw[0])
    ensures match Find(DecodedWithin(raw, spare).value.attributes, AT_MAC)
      case Some(mac) =>
        var at := MacOffsetFrom(raw, 8);
        at.Ok? && 0 <= at.value && at.value + 20 <= |raw + spare|
        && mac.value == (raw + spare)[at.value + 4..at.value + 20]
      case None =>
        HeaderLength(raw) == |raw| ==> MacOffsetFrom(raw, 8) == Ok(-1)
  {
    hide ParsedWithin;
    hide Find;
    hide MacOffsetFrom;
    WalksAgreeWithin(raw, spare, 8, HeaderLength(raw));
  }

  /** On a packet accepted with spare bytes the locator finds the AT_MAC decoded first. The
      check runs to its end if and only if those 16 bytes lie inside the packet; and it
      always does when the packet decodes without spare bytes. */
  lemma CheckRunsExactly(c: Crypto, kAut: Bytes, raw: Bytes, spare: Bytes, p: EapPacket, mac: EapAttribute)
    requires DecodedWithin(raw, spare) == Ok(p) && !IsBare(raw[0]) && Find(p.attributes, AT_MAC) == Some(mac)
    ensures var at := MacOffsetFrom(raw, 8);
      && at.Ok? && 0 <= at.value && at.value + 20 <= |raw + spare|
      && mac.value == (raw + spare)[at.value + 4..at.value + 20]
      && (Checked(c, kAut, raw, mac.value).Ok? <==> at.value + 20 <= |raw|)
      && (DecodedPacket(raw) != Panic ==>
        Checked(c, kAut, raw, mac.value) == Ok(MacValid(c, kAut, raw, p)))
  {
    hide FirstAt;
    hide ParsedWithin;
    hide ParsedFrom;
    hide Find;
    hide MacOffsetFrom;
    WalksAgreeWithin(raw, spare, 8, HeaderLength(raw));
    if DecodedPacket(raw) != Panic {
      DecodedAgrees(raw, spare);
      LocatorAgrees(raw);
    }
  }

  /** Twelve bytes that end in an AT_MAC of four: with 16 spare bytes the packet is accepted
      and the check then runs past its end; without, decoding does. */
  lemma MacInSpareBytes(c: Crypto, kAut: Bytes)
    ensures var raw: Bytes := [2, 1, 0, 12, 23, 1, 0, 0, AT_MAC, 1, 0, 0];
      && DecodedWithin(raw, Zeros(16)) == Ok(EapPacket(2, 1, 23, 1, [EapAttribute(AT_MAC, Zeros(16))]))
      && Checked(c, kAut, raw, Zeros(16)) == Panic
      && DecodedPacket(raw) == Panic
  {
    var raw: Bytes := [2, 1, 0, 12, 23, 1, 0, 0, AT_MAC, 1, 0, 0];
    assert (raw + Zeros(16))[12..28] == Zeros(16);
    assert AttributeWithin(raw, Zeros(16), 8) == Ok(EapAttribute(AT_MAC, Zeros(16)));
    assert ParsedWithin(raw, Zeros(16), 12, 12) == Ok([]);
    assert ParsedWithin(raw, Zeros(16), 8, 12) == Ok([EapAttribute(AT_MAC, Zeros(16))]);
    assert DecodeAttribute(raw, 8) == Panic;
  }
}
