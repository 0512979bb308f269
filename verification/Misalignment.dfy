/** Attributes whose encoding is not as long as its length byte claims, inside packets. */
module Misalignment {
  import opened ByteStrings
  import opened Codec
  import opened RoundTrip

  /** A kind the codec has no layout for. */
  predicate Unknown(kind: int) {
    !HoldsBlock(kind) && kind != AT_RES && kind != AT_AUTS && kind != AT_COUNTER && kind != AT_COUNTER_TOO_SMALL
    && kind != AT_PADDING && kind != AT_ENCR_DATA && kind != AT_NEXT_REAUTH_ID
  }

  /** AT_AUTS, and every unknown kind: two bytes longer than any claim. */
  predicate Misaligned(a: EapAttribute) {
    (a.kind == AT_AUTS && |a.value| >= 14) || Unknown(a.kind)
  }

  predicate Either(attributes: seq<EapAttribute>) {
    forall a :: a in attributes ==> WellFramed(a) || Misaligned(a)
  }

  function Misalignments(attributes: seq<EapAttribute>): nat {
    if attributes == [] then 0
    else (if Misaligned(attributes[0]) then 1 else 0) + Misalignments(attributes[1..])
  }

  lemma MisalignedSize(a: EapAttribute)
    requires Misaligned(a)
    ensures Encoded(a).Ok? && |Encoded(a).value| % 4 == 2 && !WellFramed(a)
  {
  }

  lemma {:induction false} ListParity(attributes: seq<EapAttribute>)
    requires Either(attributes)
    ensures EncodedList(attributes).Ok?
    ensures |EncodedList(attributes).value| % 4 == 2 * (Misalignments(attributes) % 2)
  {
    hide Encoded;
    hide WellFramed;
    hide Misaligned;
    if attributes != [] {
      var a, rest := attributes[0], attributes[1..];
      assert a in attributes && forall x :: x in rest ==> x in attributes;
      if Misaligned(a) {
        MisalignedSize(a);
      } else {
        FrameSize(a);
      }
      ListParity(rest);
      Parity(|Encoded(a).value|, |EncodedList(rest).value|, if Misaligned(a) then 1 else 0, Misalignments(rest));
    }
  }

  lemma Parity(x: nat, y: nat, m: nat, n: nat)
    requires m <= 1 && x % 4 == 2 * m && y % 4 == 2 * (n % 2)
    ensures (x + y) % 4 == 2 * ((m + n) % 2)
  {
    var k, h := x / 4 + y / 4, n / 2;
    assert x + y == 4 * k + (2 * m + 2 * (n % 2)) && m + n == 2 * h + (m + n % 2);
    if m == 1 && n % 2 == 1 {
      Remainder4(k + 1, 0);
      Remainder2(h + 1, 0);
    } else {
      Remainder4(k, 2 * m + 2 * (n % 2));
      Remainder2(h, m + n % 2);
    }
  }

  lemma Remainder4(k: nat, r: nat)
    requires r < 4
    ensures (4 * k + r) % 4 == r
  {
  }

  lemma Remainder2(k: nat, r: nat)
    requires r < 2
    ensures (2 * k + r) % 2 == r
  {
  }

  /** Reading to the end of a buffer reads whole 4-byte words. */
  lemma {:induction false} ParsedAligned(buf: Bytes, offset: nat)
    requires offset <= |buf| && ParsedFrom(buf, offset, |buf|).Ok?
    ensures (|buf| - offset) % 4 == 0
    decreases |buf| - offset
  {
    hide DecodeAttribute;
    if offset < |buf| {
      ParsedAligned(buf, offset + Claimed(buf, offset));
    }
  }

  /** A packet with an odd number of misaligned attributes, wherever they are, is never
      accepted. */
  lemma OddNeverDecodes(p: EapPacket)
    requires !IsBare(p.code) && 0 <= p.code < 256 && Either(p.attributes) && Misalignments(p.attributes) % 2 == 1
    requires EncodedList(p.attributes).Ok? ==> |EncodedList(p.attributes).value| < 65528
    ensures EncodedPacket(p).Ok? && !DecodedPacket(EncodedPacket(p).value).Ok?
  {
    hide EncodedList;
    hide ParsedFrom;
    hide Either;
    ListParity(p.attributes);
    var body := EncodedList(p.attributes).value;
    PacketShape(p, body);
    hide EncodedPacket;
    var raw := EncodedPacket(p).value;
    if DecodedPacket(raw).Ok? {
      ParsedAligned(raw, 8);
      assert false;
    }
  }

  lemma {:induction false} NoMisalignments(attributes: seq<EapAttribute>)
    requires AllWellFramed(attributes)
    ensures Misalignments(attributes) == 0
  {
    if attributes != [] {
      assert attributes[0] in attributes;
      NoMisalignments(attributes[1..]);
    }
  }

  lemma {:induction false} OneMisalignment(before: seq<EapAttribute>, a: EapAttribute, after: seq<EapAttribute>)
    requires AllWellFramed(before) && AllWellFramed(after) && Misaligned(a)
    ensures Misalignments(before + [a] + after) == 1
  {
    var all := before + [a] + after;
    if before == [] {
      assert all[0] == a && all[1..] == after;
      NoMisalignments(after);
    } else {
      assert before[0] in before;
      assert all[0] == before[0] && all[1..] == before[1..] + [a] + after;
      OneMisalignment(before[1..], a, after);
    }
  }

  /** The encoder's AT_AUTS is 18 bytes that claim to be 16, so no packet that holds one
      among well-framed attributes is ever accepted by the decoder. */
  lemma EncodedAutsNeverDecodes(p: EapPacket, before: seq<EapAttribute>, v: Bytes, after: seq<EapAttribute>)
    requires !IsBare(p.code) && 0 <= p.code < 256 && |v| >= 14
    requires AllWellFramed(before) && AllWellFramed(after)
    requires p.attributes == before + [EapAttribute(AT_AUTS, v)] + after
    requires EncodedList(p.attributes).Ok? ==> |EncodedList(p.attributes).value| < 65528
    ensures EncodedPacket(p).Ok? && !DecodedPacket(EncodedPacket(p).value).Ok?
  {
    hide WellFramed;
    hide EncodedList;
    hide EncodedPacket;
    hide DecodedPacket;
    var a := EapAttribute(AT_AUTS, v);
    OneMisalignment(before, a, after);
    forall x | x in p.attributes ensures WellFramed(x) || Misaligned(x) {
      assert x in before || x == a || x in after;
    }
    OddNeverDecodes(p);
  }

  /** Two of them can make up for each other: a packet that reads back with neither
      attribute well framed. */
  lemma MisalignmentsCancel()
    ensures var a, b := EapAttribute(AT_AUTS, Zeros(12) + [4, 5]), EapAttribute(AT_AUTS, Zeros(14));
      var p := EapPacket(EAP_RESPONSE, 1, EAP_TYPE_AKA, AKA_SYNC_FAILURE, [a, b]);
      && !ReadsBack(a) && !ReadsBack(b)
      && EncodedPacket(p).Ok? && DecodedPacket(EncodedPacket(p).value) == Ok(p)
  {
    hide Encoded;
    hide EncodedPacket;
    hide DecodedPacket;
    hide ReadsBack;
    hide EncodedList;
    var a, b := EapAttribute(AT_AUTS, Zeros(12) + [4, 5]), EapAttribute(AT_AUTS, Zeros(14));
    NotReadBack(a);
    NotReadBack(b);
    TwoDecode(EapPacket(EAP_RESPONSE, 1, EAP_TYPE_AKA, AKA_SYNC_FAILURE, [a, b]), a, b,
      [4, 4, 0, 0] + Zeros(12) + [4, 5] + ([4, 4, 0, 0] + Zeros(14)));
  }

  lemma TwoDecode(p: EapPacket, a: EapAttribute, b: EapAttribute, body: Bytes)
    requires p == EapPacket(EAP_RESPONSE, 1, EAP_TYPE_AKA, AKA_SYNC_FAILURE, [a, b])
    requires a == EapAttribute(AT_AUTS, Zeros(12) + [4, 5]) && b == EapAttribute(AT_AUTS, Zeros(14))
    requires body == [4, 4, 0, 0] + Zeros(12) + [4, 5] + ([4, 4, 0, 0] + Zeros(14))
    ensures EncodedPacket(p).Ok? && DecodedPacket(EncodedPacket(p).value) == Ok(p)
  {
    hide Encoded;
    hide EncodedList;
    hide ParsedFrom;
    assert |body| == 36;
    TwoAuts(a, b, body);
    PacketShape(p, body);
    hide EncodedPacket;
    TwoRead(EncodedPacket(p).value, a, b, body);
  }

  lemma NotReadBack(a: EapAttribute)
    requires a.kind == AT_AUTS
    ensures !ReadsBack(a)
  {
    hide ReadsBack;
    ReadsBackExactly(a);
  }

  lemma TwoAuts(a: EapAttribute, b: EapAttribute, body: Bytes)
    requires a == EapAttribute(AT_AUTS, Zeros(12) + [4, 5]) && b == EapAttribute(AT_AUTS, Zeros(14))
    requires body == [4, 4, 0, 0] + Zeros(12) + [4, 5] + ([4, 4, 0, 0] + Zeros(14))
    ensures EncodedList([a, b]) == Ok(body)
  {
    assert a.value[..14] == a.value && b.value[..14] == b.value;
    assert Encoded(a).value == [4, 4, 0, 0] + Zeros(12) + [4, 5];
    assert Encoded(b).value == [4, 4, 0, 0] + Zeros(14);
    assert [a, b][1..] == [b] && [b][1..] == [];
    assert EncodedList([]) == Ok([]);
    assert EncodedList([b]) == After(Encoded(b).value, Ok([]));
  }

  lemma TwoRead(raw: Bytes, a: EapAttribute, b: EapAttribute, body: Bytes)
    requires a == EapAttribute(AT_AUTS, Zeros(12) + [4, 5]) && b == EapAttribute(AT_AUTS, Zeros(14))
    requires body == [4, 4, 0, 0] + Zeros(12) + [4, 5] + ([4, 4, 0, 0] + Zeros(14))
    requires |raw| == 44 && raw[8..] == body
    ensures ParsedFrom(raw, 8, 44) == Ok([a, b])
  {
    hide ParsedFrom;
    assert raw[8] == body[0] && raw[9] == body[1] && raw[24] == body[16] && raw[25] == body[17];
    assert raw[12..26] == body[4..18] == a.value;
    assert raw[28..42] == body[20..34] == b.value;
    assert DecodeAttribute(raw, 8) == Ok(a) && DecodeAttribute(raw, 24) == Ok(b);
    OneStep(raw, 8, a);
    OneStep(raw, 24, b);
    NothingLeft(raw, 44);
    assert Claimed(raw, 8) == 16 && Claimed(raw, 24) == 20;
    assert After([b], Ok([])) == Ok([b]);
    assert After([a], Ok([b])) == Ok([a] + [b]) && [a] + [b] == [a, b];
  }

  lemma OneStep(raw: Bytes, offset: nat, a: EapAttribute)
    requires |raw| == 44 && offset < 44 && DecodeAttribute(raw, offset) == Ok(a) && Claimed(raw, offset) > 0
    ensures ParsedFrom(raw, offset, 44) == After([a], ParsedFrom(raw, offset + Claimed(raw, offset), 44))
  {
    hide DecodeAttribute;
  }
}
