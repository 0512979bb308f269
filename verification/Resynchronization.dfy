/** Sequence-number resynchronization across the layers, and what AT_AUTS does on the wire. */
module Resynchronization {
  import opened ByteStrings
  import opened BigEndian
  import opened Bits
  import opened Capacity
  import opened Card
  import opened Codec
  import opened Hss
  import opened Keys
  import opened Mac
  import opened Milenage
  import opened Primitives
  import opened Protocol
  import opened RoundTrip

  // ---------------------------------------------------------------- the standard's AT_AUTS

  /** A packet that holds AT_AUTS as section 10.9 of RFC 4187 lays it out, with no reserved
      bytes, after well-framed attributes. */
  predicate HoldsStandardAuts(raw: Bytes, before: seq<EapAttribute>, middle: nat, auts: Bytes) {
    && AllWellFramed(before) && 8 <= middle && middle + 16 <= |raw| && |auts| == 14
    && Ok(raw[8..middle]) == EncodedList(before) && HeaderLength(raw) == |raw| && !IsBare(raw[0])
    && raw[middle..middle + 16] == [AT_AUTS, 4] + auts
  }

  lemma StandardAutsBytes(raw: Bytes, middle: nat, auts: Bytes)
    requires middle + 16 <= |raw| && |auts| == 14 && raw[middle..middle + 16] == [AT_AUTS, 4] + auts
    ensures raw[middle] == AT_AUTS && Claimed(raw, middle) == 16
    ensures raw[middle + 4..middle + 16] == auts[2..]
  {
    var part := raw[middle..middle + 16];
    assert raw[middle] == part[0] && raw[middle + 1] == part[1];
    assert raw[middle + 4..middle + 16] == part[4..] == auts[2..];
  }

  /** The value is sliced two bytes further on than it is. */
  lemma StandardAutsValue(raw: Bytes, spare: Bytes, middle: nat, auts: Bytes)
    requires middle + 16 <= |raw| && |auts| == 14 && raw[middle..middle + 16] == [AT_AUTS, 4] + auts
    ensures AttributeWithin(raw, spare, middle) ==
      if |raw + spare| < middle + 18 then Panic
      else Ok(EapAttribute(AT_AUTS, auts[2..] + (raw + spare)[middle + 16..middle + 18]))
  {
    StandardAutsBytes(raw, middle, auts);
    var all := raw + spare;
    if |all| >= middle + 18 {
      assert all[middle + 4..middle + 16] == raw[middle + 4..middle + 16];
      assert all[middle + 4..middle + 18] == all[middle + 4..middle + 16] + all[middle + 16..middle + 18];
    }
  }

  /** Such a packet is accepted if and only if two bytes follow, in it or behind it, and
      what follows in it can be read; the AT_AUTS decoded is then two bytes off. */
  lemma StandardAutsRead(raw: Bytes, spare: Bytes, before: seq<EapAttribute>, middle: nat, auts: Bytes)
    requires HoldsStandardAuts(raw, before, middle, auts)
    ensures |raw + spare| < middle + 18 ==> DecodedWithin(raw, spare) == Panic
    ensures DecodedWithin(raw, spare).Ok?
      <==> |raw + spare| >= middle + 18 && ParsedWithin(raw, spare, middle + 16, |raw|).Ok?
    ensures DecodedWithin(raw, spare).Ok? ==>
      Find(DecodedWithin(raw, spare).value.attributes, AT_AUTS)
        == Some(EapAttribute(AT_AUTS, auts[2..] + (raw + spare)[middle + 16..middle + 18]))
  {
    hide EncodedList;
    hide AttributeWithin;
    hide Find;
    hide FirstAt;
    ParsedOverWithin(before, raw, spare, 8, middle, |raw|);
    StandardAutsBytes(raw, middle, auts);
    StandardAutsValue(raw, spare, middle, auts);
    if |raw + spare| >= middle + 18 && ParsedWithin(raw, spare, middle + 16, |raw|).Ok? {
      var a := AttributeWithin(raw, spare, middle).value;
      FindPast(before, a, ParsedWithin(raw, spare, middle + 16, |raw|).value);
    }
  }

  lemma {:induction false} FindPast(before: seq<EapAttribute>, a: EapAttribute, after: seq<EapAttribute>)
    requires AllWellFramed(before) && a.kind == AT_AUTS
    ensures Find(before + ([a] + after), AT_AUTS) == Some(a)
  {
    hide FirstAt;
    if before == [] {
      assert before + ([a] + after) == [a] + after;
    } else {
      var rest := before[1..] + ([a] + after);
      assert before[0] in before && WellFramed(before[0]);
      assert before + ([a] + after) == [before[0]] + rest;
      FindCons(before[0], rest, AT_AUTS);
      FindPast(before[1..], a, after);
    }
  }

  /** An AUTS that is one pair of bytes seven times over. */
  predicate Repeats(auts: Bytes)
    requires |auts| == 14
  {
    forall k :: 0 <= k < 14 ==> auts[k] == auts[k % 2]
  }

  lemma OwnShift(auts: Bytes, next: Bytes)
    requires |auts| == 14 && |next| == 2
    ensures auts == auts[2..] + next <==> Repeats(auts) && next == auts[..2]
  {
    var shifted := auts[2..] + next;
    if auts == shifted {
      assert forall k :: 0 <= k < 12 ==> auts[k + 2] == shifted[k];
      assert auts[0] == auts[2] == auts[4] == auts[6] == auts[8] == auts[10] == auts[12];
      assert auts[1] == auts[3] == auts[5] == auts[7] == auts[9] == auts[11] == auts[13];
      assert next[0] == shifted[12] && next[1] == shifted[13];
    } else if Repeats(auts) && next == auts[..2] {
      forall k | 0 <= k < 14 ensures shifted[k] == auts[k] {
        assert (k + 2) % 2 == k % 2;
      }
      assert false;
    }
  }

  /** A conforming device's AUTS reaches the HSS from an accepted packet if and only if it
      is one pair of bytes repeated and the bytes after it are that pair once more. */
  lemma StandardAutsReachesHss(raw: Bytes, spare: Bytes, before: seq<EapAttribute>, middle: nat, auts: Bytes)
    requires HoldsStandardAuts(raw, before, middle, auts) && DecodedWithin(raw, spare).Ok?
    ensures |raw + spare| >= middle + 18
    ensures Find(DecodedWithin(raw, spare).value.attributes, AT_AUTS) == Some(EapAttribute(AT_AUTS, auts))
      <==> Repeats(auts) && (raw + spare)[middle + 16..middle + 18] == auts[..2]
  {
    hide HoldsStandardAuts;
    hide DecodedWithin;
    hide Find;
    hide Repeats;
    StandardAutsRead(raw, spare, before, middle, auts);
    assert |auts| == 14 by { StandardSize(raw, before, middle, auts); }
    OwnShift(auts, (raw + spare)[middle + 16..middle + 18]);
  }

  lemma StandardSize(raw: Bytes, before: seq<EapAttribute>, middle: nat, auts: Bytes)
    requires HoldsStandardAuts(raw, before, middle, auts)
    ensures |auts| == 14
  {
  }

  /** At the very end of a packet with no spare bytes, reading it runs past the buffer. */
  lemma StandardAutsPanics(raw: Bytes, before: seq<EapAttribute>, middle: nat, auts: Bytes)
    requires HoldsStandardAuts(raw, before, middle, auts) && |raw| < middle + 18
    ensures DecodedPacket(raw) == Panic
  {
    hide DecodedWithin;
    assert raw + [] == raw;
    StandardAutsRead(raw, [], before, middle, auts);
    DecodedWithNone(raw);
  }

  /** The synchronization failure of a conforming device: 24 bytes. */
  function StandardSyncFailure(identifier: byte, auts: Bytes): Bytes {
    [EAP_RESPONSE, identifier, 0, 24, EAP_TYPE_AKA, AKA_SYNC_FAILURE, 0, 0] + ([AT_AUTS, 4] + auts)
  }

  /** With fewer than two bytes behind it the decoder panics; otherwise the AUTS decoded is
      two bytes off. */
  lemma StandardSyncFailureRead(identifier: byte, auts: Bytes, spare: Bytes)
    requires |auts| == 14
    ensures DecodedWithin(StandardSyncFailure(identifier, auts), spare) ==
      if |spare| < 2 then Panic
      else Ok(EapPacket(EAP_RESPONSE, identifier, EAP_TYPE_AKA, AKA_SYNC_FAILURE,
        [EapAttribute(AT_AUTS, auts[2..] + spare[..2])]))
  {
    hide ParsedWithin;
    var raw := StandardSyncFailure(identifier, auts);
    assert raw[8..24] == [AT_AUTS, 4] + auts;
    StandardAutsBytes(raw, 8, auts);
    StandardAutsValue(raw, spare, 8, auts);
    OnlyAttribute(raw, spare);
    if |spare| >= 2 {
      assert (raw + spare)[24..26] == spare[..2];
    }
  }

  lemma OnlyAttribute(raw: Bytes, spare: Bytes)
    requires |raw| == 24 && Claimed(raw, 8) == 16
    ensures ParsedWithin(raw, spare, 8, 24) == match AttributeWithin(raw, spare, 8)
      case Ok(a) => Ok([a])
      case Err => Err
      case Panic => Panic
      case Hang => Hang
  {
    hide AttributeWithin;
    assert ParsedWithin(raw, spare, 24, 24) == Ok([]);
  }

  /** The AUTS the HSS is then asked about. */
  function Misread(auts: Bytes, spare: Bytes): Bytes
    requires |auts| == 14 && |spare| >= 2
  {
    auts[2..] + spare[..2]
  }

  /** What such a device gets, whatever its AUTS: a panic that changes nothing, unless line
      breaks in the relay leave two bytes behind the packet; then the outcome is that of the
      misread AUTS. */
  lemma StandardResync(c: Crypto, s: AuthState, sid: string, x: EapInput, identifier: byte, auts: Bytes)
    requires |auts| == 14 && x.relay.Some? && x.relay.value.raw == StandardSyncFailure(identifier, auts)
    requires GetSession !in x.failing && sid in s.sessions && s.sessions[sid].state == CHALLENGE_SENT
    ensures var spare := x.relay.value.spare;
      EapResponse(c, s, sid, x) ==
        if |spare| < 2 then (s, Crashed)
        else SyncFailure(c, s, sid, s.sessions[sid],
          EapPacket(EAP_RESPONSE, identifier, EAP_TYPE_AKA, AKA_SYNC_FAILURE,
            [EapAttribute(AT_AUTS, Misread(auts, spare))]), x)
  {
    hide DecodedWithin;
    hide SyncFailure;
    hide StandardSyncFailure;
    hide AnswerChecked;
    hide Bare;
    StandardSyncFailureRead(identifier, auts, x.relay.value.spare);
  }

  /** The HSS refuses what it is asked unless that is itself the AUTS of some sequence
      number. */
  lemma MisreadRefused(
    c: Crypto, ki: Block, op: Block, rand: Block, sqnMs: Sqn, spare: Bytes, freshRand: Block)
    requires |spare| >= 2
    ensures Resynced(c, ki, op, rand, Misread(Auts(c, ki, op, rand, sqnMs), spare), freshRand).Some?
      <==> exists other: Sqn :: Auts(c, ki, op, rand, other) == Misread(Auts(c, ki, op, rand, sqnMs), spare)
  {
    hide Auts;
    hide Vectors;
    hide Validated;
    hide Value;
    hide Digits;
    var asked := Misread(Auts(c, ki, op, rand, sqnMs), spare);
    forall other: Sqn
      ensures Validated(c, ki, op, rand, asked) == Some(other) <==> asked == Auts(c, ki, op, rand, other)
    {
      AutsExact(c, ki, op, rand, asked, other);
    }
    if Validated(c, ki, op, rand, asked).Some? {
      var other := Validated(c, ki, op, rand, asked).value;
      assert Auts(c, ki, op, rand, other) == asked;
    }
  }

  // ---------------------------------------------------------------- an AT_AUTS that is read

  /** AT_AUTS with the two reserved bytes the decoder expects, and two bytes of padding so
      that it is as long as it claims: it is decoded as it is. */
  lemma PaddedAutsDecodes(raw: Bytes, before: seq<EapAttribute>, middle: nat, auts: Bytes)
    requires AllWellFramed(before) && 8 <= middle && middle + 20 == |raw| && |auts| == 14
    requires Ok(raw[8..middle]) == EncodedList(before) && HeaderLength(raw) == |raw| && !IsBare(raw[0])
    requires raw[middle..] == [AT_AUTS, 5, 0, 0] + auts + [0, 0]
    ensures DecodedPacket(raw)
      == Ok(EapPacket(raw[0], raw[1], raw[4], raw[5], before + [EapAttribute(AT_AUTS, auts)]))
  {
    hide EncodedList;
    hide WellFramed;
    var part := raw[middle..];
    assert raw[middle] == part[0] && raw[middle + 1] == part[1];
    assert raw[middle + 4..middle + 18] == part[4..18] == auts;
    assert DecodeAttribute(raw, middle) == Ok(EapAttribute(AT_AUTS, auts));
    NothingLeft(raw, |raw|);
    assert ParsedFrom(raw, middle, |raw|) == After([EapAttribute(AT_AUTS, auts)], Ok([]));
    ParsedOver(before, raw, 8, middle, |raw|);
  }

  function PaddedSyncFailure(identifier: byte, auts: Bytes): Bytes {
    [EAP_RESPONSE, identifier, 0, 28, EAP_TYPE_AKA, AKA_SYNC_FAILURE, 0, 0] + ([AT_AUTS, 5, 0, 0] + auts + [0, 0])
  }

  lemma PaddedSyncFailureDecodes(identifier: byte, auts: Bytes)
    requires |auts| == 14
    ensures DecodedPacket(PaddedSyncFailure(identifier, auts))
      == Ok(EapPacket(EAP_RESPONSE, identifier, EAP_TYPE_AKA, AKA_SYNC_FAILURE, [EapAttribute(AT_AUTS, auts)]))
  {
    hide DecodedPacket;
    var raw := PaddedSyncFailure(identifier, auts);
    assert raw[8..8] == [] && raw[8..] == [AT_AUTS, 5, 0, 0] + auts + [0, 0];
    assert EncodedList([]) == Ok([]);
    PaddedAutsDecodes(raw, [], 8, auts);
    assert [] + [EapAttribute(AT_AUTS, auts)] == [EapAttribute(AT_AUTS, auts)];
  }

  // ---------------------------------------------------------------- end to end

  function ForClient(v: AuthVectors): HssVectors { HssVectors(v.rand, v.autn, v.xres, v.ck, v.ik) }

  /** A challenge over well-sized vectors carries them, sealed under the keys they give. */
  lemma ChallengeCarries(c: Crypto, imsi: Bytes, identifier: int, v: HssVectors) returns (q: EapPacket)
    requires |v.rand| == 16 && |v.autn| == 16 && 0 <= identifier < 256
    ensures ChallengeRelay(c, imsi, identifier, v).Ok?
    ensures Authentic(c, KeysFrom(c, MasterKey(c, imsi, v)).kAut, ChallengeRelay(c, imsi, identifier, v).value, q)
    ensures Find(q.attributes, AT_RAND) == Some(EapAttribute(AT_RAND, v.rand))
    ensures Find(q.attributes, AT_AUTN) == Some(EapAttribute(AT_AUTN, v.autn))
    ensures q.code == EAP_REQUEST && q.identifier == identifier && q.subtype == AKA_CHALLENGE
  {
    hide EncodedList;
    hide WellFramed;
    hide Sealed;
    hide Authentic;
    hide KeysFrom;
    hide EncodedPacket;
    hide Find;
    var kAut := KeysFrom(c, MasterKey(c, imsi, v)).kAut;
    var p := ChallengePacket(identifier, v);
    var before := [EapAttribute(AT_RAND, v.rand), EapAttribute(AT_AUTN, v.autn)];
    assert WithMac(p, before, Zeros(16), []) == p;
    BlocksFramed(v.rand, v.autn);
    ChallengeFits(p, before);
    FoundBlocks(v.rand, v.autn, Zeros(16));
    SealingCorrect(c, kAut, p, before, []);
    var mac := ComputeMac(c, kAut, EncodedPacket(p).value);
    q := WithMac(p, before, mac, []);
    assert q.attributes == [before[0], before[1], MacAttribute(mac)];
    FoundBlocks(v.rand, v.autn, mac);
  }

  lemma BlocksFramed(rand: Bytes, autn: Bytes)
    requires |rand| == 16 && |autn| == 16
    ensures var before := [EapAttribute(AT_RAND, rand), EapAttribute(AT_AUTN, autn)];
      AllWellFramed(before) && EncodedList(before).Ok? && |EncodedList(before).value| == 40
  {
    var a, b := EapAttribute(AT_RAND, rand), EapAttribute(AT_AUTN, autn);
    assert [a, b][1..] == [b] && [b][1..] == [];
    assert EncodedList([]) == Ok([]);
    assert |Encoded(a).value| == 20 && |Encoded(b).value| == 20;
    assert EncodedList([b]) == After(Encoded(b).value, Ok([]));
    assert EncodedList([a, b]) == After(Encoded(a).value, EncodedList([b]));
  }

  lemma ChallengeFits(p: EapPacket, before: seq<EapAttribute>)
    requires p == WithMac(p, before, Zeros(16), [])
    requires AllWellFramed(before) && EncodedList(before).Ok? && |EncodedList(before).value| == 40
    requires p.code == EAP_REQUEST && 0 <= p.identifier < 256
    requires p.eapType == EAP_TYPE_AKA && p.subtype == AKA_CHALLENGE
    ensures Representable(p)
  {
    hide WellFramed;
    BodyWithMac(before, Zeros(16), []);
    assert EncodedList([]) == Ok([]);
  }

  lemma FoundBlocks(rand: Bytes, autn: Bytes, mac: Bytes)
    ensures var all := [EapAttribute(AT_RAND, rand), EapAttribute(AT_AUTN, autn), MacAttribute(mac)];
      Find(all, AT_RAND) == Some(all[0]) && Find(all, AT_AUTN) == Some(all[1])
    ensures Find([EapAttribute(AT_RAND, rand), EapAttribute(AT_AUTN, autn)], AT_MAC).None?
  {
    var all := [EapAttribute(AT_RAND, rand), EapAttribute(AT_AUTN, autn), MacAttribute(mac)];
    assert all[1..][0] == all[1];
  }

  /** The session is resynchronized: its card finds SQN_MS + 32 modulo 2^48 in the new
      challenge, accepts it, and computes the RES and the master key that the session holds. */
  predicate Resynchronized(
    c: Crypto, ki: Block, op: Block, imsi: Bytes, sid: string, after: AuthState, reply: Reply,
    sqnMs: Sqn, freshRand: Block, autn: Block, q: EapPacket)
  {
    && reply.Challenge? && reply.sessionId == sid && sid in after.sessions
    && var session, o, n := after.sessions[sid], Value(op), Value(freshRand);
    && Authentic(c, session.kAut, reply.relay, q)
    && Find(q.attributes, AT_RAND) == Some(EapAttribute(AT_RAND, freshRand))
    && Find(q.attributes, AT_AUTN) == Some(EapAttribute(AT_AUTN, autn))
    && CardSqn(c, ki, op, freshRand, autn) == (Value(sqnMs) + 32) % 0x1_0000_0000_0000
    && CardAccepts(c, ki, op, freshRand, autn) && autn[6..8] == [0x80, 0]
    && session.state == CHALLENGE_SENT && session.imsi == imsi && session.rand == freshRand
    && |session.xres| == 8 && Value(session.xres) == CardRes(c, ki, o, n)
    && var mk := c.sha1([48] + imsi + Digits(CardIk(c, ki, o, n), 16) + Digits(CardCk(c, ki, o, n), 16));
      session.mk == mk && session.kAut == Prf(c, mk, 160)[16..32]
  }

  /** What the HSS answers when it is asked about this AUTS. */
  function HssAnswer(c: Crypto, ki: Block, op: Block, rand: Block, auts: Bytes, freshRand: Block): Option<HssVectors> {
    match Resynced(c, ki, op, rand, auts, freshRand)
    case Some(vectors) => Some(ForClient(vectors))
    case None => None
  }

  /** From a decoded AT_AUTS that holds the AUTS of a device at SQN_MS to the new challenge. */
  lemma ResyncEndToEnd(
    c: Crypto, ki: Block, op: Block, s: AuthState, sid: string, x: EapInput, p: EapPacket,
    rand: Block, sqnMs: Sqn, freshRand: Block) returns (autn: Block, q: EapPacket)
    requires sid in s.sessions && s.sessions[sid].state == CHALLENGE_SENT && s.sessions[sid].rand == rand
    requires x.failing == {} && !x.expires && x.relay.Some?
    requires DecodedWithin(x.relay.value.raw, x.relay.value.spare) == Ok(p)
    requires p.subtype == AKA_SYNC_FAILURE
    requires Find(p.attributes, AT_AUTS) == Some(EapAttribute(AT_AUTS, Auts(c, ki, op, rand, sqnMs)))
    requires var auts := Auts(c, ki, op, rand, sqnMs);
      x.resync(s.sessions[sid].imsi, rand, auts) == HssAnswer(c, ki, op, rand, auts, freshRand)
    ensures var (after, reply) := EapResponse(c, s, sid, x);
      Resynchronized(c, ki, op, s.sessions[sid].imsi, sid, after, reply, sqnMs, freshRand, autn, q)
  {
    hide FirstAt;
    hide Vectors;
    hide Value;
    hide Xor;
    hide Pow256;
    hide Auts;
    hide Resynced;
    hide DecodedWithin;
    hide Find;
    hide Authentic;
    hide ChallengeRelay;
    hide MasterKey;
    hide KeysFrom;
    hide Bare;
    hide AnswerChecked;
    hide CardSqn;
    hide CardAccepts;
    hide CardRes;
    hide CardCk;
    hide CardIk;
    hide Digits;
    hide Prf;
    ResyncForCard(c, ki, op, rand, sqnMs, freshRand);
    var v := Resynced(c, ki, op, rand, Auts(c, ki, op, rand, sqnMs), freshRand).value;
    autn := v.autn;
    MasterKeyIs(c, s.sessions[sid].imsi, ForClient(v));
    var identifier := Bumped(s.idCounter) % 256;
    q := ChallengeCarries(c, s.sessions[sid].imsi, identifier, ForClient(v));
  }

  /** The master key is SHA-1 of "0", IMSI, IK and CK; K_aut is the generator's second block. */
  lemma MasterKeyIs(c: Crypto, imsi: Bytes, v: HssVectors)
    ensures MasterKey(c, imsi, v) == c.sha1([48] + imsi + v.ik + v.ck)
    ensures KeysFrom(c, MasterKey(c, imsi, v)).kAut == Prf(c, MasterKey(c, imsi, v), 160)[16..32]
  {
    hide Prf;
    assert BuildIdentity(imsi) + v.ik + v.ck == [48] + imsi + v.ik + v.ck;
  }

  /** On the wire: a device that pads its AT_AUTS is resynchronized, for every sequence
      number, from the 28 bytes it sends. */
  lemma PaddedResync(
    c: Crypto, ki: Block, op: Block, s: AuthState, sid: string, x: EapInput, identifier: byte,
    rand: Block, sqnMs: Sqn, freshRand: Block) returns (autn: Block, q: EapPacket)
    requires sid in s.sessions && s.sessions[sid].state == CHALLENGE_SENT && s.sessions[sid].rand == rand
    requires x.failing == {} && !x.expires
    requires x.relay.Some? && x.relay.value.raw == PaddedSyncFailure(identifier, Auts(c, ki, op, rand, sqnMs))
    requires var auts := Auts(c, ki, op, rand, sqnMs);
      x.resync(s.sessions[sid].imsi, rand, auts) == HssAnswer(c, ki, op, rand, auts, freshRand)
    ensures var (after, reply) := EapResponse(c, s, sid, x);
      Resynchronized(c, ki, op, s.sessions[sid].imsi, sid, after, reply, sqnMs, freshRand, autn, q)
  {
    hide Auts;
    hide DecodedPacket;
    hide DecodedWithin;
    hide EapResponse;
    hide Resynchronized;
    hide HssAnswer;
    hide PaddedSyncFailure;
    hide FirstAt;
    var auts := Auts(c, ki, op, rand, sqnMs);
    PaddedSyncFailureDecodes(identifier, auts);
    DecodedAgrees(PaddedSyncFailure(identifier, auts), x.relay.value.spare);
    var p := EapPacket(EAP_RESPONSE, identifier, EAP_TYPE_AKA, AKA_SYNC_FAILURE, [EapAttribute(AT_AUTS, auts)]);
    autn, q := ResyncEndToEnd(c, ki, op, s, sid, x, p, rand, sqnMs, freshRand);
  }
}
