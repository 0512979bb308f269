/** Honest peers are let in, byte for byte. */
module Completion {
  import opened ByteStrings
  import opened Capacity
  import opened Codec
  import opened Encryption
  import opened Keys
  import opened Mac
  import opened Primitives
  import opened Protocol
  import opened RoundTrip
  import opened Safety
  import opened Soundness

  /** The peer's answer, and the identity it will use next time. */
  datatype PeerReply = PeerReply(response: Bytes, next: Bytes)

  /** What a peer that shares the keys answers to a re-authentication request: it checks the
      packet, decrypts AT_COUNTER and AT_NEXT_REAUTH_ID, sends the counter back encrypted
      under its own IV, and keeps the identity. */
  function HonestReply(c: Crypto, kAut: Bytes, kEncr: Bytes, relay: Bytes, peerIv: Block): Option<PeerReply> {
    match DecodedPacket(relay)
    case Ok(p) =>
      if p.code != EAP_REQUEST || p.subtype != AKA_REAUTHENTICATION || !MacValid(c, kAut, relay, p) then None
      else
        var iv, data := Find(p.attributes, AT_IV), Find(p.attributes, AT_ENCR_DATA);
        if iv.None? || data.None? then None
        else EchoCounter(c, kAut, kEncr, p.identifier, Decrypted(c, kEncr, iv.value.value, data.value.value), peerIv)
    case _ => None
  }

  function EchoCounter(
    c: Crypto, kAut: Bytes, kEncr: Bytes, identifier: int, inner: Outcome<seq<EapAttribute>>, peerIv: Block):
    Option<PeerReply>
  {
    if !inner.Ok? then None
    else
      var counter, next := Find(inner.value, AT_COUNTER), Find(inner.value, AT_NEXT_REAUTH_ID);
      if counter.None? || next.None? then None
      else
        match SealedReauth(c, kAut, kEncr, EAP_RESPONSE, identifier, peerIv, [counter.value])
        case Ok(response) => Some(PeerReply(response, next.value.value))
        case _ => None
  }

  function Sent(o: Outcome<Bytes>): Option<Bytes> {
    match o case Ok(bytes) => Some(bytes) case _ => None
  }

  /** The relay holds these bytes, whatever lies behind them. */
  predicate Carries(relay: Option<Received>, bytes: Option<Bytes>) {
    relay.Some? && bytes == Some(relay.value.raw)
  }

  /** The relay holds the peer's answer. */
  predicate Brings(relay: Option<Received>, peer: Option<PeerReply>) {
    peer.Some? && Carries(relay, Some(peer.value.response))
  }

  function Carried(bytes: Option<Bytes>, spare: Bytes): (relay: Option<Received>)
    ensures bytes.Some? ==> Carries(relay, bytes)
  {
    match bytes case Some(raw) => Some(Received(raw, spare)) case None => None
  }

  /** An AKA-Reauthentication packet around encrypted attributes. */
  function SealedReauth(
    c: Crypto, kAut: Bytes, kEncr: Bytes, code: int, identifier: int, iv: Block, inner: seq<EapAttribute>):
    Outcome<Bytes>
  {
    match Encrypted(c, kEncr, iv, inner)
    case Ok(cipher) => Sealed(c, kAut, ReauthPacket(code, identifier, iv, cipher))
    case other => other
  }

  /** What the receiver of such a packet gets. */
  predicate Delivers(
    c: Crypto, kAut: Bytes, kEncr: Bytes, raw: Bytes, p: EapPacket,
    code: int, identifier: int, inner: seq<EapAttribute>)
  {
    && DecodedPacket(raw) == Ok(p) && p.code == code && p.identifier == identifier
    && p.subtype == AKA_REAUTHENTICATION && MacValid(c, kAut, raw, p)
    && Find(p.attributes, AT_IV).Some? && Find(p.attributes, AT_ENCR_DATA).Some?
    && Decrypted(c, kEncr, Find(p.attributes, AT_IV).value.value, Find(p.attributes, AT_ENCR_DATA).value.value)
      == Ok(inner)
  }

  predicate Small(inner: seq<EapAttribute>) {
    && AllWellFramed(inner) && (forall a :: a in inner ==> IsInner(a.kind))
    && EncodedList(inner).Ok? && |EncodedList(inner).value| <= 100
  }

  lemma CipherSize(c: Crypto, kEncr: Bytes, iv: Block, inner: seq<EapAttribute>)
    requires Small(inner) && IsAesKey(kEncr)
    ensures Encrypted(c, kEncr, iv, inner).Ok?
    ensures var n := |Encrypted(c, kEncr, iv, inner).value|; n % 4 == 0 && n <= 120
  {
    hide EncodedList;
    hide WellFramed;
    var padding := PaddingSizes(inner);
    if padding != [] {
      var k :| k in {4, 8, 12} && padding == [PaddingAttribute(k)];
      OnePadding(k);
      FrameSize(PaddingAttribute(k));
      EncodedListAppend(inner, padding);
      PaddingFrame(k);
    } else {
      assert inner + padding == inner;
    }
  }

  lemma PaddingFrame(k: nat)
    requires k in {4, 8, 12}
    ensures Encoded(PaddingAttribute(k)).Ok? && |Encoded(PaddingAttribute(k)).value| == k
  {
  }

  lemma IvAndDataFramed(iv: Block, cipher: Bytes)
    requires |cipher| % 4 == 0 && |cipher| <= 120
    ensures var before := [EapAttribute(AT_IV, iv), EapAttribute(AT_ENCR_DATA, cipher)];
      AllWellFramed(before) && EncodedList(before).Ok? && |EncodedList(before).value| <= 160
  {
    var a, b := EapAttribute(AT_IV, iv), EapAttribute(AT_ENCR_DATA, cipher);
    assert [a, b][1..] == [b] && [b][1..] == [];
    assert EncodedList([]) == Ok([]);
    assert |Encoded(a).value| == 20 && |Encoded(b).value| == 4 + |cipher|;
    assert EncodedList([b]) == After(Encoded(b).value, Ok([]));
    assert EncodedList([a, b]) == After(Encoded(a).value, EncodedList([b]));
  }

  lemma FoundParts(iv: Block, cipher: Bytes, mac: EapAttribute)
    requires mac.kind == AT_MAC
    ensures var all := [EapAttribute(AT_IV, iv), EapAttribute(AT_ENCR_DATA, cipher), mac];
      && Find(all, AT_IV) == Some(all[0]) && Find(all, AT_ENCR_DATA) == Some(all[1])
    ensures Find([EapAttribute(AT_IV, iv), EapAttribute(AT_ENCR_DATA, cipher)], AT_MAC).None?
  {
    var all := [EapAttribute(AT_IV, iv), EapAttribute(AT_ENCR_DATA, cipher), mac];
    assert all[1..][0] == all[1];
  }

  /** A re-authentication packet under valid keys is produced and delivers its attributes. */
  lemma ReauthDelivers(
    c: Crypto, kAut: Bytes, kEncr: Bytes, code: int, identifier: int, iv: Block, inner: seq<EapAttribute>)
    returns (q: EapPacket)
    requires Invertible(c) && IsAesKey(kEncr) && Small(inner)
    requires (code == EAP_REQUEST || code == EAP_RESPONSE) && 0 <= identifier < 256
    ensures var raw := SealedReauth(c, kAut, kEncr, code, identifier, iv, inner);
      raw.Ok? && Delivers(c, kAut, kEncr, raw.value, q, code, identifier, inner)
  {
    hide EncodedList;
    hide WellFramed;
    hide Encrypted;
    hide Decrypted;
    hide Sealed;
    hide MacValid;
    hide DecodedPacket;
    hide EncodedPacket;
    hide Find;
    CipherSize(c, kEncr, iv, inner);
    var cipher := Encrypted(c, kEncr, iv, inner).value;
    var before := [EapAttribute(AT_IV, iv), EapAttribute(AT_ENCR_DATA, cipher)];
    var p := ReauthPacket(code, identifier, iv, cipher);
    IvAndDataFramed(iv, cipher);
    FoundParts(iv, cipher, MacAttribute(Zeros(16)));
    assert WithMac(p, before, Zeros(16), []) == p;
    FitsHeader(p, before);
    SealingCorrect(c, kAut, p, before, []);
    var mac := ComputeMac(c, kAut, EncodedPacket(p).value);
    q := WithMac(p, before, mac, []);
    assert q.attributes == [before[0], before[1], MacAttribute(mac)];
    FoundParts(iv, cipher, MacAttribute(mac));
    EncryptionRoundTrip(c, kEncr, iv, inner);
  }

  lemma FitsHeader(p: EapPacket, before: seq<EapAttribute>)
    requires p == WithMac(p, before, Zeros(16), [])
    requires AllWellFramed(before) && EncodedList(before).Ok? && |EncodedList(before).value| <= 2048
    requires (p.code == EAP_REQUEST || p.code == EAP_RESPONSE) && 0 <= p.identifier < 256
    requires p.eapType == EAP_TYPE_AKA && 0 <= p.subtype < 256
    ensures Representable(p)
  {
    hide WellFramed;
    BodyWithMac(before, Zeros(16), []);
    assert EncodedList([]) == Ok([]);
  }

  lemma InnerIsSmall(counter: int, nonceS: Block, nextId: Identity)
    ensures Small(InnerAttributes(counter, nonceS, nextId)) && Small([CounterAttribute(counter)])
    ensures Find(InnerAttributes(counter, nonceS, nextId), AT_COUNTER) == Some(CounterAttribute(counter))
    ensures Find(InnerAttributes(counter, nonceS, nextId), AT_NONCE_S) == Some(EapAttribute(AT_NONCE_S, nonceS))
    ensures Find(InnerAttributes(counter, nonceS, nextId), AT_NEXT_REAUTH_ID)
      == Some(EapAttribute(AT_NEXT_REAUTH_ID, nextId))
  {
    var x, y, z := CounterAttribute(counter), EapAttribute(AT_NONCE_S, nonceS), EapAttribute(AT_NEXT_REAUTH_ID, nextId);
    CounterFrame(counter);
    NonceFrame(nonceS);
    NextFrame(nextId);
    hide Encoded;
    hide Find;
    hide WellFramed;
    var all := [x, y, z];
    assert all[1..] == [y, z] && [y, z][1..] == [z] && [z][1..] == [] && [x][1..] == [];
    assert EncodedList([]) == Ok([]);
    assert EncodedList([z]) == After(Encoded(z).value, Ok([]));
    assert EncodedList([y, z]) == After(Encoded(y).value, EncodedList([z]));
    assert EncodedList(all) == After(Encoded(x).value, EncodedList([y, z]));
    FoundInner(counter, nonceS, nextId);
    assert EncodedList([x]) == After(Encoded(x).value, Ok([]));
  }

  lemma FoundInner(counter: int, nonceS: Block, nextId: Identity)
    ensures var all :=
        [CounterAttribute(counter), EapAttribute(AT_NONCE_S, nonceS), EapAttribute(AT_NEXT_REAUTH_ID, nextId)];
      && Find(all, AT_COUNTER) == Some(all[0]) && Find(all, AT_NONCE_S) == Some(all[1])
      && Find(all, AT_NEXT_REAUTH_ID) == Some(all[2])
  {
    hide FirstAt;
    var all := [CounterAttribute(counter), EapAttribute(AT_NONCE_S, nonceS), EapAttribute(AT_NEXT_REAUTH_ID, nextId)];
    assert all[1..][0] == all[1] && all[1..][1..][0] == all[2];
  }

  lemma CounterFrame(counter: int)
    ensures var a := CounterAttribute(counter); WellFramed(a) && Encoded(a).Ok? && |Encoded(a).value| == 4
  {
  }

  lemma NonceFrame(nonceS: Block)
    ensures var a := EapAttribute(AT_NONCE_S, nonceS); WellFramed(a) && Encoded(a).Ok? && |Encoded(a).value| == 20
  {
  }

  lemma NextFrame(nextId: Identity)
    ensures var a := EapAttribute(AT_NEXT_REAUTH_ID, nextId);
      WellFramed(a) && Encoded(a).Ok? && |Encoded(a).value| == 36
  {
    PrefixedSize(32, nextId);
  }

  // ---------------------------------------------------------------- fast re-authentication

  /** What a challenge tells a peer that shares the identity's keys: an authentic request
      whose encrypted attributes are the counter, the nonce and the next identity. */
  predicate Tells(c: Crypto, r: ReauthState, x: ReauthInput, identifier: int, relay: Bytes) {
    var d := DecodedPacket(relay);
    && d.Ok? && d.value.code == 1 && d.value.subtype == 13 && d.value.identifier == identifier
    && MacValid(c, r.kAut, relay, d.value)
    && var iv, data := Find(d.value.attributes, AT_IV), Find(d.value.attributes, AT_ENCR_DATA);
      && iv.Some? && data.Some? && TellsInside(r, x, Decrypted(c, r.kEncr, iv.value.value, data.value.value))
  }

  predicate TellsInside(r: ReauthState, x: ReauthInput, inner: Outcome<seq<EapAttribute>>) {
    && inner.Ok?
    && var counter, nonce, next :=
        Find(inner.value, AT_COUNTER), Find(inner.value, AT_NONCE_S), Find(inner.value, AT_NEXT_REAUTH_ID);
      && counter.Some? && nonce.Some? && next.Some?
      && counter.value.value == [r.counter / 256 % 256, r.counter % 256]
      && nonce.value.value == x.nonceS && next.value.value == x.newId
  }

  lemma CounterValue(counter: int)
    ensures CounterAttribute(counter).value == [counter / 256 % 256, counter % 256]
  {
  }

  /** A peer that is told answers with the counter and keeps the next identity. */
  lemma ToldPeerAnswers(
    c: Crypto, r: ReauthState, x: ReauthInput, identifier: int, relay: Bytes, peerIv: Block)
    requires Tells(c, r, x, identifier, relay)
    requires SealedReauth(c, r.kAut, r.kEncr, EAP_RESPONSE, identifier, peerIv, [CounterAttribute(r.counter)]).Ok?
    ensures HonestReply(c, r.kAut, r.kEncr, relay, peerIv)
      == Some(PeerReply(SealedReauth(c, r.kAut, r.kEncr, EAP_RESPONSE, identifier, peerIv,
        [CounterAttribute(r.counter)]).value, x.newId))
  {
    hide Decrypted;
    hide SealedReauth;
    hide MacValid;
    hide DecodedPacket;
    hide FirstAt;
    CounterValue(r.counter);
    var p := DecodedPacket(relay).value;
    var iv, data := Find(p.attributes, AT_IV).value.value, Find(p.attributes, AT_ENCR_DATA).value.value;
    var inner := Decrypted(c, r.kEncr, iv, data);
    CounterFound(inner.value, r.counter);
    hide Find;
  }

  lemma CounterFound(inner: seq<EapAttribute>, counter: int)
    requires Find(inner, AT_COUNTER).Some? && Find(inner, AT_COUNTER).value.value == CounterAttribute(counter).value
    ensures Find(inner, AT_COUNTER).value == CounterAttribute(counter)
  {
    hide FirstAt;
  }

  /** A request for a live identity that is not exhausted is answered with a challenge that
      tells the peer all it needs, and its session is stored. */
  lemma RequestAnswered(c: Crypto, s: Server, id: Bytes, x: ReauthInput, peerIv: Block)
    requires Invertible(c) && x.failing == {} && id in s.auth.identities
    requires var r := s.auth.identities[id]; IsAesKey(r.kEncr) && 1 <= r.counter < 65535
    ensures var r := s.auth.identities[id];
      var (s', reply) := ReauthRequest(c, s, id, x);
      && reply.Challenge? && reply.sessionId == x.sid && x.sid in s'.reauthSessions
      && s'.auth == s.auth
      && s'.reauthSessions == s.reauthSessions[x.sid := s'.reauthSessions[x.sid]]
      && s'.reauthSessions[x.sid] == NewReauthSession(r, id, s'.reauthSessions[x.sid].identifier, x)
      && s'.reauthSessions[x.sid].identifier == (s.reauthIdCounter + 1) % 0x1_0000_0000 % 256
      && Tells(c, r, x, s'.reauthSessions[x.sid].identifier, reply.relay)
      && var answer := SealedReauth(c, r.kAut, r.kEncr, EAP_RESPONSE, s'.reauthSessions[x.sid].identifier, peerIv,
          [CounterAttribute(r.counter)]);
      && answer.Ok?
      && HonestReply(c, r.kAut, r.kEncr, reply.relay, peerIv) == Some(PeerReply(answer.value, x.newId))
  {
    hide Tells;
    hide SealedReauth;
    hide HonestReply;
    hide ReauthRelay;
    hide ReauthRequest;
    hide NewReauthSession;
    var r := s.auth.identities[id];
    var identifier := Bumped(s.reauthIdCounter) % 256;
    RelayTells(c, r, identifier, x);
    RequestStored(c, s, id, x);
    AnswerSealed(c, r, identifier, peerIv);
    ToldPeerAnswers(c, r, x, identifier, ReauthRelay(c, r, identifier, x).value, peerIv);
  }

  lemma RequestStored(c: Crypto, s: Server, id: Bytes, x: ReauthInput)
    requires x.failing == {} && id in s.auth.identities && s.auth.identities[id].counter < 65535
    requires ReauthRelay(c, s.auth.identities[id], Bumped(s.reauthIdCounter) % 256, x).Ok?
    ensures var r, identifier := s.auth.identities[id], Bumped(s.reauthIdCounter) % 256;
      var session := NewReauthSession(r, id, identifier, x);
      && session.identifier == identifier
      && ReauthRequest(c, s, id, x) == (
        Server(s.auth, s.reauthSessions[x.sid := session], Bumped(s.reauthIdCounter)),
        Challenge(ReauthRelay(c, r, identifier, x).value, x.sid))
  {
    hide ReauthRelay;
  }

  lemma AnswerSealed(c: Crypto, r: ReauthState, identifier: int, peerIv: Block)
    requires Invertible(c) && IsAesKey(r.kEncr) && 0 <= identifier < 256
    ensures SealedReauth(c, r.kAut, r.kEncr, EAP_RESPONSE, identifier, peerIv, [CounterAttribute(r.counter)]).Ok?
  {
    hide SealedReauth;
    hide Delivers;
    hide Small;
    InnerIsSmall(r.counter, Zeros(16), Zeros(32));
    var _ := ReauthDelivers(c, r.kAut, r.kEncr, EAP_RESPONSE, identifier, peerIv, [CounterAttribute(r.counter)]);
  }

  lemma RelayTells(c: Crypto, r: ReauthState, identifier: int, x: ReauthInput)
    requires Invertible(c) && IsAesKey(r.kEncr) && 1 <= r.counter < 65535 && 0 <= identifier < 256
    ensures var relay := ReauthRelay(c, r, identifier, x);
      relay.Ok? && Tells(c, r, x, identifier, relay.value)
  {
    hide Encrypted;
    hide Decrypted;
    hide Sealed;
    hide MacValid;
    hide DecodedPacket;
    hide Find;
    hide Small;
    hide InnerAttributes;
    hide ReauthPacket;
    InnerIsSmall(r.counter, x.nonceS, x.newId);
    CounterValue(r.counter);
    var q := ReauthDelivers(c, r.kAut, r.kEncr, EAP_REQUEST, identifier, x.iv,
      InnerAttributes(r.counter, x.nonceS, x.newId));
  }

  /** A sealed echo of an open session's counter is accepted, under any identifier and IV
      and with any bytes behind it. */
  lemma EchoAccepted(c: Crypto, session: ReauthSessionData, relay: Received, identifier: int, peerIv: Block)
    requires Invertible(c) && IsAesKey(session.kEncr) && 1 <= session.counter < 65535
    requires 0 <= identifier < 256
    requires Sent(SealedReauth(c, session.kAut, session.kEncr, EAP_RESPONSE, identifier, peerIv,
      [CounterAttribute(session.counter)])) == Some(relay.raw)
    ensures Accepts(c, session, relay)
  {
    hide Encrypted;
    hide Decrypted;
    hide Sealed;
    hide MacValid;
    hide DecodedPacket;
    hide DecodedWithin;
    hide Find;
    hide Small;
    InnerIsSmall(session.counter, Zeros(16), Zeros(32));
    var q := ReauthDelivers(c, session.kAut, session.kEncr, EAP_RESPONSE, identifier, peerIv,
      [CounterAttribute(session.counter)]);
    DecodedAgrees(relay.raw, relay.spare);
    FindOnly(CounterAttribute(session.counter));
  }

  /** An accepted response rotates the identity. */
  lemma AcceptedRotates(c: Crypto, s: Server, sid: string, y: ReauthReplyInput)
    requires GetReauthSession !in y.failing && sid in s.reauthSessions
    requires y.relay.Some? && Accepts(c, s.reauthSessions[sid], y.relay.value)
    ensures ReauthResponse(c, s, sid, y) == Rotate(s, sid, s.reauthSessions[sid], y.failing)
  {
    hide Decrypted;
    hide MacValid;
    hide DecodedWithin;
    hide ResponseChecked;
    hide InnerOf;
    hide Find;
    hide Rotate;
    hide StartOver;
    var session, relay := s.reauthSessions[sid], y.relay.value;
    CheckedResponds(c, session, relay.raw, DecodedWithin(relay.raw, relay.spare).value);
  }

  /** The honest answer to an open session's challenge rotates the identity. */
  lemma ReplyAccepted(c: Crypto, s: Server, sid: string, y: ReauthReplyInput, identifier: int, peerIv: Block)
    requires Invertible(c) && GetReauthSession !in y.failing && sid in s.reauthSessions && 0 <= identifier < 256
    requires var session := s.reauthSessions[sid];
      && IsAesKey(session.kEncr) && 1 <= session.counter < 65535
      && Carries(y.relay, Sent(SealedReauth(c, session.kAut, session.kEncr, EAP_RESPONSE, identifier, peerIv,
        [CounterAttribute(session.counter)])))
    ensures ReauthResponse(c, s, sid, y) == Rotate(s, sid, s.reauthSessions[sid], y.failing)
  {
    hide SealedReauth;
    hide Accepts;
    hide Rotate;
    hide ReauthResponse;
    EchoAccepted(c, s.reauthSessions[sid], y.relay.value, identifier, peerIv);
    AcceptedRotates(c, s, sid, y);
  }

  lemma FindOnly(a: EapAttribute)
    requires a.kind == AT_COUNTER
    ensures Find([a], AT_COUNTER) == Some(a) && Find([a], AT_COUNTER_TOO_SMALL).None?
  {
  }

  /** From any consistent state: request, honest answer, success. The old identity and the
      session are gone, the identity the peer was told is live with the counter advanced by
      one and everything else unchanged. */
  lemma FastReauthCompletes(c: Crypto, s: Server, id: Bytes, x: ReauthInput, y: ReauthReplyInput, peerIv: Block)
    requires Invertible(c) && Consistent(c, s) && x.failing == {} && y.failing == {}
    requires id in s.auth.identities && s.auth.identities[id].counter < 65535
    ensures var r := s.auth.identities[id];
      var (s1, reply) := ReauthRequest(c, s, id, x);
      && reply.Challenge? && reply.sessionId == x.sid
      && var peer := HonestReply(c, r.kAut, r.kEncr, reply.relay, peerIv);
      && peer.Some? && peer.value.next == x.newId
      && (Brings(y.relay, peer) ==>
        var (s2, outcome) := ReauthResponse(c, s1, x.sid, y);
        && outcome.Success? && outcome.identity == peer.value.next && outcome.subscriberId == r.subscriberId
        && s2.auth == s.auth.(identities := (s.auth.identities - {id})
          [peer.value.next := r.(counter := r.counter + 1, identity := peer.value.next)])
        && s2.reauthSessions == s.reauthSessions - {x.sid})
  {
    hide ReauthRequest;
    hide ReauthResponse;
    hide HonestReply;
    hide SealedReauth;
    hide Tells;
    hide Small;
    hide Consistent;
    hide Rotate;
    var r := s.auth.identities[id];
    KeysUsable(c, s, id);
    RequestAnswered(c, s, id, x, peerIv);
    var (s1, reply) := ReauthRequest(c, s, id, x);
    var session := s1.reauthSessions[x.sid];
    if Brings(y.relay, HonestReply(c, r.kAut, r.kEncr, reply.relay, peerIv)) {
      ReplyAccepted(c, s1, x.sid, y, session.identifier, peerIv);
      Rotated(s, s1, x.sid, session, r);
    }
  }

  lemma KeysUsable(c: Crypto, s: Server, id: Bytes)
    requires Consistent(c, s) && id in s.auth.identities
    ensures var r := s.auth.identities[id]; r.identity == id && r.counter >= 1 && IsAesKey(r.kEncr)
  {
    hide KeysFrom;
    var r := s.auth.identities[id];
    assert IdentityOk(c, id, r);
    KeysPartition(c, r.mk, 160);
  }

  lemma Rotated(s: Server, s1: Server, sid: string, session: ReauthSessionData, r: ReauthState)
    requires s1.auth == s.auth && s1.reauthSessions == s.reauthSessions[sid := session]
    requires NextState(session) == r.(counter := r.counter + 1, identity := session.nextReauthId)
    requires session.reauthId == r.identity && session.subscriberId == r.subscriberId
    ensures var (s2, outcome) := Rotate(s1, sid, session, {});
      && outcome.Success? && outcome.identity == session.nextReauthId && outcome.subscriberId == r.subscriberId
      && s2.auth == s.auth.(identities :=
        (s.auth.identities - {r.identity})[session.nextReauthId := NextState(session)])
      && s2.reauthSessions == s.reauthSessions - {sid}
  {
    hide Bare;
    assert s.reauthSessions[sid := session] - {sid} == s.reauthSessions - {sid};
  }

  // ---------------------------------------------------------------- full authentication

  function AnswerPacket(identifier: int, res: Bytes): EapPacket {
    EapPacket(EAP_RESPONSE, identifier, EAP_TYPE_AKA, AKA_CHALLENGE,
      [EapAttribute(AT_RES, res), EapAttribute(AT_MAC, Zeros(16))])
  }

  lemma ResFramed(res: Bytes)
    requires |res| <= 1016
    ensures var before := [EapAttribute(AT_RES, res)];
      AllWellFramed(before) && EncodedList(before).Ok? && |EncodedList(before).value| <= 1020
      && Find(before, AT_MAC).None?
  {
    var a := EapAttribute(AT_RES, res);
    FrameSize(a);
    assert [a][1..] == [];
    assert EncodedList([]) == Ok([]);
    assert EncodedList([a]) == After(Encoded(a).value, Ok([]));
  }

  lemma FindRes(res: Bytes, mac: Bytes)
    ensures Find([EapAttribute(AT_RES, res), MacAttribute(mac)], AT_RES) == Some(EapAttribute(AT_RES, res))
  {
  }

  /** A peer that returns RES equal to the session's XRES, sealed under its K_aut, gets a
      fresh identity with counter 1 and the session's keys, whenever its IMSI has a
      subscriber; and the session is gone. */
  lemma HonestAnswerAccepted(c: Crypto, s: AuthState, sid: string, x: EapInput, identifier: int)
    requires sid in s.sessions && s.sessions[sid].state == CHALLENGE_SENT && |s.sessions[sid].xres| <= 1016
    requires 0 <= identifier < 256 && x.failing == {} && x.lookup(s.sessions[sid].imsi) != ""
    requires Carries(x.relay, Sent(Sealed(c, s.sessions[sid].kAut, AnswerPacket(identifier, s.sessions[sid].xres))))
    ensures var session := s.sessions[sid];
      var subscriberId := x.lookup(session.imsi);
      var first := FirstState(session, subscriberId, x.newId);
      EapResponse(c, s, sid, x) == (
        s.(sessions := s.sessions - {sid}, identities := s.identities[x.newId := first]),
        Success(Bare(EAP_SUCCESS, session.identifier), x.newId, subscriberId))
  {
    hide AnswerChecked;
    hide MacValid;
    hide DecodedWithin;
    hide Sealed;
    hide Find;
    hide Bare;
    var session := s.sessions[sid];
    AnswerDecodes(c, session, x.relay.value, identifier);
    CheckedAnswers(c, session, x.relay.value.raw,
      DecodedWithin(x.relay.value.raw, x.relay.value.spare).value);
  }

  lemma AnswerDecodes(c: Crypto, session: EapSessionData, relay: Received, identifier: int)
    requires |session.xres| <= 1016 && 0 <= identifier < 256
    requires Sent(Sealed(c, session.kAut, AnswerPacket(identifier, session.xres))) == Some(relay.raw)
    ensures Answers(c, session, relay)
  {
    hide DecodedWithin;
    hide EncodedList;
    hide WellFramed;
    hide Sealed;
    hide MacValid;
    hide DecodedPacket;
    hide EncodedPacket;
    hide Find;
    var p := AnswerPacket(identifier, session.xres);
    var before := [EapAttribute(AT_RES, session.xres)];
    ResFramed(session.xres);
    assert WithMac(p, before, Zeros(16), []) == p;
    FitsHeader(p, before);
    SealingCorrect(c, session.kAut, p, before, []);
    var mac := ComputeMac(c, session.kAut, EncodedPacket(p).value);
    var q := WithMac(p, before, mac, []);
    assert q.attributes == [before[0], MacAttribute(mac)];
    FindRes(session.xres, mac);
    DecodedAgrees(relay.raw, relay.spare);
  }
}
