/** What each handler call does to the stores, as functions of the state before it. */
module Protocol {
  import opened ByteStrings
  import opened Codec
  import opened Encryption
  import opened Keys
  import opened Mac
  import opened Primitives

  const CHALLENGE_SENT := "CHALLENGE_SENT"
  const MAX_REAUTH_COUNTER := 65535

  // ---------------------------------------------------------------- records

  /** An EAP session as Get reads it: a field missing from the stored hash reads as empty. */
  datatype EapSessionData = EapSessionData(
    imsi: Bytes, state: string, rand: Bytes, xres: Bytes, ck: Bytes, ik: Bytes,
    identifier: int, kAut: Bytes, kEncr: Bytes, mk: Bytes)

  const NO_FIELDS := EapSessionData([], "", [], [], [], [], 0, [], [], [])

  /** The fields an update writes; nil slices and a zero identifier are not written. */
  datatype SessionUpdate = SessionUpdate(
    rand: Option<Bytes>, xres: Option<Bytes>, ck: Option<Bytes>, ik: Option<Bytes>,
    identifier: int, kAut: Option<Bytes>, kEncr: Option<Bytes>, mk: Option<Bytes>)

  /** The 24 random bytes in base64url that GenerateReauthID returns. */
  type Identity = b: Bytes | |b| == 32 witness Zeros(32)

  datatype ReauthState = ReauthState(
    subscriberId: string, imsi: Bytes, mk: Bytes, kAut: Bytes, kEncr: Bytes, counter: int, identity: Bytes)

  datatype ReauthSessionData = ReauthSessionData(
    reauthId: Bytes, nextReauthId: Bytes, nonceS: Bytes, counter: int, identifier: int,
    kAut: Bytes, kEncr: Bytes, mk: Bytes, subscriberId: string, imsi: Bytes)

  datatype HssVectors = HssVectors(rand: Bytes, autn: Bytes, xres: Bytes, ck: Bytes, ik: Bytes)

  /** The stores and the counter the orchestrator works on. */
  datatype AuthState = AuthState(
    sessions: map<string, EapSessionData>, identities: map<Bytes, ReauthState>, idCounter: nat)

  datatype Server = Server(auth: AuthState, reauthSessions: map<string, ReauthSessionData>, reauthIdCounter: nat)

  /** Calls that can fail: a failing store call changes nothing. */
  datatype Op =
    | GetSession | CreateSession | UpdateSession | DeleteSession
    | GetReauth | StoreReauth | DeleteReauth
    | GetReauthSession | CreateReauthSession | DeleteReauthSession
    | RandomId | RandomNonce | RandomIv

  datatype Reply =
    | Challenge(relay: Bytes, sessionId: string)
    | Success(relay: Bytes, identity: Bytes, subscriberId: string)
    | Failure(relay: Bytes)
    | FallBack
    | Error
    | Crashed
    | Stuck
    | Silent

  function Ended<T>(o: Outcome<T>): Reply {
    match o case Ok(_) => Error case Err => Error case Panic => Crashed case Hang => Stuck
  }

  function Bare(code: int, identifier: int): Bytes { Header(EapPacket(code, identifier, 0, 0, []), 4) }

  function Rejected(identifier: int): Reply { Failure(Bare(EAP_FAILURE, identifier)) }

  /** The atomic uint32 counters behind nextIdentifier and nextReauthIdentifier. */
  function Bumped(counter: nat): nat { (counter + 1) % 0x1_0000_0000 }

  function MergeField(old_: Bytes, update: Option<Bytes>): Bytes {
    match update case Some(b) => b case None => old_
  }

  function Merged(s: EapSessionData, u: SessionUpdate): EapSessionData {
    EapSessionData(
      s.imsi, s.state, MergeField(s.rand, u.rand), MergeField(s.xres, u.xres),
      MergeField(s.ck, u.ck), MergeField(s.ik, u.ik),
      if u.identifier != 0 then u.identifier else s.identifier,
      MergeField(s.kAut, u.kAut), MergeField(s.kEncr, u.kEncr), MergeField(s.mk, u.mk))
  }

  function Updated(sessions: map<string, EapSessionData>, id: string, u: SessionUpdate): map<string, EapSessionData> {
    sessions[id := Merged(if id in sessions then sessions[id] else NO_FIELDS, u)]
  }

  // ---------------------------------------------------------------- full authentication

  function MasterKey(c: Crypto, imsi: Bytes, v: HssVectors): Digest {
    DeriveMasterKey(c, BuildIdentity(imsi), v.ik, v.ck)
  }

  function ChallengePacket(identifier: int, v: HssVectors): EapPacket {
    EapPacket(EAP_REQUEST, identifier, EAP_TYPE_AKA, AKA_CHALLENGE,
      [EapAttribute(AT_RAND, v.rand), EapAttribute(AT_AUTN, v.autn), EapAttribute(AT_MAC, Zeros(16))])
  }

  function ChallengeRelay(c: Crypto, imsi: Bytes, identifier: int, v: HssVectors): Outcome<Bytes> {
    Sealed(c, KeysFrom(c, MasterKey(c, imsi, v)).kAut, ChallengePacket(identifier, v))
  }

  function NewSession(c: Crypto, imsi: Bytes, identifier: int, v: HssVectors): EapSessionData {
    var mk := MasterKey(c, imsi, v);
    EapSessionData(imsi, CHALLENGE_SENT, v.rand, v.xres, v.ck, v.ik, identifier,
      KeysFrom(c, mk).kAut, KeysFrom(c, mk).kEncr, mk)
  }

  function ResyncUpdate(c: Crypto, imsi: Bytes, identifier: int, v: HssVectors): SessionUpdate {
    var mk := MasterKey(c, imsi, v);
    SessionUpdate(Some(v.rand), Some(v.xres), Some(v.ck), Some(v.ik), identifier,
      Some(KeysFrom(c, mk).kAut), Some(KeysFrom(c, mk).kEncr), Some(mk))
  }

  /** What the HSS would answer when asked for an IMSI's vectors. */
  type Fetch = Bytes -> Option<HssVectors>

  function InitialRequest(
    c: Crypto, s: AuthState, imsi: Bytes, fetch: Fetch, sid: string, failing: set<Op>):
    (AuthState, Reply)
  {
    match fetch(imsi)
    case None => (s, Error)
    case Some(v) =>
      var s1 := s.(idCounter := Bumped(s.idCounter));
      var identifier := s1.idCounter % 256;
      var relay := ChallengeRelay(c, imsi, identifier, v);
      if !relay.Ok? then (s1, Ended(relay))
      else if CreateSession in failing then (s1, Error)
      else
        (s1.(sessions := s1.sessions[sid := NewSession(c, imsi, identifier, v)]), Challenge(relay.value, sid))
  }

  function DropSession(s: AuthState, sid: string, failing: set<Op>): AuthState {
    if DeleteSession in failing then s else s.(sessions := s.sessions - {sid})
  }

  function DropIdentity(s: AuthState, id: Bytes, failing: set<Op>): AuthState {
    if DeleteReauth in failing then s else s.(identities := s.identities - {id})
  }

  /** The packet answers the session's challenge: AT_RES is XRES and the MAC is right. */
  predicate AnswersChallenge(c: Crypto, session: EapSessionData, raw: Bytes, p: EapPacket) {
    && p.subtype == AKA_CHALLENGE
    && Find(p.attributes, AT_RES).Some?
    && Find(p.attributes, AT_RES).value.value == session.xres
    && MacValid(c, session.kAut, raw, p)
  }

  /** The checks in the order they are made; the last one can run past the packet. */
  function AnswerChecked(c: Crypto, session: EapSessionData, raw: Bytes, p: EapPacket): Outcome<bool> {
    var res, mac := Find(p.attributes, AT_RES), Find(p.attributes, AT_MAC);
    if p.subtype != AKA_CHALLENGE || res.None? || mac.None? || res.value.value != session.xres then Ok(false)
    else Checked(c, session.kAut, raw, mac.value.value)
  }

  lemma CheckedAnswers(c: Crypto, session: EapSessionData, raw: Bytes, p: EapPacket)
    ensures AnswerChecked(c, session, raw, p) == Ok(true) <==> AnswersChallenge(c, session, raw, p)
  {
    hide Checked;
    hide MacValid;
    hide Find;
    if Find(p.attributes, AT_MAC).Some? {
      CheckedIsValid(c, session.kAut, raw, p);
    } else {
      MacNeeded(c, session.kAut, raw, p);
    }
  }

  lemma MacNeeded(c: Crypto, kAut: Bytes, raw: Bytes, p: EapPacket)
    requires Find(p.attributes, AT_MAC).None?
    ensures !MacValid(c, kAut, raw, p)
  {
  }

  function FirstState(session: EapSessionData, subscriberId: string, id: Bytes): ReauthState {
    ReauthState(subscriberId, session.imsi, session.mk, session.kAut, session.kEncr, 1, id)
  }

  /** The inputs of one EAP response: the relay (None when it is not base64), what the
      subscriber table would answer for an IMSI and the HSS for an IMSI, RAND and AUTS, the
      identity that would be drawn, whether the record expires before it is updated, and
      which calls fail. */
  datatype EapInput = EapInput(
    relay: Option<Received>, lookup: Bytes -> string,
    resync: (Bytes, Bytes, Bytes) -> Option<HssVectors>,
    newId: Identity, expires: bool, failing: set<Op>)

  function SyncFailure(
    c: Crypto, s: AuthState, sid: string, session: EapSessionData, p: EapPacket, x: EapInput): (AuthState, Reply)
  {
    var auts := Find(p.attributes, AT_AUTS);
    var answer := if auts.None? || |auts.value.value| != 14 then None
      else x.resync(session.imsi, session.rand, auts.value.value);
    if answer.None? then
      (DropSession(s, sid, x.failing), Rejected(session.identifier))
    else
      var v := answer.value;
      var s1 := s.(idCounter := Bumped(s.idCounter));
      var identifier := s1.idCounter % 256;
      var relay := ChallengeRelay(c, session.imsi, identifier, v);
      if !relay.Ok? then (s1, Ended(relay))
      else
        var left := if x.expires then s1.sessions - {sid} else s1.sessions;
        var kept := if UpdateSession in x.failing then left
          else Updated(left, sid, ResyncUpdate(c, session.imsi, identifier, v));
        (s1.(sessions := kept), Challenge(relay.value, sid))
  }

  function Accept(s: AuthState, sid: string, session: EapSessionData, x: EapInput): (AuthState, Reply) {
    var subscriberId := x.lookup(session.imsi);
    if subscriberId == "" then (DropSession(s, sid, x.failing), Rejected(session.identifier))
    else if RandomId in x.failing || StoreReauth in x.failing then (s, Error)
    else
      var s1 := s.(identities := s.identities[x.newId := FirstState(session, subscriberId, x.newId)]);
      (DropSession(s1, sid, x.failing),
       Success(Bare(EAP_SUCCESS, session.identifier), x.newId, subscriberId))
  }

  function EapResponse(c: Crypto, s: AuthState, sid: string, x: EapInput): (AuthState, Reply) {
    if GetSession in x.failing then (s, Error)
    else if sid !in s.sessions then (s, Rejected(0))
    else
      var session := s.sessions[sid];
      var reject := (DropSession(s, sid, x.failing), Rejected(session.identifier));
      if session.state != CHALLENGE_SENT || x.relay.None? then reject
      else
        var packet := DecodedWithin(x.relay.value.raw, x.relay.value.spare);
        if packet == Err then reject
        else if !packet.Ok? then (s, Ended(packet))
        else if packet.value.subtype == AKA_SYNC_FAILURE then SyncFailure(c, s, sid, session, packet.value, x)
        else
          var checked := AnswerChecked(c, session, x.relay.value.raw, packet.value);
          if !checked.Ok? then (s, Ended(checked))
          else if !checked.value then reject
          else Accept(s, sid, session, x)
  }

  // ---------------------------------------------------------------- fast re-authentication

  function CounterAttribute(counter: int): EapAttribute { EapAttribute(AT_COUNTER, PutU16(counter)) }

  function InnerAttributes(counter: int, nonceS: Block, nextId: Identity): seq<EapAttribute> {
    [CounterAttribute(counter), EapAttribute(AT_NONCE_S, nonceS), EapAttribute(AT_NEXT_REAUTH_ID, nextId)]
  }

  function ReauthPacket(code: int, identifier: int, iv: Block, cipher: Bytes): EapPacket {
    EapPacket(code, identifier, EAP_TYPE_AKA, AKA_REAUTHENTICATION,
      [EapAttribute(AT_IV, iv), EapAttribute(AT_ENCR_DATA, cipher), EapAttribute(AT_MAC, Zeros(16))])
  }

  /** The inputs of a re-authentication request: what the random source and uuid give. */
  datatype ReauthInput = ReauthInput(nonceS: Block, newId: Identity, iv: Block, sid: string, failing: set<Op>)

  function NewReauthSession(r: ReauthState, id: Bytes, identifier: int, x: ReauthInput): ReauthSessionData {
    ReauthSessionData(id, x.newId, x.nonceS, r.counter, identifier, r.kAut, r.kEncr, r.mk, r.subscriberId, r.imsi)
  }

  function ReauthRelay(c: Crypto, r: ReauthState, identifier: int, x: ReauthInput): Outcome<Bytes> {
    match Encrypted(c, r.kEncr, x.iv, InnerAttributes(r.counter, x.nonceS, x.newId))
    case Ok(cipher) => Sealed(c, r.kAut, ReauthPacket(EAP_REQUEST, identifier, x.iv, cipher))
    case other => other
  }

  function ReauthRequest(c: Crypto, s: Server, id: Bytes, x: ReauthInput): (Server, Reply) {
    if GetReauth in x.failing then (s, Error)
    else if id !in s.auth.identities then (s, FallBack)
    else
      var r := s.auth.identities[id];
      if r.counter >= MAX_REAUTH_COUNTER then (s.(auth := DropIdentity(s.auth, id, x.failing)), FallBack)
      else if RandomNonce in x.failing || RandomId in x.failing || RandomIv in x.failing then (s, Error)
      else
        var s1 := s.(reauthIdCounter := Bumped(s.reauthIdCounter));
        var identifier := s1.reauthIdCounter % 256;
        var relay := ReauthRelay(c, r, identifier, x);
        if !relay.Ok? then (s1, Ended(relay))
        else if CreateReauthSession in x.failing then (s1, Error)
        else
          (s1.(reauthSessions := s1.reauthSessions[x.sid := NewReauthSession(r, id, identifier, x)]),
           Challenge(relay.value, x.sid))
  }

  /** The inputs of a re-authentication response; the last three matter only when the peer
      reports the counter too small and full authentication starts over. */
  datatype ReauthReplyInput = ReauthReplyInput(
    relay: Option<Received>, fetch: Fetch, newSid: string, failing: set<Op>)

  function DropReauthSession(s: Server, sid: string, failing: set<Op>): Server {
    if DeleteReauthSession in failing then s else s.(reauthSessions := s.reauthSessions - {sid})
  }

  /** Delete the session and the identity it was opened for. */
  function Revoke(s: Server, sid: string, id: Bytes, failing: set<Op>): Server {
    var s1 := DropReauthSession(s, sid, failing);
    s1.(auth := DropIdentity(s1.auth, id, failing))
  }

  function NextState(session: ReauthSessionData): ReauthState {
    ReauthState(session.subscriberId, session.imsi, session.mk, session.kAut, session.kEncr,
      session.counter + 1, session.nextReauthId)
  }

  /** The old identity is replaced by the next one. */
  function Rotate(s: Server, sid: string, session: ReauthSessionData, failing: set<Op>): (Server, Reply) {
    var auth := DropIdentity(s.auth, session.reauthId, failing);
    if StoreReauth in failing then (s.(auth := auth), Error)
    else
      var stored := auth.(identities := auth.identities[session.nextReauthId := NextState(session)]);
      (DropReauthSession(s.(auth := stored), sid, failing),
       Success(Bare(EAP_SUCCESS, session.identifier), session.nextReauthId, session.subscriberId))
  }

  function StartOver(c: Crypto, s: Server, session: ReauthSessionData, x: ReauthReplyInput): (Server, Reply) {
    var (auth, reply) := InitialRequest(c, s.auth, session.imsi, x.fetch, x.newSid, x.failing);
    (s.(auth := auth), reply)
  }

  /** What the decrypted attributes of an authentic response lead to. */
  function JudgeInner(
    c: Crypto, s: Server, sid: string, session: ReauthSessionData, inner: seq<EapAttribute>, x: ReauthReplyInput):
    (Server, Reply)
  {
    if Find(inner, AT_COUNTER_TOO_SMALL).Some? then
      StartOver(c, Revoke(s, sid, session.reauthId, x.failing), session, x)
    else
      var counter := Find(inner, AT_COUNTER);
      if counter.None? then (DropReauthSession(s, sid, x.failing), Rejected(session.identifier))
      else if |counter.value.value| < 2 then (s, Crashed)
      else if U16(counter.value.value[0], counter.value.value[1]) != session.counter then
        (Revoke(s, sid, session.reauthId, x.failing), Rejected(session.identifier))
      else Rotate(s, sid, session, x.failing)
  }

  /** The response carries encrypted attributes and its MAC is right. */
  predicate ProperResponse(c: Crypto, session: ReauthSessionData, raw: Bytes, p: EapPacket) {
    && p.subtype == AKA_REAUTHENTICATION
    && Find(p.attributes, AT_IV).Some?
    && Find(p.attributes, AT_ENCR_DATA).Some?
    && MacValid(c, session.kAut, raw, p)
  }

  function ResponseChecked(c: Crypto, session: ReauthSessionData, raw: Bytes, p: EapPacket): Outcome<bool> {
    var mac := Find(p.attributes, AT_MAC);
    if p.subtype != AKA_REAUTHENTICATION || Find(p.attributes, AT_IV).None?
      || Find(p.attributes, AT_ENCR_DATA).None? || mac.None? then Ok(false)
    else Checked(c, session.kAut, raw, mac.value.value)
  }

  lemma CheckedResponds(c: Crypto, session: ReauthSessionData, raw: Bytes, p: EapPacket)
    ensures ResponseChecked(c, session, raw, p) == Ok(true) <==> ProperResponse(c, session, raw, p)
  {
    hide Checked;
    hide MacValid;
    hide Find;
    if Find(p.attributes, AT_MAC).Some? {
      CheckedIsValid(c, session.kAut, raw, p);
    } else {
      MacNeeded(c, session.kAut, raw, p);
    }
  }

  /** What the encrypted attributes of a proper response decrypt to. */
  function InnerOf(c: Crypto, session: ReauthSessionData, p: EapPacket): Outcome<seq<EapAttribute>> {
    var iv, data := Find(p.attributes, AT_IV), Find(p.attributes, AT_ENCR_DATA);
    if iv.None? || data.None? then Err
    else Decrypted(c, session.kEncr, iv.value.value, data.value.value)
  }

  function JudgeResponse(
    c: Crypto, s: Server, sid: string, session: ReauthSessionData, raw: Bytes, p: EapPacket, x: ReauthReplyInput):
    (Server, Reply)
  {
    var refuse := (DropReauthSession(s, sid, x.failing), Rejected(session.identifier));
    if p.subtype == AKA_AUTH_REJECT then
      (Revoke(s, sid, session.reauthId, x.failing), Rejected(session.identifier))
    else
      var checked := ResponseChecked(c, session, raw, p);
      if !checked.Ok? then (s, Ended(checked))
      else if !checked.value then refuse
      else
        var inner := InnerOf(c, session, p);
        if inner == Err then refuse
        else if !inner.Ok? then (s, Ended(inner))
        else JudgeInner(c, s, sid, session, inner.value, x)
  }

  function ReauthResponse(c: Crypto, s: Server, sid: string, x: ReauthReplyInput): (Server, Reply) {
    if GetReauthSession in x.failing then (s, Error)
    else if sid !in s.reauthSessions then (s, Rejected(0))
    else
      var session := s.reauthSessions[sid];
      if x.relay.None? then (DropReauthSession(s, sid, x.failing), Rejected(session.identifier))
      else
        var packet := DecodedWithin(x.relay.value.raw, x.relay.value.spare);
        if packet == Err then (DropReauthSession(s, sid, x.failing), Rejected(session.identifier))
        else if !packet.Ok? then (s, Ended(packet))
        else JudgeResponse(c, s, sid, session, x.relay.value.raw, packet.value, x)
  }
}
