/** The stores and handlers in place. Store calls take the failing set of the request. */
module Handlers {
  import opened ByteStrings
  import opened Codec
  import opened Encryption
  import opened Keys
  import opened Mac
  import opened Primitives
  import opened Protocol

  class SessionStore {
    var sessions: map<string, EapSessionData>

    constructor ()
      ensures sessions == map[]
    {
      sessions := map[];
    }

    method Create(sid: string, data: EapSessionData, failing: set<Op>) returns (ok: bool)
      modifies this
      ensures ok <==> CreateSession !in failing
      ensures sessions == if ok then old(sessions)[sid := data] else old(sessions)
    {
      if CreateSession in failing { return false; }
      sessions := sessions[sid := data];
      ok := true;
    }

    method Get(sid: string, failing: set<Op>) returns (r: Outcome<Option<EapSessionData>>)
      ensures r == if GetSession in failing then Err
        else Ok(if sid in sessions then Some(sessions[sid]) else None)
    {
      if GetSession in failing { return Err; }
      r := Ok(if sid in sessions then Some(sessions[sid]) else None);
    }

    method Delete(sid: string, failing: set<Op>)
      modifies this
      ensures sessions == if DeleteSession in failing then old(sessions) else old(sessions) - {sid}
    {
      if DeleteSession !in failing {
        sessions := sessions - {sid};
      }
    }

    /** Merge the given fields into the record, creating it when it is gone. */
    method Update(sid: string, u: SessionUpdate, failing: set<Op>)
      modifies this
      ensures sessions == if UpdateSession in failing || u == NO_UPDATE then old(sessions)
        else Updated(old(sessions), sid, u)
    {
      if u == NO_UPDATE || UpdateSession in failing { return; }
      var record := MergeFields(if sid in sessions then sessions[sid] else NO_FIELDS, u);
      sessions := sessions[sid := record];
    }

    static method MergeFields(record: EapSessionData, u: SessionUpdate) returns (merged: EapSessionData)
      ensures merged == Merged(record, u)
    {
      merged := record;
      if u.rand.Some? { merged := merged.(rand := u.rand.value); }
      if u.xres.Some? { merged := merged.(xres := u.xres.value); }
      if u.ck.Some? { merged := merged.(ck := u.ck.value); }
      if u.ik.Some? { merged := merged.(ik := u.ik.value); }
      assert merged == record.(rand := MergeField(record.rand, u.rand), xres := MergeField(record.xres, u.xres),
        ck := MergeField(record.ck, u.ck), ik := MergeField(record.ik, u.ik));
      merged := MergeKeys(merged, u);
    }

    static method MergeKeys(record: EapSessionData, u: SessionUpdate) returns (merged: EapSessionData)
      ensures merged == record.(kAut := MergeField(record.kAut, u.kAut), kEncr := MergeField(record.kEncr, u.kEncr),
        mk := MergeField(record.mk, u.mk), identifier := if u.identifier != 0 then u.identifier else record.identifier)
    {
      merged := record;
      if u.kAut.Some? { merged := merged.(kAut := u.kAut.value); }
      if u.kEncr.Some? { merged := merged.(kEncr := u.kEncr.value); }
      if u.mk.Some? { merged := merged.(mk := u.mk.value); }
      if u.identifier != 0 { merged := merged.(identifier := u.identifier); }
    }

    /** The record's time to live runs out. */
    method Expire(sid: string)
      modifies this
      ensures sessions == old(sessions) - {sid}
    {
      sessions := sessions - {sid};
    }
  }

  const NO_UPDATE := SessionUpdate(None, None, None, None, 0, None, None, None)

  class ReauthStore {
    var identities: map<Bytes, ReauthState>

    constructor ()
      ensures identities == map[]
    {
      identities := map[];
    }

    method Store(state: ReauthState, failing: set<Op>) returns (ok: bool)
      modifies this
      ensures ok <==> StoreReauth !in failing
      ensures identities == if ok then old(identities)[state.identity := state] else old(identities)
    {
      if StoreReauth in failing { return false; }
      identities := identities[state.identity := state];
      ok := true;
    }

    method Get(id: Bytes, failing: set<Op>) returns (r: Outcome<Option<ReauthState>>)
      ensures r == if GetReauth in failing then Err
        else Ok(if id in identities then Some(identities[id]) else None)
    {
      if GetReauth in failing { return Err; }
      r := Ok(if id in identities then Some(identities[id]) else None);
    }

    method Delete(id: Bytes, failing: set<Op>)
      modifies this
      ensures identities == if DeleteReauth in failing then old(identities) else old(identities) - {id}
    {
      if DeleteReauth !in failing {
        identities := identities - {id};
      }
    }
  }

  class ReauthSessionStore {
    var sessions: map<string, ReauthSessionData>

    constructor ()
      ensures sessions == map[]
    {
      sessions := map[];
    }

    method Create(sid: string, data: ReauthSessionData, failing: set<Op>) returns (ok: bool)
      modifies this
      ensures ok <==> CreateReauthSession !in failing
      ensures sessions == if ok then old(sessions)[sid := data] else old(sessions)
    {
      if CreateReauthSession in failing { return false; }
      sessions := sessions[sid := data];
      ok := true;
    }

    method Get(sid: string, failing: set<Op>) returns (r: Outcome<Option<ReauthSessionData>>)
      ensures r == if GetReauthSession in failing then Err
        else Ok(if sid in sessions then Some(sessions[sid]) else None)
    {
      if GetReauthSession in failing { return Err; }
      r := Ok(if sid in sessions then Some(sessions[sid]) else None);
    }

    method Delete(sid: string, failing: set<Op>)
      modifies this
      ensures sessions == if DeleteReauthSession in failing then old(sessions) else old(sessions) - {sid}
    {
      if DeleteReauthSession !in failing {
        sessions := sessions - {sid};
      }
    }
  }

  class Orchestrator {
    const crypto: Crypto
    const sessionStore: SessionStore
    const reauthStore: ReauthStore
    var identifierCounter: nat

    constructor (c: Crypto, sessionStore: SessionStore, reauthStore: ReauthStore)
      ensures this.crypto == c && this.sessionStore == sessionStore && this.reauthStore == reauthStore
      ensures identifierCounter == 0
    {
      this.crypto := c;
      this.sessionStore, this.reauthStore, identifierCounter := sessionStore, reauthStore, 0;
    }

    ghost function State(): AuthState
      reads this, sessionStore, reauthStore
    {
      AuthState(sessionStore.sessions, reauthStore.identities, identifierCounter)
    }

    method NextIdentifier() returns (identifier: nat)
      modifies this
      ensures identifierCounter == (old(identifierCounter) + 1) % 0x1_0000_0000 && identifier == identifierCounter % 256
    {
      identifierCounter := Bumped(identifierCounter);
      identifier := identifierCounter % 256;
    }

    method HandleInitialRequest(imsi: Bytes, fetch: Fetch, sid: string, failing: set<Op>)
      returns (r: Reply)
      modifies this, sessionStore
      ensures (State(), r) == InitialRequest(crypto, old(State()), imsi, fetch, sid, failing)
    {
      hide Sealed;
      hide KeysFrom;
      var fetched := fetch(imsi);
      if fetched.None? { return Error; }
      var v := fetched.value;
      var mk := DeriveMasterKey(crypto, BuildIdentity(imsi), v.ik, v.ck);
      var keys := DeriveKeys(crypto, BuildIdentity(imsi), v.ik, v.ck);
      var identifier := NextIdentifier();
      var relay := Seal(crypto, keys.kAut, ChallengePacket(identifier, v));
      if !relay.Ok? { return Ended(relay); }
      var ok := sessionStore.Create(sid, EapSessionData(imsi, CHALLENGE_SENT, v.rand, v.xres, v.ck, v.ik,
        identifier, keys.kAut, keys.kEncr, mk), failing);
      if !ok { return Error; }
      r := Challenge(relay.value, sid);
    }

    method HandleEapResponse(sid: string, x: EapInput) returns (r: Reply)
      modifies this, sessionStore, reauthStore
      ensures (State(), r) == EapResponse(crypto, old(State()), sid, x)
    {
      hide SyncFailure;
      hide DecodedWithin;
      hide MacValid;
      hide Bare;
      var got := sessionStore.Get(sid, x.failing);
      if !got.Ok? { return Error; }
      if got.value.None? { return Rejected(0); }
      var session := got.value.value;
      if session.state != CHALLENGE_SENT || x.relay.None? {
        sessionStore.Delete(sid, x.failing);
        return Rejected(session.identifier);
      }
      var raw := x.relay.value.raw;
      var decoded := DecodeEapPacket(raw, x.relay.value.spare);
      if decoded == Err {
        sessionStore.Delete(sid, x.failing);
        return Rejected(session.identifier);
      }
      if !decoded.Ok? { return Ended(decoded); }
      var packet := decoded.value;
      if packet.subtype == AKA_AUTH_REJECT {
        sessionStore.Delete(sid, x.failing);
        return Rejected(session.identifier);
      }
      if packet.subtype == AKA_SYNC_FAILURE {
        r := HandleSyncFailure(packet, session, sid, x);
        return;
      }
      var answered := CheckAnswer(session, raw, packet);
      if !answered.Ok? { return Ended(answered); }
      if !answered.value {
        sessionStore.Delete(sid, x.failing);
        return Rejected(session.identifier);
      }
      r := AcceptAnswer(session, sid, x);
    }

    method CheckAnswer(session: EapSessionData, raw: Bytes, packet: EapPacket) returns (r: Outcome<bool>)
      ensures r == AnswerChecked(crypto, session, raw, packet)
      ensures r == Ok(true) <==> AnswersChallenge(crypto, session, raw, packet)
    {
      hide Checked;
      hide MacValid;
      CheckedAnswers(crypto, session, raw, packet);
      if packet.subtype != AKA_CHALLENGE { return Ok(false); }
      var atRes := FindAttribute(packet.attributes, AT_RES);
      var atMac := FindAttribute(packet.attributes, AT_MAC);
      if atRes.None? || atMac.None? { return Ok(false); }
      if atRes.value.value != session.xres { return Ok(false); }
      r := CheckMac(crypto, session.kAut, raw, atMac.value.value);
    }

    method AcceptAnswer(session: EapSessionData, sid: string, x: EapInput) returns (r: Reply)
      modifies sessionStore, reauthStore
      ensures (State(), r) == Accept(old(State()), sid, session, x)
    {
      hide Bare;
      var subscriberId := x.lookup(session.imsi);
      if subscriberId == "" {
        sessionStore.Delete(sid, x.failing);
        return Rejected(session.identifier);
      }
      if RandomId in x.failing { return Error; }
      var reauthId := x.newId;
      var ok := reauthStore.Store(
        ReauthState(subscriberId, session.imsi, session.mk, session.kAut, session.kEncr, 1, reauthId), x.failing);
      if !ok { return Error; }
      sessionStore.Delete(sid, x.failing);
      r := Success(Bare(EAP_SUCCESS, session.identifier), reauthId, subscriberId);
    }

    method HandleSyncFailure(packet: EapPacket, session: EapSessionData, sid: string, x: EapInput) returns (r: Reply)
      modifies this, sessionStore
      ensures (State(), r) == SyncFailure(crypto, old(State()), sid, session, packet, x)
    {
      hide FirstAt;
      hide Merged;
      hide Sealed;
      hide KeysFrom;
      hide Bare;
      var atAuts := FindAttribute(packet.attributes, AT_AUTS);
      if atAuts.None? || |atAuts.value.value| != 14 {
        sessionStore.Delete(sid, x.failing);
        return Rejected(session.identifier);
      }
      var result := x.resync(session.imsi, session.rand, atAuts.value.value);
      if result.None? {
        sessionStore.Delete(sid, x.failing);
        return Rejected(session.identifier);
      }
      var v := result.value;
      var mk := DeriveMasterKey(crypto, BuildIdentity(session.imsi), v.ik, v.ck);
      var keys := DeriveKeys(crypto, BuildIdentity(session.imsi), v.ik, v.ck);
      var newIdentifier := NextIdentifier();
      var relay := Seal(crypto, keys.kAut, ChallengePacket(newIdentifier, v));
      if !relay.Ok? { return Ended(relay); }
      if x.expires {
        sessionStore.Expire(sid);
      }
      sessionStore.Update(sid, SessionUpdate(Some(v.rand), Some(v.xres), Some(v.ck), Some(v.ik),
        newIdentifier, Some(keys.kAut), Some(keys.kEncr), Some(mk)), x.failing);
      r := Challenge(relay.value, sid);
    }
  }

  class ReauthHandler {
    const crypto: Crypto
    const reauthStore: ReauthStore
    const reauthSessionStore: ReauthSessionStore
    const orchestrator: Orchestrator
    var identifierCounter: nat

    constructor (reauthStore: ReauthStore, reauthSessionStore: ReauthSessionStore, orchestrator: Orchestrator)
      requires reauthStore == orchestrator.reauthStore
      ensures Wired()
      ensures this.orchestrator == orchestrator && this.reauthSessionStore == reauthSessionStore
      ensures identifierCounter == 128
    {
      crypto := orchestrator.crypto;
      this.reauthStore, this.reauthSessionStore, this.orchestrator := reauthStore, reauthSessionStore, orchestrator;
      identifierCounter := 128;
    }

    /** The handler and its orchestrator share one identity store. */
    ghost predicate Wired() {
      reauthStore == orchestrator.reauthStore && crypto == orchestrator.crypto
    }

    ghost function State(): Server
      reads this, reauthSessionStore, orchestrator, orchestrator.sessionStore, orchestrator.reauthStore
    {
      Server(orchestrator.State(), reauthSessionStore.sessions, identifierCounter)
    }

    method NextReauthIdentifier() returns (identifier: nat)
      modifies this
      ensures identifierCounter == (old(identifierCounter) + 1) % 0x1_0000_0000 && identifier == identifierCounter % 256
    {
      identifierCounter := Bumped(identifierCounter);
      identifier := identifierCounter % 256;
    }

    method HandleReauthRequest(id: Bytes, x: ReauthInput) returns (r: Reply)
      requires Wired()
      modifies this, reauthStore, reauthSessionStore
      ensures (State(), r) == ReauthRequest(crypto, old(State()), id, x)
    {
      hide Sealed;
      hide Encrypted;
      var got := reauthStore.Get(id, x.failing);
      if !got.Ok? { return Error; }
      if got.value.None? { return FallBack; }
      var state := got.value.value;
      if state.counter >= MAX_REAUTH_COUNTER {
        reauthStore.Delete(id, x.failing);
        return FallBack;
      }
      if RandomNonce in x.failing || RandomId in x.failing || RandomIv in x.failing { return Error; }
      var identifier := NextReauthIdentifier();
      var cipher := EncryptAttributes(crypto, state.kEncr, x.iv, InnerAttributes(state.counter, x.nonceS, x.newId));
      if !cipher.Ok? { return Ended(cipher); }
      var relay := Seal(crypto, state.kAut, ReauthPacket(EAP_REQUEST, identifier, x.iv, cipher.value));
      if !relay.Ok? { return Ended(relay); }
      var ok := reauthSessionStore.Create(x.sid, ReauthSessionData(id, x.newId, x.nonceS, state.counter, identifier,
        state.kAut, state.kEncr, state.mk, state.subscriberId, state.imsi), x.failing);
      if !ok { return Error; }
      r := Challenge(relay.value, x.sid);
    }

    method HandleReauthResponse(sid: string, x: ReauthReplyInput) returns (r: Reply)
      requires Wired()
      modifies this, reauthStore, reauthSessionStore, orchestrator, orchestrator.sessionStore
      ensures (State(), r) == ReauthResponse(crypto, old(State()), sid, x)
    {
      hide DecodedWithin;
      hide JudgeInner;
      hide Decrypted;
      hide ProperResponse;
      hide Bare;
      var got := reauthSessionStore.Get(sid, x.failing);
      if !got.Ok? { return Error; }
      if got.value.None? { return Rejected(0); }
      var session := got.value.value;
      if x.relay.None? {
        reauthSessionStore.Delete(sid, x.failing);
        return Rejected(session.identifier);
      }
      var raw := x.relay.value.raw;
      var decoded := DecodeEapPacket(raw, x.relay.value.spare);
      if decoded == Err {
        reauthSessionStore.Delete(sid, x.failing);
        return Rejected(session.identifier);
      }
      if !decoded.Ok? { return Ended(decoded); }
      var packet := decoded.value;
      if packet.subtype == AKA_AUTH_REJECT {
        reauthSessionStore.Delete(sid, x.failing);
        reauthStore.Delete(session.reauthId, x.failing);
        return Rejected(session.identifier);
      }
      var proper := CheckResponse(session, raw, packet);
      if !proper.Ok? { return Ended(proper); }
      if !proper.value {
        reauthSessionStore.Delete(sid, x.failing);
        return Rejected(session.identifier);
      }
      var atIv := FindAttribute(packet.attributes, AT_IV);
      var atEncrData := FindAttribute(packet.attributes, AT_ENCR_DATA);
      assert atIv.Some? && atEncrData.Some? by { ProperHasParts(session, raw, packet); }
      var inner := DecryptAttributes(crypto, session.kEncr, atIv.value.value, atEncrData.value.value);
      if inner == Err {
        reauthSessionStore.Delete(sid, x.failing);
        return Rejected(session.identifier);
      }
      if !inner.Ok? { return Ended(inner); }
      r := FinishResponse(session, sid, inner.value, x);
    }

    lemma ProperHasParts(session: ReauthSessionData, raw: Bytes, packet: EapPacket)
      requires ProperResponse(crypto, session, raw, packet)
      ensures Find(packet.attributes, AT_IV).Some? && Find(packet.attributes, AT_ENCR_DATA).Some?
    {
    }

    method CheckResponse(session: ReauthSessionData, raw: Bytes, packet: EapPacket) returns (r: Outcome<bool>)
      ensures r == ResponseChecked(crypto, session, raw, packet)
      ensures r == Ok(true) <==> ProperResponse(crypto, session, raw, packet)
    {
      hide Checked;
      hide MacValid;
      CheckedResponds(crypto, session, raw, packet);
      if packet.subtype != AKA_REAUTHENTICATION { return Ok(false); }
      var atIv := FindAttribute(packet.attributes, AT_IV);
      var atEncrData := FindAttribute(packet.attributes, AT_ENCR_DATA);
      var atMac := FindAttribute(packet.attributes, AT_MAC);
      if atIv.None? || atEncrData.None? || atMac.None? { return Ok(false); }
      r := CheckMac(crypto, session.kAut, raw, atMac.value.value);
    }

    method FinishResponse(session: ReauthSessionData, sid: string, inner: seq<EapAttribute>, x: ReauthReplyInput)
      returns (r: Reply)
      requires Wired()
      modifies this, reauthStore, reauthSessionStore, orchestrator, orchestrator.sessionStore
      ensures (State(), r) == JudgeInner(crypto, old(State()), sid, session, inner, x)
    {
      hide FirstAt;
      hide InitialRequest;
      hide Bare;
      var tooSmall := FindAttribute(inner, AT_COUNTER_TOO_SMALL);
      if tooSmall.Some? {
        reauthSessionStore.Delete(sid, x.failing);
        reauthStore.Delete(session.reauthId, x.failing);
        r := orchestrator.HandleInitialRequest(session.imsi, x.fetch, x.newSid, x.failing);
        return;
      }
      var atCounter := FindAttribute(inner, AT_COUNTER);
      if atCounter.None? {
        reauthSessionStore.Delete(sid, x.failing);
        return Rejected(session.identifier);
      }
      if |atCounter.value.value| < 2 { return Crashed; }
      var clientCounter := U16(atCounter.value.value[0], atCounter.value.value[1]);
      if clientCounter != session.counter {
        reauthSessionStore.Delete(sid, x.failing);
        reauthStore.Delete(session.reauthId, x.failing);
        return Rejected(session.identifier);
      }
      reauthStore.Delete(session.reauthId, x.failing);
      var ok := reauthStore.Store(ReauthState(session.subscriberId, session.imsi, session.mk, session.kAut,
        session.kEncr, session.counter + 1, session.nextReauthId), x.failing);
      if !ok { return Error; }
      reauthSessionStore.Delete(sid, x.failing);
      r := Success(Bare(EAP_SUCCESS, session.identifier), session.nextReauthId, session.subscriberId);
    }
  }
}
