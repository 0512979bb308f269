/** What each call says and changes, exactly, in terms of what came in. */
module Effects {
  import opened ByteStrings
  import opened Codec
  import opened Encryption
  import opened Keys
  import opened Mac
  import opened Primitives
  import opened Protocol
  import opened Soundness

  // ---------------------------------------------------------------- replies

  /** The identifier in a reply: the session's, or 0 when there is none. */
  function EapIdentifier(s: AuthState, sid: string): int {
    if sid in s.sessions then s.sessions[sid].identifier else 0
  }

  function ReauthIdentifier(s: Server, sid: string): int {
    if sid in s.reauthSessions then s.reauthSessions[sid].identifier else 0
  }

  lemma BareBytes(code: int, identifier: int)
    requires code in {3, 4}
    ensures Bare(code, identifier) == [code, identifier % 256, 0, 4]
  {
  }

  /** A refused peer is sent EAP-Failure, an accepted one EAP-Success, in four bytes. */
  lemma EapReplyBytes(c: Crypto, s: AuthState, sid: string, x: EapInput)
    ensures var r := EapResponse(c, s, sid, x).1;
      && (r.Failure? ==> r.relay == [4, EapIdentifier(s, sid) % 256, 0, 4])
      && (r.Success? ==> r.relay == [3, EapIdentifier(s, sid) % 256, 0, 4])
  {
    hide ChallengeRelay;
    hide ResyncUpdate;
    hide AnswerChecked;
    hide DecodedWithin;
    hide Find;
    hide Bare;
    BareBytes(3, EapIdentifier(s, sid));
    BareBytes(4, EapIdentifier(s, sid));
  }

  lemma ReauthReplyBytes(c: Crypto, s: Server, sid: string, y: ReauthReplyInput)
    ensures var r := ReauthResponse(c, s, sid, y).1;
      && (r.Failure? ==> r.relay == [4, ReauthIdentifier(s, sid) % 256, 0, 4])
      && (r.Success? ==> r.relay == [3, ReauthIdentifier(s, sid) % 256, 0, 4])
  {
    hide JudgeInner;
    hide ResponseChecked;
    hide DecodedWithin;
    hide InnerOf;
    hide Bare;
    BareBytes(3, ReauthIdentifier(s, sid));
    BareBytes(4, ReauthIdentifier(s, sid));
    if sid in s.reauthSessions {
      forall inner ensures InnerReply(JudgeInner(c, s, sid, s.reauthSessions[sid], inner, y).1,
        s.reauthSessions[sid].identifier)
      {
        JudgedReply(c, s, sid, s.reauthSessions[sid], inner, y);
      }
    }
  }

  predicate InnerReply(r: Reply, identifier: int) {
    && (r.Failure? ==> r.relay == Bare(4, identifier))
    && (r.Success? ==> r.relay == Bare(3, identifier))
  }

  lemma JudgedReply(
    c: Crypto, s: Server, sid: string, session: ReauthSessionData, inner: seq<EapAttribute>, y: ReauthReplyInput)
    ensures InnerReply(JudgeInner(c, s, sid, session, inner, y).1, session.identifier)
  {
    hide Find;
    hide Bare;
    hide ChallengeRelay;
    hide NewSession;
  }

  // ---------------------------------------------------------------- identities

  /** A full authentication stores the identity it answers, and touches no other. */
  lemma EapIdentitiesExactly(c: Crypto, s: AuthState, sid: string, x: EapInput)
    ensures var (s', r) := EapResponse(c, s, sid, x);
      s'.identities ==
        if r.Success? && sid in s.sessions then
          var session := s.sessions[sid];
          s.identities[x.newId := ReauthState(
            x.lookup(session.imsi), session.imsi, session.mk, session.kAut, session.kEncr, 1, x.newId)]
        else s.identities
  {
    hide ChallengeRelay;
    hide ResyncUpdate;
    hide AnswerChecked;
    hide DecodedWithin;
    hide Find;
    hide Bare;
  }

  /** AT_COUNTER holds another number. */
  predicate WrongCounter(inner: seq<EapAttribute>, counter: int) {
    && Find(inner, AT_COUNTER).Some?
    && var v := Find(inner, AT_COUNTER).value.value;
      |v| >= 2 && U16(v[0], v[1]) != counter
  }

  /** The relay is an AKA-Authentication-Reject (subtype 2), or proper and reports the counter
      too small or holds another one. */
  predicate Refuses(c: Crypto, session: ReauthSessionData, relay: Received) {
    var p := DecodedWithin(relay.raw, relay.spare);
    && p.Ok?
    && (|| p.value.subtype == 2
        || (&& ProperResponse(c, session, relay.raw, p.value)
            && var inner := InnerOf(c, session, p.value);
              && inner.Ok?
              && (Find(inner.value, AT_COUNTER_TOO_SMALL).Some? || WrongCounter(inner.value, session.counter))))
  }

  /** The identities after a response: those refusals delete the session's identity, every
      other refusal leaves it, acceptance replaces it, and no other is touched. */
  function IdentitiesAfterReply(c: Crypto, s: Server, sid: string, y: ReauthReplyInput): map<Bytes, ReauthState> {
    var ids := s.auth.identities;
    if GetReauthSession in y.failing || sid !in s.reauthSessions || y.relay.None? then ids
    else
      var session := s.reauthSessions[sid];
      var dropped := if DeleteReauth in y.failing then ids else ids - {session.reauthId};
      if Refuses(c, session, y.relay.value) then dropped
      else if !Accepts(c, session, y.relay.value) then ids
      else if StoreReauth in y.failing then dropped
      else
        dropped[session.nextReauthId := ReauthState(session.subscriberId, session.imsi, session.mk,
          session.kAut, session.kEncr, session.counter + 1, session.nextReauthId)]
  }

  lemma JudgedIdentities(
    c: Crypto, s: Server, sid: string, session: ReauthSessionData, inner: seq<EapAttribute>, y: ReauthReplyInput)
    ensures var dropped :=
        if DeleteReauth in y.failing then s.auth.identities else s.auth.identities - {session.reauthId};
      JudgeInner(c, s, sid, session, inner, y).0.auth.identities ==
        if Find(inner, AT_COUNTER_TOO_SMALL).Some? || WrongCounter(inner, session.counter) then dropped
        else if !Echoes(inner, session.counter) then s.auth.identities
        else if StoreReauth in y.failing then dropped
        else dropped[session.nextReauthId := ReauthState(session.subscriberId, session.imsi, session.mk,
          session.kAut, session.kEncr, session.counter + 1, session.nextReauthId)]
  {
    hide Find;
    hide Bare;
    hide ChallengeRelay;
    hide NewSession;
  }

  lemma ReauthIdentitiesExactly(c: Crypto, s: Server, sid: string, y: ReauthReplyInput)
    ensures ReauthResponse(c, s, sid, y).0.auth.identities == IdentitiesAfterReply(c, s, sid, y)
  {
    hide JudgeInner;
    hide ResponseChecked;
    hide DecodedWithin;
    hide InnerOf;
    hide MacValid;
    hide Find;
    hide Echoes;
    hide WrongCounter;
    hide Bare;
    if sid in s.reauthSessions && y.relay.Some? {
      var session, relay := s.reauthSessions[sid], y.relay.value;
      var p := DecodedWithin(relay.raw, relay.spare);
      if p.Ok? {
        CheckedResponds(c, session, relay.raw, p.value);
        var inner := InnerOf(c, session, p.value);
        if inner.Ok? {
          JudgedIdentities(c, s, sid, session, inner.value, y);
        }
      }
    }
  }

  /** A refusal of that kind revokes the identity, and only such a one does. */
  lemma RefusalRevokes(c: Crypto, s: Server, sid: string, y: ReauthReplyInput)
    requires sid in s.reauthSessions && s.reauthSessions[sid].reauthId in s.auth.identities
    requires {GetReauthSession, DeleteReauth} !! y.failing && y.relay.Some?
    requires ReauthResponse(c, s, sid, y).1.Failure? || ReauthResponse(c, s, sid, y).1.Challenge?
    ensures s.reauthSessions[sid].reauthId !in ReauthResponse(c, s, sid, y).0.auth.identities
      <==> Refuses(c, s.reauthSessions[sid], y.relay.value)
  {
    hide ReauthResponse;
    hide Refuses;
    hide Accepts;
    ReauthIdentitiesExactly(c, s, sid, y);
    ReauthSucceedsExactly(c, s, sid, y);
    RefusedNotFailed(c, s, sid, y);
  }

  /** A failing store ends an accepted response in an error, not in a refusal. */
  lemma RefusedNotFailed(c: Crypto, s: Server, sid: string, y: ReauthReplyInput)
    requires sid in s.reauthSessions && y.relay.Some? && GetReauthSession !in y.failing
    ensures Accepts(c, s.reauthSessions[sid], y.relay.value) && StoreReauth in y.failing ==>
      ReauthResponse(c, s, sid, y).1 == Error
  {
    hide JudgeInner;
    hide ResponseChecked;
    hide DecodedWithin;
    hide InnerOf;
    hide MacValid;
    hide Find;
    hide Echoes;
    hide Bare;
    var session, relay := s.reauthSessions[sid], y.relay.value;
    var p := DecodedWithin(relay.raw, relay.spare);
    if Accepts(c, session, relay) && StoreReauth in y.failing {
      CheckedResponds(c, session, relay.raw, p.value);
      EchoedNotStored(c, s, sid, session, InnerOf(c, session, p.value).value, y);
    }
  }

  lemma EchoedNotStored(
    c: Crypto, s: Server, sid: string, session: ReauthSessionData, inner: seq<EapAttribute>, y: ReauthReplyInput)
    requires Echoes(inner, session.counter) && StoreReauth in y.failing
    ensures JudgeInner(c, s, sid, session, inner, y).1 == Error
  {
    hide Find;
    hide Bare;
  }

  /** A request drops an identity whose counter has reached 65535, and touches no other. */
  lemma RequestIdentitiesExactly(c: Crypto, s: Server, id: Bytes, x: ReauthInput)
    ensures ReauthRequest(c, s, id, x).0.auth.identities ==
      if id in s.auth.identities && s.auth.identities[id].counter >= 65535 && {GetReauth, DeleteReauth} !! x.failing
      then s.auth.identities - {id} else s.auth.identities
  {
    hide ReauthRelay;
    hide NewReauthSession;
  }

  // ---------------------------------------------------------------- what stays

  /** No first request touches a session under another id, or any identity. */
  lemma InitialKeeps(
    c: Crypto, s: AuthState, imsi: Bytes, fetch: Fetch, sid: string, failing: set<Op>)
    ensures var s' := InitialRequest(c, s, imsi, fetch, sid, failing).0;
      s'.sessions - {sid} == s.sessions - {sid} && s'.identities == s.identities
  {
    hide ChallengeRelay;
    hide NewSession;
  }

  lemma EapKeeps(c: Crypto, s: AuthState, sid: string, x: EapInput)
    ensures EapResponse(c, s, sid, x).0.sessions - {sid} == s.sessions - {sid}
  {
    hide ChallengeRelay;
    hide ResyncUpdate;
    hide AnswerChecked;
    hide DecodedWithin;
    hide Find;
    hide Bare;
  }

  lemma ReauthRequestKeeps(c: Crypto, s: Server, id: Bytes, x: ReauthInput)
    ensures var s' := ReauthRequest(c, s, id, x).0;
      && s'.auth.sessions == s.auth.sessions && s'.auth.idCounter == s.auth.idCounter
      && s'.reauthSessions - {x.sid} == s.reauthSessions - {x.sid}
  {
    hide ReauthRelay;
    hide NewReauthSession;
  }

  /** The re-authentication sessions but one, and the full-authentication sessions but another. */
  predicate Keeps(s: Server, s': Server, sid: string, newSid: string) {
    && s'.reauthIdCounter == s.reauthIdCounter
    && s'.reauthSessions - {sid} == s.reauthSessions - {sid}
    && s'.auth.sessions - {newSid} == s.auth.sessions - {newSid}
  }

  lemma JudgedKeeps(
    c: Crypto, s: Server, sid: string, session: ReauthSessionData, inner: seq<EapAttribute>, y: ReauthReplyInput)
    ensures Keeps(s, JudgeInner(c, s, sid, session, inner, y).0, sid, y.newSid)
  {
    hide InitialRequest;
    hide Find;
    hide Bare;
    var s1 := Revoke(s, sid, session.reauthId, y.failing);
    InitialKeeps(c, s1.auth, session.imsi, y.fetch, y.newSid, y.failing);
  }

  lemma ReauthKeeps(c: Crypto, s: Server, sid: string, y: ReauthReplyInput)
    ensures Keeps(s, ReauthResponse(c, s, sid, y).0, sid, y.newSid)
  {
    hide JudgeInner;
    hide ResponseChecked;
    hide DecodedWithin;
    hide InnerOf;
    hide Bare;
    if sid in s.reauthSessions {
      forall inner ensures Keeps(s, JudgeInner(c, s, sid, s.reauthSessions[sid], inner, y).0, sid, y.newSid) {
        JudgedKeeps(c, s, sid, s.reauthSessions[sid], inner, y);
      }
    }
  }

  /** An error, a panic or an endless loop in a full authentication changes no store. */
  lemma EapErrorsKeep(c: Crypto, s: AuthState, sid: string, x: EapInput)
    ensures var (s', r) := EapResponse(c, s, sid, x);
      r == Error || r == Crashed || r == Stuck ==> s'.sessions == s.sessions && s'.identities == s.identities
  {
    hide ChallengeRelay;
    hide ResyncUpdate;
    hide AnswerChecked;
    hide DecodedWithin;
    hide Find;
    hide Bare;
  }

  // ---------------------------------------------------------------- challenges

  /** A first request is challenged if and only if the HSS knows the IMSI, its vectors can be
      encoded and the session can be created; otherwise no session changes. */
  lemma InitialChallengesExactly(
    c: Crypto, s: AuthState, imsi: Bytes, fetch: Fetch, sid: string, failing: set<Op>)
    ensures var (s', r) := InitialRequest(c, s, imsi, fetch, sid, failing);
      var identifier := (s.idCounter + 1) % 0x1_0000_0000 % 256;
      && (r.Challenge? <==>
        fetch(imsi).Some? && CreateSession !in failing && ChallengeRelay(c, imsi, identifier, fetch(imsi).value).Ok?)
      && (r.Challenge? ==> r.sessionId == sid && ChallengeRelay(c, imsi, identifier, fetch(imsi).value) == Ok(r.relay))
      && (!r.Challenge? ==> s'.sessions == s.sessions)
      && (fetch(imsi).None? ==> r == Error && s' == s)
  {
    hide ChallengeRelay;
    hide NewSession;
  }

  /** A re-authentication request is challenged if and only if the identity is live below 65535,
      its challenge can be made, and none of five calls fails; otherwise no session changes. */
  lemma RequestChallengesExactly(c: Crypto, s: Server, id: Bytes, x: ReauthInput)
    ensures var (s', r) := ReauthRequest(c, s, id, x);
      var identifier := (s.reauthIdCounter + 1) % 0x1_0000_0000 % 256;
      && (r.Challenge? <==>
        && {GetReauth, RandomNonce, RandomId, RandomIv, CreateReauthSession} !! x.failing
        && id in s.auth.identities && s.auth.identities[id].counter < 65535
        && ReauthRelay(c, s.auth.identities[id], identifier, x).Ok?)
      && (r.Challenge? ==>
        r.sessionId == x.sid && ReauthRelay(c, s.auth.identities[id], identifier, x) == Ok(r.relay))
      && (!r.Challenge? ==> s'.reauthSessions == s.reauthSessions)
  {
    hide ReauthRelay;
    hide NewReauthSession;
  }

  /** A response is answered with a challenge if and only if it is a synchronization failure
      (subtype 4) on an awaiting session, its first AT_AUTS holds 14 bytes, the HSS answers
      for the session's IMSI and RAND and those bytes, and the answer can be encoded. */
  lemma ResyncChallengesExactly(c: Crypto, s: AuthState, sid: string, x: EapInput)
    ensures EapResponse(c, s, sid, x).1.Challenge? <==>
      && GetSession !in x.failing && sid in s.sessions && s.sessions[sid].state == CHALLENGE_SENT && x.relay.Some?
      && var session, p := s.sessions[sid], DecodedWithin(x.relay.value.raw, x.relay.value.spare);
        && p.Ok? && p.value.subtype == 4
        && var auts := Find(p.value.attributes, AT_AUTS);
          && auts.Some? && |auts.value.value| == 14
          && var v := x.resync(session.imsi, session.rand, auts.value.value);
            v.Some? && ChallengeRelay(c, session.imsi, (s.idCounter + 1) % 0x1_0000_0000 % 256, v.value).Ok?
  {
    hide ChallengeRelay;
    hide ResyncUpdate;
    hide AnswerChecked;
    hide DecodedWithin;
    hide Find;
    hide Bare;
  }

  /** A resynchronization that draws identifier 0 sends it, and the record keeps the old one. */
  lemma ZeroIdentifierLags(c: Crypto, s: AuthState, sid: string, x: EapInput)
    requires sid in s.sessions && EapResponse(c, s, sid, x).1.Challenge?
    requires (s.idCounter + 1) % 0x1_0000_0000 % 256 == 0 && !x.expires
    ensures sid in EapResponse(c, s, sid, x).0.sessions
      && EapResponse(c, s, sid, x).0.sessions[sid].identifier == s.sessions[sid].identifier
  {
    hide ChallengeRelay;
    hide KeysFrom;
    hide AnswerChecked;
    hide DecodedWithin;
    hide Find;
    hide Bare;
  }

  /** An attribute that claims no bytes keeps the decoder, and with it the handler, for ever. */
  lemma ZeroLengthHangs(c: Crypto, s: AuthState, sid: string, x: EapInput)
    requires GetSession !in x.failing && sid in s.sessions && s.sessions[sid].state == CHALLENGE_SENT && x.relay.Some?
    requires var raw := x.relay.value.raw;
      && 10 <= |raw| < 256 && raw[0] != 3 && raw[0] != 4 && raw[2] == 0 && raw[3] == |raw|
      && raw[8] == AT_COUNTER_TOO_SMALL && raw[9] == 0
    ensures EapResponse(c, s, sid, x) == (s, Stuck)
  {
    hide SyncFailure;
    hide AnswerChecked;
    hide Bare;
    var raw, spare := x.relay.value.raw, x.relay.value.spare;
    assert AttributeWithin(raw, spare, 8) == Ok(EapAttribute(AT_COUNTER_TOO_SMALL, [])) && Claimed(raw, 8) == 0;
    assert ParsedWithin(raw, spare, 8, |raw|) == Hang;
  }
}
