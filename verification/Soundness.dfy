/** What a success proves about the response that got it: the exact conditions under which a
    response is answered with success. */
module Soundness {
  import opened ByteStrings
  import opened Codec
  import opened Encryption
  import opened Keys
  import opened Mac
  import opened Primitives
  import opened Protocol

  /** The relay holds a packet that answers the session's challenge. */
  predicate Answers(c: Crypto, session: EapSessionData, relay: Received) {
    var p := DecodedWithin(relay.raw, relay.spare);
    p.Ok? && AnswersChallenge(c, session, relay.raw, p.value)
  }

  /** A full authentication succeeds if and only if its response answers the challenge and
      the subscriber is found, and no call it depends on fails. */
  lemma FullAuthSucceedsExactly(c: Crypto, s: AuthState, sid: string, x: EapInput)
    ensures EapResponse(c, s, sid, x).1.Success? <==>
      && {GetSession, RandomId, StoreReauth} !! x.failing
      && sid in s.sessions && s.sessions[sid].state == CHALLENGE_SENT
      && x.relay.Some? && Answers(c, s.sessions[sid], x.relay.value)
      && x.lookup(s.sessions[sid].imsi) != ""
  {
    hide SyncFailure;
    hide AnswerChecked;
    hide DecodedWithin;
    hide MacValid;
    hide Find;
    hide Bare;
    if sid in s.sessions && x.relay.Some? {
      var session, relay := s.sessions[sid], x.relay.value;
      var p := DecodedWithin(relay.raw, relay.spare);
      if p.Ok? {
        CheckedAnswers(c, session, relay.raw, p.value);
        SyncFailureNeverSucceeds(c, s, sid, session, p.value, x);
      }
    }
  }

  lemma SyncFailureNeverSucceeds(
    c: Crypto, s: AuthState, sid: string, session: EapSessionData, p: EapPacket, x: EapInput)
    ensures !SyncFailure(c, s, sid, session, p, x).1.Success?
  {
    hide ChallengeRelay;
    hide ResyncUpdate;
    hide Bare;
  }

  /** The inner attributes echo the challenged counter. */
  predicate Echoes(inner: seq<EapAttribute>, counter: int) {
    && Find(inner, AT_COUNTER_TOO_SMALL).None?
    && Find(inner, AT_COUNTER).Some?
    && var v := Find(inner, AT_COUNTER).value.value;
      |v| >= 2 && U16(v[0], v[1]) == counter
  }

  /** The relay holds a packet with a right MAC under the session's K_aut, whose attributes
      decrypted under its K_encr echo its counter. Nothing else of the session enters. */
  predicate Accepts(c: Crypto, session: ReauthSessionData, relay: Received) {
    var p := DecodedWithin(relay.raw, relay.spare);
    && p.Ok? && ProperResponse(c, session, relay.raw, p.value)
    && var inner := InnerOf(c, session, p.value);
      inner.Ok? && Echoes(inner.value, session.counter)
  }

  lemma JudgedSuccess(
    c: Crypto, s: Server, sid: string, session: ReauthSessionData, inner: seq<EapAttribute>, y: ReauthReplyInput)
    ensures JudgeInner(c, s, sid, session, inner, y).1.Success?
      <==> Echoes(inner, session.counter) && StoreReauth !in y.failing
  {
    hide Find;
    hide Bare;
    hide InitialRequest;
    var s1 := Revoke(s, sid, session.reauthId, y.failing);
    InitialNeverSucceeds(c, s1.auth, session.imsi, y.fetch, y.newSid, y.failing);
  }

  lemma InitialNeverSucceeds(
    c: Crypto, s: AuthState, imsi: Bytes, fetch: Fetch, sid: string, failing: set<Op>)
    ensures !InitialRequest(c, s, imsi, fetch, sid, failing).1.Success?
  {
    hide ChallengeRelay;
    hide NewSession;
  }

  /** A fast re-authentication succeeds if and only if its session accepts the response and
      no call it depends on fails. */
  lemma ReauthSucceedsExactly(c: Crypto, s: Server, sid: string, y: ReauthReplyInput)
    ensures ReauthResponse(c, s, sid, y).1.Success? <==>
      && {GetReauthSession, StoreReauth} !! y.failing
      && sid in s.reauthSessions
      && y.relay.Some? && Accepts(c, s.reauthSessions[sid], y.relay.value)
  {
    hide JudgeInner;
    hide ResponseChecked;
    hide DecodedWithin;
    hide InnerOf;
    hide MacValid;
    hide Find;
    hide Echoes;
    hide Bare;
    if sid in s.reauthSessions && y.relay.Some? {
      var session, relay := s.reauthSessions[sid], y.relay.value;
      var p := DecodedWithin(relay.raw, relay.spare);
      if p.Ok? {
        CheckedResponds(c, session, relay.raw, p.value);
        var inner := InnerOf(c, session, p.value);
        if inner.Ok? {
          JudgedSuccess(c, s, sid, session, inner.value, y);
        }
      }
    }
  }

  /** The MAC is not bound to the challenge: open sessions that share keys and counter
      succeed on exactly the same responses, whatever their nonces and identifiers, and
      whatever identities they are for. */
  lemma ChallengesNotTold(
    c: Crypto, s: Server, one: string, other: string, y: ReauthReplyInput)
    requires one in s.reauthSessions && other in s.reauthSessions
    requires var a, b := s.reauthSessions[one], s.reauthSessions[other];
      a.kAut == b.kAut && a.kEncr == b.kEncr && a.counter == b.counter
    ensures ReauthResponse(c, s, one, y).1.Success? <==> ReauthResponse(c, s, other, y).1.Success?
  {
    hide ReauthResponse;
    hide DecodedWithin;
    hide MacValid;
    hide Echoes;
    hide Find;
    hide Decrypted;
    ReauthSucceedsExactly(c, s, one, y);
    ReauthSucceedsExactly(c, s, other, y);
  }
}
