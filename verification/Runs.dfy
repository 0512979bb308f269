/** Whole runs: any sequence of requests, with any answers from the HSS, the subscriber
    table and the random source, any failing store calls, and any key expiring at any time. */
module Runs {
  import opened ByteStrings
  import opened Codec
  import opened Encryption
  import opened Keys
  import opened Mac
  import opened Primitives
  import opened Protocol
  import opened Soundness

  datatype Event =
    | InitialEvent(imsi: Bytes, fetch: Fetch, newSid: string, failing: set<Op>)
    | EapEvent(sid: string, x: EapInput)
    | ReauthRequestEvent(id: Bytes, q: ReauthInput)
    | ReauthResponseEvent(sid: string, y: ReauthReplyInput)
    | SessionExpires(sid: string)
    | ReauthSessionExpires(sid: string)
    | IdentityExpires(id: Bytes)

  const START := Server(AuthState(map[], map[], 0), map[], 128)

  function Step(c: Crypto, s: Server, e: Event): (Server, Reply) {
    match e
    case InitialEvent(imsi, fetch, sid, failing) =>
      var (auth, reply) := InitialRequest(c, s.auth, imsi, fetch, sid, failing);
      (s.(auth := auth), reply)
    case EapEvent(sid, x) =>
      var (auth, reply) := EapResponse(c, s.auth, sid, x);
      (s.(auth := auth), reply)
    case ReauthRequestEvent(id, q) => ReauthRequest(c, s, id, q)
    case ReauthResponseEvent(sid, y) => ReauthResponse(c, s, sid, y)
    case SessionExpires(sid) => (s.(auth := s.auth.(sessions := s.auth.sessions - {sid})), Silent)
    case ReauthSessionExpires(sid) => (s.(reauthSessions := s.reauthSessions - {sid}), Silent)
    case IdentityExpires(id) => (s.(auth := s.auth.(identities := s.auth.identities - {id})), Silent)
  }

  /** The state after a run. */
  function Run(c: Crypto, es: seq<Event>): Server {
    if es == [] then START else Step(c, Run(c, es[..|es| - 1]), es[|es| - 1]).0
  }

  /** The state before event i, and the reply to it. */
  function Before(c: Crypto, es: seq<Event>, i: nat): Server
    requires i <= |es|
  {
    Run(c, es[..i])
  }

  function ReplyTo(c: Crypto, es: seq<Event>, i: nat): Reply
    requires i < |es|
  {
    Step(c, Before(c, es, i), es[i]).1
  }

  lemma BeforeNext(c: Crypto, es: seq<Event>, i: nat)
    requires i < |es|
    ensures Before(c, es, i + 1) == Step(c, Before(c, es, i), es[i]).0
  {
    hide Step;
    assert es[..i + 1][..i] == es[..i];
  }

  lemma BeforeFirst(c: Crypto, es: seq<Event>)
    ensures Before(c, es, 0) == START
  {
    assert es[..0] == [];
  }

  // ---------------------------------------------------------------- what one step can do

  /** Where a session record came from in one step. */
  predicate SessionKept(s: Server, s': Server, sid: string) {
    sid in s.auth.sessions && sid in s'.auth.sessions && s'.auth.sessions[sid] == s.auth.sessions[sid]
  }

  /** The challenge a full authentication starts with. */
  predicate SessionOpened(c: Crypto, imsi: Bytes, fetched: Option<HssVectors>, s': Server, r: Reply, sid: string) {
    && fetched.Some? && r.Challenge? && r.sessionId == sid && sid in s'.auth.sessions
    && var v := fetched.value;
      var session := s'.auth.sessions[sid];
      session == NewSession(c, imsi, session.identifier, v)
      && ChallengeRelay(c, imsi, session.identifier, v) == Ok(r.relay)
  }

  /** The same after a re-authentication that fell back to full authentication. */
  predicate Reopened(c: Crypto, s: Server, on: string, y: ReauthReplyInput, s': Server, r: Reply, sid: string) {
    && on in s.reauthSessions
    && var imsi := s.reauthSessions[on].imsi;
      SessionOpened(c, imsi, y.fetch(imsi), s', r, sid)
  }

  /** What the HSS answers for the AUTS in a relay, asked with the session's IMSI and RAND. */
  function AskedResync(session: EapSessionData, x: EapInput): Option<HssVectors> {
    if x.relay.None? then None
    else
      match DecodedWithin(x.relay.value.raw, x.relay.value.spare)
      case Ok(p) =>
        (match Find(p.attributes, AT_AUTS)
         case Some(auts) => if |auts.value| == 14 then x.resync(session.imsi, session.rand, auts.value) else None
         case None => None)
      case _ => None
  }

  /** The challenge a resynchronization issues, over the record kept or over none. */
  predicate SessionResynced(c: Crypto, s: Server, x: EapInput, s': Server, r: Reply, sid: string) {
    && sid in s.auth.sessions && s.auth.sessions[sid].state == CHALLENGE_SENT
    && AskedResync(s.auth.sessions[sid], x).Some? && UpdateSession !in x.failing
    && r.Challenge? && r.sessionId == sid && sid in s'.auth.sessions
    && var v, imsi := AskedResync(s.auth.sessions[sid], x).value, s.auth.sessions[sid].imsi;
      && 0 <= s'.auth.idCounter
      && var identifier := s'.auth.idCounter % 256;
      s'.auth.sessions[sid] ==
        Merged(if x.expires then NO_FIELDS else s.auth.sessions[sid], ResyncUpdate(c, imsi, identifier, v))
      && ChallengeRelay(c, imsi, identifier, v) == Ok(r.relay)
  }

  lemma InitialSessions(
    c: Crypto, s: Server, imsi: Bytes, fetch: Fetch, newSid: string, failing: set<Op>, sid: string)
    requires sid in InitialRequest(c, s.auth, imsi, fetch, newSid, failing).0.sessions
    ensures var (auth, r) := InitialRequest(c, s.auth, imsi, fetch, newSid, failing);
      var s' := s.(auth := auth);
      && auth.identities == s.auth.identities
      && (sid != newSid ==> SessionKept(s, s', sid) && !(r.Challenge? && r.sessionId == sid))
      && (sid == newSid ==>
        || SessionOpened(c, imsi, fetch(imsi), s', r, sid)
        || (SessionKept(s, s', sid) && !r.Challenge?))
  {
    hide ChallengeRelay;
    hide KeysFrom;
  }

  lemma EapSessions(c: Crypto, s: Server, x: EapInput, on: string, sid: string)
    requires sid in EapResponse(c, s.auth, on, x).0.sessions
    ensures var (auth, r) := EapResponse(c, s.auth, on, x);
      var s' := s.(auth := auth);
      && (sid != on ==> SessionKept(s, s', sid) && !(r.Challenge? && r.sessionId == sid))
      && (sid == on ==>
        || SessionResynced(c, s, x, s', r, sid)
        || (SessionKept(s, s', sid) && (r.Challenge? ==> UpdateSession in x.failing)))
  {
    hide FirstAt;
    hide Sealed;
    hide ChallengeRelay;
    hide ResyncUpdate;
    hide AnswerChecked;
    hide DecodedWithin;
    hide Bare;
  }

  /** The record was kept, or the session fell back to full authentication under this id. */
  predicate KeptOrReopened(
    c: Crypto, s: Server, session: ReauthSessionData, y: ReauthReplyInput, s': Server, r: Reply, sid: string) {
    || (SessionKept(s, s', sid) && !(r.Challenge? && r.sessionId == sid))
    || (sid == y.newSid && SessionOpened(c, session.imsi, y.fetch(session.imsi), s', r, sid))
  }

  lemma JudgeInnerSessions(
    c: Crypto, s: Server, y: ReauthReplyInput, on: string, session: ReauthSessionData,
    inner: seq<EapAttribute>, sid: string)
    requires sid in JudgeInner(c, s, on, session, inner, y).0.auth.sessions
    ensures var (s', r) := JudgeInner(c, s, on, session, inner, y);
      KeptOrReopened(c, s, session, y, s', r, sid)
  {
    hide InitialRequest;
    hide SessionOpened;
    hide FirstAt;
    hide Bare;
    if Find(inner, AT_COUNTER_TOO_SMALL).Some? {
      var s1 := Revoke(s, on, session.reauthId, y.failing);
      var (s', r) := StartOver(c, s1, session, y);
      InitialSessions(c, s1, session.imsi, y.fetch, y.newSid, y.failing, sid);
      OpenedAgain(c, session.imsi, y.fetch(session.imsi), s1.(auth := s'.auth), s', r, sid);
    }
  }

  lemma ReauthResponseSessions(c: Crypto, s: Server, y: ReauthReplyInput, on: string, sid: string)
    requires sid in ReauthResponse(c, s, on, y).0.auth.sessions
    ensures var (s', r) := ReauthResponse(c, s, on, y);
      || (SessionKept(s, s', sid) && !(r.Challenge? && r.sessionId == sid))
      || (sid == y.newSid
          && Reopened(c, s, on, y, s', r, sid))
  {
    hide JudgeInner;
    hide SessionOpened;
    hide ResponseChecked;
    hide DecodedWithin;
    hide InnerOf;
    hide Bare;
    forall inner | on in s.reauthSessions && sid in JudgeInner(c, s, on, s.reauthSessions[on], inner, y).0.auth.sessions
      ensures var (s', r) := JudgeInner(c, s, on, s.reauthSessions[on], inner, y);
        KeptOrReopened(c, s, s.reauthSessions[on], y, s', r, sid)
    {
      JudgeInnerSessions(c, s, y, on, s.reauthSessions[on], inner, sid);
    }
  }

  lemma OpenedAgain(c: Crypto, imsi: Bytes, fetched: Option<HssVectors>, s1: Server, s2: Server, r: Reply, sid: string)
    requires s1.auth == s2.auth
    ensures SessionOpened(c, imsi, fetched, s1, r, sid) <==> SessionOpened(c, imsi, fetched, s2, r, sid)
  {
    hide NewSession;
    hide ChallengeRelay;
  }

  /** The event answered with a full-authentication challenge on this session. */
  predicate Issues(e: Event, r: Reply, sid: string) {
    !e.ReauthRequestEvent? && r.Challenge? && r.sessionId == sid
  }

  /** The challenge is also in the record: a resynchronization's update can fail unnoticed. */
  predicate Records(e: Event, r: Reply, sid: string) {
    Issues(e, r, sid) && (e.EapEvent? ==> UpdateSession !in e.x.failing)
  }

  /** The ways a record can be there after an event. */
  predicate SessionStep(c: Crypto, s: Server, e: Event, s': Server, r: Reply, sid: string) {
    || (SessionKept(s, s', sid) && !Records(e, r, sid))
    || (e.InitialEvent? && sid == e.newSid && SessionOpened(c, e.imsi, e.fetch(e.imsi), s', r, sid))
    || (e.ReauthResponseEvent? && sid == e.y.newSid
        && Reopened(c, s, e.sid, e.y, s', r, sid))
    || (e.EapEvent? && e.sid == sid && SessionResynced(c, s, e.x, s', r, sid))
  }

  lemma SessionAfter(c: Crypto, s: Server, e: Event, sid: string)
    requires sid in Step(c, s, e).0.auth.sessions
    ensures SessionStep(c, s, e, Step(c, s, e).0, Step(c, s, e).1, sid)
  {
    hide InitialRequest;
    hide EapResponse;
    hide ReauthResponse;
    hide SessionOpened;
    hide SessionResynced;
    match e
    case InitialEvent(imsi, fetch, newSid, failing) =>
      InitialSessions(c, s, imsi, fetch, newSid, failing, sid);
    case EapEvent(on, x) =>
      EapSessions(c, s, x, on, sid);
    case ReauthResponseEvent(on, y) =>
      ReauthResponseSessions(c, s, y, on, sid);
    case ReauthRequestEvent(id, q) =>
      ReauthRequestSessions(c, s, id, q);
    case _ =>
  }

  lemma ReauthRequestSessions(c: Crypto, s: Server, id: Bytes, q: ReauthInput)
    ensures ReauthRequest(c, s, id, q).0.auth.sessions == s.auth.sessions
    ensures ReauthRequest(c, s, id, q).0.auth.idCounter == s.auth.idCounter
  {
    hide ReauthRelay;
  }

  /** A full authentication that ends in success. */
  predicate FullAuthAt(c: Crypto, s: Server, e: Event, s': Server, r: Reply) {
    && e.EapEvent? && r.Success? && r.identity == e.x.newId
    && e.sid in s.auth.sessions && s.auth.sessions[e.sid].state == CHALLENGE_SENT
    && var session := s.auth.sessions[e.sid];
      && r.subscriberId == e.x.lookup(session.imsi) && r.subscriberId != ""
      && e.x.relay.Some? && Answers(c, session, e.x.relay.value)
      && s'.auth.identities == s.auth.identities[r.identity := FirstState(session, r.subscriberId, r.identity)]
  }

  /** A fast re-authentication that ends in success. */
  predicate ReauthAt(c: Crypto, s: Server, e: Event, s': Server, r: Reply) {
    && e.ReauthResponseEvent? && r.Success? && e.sid in s.reauthSessions
    && var session := s.reauthSessions[e.sid];
      && e.y.relay.Some? && Accepts(c, session, e.y.relay.value)
      && r.identity == session.nextReauthId && r.subscriberId == session.subscriberId
      && s'.auth.identities == (if DeleteReauth in e.y.failing then s.auth.identities
          else s.auth.identities - {session.reauthId})[r.identity := NextState(session)]
      && s'.reauthSessions == if DeleteReauthSession in e.y.failing then s.reauthSessions
          else s.reauthSessions - {e.sid}
  }

  /** Success is the only reply that stores an identity. */
  predicate IdentityStep(c: Crypto, s: Server, e: Event, s': Server, r: Reply) {
    || FullAuthAt(c, s, e, s', r)
    || ReauthAt(c, s, e, s', r)
    || (!r.Success? && s'.auth.identities.Keys <= s.auth.identities.Keys
        && forall id :: id in s'.auth.identities ==> s'.auth.identities[id] == s.auth.identities[id])
  }

  lemma InitialIdentities(
    c: Crypto, s: AuthState, imsi: Bytes, fetch: Fetch, newSid: string, failing: set<Op>)
    ensures InitialRequest(c, s, imsi, fetch, newSid, failing).0.identities == s.identities
    ensures !InitialRequest(c, s, imsi, fetch, newSid, failing).1.Success?
  {
    hide ChallengeRelay;
    hide NewSession;
  }

  lemma EapIdentities(c: Crypto, s: Server, x: EapInput, on: string)
    ensures var (auth, r) := EapResponse(c, s.auth, on, x);
      IdentityStep(c, s, EapEvent(on, x), s.(auth := auth), r)
  {
    hide Answers;
    hide ChallengeRelay;
    hide ResyncUpdate;
    hide AnswerChecked;
    hide DecodedWithin;
    hide Bare;
    FullAuthSucceedsExactly(c, s.auth, on, x);
  }

  lemma ReauthResponseIdentities(c: Crypto, s: Server, y: ReauthReplyInput, on: string)
    ensures var (s', r) := ReauthResponse(c, s, on, y);
      IdentityStep(c, s, ReauthResponseEvent(on, y), s', r)
  {
    hide FirstAt;
    hide Accepts;
    hide InitialRequest;
    hide ResponseChecked;
    hide DecodedWithin;
    hide InnerOf;
    hide Bare;
    ReauthSucceedsExactly(c, s, on, y);
    if on in s.reauthSessions {
      var session := s.reauthSessions[on];
      var s1 := Revoke(s, on, session.reauthId, y.failing);
      InitialIdentities(c, s1.auth, session.imsi, y.fetch, y.newSid, y.failing);
    }
  }

  lemma ReauthRequestIdentities(c: Crypto, s: Server, id: Bytes, q: ReauthInput)
    ensures IdentityStep(c, s, ReauthRequestEvent(id, q), ReauthRequest(c, s, id, q).0, ReauthRequest(c, s, id, q).1)
  {
    hide ReauthRelay;
  }

  lemma IdentitiesAfter(c: Crypto, s: Server, e: Event)
    ensures IdentityStep(c, s, e, Step(c, s, e).0, Step(c, s, e).1)
  {
    hide InitialRequest;
    hide EapResponse;
    hide ReauthResponse;
    hide ReauthRequest;
    hide AnswerChecked;
    match e
    case InitialEvent(imsi, fetch, newSid, failing) =>
      InitialIdentities(c, s.auth, imsi, fetch, newSid, failing);
    case EapEvent(on, x) => EapIdentities(c, s, x, on);
    case ReauthResponseEvent(on, y) => ReauthResponseIdentities(c, s, y, on);
    case ReauthRequestEvent(id, q) => ReauthRequestIdentities(c, s, id, q);
    case _ =>
  }

  /** The event answered with a re-authentication challenge on this session. */
  predicate ReauthIssues(e: Event, r: Reply, sid: string) {
    e.ReauthRequestEvent? && r.Challenge? && r.sessionId == sid
  }

  /** The challenge a re-authentication starts with, for a live identity whose counter is
      not exhausted. */
  predicate ReauthOpened(c: Crypto, s: Server, e: Event, s': Server, r: Reply, sid: string) {
    && ReauthIssues(e, r, sid) && sid == e.q.sid && sid in s'.reauthSessions && e.id in s.auth.identities
    && var live, session := s.auth.identities[e.id], s'.reauthSessions[sid];
      && live.counter < 65535
      && session == NewReauthSession(live, e.id, session.identifier, e.q)
      && ReauthRelay(c, live, session.identifier, e.q) == Ok(r.relay)
  }

  /** A re-authentication session is there because it was, or because a request for a live
      identity with an unexhausted counter opened it. */
  predicate ReauthSessionStep(c: Crypto, s: Server, e: Event, s': Server, r: Reply, sid: string) {
    || (sid in s.reauthSessions && sid in s'.reauthSessions && s'.reauthSessions[sid] == s.reauthSessions[sid]
        && !ReauthIssues(e, r, sid))
    || ReauthOpened(c, s, e, s', r, sid)
  }

  lemma ReauthRequestOpens(c: Crypto, s: Server, id: Bytes, q: ReauthInput, sid: string)
    requires sid in ReauthRequest(c, s, id, q).0.reauthSessions
    ensures var (s', r) := ReauthRequest(c, s, id, q);
      ReauthSessionStep(c, s, ReauthRequestEvent(id, q), s', r, sid)
  {
    hide ReauthRelay;
  }

  lemma ReauthSessionAfter(c: Crypto, s: Server, e: Event, sid: string)
    requires sid in Step(c, s, e).0.reauthSessions
    ensures ReauthSessionStep(c, s, e, Step(c, s, e).0, Step(c, s, e).1, sid)
  {
    hide FirstAt;
    hide InitialRequest;
    hide EapResponse;
    hide ReauthRequest;
    hide ReauthOpened;
    hide ResponseChecked;
    hide DecodedWithin;
    hide InnerOf;
    hide Bare;
    if e.ReauthRequestEvent? {
      ReauthRequestOpens(c, s, e.id, e.q, sid);
    }
  }
}
