/** Runs that show what the code does not promise: replies the server cannot tell apart, and
    failing calls whose errors it ignores. */
module Counterexamples {
  import opened Backing
  import opened ByteStrings
  import opened Codec
  import opened Completion
  import opened Identities
  import opened Keys
  import opened Lifetime
  import opened Mac
  import opened OneShot
  import opened Primitives
  import opened Protocol
  import opened Resynchronization
  import opened Runs
  import opened Safety
  import opened Soundness
  import Capacity

  // ---------------------------------------------------------------- one reply, two sessions

  /** Two requests for one identity, and the honest reply to the first sent to both: both
      succeed, although the peer never saw the second challenge, and both next identities
      are live with the same counter. */
  lemma OneReplyTwoSessions(
    c: Crypto, s: Server, id: Bytes, x1: ReauthInput, x2: ReauthInput,
    y1: ReauthReplyInput, y2: ReauthReplyInput, peerIv: Block)
    requires Invertible(c) && Consistent(c, s) && {x1.failing, x2.failing, y1.failing, y2.failing} == {{}}
    requires id in s.auth.identities && s.auth.identities[id].counter < 65535
    requires x1.sid != x2.sid && x1.newId != x2.newId && x1.newId != id
    ensures var r := s.auth.identities[id];
      var (s1, first) := ReauthRequest(c, s, id, x1);
      var (s2, second) := ReauthRequest(c, s1, id, x2);
      && first.Challenge? && second.Challenge? && HonestReply(c, r.kAut, r.kEncr, first.relay, peerIv).Some?
      && (Brings(y1.relay, HonestReply(c, r.kAut, r.kEncr, first.relay, peerIv)) && y2.relay == y1.relay ==>
        var (s3, a) := ReauthResponse(c, s2, x1.sid, y1);
        var (s4, b) := ReauthResponse(c, s3, x2.sid, y2);
        && a.Success? && b.Success?
        && s4.auth.identities == (s.auth.identities - {id})
          [x1.newId := r.(counter := r.counter + 1, identity := x1.newId)]
          [x2.newId := r.(counter := r.counter + 1, identity := x2.newId)])
  {
    hide ReauthRequest;
    hide ReauthResponse;
    hide HonestReply;
    hide SealedReauth;
    hide Tells;
    hide Consistent;
    hide Rotate;
    hide Bare;
    assert x1.failing in {x1.failing, x2.failing, y1.failing, y2.failing}
      && x2.failing in {x1.failing, x2.failing, y1.failing, y2.failing}
      && y1.failing in {x1.failing, x2.failing, y1.failing, y2.failing}
      && y2.failing in {x1.failing, x2.failing, y1.failing, y2.failing};
    var r := s.auth.identities[id];
    KeysUsable(c, s, id);
    RequestAnswered(c, s, id, x1, peerIv);
    var (s1, first) := ReauthRequest(c, s, id, x1);
    RequestAnswered(c, s1, id, x2, peerIv);
    var (s2, second) := ReauthRequest(c, s1, id, x2);
    if Brings(y1.relay, HonestReply(c, r.kAut, r.kEncr, first.relay, peerIv)) && y2.relay == y1.relay {
      var identifier := s2.reauthSessions[x1.sid].identifier;
      ReplyAccepted(c, s2, x1.sid, y1, identifier, peerIv);
      RotatedClean(s2, x1.sid, s2.reauthSessions[x1.sid]);
      var s3 := ReauthResponse(c, s2, x1.sid, y1).0;
      ReplyAccepted(c, s3, x2.sid, y2, identifier, peerIv);
      RotatedClean(s3, x2.sid, s3.reauthSessions[x2.sid]);
      TwiceRotated(s.auth.identities, id, x1.newId, x2.newId, NextState(s2.reauthSessions[x1.sid]),
        NextState(s2.reauthSessions[x2.sid]));
    }
  }

  lemma RotatedClean(s: Server, sid: string, session: ReauthSessionData)
    ensures var (s', r) := Rotate(s, sid, session, {});
      && r.Success?
      && s'.auth.identities
        == (s.auth.identities - {session.reauthId})[session.nextReauthId := NextState(session)]
      && s'.reauthSessions == s.reauthSessions - {sid}
  {
    hide Bare;
  }

  lemma TwiceRotated<V>(m: map<Bytes, V>, id: Bytes, one: Bytes, two: Bytes, a: V, b: V)
    requires one != id
    ensures ((m - {id})[one := a] - {id})[two := b] == (m - {id})[one := a][two := b]
  {
  }

  // ---------------------------------------------------------------- a delete that fails

  /** What is left of a rotation whose session delete fails: the session still stands. */
  lemma RotatedAndLeft(s: Server, sid: string, session: ReauthSessionData)
    requires sid in s.reauthSessions && s.reauthSessions[sid] == session
    ensures var (s', r) := Rotate(s, sid, session, {DeleteReauthSession});
      && r.Success? && r.identity == session.nextReauthId && s'.reauthSessions == s.reauthSessions
  {
    hide Bare;
  }

  /** With the session left, the same response succeeds again. */
  lemma AnsweredTwice(c: Crypto, s: Server, id: Bytes, q: Round)
    returns (y: ReauthReplyInput)
    requires Invertible(c) && Consistent(c, s)
    requires id in s.auth.identities && s.auth.identities[id].counter < 65535
    ensures y.failing == {DeleteReauthSession}
    ensures var s1 := ReauthRequest(c, s, id, RequestOf(id, q).q).0;
      var (s2, first) := ReauthResponse(c, s1, q.sid, y);
      var second := ReauthResponse(c, s2, q.sid, y).1;
      first.Success? && second.Success? && first.identity == second.identity == q.newId
  {
    hide ReauthRequest;
    hide ReauthResponse;
    hide HonestReply;
    hide SealedReauth;
    hide Tells;
    hide Consistent;
    hide Rotate;
    var x := RequestOf(id, q).q;
    var r := s.auth.identities[id];
    KeysUsable(c, s, id);
    RequestAnswered(c, s, id, x, q.peerIv);
    var (s1, reply) := ReauthRequest(c, s, id, x);
    var session := s1.reauthSessions[q.sid];
    y := HonestInput(HonestReply(c, r.kAut, r.kEncr, reply.relay, q.peerIv).value, q, {DeleteReauthSession});
    ReplyAccepted(c, s1, q.sid, y, session.identifier, q.peerIv);
    RotatedAndLeft(s1, q.sid, session);
    var s2 := ReauthResponse(c, s1, q.sid, y).0;
    ReplyAccepted(c, s2, q.sid, y, session.identifier, q.peerIv);
    RotatedAndLeft(s2, q.sid, session);
  }

  /** Any run with a live identity goes on to one in which a successful re-authentication
      fails to delete its session, the same response is answered twice, and its next
      identity is stored twice. */
  lemma FailedDeleteStoresTwice(c: Crypto, es: seq<Event>, id: Bytes, q: Round) returns (all: seq<Event>)
    requires Invertible(c)
    requires id in Run(c, es).auth.identities && Run(c, es).auth.identities[id].counter < 65535
    ensures es <= all && |all| == |es| + 3 && all[|es| + 1] == all[|es| + 2]
    ensures StoredAt(c, all, |es| + 1, q.newId) && StoredAt(c, all, |es| + 2, q.newId)
    ensures Leaves(all, |es| + 1, q.sid) && SucceedsOn(c, all, |es| + 2, q.sid)
  {
    hide Run;
    hide ReauthRequest;
    hide ReauthResponse;
    hide Consistent;
    hide Invertible;
    AlwaysConsistent(c, es);
    var y := AnsweredTwice(c, Run(c, es), id, q);
    var request, response := RequestOf(id, q), ReauthResponseEvent(q.sid, y);
    all := es + [request, response, response];
    var n := |es|;
    assert all[..n] == es;
    BeforeNext(c, all, n);
    BeforeNext(c, all, n + 1);
  }

  // ---------------------------------------------------------------- an update that fails

  /** A first challenge over v, a synchronization failure answered with a challenge over v2
      whose update fails, and the honest answer to the first challenge. */
  predicate StaleRun(
    c: Crypto, es: seq<Event>, imsi: Bytes, v: HssVectors, v2: HssVectors, sid: string, auts: Bytes)
  {
    && |es| == 3 && es[0].InitialEvent? && es[0].imsi == imsi && es[0].fetch(imsi) == Some(v)
    && es[0].newSid == sid && es[0].failing == {}
    && es[1].EapEvent? && es[1].sid == sid && es[1].x.failing == {UpdateSession} && !es[1].x.expires
    && |auts| == 14 && es[1].x.resync(imsi, v.rand, auts) == Some(v2)
    && es[1].x.relay == Some(Received(PaddedSyncFailure(1, auts), []))
    && es[2].EapEvent? && es[2].sid == sid && es[2].x.failing == {} && es[2].x.lookup(imsi) != ""
    && var first := Step(c, START, es[0]).1;
      first.Challenge? && Carries(es[2].x.relay, HonestAnswer(c, imsi, v, first.relay))
  }

  /** The response to the first challenge succeeds although the second is the latest sent. */
  lemma FailedUpdateAnswersOlder(
    c: Crypto, es: seq<Event>, imsi: Bytes, v: HssVectors, v2: HssVectors, sid: string, auts: Bytes)
    requires WellSized(v) && WellSized(v2) && StaleRun(c, es, imsi, v, v2, sid, auts)
    ensures |es| == 3 && Issues(es[1], ReplyTo(c, es, 1), sid) && VectorsAt(c, es, 1) == Some(v2)
    ensures LatestChallenge(c, es, 2, 1, sid) && !Records(es[1], ReplyTo(c, es, 1), sid)
    ensures es[2].EapEvent? && es[2].sid == sid && ReplyTo(c, es, 2).Success?
  {
    hide StaleRun;
    hide AskedResync;
    hide NewSession;
    hide HonestAnswer;
    hide Run;
    hide Step;
    hide PaddedSyncFailure;
    StaleShape(c, es, imsi, v, v2, sid, auts);
    BeforeFirst(c, es);
    BeforeNext(c, es, 0);
    BeforeNext(c, es, 1);
    StaleSecond(c, es, imsi, v, v2, sid, auts);
    StaleThird(c, es, imsi, v, v2, sid, auts);
  }

  lemma StaleShape(
    c: Crypto, es: seq<Event>, imsi: Bytes, v: HssVectors, v2: HssVectors, sid: string, auts: Bytes)
    requires StaleRun(c, es, imsi, v, v2, sid, auts)
    ensures |es| == 3 && es[1].EapEvent? && es[1].sid == sid && es[1].x.failing == {UpdateSession}
    ensures es[2].EapEvent? && es[2].sid == sid
  {
    hide Step;
    hide HonestAnswer;
  }

  /** A first request over well-sized vectors is challenged. */
  lemma InitialChallenge(c: Crypto, s: AuthState, imsi: Bytes, fetch: Fetch, v: HssVectors, sid: string)
    requires fetch(imsi) == Some(v) && WellSized(v)
    ensures var identifier := Bumped(s.idCounter) % 256;
      var relay := ChallengeRelay(c, imsi, identifier, v);
      && relay.Ok?
      && InitialRequest(c, s, imsi, fetch, sid, {}) == (
        AuthState(s.sessions[sid := NewSession(c, imsi, identifier, v)], s.identities, Bumped(s.idCounter)),
        Challenge(relay.value, sid))
  {
    hide ChallengeRelay;
    hide NewSession;
    hide KeysFrom;
    hide Authentic;
    hide Find;
    var q := ChallengeCarries(c, imsi, Bumped(s.idCounter) % 256, v);
  }

  /** A synchronization failure whose update fails is challenged and leaves the records. */
  lemma UnrecordedChallenge(
    c: Crypto, s: AuthState, sid: string, session: EapSessionData, p: EapPacket, x: EapInput, auts: Bytes)
    requires x.failing == {UpdateSession} && !x.expires && |auts| == 14
    requires var v := x.resync(session.imsi, session.rand, auts); v.Some? && WellSized(v.value)
    requires Find(p.attributes, AT_AUTS) == Some(EapAttribute(AT_AUTS, auts))
    ensures var (s', r) := SyncFailure(c, s, sid, session, p, x);
      r.Challenge? && r.sessionId == sid && s'.sessions == s.sessions
  {
    hide ChallengeRelay;
    hide ResyncUpdate;
    hide KeysFrom;
    hide Authentic;
    hide Find;
    hide Bare;
    var q := ChallengeCarries(c, session.imsi, Bumped(s.idCounter) % 256,
      x.resync(session.imsi, session.rand, auts).value);
  }

  /** The synchronization failure is answered with a challenge and leaves the record as it was. */
  lemma StaleSecond(
    c: Crypto, es: seq<Event>, imsi: Bytes, v: HssVectors, v2: HssVectors, sid: string, auts: Bytes)
    requires WellSized(v) && WellSized(v2) && StaleRun(c, es, imsi, v, v2, sid, auts)
    ensures var s1 := Step(c, START, es[0]).0;
      var (s2, r) := Step(c, s1, es[1]);
      && r.Challenge? && r.sessionId == sid && s2.auth.sessions == s1.auth.sessions
      && sid in s1.auth.sessions && s1.auth.sessions[sid] == NewSession(c, imsi, 1, v)
      && AskedResync(s1.auth.sessions[sid], es[1].x) == Some(v2)
  {
    hide InitialRequest;
    hide SyncFailure;
    hide ChallengeRelay;
    hide KeysFrom;
    hide DecodedWithin;
    hide DecodedPacket;
    hide HonestAnswer;
    hide AnswerChecked;
    hide Find;
    hide Bare;
    InitialChallenge(c, START.auth, imsi, es[0].fetch, v, sid);
    var s1 := Step(c, START, es[0]).0;
    PaddedSyncFailureDecodes(1, auts);
    Capacity.DecodedAgrees(PaddedSyncFailure(1, auts), []);
    FoundAuts(auts);
    hide PaddedSyncFailure;
    var p := EapPacket(EAP_RESPONSE, 1, EAP_TYPE_AKA, AKA_SYNC_FAILURE, [EapAttribute(AT_AUTS, auts)]);
    UnrecordedChallenge(c, s1.auth, sid, s1.auth.sessions[sid], p, es[1].x, auts);
  }

  lemma FoundAuts(auts: Bytes)
    ensures Find([EapAttribute(AT_AUTS, auts)], AT_AUTS) == Some(EapAttribute(AT_AUTS, auts))
  {
  }

  lemma StaleThird(
    c: Crypto, es: seq<Event>, imsi: Bytes, v: HssVectors, v2: HssVectors, sid: string, auts: Bytes)
    requires WellSized(v) && WellSized(v2) && StaleRun(c, es, imsi, v, v2, sid, auts)
    requires var s1 := Step(c, START, es[0]).0;
      var s2 := Step(c, s1, es[1]).0;
      && s2.auth.sessions == s1.auth.sessions
      && sid in s1.auth.sessions && s1.auth.sessions[sid] == NewSession(c, imsi, 1, v)
    ensures Step(c, Step(c, Step(c, START, es[0]).0, es[1]).0, es[2]).1.Success?
  {
    hide ChallengeRelay;
    hide KeysFrom;
    hide MacValid;
    hide AnswerChecked;
    hide DecodedPacket;
    hide DecodedWithin;
    hide Sealed;
    hide Find;
    hide EapResponse;
    hide InitialRequest;
    hide Bare;
    var s2 := Step(c, Step(c, START, es[0]).0, es[1]).0;
    InitialChallenge(c, START.auth, imsi, es[0].fetch, v, sid);
    var q := ChallengeCarries(c, imsi, 1, v);
    HonestAnswerAccepted(c, s2.auth, sid, es[2].x, 1);
  }
}
