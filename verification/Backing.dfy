/** Every success of a full authentication answers the challenge its session records, which
    is the latest one sent on it unless an update failed. */
module Backing {
  import opened ByteStrings
  import opened Codec
  import opened Keys
  import opened Mac
  import opened Primitives
  import opened Protocol
  import opened Runs
  import opened Soundness

  /** Event j was answered with a challenge on this session, after which none was up to n. */
  predicate LatestChallenge(c: Crypto, es: seq<Event>, n: nat, j: nat, sid: string)
    requires n <= |es|
  {
    j < n && Issues(es[j], ReplyTo(c, es, j), sid)
    && forall k :: j < k < n ==> !Issues(es[k], ReplyTo(c, es, k), sid)
  }

  /** The same for challenges that reached the session's record. */
  predicate LatestRecorded(c: Crypto, es: seq<Event>, n: nat, j: nat, sid: string)
    requires n <= |es|
  {
    j < n && Records(es[j], ReplyTo(c, es, j), sid)
    && forall k :: j < k < n ==> !Records(es[k], ReplyTo(c, es, k), sid)
  }

  /** The vectors the HSS gave for the challenge of an event in this state. */
  function VectorsOf(s: Server, e: Event): Option<HssVectors> {
    match e
    case InitialEvent(imsi, fetch, _, _) => fetch(imsi)
    case EapEvent(sid, x) => if sid in s.auth.sessions then AskedResync(s.auth.sessions[sid], x) else None
    case ReauthResponseEvent(sid, y) =>
      if sid in s.reauthSessions then y.fetch(s.reauthSessions[sid].imsi) else None
    case _ => None
  }

  function VectorsAt(c: Crypto, es: seq<Event>, j: nat): Option<HssVectors>
    requires j < |es|
  {
    VectorsOf(Before(c, es, j), es[j])
  }

  /** Event o opened the session for this IMSI: a first request, or a re-authentication
      that fell back to full authentication. */
  predicate Opens(c: Crypto, es: seq<Event>, o: nat, sid: string, imsi: Bytes)
    requires o < |es|
  {
    && Issues(es[o], ReplyTo(c, es, o), sid)
    && (|| (es[o].InitialEvent? && es[o].imsi == imsi)
        || (es[o].ReauthResponseEvent? && es[o].sid in Before(c, es, o).reauthSessions
            && Before(c, es, o).reauthSessions[es[o].sid].imsi == imsi))
  }

  /** The session record belongs to the challenge of event j, on a session opened by o. */
  ghost predicate Backed(c: Crypto, es: seq<Event>, n: nat, o: nat, j: nat, sid: string, session: EapSessionData)
    requires n <= |es|
  {
    && o <= j && LatestRecorded(c, es, n, j, sid)
    && Opens(c, es, o, sid, session.imsi)
    && VectorsAt(c, es, j).Some?
    && var v := VectorsAt(c, es, j).value;
      && session.xres == v.xres && session.rand == v.rand
      && session.kAut == KeysFrom(c, MasterKey(c, session.imsi, v)).kAut
      && exists identifier: int ::
        && ChallengeRelay(c, session.imsi, identifier, v) == Ok(ReplyTo(c, es, j).relay)
        && (identifier != 0 ==> session.identifier == identifier)
  }

  ghost predicate AllBacked(c: Crypto, es: seq<Event>, n: nat)
    requires n <= |es|
  {
    forall sid |
      sid in Before(c, es, n).auth.sessions && Before(c, es, n).auth.sessions[sid].state == CHALLENGE_SENT ::
      exists o, j :: Backed(c, es, n, o, j, sid, Before(c, es, n).auth.sessions[sid])
  }

  /** Every challenge sent on this session reached its record. */
  ghost predicate UpdatesSucceed(c: Crypto, es: seq<Event>, sid: string) {
    forall k :: 0 <= k < |es| && Issues(es[k], ReplyTo(c, es, k), sid) ==> Records(es[k], ReplyTo(c, es, k), sid)
  }

  lemma BackingExtends(c: Crypto, es: seq<Event>, n: nat, o: nat, j: nat, sid: string, session: EapSessionData)
    requires n < |es| && Backed(c, es, n, o, j, sid, session) && !Records(es[n], ReplyTo(c, es, n), sid)
    ensures Backed(c, es, n + 1, o, j, sid, session)
  {
    hide Records;
    hide Step;
    hide ChallengeRelay;
    hide KeysFrom;
    hide Opens;
  }

  lemma NewlyOpened(c: Crypto, es: seq<Event>, n: nat, sid: string)
    requires n < |es|
    requires var s, s', r := Before(c, es, n), Before(c, es, n + 1), ReplyTo(c, es, n);
      || (es[n].InitialEvent? && sid == es[n].newSid
          && SessionOpened(c, es[n].imsi, es[n].fetch(es[n].imsi), s', r, sid))
      || (es[n].ReauthResponseEvent? && sid == es[n].y.newSid && Reopened(c, s, es[n].sid, es[n].y, s', r, sid))
    ensures Backed(c, es, n + 1, n, n, sid, Before(c, es, n + 1).auth.sessions[sid])
  {
    hide Step;
    hide ChallengeRelay;
    hide KeysFrom;
    var session := Before(c, es, n + 1).auth.sessions[sid];
    assert ChallengeRelay(c, session.imsi, session.identifier, VectorsAt(c, es, n).value)
      == Ok(ReplyTo(c, es, n).relay);
  }

  lemma NewlyResynced(c: Crypto, es: seq<Event>, n: nat, o: nat, j: nat, sid: string)
    requires n < |es| && es[n].EapEvent? && es[n].sid == sid
    requires SessionResynced(c, Before(c, es, n), es[n].x, Before(c, es, n + 1), ReplyTo(c, es, n), sid)
    requires Before(c, es, n + 1).auth.sessions[sid].state == CHALLENGE_SENT
    requires Backed(c, es, n, o, j, sid, Before(c, es, n).auth.sessions[sid])
    ensures Backed(c, es, n + 1, o, n, sid, Before(c, es, n + 1).auth.sessions[sid])
  {
    hide Step;
    hide ChallengeRelay;
    hide KeysFrom;
    hide Opens;
    var session := Before(c, es, n + 1).auth.sessions[sid];
    var identifier := Before(c, es, n + 1).auth.idCounter % 256;
    assert ChallengeRelay(c, session.imsi, identifier, VectorsAt(c, es, n).value) == Ok(ReplyTo(c, es, n).relay);
  }

  lemma BackedStep(c: Crypto, es: seq<Event>, n: nat)
    requires n < |es| && AllBacked(c, es, n)
    ensures AllBacked(c, es, n + 1)
  {
    hide Step;
    hide Backed;
    hide SessionOpened;
    hide SessionResynced;
    hide Records;
    hide Run;
    var s, s', r := Before(c, es, n), Before(c, es, n + 1), ReplyTo(c, es, n);
    var m := n + 1;
    BeforeNext(c, es, n);
    forall sid | sid in s'.auth.sessions && s'.auth.sessions[sid].state == CHALLENGE_SENT
      ensures exists o, j :: Backed(c, es, m, o, j, sid, s'.auth.sessions[sid])
    {
      SessionAfter(c, s, es[n], sid);
      if SessionKept(s, s', sid) && !Records(es[n], r, sid) {
        var o, j :| Backed(c, es, n, o, j, sid, s.auth.sessions[sid]);
        BackingExtends(c, es, n, o, j, sid, s.auth.sessions[sid]);
      } else if es[n].EapEvent? {
        ResyncedWasSent(c, s, es[n].x, s', r, sid);
        var o, j :| Backed(c, es, n, o, j, sid, s.auth.sessions[sid]);
        NewlyResynced(c, es, n, o, j, sid);
      } else {
        NewlyOpened(c, es, n, sid);
      }
    }
  }

  lemma ResyncedWasSent(c: Crypto, s: Server, x: EapInput, s': Server, r: Reply, sid: string)
    requires SessionResynced(c, s, x, s', r, sid)
    ensures sid in s.auth.sessions && s.auth.sessions[sid].state == CHALLENGE_SENT
  {
  }

  lemma {:induction false} BackedAlways(c: Crypto, es: seq<Event>, n: nat)
    requires n <= |es|
    ensures AllBacked(c, es, n)
  {
    hide Step;
    hide Backed;
    if n == 0 {
      BeforeFirst(c, es);
    } else {
      BackedAlways(c, es, n - 1);
      BackedStep(c, es, n - 1);
    }
  }

  /** What a success proves: the peer answered the vectors of challenge j, sent on the
      session that event o opened. */
  ghost predicate ProvenBy(c: Crypto, es: seq<Event>, i: nat, o: nat, j: nat, imsi: Bytes)
    requires i < |es| && es[i].EapEvent? && ReplyTo(c, es, i).Success?
  {
    var e, reply := es[i], ReplyTo(c, es, i);
    && o <= j && LatestRecorded(c, es, i, j, e.sid) && Opens(c, es, o, e.sid, imsi)
    && VectorsAt(c, es, j).Some? && e.x.relay.Some?
    && var v, relay := VectorsAt(c, es, j).value, e.x.relay.value;
      && DecodedWithin(relay.raw, relay.spare).Ok?
      && var p := DecodedWithin(relay.raw, relay.spare).value;
      && p.subtype == AKA_CHALLENGE
      && Find(p.attributes, AT_RES).Some? && Find(p.attributes, AT_RES).value.value == v.xres
      && MacValid(c, KeysFrom(c, MasterKey(c, imsi, v)).kAut, relay.raw, p)
      && reply.subscriberId == e.x.lookup(imsi) && reply.subscriberId != ""
      && exists identifier: int ::
        && ChallengeRelay(c, imsi, identifier, v) == Ok(ReplyTo(c, es, j).relay)
        && (identifier != 0 ==> reply.relay == Bare(EAP_SUCCESS, identifier))
  }

  /** In every run, whatever fails, a success answers the latest challenge that reached the
      record of its session. */
  lemma RecordedChallengeAnswered(c: Crypto, es: seq<Event>, i: nat)
    requires i < |es| && es[i].EapEvent? && ReplyTo(c, es, i).Success?
    ensures exists o, j, imsi :: ProvenBy(c, es, i, o, j, imsi)
  {
    hide Step;
    hide Backed;
    hide ProvenBy;
    hide Answers;
    var s, s' := Before(c, es, i), Step(c, Before(c, es, i), es[i]).0;
    BackedAlways(c, es, i);
    IdentitiesAfter(c, s, es[i]);
    var session := s.auth.sessions[es[i].sid];
    var o, j :| Backed(c, es, i, o, j, es[i].sid, session);
    SuccessReply(c, s, es[i]);
    Proven(c, es, i, o, j, session);
  }

  /** And if no update of that session failed, it is the latest challenge sent on it. */
  lemma FullAuthSound(c: Crypto, es: seq<Event>, i: nat)
    requires i < |es| && es[i].EapEvent? && ReplyTo(c, es, i).Success?
    requires UpdatesSucceed(c, es, es[i].sid)
    ensures exists o, j, imsi :: ProvenBy(c, es, i, o, j, imsi) && LatestChallenge(c, es, i, j, es[i].sid)
  {
    hide Step;
    hide Run;
    RecordedChallengeAnswered(c, es, i);
    var o, j, imsi :| ProvenBy(c, es, i, o, j, imsi);
    LatestOfAll(c, es, i, o, j, imsi);
  }

  lemma LatestOfAll(c: Crypto, es: seq<Event>, i: nat, o: nat, j: nat, imsi: Bytes)
    requires i < |es| && es[i].EapEvent? && ReplyTo(c, es, i).Success?
    requires UpdatesSucceed(c, es, es[i].sid) && ProvenBy(c, es, i, o, j, imsi)
    ensures LatestChallenge(c, es, i, j, es[i].sid)
  {
    hide Step;
    hide Run;
    hide ChallengeRelay;
    hide KeysFrom;
    hide MacValid;
    hide Find;
    hide DecodedWithin;
    hide Opens;
  }

  lemma SuccessReply(c: Crypto, s: Server, e: Event)
    requires e.EapEvent? && Step(c, s, e).1.Success?
    ensures e.sid in s.auth.sessions
    ensures Step(c, s, e).1.relay == Bare(EAP_SUCCESS, s.auth.sessions[e.sid].identifier)
  {
    hide ChallengeRelay;
    hide ResyncUpdate;
    hide AnswerChecked;
    hide DecodedWithin;
    hide Bare;
  }

  lemma Proven(c: Crypto, es: seq<Event>, i: nat, o: nat, j: nat, session: EapSessionData)
    requires i < |es| && es[i].EapEvent? && ReplyTo(c, es, i).Success?
    requires es[i].sid in Before(c, es, i).auth.sessions && session == Before(c, es, i).auth.sessions[es[i].sid]
    requires FullAuthAt(c, Before(c, es, i), es[i], Step(c, Before(c, es, i), es[i]).0, ReplyTo(c, es, i))
    requires Backed(c, es, i, o, j, es[i].sid, session)
    requires ReplyTo(c, es, i).relay == Bare(EAP_SUCCESS, session.identifier)
    ensures ProvenBy(c, es, i, o, j, session.imsi)
  {
    hide Step;
    hide ChallengeRelay;
    hide KeysFrom;
    hide Opens;
    hide Issues;
    hide DecodedWithin;
    hide MacValid;
    hide Bare;
  }
}
