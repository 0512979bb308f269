/** Sessions are one-shot: a finished response leaves none, and no session succeeds twice. */
module OneShot {
  import opened ByteStrings
  import opened Codec
  import opened Encryption
  import opened Keys
  import opened Primitives
  import opened Protocol
  import opened Runs
  import opened Soundness

  /** A response that is answered at all, other than by a new challenge, ends its session,
      unless deleting it fails. */
  lemma EapResponseEnds(c: Crypto, s: AuthState, sid: string, x: EapInput)
    ensures var (s', r) := EapResponse(c, s, sid, x);
      r.Success? || r.Failure? ==>
        (sid in s'.sessions <==> sid in s.sessions && DeleteSession in x.failing)
  {
    hide FirstAt;
    hide ChallengeRelay;
    hide ResyncUpdate;
    hide AnswerChecked;
    hide DecodedWithin;
    hide Bare;
  }

  lemma ReauthResponseEnds(c: Crypto, s: Server, sid: string, y: ReauthReplyInput)
    ensures var (s', r) := ReauthResponse(c, s, sid, y);
      r.Success? || r.Failure? || r.Challenge? ==>
        (sid in s'.reauthSessions <==> sid in s.reauthSessions && DeleteReauthSession in y.failing)
  {
    hide FirstAt;
    hide InitialRequest;
    hide ResponseChecked;
    hide DecodedWithin;
    hide InnerOf;
    hide Bare;
  }

  /** The session id a request would create. */
  function Creates(e: Event): Option<string> {
    match e
    case InitialEvent(_, _, newSid, _) => Some(newSid)
    case ReauthRequestEvent(_, q) => Some(q.sid)
    case ReauthResponseEvent(_, y) => Some(y.newSid)
    case _ => None
  }

  ghost predicate FreshSessions(es: seq<Event>) {
    forall i, j :: 0 <= i < j < |es| && Creates(es[i]).Some? ==> Creates(es[i]) != Creates(es[j])
  }

  /** The response's delete of its session fails. */
  predicate DeleteFails(e: Event) {
    || (e.EapEvent? && DeleteSession in e.x.failing)
    || (e.ReauthResponseEvent? && DeleteReauthSession in e.y.failing)
  }

  /** Created before n for full authentication, or for re-authentication. */
  ghost predicate CreatedBefore(es: seq<Event>, n: nat, sid: string, reauth: bool)
    requires n <= |es|
  {
    exists d :: 0 <= d < n && Creates(es[d]) == Some(sid) && es[d].ReauthRequestEvent? == reauth
  }

  ghost predicate AllCreated(c: Crypto, es: seq<Event>, n: nat)
    requires n <= |es|
  {
    && (forall sid :: sid in Before(c, es, n).auth.sessions ==> CreatedBefore(es, n, sid, false))
    && (forall sid :: sid in Before(c, es, n).reauthSessions ==> CreatedBefore(es, n, sid, true))
  }

  predicate Present(s: Server, sid: string) { sid in s.auth.sessions || sid in s.reauthSessions }

  /** A session that was absent before an event and is there after it was created by it. */
  lemma PresentAfter(c: Crypto, s: Server, e: Event, sid: string)
    ensures var s' := Step(c, s, e).0;
      && (sid in s'.auth.sessions ==>
        sid in s.auth.sessions || (Creates(e) == Some(sid) && !e.ReauthRequestEvent?))
      && (sid in s'.reauthSessions ==>
        sid in s.reauthSessions || (Creates(e) == Some(sid) && e.ReauthRequestEvent?))
  {
    hide ReauthRelay;
    hide Step;
    hide NewSession;
    hide ChallengeRelay;
    hide ResyncUpdate;
    if sid in Step(c, s, e).0.auth.sessions {
      SessionAfter(c, s, e, sid);
    }
    if sid in Step(c, s, e).0.reauthSessions {
      ReauthSessionAfter(c, s, e, sid);
    }
  }

  lemma CreatedLater(es: seq<Event>, n: nat, sid: string, reauth: bool)
    requires n < |es| && CreatedBefore(es, n, sid, reauth)
    ensures CreatedBefore(es, n + 1, sid, reauth)
  {
  }

  lemma {:induction false} AlwaysCreated(c: Crypto, es: seq<Event>, n: nat)
    requires n <= |es|
    ensures AllCreated(c, es, n)
  {
    hide Step;
    hide Run;
    if n == 0 {
      BeforeFirst(c, es);
    } else {
      AlwaysCreated(c, es, n - 1);
      BeforeNext(c, es, n - 1);
      var s, e := Before(c, es, n - 1), es[n - 1];
      forall sid | sid in Before(c, es, n).auth.sessions ensures CreatedBefore(es, n, sid, false) {
        PresentAfter(c, s, e, sid);
        if sid in s.auth.sessions {
          CreatedLater(es, n - 1, sid, false);
        }
      }
      forall sid | sid in Before(c, es, n).reauthSessions ensures CreatedBefore(es, n, sid, true) {
        PresentAfter(c, s, e, sid);
        if sid in s.reauthSessions {
          CreatedLater(es, n - 1, sid, true);
        }
      }
    }
  }

  predicate SucceedsOn(c: Crypto, es: seq<Event>, i: nat, sid: string)
    requires i < |es|
  {
    && ReplyTo(c, es, i).Success?
    && ((es[i].EapEvent? && es[i].sid == sid) || (es[i].ReauthResponseEvent? && es[i].sid == sid))
  }

  /** One creation cannot serve both kinds of session. */
  lemma OneKind(es: seq<Event>, n: nat, sid: string)
    requires FreshSessions(es) && n <= |es| && CreatedBefore(es, n, sid, false)
    ensures !CreatedBefore(es, n, sid, true)
  {
  }

  lemma CreatedOnce(es: seq<Event>, n: nat, sid: string, reauth: bool)
    requires FreshSessions(es) && n < |es| && CreatedBefore(es, n, sid, reauth)
    ensures Creates(es[n]) != Some(sid)
  {
  }

  /** After a success the session is gone, unless deleting it failed. */
  lemma GoneAfterSuccess(c: Crypto, es: seq<Event>, i: nat, sid: string)
    requires FreshSessions(es) && i < |es| && SucceedsOn(c, es, i, sid)
    ensures !DeleteFails(es[i]) ==> !Present(Before(c, es, i + 1), sid)
    ensures CreatedBefore(es, i, sid, es[i].ReauthResponseEvent?)
  {
    hide Run;
    hide EapResponse;
    hide ReauthResponse;
    hide Answers;
    hide Accepts;
    var s := Before(c, es, i);
    AlwaysCreated(c, es, i);
    BeforeNext(c, es, i);
    IdentitiesAfter(c, s, es[i]);
    PresentAfter(c, s, es[i], sid);
    if es[i].EapEvent? {
      EapResponseEnds(c, s.auth, sid, es[i].x);
      OneKind(es, i, sid);
      CreatedOnce(es, i, sid, false);
    } else {
      ReauthResponseEnds(c, s, sid, es[i].y);
      if CreatedBefore(es, i, sid, false) {
        OneKind(es, i, sid);
      }
      CreatedOnce(es, i, sid, true);
    }
  }

  /** Once gone after its creation, a session stays gone. */
  lemma {:induction false} StaysGone(c: Crypto, es: seq<Event>, i: nat, n: nat, sid: string, reauth: bool)
    requires FreshSessions(es) && i < n <= |es| && CreatedBefore(es, i, sid, reauth)
    requires !Present(Before(c, es, i + 1), sid)
    ensures !Present(Before(c, es, n), sid)
  {
    hide Step;
    hide Run;
    if i + 1 < n {
      StaysGone(c, es, i, n - 1, sid, reauth);
      BeforeNext(c, es, n - 1);
      PresentAfter(c, Before(c, es, n - 1), es[n - 1], sid);
      assert CreatedBefore(es, n - 1, sid, reauth) by {
        var d :| 0 <= d < i && Creates(es[d]) == Some(sid) && es[d].ReauthRequestEvent? == reauth;
      }
      CreatedOnce(es, n - 1, sid, reauth);
    }
  }

  /** A session id is answered with success again only if the first success failed to delete
      the session. */
  lemma SucceedsTwiceOnlyIfLeft(c: Crypto, es: seq<Event>, i: nat, j: nat, sid: string)
    requires FreshSessions(es) && i < j < |es| && SucceedsOn(c, es, i, sid) && SucceedsOn(c, es, j, sid)
    ensures DeleteFails(es[i])
  {
    hide Step;
    hide Run;
    hide Answers;
    hide Accepts;
    GoneAfterSuccess(c, es, i, sid);
    if !DeleteFails(es[i]) {
      StaysGone(c, es, i, j, sid, es[i].ReauthResponseEvent?);
      IdentitiesAfter(c, Before(c, es, j), es[j]);
    }
  }

  /** Every success on this session id deleted the session. */
  ghost predicate DeletesOn(c: Crypto, es: seq<Event>, sid: string) {
    forall k :: 0 <= k < |es| && SucceedsOn(c, es, k, sid) ==> !DeleteFails(es[k])
  }

  /** So no such session id is ever answered with success twice. */
  lemma SucceedsOnce(c: Crypto, es: seq<Event>, i: nat, j: nat, sid: string)
    requires FreshSessions(es) && DeletesOn(c, es, sid) && i < |es| && j < |es|
    requires SucceedsOn(c, es, i, sid) && SucceedsOn(c, es, j, sid)
    ensures i == j
  {
    hide SucceedsOn;
    if i < j {
      SucceedsTwiceOnlyIfLeft(c, es, i, j, sid);
    } else if j < i {
      SucceedsTwiceOnlyIfLeft(c, es, j, i, sid);
    }
  }
}
