/** The life of re-authentication identities over a run: each is stored at most once unless
    a session is left behind, and each descends from one full authentication. */
module Identities {
  import opened ByteStrings
  import opened Codec
  import opened Keys
  import opened Primitives
  import opened Protocol
  import opened Runs
  import opened Safety
  import opened Soundness

  /** The identity a request would draw from the random source. */
  function Draws(e: Event): Option<Bytes> {
    match e
    case EapEvent(_, x) => Some(x.newId)
    case ReauthRequestEvent(_, q) => Some(q.newId)
    case _ => None
  }

  ghost predicate FreshIdentities(es: seq<Event>) {
    forall i, j :: 0 <= i < j < |es| && Draws(es[i]).Some? ==> Draws(es[i]) != Draws(es[j])
  }

  predicate StoredAt(c: Crypto, es: seq<Event>, i: nat, id: Bytes)
    requires i < |es|
  {
    ReplyTo(c, es, i).Success? && ReplyTo(c, es, i).identity == id
  }

  ghost predicate DrawnBefore(es: seq<Event>, n: nat, id: Bytes)
    requires n <= |es|
  {
    exists d :: 0 <= d < n && Draws(es[d]) == Some(id)
  }

  /** The open session's next identity was drawn by the request that opened it. */
  ghost predicate OpenedBefore(es: seq<Event>, n: nat, sid: string, next: Bytes)
    requires n <= |es|
  {
    exists d :: 0 <= d < n && es[d].ReauthRequestEvent? && es[d].q.sid == sid && es[d].q.newId == next
  }

  ghost predicate StoredBefore(c: Crypto, es: seq<Event>, n: nat, id: Bytes)
    requires n <= |es|
  {
    exists k :: 0 <= k < n && StoredAt(c, es, k, id)
  }

  /** Event k is a response on this session whose delete of the session fails. */
  predicate Leaves(es: seq<Event>, k: nat, sid: string)
    requires k < |es|
  {
    es[k].ReauthResponseEvent? && es[k].sid == sid && DeleteReauthSession in es[k].y.failing
  }

  /** Only responses that left the session have stored its next identity. */
  ghost predicate OnlyLeft(c: Crypto, es: seq<Event>, n: nat, sid: string, next: Bytes)
    requires n <= |es|
  {
    forall k :: 0 <= k < n && StoredAt(c, es, k, next) ==> Leaves(es, k, sid)
  }

  ghost predicate Unspent(c: Crypto, es: seq<Event>, n: nat)
    requires n <= |es|
  {
    && (forall k, id :: 0 <= k < n && StoredAt(c, es, k, id) ==> DrawnBefore(es, n, id))
    && (forall id :: id in Before(c, es, n).auth.identities ==> StoredBefore(c, es, n, id))
    && (forall sid :: sid in Before(c, es, n).reauthSessions ==>
      var next := Before(c, es, n).reauthSessions[sid].nextReauthId;
      OpenedBefore(es, n, sid, next) && OnlyLeft(c, es, n, sid, next))
  }

  lemma DrawnLater(es: seq<Event>, n: nat, id: Bytes)
    requires n < |es| && DrawnBefore(es, n, id)
    ensures DrawnBefore(es, n + 1, id)
  {
  }

  lemma OpenedDraws(es: seq<Event>, n: nat, sid: string, next: Bytes)
    requires n <= |es| && OpenedBefore(es, n, sid, next)
    ensures DrawnBefore(es, n, next)
  {
    var d :| 0 <= d < n && es[d].ReauthRequestEvent? && es[d].q.sid == sid && es[d].q.newId == next;
    assert Draws(es[d]) == Some(next);
  }

  lemma DrawnNotAgain(es: seq<Event>, n: nat, id: Bytes)
    requires FreshIdentities(es) && n < |es| && DrawnBefore(es, n, id)
    ensures Draws(es[n]) != Some(id)
  {
  }

  /** Two open sessions never hold the same next identity. */
  lemma NextIdentityDistinct(es: seq<Event>, n: nat, sid: string, other: string, next: Bytes)
    requires FreshIdentities(es) && n <= |es|
    requires OpenedBefore(es, n, sid, next) && OpenedBefore(es, n, other, next)
    ensures sid == other
  {
    var d :| 0 <= d < n && es[d].ReauthRequestEvent? && es[d].q.sid == sid && es[d].q.newId == next;
    var k :| 0 <= k < n && es[k].ReauthRequestEvent? && es[k].q.sid == other && es[k].q.newId == next;
    assert Draws(es[d]) == Draws(es[k]) == Some(next);
  }

  /** An identity stored at n was drawn there, or is the next one of the response's session. */
  lemma StoredFrom(c: Crypto, es: seq<Event>, n: nat, id: Bytes)
    requires n < |es| && Unspent(c, es, n) && StoredAt(c, es, n, id)
    ensures DrawnBefore(es, n + 1, id)
    ensures es[n].EapEvent? ==> Draws(es[n]) == Some(id)
    ensures es[n].ReauthResponseEvent? ==>
      es[n].sid in Before(c, es, n).reauthSessions && Before(c, es, n).reauthSessions[es[n].sid].nextReauthId == id
    ensures es[n].EapEvent? || es[n].ReauthResponseEvent?
  {
    hide Step;
    hide Run;
    hide Accepts;
    hide Answers;
    hide OnlyLeft;
    var s := Before(c, es, n);
    IdentitiesAfter(c, s, es[n]);
    if es[n].EapEvent? {
      assert Draws(es[n]) == Some(id);
    } else {
      OpenedDraws(es, n, es[n].sid, id);
      DrawnLater(es, n, id);
    }
  }

  /** If the event at n stores the next identity of a session still open after it, it is a
      response on that session that leaves it. */
  lemma StoredAndOpen(c: Crypto, es: seq<Event>, n: nat, sid: string, next: Bytes)
    requires FreshIdentities(es) && n < |es| && Unspent(c, es, n)
    requires sid in Before(c, es, n + 1).reauthSessions
    requires Before(c, es, n + 1).reauthSessions[sid].nextReauthId == next && StoredAt(c, es, n, next)
    ensures Leaves(es, n, sid)
  {
    hide Step;
    hide Run;
    hide Unspent;
    hide Accepts;
    hide Answers;
    hide ReauthOpened;
    var s := Before(c, es, n);
    BeforeNext(c, es, n);
    StoredFrom(c, es, n, next);
    IdentitiesAfter(c, s, es[n]);
    ReauthSessionAfter(c, s, es[n], sid);
    NotOpenedBy(c, s, es[n], Before(c, es, n + 1), ReplyTo(c, es, n), sid);
    OpenSession(c, es, n, sid);
    if es[n].EapEvent? {
      OpenedDraws(es, n, sid, next);
      DrawnNotAgain(es, n, next);
    } else {
      OpenSession(c, es, n, es[n].sid);
      NextIdentityDistinct(es, n, sid, es[n].sid, next);
    }
  }

  lemma NotOpenedBy(c: Crypto, s: Server, e: Event, s': Server, r: Reply, sid: string)
    requires !e.ReauthRequestEvent?
    ensures !ReauthOpened(c, s, e, s', r, sid)
  {
    hide ReauthRelay;
  }

  lemma OpenSession(c: Crypto, es: seq<Event>, n: nat, sid: string)
    requires n <= |es| && Unspent(c, es, n) && sid in Before(c, es, n).reauthSessions
    ensures OpenedBefore(es, n, sid, Before(c, es, n).reauthSessions[sid].nextReauthId)
  {
    hide Run;
  }

  lemma OpenOnlyLeft(c: Crypto, es: seq<Event>, n: nat, sid: string)
    requires n <= |es| && Unspent(c, es, n) && sid in Before(c, es, n).reauthSessions
    ensures OnlyLeft(c, es, n, sid, Before(c, es, n).reauthSessions[sid].nextReauthId)
  {
    hide Run;
    hide OnlyLeft;
  }

  lemma OnlyLeftAfter(c: Crypto, es: seq<Event>, n: nat, sid: string, next: Bytes)
    requires n < |es| && OnlyLeft(c, es, n, sid, next) && (StoredAt(c, es, n, next) ==> Leaves(es, n, sid))
    ensures OnlyLeft(c, es, n + 1, sid, next)
  {
    hide StoredAt;
  }

  lemma FreshNotStored(c: Crypto, es: seq<Event>, n: nat, id: Bytes)
    requires FreshIdentities(es) && n < |es| && Unspent(c, es, n) && Draws(es[n]) == Some(id)
    ensures !StoredBefore(c, es, n, id)
  {
    hide Unspent;
    hide FreshIdentities;
    hide StoredBefore;
    hide DrawnBefore;
    if StoredBefore(c, es, n, id) {
      StoredWasDrawn(c, es, n, id);
      DrawnNotAgain(es, n, id);
    }
  }

  lemma StoredWasDrawn(c: Crypto, es: seq<Event>, n: nat, id: Bytes)
    requires n <= |es| && Unspent(c, es, n) && StoredBefore(c, es, n, id)
    ensures DrawnBefore(es, n, id)
  {
    hide Run;
    hide StoredAt;
    hide DrawnBefore;
    hide OnlyLeft;
  }

  lemma NeverStoredOnlyLeft(c: Crypto, es: seq<Event>, n: nat, sid: string, id: Bytes)
    requires n <= |es| && !StoredBefore(c, es, n, id)
    ensures OnlyLeft(c, es, n, sid, id)
  {
    hide StoredAt;
  }

  lemma UnspentSessions(c: Crypto, es: seq<Event>, n: nat, sid: string)
    requires FreshIdentities(es) && n < |es| && Unspent(c, es, n)
    requires sid in Before(c, es, n + 1).reauthSessions
    ensures var next := Before(c, es, n + 1).reauthSessions[sid].nextReauthId;
      OpenedBefore(es, n + 1, sid, next) && OnlyLeft(c, es, n + 1, sid, next)
  {
    hide Step;
    hide Run;
    hide StoredAt;
    hide StoredBefore;
    hide OnlyLeft;
    hide Unspent;
    hide FreshIdentities;
    hide ReauthRelay;
    var s, s' := Before(c, es, n), Before(c, es, n + 1);
    BeforeNext(c, es, n);
    ReauthSessionAfter(c, s, es[n], sid);
    var next := s'.reauthSessions[sid].nextReauthId;
    if sid in s.reauthSessions && s'.reauthSessions[sid] == s.reauthSessions[sid] {
      OpenSession(c, es, n, sid);
      OpenOnlyLeft(c, es, n, sid);
    } else {
      assert es[n].ReauthRequestEvent? && es[n].q.sid == sid && es[n].q.newId == next;
      FreshNotStored(c, es, n, next);
      NeverStoredOnlyLeft(c, es, n, sid, next);
    }
    if StoredAt(c, es, n, next) {
      StoredAndOpen(c, es, n, sid, next);
    }
    OnlyLeftAfter(c, es, n, sid, next);
  }

  lemma UnspentStep(c: Crypto, es: seq<Event>, n: nat)
    requires FreshIdentities(es) && n < |es| && Unspent(c, es, n)
    ensures Unspent(c, es, n + 1)
  {
    hide Step;
    hide Run;
    hide StoredAt;
    hide DrawnBefore;
    hide OnlyLeft;
    var s, s' := Before(c, es, n), Before(c, es, n + 1);
    BeforeNext(c, es, n);
    forall k, id | 0 <= k < n + 1 && StoredAt(c, es, k, id) ensures DrawnBefore(es, n + 1, id) {
      if k < n {
        DrawnLater(es, n, id);
      } else {
        StoredFrom(c, es, n, id);
      }
    }
    forall id | id in s'.auth.identities ensures StoredBefore(c, es, n + 1, id) {
      LiveWasStored(c, es, n, id);
    }
    forall sid | sid in s'.reauthSessions
      ensures var next := s'.reauthSessions[sid].nextReauthId;
        OpenedBefore(es, n + 1, sid, next) && OnlyLeft(c, es, n + 1, sid, next)
    {
      UnspentSessions(c, es, n, sid);
    }
  }

  /** An identity that is live after an event was live before or is stored by it. */
  lemma BecameLive(c: Crypto, es: seq<Event>, n: nat, id: Bytes)
    requires n < |es| && id in Before(c, es, n + 1).auth.identities
    ensures id in Before(c, es, n).auth.identities || StoredAt(c, es, n, id)
  {
    hide Step;
    hide Run;
    BeforeNext(c, es, n);
    IdentitiesAfter(c, Before(c, es, n), es[n]);
  }

  lemma LiveWasStored(c: Crypto, es: seq<Event>, n: nat, id: Bytes)
    requires n < |es| && Unspent(c, es, n) && id in Before(c, es, n + 1).auth.identities
    ensures StoredBefore(c, es, n + 1, id)
  {
    hide Step;
    hide Run;
    hide StoredAt;
    BecameLive(c, es, n, id);
    if !StoredAt(c, es, n, id) {
      var k :| 0 <= k < n && StoredAt(c, es, k, id);
    }
  }

  lemma {:induction false} AlwaysUnspent(c: Crypto, es: seq<Event>, n: nat)
    requires FreshIdentities(es) && n <= |es|
    ensures Unspent(c, es, n)
  {
    hide Step;
    hide Run;
    if n == 0 {
      BeforeFirst(c, es);
    } else {
      AlwaysUnspent(c, es, n - 1);
      UnspentStep(c, es, n - 1);
    }
  }

  /** With fresh random identities, an identity is stored again only by another response on
      the same session, which the first one failed to delete. */
  lemma StoredTwiceOnlyIfLeft(c: Crypto, es: seq<Event>, i: nat, j: nat, id: Bytes)
    requires FreshIdentities(es) && i < j < |es| && StoredAt(c, es, i, id) && StoredAt(c, es, j, id)
    ensures es[j].ReauthResponseEvent? && Leaves(es, i, es[j].sid)
  {
    hide StoredAt;
    hide Step;
    hide Run;
    hide Unspent;
    AlwaysUnspent(c, es, j);
    StoredFrom(c, es, j, id);
    assert StoredBefore(c, es, j, id);
    if es[j].EapEvent? {
      FreshNotStored(c, es, j, id);
    } else {
      OpenOnlyLeft(c, es, j, es[j].sid);
    }
  }

  /** Every response that stored this identity deleted its session. */
  ghost predicate Consumed(c: Crypto, es: seq<Event>, id: Bytes) {
    forall k :: 0 <= k < |es| && es[k].ReauthResponseEvent? && StoredAt(c, es, k, id) ==>
      DeleteReauthSession !in es[k].y.failing
  }

  /** So each identity is stored at most once, unless a response that stored it left its
      session. */
  lemma StoredOnce(c: Crypto, es: seq<Event>, i: nat, j: nat, id: Bytes)
    requires FreshIdentities(es) && Consumed(c, es, id) && i < |es| && j < |es|
    requires StoredAt(c, es, i, id) && StoredAt(c, es, j, id)
    ensures i == j
  {
    hide StoredAt;
    if i < j {
      StoredTwiceOnlyIfLeft(c, es, i, j, id);
    } else if j < i {
      StoredTwiceOnlyIfLeft(c, es, j, i, id);
    }
  }

  /** Such an identity that was live and is gone never becomes live again. */
  lemma {:induction false} NeverRevived(c: Crypto, es: seq<Event>, i: nat, j: nat, k: nat, id: Bytes)
    requires FreshIdentities(es) && Consumed(c, es, id) && i < j <= k <= |es|
    requires id in Before(c, es, i).auth.identities && id !in Before(c, es, j).auth.identities
    ensures id !in Before(c, es, k).auth.identities
    decreases k
  {
    hide Step;
    hide Run;
    hide StoredAt;
    hide OnlyLeft;
    hide Consumed;
    if j < k {
      NeverRevived(c, es, i, j, k - 1, id);
      if id in Before(c, es, k).auth.identities {
        BecameLive(c, es, k - 1, id);
        AlwaysUnspent(c, es, i);
        var m :| 0 <= m < i && StoredAt(c, es, m, id);
        StoredOnce(c, es, m, k - 1, id);
      }
    }
  }

  // ---------------------------------------------------------------- descent

  /** The re-authentication sessions and EAP sessions a success was made on. */
  predicate RootOf(c: Crypto, es: seq<Event>, i: nat, r: ReauthState)
    requires i < |es|
  {
    && es[i].EapEvent? && StoredAt(c, es, i, r.identity)
    && ReplyTo(c, es, i).subscriberId == r.subscriberId && r.counter == 1
    && es[i].sid in Before(c, es, i).auth.sessions
    && var session := Before(c, es, i).auth.sessions[es[i].sid];
      session.imsi == r.imsi && session.mk == r.mk && session.kAut == r.kAut && session.kEncr == r.kEncr
  }

  /** What the identity a session was opened for looked like then. */
  function ParentOf(session: ReauthSessionData): ReauthState {
    ReauthState(session.subscriberId, session.imsi, session.mk, session.kAut, session.kEncr,
      session.counter, session.reauthId)
  }

  /** The identity before r, with everything but its name and counter the same. */
  function Parent(r: ReauthState, id: Bytes): ReauthState { r.(identity := id, counter := r.counter - 1) }

  predicate RotationTo(c: Crypto, es: seq<Event>, i: nat, r: ReauthState)
    requires i < |es|
  {
    && es[i].ReauthResponseEvent? && StoredAt(c, es, i, r.identity)
    && ReplyTo(c, es, i).subscriberId == r.subscriberId
    && es[i].sid in Before(c, es, i).reauthSessions
    && var session := Before(c, es, i).reauthSessions[es[i].sid];
      session.nextReauthId == r.identity && ParentOf(session) == Parent(r, session.reauthId)
  }

  /** The events that led to this identity: a full authentication, then one rotation per
      step, each made on a session opened for the identity before it. Subscriber, IMSI and
      keys stay those of the full authentication; the counter is the number of events. */
  predicate Descends(c: Crypto, es: seq<Event>, n: nat, chain: seq<nat>, r: ReauthState)
    requires n <= |es|
    decreases |chain|
  {
    && |chain| > 0
    && var i := chain[|chain| - 1];
      && i < n && r.counter == |chain|
      && if |chain| == 1 then RootOf(c, es, i, r)
         else
           && RotationTo(c, es, i, r)
           && Descends(c, es, i, chain[..|chain| - 1], ParentOf(Before(c, es, i).reauthSessions[es[i].sid]))
  }

  /** The identity and all those before it on the chain were stored by responses that
      deleted their sessions. */
  ghost predicate LineConsumed(c: Crypto, es: seq<Event>, n: nat, chain: seq<nat>, r: ReauthState)
    requires n <= |es| && Descends(c, es, n, chain, r)
    decreases |chain|
  {
    && Consumed(c, es, r.identity)
    && var i := chain[|chain| - 1];
      |chain| > 1 ==>
        LineConsumed(c, es, i, chain[..|chain| - 1], ParentOf(Before(c, es, i).reauthSessions[es[i].sid]))
  }

  ghost predicate HasOrigin(c: Crypto, es: seq<Event>, n: nat, r: ReauthState)
    requires n <= |es|
  {
    exists chain :: Descends(c, es, n, chain, r)
  }

  ghost predicate AllHaveOrigin(c: Crypto, es: seq<Event>, n: nat)
    requires n <= |es|
  {
    && (forall id :: id in Before(c, es, n).auth.identities ==>
      HasOrigin(c, es, n, Before(c, es, n).auth.identities[id]))
    && (forall sid :: sid in Before(c, es, n).reauthSessions ==>
      HasOrigin(c, es, n, ParentOf(Before(c, es, n).reauthSessions[sid])))
  }

  lemma OriginLater(c: Crypto, es: seq<Event>, n: nat, r: ReauthState)
    requires n < |es| && HasOrigin(c, es, n, r)
    ensures HasOrigin(c, es, n + 1, r)
  {
    hide Step;
    hide Run;
    hide RootOf;
    hide RotationTo;
    var m := n + 1;
    var chain :| Descends(c, es, n, chain, r);
    assert Descends(c, es, m, chain, r);
  }

  lemma RootHasOrigin(c: Crypto, es: seq<Event>, n: nat, r: ReauthState)
    requires n < |es| && RootOf(c, es, n, r)
    ensures HasOrigin(c, es, n + 1, r)
  {
    hide Step;
    hide Run;
    hide StoredAt;
    var m := n + 1;
    assert Descends(c, es, m, [n], r);
  }

  lemma RotatedHasOrigin(c: Crypto, es: seq<Event>, n: nat, r: ReauthState)
    requires n < |es| && RotationTo(c, es, n, r)
    requires var session := Before(c, es, n).reauthSessions[es[n].sid];
      r == NextState(session) && HasOrigin(c, es, n, ParentOf(session))
    ensures HasOrigin(c, es, n + 1, r)
  {
    hide Step;
    hide Run;
    hide RootOf;
    var session := Before(c, es, n).reauthSessions[es[n].sid];
    var chain :| Descends(c, es, n, chain, ParentOf(session));
    var longer, m := chain + [n], n + 1;
    assert longer[..|longer| - 1] == chain;
    assert Descends(c, es, m, longer, r);
  }

  lemma IdentityOrigin(c: Crypto, es: seq<Event>, n: nat, id: Bytes)
    requires n < |es| && AllHaveOrigin(c, es, n) && id in Before(c, es, n + 1).auth.identities
    ensures HasOrigin(c, es, n + 1, Before(c, es, n + 1).auth.identities[id])
  {
    hide Step;
    hide Run;
    hide HasOrigin;
    var s, s' := Before(c, es, n), Before(c, es, n + 1);
    BeforeNext(c, es, n);
    IdentitiesAfter(c, s, es[n]);
    var r := s'.auth.identities[id];
    if StoredAt(c, es, n, id) {
      if es[n].EapEvent? {
        assert RootOf(c, es, n, r);
        RootHasOrigin(c, es, n, r);
      } else {
        assert RotationTo(c, es, n, r);
        RotatedHasOrigin(c, es, n, r);
      }
    } else {
      assert id in s.auth.identities && r == s.auth.identities[id];
      OriginLater(c, es, n, r);
    }
  }

  lemma SessionOrigin(c: Crypto, es: seq<Event>, n: nat, sid: string)
    requires n < |es| && AllHaveOrigin(c, es, n) && Consistent(c, Before(c, es, n))
    requires sid in Before(c, es, n + 1).reauthSessions
    ensures HasOrigin(c, es, n + 1, ParentOf(Before(c, es, n + 1).reauthSessions[sid]))
  {
    hide Step;
    hide Run;
    hide HasOrigin;
    hide KeysFit;
    var s, s' := Before(c, es, n), Before(c, es, n + 1);
    BeforeNext(c, es, n);
    ReauthSessionAfter(c, s, es[n], sid);
    if sid in s.reauthSessions && s'.reauthSessions[sid] == s.reauthSessions[sid] {
      OriginLater(c, es, n, ParentOf(s.reauthSessions[sid]));
    } else {
      var r := s.auth.identities[es[n].id];
      assert IdentityOk(c, es[n].id, r);
      assert ParentOf(s'.reauthSessions[sid]) == r;
      OriginLater(c, es, n, r);
    }
  }

  lemma {:induction false} OriginsAlways(c: Crypto, es: seq<Event>, n: nat)
    requires n <= |es|
    ensures AllHaveOrigin(c, es, n)
  {
    hide Step;
    hide Run;
    hide HasOrigin;
    hide Consistent;
    if n == 0 {
      BeforeFirst(c, es);
    } else {
      OriginsAlways(c, es, n - 1);
      AlwaysConsistent(c, es[..n - 1]);
      var s' := Before(c, es, n);
      forall id | id in s'.auth.identities ensures HasOrigin(c, es, n, s'.auth.identities[id]) {
        IdentityOrigin(c, es, n - 1, id);
      }
      forall sid | sid in s'.reauthSessions ensures HasOrigin(c, es, n, ParentOf(s'.reauthSessions[sid])) {
        SessionOrigin(c, es, n - 1, sid);
      }
    }
  }

  /** With fresh identities the events an identity descends from are unique, if no response
      on the way left its session. */
  lemma {:induction false} DescentUnique(
    c: Crypto, es: seq<Event>, n: nat, one: seq<nat>, two: seq<nat>, r: ReauthState)
    requires FreshIdentities(es) && n <= |es|
    requires Descends(c, es, n, one, r) && Descends(c, es, n, two, r) && LineConsumed(c, es, n, one, r)
    ensures one == two
    decreases |one|
  {
    hide Step;
    hide Run;
    hide StoredAt;
    hide Consumed;
    hide FreshIdentities;
    var k := |one| - 1;
    var i := one[k];
    StoredOnce(c, es, i, two[k], r.identity);
    assert one == one[..k] + [i] && two == two[..k] + [i];
    if k > 0 {
      DescentUnique(c, es, i, one[..k], two[..k], ParentOf(Before(c, es, i).reauthSessions[es[i].sid]));
    }
  }

  lemma ChainLength(c: Crypto, es: seq<Event>, n: nat, chain: seq<nat>, r: ReauthState)
    requires n <= |es| && Descends(c, es, n, chain, r)
    ensures |chain| == r.counter
  {
  }

  lemma LiveHasOrigin(c: Crypto, es: seq<Event>, id: Bytes)
    requires id in Run(c, es).auth.identities
    ensures HasOrigin(c, es, |es|, Run(c, es).auth.identities[id])
  {
    hide Run;
    hide HasOrigin;
    assert es[..|es|] == es;
    assert Before(c, es, |es|) == Run(c, es);
    OriginsAlways(c, es, |es|);
    assert AllHaveOrigin(c, es, |es|);
    assert id in Before(c, es, |es|).auth.identities;
  }

  /** In every run each live identity descends from a chain of events that starts with a
      full authentication and is as long as its counter, at most 65535; with fresh
      identities it is the only one, if no response on the way left its session. */
  lemma Provenance(c: Crypto, es: seq<Event>, id: Bytes)
    requires id in Run(c, es).auth.identities
    ensures var r := Run(c, es).auth.identities[id];
      && r.identity == id && 1 <= r.counter <= 65535
      && exists chain ::
        && Descends(c, es, |es|, chain, r) && |chain| == r.counter
        && (FreshIdentities(es) && LineConsumed(c, es, |es|, chain, r) ==>
          forall other :: Descends(c, es, |es|, other, r) ==> other == chain)
  {
    hide Run;
    hide Descends;
    hide LineConsumed;
    hide FreshIdentities;
    hide KeysFit;
    AlwaysConsistent(c, es);
    var r := Run(c, es).auth.identities[id];
    assert IdentityOk(c, id, r);
    LiveHasOrigin(c, es, id);
    var chain :| Descends(c, es, |es|, chain, r);
    ChainLength(c, es, |es|, chain, r);
    if FreshIdentities(es) && LineConsumed(c, es, |es|, chain, r) {
      forall other | Descends(c, es, |es|, other, r) ensures other == chain {
        DescentUnique(c, es, |es|, chain, other, r);
      }
    }
  }
}
