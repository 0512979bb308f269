/** What holds in every reachable state: keys fit their master key, counters stay in range. */
module Safety {
  import opened ByteStrings
  import opened Codec
  import opened Keys
  import opened Mac
  import opened Primitives
  import opened Protocol
  import opened Runs
  import opened Soundness

  /** K_aut and K_encr are the generator's slices under this master key. */
  predicate KeysFit(c: Crypto, mk: Bytes, kAut: Bytes, kEncr: Bytes) {
    && |mk| == 20
    && kEncr == Prf(c, mk, 160)[..16]
    && kAut == Prf(c, mk, 160)[16..32]
  }

  /** Either a challenge is out and the keys are those of the session's own IMSI, IK and CK,
      or the record has no state and will be refused. */
  predicate Coherent(c: Crypto, session: EapSessionData) {
    || session.state == ""
    || (session.state == CHALLENGE_SENT
        && session.mk == c.sha1([48] + session.imsi + session.ik + session.ck)
        && KeysFit(c, session.mk, session.kAut, session.kEncr))
  }

  predicate IdentityOk(c: Crypto, id: Bytes, r: ReauthState) {
    r.identity == id && KeysFit(c, r.mk, r.kAut, r.kEncr) && 1 <= r.counter <= 65535
  }

  predicate ReauthSessionOk(c: Crypto, r: ReauthSessionData) {
    KeysFit(c, r.mk, r.kAut, r.kEncr) && 1 <= r.counter <= 65534
  }

  ghost predicate Consistent(c: Crypto, s: Server) {
    && (forall sid :: sid in s.auth.sessions ==> Coherent(c, s.auth.sessions[sid]))
    && (forall id :: id in s.auth.identities ==> IdentityOk(c, id, s.auth.identities[id]))
    && (forall sid :: sid in s.reauthSessions ==> ReauthSessionOk(c, s.reauthSessions[sid]))
  }

  lemma SessionStaysCoherent(c: Crypto, s: Server, e: Event, s': Server, r: Reply, sid: string)
    requires Consistent(c, s) && SessionStep(c, s, e, s', r, sid)
    ensures Coherent(c, s'.auth.sessions[sid])
  {
    hide ChallengeRelay;
    hide Prf;
  }

  lemma IdentitiesStayOk(c: Crypto, s: Server, e: Event, s': Server, r: Reply, id: Bytes)
    requires Consistent(c, s) && IdentityStep(c, s, e, s', r) && id in s'.auth.identities
    ensures IdentityOk(c, id, s'.auth.identities[id])
  {
    hide Answers;
    hide Accepts;
    hide Prf;
    if FullAuthAt(c, s, e, s', r) {
      assert Coherent(c, s.auth.sessions[e.sid]);
    } else if ReauthAt(c, s, e, s', r) {
      assert ReauthSessionOk(c, s.reauthSessions[e.sid]);
    }
  }

  lemma ReauthSessionStaysOk(c: Crypto, s: Server, e: Event, s': Server, r: Reply, sid: string)
    requires Consistent(c, s) && ReauthSessionStep(c, s, e, s', r, sid)
    ensures ReauthSessionOk(c, s'.reauthSessions[sid])
  {
    hide ReauthRelay;
    hide Prf;
  }

  lemma ConsistentStep(c: Crypto, s: Server, e: Event)
    requires Consistent(c, s)
    ensures Consistent(c, Step(c, s, e).0)
  {
    hide Step;
    hide Coherent;
    hide IdentityOk;
    hide ReauthSessionOk;
    hide SessionStep;
    hide IdentityStep;
    hide ReauthSessionStep;
    var (s', r) := Step(c, s, e);
    forall sid | sid in s'.auth.sessions ensures Coherent(c, s'.auth.sessions[sid]) {
      SessionAfter(c, s, e, sid);
      SessionStaysCoherent(c, s, e, s', r, sid);
    }
    IdentitiesAfter(c, s, e);
    forall id | id in s'.auth.identities ensures IdentityOk(c, id, s'.auth.identities[id]) {
      IdentitiesStayOk(c, s, e, s', r, id);
    }
    forall sid | sid in s'.reauthSessions ensures ReauthSessionOk(c, s'.reauthSessions[sid]) {
      ReauthSessionAfter(c, s, e, sid);
      ReauthSessionStaysOk(c, s, e, s', r, sid);
    }
  }

  /** Every reachable state is consistent, whatever fails and whatever expires. */
  lemma {:induction false} AlwaysConsistent(c: Crypto, es: seq<Event>)
    ensures Consistent(c, Run(c, es))
  {
    hide Step;
    if es != [] {
      var n := |es| - 1;
      AlwaysConsistent(c, es[..n]);
      ConsistentStep(c, Run(c, es[..n]), es[n]);
    }
  }
}
