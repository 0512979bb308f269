/** Every success of a fast re-authentication is for an identity that was live when the
    session was opened, under that identity's keys and with its counter echoed. */
module ReauthBacking {
  import opened ByteStrings
  import opened Codec
  import opened Completion
  import opened Encryption
  import opened Keys
  import opened Mac
  import opened Primitives
  import opened Protocol
  import opened Runs
  import opened Safety
  import opened Soundness

  /** Event o opened the session, for a live identity, with a challenge made of that
      identity's keys and counter. */
  predicate Opening(c: Crypto, es: seq<Event>, o: nat, sid: string, session: ReauthSessionData)
    requires o < |es|
  {
    && ReauthIssues(es[o], ReplyTo(c, es, o), sid) && es[o].q.sid == sid
    && es[o].id in Before(c, es, o).auth.identities
    && var live := Before(c, es, o).auth.identities[es[o].id];
      && live.counter < 65535
      && session == NewReauthSession(live, es[o].id, session.identifier, es[o].q)
      && ReauthRelay(c, live, session.identifier, es[o].q) == Ok(ReplyTo(c, es, o).relay)
  }

  /** And no other event up to n did. */
  predicate OpenedBy(c: Crypto, es: seq<Event>, n: nat, o: nat, sid: string, session: ReauthSessionData)
    requires n <= |es|
  {
    && o < n && Opening(c, es, o, sid, session)
    && forall k :: o < k < n ==> !ReauthIssues(es[k], ReplyTo(c, es, k), sid)
  }

  ghost predicate HasOpening(c: Crypto, es: seq<Event>, n: nat, sid: string, session: ReauthSessionData)
    requires n <= |es|
  {
    exists o: nat :: OpenedBy(c, es, n, o, sid, session)
  }

  ghost predicate AllOpened(c: Crypto, es: seq<Event>, n: nat)
    requires n <= |es|
  {
    forall sid :: sid in Before(c, es, n).reauthSessions ==>
      HasOpening(c, es, n, sid, Before(c, es, n).reauthSessions[sid])
  }

  lemma OpenedStep(c: Crypto, es: seq<Event>, n: nat, sid: string)
    requires n < |es| && AllOpened(c, es, n) && sid in Before(c, es, n + 1).reauthSessions
    ensures HasOpening(c, es, n + 1, sid, Before(c, es, n + 1).reauthSessions[sid])
  {
    hide Step;
    hide Run;
    hide ReauthIssues;
    hide NewReauthSession;
    hide ReauthRelay;
    var s, s', m := Before(c, es, n), Before(c, es, n + 1), n + 1;
    BeforeNext(c, es, n);
    ReauthSessionAfter(c, s, es[n], sid);
    if ReauthOpened(c, s, es[n], s', ReplyTo(c, es, n), sid) {
      assert OpenedBy(c, es, m, n, sid, s'.reauthSessions[sid]);
    } else {
      var o: nat :| OpenedBy(c, es, n, o, sid, s.reauthSessions[sid]);
      assert OpenedBy(c, es, m, o, sid, s'.reauthSessions[sid]);
    }
  }

  lemma {:induction false} AlwaysOpened(c: Crypto, es: seq<Event>, n: nat)
    requires n <= |es|
    ensures AllOpened(c, es, n)
  {
    hide Step;
    hide Run;
    hide HasOpening;
    if n == 0 {
      BeforeFirst(c, es);
    } else {
      AlwaysOpened(c, es, n - 1);
      forall sid | sid in Before(c, es, n).reauthSessions
        ensures HasOpening(c, es, n, sid, Before(c, es, n).reauthSessions[sid])
      {
        OpenedStep(c, es, n - 1, sid);
      }
    }
  }

  /** The challenge that opened the session told the peer the counter of the identity, the
      nonce and the next identity the session stores. */
  lemma OpeningTells(c: Crypto, es: seq<Event>, o: nat, sid: string, session: ReauthSessionData)
    requires Invertible(c) && o < |es| && Opening(c, es, o, sid, session) && 0 <= session.identifier < 256
    ensures var live := Before(c, es, o).auth.identities[es[o].id];
      && Tells(c, live, es[o].q, session.identifier, ReplyTo(c, es, o).relay)
      && session.nextReauthId == es[o].q.newId && session.nonceS == es[o].q.nonceS
      && session.counter == live.counter
  {
    hide Step;
    hide Run;
    hide Consistent;
    hide ReauthRelay;
    hide Tells;
    AlwaysConsistent(c, es[..o]);
    KeysUsable(c, Before(c, es, o), es[o].id);
    RelayTells(c, Before(c, es, o).auth.identities[es[o].id], session.identifier, es[o].q);
  }

  /** What a success at i proves, on the session that request o opened last. */
  ghost predicate ReauthProvenBy(c: Crypto, es: seq<Event>, i: nat, o: nat)
    requires i < |es| && es[i].ReauthResponseEvent? && ReplyTo(c, es, i).Success?
  {
    var e, reply := es[i], ReplyTo(c, es, i);
    && o < i && ReauthIssues(es[o], ReplyTo(c, es, o), e.sid)
    && (forall k :: o < k < i ==> !ReauthIssues(es[k], ReplyTo(c, es, k), e.sid))
    && es[o].id in Before(c, es, o).auth.identities
    && e.y.relay.Some?
    && var live, relay := Before(c, es, o).auth.identities[es[o].id], e.y.relay.value;
      && live.counter < 65535
      && reply.identity == es[o].q.newId && reply.subscriberId == live.subscriberId
      && DecodedWithin(relay.raw, relay.spare).Ok?
      && ProvenUnder(c, live, relay.raw, DecodedWithin(relay.raw, relay.spare).value)
  }

  /** The packet's MAC is right under the identity's K_aut, and its attributes decrypted
      under K_encr echo the identity's counter. */
  predicate ProvenUnder(c: Crypto, live: ReauthState, raw: Bytes, p: EapPacket) {
    var iv, data := Find(p.attributes, AT_IV), Find(p.attributes, AT_ENCR_DATA);
    && p.subtype == AKA_REAUTHENTICATION && MacValid(c, live.kAut, raw, p)
    && iv.Some? && data.Some?
    && var inner := Decrypted(c, live.kEncr, iv.value.value, data.value.value);
      inner.Ok? && Echoes(inner.value, live.counter)
  }

  lemma AcceptedIsProven(c: Crypto, session: ReauthSessionData, live: ReauthState, relay: Received)
    requires Accepts(c, session, relay)
    requires session.kAut == live.kAut && session.kEncr == live.kEncr && session.counter == live.counter
    ensures var p := DecodedWithin(relay.raw, relay.spare);
      p.Ok? && ProvenUnder(c, live, relay.raw, p.value)
  {
    hide DecodedWithin;
    hide MacValid;
    hide Find;
    hide Decrypted;
    hide Echoes;
  }

  /** In every run, whatever fails or expires. */
  lemma ReauthSound(c: Crypto, es: seq<Event>, i: nat)
    requires i < |es| && es[i].ReauthResponseEvent? && ReplyTo(c, es, i).Success?
    ensures exists o: nat :: ReauthProvenBy(c, es, i, o)
  {
    hide Step;
    hide Run;
    hide Accepts;
    hide ProvenUnder;
    hide ReauthRelay;
    hide DecodedWithin;
    var s := Before(c, es, i);
    AlwaysOpened(c, es, i);
    IdentitiesAfter(c, s, es[i]);
    var session := s.reauthSessions[es[i].sid];
    var o: nat :| OpenedBy(c, es, i, o, es[i].sid, session);
    var live := Before(c, es, o).auth.identities[es[o].id];
    AcceptedIsProven(c, session, live, es[i].y.relay.value);
    assert ReauthProvenBy(c, es, i, o);
  }
}
