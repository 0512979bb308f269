/** A peer's whole life with the server: one full authentication, then as many fast
    re-authentications as the 16-bit counter allows, and not one more. */
module Lifetime {
  import opened BigEndian
  import opened ByteStrings
  import opened Card
  import opened Codec
  import opened Completion
  import opened Keys
  import opened Mac
  import opened Milenage
  import opened Primitives
  import opened Protocol
  import opened Resynchronization
  import opened RoundTrip
  import opened Runs
  import opened Safety

  // ---------------------------------------------------------------- full authentication

  /** What a peer whose card gives these vectors answers to a challenge: it checks the
      packet under the keys they give and that it is for its RAND, and sends RES. */
  function HonestAnswer(c: Crypto, imsi: Bytes, v: HssVectors, relay: Bytes): Option<Bytes> {
    var kAut := KeysFrom(c, MasterKey(c, imsi, v)).kAut;
    match DecodedPacket(relay)
    case Ok(p) =>
      if p.code != EAP_REQUEST || p.subtype != AKA_CHALLENGE || !MacValid(c, kAut, relay, p)
        || Find(p.attributes, AT_RAND) != Some(EapAttribute(AT_RAND, v.rand)) then None
      else Sent(Sealed(c, kAut, AnswerPacket(p.identifier, v.xres)))
    case _ => None
  }

  /** What a peer answers by running its card: it reads RAND and AUTN, has the card accept
      AUTN, and goes on as a peer that was given RES, CK and IK. */
  function CardAnswer(c: Crypto, ki: Block, op: Block, imsi: Bytes, relay: Bytes): Option<Bytes> {
    match DecodedPacket(relay)
    case Ok(p) =>
      var rand, autn := Find(p.attributes, AT_RAND), Find(p.attributes, AT_AUTN);
      if rand.None? || autn.None? || |rand.value.value| != 16 || |autn.value.value| != 16 then None
      else if !CardAccepts(c, ki, op, rand.value.value, autn.value.value) then None
      else HonestAnswer(c, imsi, FromCard(c, ki, op, rand.value.value, autn.value.value), relay)
    case _ => None
  }

  function FromCard(c: Crypto, ki: Block, op: Block, rand: Block, autn: Block): HssVectors {
    var o, n := Value(op), Value(rand);
    HssVectors(rand, autn, Digits(CardRes(c, ki, o, n), 8),
      Digits(CardCk(c, ki, o, n), 16), Digits(CardIk(c, ki, o, n), 16))
  }

  /** A challenge over the generated vectors of a card is answered by that card. */
  lemma CardIsHonest(
    c: Crypto, ki: Block, op: Block, rand: Block, sqn: Sqn, amf: Bytes, imsi: Bytes, identifier: int)
    requires |amf| == 2 && 0 <= identifier < 256
    ensures var v := ForClient(Vectors(c, ki, op, rand, sqn, amf));
      && WellSized(v) && ChallengeRelay(c, imsi, identifier, v).Ok?
      && var relay := ChallengeRelay(c, imsi, identifier, v).value;
        CardAnswer(c, ki, op, imsi, relay) == HonestAnswer(c, imsi, v, relay)
        && CardSqn(c, ki, op, rand, v.autn) == Value(sqn)
  {
    hide Value;
    hide Digits;
    hide Vectors;
    hide ChallengeRelay;
    hide HonestAnswer;
    hide MacValid;
    hide DecodedPacket;
    hide Find;
    hide KeysFrom;
    hide CardAccepts;
    hide CardSqn;
    hide CardRes;
    hide CardCk;
    hide CardIk;
    var w := Vectors(c, ki, op, rand, sqn, amf);
    VectorsForCard(c, ki, op, rand, sqn, amf);
    var q := ChallengeCarries(c, imsi, identifier, ForClient(w));
    DigitsValue(w.xres);
    DigitsValue(w.ck);
    DigitsValue(w.ik);
  }

  predicate WellSized(v: HssVectors) { |v.rand| == 16 && |v.autn| == 16 && |v.xres| <= 1016 }

  /** From any state: first request, honest answer, success. */
  lemma FullAuthCompletes(
    c: Crypto, s: AuthState, imsi: Bytes, fetch: Fetch, v: HssVectors, sid: string, x: EapInput)
    requires fetch(imsi) == Some(v) && WellSized(v) && x.failing == {} && x.lookup(imsi) != ""
    ensures var (s1, reply) := InitialRequest(c, s, imsi, fetch, sid, {});
      && reply.Challenge? && reply.sessionId == sid
      && HonestAnswer(c, imsi, v, reply.relay).Some?
      && (Carries(x.relay, HonestAnswer(c, imsi, v, reply.relay)) ==>
        var identifier := Bumped(s.idCounter) % 256;
        var first := FirstState(NewSession(c, imsi, identifier, v), x.lookup(imsi), x.newId);
        EapResponse(c, s1, sid, x) == (
          AuthState(s.sessions - {sid}, s.identities[x.newId := first], Bumped(s.idCounter)),
          Success(Bare(EAP_SUCCESS, identifier), x.newId, x.lookup(imsi))))
  {
    hide KeysFrom;
    hide ChallengeRelay;
    hide EapResponse;
    hide DecodedPacket;
    hide MacValid;
    hide Sealed;
    hide Find;
    hide Bare;
    var identifier := Bumped(s.idCounter) % 256;
    var q := ChallengeCarries(c, imsi, identifier, v);
    AnswerProduced(c, KeysFrom(c, MasterKey(c, imsi, v)).kAut, identifier, v.xres);
    var (s1, reply) := InitialRequest(c, s, imsi, fetch, sid, {});
    if Carries(x.relay, HonestAnswer(c, imsi, v, reply.relay)) {
      HonestAnswerAccepted(c, s1, sid, x, identifier);
      assert s1.sessions - {sid} == s.sessions - {sid};
    }
  }

  lemma AnswerProduced(c: Crypto, kAut: Bytes, identifier: int, res: Bytes)
    requires |res| <= 1016 && 0 <= identifier < 256
    ensures Sent(Sealed(c, kAut, AnswerPacket(identifier, res))).Some?
  {
    hide WellFramed;
    hide EncodedList;
    hide Sealed;
    hide Authentic;
    hide EncodedPacket;
    hide Find;
    var p := AnswerPacket(identifier, res);
    var before := [EapAttribute(AT_RES, res)];
    ResFramed(res);
    assert WithMac(p, before, Zeros(16), []) == p;
    FitsHeader(p, before);
    SealingCorrect(c, kAut, p, before, []);
  }

  // ---------------------------------------------------------------- rounds

  /** The random draws of one fast re-authentication, and what lies behind its response;
      newSid would name the session of a full authentication it falls back to. */
  datatype Round = Round(
    nonceS: Block, newId: Identity, iv: Block, sid: string, peerIv: Block, spare: Bytes, newSid: string)

  function RequestOf(id: Bytes, q: Round): Event {
    ReauthRequestEvent(id, ReauthInput(q.nonceS, q.newId, q.iv, q.sid, {}))
  }

  /** The run extended by one round for each entry, the peer answering honestly and using
      the identity it was told; and the identity it holds in the end. */
  function Extended(c: Crypto, es: seq<Event>, id: Bytes, rounds: seq<Round>): (seq<Event>, Bytes)
    decreases |rounds|
  {
    if rounds == [] then (es, id)
    else
      var (more, next) := OneRound(c, Run(c, es), id, rounds[0]);
      Extended(c, es + more, next, rounds[1..])
  }

  function OneRound(c: Crypto, s: Server, id: Bytes, q: Round): (seq<Event>, Bytes) {
    var reply := Step(c, s, RequestOf(id, q)).1;
    if reply.Challenge? && id in s.auth.identities then
      var r := s.auth.identities[id];
      var peer := HonestReply(c, r.kAut, r.kEncr, reply.relay, q.peerIv);
      if peer.Some? then
        ([RequestOf(id, q), ReauthResponseEvent(q.sid, HonestInput(peer.value, q, {}))], peer.value.next)
      else ([RequestOf(id, q)], id)
    else ([RequestOf(id, q)], id)
  }

  /** The honest response, with whatever lies behind it. */
  function HonestInput(peer: PeerReply, q: Round, failing: set<Op>): ReauthReplyInput {
    ReauthReplyInput(Some(Received(peer.response, q.spare)), _ => None, q.newSid, failing)
  }

  lemma RunTwo(c: Crypto, es: seq<Event>, a: Event, b: Event)
    ensures Run(c, es + [a, b]) == Step(c, Step(c, Run(c, es), a).0, b).0
  {
    hide Step;
    var one, two := es + [a], es + [a, b];
    assert two[..|two| - 1] == one && one[..|one| - 1] == es;
  }

  lemma RoundCompletes(c: Crypto, es: seq<Event>, id: Bytes, q: Round)
    requires Invertible(c)
    requires id in Run(c, es).auth.identities && Run(c, es).auth.identities[id].counter < 65535
    ensures var (more, next) := OneRound(c, Run(c, es), id, q);
      var s, s' := Run(c, es), Run(c, es + more);
      var r := s.auth.identities[id];
      && |more| == 2 && next == q.newId
      && s'.auth == s.auth.(identities :=
        (s.auth.identities - {id})[next := r.(counter := r.counter + 1, identity := next)])
      && s'.reauthSessions == s.reauthSessions - {q.sid}
  {
    hide Run;
    hide ReauthRequest;
    hide ReauthResponse;
    hide HonestReply;
    hide Consistent;
    hide Invertible;
    var s := Run(c, es);
    var e := RequestOf(id, q);
    AlwaysConsistent(c, es);
    var r, reply := s.auth.identities[id], Step(c, s, e).1;
    var y := HonestInput(PeerReply([], []), q, {});
    FastReauthCompletes(c, s, id, e.q, y, q.peerIv);
    var peer := HonestReply(c, r.kAut, r.kEncr, reply.relay, q.peerIv).value;
    y := HonestInput(peer, q, {});
    FastReauthCompletes(c, s, id, e.q, y, q.peerIv);
    RunTwo(c, es, e, ReauthResponseEvent(q.sid, y));
  }

  /** Any number of rounds complete, as long as the counter stays within 16 bits. */
  lemma {:induction false} RoundsComplete(c: Crypto, es: seq<Event>, id: Bytes, rounds: seq<Round>)
    requires Invertible(c) && id in Run(c, es).auth.identities
    requires Run(c, es).auth.identities[id].counter + |rounds| <= 65535
    ensures var r := Run(c, es).auth.identities[id];
      var (all, held) := Extended(c, es, id, rounds);
      && |all| == |es| + 2 * |rounds| && held in Run(c, all).auth.identities
      && held == (if rounds == [] then id else rounds[|rounds| - 1].newId)
      && Run(c, all).auth.identities[held]
        == r.(counter := r.counter + |rounds|, identity := if rounds == [] then r.identity else held)
    decreases |rounds|
  {
    hide Run;
    hide OneRound;
    hide Invertible;
    if rounds != [] {
      RoundCompletes(c, es, id, rounds[0]);
      var (more, next) := OneRound(c, Run(c, es), id, rounds[0]);
      RoundsComplete(c, es + more, next, rounds[1..]);
    }
  }

  /** An identity at the last counter is dropped, not challenged. */
  lemma ExhaustedFallsBack(c: Crypto, s: Server, id: Bytes, x: ReauthInput)
    requires id in s.auth.identities && x.failing == {}
    ensures ReauthRequest(c, s, id, x).1 == FallBack
      <==> s.auth.identities[id].counter >= 65535
    ensures s.auth.identities[id].counter >= 65535 ==>
      ReauthRequest(c, s, id, x).0 == s.(auth := s.auth.(identities := s.auth.identities - {id}))
  {
    hide ReauthRelay;
    hide NewReauthSession;
  }

  // ---------------------------------------------------------------- from the beginning

  /** A server's first full authentication. */
  function FirstRun(
    c: Crypto, imsi: Bytes, fetch: Fetch, v: HssVectors, sid: string, x: EapInput, spare: Bytes): seq<Event>
  {
    var initial := InitialEvent(imsi, fetch, sid, {});
    var reply := Step(c, START, initial).1;
    if reply.Challenge? then
      [initial, EapEvent(sid, x.(relay := Carried(HonestAnswer(c, imsi, v, reply.relay), spare)))]
    else [initial]
  }

  lemma FirstRunCompletes(
    c: Crypto, imsi: Bytes, fetch: Fetch, v: HssVectors, sid: string, x: EapInput, spare: Bytes)
    requires fetch(imsi) == Some(v) && WellSized(v) && x.failing == {} && x.lookup(imsi) != ""
    ensures var es := FirstRun(c, imsi, fetch, v, sid, x, spare);
      && |es| == 2 && ReplyTo(c, es, 1).Success?
      && Run(c, es).auth.identities
        == map[x.newId := FirstState(NewSession(c, imsi, 1, v), x.lookup(imsi), x.newId)]
  {
    hide Run;
    hide InitialRequest;
    hide EapResponse;
    hide HonestAnswer;
    hide NewSession;
    hide Bare;
    var initial := InitialEvent(imsi, fetch, sid, {});
    var reply := Step(c, START, initial).1;
    FullAuthCompletes(c, START.auth, imsi, fetch, v, sid, x);
    var answered := x.(relay := Carried(HonestAnswer(c, imsi, v, reply.relay), spare));
    FullAuthCompletes(c, START.auth, imsi, fetch, v, sid, answered);
    var es := [initial, EapEvent(sid, answered)];
    assert es == [] + es && es[..1] == [initial] == [] + [initial];
    StartsAt(c);
    RunTwo(c, [], es[0], es[1]);
    RunOne(c, initial);
  }

  lemma StartsAt(c: Crypto)
    ensures Run(c, []) == START
  {
  }

  lemma RunOne(c: Crypto, e: Event)
    ensures Run(c, [e]) == Step(c, START, e).0
  {
    hide Step;
    assert [e][..0] == [];
  }

  lemma FirstKeys(c: Crypto, imsi: Bytes, v: HssVectors)
    ensures var session, mk := NewSession(c, imsi, 1, v), c.sha1([48] + imsi + v.ik + v.ck);
      && session.imsi == imsi && session.mk == mk
      && session.kAut == Prf(c, mk, 160)[16..32] && session.kEncr == Prf(c, mk, 160)[..16]
  {
    hide Prf;
  }

  /** For every subscriber and all draws: an honest peer, using each time the identity it was
      told last, reaches every counter from 1 to 65535, always under the keys of its one full
      authentication; and the request made at 65535 drops the identity and sends the peer
      back to full authentication. */
  lemma WholeLife(
    c: Crypto, imsi: Bytes, fetch: Fetch, v: HssVectors, sid: string, x: EapInput, spare: Bytes,
    rounds: seq<Round>, after: ReauthInput)
    requires Invertible(c) && fetch(imsi) == Some(v) && WellSized(v) && x.lookup(imsi) != ""
    requires x.failing == {} && after.failing == {}
    requires |rounds| < 65535
    ensures var (all, held) := Extended(c, FirstRun(c, imsi, fetch, v, sid, x, spare), x.newId, rounds);
      && |all| == 2 + 2 * |rounds| && held in Run(c, all).auth.identities
      && var mk := c.sha1([48] + imsi + v.ik + v.ck);
      && Run(c, all).auth.identities[held] == ReauthState(
        x.lookup(imsi), imsi, mk, Prf(c, mk, 160)[16..32], Prf(c, mk, 160)[..16], 1 + |rounds|, held)
      && (ReauthRequest(c, Run(c, all), held, after).1 == FallBack <==> |rounds| == 65534)
  {
    hide Run;
    hide FirstRun;
    hide Extended;
    hide NewSession;
    hide ReauthRequest;
    hide Invertible;
    var es := FirstRun(c, imsi, fetch, v, sid, x, spare);
    var (all, held) := Extended(c, es, x.newId, rounds);
    FirstRunCompletes(c, imsi, fetch, v, sid, x, spare);
    FirstKeys(c, imsi, v);
    RoundsComplete(c, es, x.newId, rounds);
    ExhaustedFallsBack(c, Run(c, all), held, after);
  }
}
