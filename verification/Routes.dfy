/** The EAP path of POST /entitlement: the response cache in front of the two handlers. */
module Routes {
  import opened ByteStrings
  import opened Handlers
  import opened Primitives
  import opened Protocol
  import opened Runs
  import Tokens

  datatype Field =
    | Text(text: string)
    | Number(number: int)
    | Object(fields: map<string, Field>)
    | List(items: seq<Field>)

  datatype Body = Json(fields: map<string, Field>) | Xml(text: string) | Other(value: Field)

  /** Status, X-EAP-Session-Id header and body; or nothing at all. */
  datatype HttpReply = Response(status: int, session: Option<string>, body: Body) | Unanswered

  type Tick = t: nat | t > 0 witness 1

  /** SHA-256 in hexadecimal, base64, and what the token service is configured with. */
  datatype Env = Env(
    digest: string -> string, decode: string -> Option<Received>, encode: Bytes -> string,
    ttls: Tokens.Ttls, tick: Tick)

  /** A POST with an eap_relay: the session header, the relay, the other inputs of the two
      handlers, what the response builder would make of a success, whether the look for a
      re-authentication session, the cache read and the cache write fail; and for a
      temporary token the application, the operation, the token drawn and how its stores do. */
  datatype Post = Post(
    sid: string, relay: string, x: EapInput, y: ReauthReplyInput, build: (Bytes, string) -> Option<Body>,
    blind: bool, unread: bool, unwritten: bool,
    app: string, operation: string, tokenValue: string, z: Tokens.Circumstances)

  datatype Front = Front(server: Server, cache: map<string, map<string, Field>>, tokens: Tokens.TokenState)

  function Key(v: Env, sid: string, relay: string): string { "eap_idempotency:" + v.digest(sid + relay) }

  function Refused(status: int, error: string, message: string): HttpReply {
    Response(status, None,
      Json(map["error" := Text(error), "message" := Text(message), "statusCode" := Number(status)]))
  }

  const MISSING_SESSION := Refused(400, "Bad Request", "Missing X-EAP-Session-Id header")
  /** What the recovering middleware around the handler answers for a panic. */
  const RECOVERED := Refused(500, "Internal Server Error", "An unexpected error occurred")
  const NOT_BUILT := Refused(500, "Internal Server Error", "Failed to build response")

  function ServerError(reauth: bool): HttpReply {
    Refused(500, "Internal Server Error", if reauth then "Re-authentication failed" else "Authentication failed")
  }

  function Challenged(v: Env, sid: string, relay: Bytes): HttpReply {
    Response(401, Some(sid), Json(map["eap_relay" := Text(v.encode(relay)), "statusCode" := Number(401)]))
  }

  function Unauthorized(v: Env, reauth: bool, relay: Bytes): HttpReply {
    Response(401, None, Json(map["error" := Text("Unauthorized"),
      "message" := Text(if reauth then "Re-authentication failed" else "EAP-AKA authentication failed"),
      "eap_relay" := Text(v.encode(relay)), "statusCode" := Number(401)]))
  }

  /** A built body as it is sent, and as it is kept for a retry. */
  function SentBody(v: Env, relay: Bytes, body: Body): Body {
    match body
    case Json(fields) => Json(fields["eap_relay" := Text(v.encode(relay))])
    case _ => body
  }

  function KeptBody(v: Env, relay: Bytes, body: Body): Option<map<string, Field>> {
    match body
    case Json(fields) => Some(fields["eap_relay" := Text(v.encode(relay))])
    case Xml(text) => Some(map["_xml" := Text(text), "eap_relay" := Text(v.encode(relay))])
    case Other(_) => None
  }

  /** A re-authentication session takes the response if there is one. */
  function Dispatched(v: Env, s: Server, p: Post): Event {
    if !p.blind && p.sid in s.reauthSessions
    then ReauthResponseEvent(p.sid, p.y.(relay := v.decode(p.relay)))
    else EapEvent(p.sid, p.x.(relay := v.decode(p.relay)))
  }

  /** The HTTP answer to a handler's reply, and what goes into the cache with it. */
  function Answered(v: Env, r: Reply, reauth: bool, build: (Bytes, string) -> Option<Body>):
    (HttpReply, Option<map<string, Field>>)
  {
    match r
    case Success(relay, id, subscriberId) =>
      if id == [] then (Unauthorized(v, reauth, relay), None)
      else
        (match build(id, subscriberId)
         case None => (NOT_BUILT, None)
         case Some(body) => (Response(200, None, SentBody(v, relay, body)), KeptBody(v, relay, body)))
    case Challenge(relay, sid) =>
      (if sid != "" then Challenged(v, sid, relay) else Unauthorized(v, reauth, relay), None)
    case Failure(relay) => (Unauthorized(v, reauth, relay), None)
    case Error => (ServerError(reauth), None)
    case Stuck => (Unanswered, None)
    case _ => (RECOVERED, None)
  }

  predicate AcquiresToken(p: Post) {
    p.operation == "AcquireTemporaryToken" && (p.app == "ap2006" || p.app == "ap2009")
  }

  /** A temporary token for the subscriber, if the request asks for one. */
  function WithToken(v: Env, t: Tokens.TokenState, p: Post, subscriberId: string): Tokens.TokenState {
    if AcquiresToken(p) then
      Tokens.GenerateTemporary(t, v.ttls, v.tick, subscriberId, p.tokenValue, p.app, [p.operation], p.z).0
    else t
  }

  /** Only a re-authentication that gets its response built issues one. */
  function TokensAfter(v: Env, t: Tokens.TokenState, p: Post, r: Reply, reauth: bool): Tokens.TokenState {
    if reauth && r.Success? && r.identity != [] && p.build(r.identity, r.subscriberId).Some?
    then WithToken(v, t, p, r.subscriberId)
    else t
  }

  predicate Replays(v: Env, f: Front, p: Post) {
    p.sid != "" && !p.unread && Key(v, p.sid, p.relay) in f.cache
  }

  function Posted(c: Crypto, v: Env, f: Front, p: Post): (Front, HttpReply) {
    if p.sid == "" then (f, MISSING_SESSION)
    else if Replays(v, f, p) then (f, Response(200, None, Json(f.cache[Key(v, p.sid, p.relay)])))
    else
      var e := Dispatched(v, f.server, p);
      var (server, r) := Step(c, f.server, e);
      var (answer, kept) := Answered(v, r, e.ReauthResponseEvent?, p.build);
      var cache := if kept.None? || p.unwritten then f.cache else f.cache[Key(v, p.sid, p.relay) := kept.value];
      (Front(server, cache, TokensAfter(v, f.tokens, p, r, e.ReauthResponseEvent?)), answer)
  }

  /** A POST that is not answered from the cache goes to the re-authentication handler if a
      session of that kind is open under its id (and found), else to full authentication;
      the state of the server after it is that handler's. */
  lemma PostGoesTo(c: Crypto, v: Env, f: Front, p: Post)
    requires p.sid != "" && !Replays(v, f, p)
    ensures Posted(c, v, f, p).0.server ==
      if !p.blind && p.sid in f.server.reauthSessions
      then ReauthResponse(c, f.server, p.sid, p.y.(relay := v.decode(p.relay))).0
      else f.server.(auth := EapResponse(c, f.server.auth, p.sid, p.x.(relay := v.decode(p.relay))).0)
  {
    hide EapResponse;
    hide ReauthResponse;
    hide Answered;
    hide TokensAfter;
  }

  /** The handler's reply to such a POST. */
  function ReplyOf(c: Crypto, v: Env, f: Front, p: Post): Reply {
    if !p.blind && p.sid in f.server.reauthSessions
    then ReauthResponse(c, f.server, p.sid, p.y.(relay := v.decode(p.relay))).1
    else EapResponse(c, f.server.auth, p.sid, p.x.(relay := v.decode(p.relay))).1
  }

  /** The answer a handler's reply is to get: 200 with what is built for the identity and
      subscriber of a success, 401 with the new session's id for a challenge, 401 without for
      a refusal, 500 for an error, a panic or a response that cannot be built, and none for an
      endless loop. */
  predicate AnswersFor(v: Env, r: Reply, build: (Bytes, string) -> Option<Body>, answer: HttpReply) {
    && (r.Success? && r.identity != [] ==>
      match build(r.identity, r.subscriberId)
      case Some(Json(fields)) =>
        answer == Response(200, None, Json(fields["eap_relay" := Text(v.encode(r.relay))]))
      case Some(body) => answer == Response(200, None, body)
      case None => answer.Response? && answer.status == 500)
    && (r.Challenge? && r.sessionId != "" ==> Carrying401(v, r.relay, Some(r.sessionId), answer))
    && (r.Failure? ==> Carrying401(v, r.relay, None, answer))
    && (r == Error || r == Crashed ==> answer.Response? && answer.status == 500 && answer.session == None)
    && (r == Stuck ==> answer == Unanswered)
  }

  predicate Carrying401(v: Env, relay: Bytes, session: Option<string>, answer: HttpReply) {
    && answer.Response? && answer.status == 401 && answer.session == session && answer.body.Json?
    && "eap_relay" in answer.body.fields && answer.body.fields["eap_relay"] == Text(v.encode(relay))
  }

  lemma AnsweredAsDue(v: Env, r: Reply, reauth: bool, build: (Bytes, string) -> Option<Body>)
    ensures AnswersFor(v, r, build, Answered(v, r, reauth, build).0)
  {
  }

  lemma PostAnswers(c: Crypto, v: Env, f: Front, p: Post)
    requires p.sid != "" && !Replays(v, f, p)
    ensures AnswersFor(v, ReplyOf(c, v, f, p), p.build, Posted(c, v, f, p).1)
  {
    hide EapResponse;
    hide ReauthResponse;
    hide TokensAfter;
    hide Key;
    hide Answered;
    hide AnswersFor;
    AnsweredAsDue(v, ReplyOf(c, v, f, p), Dispatched(v, f.server, p).ReauthResponseEvent?, p.build);
  }

  /** A POST without a session id is answered 400 and changes nothing. */
  lemma NoSessionId(c: Crypto, v: Env, f: Front, p: Post)
    requires p.sid == ""
    ensures var (f', r) := Posted(c, v, f, p); f' == f && r.Response? && r.status == 400 && r.session == None
  {
    hide Step;
    hide Answered;
    hide TokensAfter;
  }

  /** A temporary token is issued only by a re-authentication success that asks for one and
      gets its response built. */
  lemma PostTokens(c: Crypto, v: Env, f: Front, p: Post)
    requires p.sid != "" && !Replays(v, f, p)
    ensures var r := ReplyOf(c, v, f, p);
      Posted(c, v, f, p).0.tokens ==
        if !p.blind && p.sid in f.server.reauthSessions && r.Success? && r.identity != []
          && p.build(r.identity, r.subscriberId).Some?
          && p.operation == "AcquireTemporaryToken" && (p.app == "ap2006" || p.app == "ap2009") then
          Tokens.GenerateTemporary(f.tokens, v.ttls, v.tick, r.subscriberId, p.tokenValue, p.app, [p.operation], p.z).0
        else f.tokens
  {
    hide EapResponse;
    hide ReauthResponse;
    hide Answered;
    hide Key;
  }

  // ---------------------------------------------------------------- in place

  class IdempotencyCache {
    const env: Env
    var entries: map<string, map<string, Field>>

    constructor (env: Env)
      ensures this.env == env && entries == map[]
    {
      this.env, entries := env, map[];
    }

    method CacheResponse(sid: string, relay: string, body: map<string, Field>, fails: bool)
      modifies this
      ensures entries == if fails then old(entries) else old(entries)[Key(env, sid, relay) := body]
    {
      var key := Key(env, sid, relay);
      if !fails {
        entries := entries[key := body];
      }
    }

    method GetCachedResponse(sid: string, relay: string, fails: bool) returns (r: Option<map<string, Field>>)
      ensures r == if !fails && Key(env, sid, relay) in entries then Some(entries[Key(env, sid, relay)]) else None
    {
      var key := Key(env, sid, relay);
      r := if !fails && key in entries then Some(entries[key]) else None;
    }
  }

  class EntitlementHandler {
    const env: Env
    const handler: ReauthHandler
    const cache: IdempotencyCache
    const tokens: Tokens.Service

    constructor (handler: ReauthHandler, cache: IdempotencyCache, tokens: Tokens.Service)
      requires handler.Wired() && tokens.ttls == cache.env.ttls && tokens.tick == cache.env.tick
      ensures Wired() && this.handler == handler && this.cache == cache && this.tokens == tokens
    {
      this.env, this.handler, this.cache, this.tokens := cache.env, handler, cache, tokens;
    }

    ghost predicate Wired() {
      handler.Wired() && env == cache.env && tokens.ttls == env.ttls && tokens.tick == env.tick
    }

    ghost function State(): Front
      reads cache, tokens, handler, handler.reauthSessionStore, handler.orchestrator,
        handler.orchestrator.sessionStore, handler.orchestrator.reauthStore
    {
      Front(handler.State(), cache.entries, tokens.State())
    }

    method HandleEapRelayPath(p: Post) returns (r: HttpReply)
      requires Wired()
      modifies cache, tokens, handler, handler.reauthStore, handler.reauthSessionStore, handler.orchestrator,
        handler.orchestrator.sessionStore
      ensures (State(), r) == Posted(handler.crypto, env, old(State()), p)
    {
      hide Answered;
      hide TokensAfter;
      hide Step;
      if p.sid == "" { return MISSING_SESSION; }
      var cached := cache.GetCachedResponse(p.sid, p.relay, p.unread);
      if cached.Some? { return Response(200, None, Json(cached.value)); }
      var reply, reauth := Dispatch(p);
      r := Answer(p, reply, reauth);
    }

    /** A re-authentication session takes the response, otherwise full authentication does. */
    method Dispatch(p: Post) returns (reply: Reply, reauth: bool)
      requires Wired()
      modifies handler, handler.reauthStore, handler.reauthSessionStore, handler.orchestrator,
        handler.orchestrator.sessionStore
      ensures var e := Dispatched(env, old(handler.State()), p);
        reauth == e.ReauthResponseEvent? && (handler.State(), reply) == Step(handler.crypto, old(handler.State()), e)
    {
      hide EapResponse;
      hide ReauthResponse;
      reauth := !p.blind && p.sid in handler.reauthSessionStore.sessions;
      if reauth {
        reply := handler.HandleReauthResponse(p.sid, p.y.(relay := env.decode(p.relay)));
      } else {
        reply := handler.orchestrator.HandleEapResponse(p.sid, p.x.(relay := env.decode(p.relay)));
      }
    }

    method Answer(p: Post, reply: Reply, reauth: bool) returns (r: HttpReply)
      requires Wired()
      modifies cache, tokens
      ensures r == Answered(env, reply, reauth, p.build).0
      ensures var kept := Answered(env, reply, reauth, p.build).1;
        cache.entries == if kept.None? || p.unwritten then old(cache.entries)
          else old(cache.entries)[Key(env, p.sid, p.relay) := kept.value]
      ensures tokens.State() == TokensAfter(env, old(tokens.State()), p, reply, reauth)
    {
      match reply
      case Success(relay, id, subscriberId) =>
        if id == [] { return Unauthorized(env, reauth, relay); }
        var built := p.build(id, subscriberId);
        if built.None? { return NOT_BUILT; }
        if reauth {
          HandleTempTokenSideEffect(p, subscriberId);
        }
        r := SendFormattedResponse(p, built.value, relay);
      case Challenge(relay, sid) =>
        r := if sid != "" then Challenged(env, sid, relay) else Unauthorized(env, reauth, relay);
      case Failure(relay) => r := Unauthorized(env, reauth, relay);
      case Error => r := ServerError(reauth);
      case Stuck => r := Unanswered;
      case _ => r := RECOVERED;
    }

    method HandleTempTokenSideEffect(p: Post, subscriberId: string)
      requires Wired()
      modifies tokens
      ensures tokens.State() == WithToken(env, old(tokens.State()), p, subscriberId)
      ensures tokens.State() ==
        if p.operation == "AcquireTemporaryToken" && (p.app == "ap2006" || p.app == "ap2009") then
          Tokens.GenerateTemporary(old(tokens.State()), env.ttls, env.tick,
            subscriberId, p.tokenValue, p.app, [p.operation], p.z).0
        else old(tokens.State())
    {
      if p.operation != "AcquireTemporaryToken" || (p.app != "ap2006" && p.app != "ap2009") { return; }
      var _ := tokens.GenerateTemporaryToken(subscriberId, p.tokenValue, p.app, [p.operation], p.z);
    }

    method SendFormattedResponse(p: Post, body: Body, relay: Bytes) returns (r: HttpReply)
      requires Wired()
      modifies cache
      ensures r == Response(200, None, SentBody(env, relay, body))
      ensures var kept := KeptBody(env, relay, body);
        cache.entries == if kept.None? || p.unwritten then old(cache.entries)
          else old(cache.entries)[Key(env, p.sid, p.relay) := kept.value]
    {
      match body
      case Xml(text) =>
        var kept := map["_xml" := Text(text), "eap_relay" := Text(env.encode(relay))];
        cache.CacheResponse(p.sid, p.relay, kept, p.unwritten);
        r := Response(200, None, Xml(text));
      case Json(fields) =>
        var sent := fields["eap_relay" := Text(env.encode(relay))];
        cache.CacheResponse(p.sid, p.relay, sent, p.unwritten);
        r := Response(200, None, Json(sent));
      case Other(_) =>
        r := Response(200, None, body);
    }
  }
}
