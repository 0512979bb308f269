/** Retries: a kept answer is repeated without touching anything, and every 200 goes back to
    one successful authentication, of the session it names if that is an id of the server's. */
module Idempotency {
  import opened ByteStrings
  import opened Completion
  import opened Lifetime
  import opened OneShot
  import opened Primitives
  import opened Protocol
  import opened Routes
  import opened Runs
  import Tokens

  /** A POST, an event that does not go through the cache, a call of the token service, or a
      cached answer running out. */
  datatype FrontEvent =
    | Posts(p: Post)
    | Serves(e: Event)
    | UsesTokens(t: Tokens.TokenEvent)
    | AnswerExpires(key: string)

  function FrontStep(c: Crypto, v: Env, f: Front, e: FrontEvent): (Front, HttpReply) {
    match e
    case Posts(p) => Posted(c, v, f, p)
    case Serves(e) => (f.(server := Step(c, f.server, e).0), Unanswered)
    case UsesTokens(t) => (f.(tokens := Tokens.TokenStep(f.tokens, v.ttls, v.tick, t)), Unanswered)
    case AnswerExpires(key) => (f.(cache := f.cache - {key}), Unanswered)
  }

  const FRONT_START := Front(START, map[], Tokens.TokenState(map[], map[]))

  function FrontRun(c: Crypto, v: Env, es: seq<FrontEvent>): Front {
    if es == [] then FRONT_START else FrontStep(c, v, FrontRun(c, v, es[..|es| - 1]), es[|es| - 1]).0
  }

  function FrontBefore(c: Crypto, v: Env, es: seq<FrontEvent>, i: nat): Front
    requires i <= |es|
  {
    FrontRun(c, v, es[..i])
  }

  function FrontReply(c: Crypto, v: Env, es: seq<FrontEvent>, i: nat): HttpReply
    requires i < |es|
  {
    FrontStep(c, v, FrontBefore(c, v, es, i), es[i]).1
  }

  lemma FrontNext(c: Crypto, v: Env, es: seq<FrontEvent>, i: nat)
    requires i < |es|
    ensures FrontBefore(c, v, es, i + 1) == FrontStep(c, v, FrontBefore(c, v, es, i), es[i]).0
  {
    hide FrontStep;
    assert es[..i + 1][..i] == es[..i];
  }

  // ---------------------------------------------------------------- retries

  /** The key's entry can be read and does not run out from event i up to event j. */
  ghost predicate Undisturbed(v: Env, es: seq<FrontEvent>, i: nat, j: nat, key: string)
    requires i <= j <= |es|
  {
    forall k :: i <= k < j ==>
      es[k] != AnswerExpires(key) && (es[k].Posts? && Key(v, es[k].p.sid, es[k].p.relay) == key ==> !es[k].p.unread)
  }

  /** A live entry is never overwritten: while it is there its key is answered from it. */
  lemma {:induction false} EntryStays(c: Crypto, v: Env, es: seq<FrontEvent>, i: nat, j: nat, key: string)
    requires i <= j <= |es| && key in FrontBefore(c, v, es, i).cache && Undisturbed(v, es, i, j, key)
    ensures key in FrontBefore(c, v, es, j).cache
    ensures FrontBefore(c, v, es, j).cache[key] == FrontBefore(c, v, es, i).cache[key]
  {
    hide FrontRun;
    if i < j {
      EntryStays(c, v, es, i, j - 1, key);
      FrontNext(c, v, es, j - 1);
      EntryStaysStep(c, v, FrontBefore(c, v, es, j - 1), es[j - 1], key);
    }
  }

  lemma EntryStaysStep(c: Crypto, v: Env, f: Front, e: FrontEvent, key: string)
    requires key in f.cache && e != AnswerExpires(key)
    requires e.Posts? && Key(v, e.p.sid, e.p.relay) == key ==> !e.p.unread
    ensures key in FrontStep(c, v, f, e).0.cache && FrontStep(c, v, f, e).0.cache[key] == f.cache[key]
  {
    hide Step;
    hide Answered;
    hide Key;
  }

  /** A 200 answered in JSON and kept is repeated, with the same body and with no change to
      any store, to the tokens or to the cache, by every later POST of the same session id
      and relay; and also by one that splits the same characters differently. */
  lemma RetryReplays(c: Crypto, v: Env, es: seq<FrontEvent>, i: nat, j: nat)
    requires i < j < |es| && es[i].Posts? && es[j].Posts? && es[j].p.sid != ""
    requires es[i].p.sid + es[i].p.relay == es[j].p.sid + es[j].p.relay
    requires FrontReply(c, v, es, i).Response? && FrontReply(c, v, es, i).status == 200
    requires FrontReply(c, v, es, i).body.Json? && !es[i].p.unwritten && !es[j].p.unread
    requires Undisturbed(v, es, i + 1, j, Key(v, es[i].p.sid, es[i].p.relay))
    ensures FrontReply(c, v, es, j) == FrontReply(c, v, es, i)
    ensures FrontBefore(c, v, es, j + 1) == FrontBefore(c, v, es, j)
  {
    hide FrontRun;
    hide Posted;
    FrontNext(c, v, es, i);
    FrontNext(c, v, es, j);
    KeptWhenJson(c, v, FrontBefore(c, v, es, i), es[i].p);
    EntryStays(c, v, es, i + 1, j, Key(v, es[i].p.sid, es[i].p.relay));
    ReplayOf(c, v, FrontBefore(c, v, es, j), es[j].p);
  }

  lemma KeptWhenJson(c: Crypto, v: Env, f: Front, p: Post)
    requires var (f', r) := Posted(c, v, f, p); r.Response? && r.status == 200 && r.body.Json? && !p.unwritten
    ensures var (f', r) := Posted(c, v, f, p);
      && p.sid != "" && r.session.None?
      && Key(v, p.sid, p.relay) in f'.cache && f'.cache[Key(v, p.sid, p.relay)] == r.body.fields
  {
    hide Step;
    hide Key;
  }

  lemma ReplayOf(c: Crypto, v: Env, f: Front, p: Post)
    requires p.sid != "" && !p.unread && Key(v, p.sid, p.relay) in f.cache
    ensures Posted(c, v, f, p) == (f, Response(200, None, Json(f.cache[Key(v, p.sid, p.relay)])))
  {
    hide Step;
  }

  /** An XML answer does not come back as it was: the retry is answered with JSON that holds
      the document under "_xml". */
  lemma XmlRetryIsJson(c: Crypto, v: Env, f: Front, p: Post, again: Post)
    requires again.sid == p.sid && again.relay == p.relay && !p.unwritten && !again.unread
    requires var r := Posted(c, v, f, p).1; r.Response? && r.body.Xml?
    ensures var (f', r) := Posted(c, v, f, p);
      exists relay :: Posted(c, v, f', again)
        == (f', Response(200, None, Json(map["_xml" := Text(r.body.text), "eap_relay" := Text(relay)])))
  {
    hide Step;
    hide Key;
    var (f', r) := Posted(c, v, f, p);
    var reply := Step(c, f.server, Dispatched(v, f.server, p)).1;
    ReplayOf(c, v, f', again);
    assert Posted(c, v, f', again)
      == (f', Response(200, None, Json(map["_xml" := Text(r.body.text), "eap_relay" := Text(v.encode(reply.relay))])));
  }

  // ---------------------------------------------------------------- whose answer is repeated

  /** SHA-256 does not collide on what this run hashes. */
  ghost predicate NoCollisions(v: Env, es: seq<FrontEvent>) {
    forall i, j :: 0 <= i < |es| && 0 <= j < |es| && es[i].Posts? && es[j].Posts?
      && v.digest(es[i].p.sid + es[i].p.relay) == v.digest(es[j].p.sid + es[j].p.relay)
      ==> es[i].p.sid + es[i].p.relay == es[j].p.sid + es[j].p.relay
  }

  /** The session ids the server draws are all of one length, 36 for a UUID. What clients
      send as a session id is not restricted. */
  ghost predicate DrawsLength(es: seq<Event>, length: nat) {
    forall i :: 0 <= i < |es| && Creates(es[i]).Some? ==> |Creates(es[i]).value| == length
  }

  lemma SplitOnce(s: string, r: string, s': string, r': string)
    requires s + r == s' + r'
    ensures |s| == |s'| <==> s == s' && r == r'
  {
    if |s| == |s'| {
      assert s == (s + r)[..|s|] && s' == (s' + r')[..|s|];
      assert r == (s + r)[|s|..] && r' == (s' + r')[|s|..];
    }
  }

  lemma SameKey(v: Env, es: seq<FrontEvent>, i: nat, j: nat)
    requires i < |es| && j < |es| && es[i].Posts? && es[j].Posts? && NoCollisions(v, es)
    ensures Key(v, es[i].p.sid, es[i].p.relay) == Key(v, es[j].p.sid, es[j].p.relay)
      <==> es[i].p.sid + es[i].p.relay == es[j].p.sid + es[j].p.relay
  {
    var prefix := "eap_idempotency:";
    var d, d' := v.digest(es[i].p.sid + es[i].p.relay), v.digest(es[j].p.sid + es[j].p.relay);
    assert (prefix + d)[|prefix|..] == d && (prefix + d')[|prefix|..] == d';
  }

  /** Event i is a POST that the handlers answered with success, with this kept body. */
  predicate Authenticates(c: Crypto, v: Env, es: seq<FrontEvent>, i: nat, body: Option<map<string, Field>>) {
    && i < |es| && es[i].Posts? && es[i].p.sid != "" && !Replays(v, FrontBefore(c, v, es, i), es[i].p)
    && var e := Dispatched(v, FrontBefore(c, v, es, i).server, es[i].p);
      var r := Step(c, FrontBefore(c, v, es, i).server, e).1;
      r.Success? && Answered(v, r, e.ReauthResponseEvent?, es[i].p.build).1 == body
  }

  predicate Origin(c: Crypto, v: Env, es: seq<FrontEvent>, n: nat, k: nat, key: string, body: map<string, Field>) {
    k < n && Authenticates(c, v, es, k, Some(body)) && Key(v, es[k].p.sid, es[k].p.relay) == key
  }

  /** Every cached body was made by an earlier success under its key. */
  ghost predicate AllOriginate(c: Crypto, v: Env, es: seq<FrontEvent>, n: nat)
    requires n <= |es|
  {
    forall key :: key in FrontBefore(c, v, es, n).cache ==>
      exists k :: Origin(c, v, es, n, k, key, FrontBefore(c, v, es, n).cache[key])
  }

  lemma EntryAfter(c: Crypto, v: Env, es: seq<FrontEvent>, n: nat, key: string)
    requires n < |es| && key in FrontBefore(c, v, es, n + 1).cache
    ensures var f, f' := FrontBefore(c, v, es, n), FrontBefore(c, v, es, n + 1);
      (key in f.cache && f'.cache[key] == f.cache[key]) || Origin(c, v, es, n + 1, n, key, f'.cache[key])
  {
    hide FrontRun;
    hide Step;
    hide Key;
    FrontNext(c, v, es, n);
  }

  lemma {:induction false} CacheOriginates(c: Crypto, v: Env, es: seq<FrontEvent>, n: nat)
    requires n <= |es|
    ensures AllOriginate(c, v, es, n)
  {
    hide Authenticates;
    hide FrontStep;
    hide Key;
    if n > 0 {
      hide FrontRun;
      CacheOriginates(c, v, es, n - 1);
      forall key | key in FrontBefore(c, v, es, n).cache
        ensures exists k :: Origin(c, v, es, n, k, key, FrontBefore(c, v, es, n).cache[key])
      {
        EntryAfter(c, v, es, n - 1, key);
        if !Origin(c, v, es, n, n - 1, key, FrontBefore(c, v, es, n).cache[key]) {
          var k :| Origin(c, v, es, n - 1, k, key, FrontBefore(c, v, es, n - 1).cache[key]);
          assert Origin(c, v, es, n, k, key, FrontBefore(c, v, es, n).cache[key]);
        }
      }
    } else {
      assert es[..0] == [];
    }
  }

  // ---------------------------------------------------------------- one answer per session

  /** What the handlers see of a run. */
  function Handled(c: Crypto, v: Env, es: seq<FrontEvent>): seq<Event> {
    if es == [] then []
    else
      var n := |es| - 1;
      var before := Handled(c, v, es[..n]);
      match es[n]
      case Posts(p) =>
        var f := FrontRun(c, v, es[..n]);
        if p.sid == "" || Replays(v, f, p) then before else before + [Dispatched(v, f.server, p)]
      case Serves(e) => before + [e]
      case _ => before
  }

  /** The stores are those of the handlers' own run: the cache only leaves events out. */
  lemma {:induction false} CacheIsTransparent(c: Crypto, v: Env, es: seq<FrontEvent>)
    ensures FrontRun(c, v, es).server == Run(c, Handled(c, v, es))
  {
    hide Step;
    hide Answered;
    hide Replays;
    if es != [] {
      var n := |es| - 1;
      CacheIsTransparent(c, v, es[..n]);
      var before, after := Handled(c, v, es[..n]), Handled(c, v, es);
      if |after| > |before| {
        assert after[..|before|] == before;
      }
    }
  }

  lemma {:induction false} HandledGrows(c: Crypto, v: Env, es: seq<FrontEvent>, i: nat)
    requires i <= |es|
    ensures Handled(c, v, es[..i]) <= Handled(c, v, es)
    decreases |es|
  {
    hide Replays;
    hide Dispatched;
    hide FrontRun;
    if i < |es| {
      var n := |es| - 1;
      HandledGrows(c, v, es[..n], i);
      assert es[..n][..i] == es[..i];
      assert Handled(c, v, es[..n]) <= Handled(c, v, es);
    } else {
      assert es[..i] == es;
    }
  }

  /** A success at the front is a success in the handlers' run, at its own place. */
  lemma SuccessHandled(
    c: Crypto, v: Env, es: seq<FrontEvent>, i: nat, body: Option<map<string, Field>>) returns (d: nat)
    requires Authenticates(c, v, es, i, body)
    ensures d == |Handled(c, v, es[..i])| && d < |Handled(c, v, es)|
    ensures SucceedsOn(c, Handled(c, v, es), d, es[i].p.sid)
    ensures |Handled(c, v, es[..i + 1])| == d + 1
  {
    hide Step;
    hide Replays;
    hide FrontRun;
    hide Answered;
    hide Run;
    var before, all := Handled(c, v, es[..i]), Handled(c, v, es);
    d := |before|;
    assert es[..i + 1][..i] == es[..i];
    var e := Dispatched(v, FrontBefore(c, v, es, i).server, es[i].p);
    assert Handled(c, v, es[..i + 1]) == before + [e];
    HandledGrows(c, v, es, i + 1);
    assert all[d] == e;
    assert all[..d] == (before + [e])[..d] == before;
    CacheIsTransparent(c, v, es[..i]);
  }

  lemma OneSuccess(
    c: Crypto, v: Env, es: seq<FrontEvent>, i: nat, j: nat,
    a: Option<map<string, Field>>, b: Option<map<string, Field>>)
    requires i < |es| && j < |es| && es[i].Posts? && es[j].Posts? && es[i].p.sid == es[j].p.sid
    requires Authenticates(c, v, es, i, a) && Authenticates(c, v, es, j, b)
    requires FreshSessions(Handled(c, v, es)) && DeletesOn(c, Handled(c, v, es), es[i].p.sid)
    ensures i == j && a == b
  {
    hide Handled;
    hide Authenticates;
    hide FreshSessions;
    hide DeletesOn;
    hide SucceedsOn;
    var d := SuccessHandled(c, v, es, i, a);
    var d' := SuccessHandled(c, v, es, j, b);
    SucceedsOnce(c, Handled(c, v, es), d, d', es[i].p.sid);
    if i < j {
      assert es[..j][..i + 1] == es[..i + 1];
      HandledGrows(c, v, es[..j], i + 1);
    } else if j < i {
      assert es[..i][..j + 1] == es[..j + 1];
      HandledGrows(c, v, es[..i], j + 1);
    }
    BodiesAgree(c, v, es, i, a, b);
  }

  lemma BodiesAgree(
    c: Crypto, v: Env, es: seq<FrontEvent>, i: nat, a: Option<map<string, Field>>, b: Option<map<string, Field>>)
    requires Authenticates(c, v, es, i, a) && Authenticates(c, v, es, i, b)
    ensures a == b
  {
    hide Step;
    hide Answered;
    hide Replays;
    hide FrontRun;
  }

  /** A success is on an id the server drew. */
  lemma SuccessDrawn(c: Crypto, v: Env, es: seq<FrontEvent>, k: nat, body: Option<map<string, Field>>, length: nat)
    requires Authenticates(c, v, es, k, body) && DrawsLength(Handled(c, v, es), length)
    ensures |es[k].p.sid| == length
  {
    hide Handled;
    hide Authenticates;
    hide AllCreated;
    hide Step;
    hide Run;
    assert k < |es| && es[k].Posts? by { AuthenticatesPost(c, v, es, k, body); }
    var d := SuccessHandled(c, v, es, k, body);
    SuccessCreated(c, Handled(c, v, es), d, es[k].p.sid, length);
  }

  lemma AuthenticatesPost(c: Crypto, v: Env, es: seq<FrontEvent>, k: nat, body: Option<map<string, Field>>)
    requires Authenticates(c, v, es, k, body)
    ensures k < |es| && es[k].Posts? && es[k].p.sid != ""
  {
    hide Step;
    hide Answered;
    hide FrontRun;
  }

  lemma SuccessCreated(c: Crypto, es: seq<Event>, d: nat, sid: string, length: nat)
    requires d < |es| && SucceedsOn(c, es, d, sid) && DrawsLength(es, length)
    ensures |sid| == length
  {
    hide Run;
    hide EapResponse;
    hide ReauthResponse;
    AlwaysCreated(c, es, d);
    IdentitiesAfter(c, Before(c, es, d), es[d]);
    var reauth := es[d].ReauthResponseEvent?;
    assert CreatedBefore(es, d, sid, reauth);
    var i :| 0 <= i < d && Creates(es[i]) == Some(sid) && es[i].ReauthRequestEvent? == reauth;
  }

  /** Every 200 goes back to one success, its own or an earlier one, whose session id and
      relay are the same characters; it says what that success sent or kept. The success is
      on the session the POST names if and only if the id has the length of the server's. */
  lemma OkOriginates(c: Crypto, v: Env, es: seq<FrontEvent>, j: nat, length: nat)
    returns (k: nat, body: Option<map<string, Field>>)
    requires j < |es| && es[j].Posts? && NoCollisions(v, es) && DrawsLength(Handled(c, v, es), length)
    requires FrontReply(c, v, es, j).Response? && FrontReply(c, v, es, j).status == 200
    ensures k <= j && Authenticates(c, v, es, k, body) && |es[k].p.sid| == length
    ensures es[k].p.sid + es[k].p.relay == es[j].p.sid + es[j].p.relay
    ensures |es[j].p.sid| == length <==> es[k].p.sid == es[j].p.sid && es[k].p.relay == es[j].p.relay
    ensures FrontReply(c, v, es, j).body.Json? ==>
      body.Some? && FrontReply(c, v, es, j) == Response(200, None, Json(body.value))
    ensures !FrontReply(c, v, es, j).body.Json? ==> k == j
  {
    hide FrontRun;
    hide Step;
    hide Key;
    hide Handled;
    var f := FrontBefore(c, v, es, j);
    var p := es[j].p;
    if Replays(v, f, p) {
      hide Authenticates;
      hide Answered;
      CacheOriginates(c, v, es, j);
      var key := Key(v, p.sid, p.relay);
      k :| Origin(c, v, es, j, k, key, f.cache[key]);
      body := Some(f.cache[key]);
      AuthenticatesPost(c, v, es, k, body);
      SameKey(v, es, k, j);
    } else {
      k := j;
      var e := Dispatched(v, f.server, p);
      body := Answered(v, Step(c, f.server, e).1, e.ReauthResponseEvent?, p.build).1;
    }
    SuccessDrawn(c, v, es, k, body, length);
    SplitOnce(es[k].p.sid, es[k].p.relay, es[j].p.sid, es[j].p.relay);
  }

  /** Two POSTs answered 200 on one id of the server's length carried the same relay and,
      answered in JSON, got the same response, whatever else clients send in the run. */
  lemma OneAnswerPerSession(c: Crypto, v: Env, es: seq<FrontEvent>, i: nat, j: nat, length: nat)
    requires i < |es| && j < |es| && es[i].Posts? && es[j].Posts?
    requires es[i].p.sid == es[j].p.sid && |es[i].p.sid| == length
    requires FrontReply(c, v, es, i).Response? && FrontReply(c, v, es, i).status == 200
    requires FrontReply(c, v, es, j).Response? && FrontReply(c, v, es, j).status == 200
    requires NoCollisions(v, es) && DrawsLength(Handled(c, v, es), length)
    requires FreshSessions(Handled(c, v, es)) && DeletesOn(c, Handled(c, v, es), es[i].p.sid)
    ensures es[i].p.relay == es[j].p.relay
    ensures FrontReply(c, v, es, i).body.Json? && FrontReply(c, v, es, j).body.Json?
      ==> FrontReply(c, v, es, i) == FrontReply(c, v, es, j)
    ensures !FrontReply(c, v, es, i).body.Json? && !FrontReply(c, v, es, j).body.Json? ==> i == j
  {
    hide Handled;
    hide FrontReply;
    hide FrontBefore;
    hide Step;
    hide Answered;
    hide Replays;
    hide NoCollisions;
    hide DrawsLength;
    hide FreshSessions;
    hide DeletesOn;
    var k, a := OkOriginates(c, v, es, i, length);
    var k', b := OkOriginates(c, v, es, j, length);
    OneSuccess(c, v, es, k, k', a, b);
  }

  // ---------------------------------------------------------------- failing reads

  /** One key is never the key of two successes. */
  lemma OneSuccessPerKey(
    c: Crypto, v: Env, es: seq<FrontEvent>, k: nat, n: nat,
    a: Option<map<string, Field>>, b: Option<map<string, Field>>, length: nat)
    requires k < |es| && n < |es| && es[k].Posts? && es[n].Posts?
    requires Authenticates(c, v, es, k, a) && Authenticates(c, v, es, n, b)
    requires Key(v, es[k].p.sid, es[k].p.relay) == Key(v, es[n].p.sid, es[n].p.relay)
    requires NoCollisions(v, es) && DrawsLength(Handled(c, v, es), length)
    requires FreshSessions(Handled(c, v, es)) && DeletesOn(c, Handled(c, v, es), es[k].p.sid)
    ensures k == n
  {
    hide Handled;
    hide Authenticates;
    hide FreshSessions;
    hide DeletesOn;
    hide DrawsLength;
    hide Key;
    SuccessDrawn(c, v, es, k, a, length);
    SuccessDrawn(c, v, es, n, b, length);
    SameKey(v, es, k, n);
    SplitOnce(es[k].p.sid, es[k].p.relay, es[n].p.sid, es[n].p.relay);
    OneSuccess(c, v, es, k, n, a, b);
  }

  /** Every success on the one session id of the server's length that the characters of POST
      i begin with deleted its session. */
  ghost predicate DeletesUnder(c: Crypto, v: Env, es: seq<FrontEvent>, i: nat, length: nat)
    requires i < |es| && es[i].Posts?
  {
    var whole := es[i].p.sid + es[i].p.relay;
    length <= |whole| ==> DeletesOn(c, Handled(c, v, es), whole[..length])
  }

  lemma DeletesUnderKey(
    c: Crypto, v: Env, es: seq<FrontEvent>, i: nat, k: nat, body: Option<map<string, Field>>, length: nat)
    requires i < |es| && es[i].Posts? && k < |es| && es[k].Posts? && Authenticates(c, v, es, k, body)
    requires Key(v, es[k].p.sid, es[k].p.relay) == Key(v, es[i].p.sid, es[i].p.relay)
    requires NoCollisions(v, es) && DrawsLength(Handled(c, v, es), length) && DeletesUnder(c, v, es, i, length)
    ensures DeletesOn(c, Handled(c, v, es), es[k].p.sid)
  {
    hide Handled;
    hide Authenticates;
    hide DrawsLength;
    hide DeletesOn;
    hide Key;
    hide NoCollisions;
    SuccessDrawn(c, v, es, k, body, length);
    SameKey(v, es, k, i);
    assert (es[k].p.sid + es[k].p.relay)[..length] == es[k].p.sid;
  }

  lemma EntryNotReplaced(
    c: Crypto, v: Env, es: seq<FrontEvent>, n: nat, i: nat, key: string, length: nat)
    requires n < |es| && key in FrontBefore(c, v, es, n).cache && es[n] != AnswerExpires(key)
    requires i < |es| && es[i].Posts? && key == Key(v, es[i].p.sid, es[i].p.relay)
    requires NoCollisions(v, es) && DrawsLength(Handled(c, v, es), length)
    requires FreshSessions(Handled(c, v, es)) && DeletesUnder(c, v, es, i, length)
    ensures key in FrontBefore(c, v, es, n + 1).cache
    ensures FrontBefore(c, v, es, n + 1).cache[key] == FrontBefore(c, v, es, n).cache[key]
  {
    hide FrontRun;
    hide Authenticates;
    hide Key;
    hide Handled;
    hide FreshSessions;
    hide DeletesOn;
    hide DeletesUnder;
    hide DrawsLength;
    hide NoCollisions;
    var f, f' := FrontBefore(c, v, es, n), FrontBefore(c, v, es, n + 1);
    assert key in f'.cache by {
      FrontNext(c, v, es, n);
      KeyKept(c, v, f, es[n], key);
    }
    hide FrontStep;
    EntryAfter(c, v, es, n, key);
    if Origin(c, v, es, n + 1, n, key, f'.cache[key]) {
      CacheOriginates(c, v, es, n);
      var k :| Origin(c, v, es, n, k, key, f.cache[key]);
      AuthenticatesPost(c, v, es, k, Some(f.cache[key]));
      AuthenticatesPost(c, v, es, n, Some(f'.cache[key]));
      DeletesUnderKey(c, v, es, i, k, Some(f.cache[key]), length);
      OneSuccessPerKey(c, v, es, k, n, Some(f.cache[key]), Some(f'.cache[key]), length);
    }
  }

  lemma KeyKept(c: Crypto, v: Env, f: Front, e: FrontEvent, key: string)
    requires key in f.cache && e != AnswerExpires(key)
    ensures key in FrontStep(c, v, f, e).0.cache
  {
    hide Step;
    hide Answered;
    hide Key;
    hide TokensAfter;
  }

  lemma {:induction false} EntryStaysUnread(
    c: Crypto, v: Env, es: seq<FrontEvent>, i: nat, n: nat, j: nat, key: string, length: nat)
    requires n <= j <= |es| && key in FrontBefore(c, v, es, n).cache
    requires i < |es| && es[i].Posts? && key == Key(v, es[i].p.sid, es[i].p.relay)
    requires forall k :: n <= k < j ==> es[k] != AnswerExpires(key)
    requires NoCollisions(v, es) && DrawsLength(Handled(c, v, es), length)
    requires FreshSessions(Handled(c, v, es)) && DeletesUnder(c, v, es, i, length)
    ensures key in FrontBefore(c, v, es, j).cache
    ensures FrontBefore(c, v, es, j).cache[key] == FrontBefore(c, v, es, n).cache[key]
  {
    hide FrontRun;
    hide Handled;
    hide FreshSessions;
    hide DeletesUnder;
    hide Key;
    hide DrawsLength;
    hide NoCollisions;
    if n < j {
      EntryStaysUnread(c, v, es, i, n, j - 1, key, length);
      EntryNotReplaced(c, v, es, j - 1, i, key, length);
    }
  }

  /** A retry is answered as before although cache reads failed in between, if the session's
      successes deleted it. */
  lemma RetryReplaysUnread(c: Crypto, v: Env, es: seq<FrontEvent>, i: nat, j: nat, length: nat)
    requires i < j < |es| && es[i].Posts? && es[j].Posts? && es[j].p.sid != ""
    requires es[i].p.sid + es[i].p.relay == es[j].p.sid + es[j].p.relay
    requires FrontReply(c, v, es, i).Response? && FrontReply(c, v, es, i).status == 200
    requires FrontReply(c, v, es, i).body.Json? && !es[i].p.unwritten && !es[j].p.unread
    requires forall k :: i < k < j ==> es[k] != AnswerExpires(Key(v, es[i].p.sid, es[i].p.relay))
    requires NoCollisions(v, es) && DrawsLength(Handled(c, v, es), length)
    requires FreshSessions(Handled(c, v, es)) && DeletesUnder(c, v, es, i, length)
    ensures FrontReply(c, v, es, j) == FrontReply(c, v, es, i)
    ensures FrontBefore(c, v, es, j + 1) == FrontBefore(c, v, es, j)
  {
    hide FrontRun;
    hide Posted;
    hide Handled;
    hide FreshSessions;
    hide DeletesUnder;
    hide DrawsLength;
    hide NoCollisions;
    FrontNext(c, v, es, i);
    FrontNext(c, v, es, j);
    KeptWhenJson(c, v, FrontBefore(c, v, es, i), es[i].p);
    EntryStaysUnread(c, v, es, i, i + 1, j, Key(v, es[i].p.sid, es[i].p.relay), length);
    ReplayOf(c, v, FrontBefore(c, v, es, j), es[j].p);
  }

  // ---------------------------------------------------------------- an answer that is not one's own

  /** The three events of a foreign answer: a first request, the honest answer, and a POST
      that moves the front of the relay to the end of the session id. */
  ghost predicate ForeignRun(
    c: Crypto, v: Env, es: seq<FrontEvent>, imsi: Bytes, fetch: Fetch, vectors: HssVectors,
    sid: string, head: string, rest: string)
  {
    && |es| == 3 && fetch(imsi) == Some(vectors)
    && es[0] == Serves(InitialEvent(imsi, fetch, sid, {})) && es[1].Posts? && es[2].Posts?
    && var p, other, reply := es[1].p, es[2].p, Step(c, START, InitialEvent(imsi, fetch, sid, {})).1;
      && p.sid == sid && p.relay == head + rest && other.sid == sid + head && other.relay == rest
      && p.x.failing == {} && p.x.lookup(imsi) != "" && !p.unread && !p.unwritten && !other.unread
      && reply.Challenge? && Carries(v.decode(head + rest), HonestAnswer(c, imsi, vectors, reply.relay))
      && match p.build(p.x.newId, p.x.lookup(imsi)) case Some(body) => body.Json? case None => false
  }

  /** The honest peer is answered 200, and then so is the POST on an id under which no
      session was ever opened, with the same response. */
  lemma ForeignAnswer(
    c: Crypto, v: Env, es: seq<FrontEvent>, imsi: Bytes, fetch: Fetch, vectors: HssVectors,
    sid: string, head: string, rest: string)
    requires WellSized(vectors) && sid != "" && head != "" && rest != ""
    requires ForeignRun(c, v, es, imsi, fetch, vectors, sid, head, rest)
    ensures FrontReply(c, v, es, 1).Response? && FrontReply(c, v, es, 1).status == 200
    ensures FrontReply(c, v, es, 2) == FrontReply(c, v, es, 1)
    ensures es[2].p.sid != es[1].p.sid && es[2].p.sid !in FrontBefore(c, v, es, 2).server.auth.sessions
    ensures forall i :: 0 <= i < |Handled(c, v, es)| ==> Creates(Handled(c, v, es)[i]) != Some(es[2].p.sid)
  {
    hide Handled;
    hide Posted;
    hide ForeignRun;
    hide FrontRun;
    FirstServed(c, v, es, imsi, fetch, vectors, sid, head, rest);
    FirstAnswered(c, v, es, imsi, fetch, vectors, sid, head, rest);
    assert |es| == 3 && es[1].Posts? && es[2].Posts? && es[2].p.sid == sid + head && es[1].p.sid == sid
      && es[0] == Serves(InitialEvent(imsi, fetch, sid, {}))
      && es[1].p.sid + es[1].p.relay == es[2].p.sid + es[2].p.relay && !es[1].p.unwritten && !es[2].p.unread by {
      ForeignShape(c, v, es, imsi, fetch, vectors, sid, head, rest);
    }
    assert |sid + head| > |sid|;
    RetryReplays(c, v, es, 1, 2);
    assert Replays(v, FrontBefore(c, v, es, 2), es[2].p) by {
      FrontNext(c, v, es, 1);
      KeptWhenJson(c, v, FrontBefore(c, v, es, 1), es[1].p);
    }
    ReauthSessionsKept(c, imsi, fetch, sid);
    ForeignHandled(c, v, es, imsi, fetch, vectors, sid, head, rest);
  }

  lemma ForeignShape(
    c: Crypto, v: Env, es: seq<FrontEvent>, imsi: Bytes, fetch: Fetch, vectors: HssVectors,
    sid: string, head: string, rest: string)
    requires ForeignRun(c, v, es, imsi, fetch, vectors, sid, head, rest)
    ensures |es| == 3 && es[1].Posts? && es[2].Posts? && es[2].p.sid == sid + head && es[1].p.sid == sid
      && es[0] == Serves(InitialEvent(imsi, fetch, sid, {}))
      && es[1].p.sid + es[1].p.relay == es[2].p.sid + es[2].p.relay && !es[1].p.unwritten && !es[2].p.unread
  {
    hide Step;
    hide HonestAnswer;
    assert sid + (head + rest) == sid + head + rest;
  }

  lemma FirstServed(
    c: Crypto, v: Env, es: seq<FrontEvent>, imsi: Bytes, fetch: Fetch, vectors: HssVectors,
    sid: string, head: string, rest: string)
    requires ForeignRun(c, v, es, imsi, fetch, vectors, sid, head, rest)
    ensures |es| == 3 && FrontBefore(c, v, es, 1)
      == FRONT_START.(server := Step(c, START, InitialEvent(imsi, fetch, sid, {})).0)
  {
    hide Step;
    hide HonestAnswer;
    FrontNext(c, v, es, 0);
    assert es[..0] == [];
  }

  /** What the first POST runs on and comes to. */
  lemma FirstAnswered(
    c: Crypto, v: Env, es: seq<FrontEvent>, imsi: Bytes, fetch: Fetch, vectors: HssVectors,
    sid: string, head: string, rest: string)
    requires WellSized(vectors) && sid != ""
    requires ForeignRun(c, v, es, imsi, fetch, vectors, sid, head, rest)
    requires |es| == 3 && FrontBefore(c, v, es, 1)
      == FRONT_START.(server := Step(c, START, InitialEvent(imsi, fetch, sid, {})).0)
    ensures FrontReply(c, v, es, 1).Response? && FrontReply(c, v, es, 1).status == 200
      && FrontReply(c, v, es, 1).body.Json?
    ensures FrontBefore(c, v, es, 2).server.auth.sessions == map[]
  {
    hide FrontRun;
    hide InitialRequest;
    hide EapResponse;
    hide HonestAnswer;
    hide NewSession;
    hide Key;
    hide TokensAfter;
    hide Bare;
    var p := es[1].p;
    var x := p.x.(relay := v.decode(p.relay));
    FullAuthCompletes(c, START.auth, imsi, fetch, vectors, sid, x);
    FrontNext(c, v, es, 1);
    var f := FrontBefore(c, v, es, 1);
    ReauthSessionsKept(c, imsi, fetch, sid);
    assert Dispatched(v, f.server, p) == EapEvent(sid, x);
  }

  lemma ReauthSessionsKept(c: Crypto, imsi: Bytes, fetch: Fetch, sid: string)
    ensures Step(c, START, InitialEvent(imsi, fetch, sid, {})).0.reauthSessions == map[]
  {
    hide InitialRequest;
  }

  /** What one more event adds to the handlers' run. */
  lemma HandledNext(c: Crypto, v: Env, es: seq<FrontEvent>, i: nat)
    requires i < |es|
    ensures Handled(c, v, es[..i + 1]) == Handled(c, v, es[..i]) + match es[i]
      case Posts(p) =>
        if p.sid == "" || Replays(v, FrontBefore(c, v, es, i), p) then []
        else [Dispatched(v, FrontBefore(c, v, es, i).server, p)]
      case Serves(e) => [e]
      case _ => []
  {
    hide FrontRun;
    hide Replays;
    hide Dispatched;
    assert es[..i + 1][..i] == es[..i];
    assert Handled(c, v, es[..i]) + [] == Handled(c, v, es[..i]);
  }

  lemma ForeignHandled(
    c: Crypto, v: Env, es: seq<FrontEvent>, imsi: Bytes, fetch: Fetch, vectors: HssVectors,
    sid: string, head: string, rest: string)
    requires sid != "" && |es| == 3 && es[0] == Serves(InitialEvent(imsi, fetch, sid, {}))
    requires es[1].Posts? && es[1].p.sid == sid && es[2].Posts? && es[2].p.sid == sid + head
    requires FrontBefore(c, v, es, 1).server.reauthSessions == map[]
    requires Replays(v, FrontBefore(c, v, es, 2), es[2].p)
    ensures forall i :: 0 <= i < |Handled(c, v, es)| && Creates(Handled(c, v, es)[i]).Some? ==>
      Creates(Handled(c, v, es)[i]) == Some(sid)
  {
    hide FrontRun;
    hide Replays;
    hide Handled;
    HandledNext(c, v, es, 0);
    HandledNext(c, v, es, 1);
    HandledNext(c, v, es, 2);
    assert es[..3] == es && es[..0] == [];
    NothingHandled(c, v);
    assert forall i :: 0 <= i < |Handled(c, v, es)| ==>
      Handled(c, v, es)[i] == es[0].e || Handled(c, v, es)[i].EapEvent?;
  }

  lemma NothingHandled(c: Crypto, v: Env)
    ensures Handled(c, v, []) == []
  {
  }
}
