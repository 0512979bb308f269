/** The token service: rows in the database, a write-through cache in front of it. */
module Tokens {
  import opened ByteStrings

  /** Times are nanoseconds since the zero time, which itself is 0. */
  datatype TokenRow = TokenRow(subscriberId: string, tokenType: string, expiresAt: nat, consumed: bool)

  /** The JSON values under "token:..." keys: cached tokens, and the scope records of
      temporary tokens, whose keys are "token:scope:..." . */
  datatype CacheValue =
    | Cached(subscriberId: string, tokenType: string, expiresAt: nat)
    | Scope(scope: string, operationTargets: seq<string>)

  datatype TokenInfo = TokenInfo(tokenValue: string, subscriberId: string, tokenType: string, expiresAt: nat)

  datatype Answer = Valid(info: TokenInfo) | NotFound | DbError

  datatype Ttls = Ttls(fastAuth: nat, temporary: nat, auth: nat)

  datatype TokenState = TokenState(db: map<string, TokenRow>, cache: map<string, CacheValue>)

  /** What one call finds: the time, and whether Redis and the database respond. */
  datatype Circumstances = Circumstances(now: nat, redisUp: bool, dbUp: bool)

  const SECOND: nat := 1_000_000_000
  const TOKEN_TYPE_FAST_AUTH := "fast_auth"
  const TOKEN_TYPE_TEMP := "temporary"

  function CacheKey(tokenValue: string): string { "token:" + tokenValue }

  function TtlFor(ttls: Ttls, tokenType: string): nat {
    if tokenType == TOKEN_TYPE_FAST_AUTH then ttls.fastAuth
    else if tokenType == TOKEN_TYPE_TEMP then ttls.temporary
    else ttls.auth
  }

  /** What is left of a time in a column that keeps only multiples of `tick`. */
  function Stored(t: nat, tick: nat): nat
    requires tick > 0
  {
    t - t % tick
  }

  /** Decoded as a cached token, a scope record has no expiry and reads as the zero time. */
  function CachedExpiry(v: CacheValue): nat {
    match v case Cached(_, _, e) => e case Scope(_, _) => 0
  }

  function Hit(s: TokenState, tokenValue: string, z: Circumstances): Option<CacheValue> {
    if z.redisUp && CacheKey(tokenValue) in s.cache then Some(s.cache[CacheKey(tokenValue)]) else None
  }

  /** The answer of a service that asks the database every time. */
  function DatabaseAnswer(db: map<string, TokenRow>, tokenValue: string, now: nat): Answer {
    if tokenValue !in db || db[tokenValue].expiresAt < now || db[tokenValue].consumed then NotFound
    else
      var row := db[tokenValue];
      Valid(TokenInfo(tokenValue, row.subscriberId, row.tokenType, row.expiresAt))
  }

  function Put(s: TokenState, key: string, v: CacheValue, up: bool): TokenState {
    if up then s.(cache := s.cache[key := v]) else s
  }

  /** Generation: the row, then the cache entry with the untruncated expiry. */
  function Generate(
    s: TokenState, ttls: Ttls, tick: nat,
    subscriberId: string, tokenType: string, tokenValue: string, z: Circumstances):
    (TokenState, Option<TokenInfo>)
    requires tick > 0
  {
    var expiresAt := z.now + TtlFor(ttls, tokenType) * SECOND;
    if !z.dbUp || tokenValue in s.db then (s, None)
    else
      var s1 := s.(db := s.db[tokenValue := TokenRow(subscriberId, tokenType, Stored(expiresAt, tick), false)]);
      (Put(s1, CacheKey(tokenValue), Cached(subscriberId, tokenType, expiresAt), z.redisUp),
       Some(TokenInfo(tokenValue, subscriberId, tokenType, expiresAt)))
  }

  function GenerateTemporary(
    s: TokenState, ttls: Ttls, tick: nat, subscriberId: string, tokenValue: string,
    scope: string, targets: seq<string>, z: Circumstances): (TokenState, Option<TokenInfo>)
    requires tick > 0
  {
    var (s1, info) := Generate(s, ttls, tick, subscriberId, TOKEN_TYPE_TEMP, tokenValue, z);
    if info.None? then (s1, None)
    else (Put(s1, CacheKey("scope:" + tokenValue), Scope(scope, targets), z.redisUp), info)
  }

  function Fallback(s: TokenState, tokenValue: string, z: Circumstances): (TokenState, Answer) {
    if !z.dbUp then (s, DbError)
    else
      match DatabaseAnswer(s.db, tokenValue, z.now)
      case Valid(info) =>
        (if info.expiresAt > z.now
         then Put(s, CacheKey(tokenValue), Cached(info.subscriberId, info.tokenType, info.expiresAt), z.redisUp)
         else s,
         Valid(info))
      case other => (s, other)
  }

  function Validate(s: TokenState, tokenValue: string, z: Circumstances): (TokenState, Answer) {
    match Hit(s, tokenValue, z)
    case Some(v) =>
      if CachedExpiry(v) < z.now then
        Fallback(s.(cache := s.cache - {CacheKey(tokenValue)}), tokenValue, z)
      else
        (s, Valid(Shown(tokenValue, v)))
    case None => Fallback(s, tokenValue, z)
  }

  /** A cache value answered as a token. */
  function Shown(tokenValue: string, v: CacheValue): TokenInfo {
    match v
    case Cached(subscriberId, tokenType, e) => TokenInfo(tokenValue, subscriberId, tokenType, e)
    case Scope(_, _) => TokenInfo(tokenValue, "", "", 0)
  }

  // ---------------------------------------------------------------- the service

  class Service {
    var db: map<string, TokenRow>
    var cache: map<string, CacheValue>
    const ttls: Ttls
    const tick: nat

    constructor (db: map<string, TokenRow>, ttls: Ttls, tick: nat)
      ensures State() == TokenState(db, map[]) && this.ttls == ttls && this.tick == tick
    {
      this.db, this.cache, this.ttls, this.tick := db, map[], ttls, tick;
    }

    ghost function State(): TokenState
      reads this
    {
      TokenState(db, cache)
    }

    method GenerateToken(subscriberId: string, tokenType: string, tokenValue: string, z: Circumstances)
      returns (info: Option<TokenInfo>)
      requires tick > 0
      modifies this
      ensures (State(), info) == Generate(old(State()), ttls, tick, subscriberId, tokenType, tokenValue, z)
    {
      var ttlSeconds;
      if tokenType == TOKEN_TYPE_FAST_AUTH {
        ttlSeconds := ttls.fastAuth;
      } else if tokenType == TOKEN_TYPE_TEMP {
        ttlSeconds := ttls.temporary;
      } else {
        ttlSeconds := ttls.auth;
      }
      var expiresAt := z.now + ttlSeconds * SECOND;
      if !z.dbUp || tokenValue in db { return None; }
      db := db[tokenValue := TokenRow(subscriberId, tokenType, Stored(expiresAt, tick), false)];
      if z.redisUp {
        cache := cache[CacheKey(tokenValue) := Cached(subscriberId, tokenType, expiresAt)];
      }
      info := Some(TokenInfo(tokenValue, subscriberId, tokenType, expiresAt));
    }

    method GenerateTemporaryToken(
      subscriberId: string, tokenValue: string, scope: string, targets: seq<string>, z: Circumstances)
      returns (info: Option<TokenInfo>)
      requires tick > 0
      modifies this
      ensures (State(), info)
        == GenerateTemporary(old(State()), ttls, tick, subscriberId, tokenValue, scope, targets, z)
    {
      info := GenerateToken(subscriberId, TOKEN_TYPE_TEMP, tokenValue, z);
      if info.None? { return; }
      if z.redisUp {
        cache := cache[CacheKey("scope:" + tokenValue) := Scope(scope, targets)];
      }
    }

    /** The cached answer, if it has not expired; an expired entry is deleted. */
    method CheckCache(tokenValue: string, z: Circumstances) returns (info: Option<TokenInfo>)
      modifies this
      ensures db == old(db)
      ensures match Hit(old(State()), tokenValue, z)
        case None => info == None && cache == old(cache)
        case Some(v) =>
          if CachedExpiry(v) < z.now then info == None && cache == old(cache) - {CacheKey(tokenValue)}
          else info == Some(Shown(tokenValue, v)) && cache == old(cache)
    {
      var key := CacheKey(tokenValue);
      if !z.redisUp || key !in cache { return None; }
      var v := cache[key];
      if CachedExpiry(v) < z.now {
        cache := cache - {key};
        return None;
      }
      info := Some(Shown(tokenValue, v));
    }

    method ValidateToken(tokenValue: string, z: Circumstances) returns (r: Answer)
      modifies this
      ensures (State(), r) == Validate(old(State()), tokenValue, z)
    {
      var cached := CheckCache(tokenValue, z);
      if cached.Some? { return Valid(cached.value); }
      if !z.dbUp { return DbError; }
      if tokenValue !in db { return NotFound; }
      var row := db[tokenValue];
      if row.expiresAt < z.now || row.consumed { return NotFound; }
      if row.expiresAt > z.now && z.redisUp {
        cache := cache[CacheKey(tokenValue) := Cached(row.subscriberId, row.tokenType, row.expiresAt)];
      }
      r := Valid(TokenInfo(tokenValue, row.subscriberId, row.tokenType, row.expiresAt));
    }
  }

  // ---------------------------------------------------------------- runs

  datatype TokenEvent =
    | Generates(subscriberId: string, tokenType: string, tokenValue: string, z: Circumstances)
    | GeneratesTemporary(
        subscriberId: string, tokenValue: string, scope: string, targets: seq<string>, z: Circumstances)
    | Validates(tokenValue: string, z: Circumstances)
    | Loses(key: string)

  function TokenStep(s: TokenState, ttls: Ttls, tick: nat, e: TokenEvent): TokenState
    requires tick > 0
  {
    match e
    case Generates(subscriberId, tokenType, tokenValue, z) =>
      Generate(s, ttls, tick, subscriberId, tokenType, tokenValue, z).0
    case GeneratesTemporary(subscriberId, tokenValue, scope, targets, z) =>
      GenerateTemporary(s, ttls, tick, subscriberId, tokenValue, scope, targets, z).0
    case Validates(tokenValue, z) => Validate(s, tokenValue, z).0
    case Loses(key) => s.(cache := s.cache - {key})
  }

  function TokenRun(db: map<string, TokenRow>, ttls: Ttls, tick: nat, es: seq<TokenEvent>): TokenState
    requires tick > 0
  {
    if es == [] then TokenState(db, map[])
    else TokenStep(TokenRun(db, ttls, tick, es[..|es| - 1]), ttls, tick, es[|es| - 1])
  }

  /** A cached token is its unconsumed row, give or take what the column truncates. */
  predicate EntryAgrees(s: TokenState, tick: nat, tokenValue: string)
    requires CacheKey(tokenValue) in s.cache
  {
    match s.cache[CacheKey(tokenValue)]
    case Scope(_, _) => true
    case Cached(subscriberId, tokenType, e) =>
      && tokenValue in s.db
      && var row := s.db[tokenValue];
        row.subscriberId == subscriberId && row.tokenType == tokenType && !row.consumed
        && row.expiresAt <= e < row.expiresAt + tick
  }

  ghost predicate CacheAgrees(s: TokenState, tick: nat) {
    forall v :: CacheKey(v) in s.cache ==> EntryAgrees(s, tick, v)
  }

  lemma KeysDistinct(v: string, w: string)
    requires CacheKey(v) == CacheKey(w)
    ensures v == w
  {
    assert CacheKey(v)[6..] == v && CacheKey(w)[6..] == w;
  }

  lemma PutAgrees(s: TokenState, tick: nat, tokenValue: string, v: CacheValue, up: bool)
    requires CacheAgrees(s, tick)
    requires EntryAgrees(s.(cache := s.cache[CacheKey(tokenValue) := v]), tick, tokenValue)
    ensures CacheAgrees(Put(s, CacheKey(tokenValue), v, up), tick)
  {
    var s' := Put(s, CacheKey(tokenValue), v, up);
    forall w | CacheKey(w) in s'.cache ensures EntryAgrees(s', tick, w) {
      if CacheKey(w) == CacheKey(tokenValue) {
        KeysDistinct(w, tokenValue);
      }
    }
  }

  lemma GenerateAgrees(
    s: TokenState, ttls: Ttls, tick: nat, subscriberId: string, tokenType: string, tokenValue: string, z: Circumstances)
    requires tick > 0 && CacheAgrees(s, tick)
    ensures CacheAgrees(Generate(s, ttls, tick, subscriberId, tokenType, tokenValue, z).0, tick)
  {
    hide CacheKey;
    hide TtlFor;
    if z.dbUp && tokenValue !in s.db {
      var expiresAt := z.now + TtlFor(ttls, tokenType) * SECOND;
      var s1 := s.(db := s.db[tokenValue := TokenRow(subscriberId, tokenType, Stored(expiresAt, tick), false)]);
      assert CacheAgrees(s1, tick) by {
        forall w | CacheKey(w) in s1.cache ensures EntryAgrees(s1, tick, w) {
          assert EntryAgrees(s, tick, w);
        }
      }
      PutAgrees(s1, tick, tokenValue, Cached(subscriberId, tokenType, expiresAt), z.redisUp);
    }
  }

  lemma FallbackAgrees(s: TokenState, tick: nat, tokenValue: string, z: Circumstances)
    requires tick > 0 && CacheAgrees(s, tick)
    ensures CacheAgrees(Fallback(s, tokenValue, z).0, tick)
  {
    hide CacheKey;
    var answer := DatabaseAnswer(s.db, tokenValue, z.now);
    if z.dbUp && answer.Valid? && answer.info.expiresAt > z.now {
      PutAgrees(s, tick, tokenValue,
        Cached(answer.info.subscriberId, answer.info.tokenType, answer.info.expiresAt), z.redisUp);
    }
  }

  lemma LossAgrees(s: TokenState, tick: nat, key: string)
    requires CacheAgrees(s, tick)
    ensures CacheAgrees(s.(cache := s.cache - {key}), tick)
  {
    var s' := s.(cache := s.cache - {key});
    forall w | CacheKey(w) in s'.cache ensures EntryAgrees(s', tick, w) {
      assert EntryAgrees(s, tick, w);
    }
  }

  lemma StepAgrees(s: TokenState, ttls: Ttls, tick: nat, e: TokenEvent)
    requires tick > 0 && CacheAgrees(s, tick)
    ensures CacheAgrees(TokenStep(s, ttls, tick, e), tick)
  {
    hide CacheAgrees;
    hide CacheKey;
    hide Generate;
    hide Fallback;
    match e
    case Generates(subscriberId, tokenType, tokenValue, z) =>
      GenerateAgrees(s, ttls, tick, subscriberId, tokenType, tokenValue, z);
    case GeneratesTemporary(subscriberId, tokenValue, scope, targets, z) =>
      GenerateAgrees(s, ttls, tick, subscriberId, TOKEN_TYPE_TEMP, tokenValue, z);
      var s1 := Generate(s, ttls, tick, subscriberId, TOKEN_TYPE_TEMP, tokenValue, z).0;
      PutAgrees(s1, tick, "scope:" + tokenValue, Scope(scope, targets), z.redisUp);
    case Validates(tokenValue, z) =>
      FallbackAgrees(s, tick, tokenValue, z);
      LossAgrees(s, tick, CacheKey(tokenValue));
      FallbackAgrees(s.(cache := s.cache - {CacheKey(tokenValue)}), tick, tokenValue, z);
    case Loses(key) =>
      LossAgrees(s, tick, key);
  }

  lemma {:induction false} RunAgrees(db: map<string, TokenRow>, ttls: Ttls, tick: nat, es: seq<TokenEvent>)
    requires tick > 0
    ensures CacheAgrees(TokenRun(db, ttls, tick, es), tick)
  {
    hide TokenStep;
    if es != [] {
      var n := |es| - 1;
      RunAgrees(db, ttls, tick, es[..n]);
      StepAgrees(TokenRun(db, ttls, tick, es[..n]), ttls, tick, es[n]);
    }
  }

  /** The instants at which a cached expiry is still good and the truncated one is not. */
  predicate InTruncation(s: TokenState, tokenValue: string, z: Circumstances) {
    && Hit(s, tokenValue, z).Some? && tokenValue in s.db
    && s.db[tokenValue].expiresAt < z.now <= CachedExpiry(Hit(s, tokenValue, z).value)
  }

  /** The same decision, on the same subscriber and type. */
  predicate SameAnswer(a: Answer, b: Answer) {
    || (a.NotFound? && b.NotFound?)
    || (a.Valid? && b.Valid? && a.info.tokenValue == b.info.tokenValue
        && a.info.subscriberId == b.info.subscriberId && a.info.tokenType == b.info.tokenType)
  }

  /** In every run, for every string, the cached service decides as the database alone
      would, except exactly in the truncated instants. */
  lemma ValidatesLikeDatabase(
    db: map<string, TokenRow>, ttls: Ttls, tick: nat, es: seq<TokenEvent>, tokenValue: string, z: Circumstances)
    requires tick > 0 && z.dbUp && z.now > 0
    ensures var s := TokenRun(db, ttls, tick, es);
      var answer, plain := Validate(s, tokenValue, z).1, DatabaseAnswer(s.db, tokenValue, z.now);
      && (SameAnswer(answer, plain) <==> !InTruncation(s, tokenValue, z))
      && (answer.Valid? && plain.Valid? ==>
        plain.info.expiresAt <= answer.info.expiresAt < plain.info.expiresAt + tick)
  {
    hide CacheKey;
    hide TokenRun;
    RunAgrees(db, ttls, tick, es);
    var s := TokenRun(db, ttls, tick, es);
    if Hit(s, tokenValue, z).Some? {
      assert EntryAgrees(s, tick, tokenValue);
    }
  }

  /** With a column as fine as the clock the two services never differ. */
  lemma ExactWithoutTruncation(
    db: map<string, TokenRow>, ttls: Ttls, es: seq<TokenEvent>, tokenValue: string, z: Circumstances)
    requires z.dbUp && z.now > 0
    ensures var s := TokenRun(db, ttls, 1, es);
      Validate(s, tokenValue, z).1 == DatabaseAnswer(s.db, tokenValue, z.now)
  {
    hide CacheKey;
    hide TokenRun;
    RunAgrees(db, ttls, 1, es);
    var s := TokenRun(db, ttls, 1, es);
    if Hit(s, tokenValue, z).Some? {
      assert EntryAgrees(s, 1, tokenValue);
    }
  }

  /** A microsecond column: one second after a token for one second was made at 1 ns, the
      cache still answers and the database does not. */
  lemma TruncationShows()
    ensures var z0, z := Circumstances(1, true, true), Circumstances(SECOND + 1, true, true);
      var s := TokenRun(map[], Ttls(1, 1, 1), 1000, [Generates("s", "auth", "t", z0)]);
      Validate(s, "t", z).1.Valid? && DatabaseAnswer(s.db, "t", z.now).NotFound?
  {
    var z0 := Circumstances(1, true, true);
    var es := [Generates("s", "auth", "t", z0)];
    assert es[..0] == [];
    assert TokenRun(map[], Ttls(1, 1, 1), 1000, es[..0]) == TokenState(map[], map[]);
  }

  // ---------------------------------------------------------------- a token's life

  /** The subscriber and type a token is generated for, if the event generates it. */
  predicate Makes(e: TokenEvent, subscriberId: string, tokenType: string, tokenValue: string) {
    || (e.Generates? && e.subscriberId == subscriberId && e.tokenType == tokenType && e.tokenValue == tokenValue)
    || (e.GeneratesTemporary? && e.subscriberId == subscriberId && tokenType == "temporary"
        && e.tokenValue == tokenValue)
  }

  /** Rows are only ever added. */
  lemma RowsStay(s: TokenState, ttls: Ttls, tick: nat, e: TokenEvent, tokenValue: string)
    requires tick > 0 && tokenValue in s.db
    ensures tokenValue in TokenStep(s, ttls, tick, e).db
      && TokenStep(s, ttls, tick, e).db[tokenValue] == s.db[tokenValue]
  {
    hide CacheKey;
    hide TtlFor;
    hide DatabaseAnswer;
  }

  lemma {:induction false} RowsStayOn(
    db: map<string, TokenRow>, ttls: Ttls, tick: nat, es: seq<TokenEvent>, i: nat, tokenValue: string)
    requires tick > 0 && i <= |es| && tokenValue in TokenRun(db, ttls, tick, es[..i]).db
    ensures tokenValue in TokenRun(db, ttls, tick, es).db
      && TokenRun(db, ttls, tick, es).db[tokenValue] == TokenRun(db, ttls, tick, es[..i]).db[tokenValue]
  {
    hide TokenStep;
    if i < |es| {
      var n := |es| - 1;
      assert es[..n][..i] == es[..i];
      RowsStayOn(db, ttls, tick, es[..n], i, tokenValue);
      RowsStay(TokenRun(db, ttls, tick, es[..n]), ttls, tick, es[n], tokenValue);
    } else {
      assert es[..i] == es;
    }
  }

  /** When a token made now for this type stops being good. */
  function Ends(ttls: Ttls, tokenType: string, now: nat): nat {
    now + 1_000_000_000 * (if tokenType == "fast_auth" then ttls.fastAuth
      else if tokenType == "temporary" then ttls.temporary else ttls.auth)
  }

  lemma MadeRow(
    s: TokenState, ttls: Ttls, tick: nat, e: TokenEvent,
    subscriberId: string, tokenType: string, tokenValue: string)
    requires tick > 0 && Makes(e, subscriberId, tokenType, tokenValue) && e.z.dbUp && tokenValue !in s.db
    ensures var end, s' := Ends(ttls, tokenType, e.z.now), TokenStep(s, ttls, tick, e);
      && tokenValue in s'.db
      && s'.db[tokenValue] == TokenRow(subscriberId, tokenType, end - end % tick, false)
  {
    hide CacheKey;
  }

  /** In every run, a token generated anywhere validates to the subscriber and the type it was
      generated for until its time to live ends (to the precision of the column), and to
      nothing once a tick has passed. */
  lemma GeneratedValidates(
    db: map<string, TokenRow>, ttls: Ttls, tick: nat, es: seq<TokenEvent>, i: nat,
    subscriberId: string, tokenType: string, tokenValue: string, z: Circumstances)
    requires tick > 0 && i < |es| && Makes(es[i], subscriberId, tokenType, tokenValue) && es[i].z.dbUp
    requires tokenValue !in TokenRun(db, ttls, tick, es[..i]).db && z.dbUp && z.now > 0
    ensures var end := Ends(ttls, tokenType, es[i].z.now);
      var answer := Validate(TokenRun(db, ttls, tick, es), tokenValue, z).1;
      && (z.now <= end - end % tick ==>
        answer.Valid? && answer.info.tokenValue == tokenValue
        && answer.info.subscriberId == subscriberId && answer.info.tokenType == tokenType)
      && (z.now >= end - end % tick + tick ==> answer == NotFound)
  {
    hide CacheKey;
    hide TokenRun;
    hide TokenStep;
    hide Ends;
    hide Makes;
    var made := es[..i + 1];
    assert made[..i] == es[..i];
    MadeRow(TokenRun(db, ttls, tick, es[..i]), ttls, tick, es[i], subscriberId, tokenType, tokenValue);
    RunOne(db, ttls, tick, made);
    RowsStayOn(db, ttls, tick, es, i + 1, tokenValue);
    RunAgrees(db, ttls, tick, es);
    var s := TokenRun(db, ttls, tick, es);
    if Hit(s, tokenValue, z).Some? {
      assert EntryAgrees(s, tick, tokenValue);
    }
  }

  lemma RunOne(db: map<string, TokenRow>, ttls: Ttls, tick: nat, es: seq<TokenEvent>)
    requires tick > 0 && es != []
    ensures TokenRun(db, ttls, tick, es)
      == TokenStep(TokenRun(db, ttls, tick, es[..|es| - 1]), ttls, tick, es[|es| - 1])
  {
    hide TokenStep;
  }

  /** The scope and targets of a temporary token are kept under "token:scope:" and the token. */
  lemma ScopeKept(
    s: TokenState, ttls: Ttls, tick: nat, subscriberId: string, tokenValue: string,
    scope: string, targets: seq<string>, z: Circumstances)
    requires tick > 0 && z.dbUp && z.redisUp && tokenValue !in s.db
    ensures var s' := GenerateTemporary(s, ttls, tick, subscriberId, tokenValue, scope, targets, z).0;
      && "token:scope:" + tokenValue in s'.cache
      && s'.cache["token:scope:" + tokenValue] == Scope(scope, targets)
  {
    assert "token:" + ("scope:" + tokenValue) == "token:scope:" + tokenValue;
  }

  /** A validation that falls back to the database caches the row again while it has time
      left, and drops an expired entry. */
  lemma ValidationCaches(s: TokenState, tokenValue: string, z: Circumstances)
    requires z.redisUp && z.dbUp
    ensures var (s', r) := Validate(s, tokenValue, z);
      && s'.db == s.db
      && (r.Valid? && Hit(s, tokenValue, z).None? && r.info.expiresAt > z.now ==>
        Hit(s', tokenValue, z) == Some(Cached(r.info.subscriberId, r.info.tokenType, r.info.expiresAt)))
      && (r.NotFound? ==> Hit(s', tokenValue, z).None?)
  {
    hide CacheKey;
  }
}
