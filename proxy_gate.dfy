/**
 * The edge authentication gate (`proxy.js`): for each request, Allow,
 * redirect to the login entry point or redirect to the panel, refreshing the
 * id and access tokens when they no longer verify. The verification of both
 * tokens and the refresh exchange are oracles (`verifyOk`, `refresh`); the
 * validation cache is the shared `ValidationCache` object; the clock is `now`.
 *
 * `Decide` is the decision chain as a function of the request, the cache
 * contents and the two oracle answers; `Proxy` is the same chain as a method
 * that reads and writes the cache object, proved to agree with `Decide`. The
 * lemmas state what the gate promises about `Decide`.
 */
module ProxyGate {
  import opened Wrappers
  import opened Text
  import opened AuthCookies
  import opened TokenCache

  /** How many leading characters of each token the cache fingerprint keeps. */
  const FingerprintWidth: nat := 50

  /** `maxAge` of a refreshed cookie when the grant carries no (or a zero) `expires_in`. */
  const DefaultMaxAge: int := 3600

  /**
   * How the cache key is derived from the token pair: `Prefix50` is what the
   * source does; `FullPair` is an injective key over the whole pair.
   */
  datatype KeyScheme = Prefix50 | FullPair

  /** The template-literal rendering of `token?.substring(0, 50)`: an absent token renders as "undefined". */
  function PrefixPart(t: Option<string>): string {
    match t
    case None => "undefined"
    case Some(s) => Take(s, FingerprintWidth)
  }

  /** A self-delimiting rendering of an optional token: "-" when absent, else its length, ':' and the token. */
  function FullPart(t: Option<string>): string {
    match t
    case None => "-"
    case Some(s) => NatToDecimal(|s|) + ([':'] + s)
  }

  function CacheKey(scheme: KeyScheme, id: Option<string>, access: Option<string>): string {
    match scheme
    case Prefix50 => PrefixPart(id) + "_" + PrefixPart(access)
    case FullPair => FullPart(id) + FullPart(access)
  }

  /** `data.expires_in || 3600`. */
  function MaxAge(expiresIn: Option<int>): int {
    if expiresIn.Some? && expiresIn.value != 0 then expiresIn.value else DefaultMaxAge
  }

  /** The two cookies the refresh path writes, access token first. */
  function RefreshCookies(clientId: string, username: string, g: Grant): seq<SetCookie> {
    [ SetCookie(TokenCookie(clientId, username, AccessToken), g.accessToken, true, Some(false), Some("lax"), Some(MaxAge(g.expiresIn))),
      SetCookie(TokenCookie(clientId, username, IdToken), g.idToken, true, Some(false), Some("lax"), Some(MaxAge(g.expiresIn))) ]
  }

  /** The gate's answer, the cookies written on the response, and which remote calls were made. */
  datatype Outcome = Outcome(decision: Decision, cookies: seq<SetCookie>, calledVerify: bool, calledRefresh: bool)

  datatype GateStep = GateStep(outcome: Outcome, cache: map<string, Entry>)

  function Username(clientId: string, req: Request): Option<string> {
    CookieValue(req, LastAuthUserCookie(clientId))
  }

  function Token(clientId: string, req: Request, kind: TokenKind): Option<string> {
    CookieValue(req, TokenCookie(clientId, Username(clientId, req).GetOr(""), kind))
  }

  /** The cache key of the pair the request carries. */
  function RequestKey(scheme: KeyScheme, clientId: string, req: Request): string {
    CacheKey(scheme, Token(clientId, req, IdToken), Token(clientId, req, AccessToken))
  }

  /** Both id and access tokens are present and non-empty, so the gate verifies them. */
  predicate BothTokens(clientId: string, req: Request) {
    Truthy(Token(clientId, req, IdToken)) && Truthy(Token(clientId, req, AccessToken))
  }

  /** The decision chain of `proxy`, with the cache contents before and after. */
  function Decide(scheme: KeyScheme, clientId: string, req: Request, cache: map<string, Entry>, now: int,
                  verifyOk: bool, refresh: Option<Grant>): GateStep
  {
    var user := Username(clientId, req);
    if req.path == LoginPath then
      GateStep(Outcome(if Truthy(user) then RedirectToPanel else Allow, [], false, false), cache)
    else if !Truthy(user) || !Truthy(Token(clientId, req, RefreshToken)) then
      GateStep(Outcome(RedirectToLogin, [], false, false), cache)
    else
      var key := RequestKey(scheme, clientId, req);
      if Lookup(cache, key, now) == Some(true) then
        GateStep(Outcome(Allow, [], false, false), AfterLookup(cache, key, now))
      else
        AfterMiss(scheme, clientId, user.value, BothTokens(clientId, req), key, AfterLookup(cache, key, now), now,
                  verifyOk, refresh)
  }

  /**
   * The rest of the chain once the cache has not vouched for the pair: verify
   * when both tokens are there, otherwise (or on failure) refresh.
   */
  function AfterMiss(scheme: KeyScheme, clientId: string, username: string, both: bool, key: string,
                     cache: map<string, Entry>, now: int, verifyOk: bool, refresh: Option<Grant>): GateStep
  {
    if both && verifyOk then
      GateStep(Outcome(Allow, [], true, false), AfterStore(cache, key, true, now))
    else
      var afterVerify := if both then AfterStore(cache, key, false, now) else cache;
      match refresh
      case None =>
        GateStep(Outcome(RedirectToLogin, [], both, true), afterVerify)
      case Some(g) =>
        GateStep(Outcome(Allow, RefreshCookies(clientId, username, g), both, true),
                 AfterStore(afterVerify, CacheKey(scheme, Some(g.idToken), Some(g.accessToken)), true, now))
  }

  /** `proxy`: the decision chain run against the cache object. */
  method Proxy(scheme: KeyScheme, clientId: string, req: Request, cache: ValidationCache, now: int,
               verifyOk: bool, refresh: Option<Grant>) returns (out: Outcome)
    modifies cache
    ensures GateStep(out, cache.entries) == Decide(scheme, clientId, req, old(cache.entries), now, verifyOk, refresh)
  {
    if req.path == LoginPath {
      var user := CookieValue(req, LastAuthUserCookie(clientId));
      if user.Some? && user.value != "" {
        return Outcome(RedirectToPanel, [], false, false);
      }
      return Outcome(Allow, [], false, false);
    }
    var user := CookieValue(req, LastAuthUserCookie(clientId));
    if !(user.Some? && user.value != "") {
      return Outcome(RedirectToLogin, [], false, false);
    }
    var username := user.value;
    var refreshToken := CookieValue(req, TokenCookie(clientId, username, RefreshToken));
    if !(refreshToken.Some? && refreshToken.value != "") {
      return Outcome(RedirectToLogin, [], false, false);
    }
    var idToken := CookieValue(req, TokenCookie(clientId, username, IdToken));
    var accessToken := CookieValue(req, TokenCookie(clientId, username, AccessToken));
    var cacheKey := CacheKey(scheme, idToken, accessToken);
    assert idToken == Token(clientId, req, IdToken) && accessToken == Token(clientId, req, AccessToken);
    assert cacheKey == RequestKey(scheme, clientId, req);
    ghost var afterRead := AfterLookup(cache.entries, cacheKey, now);
    var cached := cache.Get(cacheKey, now);
    if cached == Some(true) {
      return Outcome(Allow, [], false, false);
    }
    ghost var both := Truthy(idToken) && Truthy(accessToken);
    assert both == BothTokens(clientId, req);
    assert Decide(scheme, clientId, req, old(cache.entries), now, verifyOk, refresh)
        == AfterMiss(scheme, clientId, username, both, cacheKey, cache.entries, now, verifyOk, refresh);
    var verified := false;
    if Truthy(idToken) && Truthy(accessToken) {
      verified := true;
      if verifyOk {
        cache.Set(cacheKey, true, now);
        return Outcome(Allow, [], true, false);
      }
      cache.Set(cacheKey, false, now);
    }
    if refresh.None? {
      return Outcome(RedirectToLogin, [], verified, true);
    }
    var data := refresh.value;
    idToken, accessToken := Some(data.idToken), Some(data.accessToken);
    var cookies: seq<SetCookie> := [];
    cookies := cookies + [SetCookie(TokenCookie(clientId, username, AccessToken), data.accessToken,
                                    true, Some(false), Some("lax"), Some(MaxAge(data.expiresIn)))];
    cookies := cookies + [SetCookie(TokenCookie(clientId, username, IdToken), data.idToken,
                                    true, Some(false), Some("lax"), Some(MaxAge(data.expiresIn)))];
    assert cookies == RefreshCookies(clientId, username, data);
    var newCacheKey := CacheKey(scheme, idToken, accessToken);
    cache.Set(newCacheKey, true, now);
    return Outcome(Allow, cookies, verified, true);
  }

  // ---------------------------------------------------------------------------
  // What the gate promises

  /** On the login entry point a username cookie sends the visitor to the panel; without one the request passes. */
  lemma LoginPathDecision(scheme: KeyScheme, clientId: string, req: Request, cache: map<string, Entry>, now: int,
                          verifyOk: bool, refresh: Option<Grant>)
    requires req.path == LoginPath
    ensures var step := Decide(scheme, clientId, req, cache, now, verifyOk, refresh);
            && step.outcome.decision == (if Truthy(Username(clientId, req)) then RedirectToPanel else Allow)
            && step.outcome.cookies == [] && !step.outcome.calledVerify && !step.outcome.calledRefresh
            && step.cache == cache
  {
  }

  /** Elsewhere, a missing username or refresh-token cookie redirects to login, touching nothing. */
  lemma MissingCredentialRedirects(scheme: KeyScheme, clientId: string, req: Request, cache: map<string, Entry>, now: int,
                                   verifyOk: bool, refresh: Option<Grant>)
    requires req.path != LoginPath
    requires !Truthy(Username(clientId, req)) || !Truthy(Token(clientId, req, RefreshToken))
    ensures Decide(scheme, clientId, req, cache, now, verifyOk, refresh)
            == GateStep(Outcome(RedirectToLogin, [], false, false), cache)
  {
  }

  /**
   * Never fails open: off the login path the gate answers Allow exactly when
   * the username and refresh-token cookies are present and either the cache
   * holds a live positive entry for the pair, or both tokens are present and
   * verify, or the refresh exchange succeeds. It never redirects to the panel there.
   */
  lemma AllowExactlyWhenAuthenticated(scheme: KeyScheme, clientId: string, req: Request, cache: map<string, Entry>,
                                      now: int, verifyOk: bool, refresh: Option<Grant>)
    requires req.path != LoginPath
    ensures var d := Decide(scheme, clientId, req, cache, now, verifyOk, refresh).outcome.decision;
            && d != RedirectToPanel
            && (d == Allow <==>
                  && Truthy(Username(clientId, req))
                  && Truthy(Token(clientId, req, RefreshToken))
                  && (|| Lookup(cache, RequestKey(scheme, clientId, req), now) == Some(true)
                      || (BothTokens(clientId, req) && verifyOk)
                      || refresh.Some?))
  {
  }

  /** A live positive cache entry allows the request with no remote call, no cookie and no cache change. */
  lemma CacheHitSkipsRemoteCalls(scheme: KeyScheme, clientId: string, req: Request, cache: map<string, Entry>, now: int,
                                 verifyOk: bool, refresh: Option<Grant>)
    requires req.path != LoginPath
    requires Truthy(Username(clientId, req)) && Truthy(Token(clientId, req, RefreshToken))
    requires RequestKey(scheme, clientId, req) in cache
    requires cache[RequestKey(scheme, clientId, req)].valid
    requires now < cache[RequestKey(scheme, clientId, req)].expiresAt
    ensures Decide(scheme, clientId, req, cache, now, verifyOk, refresh)
            == GateStep(Outcome(Allow, [], false, false), cache)
  {
  }

  /** A pair that verifies is allowed without refresh or cookie writes and is cached as valid for five minutes. */
  lemma VerifiedPairIsCached(scheme: KeyScheme, clientId: string, req: Request, cache: map<string, Entry>, now: int,
                             refresh: Option<Grant>, later: int)
    requires req.path != LoginPath
    requires Truthy(Username(clientId, req)) && Truthy(Token(clientId, req, RefreshToken))
    requires BothTokens(clientId, req)
    requires Lookup(cache, RequestKey(scheme, clientId, req), now) != Some(true)
    ensures var step := Decide(scheme, clientId, req, cache, now, true, refresh);
            && step.outcome.decision == Allow && step.outcome.cookies == [] && !step.outcome.calledRefresh
            && Lookup(step.cache, RequestKey(scheme, clientId, req), later)
               == (if later < now + CacheTtl then Some(true) else None)
  {
    var key := RequestKey(scheme, clientId, req);
    StoreThenLookup(AfterLookup(cache, key, now), key, true, now, later);
  }

  /**
   * When the pair is not a cache hit and does not verify, a successful refresh
   * allows the request, writes exactly the access and id cookies (secure, not
   * HTTP-only, lax, `expires_in` or 3600 seconds), and caches the new pair.
   * A failed refresh redirects to login and writes no cookie.
   */
  lemma RefreshPath(scheme: KeyScheme, clientId: string, req: Request, cache: map<string, Entry>, now: int,
                    verifyOk: bool, refresh: Option<Grant>)
    requires req.path != LoginPath
    requires Truthy(Username(clientId, req)) && Truthy(Token(clientId, req, RefreshToken))
    requires Lookup(cache, RequestKey(scheme, clientId, req), now) != Some(true)
    requires !(BothTokens(clientId, req) && verifyOk)
    ensures var step := Decide(scheme, clientId, req, cache, now, verifyOk, refresh);
            && step.outcome.calledRefresh
            && step.outcome.calledVerify == BothTokens(clientId, req)
            && (refresh.None? ==> step.outcome.decision == RedirectToLogin && step.outcome.cookies == [])
            && (refresh.Some? ==>
                  var g := refresh.value;
                  var user := Username(clientId, req).value;
                  && step.outcome.decision == Allow
                  && |step.outcome.cookies| == 2
                  && step.outcome.cookies[0].name == TokenCookie(clientId, user, AccessToken)
                  && step.outcome.cookies[0].value == g.accessToken
                  && step.outcome.cookies[1].name == TokenCookie(clientId, user, IdToken)
                  && step.outcome.cookies[1].value == g.idToken
                  && (forall c :: c in step.outcome.cookies ==>
                        c.secure && c.httpOnly == Some(false) && c.sameSite == Some("lax")
                        && c.maxAge == Some(if g.expiresIn.Some? && g.expiresIn.value != 0 then g.expiresIn.value else 3600))
                  && Lookup(step.cache, CacheKey(scheme, Some(g.idToken), Some(g.accessToken)), now) == Some(true))
  {
    var key := RequestKey(scheme, clientId, req);
    var afterRead := AfterLookup(cache, key, now);
    var both := BothTokens(clientId, req);
    var afterVerify := if both then AfterStore(afterRead, key, false, now) else afterRead;
    assert Decide(scheme, clientId, req, cache, now, verifyOk, refresh)
        == AfterMiss(scheme, clientId, Username(clientId, req).value, both, key, afterRead, now, verifyOk, refresh);
    if refresh.Some? {
      var g := refresh.value;
      StoreThenLookup(afterVerify, CacheKey(scheme, Some(g.idToken), Some(g.accessToken)), true, now, now);
    }
  }

  /**
   * The negative cache entry is inert: whatever a live `valid: false` entry
   * for the request's pair, the outcome is the one the gate gives with no
   * entry for that pair at all.
   */
  lemma NegativeEntryIsInert(scheme: KeyScheme, clientId: string, req: Request, cache: map<string, Entry>, now: int,
                             verifyOk: bool, refresh: Option<Grant>)
    requires RequestKey(scheme, clientId, req) in cache
    requires !cache[RequestKey(scheme, clientId, req)].valid
    ensures Decide(scheme, clientId, req, cache, now, verifyOk, refresh).outcome
            == Decide(scheme, clientId, req, cache - {RequestKey(scheme, clientId, req)}, now, verifyOk, refresh).outcome
  {
    var key := RequestKey(scheme, clientId, req);
    assert Lookup(cache, key, now) != Some(true);
    assert Lookup(cache - {key}, key, now) == None;
  }

  /**
   * After a successful refresh, the next request by the same user bearing the
   * newly issued pair within five minutes is a cache hit: Allow, with no
   * verification, no refresh and no cookie.
   */
  lemma RefreshedPairIsCacheHit(scheme: KeyScheme, clientId: string, req: Request, cache: map<string, Entry>, now: int,
                                verifyOk: bool, g: Grant, next: Request, later: int, verifyOk': bool,
                                refresh': Option<Grant>)
    requires req.path != LoginPath
    requires Truthy(Username(clientId, req)) && Truthy(Token(clientId, req, RefreshToken))
    requires Lookup(cache, RequestKey(scheme, clientId, req), now) != Some(true)
    requires !(BothTokens(clientId, req) && verifyOk)
    requires next.path != LoginPath
    requires Username(clientId, next) == Username(clientId, req)
    requires Truthy(Token(clientId, next, RefreshToken))
    requires Token(clientId, next, IdToken) == Some(g.idToken)
    requires Token(clientId, next, AccessToken) == Some(g.accessToken)
    requires later < now + CacheTtl
    ensures var first := Decide(scheme, clientId, req, cache, now, verifyOk, Some(g));
            Decide(scheme, clientId, next, first.cache, later, verifyOk', refresh').outcome
            == Outcome(Allow, [], false, false)
  {
    var key := RequestKey(scheme, clientId, req);
    var afterRead := AfterLookup(cache, key, now);
    var afterVerify := if BothTokens(clientId, req) then AfterStore(afterRead, key, false, now) else afterRead;
    StoreThenLookup(afterVerify, CacheKey(scheme, Some(g.idToken), Some(g.accessToken)), true, now, later);
  }

  // ---------------------------------------------------------------------------
  // The cache key and what a cache hit vouches for

  /** The pair a step vouches for: the pair that verified, or the pair the refresh issued. */
  function NewlyAuthorized(scheme: KeyScheme, clientId: string, req: Request, cache: map<string, Entry>, now: int,
                           verifyOk: bool, refresh: Option<Grant>): set<(Option<string>, Option<string>)>
  {
    var pair := (Token(clientId, req, IdToken), Token(clientId, req, AccessToken));
    var step := Decide(scheme, clientId, req, cache, now, verifyOk, refresh);
    if req.path == LoginPath || step.outcome.decision != Allow then {}
    else if step.outcome.calledVerify && !step.outcome.calledRefresh then {pair}
    else if step.outcome.calledRefresh && refresh.Some? then {(Some(refresh.value.idToken), Some(refresh.value.accessToken))}
    else {}
  }

  /** Every positive entry of the cache is the key of some pair in `authorized`. */
  ghost predicate PositiveEntriesAuthorized(scheme: KeyScheme, cache: map<string, Entry>,
                                            authorized: set<(Option<string>, Option<string>)>)
  {
    forall k :: k in cache && cache[k].valid ==>
      exists p :: p in authorized && CacheKey(scheme, p.0, p.1) == k
  }

  lemma AuthorizedGrows(scheme: KeyScheme, m: map<string, Entry>, a: set<(Option<string>, Option<string>)>,
                        b: set<(Option<string>, Option<string>)>)
    requires PositiveEntriesAuthorized(scheme, m, a) && a <= b
    ensures PositiveEntriesAuthorized(scheme, m, b)
  {
  }

  /** Reading the cache, or storing a flag whose positive value is vouched for, keeps entries accounted for. */
  lemma CacheOpsKeepAuthorized(scheme: KeyScheme, m: map<string, Entry>, key: string, valid: bool, now: int,
                               a: set<(Option<string>, Option<string>)>)
    requires PositiveEntriesAuthorized(scheme, m, a)
    requires valid ==> exists p :: p in a && CacheKey(scheme, p.0, p.1) == key
    ensures PositiveEntriesAuthorized(scheme, AfterLookup(m, key, now), a)
    ensures PositiveEntriesAuthorized(scheme, AfterStore(m, key, valid, now), a)
  {
    StoreKeepsOthers(m, key, valid, now);
    StoreThenLookup(m, key, valid, now, now);
  }

  /** Each request keeps the cache's positive entries accounted for by verified or refreshed pairs. */
  lemma DecideKeepsEntriesAuthorized(scheme: KeyScheme, clientId: string, req: Request, cache: map<string, Entry>,
                                     now: int, verifyOk: bool, refresh: Option<Grant>,
                                     authorized: set<(Option<string>, Option<string>)>)
    requires PositiveEntriesAuthorized(scheme, cache, authorized)
    ensures PositiveEntriesAuthorized(scheme, Decide(scheme, clientId, req, cache, now, verifyOk, refresh).cache,
                                      authorized + NewlyAuthorized(scheme, clientId, req, cache, now, verifyOk, refresh))
  {
    var all := authorized + NewlyAuthorized(scheme, clientId, req, cache, now, verifyOk, refresh);
    AuthorizedGrows(scheme, cache, authorized, all);
    if req.path != LoginPath && Truthy(Username(clientId, req)) && Truthy(Token(clientId, req, RefreshToken)) {
      var pair := (Token(clientId, req, IdToken), Token(clientId, req, AccessToken));
      var key := RequestKey(scheme, clientId, req);
      var afterRead := AfterLookup(cache, key, now);
      CacheOpsKeepAuthorized(scheme, cache, key, false, now, all);
      if Lookup(cache, key, now) != Some(true) {
        var both := BothTokens(clientId, req);
        if both && verifyOk {
          assert pair in all;
          CacheOpsKeepAuthorized(scheme, afterRead, key, true, now, all);
        } else {
          var afterVerify := if both then AfterStore(afterRead, key, false, now) else afterRead;
          CacheOpsKeepAuthorized(scheme, afterRead, key, false, now, all);
          if refresh.Some? {
            var g := refresh.value;
            var newPair := (Some(g.idToken), Some(g.accessToken));
            assert newPair in all;
            CacheOpsKeepAuthorized(scheme, afterVerify, CacheKey(scheme, newPair.0, newPair.1), true, now, all);
          }
        }
      }
    }
  }

  /** A digit string followed by ':' is read back unambiguously. */
  lemma DigitsColonUnique(ds: string, dt: string, u: string, v: string)
    requires AllDigits(ds) && AllDigits(dt)
    requires ds + ([':'] + u) == dt + ([':'] + v)
    ensures ds == dt && u == v
  {
    var w := ds + ([':'] + u);
    assert w[|ds|] == ':';
    assert w[|dt|] == (dt + ([':'] + v))[|dt|] == ':';
    if |ds| < |dt| {
      assert false;
    } else if |dt| < |ds| {
      assert false;
    }
    assert ds == w[..|ds|] == dt;
    assert u == w[|ds| + 1..] == v;
  }

  /** `FullPart` starts with '-' exactly for an absent token. */
  lemma FullPartHead(t: Option<string>)
    ensures |FullPart(t)| > 0
    ensures FullPart(t)[0] == '-' <==> t.None?
  {
    if t.Some? {
      assert FullPart(t)[0] == NatToDecimal(|t.value|)[0];
    }
  }

  /** Two length-prefixed tokens followed by anything are the same token followed by the same rest. */
  lemma LengthPrefixedUnique(s: string, t: string, x: string, y: string)
    requires FullPart(Some(s)) + x == FullPart(Some(t)) + y
    ensures s == t && x == y
  {
    var ds, dt := NatToDecimal(|s|), NatToDecimal(|t|);
    Associative(ds, [':'] + s, x);
    Associative([':'], s, x);
    Associative(dt, [':'] + t, y);
    Associative([':'], t, y);
    DigitsColonUnique(ds, dt, s + x, t + y);
    assert |s| == |t| by {
      DecimalRoundTrip(|s|);
      DecimalRoundTrip(|t|);
    }
    SameLengthSplit(s, t, x, y);
  }

  lemma Associative(a: string, b: string, c: string)
    ensures (a + b) + c == a + (b + c)
  {
  }

  lemma SameLengthSplit(s: string, t: string, x: string, y: string)
    requires s + x == t + y && |s| == |t|
    ensures s == t && x == y
  {
    assert s == (s + x)[..|s|];
    assert t == (t + y)[..|t|];
    assert x == (s + x)[|s|..];
    assert y == (t + y)[|t|..];
  }

  /** `FullPart` is self-delimiting: what follows it is determined too. */
  lemma FullPartUnique(a: Option<string>, b: Option<string>, x: string, y: string)
    requires FullPart(a) + x == FullPart(b) + y
    ensures a == b && x == y
  {
    FullPartHead(a);
    FullPartHead(b);
    var w := FullPart(a) + x;
    assert w[0] == FullPart(a)[0];
    assert w[0] == (FullPart(b) + y)[0] == FullPart(b)[0];
    if a.None? && b.None? {
      assert x == w[1..] == y;
    } else if a.Some? && b.Some? {
      LengthPrefixedUnique(a.value, b.value, x, y);
    }
  }

  /** The full-pair key tells pairs apart. */
  lemma FullKeyInjective(p: (Option<string>, Option<string>), q: (Option<string>, Option<string>))
    requires CacheKey(FullPair, p.0, p.1) == CacheKey(FullPair, q.0, q.1)
    ensures p == q
  {
    FullPartUnique(p.0, q.0, FullPart(p.1), FullPart(q.1));
    assert FullPart(p.1) + [] == FullPart(q.1) + [];
    FullPartUnique(p.1, q.1, [], []);
  }

  /**
   * With a full-pair key, a request the cache lets through without any remote
   * call carries exactly a pair that was verified or issued by a refresh.
   */
  lemma FullKeyHitImpliesAuthorized(clientId: string, req: Request, cache: map<string, Entry>, now: int,
                                    verifyOk: bool, refresh: Option<Grant>,
                                    authorized: set<(Option<string>, Option<string>)>)
    requires PositiveEntriesAuthorized(FullPair, cache, authorized)
    requires req.path != LoginPath
    requires Decide(FullPair, clientId, req, cache, now, verifyOk, refresh).outcome == Outcome(Allow, [], false, false)
    ensures (Token(clientId, req, IdToken), Token(clientId, req, AccessToken)) in authorized
  {
    var key := RequestKey(FullPair, clientId, req);
    assert Lookup(cache, key, now) == Some(true);
    var p :| p in authorized && CacheKey(FullPair, p.0, p.1) == key;
    FullKeyInjective(p, (Token(clientId, req, IdToken), Token(clientId, req, AccessToken)));
  }

  /** The cookie jar of the counterexample below, without its id token. */
  function DemoJar(): map<string, string> {
    map[LastAuthUserCookie("client") := "ana",
        TokenCookie("client", "ana", RefreshToken) := "r",
        TokenCookie("client", "ana", AccessToken) := "a"]
  }

  /** A request on the panel carrying `DemoJar` and the given id token. */
  function DemoRequest(idToken: string): Request {
    Request("/logged", DemoJar()[TokenCookie("client", "ana", IdToken) := idToken])
  }

  /** The gate reads each demo cookie back under its own name. */
  lemma DemoRequestTokens(idToken: string)
    ensures var req := DemoRequest(idToken);
            && Username("client", req) == Some("ana")
            && Token("client", req, RefreshToken) == Some("r")
            && Token("client", req, AccessToken) == Some("a")
            && Token("client", req, IdToken) == Some(idToken)
  {
    var names := [LastAuthUserCookie("client"), TokenCookie("client", "ana", RefreshToken),
                  TokenCookie("client", "ana", AccessToken), TokenCookie("client", "ana", IdToken)];
    assert |names[0]| == 50 && |names[1]| == 54 && |names[2]| == 53 && |names[3]| == 49;
  }

  /**
   * As written, the key keeps only the first 50 characters of each token, so
   * once one pair has verified, a different pair that shares those prefixes
   * (as JSON Web Tokens signed under one key share their header) is allowed
   * without verification and without refresh, although it does not verify.
   */
  lemma PrefixKeyAdmitsForeignPair()
    ensures var good := Repeat('h', 50) + "1";
            var forged := Repeat('h', 50) + "2";
            var first := DemoRequest(good);
            var second := DemoRequest(forged);
            var step1 := Decide(Prefix50, "client", first, map[], 0, true, None);
            var step2 := Decide(Prefix50, "client", second, step1.cache, 1, false, None);
            && good != forged
            && step1.outcome == Outcome(Allow, [], true, false)
            && step2.outcome == Outcome(Allow, [], false, false)
            && PositiveEntriesAuthorized(Prefix50, step1.cache, {(Some(good), Some("a"))})
            && (Token("client", second, IdToken), Token("client", second, AccessToken)) !in {(Some(good), Some("a"))}
  {
    var good := Repeat('h', 50) + "1";
    var forged := Repeat('h', 50) + "2";
    assert good[50] != forged[50];
    assert Take(good, 50) == Repeat('h', 50) == Take(forged, 50) by {
      assert good[..50] == Repeat('h', 50);
      assert forged[..50] == Repeat('h', 50);
    }
    var first, second := DemoRequest(good), DemoRequest(forged);
    DemoRequestTokens(good);
    DemoRequestTokens(forged);
    var key := RequestKey(Prefix50, "client", first);
    assert key == RequestKey(Prefix50, "client", second);
    assert BothTokens("client", first);
    var step1 := Decide(Prefix50, "client", first, map[], 0, true, None);
    assert step1 == AfterMiss(Prefix50, "client", "ana", true, key, map[], 0, true, None);
    assert step1.cache == map[key := Entry(true, CacheTtl)];
    assert Lookup(step1.cache, key, 1) == Some(true);
  }
}
