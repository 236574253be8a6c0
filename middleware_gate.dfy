/**
 * The older gate variant (`middleware.js`). It does not keep a cache and does
 * not verify tokens itself: it posts the request's cookie header to the
 * application's own `/api/validate-token` endpoint (`answer` is what that
 * `fetch` gave) and, on a non-ok answer, runs the refresh exchange
 * (`refresh`). The `fetch` is awaited outside any `try`, so a rejected one
 * makes `middleware` itself throw. Its `goToLogin` returns nothing on the login entry point, so
 * there the request simply continues, which the model reports as Allow.
 */
module MiddlewareGate {
  import opened Wrappers
  import opened AuthCookies

  const ValidatePath: string := "/api/validate-token"

  /** The outbound validation request: its URL and the `Cookie` header it carries. */
  datatype ValidateCall = ValidateCall(url: string, cookieHeader: string)

  /** What the validation `fetch` gave: a response, ok or not, or a rejected promise (a network failure). */
  datatype ValidateAnswer = Answered(ok: bool) | Rejected

  /**
   * The gate's answer with the cookies it writes, or `Threw`: the rejected
   * validation `fetch` propagates out of `middleware`, with no refresh and no
   * redirect.
   */
  datatype Outcome =
    | Outcome(decision: Decision, cookies: seq<SetCookie>, validation: Option<ValidateCall>, calledRefresh: bool)
    | Threw(validation: Option<ValidateCall>)

  /** `goToLogin`: a redirect to the login entry point, except on it, where the request continues. */
  function GoToLogin(path: string): Decision {
    if path != LoginPath then RedirectToLogin else Allow
  }

  /** The two cookies the refresh path writes: `secure`, `maxAge` straight from `expires_in`, nothing else set. */
  function LegacyRefreshCookies(clientId: string, username: string, g: Grant): seq<SetCookie> {
    [ SetCookie(TokenCookie(clientId, username, AccessToken), g.accessToken, true, None, None, g.expiresIn),
      SetCookie(TokenCookie(clientId, username, IdToken), g.idToken, true, None, None, g.expiresIn) ]
  }

  function Username(clientId: string, req: Request): Option<string> {
    CookieValue(req, LastAuthUserCookie(clientId))
  }

  function RefreshCookie(clientId: string, req: Request): Option<string> {
    CookieValue(req, TokenCookie(clientId, Username(clientId, req).GetOr(""), RefreshToken))
  }

  /**
   * The decision chain of `middleware`. `origin` is the request URL's origin
   * and `cookieHeader` its `Cookie` header, if any.
   */
  function Decide(clientId: string, req: Request, origin: string, cookieHeader: Option<string>,
                  answer: ValidateAnswer, refresh: Option<Grant>): Outcome
  {
    var user := Username(clientId, req);
    if !Truthy(user) || !Truthy(RefreshCookie(clientId, req)) then
      Outcome(GoToLogin(req.path), [], None, false)
    else
      var call := Some(ValidateCall(origin + ValidatePath, cookieHeader.GetOr("")));
      if answer.Rejected? then Threw(call)
      else if !answer.ok then
        match refresh
        case None => Outcome(GoToLogin(req.path), [], call, true)
        case Some(g) =>
          if req.path == LoginPath then Outcome(RedirectToPanel, [], call, true)
          else Outcome(Allow, LegacyRefreshCookies(clientId, user.value, g), call, true)
      else if req.path == LoginPath then Outcome(RedirectToPanel, [], call, false)
      else Outcome(Allow, [], call, false)
  }

  /** `middleware`, with its reassigned tokens and the response whose cookies it sets. */
  method Middleware(clientId: string, req: Request, origin: string, cookieHeader: Option<string>,
                    answer: ValidateAnswer, refresh: Option<Grant>) returns (out: Outcome)
    ensures out == Decide(clientId, req, origin, cookieHeader, answer, refresh)
  {
    var user := CookieValue(req, LastAuthUserCookie(clientId));
    if !Truthy(user) {
      return Outcome(GoToLogin(req.path), [], None, false);
    }
    var username := user.value;
    var refreshToken := CookieValue(req, TokenCookie(clientId, username, RefreshToken));
    if !Truthy(refreshToken) {
      return Outcome(GoToLogin(req.path), [], None, false);
    }
    var idToken := CookieValue(req, TokenCookie(clientId, username, IdToken));
    var accessToken := CookieValue(req, TokenCookie(clientId, username, AccessToken));
    var call := ValidateCall(origin + ValidatePath, if cookieHeader.Some? then cookieHeader.value else "");
    var cookies: seq<SetCookie> := [];
    var refreshed := false;
    if answer.Rejected? {
      return Threw(Some(call));
    }
    if !answer.ok {
      refreshed := true;
      if refresh.None? {
        return Outcome(GoToLogin(req.path), [], Some(call), true);
      }
      var data := refresh.value;
      idToken, accessToken := Some(data.idToken), Some(data.accessToken);
      cookies := cookies + [SetCookie(TokenCookie(clientId, username, AccessToken), data.accessToken,
                                      true, None, None, data.expiresIn)];
      cookies := cookies + [SetCookie(TokenCookie(clientId, username, IdToken), data.idToken,
                                      true, None, None, data.expiresIn)];
    }
    if req.path == LoginPath {
      // the redirect is a fresh response: the cookies set above are not on it
      return Outcome(RedirectToPanel, [], Some(call), refreshed);
    }
    return Outcome(Allow, cookies, Some(call), refreshed);
  }

  /**
   * Without a username cookie or a refresh-token cookie the answer is
   * `goToLogin`: a redirect to `/` off the login entry point, the request
   * continuing on it; no validation is requested.
   */
  lemma MissingCredentialGoesToLogin(clientId: string, req: Request, origin: string, cookieHeader: Option<string>,
                                     answer: ValidateAnswer, refresh: Option<Grant>)
    requires !Truthy(Username(clientId, req)) || !Truthy(RefreshCookie(clientId, req))
    ensures var out := Decide(clientId, req, origin, cookieHeader, answer, refresh);
            && out.Outcome? && out.validation.None? && out.cookies == [] && !out.calledRefresh
            && (req.path != LoginPath ==> out.decision == RedirectToLogin)
            && (req.path == LoginPath ==> out.decision == Allow)
  {
  }

  /**
   * With both cookies present, validation is a POST to
   * `<origin>/api/validate-token` with the request's cookie header, or "".
   * A rejected `fetch` makes `middleware` throw; otherwise the refresh runs
   * exactly when the answer is not ok.
   */
  lemma ValidationRequestShape(clientId: string, req: Request, origin: string, cookieHeader: Option<string>,
                               answer: ValidateAnswer, refresh: Option<Grant>)
    requires Truthy(Username(clientId, req)) && Truthy(RefreshCookie(clientId, req))
    ensures var out := Decide(clientId, req, origin, cookieHeader, answer, refresh);
            && out.validation.Some?
            && out.validation.value.url == origin + "/api/validate-token"
            && out.validation.value.cookieHeader == (if cookieHeader.Some? then cookieHeader.value else "")
            && (out.Threw? <==> answer.Rejected?)
            && (answer.Answered? ==> out.Outcome? && out.calledRefresh == !answer.ok)
  {
  }

  /**
   * A non-ok validation triggers the refresh. A successful refresh allows the
   * request with exactly the access and id cookies (`secure`, `maxAge` =
   * `expires_in` with no fallback), except on `/`, which goes to the panel
   * without them; a failed refresh is `goToLogin`.
   */
  lemma RefreshAfterFailedValidation(clientId: string, req: Request, origin: string, cookieHeader: Option<string>,
                                     refresh: Option<Grant>)
    requires Truthy(Username(clientId, req)) && Truthy(RefreshCookie(clientId, req))
    ensures var out := Decide(clientId, req, origin, cookieHeader, Answered(false), refresh);
            && out.Outcome?
            && (refresh.None? ==> out.decision == GoToLogin(req.path) && out.cookies == [])
            && (refresh.Some? && req.path == LoginPath ==> out.decision == RedirectToPanel && out.cookies == [])
            && (refresh.Some? && req.path != LoginPath ==>
                  var user := Username(clientId, req).value;
                  && out.decision == Allow
                  && |out.cookies| == 2
                  && out.cookies[0].name == TokenCookie(clientId, user, AccessToken)
                  && out.cookies[0].value == refresh.value.accessToken
                  && out.cookies[1].name == TokenCookie(clientId, user, IdToken)
                  && out.cookies[1].value == refresh.value.idToken
                  && (forall c :: c in out.cookies ==>
                        c.secure && c.httpOnly.None? && c.sameSite.None? && c.maxAge == refresh.value.expiresIn))
  {
  }

  /** An ok validation sends `/` to the panel and lets every other path through, writing no cookie. */
  lemma ValidatedRouting(clientId: string, req: Request, origin: string, cookieHeader: Option<string>,
                         refresh: Option<Grant>)
    requires Truthy(Username(clientId, req)) && Truthy(RefreshCookie(clientId, req))
    ensures var out := Decide(clientId, req, origin, cookieHeader, Answered(true), refresh);
            && out.Outcome? && out.cookies == [] && !out.calledRefresh
            && out.decision == (if req.path == LoginPath then RedirectToPanel else Allow)
  {
  }

  /**
   * Never fails open: off `/`, the answer is Allow exactly when both cookies
   * are present and either validation or refresh succeeded; otherwise it is a
   * redirect to login, never to the panel, or the throw of a rejected
   * validation. On `/`, the answer is the panel under the same condition and
   * otherwise the request continues or the throw.
   */
  lemma LegacyAllowExactlyWhenAuthenticated(clientId: string, req: Request, origin: string,
                                            cookieHeader: Option<string>, answer: ValidateAnswer,
                                            refresh: Option<Grant>)
    ensures var out := Decide(clientId, req, origin, cookieHeader, answer, refresh);
            var present := Truthy(Username(clientId, req)) && Truthy(RefreshCookie(clientId, req));
            var authenticated := present && (answer == Answered(true) || (answer == Answered(false) && refresh.Some?));
            && (out.Threw? <==> present && answer.Rejected?)
            && (req.path != LoginPath ==>
                  (out.Outcome? && out.decision == Allow <==> authenticated)
                  && !(out.Outcome? && out.decision == RedirectToPanel))
            && (req.path == LoginPath ==>
                  (out.Outcome? && out.decision == RedirectToPanel <==> authenticated)
                  && !(out.Outcome? && out.decision == RedirectToLogin))
  {
  }
}
