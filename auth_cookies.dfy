/**
 * What the two gate variants share: the routing decision, the request as the
 * gate sees it (path and cookie jar), the cookie names derived from the
 * identity provider's client id and the signed-in user, the cookie writes a
 * response can carry, and the grant the refresh exchange returns.
 */
module AuthCookies {
  import opened Wrappers

  datatype Decision = Allow | RedirectToLogin | RedirectToPanel

  /** The login entry point; the panel is `/logged`. */
  const LoginPath: string := "/"

  /** The request: its path and its cookies by name. */
  datatype Request = Request(path: string, cookies: map<string, string>)

  /** One `response.cookies.set` call; `None` is an attribute the call does not give. */
  datatype SetCookie = SetCookie(
    name: string,
    value: string,
    secure: bool,
    httpOnly: Option<bool>,
    sameSite: Option<string>,
    maxAge: Option<int>)

  /** A successful refresh exchange: the new tokens and `expires_in` (absent when the body has none). */
  datatype Grant = Grant(idToken: string, accessToken: string, expiresIn: Option<int>)

  datatype TokenKind = IdToken | AccessToken | RefreshToken

  const ProviderPrefix: string := "CognitoIdentityServiceProvider"

  /** The cookie holding the last signed-in username. */
  function LastAuthUserCookie(clientId: string): string {
    ProviderPrefix + "." + clientId + ".LastAuthUser"
  }

  function KindSuffix(kind: TokenKind): string {
    match kind
    case IdToken => ".idToken"
    case AccessToken => ".accessToken"
    case RefreshToken => ".refreshToken"
  }

  /** The cookie holding one of `username`'s three tokens. */
  function TokenCookie(clientId: string, username: string, kind: TokenKind): string {
    ProviderPrefix + "." + clientId + "." + username + KindSuffix(kind)
  }

  /** The three token cookies of one user are three different cookies. */
  lemma TokenCookiesDistinct(clientId: string, username: string, k1: TokenKind, k2: TokenKind)
    requires k1 != k2
    ensures TokenCookie(clientId, username, k1) != TokenCookie(clientId, username, k2)
  {
    assert |TokenCookie(clientId, username, k1)| - |KindSuffix(k1)| == |TokenCookie(clientId, username, k2)| - |KindSuffix(k2)|;
  }

  /** `request.cookies.get(name)?.value`. */
  function CookieValue(req: Request, name: string): Option<string> {
    if name in req.cookies then Some(req.cookies[name]) else None
  }

  /** JavaScript truthiness of an optional string: present and not empty. */
  predicate Truthy(v: Option<string>) {
    v.Some? && v.value != ""
  }
}
