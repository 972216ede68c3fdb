/** CSRF double-submit checks of src/lib/csrf.ts: the bootstrap token in the
    `csrf_token` cookie compared in constant time, and the per-tenant token in
    `tenant_<id>_csrf` compared by plain equality. */
module Csrf {
  import opened Common
  import opened Cookies
  import opened Http

  const CSRF_COOKIE_NAME: string := "csrf_token"
  const CSRF_HEADER_NAME: string := "x-csrf-token"
  const CSRF_COOKIE_MAX_AGE: int := 60 * 60 * 24

  /** `timingSafeEqual(Buffer.from(a), Buffer.from(b))` for equal lengths:
      byte-wise equality of the encodings, which for strings of Unicode
      scalar values is string equality. */
  function TimingSafeEqual(a: string, b: string): bool
    requires |a| == |b|
  {
    forall i :: 0 <= i < |a| ==> a[i] == b[i]
  }

  /** `safeCompare`: false on a length mismatch, else the constant-time
      comparison. */
  function SafeCompare(a: string, b: string): (r: bool)
    ensures |a| != |b| ==> !r
    ensures r <==> a == b
  {
    if |a| != |b| then false else TimingSafeEqual(a, b)
  }

  /** `generateCsrfToken`: 32 random bytes, hex-encoded. */
  function GenerateCsrfToken(random: seq<byte>): (token: string)
    requires |random| == 32
    ensures |token| == 64 && IsLowerHex(token)
  {
    ToHex(random)
  }

  function CsrfCookieAttrs(production: bool): CookieAttrs {
    CookieAttrs(httpOnly := true, secure := production, sameSite := Strict, maxAge := CSRF_COOKIE_MAX_AGE, path := "/")
  }

  /** `setCsrfCookie`: issue a token, store it under `csrf_token`, return it.
      `production` is `NODE_ENV === "production"`. */
  method SetCsrfCookie(jar: CookieJar, random: seq<byte>, production: bool) returns (token: string)
    requires jar.Valid() && |random| == 32
    modifies jar
    ensures jar.Valid()
    ensures token == GenerateCsrfToken(random)
    ensures jar.cookies == SetCookie(old(jar.cookies), Cookie(CSRF_COOKIE_NAME, token, Some(CsrfCookieAttrs(production))))
    ensures jar.Get(CSRF_COOKIE_NAME) == Some(token)
  {
    token := GenerateCsrfToken(random);
    jar.Set(CSRF_COOKIE_NAME, token, CsrfCookieAttrs(production));
  }

  /** `getCsrfTokenFromCookie`: the cookie's value, with "" read as null. */
  function GetCsrfTokenFromCookie(cs: seq<Cookie>): Option<string> {
    OrElse(Value(cs, CSRF_COOKIE_NAME), None)
  }

  /** `validateCsrfToken`: header and bootstrap cookie both present and
      non-empty, and equal. */
  function ValidateCsrfToken(headers: Headers, cs: seq<Cookie>): (r: bool)
    ensures !Truthy(Header(headers, CSRF_HEADER_NAME)) ==> !r
    ensures !Truthy(Value(cs, CSRF_COOKIE_NAME)) ==> !r
    ensures Truthy(Header(headers, CSRF_HEADER_NAME)) && Truthy(Value(cs, CSRF_COOKIE_NAME)) ==>
      (r <==> Header(headers, CSRF_HEADER_NAME) == Value(cs, CSRF_COOKIE_NAME))
  {
    var headerToken := Header(headers, CSRF_HEADER_NAME);
    var cookieToken := GetCsrfTokenFromCookie(cs);
    if !Truthy(headerToken) || !Truthy(cookieToken) then false
    else SafeCompare(headerToken.value, cookieToken.value)
  }

  datatype CsrfResult = CsrfResult(valid: bool, error: Option<string>)

  const CSRF_ERROR: string := "CSRF token invalid or missing"

  /** `csrfProtection`: valid exactly when `validateCsrfToken` holds, with an
      error message exactly when invalid. */
  function CsrfProtection(headers: Headers, cs: seq<Cookie>): (r: CsrfResult)
    ensures r.valid <==> ValidateCsrfToken(headers, cs)
    ensures r.error.Some? <==> !r.valid
  {
    var isValid := ValidateCsrfToken(headers, cs);
    if !isValid then CsrfResult(false, Some(CSRF_ERROR)) else CsrfResult(true, None)
  }

  function TenantCsrfCookieName(tenantId: string): string {
    "tenant_" + tenantId + "_csrf"
  }

  /** `validateCSRFToken(request, tenantId)`: only the cookie
      `tenant_<tenantId>_csrf` is consulted; both it and the header must be
      non-empty, then plain equality decides. */
  function ValidateCSRFToken(headers: Headers, cs: seq<Cookie>, tenantId: string): (r: bool)
    ensures !Truthy(Value(cs, TenantCsrfCookieName(tenantId))) ==> !r
    ensures !Truthy(Header(headers, CSRF_HEADER_NAME)) ==> !r
    ensures r <==> Truthy(Header(headers, CSRF_HEADER_NAME)) &&
                   Header(headers, CSRF_HEADER_NAME) == Value(cs, TenantCsrfCookieName(tenantId))
  {
    var csrfCookie := Value(cs, TenantCsrfCookieName(tenantId));
    var headerToken := Header(headers, CSRF_HEADER_NAME);
    if !Truthy(csrfCookie) || !Truthy(headerToken) then false
    else csrfCookie.value == headerToken.value
  }

  /** The per-tenant check does not look at the bootstrap cookie or at any
      other tenant's cookie. */
  lemma TenantCsrfReadsOnlyItsCookie(headers: Headers, cs1: seq<Cookie>, cs2: seq<Cookie>, tenantId: string)
    requires Value(cs1, TenantCsrfCookieName(tenantId)) == Value(cs2, TenantCsrfCookieName(tenantId))
    ensures ValidateCSRFToken(headers, cs1, tenantId) == ValidateCSRFToken(headers, cs2, tenantId)
  {
  }

  /** Round trip: after `SetCsrfCookie` issues T into a jar, a request echoing
      T passes, one echoing any other value fails, and one without the header
      fails. */
  lemma IssuedTokenPasses(cs: seq<Cookie>, random: seq<byte>, production: bool, other: string, headers: Headers)
    requires |random| == 32
    requires other != GenerateCsrfToken(random)
    requires CSRF_HEADER_NAME !in headers
    ensures var t := GenerateCsrfToken(random);
      var jar := SetCookie(cs, Cookie(CSRF_COOKIE_NAME, t, Some(CsrfCookieAttrs(production))));
      && CsrfProtection(map[CSRF_HEADER_NAME := t], jar).valid
      && !CsrfProtection(map[CSRF_HEADER_NAME := other], jar).valid
      && !CsrfProtection(headers, jar).valid
  {
  }

  /** A request whose header matches the token but whose cookie holds a
      different value fails. */
  lemma MismatchedCookieFails(cs: seq<Cookie>, t: string, c: string, attrs: Option<CookieAttrs>)
    requires t != c
    ensures !CsrfProtection(map[CSRF_HEADER_NAME := t], SetCookie(cs, Cookie(CSRF_COOKIE_NAME, c, attrs))).valid
  {
  }
}
