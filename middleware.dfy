/** middleware.ts: the edge routing decision for `/admin` pages and tenant
    pages under `/c/<tenantId>`. The JWT verifier and the same-origin session
    API are oracles passed in. */
module Middleware {
  import opened Common
  import opened Cookies
  import AuthGuard
  import Csrf

  /** The claims `jwtVerify` returns; `exp` is absent or a number of seconds. */
  datatype SessionPayload = SessionPayload(sessionId: string, userId: string, tenantId: string, exp: Option<int>)

  /** `jwtVerify(token, secret)`: the payload, or None when it throws. */
  type JwtVerifier = string -> Option<SessionPayload>

  /** A JSON value, as far as `data.valid === true` can tell them apart. */
  datatype JsonValue = JsonTrue | JsonFalse | JsonOther

  /** What `fetch("/api/tenant/session/<id>")` gives back: a thrown fetch or
      body parse, a non-2xx status, or a parsed body whose `valid` field may
      be absent. */
  datatype ApiReply = Unreachable | HttpError | Body(valid: Option<JsonValue>)

  /** The session API for (tenant id, token). */
  type SessionApi = (string, string) -> ApiReply

  /** `payload.exp && payload.exp * 1000 < Date.now()`. */
  predicate Expired(exp: Option<int>, now: int) {
    exp.Some? && exp.value != 0 && exp.value * 1000 < now
  }

  /** `verifySessionToken(token, tenantId)`. */
  function VerifySessionToken(jwt: JwtVerifier, token: string, tenantId: string, now: int): (ok: bool)
    ensures ok <==> jwt(token).Some? && jwt(token).value.tenantId == tenantId && !Expired(jwt(token).value.exp, now)
  {
    match jwt(token)
    case None => false
    case Some(payload) =>
      if payload.tenantId != tenantId then false
      else if Expired(payload.exp, now) then false
      else true
  }

  /** A token signed for one tenant never opens another tenant's pages. */
  lemma TokenBoundToTenant(jwt: JwtVerifier, token: string, tenantId: string, now: int)
    requires jwt(token).Some? && jwt(token).value.tenantId != tenantId
    ensures !VerifySessionToken(jwt, token, tenantId, now)
  {
  }

  /** `verifySessionWithAPI(request, tenantId, token)`. */
  function VerifySessionWithApi(reply: ApiReply): (ok: bool)
    ensures ok <==> reply == Body(Some(JsonTrue))
  {
    match reply
    case Unreachable => false
    case HttpError => false
    case Body(valid) => valid == Some(JsonTrue)
  }

  /** `pathname.split("/")[2]`, with an absent element read as "". */
  function PathTenant(pathname: string): (tenantId: string)
    ensures '/' !in tenantId
  {
    var parts := Split(pathname, '/');
    if |parts| > 2 then
      assert parts[2] in parts;
      parts[2]
    else ""
  }

  /** In `/c/<id>` and `/c/<id>/...` the tenant id is `<id>`. */
  lemma PathTenantOfTenantPage(id: string, rest: string)
    requires '/' !in id && (rest == [] || rest[0] == '/')
    ensures PathTenant("/c/" + id + rest) == id
  {
    var tail := id + rest;
    assert "/c/" + id + rest == [] + ['/'] + ("c" + ['/'] + tail);
    SplitAtFirst([], '/', "c" + ['/'] + tail);
    SplitAtFirst("c", '/', tail);
    if rest == [] {
      IndexOfAbsent(id, '/');
      assert tail == id;
    } else {
      IndexOfAfter(id, '/', rest);
    }
  }

  datatype Decision =
    | Pass
      /** A redirect, with the `redirect` query parameter if any, and the
          cookies the response deletes. */
    | RedirectTo(location: string, redirectParam: Option<string>, deleteCookies: seq<string>)

  /** The decision and whether the session API was asked. */
  datatype Routing = Routing(decision: Decision, apiConsulted: bool)

  const ADMIN_COOKIE: string := "admin_session"

  /** `middleware(request)`. */
  function Route(pathname: string, cs: seq<Cookie>, jwt: JwtVerifier, api: SessionApi, now: int): (r: Routing)
    ensures pathname == "/admin/login" ==>
      r == Routing(if Find(cs, ADMIN_COOKIE).Some? then RedirectTo("/admin", None, []) else Pass, false)
    ensures pathname != "/admin/login" && (pathname == "/admin" || "/admin/" <= pathname) ==>
      r == Routing(if Find(cs, ADMIN_COOKIE).None? then RedirectTo("/admin/login", None, []) else Pass, false)
    ensures !("/c/" <= pathname) || PathTenant(pathname) == "" ==> r.decision.Pass? || r.decision.location != "/login"
    ensures (&& pathname != "/admin/login" && pathname != "/admin" && !("/admin/" <= pathname)
             && (!("/c/" <= pathname) || PathTenant(pathname) == "")) ==> r == Routing(Pass, false)
    ensures r.apiConsulted ==>
      && "/c/" <= pathname
      && Find(cs, AuthGuard.SessionCookieName(PathTenant(pathname))).Some?
      && !VerifySessionToken(jwt, Find(cs, AuthGuard.SessionCookieName(PathTenant(pathname))).value.value,
                             PathTenant(pathname), now)
    ensures r.decision.RedirectTo? && r.decision.deleteCookies != [] ==>
      && r.apiConsulted
      && r.decision == RedirectTo("/login", None, [AuthGuard.SessionCookieName(PathTenant(pathname)),
                                                   Csrf.TenantCsrfCookieName(PathTenant(pathname))])
  {
    if pathname == "/admin/login" then
      if Find(cs, ADMIN_COOKIE).Some? then Routing(RedirectTo("/admin", None, []), false) else Routing(Pass, false)
    else if (pathname == "/admin" || "/admin/" <= pathname) && Find(cs, ADMIN_COOKIE).None? then
      Routing(RedirectTo("/admin/login", None, []), false)
    else if "/c/" <= pathname then
      var tenantId := PathTenant(pathname);
      if tenantId == "" then Routing(Pass, false)
      else match Find(cs, AuthGuard.SessionCookieName(tenantId))
        case None => Routing(RedirectTo("/login", Some(pathname), []), false)
        case Some(sessionCookie) =>
          if VerifySessionToken(jwt, sessionCookie.value, tenantId, now) then Routing(Pass, false)
          else if VerifySessionWithApi(api(tenantId, sessionCookie.value)) then Routing(Pass, true)
          else Routing(RedirectTo("/login", None, [AuthGuard.SessionCookieName(tenantId), Csrf.TenantCsrfCookieName(tenantId)]), true)
    else Routing(Pass, false)
  }

  /** Admin pages check only that the cookie is there, never its value. */
  lemma AdminPagesCheckPresenceOnly(pathname: string, cs: seq<Cookie>, v: string, jwt: JwtVerifier, api: SessionApi, now: int)
    requires pathname == "/admin" || ("/admin/" <= pathname && pathname != "/admin/login")
    ensures Route(pathname, SetCookie(cs, Cookie(ADMIN_COOKIE, v, None)), jwt, api, now).decision == Pass
  {
    assert !("/c/" <= pathname) by {
      assert pathname[1] == 'a';
    }
  }

  /** A tenant page without its session cookie goes to the login page and
      remembers where it came from. */
  lemma TenantPageNeedsCookie(id: string, rest: string, cs: seq<Cookie>, jwt: JwtVerifier, api: SessionApi, now: int)
    requires id != "" && '/' !in id && (rest == [] || rest[0] == '/')
    requires Find(cs, AuthGuard.SessionCookieName(id)).None?
    ensures Route("/c/" + id + rest, cs, jwt, api, now) == Routing(RedirectTo("/login", Some("/c/" + id + rest), []), false)
  {
    PathTenantOfTenantPage(id, rest);
    var p := "/c/" + id + rest;
    assert p[..3] == "/c/";
    assert p != "/admin/login" && p != "/admin" && !("/admin/" <= p) by {
      assert p[1] == 'c';
    }
  }

  /** When both the token and the API reject the cookie, the visitor is sent
      to the login page and both of the tenant's cookies are deleted. */
  lemma RejectedSessionClearsCookies(id: string, rest: string, cs: seq<Cookie>, jwt: JwtVerifier, api: SessionApi, now: int)
    requires id != "" && '/' !in id && (rest == [] || rest[0] == '/')
    requires Find(cs, AuthGuard.SessionCookieName(id)).Some?
    requires var token := Find(cs, AuthGuard.SessionCookieName(id)).value.value;
      !VerifySessionToken(jwt, token, id, now) && api(id, token) != Body(Some(JsonTrue))
    ensures Route("/c/" + id + rest, cs, jwt, api, now) ==
      Routing(RedirectTo("/login", None, ["tenant_" + id + "_session", "tenant_" + id + "_csrf"]), true)
  {
    PathTenantOfTenantPage(id, rest);
    var p := "/c/" + id + rest;
    assert p[..3] == "/c/";
    assert p != "/admin/login" && p != "/admin" && !("/admin/" <= p) by {
      assert p[1] == 'c';
    }
  }

  /** A token the local check accepts never reaches the API. */
  lemma LocalAcceptSkipsApi(id: string, rest: string, cs: seq<Cookie>, jwt: JwtVerifier, api: SessionApi, now: int)
    requires id != "" && '/' !in id && (rest == [] || rest[0] == '/')
    requires Find(cs, AuthGuard.SessionCookieName(id)).Some?
    requires VerifySessionToken(jwt, Find(cs, AuthGuard.SessionCookieName(id)).value.value, id, now)
    ensures Route("/c/" + id + rest, cs, jwt, api, now) == Routing(Pass, false)
  {
    PathTenantOfTenantPage(id, rest);
    var p := "/c/" + id + rest;
    assert p[..3] == "/c/";
    assert p != "/admin/login" && p != "/admin" && !("/admin/" <= p) by {
      assert p[1] == 'c';
    }
  }

  /** A token the local check refuses but the session API accepts lets the
      page through, after one API call. */
  lemma ApiAcceptPasses(id: string, rest: string, cs: seq<Cookie>, jwt: JwtVerifier, api: SessionApi, now: int)
    requires id != "" && '/' !in id && (rest == [] || rest[0] == '/')
    requires Find(cs, AuthGuard.SessionCookieName(id)).Some?
    requires var token := Find(cs, AuthGuard.SessionCookieName(id)).value.value;
      !VerifySessionToken(jwt, token, id, now) && api(id, token) == Body(Some(JsonTrue))
    ensures Route("/c/" + id + rest, cs, jwt, api, now) == Routing(Pass, true)
  {
    PathTenantOfTenantPage(id, rest);
    var p := "/c/" + id + rest;
    assert p[..3] == "/c/";
    assert p != "/admin/login" && p != "/admin" && !("/admin/" <= p) by {
      assert p[1] == 'c';
    }
  }
}
