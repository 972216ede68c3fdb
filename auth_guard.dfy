/** src/lib/auth-guard.ts: the per-request tenant session check used by the
    tenant API routes, and the tenant id taken from the query or the
    Referer header. */
module AuthGuard {
  import opened Common
  import opened Db
  import opened Cookies
  import opened Http
  import Sessions

  /** The name of a tenant's session cookie, `tenant_<id>_session`. */
  function SessionCookieName(tenantId: string): (name: string)
    ensures |name| == |tenantId| + 15 && name[7..|name| - 8] == tenantId
  {
    "tenant_" + tenantId + "_session"
  }

  /** Each tenant has its own session cookie. */
  lemma SessionCookieNameInjective(a: string, b: string)
    requires SessionCookieName(a) == SessionCookieName(b)
    ensures a == b
  {
    var na, nb := SessionCookieName(a), SessionCookieName(b);
    assert a == na[7..|na| - 8] && b == nb[7..|nb| - 8];
  }

  datatype AuthResult =
    | Authorized(userId: string, tenantId: string)
    | Denied(error: Response)

  /** `verifyTenantSession(req, tenantId)` on the tenant's store `db`;
      `storeFails` is the store lookup throwing. */
  function VerifyTenantSession(cs: seq<Cookie>, db: TenantDb, tenantId: string, now: int, storeFails: bool)
    : (r: AuthResult)
    ensures !Truthy(Value(cs, SessionCookieName(tenantId))) ==> r == Denied(Json(401, Error(NotAuthenticated)))
    ensures Truthy(Value(cs, SessionCookieName(tenantId))) && storeFails ==>
      r == Denied(Json(500, Error(SessionCheckFailed)))
    ensures r.Authorized? <==>
      && Truthy(Value(cs, SessionCookieName(tenantId))) && !storeFails
      && Sessions.FindValid(db.sessions, Value(cs, SessionCookieName(tenantId)).value, now).Some?
    ensures r.Authorized? ==>
      && r.tenantId == tenantId
      && exists s :: s in db.sessions && s.token == Value(cs, SessionCookieName(tenantId)).value
           && s.expiresAt > now && s.userId == r.userId
    ensures r.Denied? && Truthy(Value(cs, SessionCookieName(tenantId))) && !storeFails ==>
      r == Denied(Json(401, Error(SessionExpired)))
  {
    var sessionToken := Value(cs, SessionCookieName(tenantId));
    if !Truthy(sessionToken) then Denied(Json(401, Error(NotAuthenticated)))
    else if storeFails then Denied(Json(500, Error(SessionCheckFailed)))
    else match Sessions.FindValid(db.sessions, sessionToken.value, now)
      case None => Denied(Json(401, Error(SessionExpired)))
      case Some(validSession) => Authorized(validSession.userId, tenantId)
  }

  /** The guard admits a request exactly when the session layer validates
      its cookie, and then names the session's owner. */
  lemma GuardAgreesWithSessions(cs: seq<Cookie>, store: Store, tenantId: string, now: int)
    requires Truthy(Value(cs, SessionCookieName(tenantId)))
    ensures var token := Value(cs, SessionCookieName(tenantId)).value;
      var r := VerifyTenantSession(cs, store.Tenant(tenantId), tenantId, now, false);
      match Sessions.ValidateTenantSession(store, tenantId, token, now)
      case None => r.Denied?
      case Some(s) => r == Authorized(s.userId, tenantId)
  {
  }

  /** Cookies of other tenants never authorise a request for this one. */
  lemma OtherTenantsCookieIgnored(cs: seq<Cookie>, db: TenantDb, tenantId: string, other: string, now: int)
    requires NamesUnique(cs) && other != tenantId
    requires Value(cs, SessionCookieName(tenantId)).None?
    ensures var cs2 := SetCookie(cs, Cookie(SessionCookieName(other), "any", None));
      VerifyTenantSession(cs2, db, tenantId, now, false) == Denied(Json(401, Error(NotAuthenticated)))
  {
    if SessionCookieName(other) == SessionCookieName(tenantId) {
      SessionCookieNameInjective(other, tenantId);
    }
  }

  // ---------------------------------------------------------------------
  // getTenantIdFromRequest

  /** Decoded query parameters, in order. */
  type Query = seq<(string, string)>

  /** `searchParams.get(name)`: the first value given for the name. */
  function QueryGet(q: Query, name: string): (r: Option<string>)
    ensures r.Some? ==> exists i :: 0 <= i < |q| && q[i] == (name, r.value)
    ensures r.None? <==> forall i :: 0 <= i < |q| ==> q[i].0 != name
  {
    if q == [] then None
    else if q[0].0 == name then Some(q[0].1)
    else QueryGet(q[1..], name)
  }

  /** Whether `/\/c\/([^\/]+)/` matches at position `p` of `s`. */
  predicate MatchesAt(s: string, p: nat) {
    p + 4 <= |s| && s[p..p + 3] == "/c/" && s[p + 3] != '/'
  }

  /** The first capture of `/\/c\/([^\/]+)/` in `s`: the leftmost `/c/`
      followed by a non-slash, and the longest slash-free run after it. */
  function RefererTenant(s: string): (r: Option<string>)
    ensures r.Some? ==> r.value != "" && '/' !in r.value
    ensures r.None? <==> forall p: nat :: p < |s| ==> !MatchesAt(s, p)
    decreases |s|
  {
    if |s| < 4 then None
    else if s[..3] == "/c/" && s[3] != '/' then
      assert MatchesAt(s, 0);
      Some(Before(s[3..], '/'))
    else
      var r := RefererTenant(s[1..]);
      assert forall q: nat :: q + 1 < |s| ==> (MatchesAt(s[1..], q) <==> MatchesAt(s, q + 1)) by {
        forall q: nat | q + 1 < |s| ensures MatchesAt(s[1..], q) <==> MatchesAt(s, q + 1) {
          if q + 5 <= |s| {
            assert s[q + 1..q + 4] == s[1..][q..q + 3];
          }
        }
      }
      assert forall p: nat :: 1 <= p < |s| ==> (MatchesAt(s, p) <==> MatchesAt(s[1..], p - 1));
      assert !MatchesAt(s, 0);
      r
  }

  /** Dropping the first character shifts every match position by one. */
  lemma MatchesAtShift(s: string, p: nat)
    requires s != []
    ensures MatchesAt(s[1..], p) <==> MatchesAt(s, p + 1)
  {
    if p + 5 <= |s| {
      assert s[p + 1..p + 4] == s[1..][p..p + 3];
    }
  }

  /** A Referer holding `/c/<id>` or `/c/<id>/...`, with no earlier match
      of the pattern in front of it (an absolute URL such as
      `https://host/c/<id>/page` among them), names that tenant. */
  lemma {:induction false} RefererFindsTenantPath(pre: string, id: string, rest: string)
    requires forall p: nat :: p < |pre| ==> !MatchesAt(pre + "/c/" + id + rest, p)
    requires id != "" && '/' !in id
    requires rest == [] || rest[0] == '/'
    ensures RefererTenant(pre + "/c/" + id + rest) == Some(id)
    decreases |pre|
  {
    var tail := id + rest;
    var s := pre + ("/c/" + tail);
    assert pre + "/c/" + id + rest == s;
    if pre == [] {
      assert s == "/c/" + tail;
      assert s[..3] == "/c/" && s[3..] == tail && s[3] == id[0];
      if rest == [] {
        IndexOfAbsent(id, '/');
        assert tail == id;
      } else {
        IndexOfAfter(id, '/', rest);
      }
    } else {
      assert !MatchesAt(s, 0);
      assert s[1..] == pre[1..] + "/c/" + id + rest;
      forall p: nat | p < |pre[1..]| ensures !MatchesAt(pre[1..] + "/c/" + id + rest, p) {
        MatchesAtShift(s, p);
      }
      RefererFindsTenantPath(pre[1..], id, rest);
    }
  }

  /** For instance, the tenant of an absolute Referer. */
  lemma AbsoluteRefererFindsTenant()
    ensures RefererTenant("https://host/c/acme/x") == Some("acme")
  {
    var pre, s := "https://host", "https://host/c/acme/x";
    assert pre + "/c/" + "acme" + "/x" == s;
    var t := s[1..13];
    assert t == "ttps://host/";
    assert 'c' !in t;
    forall p: nat | p < |pre| ensures !MatchesAt(s, p) {
      assert s[p..p + 3][1] == t[p] && t[p] in t;
    }
    RefererFindsTenantPath(pre, "acme", "/x");
  }

  /** `getTenantIdFromRequest(req)`: a non-empty `tenantId` query parameter
      wins; otherwise the Referer's tenant path; otherwise null. */
  function GetTenantIdFromRequest(q: Query, headers: Headers): (r: Option<string>)
    ensures r.Some? ==> r.value != ""
    ensures Truthy(QueryGet(q, "tenantId")) ==> r == QueryGet(q, "tenantId")
    ensures !Truthy(QueryGet(q, "tenantId")) ==>
      r == if "referer" in headers then RefererTenant(headers["referer"]) else None
  {
    var tenantId := QueryGet(q, "tenantId");
    if Truthy(tenantId) then tenantId
    else match Header(headers, "referer")
      case Some(referer) => if referer != "" then RefererTenant(referer) else None
      case None => None
  }
}
