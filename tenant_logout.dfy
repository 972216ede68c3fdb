/** The tenant logout route, src/app/api/tenant/logout/route.ts: the scan of
    the cookie jar for a `tenant_<id>_session` cookie, the deletion of the
    session row, the LOGOUT log entry and the two cleared cookies. */
module TenantLogout {
  import opened Common
  import opened Db
  import opened Cookies
  import opened Http
  import AuthGuard
  import Csrf
  import SecurityLog
  import Sessions

  // ---------------------------------------------------------------------
  // The cookie scan

  /** The characters `.` does not match in a JavaScript regular expression
      without the `s` flag. */
  predicate IsLineTerminator(c: char) {
    c == '\n' || c == '\r' || c == '\U{2028}' || c == '\U{2029}'
  }

  /** `name.match(/^tenant_(.+)_session$/)?.[1]`: the text between the fixed
      prefix and suffix, when there is at least one character of it and none
      is a line terminator. */
  function SessionCookieTenant(name: string): (r: Option<string>)
    ensures r.Some? ==> r.value != "" && name == AuthGuard.SessionCookieName(r.value)
    ensures r.Some? ==> forall i :: 0 <= i < |r.value| ==> !IsLineTerminator(r.value[i])
  {
    if |name| >= 16 && name[..7] == "tenant_" && name[|name| - 8..] == "_session"
       && forall i :: 7 <= i < |name| - 8 ==> !IsLineTerminator(name[i])
    then
      var x := name[7..|name| - 8];
      assert name == name[..7] + x + name[|name| - 8..];
      Some(x)
    else None
  }

  /** Every proper tenant id is recognised in its own cookie name. */
  lemma SessionCookieTenantOfName(x: string)
    requires x != "" && forall i :: 0 <= i < |x| ==> !IsLineTerminator(x[i])
    ensures SessionCookieTenant(AuthGuard.SessionCookieName(x)) == Some(x)
  {
    var name := AuthGuard.SessionCookieName(x);
    assert name[..7] == "tenant_" && name[|name| - 8..] == "_session";
    forall i | 7 <= i < |name| - 8 ensures !IsLineTerminator(name[i]) {
      assert name[i] == x[i - 7];
    }
  }

  /** The tenant the scan picks: that of the first cookie, in jar order,
      whose name matches and whose value is non-empty. */
  function FirstTenant(cs: seq<Cookie>): (r: Option<string>)
    ensures r.Some? ==> r.value != ""
  {
    if cs == [] then None
    else if SessionCookieTenant(cs[0].name).Some? && cs[0].value != "" then SessionCookieTenant(cs[0].name)
    else FirstTenant(cs[1..])
  }

  /** `extractTenantIdFromCookies(cookieStore)`, over `getAll()`. */
  method ExtractTenantIdFromCookies(cs: seq<Cookie>) returns (tenantId: Option<string>)
    ensures tenantId == FirstTenant(cs)
    ensures tenantId.Some? ==>
      exists i :: 0 <= i < |cs| && cs[i].value != "" && cs[i].name == AuthGuard.SessionCookieName(tenantId.value)
    ensures tenantId.None? ==> forall i :: 0 <= i < |cs| && cs[i].value != "" ==> SessionCookieTenant(cs[i].name).None?
  {
    var k := 0;
    while k < |cs|
      invariant 0 <= k <= |cs|
      invariant FirstTenant(cs) == FirstTenant(cs[k..])
      invariant forall i :: 0 <= i < k && cs[i].value != "" ==> SessionCookieTenant(cs[i].name).None?
    {
      assert cs[k..][1..] == cs[k + 1..];
      var m := SessionCookieTenant(cs[k].name);
      if m.Some? && cs[k].value != "" {
        return m;
      }
      k := k + 1;
    }
    return None;
  }

  /** In a jar with unique names, a tenant found by the scan always comes
      with a non-empty session token under its cookie name. */
  lemma {:induction false} FoundTenantHasToken(cs: seq<Cookie>)
    requires NamesUnique(cs) && FirstTenant(cs).Some?
    ensures Truthy(Value(cs, AuthGuard.SessionCookieName(FirstTenant(cs).value)))
  {
    var x := FirstTenant(cs).value;
    if SessionCookieTenant(cs[0].name).Some? && cs[0].value != "" {
      assert Find(cs, AuthGuard.SessionCookieName(x)) == Some(cs[0]);
    } else {
      assert NamesUnique(cs[1..]);
      FoundTenantHasToken(cs[1..]);
      var c := Find(cs[1..], AuthGuard.SessionCookieName(x)).value;
      var j :| 0 <= j < |cs[1..]| && cs[1..][j] == c;
      assert cs[0].name != cs[j + 1].name;
    }
  }

  // ---------------------------------------------------------------------
  // The route

  /** The user the log entry names: that of the live session the token
      finds, if any. */
  function LogoutUser(db: TenantDb, token: Option<string>, now: int): (userId: Option<string>)
    ensures userId.Some? ==> Truthy(token) && exists s :: s in db.sessions && s.token == token.value && s.userId == userId.value
  {
    if !Truthy(token) then None
    else match Sessions.FindValid(db.sessions, token.value, now)
      case None => None
      case Some(s) => Some(s.userId)
  }

  /** The session rows after lines 36-45: the token's rows deleted, unless
      the deletion throws (`deleteFails`) and is swallowed. */
  function SessionsAfterLogout(rows: seq<Session>, token: Option<string>, deleteFails: bool): (r: seq<Session>)
    ensures !Truthy(token) || deleteFails ==> r == rows
    ensures Truthy(token) && !deleteFails ==> r == Sessions.WithoutToken(rows, token.value)
  {
    if Truthy(token) && !deleteFails then Sessions.WithoutToken(rows, token.value) else rows
  }

  function LogoutRow(headers: Headers, userId: Option<string>, now: int): SecurityLogRow {
    SecurityLog.LogRow(userId, LOGOUT, Some(SecurityLog.GetClientInfo(headers).ipAddress),
      SecurityLog.OrNull(Header(headers, "user-agent")), None, now)
  }

  /** Lines 33-45: look the token up for the log, then delete its rows. */
  method EndSession(store: Store, tenantId: string, token: Option<string>, now: int, deleteFails: bool)
    returns (userId: Option<string>)
    requires store.Valid()
    modifies store
    ensures store.Valid()
    ensures unchanged(store`admins, store`adminSessions, store`companies)
    ensures userId == old(LogoutUser(store.Tenant(tenantId), token, now))
    ensures !Truthy(token) || deleteFails ==> unchanged(store)
    ensures Truthy(token) && !deleteFails ==> store.tenants == old(store.tenants)[tenantId :=
      old(store.Tenant(tenantId)).(sessions := Sessions.WithoutToken(old(store.Tenant(tenantId)).sessions, token.value))]
  {
    userId := None;
    if Truthy(token) {
      var sessionData := Sessions.ValidateTenantSession(store, tenantId, token.value, now);
      if sessionData.Some? {
        userId := Some(sessionData.value.userId);
      }
      if !deleteFails {
        var _ := Sessions.InvalidateTenantSession(store, tenantId, token.value);
      }
    }
  }

  /** `POST /api/tenant/logout`: always a redirect to /login. With a tenant
      cookie, the token's rows are gone (bar a swallowed failure), a LOGOUT
      row is logged and both of the tenant's cookies are cleared; without
      one, nothing changes. */
  method Logout(store: Store, jar: CookieJar, headers: Headers, now: int, deleteFails: bool, logFails: bool)
    returns (resp: Response)
    requires store.Valid() && jar.Valid()
    modifies store, jar
    ensures store.Valid() && jar.Valid()
    ensures resp == Redirect("/login")
    ensures unchanged(store`admins, store`adminSessions, store`companies)
    ensures match FirstTenant(old(jar.cookies))
      case None => unchanged(store, jar)
      case Some(tid) =>
        var token := Value(old(jar.cookies), AuthGuard.SessionCookieName(tid));
        var db := old(store.Tenant(tid));
        && store.tenants == old(store.tenants)[tid := SecurityLog.AppendLog(
             db.(sessions := SessionsAfterLogout(db.sessions, token, deleteFails)),
             LogoutRow(headers, LogoutUser(db, token, now), now), logFails)]
        && jar.cookies == DeleteCookie(DeleteCookie(old(jar.cookies), AuthGuard.SessionCookieName(tid)),
             Csrf.TenantCsrfCookieName(tid))
  {
    var ip := SecurityLog.GetClientInfo(headers).ipAddress;
    var userAgent := SecurityLog.OrNull(Header(headers, "user-agent"));
    var tenantId := ExtractTenantIdFromCookies(jar.cookies);
    if !Truthy(tenantId) {
      return Redirect("/login");
    }
    var tid := tenantId.value;
    var sessionToken := jar.Get(AuthGuard.SessionCookieName(tid));
    var userId := EndSession(store, tid, sessionToken, now, deleteFails);
    ghost var t1 := store.tenants;
    var _ := SecurityLog.LogSecurityEvent(store, tid, userId, LOGOUT, Some(ip), userAgent, None, now, logFails);
    if Truthy(sessionToken) && !deleteFails {
      MapOverwrite(old(store.tenants), tid, t1[tid], store.tenants[tid]);
    }
    jar.Delete(AuthGuard.SessionCookieName(tid));
    jar.Delete(Csrf.TenantCsrfCookieName(tid));
    return Redirect("/login");
  }

  /** After logout the browser holds neither of the tenant's cookies, and
      when the deletion went through, the token it held no longer validates
      even if replayed. */
  lemma LoggedOut(cs: seq<Cookie>, rows: seq<Session>, tid: string, now: int)
    requires NamesUnique(cs) && FirstTenant(cs) == Some(tid)
    ensures var after := DeleteCookie(DeleteCookie(cs, AuthGuard.SessionCookieName(tid)), Csrf.TenantCsrfCookieName(tid));
      && Find(after, AuthGuard.SessionCookieName(tid)).None?
      && Find(after, Csrf.TenantCsrfCookieName(tid)).None?
    ensures var token := Value(cs, AuthGuard.SessionCookieName(tid));
      && Truthy(token)
      && Sessions.FindValid(SessionsAfterLogout(rows, token, false), token.value, now).None?
  {
    var after1 := DeleteCookie(cs, AuthGuard.SessionCookieName(tid));
    assert AuthGuard.SessionCookieName(tid) != Csrf.TenantCsrfCookieName(tid) by {
      var a, b := AuthGuard.SessionCookieName(tid), Csrf.TenantCsrfCookieName(tid);
      assert a[|a| - 1] == 'n' && b[|b| - 1] == 'f';
    }
    FoundTenantHasToken(cs);
    var token := Value(cs, AuthGuard.SessionCookieName(tid));
    Sessions.InvalidateRemovesToken(rows, token.value, now);
  }
}
