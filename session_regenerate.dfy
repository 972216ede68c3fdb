/** The token rotation route, src/app/api/tenant/session/regenerate/route.ts:
    the same cookie scan as logout, then `regenerateSessionToken` and the
    rewritten session cookie. */
module SessionRegenerate {
  import opened Common
  import opened Db
  import opened Cookies
  import opened Http
  import AuthGuard
  import Sessions
  import TenantLogin
  import TenantLogout

  /** How far a rotation gets, decided on the state before the call. */
  datatype Stage =
    | NoTenant
    | NoToken(tenantId: string)
    | Stale(tenantId: string)
    | Rotated(tenantId: string, session: Session)

  function Evaluate(cs: seq<Cookie>, store: Store, random: seq<byte>, now: int): (st: Stage)
    reads store
    ensures st.Rotated? ==>
      && Truthy(Value(cs, AuthGuard.SessionCookieName(st.tenantId)))
      && st.session in store.Tenant(st.tenantId).sessions
      && st.session.token == Value(cs, AuthGuard.SessionCookieName(st.tenantId)).value
      && st.session.expiresAt > now
  {
    match TenantLogout.FirstTenant(cs)
    case None => NoTenant
    case Some(tid) =>
      var oldToken := Value(cs, AuthGuard.SessionCookieName(tid));
      if !Truthy(oldToken) then NoToken(tid)
      else
        var rows := store.Tenant(tid).sessions;
        match Sessions.FindValid(rows, oldToken.value, now)
        case None => Stale(tid)
        case Some(s) =>
          if Sessions.TokenHeldByOther(rows, s.id, ToHex(random)) then Stale(tid) else Rotated(tid, s)
  }

  /** `POST /api/tenant/session/regenerate`; `random` is the 32-byte draw
      for the new token. */
  method Regenerate(store: Store, jar: CookieJar, random: seq<byte>, now: int) returns (resp: Response)
    requires store.Valid() && jar.Valid() && |random| == 32
    modifies store, jar
    ensures store.Valid() && jar.Valid()
    ensures unchanged(store`admins, store`adminSessions, store`companies)
    ensures match old(Evaluate(jar.cookies, store, random, now))
      case NoTenant => resp == Json(401, Error(NoActiveSession)) && unchanged(store, jar)
      case NoToken(_) => resp == Json(401, Error(NoSessionToken)) && unchanged(store, jar)
      case Stale(_) => resp == Json(401, Error(SessionInvalidOrExpired)) && unchanged(store, jar)
      case Rotated(tid, s) =>
        && resp == Json(200, Success)
        && store.tenants == old(store.tenants)[tid := old(store.Tenant(tid)).(sessions :=
             Sessions.ReplaceToken(old(store.Tenant(tid)).sessions, s.id, ToHex(random), now))]
        && jar.cookies == SetCookie(old(jar.cookies),
             Cookie(AuthGuard.SessionCookieName(tid), ToHex(random), Some(TenantLogin.SessionCookieAttrs())))
  {
    var tenantId := TenantLogout.ExtractTenantIdFromCookies(jar.cookies);
    if !Truthy(tenantId) {
      return Json(401, Error(NoActiveSession));
    }
    var tid := tenantId.value;
    var oldToken := jar.Get(AuthGuard.SessionCookieName(tid));
    if !Truthy(oldToken) {
      return Json(401, Error(NoSessionToken));
    }
    var newToken := Sessions.RegenerateSessionToken(store, tid, oldToken.value, random, now);
    if !Truthy(newToken) {
      return Json(401, Error(SessionInvalidOrExpired));
    }
    jar.Set(AuthGuard.SessionCookieName(tid), newToken.value, TenantLogin.SessionCookieAttrs());
    return Json(200, Success);
  }

  /** After a rotation the rewritten cookie passes the tenant guard as the
      same user, while a replayed copy of the old cookie is refused as
      expired. */
  lemma RotatedCookieAuthorizes(cs: seq<Cookie>, db: TenantDb, tid: string, s: Session, random: seq<byte>,
                                attrs: CookieAttrs, now: int)
    requires SessionsValid(db.sessions) && s in db.sessions && s.expiresAt > now
    requires |random| == 32 && !Sessions.TokenHeldByOther(db.sessions, s.id, ToHex(random)) && ToHex(random) != s.token
    ensures var after := db.(sessions := Sessions.ReplaceToken(db.sessions, s.id, ToHex(random), now));
      var jar := SetCookie(cs, Cookie(AuthGuard.SessionCookieName(tid), ToHex(random), Some(attrs)));
      && AuthGuard.VerifyTenantSession(jar, after, tid, now, false) == AuthGuard.Authorized(s.userId, tid)
      && (Value(cs, AuthGuard.SessionCookieName(tid)) == Some(s.token) && s.token != "" ==>
            AuthGuard.VerifyTenantSession(cs, after, tid, now, false) == AuthGuard.Denied(Json(401, Error(SessionExpired))))
  {
    Sessions.FindValidUnique(db.sessions, s, now);
    Sessions.RotationEffect(db.sessions, s.token, ToHex(random), now);
  }
}
