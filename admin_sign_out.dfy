/** The admin logout route, src/app/api/auth/admin/sign-out/route.ts. */
module AdminSignOut {
  import opened Common
  import opened Db
  import opened Cookies
  import opened Http
  import AdminAuth
  import Sessions

  /** `POST`: with an `admin_session` cookie (of any value), its rows are
      deleted; the cookie is always cleared and the answer is always
      success. */
  method SignOut(store: Store, jar: CookieJar) returns (resp: Response)
    requires store.Valid() && jar.Valid()
    modifies store, jar
    ensures store.Valid() && jar.Valid()
    ensures resp == Json(200, Success)
    ensures unchanged(store`admins, store`companies, store`tenants)
    ensures match Find(old(jar.cookies), AdminAuth.ADMIN_SESSION_COOKIE)
      case Some(c) => store.adminSessions == Sessions.AdminWithoutToken(old(store.adminSessions), c.value)
      case None => store.adminSessions == old(store.adminSessions)
    ensures jar.cookies == DeleteCookie(old(jar.cookies), AdminAuth.ADMIN_SESSION_COOKIE)
  {
    var sessionToken := Find(jar.cookies, AdminAuth.ADMIN_SESSION_COOKIE);
    if sessionToken.Some? {
      var _ := Sessions.InvalidateAdminSession(store, sessionToken.value.value);
    }
    jar.Delete(AdminAuth.ADMIN_SESSION_COOKIE);
    return Json(200, Success);
  }

  /** After sign-out nobody is signed in through this jar, and the old
      token is refused even if a copy of the cookie is replayed. */
  lemma SignedOut(cs: seq<Cookie>, rows: seq<AdminSession>, replayed: seq<Cookie>, now: int)
    requires Find(cs, AdminAuth.ADMIN_SESSION_COOKIE).Some?
    requires Find(replayed, AdminAuth.ADMIN_SESSION_COOKIE) == Find(cs, AdminAuth.ADMIN_SESSION_COOKIE)
    ensures var after := Sessions.AdminWithoutToken(rows, Find(cs, AdminAuth.ADMIN_SESSION_COOKIE).value.value);
      && AdminAuth.GetAdminSession(DeleteCookie(cs, AdminAuth.ADMIN_SESSION_COOKIE), after, now).None?
      && AdminAuth.GetAdminSession(replayed, after, now).None?
  {
    AdminAuth.RevokedAdminSessionRefused(replayed, rows, now);
  }
}
