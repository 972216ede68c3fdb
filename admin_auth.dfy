/** src/lib/admin-auth.ts: the platform administrator's session, read from
    the `admin_session` cookie and the main store's admin sessions. */
module AdminAuth {
  import opened Common
  import opened Db
  import opened Cookies
  import Sessions

  const ADMIN_SESSION_COOKIE: string := "admin_session"

  datatype AdminIdentity = AdminIdentity(adminId: string, sessionId: string)

  /** `getAdminSession()`. The cookie only has to be present: an empty value
      is still looked up. */
  function GetAdminSession(cs: seq<Cookie>, rows: seq<AdminSession>, now: int): (r: Option<AdminIdentity>)
    ensures Find(cs, ADMIN_SESSION_COOKIE).None? ==> r.None?
    ensures r.Some? <==>
      Find(cs, ADMIN_SESSION_COOKIE).Some? &&
      Sessions.FindValidAdmin(rows, Find(cs, ADMIN_SESSION_COOKIE).value.value, now).Some?
    ensures r.Some? ==>
      exists s :: s in rows && s.token == Find(cs, ADMIN_SESSION_COOKIE).value.value && s.expiresAt > UnixSeconds(now)
        && r.value == AdminIdentity(s.adminId, s.id)
  {
    match Find(cs, ADMIN_SESSION_COOKIE)
    case None => None
    case Some(sessionToken) =>
      match Sessions.FindValidAdmin(rows, sessionToken.value, now)
      case None => None
      case Some(session) => Some(AdminIdentity(session.adminId, session.id))
  }

  /** With unique admin tokens, a live row (its expiry, in seconds, after the
      current second) is found for its own cookie and yields exactly that
      row's admin and id. */
  lemma LiveAdminSessionFound(cs: seq<Cookie>, rows: seq<AdminSession>, now: int, s: AdminSession)
    requires AdminSessionsValid(rows) && s in rows && s.expiresAt > UnixSeconds(now)
    requires Find(cs, ADMIN_SESSION_COOKIE).Some? && Find(cs, ADMIN_SESSION_COOKIE).value.value == s.token
    ensures GetAdminSession(cs, rows, now) == Some(AdminIdentity(s.adminId, s.id))
  {
    var t := Sessions.FindValidAdmin(rows, s.token, now).value;
    KeyUniqueSameRow(rows, AdminSessionTokenOf, t, s);
  }

  /** With unique admin tokens, a cookie whose row has expired (expiry at or
      before the current second) is refused. */
  lemma ExpiredAdminSessionRefused(cs: seq<Cookie>, rows: seq<AdminSession>, now: int, s: AdminSession)
    requires AdminSessionsValid(rows) && s in rows && s.expiresAt <= UnixSeconds(now)
    requires Find(cs, ADMIN_SESSION_COOKIE).Some? && Find(cs, ADMIN_SESSION_COOKIE).value.value == s.token
    ensures GetAdminSession(cs, rows, now).None?
  {
    if Sessions.FindValidAdmin(rows, s.token, now).Some? {
      var t := Sessions.FindValidAdmin(rows, s.token, now).value;
      KeyUniqueSameRow(rows, AdminSessionTokenOf, t, s);
    }
  }

  /** Once the token's rows are deleted the cookie no longer authenticates. */
  lemma RevokedAdminSessionRefused(cs: seq<Cookie>, rows: seq<AdminSession>, now: int)
    requires Find(cs, ADMIN_SESSION_COOKIE).Some?
    ensures GetAdminSession(cs, Sessions.AdminWithoutToken(rows, Find(cs, ADMIN_SESSION_COOKIE).value.value), now).None?
  {
  }

  /** A row expiring at second 1 is refused at 1200 ms, inside that second. */
  lemma LastPartialSecondRefused()
    ensures GetAdminSession([Cookie(ADMIN_SESSION_COOKIE, "t", None)], [AdminSession("i", "a", "t", 1, 0)], 1200).None?
  {
    assert UnixSeconds(1200) == 1;
  }
}
