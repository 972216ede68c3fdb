/** The admin login route, src/app/api/auth/admin/sign-in/email/route.ts:
    field check, rate limit under the `admin_` namespace, admin lookup,
    password check with legacy migration, limiter reset, the admin session
    row and the `admin_session` cookie. */
module AdminSignIn {
  import opened Common
  import opened Crypto
  import opened Db
  import opened Cookies
  import opened Http
  import opened Password
  import opened RateLimit
  import SecurityLog
  import AdminAuth
  import Sessions
  import TenantLogin

  /** The JSON body; None when `req.json()` throws. `rememberMe` is its
      truthiness. */
  datatype AdminBody = AdminBody(email: Option<string>, password: Option<string>, rememberMe: bool)

  const DAY_SECONDS: int := 60 * 60 * 24

  /** The session lifetime in seconds: 30 days when the admin asked to be
      remembered, one day otherwise. */
  function MaxAge(rememberMe: bool): (s: int)
    ensures s > 0 && s % DAY_SECONDS == 0
    ensures s / DAY_SECONDS == if rememberMe then 30 else 1
  {
    if rememberMe then 30 * DAY_SECONDS else DAY_SECONDS
  }

  function AdminKey(headers: Headers, email: string): string {
    RateLimitKey(SecurityLog.ForwardedIpOrNull(headers), "admin_" + email)
  }

  /** `admin_session` cookie attributes: SameSite=None, with the session's
      lifetime as max-age. */
  function AdminCookieAttrs(rememberMe: bool): CookieAttrs {
    CookieAttrs(httpOnly := true, secure := true, sameSite := NoneSite, maxAge := MaxAge(rememberMe), path := "/")
  }

  /** The session row the route inserts. */
  function NewAdminSession(sessionId: string, adminId: string, token: string, rememberMe: bool, now: int)
    : (s: AdminSession)
    ensures s.adminId == adminId && s.token == token && s.id == sessionId
    ensures s.createdAt == UnixSeconds(now)
    ensures s.expiresAt == UnixSeconds(now) + AdminCookieAttrs(rememberMe).maxAge
    ensures now + MaxAge(rememberMe) * 1000 - 1000 < s.expiresAt * 1000 <= now + MaxAge(rememberMe) * 1000
  {
    AdminSession(sessionId, adminId, token, UnixSeconds(now + MaxAge(rememberMe) * 1000), UnixSeconds(now))
  }

  /** Lines 41-79 decided on the admins table before the call: None when
      the attempt is refused, Some((admin, rehash)) when it is let in, with
      the bcrypt hash that replaces a matching legacy hash. */
  function Credentials(admins: seq<Admin>, email: string, password: string, c: Crypto)
    : (r: Option<(Admin, Option<string>)>)
    ensures r.Some? ==> r.value.0 in admins && r.value.0.email == email && Truthy(r.value.0.password)
    ensures r.Some? && r.value.1.Some? ==>
      && IsLegacySha256Hash(r.value.0.password.value)
      && r.value.1 == MigrateLegacyHash(c, password, r.value.0.password.value)
    ensures r.Some? && r.value.1.None? ==>
      !IsLegacySha256Hash(r.value.0.password.value) && VerifyPassword(c, password, r.value.0.password.value)
    ensures FindAdminByEmail(admins, email).None? ==> r.None?
  {
    match FindAdminByEmail(admins, email)
    case None => None
    case Some(admin) =>
      if !Truthy(admin.password) then None
      else if IsLegacySha256Hash(admin.password.value) then
        match MigrateLegacyHash(c, password, admin.password.value)
        case None => None
        case Some(h) => Some((admin, Some(h)))
      else if VerifyPassword(c, password, admin.password.value) then Some((admin, None))
      else None
  }

  /** How far a sign-in gets, decided on the state before the call. */
  datatype Stage =
    | MalformedBody
    | FieldsMissing
    | Throttled(decision: Decision)
    | Refused
    | Admitted(admin: Admin, rehash: Option<string>)

  function Evaluate(headers: Headers, body: Option<AdminBody>, admins: seq<Admin>, entries: map<string, Entry>,
                    c: Crypto, now: int): (st: Stage)
    ensures st.Throttled? || st.Refused? || st.Admitted? ==>
      body.Some? && Truthy(body.value.email) && Truthy(body.value.password)
    ensures st.Admitted? ==> st.admin in admins && st.admin.email == body.value.email.value
  {
    if body.None? then MalformedBody
    else if !Truthy(body.value.email) || !Truthy(body.value.password) then FieldsMissing
    else
      var d := Check(entries, AdminKey(headers, body.value.email.value), now).0;
      if !d.allowed then Throttled(d)
      else match Credentials(admins, body.value.email.value, body.value.password.value, c)
        case None => Refused
        case Some((admin, rehash)) => Admitted(admin, rehash)
  }

  /** The admins table after a successful check. */
  function Migrated(admins: seq<Admin>, admin: Admin, rehash: Option<string>): seq<Admin> {
    if rehash.Some? then SetAdminPassword(admins, admin.id, rehash.value) else admins
  }

  /** Lines 41-79: look the admin up and check the password, writing the
      bcrypt hash over a matching legacy hash. */
  method CheckCredentials(store: Store, email: string, password: string, c: Crypto)
    returns (r: Option<(Admin, Option<string>)>)
    requires store.Valid()
    modifies store
    ensures store.Valid()
    ensures r == old(Credentials(store.admins, email, password, c))
    ensures unchanged(store`adminSessions, store`companies, store`tenants)
    ensures r.None? ==> unchanged(store)
    ensures r.Some? ==> store.admins == Migrated(old(store.admins), r.value.0, r.value.1)
  {
    var admin := FindAdminByEmail(store.admins, email);
    if admin.None? || !Truthy(admin.value.password) {
      return None;
    }
    var stored := admin.value.password.value;
    if IsLegacySha256Hash(stored) {
      var newHash := MigrateLegacyHash(c, password, stored);
      if newHash.None? {
        return None;
      }
      var admins := SetAdminPassword(store.admins, admin.value.id, newHash.value);
      KeyUniqueAfterUpdate(store.admins, admins, AdminIdOf);
      KeyUniqueAfterUpdate(store.admins, admins, AdminEmailOf);
      store.admins := admins;
      return Some((admin.value, newHash));
    }
    var isValid := VerifyPassword(c, password, stored);
    if !isValid {
      return None;
    }
    return Some((admin.value, None));
  }

  /** Lines 83-114: insert the session row and set the cookie; a failed
      insert throws into the 500 answer. */
  method OpenSession(store: Store, jar: CookieJar, adminId: string, sessionId: string, token: string,
                     rememberMe: bool, now: int)
    returns (resp: Response)
    requires store.Valid() && jar.Valid()
    modifies store, jar
    ensures store.Valid() && jar.Valid()
    ensures unchanged(store`admins, store`companies, store`tenants)
    ensures var s := NewAdminSession(sessionId, adminId, token, rememberMe, now);
      if AdminSessionFits(old(store.adminSessions), s) then
        && resp == Json(200, Success)
        && store.adminSessions == old(store.adminSessions) + [s]
        && jar.cookies == SetCookie(old(jar.cookies),
             Cookie(AdminAuth.ADMIN_SESSION_COOKIE, token, Some(AdminCookieAttrs(rememberMe))))
      else
        resp == Text(500, ServerError) && unchanged(store, jar)
  {
    var s := NewAdminSession(sessionId, adminId, token, rememberMe, now);
    var inserted := InsertAdminSession(store.adminSessions, s);
    if inserted.None? {
      return Text(500, ServerError);
    }
    store.adminSessions := inserted.value;
    jar.Set(AdminAuth.ADMIN_SESSION_COOKIE, token, AdminCookieAttrs(rememberMe));
    return Json(200, Success);
  }

  /** `POST /api/auth/admin/sign-in/email`. `sessionId` is the uuid and
      `random` the 32-byte draw for the token. */
  method SignIn(
    store: Store, limiter: RateLimiter, jar: CookieJar, headers: Headers, body: Option<AdminBody>, c: Crypto,
    sessionId: string, random: seq<byte>, now: int)
    returns (resp: Response)
    requires store.Valid() && limiter.Valid() && jar.Valid()
    modifies store, limiter, jar
    ensures store.Valid() && limiter.Valid() && jar.Valid()
    ensures unchanged(store`companies, store`tenants)
    ensures match old(Evaluate(headers, body, store.admins, limiter.entries, c, now))
      case MalformedBody =>
        resp == Text(500, ServerError) && unchanged(store, limiter, jar)
      case FieldsMissing =>
        resp == Text(400, EmailAndPasswordRequired) && unchanged(store, limiter, jar)
      case Throttled(d) =>
        && resp == Json(429, RateLimited(TooManyAttempts(LockoutMinutes(d.retryAfter)), d.retryAfter))
        && limiter.entries == Check(old(limiter.entries), AdminKey(headers, body.value.email.value), now).1
        && unchanged(store, jar)
      case Refused =>
        && resp == Text(401, InvalidCredentials)
        && limiter.entries == Check(old(limiter.entries), AdminKey(headers, body.value.email.value), now).1
        && unchanged(store, jar)
      case Admitted(admin, rehash) =>
        var key := AdminKey(headers, body.value.email.value);
        var s := NewAdminSession(sessionId, admin.id, ToHex(random), body.value.rememberMe, now);
        && limiter.entries == Check(old(limiter.entries), key, now).1 - {key}
        && store.admins == Migrated(old(store.admins), admin, rehash)
        && (if AdminSessionFits(old(store.adminSessions), s) then
              && resp == Json(200, Success)
              && store.adminSessions == old(store.adminSessions) + [s]
              && jar.cookies == SetCookie(old(jar.cookies),
                   Cookie(AdminAuth.ADMIN_SESSION_COOKIE, ToHex(random), Some(AdminCookieAttrs(body.value.rememberMe))))
            else
              && resp == Text(500, ServerError)
              && store.adminSessions == old(store.adminSessions)
              && unchanged(jar))
  {
    if body.None? {
      return Text(500, ServerError);
    }
    var email, password, rememberMe := body.value.email, body.value.password, body.value.rememberMe;
    if !Truthy(email) || !Truthy(password) {
      return Text(400, EmailAndPasswordRequired);
    }
    var rateLimitKey := RateLimitKey(SecurityLog.ForwardedIpOrNull(headers), "admin_" + email.value);
    var d := limiter.CheckRateLimit(rateLimitKey, now);
    if !d.allowed {
      return Json(429, RateLimited(TooManyAttempts(LockoutMinutes(d.retryAfter)), d.retryAfter));
    }
    var found := CheckCredentials(store, email.value, password.value, c);
    if found.None? {
      return Text(401, InvalidCredentials);
    }
    limiter.ResetRateLimit(rateLimitKey);
    resp := OpenSession(store, jar, found.value.0.id, sessionId, ToHex(random), rememberMe, now);
  }

  // ---------------------------------------------------------------------
  // Properties

  /** After a successful sign-in, the new cookie is recognised as that
      admin's session until the start of the row's expiry second (in the
      milliseconds of `t`), and no longer. */
  lemma SignedInAdminRecognised(cs: seq<Cookie>, rows: seq<AdminSession>, s: AdminSession, attrs: CookieAttrs, t: int)
    requires AdminSessionsValid(rows) && AdminSessionFits(rows, s)
    ensures var jar := SetCookie(cs, Cookie(AdminAuth.ADMIN_SESSION_COOKIE, s.token, Some(attrs)));
      AdminAuth.GetAdminSession(jar, rows + [s], t) ==
        if t < s.expiresAt * 1000 then Some(AdminAuth.AdminIdentity(s.adminId, s.id)) else None
  {
    BeforeSecond(t, s.expiresAt);
    var jar := SetCookie(cs, Cookie(AdminAuth.ADMIN_SESSION_COOKIE, s.token, Some(attrs)));
    var after := InsertAdminSession(rows, s).value;
    assert s in after by { assert after[|rows|] == s; }
    if t < s.expiresAt * 1000 {
      AdminAuth.LiveAdminSessionFound(jar, after, t, s);
    } else {
      AdminAuth.ExpiredAdminSessionRefused(jar, after, t, s);
    }
  }

  /** Admin keys live in their own namespace: for the same address value
      and email, a tenant-style key and the admin key differ. */
  lemma AdminKeySeparate(headers: Headers, email: string)
    ensures AdminKey(headers, email) != RateLimitKey(SecurityLog.ForwardedIpOrNull(headers), email)
  {
    KeyNamespacesDisjoint(SecurityLog.ForwardedIpOrNull(headers), email);
  }

  /** When a forwarded address is present both routes key on it, so the
      admin key and the tenant login key of one request differ. */
  lemma AdminKeySeparateFromLoginKey(headers: Headers, email: string)
    requires Truthy(SecurityLog.ForwardedFor(headers))
    ensures AdminKey(headers, email) != TenantLogin.LoginKey(headers, email)
  {
    assert SecurityLog.ForwardedIpOrNull(headers) == Some(TenantLogin.ClientIp(headers));
    KeyNamespacesDisjoint(SecurityLog.ForwardedIpOrNull(headers), email);
  }

  /** Without a forwarded address the admin route keys on "unknown". */
  lemma AdminKeyWithoutForwarded(headers: Headers, email: string)
    requires "x-forwarded-for" !in headers
    ensures AdminKey(headers, email) == "unknown_admin_" + Lower(email)
  {
    LowerAppend("admin_", email);
    AdminPrefixLower();
    UnknownAdminJoin(Lower(email));
  }

  /** Solver step for `AdminKeyWithoutForwarded`: the prefix has no upper-case letter. */
  lemma AdminPrefixLower()
    ensures Lower("admin_") == "admin_"
  {
    var a := "admin_";
    assert forall i :: 0 <= i < |a| ==> LowerChar(a[i]) == a[i];
  }

  /** Solver step for `AdminKeyWithoutForwarded` (and so `AdminKeyMeetsLoginKey`): the key's literal parts joined. */
  lemma UnknownAdminJoin(l: string)
    ensures "unknown" + "_" + ("admin_" + l) == "unknown_admin_" + l
  {
  }

  /** The tenant login falls back on `x-real-ip` instead, so a request
      without a forwarded address whose `x-real-ip` is `unknown_admin`
      shares its admin key with its tenant login key, for every email. */
  lemma AdminKeyMeetsLoginKey(headers: Headers, email: string)
    requires "x-forwarded-for" !in headers
    requires "x-real-ip" in headers && headers["x-real-ip"] == "unknown_admin"
    ensures AdminKey(headers, email) == TenantLogin.LoginKey(headers, email)
  {
    AdminKeyWithoutForwarded(headers, email);
    assert TenantLogin.ClientIp(headers) == "unknown_admin";
  }
}
