/** The tenant login route, src/app/api/tenant/login/route.ts: CSRF check,
    field check, rate limit, company and user lookup, password check with
    legacy migration, limiter reset, session cap, session insert, the two
    tenant cookies, and the security log. */
module TenantLogin {
  import opened Common
  import opened Crypto
  import opened Db
  import opened Cookies
  import opened Http
  import opened Password
  import opened RateLimit
  import Csrf
  import SecurityLog
  import AuthGuard
  import SessionCap
  import Sessions

  /** The JSON body; None when `req.json()` throws or gives no object. */
  datatype LoginBody = LoginBody(companySlug: Option<string>, email: Option<string>, password: Option<string>)

  /** The session lifetime: 7 days, in seconds for the cookie and in
      milliseconds for the row. */
  const SESSION_MAX_AGE: int := 60 * 60 * 24 * 7
  const SESSION_TTL_MS: int := 7 * 24 * 60 * 60 * 1000

  function SessionCookieAttrs(): CookieAttrs {
    CookieAttrs(httpOnly := true, secure := true, sameSite := Lax, maxAge := SESSION_MAX_AGE, path := "/")
  }

  function CsrfCookieAttrs(): CookieAttrs {
    CookieAttrs(httpOnly := true, secure := true, sameSite := Strict, maxAge := SESSION_MAX_AGE, path := "/")
  }

  /** The caller's address as the route reads it (line 28). */
  function ClientIp(headers: Headers): string {
    SecurityLog.GetClientInfo(headers).ipAddress
  }

  /** `headersList.get("user-agent") || null`. */
  function UserAgent(headers: Headers): Option<string> {
    SecurityLog.OrNull(Header(headers, "user-agent"))
  }

  function LoginKey(headers: Headers, email: string): string {
    RateLimitKey(Some(ClientIp(headers)), email)
  }

  /** How far a login attempt gets, decided on the state before the call. */
  datatype Stage =
    | CsrfRejected
    | MalformedBody
    | FieldsMissing
    | Throttled(decision: Decision)
    | UnknownCompany(remaining: int)
    | NoSuchUser(company: Company, remaining: int)
    | BadPassword(company: Company, user: User, remaining: int)
      /** `rehash` is the bcrypt hash that replaces a matching legacy hash. */
    | Accepted(company: Company, user: User, rehash: Option<string>)

  predicate FieldsPresent(b: LoginBody) {
    Truthy(b.companySlug) && Truthy(b.email) && Truthy(b.password)
  }

  /** The decisions of lines 40-86: company, user, stored hash, password. */
  function Authentication(store: Store, companySlug: string, email: string, password: string, c: Crypto, remaining: int)
    : (st: Stage)
    reads store
    ensures st.UnknownCompany? || st.NoSuchUser? || st.BadPassword? || st.Accepted?
    ensures st.UnknownCompany? ==> st.remaining == remaining
    ensures st.NoSuchUser? ==> st.remaining == remaining && st.company in store.companies
    ensures st.BadPassword? ==> st.remaining == remaining && st.company in store.companies
    ensures st.Accepted? ==>
      && st.company in store.companies
      && st.user in store.Tenant(st.company.id).users && st.user.email == email
  {
    match GetCompanyBySlugOrId(store.companies, companySlug)
    case None => UnknownCompany(remaining)
    case Some(company) =>
      match FindUserByEmail(store.Tenant(company.id).users, email)
      case None => NoSuchUser(company, remaining)
      case Some(user) =>
        if !Truthy(user.password) then NoSuchUser(company, remaining)
        else if IsLegacySha256Hash(user.password.value) then
          match MigrateLegacyHash(c, password, user.password.value)
          case None => BadPassword(company, user, remaining)
          case Some(h) => Accepted(company, user, Some(h))
        else if VerifyPassword(c, password, user.password.value) then Accepted(company, user, None)
        else BadPassword(company, user, remaining)
  }

  /** The decisions of lines 15-86, in order. */
  function Evaluate(
    headers: Headers, cs: seq<Cookie>, body: Option<LoginBody>, store: Store,
    entries: map<string, Entry>, c: Crypto, now: int): (st: Stage)
    reads store
    ensures st.Throttled? || st.UnknownCompany? || st.NoSuchUser? || st.BadPassword? || st.Accepted? ==>
      Csrf.CsrfProtection(headers, cs).valid && body.Some? && FieldsPresent(body.value)
    ensures st.Accepted? ==>
      && st.company in store.companies
      && st.user in store.Tenant(st.company.id).users && st.user.email == body.value.email.value
      && Check(entries, LoginKey(headers, body.value.email.value), now).0.allowed
  {
    if !Csrf.CsrfProtection(headers, cs).valid then CsrfRejected
    else if body.None? then MalformedBody
    else if !FieldsPresent(body.value) then FieldsMissing
    else
      var d := Check(entries, LoginKey(headers, body.value.email.value), now).0;
      if !d.allowed then Throttled(d)
      else Authentication(store, body.value.companySlug.value, body.value.email.value, body.value.password.value,
                          c, d.remainingAttempts)
  }

  /** The tenant store after the password migration and the session cap. */
  function Prepared(db: TenantDb, user: User, rehash: Option<string>, now: int): TenantDb {
    CappedDb(db.(users := if rehash.Some? then SetUserPasswordById(db.users, user.id, rehash.value, now) else db.users),
             user.id, now)
  }

  /** The session row the route inserts. */
  function NewSession(sessionId: string, token: string, headers: Headers, user: User, now: int): (s: Session)
    ensures s.token == token && s.userId == user.id && s.expiresAt == now + SESSION_TTL_MS
  {
    Session(sessionId, token, user.id, now + SESSION_TTL_MS, now, now, Some(ClientIp(headers)), UserAgent(headers))
  }

  function FailureRow(headers: Headers, userId: Option<string>, email: string, reason: string, now: int): SecurityLogRow {
    SecurityLog.LogRow(userId, LOGIN_FAILED, Some(ClientIp(headers)), UserAgent(headers), Some(Details(email, Some(reason))), now)
  }

  function SuccessRow(headers: Headers, userId: string, email: string, now: int): SecurityLogRow {
    SecurityLog.LogRow(Some(userId), LOGIN_SUCCESS, Some(ClientIp(headers)), UserAgent(headers), Some(Details(email, None)), now)
  }

  const GENERIC_FAILURE: Msg := InvalidCredentials

  /** Lines 40-86: find the company and the user, check the password
      (migrating a matching legacy hash), and log a failure. */
  method Authenticate(
    store: Store, headers: Headers, companySlug: string, email: string, password: string, c: Crypto,
    remaining: int, now: int, logFails: bool)
    returns (st: Stage)
    requires store.Valid()
    modifies store
    ensures store.Valid()
    ensures unchanged(store`admins, store`adminSessions, store`companies)
    ensures st == old(Authentication(store, companySlug, email, password, c, remaining))
    ensures st.UnknownCompany? ==> store.tenants == old(store.tenants)
    ensures st.NoSuchUser? ==> store.tenants == old(store.tenants)[st.company.id := SecurityLog.AppendLog(
      old(store.Tenant(st.company.id)), FailureRow(headers, None, email, "User not found", now), logFails)]
    ensures st.BadPassword? ==> store.tenants == old(store.tenants)[st.company.id := SecurityLog.AppendLog(
      old(store.Tenant(st.company.id)), FailureRow(headers, Some(st.user.id), email, "Invalid password", now), logFails)]
    ensures st.UnknownCompany? ==> unchanged(store)
    ensures st.Accepted? && st.rehash.Some? ==> store.tenants == old(store.tenants)[st.company.id :=
      old(store.Tenant(st.company.id)).(users :=
        SetUserPasswordById(old(store.Tenant(st.company.id)).users, st.user.id, st.rehash.value, now))]
    ensures st.Accepted? && st.rehash.None? ==> store.tenants == old(store.tenants)
  {
    var ip := ClientIp(headers);
    var userAgent := UserAgent(headers);
    var company := GetCompanyBySlugOrId(store.companies, companySlug);
    if company.None? {
      return UnknownCompany(remaining);
    }
    var companyId := company.value.id;
    var tenantDb := store.Tenant(companyId);
    var foundUser := FindUserByEmail(tenantDb.users, email);
    if foundUser.None? || !Truthy(foundUser.value.password) {
      var _ := SecurityLog.LogSecurityEvent(store, companyId, None, LOGIN_FAILED, Some(ip), userAgent,
        Some(Details(email, Some("User not found"))), now, logFails);
      return NoSuchUser(company.value, remaining);
    }
    var user := foundUser.value;
    var stored := user.password.value;
    var isValid := false;
    var rehash: Option<string> := None;
    if IsLegacySha256Hash(stored) {
      var newHash := MigrateLegacyHash(c, password, stored);
      if newHash.Some? {
        var users := SetUserPasswordById(tenantDb.users, user.id, newHash.value, now);
        KeyUniqueAfterUpdate(tenantDb.users, users, UserIdOf);
        KeyUniqueAfterUpdate(tenantDb.users, users, UserEmailOf);
        store.PutTenant(companyId, tenantDb.(users := users));
        rehash := newHash;
        isValid := true;
      }
    } else {
      isValid := VerifyPassword(c, password, stored);
    }
    if !isValid {
      var _ := SecurityLog.LogSecurityEvent(store, companyId, Some(user.id), LOGIN_FAILED, Some(ip), userAgent,
        Some(Details(email, Some("Invalid password"))), now, logFails);
      return BadPassword(company.value, user, remaining);
    }
    return Accepted(company.value, user, rehash);
  }

  /** The tenant's sessions after the cap for `userId`. */
  function CappedDb(db: TenantDb, userId: string, now: int): (r: TenantDb)
    ensures r.users == db.users && r.securityLog == db.securityLog && r.verifications == db.verifications
  {
    db.(sessions := SessionCap.Capped(db.sessions, userId, now))
  }

  /** Lines 90-117: cap the user's sessions, then insert the new row; false
      when the insert throws (its id or token is already in the table). */
  method StoreSession(store: Store, companyId: string, userId: string, issued: Session, now: int)
    returns (ok: bool)
    requires store.Valid()
    modifies store
    ensures store.Valid()
    ensures unchanged(store`admins, store`adminSessions, store`companies)
    ensures var prepared := CappedDb(old(store.Tenant(companyId)), userId, now);
      && ok == SessionFits(prepared.sessions, issued)
      && store.tenants == old(store.tenants)[companyId :=
           if ok then prepared.(sessions := prepared.sessions + [issued]) else prepared]
  {
    SessionCap.EnforceSessionCap(store, companyId, userId, now);
    var db := store.Tenant(companyId);
    var inserted := InsertSession(db.sessions, issued);
    if inserted.None? {
      return false;
    }
    store.PutTenant(companyId, db.(sessions := inserted.value));
    return true;
  }

  /** Lines 129-145: the session cookie (Lax) and the CSRF cookie (Strict). */
  method SetTenantCookies(jar: CookieJar, companyId: string, sessionToken: string, csrfToken: string)
    requires jar.Valid()
    modifies jar
    ensures jar.Valid()
    ensures jar.cookies == SetCookie(SetCookie(old(jar.cookies),
      Cookie(AuthGuard.SessionCookieName(companyId), sessionToken, Some(SessionCookieAttrs()))),
      Cookie(Csrf.TenantCsrfCookieName(companyId), csrfToken, Some(CsrfCookieAttrs())))
  {
    jar.Set(AuthGuard.SessionCookieName(companyId), sessionToken, SessionCookieAttrs());
    jar.Set(Csrf.TenantCsrfCookieName(companyId), csrfToken, CsrfCookieAttrs());
  }

  /** Lines 148-160: the LOGIN_SUCCESS entry. */
  method LogSuccess(store: Store, headers: Headers, companyId: string, userId: string, email: string, now: int,
                    logFails: bool)
    requires store.Valid()
    modifies store
    ensures store.Valid()
    ensures unchanged(store`admins, store`adminSessions, store`companies)
    ensures store.tenants == old(store.tenants)[companyId :=
      SecurityLog.AppendLog(old(store.Tenant(companyId)), SuccessRow(headers, userId, email, now), logFails)]
  {
    var _ := SecurityLog.LogSecurityEvent(store, companyId, Some(userId), LOGIN_SUCCESS, Some(ClientIp(headers)),
      UserAgent(headers), Some(Details(email, None)), now, logFails);
  }

  /** Lines 90-174: store the session, set the session and CSRF cookies, log
      the success. A failed insert throws into the 500 answer, after the cap. */
  method IssueSession(
    store: Store, jar: CookieJar, headers: Headers, company: Company, user: User, email: string,
    sessionId: string, sessionToken: string, csrfToken: string, now: int, logFails: bool)
    returns (resp: Response)
    requires store.Valid() && jar.Valid()
    modifies store, jar
    ensures store.Valid() && jar.Valid()
    ensures unchanged(store`admins, store`adminSessions, store`companies)
    ensures var prepared := CappedDb(old(store.Tenant(company.id)), user.id, now);
      var issued := NewSession(sessionId, sessionToken, headers, user, now);
      if SessionFits(prepared.sessions, issued) then
        && resp == Json(200, LoggedIn(company.id, company.slug, csrfToken,
                                      UserView(user.id, user.name, user.email, user.role)))
        && store.tenants == old(store.tenants)[company.id := SecurityLog.AppendLog(
             prepared.(sessions := prepared.sessions + [issued]), SuccessRow(headers, user.id, email, now), logFails)]
        && jar.cookies == SetCookie(SetCookie(old(jar.cookies),
             Cookie(AuthGuard.SessionCookieName(company.id), sessionToken, Some(SessionCookieAttrs()))),
             Cookie(Csrf.TenantCsrfCookieName(company.id), csrfToken, Some(CsrfCookieAttrs())))
      else
        && resp == Json(500, Error(LoginFailed))
        && store.tenants == old(store.tenants)[company.id := prepared]
        && unchanged(jar)
  {
    var companyId := company.id;
    var issued := NewSession(sessionId, sessionToken, headers, user, now);
    ghost var prepared := CappedDb(store.Tenant(companyId), user.id, now);
    var ok := StoreSession(store, companyId, user.id, issued, now);
    if !ok {
      return Json(500, Error(LoginFailed));
    }
    SetTenantCookies(jar, companyId, sessionToken, csrfToken);
    ghost var stored := store.tenants;
    LogSuccess(store, headers, companyId, user.id, email, now, logFails);
    MapOverwrite(old(store.tenants), companyId, stored[companyId], store.tenants[companyId]);
    return Json(200, LoggedIn(companyId, company.slug, csrfToken, UserView(user.id, user.name, user.email, user.role)));
  }

  /** Lines 40-174, once the limiter has let the attempt through with
      `remaining` attempts left under `key`. */
  method SignIn(
    store: Store, limiter: RateLimiter, jar: CookieJar, headers: Headers, companySlug: string, email: string,
    password: string, c: Crypto, key: string, remaining: int,
    sessionId: string, sessionToken: string, csrfToken: string, now: int, logFails: bool)
    returns (resp: Response)
    requires store.Valid() && limiter.Valid() && jar.Valid()
    modifies store, limiter, jar
    ensures store.Valid() && limiter.Valid() && jar.Valid()
    ensures match old(Authentication(store, companySlug, email, password, c, remaining))
      case Accepted(company, user, rehash) =>
        var prepared := Prepared(old(store.Tenant(company.id)), user, rehash, now);
        var issued := NewSession(sessionId, sessionToken, headers, user, now);
        && limiter.entries == old(limiter.entries) - {key}
        && unchanged(store`admins, store`adminSessions, store`companies)
        && (if SessionFits(prepared.sessions, issued) then
              && resp == Json(200, LoggedIn(company.id, company.slug, csrfToken,
                                            UserView(user.id, user.name, user.email, user.role)))
              && store.tenants == old(store.tenants)[company.id := SecurityLog.AppendLog(
                   prepared.(sessions := prepared.sessions + [issued]), SuccessRow(headers, user.id, email, now), logFails)]
              && jar.cookies == SetCookie(SetCookie(old(jar.cookies),
                   Cookie(AuthGuard.SessionCookieName(company.id), sessionToken, Some(SessionCookieAttrs()))),
                   Cookie(Csrf.TenantCsrfCookieName(company.id), csrfToken, Some(CsrfCookieAttrs())))
            else
              && resp == Json(500, Error(LoginFailed))
              && store.tenants == old(store.tenants)[company.id := prepared]
              && unchanged(jar))
      case UnknownCompany(_) =>
        resp == Json(401, Rejected(GENERIC_FAILURE, remaining)) && unchanged(store, limiter, jar)
      case NoSuchUser(company, _) =>
        && resp == Json(401, Rejected(GENERIC_FAILURE, remaining))
        && unchanged(limiter, jar)
        && unchanged(store`admins, store`adminSessions, store`companies)
        && store.tenants == old(store.tenants)[company.id := SecurityLog.AppendLog(old(store.Tenant(company.id)),
             FailureRow(headers, None, email, "User not found", now), logFails)]
      case BadPassword(company, user, _) =>
        && resp == Json(401, Rejected(GENERIC_FAILURE, remaining))
        && unchanged(limiter, jar)
        && unchanged(store`admins, store`adminSessions, store`companies)
        && store.tenants == old(store.tenants)[company.id := SecurityLog.AppendLog(old(store.Tenant(company.id)),
             FailureRow(headers, Some(user.id), email, "Invalid password", now), logFails)]
      case _ => false
  {
    var st := Authenticate(store, headers, companySlug, email, password, c, remaining, now, logFails);
    if !st.Accepted? {
      return Json(401, Rejected(GENERIC_FAILURE, remaining));
    }
    ghost var mid := store.tenants;
    limiter.ResetRateLimit(key);
    resp := IssueSession(store, jar, headers, st.company, st.user, email, sessionId, sessionToken, csrfToken,
      now, logFails);
    if st.rehash.Some? {
      MapOverwrite(old(store.tenants), st.company.id, mid[st.company.id], store.tenants[st.company.id]);
    }
  }

  /** `POST /api/tenant/login`. `sessionId` is the uuid, `sessionRandom` and
      `csrfRandom` the two 32-byte draws, `logFails` whether the log insert
      throws. */
  method Login(
    store: Store, limiter: RateLimiter, jar: CookieJar, headers: Headers, body: Option<LoginBody>, c: Crypto,
    sessionId: string, sessionRandom: seq<byte>, csrfRandom: seq<byte>, now: int, logFails: bool)
    returns (resp: Response)
    requires store.Valid() && limiter.Valid() && jar.Valid()
    requires |sessionRandom| == 32 && |csrfRandom| == 32
    modifies store, limiter, jar
    ensures store.Valid() && limiter.Valid() && jar.Valid()
    ensures var st := old(Evaluate(headers, jar.cookies, body, store, limiter.entries, c, now));
      match st
      case CsrfRejected =>
        resp == Json(403, Error(InvalidRequest)) && unchanged(store, limiter, jar)
      case MalformedBody =>
        resp == Json(500, Error(LoginFailed)) && unchanged(store, limiter, jar)
      case FieldsMissing =>
        resp == Json(400, Error(FieldsRequired)) && unchanged(store, limiter, jar)
      case Throttled(d) =>
        && resp == Json(429, RateLimited(TooManyAttempts(LockoutMinutes(d.retryAfter)), d.retryAfter))
        && unchanged(store, jar)
        && limiter.entries == Check(old(limiter.entries), LoginKey(headers, body.value.email.value), now).1
      case UnknownCompany(remaining) =>
        && resp == Json(401, Rejected(GENERIC_FAILURE, remaining))
        && unchanged(store, jar)
        && limiter.entries == Check(old(limiter.entries), LoginKey(headers, body.value.email.value), now).1
      case NoSuchUser(company, remaining) =>
        && resp == Json(401, Rejected(GENERIC_FAILURE, remaining))
        && unchanged(jar)
        && limiter.entries == Check(old(limiter.entries), LoginKey(headers, body.value.email.value), now).1
        && unchanged(store`admins, store`adminSessions, store`companies)
        && store.tenants == old(store.tenants)[company.id := SecurityLog.AppendLog(old(store.Tenant(company.id)),
             FailureRow(headers, None, body.value.email.value, "User not found", now), logFails)]
      case BadPassword(company, user, remaining) =>
        && resp == Json(401, Rejected(GENERIC_FAILURE, remaining))
        && unchanged(jar)
        && limiter.entries == Check(old(limiter.entries), LoginKey(headers, body.value.email.value), now).1
        && unchanged(store`admins, store`adminSessions, store`companies)
        && store.tenants == old(store.tenants)[company.id := SecurityLog.AppendLog(old(store.Tenant(company.id)),
             FailureRow(headers, Some(user.id), body.value.email.value, "Invalid password", now), logFails)]
      case Accepted(company, user, rehash) =>
        var key := LoginKey(headers, body.value.email.value);
        var prepared := Prepared(old(store.Tenant(company.id)), user, rehash, now);
        var issued := NewSession(sessionId, ToHex(sessionRandom), headers, user, now);
        && limiter.entries == Check(old(limiter.entries), key, now).1 - {key}
        && unchanged(store`admins, store`adminSessions, store`companies)
        && (if SessionFits(prepared.sessions, issued) then
              && resp == Json(200, LoggedIn(company.id, company.slug, ToHex(csrfRandom),
                                            UserView(user.id, user.name, user.email, user.role)))
              && store.tenants == old(store.tenants)[company.id := SecurityLog.AppendLog(
                   prepared.(sessions := prepared.sessions + [issued]),
                   SuccessRow(headers, user.id, body.value.email.value, now), logFails)]
              && jar.cookies == SetCookie(SetCookie(old(jar.cookies),
                   Cookie(AuthGuard.SessionCookieName(company.id), ToHex(sessionRandom), Some(SessionCookieAttrs()))),
                   Cookie(Csrf.TenantCsrfCookieName(company.id), ToHex(csrfRandom), Some(CsrfCookieAttrs())))
            else
              && resp == Json(500, Error(LoginFailed))
              && store.tenants == old(store.tenants)[company.id := prepared]
              && unchanged(jar))
  {
    ghost var st0 := Evaluate(headers, jar.cookies, body, store, limiter.entries, c, now);
    var csrf := Csrf.CsrfProtection(headers, jar.cookies);
    if !csrf.valid {
      assert st0 == CsrfRejected;
      return Json(403, Error(InvalidRequest));
    }
    if body.None? {
      assert st0 == MalformedBody;
      return Json(500, Error(LoginFailed));
    }
    var companySlug, email, password := body.value.companySlug, body.value.email, body.value.password;
    if !Truthy(companySlug) || !Truthy(email) || !Truthy(password) {
      assert st0 == FieldsMissing;
      return Json(400, Error(FieldsRequired));
    }
    var rateLimitKey := RateLimitKey(Some(ClientIp(headers)), email.value);
    var d := limiter.CheckRateLimit(rateLimitKey, now);
    if !d.allowed {
      assert st0 == Throttled(d);
      return Json(429, RateLimited(TooManyAttempts(LockoutMinutes(d.retryAfter)), d.retryAfter));
    }
    resp := SignIn(store, limiter, jar, headers, companySlug.value, email.value, password.value, c,
      rateLimitKey, d.remainingAttempts, sessionId, ToHex(sessionRandom), ToHex(csrfRandom), now, logFails);
  }

  // ---------------------------------------------------------------------
  // Properties

  /** After a successful login the user holds at most five unexpired
      sessions, the new one included; expired rows are not counted. */
  lemma LoginCapsSessions(db: TenantDb, user: User, rehash: Option<string>, issued: Session, now: int)
    requires TenantDbValid(db) && issued.userId == user.id && issued.expiresAt > now
    ensures |SessionCap.LiveSessionsOf(Prepared(db, user, rehash, now).sessions + [issued], user.id, now)|
      <= SessionCap.MAX_SESSIONS
  {
    SessionCap.CapThenInsertBound(db.sessions, user.id, now, issued);
  }

  /** The session cookie a successful login sets passes the tenant guard as
      that user for the company, at any time before the seven days run out. */
  lemma LoginCookieAuthorizes(
    cs: seq<Cookie>, db: TenantDb, companyId: string, user: User, rehash: Option<string>, sessionId: string,
    token: string, csrfToken: string, headers: Headers, email: string, now: int, t: int, logFails: bool)
    requires TenantDbValid(db) && token != "" && t < now + SESSION_TTL_MS
    requires SessionFits(Prepared(db, user, rehash, now).sessions, NewSession(sessionId, token, headers, user, now))
    ensures var prepared := Prepared(db, user, rehash, now);
      var after := SecurityLog.AppendLog(
        prepared.(sessions := prepared.sessions + [NewSession(sessionId, token, headers, user, now)]),
        SuccessRow(headers, user.id, email, now), logFails);
      var jar := SetCookie(SetCookie(cs,
        Cookie(AuthGuard.SessionCookieName(companyId), token, Some(SessionCookieAttrs()))),
        Cookie(Csrf.TenantCsrfCookieName(companyId), csrfToken, Some(CsrfCookieAttrs())));
      AuthGuard.VerifyTenantSession(jar, after, companyId, t, false) == AuthGuard.Authorized(user.id, companyId)
  {
    var prepared := Prepared(db, user, rehash, now);
    var issued := NewSession(sessionId, token, headers, user, now);
    SessionCap.DeleteEachKeepsSessionsValid(db.sessions, SessionCap.Evictions(db.sessions, user.id, now));
    var rows := InsertSession(prepared.sessions, issued).value;
    assert issued in rows by { assert rows[|rows| - 1] == issued; }
    Sessions.FindValidUnique(rows, issued, t);
    assert AuthGuard.SessionCookieName(companyId) != Csrf.TenantCsrfCookieName(companyId) by {
      var a, b := AuthGuard.SessionCookieName(companyId), Csrf.TenantCsrfCookieName(companyId);
      assert a[|a| - 1] == 'n' && b[|b| - 1] == 'f';
    }
  }
}
