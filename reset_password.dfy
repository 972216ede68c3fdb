/** The password reset, src/app/api/tenant/reset-password/route.ts: field
    and strength checks, the code lookup, then the new bcrypt hash, the
    removal of every session of the user and of every code for the email,
    and a PASSWORD_RESET_SUCCESS log entry. */
module ResetPassword {
  import opened Common
  import opened Crypto
  import opened Db
  import opened Cookies
  import opened Http
  import opened Password
  import Csrf
  import SecurityLog
  import Sessions
  import VerifyResetCode

  /** The JSON body; None when `req.json()` throws. */
  datatype ResetBody = ResetBody(
    companySlug: Option<string>, email: Option<string>, code: Option<string>, newPassword: Option<string>)

  predicate FieldsPresent(b: ResetBody) {
    Truthy(b.companySlug) && Truthy(b.email) && Truthy(b.code) && Truthy(b.newPassword)
  }

  /** `delete from verification where identifier = email`. */
  function WithoutIdentifier(rows: seq<Verification>, email: string): (r: seq<Verification>)
    ensures forall i :: 0 <= i < |r| ==> r[i] in rows && r[i].identifier != email
    ensures forall i :: 0 <= i < |rows| && rows[i].identifier != email ==> rows[i] in r
  {
    Filter(rows, (v: Verification) => v.identifier != email)
  }

  datatype Stage =
    | CsrfRejected
    | MalformedBody
    | FieldsMissing
    | Weak(error: PwError)
    | UnknownCompany
    | NoCode(company: Company)
    | UnknownUser(company: Company)
    | Reset(company: Company, user: User)

  /** The decisions of lines 13-65, on the state before the call. */
  function Evaluate(headers: Headers, cs: seq<Cookie>, body: Option<ResetBody>, store: Store, now: int): (st: Stage)
    reads store
    ensures st.Weak? ==>
      && body.Some? && FieldsPresent(body.value)
      && ValidatePasswordStrength(body.value.newPassword.value) == Invalid(st.error)
    ensures st.UnknownCompany? || st.NoCode? || st.UnknownUser? || st.Reset? ==>
      && Csrf.CsrfProtection(headers, cs).valid && body.Some? && FieldsPresent(body.value)
      && ValidatePasswordStrength(body.value.newPassword.value).Valid?
    ensures st.Reset? ==>
      && st.company in store.companies
      && st.user in store.Tenant(st.company.id).users && st.user.email == body.value.email.value
      && VerifyResetCode.FindValidCode(store.Tenant(st.company.id).verifications,
           body.value.email.value, body.value.code.value, now).Some?
  {
    if !Csrf.CsrfProtection(headers, cs).valid then CsrfRejected
    else if body.None? then MalformedBody
    else if !FieldsPresent(body.value) then FieldsMissing
    else
      var b := body.value;
      match ValidatePasswordStrength(b.newPassword.value)
      case Invalid(e) => Weak(e)
      case Valid =>
        match GetCompanyBySlugOrId(store.companies, b.companySlug.value)
        case None => UnknownCompany
        case Some(company) =>
          var db := store.Tenant(company.id);
          if VerifyResetCode.FindValidCode(db.verifications, b.email.value, b.code.value, now).None? then
            NoCode(company)
          else match FindUserByEmail(db.users, b.email.value)
            case None => UnknownUser(company)
            case Some(user) => Reset(company, user)
  }

  /** The tenant's store after lines 67-78; `wipeFails` is whether the
      session delete inside `invalidateAllUserSessions` throws, which that
      helper swallows and the route never learns of. */
  function AfterReset(db: TenantDb, email: string, userId: string, hash: string, now: int, wipeFails: bool): (r: TenantDb)
    ensures r.securityLog == db.securityLog
  {
    db.(users := SetUserPasswordByEmail(db.users, email, hash, now),
        sessions := if wipeFails then db.sessions else Sessions.WithoutUser(db.sessions, userId),
        verifications := WithoutIdentifier(db.verifications, email))
  }

  function ResetRow(headers: Headers, userId: string, email: string, now: int): SecurityLogRow {
    SecurityLog.LogRow(Some(userId), PASSWORD_RESET_SUCCESS, Some(SecurityLog.GetClientInfo(headers).ipAddress),
      SecurityLog.OrNull(Header(headers, "user-agent")), Some(Details(email, None)), now)
  }

  /** Lines 67-78: the new hash on every row with the email, then the
      user's sessions and the email's codes deleted. */
  method ApplyReset(store: Store, companyId: string, email: string, userId: string, hash: string, now: int,
                    wipeFails: bool)
    requires store.Valid()
    modifies store
    ensures store.Valid()
    ensures unchanged(store`admins, store`adminSessions, store`companies)
    ensures store.tenants == old(store.tenants)[companyId :=
      AfterReset(old(store.Tenant(companyId)), email, userId, hash, now, wipeFails)]
  {
    var db := store.Tenant(companyId);
    var users := SetUserPasswordByEmail(db.users, email, hash, now);
    KeyUniqueAfterUpdate(db.users, users, UserIdOf);
    KeyUniqueAfterUpdate(db.users, users, UserEmailOf);
    store.PutTenant(companyId, db.(users := users));
    ghost var t1 := store.tenants;
    if !wipeFails {
      var _ := Sessions.InvalidateAllUserSessions(store, companyId, userId);
      MapOverwrite(old(store.tenants), companyId, t1[companyId], store.tenants[companyId]);
    }
    var db2 := store.Tenant(companyId);
    FilterKeepsKeyUnique(db2.verifications, (v: Verification) => v.identifier != email, VerificationIdOf);
    ghost var t2 := store.tenants;
    store.PutTenant(companyId, db2.(verifications := WithoutIdentifier(db2.verifications, email)));
    MapOverwrite(old(store.tenants), companyId, t2[companyId], store.tenants[companyId]);
  }

  /** `POST /api/tenant/reset-password`; `wipeFails` is whether the
      session delete throws (and is swallowed), `logFails` whether the log
      insert throws. */
  method ResetPassword(
    store: Store, headers: Headers, cs: seq<Cookie>, body: Option<ResetBody>, c: Crypto, now: int,
    wipeFails: bool, logFails: bool)
    returns (resp: Response)
    requires store.Valid()
    modifies store
    ensures store.Valid()
    ensures unchanged(store`admins, store`adminSessions, store`companies)
    ensures match old(Evaluate(headers, cs, body, store, now))
      case CsrfRejected => resp == Json(403, Error(InvalidRequest)) && unchanged(store)
      case MalformedBody => resp == Json(500, Error(GenericError)) && unchanged(store)
      case FieldsMissing => resp == Json(400, Error(FieldsRequired)) && unchanged(store)
      case Weak(e) => resp == Json(400, Error(WeakPassword(e))) && unchanged(store)
      case UnknownCompany => resp == Json(400, Error(InvalidData)) && unchanged(store)
      case NoCode(_) => resp == Json(400, Error(CodeInvalidOrExpired)) && unchanged(store)
      case UnknownUser(_) => resp == Json(400, Error(InvalidData)) && unchanged(store)
      case Reset(company, user) =>
        var email := body.value.email.value;
        && resp == Json(200, Success)
        && store.tenants == old(store.tenants)[company.id := SecurityLog.AppendLog(
             AfterReset(old(store.Tenant(company.id)), email, user.id, HashPassword(c, body.value.newPassword.value), now,
                        wipeFails),
             ResetRow(headers, user.id, email, now), logFails)]
  {
    var csrf := Csrf.CsrfProtection(headers, cs);
    if !csrf.valid {
      return Json(403, Error(InvalidRequest));
    }
    if body.None? {
      return Json(500, Error(GenericError));
    }
    var b := body.value;
    var ip := SecurityLog.GetClientInfo(headers).ipAddress;
    var userAgent := SecurityLog.OrNull(Header(headers, "user-agent"));
    if !FieldsPresent(b) {
      return Json(400, Error(FieldsRequired));
    }
    var email := b.email.value;
    var passwordValidation := ValidatePasswordStrength(b.newPassword.value);
    if passwordValidation.Invalid? {
      return Json(400, Error(WeakPassword(passwordValidation.error)));
    }
    var company := GetCompanyBySlugOrId(store.companies, b.companySlug.value);
    if company.None? {
      return Json(400, Error(InvalidData));
    }
    var companyId := company.value.id;
    var tenantDb := store.Tenant(companyId);
    var foundVerification := VerifyResetCode.FindValidCode(tenantDb.verifications, email, b.code.value, now);
    if foundVerification.None? {
      return Json(400, Error(CodeInvalidOrExpired));
    }
    var existingUser := FindUserByEmail(tenantDb.users, email);
    if existingUser.None? {
      return Json(400, Error(InvalidData));
    }
    var passwordHash := HashPassword(c, b.newPassword.value);
    ApplyReset(store, companyId, email, existingUser.value.id, passwordHash, now, wipeFails);
    ghost var t1 := store.tenants;
    var _ := SecurityLog.LogSecurityEvent(store, companyId, Some(existingUser.value.id), PASSWORD_RESET_SUCCESS,
      Some(ip), userAgent, Some(Details(email, None)), now, logFails);
    MapOverwrite(old(store.tenants), companyId, t1[companyId], store.tenants[companyId]);
    return Json(200, Success);
  }

  // ---------------------------------------------------------------------
  // Properties

  /** After a reset the user's password is the new one, and only that
      user's row (the one holding the email) changed. */
  lemma ResetSetsPassword(db: TenantDb, email: string, userId: string, c: Crypto, newPassword: string, now: int,
                          wipeFails: bool)
    requires Sound(c)
    ensures var after := AfterReset(db, email, userId, HashPassword(c, newPassword), now, wipeFails).users;
      && |after| == |db.users|
      && forall i :: 0 <= i < |after| ==>
           if db.users[i].email == email
           then after[i].password.Some? && VerifyPassword(c, newPassword, after[i].password.value)
           else after[i] == db.users[i]
  {
    HashThenVerify(c, newPassword);
  }

  /** After a reset whose session delete went through, no session of the
      user validates and no code sent to the email is accepted, whatever
      the time. */
  lemma ResetRevokesEverything(db: TenantDb, email: string, userId: string, hash: string, now: int,
                               s: Session, code: string, t: int)
    requires TenantDbValid(db) && s in db.sessions && s.userId == userId
    ensures var after := AfterReset(db, email, userId, hash, now, false);
      && Sessions.FindValid(after.sessions, s.token, t).None?
      && VerifyResetCode.FindValidCode(after.verifications, email, code, t).None?
  {
    Sessions.InvalidateAllRevokesUser(db.sessions, userId, t, s);
  }

  /** When the session delete fails, the reset still answers success with
      the new password and the codes gone, but every session of the user is
      kept, so a live one still validates. */
  lemma FailedWipeKeepsSessions(db: TenantDb, email: string, userId: string, hash: string, now: int,
                                s: Session, code: string, t: int)
    requires TenantDbValid(db) && s in db.sessions && s.userId == userId && t < s.expiresAt
    ensures var after := AfterReset(db, email, userId, hash, now, true);
      && after.sessions == db.sessions
      && Sessions.FindValid(after.sessions, s.token, t) == Some(s)
      && VerifyResetCode.FindValidCode(after.verifications, email, code, t).None?
  {
    Sessions.FindValidUnique(db.sessions, s, t);
  }
}
