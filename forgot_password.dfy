/** The reset-code request, src/app/api/tenant/forgot-password/route.ts:
    the six-digit code, the `reset_` rate limit, and one verification row
    for a known user, behind an answer that is the same whether the
    company and the user exist or not. */
module ForgotPassword {
  import opened Common
  import opened Db
  import opened Cookies
  import opened Http
  import opened RateLimit
  import Csrf
  import SecurityLog
  import VerifyResetCode

  // ---------------------------------------------------------------------
  // The code

  /** `generateOTP()` before `toString()`, for the draw `r` of
      `Math.random()`: `floor(100000 + r * 900000)`. */
  function GenerateOtp(r: real): (n: nat)
    requires 0.0 <= r < 1.0
    ensures 100000 <= n <= 999999
    ensures n as real <= 100000.0 + r * 900000.0 < n as real + 1.0
  {
    (100000.0 + r * 900000.0).Floor
  }

  function DigitChar(d: nat): (c: char)
    requires d < 10
    ensures '0' <= c <= '9'
  {
    (48 + d) as char
  }

  function DigitValue(c: char): nat
    requires '0' <= c <= '9'
  {
    (c as int - 48) as nat
  }

  /** `n.toString()` for a natural number. */
  function Decimal(n: nat): (s: string)
    ensures |s| >= 1 && forall i :: 0 <= i < |s| ==> '0' <= s[i] <= '9'
  {
    if n < 10 then [DigitChar(n)] else Decimal(n / 10) + [DigitChar(n % 10)]
  }

  /** Reading decimal digits back, most significant first. */
  function ParseDecimal(s: string): nat
    requires forall i :: 0 <= i < |s| ==> '0' <= s[i] <= '9'
  {
    if s == [] then 0 else ParseDecimal(s[..|s| - 1]) * 10 + DigitValue(s[|s| - 1])
  }

  function Pow10(k: nat): (p: nat)
    ensures p >= 1
  {
    if k == 0 then 1 else 10 * Pow10(k - 1)
  }

  lemma {:induction false} DecimalRoundTrip(n: nat)
    ensures ParseDecimal(Decimal(n)) == n
  {
    var s := Decimal(n);
    if n >= 10 {
      DecimalRoundTrip(n / 10);
      assert s[..|s| - 1] == Decimal(n / 10);
    }
  }

  /** A number in [10^(k-1), 10^k) is written with exactly k digits. */
  lemma {:induction false} DecimalLength(n: nat, k: nat)
    requires k >= 1 && Pow10(k - 1) <= n < Pow10(k)
    ensures |Decimal(n)| == k
  {
    if k > 1 {
      DecimalLength(n / 10, k - 1);
    }
  }

  /** The code as sent: six decimal digits that read back as the drawn
      number. */
  function OtpCode(r: real): (code: string)
    requires 0.0 <= r < 1.0
    ensures |code| == 6 && forall i :: 0 <= i < |code| ==> '0' <= code[i] <= '9'
    ensures 100000 <= ParseDecimal(code) <= 999999
  {
    var n := GenerateOtp(r);
    assert Pow10(5) == 100000 && Pow10(6) == 1000000;
    DecimalLength(n, 6);
    DecimalRoundTrip(n);
    Decimal(n)
  }

  // ---------------------------------------------------------------------
  // The route

  /** The JSON body; None when `req.json()` throws. */
  datatype ForgotBody = ForgotBody(companySlug: Option<string>, email: Option<string>)

  const RESET_CODE_TTL_MS: int := 15 * 60 * 1000

  function ResetKey(headers: Headers, email: string): string {
    RateLimitKey(SecurityLog.ForwardedIpOrNull(headers), "reset_" + email)
  }

  /** The one answer for unknown companies, unknown users and a code sent. */
  const SENT: Response := Json(200, SuccessMessage(ResetCodeSentIfExists))

  datatype Stage =
    | CsrfRejected
    | MalformedBody
    | FieldsMissing
    | Throttled(decision: Decision)
    | UnknownCompany
    | UnknownUser(company: Company)
    | Issue(company: Company)

  /** The decisions of lines 16-54, on the state before the call. */
  function Evaluate(headers: Headers, cs: seq<Cookie>, body: Option<ForgotBody>, store: Store,
                    entries: map<string, Entry>, now: int): (st: Stage)
    reads store
    ensures st.Throttled? || st.UnknownCompany? || st.UnknownUser? || st.Issue? ==>
      Csrf.CsrfProtection(headers, cs).valid && body.Some? && Truthy(body.value.companySlug) && Truthy(body.value.email)
    ensures st.Issue? ==>
      && st.company in store.companies
      && FindUserByEmail(store.Tenant(st.company.id).users, body.value.email.value).Some?
  {
    if !Csrf.CsrfProtection(headers, cs).valid then CsrfRejected
    else if body.None? then MalformedBody
    else if !Truthy(body.value.companySlug) || !Truthy(body.value.email) then FieldsMissing
    else
      var d := Check(entries, ResetKey(headers, body.value.email.value), now).0;
      if !d.allowed then Throttled(d)
      else match GetCompanyBySlugOrId(store.companies, body.value.companySlug.value)
        case None => UnknownCompany
        case Some(company) =>
          if FindUserByEmail(store.Tenant(company.id).users, body.value.email.value).None? then UnknownUser(company)
          else Issue(company)
  }

  /** The verification row the route inserts. */
  function NewCode(verificationId: string, email: string, r: real, now: int): (v: Verification)
    requires 0.0 <= r < 1.0
    ensures v.identifier == email && v.value == OtpCode(r) && v.expiresAt == now + RESET_CODE_TTL_MS
  {
    Verification(verificationId, email, OtpCode(r), now + RESET_CODE_TTL_MS, Some(now), Some(now))
  }

  /** `POST /api/tenant/forgot-password`. `r` is the `Math.random()` draw and
      `verificationId` the uuid. */
  method ForgotPassword(
    store: Store, limiter: RateLimiter, headers: Headers, cs: seq<Cookie>, body: Option<ForgotBody>,
    r: real, verificationId: string, now: int)
    returns (resp: Response)
    requires store.Valid() && limiter.Valid()
    requires 0.0 <= r < 1.0
    modifies store, limiter
    ensures store.Valid() && limiter.Valid()
    ensures unchanged(store`admins, store`adminSessions, store`companies)
    ensures match old(Evaluate(headers, cs, body, store, limiter.entries, now))
      case CsrfRejected => resp == Json(403, Error(InvalidRequest)) && unchanged(store, limiter)
      case MalformedBody => resp == Json(500, Error(GenericError)) && unchanged(store, limiter)
      case FieldsMissing => resp == Json(400, Error(FieldsRequired)) && unchanged(store, limiter)
      case Throttled(d) =>
        && resp == Json(429, Error(TooManyRequests(LockoutMinutes(d.retryAfter))))
        && limiter.entries == Check(old(limiter.entries), ResetKey(headers, body.value.email.value), now).1
        && unchanged(store)
      case UnknownCompany =>
        && resp == SENT
        && limiter.entries == Check(old(limiter.entries), ResetKey(headers, body.value.email.value), now).1
        && unchanged(store)
      case UnknownUser(_) =>
        && resp == SENT
        && limiter.entries == Check(old(limiter.entries), ResetKey(headers, body.value.email.value), now).1
        && unchanged(store)
      case Issue(company) =>
        var v := NewCode(verificationId, body.value.email.value, r, now);
        var db := old(store.Tenant(company.id));
        && limiter.entries == Check(old(limiter.entries), ResetKey(headers, body.value.email.value), now).1
        && (if VerificationFits(db.verifications, v) then
              resp == SENT && store.tenants == old(store.tenants)[company.id := db.(verifications := db.verifications + [v])]
            else
              resp == Json(500, Error(GenericError)) && store.tenants == old(store.tenants))
  {
    var csrf := Csrf.CsrfProtection(headers, cs);
    if !csrf.valid {
      return Json(403, Error(InvalidRequest));
    }
    if body.None? {
      return Json(500, Error(GenericError));
    }
    var companySlug, email := body.value.companySlug, body.value.email;
    if !Truthy(companySlug) || !Truthy(email) {
      return Json(400, Error(FieldsRequired));
    }
    var rateLimitKey := RateLimitKey(SecurityLog.ForwardedIpOrNull(headers), "reset_" + email.value);
    var d := limiter.CheckRateLimit(rateLimitKey, now);
    if !d.allowed {
      return Json(429, Error(TooManyRequests(LockoutMinutes(d.retryAfter))));
    }
    var company := GetCompanyBySlugOrId(store.companies, companySlug.value);
    if company.None? {
      return SENT;
    }
    var tenantDb := store.Tenant(company.value.id);
    var foundUser := FindUserByEmail(tenantDb.users, email.value);
    if foundUser.None? {
      return SENT;
    }
    var v := NewCode(verificationId, email.value, r, now);
    var inserted := InsertVerification(tenantDb.verifications, v);
    if inserted.None? {
      return Json(500, Error(GenericError));
    }
    store.PutTenant(company.value.id, tenantDb.(verifications := inserted.value));
    return SENT;
  }

  /** The code just issued passes the reset-code check for the next 15
      minutes, and from then on only if an older identical code still
      lives. */
  lemma IssuedCodeVerifies(rows: seq<Verification>, verificationId: string, email: string, r: real, now: int, t: int)
    requires 0.0 <= r < 1.0
    ensures var v := NewCode(verificationId, email, r, now);
      VerifyResetCode.FindValidCode(rows + [v], email, v.value, t).Some? <==>
        t < now + RESET_CODE_TTL_MS || VerifyResetCode.FindValidCode(rows, email, v.value, t).Some?
  {
    VerifyResetCode.AppendedCodeValid(rows, NewCode(verificationId, email, r, now), t);
  }
}
