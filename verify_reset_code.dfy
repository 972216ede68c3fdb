/** The reset-code check, src/app/api/tenant/verify-reset-code/route.ts: a
    read-only lookup of an unexpired verification row for the email and
    code, in the company's own store. */
module VerifyResetCode {
  import opened Common
  import opened Db
  import opened Cookies
  import opened Http
  import Csrf

  /** The JSON body; None when `req.json()` throws. */
  datatype CodeBody = CodeBody(companySlug: Option<string>, email: Option<string>, code: Option<string>)

  predicate Matches(v: Verification, email: string, code: string, now: int) {
    v.identifier == email && v.value == code && v.expiresAt > now
  }

  /** `select from verification where identifier = email and value = code
      and expiresAt > now`, first row. */
  function FindValidCode(rows: seq<Verification>, email: string, code: string, now: int): (r: Option<Verification>)
    ensures r.Some? ==> r.value in rows && Matches(r.value, email, code, now)
    ensures r.None? <==> forall i :: 0 <= i < |rows| ==> !Matches(rows[i], email, code, now)
  {
    if rows == [] then None
    else if Matches(rows[0], email, code, now) then Some(rows[0])
    else FindValidCode(rows[1..], email, code, now)
  }

  /** A row appended to the table makes its code valid until it expires,
      whatever was there before; codes already valid stay valid. */
  lemma {:induction false} AppendedCodeValid(rows: seq<Verification>, v: Verification, t: int)
    ensures FindValidCode(rows + [v], v.identifier, v.value, t).Some? <==>
      t < v.expiresAt || FindValidCode(rows, v.identifier, v.value, t).Some?
  {
    var after := rows + [v];
    if t < v.expiresAt {
      assert after[|rows|] == v;
    } else {
      if FindValidCode(after, v.identifier, v.value, t).Some? {
        var i :| 0 <= i < |after| && Matches(after[i], v.identifier, v.value, t);
        assert i < |rows| && after[i] == rows[i];
      }
      if FindValidCode(rows, v.identifier, v.value, t).Some? {
        var i :| 0 <= i < |rows| && Matches(rows[i], v.identifier, v.value, t);
        assert after[i] == rows[i];
      }
    }
  }

  /** The company's store as `getTenantDb(company.id)` opens it. */
  function CompanyStore(store: Store, slug: string): Option<TenantDb>
    reads store
  {
    match GetCompanyBySlugOrId(store.companies, slug)
    case None => None
    case Some(company) => Some(store.Tenant(company.id))
  }

  /** `POST`: the answer as a function of the request and the stores. */
  function Verify(headers: Headers, cs: seq<Cookie>, body: Option<CodeBody>, store: Store, now: int): (resp: Response)
    reads store
    ensures !Csrf.CsrfProtection(headers, cs).valid ==> resp == Json(403, Error(InvalidRequest))
    ensures Csrf.CsrfProtection(headers, cs).valid && body.None? ==> resp == Json(500, Error(GenericError))
    ensures Csrf.CsrfProtection(headers, cs).valid && body.Some? &&
            !(Truthy(body.value.companySlug) && Truthy(body.value.email) && Truthy(body.value.code)) ==>
      resp == Json(400, Error(FieldsRequired))
    ensures resp == Json(200, Success) <==>
      && Csrf.CsrfProtection(headers, cs).valid && body.Some?
      && Truthy(body.value.companySlug) && Truthy(body.value.email) && Truthy(body.value.code)
      && CompanyStore(store, body.value.companySlug.value).Some?
      && exists v :: v in CompanyStore(store, body.value.companySlug.value).value.verifications
                  && Matches(v, body.value.email.value, body.value.code.value, now)
    ensures resp.Json? && resp.body == Error(InvalidData) <==>
      && Csrf.CsrfProtection(headers, cs).valid && body.Some?
      && Truthy(body.value.companySlug) && Truthy(body.value.email) && Truthy(body.value.code)
      && CompanyStore(store, body.value.companySlug.value).None?
  {
    if !Csrf.CsrfProtection(headers, cs).valid then Json(403, Error(InvalidRequest))
    else if body.None? then Json(500, Error(GenericError))
    else
      var b := body.value;
      if !Truthy(b.companySlug) || !Truthy(b.email) || !Truthy(b.code) then Json(400, Error(FieldsRequired))
      else match CompanyStore(store, b.companySlug.value)
        case None => Json(400, Error(InvalidData))
        case Some(db) =>
          match FindValidCode(db.verifications, b.email.value, b.code.value, now)
          case None => Json(400, Error(CodeInvalidOrExpired))
          case Some(_) => Json(200, Success)
  }
}
