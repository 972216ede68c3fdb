/** Company registration, src/app/api/register/route.ts: field and length
    checks, the slug check, then the company row in the main store and the
    manager's user row in the new company's own store. */
module Register {
  import opened Common
  import opened Crypto
  import opened Db
  import opened Http
  import opened Password
  import TenantLogin

  /** The JSON body; None when `req.json()` throws. */
  datatype RegisterBody = RegisterBody(
    companyName: Option<string>, companySlug: Option<string>, managerName: Option<string>,
    managerEmail: Option<string>, managerPassword: Option<string>)

  predicate FieldsPresent(b: RegisterBody) {
    Truthy(b.companyName) && Truthy(b.companySlug) && Truthy(b.managerName)
    && Truthy(b.managerEmail) && Truthy(b.managerPassword)
  }

  const MIN_PASSWORD_LENGTH: nat := 8

  /** `select from companies where slug = s .get()` found a row. */
  predicate SlugInUse(companies: seq<Company>, slug: string) {
    exists i :: 0 <= i < |companies| && companies[i].slug == slug
  }

  /** The company row of lines 35-43: active, with its own store file. */
  function RegisteredCompany(companyId: string, b: RegisterBody, now: int): (c: Company)
    requires FieldsPresent(b)
    ensures c.id == companyId && c.slug == b.companySlug.value && c.isActive
    ensures c.dbPath == TenantDbPath(companyId) && c.managerEmail == b.managerEmail.value
    ensures c.createdAt == UnixSeconds(now)
  {
    NewCompany(companyId, b.companyName.value, b.companySlug.value, TenantDbPath(companyId),
      b.managerEmail.value, Some(true), UnixSeconds(now))
  }

  /** The manager row of lines 50-59. */
  function Manager(userId: string, b: RegisterBody, c: Crypto, now: int): (u: User)
    requires FieldsPresent(b)
    ensures u.id == userId && u.email == b.managerEmail.value && u.name == b.managerName.value
    ensures u.role == Some("manager") && !u.emailVerified
    ensures u.password == Some(HashPassword(c, b.managerPassword.value))
  {
    User(userId, b.managerName.value, b.managerEmail.value, false, Some(HashPassword(c, b.managerPassword.value)),
      Some("manager"), now, now)
  }

  datatype Stage =
    | MalformedBody
    | FieldsMissing
    | ShortPassword
    | Taken
    | CompanyInsertFails
    | UserInsertFails
    | Registers

  /** The decisions of lines 11-59, on the state before the call. */
  function Evaluate(body: Option<RegisterBody>, store: Store, companyId: string, userId: string, c: Crypto, now: int)
    : (st: Stage)
    reads store
    ensures st.Taken? ==>
      && body.Some? && FieldsPresent(body.value)
      && SlugInUse(store.companies, body.value.companySlug.value)
    ensures st.CompanyInsertFails? || st.UserInsertFails? || st.Registers? ==>
      && body.Some? && FieldsPresent(body.value)
      && |body.value.managerPassword.value| >= MIN_PASSWORD_LENGTH
      && !SlugInUse(store.companies, body.value.companySlug.value)
  {
    if body.None? then MalformedBody
    else
      var b := body.value;
      if !FieldsPresent(b) then FieldsMissing
      else if |b.managerPassword.value| < MIN_PASSWORD_LENGTH then ShortPassword
      else if SlugInUse(store.companies, b.companySlug.value) then Taken
      else if !CompanyFits(store.companies, RegisteredCompany(companyId, b, now)) then CompanyInsertFails
      else if !UserFits(store.Tenant(companyId).users, Manager(userId, b, c, now)) then UserInsertFails
      else Registers
  }

  /** Lines 22-26, as a scan of the companies table. */
  method FindSlug(companies: seq<Company>, slug: string) returns (found: bool)
    ensures found == SlugInUse(companies, slug)
  {
    found := false;
    var k := 0;
    while k < |companies|
      invariant 0 <= k <= |companies|
      invariant forall i :: 0 <= i < k ==> companies[i].slug != slug
    {
      if companies[k].slug == slug {
        return true;
      }
      k := k + 1;
    }
  }

  /** `POST /api/register`. `companyId` and `userId` are the two uuids. A
      failed user insert leaves the company row behind, as the route does
      not undo it. */
  method Register(store: Store, body: Option<RegisterBody>, companyId: string, userId: string, c: Crypto, now: int)
    returns (resp: Response)
    requires store.Valid()
    modifies store
    ensures store.Valid()
    ensures unchanged(store`admins, store`adminSessions)
    ensures match old(Evaluate(body, store, companyId, userId, c, now))
      case MalformedBody => resp == Json(500, Error(RegistrationFailed)) && unchanged(store)
      case FieldsMissing => resp == Json(400, Error(FieldsRequired)) && unchanged(store)
      case ShortPassword => resp == Json(400, Error(PasswordTooShort)) && unchanged(store)
      case Taken => resp == Json(400, Error(SlugTaken)) && unchanged(store)
      case CompanyInsertFails => resp == Json(500, Error(RegistrationFailed)) && unchanged(store)
      case UserInsertFails =>
        && resp == Json(500, Error(RegistrationFailed))
        && store.companies == old(store.companies) + [RegisteredCompany(companyId, body.value, now)]
        && store.tenants == old(store.tenants)
      case Registers =>
        var db := old(store.Tenant(companyId));
        && resp == Json(200, Registered(companyId, body.value.companySlug.value, userId))
        && store.companies == old(store.companies) + [RegisteredCompany(companyId, body.value, now)]
        && store.tenants == old(store.tenants)[companyId :=
             db.(users := db.users + [Manager(userId, body.value, c, now)])]
  {
    if body.None? {
      return Json(500, Error(RegistrationFailed));
    }
    var b := body.value;
    if !FieldsPresent(b) {
      return Json(400, Error(FieldsRequired));
    }
    if |b.managerPassword.value| < MIN_PASSWORD_LENGTH {
      return Json(400, Error(PasswordTooShort));
    }
    var existing := FindSlug(store.companies, b.companySlug.value);
    if existing {
      return Json(400, Error(SlugTaken));
    }
    var companies := InsertCompany(store.companies, RegisteredCompany(companyId, b, now));
    if companies.None? {
      return Json(500, Error(RegistrationFailed));
    }
    store.companies := companies.value;
    var tenantDb := store.Tenant(companyId);
    var users := InsertUser(tenantDb.users, Manager(userId, b, c, now));
    if users.None? {
      return Json(500, Error(RegistrationFailed));
    }
    store.PutTenant(companyId, tenantDb.(users := users.value));
    return Json(200, Registered(companyId, b.companySlug.value, userId));
  }

  // ---------------------------------------------------------------------
  // Properties

  /** A registered slug names exactly one company: the check refuses any
      slug already in use, so slugs stay unique. */
  lemma SlugStaysUnique(companies: seq<Company>, c: Company)
    requires KeyUnique(companies, CompanySlugOf) && !SlugInUse(companies, c.slug)
    ensures KeyUnique(companies + [c], CompanySlugOf)
    ensures forall i :: 0 <= i < |companies + [c]| && (companies + [c])[i].slug == c.slug ==> i == |companies|
  {
    var after := companies + [c];
    forall i, j | 0 <= i < j < |after| ensures after[i].slug != after[j].slug {
      if j == |companies| {
        assert after[i] == companies[i];
      } else {
        assert after[i] == companies[i] && after[j] == companies[j];
      }
    }
  }

  /** After a registration the manager can sign in to the new company with
      the email and password given, provided the slug does not also equal
      the id of an older company (the lookup matches ids as well). */
  lemma RegisteredManagerSignsIn(store: Store, b: RegisterBody, companyId: string, userId: string, c: Crypto,
                                 now: int, older: seq<Company>, users: seq<User>, remaining: int)
    requires Sound(c) && FieldsPresent(b)
    requires forall i :: 0 <= i < |older| ==> older[i].slug != b.companySlug.value && older[i].id != b.companySlug.value
    requires store.companies == older + [RegisteredCompany(companyId, b, now)]
    requires UserFits(users, Manager(userId, b, c, now))
    requires store.Tenant(companyId).users == users + [Manager(userId, b, c, now)]
    ensures TenantLogin.Authentication(store, b.companySlug.value, b.managerEmail.value, b.managerPassword.value, c,
              remaining) == TenantLogin.Accepted(RegisteredCompany(companyId, b, now), Manager(userId, b, c, now), None)
  {
    var company := RegisteredCompany(companyId, b, now);
    var manager := Manager(userId, b, c, now);
    LookupFindsTheOnlyMatch(store.companies, b.companySlug.value, company);
    assert FindUserByEmail(users + [manager], manager.email) == Some(manager) by {
      assert (users + [manager])[|users|] == manager;
    }
    BcryptIsNotLegacy(c, b.managerPassword.value);
    HashThenVerify(c, b.managerPassword.value);
  }

  /** The slug check looks at slugs only, while every later lookup matches a
      slug or an id: a slug equal to an older company's id is accepted, and
      that slug then leads to the older company. */
  lemma SlugShadowedById(old0: Company, b: RegisterBody, companyId: string, now: int)
    requires FieldsPresent(b) && old0.id == b.companySlug.value && old0.slug != b.companySlug.value
    ensures !SlugInUse([old0], b.companySlug.value)
    ensures GetCompanyBySlugOrId([old0, RegisteredCompany(companyId, b, now)], b.companySlug.value) == Some(old0)
  {
  }
}
