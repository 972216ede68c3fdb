/** The data of src/lib/db/db.ts: the rows of the main store (admins, admin
    sessions, companies) and of each tenant's own store (users, sessions,
    verification codes, security log), the UNIQUE and PRIMARY KEY constraints
    as a store invariant, inserts that fail when a constraint would break,
    the company lookup by slug or id, and the per-tenant file name. */
module Db {
  import opened Common

  /** The main store's `timestamp` columns (src/lib/db/schema-main.ts) hold
      whole seconds: the driver writes a `Date` as `Math.floor(ms / 1000)`
      and turns a `Date` argument of a comparison into seconds the same way.
      The tenant stores' times are kept in milliseconds. */
  function UnixSeconds(ms: int): (s: int)
    ensures s * 1000 <= ms < s * 1000 + 1000
  {
    ms / 1000
  }

  /** Comparing a seconds column with `new Date(t)` is comparing with the
      millisecond deadline at the start of that second. */
  lemma BeforeSecond(t: int, e: int)
    ensures UnixSeconds(t) < e <==> t < e * 1000
  {
    var q := UnixSeconds(t);
    if q < e {
      assert q + 1 <= e;
    } else {
      assert e * 1000 <= q * 1000;
    }
  }

  /** `createdAt` is in whole seconds. */
  datatype Admin = Admin(id: string, email: string, name: string, password: Option<string>, createdAt: int)

  /** `expiresAt` and `createdAt` are in whole seconds. */
  datatype AdminSession = AdminSession(id: string, adminId: string, token: string, expiresAt: int, createdAt: int)

  /** `createdAt` is in whole seconds. */
  datatype Company = Company(
    id: string, name: string, slug: string, dbPath: string, managerEmail: string, isActive: bool, createdAt: int)

  datatype User = User(
    id: string, name: string, email: string, emailVerified: bool, password: Option<string>,
    role: Option<string>, createdAt: int, updatedAt: int)

  datatype Session = Session(
    id: string, token: string, userId: string, expiresAt: int, createdAt: int, updatedAt: int,
    ipAddress: Option<string>, userAgent: Option<string>)

  datatype Verification = Verification(
    id: string, identifier: string, value: string, expiresAt: int, createdAt: Option<int>, updatedAt: Option<int>)

  datatype SecurityAction =
    | LOGIN_SUCCESS | LOGIN_FAILED | LOGOUT | PASSWORD_RESET_REQUEST | PASSWORD_RESET_SUCCESS
    | SESSION_REGENERATED | SESSION_EXPIRED | CSRF_VALIDATION_FAILED | UNAUTHORIZED_ACCESS

  /** The free-form details the handlers attach to an event. */
  datatype Details = Details(email: string, reason: Option<string>)

  datatype SecurityLogRow = SecurityLogRow(
    userId: Option<string>, action: SecurityAction, ipAddress: Option<string>, userAgent: Option<string>,
    details: Option<Details>, createdAt: int)

  /** One tenant's isolated store. */
  datatype TenantDb = TenantDb(
    users: seq<User>, sessions: seq<Session>, verifications: seq<Verification>, securityLog: seq<SecurityLogRow>)

  /** A freshly created tenant file: every table empty. */
  const EmptyTenantDb: TenantDb := TenantDb([], [], [], [])

  // ---------------------------------------------------------------------
  // Constraints

  /** No two rows share a key. */
  ghost predicate KeyUnique<T, K>(rows: seq<T>, key: T -> K) {
    forall i, j :: 0 <= i < j < |rows| ==> key(rows[i]) != key(rows[j])
  }

  lemma {:induction false} FilterKeepsKeyUnique<T, K>(rows: seq<T>, keep: T -> bool, key: T -> K)
    requires KeyUnique(rows, key)
    ensures KeyUnique(Filter(rows, keep), key)
  {
    if rows != [] {
      FilterKeepsKeyUnique(rows[1..], keep, key);
      var tail := Filter(rows[1..], keep);
      if keep(rows[0]) {
        var r := Filter(rows, keep);
        assert r == [rows[0]] + tail;
        forall j | 0 < j < |r| ensures key(r[0]) != key(r[j]) {
          assert r[j] == tail[j - 1];
          assert tail[j - 1] in rows[1..];
          var k :| 0 <= k < |rows[1..]| && rows[1..][k] == tail[j - 1];
          assert rows[k + 1] == r[j];
        }
      }
    }
  }

  /** Two rows of a key-unique table with the same key are the same row. */
  lemma KeyUniqueSameRow<T, K>(rows: seq<T>, key: T -> K, a: T, b: T)
    requires KeyUnique(rows, key) && a in rows && b in rows && key(a) == key(b)
    ensures a == b
  {
    var i :| 0 <= i < |rows| && rows[i] == a;
    var j :| 0 <= j < |rows| && rows[j] == b;
    assert i == j;
  }

  function AdminIdOf(a: Admin): string { a.id }
  function AdminEmailOf(a: Admin): string { a.email }
  function AdminSessionIdOf(s: AdminSession): string { s.id }
  function AdminSessionTokenOf(s: AdminSession): string { s.token }
  function CompanyIdOf(c: Company): string { c.id }
  function CompanySlugOf(c: Company): string { c.slug }
  function UserIdOf(u: User): string { u.id }
  function UserEmailOf(u: User): string { u.email }
  function SessionIdOf(s: Session): string { s.id }
  function SessionTokenOf(s: Session): string { s.token }
  function VerificationIdOf(v: Verification): string { v.id }

  /** admin_sessions: id PRIMARY KEY, token UNIQUE. */
  ghost predicate AdminSessionsValid(rows: seq<AdminSession>) {
    KeyUnique(rows, AdminSessionIdOf) && KeyUnique(rows, AdminSessionTokenOf)
  }

  /** session: id PRIMARY KEY, token UNIQUE. */
  ghost predicate SessionsValid(rows: seq<Session>) {
    KeyUnique(rows, SessionIdOf) && KeyUnique(rows, SessionTokenOf)
  }

  /** user: id PRIMARY KEY, email UNIQUE; session and verification keys. */
  ghost predicate TenantDbValid(db: TenantDb) {
    && KeyUnique(db.users, UserIdOf) && KeyUnique(db.users, UserEmailOf)
    && SessionsValid(db.sessions)
    && KeyUnique(db.verifications, VerificationIdOf)
  }

  // ---------------------------------------------------------------------
  // Inserts: a row that would break a constraint makes the insert throw.

  predicate SessionFits(rows: seq<Session>, s: Session) {
    forall i :: 0 <= i < |rows| ==> rows[i].id != s.id && rows[i].token != s.token
  }

  function InsertSession(rows: seq<Session>, s: Session): (r: Option<seq<Session>>)
    ensures r.Some? <==> SessionFits(rows, s)
    ensures r.Some? ==> r.value == rows + [s]
    ensures r.Some? && SessionsValid(rows) ==> SessionsValid(r.value)
  {
    if SessionFits(rows, s) then Some(rows + [s]) else None
  }

  predicate AdminSessionFits(rows: seq<AdminSession>, s: AdminSession) {
    forall i :: 0 <= i < |rows| ==> rows[i].id != s.id && rows[i].token != s.token
  }

  function InsertAdminSession(rows: seq<AdminSession>, s: AdminSession): (r: Option<seq<AdminSession>>)
    ensures r.Some? <==> AdminSessionFits(rows, s)
    ensures r.Some? ==> r.value == rows + [s]
    ensures r.Some? && AdminSessionsValid(rows) ==> AdminSessionsValid(r.value)
  {
    if AdminSessionFits(rows, s) then Some(rows + [s]) else None
  }

  predicate CompanyFits(rows: seq<Company>, c: Company) {
    forall i :: 0 <= i < |rows| ==> rows[i].id != c.id && rows[i].slug != c.slug
  }

  function InsertCompany(rows: seq<Company>, c: Company): (r: Option<seq<Company>>)
    ensures r.Some? <==> CompanyFits(rows, c)
    ensures r.Some? ==> r.value == rows + [c]
    ensures r.Some? && KeyUnique(rows, CompanySlugOf) && KeyUnique(rows, CompanyIdOf) ==>
      KeyUnique(r.value, CompanySlugOf) && KeyUnique(r.value, CompanyIdOf)
  {
    if CompanyFits(rows, c) then Some(rows + [c]) else None
  }

  predicate UserFits(rows: seq<User>, u: User) {
    forall i :: 0 <= i < |rows| ==> rows[i].id != u.id && rows[i].email != u.email
  }

  function InsertUser(rows: seq<User>, u: User): (r: Option<seq<User>>)
    ensures r.Some? <==> UserFits(rows, u)
    ensures r.Some? ==> r.value == rows + [u]
    ensures r.Some? && KeyUnique(rows, UserIdOf) && KeyUnique(rows, UserEmailOf) ==>
      KeyUnique(r.value, UserIdOf) && KeyUnique(r.value, UserEmailOf)
  {
    if UserFits(rows, u) then Some(rows + [u]) else None
  }

  predicate VerificationFits(rows: seq<Verification>, v: Verification) {
    forall i :: 0 <= i < |rows| ==> rows[i].id != v.id
  }

  function InsertVerification(rows: seq<Verification>, v: Verification): (r: Option<seq<Verification>>)
    ensures r.Some? <==> VerificationFits(rows, v)
    ensures r.Some? ==> r.value == rows + [v]
    ensures r.Some? && KeyUnique(rows, VerificationIdOf) ==> KeyUnique(r.value, VerificationIdOf)
  {
    if VerificationFits(rows, v) then Some(rows + [v]) else None
  }

  /** A company row as the main store fills it in: `is_active` defaults
      to 0 (false) when not given. */
  function NewCompany(
    id: string, name: string, slug: string, dbPath: string, managerEmail: string,
    isActive: Option<bool>, createdAt: int): (c: Company)
    ensures isActive.None? ==> !c.isActive
    ensures isActive.Some? ==> c.isActive == isActive.value
    ensures c.id == id && c.slug == slug && c.dbPath == dbPath
  {
    Company(id, name, slug, dbPath, managerEmail, match isActive case Some(b) => b case None => false, createdAt)
  }

  // ---------------------------------------------------------------------
  // Lookups

  /** `SELECT * FROM companies WHERE slug = ? OR id = ?` with `.get()`: the
      first company in table order whose slug or id is the argument. */
  function GetCompanyBySlugOrId(companies: seq<Company>, slugOrId: string): (r: Option<Company>)
    ensures r.Some? ==> r.value in companies && (r.value.slug == slugOrId || r.value.id == slugOrId)
    ensures r.None? <==> forall i :: 0 <= i < |companies| ==> companies[i].slug != slugOrId && companies[i].id != slugOrId
  {
    if companies == [] then None
    else if companies[0].slug == slugOrId || companies[0].id == slugOrId then Some(companies[0])
    else GetCompanyBySlugOrId(companies[1..], slugOrId)
  }

  /** When exactly one company matches by slug or id, the lookup finds it. */
  lemma {:induction false} LookupFindsTheOnlyMatch(companies: seq<Company>, slugOrId: string, c: Company)
    requires c in companies && (c.slug == slugOrId || c.id == slugOrId)
    requires forall i :: 0 <= i < |companies| && (companies[i].slug == slugOrId || companies[i].id == slugOrId) ==> companies[i] == c
    ensures GetCompanyBySlugOrId(companies, slugOrId) == Some(c)
  {
  }

  /** The first user row with the given email (`.where(eq(user.email, e)).get()`). */
  function FindUserByEmail(users: seq<User>, email: string): (r: Option<User>)
    ensures r.Some? ==> r.value in users && r.value.email == email
    ensures r.None? <==> forall i :: 0 <= i < |users| ==> users[i].email != email
  {
    if users == [] then None
    else if users[0].email == email then Some(users[0])
    else FindUserByEmail(users[1..], email)
  }

  /** The first admin row with the given email. */
  function FindAdminByEmail(admins: seq<Admin>, email: string): (r: Option<Admin>)
    ensures r.Some? ==> r.value in admins && r.value.email == email
    ensures r.None? <==> forall i :: 0 <= i < |admins| ==> admins[i].email != email
  {
    if admins == [] then None
    else if admins[0].email == email then Some(admins[0])
    else FindAdminByEmail(admins[1..], email)
  }

  // ---------------------------------------------------------------------
  // Password updates

  /** `update user set password = h, updatedAt = now where id = x`. */
  function SetUserPasswordById(users: seq<User>, id: string, hash: string, now: int): (r: seq<User>)
    ensures |r| == |users|
    ensures forall i :: 0 <= i < |users| ==>
      r[i] == if users[i].id == id then users[i].(password := Some(hash), updatedAt := now) else users[i]
  {
    seq(|users|, i requires 0 <= i < |users| =>
      if users[i].id == id then users[i].(password := Some(hash), updatedAt := now) else users[i])
  }

  /** `update user set password = h, updatedAt = now where email = e`. */
  function SetUserPasswordByEmail(users: seq<User>, email: string, hash: string, now: int): (r: seq<User>)
    ensures |r| == |users|
    ensures forall i :: 0 <= i < |users| ==>
      r[i] == if users[i].email == email then users[i].(password := Some(hash), updatedAt := now) else users[i]
  {
    seq(|users|, i requires 0 <= i < |users| =>
      if users[i].email == email then users[i].(password := Some(hash), updatedAt := now) else users[i])
  }

  /** `update admins set password = h where id = x`. */
  function SetAdminPassword(admins: seq<Admin>, id: string, hash: string): (r: seq<Admin>)
    ensures |r| == |admins|
    ensures forall i :: 0 <= i < |admins| ==>
      r[i] == if admins[i].id == id then admins[i].(password := Some(hash)) else admins[i]
  {
    seq(|admins|, i requires 0 <= i < |admins| =>
      if admins[i].id == id then admins[i].(password := Some(hash)) else admins[i])
  }

  /** An update that leaves a key column alone keeps that key unique. */
  lemma KeyUniqueAfterUpdate<T, K>(before: seq<T>, after: seq<T>, key: T -> K)
    requires KeyUnique(before, key) && |after| == |before|
    requires forall i :: 0 <= i < |before| ==> key(after[i]) == key(before[i])
    ensures KeyUnique(after, key)
  {
    forall i, j | 0 <= i < j < |after| ensures key(after[i]) != key(after[j]) {
      assert key(before[i]) != key(before[j]);
    }
  }

  /** The file name of a tenant's store, `tenant_<companyId>.db`. */
  function TenantDbPath(companyId: string): string {
    "tenant_" + companyId + ".db"
  }

  /** Distinct company ids name distinct files. */
  lemma TenantDbPathInjective(a: string, b: string)
    requires TenantDbPath(a) == TenantDbPath(b)
    ensures a == b
  {
    var pa, pb := TenantDbPath(a), TenantDbPath(b);
    assert |a| == |b|;
    assert a == pa[7..|pa| - 3] && b == pb[7..|pb| - 3];
  }

  // ---------------------------------------------------------------------
  // The store

  class Store {
    var admins: seq<Admin>
    var adminSessions: seq<AdminSession>
    var companies: seq<Company>
    /** Tenant id to that tenant's store; an absent id is a store not yet
        created. */
    var tenants: map<string, TenantDb>

    ghost predicate Valid()
      reads this
    {
      && KeyUnique(admins, AdminIdOf) && KeyUnique(admins, AdminEmailOf)
      && AdminSessionsValid(adminSessions)
      && KeyUnique(companies, CompanyIdOf) && KeyUnique(companies, CompanySlugOf)
      && (forall t :: t in tenants ==> TenantDbValid(tenants[t]))
    }

    constructor ()
      ensures Valid()
      ensures admins == [] && adminSessions == [] && companies == [] && tenants == map[]
    {
      admins, adminSessions, companies, tenants := [], [], [], map[];
    }

    /** `getTenantDb(id)`: the tenant's store, created empty on first use. */
    function Tenant(id: string): (db: TenantDb)
      reads this
      ensures Valid() ==> TenantDbValid(db)
    {
      if id in tenants then tenants[id] else EmptyTenantDb
    }

    /** Write back a tenant's store. */
    method PutTenant(id: string, db: TenantDb)
      requires Valid() && TenantDbValid(db)
      modifies this
      ensures Valid()
      ensures tenants == old(tenants)[id := db] && Tenant(id) == db
      ensures admins == old(admins) && adminSessions == old(adminSessions) && companies == old(companies)
    {
      tenants := tenants[id := db];
    }
  }
}
