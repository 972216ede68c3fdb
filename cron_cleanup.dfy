/** The scheduled sweep, src/app/api/cron/cleanup-sessions/route.ts: a
    bearer-secret check, then the deletion of expired admin sessions and, in
    every company's store, of expired sessions and reset codes, with a count
    of the rows deleted. A failing tenant is skipped. */
module CronCleanup {
  import opened Common
  import opened Db
  import opened Http
  import Sessions

  const DEFAULT_SECRET: string := "cleanup-secret-key"

  /** `process.env.CLEANUP_SECRET || "cleanup-secret-key"`. */
  function CleanupSecret(env: Option<string>): (secret: string)
    ensures secret != ""
    ensures Truthy(env) ==> secret == env.value
  {
    if Truthy(env) then env.value else DEFAULT_SECRET
  }

  /** The authorization header is exactly `Bearer <secret>`. */
  predicate BearerMatches(headers: Headers, env: Option<string>) {
    Header(headers, "authorization") == Some("Bearer " + CleanupSecret(env))
  }

  /** `delete from verification where expiresAt < now`. */
  function UnexpiredVerifications(rows: seq<Verification>, now: int): (r: seq<Verification>)
    ensures forall i :: 0 <= i < |r| ==> r[i] in rows && r[i].expiresAt >= now
    ensures forall i :: 0 <= i < |rows| && rows[i].expiresAt >= now ==> rows[i] in r
  {
    Filter(rows, (v: Verification) => v.expiresAt >= now)
  }

  /** Where a tenant's sweep throws: opening its store, or the second delete
      after the first went through. */
  datatype Fault = OpenFails | VerificationDeleteFails

  function FaultOf(faults: map<string, Fault>, id: string): Option<Fault> {
    if id in faults then Some(faults[id]) else None
  }

  /** `getTenantDb(id)` on a plain map of stores. */
  function TenantAt(tenants: map<string, TenantDb>, id: string): TenantDb {
    if id in tenants then tenants[id] else EmptyTenantDb
  }

  /** One tenant's store after the loop body, with the number of rows the
      body adds to the count. */
  function SweepTenant(db: TenantDb, fault: Option<Fault>, now: int): (r: (TenantDb, nat))
    ensures r.0.users == db.users && r.0.securityLog == db.securityLog
  {
    var sessions := Sessions.WithoutExpired(db.sessions, now);
    var verifications := UnexpiredVerifications(db.verifications, now);
    match fault
    case Some(OpenFails) => (db, 0)
    case Some(VerificationDeleteFails) => (db.(sessions := sessions), |db.sessions| - |sessions|)
    case None =>
      (db.(sessions := sessions, verifications := verifications),
       |db.sessions| - |sessions| + |db.verifications| - |verifications|)
  }

  /** The stores and the tenant part of the count after the loop has run
      over `companies`, in order. */
  function Sweep(tenants: map<string, TenantDb>, companies: seq<Company>, faults: map<string, Fault>, now: int)
    : (r: (map<string, TenantDb>, nat))
    decreases |companies|
  {
    if companies == [] then (tenants, 0)
    else
      var id := companies[0].id;
      var one := SweepTenant(TenantAt(tenants, id), FaultOf(faults, id), now);
      var next := if FaultOf(faults, id) == Some(OpenFails) then tenants else tenants[id := one.0];
      var rest := Sweep(next, companies[1..], faults, now);
      (rest.0, one.1 + rest.1)
  }

  /** Lines 30-44 for one company: the two deletes in its store, each
      counted, up to the fault. */
  method SweepCompany(store: Store, id: string, fault: Option<Fault>, now: int) returns (deleted: nat)
    requires store.Valid()
    modifies store
    ensures store.Valid()
    ensures unchanged(store`admins, store`adminSessions, store`companies)
    ensures deleted == SweepTenant(old(store.Tenant(id)), fault, now).1
    ensures fault == Some(OpenFails) ==> store.tenants == old(store.tenants)
    ensures fault != Some(OpenFails) ==>
      store.tenants == old(store.tenants)[id := SweepTenant(old(store.Tenant(id)), fault, now).0]
  {
    if fault == Some(OpenFails) {
      return 0;
    }
    var tenantDb := store.Tenant(id);
    var sessions := Sessions.WithoutExpired(tenantDb.sessions, now);
    Sessions.FilterKeepsSessionsValid(tenantDb.sessions, (s: Session) => s.expiresAt >= now);
    deleted := |tenantDb.sessions| - |sessions|;
    if fault == Some(VerificationDeleteFails) {
      store.PutTenant(id, tenantDb.(sessions := sessions));
      return;
    }
    var verifications := UnexpiredVerifications(tenantDb.verifications, now);
    FilterKeepsKeyUnique(tenantDb.verifications, (v: Verification) => v.expiresAt >= now, VerificationIdOf);
    deleted := deleted + (|tenantDb.verifications| - |verifications|);
    store.PutTenant(id, tenantDb.(sessions := sessions, verifications := verifications));
  }

  /** Lines 22-25: the expired admin sessions, deleted and counted. */
  method SweepAdmins(store: Store, now: int) returns (deleted: nat)
    requires store.Valid()
    modifies store
    ensures store.Valid()
    ensures unchanged(store`admins, store`companies, store`tenants)
    ensures store.adminSessions == Sessions.AdminWithoutExpired(old(store.adminSessions), now)
    ensures deleted == |old(store.adminSessions)| - |store.adminSessions|
  {
    var adminRows := Sessions.AdminWithoutExpired(store.adminSessions, now);
    Sessions.FilterKeepsAdminSessionsValid(store.adminSessions, (s: AdminSession) => s.expiresAt >= UnixSeconds(now));
    deleted := |store.adminSessions| - |adminRows|;
    store.adminSessions := adminRows;
  }

  /** Lines 27-45: the loop over `getAllCompanies()`. */
  method SweepTenants(store: Store, faults: map<string, Fault>, now: int) returns (deleted: nat)
    requires store.Valid()
    modifies store
    ensures store.Valid()
    ensures unchanged(store`admins, store`adminSessions, store`companies)
    ensures store.tenants == Sweep(old(store.tenants), store.companies, faults, now).0
    ensures deleted == Sweep(old(store.tenants), store.companies, faults, now).1
  {
    deleted := 0;
    var companies := store.companies;
    ghost var final := Sweep(store.tenants, companies, faults, now);
    for k := 0 to |companies|
      invariant store.Valid()
      invariant unchanged(store`admins, store`adminSessions, store`companies)
      invariant Sweep(store.tenants, companies[k..], faults, now).0 == final.0
      invariant deleted + Sweep(store.tenants, companies[k..], faults, now).1 == final.1
    {
      var id := companies[k].id;
      assert companies[k..][1..] == companies[k + 1..];
      assert store.Tenant(id) == TenantAt(store.tenants, id);
      var n := SweepCompany(store, id, FaultOf(faults, id), now);
      deleted := deleted + n;
    }
    assert companies[|companies|..] == [];
  }

  /** `POST /api/cron/cleanup-sessions`. `env` is `CLEANUP_SECRET` and
      `faults` says which tenants' sweeps throw, and where. */
  method CleanupSessions(store: Store, headers: Headers, env: Option<string>, faults: map<string, Fault>, now: int)
    returns (resp: Response)
    requires store.Valid()
    modifies store
    ensures store.Valid()
    ensures unchanged(store`admins, store`companies)
    ensures !BearerMatches(headers, env) ==> resp == Json(401, Error(Unauthorized)) && unchanged(store)
    ensures BearerMatches(headers, env) ==>
      var admin := Sessions.AdminWithoutExpired(old(store.adminSessions), now);
      var swept := Sweep(old(store.tenants), old(store.companies), faults, now);
      && store.adminSessions == admin
      && store.tenants == swept.0
      && resp == Json(200, Cleaned(|old(store.adminSessions)| - |admin| + swept.1, now))
  {
    if Header(headers, "authorization") != Some("Bearer " + CleanupSecret(env)) {
      return Json(401, Error(Unauthorized));
    }
    var totalDeleted := SweepAdmins(store, now);
    var tenantDeleted := SweepTenants(store, faults, now);
    totalDeleted := totalDeleted + tenantDeleted;
    return Json(200, Cleaned(totalDeleted, now));
  }

  // ---------------------------------------------------------------------
  // Properties

  /** Dropping the first company keeps the ids unique, and none of the
      rest has the first one's id. */
  lemma TailUnique(companies: seq<Company>)
    requires KeyUnique(companies, CompanyIdOf) && companies != []
    ensures KeyUnique(companies[1..], CompanyIdOf)
    ensures forall i :: 0 <= i < |companies| - 1 ==> companies[1..][i].id != companies[0].id
  {
    var tail := companies[1..];
    forall i, j | 0 <= i < j < |tail| ensures tail[i].id != tail[j].id {
      assert tail[i] == companies[i + 1] && tail[j] == companies[j + 1];
    }
  }

  /** A store whose company is not listed is left as it was. */
  lemma {:induction false} SweepUntouched(tenants: map<string, TenantDb>, companies: seq<Company>,
                                          faults: map<string, Fault>, now: int, id: string)
    requires forall i :: 0 <= i < |companies| ==> companies[i].id != id
    ensures TenantAt(Sweep(tenants, companies, faults, now).0, id) == TenantAt(tenants, id)
    decreases |companies|
  {
    if companies != [] {
      var first := companies[0].id;
      var tail := companies[1..];
      var one := SweepTenant(TenantAt(tenants, first), FaultOf(faults, first), now);
      var next := if FaultOf(faults, first) == Some(OpenFails) then tenants else tenants[first := one.0];
      forall i | 0 <= i < |tail| ensures tail[i].id != id {
        assert tail[i] == companies[i + 1];
      }
      SweepUntouched(next, tail, faults, now, id);
    }
  }

  /** What the sweep leaves in a listed company's store does not depend on
      the other companies: that store is swept once. */
  lemma {:induction false} SweepAt(tenants: map<string, TenantDb>, companies: seq<Company>,
                                   faults: map<string, Fault>, now: int, id: string)
    requires KeyUnique(companies, CompanyIdOf)
    requires exists i :: 0 <= i < |companies| && companies[i].id == id
    ensures TenantAt(Sweep(tenants, companies, faults, now).0, id) ==
      SweepTenant(TenantAt(tenants, id), FaultOf(faults, id), now).0
    decreases |companies|
  {
    var first := companies[0].id;
    var tail := companies[1..];
    var one := SweepTenant(TenantAt(tenants, first), FaultOf(faults, first), now);
    var next := if FaultOf(faults, first) == Some(OpenFails) then tenants else tenants[first := one.0];
    TailUnique(companies);
    if first == id {
      SweepUntouched(next, tail, faults, now, id);
    } else {
      var i :| 0 <= i < |companies| && companies[i].id == id;
      assert tail[i - 1] == companies[i];
      SweepAt(next, tail, faults, now, id);
    }
  }

  /** The reference count: each listed company's own sweep, added up. */
  function DeletedByTenants(tenants: map<string, TenantDb>, companies: seq<Company>,
                            faults: map<string, Fault>, now: int): nat
    decreases |companies|
  {
    if companies == [] then 0
    else
      SweepTenant(TenantAt(tenants, companies[0].id), FaultOf(faults, companies[0].id), now).1
        + DeletedByTenants(tenants, companies[1..], faults, now)
  }

  /** The reference count reads only the stores of the listed companies. */
  lemma {:induction false} DeletedFrame(t: map<string, TenantDb>, t2: map<string, TenantDb>, companies: seq<Company>,
                                        faults: map<string, Fault>, now: int)
    requires forall i :: 0 <= i < |companies| ==> TenantAt(t, companies[i].id) == TenantAt(t2, companies[i].id)
    ensures DeletedByTenants(t, companies, faults, now) == DeletedByTenants(t2, companies, faults, now)
  {
    if companies != [] {
      var tail := companies[1..];
      forall i | 0 <= i < |tail| ensures TenantAt(t, tail[i].id) == TenantAt(t2, tail[i].id) {
        assert tail[i] == companies[i + 1];
      }
      DeletedFrame(t, t2, tail, faults, now);
    }
  }

  /** The running total of the loop is the sum of the tenants' own counts. */
  lemma {:induction false} SweepCount(tenants: map<string, TenantDb>, companies: seq<Company>,
                                      faults: map<string, Fault>, now: int)
    requires KeyUnique(companies, CompanyIdOf)
    ensures Sweep(tenants, companies, faults, now).1 == DeletedByTenants(tenants, companies, faults, now)
    decreases |companies|
  {
    if companies != [] {
      var first := companies[0].id;
      var tail := companies[1..];
      var one := SweepTenant(TenantAt(tenants, first), FaultOf(faults, first), now);
      var next := if FaultOf(faults, first) == Some(OpenFails) then tenants else tenants[first := one.0];
      TailUnique(companies);
      SweepCount(next, tail, faults, now);
      DeletedFrame(next, tenants, tail, faults, now);
    }
  }

  /** The count a tenant contributes is the number of rows its sweep
      deleted: the expired sessions, and when the second delete ran, the
      expired codes. */
  lemma SweepTenantCounts(db: TenantDb, fault: Option<Fault>, now: int)
    ensures var expiredSessions := |Filter(db.sessions, (s: Session) => s.expiresAt < now)|;
      var expiredCodes := |Filter(db.verifications, (v: Verification) => v.expiresAt < now)|;
      SweepTenant(db, fault, now).1 == match fault
        case Some(OpenFails) => 0
        case Some(VerificationDeleteFails) => expiredSessions
        case None => expiredSessions + expiredCodes
  {
    FilterComplement(db.sessions, (s: Session) => s.expiresAt >= now, (s: Session) => s.expiresAt < now);
    FilterComplement(db.verifications, (v: Verification) => v.expiresAt >= now, (v: Verification) => v.expiresAt < now);
  }

  /** The admin part of the count is the number of admin rows that expired
      before the current second. */
  lemma AdminCount(rows: seq<AdminSession>, now: int)
    ensures |rows| - |Sessions.AdminWithoutExpired(rows, now)| ==
      |Filter(rows, (s: AdminSession) => s.expiresAt < UnixSeconds(now))|
  {
    FilterComplement(rows, (s: AdminSession) => s.expiresAt >= UnixSeconds(now),
      (s: AdminSession) => s.expiresAt < UnixSeconds(now));
  }

  /** A swept tenant keeps every unexpired session and code and no expired
      one; a row expiring exactly now survives. */
  lemma SweptTenantContents(db: TenantDb, now: int, s: Session, v: Verification)
    ensures var after := SweepTenant(db, None, now).0;
      && (s in after.sessions <==> s in db.sessions && s.expiresAt >= now)
      && (v in after.verifications <==> v in db.verifications && v.expiresAt >= now)
  {
    var after := SweepTenant(db, None, now).0;
    if s in db.sessions && s.expiresAt >= now {
      var i :| 0 <= i < |db.sessions| && db.sessions[i] == s;
    }
    if s in after.sessions {
      var i :| 0 <= i < |after.sessions| && after.sessions[i] == s;
    }
    if v in db.verifications && v.expiresAt >= now {
      var i :| 0 <= i < |db.verifications| && db.verifications[i] == v;
    }
    if v in after.verifications {
      var i :| 0 <= i < |after.verifications| && after.verifications[i] == v;
    }
  }
}
