/** The session table operations of src/lib/session.ts, over the tenant
    `session` table and the main `admin_sessions` table: validate,
    invalidate one token, invalidate all of a user's sessions, sweep expired
    rows, rotate a token in place, and extend an expiry. Time is the
    millisecond parameter `now`. */
module Sessions {
  import opened Common
  import opened Db

  const DAY_MS: int := 24 * 60 * 60 * 1000

  // ---------------------------------------------------------------------
  // Row-level queries and updates

  /** `select ... where token = t and expiresAt > now .get()` on tenant rows:
      the first row with that token that has not expired. */
  function FindValid(rows: seq<Session>, token: string, now: int): (r: Option<Session>)
    ensures r.Some? ==> r.value in rows && r.value.token == token && r.value.expiresAt > now
    ensures r.None? <==> forall i :: 0 <= i < |rows| ==> !(rows[i].token == token && rows[i].expiresAt > now)
  {
    if rows == [] then None
    else if rows[0].token == token && rows[0].expiresAt > now then Some(rows[0])
    else FindValid(rows[1..], token, now)
  }

  /** The same query on admin session rows, whose `expiresAt` is in whole
      seconds: `now` (milliseconds) is compared as `UnixSeconds(now)`. */
  function FindValidAdmin(rows: seq<AdminSession>, token: string, now: int): (r: Option<AdminSession>)
    ensures r.Some? ==> r.value in rows && r.value.token == token && r.value.expiresAt > UnixSeconds(now)
    ensures r.None? <==>
      forall i :: 0 <= i < |rows| ==> !(rows[i].token == token && rows[i].expiresAt > UnixSeconds(now))
  {
    if rows == [] then None
    else if rows[0].token == token && rows[0].expiresAt > UnixSeconds(now) then Some(rows[0])
    else FindValidAdmin(rows[1..], token, now)
  }

  /** In a table with unique tokens, a live row is what its token finds. */
  lemma FindValidUnique(rows: seq<Session>, s: Session, now: int)
    requires SessionsValid(rows) && s in rows && s.expiresAt > now
    ensures FindValid(rows, s.token, now) == Some(s)
  {
    var r := FindValid(rows, s.token, now).value;
    KeyUniqueSameRow(rows, SessionTokenOf, r, s);
  }

  /** `delete ... where token = t`. */
  function WithoutToken(rows: seq<Session>, token: string): (r: seq<Session>)
    ensures forall i :: 0 <= i < |r| ==> r[i] in rows && r[i].token != token
    ensures forall i :: 0 <= i < |rows| && rows[i].token != token ==> rows[i] in r
  {
    Filter(rows, (s: Session) => s.token != token)
  }

  /** `delete ... where userId = u`. */
  function WithoutUser(rows: seq<Session>, userId: string): (r: seq<Session>)
    ensures forall i :: 0 <= i < |r| ==> r[i] in rows && r[i].userId != userId
    ensures forall i :: 0 <= i < |rows| && rows[i].userId != userId ==> rows[i] in r
  {
    Filter(rows, (s: Session) => s.userId != userId)
  }

  /** `delete ... where expiresAt < now`. */
  function WithoutExpired(rows: seq<Session>, now: int): (r: seq<Session>)
    ensures forall i :: 0 <= i < |r| ==> r[i] in rows && r[i].expiresAt >= now
    ensures forall i :: 0 <= i < |rows| && rows[i].expiresAt >= now ==> rows[i] in r
  {
    Filter(rows, (s: Session) => s.expiresAt >= now)
  }

  /** `delete from admin_sessions where token = t`. */
  function AdminWithoutToken(rows: seq<AdminSession>, token: string): (r: seq<AdminSession>)
    ensures forall i :: 0 <= i < |r| ==> r[i] in rows && r[i].token != token
    ensures forall i :: 0 <= i < |rows| && rows[i].token != token ==> rows[i] in r
  {
    Filter(rows, (s: AdminSession) => s.token != token)
  }

  /** `delete from admin_sessions where expiresAt < now`, on the seconds
      column: `now` is compared as `UnixSeconds(now)`. */
  function AdminWithoutExpired(rows: seq<AdminSession>, now: int): (r: seq<AdminSession>)
    ensures forall i :: 0 <= i < |r| ==> r[i] in rows && r[i].expiresAt >= UnixSeconds(now)
    ensures forall i :: 0 <= i < |rows| && rows[i].expiresAt >= UnixSeconds(now) ==> rows[i] in r
  {
    Filter(rows, (s: AdminSession) => s.expiresAt >= UnixSeconds(now))
  }

  /** Whether a row other than `id` already holds `token` (the UNIQUE
      constraint an update to `token` would break). */
  predicate TokenHeldByOther(rows: seq<Session>, id: string, token: string) {
    exists i :: 0 <= i < |rows| && rows[i].id != id && rows[i].token == token
  }

  /** `update session set token = t, updatedAt = now where id = x`. */
  function ReplaceToken(rows: seq<Session>, id: string, token: string, now: int): (r: seq<Session>)
    ensures |r| == |rows|
    ensures forall i :: 0 <= i < |rows| ==>
      r[i] == if rows[i].id == id then rows[i].(token := token, updatedAt := now) else rows[i]
  {
    seq(|rows|, i requires 0 <= i < |rows| =>
      if rows[i].id == id then rows[i].(token := token, updatedAt := now) else rows[i])
  }

  /** `update session set expiresAt = e, updatedAt = now where id = x`. */
  function SetExpiry(rows: seq<Session>, id: string, expiresAt: int, now: int): (r: seq<Session>)
    ensures |r| == |rows|
    ensures forall i :: 0 <= i < |rows| ==>
      r[i] == if rows[i].id == id then rows[i].(expiresAt := expiresAt, updatedAt := now) else rows[i]
  {
    seq(|rows|, i requires 0 <= i < |rows| =>
      if rows[i].id == id then rows[i].(expiresAt := expiresAt, updatedAt := now) else rows[i])
  }

  // ---------------------------------------------------------------------
  // Constraint preservation

  lemma FilterKeepsSessionsValid(rows: seq<Session>, keep: Session -> bool)
    requires SessionsValid(rows)
    ensures SessionsValid(Filter(rows, keep))
  {
    FilterKeepsKeyUnique(rows, keep, SessionIdOf);
    FilterKeepsKeyUnique(rows, keep, SessionTokenOf);
  }

  lemma FilterKeepsAdminSessionsValid(rows: seq<AdminSession>, keep: AdminSession -> bool)
    requires AdminSessionsValid(rows)
    ensures AdminSessionsValid(Filter(rows, keep))
  {
    FilterKeepsKeyUnique(rows, keep, AdminSessionIdOf);
    FilterKeepsKeyUnique(rows, keep, AdminSessionTokenOf);
  }

  lemma ReplaceTokenKeepsSessionsValid(rows: seq<Session>, id: string, token: string, now: int)
    requires SessionsValid(rows) && !TokenHeldByOther(rows, id, token)
    ensures SessionsValid(ReplaceToken(rows, id, token, now))
  {
    var r := ReplaceToken(rows, id, token, now);
    forall i, j | 0 <= i < j < |r| ensures r[i].id != r[j].id && r[i].token != r[j].token {
      assert rows[i].id != rows[j].id;
    }
  }

  lemma SetExpiryKeepsSessionsValid(rows: seq<Session>, id: string, expiresAt: int, now: int)
    requires SessionsValid(rows)
    ensures SessionsValid(SetExpiry(rows, id, expiresAt, now))
  {
    var r := SetExpiry(rows, id, expiresAt, now);
    forall i, j | 0 <= i < j < |r| ensures r[i].id != r[j].id && r[i].token != r[j].token {
      assert rows[i].id != rows[j].id && rows[i].token != rows[j].token;
    }
  }

  // ---------------------------------------------------------------------
  // The operations of session.ts

  /** `validateTenantSession(tenantId, token)`. */
  function ValidateTenantSession(store: Store, tenantId: string, token: string, now: int): Option<Session>
    reads store
  {
    FindValid(store.Tenant(tenantId).sessions, token, now)
  }

  /** `validateAdminSession(token)`. */
  function ValidateAdminSession(store: Store, token: string, now: int): Option<AdminSession>
    reads store
  {
    FindValidAdmin(store.adminSessions, token, now)
  }

  /** `invalidateTenantSession(tenantId, token)`. */
  method InvalidateTenantSession(store: Store, tenantId: string, token: string) returns (ok: bool)
    requires store.Valid()
    modifies store
    ensures store.Valid() && ok
    ensures unchanged(store`admins, store`adminSessions, store`companies)
    ensures store.tenants == old(store.tenants)[tenantId :=
      old(store.Tenant(tenantId)).(sessions := WithoutToken(old(store.Tenant(tenantId)).sessions, token))]
  {
    var db := store.Tenant(tenantId);
    FilterKeepsSessionsValid(db.sessions, (s: Session) => s.token != token);
    store.PutTenant(tenantId, db.(sessions := WithoutToken(db.sessions, token)));
    return true;
  }

  /** `invalidateAllUserSessions(tenantId, userId)`. */
  method InvalidateAllUserSessions(store: Store, tenantId: string, userId: string) returns (ok: bool)
    requires store.Valid()
    modifies store
    ensures store.Valid() && ok
    ensures unchanged(store`admins, store`adminSessions, store`companies)
    ensures store.tenants == old(store.tenants)[tenantId :=
      old(store.Tenant(tenantId)).(sessions := WithoutUser(old(store.Tenant(tenantId)).sessions, userId))]
  {
    var db := store.Tenant(tenantId);
    FilterKeepsSessionsValid(db.sessions, (s: Session) => s.userId != userId);
    store.PutTenant(tenantId, db.(sessions := WithoutUser(db.sessions, userId)));
    return true;
  }

  /** `invalidateAdminSession(token)`. */
  method InvalidateAdminSession(store: Store, token: string) returns (ok: bool)
    requires store.Valid()
    modifies store
    ensures store.Valid() && ok
    ensures unchanged(store`admins, store`companies, store`tenants)
    ensures store.adminSessions == AdminWithoutToken(old(store.adminSessions), token)
  {
    FilterKeepsAdminSessionsValid(store.adminSessions, (s: AdminSession) => s.token != token);
    store.adminSessions := AdminWithoutToken(store.adminSessions, token);
    return true;
  }

  /** `cleanupExpiredSessions(tenantId?)`: admin rows with expiresAt < now
      always, and that tenant's rows only when a tenant id is given. */
  method CleanupExpiredSessions(store: Store, tenantId: Option<string>, now: int) returns (ok: bool)
    requires store.Valid()
    modifies store
    ensures store.Valid() && ok
    ensures unchanged(store`admins, store`companies)
    ensures store.adminSessions == AdminWithoutExpired(old(store.adminSessions), now)
    ensures !Truthy(tenantId) ==> store.tenants == old(store.tenants)
    ensures Truthy(tenantId) ==> store.tenants == old(store.tenants)[tenantId.value :=
      old(store.Tenant(tenantId.value)).(sessions := WithoutExpired(old(store.Tenant(tenantId.value)).sessions, now))]
  {
    FilterKeepsAdminSessionsValid(store.adminSessions, (s: AdminSession) => s.expiresAt >= UnixSeconds(now));
    store.adminSessions := AdminWithoutExpired(store.adminSessions, now);
    if Truthy(tenantId) {
      var db := store.Tenant(tenantId.value);
      FilterKeepsSessionsValid(db.sessions, (s: Session) => s.expiresAt >= now);
      store.PutTenant(tenantId.value, db.(sessions := WithoutExpired(db.sessions, now)));
    }
    return true;
  }

  /** `regenerateSessionToken(tenantId, oldToken)`: a live session gets the
      hex of `random` as its token, on the same row. Null when the old token
      does not validate, or when the new token is already another row's (the
      UNIQUE violation is caught). */
  method RegenerateSessionToken(store: Store, tenantId: string, oldToken: string, random: seq<byte>, now: int)
    returns (newToken: Option<string>)
    requires store.Valid() && |random| == 32
    modifies store
    ensures store.Valid()
    ensures unchanged(store`admins, store`adminSessions, store`companies)
    ensures newToken.None? ==> unchanged(store)
    ensures var rows := old(store.Tenant(tenantId)).sessions;
      var existing := FindValid(rows, oldToken, now);
      if existing.None? || TokenHeldByOther(rows, existing.value.id, ToHex(random)) then
        newToken.None? && store.tenants == old(store.tenants)
      else
        && newToken == Some(ToHex(random))
        && store.tenants == old(store.tenants)[tenantId :=
             old(store.Tenant(tenantId)).(sessions := ReplaceToken(rows, existing.value.id, ToHex(random), now))]
  {
    var db := store.Tenant(tenantId);
    var existingSession := FindValid(db.sessions, oldToken, now);
    if existingSession.None? {
      return None;
    }
    var token := ToHex(random);
    if TokenHeldByOther(db.sessions, existingSession.value.id, token) {
      return None;
    }
    ReplaceTokenKeepsSessionsValid(db.sessions, existingSession.value.id, token, now);
    store.PutTenant(tenantId, db.(sessions := ReplaceToken(db.sessions, existingSession.value.id, token, now)));
    return Some(token);
  }

  /** `extendSession(tenantId, token, additionalDays = 7)`: a live session's
      expiry becomes now plus that many days. */
  method ExtendSession(store: Store, tenantId: string, token: string, now: int, additionalDays: int := 7)
    returns (ok: bool)
    requires store.Valid()
    modifies store
    ensures store.Valid()
    ensures unchanged(store`admins, store`adminSessions, store`companies)
    ensures var rows := old(store.Tenant(tenantId)).sessions;
      var existing := FindValid(rows, token, now);
      if existing.None? then
        !ok && store.tenants == old(store.tenants)
      else
        && ok
        && store.tenants == old(store.tenants)[tenantId := old(store.Tenant(tenantId)).(sessions :=
             SetExpiry(rows, existing.value.id, now + additionalDays * DAY_MS, now))]
  {
    var db := store.Tenant(tenantId);
    var existingSession := FindValid(db.sessions, token, now);
    if existingSession.None? {
      return false;
    }
    var newExpiry := now + additionalDays * DAY_MS;
    SetExpiryKeepsSessionsValid(db.sessions, existingSession.value.id, newExpiry, now);
    store.PutTenant(tenantId, db.(sessions := SetExpiry(db.sessions, existingSession.value.id, newExpiry, now)));
    return true;
  }

  // ---------------------------------------------------------------------
  // Properties

  /** Invalidating a token deletes every row with it and keeps every other
      row; afterwards that token does not validate. */
  lemma InvalidateRemovesToken(rows: seq<Session>, token: string, now: int)
    ensures FindValid(WithoutToken(rows, token), token, now).None?
    ensures forall s :: s in rows && s.token != token ==> s in WithoutToken(rows, token)
  {
    var r := WithoutToken(rows, token);
    forall s | s in rows && s.token != token ensures s in r {
      var i :| 0 <= i < |rows| && rows[i] == s;
    }
  }

  /** Invalidating the same token twice is invalidating it once. */
  lemma InvalidateIdempotent(rows: seq<Session>, token: string)
    ensures WithoutToken(WithoutToken(rows, token), token) == WithoutToken(rows, token)
  {
    FilterIdempotent(rows, (s: Session) => s.token != token);
  }

  /** After invalidating all of a user's sessions, none of the tokens that
      user held validates any more. */
  lemma InvalidateAllRevokesUser(rows: seq<Session>, userId: string, now: int, s: Session)
    requires SessionsValid(rows) && s in rows && s.userId == userId
    ensures FindValid(WithoutUser(rows, userId), s.token, now).None?
  {
    var r := WithoutUser(rows, userId);
    if FindValid(r, s.token, now).Some? {
      var t := FindValid(r, s.token, now).value;
      KeyUniqueSameRow(rows, SessionTokenOf, t, s);
    }
  }

  /** The sweep deletes exactly the rows that expired strictly before now. A
      row expiring exactly at now survives the sweep, yet does not validate. */
  lemma SweepBoundary(rows: seq<Session>, s: Session, now: int)
    requires SessionsValid(rows) && s in rows && s.expiresAt == now
    ensures s in WithoutExpired(rows, now)
    ensures FindValid(WithoutExpired(rows, now), s.token, now) != Some(s)
    ensures FindValid(rows, s.token, now).None?
  {
    var i :| 0 <= i < |rows| && rows[i] == s;
    if FindValid(rows, s.token, now).Some? {
      var t := FindValid(rows, s.token, now).value;
      KeyUniqueSameRow(rows, SessionTokenOf, t, s);
    }
  }

  /** Rotation keeps the row: the same id, user and expiry now answer to the
      new token, the old token (when different) no longer validates, and
      every other row is untouched. */
  lemma RotationEffect(rows: seq<Session>, oldToken: string, newToken: string, now: int)
    requires SessionsValid(rows)
    requires FindValid(rows, oldToken, now).Some?
    requires !TokenHeldByOther(rows, FindValid(rows, oldToken, now).value.id, newToken)
    ensures var s := FindValid(rows, oldToken, now).value;
      var after := ReplaceToken(rows, s.id, newToken, now);
      && FindValid(after, newToken, now) == Some(s.(token := newToken, updatedAt := now))
      && (newToken != oldToken ==> FindValid(after, oldToken, now).None?)
      && (forall i :: 0 <= i < |rows| && rows[i].id != s.id ==> after[i] == rows[i])
  {
    var s := FindValid(rows, oldToken, now).value;
    var after := ReplaceToken(rows, s.id, newToken, now);
    ReplaceTokenKeepsSessionsValid(rows, s.id, newToken, now);
    var i :| 0 <= i < |rows| && rows[i] == s;
    assert after[i] == s.(token := newToken, updatedAt := now);
    FindValidUnique(after, after[i], now);
    if newToken != oldToken && FindValid(after, oldToken, now).Some? {
      var k :| 0 <= k < |after| && after[k] == FindValid(after, oldToken, now).value;
      assert rows[k].id != s.id;
      assert rows[k].token == oldToken;
      KeyUniqueSameRow(rows, SessionTokenOf, rows[k], s);
    }
  }

  /** Extension keeps the token and moves the expiry; when the new expiry
      lies after now (a positive number of days) the session still validates,
      now with the new expiry. */
  lemma ExtensionEffect(rows: seq<Session>, token: string, now: int, expiresAt: int)
    requires SessionsValid(rows) && FindValid(rows, token, now).Some?
    ensures var s := FindValid(rows, token, now).value;
      var after := SetExpiry(rows, s.id, expiresAt, now);
      && SessionsValid(after)
      && (expiresAt > now ==> FindValid(after, token, now) == Some(s.(expiresAt := expiresAt, updatedAt := now)))
  {
    var s := FindValid(rows, token, now).value;
    var after := SetExpiry(rows, s.id, expiresAt, now);
    SetExpiryKeepsSessionsValid(rows, s.id, expiresAt, now);
    var i :| 0 <= i < |rows| && rows[i] == s;
    if expiresAt > now {
      assert after[i] == s.(expiresAt := expiresAt, updatedAt := now);
      FindValidUnique(after, after[i], now);
    }
  }
}
