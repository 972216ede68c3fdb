/** src/lib/security-log.ts: the client address and user agent read from
    the request headers, and the log append that never throws. */
module SecurityLog {
  import opened Common
  import opened Db
  import opened Http

  datatype ClientInfo = ClientInfo(ipAddress: string, userAgent: string)

  /** `headers.get("x-forwarded-for")?.split(",")[0]`: the first hop of the
      forwarded chain, when the header is there. */
  function ForwardedFor(headers: Headers): (r: Option<string>)
    ensures r.Some? <==> "x-forwarded-for" in headers
    ensures r.Some? ==> r.value <= headers["x-forwarded-for"] && ',' !in r.value
  {
    match Header(headers, "x-forwarded-for")
    case None => None
    case Some(chain) => Some(Split(chain, ',')[0])
  }

  /** `headers.get("x-forwarded-for")?.split(",")[0] || null`: the address
      as the admin sign-in and forgot-password routes read it, with no
      fallback to `x-real-ip`. */
  function ForwardedIpOrNull(headers: Headers): (ip: Option<string>)
    ensures ip.Some? ==> ip.value != "" && ',' !in ip.value
    ensures "x-forwarded-for" !in headers ==> ip.None?
  {
    OrNull(ForwardedFor(headers))
  }

  /** `getClientInfo(req)`: the first forwarded hop if non-empty, else a
      non-empty `x-real-ip`, else "unknown"; the user agent or "unknown". */
  function GetClientInfo(headers: Headers): (info: ClientInfo)
    ensures info.ipAddress != "" && info.userAgent != ""
    ensures Truthy(ForwardedFor(headers)) ==> info.ipAddress == ForwardedFor(headers).value
    ensures !Truthy(ForwardedFor(headers)) && Truthy(Header(headers, "x-real-ip")) ==>
      info.ipAddress == headers["x-real-ip"]
    ensures !Truthy(ForwardedFor(headers)) && !Truthy(Header(headers, "x-real-ip")) ==>
      info.ipAddress == "unknown"
    ensures info.userAgent == if Truthy(Header(headers, "user-agent")) then headers["user-agent"] else "unknown"
  {
    var ip := OrDefault(OrElse(ForwardedFor(headers), Header(headers, "x-real-ip")), "unknown");
    ClientInfo(ip, OrDefault(Header(headers, "user-agent"), "unknown"))
  }

  /** Behind a proxy chain `client, proxy1, ...` the client hop is what is
      recorded, whatever the later hops and `x-real-ip` say. */
  lemma ClientIpIsFirstHop(headers: Headers, client: string, rest: string)
    requires client != "" && ',' !in client
    requires "x-forwarded-for" in headers && headers["x-forwarded-for"] == client + "," + rest
    ensures GetClientInfo(headers).ipAddress == client
  {
    assert client + "," + rest == client + ([','] + rest);
    IndexOfAfter(client, ',', [','] + rest);
  }

  /** A single forwarded address is recorded as it is. */
  lemma ClientIpSingleHop(headers: Headers)
    requires "x-forwarded-for" in headers && headers["x-forwarded-for"] != ""
    requires ',' !in headers["x-forwarded-for"]
    ensures GetClientInfo(headers).ipAddress == headers["x-forwarded-for"]
  {
    IndexOfAbsent(headers["x-forwarded-for"], ',');
  }

  /** `value || null`: empty strings are stored as null. */
  function OrNull(o: Option<string>): (r: Option<string>)
    ensures r.Some? <==> Truthy(o)
    ensures r.Some? ==> r == o
  {
    if Truthy(o) then o else None
  }

  /** The row `logSecurityEvent` inserts. */
  function LogRow(
    userId: Option<string>, action: SecurityAction, ipAddress: Option<string>, userAgent: Option<string>,
    details: Option<Details>, now: int): (row: SecurityLogRow)
    ensures row.action == action && row.details == details && row.createdAt == now
    ensures row.userId == OrNull(userId) && row.ipAddress == OrNull(ipAddress) && row.userAgent == OrNull(userAgent)
  {
    SecurityLogRow(OrNull(userId), action, OrNull(ipAddress), OrNull(userAgent), details, now)
  }

  /** The tenant store after a log insert that may throw. */
  function AppendLog(db: TenantDb, row: SecurityLogRow, insertFails: bool): (after: TenantDb)
    ensures after.users == db.users && after.sessions == db.sessions && after.verifications == db.verifications
    ensures insertFails ==> after == db
    ensures !insertFails ==> after.securityLog == db.securityLog + [row]
  {
    if insertFails then db else db.(securityLog := db.securityLog + [row])
  }

  /** `logSecurityEvent(...)`: opens the tenant's store, appends one row and
      answers true, or, when the insert throws (`insertFails`), leaves the
      log as it was and answers false. It never throws itself. */
  method LogSecurityEvent(
    store: Store, tenantId: string, userId: Option<string>, action: SecurityAction,
    ipAddress: Option<string>, userAgent: Option<string>, details: Option<Details>, now: int, insertFails: bool)
    returns (ok: bool)
    requires store.Valid()
    modifies store
    ensures store.Valid()
    ensures ok == !insertFails
    ensures unchanged(store`admins, store`adminSessions, store`companies)
    ensures store.tenants == old(store.tenants)[tenantId :=
      AppendLog(old(store.Tenant(tenantId)), LogRow(userId, action, ipAddress, userAgent, details, now), insertFails)]
  {
    var db := store.Tenant(tenantId);
    store.PutTenant(tenantId, AppendLog(db, LogRow(userId, action, ipAddress, userAgent, details, now), insertFails));
    return !insertFails;
  }
}
