# Multi-tenant authentication and sessions, modelled in Dafny

This project models the authentication and session layer of a multi-tenant
web application. Each company (a tenant) has its own store of users,
sessions and one-time reset codes. A main store holds the platform admins,
their sessions and the companies. The model covers:

- the fixed-window login rate limiter;
- the password rules: strength, the legacy SHA-256 format, and migration on sign-in;
- the CSRF double-submit checks;
- the session table operations;
- the tenant guard and the edge middleware's redirect decision;
- the route handlers that compose them: tenant login with its five-session
  cap, admin sign-in and sign-out, forgot / verify / reset password, logout,
  token rotation, the cron sweep and company registration.

State that the source updates in place is held in three classes:

- `Db.Store` holds the main tables as sequences, plus a map from company id
  to that tenant's store, a `TenantDb` value. A tenant absent from the map
  reads as an empty store, since its file is created on first use.
- `RateLimit.RateLimiter` holds the key-to-entry map.
- `Cookies.CookieJar` holds the cookies of the request being handled, with
  unique names.

Handlers are methods. Each handler's `ensures` first classifies the call by a
`Stage` function evaluated on the state before the call. It then states, for
every stage, the response and the whole new state. Lemmas next to each
handler state what the routes are for: a cookie issued at login passes the
guard, a rotated token replaces the old one, and a reset revokes every
session and code.

The following are parameters of the handlers:

- time, an integer count of milliseconds. The main store's `timestamp` columns (admins, admin sessions, companies) hold whole seconds, `Db.UnixSeconds` of the time, and compare against the current second;
- the random bytes behind tokens, and the uuids;
- the `Math.random` draw;
- whether a store write throws.

Cryptography is a `Crypto` value of uninterpreted functions (SHA-256 digest,
bcrypt hash and compare). The `Sound` predicate states the three facts the
code relies on: bcrypt accepts its own hash, a bcrypt hash holds a `$`, and
a SHA-256 digest is 64 lower-case hex characters.
An insert whose id or token collides with an existing row fails, as the
UNIQUE and PRIMARY KEY constraints make it fail. The handler then answers as
its `catch` does. Nothing assumes that random tokens are fresh.

The JWT verifier of the middleware and its same-origin session API are
function parameters, used as oracles.

## Model

| member | source | states |
|---|---|---|
| RateLimit.CeilDiv | src/lib/rate-limit.ts:32 | `(q - 1) * d < x <= q * d`: the smallest integer at or above `x / d`, as `Math.ceil` of the quotient |
| RateLimit.Check | src/lib/rate-limit.ts:17-43 | the check changes at most the entry under its own key; that key is present afterwards, and every other key keeps its entry or its absence |
| RateLimit.RateLimiter.constructor | src/lib/rate-limit.ts:8-11 | the limiter starts with no entries |
| RateLimit.RateLimiter.CheckRateLimit | src/lib/rate-limit.ts:17-43 | the decision and the new entry map are those of `Check` on the old map; every stored count stays in 1..5 |
| RateLimit.RateLimiter.ResetRateLimit | src/lib/rate-limit.ts:45-47 | exactly the given key is removed |
| RateLimit.LockoutMinutes | src/app/api/tenant/login/route.ts:34 | minutes in the 429 message: `ceil(retryAfter / 60)`, or 30 when `retryAfter` is absent or 0 |
| RateLimit.DeniedWaitMinutes | src/app/api/tenant/login/route.ts:31-38 | a denial always reports between 15 and 30 minutes |
| RateLimit.CheckFirstAttempt | src/lib/rate-limit.ts:21-24 | with no entry: allowed with 4 remaining, and `{count 1, firstAttempt now}` stored |
| RateLimit.CheckWindowExpired | src/lib/rate-limit.ts:26-29 | an entry strictly older than 15 minutes is replaced by `{1, now}`, and the check is allowed with 4 remaining |
| RateLimit.CheckLockedOut | src/lib/rate-limit.ts:31-38 | inside the window with count at least 5: denied with 0 remaining, and the map is unchanged |
| RateLimit.RetryAfterBounds | src/lib/rate-limit.ts:32-36 | for a denial with `0 <= now - firstAttempt <= 15 min`, `retryAfter` is present and in [900, 1800] |
| RateLimit.CheckUnderLimit | src/lib/rate-limit.ts:40-42 | under the limit the count grows by exactly 1, and `remainingAttempts == 5 - newCount`, in [0, 3] |
| RateLimit.CheckBounds | src/lib/rate-limit.ts:17-43 | `remainingAttempts` is always in [0, 4], and stored counts stay in 1..5 |
| RateLimit.DeniedOnlyInWindow | src/lib/rate-limit.ts:26-38 | a denial implies an entry inside the window with count at least 5 |
| RateLimit.LockoutEndsWithWindow | src/lib/rate-limit.ts:26-36 | once the 15-minute window has passed, a denied key is allowed again, earlier than the advertised `retryAfter` |
| RateLimit.FiveThenDenied | src/lib/rate-limit.ts:17-43 | from an empty map, five checks at one instant are allowed with 4, 3, 2, 1, 0 remaining; the sixth is denied with `retryAfter` 1800 |
| RateLimit.ResetThenAllowed | src/lib/rate-limit.ts:45-47 | after a reset the next check is allowed with 4 remaining |
| RateLimit.KeyIgnoresEmailCase | src/lib/rate-limit.ts:49-51 | emails equal after lower-casing give the same key |
| RateLimit.KeyWithoutIp | src/lib/rate-limit.ts:50 | a null or empty ip is spelled `unknown` |
| RateLimit.KeyNamespacesDisjoint | src/app/api/auth/admin/sign-in/email/route.ts:22 | the `admin_` and `reset_` key spaces never meet each other or the plain login key for the same ip and email |
| Password.HashThenVerify | src/lib/password.ts:5-11 | bcrypt compare accepts the password against its own hash |
| Password.MatchesHexRunExactly | src/lib/password.ts:13-15 | the regex `^[a-f0-9]{n}$` matches exactly the strings of n lower-case hex digits |
| Password.LegacyHashFormat | src/lib/password.ts:13-15 | `isLegacySha256Hash(h)` holds iff h has 64 characters, all in [0-9a-f] |
| Password.NonHexIsNotLegacy | src/lib/password.ts:13-15 | one character outside [0-9a-f] (upper case, `$`) rules a hash out |
| Password.BcryptIsNotLegacy | src/lib/password.ts:13-15 | a bcrypt hash is never taken for a legacy one |
| Password.Sha256IsLegacy | src/lib/password.ts:17-20 | a SHA-256 hex digest is always recognised as a legacy hash |
| Password.MigrateLegacyHash | src/lib/password.ts:17-25 | a new hash is returned iff the SHA-256 of the password equals the stored legacy hash |
| Password.MigratedHashVerifies | src/lib/password.ts:17-25 | the returned value is the bcrypt hash of the password, passes verification and is not legacy |
| Password.ContainsInRangeMeans | src/lib/password.ts:37-47 | the regex tests `[A-Z]`, `[a-z]`, `[0-9]` hold iff some character lies in the range |
| Password.ValidatePasswordStrength | src/lib/password.ts:32-50 | valid iff length at least 8 with an upper-case letter, a lower-case letter and a digit; each error is reported iff its check is the first to fail |
| Password.StrongPasswordWitnesses | src/lib/password.ts:32-50 | a valid password has length at least 8 and contains each of the three character kinds |
| Csrf.SafeCompare | src/lib/csrf.ts:7-16 | false when lengths differ; otherwise true iff the strings are equal |
| Csrf.GenerateCsrfToken | src/lib/csrf.ts:18-20 | 32 random bytes give a 64-character lower-case hex string |
| Csrf.SetCsrfCookie | src/lib/csrf.ts:22-35 | the returned token is stored under `csrf_token` with the route's attributes, and nothing else in the jar changes |
| Csrf.ValidateCsrfToken | src/lib/csrf.ts:42-51 | false if the header or the cookie is absent or empty; otherwise true iff they are equal |
| Csrf.CsrfProtection | src/lib/csrf.ts:53-61 | valid exactly when `validateCsrfToken` holds, with an error iff invalid |
| Csrf.ValidateCSRFToken | src/lib/csrf.ts:63-73 | false if the `tenant_<id>_csrf` cookie or the header is missing; otherwise plain equality |
| Csrf.TenantCsrfReadsOnlyItsCookie | src/lib/csrf.ts:63-73 | the verdict depends on no cookie but `tenant_<id>_csrf` |
| Csrf.IssuedTokenPasses | src/lib/csrf.ts:22-61 | after `setCsrfCookie`, a header carrying the issued token passes; another value or no header fails |
| Csrf.MismatchedCookieFails | src/lib/csrf.ts:42-51 | a header that differs from the cookie fails |
| Sessions.FindValid | src/lib/session.ts:8-26 | a row is returned iff some row has the token and `expiresAt > now` (strict); the row returned is such a row |
| Sessions.FindValidAdmin | src/lib/session.ts:28-45 | the same query on the admin session table, whose whole-second `expiresAt` must exceed `UnixSeconds(now)`; none iff no row with the token does |
| Db.UnixSeconds | src/lib/db/schema-main.ts:8-16 | the second a millisecond time falls in: `s * 1000 <= ms < s * 1000 + 1000` |
| Db.BeforeSecond | src/lib/db/schema-main.ts:15 | a seconds column is after `UnixSeconds(t)` iff `t` is before the start of its second in milliseconds |
| Sessions.FindValidUnique | src/lib/session.ts:8-26 | with unique tokens, a live row is found by its own token |
| Sessions.WithoutToken | src/lib/session.ts:47-55 | the rows left by `delete where token = t`: exactly the rows with another token |
| Sessions.WithoutUser | src/lib/session.ts:57-65 | the rows left by `delete where userId = u`: exactly the rows of other users |
| Sessions.WithoutExpired | src/lib/session.ts:84 | the rows left by `delete where expiresAt < now`: exactly the rows with `expiresAt >= now` |
| Sessions.AdminWithoutToken | src/lib/session.ts:67-74 | the admin rows with another token |
| Sessions.AdminWithoutExpired | src/lib/session.ts:80 | the admin rows with `expiresAt >= UnixSeconds(now)`, on the seconds column |
| Sessions.ReplaceToken | src/lib/session.ts:107-117 | `update set token, updatedAt where id = x`: only the row with that id changes, in exactly those two fields |
| Sessions.SetExpiry | src/lib/session.ts:140-146 | `update set expiresAt, updatedAt where id = x`: only that row changes, in those two fields |
| Sessions.FilterKeepsSessionsValid | src/lib/db/db.ts:113-122 | deleting rows keeps session ids and tokens unique |
| Sessions.FilterKeepsAdminSessionsValid | src/lib/db/db.ts:27-33 | deleting rows keeps admin session ids and tokens unique |
| Sessions.ReplaceTokenKeepsSessionsValid | src/lib/db/db.ts:116 | a rotation to a token no other row holds keeps the UNIQUE constraint |
| Sessions.SetExpiryKeepsSessionsValid | src/lib/db/db.ts:113-122 | an extension keeps ids and tokens unique |
| Sessions.InvalidateTenantSession | src/lib/session.ts:47-55 | returns true; the tenant's session table becomes `WithoutToken`, and nothing else changes |
| Sessions.InvalidateAllUserSessions | src/lib/session.ts:57-65 | returns true; the tenant's session table becomes `WithoutUser`, and nothing else changes |
| Sessions.InvalidateAdminSession | src/lib/session.ts:67-74 | returns true; the admin session table becomes `AdminWithoutToken`, and nothing else changes |
| Sessions.CleanupExpiredSessions | src/lib/session.ts:76-91 | admin rows that expired before the current second are deleted; tenant rows are swept only when a tenant id is given |
| Sessions.RegenerateSessionToken | src/lib/session.ts:93-121 | with no live row for the old token (or a clashing new token), null and no change; otherwise the fresh hex token, written on that row id only |
| Sessions.ExtendSession | src/lib/session.ts:123-152 | false and no change for a token with no live row; otherwise true, with that row's `expiresAt` set to `now + additionalDays` days (default 7) |
| Sessions.InvalidateRemovesToken | src/lib/session.ts:47-55 | after the delete the token no longer validates, and every row with another token survives |
| Sessions.InvalidateIdempotent | src/lib/session.ts:47-55 | deleting a token twice equals deleting it once |
| Sessions.InvalidateAllRevokesUser | src/lib/session.ts:57-65 | afterwards no token of that user validates, at any time |
| Sessions.SweepBoundary | src/lib/session.ts:76-91 | a row with `expiresAt == now` survives the sweep yet fails validation |
| Sessions.RotationEffect | src/lib/session.ts:107-120 | after a rotation the new token finds the same row (userId and expiry unchanged), the old token finds nothing, and every other row is untouched |
| Sessions.ExtensionEffect | src/lib/session.ts:137-148 | an extension keeps ids and tokens unique, and a future expiry makes the same row validate with that expiry |
| Db.FilterKeepsKeyUnique | src/lib/db/db.ts:20-42 | deleting rows keeps a UNIQUE or PRIMARY KEY column unique |
| Db.KeyUniqueSameRow | src/lib/db/db.ts:20-42 | two rows with the same unique key are the same row |
| Db.InsertSession | src/lib/db/db.ts:113-122 | the insert succeeds iff neither id nor token is taken, appends exactly the row, and keeps both unique |
| Db.InsertAdminSession | src/lib/db/db.ts:27-33 | the same for admin sessions |
| Db.InsertCompany | src/lib/db/db.ts:34-42 | the insert succeeds iff neither id nor slug is taken, appends exactly the row, and keeps both unique |
| Db.InsertUser | src/lib/db/db.ts:102-112 | the insert succeeds iff neither id nor email is taken, appends exactly the row, and keeps both unique |
| Db.InsertVerification | src/lib/db/db.ts:138-145 | the insert succeeds iff the id is new, appends exactly the row, and keeps ids unique |
| Db.NewCompany | src/lib/db/db.ts:34-42 | `is_active` defaults to false when not given, and is the given value otherwise |
| Db.GetCompanyBySlugOrId | src/lib/db/db.ts:84-89 | the result is a company whose slug or id equals the argument, and none is returned iff no company matches |
| Db.LookupFindsTheOnlyMatch | src/lib/db/db.ts:84-89 | when exactly one company matches, the lookup returns it |
| Db.FindUserByEmail | src/lib/db/db.ts:102-112 | `select from user where email = e`: a row with that email, and none iff none has it |
| Db.FindAdminByEmail | src/lib/db/db.ts:20-26 | the same on the admins table |
| Db.SetUserPasswordById | src/app/api/tenant/login/route.ts:69 | only the row with that id changes, in its password and `updatedAt` |
| Db.SetUserPasswordByEmail | src/app/api/tenant/reset-password/route.ts:69-72 | only rows with that email change, in their password and `updatedAt` |
| Db.SetAdminPassword | src/app/api/auth/admin/sign-in/email/route.ts:61 | only the admin with that id changes, in its password |
| Db.KeyUniqueAfterUpdate | src/lib/db/db.ts:20-42 | an update that keeps a key column keeps it unique |
| Db.TenantDbPathInjective | src/lib/db/db.ts:96-97 | the path `tenant_<id>.db` determines the id, so distinct companies get distinct stores |
| Db.Store.constructor | src/lib/db/db.ts:18-82 | an empty main store satisfies every constraint |
| Db.Store.Tenant | src/lib/db/db.ts:96-176 | in a valid store every tenant's store, an absent one read as empty, satisfies the UNIQUE constraints |
| Db.Store.PutTenant | src/lib/db/db.ts:96-176 | writes exactly that tenant's store and keeps every constraint |
| Cookies.Find | src/app/api/tenant/logout/route.ts:33 | `cookies().get(name)`: a cookie of that name from the jar, and none iff no cookie has that name |
| Cookies.SetCookie | src/lib/csrf.ts:22-35 | `set` replaces or adds the named cookie; every other name reads as before |
| Cookies.DeleteCookie | src/app/api/tenant/logout/route.ts:55-56 | after `delete` the name is absent; every other name reads as before |
| Cookies.SetCookieKeepsNamesUnique | src/lib/csrf.ts:22-35 | a jar keeps one cookie per name after a `set` |
| Cookies.DeleteCookieKeepsNamesUnique | src/app/api/tenant/logout/route.ts:55-56 | a jar keeps one cookie per name after a `delete`, and holds only cookies it had |
| Cookies.CookieJar.constructor | src/app/api/tenant/logout/route.ts:22 | the handler's jar starts as the request's cookies |
| Cookies.CookieJar.Set | src/lib/csrf.ts:22-35 | the jar becomes `SetCookie` of the old jar, and names stay unique |
| Cookies.CookieJar.Delete | src/app/api/tenant/logout/route.ts:55-56 | the jar becomes `DeleteCookie` of the old jar, and names stay unique |
| AuthGuard.SessionCookieName | src/lib/auth-guard.ts:11 | the name `tenant_<id>_session` carries the id between its fixed 7-character prefix and 8-character suffix |
| AuthGuard.SessionCookieNameInjective | src/lib/auth-guard.ts:11 | two tenants never share a session cookie name |
| AuthGuard.VerifyTenantSession | src/lib/auth-guard.ts:10-54 | no truthy cookie gives 401 not-authenticated; a store fault 500; otherwise success iff a row with that token has `expiresAt > now`, with that row's user and the requested tenant, and 401 session-expired if not |
| AuthGuard.GuardAgreesWithSessions | src/lib/auth-guard.ts:20-46 | the guard accepts exactly when `validateTenantSession` finds the token, with the same user |
| AuthGuard.OtherTenantsCookieIgnored | src/lib/auth-guard.ts:11-18 | a session cookie of another tenant does not authenticate the request |
| AuthGuard.QueryGet | src/lib/auth-guard.ts:57 | `searchParams.get`: the first pair with the name, and none iff no pair has it |
| AuthGuard.RefererTenant | src/lib/auth-guard.ts:63-64 | the match of `/\/c\/([^\/]+)/`: a non-empty segment without `/`, and none iff `/c/` followed by a non-slash character occurs nowhere |
| AuthGuard.RefererFindsTenantPath | src/lib/auth-guard.ts:63-64 | for any referer `<pre>/c/<id>[/...]` (an absolute URL among them) in which the pattern does not match earlier, the match is `<id>` |
| AuthGuard.AbsoluteRefererFindsTenant | src/lib/auth-guard.ts:63-64 | the referer `https://host/c/acme/x` names tenant `acme` |
| AuthGuard.GetTenantIdFromRequest | src/lib/auth-guard.ts:56-69 | a truthy `tenantId` parameter wins; otherwise the referer match; otherwise null; never an empty id |
| AdminAuth.GetAdminSession | src/lib/admin-auth.ts:6-30 | null without an `admin_session` cookie; otherwise some identity iff an admin row with the cookie's token expires after the current second, and then that row's admin and session ids |
| AdminAuth.LiveAdminSessionFound | src/lib/admin-auth.ts:14-29 | a cookie holding the token of an admin row with `expiresAt > UnixSeconds(now)` yields that row's identity |
| AdminAuth.ExpiredAdminSessionRefused | src/lib/admin-auth.ts:20-27 | a row whose `expiresAt <= UnixSeconds(now)` is not accepted, its last partial second included |
| AdminAuth.LastPartialSecondRefused | src/lib/admin-auth.ts:20 | a row expiring at second 1 is refused at 1200 ms |
| AdminAuth.RevokedAdminSessionRefused | src/lib/admin-auth.ts:6-30 | once the token's admin rows are deleted, the cookie is refused |
| SecurityLog.ForwardedFor | src/lib/security-log.ts:55 | `x-forwarded-for` up to its first comma: present iff the header is, a prefix of it without a comma |
| SecurityLog.ForwardedIpOrNull | src/app/api/auth/admin/sign-in/email/route.ts:20 | the first hop or null, never an empty string |
| SecurityLog.GetClientInfo | src/lib/security-log.ts:53-61 | the ip is the truthy first forwarded hop, else the truthy `x-real-ip`, else "unknown"; the agent is the truthy `user-agent` or "unknown"; neither is ever empty |
| SecurityLog.ClientIpIsFirstHop | src/lib/security-log.ts:55 | with proxies appended after a comma, the client's own address is reported |
| SecurityLog.ClientIpSingleHop | src/lib/security-log.ts:55 | a forwarded header without a comma is reported whole |
| SecurityLog.OrNull | src/lib/security-log.ts:38-41 | `x \|\| null`: kept iff truthy |
| SecurityLog.LogRow | src/lib/security-log.ts:36-44 | the row carries the action, details and time, with empty user, ip and agent stored as null |
| SecurityLog.AppendLog | src/lib/security-log.ts:33-50 | only the log table changes: one row appended, or nothing when the insert throws |
| SecurityLog.LogSecurityEvent | src/lib/security-log.ts:25-51 | returns true iff the insert went through; only that tenant's log changes |
| Middleware.VerifySessionToken | middleware.ts:14-30 | true iff the token verifies, names the requested tenant, and its `exp` (when non-zero) is not before now in seconds |
| Middleware.TokenBoundToTenant | middleware.ts:18-20 | a token issued for another tenant is refused |
| Middleware.VerifySessionWithApi | middleware.ts:32-50 | true iff the reply is OK with `valid` exactly `true` |
| Middleware.PathTenant | middleware.ts:73-74 | the third `/`-separated segment, never containing `/` |
| Middleware.PathTenantOfTenantPage | middleware.ts:73-74 | on `/c/<id>[/...]` the segment is `<id>` |
| Middleware.Route | middleware.ts:52-101 | the admin-login redirect, the admin presence check, every other non-tenant path passing untouched, and on tenant pages the API is consulted only after a present cookie fails local verification; cookies are deleted only on a `/login` redirect after both checks fail |
| Middleware.AdminPagesCheckPresenceOnly | middleware.ts:64-70 | any `admin_session` cookie, whatever its value, lets an admin page through |
| Middleware.TenantPageNeedsCookie | middleware.ts:76-83 | without the tenant's cookie a tenant page redirects to /login with `redirect` set to the path, without consulting the API |
| Middleware.RejectedSessionClearsCookies | middleware.ts:85-96 | a cookie both checks reject redirects to /login and deletes the tenant's session and CSRF cookies |
| Middleware.LocalAcceptSkipsApi | middleware.ts:85-89 | a locally verified token passes without an API call |
| Middleware.ApiAcceptPasses | middleware.ts:85-89 | a token refused locally but accepted by the session API passes, with the API consulted |
| SessionCap.InsertNewestFirst | src/app/api/tenant/login/route.ts:97 | inserting into a newest-first list keeps it ordered and adds exactly that row |
| SessionCap.NewestFirst | src/app/api/tenant/login/route.ts:97 | `orderBy(desc(createdAt))`: ordered newest first, a permutation of the rows |
| SessionCap.FilterKeepsNewestFirst | src/app/api/tenant/login/route.ts:100-110 | dropping rows from a newest-first list keeps it newest first |
| SessionCap.UserSessions | src/app/api/tenant/login/route.ts:93-98 | exactly the user's rows, newest first |
| SessionCap.LiveNewestFirst | src/app/api/tenant/login/route.ts:100-110 | exactly the user's rows with `expiresAt > now`, newest first |
| SessionCap.Evictions | src/app/api/tenant/login/route.ts:112-113 | only live rows of the user are chosen for deletion |
| SessionCap.DeleteEachMembers | src/app/api/tenant/login/route.ts:114-116 | after the deletions a row survives iff its id is none of the victims' ids |
| SessionCap.DeleteEachKeepsSessionsValid | src/app/api/tenant/login/route.ts:114-116 | the deletions keep ids and tokens unique |
| SessionCap.SurvivorsAreNewest | src/app/api/tenant/login/route.ts:112-116 | every live row of the user that survives is among the four newest live ones |
| SessionCap.CapBound | src/app/api/tenant/login/route.ts:112-116 | after the cap the user has at most four live rows |
| SessionCap.CapKeepsOtherRows | src/app/api/tenant/login/route.ts:112-116 | rows of other users and expired rows are never deleted |
| SessionCap.CapEvictsOldest | src/app/api/tenant/login/route.ts:112-116 | every surviving live row of the user is at least as new as every evicted one |
| SessionCap.SurvivorIndex | src/app/api/tenant/login/route.ts:113 | a surviving live row sits at an index below `MAX_SESSIONS - 1` of the newest-first list |
| SessionCap.CapThenInsertBound | src/app/api/tenant/login/route.ts:90-132 | the cap followed by the new session leaves at most five live rows |
| SessionCap.UnderCapDeletesNothing | src/app/api/tenant/login/route.ts:112 | with fewer than five live rows the cap deletes nothing |
| SessionCap.FindById | src/app/api/tenant/login/route.ts:102-106 | `where id = x .get()`: a row with that id, and none iff none has it |
| SessionCap.CollectLive | src/app/api/tenant/login/route.ts:100-110 | the loop keeps exactly the listed rows whose `expiresAt > now`, in order |
| SessionCap.DeleteSessions | src/app/api/tenant/login/route.ts:114-116 | the loop deletes the victims one id at a time |
| SessionCap.EnforceSessionCap | src/app/api/tenant/login/route.ts:90-117 | only the user's tenant session table changes, to the capped rows |
| TenantLogin.Authentication | src/app/api/tenant/login/route.ts:40-86 | an unknown company, a missing user or an empty password hash, or a wrong password is refused; acceptance names a company of the store and a user of its tenant with the given email |
| TenantLogin.Evaluate | src/app/api/tenant/login/route.ts:15-86 | every stage past the field check had a valid CSRF pair and all fields; acceptance also needs the rate limiter to allow the key |
| TenantLogin.NewSession | src/app/api/tenant/login/route.ts:119-132 | the new row has the token, the user and an expiry seven days on |
| TenantLogin.Authenticate | src/app/api/tenant/login/route.ts:40-86 | the stage is `Authentication`'s; each failure logs its LOGIN_FAILED row; a matching legacy hash is replaced by its bcrypt hash |
| TenantLogin.CappedDb | src/app/api/tenant/login/route.ts:90-117 | capping touches only the session table |
| TenantLogin.StoreSession | src/app/api/tenant/login/route.ts:90-132 | the cap is applied; the new row is kept iff its id and token are free |
| TenantLogin.SetTenantCookies | src/app/api/tenant/login/route.ts:134-152 | the jar gains the session cookie (lax) and the CSRF cookie (strict), both seven days |
| TenantLogin.LogSuccess | src/app/api/tenant/login/route.ts:154-161 | one LOGIN_SUCCESS row is appended, unless the insert throws |
| TenantLogin.IssueSession | src/app/api/tenant/login/route.ts:90-174 | on success: the capped table plus the new row, both cookies, the log row and the 200 body; on a collision: 500 with the cap applied and the jar untouched |
| TenantLogin.SignIn | src/app/api/tenant/login/route.ts:40-174 | refusals give the same 401 body and do not reset the limiter; an acceptance resets the key and issues the session |
| TenantLogin.Login | src/app/api/tenant/login/route.ts:13-179 | 403 on CSRF failure, 500 on a malformed body, 400 on missing fields, 429 when throttled; every later stage has counted the attempt; each outcome states the whole new store, limiter and jar |
| TenantLogin.LoginCapsSessions | src/app/api/tenant/login/route.ts:90-132 | after a login the user holds at most five live sessions, the new one included |
| TenantLogin.LoginCookieAuthorizes | src/app/api/tenant/login/route.ts:119-144 | the cookie set at login passes the tenant guard as that user until the session expires |
| AdminSignIn.MaxAge | src/app/api/auth/admin/sign-in/email/route.ts:86 | 30 days with `rememberMe`, one day without |
| AdminSignIn.NewAdminSession | src/app/api/auth/admin/sign-in/email/route.ts:87-95 | the row holds whole seconds: created at `UnixSeconds(now)`, expiring the cookie's max-age later, so its deadline lies within the last second before `now + maxAge * 1000` |
| AdminSignIn.Credentials | src/app/api/auth/admin/sign-in/email/route.ts:41-79 | an admin is admitted only with that email and a password hash; a legacy hash only when it matches and it is then migrated; otherwise bcrypt must verify |
| AdminSignIn.Evaluate | src/app/api/auth/admin/sign-in/email/route.ts:13-79 | every stage past the field check had both fields; an admitted admin is one of the table with that email |
| AdminSignIn.CheckCredentials | src/app/api/auth/admin/sign-in/email/route.ts:41-79 | the result is `Credentials`; the admins table changes only by the migrated hash |
| AdminSignIn.OpenSession | src/app/api/auth/admin/sign-in/email/route.ts:83-114 | the admin row and the `admin_session` cookie (SameSite none) are added, or 500 with nothing changed on a collision |
| AdminSignIn.SignIn | src/app/api/auth/admin/sign-in/email/route.ts:11-119 | 500, 400, 429 and 401 by stage with the store unchanged; admission resets the key, migrates a legacy hash and opens the session |
| AdminSignIn.SignedInAdminRecognised | src/app/api/auth/admin/sign-in/email/route.ts:89-103 | the new cookie names that admin at every millisecond before `expiresAt * 1000`, and nobody from then on |
| AdminSignIn.AdminKeySeparate | src/app/api/auth/admin/sign-in/email/route.ts:20-22 | for the same address value (the forwarded hop or null) and email, the admin key differs from the un-prefixed key |
| AdminSignIn.AdminKeySeparateFromLoginKey | src/app/api/auth/admin/sign-in/email/route.ts:20-22 | when a non-empty forwarded hop is present, an admin attempt and a tenant login attempt of the same request and email use different keys |
| AdminSignIn.AdminKeyWithoutForwarded | src/app/api/auth/admin/sign-in/email/route.ts:20-22 | with no `x-forwarded-for` the admin key is `unknown_admin_<lower-cased email>`, whatever `x-real-ip` says |
| AdminSignIn.AdminKeyMeetsLoginKey | src/app/api/tenant/login/route.ts:27-29 | the namespaces can meet: with no `x-forwarded-for` and `x-real-ip: unknown_admin`, the tenant login key equals the admin key for every email |
| AdminSignOut.SignOut | src/app/api/auth/admin/sign-out/route.ts:6-19 | the cookie's admin rows are deleted, the cookie is removed, and the reply is always success |
| AdminSignOut.SignedOut | src/app/api/auth/admin/sign-out/route.ts:10-16 | after sign-out neither the jar nor a replayed copy of the old cookie reaches the admin pages |
| ForgotPassword.GenerateOtp | src/app/api/tenant/forgot-password/route.ts:10-12 | `floor(100000 + r * 900000)` for `0 <= r < 1` lies in 100000..999999 |
| ForgotPassword.DigitChar | src/app/api/tenant/forgot-password/route.ts:11 | a digit below 10 is written as `0`..`9` |
| ForgotPassword.Decimal | src/app/api/tenant/forgot-password/route.ts:11 | `toString()`: a non-empty string of digits |
| ForgotPassword.Pow10 | src/app/api/tenant/forgot-password/route.ts:11 | powers of ten are positive |
| ForgotPassword.DecimalRoundTrip | src/app/api/tenant/forgot-password/route.ts:11 | reading the decimal string back gives the number |
| ForgotPassword.DecimalLength | src/app/api/tenant/forgot-password/route.ts:11 | a number in `10^(k-1)..10^k - 1` has k digits |
| ForgotPassword.OtpCode | src/app/api/tenant/forgot-password/route.ts:10-12 | the code is always six digits, read as a number in 100000..999999 |
| ForgotPassword.Evaluate | src/app/api/tenant/forgot-password/route.ts:16-54 | every stage past the field check had a valid CSRF pair and both fields; a code is issued only for a user of an existing company |
| ForgotPassword.NewCode | src/app/api/tenant/forgot-password/route.ts:56-66 | the row is for the email, holds the six-digit code and expires 15 minutes on |
| ForgotPassword.ForgotPassword | src/app/api/tenant/forgot-password/route.ts:14-78 | 403, 500, 400 and 429 by stage; an unknown company or user gets the same reply as a sent code; only an issued code changes the store |
| ForgotPassword.IssuedCodeVerifies | src/app/api/tenant/forgot-password/route.ts:56-66 | the issued code is accepted exactly until its fifteen minutes are up (or while an older equal code is live) |
| VerifyResetCode.FindValidCode | src/app/api/tenant/verify-reset-code/route.ts:28-38 | a row with that email and code and `expiresAt > now`, and none iff no row matches |
| VerifyResetCode.AppendedCodeValid | src/app/api/tenant/verify-reset-code/route.ts:28-38 | a newly added code is found iff it is live or an equal older one is |
| VerifyResetCode.Verify | src/app/api/tenant/verify-reset-code/route.ts:7-48 | 403, 500 and 400 on CSRF, body and fields; 200 iff the company exists and a live matching code exists; invalid data iff the company does not |
| ResetPassword.WithoutIdentifier | src/app/api/tenant/reset-password/route.ts:76-78 | exactly the codes for other emails remain |
| ResetPassword.Evaluate | src/app/api/tenant/reset-password/route.ts:13-65 | the weak-password stage carries the strength error; a reset needs a valid CSRF pair, a strong password, the company, a live code and the user |
| ResetPassword.AfterReset | src/app/api/tenant/reset-password/route.ts:67-78 | the log table is untouched by the reset itself; the user's sessions go unless the swallowed session delete fails |
| ResetPassword.ApplyReset | src/app/api/tenant/reset-password/route.ts:67-78 | the tenant's store becomes `AfterReset`: new hash, no sessions of the user (all of them kept if the delete fails), no codes for the email |
| ResetPassword.ResetPassword | src/app/api/tenant/reset-password/route.ts:11-94 | each refusal has its status and leaves the store unchanged; a reset applies `AfterReset` and appends the PASSWORD_RESET_SUCCESS row |
| ResetPassword.ResetSetsPassword | src/app/api/tenant/reset-password/route.ts:67-72 | the new password verifies on the rows with that email; every other row is untouched |
| ResetPassword.ResetRevokesEverything | src/app/api/tenant/reset-password/route.ts:74-78 | after a reset whose session delete went through, no session of the user validates and no code for the email is accepted, at any time |
| ResetPassword.FailedWipeKeepsSessions | src/app/api/tenant/reset-password/route.ts:74-78 | when the session delete fails, still a success: the codes are gone, but every session of the user is kept and a live one still validates |
| TenantLogout.SessionCookieTenant | src/app/api/tenant/logout/route.ts:12 | the match of `/^tenant_(.+)_session$/`: a non-empty id without line terminators whose cookie name is the given name |
| TenantLogout.SessionCookieTenantOfName | src/app/api/tenant/logout/route.ts:12 | every such id is recognised in its own cookie name |
| TenantLogout.FirstTenant | src/app/api/tenant/logout/route.ts:9-18 | a tenant found is never empty |
| TenantLogout.ExtractTenantIdFromCookies | src/app/api/tenant/logout/route.ts:9-18 | the loop returns the first matching cookie with a value; null iff no cookie with a value matches |
| TenantLogout.FoundTenantHasToken | src/app/api/tenant/logout/route.ts:27-33 | in a jar with unique names, the tenant found always has a non-empty session cookie |
| TenantLogout.LogoutUser | src/app/api/tenant/logout/route.ts:36-39 | the log names a user only when a row holds the token |
| TenantLogout.SessionsAfterLogout | src/app/api/tenant/logout/route.ts:36-45 | the token's rows go unless there is no token or the delete throws |
| TenantLogout.EndSession | src/app/api/tenant/logout/route.ts:33-45 | returns the session's user and deletes the token's rows, or leaves the store unchanged |
| TenantLogout.Logout | src/app/api/tenant/logout/route.ts:20-63 | always redirects to /login; without a tenant cookie nothing changes; otherwise the rows go, a LOGOUT row is logged and both cookies are cleared |
| TenantLogout.LoggedOut | src/app/api/tenant/logout/route.ts:36-56 | neither cookie is left, and the old token no longer validates |
| SessionRegenerate.Evaluate | src/app/api/tenant/session/regenerate/route.ts:16-35 | a rotation needs a live row holding the cookie's token |
| SessionRegenerate.Regenerate | src/app/api/tenant/session/regenerate/route.ts:16-50 | 401 with nothing changed without a tenant, a token or a live row; otherwise that row's token is replaced and the cookie rewritten |
| SessionRegenerate.RotatedCookieAuthorizes | src/app/api/tenant/session/regenerate/route.ts:31-43 | the rewritten cookie passes the guard as the same user, and a replay of the old one is refused |
| CronCleanup.CleanupSecret | src/app/api/cron/cleanup-sessions/route.ts:8 | the configured secret when truthy, else the default; never empty |
| CronCleanup.UnexpiredVerifications | src/app/api/cron/cleanup-sessions/route.ts:38-40 | exactly the codes with `expiresAt >= now` remain |
| CronCleanup.SweepTenant | src/app/api/cron/cleanup-sessions/route.ts:30-44 | only sessions and codes change |
| CronCleanup.SweepCompany | src/app/api/cron/cleanup-sessions/route.ts:29-44 | the tenant is swept as `SweepTenant` says, and the count is its deletions |
| CronCleanup.SweepAdmins | src/app/api/cron/cleanup-sessions/route.ts:22-25 | the admin rows that expired before the current second go, and the count is how many |
| CronCleanup.SweepTenants | src/app/api/cron/cleanup-sessions/route.ts:27-45 | every company is swept in order; a failure in one is swallowed |
| CronCleanup.CleanupSessions | src/app/api/cron/cleanup-sessions/route.ts:10-56 | 401 with nothing changed without the bearer secret; otherwise the sweeps and the total count |
| CronCleanup.TailUnique | src/lib/db/db.ts:34-42 | the rest of a unique company list is unique and does not repeat the first id |
| CronCleanup.SweepUntouched | src/app/api/cron/cleanup-sessions/route.ts:29-45 | a store not listed among the companies is not touched |
| CronCleanup.SweepAt | src/app/api/cron/cleanup-sessions/route.ts:29-45 | each listed company's store ends as its own sweep |
| CronCleanup.DeletedFrame | src/app/api/cron/cleanup-sessions/route.ts:29-45 | the count depends only on the listed companies' stores |
| CronCleanup.SweepCount | src/app/api/cron/cleanup-sessions/route.ts:29-45 | the total is the sum of each company's deletions |
| CronCleanup.SweepTenantCounts | src/app/api/cron/cleanup-sessions/route.ts:33-41 | a tenant counts its expired sessions and codes; a failed open counts 0; a failed code delete counts the sessions only |
| CronCleanup.AdminCount | src/app/api/cron/cleanup-sessions/route.ts:22-25 | the admin count is the number of rows with `expiresAt < UnixSeconds(now)` |
| CronCleanup.SweptTenantContents | src/app/api/cron/cleanup-sessions/route.ts:33-41 | after a sweep a session or code remains iff it was there and is not expired |
| Register.RegisteredCompany | src/app/api/register/route.ts:32-43 | the row is active, has the slug and manager email, points at `tenant_<id>.db`, and is created at `UnixSeconds(now)` |
| Register.Manager | src/app/api/register/route.ts:45-59 | the manager row has the role `manager`, an unverified email and the bcrypt hash of the password |
| Register.Evaluate | src/app/api/register/route.ts:11-59 | a taken slug is refused; insertion is reached only with all fields, a password of at least 8 characters and a free slug |
| Register.FindSlug | src/app/api/register/route.ts:22-26 | the scan finds the slug iff a company has it |
| Register.Register | src/app/api/register/route.ts:9-71 | 500, 400 by stage with nothing changed; a failed user insert leaves the company row; success adds the company and its manager |
| Register.SlugStaysUnique | src/app/api/register/route.ts:22-30 | a registration keeps slugs unique, and the new slug names only the new company |
| Register.RegisteredManagerSignsIn | src/app/api/register/route.ts:32-66 | the new manager can sign in with the email and password given |
| Register.SlugShadowedById | src/app/api/register/route.ts:22-30 | a slug equal to an older company's id passes the check, yet leads to the older company |
| Common.Lower | src/lib/rate-limit.ts:50 | `toLowerCase` keeps the length and maps each character |
| Common.LowerAppend | src/lib/rate-limit.ts:50 | lowercasing distributes over concatenation |
| Common.LowerIdempotent | src/lib/rate-limit.ts:50 | lowercasing twice is lowercasing once |
| Common.Before | src/lib/security-log.ts:55 | `split(",")[0]`: a prefix of the string without the separator, stopped at the first separator |
| Common.Split | middleware.ts:73 | `split("/")`: at least one part, none holding the separator, the first being the text before the first separator |
| Common.JoinSplit | middleware.ts:73 | joining the parts gives back the string |
| Common.SplitJoin | middleware.ts:73 | splitting joined separator-free parts gives back the parts |
| Common.ToHex | src/app/api/tenant/login/route.ts:119 | `toString("hex")`: two lower-case hex digits per byte |
| Common.ToHexInjective | src/app/api/tenant/login/route.ts:119 | distinct byte strings give distinct tokens |

## Left out

- The LRU cache behind the rate limiter (capacity 10000 and a 15-minute TTL) is not modelled. An entry evicted by the cache behaves as an absent key, which `Check` already handles.
- The lockout is modelled exactly as written. A denial happens only inside the 15-minute window, so the 30-minute lockout never lasts beyond the window's end. `RateLimit.LockoutEndsWithWindow` states this.
- String lengths are counted in characters, not UTF-16 code units. `toLowerCase` is modelled on ASCII letters only.
- `details` is kept as a structured value, not as its JSON text. The log row's uuid is not modelled.
- `logAuthEvent` (src/lib/audit-log.ts) is left out: it only writes an audit row and never affects a response.
- `requireAdmin` returns `getAdminSession`'s value on both of its branches, so `AdminAuth.GetAdminSession` stands for both.
- Store faults are modelled where the code catches them:
  - the security log insert (`insertFails`, `logFails`), swallowed by `logSecurityEvent`;
  - the logout session delete (`deleteFails`) and the reset-password session delete (`wipeFails`), swallowed by the `session.ts` helpers, whose `false` the routes ignore;
  - the two cron deletes per tenant (`Fault`);
  - the auth guard's session lookup (`storeFails`), answered with a 500.
  Every other store call is taken to succeed unless it is an insert that collides with an existing row.
- Sessions.InvalidateTenantSession: always returns true. In the code a throwing delete is caught and gives `false` (src/lib/session.ts:52-53). The logout route models that failure itself, as `deleteFails`.
- Sessions.InvalidateAllUserSessions: always returns true. In the code a throwing delete gives `false` (src/lib/session.ts:62-63). The reset route models that failure itself, as `wipeFails`.
- Sessions.InvalidateAdminSession: always returns true, though a throwing delete gives `false` in the code (src/lib/session.ts:71-72).
- Sessions.CleanupExpiredSessions: always returns true, though a throwing delete gives `false` in the code (src/lib/session.ts:88-89). The cron route models its own deletes, as `Fault`.
- Sessions.RegenerateSessionToken: a throwing store is not modelled. In the code it gives `null` (src/lib/session.ts:118-119), as a missing session does.
- Sessions.ExtendSession: a throwing store is not modelled. In the code it gives `false` (src/lib/session.ts:149-150), as a missing session does.
- Sessions.ValidateTenantSession, Sessions.ValidateAdminSession: a throwing lookup is not modelled. In the code it gives `null` (src/lib/session.ts:23-24, 42-43), as no session does.
- A throw from any other store call is not modelled. In most routes it would end in the outer `catch` with a 500, possibly after earlier writes had landed: a reset whose code delete throws has already changed the password. The admin sign-out route has no `catch`, so a throwing delete there would skip the cookie deletion and leave the answer to the framework.
- The floor to whole seconds follows drizzle-orm's `timestamp` mode, which writes and compares a `Date` that way; that library is not part of this model. src/lib/db/schema-tenant.ts is not part of this model either, so the tenant stores' columns keep the handlers' milliseconds.
- Each handler and each session helper is modelled at one instant `now`. The code reads the clock several times in one request (`new Date()`, `Date.now()`), so a deadline that falls between two of those reads is not modelled.
- JSON body fields that are not strings are not modelled. A field is present or absent, and an empty string counts as absent.
- Ordering by `createdAt` with ties: the newest-first order keeps sessions with equal `createdAt` in some order. The cap's properties do not depend on the order among ties.
- `setDate` in `extendSession` is modelled as a whole number of days of 86,400,000 ms each. Calendar effects such as DST are left out.
- Sessions.ExtensionEffect takes the new expiry as a parameter rather than `now + days`, so it covers every extension.
- `path.join` and the creation of the SQLite files, their DDL and the ALTER TABLE migration are not modelled. The store path is the string `tenant_<id>.db`.
- The bcrypt salt is part of the abstract `hash` function.
- Concurrency and atomicity are not modelled: each handler is one sequential step. For example, a registration whose user insert fails keeps its company row, as the route does.
- The tenant tables created in src/lib/db/db.ts include no security log table, and schema-tenant.ts is not part of this model. The log is modelled as a fourth tenant table.
- `Math.random` is modelled as a real number in [0, 1), not as a double. The OTP bounds hold for every such value.
- `new URL(..., request.url)` is modelled by its path alone.
- The cron response's `toISOString()` timestamp is modelled as the integer time.
- The regenerate route has its own copy of `extractTenantIdFromCookies`. It is identical to the logout route's copy, and `TenantLogout.ExtractTenantIdFromCookies` models both.
- `Sessions.ValidateTenantSession` and `Sessions.ValidateAdminSession` are the store-level wrappers. Their contracts are carried by `Sessions.FindValid` and `Sessions.FindValidAdmin`.
- Registration checks only slugs for a clash, while login and reset look a company up by slug or by id. `Register.SlugShadowedById` states the consequence, and `Register.RegisteredManagerSignsIn` assumes no such clash.
- Out of scope:
  - UI pages and components, and the browser CSRF hook;
  - the wallet, branch and company-admin routes;
  - the better-auth wrappers;
  - the seed script;
  - the one-line `/api/csrf` wrapper.
