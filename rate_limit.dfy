/** The fixed-window rate limiter of src/lib/rate-limit.ts: a cache from
    limiter key to {count, firstAttempt}, a check that counts attempts inside
    a 15-minute window, a reset, and the key naming. Time is a millisecond
    parameter. */
module RateLimit {
  import opened Common

  const MAX_ATTEMPTS: int := 5
  const WINDOW_MS: int := 15 * 60 * 1000
  const LOCKOUT_MS: int := 30 * 60 * 1000

  datatype Entry = Entry(count: int, firstAttempt: int)

  datatype Decision = Decision(allowed: bool, remainingAttempts: int, retryAfter: Option<int>)

  /** Every entry the limiter stores has a count in 1..MAX_ATTEMPTS. */
  ghost predicate EntriesValid(entries: map<string, Entry>) {
    forall k :: k in entries ==> 1 <= entries[k].count <= MAX_ATTEMPTS
  }

  /** `Math.ceil(x / d)` for an integer `x` and a positive `d`. */
  function CeilDiv(x: int, d: int): (q: int)
    requires d > 0
    ensures (q - 1) * d < x <= q * d
  {
    var f := (-x) / d;
    assert -x == f * d + (-x) % d;
    -f
  }

  /** The seconds until firstAttempt + LOCKOUT_MS, or None when that moment
      has passed (`retryAfter > 0 ? retryAfter : undefined`). */
  function RetryAfter(e: Entry, now: int): Option<int> {
    var retryAfter := CeilDiv(e.firstAttempt + LOCKOUT_MS - now, 1000);
    if retryAfter > 0 then Some(retryAfter) else None
  }

  /** checkRateLimit as a function of the cache before the call: the decision
      returned and the cache afterwards. Entries other than `key` are never
      touched. */
  function Check(entries: map<string, Entry>, key: string, now: int): (r: (Decision, map<string, Entry>))
    ensures key in r.1
    ensures forall k :: k != key ==> (k in r.1 <==> k in entries)
    ensures forall k :: k != key && k in entries ==> r.1[k] == entries[k]
  {
    if key !in entries then
      (Decision(true, MAX_ATTEMPTS - 1, None), entries[key := Entry(1, now)])
    else
      var entry := entries[key];
      if now - entry.firstAttempt > WINDOW_MS then
        (Decision(true, MAX_ATTEMPTS - 1, None), entries[key := Entry(1, now)])
      else if entry.count >= MAX_ATTEMPTS then
        (Decision(false, 0, RetryAfter(entry, now)), entries)
      else
        var bumped := entry.(count := entry.count + 1);
        (Decision(true, MAX_ATTEMPTS - bumped.count, None), entries[key := bumped])
  }

  /** The limiter's cache. The LRU capacity and TTL of the underlying cache
      are not modelled: an entry simply stays until it is reset. */
  class RateLimiter {
    var entries: map<string, Entry>

    ghost predicate Valid()
      reads this
    {
      EntriesValid(entries)
    }

    constructor ()
      ensures Valid() && entries == map[]
    {
      entries := map[];
    }

    /** `checkRateLimit(identifier)` at time `now`. */
    method CheckRateLimit(identifier: string, now: int) returns (d: Decision)
      requires Valid()
      modifies this
      ensures Valid()
      ensures (d, entries) == Check(old(entries), identifier, now)
    {
      if identifier !in entries {
        entries := entries[identifier := Entry(1, now)];
        return Decision(true, MAX_ATTEMPTS - 1, None);
      }
      var entry := entries[identifier];
      if now - entry.firstAttempt > WINDOW_MS {
        entries := entries[identifier := Entry(1, now)];
        return Decision(true, MAX_ATTEMPTS - 1, None);
      }
      if entry.count >= MAX_ATTEMPTS {
        var retryAfter := CeilDiv(entry.firstAttempt + LOCKOUT_MS - now, 1000);
        return Decision(false, 0, if retryAfter > 0 then Some(retryAfter) else None);
      }
      entry := entry.(count := entry.count + 1);
      entries := entries[identifier := entry];
      return Decision(true, MAX_ATTEMPTS - entry.count, None);
    }

    /** `resetRateLimit(identifier)`: forget the key. */
    method ResetRateLimit(identifier: string)
      requires Valid()
      modifies this
      ensures Valid()
      ensures entries == old(entries) - {identifier}
    {
      entries := entries - {identifier};
    }
  }

  /** The minutes a denied caller is told to wait,
      `Math.ceil((retryAfter || 1800) / 60)`. */
  function LockoutMinutes(retryAfter: Option<int>): (m: int)
    ensures retryAfter.None? || retryAfter == Some(0) ==> m == 30
    ensures retryAfter.Some? && retryAfter.value != 0 ==> (m - 1) * 60 < retryAfter.value <= m * 60
  {
    CeilDiv(if retryAfter.Some? && retryAfter.value != 0 then retryAfter.value else 1800, 60)
  }

  /** A denial tells the caller to wait between 15 and 30 minutes, as long
      as the clock has not gone back since the window opened. */
  lemma DeniedWaitMinutes(entries: map<string, Entry>, key: string, now: int)
    requires !Check(entries, key, now).0.allowed
    requires key in entries ==> entries[key].firstAttempt <= now
    ensures 15 <= LockoutMinutes(Check(entries, key, now).0.retryAfter) <= 30
  {
    RetryAfterBounds(entries, key, now);
  }

  /** `getRateLimitKey(ip, email)`: `${ip || "unknown"}_${email.toLowerCase()}`. */
  function RateLimitKey(ip: Option<string>, email: string): string {
    OrDefault(ip, "unknown") + "_" + Lower(email)
  }

  // ---------------------------------------------------------------------
  // Properties of one check

  /** With no entry for the key, the check stores {1, now} and allows with
      four attempts left. */
  lemma CheckFirstAttempt(entries: map<string, Entry>, key: string, now: int)
    requires key !in entries
    ensures Check(entries, key, now).0 == Decision(true, 4, None)
    ensures Check(entries, key, now).1 == entries[key := Entry(1, now)]
  {
  }

  /** An entry older than the window is restarted at {1, now}. */
  lemma CheckWindowExpired(entries: map<string, Entry>, key: string, now: int)
    requires key in entries && now - entries[key].firstAttempt > WINDOW_MS
    ensures Check(entries, key, now).0 == Decision(true, 4, None)
    ensures Check(entries, key, now).1 == entries[key := Entry(1, now)]
  {
  }

  /** Inside the window with the count at the maximum: denied with no
      attempts left, cache unchanged. */
  lemma CheckLockedOut(entries: map<string, Entry>, key: string, now: int)
    requires key in entries && now - entries[key].firstAttempt <= WINDOW_MS
    requires entries[key].count >= MAX_ATTEMPTS
    ensures !Check(entries, key, now).0.allowed
    ensures Check(entries, key, now).0.remainingAttempts == 0
    ensures Check(entries, key, now).1 == entries
  {
  }

  /** A denial inside the window reports a retry delay between 900 and 1800
      seconds. */
  lemma RetryAfterBounds(entries: map<string, Entry>, key: string, now: int)
    requires key in entries && entries[key].count >= MAX_ATTEMPTS
    requires 0 <= now - entries[key].firstAttempt <= WINDOW_MS
    ensures var d := Check(entries, key, now).0;
      !d.allowed && d.retryAfter.Some? && 900 <= d.retryAfter.value <= 1800
  {
    var e := entries[key];
    var x := e.firstAttempt + LOCKOUT_MS - now;
    assert 900000 <= x <= 1800000;
    var q := CeilDiv(x, 1000);
    assert (q - 1) * 1000 < x <= q * 1000;
  }

  /** Under the limit the count grows by exactly one, and the attempts left
      are MAX_ATTEMPTS minus the new count, between 0 and 3. */
  lemma CheckUnderLimit(entries: map<string, Entry>, key: string, now: int)
    requires EntriesValid(entries)
    requires key in entries && now - entries[key].firstAttempt <= WINDOW_MS
    requires entries[key].count < MAX_ATTEMPTS
    ensures var (d, after) := Check(entries, key, now);
      && d.allowed
      && after[key] == entries[key].(count := entries[key].count + 1)
      && d.remainingAttempts == MAX_ATTEMPTS - after[key].count
      && 0 <= d.remainingAttempts <= 3
  {
  }

  /** On a valid cache every check reports between 0 and 4 attempts left,
      and the cache stays valid. */
  lemma CheckBounds(entries: map<string, Entry>, key: string, now: int)
    requires EntriesValid(entries)
    ensures 0 <= Check(entries, key, now).0.remainingAttempts <= MAX_ATTEMPTS - 1
    ensures EntriesValid(Check(entries, key, now).1)
  {
    var after := Check(entries, key, now).1;
    forall k | k in after ensures 1 <= after[k].count <= MAX_ATTEMPTS {
      if k != key { assert after[k] == entries[k]; }
    }
  }

  /** A denied check always finds the entry inside its counting window. */
  lemma DeniedOnlyInWindow(entries: map<string, Entry>, key: string, now: int)
    requires !Check(entries, key, now).0.allowed
    ensures key in entries && now - entries[key].firstAttempt <= WINDOW_MS
    ensures entries[key].count >= MAX_ATTEMPTS
  {
  }

  /** The lockout ends with the counting window, not after LOCKOUT_MS: once
      more than WINDOW_MS has passed since the first attempt, a denied key is
      allowed again, although the denial reported a delay reaching up to
      firstAttempt + LOCKOUT_MS. */
  lemma LockoutEndsWithWindow(entries: map<string, Entry>, key: string, now: int, later: int)
    requires !Check(entries, key, now).0.allowed
    requires later > entries[key].firstAttempt + WINDOW_MS
    ensures Check(entries, key, later).0.allowed
    ensures later < entries[key].firstAttempt + LOCKOUT_MS ==>
      later < now + Check(entries, key, now).0.retryAfter.value * 1000
  {
    DeniedOnlyInWindow(entries, key, now);
  }

  // ---------------------------------------------------------------------
  // Sequences of checks

  /** From an empty cache, five checks of one key at the same instant are
      allowed with 4, 3, 2, 1, 0 attempts left, and the sixth is denied with
      a delay of 1800 seconds. No other key gets an entry. */
  lemma {:induction false} FiveThenDenied(key: string, now: int)
    ensures var (d1, m1) := Check(map[], key, now);
      var (d2, m2) := Check(m1, key, now);
      var (d3, m3) := Check(m2, key, now);
      var (d4, m4) := Check(m3, key, now);
      var (d5, m5) := Check(m4, key, now);
      var (d6, m6) := Check(m5, key, now);
      && d1 == Decision(true, 4, None) && d2 == Decision(true, 3, None)
      && d3 == Decision(true, 2, None) && d4 == Decision(true, 1, None)
      && d5 == Decision(true, 0, None)
      && d6 == Decision(false, 0, Some(1800))
      && m6 == map[key := Entry(5, now)]
  {
    var (d1, m1) := Check(map[], key, now);
    assert m1 == map[key := Entry(1, now)];
    var (d2, m2) := Check(m1, key, now);
    assert m2 == map[key := Entry(2, now)];
    var (d3, m3) := Check(m2, key, now);
    assert m3 == map[key := Entry(3, now)];
    var (d4, m4) := Check(m3, key, now);
    assert m4 == map[key := Entry(4, now)];
    var (d5, m5) := Check(m4, key, now);
    assert m5 == map[key := Entry(5, now)];
    var (d6, m6) := Check(m5, key, now);
    assert d6.retryAfter == RetryAfter(Entry(5, now), now);
    assert CeilDiv(LOCKOUT_MS, 1000) == 1800;
  }

  /** After a reset the next check of that key is a fresh first attempt, and
      the other keys keep their entries. */
  lemma ResetThenAllowed(entries: map<string, Entry>, key: string, now: int)
    ensures Check(entries - {key}, key, now).0 == Decision(true, MAX_ATTEMPTS - 1, None)
    ensures forall k :: k != key && k in entries ==> Check(entries - {key}, key, now).1[k] == entries[k]
  {
  }

  // ---------------------------------------------------------------------
  // Key naming

  /** Keys ignore the case of the email. */
  lemma KeyIgnoresEmailCase(ip: Option<string>, e1: string, e2: string)
    requires Lower(e1) == Lower(e2)
    ensures RateLimitKey(ip, e1) == RateLimitKey(ip, e2)
  {
  }

  /** A missing or empty ip is keyed as "unknown". */
  lemma KeyWithoutIp(email: string)
    ensures RateLimitKey(None, email) == RateLimitKey(Some(""), email) == "unknown_" + Lower(email)
  {
  }

  /** For the same ip and email, the admin key `admin_<email>`, the reset key
      `reset_<email>` and the tenant-login key are pairwise distinct. */
  lemma {:induction false} KeyNamespacesDisjoint(ip: Option<string>, email: string)
    ensures RateLimitKey(ip, "admin_" + email) != RateLimitKey(ip, email)
    ensures RateLimitKey(ip, "reset_" + email) != RateLimitKey(ip, email)
    ensures RateLimitKey(ip, "admin_" + email) != RateLimitKey(ip, "reset_" + email)
  {
    var p := OrDefault(ip, "unknown") + "_";
    LowerAppend("admin_", email);
    LowerAppend("reset_", email);
    assert Lower("admin_") == "admin_";
    assert Lower("reset_") == "reset_";
    assert |RateLimitKey(ip, "admin_" + email)| == |p| + 6 + |email|;
    assert |RateLimitKey(ip, "reset_" + email)| == |p| + 6 + |email|;
    assert |RateLimitKey(ip, email)| == |p| + |email|;
    assert RateLimitKey(ip, "admin_" + email)[|p|] == 'a';
    assert RateLimitKey(ip, "reset_" + email)[|p|] == 'r';
  }
}
