/** The session cap of the tenant login route
    (src/app/api/tenant/login/route.ts): before a new session is issued, a
    user's unexpired sessions are listed newest first and all but the four
    newest are deleted, so that with the new one at most five stay live. */
module SessionCap {
  import opened Common
  import opened Db
  import Sessions

  const MAX_SESSIONS: nat := 5

  // ---------------------------------------------------------------------
  // `orderBy(desc(session.createdAt))`

  predicate NewestFirstSorted(s: seq<Session>) {
    forall i, j :: 0 <= i < j < |s| ==> s[i].createdAt >= s[j].createdAt
  }

  function InsertNewestFirst(x: Session, s: seq<Session>): (r: seq<Session>)
    requires NewestFirstSorted(s)
    ensures NewestFirstSorted(r) && multiset(r) == multiset(s) + multiset{x}
  {
    if s == [] then [x]
    else if x.createdAt >= s[0].createdAt then
      HeadIsNewest(s);
      ConsNewestFirst(x, s);
      [x] + s
    else
      var t := InsertNewestFirst(x, s[1..]);
      assert s == [s[0]] + s[1..];
      HeadIsNewest(t);
      ConsNewestFirst(s[0], t);
      [s[0]] + t
  }

  lemma HeadIsNewest(s: seq<Session>)
    requires NewestFirstSorted(s) && s != []
    ensures forall k :: 0 <= k < |s| ==> s[k].createdAt <= s[0].createdAt
  {
  }

  /** The rows in descending order of creation. */
  function NewestFirst(s: seq<Session>): (r: seq<Session>)
    ensures NewestFirstSorted(r) && multiset(r) == multiset(s)
  {
    if s == [] then []
    else
      assert s == [s[0]] + s[1..];
      InsertNewestFirst(s[0], NewestFirst(s[1..]))
  }

  lemma {:induction false} FilterKeepsNewestFirst(s: seq<Session>, keep: Session -> bool)
    requires NewestFirstSorted(s)
    ensures NewestFirstSorted(Filter(s, keep))
  {
    if s != [] {
      var t := Filter(s[1..], keep);
      FilterKeepsNewestFirst(s[1..], keep);
      forall k | 0 <= k < |s[1..]| ensures s[1..][k].createdAt <= s[0].createdAt {
        assert s[1..][k] == s[k + 1];
      }
      FilterStaysOlder(s[1..], keep, s[0].createdAt);
      if keep(s[0]) {
        ConsNewestFirst(s[0], t);
      }
    }
  }

  /** A row no older than every row of a newest-first list can go in front. */
  lemma ConsNewestFirst(h: Session, t: seq<Session>)
    requires NewestFirstSorted(t) && forall k :: 0 <= k < |t| ==> t[k].createdAt <= h.createdAt
    ensures NewestFirstSorted([h] + t)
  {
    var r := [h] + t;
    forall i, j | 0 <= i < j < |r| ensures r[i].createdAt >= r[j].createdAt {
      assert r[j] == t[j - 1];
      if i > 0 {
        assert r[i] == t[i - 1];
      }
    }
  }

  /** Filtering keeps every row no newer than a bound. */
  lemma {:induction false} FilterStaysOlder(s: seq<Session>, keep: Session -> bool, bound: int)
    requires forall k :: 0 <= k < |s| ==> s[k].createdAt <= bound
    ensures forall k :: 0 <= k < |Filter(s, keep)| ==> Filter(s, keep)[k].createdAt <= bound
  {
    if s != [] {
      FilterStaysOlder(s[1..], keep, bound);
    }
  }

  // ---------------------------------------------------------------------
  // The loops of the route

  /** `select id from session where userId = u order by createdAt desc`. */
  function UserSessions(rows: seq<Session>, userId: string): (r: seq<Session>)
    ensures NewestFirstSorted(r)
    ensures forall s :: s in r <==> s in rows && s.userId == userId
  {
    var mine := Filter(rows, (s: Session) => s.userId == userId);
    var r := NewestFirst(mine);
    assert forall s :: s in r <==> s in mine by {
      forall s ensures s in r <==> s in mine {
        assert s in r <==> s in multiset(r);
        assert s in mine <==> s in multiset(mine);
      }
    }
    forall s | s in rows && s.userId == userId ensures s in mine {
      var i :| 0 <= i < |rows| && rows[i] == s;
    }
    forall s | s in mine ensures s in rows && s.userId == userId {
      var i :| 0 <= i < |mine| && mine[i] == s;
    }
    r
  }

  /** `validSessions`: the user's unexpired sessions, newest first. */
  function LiveNewestFirst(rows: seq<Session>, userId: string, now: int): (r: seq<Session>)
    ensures NewestFirstSorted(r)
    ensures forall s :: s in r <==> s in rows && s.userId == userId && s.expiresAt > now
  {
    var sorted := UserSessions(rows, userId);
    var r := Filter(sorted, (s: Session) => s.expiresAt > now);
    FilterKeepsNewestFirst(sorted, (s: Session) => s.expiresAt > now);
    forall s | s in rows && s.userId == userId && s.expiresAt > now ensures s in r {
      var i :| 0 <= i < |sorted| && sorted[i] == s;
    }
    forall s | s in r ensures s in rows && s.userId == userId && s.expiresAt > now {
      var i :| 0 <= i < |r| && r[i] == s;
    }
    r
  }

  /** `validSessions.slice(MAX_SESSIONS - 1)` when the cap is reached. */
  function Evictions(rows: seq<Session>, userId: string, now: int): (victims: seq<Session>)
    ensures forall v :: v in victims ==> v in rows && v.userId == userId && v.expiresAt > now
  {
    var valid := LiveNewestFirst(rows, userId, now);
    if |valid| >= MAX_SESSIONS then
      assert forall v :: v in valid[MAX_SESSIONS - 1..] ==> v in valid;
      valid[MAX_SESSIONS - 1..]
    else []
  }

  /** `delete from session where id = x`. */
  function WithoutId(rows: seq<Session>, id: string): seq<Session> {
    Filter(rows, (s: Session) => s.id != id)
  }

  /** The deletions of the eviction loop, in order. */
  function DeleteEach(rows: seq<Session>, victims: seq<Session>): seq<Session>
    decreases |victims|
  {
    if victims == [] then rows
    else WithoutId(DeleteEach(rows, victims[..|victims| - 1]), victims[|victims| - 1].id)
  }

  /** The session table after the eviction loop. */
  function Capped(rows: seq<Session>, userId: string, now: int): seq<Session> {
    DeleteEach(rows, Evictions(rows, userId, now))
  }

  /** A user's unexpired sessions. */
  function LiveSessionsOf(rows: seq<Session>, userId: string, now: int): seq<Session> {
    Filter(rows, (s: Session) => s.userId == userId && s.expiresAt > now)
  }

  // ---------------------------------------------------------------------
  // Properties

  /** The eviction loop keeps exactly the rows whose id was not evicted. */
  lemma {:induction false} DeleteEachMembers(rows: seq<Session>, victims: seq<Session>)
    ensures forall r :: r in DeleteEach(rows, victims) <==> r in rows && forall v :: v in victims ==> r.id != v.id
    decreases |victims|
  {
    if victims != [] {
      var init, last := victims[..|victims| - 1], victims[|victims| - 1];
      DeleteEachMembers(rows, init);
      var before := DeleteEach(rows, init);
      assert victims == init + [last];
      forall r ensures r in WithoutId(before, last.id) <==> r in before && r.id != last.id {
        if r in before && r.id != last.id {
          var i :| 0 <= i < |before| && before[i] == r;
        }
      }
    }
  }

  lemma {:induction false} DeleteEachKeepsSessionsValid(rows: seq<Session>, victims: seq<Session>)
    requires SessionsValid(rows)
    ensures SessionsValid(DeleteEach(rows, victims))
    decreases |victims|
  {
    if victims != [] {
      DeleteEachKeepsSessionsValid(rows, victims[..|victims| - 1]);
      Sessions.FilterKeepsSessionsValid(DeleteEach(rows, victims[..|victims| - 1]),
        (s: Session) => s.id != victims[|victims| - 1].id);
    }
  }

  /** Every live session of the user that survives the cap is one of the
      four newest. */
  lemma SurvivorsAreNewest(rows: seq<Session>, userId: string, now: int)
    requires SessionsValid(rows)
    ensures var valid := LiveNewestFirst(rows, userId, now);
      forall l :: l in Capped(rows, userId, now) && l.userId == userId && l.expiresAt > now ==>
        exists i :: 0 <= i < |valid| && i < MAX_SESSIONS - 1 && valid[i] == l
  {
    var valid := LiveNewestFirst(rows, userId, now);
    var victims := Evictions(rows, userId, now);
    DeleteEachMembers(rows, victims);
    forall l | l in Capped(rows, userId, now) && l.userId == userId && l.expiresAt > now
      ensures exists i :: 0 <= i < |valid| && i < MAX_SESSIONS - 1 && valid[i] == l
    {
      assert l in valid;
      var i :| 0 <= i < |valid| && valid[i] == l;
    }
  }

  /** After the cap the user has at most four unexpired sessions. */
  lemma CapBound(rows: seq<Session>, userId: string, now: int)
    requires SessionsValid(rows)
    ensures |LiveSessionsOf(Capped(rows, userId, now), userId, now)| <= MAX_SESSIONS - 1
  {
    var valid := LiveNewestFirst(rows, userId, now);
    var live := LiveSessionsOf(Capped(rows, userId, now), userId, now);
    var w := if |valid| < MAX_SESSIONS - 1 then valid else valid[..MAX_SESSIONS - 1];
    CappedLiveDistinct(rows, userId, now);
    DistinctCard(live);
    CappedLiveAmongNewest(rows, userId, now);
    SubsetCard(Elements(live), Elements(w));
    ElementsCard(w);
  }

  /** The user's live sessions after the cap are distinct rows. */
  lemma CappedLiveDistinct(rows: seq<Session>, userId: string, now: int)
    requires SessionsValid(rows)
    ensures var live := LiveSessionsOf(Capped(rows, userId, now), userId, now);
      forall i, j :: 0 <= i < j < |live| ==> live[i] != live[j]
  {
    var capped := Capped(rows, userId, now);
    var live := LiveSessionsOf(capped, userId, now);
    DeleteEachKeepsSessionsValid(rows, Evictions(rows, userId, now));
    Sessions.FilterKeepsSessionsValid(capped, (s: Session) => s.userId == userId && s.expiresAt > now);
    forall i, j | 0 <= i < j < |live| ensures live[i] != live[j] {
      assert live[i].id != live[j].id;
    }
  }

  /** The user's live sessions after the cap are among the four newest. */
  lemma CappedLiveAmongNewest(rows: seq<Session>, userId: string, now: int)
    requires SessionsValid(rows)
    ensures var valid := LiveNewestFirst(rows, userId, now);
      var w := if |valid| < MAX_SESSIONS - 1 then valid else valid[..MAX_SESSIONS - 1];
      Elements(LiveSessionsOf(Capped(rows, userId, now), userId, now)) <= Elements(w)
  {
    var valid := LiveNewestFirst(rows, userId, now);
    var capped := Capped(rows, userId, now);
    var live := LiveSessionsOf(capped, userId, now);
    var w := if |valid| < MAX_SESSIONS - 1 then valid else valid[..MAX_SESSIONS - 1];
    SurvivorsAreNewest(rows, userId, now);
    forall k | 0 <= k < |live| ensures live[k] in w {
      assert live[k] in capped && live[k].userId == userId && live[k].expiresAt > now;
      var i :| 0 <= i < |valid| && i < MAX_SESSIONS - 1 && valid[i] == live[k];
      assert w[i] == live[k];
    }
    MembersSubset(live, w);
  }

  lemma MembersSubset(live: seq<Session>, w: seq<Session>)
    requires forall k :: 0 <= k < |live| ==> live[k] in w
    ensures Elements(live) <= Elements(w)
  {
    forall l | l in Elements(live) ensures l in Elements(w) {
      var k :| 0 <= k < |live| && live[k] == l;
    }
  }

  /** Only the user's live sessions can be evicted: every other row, expired
      ones included, is untouched. */
  lemma CapKeepsOtherRows(rows: seq<Session>, userId: string, now: int, r: Session)
    requires SessionsValid(rows) && r in rows && !(r.userId == userId && r.expiresAt > now)
    ensures r in Capped(rows, userId, now)
  {
    var victims := Evictions(rows, userId, now);
    DeleteEachMembers(rows, victims);
    forall v | v in victims ensures r.id != v.id {
      if r.id == v.id {
        KeyUniqueSameRow(rows, SessionIdOf, r, v);
      }
    }
  }

  /** No evicted session is newer than a kept live one. */
  lemma CapEvictsOldest(rows: seq<Session>, userId: string, now: int, e: Session, k: Session)
    requires SessionsValid(rows)
    requires e in Evictions(rows, userId, now)
    requires k in Capped(rows, userId, now) && k.userId == userId && k.expiresAt > now
    ensures k.createdAt >= e.createdAt
  {
    var valid := LiveNewestFirst(rows, userId, now);
    SurvivorIndex(rows, userId, now, k);
    assert |valid| >= MAX_SESSIONS && e in valid[MAX_SESSIONS - 1..];
    SuffixNoNewer(valid, e, k);
  }

  /** In a newest-first list, a row past the first four is no newer than any
      of those four. */
  lemma SuffixNoNewer(valid: seq<Session>, e: Session, k: Session)
    requires NewestFirstSorted(valid) && |valid| >= MAX_SESSIONS && e in valid[MAX_SESSIONS - 1..]
    requires exists i :: 0 <= i < MAX_SESSIONS - 1 && i < |valid| && valid[i] == k
    ensures k.createdAt >= e.createdAt
  {
    var i :| 0 <= i < MAX_SESSIONS - 1 && i < |valid| && valid[i] == k;
    var m :| 0 <= m < |valid[MAX_SESSIONS - 1..]| && valid[MAX_SESSIONS - 1..][m] == e;
    assert valid[m + MAX_SESSIONS - 1] == e;
  }

  /** The position of a kept live session among the live ones. */
  lemma SurvivorIndex(rows: seq<Session>, userId: string, now: int, k: Session)
    requires SessionsValid(rows)
    requires k in Capped(rows, userId, now) && k.userId == userId && k.expiresAt > now
    ensures exists i ::
      0 <= i < MAX_SESSIONS - 1 && i < |LiveNewestFirst(rows, userId, now)| && LiveNewestFirst(rows, userId, now)[i] == k
  {
    SurvivorsAreNewest(rows, userId, now);
  }

  /** With the new live session inserted, the user has at most five. */
  lemma CapThenInsertBound(rows: seq<Session>, userId: string, now: int, issued: Session)
    requires SessionsValid(rows) && issued.userId == userId && issued.expiresAt > now
    ensures |LiveSessionsOf(Capped(rows, userId, now) + [issued], userId, now)| <= MAX_SESSIONS
  {
    CapBound(rows, userId, now);
    FilterSnoc(Capped(rows, userId, now), issued, (s: Session) => s.userId == userId && s.expiresAt > now);
  }

  /** Below the cap nothing is deleted. */
  lemma UnderCapDeletesNothing(rows: seq<Session>, userId: string, now: int)
    requires |LiveNewestFirst(rows, userId, now)| < MAX_SESSIONS
    ensures Capped(rows, userId, now) == rows
  {
  }

  // ---------------------------------------------------------------------
  // The two loops as the route runs them

  /** `select * from session where id = x .get()`. */
  function FindById(rows: seq<Session>, id: string): (r: Option<Session>)
    ensures r.Some? ==> r.value in rows && r.value.id == id
    ensures r.None? ==> forall i :: 0 <= i < |rows| ==> rows[i].id != id
  {
    if rows == [] then None
    else if rows[0].id == id then Some(rows[0])
    else FindById(rows[1..], id)
  }

  /** The first loop (lines 100-110 of the route): re-read each listed
      session by id and keep the unexpired ones, in order. */
  method CollectLive(rows: seq<Session>, activeSessions: seq<Session>, now: int)
    returns (validSessions: seq<Session>)
    requires SessionsValid(rows)
    requires forall s :: s in activeSessions ==> s in rows
    ensures validSessions == Filter(activeSessions, (s: Session) => s.expiresAt > now)
  {
    validSessions := [];
    var i := 0;
    while i < |activeSessions|
      invariant 0 <= i <= |activeSessions|
      invariant validSessions == Filter(activeSessions[..i], (s: Session) => s.expiresAt > now)
    {
      var sessionData := FindById(rows, activeSessions[i].id);
      assert activeSessions[i] in activeSessions;
      KeyUniqueSameRow(rows, SessionIdOf, sessionData.value, activeSessions[i]);
      FilterSnoc(activeSessions[..i], activeSessions[i], (s: Session) => s.expiresAt > now);
      assert activeSessions[..i + 1] == activeSessions[..i] + [activeSessions[i]];
      if sessionData.Some? && sessionData.value.expiresAt > now {
        validSessions := validSessions + [sessionData.value];
      }
      i := i + 1;
    }
    assert activeSessions[..i] == activeSessions;
  }

  /** The second loop (lines 113-116): delete each listed session by id. */
  method DeleteSessions(rows: seq<Session>, sessionsToDelete: seq<Session>) returns (after: seq<Session>)
    ensures after == DeleteEach(rows, sessionsToDelete)
  {
    after := rows;
    var j := 0;
    while j < |sessionsToDelete|
      invariant 0 <= j <= |sessionsToDelete|
      invariant after == DeleteEach(rows, sessionsToDelete[..j])
    {
      assert sessionsToDelete[..j + 1][..j] == sessionsToDelete[..j];
      after := WithoutId(after, sessionsToDelete[j].id);
      j := j + 1;
    }
    assert sessionsToDelete[..j] == sessionsToDelete;
  }

  /** Lines 90-117 of the route: list the user's sessions newest first,
      keep the unexpired ones, and when there are at least five delete all
      but the four newest. */
  method EnforceSessionCap(store: Store, tenantId: string, userId: string, now: int)
    requires store.Valid()
    modifies store
    ensures store.Valid()
    ensures unchanged(store`admins, store`adminSessions, store`companies)
    ensures store.tenants == old(store.tenants)[tenantId :=
      old(store.Tenant(tenantId)).(sessions := Capped(old(store.Tenant(tenantId)).sessions, userId, now))]
  {
    var db := store.Tenant(tenantId);
    var activeSessions := UserSessions(db.sessions, userId);
    var validSessions := CollectLive(db.sessions, activeSessions, now);
    assert validSessions == LiveNewestFirst(db.sessions, userId, now);
    var rows := db.sessions;
    if |validSessions| >= MAX_SESSIONS {
      rows := DeleteSessions(rows, validSessions[MAX_SESSIONS - 1..]);
    }
    DeleteEachKeepsSessionsValid(db.sessions, Evictions(db.sessions, userId, now));
    store.PutTenant(tenantId, db.(sessions := rows));
  }
}
