/** The repository: a committed database, the staged writes of the transaction in progress, and a
    plan of injected failures. Every method may fail by plan; `failed` records that one did. */
module Repositories {
  import opened Wrappers
  import opened Domain
  import opened Database
  import opened Order
  import opened Ids
  import opened Placeholders

  datatype Field<T> = Unset | Set(value: T)

  /** A patch of a user row: the fields that are set replace the stored ones. */
  datatype UserMutation = UserMutation(
    userId: Id,
    displayName: Field<string>,
    bio: Field<string>,
    status: Field<Status>,
    mutedUntil: Field<Option<Time>>,
    violationCount: Field<int>,
    updatedAt: Field<Time>,
    deletedAt: Field<Option<Time>>)
  {
    predicate HasChanges() {
      || displayName.Set? || bio.Set? || status.Set? || mutedUntil.Set?
      || violationCount.Set? || updatedAt.Set? || deletedAt.Set?
    }
  }

  function NoMutation(userId: Id): UserMutation {
    UserMutation(userId, Unset, Unset, Unset, Unset, Unset, Unset, Unset)
  }

  function Or<T>(f: Field<T>, stored: T): T {
    if f.Set? then f.value else stored
  }

  function Patched(u: User, m: UserMutation): User {
    u.(displayName := Or(m.displayName, u.displayName), bio := Or(m.bio, u.bio),
       status := Or(m.status, u.status), mutedUntil := Or(m.mutedUntil, u.mutedUntil),
       violationCount := Or(m.violationCount, u.violationCount),
       updatedAt := Or(m.updatedAt, u.updatedAt), deletedAt := Or(m.deletedAt, u.deletedAt))
  }

  /** One disjunct of the condition of the session locking statement, with its list of placeholders. */
  datatype Clause = IdIn(list: string) | ActiveUserIn(list: string)

  predicate Binds(list: string, arguments: seq<Id>, x: Id) {
    exists k <- References(list) :: 1 <= k <= |arguments| && arguments[k - 1] == x
  }

  predicate Selects(clauses: seq<Clause>, arguments: seq<Id>, s: Session) {
    exists c <- clauses ::
      match c
      case IdIn(list) => Binds(list, arguments, s.id)
      case ActiveUserIn(list) => Binds(list, arguments, s.userId) && s.revokedAt.None?
  }

  lemma ListReferences(start: nat, count: nat)
    ensures References(PlaceholderText(start, count)) == Range(start, count)
  {
    ReferencesOfList(start, count, "");
    assert PlaceholderText(start, count) + "" == PlaceholderText(start, count);
    assert Range(start, count) + [] == Range(start, count);
  }

  /** A generated list binds exactly the arguments in its stretch. */
  lemma BindsRange(start: nat, arguments: seq<Id>, part: seq<Id>, x: Id)
    requires 1 <= start && start - 1 + |part| <= |arguments|
    requires forall i | 0 <= i < |part| :: arguments[start - 1 + i] == part[i]
    ensures Binds(PlaceholderText(start, |part|), arguments, x) <==> x in part
  {
    ListReferences(start, |part|);
    var numbers := Range(start, |part|);
    assert forall i | 0 <= i < |part| :: numbers[i] == start + i;
    if x in part {
      var i :| 0 <= i < |part| && part[i] == x;
      assert numbers[i] in numbers && arguments[numbers[i] - 1] == x;
    }
    if k :| k in numbers && 1 <= k <= |arguments| && arguments[k - 1] == x {
      var i :| 0 <= i < |part| && numbers[i] == k;
      assert part[i] == x;
    }
  }

  function SetOf(ids: seq<Id>): set<Id> {
    set x | x in ids
  }

  /** The rows of `ids`, in the order of `ids`. */
  function RowsOf<T>(rows: map<Id, T>, ids: seq<Id>): (r: seq<T>)
    requires forall i | 0 <= i < |ids| :: ids[i] in rows
    ensures |r| == |ids| && forall i | 0 <= i < |ids| :: r[i] == rows[ids[i]]
  {
    seq(|ids|, i requires 0 <= i < |ids| => rows[ids[i]])
  }

  /** The distinct ids of a request in ascending order. */
  method SortedUnique(ids: seq<Id>) returns (unique: seq<Id>)
    ensures Ascending(unique)
    ensures forall x :: x in unique <==> x in ids
  {
    var slice := new Id[|ids|](i requires 0 <= i < |ids| => ids[i]);
    assert slice[..] == ids;
    unique := SortedUniqueIds(slice);
  }

  /** Reads the selected rows one after another. */
  method ScanRows<T>(rows: map<Id, T>, selected: seq<Id>) returns (r: seq<T>)
    requires forall i | 0 <= i < |selected| :: selected[i] in rows
    ensures r == RowsOf(rows, selected)
  {
    r := [];
    var i := 0;
    while i < |selected|
      invariant 0 <= i <= |selected|
      invariant r == RowsOf(rows, selected[..i])
    {
      r := r + [rows[selected[i]]];
      i := i + 1;
      assert selected[..i] == selected[..i - 1] + [selected[i - 1]];
    }
    assert selected[..i] == selected;
  }

  /** The locked user rows: the stored ones among `ids`, in ascending order. */
  function UsersInOrder(users: map<Id, User>, ids: set<Id>): seq<User> {
    RowsOf(users, InOrder(ids * users.Keys))
  }

  /** The locked session rows: those that meet the condition, in ascending order. */
  function SessionsInOrder(sessions: map<Id, Session>, c: Condition): seq<Session> {
    RowsOf(sessions, InOrder(SelectSessions(sessions, c).Keys))
  }

  class Repository {
    var committed: Db
    var staged: Db
    var nextUserId: Id
    var nextSessionId: Id
    var faults: seq<bool>
    var failed: bool

    constructor (db: Db, nextUserId: Id, nextSessionId: Id, faults: seq<bool>)
      ensures committed == db && staged == db && this.faults == faults && !failed
      ensures this.nextUserId == nextUserId && this.nextSessionId == nextSessionId
    {
      committed, staged := db, db;
      this.nextUserId, this.nextSessionId := nextUserId, nextSessionId;
      this.faults, failed := faults, false;
    }

    /** The id sequences are ahead of every stored row. */
    ghost predicate SequencesAhead()
      reads this
    {
      && nextUserId > 0 && nextSessionId > 0
      && (forall id <- committed.users :: id < nextUserId)
      && (forall id <- committed.sessions :: id < nextSessionId)
    }

    /** Whether the next operation fails by plan. */
    method Fails() returns (fault: bool)
      modifies `faults, `failed
      ensures fault ==> failed
      ensures !fault ==> failed == old(failed)
    {
      fault := faults != [] && faults[0];
      if faults != [] {
        faults := faults[1..];
      }
      failed := failed || fault;
    }

    method Begin() returns (ok: bool)
      modifies `staged, `faults, `failed
      ensures ok ==> staged == committed && failed == old(failed)
      ensures !ok ==> failed
    {
      var fault := Fails();
      staged := committed;
      ok := !fault;
    }

    /** The end of a transaction whose callback returned `r`: a rollback on an error, which may itself
        fail, and otherwise a commit; a failed commit leaves the database as it was. */
    method Finish<T>(r: Outcome<T>) returns (end: Outcome<T>)
      modifies `committed, `staged, `faults, `failed
      ensures end.Ok? ==> end == r && committed == old(staged) && failed == old(failed)
      ensures end.Err? ==> committed == old(committed)
      ensures end.Err? ==> (end == r && failed == old(failed)) || (end == Err(Internal) && failed)
    {
      var fault := Fails();
      if r.Err? {
        staged := committed;
        return if fault then Err(Internal) else r;
      }
      if fault {
        staged := committed;
        return Err(Internal);
      }
      committed := staged;
      return r;
    }

    /** Locks user rows: the stored ones among `ids`, scanned in ascending order. */
    method LockUsers(ids: seq<Id>) returns (r: Outcome<seq<User>>)
      modifies `faults, `failed
      ensures r.Ok? ==> r.value == UsersInOrder(staged.users, SetOf(ids)) && failed == old(failed)
      ensures r.Err? ==> r == Err(Internal) && failed
    {
      var orderedIds := SortedUnique(ids);
      if |orderedIds| == 0 {
        NoUserToLock(staged.users, ids, orderedIds);
        return Ok([]);
      }
      var fault := Fails();
      if fault {
        return Err(Internal);
      }
      assert forall x :: x in SetOf(orderedIds) <==> x in SetOf(ids);
      assert SetOf(orderedIds) == SetOf(ids);
      var users := ScanRows(staged.users, InOrder(SetOf(orderedIds) * staged.users.Keys));
      return Ok(users);
    }

    /** Locks the session rows that are listed or are active sessions of listed users. */
    method LockSessions(ids: seq<Id>, activeOf: seq<Id>) returns (r: Outcome<seq<Session>>)
      modifies `faults, `failed
      ensures r.Ok? ==>
        r.value == SessionsInOrder(staged.sessions, Rows(SetOf(ids), SetOf(activeOf))) && failed == old(failed)
      ensures r.Err? ==> r == Err(Internal) && failed
    {
      var sessionIds := SortedUnique(ids);
      var activeUserIds := SortedUnique(activeOf);
      SameSets(ids, activeOf, sessionIds, activeUserIds);
      if |sessionIds| == 0 && |activeUserIds| == 0 {
        NothingToLock(staged.sessions);
        return Ok([]);
      }
      var clauses, arguments := BuildCondition(sessionIds, activeUserIds);
      var fault := Fails();
      if fault {
        return Err(Internal);
      }
      SelectedByClauses(staged.sessions, sessionIds, activeUserIds, clauses, arguments);
      var sessions := ScanRows(staged.sessions, InOrder(SelectedIds(staged.sessions, clauses, arguments)));
      return Ok(sessions);
    }

    method LockSession(id: Id) returns (r: Outcome<Session>)
      requires forall sid <- staged.sessions :: staged.sessions[sid].id == sid
      modifies `faults, `failed
      ensures r.Ok? ==> id in staged.sessions && r.value == staged.sessions[id] && failed == old(failed)
      ensures r.Err? ==>
        (r == Err(Internal) && failed) || (r == Err(NotFound) && id !in staged.sessions && failed == old(failed))
    {
      var rows := LockSessions([id], []);
      if rows.Err? {
        return Err(rows.error);
      }
      SingleSession(staged.sessions, id);
      assert SetOf([id]) == {id} && SetOf([]) == {};
      if |rows.value| == 0 {
        return Err(NotFound);
      }
      return Ok(rows.value[0]);
    }

    method CreateSession(userId: Id, tokenHash: Digest, expiresAt: Time, createdAt: Time) returns (r: Outcome<Session>)
      modifies `staged, `nextSessionId, `faults, `failed
      ensures r.Ok? ==>
        && r.value == Session(old(nextSessionId), userId, tokenHash, expiresAt, None, createdAt)
        && SessionRowOk(r.value) && old(nextSessionId) !in old(staged).sessions && userId in old(staged).users
        && staged == old(staged).(sessions := old(staged).sessions[old(nextSessionId) := r.value])
        && failed == old(failed)
      ensures r.Err? ==> r == Err(Internal)
      ensures r.Err? ==>
        || failed || old(nextSessionId) in old(staged).sessions || userId !in old(staged).users
        || !SessionRowOk(Session(old(nextSessionId), userId, tokenHash, expiresAt, None, createdAt))
    {
      var session := Session(nextSessionId, userId, tokenHash, expiresAt, None, createdAt);
      nextSessionId := nextSessionId + 1;
      var fault := Fails();
      if fault || !SessionRowOk(session) || session.id in staged.sessions || userId !in staged.users {
        return Err(Internal);
      }
      staged := staged.(sessions := staged.sessions[session.id := session]);
      return Ok(session);
    }

    /** Replaces the digest of one session row, whatever its state. */
    method RotateSessionToken(id: Id, tokenHash: Digest) returns (r: Outcome<bool>)
      modifies `staged, `faults, `failed
      ensures r.Ok? ==>
        && id in old(staged).sessions && SessionRowOk(old(staged).sessions[id].(tokenHash := tokenHash))
        && staged == old(staged).(
             sessions := old(staged).sessions[id := old(staged).sessions[id].(tokenHash := tokenHash)])
        && failed == old(failed)
      ensures r.Err? ==>
        || failed || id !in old(staged).sessions
        || !SessionRowOk(old(staged).sessions[id].(tokenHash := tokenHash))
    {
      var fault := Fails();
      if fault {
        return Err(Internal);
      }
      if id !in staged.sessions {
        return Err(NotFound);
      }
      var rotated := staged.sessions[id].(tokenHash := tokenHash);
      if !SessionRowOk(rotated) {
        return Err(Internal);
      }
      staged := staged.(sessions := staged.sessions[id := rotated]);
      return Ok(true);
    }

    /** Revokes locked sessions one by one; a row that is missing or already revoked is an error. */
    method RevokeLockedSessions(ids: seq<Id>, at: Time) returns (r: Outcome<bool>)
      modifies `staged, `faults, `failed
      ensures r.Ok? ==>
        && (forall id <- ids :: Revocable(old(staged).sessions, id, at))
        && staged == old(staged).(sessions := WithRevoked(old(staged).sessions, SetOf(ids), at))
        && failed == old(failed)
      ensures r.Err? ==> r == Err(Internal)
      ensures r.Err? ==> failed || exists id <- ids :: !Revocable(old(staged).sessions, id, at)
    {
      var ordered := SortedUnique(ids);
      var i := 0;
      ghost var was := staged;
      NoneRevoked(was.sessions, at);
      assert SetOf(ordered[..0]) == {};
      while i < |ordered|
        invariant 0 <= i <= |ordered|
        invariant forall k | 0 <= k < i :: Revocable(was.sessions, ordered[k], at)
        invariant staged == was.(sessions := WithRevoked(was.sessions, SetOf(ordered[..i]), at))
        invariant failed == old(failed)
      {
        var fault := Fails();
        if fault {
          return Err(Internal);
        }
        var id := ordered[i];
        assert id !in SetOf(ordered[..i]);
        OneMoreRevoked(was.sessions, SetOf(ordered[..i]), id, at);
        if id !in staged.sessions || staged.sessions[id].revokedAt.Some?
           || !SessionRowOk(staged.sessions[id].(revokedAt := Some(at))) {
          assert id in ordered && id in ids;
          assert !Revocable(was.sessions, id, at);
          return Err(Internal);
        }
        staged := staged.(sessions := staged.sessions[id := staged.sessions[id].(revokedAt := Some(at))]);
        assert SetOf(ordered[..i + 1]) == SetOf(ordered[..i]) + {id} by {
          assert ordered[..i + 1] == ordered[..i] + [id];
        }
        i := i + 1;
      }
      assert ordered[..i] == ordered;
      assert forall x :: x in SetOf(ordered) <==> x in SetOf(ids);
      assert SetOf(ordered) == SetOf(ids);
      forall id | id in ids
        ensures Revocable(was.sessions, id, at)
      {
        assert id in ordered;
      }
      return Ok(true);
    }

    method UpdateUser(m: UserMutation) returns (r: Outcome<User>)
      modifies `staged, `faults, `failed
      ensures r.Ok? ==>
        && m.userId in old(staged).users && r.value == Patched(old(staged).users[m.userId], m) && UserRowOk(r.value)
        && staged == old(staged).(users := old(staged).users[m.userId := r.value])
        && failed == old(failed)
      ensures r.Err? ==>
        || failed || m.userId <= 0 || !m.HasChanges() || m.userId !in old(staged).users
        || !UserRowOk(Patched(old(staged).users[m.userId], m))
    {
      if m.userId <= 0 || !m.HasChanges() {
        return Err(Internal);
      }
      var fault := Fails();
      if fault {
        return Err(Internal);
      }
      if m.userId !in staged.users {
        return Err(NotFound);
      }
      var updated := Patched(staged.users[m.userId], m);
      if !UserRowOk(updated) {
        return Err(Internal);
      }
      staged := staged.(users := staged.users[m.userId := updated]);
      return Ok(updated);
    }

    /** Makes a muted user active whose mute is over; reports whether there was such a row. */
    method RecoverExpiredMute(userId: Id, now: Time) returns (r: Outcome<Option<User>>)
      modifies `staged, `faults, `failed
      ensures r.Ok? && r.value.Some? ==>
        && userId in old(staged).users && MuteIsOver(old(staged).users[userId], now)
        && r.value.value == old(staged).users[userId].(status := Active, mutedUntil := None, updatedAt := now)
        && UserRowOk(r.value.value)
        && staged == old(staged).(users := old(staged).users[userId := r.value.value])
      ensures r.Ok? && r.value.None? ==>
        staged == old(staged) && (userId !in old(staged).users || !MuteIsOver(old(staged).users[userId], now))
      ensures r.Ok? ==> failed == old(failed)
      ensures r.Err? ==>
        failed || (userId in old(staged).users && MuteIsOver(old(staged).users[userId], now)
                   && !UserRowOk(old(staged).users[userId].(status := Active, mutedUntil := None, updatedAt := now)))
    {
      var fault := Fails();
      if fault {
        return Err(Internal);
      }
      if userId !in staged.users || !MuteIsOver(staged.users[userId], now) {
        return Ok(None);
      }
      var recovered := staged.users[userId].(status := Active, mutedUntil := None, updatedAt := now);
      if !UserRowOk(recovered) {
        return Err(Internal);
      }
      staged := staged.(users := staged.users[userId := recovered]);
      return Ok(Some(recovered));
    }

    method InsertAudit(entry: AuditEntry) returns (r: Outcome<bool>)
      modifies `staged, `faults, `failed
      ensures r.Ok? ==> staged == old(staged).(audits := old(staged).audits + [entry]) && failed == old(failed)
      ensures r.Err? ==> r == Err(Internal) && failed
    {
      var fault := Fails();
      if fault {
        return Err(Internal);
      }
      staged := staged.(audits := staged.audits + [entry]);
      return Ok(true);
    }

    /** A single insertion that commits on its own. */
    method CreateUser(email: string, passwordHash: string, displayName: string, now: Time) returns (r: Outcome<User>)
      modifies `committed, `nextUserId, `faults, `failed
      ensures r.Ok? ==>
        && r.value == NewUserRow(old(nextUserId), email, passwordHash, displayName, now)
        && UserRowOk(r.value) && !EmailTaken(old(committed), email) && old(nextUserId) !in old(committed).users
        && committed == old(committed).(users := old(committed).users[old(nextUserId) := r.value])
        && failed == old(failed)
      ensures r.Err? ==> committed == old(committed)
      ensures r.Err? ==>
        || (r == Err(Internal) && (failed || old(nextUserId) in old(committed).users
              || !UserRowOk(NewUserRow(old(nextUserId), email, passwordHash, displayName, now))))
        || (r == Err(EmailAlreadyRegistered) && EmailTaken(old(committed), email) && failed == old(failed)
              && UserRowOk(NewUserRow(old(nextUserId), email, passwordHash, displayName, now)))
    {
      var user := NewUserRow(nextUserId, email, passwordHash, displayName, now);
      nextUserId := nextUserId + 1;
      var fault := Fails();
      if fault || !UserRowOk(user) {
        return Err(Internal);
      }
      if EmailTaken(committed, email) {
        return Err(EmailAlreadyRegistered);
      }
      if user.id in committed.users {
        return Err(Internal);
      }
      committed := committed.(users := committed.users[user.id := user]);
      return Ok(user);
    }

    /** A single conditional update that commits on its own; it may find no row. */
    method RevokeSession(userId: Id, sessionId: Id, at: Time) returns (r: Outcome<bool>)
      requires forall sid <- committed.sessions :: committed.sessions[sid].id == sid
      modifies `committed, `faults, `failed
      ensures r.Ok? ==>
        && failed == old(failed)
        && committed == old(committed).(sessions := old(committed).sessions
             + RevokeAll(SelectSessions(old(committed).sessions, OwnActive(sessionId, userId)), at))
        && forall sid <- SelectSessions(old(committed).sessions, OwnActive(sessionId, userId)) ::
             SessionRowOk(old(committed).sessions[sid].(revokedAt := Some(at)))
      ensures r.Err? ==> r == Err(Internal) && committed == old(committed)
      ensures r.Err? ==>
        failed || exists sid <- SelectSessions(old(committed).sessions, OwnActive(sessionId, userId)) ::
        !SessionRowOk(old(committed).sessions[sid].(revokedAt := Some(at)))
    {
      var fault := Fails();
      if fault {
        return Err(Internal);
      }
      ghost var selected := SelectSessions(committed.sessions, OwnActive(sessionId, userId));
      OwnActiveSelection(committed.sessions, sessionId, userId);
      if sessionId in committed.sessions && Matches(OwnActive(sessionId, userId), committed.sessions[sessionId]) {
        var revoked := committed.sessions[sessionId].(revokedAt := Some(at));
        if !SessionRowOk(revoked) {
          assert sessionId in selected;
          return Err(Internal);
        }
        ghost var was := committed.sessions;
        committed := committed.(sessions := committed.sessions[sessionId := revoked]);
        assert committed.sessions == was + RevokeAll(selected, at);
      } else {
        assert committed.sessions == committed.sessions + RevokeAll(selected, at);
      }
      return Ok(true);
    }
  }

  /** A session row that a revocation at `at` finds active and may change. */
  predicate Revocable(sessions: map<Id, Session>, id: Id, at: Time) {
    id in sessions && sessions[id].revokedAt.None? && SessionRowOk(sessions[id].(revokedAt := Some(at)))
  }

  /** The sessions after those of `ids` have been revoked. */
  function WithRevoked(sessions: map<Id, Session>, ids: set<Id>, at: Time): map<Id, Session> {
    map id | id in sessions :: if id in ids then sessions[id].(revokedAt := Some(at)) else sessions[id]
  }

  lemma NoneRevoked(sessions: map<Id, Session>, at: Time)
    ensures WithRevoked(sessions, {}, at) == sessions
  {
  }

  lemma OneMoreRevoked(sessions: map<Id, Session>, done: set<Id>, id: Id, at: Time)
    requires id !in done
    ensures var now := WithRevoked(sessions, done, at);
      && (id in now <==> id in sessions)
      && (id in sessions ==>
            now[id] == sessions[id]
            && now[id := now[id].(revokedAt := Some(at))] == WithRevoked(sessions, done + {id}, at))
  {
  }

  lemma OwnActiveSelection(sessions: map<Id, Session>, id: Id, userId: Id)
    requires forall sid <- sessions :: sessions[sid].id == sid
    ensures SelectSessions(sessions, OwnActive(id, userId))
         == if id in sessions && Matches(OwnActive(id, userId), sessions[id]) then map[id := sessions[id]] else map[]
  {
    forall sid | sid in SelectSessions(sessions, OwnActive(id, userId))
      ensures sid == id
    {
      assert sid in sessions;
    }
  }

  lemma SameSets(ids: seq<Id>, users: seq<Id>, a: seq<Id>, b: seq<Id>)
    requires forall x :: x in a <==> x in ids
    requires forall x :: x in b <==> x in users
    ensures Rows(SetOf(a), SetOf(b)) == Rows(SetOf(ids), SetOf(users))
    ensures |a| == 0 ==> SetOf(a) == {}
    ensures |b| == 0 ==> SetOf(b) == {}
  {
    assert forall x :: x in SetOf(a) <==> x in SetOf(ids);
    assert forall x :: x in SetOf(b) <==> x in SetOf(users);
    assert SetOf(a) == SetOf(ids) && SetOf(b) == SetOf(users);
  }

  lemma NoUserToLock(users: map<Id, User>, ids: seq<Id>, ordered: seq<Id>)
    requires |ordered| == 0 && forall x :: x in ordered <==> x in ids
    ensures UsersInOrder(users, SetOf(ids)) == []
  {
  }

  lemma NothingToLock(sessions: map<Id, Session>)
    ensures SessionsInOrder(sessions, Rows({}, {})) == []
  {
  }

  method AppendArguments(arguments: seq<Id>, ids: seq<Id>) returns (r: seq<Id>)
    ensures r == arguments + ids
  {
    r := arguments;
    for i := 0 to |ids|
      invariant r == arguments + ids[..i]
    {
      r := r + [ids[i]];
    }
  }

  /** Builds the disjuncts of the locking statement and its arguments, one list after the other. */
  method BuildCondition(sessionIds: seq<Id>, activeUserIds: seq<Id>)
    returns (clauses: seq<Clause>, arguments: seq<Id>)
    ensures arguments == sessionIds + activeUserIds
    ensures clauses == ClausesFor(|sessionIds|, |activeUserIds|)
  {
    clauses, arguments := [], [];
    if |sessionIds| > 0 {
      var list := GeneratePlaceholders(|arguments| + 1, |sessionIds|);
      clauses := clauses + [IdIn(list)];
      arguments := AppendArguments(arguments, sessionIds);
    }
    assert arguments == sessionIds;
    if |activeUserIds| > 0 {
      var list := GeneratePlaceholders(|arguments| + 1, |activeUserIds|);
      clauses := clauses + [ActiveUserIn(list)];
      arguments := AppendArguments(arguments, activeUserIds);
    }
  }

  function ClausesFor(n: nat, m: nat): seq<Clause> {
    (if n > 0 then [IdIn(PlaceholderText(1, n))] else [])
    + (if m > 0 then [ActiveUserIn(PlaceholderText(n + 1, m))] else [])
  }

  /** The generated clauses over the combined arguments select the requested rows. */
  lemma ClausesMeanCondition(ids: seq<Id>, users: seq<Id>, s: Session)
    ensures Selects(ClausesFor(|ids|, |users|), ids + users, s) <==> Matches(Rows(SetOf(ids), SetOf(users)), s)
  {
    var clauses := ClausesFor(|ids|, |users|);
    BindsRange(1, ids + users, ids, s.id);
    BindsRange(|ids| + 1, ids + users, users, s.userId);
    if |ids| > 0 {
      assert IdIn(PlaceholderText(1, |ids|)) in clauses;
    }
    if |users| > 0 {
      assert ActiveUserIn(PlaceholderText(|ids| + 1, |users|)) in clauses;
    }
  }

  function SelectedIds(sessions: map<Id, Session>, clauses: seq<Clause>, arguments: seq<Id>): set<Id> {
    set id | id in sessions && Selects(clauses, arguments, sessions[id])
  }

  lemma SelectedByClauses(sessions: map<Id, Session>, ids: seq<Id>, users: seq<Id>,
                          clauses: seq<Clause>, arguments: seq<Id>)
    requires clauses == ClausesFor(|ids|, |users|) && arguments == ids + users
    ensures SelectedIds(sessions, clauses, arguments) == SelectSessions(sessions, Rows(SetOf(ids), SetOf(users))).Keys
  {
    forall id | id in sessions
      ensures Selects(clauses, arguments, sessions[id]) <==> Matches(Rows(SetOf(ids), SetOf(users)), sessions[id])
    {
      ClausesMeanCondition(ids, users, sessions[id]);
    }
  }

  lemma SingleSession(sessions: map<Id, Session>, id: Id)
    requires forall sid <- sessions :: sessions[sid].id == sid
    ensures SessionsInOrder(sessions, Rows({id}, {})) == if id in sessions then [sessions[id]] else []
  {
    var selected := SelectSessions(sessions, Rows({id}, {}));
    forall sid
      ensures sid in selected <==> sid == id && id in sessions
    {
      if sid in selected {
        assert sid in sessions;
      }
    }
    AscendingIsUnique(InOrder(selected.Keys), if id in sessions then [id] else []);
  }
}
