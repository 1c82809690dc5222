/** Profile edits and self-deletion, against the repository. */
module Profile {
  import opened Wrappers
  import opened Domain
  import opened Database
  import opened Protocol
  import opened Verdicts
  import opened Order
  import opened Repositories
  import opened Transactions
  import opened Auth

  /** A row as the service has checked it, up to the recovery of its mute. */
  lemma AdmittedOwnerIsValid(cfg: Config, user: User, userId: Id, now: Time, requestId: string)
    requires StrictUserCheck(cfg, user, userId, false) == Pass && ValidAuthTime(now)
    requires RecoverUser(user, now, requestId).Ok?
    ensures var recovered := RecoverUser(user, now, requestId).value.0;
      && ValidUserStructure(cfg, recovered, userId, false)
      && (!recovered.status.Frozen? ==> recovered.status.CanEditProfile() && recovered.status.CanDeleteAccount())
  {
  }

  predicate ValidEditResult(cfg: Config, user: User, previous: User, m: UserMutation, now: Time) {
    && ValidUserStructure(cfg, user, m.userId, false) && user.updatedAt == now
    && user.displayName == Or(m.displayName, previous.displayName) && user.bio == Or(m.bio, previous.bio)
    && user == previous.(displayName := user.displayName, bio := user.bio, updatedAt := user.updatedAt)
  }

  /** The first half of a profile edit: the locks and the checks behind them. */
  method LockForUpdate(repo: Repository, cfg: Config, c: Call, clock: Time) returns (r: Outcome<OwnerPlan>)
    requires c.UpdateMe? && Sound(repo.staged)
    modifies repo`faults, repo`failed
    ensures var decision := AdmitUpdate(cfg, c, clock, SelectUsers(repo.staged.users, {c.userId}),
                                        SelectSessions(repo.staged.sessions, Rows({c.sessionId}, {})));
      if r.Ok? then r == decision && repo.failed == old(repo.failed)
      else decision == Err(r.error) || (repo.failed && r == Err(Internal))
  {
    OneUserInOrder(repo.staged.users, c.userId);
    OneSessionSelected(repo.staged.sessions, c.sessionId);
    var users := repo.LockUsers([c.userId]);
    if users.Err? {
      return Err(Internal);
    }
    if |users.value| == 0 {
      return Err(SessionInvalid);
    }
    if |users.value| != 1 || users.value[0].id != c.userId {
      return Err(Internal);
    }
    var user := users.value[0];
    var locked := repo.LockSession(c.sessionId);
    if locked.Err? {
      return Err(if locked.error.NotFound? then SessionInvalid else Internal);
    }
    var session := locked.value;
    if !ValidSessionStructure(session, c.sessionId) {
      return Err(Internal);
    }
    if session.userId != c.userId || session.revokedAt.Some? {
      return Err(SessionInvalid);
    }
    var check := StrictUserCheck(cfg, user, c.userId, false);
    if check.Fail? {
      return Err(check.error);
    }
    var sampled := SampleNow(clock);
    if sampled.Err? {
      return Err(sampled.error);
    }
    if NormalizeTime(session.expiresAt) <= sampled.value {
      return Err(SessionInvalid);
    }
    return Ok(OwnerPlan(user, sampled.value));
  }

  /** Writes the fields that change, if any, and checks the returned row; on a faithful repository the
      check holds. */
  method WriteEdit(repo: Repository, cfg: Config, c: Call, user: User, now: Time) returns (r: Outcome<User>)
    requires c.UpdateMe? && Precheck(cfg, c) == Pass
    requires ValidUserStructure(cfg, user, c.userId, false) && ValidAuthTime(now)
    requires c.userId in repo.staged.users && repo.staged.users[c.userId] == user && UserRowOk(user)
    modifies repo`staged, repo`faults, repo`failed
    ensures var edited := Edited(user, c.newName, c.newBio, now);
      if r.Ok? then
        && r.value == edited && UserRowOk(edited) && ValidUserStructure(cfg, edited, c.userId, false)
        && repo.staged == old(repo.staged).(users := old(repo.staged).users[c.userId := edited])
        && repo.failed == old(repo.failed)
      else
        r == Err(Internal) && (repo.failed || !UserRowOk(edited))
  {
    var mutation := NoMutation(user.id);
    if c.newName.Some? && c.newName.value != user.displayName {
      mutation := mutation.(displayName := Set(c.newName.value));
    }
    if c.newBio.Some? && c.newBio.value != user.bio {
      mutation := mutation.(bio := Set(c.newBio.value));
    }
    if mutation.displayName.Unset? && mutation.bio.Unset? {
      assert repo.staged.users[c.userId := user] == repo.staged.users;
      return Ok(user);
    }
    mutation := mutation.(updatedAt := Set(now));
    var updated := repo.UpdateUser(mutation);
    if updated.Err? || !ValidEditResult(cfg, updated.value, user, mutation, now) {
      return Err(Internal);
    }
    return updated;
  }

  /** The second half of a profile edit: recovery, the changed fields and the pending entry. */
  method EditProfile(repo: Repository, cfg: Config, c: Call, p: OwnerPlan) returns (r: Outcome<Reply>)
    requires c.UpdateMe? && Precheck(cfg, c) == Pass && Sound(repo.staged)
    requires c.userId in repo.staged.users && p.user == repo.staged.users[c.userId]
    requires StrictUserCheck(cfg, p.user, c.userId, false) == Pass && ValidAuthTime(p.now)
    modifies repo`staged, repo`faults, repo`failed
    ensures Drafted(old(repo.staged), repo.staged, CompleteUpdate(c, p), r, repo.failed)
    ensures r.Ok? ==> r.value.Viewed? && ValidUserStructure(cfg, r.value.user, c.userId, true)
  {
    ghost var was := repo.staged;
    var recovery := RecoverForAuth(repo, p.user, p.now, c.requestId);
    if recovery.Err? {
      return Err(Internal);
    }
    AdmittedOwnerIsValid(cfg, p.user, c.userId, p.now, c.requestId);
    var user := recovery.value.0;
    if user.status.Frozen? {
      return Err(UserFrozen);
    }
    if !user.status.CanEditProfile() {
      return Err(SessionInvalid);
    }
    var edited := WriteEdit(repo, cfg, c, user, p.now);
    if edited.Err? {
      return Err(Internal);
    }
    var inserted := InsertAudits(repo, recovery.value.1);
    if !inserted {
      return Err(Internal);
    }
    EditDrafted(was, c, p, user, recovery.value.1);
    return Ok(Viewed(SecretFree(edited.value)));
  }

  /** The verdict of an admitted edit whose recovery is known. */
  lemma EditDrafted(was: Db, c: Call, p: OwnerPlan, user: User, entries: seq<AuditEntry>)
    requires c.UpdateMe? && RecoverUser(p.user, p.now, c.requestId) == Ok((user, entries)) && !user.status.Frozen?
    requires UserRowOk(Edited(user, c.newName, c.newBio, p.now))
    ensures var edited, decision := Edited(user, c.newName, c.newBio, p.now), CompleteUpdate(c, p);
      && decision.Ok? && decision.value.reply == Viewed(SecretFree(edited))
      && Apply(was, decision.value.delta) == Db(was.users[c.userId := edited], was.sessions, was.audits + entries)
  {
    var edited := Edited(user, c.newName, c.newBio, p.now);
    assert was.users + map[c.userId := edited] == was.users[c.userId := edited];
    assert was.sessions + map[] == was.sessions;
  }

  lemma AdmittedUpdateFacts(cfg: Config, c: Call, clock: Time, users: map<Id, User>, sessions: map<Id, Session>)
    requires c.UpdateMe? && AdmitUpdate(cfg, c, clock, users, sessions).Ok?
    ensures var p := AdmitUpdate(cfg, c, clock, users, sessions).value;
      && c.userId in users && p.user == users[c.userId]
      && StrictUserCheck(cfg, p.user, c.userId, false) == Pass && ValidAuthTime(p.now)
  {
  }

  /** An edit of the caller's profile: one transaction. The check after the commit never fails. */
  method UpdateMe(repo: Repository, cfg: Config, c: Call, clock: Time) returns (r: Outcome<Reply>)
    requires c.UpdateMe? && Sound(repo.committed) && !repo.failed
    modifies repo
    ensures Carried(cfg, old(repo.committed), repo.committed, c, Env(clock, 0, []), r, repo.failed)
  {
    if c.newName.Some? && !cfg.nameOk(c.newName.value) {
      return Err(ValidationFailed);
    }
    if c.newBio.Some? && |c.newBio.value| > 1000 {
      return Err(ValidationFailed);
    }
    if c.userId <= 0 || c.sessionId <= 0 {
      return Err(SessionInvalid);
    }
    var begun := repo.Begin();
    if !begun {
      return Err(Internal);
    }
    ghost var users := SelectUsers(repo.staged.users, {c.userId});
    ghost var sessions := SelectSessions(repo.staged.sessions, Rows({c.sessionId}, {}));
    var plan := LockForUpdate(repo, cfg, c, clock);
    if plan.Ok? {
      AdmittedUpdateFacts(cfg, c, clock, users, sessions);
      r := EditProfile(repo, cfg, c, plan.value);
    } else {
      r := Err(plan.error);
    }
    r := repo.Finish(r);
    if r.Err? {
      UpdateErrorIsPassedOn(cfg, c, Env(clock, 0, []), users, sessions);
      return Err(Classified(c, r.error));
    }
    if !ValidUserStructure(cfg, r.value.user, c.userId, true) {
      return Err(Internal);
    }
  }

  lemma UpdateErrorIsPassedOn(cfg: Config, c: Call, env: Env, users: map<Id, User>, sessions: map<Id, Session>)
    requires c.UpdateMe?
    ensures var d := DecideUpdateMe(cfg, c, env, users, sessions);
      d.Err? ==> Classified(c, d.error) == d.error
  {
  }

  /** A locked session that a self-deletion does not expect: malformed, of another user, revoked, or
      out of order. */
  predicate Unexpected(sessions: seq<Session>, userId: Id, k: nat)
    requires k < |sessions|
  {
    || !ValidSessionStructure(sessions[k], sessions[k].id)
    || sessions[k].userId != userId || sessions[k].revokedAt.Some?
    || (k > 0 && sessions[k].id <= sessions[k - 1].id)
  }

  /** The error for such a session; the current session that was lost makes the caller's session invalid. */
  function UnexpectedError(s: Session, userId: Id, currentId: Id): Error {
    if s.id == currentId && (s.userId != userId || s.revokedAt.Some?) then SessionInvalid else Internal
  }

  /** Scans the locked sessions; yields their ids and whether the current session is among them, or the
      error of the first session that is unexpected. */
  method ValidateLockedActiveSessions(sessions: seq<Session>, userId: Id, currentId: Id)
    returns (r: Outcome<(bool, seq<Id>)>)
    ensures r.Ok? <==> forall k | 0 <= k < |sessions| :: !Unexpected(sessions, userId, k)
    ensures r.Ok? ==> r.value == (currentId in IdsOf(sessions), IdsOf(sessions))
    ensures r.Err? ==>
      exists k | 0 <= k < |sessions| && Unexpected(sessions, userId, k) ::
        && (forall j | 0 <= j < k :: !Unexpected(sessions, userId, j))
        && r.error == UnexpectedError(sessions[k], userId, currentId)
  {
    var currentFound := false;
    var ids := new Id[|sessions|](_ => 0);
    var previousId := 0;
    var index := 0;
    while index < |sessions|
      invariant 0 <= index <= |sessions|
      invariant index > 0 ==> previousId == sessions[index - 1].id
      invariant forall k | 0 <= k < index :: !Unexpected(sessions, userId, k)
      invariant ids[..index] == IdsOf(sessions)[..index]
      invariant currentFound <==> currentId in IdsOf(sessions)[..index]
    {
      var session := sessions[index];
      if session.id == currentId && (session.userId != userId || session.revokedAt.Some?) {
        assert Unexpected(sessions, userId, index);
        return Err(SessionInvalid);
      }
      if !ValidSessionStructure(session, session.id) || session.userId != userId || session.revokedAt.Some? {
        assert Unexpected(sessions, userId, index);
        return Err(Internal);
      }
      if index > 0 && session.id <= previousId {
        assert Unexpected(sessions, userId, index);
        return Err(Internal);
      }
      previousId := session.id;
      ids[index] := session.id;
      if session.id == currentId {
        currentFound := true;
      }
      index := index + 1;
      assert IdsOf(sessions)[..index] == IdsOf(sessions)[..index - 1] + [session.id];
    }
    assert IdsOf(sessions)[..index] == IdsOf(sessions) && ids[..index] == ids[..];
    return Ok((currentFound, ids[..]));
  }

  /** `rows` lists the selected sessions, all of them active sessions of one user. */
  ghost predicate ActiveRows(rows: seq<Session>, selected: map<Id, Session>, userId: Id) {
    && Lists(IdsOf(rows), selected.Keys)
    && (forall k | 0 <= k < |rows| :: rows[k].id in selected && selected[rows[k].id] == rows[k])
    && (forall sid <- selected :: selected[sid].userId == userId && selected[sid].revokedAt.None?)
  }

  lemma ActiveSessionsAreRows(all: map<Id, Session>, userId: Id)
    requires forall sid <- all :: all[sid].id == sid
    ensures ActiveRows(SessionsInOrder(all, Rows({}, {userId})), SelectSessions(all, Rows({}, {userId})), userId)
  {
    SelectedInOrder(all, Rows({}, {userId}));
  }

  lemma RowOfSession(rows: seq<Session>, selected: map<Id, Session>, userId: Id, sid: Id) returns (k: nat)
    requires ActiveRows(rows, selected, userId) && sid in selected
    ensures k < |rows| && rows[k].id == sid && rows[k] == selected[sid]
  {
    assert sid in IdsOf(rows);
    k :| 0 <= k < |rows| && IdsOf(rows)[k] == sid;
  }

  /** Of the active sessions of one user, in order, only a malformed row can be unexpected. */
  lemma OnlyMalformedIsUnexpected(rows: seq<Session>, selected: map<Id, Session>, userId: Id, k: nat)
    requires ActiveRows(rows, selected, userId) && k < |rows|
    ensures Unexpected(rows, userId, k) <==> !ValidSessionStructure(rows[k], rows[k].id)
    ensures forall currentId :: UnexpectedError(rows[k], userId, currentId) == Internal
  {
  }

  ghost predicate AllWellFormed(selected: map<Id, Session>) {
    forall sid <- selected :: ValidSessionStructure(selected[sid], sid)
  }

  lemma MalformedAmongRows(rows: seq<Session>, selected: map<Id, Session>, userId: Id)
    requires ActiveRows(rows, selected, userId)
    ensures AllWellFormed(selected) <==> forall k | 0 <= k < |rows| :: !Unexpected(rows, userId, k)
  {
    forall k | 0 <= k < |rows|
      ensures Unexpected(rows, userId, k) <==> !ValidSessionStructure(rows[k], rows[k].id)
    {
      OnlyMalformedIsUnexpected(rows, selected, userId, k);
    }
    forall sid | sid in selected
      ensures exists k :: 0 <= k < |rows| && rows[k].id == sid && rows[k] == selected[sid]
    {
      var k := RowOfSession(rows, selected, userId, sid);
    }
  }

  /** Locks the caller's active sessions and scans them. */
  method LockOwnSessions(repo: Repository, userId: Id, currentId: Id) returns (r: Outcome<(seq<Session>, seq<Id>)>)
    requires Sound(repo.staged)
    modifies repo`faults, repo`failed
    ensures var selected := SelectSessions(repo.staged.sessions, Rows({}, {userId}));
      if r.Ok? then
        && AllWellFormed(selected) && currentId in selected && ActiveRows(r.value.0, selected, userId)
        && SetOf(r.value.1) == selected.Keys && repo.failed == old(repo.failed)
      else
        || (repo.failed && r == Err(Internal))
        || (!AllWellFormed(selected) && r == Err(Internal))
        || (AllWellFormed(selected) && currentId !in selected && r == Err(SessionInvalid))
  {
    assert SetOf([userId]) == {userId} && SetOf([]) == {};
    ghost var selected := SelectSessions(repo.staged.sessions, Rows({}, {userId}));
    var locked := repo.LockSessions([], [userId]);
    if locked.Err? {
      return Err(Internal);
    }
    var sessions := locked.value;
    ActiveSessionsAreRows(repo.staged.sessions, userId);
    MalformedAmongRows(sessions, selected, userId);
    var scanned := ValidateLockedActiveSessions(sessions, userId, currentId);
    if scanned.Err? {
      ghost var k :| 0 <= k < |sessions| && scanned.error == UnexpectedError(sessions[k], userId, currentId);
      OnlyMalformedIsUnexpected(sessions, selected, userId, k);
      return Err(scanned.error);
    }
    assert forall x :: x in SetOf(IdsOf(sessions)) <==> x in selected.Keys;
    if !scanned.value.0 {
      return Err(SessionInvalid);
    }
    return Ok((sessions, scanned.value.1));
  }

  /** The first half of a self-deletion: the locks, the scan of the locked sessions, and the checks. */
  method LockForDelete(repo: Repository, cfg: Config, c: Call, clock: Time) returns (r: Outcome<(OwnerPlan, seq<Id>)>)
    requires c.DeleteMe? && Sound(repo.staged)
    modifies repo`faults, repo`failed
    ensures var sessions := SelectSessions(repo.staged.sessions, Rows({}, {c.userId}));
      var decision := AdmitDelete(cfg, c, clock, SelectUsers(repo.staged.users, {c.userId}), sessions);
      if r.Ok? then
        decision == Ok(r.value.0) && SetOf(r.value.1) == sessions.Keys && repo.failed == old(repo.failed)
      else decision == Err(r.error) || (repo.failed && r == Err(Internal))
  {
    OneUserInOrder(repo.staged.users, c.userId);
    ghost var selected := SelectSessions(repo.staged.sessions, Rows({}, {c.userId}));
    var users := repo.LockUsers([c.userId]);
    if users.Err? {
      return Err(Internal);
    }
    if |users.value| == 0 {
      return Err(SessionInvalid);
    }
    if |users.value| != 1 || users.value[0].id != c.userId {
      return Err(Internal);
    }
    var user := users.value[0];
    var locked := LockOwnSessions(repo, c.userId, c.sessionId);
    if locked.Err? {
      return Err(locked.error);
    }
    var check := StrictUserCheck(cfg, user, c.userId, false);
    if check.Fail? {
      return Err(check.error);
    }
    var sampled := SampleNow(clock);
    if sampled.Err? {
      return Err(sampled.error);
    }
    var expired := CurrentHasExpired(locked.value.0, c.sessionId, sampled.value);
    ghost var k := RowOfSession(locked.value.0, selected, c.userId, c.sessionId);
    if expired {
      return Err(SessionInvalid);
    }
    return Ok((OwnerPlan(user, sampled.value), locked.value.1));
  }

  /** Whether a session of this id is over. */
  method CurrentHasExpired(sessions: seq<Session>, currentId: Id, now: Time) returns (expired: bool)
    ensures expired <==> exists s <- sessions :: s.id == currentId && NormalizeTime(s.expiresAt) <= now
  {
    for index := 0 to |sessions|
      invariant forall k | 0 <= k < index :: sessions[k].id == currentId ==> NormalizeTime(sessions[k].expiresAt) > now
    {
      var session := sessions[index];
      if session.id == currentId && NormalizeTime(session.expiresAt) <= now {
        assert session in sessions;
        return true;
      }
    }
    return false;
  }

  predicate ValidDeletion(cfg: Config, deleted: User, previous: User, now: Time) {
    && ValidUserStructure(cfg, deleted, previous.id, false)
    && deleted.status.Deleted? && deleted.deletedAt == Some(now) && deleted.mutedUntil.None? && deleted.updatedAt == now
    && deleted.email == previous.email && deleted.passwordHash == previous.passwordHash
    && deleted.displayName == previous.displayName && deleted.bio == previous.bio && deleted.role == previous.role
    && deleted.violationCount == previous.violationCount && deleted.createdAt == previous.createdAt
  }

  /** Marks the row deleted and checks the returned row; on a faithful repository the check holds. */
  method WriteDeletion(repo: Repository, cfg: Config, user: User, now: Time) returns (ok: bool)
    requires user.id in repo.staged.users && repo.staged.users[user.id] == user && UserRowOk(user)
    requires ValidUserStructure(cfg, user, user.id, false) && ValidAuthTime(now)
    modifies repo`staged, repo`faults, repo`failed
    ensures ok ==>
      && UserRowOk(DeletedRow(user, now)) && repo.failed == old(repo.failed)
      && repo.staged == old(repo.staged).(users := old(repo.staged).users[user.id := DeletedRow(user, now)])
    ensures !ok ==> repo.failed || !UserRowOk(DeletedRow(user, now))
  {
    var mutation := NoMutation(user.id).(
      status := Set(Deleted), mutedUntil := Set(None), updatedAt := Set(now), deletedAt := Set(Some(now)));
    var deleted := repo.UpdateUser(mutation);
    ok := deleted.Ok? && ValidDeletion(cfg, deleted.value, user, now);
  }

  /** Writes the deleted row, the revocations and the pending entry. */
  method PerformDeletion(repo: Repository, cfg: Config, user: User, now: Time, entries: seq<AuditEntry>,
                         ids: seq<Id>, ghost sessions: map<Id, Session>)
    returns (ok: bool)
    requires user.id in repo.staged.users && repo.staged.users[user.id] == user && UserRowOk(user)
    requires ValidUserStructure(cfg, user, user.id, false) && ValidAuthTime(now)
    requires SetOf(ids) == sessions.Keys && sessions.Keys <= repo.staged.sessions.Keys
    requires forall sid <- sessions :: sessions[sid] == repo.staged.sessions[sid] && sessions[sid].revokedAt.None?
    modifies repo`staged, repo`faults, repo`failed
    ensures ok ==>
      && UserRowOk(DeletedRow(user, now)) && AllRowsOk(RevokeAll(sessions, now)) && repo.failed == old(repo.failed)
      && repo.staged == Db(
           old(repo.staged).users[user.id := DeletedRow(user, now)],
           old(repo.staged).sessions + RevokeAll(sessions, now),
           old(repo.staged).audits + entries)
    ensures !ok ==> repo.failed || !UserRowOk(DeletedRow(user, now)) || !AllRowsOk(RevokeAll(sessions, now))
  {
    var written := WriteDeletion(repo, cfg, user, now);
    if !written {
      return false;
    }
    var revoked := RevokeSelected(repo, ids, now, sessions);
    if !revoked {
      return false;
    }
    ok := InsertAudits(repo, entries);
  }

  /** Deletes an account whose mute has been dealt with, unless its user is frozen. */
  method DeleteRecovered(repo: Repository, cfg: Config, user: User, now: Time, entries: seq<AuditEntry>,
                         ids: seq<Id>, ghost sessions: map<Id, Session>)
    returns (r: Outcome<bool>)
    requires user.id in repo.staged.users && repo.staged.users[user.id] == user && UserRowOk(user)
    requires ValidUserStructure(cfg, user, user.id, false) && ValidAuthTime(now)
    requires !user.status.Frozen? ==> user.status.CanDeleteAccount()
    requires SetOf(ids) == sessions.Keys && sessions.Keys <= repo.staged.sessions.Keys
    requires forall sid <- sessions :: sessions[sid] == repo.staged.sessions[sid] && sessions[sid].revokedAt.None?
    modifies repo`staged, repo`faults, repo`failed
    ensures r.Ok? ==>
      && !user.status.Frozen? && UserRowOk(DeletedRow(user, now)) && AllRowsOk(RevokeAll(sessions, now))
      && repo.failed == old(repo.failed)
      && repo.staged == Db(
           old(repo.staged).users[user.id := DeletedRow(user, now)],
           old(repo.staged).sessions + RevokeAll(sessions, now),
           old(repo.staged).audits + entries)
    ensures r.Err? ==>
      if user.status.Frozen? then r == Err(UserFrozen)
      else r == Err(Internal)
           && (repo.failed || !UserRowOk(DeletedRow(user, now)) || !AllRowsOk(RevokeAll(sessions, now)))
  {
    if user.status.Frozen? {
      return Err(UserFrozen);
    }
    if !user.status.CanDeleteAccount() {
      return Err(SessionInvalid);
    }
    var performed := PerformDeletion(repo, cfg, user, now, entries, ids, sessions);
    return if performed then Ok(true) else Err(Internal);
  }

  /** The second half of a self-deletion: recovery, the deleted row, the revocations and the pending entry. */
  method DeleteAccount(repo: Repository, cfg: Config, c: Call, p: OwnerPlan, ids: seq<Id>,
                       ghost sessions: map<Id, Session>)
    returns (r: Outcome<Reply>)
    requires c.DeleteMe? && UserRowOk(p.user) && p.user.id == c.userId
    requires c.userId in repo.staged.users && p.user == repo.staged.users[c.userId]
    requires StrictUserCheck(cfg, p.user, c.userId, false) == Pass && ValidAuthTime(p.now)
    requires SetOf(ids) == sessions.Keys && sessions.Keys <= repo.staged.sessions.Keys
    requires forall sid <- sessions :: sessions[sid] == repo.staged.sessions[sid] && sessions[sid].revokedAt.None?
    modifies repo`staged, repo`faults, repo`failed
    ensures Drafted(old(repo.staged), repo.staged, CompleteDelete(c, p, sessions), r, repo.failed)
  {
    ghost var was := repo.staged;
    var recovery := RecoverForAuth(repo, p.user, p.now, c.requestId);
    if recovery.Err? {
      return Err(Internal);
    }
    var user, entries := recovery.value.0, recovery.value.1;
    AdmittedOwnerIsValid(cfg, p.user, c.userId, p.now, c.requestId);
    var deleted := DeleteRecovered(repo, cfg, user, p.now, entries, ids, sessions);
    DeletionDecided(was, c, p, user, entries, sessions);
    if deleted.Err? {
      return Err(deleted.error);
    }
    return Ok(AccountDeleted);
  }

  /** The decision on an admitted self-deletion whose recovery is known. */
  lemma DeletionDecided(was: Db, c: Call, p: OwnerPlan, user: User, entries: seq<AuditEntry>,
                        sessions: map<Id, Session>)
    requires c.DeleteMe? && RecoverUser(p.user, p.now, c.requestId) == Ok((user, entries))
    ensures var decision := CompleteDelete(c, p, sessions);
      if user.status.Frozen? then decision == Err(UserFrozen)
      else if !UserRowOk(DeletedRow(user, p.now)) || !AllRowsOk(RevokeAll(sessions, p.now)) then
        decision == Err(Internal)
      else
        && decision.Ok? && decision.value.reply == AccountDeleted
        && Apply(was, decision.value.delta)
           == Db(was.users[c.userId := DeletedRow(user, p.now)], was.sessions + RevokeAll(sessions, p.now),
                 was.audits + entries)
  {
    assert was.users + map[c.userId := DeletedRow(user, p.now)] == was.users[c.userId := DeletedRow(user, p.now)];
  }

  lemma ActiveSelection(all: map<Id, Session>, userId: Id)
    ensures var selected := SelectSessions(all, Rows({}, {userId}));
      && selected.Keys <= all.Keys
      && forall sid <- selected :: selected[sid] == all[sid] && selected[sid].revokedAt.None?
  {
  }

  lemma AdmittedDeleteFacts(cfg: Config, c: Call, clock: Time, users: map<Id, User>, sessions: map<Id, Session>)
    requires c.DeleteMe? && AdmitDelete(cfg, c, clock, users, sessions).Ok?
    ensures var p := AdmitDelete(cfg, c, clock, users, sessions).value;
      && c.userId in users && p.user == users[c.userId]
      && StrictUserCheck(cfg, p.user, c.userId, false) == Pass && ValidAuthTime(p.now)
  {
  }

  /** The deletion of the caller's account: one transaction. */
  method DeleteMe(repo: Repository, cfg: Config, c: Call, clock: Time) returns (r: Outcome<Reply>)
    requires c.DeleteMe? && Sound(repo.committed) && !repo.failed
    modifies repo
    ensures Carried(cfg, old(repo.committed), repo.committed, c, Env(clock, 0, []), r, repo.failed)
  {
    if c.userId <= 0 || c.sessionId <= 0 {
      return Err(SessionInvalid);
    }
    var begun := repo.Begin();
    if !begun {
      return Err(Internal);
    }
    ghost var users := SelectUsers(repo.staged.users, {c.userId});
    ghost var sessions := SelectSessions(repo.staged.sessions, Rows({}, {c.userId}));
    ActiveSelection(repo.staged.sessions, c.userId);
    var locked := LockForDelete(repo, cfg, c, clock);
    if locked.Ok? {
      AdmittedDeleteFacts(cfg, c, clock, users, sessions);
      r := DeleteAccount(repo, cfg, c, locked.value.0, locked.value.1, sessions);
    } else {
      r := Err(locked.error);
    }
    r := repo.Finish(r);
    if r.Err? {
      DeleteErrorIsPassedOn(cfg, c, Env(clock, 0, []), users, sessions);
      return Err(Classified(c, r.error));
    }
  }

  lemma DeleteErrorIsPassedOn(cfg: Config, c: Call, env: Env, users: map<Id, User>, sessions: map<Id, Session>)
    requires c.DeleteMe?
    ensures var d := DecideDeleteMe(cfg, c, env, users, sessions);
      d.Err? ==> Classified(c, d.error) == d.error
  {
    if Decide(cfg, c, env, users, sessions).Err? {
      ClassificationIsIdentity(cfg, c, env, users, sessions);
    }
  }
}
