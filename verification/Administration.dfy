/** Status changes by an administrator, against the repository. */
module Administration {
  import opened Wrappers
  import opened Domain
  import opened Database
  import opened Protocol
  import opened Verdicts
  import opened Order
  import opened Repositories
  import opened Transactions
  import opened PendingAudits
  import opened Auth

  lemma TwoUsersInOrder(users: map<Id, User>, a: Id, b: Id)
    requires forall id <- users :: users[id].id == id
    ensures var rows := UsersInOrder(users, SetOf([a, b]));
      && (forall u <- rows :: (u.id == a || u.id == b) && u.id in users && users[u.id] == u)
      && (forall id | id in users && (id == a || id == b) :: users[id] in rows)
  {
    var ids := InOrder(SetOf([a, b]) * users.Keys);
    var rows := UsersInOrder(users, SetOf([a, b]));
    assert SetOf([a, b]) == {a, b};
    forall u | u in rows
      ensures (u.id == a || u.id == b) && u.id in users && users[u.id] == u
    {
      var k :| 0 <= k < |rows| && rows[k] == u;
      assert ids[k] in users && u == users[ids[k]];
    }
    forall id | id in users && (id == a || id == b)
      ensures users[id] in rows
    {
      assert id in ids;
      var k :| 0 <= k < |ids| && ids[k] == id;
      assert rows[k] == users[id];
    }
  }

  /** Picks the two parties from the locked rows; a row of anyone else is an error. */
  method FindParties(users: seq<User>, actorId: Id, targetId: Id) returns (r: Outcome<(Option<User>, Option<User>)>)
    requires actorId != targetId
    ensures r.Err? <==> exists u <- users :: u.id != actorId && u.id != targetId
    ensures r.Err? ==> r == Err(Internal)
    ensures r.Ok? ==>
      && (if r.value.0.Some? then r.value.0.value in users && r.value.0.value.id == actorId
          else forall u <- users :: u.id != actorId)
      && (if r.value.1.Some? then r.value.1.value in users && r.value.1.value.id == targetId
          else forall u <- users :: u.id != targetId)
  {
    var actor, target := Option<User>.None, Option<User>.None;
    for index := 0 to |users|
      invariant forall k | 0 <= k < index :: users[k].id == actorId || users[k].id == targetId
      invariant if actor.Some? then actor.value in users && actor.value.id == actorId
                else forall k | 0 <= k < index :: users[k].id != actorId
      invariant if target.Some? then target.value in users && target.value.id == targetId
                else forall k | 0 <= k < index :: users[k].id != targetId
    {
      var user := users[index];
      assert user in users;
      if user.id == actorId {
        actor := Some(user);
      } else if user.id == targetId {
        target := Some(user);
      } else {
        return Err(Internal);
      }
    }
    return Ok((actor, target));
  }

  /** Locks both parties in one statement. */
  method LockParties(repo: Repository, actorId: Id, targetId: Id) returns (r: Outcome<(User, Option<User>)>)
    requires Sound(repo.staged) && actorId != targetId
    modifies repo`faults, repo`failed
    ensures var users := repo.staged.users;
      if r.Ok? then
        && actorId in users && r.value.0 == users[actorId]
        && r.value.1 == (if targetId in users then Some(users[targetId]) else None)
        && repo.failed == old(repo.failed)
      else
        (repo.failed && r == Err(Internal)) || (actorId !in users && r == Err(SessionInvalid))
  {
    TwoUsersInOrder(repo.staged.users, actorId, targetId);
    var locked := repo.LockUsers([actorId, targetId]);
    if locked.Err? {
      return Err(Internal);
    }
    if |locked.value| == 0 {
      return Err(SessionInvalid);
    }
    var found := FindParties(locked.value, actorId, targetId);
    if found.Err? {
      return Err(Internal);
    }
    if found.value.0.None? {
      return Err(SessionInvalid);
    }
    return Ok((found.value.0.value, found.value.1));
  }

  /** The error that the scan of the locked sessions raises at index `k`, if any. */
  function ScanError(sessions: seq<Session>, actorId: Id, actorSessionId: Id, targetId: Id, k: nat): Option<Error>
    requires k < |sessions|
  {
    var s := sessions[k];
    if s.id <= 0 || (k > 0 && s.id <= sessions[k - 1].id) || !ValidSessionStructure(s, s.id) then Some(Internal)
    else if s.id == actorSessionId then if s.userId != actorId then Some(SessionInvalid) else None
    else if s.userId != targetId || s.revokedAt.Some? then Some(Internal)
    else None
  }

  predicate Offends(sessions: seq<Session>, actorId: Id, actorSessionId: Id, targetId: Id, k: nat, e: Error)
    requires k < |sessions|
  {
    && ScanError(sessions, actorId, actorSessionId, targetId, k) == Some(e)
    && forall j | 0 <= j < k :: ScanError(sessions, actorId, actorSessionId, targetId, j).None?
  }

  /** The first offending row decides the error, and after all rows a missing administrator's session. */
  predicate ScanFails(sessions: seq<Session>, actorId: Id, actorSessionId: Id, targetId: Id, e: Error) {
    || (exists k | 0 <= k < |sessions| :: Offends(sessions, actorId, actorSessionId, targetId, k, e))
    || (&& e == SessionInvalid && (forall s <- sessions :: s.id != actorSessionId)
        && forall k | 0 <= k < |sessions| :: ScanError(sessions, actorId, actorSessionId, targetId, k).None?)
  }

  /** Scans the locked sessions for the administrator's own and the target's. */
  method ValidateAdministrativeSessionSet(sessions: seq<Session>, actorId: Id, actorSessionId: Id, targetId: Id)
    returns (r: Outcome<(Session, seq<Session>)>)
    ensures r.Ok? <==>
      && (forall k | 0 <= k < |sessions| :: ScanError(sessions, actorId, actorSessionId, targetId, k).None?)
      && (exists s <- sessions :: s.id == actorSessionId)
    ensures r.Ok? ==>
      && r.value.0 in sessions && r.value.0.id == actorSessionId
      && forall s :: s in r.value.1 <==> s in sessions && s.id != actorSessionId
    ensures r.Err? ==> ScanFails(sessions, actorId, actorSessionId, targetId, r.error)
  {
    var actorSession := Option<Session>.None;
    var targetSessions: seq<Session> := [];
    var previousId := 0;
    var index := 0;
    while index < |sessions|
      invariant 0 <= index <= |sessions|
      invariant index > 0 ==> previousId == sessions[index - 1].id
      invariant forall s <- sessions[..index] :: s.id <= previousId
      invariant forall k | 0 <= k < index :: ScanError(sessions, actorId, actorSessionId, targetId, k).None?
      invariant if actorSession.Some? then
                  actorSession.value in sessions[..index] && actorSession.value.id == actorSessionId
                else forall k | 0 <= k < index :: sessions[k].id != actorSessionId
      invariant forall s :: s in targetSessions <==> s in sessions[..index] && s.id != actorSessionId
    {
      var session := sessions[index];
      ghost var error := ScanError(sessions, actorId, actorSessionId, targetId, index);
      assert error.Some? ==> Offends(sessions, actorId, actorSessionId, targetId, index, error.value);
      assert sessions[..index + 1] == sessions[..index] + [session];
      if session.id <= 0 || (index > 0 && session.id <= previousId) || !ValidSessionStructure(session, session.id) {
        return Err(Internal);
      }
      previousId := session.id;
      if session.id == actorSessionId {
        if actorSession.Some? {
          return Err(Internal);
        }
        if session.userId != actorId {
          return Err(SessionInvalid);
        }
        actorSession := Some(session);
      } else {
        if session.userId != targetId || session.revokedAt.Some? {
          return Err(Internal);
        }
        targetSessions := targetSessions + [session];
      }
      index := index + 1;
    }
    assert sessions[..index] == sessions;
    if actorSession.None? {
      return Err(SessionInvalid);
    }
    return Ok((actorSession.value, targetSessions));
  }

  /** `rows` lists what a ban locks: the administrator's session, and active sessions of the target. */
  ghost predicate BanRows(rows: seq<Session>, selected: map<Id, Session>, c: Call)
    requires c.ChangeStatus?
  {
    && Lists(IdsOf(rows), selected.Keys)
    && (forall k | 0 <= k < |rows| :: rows[k].id in selected && selected[rows[k].id] == rows[k])
    && (forall sid <- selected | sid != c.actorSessionId ::
          selected[sid].userId == c.targetId && selected[sid].revokedAt.None?)
  }

  lemma BanSelectsBanRows(all: map<Id, Session>, c: Call)
    requires c.ChangeStatus? && forall sid <- all :: all[sid].id == sid
    ensures var condition := Rows({c.actorSessionId}, {c.targetId});
      BanRows(SessionsInOrder(all, condition), SelectSessions(all, condition), c)
  {
    SelectedInOrder(all, Rows({c.actorSessionId}, {c.targetId}));
  }

  lemma ScanErrorOfBanRow(rows: seq<Session>, selected: map<Id, Session>, c: Call, k: nat)
    requires c.ChangeStatus? && BanRows(rows, selected, c) && k < |rows|
    ensures ScanError(rows, c.actorId, c.actorSessionId, c.targetId, k)
      == if !ValidSessionStructure(rows[k], rows[k].id) then Some(Internal)
         else if rows[k].id == c.actorSessionId && rows[k].userId != c.actorId then Some(SessionInvalid)
         else None
  {
  }

  lemma RowOfBan(rows: seq<Session>, selected: map<Id, Session>, c: Call, sid: Id) returns (k: nat)
    requires c.ChangeStatus? && BanRows(rows, selected, c) && sid in selected
    ensures k < |rows| && rows[k].id == sid && rows[k] == selected[sid]
  {
    assert sid in IdsOf(rows);
    k :| 0 <= k < |rows| && IdsOf(rows)[k] == sid;
  }

  /** Without an offending row, the verdict rests on the administrator's session alone. */
  lemma CleanScan(rows: seq<Session>, selected: map<Id, Session>, c: Call)
    requires c.ChangeStatus? && BanRows(rows, selected, c)
    requires forall k | 0 <= k < |rows| :: ScanError(rows, c.actorId, c.actorSessionId, c.targetId, k).None?
    ensures CheckAdminSessions(c, selected) == Need(c.actorSessionId in selected, SessionInvalid)
    ensures c.actorSessionId in selected <==> exists s <- rows :: s.id == c.actorSessionId
  {
    forall sid | sid in selected
      ensures ValidSessionStructure(selected[sid], sid)
      ensures sid == c.actorSessionId ==> selected[sid].userId == c.actorId && selected[sid] in rows
    {
      var k := RowOfBan(rows, selected, c, sid);
      ScanErrorOfBanRow(rows, selected, c, k);
    }
    if s :| s in rows && s.id == c.actorSessionId {
      var k :| 0 <= k < |rows| && rows[k] == s;
      assert rows[k].id in selected;
    }
  }

  /** The error of the first offending row is the verdict. */
  lemma FirstOffender(rows: seq<Session>, selected: map<Id, Session>, c: Call, k: nat)
    requires c.ChangeStatus? && BanRows(rows, selected, c) && k < |rows|
    requires ScanError(rows, c.actorId, c.actorSessionId, c.targetId, k).Some?
    requires forall j | 0 <= j < k :: ScanError(rows, c.actorId, c.actorSessionId, c.targetId, j).None?
    ensures CheckAdminSessions(c, selected) == Fail(ScanError(rows, c.actorId, c.actorSessionId, c.targetId, k).value)
  {
    var ids := IdsOf(rows);
    ScanErrorOfBanRow(rows, selected, c, k);
    assert rows[k].id in selected;
    if !ValidSessionStructure(rows[k], rows[k].id) {
      if c.actorSessionId in selected && selected[c.actorSessionId].userId != c.actorId {
        var j := RowOfBan(rows, selected, c, c.actorSessionId);
        ScanErrorOfBanRow(rows, selected, c, j);
        assert j >= k;
        assert k < j ==> ids[k] < ids[j];
      }
    } else {
      forall sid | sid in selected && sid <= c.actorSessionId
        ensures ValidSessionStructure(selected[sid], sid)
      {
        var j := RowOfBan(rows, selected, c, sid);
        assert j <= k;
        ScanErrorOfBanRow(rows, selected, c, j);
      }
    }
  }

  lemma FailedScan(rows: seq<Session>, selected: map<Id, Session>, c: Call, e: Error)
    requires c.ChangeStatus? && BanRows(rows, selected, c)
    requires ScanFails(rows, c.actorId, c.actorSessionId, c.targetId, e)
    ensures CheckAdminSessions(c, selected) == Fail(e)
  {
    if k: nat :| k < |rows| && Offends(rows, c.actorId, c.actorSessionId, c.targetId, k, e) {
      FirstOffender(rows, selected, c, k);
    } else {
      CleanScan(rows, selected, c);
    }
  }

  /** Scans what a ban has locked; yields the administrator's session and the ids of the target's. */
  method ScanBanRows(rows: seq<Session>, c: Call, ghost selected: map<Id, Session>)
    returns (r: Outcome<(Session, seq<Id>)>)
    requires c.ChangeStatus? && BanRows(rows, selected, c)
    ensures r.Ok? <==> CheckAdminSessions(c, selected) == Pass
    ensures r.Err? ==> CheckAdminSessions(c, selected) == Fail(r.error)
    ensures r.Ok? ==>
      && c.actorSessionId in selected && r.value.0 == selected[c.actorSessionId]
      && SetOf(r.value.1) == selected.Keys - {c.actorSessionId}
  {
    var scanned := ValidateAdministrativeSessionSet(rows, c.actorId, c.actorSessionId, c.targetId);
    if scanned.Err? {
      FailedScan(rows, selected, c, scanned.error);
      return Err(scanned.error);
    }
    assert forall k | 0 <= k < |rows| :: ScanError(rows, c.actorId, c.actorSessionId, c.targetId, k).None?;
    CleanScan(rows, selected, c);
    var ids := IdsOf(scanned.value.1);
    TargetIds(rows, selected, c, scanned.value.1);
    return Ok((scanned.value.0, ids));
  }

  /** Locks the sessions that a ban needs and scans them. */
  method LockBanSessions(repo: Repository, c: Call) returns (r: Outcome<(Session, seq<Id>)>)
    requires c.ChangeStatus? && Sound(repo.staged)
    modifies repo`faults, repo`failed
    ensures var selected := SelectSessions(repo.staged.sessions, Rows({c.actorSessionId}, {c.targetId}));
      if r.Ok? then
        && CheckAdminSessions(c, selected) == Pass
        && c.actorSessionId in selected && r.value.0 == selected[c.actorSessionId]
        && SetOf(r.value.1) == selected.Keys - {c.actorSessionId} && repo.failed == old(repo.failed)
      else
        (repo.failed && r == Err(Internal)) || CheckAdminSessions(c, selected) == Fail(r.error)
  {
    assert SetOf([c.actorSessionId]) == {c.actorSessionId} && SetOf([c.targetId]) == {c.targetId};
    var locked := repo.LockSessions([c.actorSessionId], [c.targetId]);
    if locked.Err? {
      return Err(Internal);
    }
    BanSelectsBanRows(repo.staged.sessions, c);
    r := ScanBanRows(locked.value, c, SelectSessions(repo.staged.sessions, Rows({c.actorSessionId}, {c.targetId})));
  }

  lemma TargetIds(rows: seq<Session>, selected: map<Id, Session>, c: Call, targets: seq<Session>)
    requires c.ChangeStatus? && BanRows(rows, selected, c)
    requires forall s :: s in targets <==> s in rows && s.id != c.actorSessionId
    ensures SetOf(IdsOf(targets)) == selected.Keys - {c.actorSessionId}
    ensures forall s <- rows :: s.id in selected && selected[s.id] == s
  {
    forall s | s in rows
      ensures s.id in selected && selected[s.id] == s
    {
      var k :| 0 <= k < |rows| && rows[k] == s;
    }
    forall sid
      ensures sid in IdsOf(targets) <==> sid in selected.Keys - {c.actorSessionId}
    {
      if sid in IdsOf(targets) {
        var k :| 0 <= k < |targets| && IdsOf(targets)[k] == sid;
        assert targets[k] in targets && targets[k] in rows;
      }
      if sid in selected.Keys - {c.actorSessionId} {
        var k := RowOfBan(rows, selected, c, sid);
        assert rows[k] in rows && rows[k] in targets;
        var j :| 0 <= j < |targets| && targets[j] == rows[k];
        assert IdsOf(targets)[j] == sid;
      }
    }
  }

  /** What the locks of a status change yield: its instant, the parties as read, and the ids of the
      target's locked sessions. */
  datatype Locked = Locked(now: Time, actor: User, target: Option<User>, targetSessions: seq<Id>)

  /** Locks the sessions that the call needs: for a ban the target's too. */
  method LockStatusSessions(repo: Repository, c: Call, target: Option<User>) returns (r: Outcome<(Session, seq<Id>)>)
    requires c.ChangeStatus? && Sound(repo.staged)
    requires target == if c.targetId in repo.staged.users then Some(repo.staged.users[c.targetId]) else None
    modifies repo`faults, repo`failed
    ensures var users := SelectUsers(repo.staged.users, UserIds(c));
      var sessions := SelectSessions(repo.staged.sessions, SessionCondition(c, users));
      if r.Ok? then
        && (ScansSessions(c, users) ==>
              CheckAdminSessions(c, sessions) == Pass && SetOf(r.value.1) == sessions.Keys - {c.actorSessionId})
        && c.actorSessionId in sessions && r.value.0 == sessions[c.actorSessionId] && repo.failed == old(repo.failed)
      else
        || (repo.failed && r == Err(Internal))
        || (if ScansSessions(c, users) then CheckAdminSessions(c, sessions) == Fail(r.error)
            else c.actorSessionId !in sessions && r == Err(SessionInvalid))
  {
    var banIsDone := target.Some? && target.value.status.Banned? && target.value.mutedUntil.None?;
    if c.newStatus.Banned? && !banIsDone {
      r := LockBanSessions(repo, c);
    } else {
      OneSessionSelected(repo.staged.sessions, c.actorSessionId);
      var locked := repo.LockSession(c.actorSessionId);
      if locked.Err? {
        return Err(if locked.error.NotFound? then SessionInvalid else Internal);
      }
      return Ok((locked.value, []));
    }
  }

  /** The locks of a status change, and the checks up to the actor's row. */
  method LockForStatus(repo: Repository, cfg: Config, c: Call, clock: Time) returns (r: Outcome<Locked>)
    requires c.ChangeStatus? && c.actorId != c.targetId && Sound(repo.staged)
    modifies repo`faults, repo`failed
    ensures var users := SelectUsers(repo.staged.users, UserIds(c));
      var sessions := SelectSessions(repo.staged.sessions, SessionCondition(c, users));
      var decision := CheckActor(cfg, c, clock, users, sessions);
      if r.Ok? then
        && decision == Ok((r.value.now, r.value.actor))
        && r.value.target == (if c.targetId in users then Some(users[c.targetId]) else None)
        && (ScansSessions(c, users) ==> SetOf(r.value.targetSessions) == sessions.Keys - {c.actorSessionId})
        && repo.failed == old(repo.failed)
      else
        decision == Err(r.error) || (repo.failed && r == Err(Internal))
  {
    var parties := LockParties(repo, c.actorId, c.targetId);
    if parties.Err? {
      return Err(parties.error);
    }
    var actor, target := parties.value.0, parties.value.1;
    var locked := LockStatusSessions(repo, c, target);
    if locked.Err? {
      return Err(locked.error);
    }
    var session := locked.value.0;
    var sampled := SampleNow(clock);
    if sampled.Err? {
      return Err(sampled.error);
    }
    var now := sampled.value;
    if c.newStatus.Muted? && !(c.mutedUntil.Some? && NormalizeTime(c.mutedUntil.value) > now) {
      return Err(ValidationFailed);
    }
    if !ValidSessionStructure(session, c.actorSessionId) || session.userId != c.actorId || session.revokedAt.Some?
       || NormalizeTime(session.expiresAt) <= now {
      return Err(SessionInvalid);
    }
    if !ValidUserStructure(cfg, actor, c.actorId, false) {
      return Err(Internal);
    }
    return Ok(Locked(now, actor, target, locked.value.1));
  }

  /** Ends a mute that is over, and leaves any other user alone. */
  method RecoverIfOver(repo: Repository, user: User, now: Time, requestId: string)
    returns (r: Outcome<(User, seq<AuditEntry>)>)
    requires user.id in repo.staged.users && repo.staged.users[user.id] == user && UserRowOk(user)
    modifies repo`staged, repo`faults, repo`failed
    ensures r.Ok? ==>
      && r == RecoverUser(user, now, requestId) && repo.failed == old(repo.failed)
      && repo.staged == old(repo.staged).(users := old(repo.staged).users[user.id := r.value.0])
    ensures r.Err? ==> r == Err(Internal) && (repo.failed || RecoverUser(user, now, requestId) == Err(Internal))
  {
    if MuteIsOver(user, now) {
      r := RecoverForAuth(repo, user, now, requestId);
    } else {
      assert repo.staged.users[user.id := user] == repo.staged.users;
      r := Ok((user, []));
    }
  }

  lemma RecoveredIsValid(cfg: Config, user: User, id: Id, now: Time, requestId: string)
    requires ValidUserStructure(cfg, user, id, false) && ValidAuthTime(now) && RecoverUser(user, now, requestId).Ok?
    ensures var r := RecoverUser(user, now, requestId).value;
      && ValidUserStructure(cfg, r.0, id, false) && r.0.deletedAt == user.deletedAt
      && |r.1| <= 1 && forall e <- r.1 :: e.targetId == id
  {
  }

  /** The checks on the target before its recovery. */
  method CheckTarget(cfg: Config, target: User, targetId: Id) returns (check: Check)
    requires UserRowOk(target)
    ensures check == (
      if target.deletedAt.Some? then Fail(InvalidStatusTransition)
      else if target.role == RoleAdmin then Fail(AdminTargetForbidden)
      else Need(ValidUserStructure(cfg, target, targetId, false), Internal))
  {
    if target.deletedAt.Some? {
      return Fail(InvalidStatusTransition);
    }
    match target.role {
      case RoleAdmin => return Fail(AdminTargetForbidden);
      case RoleUser =>
    }
    match target.status {
      case Deleted => return Fail(Internal);
      case _ =>
    }
    return Need(ValidUserStructure(cfg, target, targetId, false), Internal);
  }

  /** Recovers the actor, then the target, each with the checks that go with it. */
  method RecoverParties(repo: Repository, cfg: Config, c: Call, l: Locked, ghost users: map<Id, User>)
    returns (r: Outcome<StatusPlan>)
    requires c.ChangeStatus? && c.actorId != c.targetId && Sound(repo.staged)
    requires users == SelectUsers(repo.staged.users, UserIds(c)) && c.actorId in users && l.actor == users[c.actorId]
    requires l.target == if c.targetId in users then Some(users[c.targetId]) else None
    requires ValidAuthTime(l.now)
    modifies repo`staged, repo`faults, repo`failed
    ensures var decision := PlanStatus(cfg, c, l.now, l.actor, users);
      if r.Ok? then
        && r == decision && repo.failed == old(repo.failed)
        && repo.staged == old(repo.staged).(
             users := old(repo.staged).users[c.actorId := r.value.actor][c.targetId := r.value.target])
      else
        decision == Err(r.error) || (repo.failed && r == Err(Internal))
  {
    var ofActor := RecoverIfOver(repo, l.actor, l.now, c.requestId);
    if ofActor.Err? {
      return Err(Internal);
    }
    var check := CheckStatusActor(ofActor.value.0);
    if check.Fail? {
      return Err(check.error);
    }
    if l.target.None? {
      return Err(UserNotFound);
    }
    var target := l.target.value;
    check := CheckTarget(cfg, target, c.targetId);
    if check.Fail? {
      return Err(check.error);
    }
    var ofTarget := RecoverIfOver(repo, target, l.now, c.requestId);
    if ofTarget.Err? {
      return Err(Internal);
    }
    RecoveredIsValid(cfg, target, c.targetId, l.now, c.requestId);
    if !ValidUserStructure(cfg, ofTarget.value.0, c.targetId, false) {
      return Err(Internal);
    }
    return Ok(StatusPlan(l.now, ofActor.value.0, ofActor.value.1, ofTarget.value.0, ofTarget.value.1));
  }

  predicate ValidStatusResult(cfg: Config, c: Call, updated: User, previous: User, now: Time)
    requires c.ChangeStatus?
  {
    && ValidUserStructure(cfg, updated, previous.id, false) && updated.passwordHash == previous.passwordHash
    && updated.email == previous.email && updated.displayName == previous.displayName && updated.bio == previous.bio
    && updated.role == previous.role && updated.violationCount == previous.violationCount
    && updated.createdAt == previous.createdAt
    && updated.status == c.newStatus && updated.mutedUntil == WantedUntil(c) && updated.updatedAt == now
  }

  lemma ChangedRowIsValid(cfg: Config, c: Call, p: StatusPlan)
    requires c.ChangeStatus? && Precheck(cfg, c) == Pass && ValidAuthTime(p.now)
    requires ValidUserStructure(cfg, p.target, c.targetId, false) && p.target.deletedAt.None?
    requires UserRowOk(ChangedRow(c, p))
    ensures ValidStatusResult(cfg, c, ChangedRow(c, p), p.target, p.now)
  {
  }

  /** Writes the new status and checks the returned row; on a faithful repository the check holds. */
  method WriteStatus(repo: Repository, cfg: Config, c: Call, p: StatusPlan) returns (r: Outcome<User>)
    requires c.ChangeStatus? && Precheck(cfg, c) == Pass && ValidAuthTime(p.now)
    requires ValidUserStructure(cfg, p.target, c.targetId, false) && p.target.deletedAt.None?
    requires c.targetId in repo.staged.users && repo.staged.users[c.targetId] == p.target
    modifies repo`staged, repo`faults, repo`failed
    ensures r.Ok? ==>
      && r.value == ChangedRow(c, p) && UserRowOk(ChangedRow(c, p)) && repo.failed == old(repo.failed)
      && ValidUserStructure(cfg, r.value, c.targetId, false)
      && repo.staged == old(repo.staged).(users := old(repo.staged).users[c.targetId := ChangedRow(c, p)])
    ensures r.Err? ==> r == Err(Internal) && (repo.failed || !UserRowOk(ChangedRow(c, p)))
  {
    var mutation := NoMutation(p.target.id).(
      status := Set(c.newStatus), mutedUntil := Set(WantedUntil(c)), updatedAt := Set(p.now));
    var updated := repo.UpdateUser(mutation);
    if updated.Err? {
      return Err(Internal);
    }
    ChangedRowIsValid(cfg, c, p);
    if !ValidStatusResult(cfg, c, updated.value, p.target, p.now) {
      return Err(Internal);
    }
    return updated;
  }

  /** Writes the pending entries of both parties in ascending order of target. */
  method InsertPendingAudits(repo: Repository, ofActor: seq<AuditEntry>, ofTarget: seq<AuditEntry>, ghost c: Call)
    returns (ok: bool)
    requires c.ChangeStatus? && c.actorId != c.targetId && |ofActor| <= 1 && |ofTarget| <= 1
    requires (forall e <- ofActor :: e.targetId == c.actorId) && (forall e <- ofTarget :: e.targetId == c.targetId)
    modifies repo`staged, repo`faults, repo`failed
    ensures ok ==>
      && repo.staged == old(repo.staged).(audits := old(repo.staged).audits + InTargetOrder(c, ofActor, ofTarget))
      && repo.failed == old(repo.failed)
    ensures !ok ==> repo.failed
  {
    var entries := ofActor + ofTarget;
    var pending := new AuditEntry[|entries|](i requires 0 <= i < |entries| => entries[i]);
    assert pending[..] == entries;
    SortByTarget(pending);
    PendingInTargetOrder(c, ofActor, ofTarget);
    ok := InsertAudits(repo, pending[..]);
  }

  /** The plan as the recoveries of both parties made it. */
  ghost predicate PlanFits(cfg: Config, c: Call, p: StatusPlan, was: Db, sessions: map<Id, Session>, ids: seq<Id>)
    requires c.ChangeStatus?
  {
    && c.actorId != c.targetId && ValidAuthTime(p.now)
    && ValidUserStructure(cfg, p.target, c.targetId, false) && p.target.deletedAt.None?
    && |p.actorAudit| <= 1 && |p.targetAudit| <= 1
    && (forall e <- p.actorAudit :: e.targetId == c.actorId) && (forall e <- p.targetAudit :: e.targetId == c.targetId)
    && sessions.Keys <= was.sessions.Keys && (forall sid <- sessions :: sessions[sid] == was.sessions[sid])
    && (c.newStatus.Banned? && !(p.target.status.Banned? && p.target.mutedUntil.None?) ==>
          && SetOf(ids) == sessions.Keys - {c.actorSessionId}
          && forall sid <- sessions | sid != c.actorSessionId :: sessions[sid].revokedAt.None?)
  }

  /** Writes the change: the row, the revocations of a ban, the pending entries and the entry of the change. */
  method WriteChange(repo: Repository, cfg: Config, c: Call, p: StatusPlan, ids: seq<Id>,
                     ghost was: Db, ghost sessions: map<Id, Session>) returns (r: Outcome<User>)
    requires c.ChangeStatus? && Precheck(cfg, c) == Pass && PlanFits(cfg, c, p, was, sessions, ids)
    requires !(p.target.status == c.newStatus && p.target.mutedUntil == WantedUntil(c))
    requires repo.staged == was.(users := was.users[c.actorId := p.actor][c.targetId := p.target])
    modifies repo`staged, repo`faults, repo`failed
    ensures var delta := ChangeDelta(c, p, sessions);
      if r.Ok? then
        && r.value == ChangedRow(c, p) && UserRowOk(r.value) && AllRowsOk(delta.sessions)
        && repo.failed == old(repo.failed)
        && ValidUserStructure(cfg, r.value, c.targetId, false)
        && repo.staged == Apply(was, delta)
      else
        r == Err(Internal) && (repo.failed || !UserRowOk(ChangedRow(c, p)) || !AllRowsOk(delta.sessions))
  {
    var updated := WriteStatus(repo, cfg, c, p);
    if updated.Err? {
      return Err(Internal);
    }
    ghost var selected := sessions - {c.actorSessionId};
    if c.newStatus.Banned? && |ids| > 0 {
      var revoked := RevokeSelected(repo, ids, p.now, selected);
      if !revoked {
        return Err(Internal);
      }
    } else if c.newStatus.Banned? {
      NothingRevoked(was.sessions, selected, ids, p.now);
    }
    var pending := InsertPendingAudits(repo, p.actorAudit, p.targetAudit, c);
    if !pending {
      return Err(Internal);
    }
    var entry := StatusEntry(c, p.target, updated.value, p.now);
    var inserted := repo.InsertAudit(entry);
    if inserted.Err? {
      return Err(Internal);
    }
    ChangeApplied(c, p, was, sessions);
    return updated;
  }

  lemma ChangeApplied(c: Call, p: StatusPlan, was: Db, sessions: map<Id, Session>)
    requires c.ChangeStatus?
    ensures Apply(was, ChangeDelta(c, p, sessions)) == Db(
      was.users[c.actorId := p.actor][c.targetId := ChangedRow(c, p)],
      if c.newStatus.Banned? then was.sessions + RevokeAll(sessions - {c.actorSessionId}, p.now) else was.sessions,
      was.audits + InTargetOrder(c, p.actorAudit, p.targetAudit) + [StatusEntry(c, p.target, ChangedRow(c, p), p.now)])
  {
    var row := ChangedRow(c, p);
    assert was.users + map[c.actorId := p.actor, c.targetId := row]
        == was.users[c.actorId := p.actor][c.targetId := row];
    assert was.sessions + map[] == was.sessions;
  }

  lemma NothingRevoked(all: map<Id, Session>, selected: map<Id, Session>, ids: seq<Id>, at: Time)
    requires |ids| == 0 && SetOf(ids) == selected.Keys
    ensures RevokeAll(selected, at) == map[] && all + RevokeAll(selected, at) == all
  {
  }

  predicate ChangesNothing(c: Call, target: User)
    requires c.ChangeStatus?
  {
    target.status == c.newStatus && target.mutedUntil == WantedUntil(c)
  }

  /** A target that already has the wanted standing: only the pending entries are written. */
  method KeepStatus(repo: Repository, cfg: Config, c: Call, p: StatusPlan, ids: seq<Id>,
                    ghost was: Db, ghost sessions: map<Id, Session>) returns (r: Outcome<Reply>)
    requires c.ChangeStatus? && PlanFits(cfg, c, p, was, sessions, ids) && ChangesNothing(c, p.target)
    requires repo.staged == was.(users := was.users[c.actorId := p.actor][c.targetId := p.target])
    modifies repo`staged, repo`faults, repo`failed
    ensures Drafted(was, repo.staged, CompleteStatus(c, p, sessions), r, repo.failed)
    ensures r.Ok? ==> r.value.Viewed? && ValidUserStructure(cfg, r.value.user, c.targetId, true)
  {
    var pending := InsertPendingAudits(repo, p.actorAudit, p.targetAudit, c);
    if !pending {
      return Err(Internal);
    }
    assert repo.staged.users == was.users + map[c.actorId := p.actor, c.targetId := p.target];
    assert repo.staged.sessions == was.sessions + map[];
    return Ok(Viewed(SecretFree(p.target)));
  }

  /** The rest of a status change, once both parties are recovered. */
  method CompleteChange(repo: Repository, cfg: Config, c: Call, p: StatusPlan, ids: seq<Id>,
                        ghost was: Db, ghost sessions: map<Id, Session>) returns (r: Outcome<Reply>)
    requires c.ChangeStatus? && Precheck(cfg, c) == Pass && PlanFits(cfg, c, p, was, sessions, ids)
    requires repo.staged == was.(users := was.users[c.actorId := p.actor][c.targetId := p.target])
    modifies repo`staged, repo`faults, repo`failed
    ensures Drafted(was, repo.staged, CompleteStatus(c, p, sessions), r, repo.failed)
    ensures r.Ok? ==> r.value.Viewed? && ValidUserStructure(cfg, r.value.user, c.targetId, true)
  {
    if ChangesNothing(c, p.target) {
      r := KeepStatus(repo, cfg, c, p, ids, was, sessions);
      return;
    }
    if !ValidAdminTransition(p.target.status, c.newStatus) {
      return Err(InvalidStatusTransition);
    }
    var changed := WriteChange(repo, cfg, c, p, ids, was, sessions);
    if changed.Err? {
      return Err(Internal);
    }
    return Ok(Viewed(SecretFree(changed.value)));
  }

  /** What the checks of a status change establish for its completion. */
  lemma PlannedFits(cfg: Config, c: Call, clock: Time, db: Db, ids: seq<Id>)
    requires c.ChangeStatus? && c.actorId != c.targetId && Sound(db)
    requires var users := SelectUsers(db.users, UserIds(c));
      var sessions := SelectSessions(db.sessions, SessionCondition(c, users));
      && AdmitStatus(cfg, c, clock, users, sessions).Ok?
      && (ScansSessions(c, users) ==> SetOf(ids) == sessions.Keys - {c.actorSessionId})
    ensures var users := SelectUsers(db.users, UserIds(c));
      var sessions := SelectSessions(db.sessions, SessionCondition(c, users));
      PlanFits(cfg, c, AdmitStatus(cfg, c, clock, users, sessions).value, db, sessions, ids)
  {
    var users := SelectUsers(db.users, UserIds(c));
    var sessions := SelectSessions(db.sessions, SessionCondition(c, users));
    StatusAdmitted(cfg, c, clock, users, sessions);
    BanSelection(db, c, users);
    PlanOfRecoveries(cfg, c, AdmitStatus(cfg, c, clock, users, sessions).value, users[c.actorId], users[c.targetId]);
  }

  /** The sessions that a status change has locked: apart from the actor's, active ones of the target. */
  lemma BanSelection(db: Db, c: Call, users: map<Id, User>)
    requires Sound(db) && c.ChangeStatus?
    ensures var sessions := SelectSessions(db.sessions, SessionCondition(c, users));
      && sessions.Keys <= db.sessions.Keys && (forall sid <- sessions :: sessions[sid] == db.sessions[sid])
      && forall sid <- sessions | sid != c.actorSessionId :: sessions[sid].revokedAt.None?
  {
  }

  lemma PlanOfRecoveries(cfg: Config, c: Call, p: StatusPlan, actor: User, target: User)
    requires c.ChangeStatus?
    requires UserRowOk(actor) && actor.id == c.actorId && UserRowOk(target) && target.id == c.targetId
    requires RecoverUser(actor, p.now, c.requestId) == Ok((p.actor, p.actorAudit))
    requires RecoverUser(target, p.now, c.requestId) == Ok((p.target, p.targetAudit))
    requires ValidUserStructure(cfg, target, c.targetId, false) && target.deletedAt.None? && ValidAuthTime(p.now)
    ensures ValidUserStructure(cfg, p.target, c.targetId, false) && p.target.deletedAt.None?
    ensures |p.actorAudit| <= 1 && forall e <- p.actorAudit :: e.targetId == c.actorId
    ensures |p.targetAudit| <= 1 && forall e <- p.targetAudit :: e.targetId == c.targetId
    ensures p.target.status.Banned? && p.target.mutedUntil.None? <==> target.status.Banned? && target.mutedUntil.None?
  {
    RecoveredIsValid(cfg, target, c.targetId, p.now, c.requestId);
  }

  /** The locks, the checks and the writes of a status change. */
  method ChangeStatusBody(repo: Repository, cfg: Config, c: Call, clock: Time) returns (r: Outcome<Reply>)
    requires c.ChangeStatus? && Precheck(cfg, c) == Pass && Sound(repo.staged)
    modifies repo`staged, repo`faults, repo`failed
    ensures var users := SelectUsers(old(repo.staged).users, UserIds(c));
      var sessions := SelectSessions(old(repo.staged).sessions, SessionCondition(c, users));
      Drafted(old(repo.staged), repo.staged, DecideChangeStatus(cfg, c, Env(clock, 0, []), users, sessions),
              r, repo.failed)
    ensures r.Ok? ==> r.value.Viewed? && ValidUserStructure(cfg, r.value.user, c.targetId, true)
  {
    ghost var was := repo.staged;
    ghost var users := SelectUsers(was.users, UserIds(c));
    ghost var sessions := SelectSessions(was.sessions, SessionCondition(c, users));
    var locked := LockForStatus(repo, cfg, c, clock);
    if locked.Err? {
      return Err(locked.error);
    }
    CheckedActorFacts(cfg, c, clock, users, sessions);
    var plan := RecoverParties(repo, cfg, c, locked.value, users);
    if plan.Err? {
      return Err(plan.error);
    }
    PlannedFits(cfg, c, clock, was, locked.value.targetSessions);
    r := CompleteChange(repo, cfg, c, plan.value, locked.value.targetSessions, was, sessions);
  }

  lemma CheckedActorFacts(cfg: Config, c: Call, clock: Time, users: map<Id, User>, sessions: map<Id, Session>)
    requires c.ChangeStatus? && CheckActor(cfg, c, clock, users, sessions).Ok?
    ensures var (now, actor) := CheckActor(cfg, c, clock, users, sessions).value;
      c.actorId in users && actor == users[c.actorId] && ValidAuthTime(now)
  {
  }

  /** A status change by an administrator: one transaction. The check after the commit never fails. */
  method ChangeUserStatus(repo: Repository, cfg: Config, c: Call, clock: Time) returns (r: Outcome<Reply>)
    requires c.ChangeStatus? && Sound(repo.committed) && !repo.failed
    modifies repo
    ensures Carried(cfg, old(repo.committed), repo.committed, c, Env(clock, 0, []), r, repo.failed)
  {
    if c.actorId <= 0 || c.actorSessionId <= 0 || c.targetId <= 0 {
      return Err(SessionInvalid);
    }
    if c.actorId == c.targetId {
      return Err(AdminTargetForbidden);
    }
    if |c.reason| > 1000 || !ValidAdminStatus(c.newStatus) {
      return Err(ValidationFailed);
    }
    if c.newStatus.Muted? {
      if c.mutedUntil.None? || !ValidAuthTime(c.mutedUntil.value) {
        return Err(ValidationFailed);
      }
    } else if c.mutedUntil.Some? {
      return Err(ValidationFailed);
    }
    var begun := repo.Begin();
    if !begun {
      return Err(Internal);
    }
    ghost var users := SelectUsers(repo.staged.users, UserIds(c));
    ghost var sessions := SelectSessions(repo.staged.sessions, SessionCondition(c, users));
    r := ChangeStatusBody(repo, cfg, c, clock);
    r := repo.Finish(r);
    if r.Err? {
      StatusErrorIsPassedOn(cfg, c, Env(clock, 0, []), users, sessions);
      return Err(Classified(c, r.error));
    }
    if !ValidUserStructure(cfg, r.value.user, c.targetId, true) {
      return Err(Internal);
    }
  }

  lemma StatusErrorIsPassedOn(cfg: Config, c: Call, env: Env, users: map<Id, User>, sessions: map<Id, Session>)
    requires c.ChangeStatus?
    ensures var d := DecideChangeStatus(cfg, c, env, users, sessions);
      d.Err? ==> Classified(c, d.error) == d.error
  {
    if Decide(cfg, c, env, users, sessions).Err? {
      ClassificationIsIdentity(cfg, c, env, users, sessions);
    }
  }
}
