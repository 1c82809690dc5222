/** The verdict of each call that commits, in full: the rows it found and the difference it leaves. */
module Verdicts {
  import opened Wrappers
  import opened Domain
  import opened Database
  import opened Protocol

  /** The row with a mute that is over ended, and otherwise as it was. */
  function Unmuted(u: User, now: Time): User {
    if MuteIsOver(u, now) then u.(status := Active, mutedUntil := None, updatedAt := now) else u
  }

  /** The entries that go with `Unmuted`. */
  function ExpiryEntries(u: User, now: Time, requestId: string): seq<AuditEntry> {
    if MuteIsOver(u, now) then [MuteExpiredEntry(u, now, requestId)] else []
  }

  /** The session is the user's own, not revoked, and has not run out by whole seconds. */
  ghost predicate Usable(db: Db, userId: Id, sid: Id, now: Time) {
    && sid in db.sessions && db.sessions[sid].userId == userId && db.sessions[sid].revokedAt.None?
    && NormalizeTime(db.sessions[sid].expiresAt) > now
  }

  lemma RecoveryUnmutes(u: User, now: Time, requestId: string)
    requires UserRowOk(u)
    ensures RecoverUser(u, now, requestId)
      == if UserRowOk(Unmuted(u, now)) then Ok((Unmuted(u, now), ExpiryEntries(u, now, requestId))) else Err(Internal)
  {
  }

  /** The decision behind a call that commits. */
  lemma CommitDecides(cfg: Config, db: Db, c: Call, env: Env, v: Verdict)
    requires Exec(cfg, db, c, env) == Ok(v)
    ensures Precheck(cfg, c) == Pass && Admit(db, c, env) == Pass
    ensures var users := SelectUsers(db.users, UserIds(c));
      Decide(cfg, c, env, users, SelectSessions(db.sessions, SessionCondition(c, users))) == Ok(v)
  {
  }

  lemma RegisterVerdict(cfg: Config, db: Db, c: Call, env: Env, v: Verdict)
    requires c.Register? && Exec(cfg, db, c, env) == Ok(v)
    ensures var now := NormalizeTime(env.clock);
      var u := NewUserRow(env.freshId, c.email, c.passwordHash, c.displayName, now);
      && UserRowOk(u) && !EmailTaken(db, c.email) && env.freshId !in db.users
      && v == Verdict(Delta(map[env.freshId := u], map[], []), Registered(SecretFree(u)))
  {
  }

  /** The session that a login opens. */
  function OpenedSession(cfg: Config, c: Call, env: Env): Session
    requires c.Login?
  {
    var now := NormalizeTime(env.clock);
    Session(env.freshId, c.userId, env.hash, NormalizeTime(now + cfg.refreshTTL), None, now)
  }

  lemma LoginVerdict(cfg: Config, db: Db, c: Call, env: Env, v: Verdict)
    requires Sound(db) && c.Login? && Exec(cfg, db, c, env) == Ok(v)
    ensures c.userId in db.users && env.freshId !in db.sessions
    ensures var now, u, s := NormalizeTime(env.clock), db.users[c.userId], OpenedSession(cfg, c, env);
      && u.status.CanLogin() && UserRowOk(Unmuted(u, now)) && SessionRowOk(s)
      && ValidAuthTime(env.clock) && ValidExpiry(now, s.expiresAt)
      && v.delta == Delta(map[c.userId := Unmuted(u, now)], map[env.freshId := s], ExpiryEntries(u, now, c.requestId))
      && v.reply == LoggedIn(
           MakeGrant(c.userId, env.freshId, now, Earlier(s.expiresAt, NormalizeTime(now + cfg.accessTTL))),
           env.hash, s.expiresAt, SecretFree(Unmuted(u, now)))
  {
    RecoveryUnmutes(db.users[c.userId], NormalizeTime(env.clock), c.requestId);
  }

  lemma RefreshVerdict(cfg: Config, db: Db, c: Call, env: Env, v: Verdict)
    requires Sound(db) && c.Refresh? && Exec(cfg, db, c, env) == Ok(v)
    ensures c.ownerId in db.users && Usable(db, c.ownerId, c.sessionId, NormalizeTime(env.clock))
    ensures var now, u, s := NormalizeTime(env.clock), db.users[c.ownerId], db.sessions[c.sessionId];
      var rotated := s.(tokenHash := env.hash);
      && u.status.CanLogin() && UserRowOk(Unmuted(u, now))
      && s.tokenHash == c.candidate && SessionRowOk(rotated)
      && InYearRange(now) && ValidExpiry(now, NormalizeTime(s.expiresAt))
      && v.delta == Delta(map[c.ownerId := Unmuted(u, now)], map[c.sessionId := rotated],
                          ExpiryEntries(u, now, c.requestId))
      && v.reply == Refreshed(
           MakeGrant(c.ownerId, c.sessionId, now,
                     Earlier(NormalizeTime(s.expiresAt), NormalizeTime(now + cfg.accessTTL))),
           env.hash, NormalizeTime(s.expiresAt))
  {
    RecoveryUnmutes(db.users[c.ownerId], NormalizeTime(env.clock), c.requestId);
  }

  lemma LogoutVerdict(cfg: Config, db: Db, c: Call, env: Env, v: Verdict)
    requires c.Logout? && Exec(cfg, db, c, env) == Ok(v)
    ensures var selected := SelectSessions(db.sessions, OwnActive(c.sessionId, c.userId));
      var revoked := RevokeAll(selected, NormalizeTime(env.clock));
      && (forall sid <- revoked :: SessionRowOk(revoked[sid]))
      && v == Verdict(Delta(map[], revoked, []), LoggedOut)
  {
  }

  lemma RecoverMuteVerdict(cfg: Config, db: Db, c: Call, env: Env, v: Verdict)
    requires Sound(db) && c.RecoverMute? && Exec(cfg, db, c, env) == Ok(v)
    ensures c.userId in db.users
    ensures var u := db.users[c.userId];
      && UserRowOk(Unmuted(u, c.now))
      && v == Verdict(Delta(map[c.userId := Unmuted(u, c.now)], map[], ExpiryEntries(u, c.now, c.requestId)),
                      Viewed(SecretFree(Unmuted(u, c.now))))
  {
    RecoveryUnmutes(db.users[c.userId], c.now, c.requestId);
  }

  lemma UpdateMeVerdict(cfg: Config, db: Db, c: Call, env: Env, v: Verdict)
    requires Sound(db) && c.UpdateMe? && Exec(cfg, db, c, env) == Ok(v)
    ensures c.userId in db.users && Usable(db, c.userId, c.sessionId, NormalizeTime(env.clock))
    ensures var now, u := NormalizeTime(env.clock), db.users[c.userId];
      var edited := Edited(Unmuted(u, now), c.newName, c.newBio, now);
      && Unmuted(u, now).status.CanEditProfile() && UserRowOk(Unmuted(u, now)) && UserRowOk(edited)
      && v == Verdict(Delta(map[c.userId := edited], map[], ExpiryEntries(u, now, c.requestId)),
                      Viewed(SecretFree(edited)))
  {
    RecoveryUnmutes(db.users[c.userId], NormalizeTime(env.clock), c.requestId);
  }

  ghost predicate AllRowsOk(sessions: map<Id, Session>) {
    forall sid <- sessions :: SessionRowOk(sessions[sid])
  }

  lemma DeleteAdmitted(cfg: Config, c: Call, clock: Time, users: map<Id, User>, sessions: map<Id, Session>)
    requires c.DeleteMe? && AdmitDelete(cfg, c, clock, users, sessions).Ok?
    ensures c.userId in users && c.sessionId in sessions
    ensures var now := NormalizeTime(clock);
      && AdmitDelete(cfg, c, clock, users, sessions).value == OwnerPlan(users[c.userId], now)
      && NormalizeTime(sessions[c.sessionId].expiresAt) > now
      && StrictUserCheck(cfg, users[c.userId], c.userId, false) == Pass
  {
  }

  lemma DeleteCompleted(c: Call, p: OwnerPlan, sessions: map<Id, Session>, v: Verdict)
    requires c.DeleteMe? && UserRowOk(p.user) && CompleteDelete(c, p, sessions) == Ok(v)
    ensures var was, revoked := Unmuted(p.user, p.now), RevokeAll(sessions, p.now);
      && !was.status.Frozen? && UserRowOk(was) && UserRowOk(DeletedRow(was, p.now)) && AllRowsOk(revoked)
      && v == Verdict(
           Delta(map[c.userId := DeletedRow(was, p.now)], revoked, ExpiryEntries(p.user, p.now, c.requestId)),
           AccountDeleted)
  {
    RecoveryUnmutes(p.user, p.now, c.requestId);
  }

  lemma StrictUserMayDelete(cfg: Config, u: User, id: Id, now: Time)
    requires StrictUserCheck(cfg, u, id, false) == Pass && !Unmuted(u, now).status.Frozen?
    ensures Unmuted(u, now).status.CanDeleteAccount() && Unmuted(u, now).status.CanEditProfile()
  {
  }

  lemma DeleteMeVerdict(cfg: Config, db: Db, c: Call, env: Env, v: Verdict)
    requires Sound(db) && c.DeleteMe? && Exec(cfg, db, c, env) == Ok(v)
    ensures c.userId in db.users && Usable(db, c.userId, c.sessionId, NormalizeTime(env.clock))
    ensures var now, u := NormalizeTime(env.clock), db.users[c.userId];
      var was, revoked := Unmuted(u, now), RevokeAll(SelectSessions(db.sessions, Rows({}, {c.userId})), now);
      && was.status.CanDeleteAccount() && UserRowOk(was) && UserRowOk(DeletedRow(was, now)) && AllRowsOk(revoked)
      && v == Verdict(Delta(map[c.userId := DeletedRow(was, now)], revoked, ExpiryEntries(u, now, c.requestId)),
                      AccountDeleted)
  {
    var users := SelectUsers(db.users, {c.userId});
    var sessions := SelectSessions(db.sessions, Rows({}, {c.userId}));
    CommitDecides(cfg, db, c, env, v);
    DeleteAdmitted(cfg, c, env.clock, users, sessions);
    DeleteCompleted(c, OwnerPlan(users[c.userId], NormalizeTime(env.clock)), sessions, v);
    StrictUserMayDelete(cfg, users[c.userId], c.userId, NormalizeTime(env.clock));
  }

  lemma PromoteVerdict(cfg: Config, db: Db, c: Call, env: Env, v: Verdict)
    requires c.Promote? && Exec(cfg, db, c, env) == Ok(v)
    ensures c.userId in db.users
    ensures var u := db.users[c.userId];
      var promoted := u.(role := RoleAdmin, updatedAt := NormalizeTime(env.clock));
      && u.role == RoleUser && u.status.Active? && UserRowOk(promoted)
      && v == Verdict(Delta(map[c.userId := promoted], map[], []), Promoted)
  {
  }

  /** What a committed status change did: both rows recovered, then either nothing more or the change. */
  datatype StatusChange = StatusChange(
    now: Time, actor: User, actorAudit: seq<AuditEntry>, target: User, targetAudit: seq<AuditEntry>, changed: bool)

  ghost predicate ShapedAs(db: Db, c: Call, d: Delta, w: StatusChange)
    requires c.ChangeStatus?
  {
    && c.actorId in db.users && c.targetId in db.users && c.actorId != c.targetId
    && c.actorSessionId in db.sessions
    && (var s := db.sessions[c.actorSessionId];
        s.userId == c.actorId && s.revokedAt.None? && s.expiresAt > w.now)
    && RecoverUser(db.users[c.actorId], w.now, c.requestId) == Ok((w.actor, w.actorAudit))
    && RecoverUser(db.users[c.targetId], w.now, c.requestId) == Ok((w.target, w.targetAudit))
    && CheckStatusActor(w.actor) == Pass
    && (c.newStatus.Muted? ==> WantedUntil(c).Some? && WantedUntil(c).value > w.now)
    && !db.users[c.targetId].status.Deleted?
    && w.target.role == RoleUser
    && (var pending := InTargetOrder(c, w.actorAudit, w.targetAudit);
        if !w.changed then d == Delta(map[c.actorId := w.actor, c.targetId := w.target], map[], pending)
        else
          var after := w.target.(status := c.newStatus, mutedUntil := WantedUntil(c), updatedAt := w.now);
          && ValidAdminTransition(w.target.status, c.newStatus) && ValidAdminStatus(c.newStatus)
          && UserRowOk(after)
          && d.users == map[c.actorId := w.actor, c.targetId := after]
          && d.audits == pending + [StatusEntry(c, w.target, after, w.now)]
          && (forall sid <- d.sessions ::
                && sid in db.sessions && sid != c.actorSessionId
                && db.sessions[sid].userId == c.targetId && db.sessions[sid].revokedAt.None?
                && d.sessions[sid] == db.sessions[sid].(revokedAt := Some(w.now))
                && SessionRowOk(d.sessions[sid]))
          && (!c.newStatus.Banned? ==> d.sessions == map[])
          && (after.status.Banned? && !w.target.status.Banned? ==>
                forall sid <- db.sessions ::
                  db.sessions[sid].userId == c.targetId && db.sessions[sid].revokedAt.None? ==> sid in d.sessions))
  }

  lemma StatusAdmitted(cfg: Config, c: Call, clock: Time, users: map<Id, User>, sessions: map<Id, Session>)
    requires c.ChangeStatus? && AdmitStatus(cfg, c, clock, users, sessions).Ok?
    ensures c.actorId in users && c.targetId in users && c.actorSessionId in sessions
    ensures var p := AdmitStatus(cfg, c, clock, users, sessions).value;
      var s := sessions[c.actorSessionId];
      && p.now == NormalizeTime(clock) && ValidAuthTime(p.now)
      && s.userId == c.actorId && s.revokedAt.None? && s.expiresAt > p.now
      && (c.newStatus.Muted? ==> WantedUntil(c).Some? && WantedUntil(c).value > p.now)
      && RecoverUser(users[c.actorId], p.now, c.requestId) == Ok((p.actor, p.actorAudit))
      && RecoverUser(users[c.targetId], p.now, c.requestId) == Ok((p.target, p.targetAudit))
      && CheckStatusActor(p.actor) == Pass
      && users[c.targetId].deletedAt.None? && users[c.targetId].role == RoleUser
      && ValidUserStructure(cfg, users[c.targetId], c.targetId, false)
  {
  }

  lemma StatusCompleted(c: Call, p: StatusPlan, sessions: map<Id, Session>, v: Verdict)
    requires c.ChangeStatus? && CompleteStatus(c, p, sessions) == Ok(v)
    ensures if p.target.status == c.newStatus && p.target.mutedUntil == WantedUntil(c) then
        && v.delta == Delta(map[c.actorId := p.actor, c.targetId := p.target], map[],
                            InTargetOrder(c, p.actorAudit, p.targetAudit))
        && v.reply == Viewed(SecretFree(p.target))
      else
        && ValidAdminTransition(p.target.status, c.newStatus) && UserRowOk(ChangedRow(c, p))
        && v.delta == ChangeDelta(c, p, sessions) && AllRowsOk(v.delta.sessions)
        && v.reply == Viewed(SecretFree(ChangedRow(c, p)))
  {
  }

  predicate IsActiveOf(db: Db, sid: Id, userId: Id) {
    sid in db.sessions && db.sessions[sid].userId == userId && db.sessions[sid].revokedAt.None?
  }

  /** The sessions that a change revokes, against the database that they were selected from. */
  lemma RevokedByChange(db: Db, c: Call, p: StatusPlan, sid: Id)
    requires Sound(db) && c.ChangeStatus? && c.newStatus.Banned?
    ensures var users := SelectUsers(db.users, UserIds(c));
      var d := ChangeDelta(c, p, SelectSessions(db.sessions, SessionCondition(c, users)));
      && (sid in d.sessions ==>
            && IsActiveOf(db, sid, c.targetId) && sid != c.actorSessionId
            && d.sessions[sid] == db.sessions[sid].(revokedAt := Some(p.now)))
      && (ScansSessions(c, users) && sid != c.actorSessionId && IsActiveOf(db, sid, c.targetId) ==> sid in d.sessions)
  {
  }

  /** The plan of an admitted status change, against the database. */
  ghost predicate PlannedOn(db: Db, c: Call, p: StatusPlan)
    requires c.ChangeStatus?
  {
    && c.actorId in db.users && c.targetId in db.users && c.actorId != c.targetId
    && c.actorSessionId in db.sessions
    && (var s := db.sessions[c.actorSessionId];
        s.userId == c.actorId && s.revokedAt.None? && s.expiresAt > p.now)
    && RecoverUser(db.users[c.actorId], p.now, c.requestId) == Ok((p.actor, p.actorAudit))
    && RecoverUser(db.users[c.targetId], p.now, c.requestId) == Ok((p.target, p.targetAudit))
    && CheckStatusActor(p.actor) == Pass
    && (c.newStatus.Muted? ==> WantedUntil(c).Some? && WantedUntil(c).value > p.now)
    && !db.users[c.targetId].status.Deleted? && p.target.role == RoleUser
  }

  lemma ShapeFromPlan(db: Db, c: Call, p: StatusPlan, v: Verdict) returns (w: StatusChange)
    requires Sound(db) && c.ChangeStatus? && PlannedOn(db, c, p) && ValidAdminStatus(c.newStatus)
    requires var users := SelectUsers(db.users, UserIds(c));
      CompleteStatus(c, p, SelectSessions(db.sessions, SessionCondition(c, users))) == Ok(v)
    ensures ShapedAs(db, c, v.delta, w) && w.now == p.now
    ensures v.reply == Viewed(SecretFree(v.delta.users[c.targetId]))
    ensures w.changed <==> !(w.target.status == c.newStatus && w.target.mutedUntil == WantedUntil(c))
  {
    var changed := !(p.target.status == c.newStatus && p.target.mutedUntil == WantedUntil(c));
    w := StatusChange(p.now, p.actor, p.actorAudit, p.target, p.targetAudit, changed);
    StatusCompleted(c, p, SelectSessions(db.sessions, SessionCondition(c, SelectUsers(db.users, UserIds(c)))), v);
    if changed && c.newStatus.Banned? {
      forall sid
        ensures sid in v.delta.sessions ==>
          && IsActiveOf(db, sid, c.targetId) && sid != c.actorSessionId
          && v.delta.sessions[sid] == db.sessions[sid].(revokedAt := Some(p.now))
        ensures !p.target.status.Banned? && IsActiveOf(db, sid, c.targetId) ==> sid in v.delta.sessions
      {
        RevokedByChange(db, c, p, sid);
      }
    }
  }

  /** A committed status change has the shape of two recoveries and at most one change. */
  lemma ChangeStatusVerdict(cfg: Config, db: Db, c: Call, env: Env, v: Verdict) returns (w: StatusChange)
    requires Sound(db) && c.ChangeStatus? && Exec(cfg, db, c, env) == Ok(v)
    ensures ShapedAs(db, c, v.delta, w)
    ensures w.now == NormalizeTime(env.clock) && v.reply == Viewed(SecretFree(v.delta.users[c.targetId]))
    ensures w.changed <==> !(w.target.status == c.newStatus && w.target.mutedUntil == WantedUntil(c))
    ensures c.newStatus.Muted? <==> c.mutedUntil.Some?
  {
    var users := SelectUsers(db.users, UserIds(c));
    var sessions := SelectSessions(db.sessions, SessionCondition(c, users));
    CommitDecides(cfg, db, c, env, v);
    StatusAdmitted(cfg, c, env.clock, users, sessions);
    w := ShapeFromPlan(db, c, AdmitStatus(cfg, c, env.clock, users, sessions).value, v);
  }
}
