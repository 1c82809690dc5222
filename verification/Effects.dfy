/** What each committed call achieves, and that it touches nothing else. */
module Effects {
  import opened Wrappers
  import opened Domain
  import opened Database
  import opened Protocol
  import opened Verdicts
  import opened LegalSteps
  import opened Runs
  import opened Credentials

  /** Only rows of these users may differ, and none is lost. */
  ghost predicate OnlyUsers(db: Db, db': Db, ids: set<Id>) {
    && db.users.Keys <= db'.users.Keys
    && forall id <- db'.users | id !in ids :: id in db.users && db'.users[id] == db.users[id]
  }

  ghost predicate OnlySessions(db: Db, db': Db, ids: set<Id>) {
    && db.sessions.Keys <= db'.sessions.Keys
    && forall sid <- db'.sessions | sid !in ids :: sid in db.sessions && db'.sessions[sid] == db.sessions[sid]
  }

  /** A registration adds one ordinary active user with the given fields, created now. */
  lemma RegisterEffect(cfg: Config, db: Db, c: Call, env: Env, v: Verdict)
    requires c.Register? && Exec(cfg, db, c, env) == Ok(v)
    ensures var db', now := Apply(db, v.delta), NormalizeTime(env.clock);
      && OnlyUsers(db, db', {env.freshId}) && OnlySessions(db, db', {}) && db'.audits == db.audits
      && env.freshId !in db.users && !EmailTaken(db, c.email) && env.freshId in db'.users
      && db'.users[env.freshId]
         == User(env.freshId, c.email, c.passwordHash, c.displayName, "", RoleUser, Active, None, 0, now, now, None)
  {
    RegisterVerdict(cfg, db, c, env, v);
  }

  /** A login adds one active session of its user, with the fresh digest, that lasts for the refresh TTL. */
  lemma LoginEffect(cfg: Config, db: Db, c: Call, env: Env, v: Verdict)
    requires cfg.Valid() && Sound(db) && c.Login? && Exec(cfg, db, c, env) == Ok(v)
    ensures var db', now := Apply(db, v.delta), NormalizeTime(env.clock);
      && OnlyUsers(db, db', {c.userId}) && OnlySessions(db, db', {env.freshId})
      && c.userId in db.users && db'.users[c.userId] == Unmuted(db.users[c.userId], now)
      && db'.audits == db.audits + ExpiryEntries(db.users[c.userId], now, c.requestId)
      && env.freshId !in db.sessions && env.freshId in db'.sessions
      && db'.sessions[env.freshId] == Session(env.freshId, c.userId, env.hash, now + cfg.refreshTTL, None, now)
  {
    LoginVerdict(cfg, db, c, env, v);
    OpenedSessionLasts(cfg, c, env);
  }

  lemma OpenedSessionLasts(cfg: Config, c: Call, env: Env)
    requires cfg.Valid() && c.Login?
    ensures var now := NormalizeTime(env.clock);
      OpenedSession(cfg, c, env) == Session(env.freshId, c.userId, env.hash, now + cfg.refreshTTL, None, now)
  {
    NormalizedIsWhole(env.clock);
    MultiplesAdd(NormalizeTime(env.clock), cfg.refreshTTL);
  }

  /** A refresh replaces the presented digest by the fresh one, and nothing else of the session. */
  lemma RefreshEffect(cfg: Config, db: Db, c: Call, env: Env, v: Verdict)
    requires Sound(db) && c.Refresh? && Exec(cfg, db, c, env) == Ok(v)
    ensures var db', now := Apply(db, v.delta), NormalizeTime(env.clock);
      && OnlyUsers(db, db', {c.ownerId}) && OnlySessions(db, db', {c.sessionId})
      && c.ownerId in db.users && db'.users[c.ownerId] == Unmuted(db.users[c.ownerId], now)
      && db'.audits == db.audits + ExpiryEntries(db.users[c.ownerId], now, c.requestId)
      && c.sessionId in db.sessions && db.sessions[c.sessionId].tokenHash == c.candidate
      && db'.sessions[c.sessionId] == db.sessions[c.sessionId].(tokenHash := env.hash)
  {
    RefreshVerdict(cfg, db, c, env, v);
  }

  /** A logout leaves the caller's session revoked, and nothing else changed. */
  lemma LogoutEffect(cfg: Config, db: Db, c: Call, env: Env, v: Verdict)
    requires Sound(db) && c.Logout? && Exec(cfg, db, c, env) == Ok(v)
    ensures var db' := Apply(db, v.delta);
      && OnlyUsers(db, db', {}) && OnlySessions(db, db', {c.sessionId}) && db'.audits == db.audits
      && (c.sessionId in db.sessions ==>
            var s := db.sessions[c.sessionId];
            db'.sessions[c.sessionId]
            == if s.userId == c.userId && s.revokedAt.None? then s.(revokedAt := Some(NormalizeTime(env.clock))) else s)
  {
    LogoutVerdict(cfg, db, c, env, v);
  }

  /** Repeating a logout, however late, changes nothing. */
  lemma LogoutIsIdempotent(cfg: Config, db: Db, c: Call, env: Env, v: Verdict, again: Env)
    requires Sound(db) && c.Logout? && Exec(cfg, db, c, env) == Ok(v) && SampleNow(again.clock).Ok?
    ensures Exec(cfg, Apply(db, v.delta), c, again) == Ok(Verdict(NO_CHANGE, LoggedOut))
  {
    var db' := Apply(db, v.delta);
    CommitDecides(cfg, db, c, env, v);
    LogoutVerdict(cfg, db, c, env, v);
    NothingActiveAfter(db, c, v.delta, NormalizeTime(env.clock));
    NothingLeftToRevoke(db', c);
    MissedLogout(cfg, db', c, again);
  }

  lemma NothingActiveAfter(db: Db, c: Call, d: Delta, now: Time)
    requires Sound(db) && c.Logout?
    requires d.sessions == RevokeAll(SelectSessions(db.sessions, OwnActive(c.sessionId, c.userId)), now)
    ensures !IsActiveOf(Apply(db, d), c.sessionId, c.userId)
    ensures forall sid <- Apply(db, d).sessions :: Apply(db, d).sessions[sid].id == sid
  {
  }

  lemma NothingLeftToRevoke(db: Db, c: Call)
    requires c.Logout? && forall sid <- db.sessions :: db.sessions[sid].id == sid
    requires !IsActiveOf(db, c.sessionId, c.userId)
    ensures SelectSessions(db.sessions, OwnActive(c.sessionId, c.userId)) == map[]
  {
    var selected := SelectSessions(db.sessions, OwnActive(c.sessionId, c.userId));
    assert forall sid :: sid !in selected;
  }

  lemma MissedLogout(cfg: Config, db: Db, c: Call, env: Env)
    requires c.Logout? && Precheck(cfg, c) == Pass && SampleNow(env.clock).Ok?
    requires SelectSessions(db.sessions, OwnActive(c.sessionId, c.userId)) == map[]
    ensures Exec(cfg, db, c, env) == Ok(Verdict(NO_CHANGE, LoggedOut))
  {
    assert RevokeAll(map[], NormalizeTime(env.clock)) == map[];
  }

  /** The recovery of a mute ends a lapsed one, with one entry, and changes nothing else. */
  lemma RecoverMuteEffect(cfg: Config, db: Db, c: Call, env: Env, v: Verdict)
    requires Sound(db) && c.RecoverMute? && Exec(cfg, db, c, env) == Ok(v)
    ensures c.userId in db.users
    ensures var db', u := Apply(db, v.delta), db.users[c.userId];
      if u.status == Muted && u.mutedUntil.Some? && u.mutedUntil.value <= c.now then
        && db'.users == db.users[c.userId := u.(status := Active, mutedUntil := None, updatedAt := c.now)]
        && db'.sessions == db.sessions
        && db'.audits == db.audits + [AuditEntry(MuteExpired, None, c.userId, Muted, Active, u.mutedUntil, None, "",
                                                 c.requestId, c.now)]
      else db' == db
  {
    RecoverMuteVerdict(cfg, db, c, env, v);
    assert db.users + map[c.userId := db.users[c.userId]] == db.users;
    assert db.sessions + map[] == db.sessions;
  }

  /** A profile edit stores the requested fields and keeps the others. */
  lemma UpdateMeEffect(cfg: Config, db: Db, c: Call, env: Env, v: Verdict)
    requires Sound(db) && c.UpdateMe? && Exec(cfg, db, c, env) == Ok(v)
    ensures var db', now := Apply(db, v.delta), NormalizeTime(env.clock);
      && OnlyUsers(db, db', {c.userId}) && OnlySessions(db, db', {}) && c.userId in db.users
      && db'.audits == db.audits + ExpiryEntries(db.users[c.userId], now, c.requestId)
      && (var was, edited := Unmuted(db.users[c.userId], now), db'.users[c.userId];
          && was.status.CanEditProfile()
          && edited.displayName == (if c.newName.Some? then c.newName.value else was.displayName)
          && edited.bio == (if c.newBio.Some? then c.newBio.value else was.bio)
          && edited == was.(displayName := edited.displayName, bio := edited.bio, updatedAt := edited.updatedAt)
          && (edited == was || edited.updatedAt == now))
  {
    UpdateMeVerdict(cfg, db, c, env, v);
  }

  /** A self-deletion marks the account deleted now, keeps its other fields, and revokes exactly the
      sessions that were active. */
  lemma DeleteMeEffect(cfg: Config, db: Db, c: Call, env: Env, v: Verdict)
    requires Sound(db) && c.DeleteMe? && Exec(cfg, db, c, env) == Ok(v)
    ensures var db', now := Apply(db, v.delta), NormalizeTime(env.clock);
      && OnlyUsers(db, db', {c.userId}) && c.userId in db.users
      && db'.audits == db.audits + ExpiryEntries(db.users[c.userId], now, c.requestId)
      && Unmuted(db.users[c.userId], now).status.CanDeleteAccount()
      && db'.users[c.userId]
         == db.users[c.userId].(status := Deleted, mutedUntil := None, updatedAt := now, deletedAt := Some(now))
      && SessionsRevokedOf(db, db', c.userId, now)
  {
    DeleteMeVerdict(cfg, db, c, env, v);
    RevokedAsExpected(db, c.userId, NormalizeTime(env.clock));
  }

  /** The active sessions of one user have been revoked at `now`, and no other session has changed. */
  ghost predicate SessionsRevokedOf(db: Db, db': Db, userId: Id, now: Time) {
    && db'.sessions.Keys == db.sessions.Keys
    && forall sid <- db.sessions ::
         db'.sessions[sid]
         == if IsActiveOf(db, sid, userId) then db.sessions[sid].(revokedAt := Some(now)) else db.sessions[sid]
  }

  lemma RevokedAsExpected(db: Db, userId: Id, now: Time)
    ensures var revoked := RevokeAll(SelectSessions(db.sessions, Rows({}, {userId})), now);
      SessionsRevokedOf(db, Db(db.users, db.sessions + revoked, db.audits), userId, now)
  {
  }

  /** The target's row after a status change: with the wanted standing, and otherwise as it was. */
  function WithStanding(c: Call, u: User, now: Time): User
    requires c.ChangeStatus?
  {
    if u.status == c.newStatus && u.mutedUntil == WantedUntil(c) then u
    else u.(status := c.newStatus, mutedUntil := WantedUntil(c), updatedAt := now)
  }

  /** The entries of a status change: ended mutes in ascending order of target, then the change, if any. */
  function ChangeEntries(c: Call, actor: User, target: User, now: Time): seq<AuditEntry>
    requires c.ChangeStatus?
  {
    var was, after := Unmuted(target, now), WithStanding(c, Unmuted(target, now), now);
    InTargetOrder(c, ExpiryEntries(actor, now, c.requestId), ExpiryEntries(target, now, c.requestId))
    + if was.status == c.newStatus && was.mutedUntil == WantedUntil(c) then [] else [StatusEntry(c, was, after, now)]
  }

  /** The target ends in the wanted standing, with its entries; a ban that takes effect revokes exactly
      the target's active sessions, and no other change touches a session. */
  ghost predicate ChangeTakesEffect(db: Db, db': Db, c: Call, now: Time)
    requires c.ChangeStatus?
  {
    && OnlyUsers(db, db', {c.actorId, c.targetId}) && c.actorId in db.users && c.targetId in db.users
    && db'.users[c.actorId] == Unmuted(db.users[c.actorId], now)
    && db'.users[c.targetId] == WithStanding(c, Unmuted(db.users[c.targetId], now), now)
    && db'.audits == db.audits + ChangeEntries(c, db.users[c.actorId], db.users[c.targetId], now)
    && (if c.newStatus.Banned? && !db.users[c.targetId].status.Banned?
        then SessionsRevokedOf(db, db', c.targetId, now) else db'.sessions == db.sessions)
  }

  /** The entry that a change of standing appends last says who changed whom, from what to what, why, on which
      request and when. */
  ghost predicate ChangeIsRecorded(log: seq<AuditEntry>, c: Call, was: User, after: User, now: Time)
    requires c.ChangeStatus?
  {
    && |log| > 0
    && (var e := log[|log| - 1];
        && e.action == StatusChanged && e.actorId == Some(c.actorId) && e.targetId == c.targetId
        && e.oldStatus == was.status && e.newStatus == after.status
        && e.oldMutedUntil == was.mutedUntil && e.newMutedUntil == after.mutedUntil
        && e.reason == c.reason && e.requestId == c.requestId && e.createdAt == now)
  }

  lemma ChangeStatusEffect(cfg: Config, db: Db, c: Call, env: Env, v: Verdict)
    requires Sound(db) && c.ChangeStatus? && Exec(cfg, db, c, env) == Ok(v)
    ensures ChangeTakesEffect(db, Apply(db, v.delta), c, NormalizeTime(env.clock))
    ensures var db', now := Apply(db, v.delta), NormalizeTime(env.clock);
      var was, after := Unmuted(db.users[c.targetId], now), db'.users[c.targetId];
      && after.status == c.newStatus && (after.mutedUntil.Some? <==> c.mutedUntil.Some?)
      && (after.mutedUntil.Some? ==> after.mutedUntil.value == NormalizeTime(c.mutedUntil.value))
      && (after != was ==> after == was.(status := after.status, mutedUntil := after.mutedUntil, updatedAt := now))
      && (was.status != after.status || was.mutedUntil != after.mutedUntil ==>
            ChangeIsRecorded(db'.audits, c, was, after, now))
  {
    var w := ChangeStatusVerdict(cfg, db, c, env, v);
    ShapeTakesEffect(db, c, v.delta, w);
    var db', now := Apply(db, v.delta), NormalizeTime(env.clock);
    ChangeLeavesEntry(c, db.users[c.actorId], db.users[c.targetId], db, db', now);
  }

  lemma ChangeLeavesEntry(c: Call, actor: User, target: User, db: Db, db': Db, now: Time)
    requires c.ChangeStatus? && target.id == c.targetId
    requires db'.audits == db.audits + ChangeEntries(c, actor, target, now)
    ensures var was := Unmuted(target, now);
      var after := WithStanding(c, was, now);
      was.status != after.status || was.mutedUntil != after.mutedUntil ==>
        ChangeIsRecorded(db'.audits, c, was, after, now)
  {
  }

  lemma ShapeTakesEffect(db: Db, c: Call, d: Delta, w: StatusChange)
    requires Sound(db) && c.ChangeStatus? && ShapedAs(db, c, d, w)
    requires w.changed <==> !(w.target.status == c.newStatus && w.target.mutedUntil == WantedUntil(c))
    requires c.newStatus.Muted? <==> c.mutedUntil.Some?
    ensures ChangeTakesEffect(db, Apply(db, d), c, w.now)
  {
    ShapeWritesUsers(db, c, d, w);
    ShapeWritesSessions(db, c, d, w);
  }

  lemma ShapeWritesUsers(db: Db, c: Call, d: Delta, w: StatusChange)
    requires Sound(db) && c.ChangeStatus? && ShapedAs(db, c, d, w)
    requires w.changed <==> !(w.target.status == c.newStatus && w.target.mutedUntil == WantedUntil(c))
    ensures d.users == map[c.actorId := Unmuted(db.users[c.actorId], w.now),
                           c.targetId := WithStanding(c, Unmuted(db.users[c.targetId], w.now), w.now)]
    ensures d.audits == ChangeEntries(c, db.users[c.actorId], db.users[c.targetId], w.now)
  {
    RecoveryUnmutes(db.users[c.actorId], w.now, c.requestId);
    RecoveryUnmutes(db.users[c.targetId], w.now, c.requestId);
  }

  lemma ShapeWritesSessions(db: Db, c: Call, d: Delta, w: StatusChange)
    requires Sound(db) && c.ChangeStatus? && ShapedAs(db, c, d, w)
    requires w.changed <==> !(w.target.status == c.newStatus && w.target.mutedUntil == WantedUntil(c))
    requires c.newStatus.Muted? <==> c.mutedUntil.Some?
    ensures if c.newStatus.Banned? && !db.users[c.targetId].status.Banned?
            then SessionsRevokedOf(db, Apply(db, d), c.targetId, w.now) else Apply(db, d).sessions == db.sessions
  {
    RecoveryUnmutes(db.users[c.targetId], w.now, c.requestId);
    if c.newStatus.Banned? && !db.users[c.targetId].status.Banned? {
      assert forall sid :: sid in d.sessions ==> sid in db.sessions;
      assert Apply(db, d).sessions.Keys == db.sessions.Keys;
    } else {
      assert d.sessions == map[];
      assert db.sessions + map[] == db.sessions;
    }
  }

  /** Repeating a status change that took effect records nothing more and leaves the target alone. */
  lemma ChangeStatusIsIdempotent(cfg: Config, db: Db, c: Call, env: Env, v: Verdict, again: Env)
    requires Sound(db) && c.ChangeStatus? && Exec(cfg, db, c, env) == Ok(v)
    ensures var repeated := Exec(cfg, Apply(db, v.delta), c, again);
      repeated.Ok? ==> RepeatsNothing(Apply(db, v.delta), c, repeated.value.delta)
  {
    var after := Apply(db, v.delta);
    ExecIsLegal(cfg, db, c, env, v);
    StepKeepsSound(db, v.delta);
    ChangeStatusEffect(cfg, db, c, env, v);
    if Exec(cfg, after, c, again).Ok? {
      RepeatedChange(cfg, after, c, again, Exec(cfg, after, c, again).value);
    }
  }

  ghost predicate RepeatsNothing(db: Db, c: Call, d: Delta)
    requires c.ChangeStatus?
  {
    && c.targetId in db.users && c.targetId in d.users && d.users[c.targetId] == db.users[c.targetId]
    && d.sessions == map[] && forall e <- d.audits :: e.action.MuteExpired?
  }

  /** A status change that finds the target in the wanted standing already. */
  lemma RepeatedChange(cfg: Config, db: Db, c: Call, env: Env, v: Verdict)
    requires Sound(db) && c.ChangeStatus? && Exec(cfg, db, c, env) == Ok(v)
    requires c.targetId in db.users
    requires db.users[c.targetId].status == c.newStatus && db.users[c.targetId].mutedUntil == WantedUntil(c)
    ensures RepeatsNothing(db, c, v.delta)
  {
    var w := ChangeStatusVerdict(cfg, db, c, env, v);
    RecoveryUnmutes(db.users[c.actorId], w.now, c.requestId);
    RecoveryUnmutes(db.users[c.targetId], w.now, c.requestId);
  }
}
