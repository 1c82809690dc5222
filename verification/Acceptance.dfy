/** On a healthy database, with a sane clock and fresh random values: exactly when each call commits. */
module Acceptance {
  import opened Wrappers
  import opened Domain
  import opened Database
  import opened Protocol
  import opened Verdicts
  import opened Credentials

  /** The validators imply the constraints of the table on email and name. */
  ghost predicate SoundValidators(cfg: Config) {
    && (forall email :: cfg.emailOk(email) ==> email != "")
    && (forall name :: cfg.nameOk(name) ==> 1 <= |name| <= 100)
  }

  /** The rows are well-formed, nothing was created in the future, and the clock is in range. */
  ghost predicate HealthyRows(cfg: Config, db: Db, clock: Time) {
    && cfg.Valid() && SoundValidators(cfg) && Sound(db) && ValidAuthTime(clock)
    && (forall id <- db.users ::
          ValidUserStructure(cfg, db.users[id], id, false) && db.users[id].createdAt <= NormalizeTime(clock))
    && (forall sid <- db.sessions ::
          ValidSessionStructure(db.sessions[sid], sid) && db.sessions[sid].createdAt <= NormalizeTime(clock))
  }

  /** Besides, the sampled values are fit and fresh. */
  ghost predicate Healthy(cfg: Config, db: Db, env: Env) {
    && HealthyRows(cfg, db, env.clock) && FitSample(env)
    && env.freshId !in db.users && env.freshId !in db.sessions
  }

  lemma SampledNow(cfg: Config, db: Db, env: Env)
    requires HealthyRows(cfg, db, env.clock)
    ensures SampleNow(env.clock) == Ok(NormalizeTime(env.clock)) && NormalizeTime(env.clock) % SECOND == 0
    ensures ValidAuthTime(NormalizeTime(env.clock))
  {
  }

  /** A mute that is over can always be ended. */
  lemma RecoveryAccepted(cfg: Config, db: Db, env: Env, id: Id, requestId: string)
    requires HealthyRows(cfg, db, env.clock) && id in db.users
    ensures var now := NormalizeTime(env.clock);
      RecoverUser(db.users[id], now, requestId)
      == Ok((Unmuted(db.users[id], now), ExpiryEntries(db.users[id], now, requestId)))
  {
  }

  /** The recovery of a mute commits exactly for a stored user and an instant in whole seconds, whether or not
      there is a mute to end. */
  lemma RecoverMuteAccepted(cfg: Config, db: Db, c: Call, env: Env)
    requires c.RecoverMute? && HealthyRows(cfg, db, c.now)
    ensures Exec(cfg, db, c, env).Ok? <==> c.userId > 0 && c.now % SECOND == 0 && c.userId in db.users
  {
    if c.userId in db.users {
      RecoveryAccepted(cfg, db, env.(clock := c.now), c.userId, c.requestId);
    }
  }

  /** A registration commits exactly for valid fields, a hash and a free email. */
  lemma RegisterAccepted(cfg: Config, db: Db, c: Call, env: Env)
    requires Healthy(cfg, db, env) && c.Register?
    ensures Exec(cfg, db, c, env).Ok? <==>
      Precheck(cfg, c) == Pass && c.passwordHash != "" && !EmailTaken(db, c.email)
  {
    SampledNow(cfg, db, env);
  }

  /** A login commits exactly for the credential on record of a user who may log in, unless the session
      would last beyond the year 9999 or the access token would end at the zero instant. */
  lemma LoginAccepted(cfg: Config, db: Db, c: Call, env: Env)
    requires Healthy(cfg, db, env) && c.Login?
    ensures var now := NormalizeTime(env.clock);
      Exec(cfg, db, c, env).Ok? <==>
        && c.userId in db.users && db.users[c.userId].passwordHash == c.credentialHash
        && db.users[c.userId].status.CanLogin()
        && now + cfg.refreshTTL < YEAR_TEN_THOUSAND && now + cfg.accessTTL != ZERO_TIME
  {
    var now, users := NormalizeTime(env.clock), SelectUsers(db.users, {c.userId});
    SampledNow(cfg, db, env);
    LoginAdmitted(cfg, c, env.clock, users);
    if c.userId in db.users {
      RecoveryAccepted(cfg, db, env, c.userId, c.requestId);
      if AdmitLogin(cfg, c, env.clock, users).Ok? {
        AdmittedLoginSucceeds(cfg, c, env, users);
      }
    }
  }

  lemma LoginAdmitted(cfg: Config, c: Call, clock: Time, users: map<Id, User>)
    requires cfg.Valid() && c.Login? && ValidAuthTime(clock)
    ensures AdmitLogin(cfg, c, clock, users).Ok? <==>
      && c.userId in users && users[c.userId].passwordHash == c.credentialHash
      && users[c.userId].deletedAt.None? && users[c.userId].status.CanLogin()
      && NormalizeTime(clock) + cfg.refreshTTL < YEAR_TEN_THOUSAND
  {
    NormalizedIsWhole(clock);
    MultiplesAdd(NormalizeTime(clock), cfg.refreshTTL);
    MultiplesAdd(NormalizeTime(clock), cfg.accessTTL);
  }

  /** A refresh commits exactly for the current token of a usable session whose owner may log in, unless
      the access token would end at the zero instant. */
  lemma RefreshAccepted(cfg: Config, db: Db, c: Call, env: Env)
    requires HealthyRows(cfg, db, env.clock) && |env.hash| == 32 && c.Refresh?
    ensures var now := NormalizeTime(env.clock);
      Exec(cfg, db, c, env).Ok? <==>
        && Usable(db, c.ownerId, c.sessionId, now) && db.sessions[c.sessionId].tokenHash == c.candidate
        && db.users[c.ownerId].status.CanLogin()
        && Earlier(NormalizeTime(db.sessions[c.sessionId].expiresAt), now + cfg.accessTTL) != ZERO_TIME
  {
    var users, sessions := SelectUsers(db.users, {c.ownerId}), SelectSessions(db.sessions, Rows({c.sessionId}, {}));
    SampledNow(cfg, db, env);
    RefreshAdmitted(cfg, db, c, env);
    if c.ownerId in db.users {
      RecoveryAccepted(cfg, db, env, c.ownerId, c.requestId);
      if AdmitRefresh(cfg, c, env.clock, users, sessions).Ok? {
        AdmittedRefreshSucceeds(cfg, c, env, users, sessions);
      }
    }
  }

  lemma RefreshAdmitted(cfg: Config, db: Db, c: Call, env: Env)
    requires HealthyRows(cfg, db, env.clock) && |env.hash| == 32 && c.Refresh?
    ensures var users := SelectUsers(db.users, {c.ownerId});
      var sessions := SelectSessions(db.sessions, Rows({c.sessionId}, {}));
      AdmitRefresh(cfg, c, env.clock, users, sessions).Ok? <==>
        && Usable(db, c.ownerId, c.sessionId, NormalizeTime(env.clock))
        && db.sessions[c.sessionId].tokenHash == c.candidate && db.users[c.ownerId].status.CanLogin()
  {
    SampledNow(cfg, db, env);
  }

  /** A logout always commits. */
  lemma LogoutAccepted(cfg: Config, db: Db, c: Call, env: Env)
    requires HealthyRows(cfg, db, env.clock) && c.Logout?
    ensures Exec(cfg, db, c, env).Ok? <==> c.userId > 0 && c.sessionId > 0
  {
    SampledNow(cfg, db, env);
  }

  lemma UpdateAdmitted(cfg: Config, db: Db, c: Call, env: Env)
    requires HealthyRows(cfg, db, env.clock) && c.UpdateMe?
    ensures var users := SelectUsers(db.users, {c.userId});
      var sessions := SelectSessions(db.sessions, Rows({c.sessionId}, {}));
      var plan := AdmitUpdate(cfg, c, env.clock, users, sessions);
      && (plan.Ok? <==>
            Usable(db, c.userId, c.sessionId, NormalizeTime(env.clock)) && !db.users[c.userId].status.Expelled())
      && (plan.Ok? ==> plan.value == OwnerPlan(db.users[c.userId], NormalizeTime(env.clock)))
  {
    SampledNow(cfg, db, env);
  }

  lemma UpdateCompletes(cfg: Config, db: Db, c: Call, env: Env)
    requires HealthyRows(cfg, db, env.clock) && c.UpdateMe? && Precheck(cfg, c) == Pass && c.userId in db.users
    requires !db.users[c.userId].status.Expelled()
    ensures CompleteUpdate(c, OwnerPlan(db.users[c.userId], NormalizeTime(env.clock))).Ok?
      <==> db.users[c.userId].status.CanEditProfile()
  {
    RecoveryAccepted(cfg, db, env, c.userId, c.requestId);
  }

  /** An edit commits exactly for valid fields, through a usable session of a user who may edit. */
  lemma UpdateMeAccepted(cfg: Config, db: Db, c: Call, env: Env)
    requires HealthyRows(cfg, db, env.clock) && c.UpdateMe?
    ensures Exec(cfg, db, c, env).Ok? <==>
      && Precheck(cfg, c) == Pass && Usable(db, c.userId, c.sessionId, NormalizeTime(env.clock))
      && db.users[c.userId].status.CanEditProfile()
  {
    UpdateAdmitted(cfg, db, c, env);
    if Precheck(cfg, c) == Pass && c.userId in db.users && !db.users[c.userId].status.Expelled() {
      UpdateCompletes(cfg, db, c, env);
    }
  }

  lemma DeleteAdmittedExactly(cfg: Config, db: Db, c: Call, env: Env)
    requires HealthyRows(cfg, db, env.clock) && c.DeleteMe?
    ensures var users, sessions := SelectUsers(db.users, {c.userId}), SelectSessions(db.sessions, Rows({}, {c.userId}));
      var plan := AdmitDelete(cfg, c, env.clock, users, sessions);
      && (plan.Ok? <==>
            Usable(db, c.userId, c.sessionId, NormalizeTime(env.clock)) && !db.users[c.userId].status.Expelled())
      && (plan.Ok? ==> plan.value == OwnerPlan(db.users[c.userId], NormalizeTime(env.clock)))
  {
    SampledNow(cfg, db, env);
  }

  lemma DeleteCompletes(cfg: Config, db: Db, c: Call, env: Env)
    requires HealthyRows(cfg, db, env.clock) && c.DeleteMe? && c.userId in db.users
    requires !db.users[c.userId].status.Expelled()
    ensures CompleteDelete(c, OwnerPlan(db.users[c.userId], NormalizeTime(env.clock)),
                           SelectSessions(db.sessions, Rows({}, {c.userId}))).Ok?
      <==> db.users[c.userId].status.CanDeleteAccount()
  {
    RecoveryAccepted(cfg, db, env, c.userId, c.requestId);
  }

  /** A self-deletion commits exactly through a usable session of a user who may delete the account. */
  lemma DeleteMeAccepted(cfg: Config, db: Db, c: Call, env: Env)
    requires HealthyRows(cfg, db, env.clock) && c.DeleteMe?
    ensures Exec(cfg, db, c, env).Ok? <==>
      && Usable(db, c.userId, c.sessionId, NormalizeTime(env.clock))
      && db.users[c.userId].status.CanDeleteAccount()
  {
    DeleteAdmittedExactly(cfg, db, c, env);
    if c.userId in db.users && !db.users[c.userId].status.Expelled() {
      DeleteCompletes(cfg, db, c, env);
    }
  }

  /** Among well-formed sessions the scan rests on the administrator's own. */
  lemma WellFormedScan(c: Call, sessions: map<Id, Session>)
    requires c.ChangeStatus? && forall sid <- sessions :: ValidSessionStructure(sessions[sid], sid)
    ensures CheckAdminSessions(c, sessions) == Need(
      c.actorSessionId in sessions && sessions[c.actorSessionId].userId == c.actorId, SessionInvalid)
  {
  }

  lemma ActorSessionSelected(db: Db, c: Call, users: map<Id, User>)
    requires Sound(db) && c.ChangeStatus?
    ensures var sessions := SelectSessions(db.sessions, SessionCondition(c, users));
      && (c.actorSessionId in sessions <==> c.actorSessionId in db.sessions)
      && forall sid <- sessions :: sid in db.sessions && sessions[sid] == db.sessions[sid]
  {
  }

  /** The administrator passes exactly through a usable session. */
  lemma ActorChecked(cfg: Config, db: Db, c: Call, env: Env)
    requires HealthyRows(cfg, db, env.clock) && c.ChangeStatus?
    ensures var now := NormalizeTime(env.clock);
      var users := SelectUsers(db.users, UserIds(c));
      var checked := CheckActor(cfg, c, env.clock, users, SelectSessions(db.sessions, SessionCondition(c, users)));
      && (checked.Ok? <==>
            && Usable(db, c.actorId, c.actorSessionId, now)
            && (c.newStatus.Muted? ==> c.mutedUntil.Some? && WantedUntil(c).value > now))
      && (checked.Ok? ==> checked.value == (now, db.users[c.actorId]))
  {
    var users := SelectUsers(db.users, UserIds(c));
    var sessions := SelectSessions(db.sessions, SessionCondition(c, users));
    SampledNow(cfg, db, env);
    ActorSessionSelected(db, c, users);
    WellFormedScan(c, sessions);
    ActorCheckedOn(cfg, c, env.clock, users, sessions);
  }

  lemma ActorCheckedOn(cfg: Config, c: Call, clock: Time, users: map<Id, User>, sessions: map<Id, Session>)
    requires c.ChangeStatus? && ValidAuthTime(clock)
    requires CheckAdminSessions(c, sessions) == Need(
      c.actorSessionId in sessions && sessions[c.actorSessionId].userId == c.actorId, SessionInvalid)
    requires c.actorSessionId in sessions ==> ValidSessionStructure(sessions[c.actorSessionId], c.actorSessionId)
    requires c.actorId in users ==> ValidUserStructure(cfg, users[c.actorId], c.actorId, false)
    ensures var now := NormalizeTime(clock);
      var checked := CheckActor(cfg, c, clock, users, sessions);
      && (checked.Ok? <==>
            && c.actorId in users && c.actorSessionId in sessions
            && (var s := sessions[c.actorSessionId];
                s.userId == c.actorId && s.revokedAt.None? && NormalizeTime(s.expiresAt) > now)
            && (c.newStatus.Muted? ==> c.mutedUntil.Some? && WantedUntil(c).value > now))
      && (checked.Ok? ==> checked.value == (now, users[c.actorId]))
  {
  }

  lemma PlanAccepted(cfg: Config, db: Db, c: Call, env: Env)
    requires HealthyRows(cfg, db, env.clock) && c.ChangeStatus? && c.actorId in db.users
    ensures var now := NormalizeTime(env.clock);
      var plan := PlanStatus(cfg, c, now, db.users[c.actorId], SelectUsers(db.users, UserIds(c)));
      && (plan.Ok? <==>
            && CheckStatusActor(db.users[c.actorId]) == Pass
            && c.targetId in db.users && db.users[c.targetId].role == RoleUser && !db.users[c.targetId].status.Deleted?)
      && (plan.Ok? ==> plan.value.now == now && plan.value.target == Unmuted(db.users[c.targetId], now))
  {
    RecoveryAccepted(cfg, db, env, c.actorId, c.requestId);
    if c.targetId in db.users {
      RecoveryAccepted(cfg, db, env, c.targetId, c.requestId);
    }
  }

  lemma ChangeAccepted(cfg: Config, db: Db, c: Call, env: Env, p: StatusPlan)
    requires HealthyRows(cfg, db, env.clock) && c.ChangeStatus? && Precheck(cfg, c) == Pass
    requires c.targetId in db.users && p.now == NormalizeTime(env.clock)
    requires p.target == Unmuted(db.users[c.targetId], p.now)
    requires !p.target.status.Deleted?
    ensures var users := SelectUsers(db.users, UserIds(c));
      CompleteStatus(c, p, SelectSessions(db.sessions, SessionCondition(c, users))).Ok?
      <==> ValidAdminTransition(p.target.status, c.newStatus)
  {
  }

  /** A status change commits exactly for valid input, by an administrator in good standing through a
      usable session, on an ordinary account that is not deleted, along the status machine. */
  lemma ChangeStatusAccepted(cfg: Config, db: Db, c: Call, env: Env)
    requires HealthyRows(cfg, db, env.clock) && c.ChangeStatus?
    ensures var now := NormalizeTime(env.clock);
      Exec(cfg, db, c, env).Ok? <==>
        && Precheck(cfg, c) == Pass && (c.newStatus.Muted? ==> WantedUntil(c).value > now)
        && Usable(db, c.actorId, c.actorSessionId, now) && CheckStatusActor(db.users[c.actorId]) == Pass
        && c.targetId in db.users && db.users[c.targetId].role == RoleUser && !db.users[c.targetId].status.Deleted?
        && (var was := Unmuted(db.users[c.targetId], now).status;
            was in {Active, Muted, Frozen} || c.newStatus == Active || (was == Banned && c.newStatus == Banned))
  {
    var now := NormalizeTime(env.clock);
    var users := SelectUsers(db.users, UserIds(c));
    ActorChecked(cfg, db, c, env);
    if Usable(db, c.actorId, c.actorSessionId, now) {
      PlanAccepted(cfg, db, c, env);
      var plan := PlanStatus(cfg, c, now, db.users[c.actorId], users);
      if plan.Ok? && Precheck(cfg, c) == Pass {
        ChangeAccepted(cfg, db, c, env, plan.value);
      }
    }
  }
}
