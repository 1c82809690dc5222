/** The answer of each call in full, on any sane database: which error it returns and when, and otherwise
    which rows it writes and what it replies, in the fields of the rows. */
module Answers {
  import opened Wrappers
  import opened Domain
  import opened Database
  import opened Protocol
  import opened Verdicts
  import opened Credentials
  import opened Acceptance

  /** An instant between the years 0 and 9999, outside the second that counts as no instant. */
  predicate Presentable(t: Time) {
    YEAR_ZERO <= t < YEAR_TEN_THOUSAND && !(ZERO_TIME <= t < ZERO_TIME + SECOND)
  }

  ghost predicate SaneUser(cfg: Config, u: User, id: Id, now: Time) {
    && u.id == id && id > 0 && u.passwordHash != "" && cfg.emailOk(u.email) && cfg.nameOk(u.displayName)
    && |u.bio| <= 1000 && u.violationCount >= 0
    && Presentable(u.createdAt) && Presentable(u.updatedAt) && u.createdAt <= u.updatedAt && u.createdAt <= now
    && (u.status == Muted <==> u.mutedUntil.Some?) && (u.mutedUntil.Some? ==> Presentable(u.mutedUntil.value))
    && (u.status == Deleted <==> u.deletedAt.Some?)
    && (u.deletedAt.Some? ==> Presentable(u.deletedAt.value) && u.createdAt <= u.deletedAt.value)
  }

  ghost predicate SaneSession(s: Session, sid: Id, users: map<Id, User>, now: Time) {
    && s.id == sid && sid > 0 && s.userId in users && |s.tokenHash| == 32
    && Presentable(s.createdAt) && Presentable(s.expiresAt) && s.createdAt / SECOND < s.expiresAt / SECOND
    && s.createdAt <= now && (s.revokedAt.Some? ==> s.createdAt <= s.revokedAt.value)
  }

  /** The rows are as the service writes them, and nothing was created after the clock reading. */
  ghost predicate SaneRows(cfg: Config, db: Db, clock: Time) {
    && SECOND <= cfg.accessTTL < cfg.refreshTTL && cfg.accessTTL % SECOND == 0 && cfg.refreshTTL % SECOND == 0
    && SoundValidators(cfg) && Presentable(clock)
    && (forall id <- db.users :: SaneUser(cfg, db.users[id], id, clock / SECOND * SECOND))
    && (forall sid <- db.sessions :: SaneSession(db.sessions[sid], sid, db.users, clock / SECOND * SECOND))
  }

  /** The bounds are those of the Gregorian calendar: the zero instant begins the year 1, and the year 0 has 366
      days. */
  lemma BoundsOfTheCalendar()
    ensures SECOND == 1_000_000_000
    ensures var toEpoch, toTenThousand := 1969 * 365 + 1969 / 4 - 1969 / 100 + 1969 / 400,
                                          9999 * 365 + 9999 / 4 - 9999 / 100 + 9999 / 400;
      && ZERO_TIME == -toEpoch * 86_400 * SECOND
      && YEAR_ZERO == ZERO_TIME - 366 * 86_400 * SECOND
      && YEAR_TEN_THOUSAND == ZERO_TIME + toTenThousand * 86_400 * SECOND
  {
  }

  /** The instant of a call is the last whole second that is not after the clock reading. */
  lemma NowIsWholeSecond(t: Time)
    ensures NormalizeTime(t) == t / SECOND * SECOND
    ensures NormalizeTime(t) % SECOND == 0 && NormalizeTime(t) <= t < NormalizeTime(t) + SECOND
  {
  }

  lemma PresentableIsValid(t: Time)
    ensures Presentable(t) <==> ValidAuthTime(t)
  {
  }

  lemma SaneUserIsValid(cfg: Config, u: User, id: Id, now: Time)
    requires SoundValidators(cfg)
    ensures SaneUser(cfg, u, id, now)
      <==> u.id == id && UserRowOk(u) && ValidUserStructure(cfg, u, id, false) && u.createdAt <= now
  {
    PresentableIsValid(u.createdAt);
    PresentableIsValid(u.updatedAt);
    if u.mutedUntil.Some? {
      PresentableIsValid(u.mutedUntil.value);
    }
    if u.deletedAt.Some? {
      PresentableIsValid(u.deletedAt.value);
    }
  }

  lemma SaneSessionIsValid(s: Session, sid: Id, users: map<Id, User>, now: Time)
    requires forall id <- users :: id > 0
    ensures SaneSession(s, sid, users, now)
      <==> s.id == sid && SessionRowOk(s) && s.userId in users && ValidSessionStructure(s, sid) && s.createdAt <= now
  {
    PresentableIsValid(s.createdAt);
    PresentableIsValid(s.expiresAt);
    NowIsWholeSecond(s.createdAt);
    NowIsWholeSecond(s.expiresAt);
  }

  /** Healthy rows in the fields of the rows. */
  lemma SaneIsHealthy(cfg: Config, db: Db, clock: Time)
    ensures SaneRows(cfg, db, clock) <==> HealthyRows(cfg, db, clock)
  {
    if SoundValidators(cfg) && (SaneRows(cfg, db, clock) || HealthyRows(cfg, db, clock)) {
      var now := clock / SECOND * SECOND;
      NowIsWholeSecond(clock);
      PresentableIsValid(clock);
      forall id | id in db.users
        ensures SaneUser(cfg, db.users[id], id, now)
          <==> db.users[id].id == id && UserRowOk(db.users[id]) && ValidUserStructure(cfg, db.users[id], id, false)
               && db.users[id].createdAt <= now
      {
        SaneUserIsValid(cfg, db.users[id], id, now);
      }
      forall sid | sid in db.sessions
        ensures SaneSession(db.sessions[sid], sid, db.users, now)
          <==> db.sessions[sid].id == sid && SessionRowOk(db.sessions[sid]) && db.sessions[sid].userId in db.users
               && ValidSessionStructure(db.sessions[sid], sid) && db.sessions[sid].createdAt <= now
      {
        SaneSessionIsValid(db.sessions[sid], sid, db.users, now);
      }
    }
  }

  /** A registration. */
  lemma RegisterAnswer(cfg: Config, db: Db, c: Call, env: Env)
    requires Healthy(cfg, db, env) && c.Register?
    ensures var now := env.clock / SECOND * SECOND;
      var row := User(env.freshId, c.email, c.passwordHash, c.displayName, "", RoleUser, Active, None, 0,
                      now, now, None);
      Exec(cfg, db, c, env)
      == if !cfg.emailOk(c.email) || !cfg.nameOk(c.displayName) then Err(ValidationFailed)
         else if c.passwordHash == "" then Err(Internal)
         else if exists id <- db.users :: db.users[id].email == c.email then Err(EmailAlreadyRegistered)
         else Ok(Verdict(Delta(map[env.freshId := row], map[], []), Registered(row.(passwordHash := ""))))
  {
    SampledNow(cfg, db, env);
    NowIsWholeSecond(env.clock);
  }

  /** The recovery of a mute: a lapsed mute ends now, with one entry; nothing else changes. */
  lemma RecoverMuteAnswer(cfg: Config, db: Db, c: Call, env: Env)
    requires c.RecoverMute? && HealthyRows(cfg, db, c.now)
    ensures Exec(cfg, db, c, env)
      == if c.userId <= 0 || c.now % SECOND != 0 then Err(Internal)
         else if c.userId !in db.users then Err(NotFound)
         else
           var u := db.users[c.userId];
           if u.status == Muted && u.mutedUntil.value <= c.now then
             var active := u.(status := Active, mutedUntil := None, updatedAt := c.now);
             var entry := AuditEntry(MuteExpired, None, c.userId, Muted, Active, u.mutedUntil, None, "",
                                     c.requestId, c.now);
             Ok(Verdict(Delta(map[c.userId := active], map[], [entry]), Viewed(active.(passwordHash := ""))))
           else Ok(Verdict(Delta(map[c.userId := u], map[], []), Viewed(u.(passwordHash := ""))))
  {
    SampledNow(cfg, db, env.(clock := c.now));
    NowIsWholeSecond(c.now);
    if c.userId in db.users {
      RecoveryAccepted(cfg, db, env.(clock := c.now), c.userId, c.requestId);
    }
  }

  /** A login with the credential that was read before. */
  lemma LoginAnswer(cfg: Config, db: Db, c: Call, env: Env)
    requires Healthy(cfg, db, env) && c.Login?
    ensures var now := env.clock / SECOND * SECOND;
      Exec(cfg, db, c, env)
      == if c.userId <= 0 then Err(Internal)
         else if c.userId !in db.users || db.users[c.userId].passwordHash != c.credentialHash
           || db.users[c.userId].status in {Banned, Deleted} then Err(InvalidCredentials)
         else if now + cfg.refreshTTL >= YEAR_TEN_THOUSAND || now + cfg.accessTTL == ZERO_TIME then Err(Internal)
         else
           var u := Unmuted(db.users[c.userId], now);
           var session := Session(env.freshId, c.userId, env.hash, now + cfg.refreshTTL, None, now);
           Ok(Verdict(
             Delta(map[c.userId := u], map[env.freshId := session],
                   ExpiryEntries(db.users[c.userId], now, c.requestId)),
             LoggedIn(Grant(c.userId, env.freshId, now, now + cfg.accessTTL, cfg.accessTTL / SECOND),
                      env.hash, now + cfg.refreshTTL, u.(passwordHash := ""))))
  {
    NowIsWholeSecond(env.clock);
    LoginErrors(cfg, db, c, env);
    if Exec(cfg, db, c, env).Ok? {
      LoginReply(cfg, db, c, env);
    }
  }

  lemma LoginErrors(cfg: Config, db: Db, c: Call, env: Env)
    requires Healthy(cfg, db, env) && c.Login?
    ensures var now := NormalizeTime(env.clock);
      if c.userId <= 0 then Exec(cfg, db, c, env) == Err(Internal)
      else if c.userId !in db.users || db.users[c.userId].passwordHash != c.credentialHash
        || db.users[c.userId].status in {Banned, Deleted} then Exec(cfg, db, c, env) == Err(InvalidCredentials)
      else if now + cfg.refreshTTL >= YEAR_TEN_THOUSAND || now + cfg.accessTTL == ZERO_TIME then
        Exec(cfg, db, c, env) == Err(Internal)
      else Exec(cfg, db, c, env).Ok?
  {
    var users := SelectUsers(db.users, {c.userId});
    SampledNow(cfg, db, env);
    LoginAdmitted(cfg, c, env.clock, users);
    if c.userId in db.users {
      RecoveryAccepted(cfg, db, env, c.userId, c.requestId);
      if AdmitLogin(cfg, c, env.clock, users).Ok? {
        AdmittedLoginSucceeds(cfg, c, env, users);
      }
    }
  }

  lemma LoginReply(cfg: Config, db: Db, c: Call, env: Env)
    requires cfg.Valid() && Sound(db) && c.Login? && Exec(cfg, db, c, env).Ok?
    ensures c.userId in db.users
    ensures var now := NormalizeTime(env.clock);
      var u := Unmuted(db.users[c.userId], now);
      Exec(cfg, db, c, env)
      == Ok(Verdict(
           Delta(map[c.userId := u],
                 map[env.freshId := Session(env.freshId, c.userId, env.hash, now + cfg.refreshTTL, None, now)],
                 ExpiryEntries(db.users[c.userId], now, c.requestId)),
           LoggedIn(Grant(c.userId, env.freshId, now, now + cfg.accessTTL, cfg.accessTTL / SECOND),
                    env.hash, now + cfg.refreshTTL, u.(passwordHash := ""))))
  {
    var now := NormalizeTime(env.clock);
    LoginVerdict(cfg, db, c, env, Exec(cfg, db, c, env).value);
    NormalizedIsWhole(env.clock);
    MultiplesAdd(now, cfg.refreshTTL);
    MultiplesAdd(now, cfg.accessTTL);
    WholeLifetime(now, cfg.accessTTL);
  }

  lemma WholeLifetime(now: Time, ttl: Time)
    requires now % SECOND == 0 && ttl % SECOND == 0
    ensures Unix(now + ttl) - Unix(now) == ttl / SECOND
  {
  }

  lemma EndsLater(expiresAt: Time, now: Time)
    requires now % SECOND == 0
    ensures NormalizeTime(expiresAt) > now <==> expiresAt >= now + SECOND
  {
  }

  /** The session is missing, or not the user's own, or revoked, or over. */
  predicate Unusable(db: Db, userId: Id, sid: Id, now: Time) {
    || sid !in db.sessions || db.sessions[sid].userId != userId || db.sessions[sid].revokedAt.Some?
    || db.sessions[sid].expiresAt < now + SECOND
  }

  lemma UnusableIsNotUsable(db: Db, userId: Id, sid: Id, now: Time)
    requires now % SECOND == 0
    ensures Unusable(db, userId, sid, now) <==> !Usable(db, userId, sid, now)
  {
    if sid in db.sessions {
      EndsLater(db.sessions[sid].expiresAt, now);
    }
  }

  /** A refresh with the digest of the presented secret. */
  lemma RefreshAnswer(cfg: Config, db: Db, c: Call, env: Env)
    requires HealthyRows(cfg, db, env.clock) && |env.hash| == 32 && c.Refresh?
    ensures var now := NormalizeTime(env.clock);
      Exec(cfg, db, c, env)
      == if c.sessionId <= 0 then Err(InvalidRefreshToken)
         else if c.ownerId <= 0 then Err(Internal)
         else if c.ownerId !in db.users || db.users[c.ownerId].status in {Banned, Deleted}
           || c.sessionId !in db.sessions || db.sessions[c.sessionId].userId != c.ownerId
           || db.sessions[c.sessionId].revokedAt.Some? || db.sessions[c.sessionId].tokenHash != c.candidate
           || db.sessions[c.sessionId].expiresAt < now + SECOND then Err(InvalidRefreshToken)
         else
           var s, u := db.sessions[c.sessionId], Unmuted(db.users[c.ownerId], now);
           var sessionEnd := NormalizeTime(s.expiresAt);
           var expiresAt := if sessionEnd < now + cfg.accessTTL then sessionEnd else now + cfg.accessTTL;
           if expiresAt == ZERO_TIME then Err(Internal)
           else
             Ok(Verdict(
               Delta(map[c.ownerId := u], map[c.sessionId := s.(tokenHash := env.hash)],
                     ExpiryEntries(db.users[c.ownerId], now, c.requestId)),
               Refreshed(Grant(c.ownerId, c.sessionId, now, expiresAt, (expiresAt - now) / SECOND),
                         env.hash, sessionEnd)))
  {
    NormalizedIsWhole(env.clock);
    UnusableIsNotUsable(db, c.ownerId, c.sessionId, NormalizeTime(env.clock));
    RefreshErrors(cfg, db, c, env);
    if Exec(cfg, db, c, env).Ok? {
      RefreshReply(cfg, db, c, env);
    }
  }

  lemma RefreshAdmission(cfg: Config, db: Db, c: Call, env: Env)
    requires HealthyRows(cfg, db, env.clock) && |env.hash| == 32 && c.Refresh?
    ensures var plan := AdmitRefresh(cfg, c, env.clock, SelectUsers(db.users, {c.ownerId}),
                                     SelectSessions(db.sessions, Rows({c.sessionId}, {})));
      plan.Err? ==> plan == Err(InvalidRefreshToken)
  {
    SampledNow(cfg, db, env);
  }

  lemma RefreshErrors(cfg: Config, db: Db, c: Call, env: Env)
    requires HealthyRows(cfg, db, env.clock) && |env.hash| == 32 && c.Refresh?
    ensures var now := NormalizeTime(env.clock);
      if c.sessionId <= 0 then Exec(cfg, db, c, env) == Err(InvalidRefreshToken)
      else if c.ownerId <= 0 then Exec(cfg, db, c, env) == Err(Internal)
      else if !Usable(db, c.ownerId, c.sessionId, now) || db.users[c.ownerId].status in {Banned, Deleted}
        || db.sessions[c.sessionId].tokenHash != c.candidate then Exec(cfg, db, c, env) == Err(InvalidRefreshToken)
      else if Earlier(NormalizeTime(db.sessions[c.sessionId].expiresAt), now + cfg.accessTTL) == ZERO_TIME then
        Exec(cfg, db, c, env) == Err(Internal)
      else Exec(cfg, db, c, env).Ok?
  {
    var users, sessions := SelectUsers(db.users, {c.ownerId}), SelectSessions(db.sessions, Rows({c.sessionId}, {}));
    RefreshAdmitted(cfg, db, c, env);
    RefreshAdmission(cfg, db, c, env);
    if AdmitRefresh(cfg, c, env.clock, users, sessions).Ok? {
      RecoveryAccepted(cfg, db, env, c.ownerId, c.requestId);
      AdmittedRefreshSucceeds(cfg, c, env, users, sessions);
      RefreshFailsInside(cfg, c, env, users, sessions);
    }
  }

  lemma RefreshFailsInside(cfg: Config, c: Call, env: Env, users: map<Id, User>, sessions: map<Id, Session>)
    requires c.Refresh? && AdmitRefresh(cfg, c, env.clock, users, sessions).Ok?
    ensures var d := DecideRefresh(cfg, c, env, users, sessions);
      d.Err? ==> d == Err(Internal)
  {
  }

  lemma RefreshReply(cfg: Config, db: Db, c: Call, env: Env)
    requires cfg.Valid() && Sound(db) && c.Refresh? && Exec(cfg, db, c, env).Ok?
    ensures c.ownerId in db.users && c.sessionId in db.sessions
    ensures var now, s := NormalizeTime(env.clock), db.sessions[c.sessionId];
      var sessionEnd := NormalizeTime(s.expiresAt);
      var expiresAt := if sessionEnd < now + cfg.accessTTL then sessionEnd else now + cfg.accessTTL;
      Exec(cfg, db, c, env)
      == Ok(Verdict(
           Delta(map[c.ownerId := Unmuted(db.users[c.ownerId], now)], map[c.sessionId := s.(tokenHash := env.hash)],
                 ExpiryEntries(db.users[c.ownerId], now, c.requestId)),
           Refreshed(Grant(c.ownerId, c.sessionId, now, expiresAt, (expiresAt - now) / SECOND),
                     env.hash, sessionEnd)))
  {
    var now, s := NormalizeTime(env.clock), db.sessions[c.sessionId];
    RefreshVerdict(cfg, db, c, env, Exec(cfg, db, c, env).value);
    NormalizedIsWhole(env.clock);
    NormalizedIsWhole(s.expiresAt);
    MultiplesAdd(now, cfg.accessTTL);
    LifetimeBetween(now, Earlier(NormalizeTime(s.expiresAt), now + cfg.accessTTL));
  }

  lemma LifetimeBetween(now: Time, expiresAt: Time)
    requires now % SECOND == 0 && expiresAt % SECOND == 0
    ensures Unix(expiresAt) - Unix(now) == (expiresAt - now) / SECOND
  {
  }

  /** A logout: it never tells whether there was a session to revoke. */
  lemma LogoutAnswer(cfg: Config, db: Db, c: Call, env: Env)
    requires HealthyRows(cfg, db, env.clock) && c.Logout?
    ensures var now := env.clock / SECOND * SECOND;
      Exec(cfg, db, c, env)
      == if c.userId <= 0 || c.sessionId <= 0 then Err(Internal)
         else if c.sessionId in db.sessions && db.sessions[c.sessionId].userId == c.userId
           && db.sessions[c.sessionId].revokedAt.None? then
           var revoked := db.sessions[c.sessionId].(revokedAt := Some(now));
           Ok(Verdict(Delta(map[], map[c.sessionId := revoked], []), LoggedOut))
         else Ok(Verdict(Delta(map[], map[], []), LoggedOut))
  {
    NowIsWholeSecond(env.clock);
    LogoutAccepted(cfg, db, c, env);
    if c.userId > 0 && c.sessionId > 0 {
      LogoutVerdict(cfg, db, c, env, Exec(cfg, db, c, env).value);
      OneRevoked(db, c.sessionId, c.userId, NormalizeTime(env.clock));
    } else {
      assert Precheck(cfg, c) == Fail(Internal);
    }
  }

  lemma OneRevoked(db: Db, sid: Id, userId: Id, now: Time)
    requires forall id <- db.sessions :: db.sessions[id].id == id
    ensures RevokeAll(SelectSessions(db.sessions, OwnActive(sid, userId)), now)
      == if IsActiveOf(db, sid, userId) then map[sid := db.sessions[sid].(revokedAt := Some(now))] else map[]
  {
    var selected := SelectSessions(db.sessions, OwnActive(sid, userId));
    assert forall id :: id in selected <==> id == sid && IsActiveOf(db, sid, userId);
    assert forall id :: id in RevokeAll(selected, now) <==> id == sid && IsActiveOf(db, sid, userId);
  }

  lemma EditOfOwner(cfg: Config, db: Db, c: Call, env: Env)
    requires HealthyRows(cfg, db, env.clock) && c.UpdateMe?
    ensures var plan := AdmitUpdate(cfg, c, env.clock, SelectUsers(db.users, {c.userId}),
                                    SelectSessions(db.sessions, Rows({c.sessionId}, {})));
      plan.Err? ==> plan == Err(SessionInvalid)
  {
    SampledNow(cfg, db, env);
  }

  lemma EditByOwner(cfg: Config, db: Db, c: Call, env: Env)
    requires HealthyRows(cfg, db, env.clock) && c.UpdateMe? && Precheck(cfg, c) == Pass && c.userId in db.users
    requires !db.users[c.userId].status.Expelled()
    ensures var r := CompleteUpdate(c, OwnerPlan(db.users[c.userId], NormalizeTime(env.clock)));
      if db.users[c.userId].status.Frozen? then r == Err(UserFrozen) else r.Ok?
  {
    RecoveryAccepted(cfg, db, env, c.userId, c.requestId);
    UpdateCompletes(cfg, db, c, env);
  }

  lemma UpdateMeErrors(cfg: Config, db: Db, c: Call, env: Env)
    requires HealthyRows(cfg, db, env.clock) && c.UpdateMe?
    ensures
      if (c.newName.Some? && !cfg.nameOk(c.newName.value)) || (c.newBio.Some? && |c.newBio.value| > 1000) then
        Exec(cfg, db, c, env) == Err(ValidationFailed)
      else if !Usable(db, c.userId, c.sessionId, NormalizeTime(env.clock))
        || db.users[c.userId].status in {Banned, Deleted} then Exec(cfg, db, c, env) == Err(SessionInvalid)
      else if db.users[c.userId].status == Frozen then Exec(cfg, db, c, env) == Err(UserFrozen)
      else Exec(cfg, db, c, env).Ok?
  {
    UpdateAdmitted(cfg, db, c, env);
    EditOfOwner(cfg, db, c, env);
    if Precheck(cfg, c) == Pass && c.userId in db.users && !db.users[c.userId].status.Expelled() {
      EditByOwner(cfg, db, c, env);
    }
  }

  /** An edit of the profile. */
  lemma UpdateMeAnswer(cfg: Config, db: Db, c: Call, env: Env)
    requires HealthyRows(cfg, db, env.clock) && c.UpdateMe?
    ensures var now := env.clock / SECOND * SECOND;
      Exec(cfg, db, c, env)
      == if (c.newName.Some? && !cfg.nameOk(c.newName.value)) || (c.newBio.Some? && |c.newBio.value| > 1000) then
           Err(ValidationFailed)
         else if c.userId !in db.users || db.users[c.userId].status in {Banned, Deleted}
           || c.sessionId !in db.sessions || db.sessions[c.sessionId].userId != c.userId
           || db.sessions[c.sessionId].revokedAt.Some? || db.sessions[c.sessionId].expiresAt < now + SECOND then
           Err(SessionInvalid)
         else if db.users[c.userId].status == Frozen then Err(UserFrozen)
         else
           var u := Unmuted(db.users[c.userId], now);
           var name := if c.newName.Some? then c.newName.value else u.displayName;
           var bio := if c.newBio.Some? then c.newBio.value else u.bio;
           var edited := if name == u.displayName && bio == u.bio then u
                         else u.(displayName := name, bio := bio, updatedAt := now);
           Ok(Verdict(Delta(map[c.userId := edited], map[], ExpiryEntries(db.users[c.userId], now, c.requestId)),
                      Viewed(edited.(passwordHash := ""))))
  {
    NowIsWholeSecond(env.clock);
    UnusableIsNotUsable(db, c.userId, c.sessionId, NormalizeTime(env.clock));
    UpdateMeErrors(cfg, db, c, env);
    if Exec(cfg, db, c, env).Ok? {
      UpdateMeVerdict(cfg, db, c, env, Exec(cfg, db, c, env).value);
    }
  }

  lemma DeletionOfOwner(cfg: Config, db: Db, c: Call, env: Env)
    requires HealthyRows(cfg, db, env.clock) && c.DeleteMe?
    ensures var plan := AdmitDelete(cfg, c, env.clock, SelectUsers(db.users, {c.userId}),
                                    SelectSessions(db.sessions, Rows({}, {c.userId})));
      plan.Err? ==> plan == Err(SessionInvalid)
  {
    SampledNow(cfg, db, env);
  }

  lemma DeletionByOwner(cfg: Config, db: Db, c: Call, env: Env)
    requires HealthyRows(cfg, db, env.clock) && c.DeleteMe? && c.userId in db.users
    requires !db.users[c.userId].status.Expelled()
    ensures var r := CompleteDelete(c, OwnerPlan(db.users[c.userId], NormalizeTime(env.clock)),
                                    SelectSessions(db.sessions, Rows({}, {c.userId})));
      if db.users[c.userId].status.Frozen? then r == Err(UserFrozen) else r.Ok?
  {
    RecoveryAccepted(cfg, db, env, c.userId, c.requestId);
    DeleteCompletes(cfg, db, c, env);
  }

  lemma DeleteMeErrors(cfg: Config, db: Db, c: Call, env: Env)
    requires HealthyRows(cfg, db, env.clock) && c.DeleteMe?
    ensures
      if !Usable(db, c.userId, c.sessionId, NormalizeTime(env.clock))
        || db.users[c.userId].status in {Banned, Deleted} then Exec(cfg, db, c, env) == Err(SessionInvalid)
      else if db.users[c.userId].status == Frozen then Exec(cfg, db, c, env) == Err(UserFrozen)
      else Exec(cfg, db, c, env).Ok?
  {
    DeleteAdmittedExactly(cfg, db, c, env);
    DeletionOfOwner(cfg, db, c, env);
    if c.userId in db.users && !db.users[c.userId].status.Expelled() {
      DeletionByOwner(cfg, db, c, env);
    }
  }

  lemma AllRevoked(db: Db, userId: Id, now: Time)
    ensures RevokeAll(SelectSessions(db.sessions, Rows({}, {userId})), now)
      == map sid | sid in db.sessions && db.sessions[sid].userId == userId
                   && db.sessions[sid].revokedAt.None? :: db.sessions[sid].(revokedAt := Some(now))
  {
    var revoked := RevokeAll(SelectSessions(db.sessions, Rows({}, {userId})), now);
    var expected := map sid | sid in db.sessions && db.sessions[sid].userId == userId
                              && db.sessions[sid].revokedAt.None? :: db.sessions[sid].(revokedAt := Some(now));
    assert forall sid :: sid in revoked <==> sid in expected;
    assert forall sid | sid in revoked :: revoked[sid] == expected[sid];
    assert revoked == expected;
  }

  lemma DeletedWhicheverMute(u: User, now: Time)
    ensures DeletedRow(Unmuted(u, now), now)
      == u.(status := Deleted, mutedUntil := None, updatedAt := now, deletedAt := Some(now))
  {
  }

  /** A self-deletion. */
  lemma DeleteMeAnswer(cfg: Config, db: Db, c: Call, env: Env)
    requires HealthyRows(cfg, db, env.clock) && c.DeleteMe?
    ensures var now := env.clock / SECOND * SECOND;
      Exec(cfg, db, c, env)
      == if c.userId !in db.users || db.users[c.userId].status in {Banned, Deleted}
           || c.sessionId !in db.sessions || db.sessions[c.sessionId].userId != c.userId
           || db.sessions[c.sessionId].revokedAt.Some? || db.sessions[c.sessionId].expiresAt < now + SECOND then
           Err(SessionInvalid)
         else if db.users[c.userId].status == Frozen then Err(UserFrozen)
         else
           var u := db.users[c.userId];
           var deleted := u.(status := Deleted, mutedUntil := None, updatedAt := now, deletedAt := Some(now));
           var revoked := map sid | sid in db.sessions && db.sessions[sid].userId == c.userId
                                    && db.sessions[sid].revokedAt.None? :: db.sessions[sid].(revokedAt := Some(now));
           Ok(Verdict(Delta(map[c.userId := deleted], revoked, ExpiryEntries(u, now, c.requestId)), AccountDeleted))
  {
    NowIsWholeSecond(env.clock);
    UnusableIsNotUsable(db, c.userId, c.sessionId, NormalizeTime(env.clock));
    DeleteMeErrors(cfg, db, c, env);
    if Exec(cfg, db, c, env).Ok? {
      DeleteMeVerdict(cfg, db, c, env, Exec(cfg, db, c, env).value);
      AllRevoked(db, c.userId, NormalizeTime(env.clock));
      DeletedWhicheverMute(db.users[c.userId], NormalizeTime(env.clock));
    }
  }

  /** The operator's promotion of an active user. */
  lemma PromoteAnswer(cfg: Config, db: Db, c: Call, env: Env)
    requires HealthyRows(cfg, db, env.clock) && c.Promote?
    ensures Exec(cfg, db, c, env)
      == if c.userId !in db.users || db.users[c.userId].role == RoleAdmin || db.users[c.userId].status != Active then
           Err(NotFound)
         else
           var row := db.users[c.userId].(role := RoleAdmin, updatedAt := env.clock / SECOND * SECOND);
           Ok(Verdict(Delta(map[c.userId := row], map[], []), Promoted))
  {
    NowIsWholeSecond(env.clock);
  }

  /** The checks of a status change on its input. */
  lemma StatusInput(cfg: Config, c: Call)
    requires c.ChangeStatus?
    ensures Precheck(cfg, c)
      == if c.actorId <= 0 || c.actorSessionId <= 0 || c.targetId <= 0 then Fail(SessionInvalid)
         else if c.actorId == c.targetId then Fail(AdminTargetForbidden)
         else if |c.reason| > 1000 || c.newStatus in {Pending, Deleted}
           || (c.newStatus == Muted <==> c.mutedUntil.None?)
           || (c.mutedUntil.Some? && !Presentable(c.mutedUntil.value)) then Fail(ValidationFailed)
         else Pass
  {
    if c.mutedUntil.Some? {
      PresentableIsValid(c.mutedUntil.value);
    }
  }

  /** The checks of a status change on the session and the row of the administrator. */
  lemma StatusActor(cfg: Config, db: Db, c: Call, env: Env)
    requires HealthyRows(cfg, db, env.clock) && c.ChangeStatus? && Precheck(cfg, c) == Pass
    ensures var now, users := NormalizeTime(env.clock), SelectUsers(db.users, UserIds(c));
      CheckActor(cfg, c, env.clock, users, SelectSessions(db.sessions, SessionCondition(c, users)))
      == if c.actorId !in db.users || c.actorSessionId !in db.sessions then Err(SessionInvalid)
         else if c.newStatus == Muted && c.mutedUntil.value < now + SECOND then Err(ValidationFailed)
         else if !Usable(db, c.actorId, c.actorSessionId, now) then Err(SessionInvalid)
         else Ok((now, db.users[c.actorId]))
  {
    var users := SelectUsers(db.users, UserIds(c));
    var sessions := SelectSessions(db.sessions, SessionCondition(c, users));
    SampledNow(cfg, db, env);
    ActorSessionSelected(db, c, users);
    WellFormedScan(c, sessions);
    if c.mutedUntil.Some? {
      EndsLater(c.mutedUntil.value, NormalizeTime(env.clock));
    }
  }

  /** The checks of a status change on both parties. */
  lemma StatusParties(cfg: Config, db: Db, c: Call, env: Env)
    requires HealthyRows(cfg, db, env.clock) && c.ChangeStatus? && c.actorId in db.users
    ensures var now, actor := NormalizeTime(env.clock), db.users[c.actorId];
      PlanStatus(cfg, c, now, actor, SelectUsers(db.users, UserIds(c)))
      == if actor.status in {Banned, Deleted} then Err(SessionInvalid)
         else if actor.role != RoleAdmin then Err(AdminRequired)
         else if actor.status == Frozen then Err(UserFrozen)
         else if c.targetId !in db.users then Err(UserNotFound)
         else if db.users[c.targetId].status == Deleted then Err(InvalidStatusTransition)
         else if db.users[c.targetId].role == RoleAdmin then Err(AdminTargetForbidden)
         else
           var target := db.users[c.targetId];
           Ok(StatusPlan(now, Unmuted(actor, now), ExpiryEntries(actor, now, c.requestId),
                         Unmuted(target, now), ExpiryEntries(target, now, c.requestId)))
  {
    RecoveryAccepted(cfg, db, env, c.actorId, c.requestId);
    if c.targetId in db.users {
      RecoveryAccepted(cfg, db, env, c.targetId, c.requestId);
    }
  }

  /** The sessions that a ban revokes are the active sessions of the target. */
  lemma BanRevokes(db: Db, c: Call, now: Time)
    requires Sound(db) && c.ChangeStatus? && c.newStatus == Banned
    requires c.actorSessionId in db.sessions && db.sessions[c.actorSessionId].userId != c.targetId
    requires c.targetId in db.users && db.users[c.targetId].status != Banned
    ensures var users := SelectUsers(db.users, UserIds(c));
      RevokeAll(SelectSessions(db.sessions, SessionCondition(c, users)) - {c.actorSessionId}, now)
      == map sid | sid in db.sessions && db.sessions[sid].userId == c.targetId
                   && db.sessions[sid].revokedAt.None? :: db.sessions[sid].(revokedAt := Some(now))
  {
    var users := SelectUsers(db.users, UserIds(c));
    assert ScansSessions(c, users);
    var locked := SelectSessions(db.sessions, Rows({c.actorSessionId}, {c.targetId}));
    var revoked := RevokeAll(locked - {c.actorSessionId}, now);
    var expected := map sid | sid in db.sessions && db.sessions[sid].userId == c.targetId
                              && db.sessions[sid].revokedAt.None? :: db.sessions[sid].(revokedAt := Some(now));
    assert forall sid :: sid in revoked <==> sid in expected;
    assert forall sid | sid in revoked :: revoked[sid] == expected[sid];
    assert revoked == expected;
  }

  /** The decision on an administrator's move: from pending and from banned only to active, otherwise to
      anything; the standing that is already there is not written again. */
  lemma StatusMoveAnswer(cfg: Config, db: Db, c: Call, env: Env, p: StatusPlan)
    requires HealthyRows(cfg, db, env.clock) && c.ChangeStatus? && Precheck(cfg, c) == Pass && c.targetId in db.users
    requires p.now == NormalizeTime(env.clock) && p.target == Unmuted(db.users[c.targetId], p.now)
    requires p.target.status != Deleted
    requires c.actorSessionId in db.sessions && db.sessions[c.actorSessionId].userId == c.actorId
    ensures var wanted := if c.mutedUntil.Some? then Some(NormalizeTime(c.mutedUntil.value)) else None;
      var sessions := SelectSessions(db.sessions, SessionCondition(c, SelectUsers(db.users, UserIds(c))));
      var pending := if c.actorId < c.targetId then p.actorAudit + p.targetAudit else p.targetAudit + p.actorAudit;
      CompleteStatus(c, p, sessions)
      == if p.target.status == c.newStatus && p.target.mutedUntil == wanted then
           Ok(Verdict(Delta(map[c.actorId := p.actor, c.targetId := p.target], map[], pending),
                      Viewed(p.target.(passwordHash := ""))))
         else if p.target.status in {Pending, Banned} && c.newStatus != Active then Err(InvalidStatusTransition)
         else
           var row := p.target.(status := c.newStatus, mutedUntil := wanted, updatedAt := p.now);
           var entry := AuditEntry(StatusChanged, Some(c.actorId), c.targetId, p.target.status, c.newStatus,
                                   p.target.mutedUntil, wanted, c.reason, c.requestId, p.now);
           var revoked := if c.newStatus != Banned then map[]
                          else map sid | sid in db.sessions && db.sessions[sid].userId == c.targetId
                                         && db.sessions[sid].revokedAt.None? ::
                                 db.sessions[sid].(revokedAt := Some(p.now));
           Ok(Verdict(Delta(map[c.actorId := p.actor, c.targetId := row], revoked, pending + [entry]),
                      Viewed(row.(passwordHash := ""))))
  {
    ChangeAccepted(cfg, db, c, env, p);
    if c.newStatus == Banned && db.users[c.targetId].status != Banned {
      BanRevokes(db, c, p.now);
    }
  }

  /** A status change by an administrator: the errors in their order, and the whole of what it does. */
  lemma ChangeStatusAnswer(cfg: Config, db: Db, c: Call, env: Env)
    requires HealthyRows(cfg, db, env.clock) && c.ChangeStatus?
    ensures var now := NormalizeTime(env.clock);
      var wanted := if c.mutedUntil.Some? then Some(NormalizeTime(c.mutedUntil.value)) else None;
      Exec(cfg, db, c, env)
      == if c.actorId <= 0 || c.actorSessionId <= 0 || c.targetId <= 0 then Err(SessionInvalid)
         else if c.actorId == c.targetId then Err(AdminTargetForbidden)
         else if |c.reason| > 1000 || c.newStatus in {Pending, Deleted}
           || (c.newStatus == Muted <==> c.mutedUntil.None?)
           || (c.mutedUntil.Some? && !Presentable(c.mutedUntil.value)) then Err(ValidationFailed)
         else if c.actorId !in db.users || c.actorSessionId !in db.sessions then Err(SessionInvalid)
         else if c.newStatus == Muted && c.mutedUntil.value < now + SECOND then Err(ValidationFailed)
         else if db.sessions[c.actorSessionId].userId != c.actorId
           || db.sessions[c.actorSessionId].revokedAt.Some?
           || db.sessions[c.actorSessionId].expiresAt < now + SECOND
           || db.users[c.actorId].status in {Banned, Deleted} then Err(SessionInvalid)
         else if db.users[c.actorId].role != RoleAdmin then Err(AdminRequired)
         else if db.users[c.actorId].status == Frozen then Err(UserFrozen)
         else if c.targetId !in db.users then Err(UserNotFound)
         else if db.users[c.targetId].status == Deleted then Err(InvalidStatusTransition)
         else if db.users[c.targetId].role == RoleAdmin then Err(AdminTargetForbidden)
         else
           var actor, target := Unmuted(db.users[c.actorId], now), Unmuted(db.users[c.targetId], now);
           var ofActor := ExpiryEntries(db.users[c.actorId], now, c.requestId);
           var ofTarget := ExpiryEntries(db.users[c.targetId], now, c.requestId);
           var pending := if c.actorId < c.targetId then ofActor + ofTarget else ofTarget + ofActor;
           if target.status == c.newStatus && target.mutedUntil == wanted then
             Ok(Verdict(Delta(map[c.actorId := actor, c.targetId := target], map[], pending),
                        Viewed(target.(passwordHash := ""))))
           else if target.status in {Pending, Banned} && c.newStatus != Active then Err(InvalidStatusTransition)
           else
             var row := target.(status := c.newStatus, mutedUntil := wanted, updatedAt := now);
             var entry := AuditEntry(StatusChanged, Some(c.actorId), c.targetId, target.status, c.newStatus,
                                     target.mutedUntil, wanted, c.reason, c.requestId, now);
             var revoked := if c.newStatus != Banned then map[]
                            else map sid | sid in db.sessions && db.sessions[sid].userId == c.targetId
                                           && db.sessions[sid].revokedAt.None? ::
                                   db.sessions[sid].(revokedAt := Some(now));
             Ok(Verdict(Delta(map[c.actorId := actor, c.targetId := row], revoked, pending + [entry]),
                        Viewed(row.(passwordHash := ""))))
  {
    var now, users := NormalizeTime(env.clock), SelectUsers(db.users, UserIds(c));
    StatusInput(cfg, c);
    NormalizedIsWhole(env.clock);
    UnusableIsNotUsable(db, c.actorId, c.actorSessionId, now);
    if Precheck(cfg, c) == Pass {
      StatusActor(cfg, db, c, env);
      var checked := CheckActor(cfg, c, env.clock, users, SelectSessions(db.sessions, SessionCondition(c, users)));
      if checked.Ok? {
        StatusParties(cfg, db, c, env);
        var plan := PlanStatus(cfg, c, now, db.users[c.actorId], users);
        if plan.Ok? {
          StatusMoveAnswer(cfg, db, c, env, plan.value);
        }
      }
    }
  }

  /** A row that meets the table constraints and that the service still does not trust. */
  predicate MalformedSession(s: Session) {
    !Presentable(s.createdAt) || !Presentable(s.expiresAt) || s.expiresAt / SECOND <= s.createdAt / SECOND
  }

  predicate MalformedUser(cfg: Config, u: User) {
    || !cfg.emailOk(u.email) || !cfg.nameOk(u.displayName)
    || !Presentable(u.createdAt) || !Presentable(u.updatedAt)
    || (u.mutedUntil.Some? && !Presentable(u.mutedUntil.value))
    || (u.deletedAt.Some? && !Presentable(u.deletedAt.value))
  }

  lemma MalformedSessionIsInvalid(db: Db, sid: Id)
    requires Sound(db) && sid in db.sessions
    ensures ValidSessionStructure(db.sessions[sid], sid) <==> !MalformedSession(db.sessions[sid])
  {
    var s := db.sessions[sid];
    PresentableIsValid(s.createdAt);
    PresentableIsValid(s.expiresAt);
    NowIsWholeSecond(s.createdAt);
    NowIsWholeSecond(s.expiresAt);
  }

  lemma MalformedUserIsInvalid(cfg: Config, db: Db, id: Id)
    requires Sound(db) && id in db.users
    ensures ValidUserStructure(cfg, db.users[id], id, false) <==> !MalformedUser(cfg, db.users[id])
    ensures ValidUserFields(cfg, db.users[id], id, false) <==> !MalformedUser(cfg, db.users[id])
  {
    var u := db.users[id];
    PresentableIsValid(u.createdAt);
    PresentableIsValid(u.updatedAt);
    if u.mutedUntil.Some? {
      PresentableIsValid(u.mutedUntil.value);
    }
    if u.deletedAt.Some? {
      PresentableIsValid(u.deletedAt.value);
    }
  }

  /** A recovery and an edit report malformed rows as internal errors, an edit its session first. */
  lemma MalformedEdit(cfg: Config, db: Db, c: Call, env: Env)
    requires Sound(db) && Precheck(cfg, c) == Pass && (c.RecoverMute? || c.UpdateMe?) && c.userId in db.users
    requires c.UpdateMe? ==> c.sessionId in db.sessions
    ensures c.RecoverMute? && MalformedUser(cfg, db.users[c.userId]) ==> Exec(cfg, db, c, env) == Err(Internal)
    ensures c.UpdateMe? && MalformedSession(db.sessions[c.sessionId]) ==> Exec(cfg, db, c, env) == Err(Internal)
    ensures c.UpdateMe? && !MalformedSession(db.sessions[c.sessionId]) && !IsActiveOf(db, c.sessionId, c.userId) ==>
      Exec(cfg, db, c, env) == Err(SessionInvalid)
    ensures c.UpdateMe? && IsActiveOf(db, c.sessionId, c.userId) && MalformedUser(cfg, db.users[c.userId]) ==>
      Exec(cfg, db, c, env) == Err(Internal)
  {
    MalformedUserIsInvalid(cfg, db, c.userId);
    if c.UpdateMe? {
      MalformedSessionIsInvalid(db, c.sessionId);
    }
  }

  /** A self-deletion reports a malformed row among the active sessions first, then a lost session, then a
      malformed user. */
  lemma MalformedDeletion(cfg: Config, db: Db, c: Call, env: Env)
    requires Sound(db) && Precheck(cfg, c) == Pass && c.DeleteMe? && c.userId in db.users
    ensures Exec(cfg, db, c, env)
      == if exists sid <- db.sessions :: IsActiveOf(db, sid, c.userId) && MalformedSession(db.sessions[sid]) then
           Err(Internal)
         else if !IsActiveOf(db, c.sessionId, c.userId) then Err(SessionInvalid)
         else if MalformedUser(cfg, db.users[c.userId]) then Err(Internal)
         else Exec(cfg, db, c, env)
  {
    MalformedUserIsInvalid(cfg, db, c.userId);
    var own := SelectSessions(db.sessions, Rows({}, {c.userId}));
    assert forall sid :: sid in own <==> IsActiveOf(db, sid, c.userId);
    forall sid | sid in db.sessions
      ensures ValidSessionStructure(db.sessions[sid], sid) <==> !MalformedSession(db.sessions[sid])
    {
      MalformedSessionIsInvalid(db, sid);
    }
  }

  /** A status change finds its own malformed session in the scan of a ban, as an internal error; otherwise the
      session is simply invalid. */
  lemma MalformedAdminSession(cfg: Config, db: Db, c: Call, env: Env)
    requires Sound(db) && Precheck(cfg, c) == Pass && c.ChangeStatus? && ValidAuthTime(env.clock)
    requires c.actorId in db.users && c.actorSessionId in db.sessions
    requires c.newStatus == Muted ==> c.mutedUntil.value >= NormalizeTime(env.clock) + SECOND
    requires MalformedSession(db.sessions[c.actorSessionId])
    ensures Exec(cfg, db, c, env)
      == if c.newStatus == Banned && !(c.targetId in db.users && db.users[c.targetId].status == Banned) then
           Err(Internal)
         else Err(SessionInvalid)
  {
    MalformedSessionIsInvalid(db, c.actorSessionId);
    if c.mutedUntil.Some? {
      NormalizedIsWhole(env.clock);
      EndsLater(c.mutedUntil.value, NormalizeTime(env.clock));
    }
  }

  lemma AdmitsAdmin(cfg: Config, db: Db, c: Call, env: Env)
    requires Sound(db) && Precheck(cfg, c) == Pass && c.ChangeStatus? && ValidAuthTime(env.clock)
    requires c.actorId in db.users && Usable(db, c.actorId, c.actorSessionId, NormalizeTime(env.clock))
    requires c.newStatus == Muted ==> c.mutedUntil.value >= NormalizeTime(env.clock) + SECOND
    requires forall sid <- db.sessions :: ValidSessionStructure(db.sessions[sid], sid)
    ensures var users := SelectUsers(db.users, UserIds(c));
      CheckActor(cfg, c, env.clock, users, SelectSessions(db.sessions, SessionCondition(c, users)))
      == if ValidUserStructure(cfg, db.users[c.actorId], c.actorId, false) then
           Ok((NormalizeTime(env.clock), db.users[c.actorId]))
         else Err(Internal)
  {
    var users := SelectUsers(db.users, UserIds(c));
    ActorSessionSelected(db, c, users);
    WellFormedScan(c, SelectSessions(db.sessions, SessionCondition(c, users)));
    if c.mutedUntil.Some? {
      NormalizedIsWhole(env.clock);
      EndsLater(c.mutedUntil.value, NormalizeTime(env.clock));
    }
  }

  /** It reports a malformed administrator, and then a malformed target, as an internal error. */
  lemma MalformedParty(cfg: Config, db: Db, c: Call, env: Env)
    requires Sound(db) && Precheck(cfg, c) == Pass && c.ChangeStatus? && ValidAuthTime(env.clock)
    requires c.actorId in db.users && Usable(db, c.actorId, c.actorSessionId, NormalizeTime(env.clock))
    requires c.newStatus == Muted ==> c.mutedUntil.value >= NormalizeTime(env.clock) + SECOND
    requires forall sid <- db.sessions :: !MalformedSession(db.sessions[sid])
    requires MalformedUser(cfg, db.users[c.actorId])
      || (db.users[c.actorId].role == RoleAdmin && db.users[c.actorId].status == Active
          && c.targetId in db.users && db.users[c.targetId].role == RoleUser && db.users[c.targetId].status != Deleted
          && MalformedUser(cfg, db.users[c.targetId]))
    ensures Exec(cfg, db, c, env) == Err(Internal)
  {
    forall sid | sid in db.sessions
      ensures ValidSessionStructure(db.sessions[sid], sid)
    {
      MalformedSessionIsInvalid(db, sid);
    }
    AdmitsAdmin(cfg, db, c, env);
    MalformedUserIsInvalid(cfg, db, c.actorId);
    if c.targetId in db.users {
      MalformedUserIsInvalid(cfg, db, c.targetId);
    }
  }
}
