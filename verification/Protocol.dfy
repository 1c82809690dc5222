/** What each call of the service decides once it holds its row locks.

    A call selects user rows, then session rows, and decides on the locked rows alone whether to
    reject or to commit a `Delta`. `Exec` runs one call on a database in one go. */
module Protocol {
  import opened Wrappers
  import opened Domain
  import opened Database

  /** A call after the reads that it makes without locks: `credentialHash`, `ownerId` and the `now` of
      `RecoverMute` are whatever those earlier reads returned, however stale. `Promote` is the
      operator's statement that makes an active user an administrator. */
  datatype Call =
    | Register(email: string, passwordHash: string, displayName: string)
    | Login(userId: Id, credentialHash: string, requestId: string)
    | Refresh(sessionId: Id, candidate: Digest, ownerId: Id, requestId: string)
    | Logout(userId: Id, sessionId: Id)
    | RecoverMute(userId: Id, now: Time, requestId: string)
    | UpdateMe(userId: Id, sessionId: Id, newName: Option<string>, newBio: Option<string>, requestId: string)
    | DeleteMe(userId: Id, sessionId: Id, requestId: string)
    | ChangeStatus(actorId: Id, actorSessionId: Id, targetId: Id, newStatus: Status,
                   mutedUntil: Option<Time>, reason: string, requestId: string)
    | Promote(userId: Id)

  /** What a call samples from its surroundings: the clock, a sequence value for a new row, and the
      digest of a freshly generated refresh secret. */
  datatype Env = Env(clock: Time, freshId: Id, hash: Digest)

  /** The claims of an access token that depend on the call, and the reported lifetime. */
  datatype Grant = Grant(userId: Id, sessionId: Id, issuedAt: Time, expiresAt: Time, expiresIn: int)

  datatype Reply =
    | Registered(user: User)
    | LoggedIn(access: Grant, refreshHash: Digest, refreshExpiresAt: Time, user: User)
    | Refreshed(access: Grant, refreshHash: Digest, refreshExpiresAt: Time)
    | LoggedOut
    | Viewed(user: User)
    | AccountDeleted
    | Promoted

  datatype Verdict = Verdict(delta: Delta, reply: Reply)

  /** The checks on the input that precede the transaction. */
  function Precheck(cfg: Config, c: Call): Check {
    match c
    case Register(email, hash, name) =>
      Need(cfg.emailOk(email) && cfg.nameOk(name), ValidationFailed)
    case Login(userId, _, _) =>
      Need(userId > 0, Internal)
    case Refresh(sessionId, _, ownerId, _) =>
      if sessionId <= 0 then Fail(InvalidRefreshToken) else Need(ownerId > 0, Internal)
    case Logout(userId, sessionId) =>
      Need(userId > 0 && sessionId > 0, Internal)
    case RecoverMute(userId, now, _) =>
      Need(userId > 0 && ValidAuthTime(now) && NormalizeTime(now) == now, Internal)
    case UpdateMe(userId, sessionId, name, bio, _) =>
      if (name.Some? && !cfg.nameOk(name.value)) || (bio.Some? && |bio.value| > 1000) then
        Fail(ValidationFailed)
      else
        Need(userId > 0 && sessionId > 0, SessionInvalid)
    case DeleteMe(userId, sessionId, _) =>
      Need(userId > 0 && sessionId > 0, SessionInvalid)
    case ChangeStatus(actorId, actorSessionId, targetId, newStatus, mutedUntil, reason, _) =>
      if actorId <= 0 || actorSessionId <= 0 || targetId <= 0 then Fail(SessionInvalid)
      else if actorId == targetId then Fail(AdminTargetForbidden)
      else
        Need(
          && |reason| <= 1000
          && ValidAdminStatus(newStatus)
          && (if newStatus.Muted? then mutedUntil.Some? && ValidAuthTime(mutedUntil.value)
              else mutedUntil.None?),
          ValidationFailed)
    case Promote(_) => Pass
  }

  /** The user rows a call locks. */
  function UserIds(c: Call): set<Id> {
    match c
    case Register(_, _, _) => {}
    case Logout(_, _) => {}
    case Refresh(_, _, ownerId, _) => {ownerId}
    case ChangeStatus(actorId, _, targetId, _, _, _, _) => {actorId, targetId}
    case _ => {c.userId}
  }

  /** A ban of a user who is already banned needs no session of the target. */
  predicate BanIsDone(users: map<Id, User>, targetId: Id) {
    targetId in users && users[targetId].status.Banned? && users[targetId].mutedUntil.None?
  }

  /** A ban locks the target's active sessions too, and scans all that it locked. */
  predicate ScansSessions(c: Call, users: map<Id, User>)
    requires c.ChangeStatus?
  {
    c.newStatus.Banned? && !BanIsDone(users, c.targetId)
  }

  /** The session rows a call locks, given the user rows it holds. */
  function SessionCondition(c: Call, users: map<Id, User>): Condition {
    match c
    case Refresh(sessionId, _, _, _) => Rows({sessionId}, {})
    case UpdateMe(_, sessionId, _, _, _) => Rows({sessionId}, {})
    case DeleteMe(userId, _, _) => Rows({}, {userId})
    case ChangeStatus(_, actorSessionId, targetId, newStatus, _, _, _) =>
      if ScansSessions(c, users) then Rows({actorSessionId}, {targetId})
      else Rows({actorSessionId}, {})
    case Logout(userId, sessionId) => OwnActive(sessionId, userId)
    case _ => NoRows
  }

  /** Lazy recovery of an expired mute, with the audit entry that is still to be written. */
  function RecoverUser(u: User, now: Time, requestId: string): Outcome<(User, seq<AuditEntry>)> {
    if !u.status.Muted? then Ok((u, []))
    else if u.mutedUntil.None? then Err(Internal)
    else if u.mutedUntil.value > now then Ok((u, []))
    else
      var recovered := u.(status := Active, mutedUntil := None, updatedAt := now);
      if UserRowOk(recovered) then Ok((recovered, [MuteExpiredEntry(u, now, requestId)])) else Err(Internal)
  }

  function MakeGrant(userId: Id, sessionId: Id, now: Time, expiresAt: Time): Grant {
    Grant(userId, sessionId, now, expiresAt, Unix(expiresAt) - Unix(now))
  }

  function Earlier(a: Time, b: Time): Time {
    if a < b then a else b
  }

  function DecideRegister(c: Call, env: Env): Outcome<Verdict>
    requires c.Register?
  {
    var now :- SampleNow(env.clock);
    var user := NewUserRow(env.freshId, c.email, c.passwordHash, c.displayName, now);
    :- Need(UserRowOk(user), Internal);
    Ok(Verdict(Delta(map[user.id := user], map[], []), Registered(SecretFree(user))))
  }

  /** An admitted login: the locked user, the instant of the call, and the two expiries. */
  datatype LoginPlan = LoginPlan(user: User, now: Time, refreshExpiresAt: Time, accessExpiresAt: Time)

  function AdmitLogin(cfg: Config, c: Call, clock: Time, users: map<Id, User>): Outcome<LoginPlan>
    requires c.Login?
  {
    var found := c.userId in users;
    :- Need(found, InvalidCredentials);
    var user := users[c.userId];
    :- Need(user.passwordHash == c.credentialHash && user.deletedAt.None? && user.status.CanLogin(),
            InvalidCredentials);
    var now :- SampleNow(clock);
    var refreshExpiresAt := NormalizeTime(now + cfg.refreshTTL);
    var accessExpiresAt := NormalizeTime(now + cfg.accessTTL);
    :- Need(ValidExpiry(now, refreshExpiresAt) && ValidExpiry(now, accessExpiresAt), Internal);
    Ok(LoginPlan(user, now, refreshExpiresAt, accessExpiresAt))
  }

  function CompleteLogin(c: Call, env: Env, p: LoginPlan): Outcome<Verdict>
    requires c.Login?
  {
    var recovery :- RecoverUser(p.user, p.now, c.requestId);
    var session := Session(env.freshId, c.userId, env.hash, p.refreshExpiresAt, None, p.now);
    var expiresAt := Earlier(p.refreshExpiresAt, p.accessExpiresAt);
    :- Need(SessionRowOk(session) && expiresAt != ZERO_TIME, Internal);
    Ok(Verdict(
      Delta(map[c.userId := recovery.0], map[session.id := session], recovery.1),
      LoggedIn(MakeGrant(c.userId, session.id, p.now, expiresAt), env.hash, p.refreshExpiresAt,
               SecretFree(recovery.0))))
  }

  function DecideLogin(cfg: Config, c: Call, env: Env, users: map<Id, User>): Outcome<Verdict>
    requires c.Login?
  {
    var plan :- AdmitLogin(cfg, c, env.clock, users);
    CompleteLogin(c, env, plan)
  }

  datatype RefreshPlan = RefreshPlan(
    user: User, session: Session, now: Time, sessionExpiresAt: Time, accessExpiresAt: Time)

  function AdmitRefresh(cfg: Config, c: Call, clock: Time, users: map<Id, User>, sessions: map<Id, Session>)
    : Outcome<RefreshPlan>
    requires c.Refresh?
  {
    var found := c.ownerId in users && c.sessionId in sessions;
    :- Need(found, InvalidRefreshToken);
    var user, session := users[c.ownerId], sessions[c.sessionId];
    :- Need(
      && session.userId == c.ownerId && session.revokedAt.None?
      && session.tokenHash == c.candidate
      && user.deletedAt.None? && user.status.CanLogin(),
      InvalidRefreshToken);
    :- Need(user.status.Muted? ==> user.mutedUntil.Some?, Internal);
    var now :- SampleNow(clock);
    var sessionExpiresAt := NormalizeTime(session.expiresAt);
    :- Need(ValidExpiry(now, sessionExpiresAt), InvalidRefreshToken);
    Ok(RefreshPlan(user, session, now, sessionExpiresAt, Earlier(sessionExpiresAt, NormalizeTime(now + cfg.accessTTL))))
  }

  function CompleteRefresh(c: Call, env: Env, p: RefreshPlan): Outcome<Verdict>
    requires c.Refresh?
  {
    var recovery :- RecoverUser(p.user, p.now, c.requestId);
    var rotated := p.session.(tokenHash := env.hash);
    :- Need(SessionRowOk(rotated) && p.accessExpiresAt != ZERO_TIME, Internal);
    Ok(Verdict(
      Delta(map[c.ownerId := recovery.0], map[c.sessionId := rotated], recovery.1),
      Refreshed(MakeGrant(c.ownerId, c.sessionId, p.now, p.accessExpiresAt), env.hash, p.sessionExpiresAt)))
  }

  function DecideRefresh(cfg: Config, c: Call, env: Env, users: map<Id, User>, sessions: map<Id, Session>)
    : Outcome<Verdict>
    requires c.Refresh?
  {
    var plan :- AdmitRefresh(cfg, c, env.clock, users, sessions);
    CompleteRefresh(c, env, plan)
  }

  function DecideLogout(env: Env, sessions: map<Id, Session>): Outcome<Verdict> {
    var now :- SampleNow(env.clock);
    var revoked := RevokeAll(sessions, now);
    :- Need(forall id <- revoked :: SessionRowOk(revoked[id]), Internal);
    Ok(Verdict(Delta(map[], revoked, []), LoggedOut))
  }

  function DecideRecoverMute(cfg: Config, c: Call, users: map<Id, User>): Outcome<Verdict>
    requires c.RecoverMute?
  {
    var found := c.userId in users;
    :- Need(found, NotFound);
    :- Need(ValidUserStructure(cfg, users[c.userId], c.userId, false), Internal);
    var recovery :- RecoverUser(users[c.userId], c.now, c.requestId);
    Ok(Verdict(Delta(map[c.userId := recovery.0], map[], recovery.1), Viewed(SecretFree(recovery.0))))
  }

  /** The row after a profile edit; equal values are not written. */
  function Edited(u: User, name: Option<string>, bio: Option<string>, now: Time): User {
    var newName := if name.Some? then name.value else u.displayName;
    var newBio := if bio.Some? then bio.value else u.bio;
    if newName == u.displayName && newBio == u.bio then u
    else u.(displayName := newName, bio := newBio, updatedAt := now)
  }

  /** The locked row of an authenticated user, and the instant of the call. */
  datatype OwnerPlan = OwnerPlan(user: User, now: Time)

  function AdmitUpdate(cfg: Config, c: Call, clock: Time, users: map<Id, User>, sessions: map<Id, Session>)
    : Outcome<OwnerPlan>
    requires c.UpdateMe?
  {
    var found := c.userId in users && c.sessionId in sessions;
    :- Need(found, SessionInvalid);
    var user, session := users[c.userId], sessions[c.sessionId];
    :- Need(ValidSessionStructure(session, c.sessionId), Internal);
    :- Need(session.userId == c.userId && session.revokedAt.None?, SessionInvalid);
    :- StrictUserCheck(cfg, user, c.userId, false);
    var now :- SampleNow(clock);
    :- Need(NormalizeTime(session.expiresAt) > now, SessionInvalid);
    Ok(OwnerPlan(user, now))
  }

  function CompleteUpdate(c: Call, p: OwnerPlan): Outcome<Verdict>
    requires c.UpdateMe?
  {
    var recovery :- RecoverUser(p.user, p.now, c.requestId);
    :- Need(!recovery.0.status.Frozen?, UserFrozen);
    var edited := Edited(recovery.0, c.newName, c.newBio, p.now);
    :- Need(UserRowOk(edited), Internal);
    Ok(Verdict(Delta(map[c.userId := edited], map[], recovery.1), Viewed(SecretFree(edited))))
  }

  function DecideUpdateMe(cfg: Config, c: Call, env: Env, users: map<Id, User>, sessions: map<Id, Session>)
    : Outcome<Verdict>
    requires c.UpdateMe?
  {
    var plan :- AdmitUpdate(cfg, c, env.clock, users, sessions);
    CompleteUpdate(c, plan)
  }

  function AdmitDelete(cfg: Config, c: Call, clock: Time, users: map<Id, User>, sessions: map<Id, Session>)
    : Outcome<OwnerPlan>
    requires c.DeleteMe?
  {
    var found := c.userId in users;
    :- Need(found, SessionInvalid);
    :- Need(forall id <- sessions :: ValidSessionStructure(sessions[id], id), Internal);
    :- Need(c.sessionId in sessions, SessionInvalid);
    :- StrictUserCheck(cfg, users[c.userId], c.userId, false);
    var now :- SampleNow(clock);
    :- Need(NormalizeTime(sessions[c.sessionId].expiresAt) > now, SessionInvalid);
    Ok(OwnerPlan(users[c.userId], now))
  }

  function DeletedRow(u: User, now: Time): User {
    u.(status := Deleted, mutedUntil := None, updatedAt := now, deletedAt := Some(now))
  }

  function CompleteDelete(c: Call, p: OwnerPlan, sessions: map<Id, Session>): Outcome<Verdict>
    requires c.DeleteMe?
  {
    var recovery :- RecoverUser(p.user, p.now, c.requestId);
    :- Need(!recovery.0.status.Frozen?, UserFrozen);
    :- Need(UserRowOk(DeletedRow(recovery.0, p.now)), Internal);
    var revoked := RevokeAll(sessions, p.now);
    :- Need(forall id <- revoked :: SessionRowOk(revoked[id]), Internal);
    Ok(Verdict(Delta(map[c.userId := DeletedRow(recovery.0, p.now)], revoked, recovery.1), AccountDeleted))
  }

  function DecideDeleteMe(cfg: Config, c: Call, env: Env, users: map<Id, User>, sessions: map<Id, Session>)
    : Outcome<Verdict>
    requires c.DeleteMe?
  {
    var plan :- AdmitDelete(cfg, c, env.clock, users, sessions);
    CompleteDelete(c, plan, sessions)
  }

  /** The error of the scan over an administrator's locked session set, in ascending order of id. */
  function CheckAdminSessions(c: Call, sessions: map<Id, Session>): Check
    requires c.ChangeStatus?
  {
    var foreign := c.actorSessionId in sessions && sessions[c.actorSessionId].userId != c.actorId;
    if exists id <- sessions ::
      !ValidSessionStructure(sessions[id], id) && !(foreign && c.actorSessionId < id)
    then Fail(Internal)
    else Need(c.actorSessionId in sessions && !foreign, SessionInvalid)
  }

  function StatusEntry(c: Call, before: User, after: User, now: Time): AuditEntry
    requires c.ChangeStatus?
  {
    AuditEntry(StatusChanged, Some(c.actorId), after.id, before.status, after.status,
               before.mutedUntil, after.mutedUntil, c.reason, c.requestId, now)
  }

  /** Pending entries are written in ascending order of their target. */
  function InTargetOrder(c: Call, ofActor: seq<AuditEntry>, ofTarget: seq<AuditEntry>): seq<AuditEntry>
    requires c.ChangeStatus?
  {
    if c.actorId < c.targetId then ofActor + ofTarget else ofTarget + ofActor
  }

  /** The checks of a status change up to the actor's row: the instant of the call, and that row. */
  function CheckActor(cfg: Config, c: Call, clock: Time, users: map<Id, User>, sessions: map<Id, Session>)
    : Outcome<(Time, User)>
    requires c.ChangeStatus?
  {
    var found := c.actorId in users;
    :- Need(found, SessionInvalid);
    :- if ScansSessions(c, users) then CheckAdminSessions(c, sessions)
       else Need(c.actorSessionId in sessions, SessionInvalid);
    :- Need(c.actorSessionId in sessions, SessionInvalid);
    var session := sessions[c.actorSessionId];
    var now :- SampleNow(clock);
    :- Need(c.newStatus.Muted? ==> c.mutedUntil.Some? && NormalizeTime(c.mutedUntil.value) > now,
            ValidationFailed);
    :- Need(
      && ValidSessionStructure(session, c.actorSessionId)
      && session.userId == c.actorId && session.revokedAt.None?
      && NormalizeTime(session.expiresAt) > now,
      SessionInvalid);
    :- Need(ValidUserStructure(cfg, users[c.actorId], c.actorId, false), Internal);
    Ok((now, users[c.actorId]))
  }

  /** The checks of a status change on the target, up to the recovered target. */
  function AdmitTarget(cfg: Config, c: Call, now: Time, users: map<Id, User>)
    : Outcome<(User, seq<AuditEntry>)>
    requires c.ChangeStatus?
  {
    var found := c.targetId in users;
    :- Need(found, UserNotFound);
    var target := users[c.targetId];
    :- Need(target.deletedAt.None?, InvalidStatusTransition);
    :- Need(target.role != RoleAdmin, AdminTargetForbidden);
    :- Need(ValidUserStructure(cfg, target, c.targetId, false), Internal);
    RecoverUser(target, now, c.requestId)
  }

  function WantedUntil(c: Call): Option<Time>
    requires c.ChangeStatus?
  {
    if c.mutedUntil.Some? then Some(NormalizeTime(c.mutedUntil.value)) else None
  }

  /** An admitted status change: both recovered rows with their pending entries. */
  datatype StatusPlan = StatusPlan(
    now: Time, actor: User, actorAudit: seq<AuditEntry>, target: User, targetAudit: seq<AuditEntry>)

  /** The checks of a status change on both recovered parties. */
  function PlanStatus(cfg: Config, c: Call, now: Time, actor: User, users: map<Id, User>): Outcome<StatusPlan>
    requires c.ChangeStatus?
  {
    var ofActor :- RecoverUser(actor, now, c.requestId);
    :- CheckStatusActor(ofActor.0);
    var ofTarget :- AdmitTarget(cfg, c, now, users);
    Ok(StatusPlan(now, ofActor.0, ofActor.1, ofTarget.0, ofTarget.1))
  }

  function AdmitStatus(cfg: Config, c: Call, clock: Time, users: map<Id, User>, sessions: map<Id, Session>)
    : Outcome<StatusPlan>
    requires c.ChangeStatus?
  {
    var checked :- CheckActor(cfg, c, clock, users, sessions);
    PlanStatus(cfg, c, checked.0, checked.1, users)
  }

  /** The target's row after the change. */
  function ChangedRow(c: Call, p: StatusPlan): User
    requires c.ChangeStatus?
  {
    p.target.(status := c.newStatus, mutedUntil := WantedUntil(c), updatedAt := p.now)
  }

  /** What a status change that changes something leaves behind; a ban revokes the target's sessions. */
  function ChangeDelta(c: Call, p: StatusPlan, sessions: map<Id, Session>): Delta
    requires c.ChangeStatus?
  {
    Delta(
      map[c.actorId := p.actor, c.targetId := ChangedRow(c, p)],
      if c.newStatus.Banned? then RevokeAll(sessions - {c.actorSessionId}, p.now) else map[],
      InTargetOrder(c, p.actorAudit, p.targetAudit) + [StatusEntry(c, p.target, ChangedRow(c, p), p.now)])
  }

  function CompleteStatus(c: Call, p: StatusPlan, sessions: map<Id, Session>): Outcome<Verdict>
    requires c.ChangeStatus?
  {
    if p.target.status == c.newStatus && p.target.mutedUntil == WantedUntil(c) then
      Ok(Verdict(
        Delta(map[c.actorId := p.actor, c.targetId := p.target], map[], InTargetOrder(c, p.actorAudit, p.targetAudit)),
        Viewed(SecretFree(p.target))))
    else
      :- Need(ValidAdminTransition(p.target.status, c.newStatus), InvalidStatusTransition);
      var delta := ChangeDelta(c, p, sessions);
      :- Need(UserRowOk(ChangedRow(c, p)), Internal);
      :- Need(forall id <- delta.sessions :: SessionRowOk(delta.sessions[id]), Internal);
      Ok(Verdict(delta, Viewed(SecretFree(ChangedRow(c, p)))))
  }

  function DecideChangeStatus(cfg: Config, c: Call, env: Env, users: map<Id, User>, sessions: map<Id, Session>)
    : Outcome<Verdict>
    requires c.ChangeStatus?
  {
    var plan :- AdmitStatus(cfg, c, env.clock, users, sessions);
    CompleteStatus(c, plan, sessions)
  }

  function DecidePromote(c: Call, env: Env, users: map<Id, User>): Outcome<Verdict>
    requires c.Promote?
  {
    var eligible :=
      && c.userId in users && users[c.userId].role == RoleUser
      && users[c.userId].status.Active? && users[c.userId].deletedAt.None?;
    :- Need(eligible, NotFound);
    var promoted := users[c.userId].(role := RoleAdmin, updatedAt := NormalizeTime(env.clock));
    :- Need(UserRowOk(promoted), Internal);
    Ok(Verdict(Delta(map[c.userId := promoted], map[], []), Promoted))
  }

  /** The verdict of a call that holds exactly the rows `users` and `sessions`. */
  function Decide(cfg: Config, c: Call, env: Env, users: map<Id, User>, sessions: map<Id, Session>)
    : Outcome<Verdict>
  {
    match c
    case Register(_, _, _) => DecideRegister(c, env)
    case Login(_, _, _) => DecideLogin(cfg, c, env, users)
    case Refresh(_, _, _, _) => DecideRefresh(cfg, c, env, users, sessions)
    case Logout(_, _) => DecideLogout(env, sessions)
    case RecoverMute(_, _, _) => DecideRecoverMute(cfg, c, users)
    case UpdateMe(_, _, _, _, _) => DecideUpdateMe(cfg, c, env, users, sessions)
    case DeleteMe(_, _, _) => DecideDeleteMe(cfg, c, env, users, sessions)
    case ChangeStatus(_, _, _, _, _, _, _) => DecideChangeStatus(cfg, c, env, users, sessions)
    case Promote(_) => DecidePromote(c, env, users)
  }

  /** The uniqueness constraints that an insertion meets when it takes effect. */
  function Admit(db: Db, c: Call, env: Env): Check {
    match c
    case Register(email, _, _) =>
      if EmailTaken(db, email) then Fail(EmailAlreadyRegistered) else Need(env.freshId !in db.users, Internal)
    case Login(_, _, _) => Need(env.freshId !in db.sessions, Internal)
    case _ => Pass
  }

  /** One call, run on its own from its input checks to its verdict. */
  function Exec(cfg: Config, db: Db, c: Call, env: Env): Outcome<Verdict> {
    var users := SelectUsers(db.users, UserIds(c));
    :- Precheck(cfg, c);
    var sessions := SelectSessions(db.sessions, SessionCondition(c, users));
    var verdict :- Decide(cfg, c, env, users, sessions);
    :- Admit(db, c, env);
    Ok(verdict)
  }
}
