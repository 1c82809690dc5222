/** What every committed call does to the stored rows and the audit log, whatever the call was. */
module LegalSteps {
  import opened Wrappers
  import opened Domain
  import opened Database
  import opened Protocol
  import opened Verdicts

  /** The part of a user row that the audit log accounts for. */
  datatype Standing = Standing(status: Status, mutedUntil: Option<Time>)

  function StandingOf(u: User): Standing {
    Standing(u.status, u.mutedUntil)
  }

  /** Follows one user's standing through a stretch of the audit log; `None` when an entry does not
      start from the standing that the entries before it led to. */
  function Replay(log: seq<AuditEntry>, userId: Id, start: Standing): Option<Standing> {
    if log == [] then Some(start)
    else
      var before := Replay(log[..|log| - 1], userId, start);
      var e := log[|log| - 1];
      if before.None? || e.targetId != userId then before
      else if before.value == Standing(e.oldStatus, e.oldMutedUntil) then
        Some(Standing(e.newStatus, e.newMutedUntil))
      else None
  }

  lemma {:induction false} ReplayAppend(a: seq<AuditEntry>, b: seq<AuditEntry>, userId: Id, start: Standing)
    ensures Replay(a + b, userId, start)
         == match Replay(a, userId, start)
            case None => None
            case Some(mid) => Replay(b, userId, mid)
  {
    if b == [] {
      assert a + b == a;
    } else {
      var front := b[..|b| - 1];
      assert (a + b)[..|a + b| - 1] == a + front;
      ReplayAppend(a, front, userId, start);
    }
  }

  lemma {:induction false} ReplaySkips(log: seq<AuditEntry>, userId: Id, start: Standing)
    requires forall e <- log :: e.targetId != userId
    ensures Replay(log, userId, start) == Some(start)
  {
    if log != [] {
      ReplaySkips(log[..|log| - 1], userId, start);
    }
  }

  lemma ReplayOne(e: AuditEntry, userId: Id, start: Standing)
    ensures e.targetId != userId ==> Replay([e], userId, start) == Some(start)
    ensures e.targetId == userId && start == Standing(e.oldStatus, e.oldMutedUntil) ==>
      Replay([e], userId, start) == Some(Standing(e.newStatus, e.newMutedUntil))
  {
  }

  /** The status machine as seen from one committed call to the next. */
  predicate StatusMove(from: Status, to: Status) {
    match from
    case Pending => to.Pending? || to.Active? || to.Deleted?
    case Active | Muted => !to.Pending?
    case Frozen => !to.Pending? && !to.Deleted?
    case Banned => to.Banned? || to.Active?
    case Deleted => to.Deleted?
  }

  /** What may become of a user row in one step. */
  predicate UserMove(u: User, v: User) {
    && UserRowOk(v)
    && v.id == u.id && v.email == u.email && v.passwordHash == u.passwordHash
    && v.violationCount == u.violationCount && v.createdAt == u.createdAt
    && StatusMove(u.status, v.status)
    && (u.status.Deleted? ==> v == u)
    && (v.role == u.role || (u.role == RoleUser && u.status.Active? && v.status.Active?))
    && (u.role == RoleAdmin ==>
          v.status == u.status || (u.status.Muted? && v.status.Active?) || v.status.Deleted?)
  }

  predicate NewUser(v: User) {
    UserRowOk(v) && v.status.Active? && v.mutedUntil.None? && v.role == RoleUser
  }

  /** What may become of a session row: only its digest, and its revocation once. */
  predicate SessionMove(s: Session, t: Session) {
    && SessionRowOk(t)
    && t.id == s.id && t.userId == s.userId && t.createdAt == s.createdAt && t.expiresAt == s.expiresAt
    && (s.revokedAt.Some? ==> t == s)
  }

  /** The user row after a step that left `d` behind. */
  function After(db: Db, d: Delta, id: Id): User
    requires id in db.users || id in d.users
  {
    if id in d.users then d.users[id] else db.users[id]
  }

  ghost predicate UsersMove(db: Db, d: Delta) {
    forall id <- d.users ::
      d.users[id].id == id && if id in db.users then UserMove(db.users[id], d.users[id]) else NewUser(d.users[id])
  }

  ghost predicate SessionsMove(db: Db, d: Delta) {
    forall id <- d.sessions ::
      && d.sessions[id].id == id
      && if id in db.sessions then SessionMove(db.sessions[id], d.sessions[id])
         else
           && SessionRowOk(d.sessions[id]) && d.sessions[id].revokedAt.None?
           && d.sessions[id].userId in db.users
           && After(db, d, d.sessions[id].userId).status.CanLogin()
  }

  /** Whoever becomes banned or deleted loses every active session in the same step. */
  ghost predicate ExpelsSessions(db: Db, d: Delta) {
    forall id, sid | id in d.users && id in db.users && sid in db.sessions ::
      d.users[id].status.Expelled() && !db.users[id].status.Expelled()
      && db.sessions[sid].userId == id && db.sessions[sid].revokedAt.None? ==>
        sid in d.sessions && d.sessions[sid].revokedAt.Some?
  }

  /** The appended entries account for every change of standing except a user's own deletion. */
  ghost predicate AuditsReplay(db: Db, d: Delta) {
    && (forall e <- d.audits :: e.targetId in db.users && !db.users[e.targetId].status.Deleted?)
    && (forall id <- db.users ::
          var r := Replay(d.audits, id, StandingOf(db.users[id]));
          r.Some? && (r.value == StandingOf(After(db, d, id)) || After(db, d, id).status.Deleted?))
  }

  /** In `db`, the entry's actor is an administrator fit to act, with a session in force, on an
      ordinary user other than itself. */
  ghost predicate ActorInGoodStanding(db: Db, e: AuditEntry) {
    && e.actorId.Some? && e.actorId.value in db.users && e.targetId in db.users
    && e.actorId.value != e.targetId
    && (var actor := db.users[e.actorId.value];
        actor.role == RoleAdmin && (actor.status.Pending? || actor.status.Active? || actor.status.Muted?)
        && actor.deletedAt.None? && MuteIsCurrent(actor, e.createdAt))
    && (exists sid <- db.sessions ::
          && db.sessions[sid].userId == e.actorId.value && db.sessions[sid].revokedAt.None?
          && db.sessions[sid].expiresAt > e.createdAt)
    && db.users[e.targetId].role == RoleUser
  }

  /** The system's own entry: a mute that had run out, ended. */
  predicate RecordsExpiry(e: AuditEntry) {
    && e.actorId.None? && e.oldStatus.Muted? && e.newStatus.Active?
    && e.oldMutedUntil.Some? && e.oldMutedUntil.value <= e.createdAt && e.newMutedUntil.None?
  }

  ghost predicate ActorsAuthorized(db: Db, d: Delta) {
    forall e <- d.audits ::
      if e.action.StatusChanged? then ActorInGoodStanding(Apply(db, d), e) else RecordsExpiry(e)
  }

  /** The obligations of every committed step. */
  ghost predicate LegalDelta(db: Db, d: Delta) {
    && UsersMove(db, d)
    && SessionsMove(db, d)
    && ExpelsSessions(db, d)
    && AuditsReplay(db, d)
    && ActorsAuthorized(db, d)
  }

  /** Lazy recovery is a permitted move, and its entry replays to the recovered standing. */
  lemma UnmutedIsLegal(u: User, now: Time, requestId: string)
    requires UserRowOk(u) && UserRowOk(Unmuted(u, now))
    ensures var v, entries := Unmuted(u, now), ExpiryEntries(u, now, requestId);
      && UserMove(u, v) && v.role == u.role && MuteIsCurrent(v, now)
      && v.status.Expelled() == u.status.Expelled() && v.deletedAt == u.deletedAt
      && (u.status.CanLogin() ==> v.status.CanLogin())
      && (forall e <- entries :: e.targetId == u.id && e.action.MuteExpired? && RecordsExpiry(e))
      && (entries != [] ==> u.status.Muted?)
      && Replay(entries, u.id, StandingOf(u)) == Some(StandingOf(v))
  {
    if MuteIsOver(u, now) {
      ReplayOne(MuteExpiredEntry(u, now, requestId), u.id, StandingOf(u));
    }
  }

  lemma RecoverIsLegal(u: User, now: Time, requestId: string)
    requires UserRowOk(u) && RecoverUser(u, now, requestId).Ok?
    ensures var r := RecoverUser(u, now, requestId).value;
      && UserMove(u, r.0) && r.0.role == u.role && MuteIsCurrent(r.0, now)
      && r.0.status.Expelled() == u.status.Expelled()
      && (forall e <- r.1 :: e.targetId == u.id && e.action.MuteExpired? && RecordsExpiry(e))
      && (r.1 != [] ==> u.status.Muted?)
      && Replay(r.1, u.id, StandingOf(u)) == Some(StandingOf(r.0))
  {
    RecoveryUnmutes(u, now, requestId);
    UnmutedIsLegal(u, now, requestId);
  }

  /** A step that writes one user, with the entries of its lazy recovery, replays. */
  lemma OneUserReplays(db: Db, d: Delta, id: Id)
    requires Sound(db) && id in db.users && d.users.Keys == {id}
    requires forall e <- d.audits :: e.targetId == id
    requires d.audits != [] ==> !db.users[id].status.Deleted?
    requires Replay(d.audits, id, StandingOf(db.users[id])).Some?
    requires d.users[id].status.Deleted?
      || Replay(d.audits, id, StandingOf(db.users[id])).value == StandingOf(d.users[id])
    ensures AuditsReplay(db, d)
  {
    forall other <- db.users | other != id
      ensures Replay(d.audits, other, StandingOf(db.users[other])) == Some(StandingOf(db.users[other]))
    {
      ReplaySkips(d.audits, other, StandingOf(db.users[other]));
    }
  }

  /** A step that recovers one user and takes it on to `v`, whatever it does to sessions. */
  lemma OneUserIsLegal(db: Db, d: Delta, id: Id, v: User, now: Time, requestId: string)
    requires Sound(db) && id in db.users && UserRowOk(Unmuted(db.users[id], now))
    requires d.users == map[id := v] && d.audits == ExpiryEntries(db.users[id], now, requestId)
    requires UserMove(Unmuted(db.users[id], now), v) && v.role == db.users[id].role
    requires StandingOf(v) == StandingOf(Unmuted(db.users[id], now)) || v.status.Deleted?
    requires SessionsMove(db, d) && ExpelsSessions(db, d)
    ensures LegalDelta(db, d)
  {
    UnmutedIsLegal(db.users[id], now, requestId);
    OneUserReplays(db, d, id);
  }

  lemma LoginIsLegal(cfg: Config, db: Db, c: Call, env: Env, v: Verdict)
    requires Sound(db) && c.Login? && Exec(cfg, db, c, env) == Ok(v)
    ensures LegalDelta(db, v.delta)
  {
    LoginVerdict(cfg, db, c, env, v);
    OpeningIsLegal(db, v.delta, c.userId, OpenedSession(cfg, c, env), NormalizeTime(env.clock), c.requestId);
  }

  lemma OpeningIsLegal(db: Db, d: Delta, id: Id, s: Session, now: Time, requestId: string)
    requires Sound(db) && id in db.users && UserRowOk(Unmuted(db.users[id], now)) && db.users[id].status.CanLogin()
    requires s.userId == id && s.id !in db.sessions && SessionRowOk(s) && s.revokedAt.None?
    requires d == Delta(map[id := Unmuted(db.users[id], now)], map[s.id := s],
                        ExpiryEntries(db.users[id], now, requestId))
    ensures LegalDelta(db, d)
  {
    UnmutedIsLegal(db.users[id], now, requestId);
    OneUserIsLegal(db, d, id, Unmuted(db.users[id], now), now, requestId);
  }

  lemma RefreshIsLegal(cfg: Config, db: Db, c: Call, env: Env, v: Verdict)
    requires Sound(db) && c.Refresh? && Exec(cfg, db, c, env) == Ok(v)
    ensures LegalDelta(db, v.delta)
  {
    RefreshVerdict(cfg, db, c, env, v);
    RotationIsLegal(db, v.delta, c.ownerId, c.sessionId, env.hash, NormalizeTime(env.clock), c.requestId);
  }

  lemma RotationIsLegal(db: Db, d: Delta, id: Id, sid: Id, hash: Digest, now: Time, requestId: string)
    requires Sound(db) && id in db.users && UserRowOk(Unmuted(db.users[id], now)) && db.users[id].status.CanLogin()
    requires Usable(db, id, sid, now) && SessionRowOk(db.sessions[sid].(tokenHash := hash))
    requires d == Delta(map[id := Unmuted(db.users[id], now)], map[sid := db.sessions[sid].(tokenHash := hash)],
                        ExpiryEntries(db.users[id], now, requestId))
    ensures LegalDelta(db, d)
  {
    UnmutedIsLegal(db.users[id], now, requestId);
    OneUserIsLegal(db, d, id, Unmuted(db.users[id], now), now, requestId);
  }

  lemma RecoverMuteIsLegal(cfg: Config, db: Db, c: Call, env: Env, v: Verdict)
    requires Sound(db) && c.RecoverMute? && Exec(cfg, db, c, env) == Ok(v)
    ensures LegalDelta(db, v.delta)
  {
    RecoverMuteVerdict(cfg, db, c, env, v);
    UnmutedIsLegal(db.users[c.userId], c.now, c.requestId);
    EditIsLegal(db, v.delta, c.userId, Unmuted(db.users[c.userId], c.now), c.now, c.requestId);
  }

  lemma EditIsLegal(db: Db, d: Delta, id: Id, v: User, now: Time, requestId: string)
    requires Sound(db) && id in db.users && UserRowOk(Unmuted(db.users[id], now)) && UserRowOk(v)
    requires v == Unmuted(db.users[id], now).(displayName := v.displayName, bio := v.bio, updatedAt := v.updatedAt)
    requires db.users[id].status.Deleted? ==> v == Unmuted(db.users[id], now)
    requires d == Delta(map[id := v], map[], ExpiryEntries(db.users[id], now, requestId))
    ensures LegalDelta(db, d)
  {
    UnmutedIsLegal(db.users[id], now, requestId);
    OneUserIsLegal(db, d, id, v, now, requestId);
  }

  lemma UpdateMeIsLegal(cfg: Config, db: Db, c: Call, env: Env, v: Verdict)
    requires Sound(db) && c.UpdateMe? && Exec(cfg, db, c, env) == Ok(v)
    ensures LegalDelta(db, v.delta)
  {
    UpdateMeVerdict(cfg, db, c, env, v);
    EditIsLegal(db, v.delta, c.userId, v.delta.users[c.userId], NormalizeTime(env.clock), c.requestId);
  }

  lemma DeleteMeIsLegal(cfg: Config, db: Db, c: Call, env: Env, v: Verdict)
    requires Sound(db) && c.DeleteMe? && Exec(cfg, db, c, env) == Ok(v)
    ensures LegalDelta(db, v.delta)
  {
    DeleteMeVerdict(cfg, db, c, env, v);
    DeletionIsLegal(db, v.delta, c.userId, NormalizeTime(env.clock), c.requestId);
  }

  lemma DeletionIsLegal(db: Db, d: Delta, id: Id, now: Time, requestId: string)
    requires Sound(db) && id in db.users && UserRowOk(Unmuted(db.users[id], now))
    requires Unmuted(db.users[id], now).status.CanDeleteAccount()
    requires var revoked := RevokeAll(SelectSessions(db.sessions, Rows({}, {id})), now);
      && UserRowOk(DeletedRow(Unmuted(db.users[id], now), now)) && AllRowsOk(revoked)
      && d == Delta(map[id := DeletedRow(Unmuted(db.users[id], now), now)], revoked,
                    ExpiryEntries(db.users[id], now, requestId))
    ensures LegalDelta(db, d)
  {
    UnmutedIsLegal(db.users[id], now, requestId);
    OneUserIsLegal(db, d, id, DeletedRow(Unmuted(db.users[id], now), now), now, requestId);
  }

  lemma RegisterIsLegal(cfg: Config, db: Db, c: Call, env: Env, v: Verdict)
    requires c.Register? && Exec(cfg, db, c, env) == Ok(v)
    ensures LegalDelta(db, v.delta)
  {
    RegisterVerdict(cfg, db, c, env, v);
  }

  lemma LogoutIsLegal(cfg: Config, db: Db, c: Call, env: Env, v: Verdict)
    requires Sound(db) && c.Logout? && Exec(cfg, db, c, env) == Ok(v)
    ensures LegalDelta(db, v.delta)
  {
    LogoutVerdict(cfg, db, c, env, v);
  }

  lemma PromoteIsLegal(cfg: Config, db: Db, c: Call, env: Env, v: Verdict)
    requires Sound(db) && c.Promote? && Exec(cfg, db, c, env) == Ok(v)
    ensures LegalDelta(db, v.delta)
  {
    PromoteVerdict(cfg, db, c, env, v);
  }

  /** The two pending recoveries replay to the recovered rows in either order. */
  lemma PendingReplays(c: Call, a: User, b: User, now: Time, id: Id, start: Standing)
    requires c.ChangeStatus? && UserRowOk(a) && UserRowOk(b)
    requires a.id == c.actorId && b.id == c.targetId && a.id != b.id
    requires RecoverUser(a, now, c.requestId).Ok? && RecoverUser(b, now, c.requestId).Ok?
    requires id == a.id ==> start == StandingOf(a)
    requires id == b.id ==> start == StandingOf(b)
    ensures var ra, rb := RecoverUser(a, now, c.requestId).value, RecoverUser(b, now, c.requestId).value;
      Replay(InTargetOrder(c, ra.1, rb.1), id, start)
      == Some(if id == a.id then StandingOf(ra.0) else if id == b.id then StandingOf(rb.0) else start)
  {
    var ra, rb := RecoverUser(a, now, c.requestId).value, RecoverUser(b, now, c.requestId).value;
    RecoverIsLegal(a, now, c.requestId);
    RecoverIsLegal(b, now, c.requestId);
    forall at: Standing
      ensures id != a.id ==> Replay(ra.1, id, at) == Some(at)
      ensures id != b.id ==> Replay(rb.1, id, at) == Some(at)
    {
      if id != a.id { ReplaySkips(ra.1, id, at); }
      if id != b.id { ReplaySkips(rb.1, id, at); }
    }
    ReplayAppend(ra.1, rb.1, id, start);
    ReplayAppend(rb.1, ra.1, id, start);
  }

  lemma ChangeStatusReplaysFor(db: Db, c: Call, d: Delta, w: StatusChange, id: Id)
    requires Sound(db) && c.ChangeStatus? && ShapedAs(db, c, d, w) && id in db.users
    ensures Replay(d.audits, id, StandingOf(db.users[id])) == Some(StandingOf(After(db, d, id)))
  {
    var pending := InTargetOrder(c, w.actorAudit, w.targetAudit);
    PendingReplays(c, db.users[c.actorId], db.users[c.targetId], w.now, id, StandingOf(db.users[id]));
    if w.changed {
      var entry := StatusEntry(c, w.target, d.users[c.targetId], w.now);
      ReplayAppend(pending, [entry], id, StandingOf(db.users[id]));
      ReplayOne(entry, id, Replay(pending, id, StandingOf(db.users[id])).value);
    }
  }

  lemma ChangeStatusEntriesNameUsers(db: Db, c: Call, d: Delta, w: StatusChange)
    requires Sound(db) && c.ChangeStatus? && ShapedAs(db, c, d, w)
    ensures forall e <- d.audits :: e.targetId in db.users && !db.users[e.targetId].status.Deleted?
  {
    RecoverIsLegal(db.users[c.actorId], w.now, c.requestId);
    RecoverIsLegal(db.users[c.targetId], w.now, c.requestId);
  }

  lemma ChangeStatusReplays(db: Db, c: Call, d: Delta, w: StatusChange)
    requires Sound(db) && c.ChangeStatus? && ShapedAs(db, c, d, w)
    ensures AuditsReplay(db, d)
  {
    ChangeStatusEntriesNameUsers(db, c, d, w);
    forall id <- db.users
      ensures Replay(d.audits, id, StandingOf(db.users[id])) == Some(StandingOf(After(db, d, id)))
    {
      ChangeStatusReplaysFor(db, c, d, w, id);
    }
  }

  lemma ChangeStatusAuthorized(db: Db, c: Call, d: Delta, w: StatusChange)
    requires Sound(db) && c.ChangeStatus? && ShapedAs(db, c, d, w)
    ensures ActorsAuthorized(db, d)
  {
    RecoverIsLegal(db.users[c.actorId], w.now, c.requestId);
    RecoverIsLegal(db.users[c.targetId], w.now, c.requestId);
    var sid := c.actorSessionId;
    assert Apply(db, d).sessions[sid] == db.sessions[sid];
  }

  lemma ChangeStatusMovesUsers(db: Db, c: Call, d: Delta, w: StatusChange)
    requires Sound(db) && c.ChangeStatus? && ShapedAs(db, c, d, w)
    ensures UsersMove(db, d)
  {
    RecoverIsLegal(db.users[c.actorId], w.now, c.requestId);
    RecoverIsLegal(db.users[c.targetId], w.now, c.requestId);
  }

  lemma ChangeStatusMovesSessions(db: Db, c: Call, d: Delta, w: StatusChange)
    requires Sound(db) && c.ChangeStatus? && ShapedAs(db, c, d, w)
    ensures SessionsMove(db, d)
  {
  }

  lemma ChangeStatusExpels(db: Db, c: Call, d: Delta, w: StatusChange)
    requires Sound(db) && c.ChangeStatus? && ShapedAs(db, c, d, w)
    ensures ExpelsSessions(db, d)
  {
    RecoverIsLegal(db.users[c.actorId], w.now, c.requestId);
    RecoverIsLegal(db.users[c.targetId], w.now, c.requestId);
  }

  lemma ChangeStatusIsLegal(cfg: Config, db: Db, c: Call, env: Env, v: Verdict)
    requires Sound(db) && c.ChangeStatus? && Exec(cfg, db, c, env) == Ok(v)
    ensures LegalDelta(db, v.delta)
  {
    var w := ChangeStatusVerdict(cfg, db, c, env, v);
    ChangeStatusReplays(db, c, v.delta, w);
    ChangeStatusAuthorized(db, c, v.delta, w);
    ChangeStatusMovesUsers(db, c, v.delta, w);
    ChangeStatusMovesSessions(db, c, v.delta, w);
    ChangeStatusExpels(db, c, v.delta, w);
  }

  /** Every call that commits meets the obligations. */
  lemma ExecIsLegal(cfg: Config, db: Db, c: Call, env: Env, v: Verdict)
    requires Sound(db) && Exec(cfg, db, c, env) == Ok(v)
    ensures LegalDelta(db, v.delta)
  {
    match c
    case Login(_, _, _) => LoginIsLegal(cfg, db, c, env, v);
    case Refresh(_, _, _, _) => RefreshIsLegal(cfg, db, c, env, v);
    case RecoverMute(_, _, _) => RecoverMuteIsLegal(cfg, db, c, env, v);
    case UpdateMe(_, _, _, _, _) => UpdateMeIsLegal(cfg, db, c, env, v);
    case DeleteMe(_, _, _) => DeleteMeIsLegal(cfg, db, c, env, v);
    case ChangeStatus(_, _, _, _, _, _, _) => ChangeStatusIsLegal(cfg, db, c, env, v);
    case Register(_, _, _) => RegisterIsLegal(cfg, db, c, env, v);
    case Logout(_, _) => LogoutIsLegal(cfg, db, c, env, v);
    case Promote(_) => PromoteIsLegal(cfg, db, c, env, v);
  }
}
