/** What the error of a status change means under interleaving. It locks two users, so it can miss a target
    that was added after its user statement started, and still find its administrator in good standing. */
module StatusRejections {
  import opened Wrappers
  import opened Domain
  import opened Database
  import opened Protocol
  import opened Verdicts
  import opened Runs
  import opened Interleaving
  import opened Refinement
  import opened Guarantees
  import opened Acceptance
  import opened Rejections
  import opened SessionRows

  /** The session of the call is missing, or found by the scan to be someone else's. */
  predicate NotOwn(c: Call, users: map<Id, User>, sessions: map<Id, Session>)
    requires c.ChangeStatus?
  {
    c.actorSessionId !in sessions || (ScansSessions(c, users) && sessions[c.actorSessionId].userId != c.actorId)
  }

  lemma NotOwnIsRejected(cfg: Config, c: Call, env: Env, users: map<Id, User>, sessions: map<Id, Session>)
    requires c.ChangeStatus? && WellFormed(sessions) && (c.actorId !in users || NotOwn(c, users, sessions))
    ensures Decide(cfg, c, env, users, sessions) == Err(SessionInvalid)
  {
  }

  lemma NotOwnIsRejectedAlone(cfg: Config, db: Db, c: Call, env: Env)
    requires c.ChangeStatus? && Precheck(cfg, c) == Pass && WellFormed(db.sessions)
    requires c.actorId !in db.users || c.actorSessionId !in db.sessions
      || (ScansSessions(c, SelectUsers(db.users, UserIds(c))) && db.sessions[c.actorSessionId].userId != c.actorId)
    ensures Exec(cfg, db, c, env) == Err(SessionInvalid)
  {
    var users := SelectUsers(db.users, UserIds(c));
    NotOwnIsRejected(cfg, c, env, users, SelectSessions(db.sessions, SessionCondition(c, users)));
  }

  lemma SameChecks(cfg: Config, c: Call, clock: Time, users: map<Id, User>, sessions: map<Id, Session>,
                   users': map<Id, User>, sessions': map<Id, Session>)
    requires c.ChangeStatus? && WellFormed(sessions) && WellFormed(sessions')
    requires c.actorId in users && c.actorId in users' && users[c.actorId] == users'[c.actorId]
    requires c.actorSessionId in sessions && c.actorSessionId in sessions'
    requires sessions[c.actorSessionId] == sessions'[c.actorSessionId]
    requires c.newStatus.Banned? ==> sessions[c.actorSessionId].userId == c.actorId
    ensures CheckActor(cfg, c, clock, users, sessions) == CheckActor(cfg, c, clock, users', sessions')
  {
  }

  /** Every error but that of an unknown target comes from the administrator, who is the same in both. */
  lemma SameActorSameError(cfg: Config, c: Call, env: Env, users: map<Id, User>, sessions: map<Id, Session>,
                           users': map<Id, User>, sessions': map<Id, Session>)
    requires c.ChangeStatus? && WellFormed(sessions) && WellFormed(sessions')
    requires c.actorId in users && c.actorId in users' && users[c.actorId] == users'[c.actorId]
    requires c.actorSessionId in sessions && c.actorSessionId in sessions'
    requires sessions[c.actorSessionId] == sessions'[c.actorSessionId]
    requires c.newStatus.Banned? ==> sessions[c.actorSessionId].userId == c.actorId
    requires c.targetId !in users
    ensures var d := Decide(cfg, c, env, users, sessions);
      d.Err? && (d.error != UserNotFound ==> Decide(cfg, c, env, users', sessions') == d)
  {
    SameChecks(cfg, c, env.clock, users, sessions, users', sessions');
  }

  lemma EarlierIsWellFormed(db: Db, db': Db)
    requires Later(db, db') && WellFormed(db'.sessions)
    ensures WellFormed(db.sessions)
  {
  }

  lemma HeldMatches(db: Db, x: Txn)
    requires Sound(db) && ReadsAreCurrent(db, x) && x.call.ChangeStatus?
    ensures x.call.actorSessionId in x.held ==>
      x.call.actorSessionId in x.sessions
      && x.sessions[x.call.actorSessionId] == db.sessions[x.call.actorSessionId]
    ensures WellFormed(db.sessions) ==> WellFormed(x.sessions)
  {
  }

  /** Its administrator was missing when the user statement started. */
  lemma MissedActorIsSerial(cfg: Config, start: Db, steps: seq<Step>, s: State, t: TxnId, env: Env)
    returns (k: nat, past: State)
    requires Reaches(cfg, start, steps, s) && t in s.txns && TxnOk(cfg, s, s.txns[t]) && Sound(s.db)
    requires WellFormed(s.db.sessions)
    requires s.txns[t].phase == LockingSessions([]) && s.txns[t].call.ChangeStatus?
    requires s.txns[t].call.actorId !in s.txns[t].users
    ensures PassedThrough(cfg, start, steps, k, past, t, s.txns[t].call)
    ensures Decide(cfg, s.txns[t].call, env, s.txns[t].users, s.txns[t].sessions) == Err(SessionInvalid)
    ensures Exec(cfg, past.db, s.txns[t].call, env) == Err(SessionInvalid)
  {
    HeldMatches(s.db, s.txns[t]);
    NotOwnIsRejected(cfg, s.txns[t].call, env, s.txns[t].users, s.txns[t].sessions);
    k, past := UsersStatement(cfg, start, steps, s, t);
    StatesOnlyMoveOn(cfg, start, steps, k, past, s);
    EarlierIsWellFormed(past.db, s.db);
    NotOwnIsRejectedAlone(cfg, past.db, s.txns[t].call, env);
  }

  /** Its own session was missing when the session statement started. */
  lemma MissedActorSessionIsSerial(cfg: Config, start: Db, steps: seq<Step>, s: State, t: TxnId, env: Env)
    returns (k: nat, past: State)
    requires Reaches(cfg, start, steps, s) && t in s.txns && TxnOk(cfg, s, s.txns[t]) && Sound(s.db)
    requires WellFormed(s.db.sessions)
    requires s.txns[t].phase == LockingSessions([]) && s.txns[t].call.ChangeStatus?
    requires s.txns[t].call.actorSessionId !in s.txns[t].held
    ensures PassedThrough(cfg, start, steps, k, past, t, s.txns[t].call)
    ensures Decide(cfg, s.txns[t].call, env, s.txns[t].users, s.txns[t].sessions) == Err(SessionInvalid)
    ensures Exec(cfg, past.db, s.txns[t].call, env) == Err(SessionInvalid)
  {
    HeldMatches(s.db, s.txns[t]);
    NotOwnIsRejected(cfg, s.txns[t].call, env, s.txns[t].users, s.txns[t].sessions);
    k, past := SessionsStatement(cfg, start, steps, s, t);
    ReachableKeeps(cfg, start, steps[..k]);
    InvHolds(cfg, past, t);
    StatesOnlyMoveOn(cfg, start, steps, k, past, s);
    EarlierIsWellFormed(past.db, s.db);
    ActorSessionWasMissing(past, s.txns[t], past.txns[t]);
    NotOwnIsRejectedAlone(cfg, past.db, s.txns[t].call, env);
  }

  lemma ActorSessionWasMissing(past: State, x: Txn, y: Txn)
    requires Sound(past.db) && x.call.ChangeStatus? && x.call.actorSessionId !in x.held
    requires x.phase == LockingSessions([]) && y.call == x.call
    requires forall sid <- Candidates(past, y) :: SessionTaken(x, sid)
    ensures x.call.actorSessionId !in past.db.sessions
  {
    var sid := x.call.actorSessionId;
    assert sid in past.db.sessions ==> sid in Candidates(past, y);
  }

  /** A ban through a session of someone else, at the start of its user statement. */
  lemma ForeignSessionIsSerial(cfg: Config, start: Db, steps: seq<Step>, s: State, t: TxnId, env: Env)
    returns (k: nat, past: State)
    requires Reaches(cfg, start, steps, s) && t in s.txns && TxnOk(cfg, s, s.txns[t]) && Sound(s.db)
    requires WellFormed(s.db.sessions)
    requires s.txns[t].phase == LockingSessions([]) && s.txns[t].call.ChangeStatus?
    requires s.txns[t].call.targetId !in s.txns[t].users && s.txns[t].call.newStatus.Banned?
    requires s.txns[t].call.actorSessionId in s.db.sessions
    requires s.db.sessions[s.txns[t].call.actorSessionId].userId != s.txns[t].call.actorId
    ensures PassedThrough(cfg, start, steps, k, past, t, s.txns[t].call)
    ensures Decide(cfg, s.txns[t].call, env, s.txns[t].users, s.txns[t].sessions) == Err(SessionInvalid)
    ensures Exec(cfg, past.db, s.txns[t].call, env) == Err(SessionInvalid)
  {
    HeldMatches(s.db, s.txns[t]);
    NotOwnIsRejected(cfg, s.txns[t].call, env, s.txns[t].users, s.txns[t].sessions);
    k, past := UsersStatement(cfg, start, steps, s, t);
    StatesOnlyMoveOn(cfg, start, steps, k, past, s);
    EarlierIsWellFormed(past.db, s.db);
    NotOwnIsRejectedAlone(cfg, past.db, s.txns[t].call, env);
  }

  /** The rejection that misses only the target, when the error is not that the target is unknown. */
  lemma OtherErrorIsCurrent(cfg: Config, db: Db, x: Txn, env: Env)
    requires Sound(db) && Precheck(cfg, x.call) == Pass && ReadsAreCurrent(db, x) && WellFormed(db.sessions)
    requires x.call.ChangeStatus? && x.call.actorId in x.users && x.call.actorSessionId in x.held
    requires x.call.targetId !in x.users
    requires x.call.newStatus.Banned? ==> db.sessions[x.call.actorSessionId].userId == x.call.actorId
    ensures var d := Decide(cfg, x.call, env, x.users, x.sessions);
      d.Err? && (d.error != UserNotFound ==> Exec(cfg, db, x.call, env) == d)
  {
    HeldMatches(db, x);
    var users := SelectUsers(db.users, UserIds(x.call));
    var sessions := SelectSessions(db.sessions, SessionCondition(x.call, users));
    SameActorSameError(cfg, x.call, env, x.users, x.sessions, users, sessions);
  }

  lemma MissedRowIsSerial(cfg: Config, start: Db, steps: seq<Step>, s: State, t: TxnId, env: Env)
    returns (k: nat, past: State)
    requires Reaches(cfg, start, steps, s) && t in s.txns && TxnOk(cfg, s, s.txns[t]) && Sound(s.db)
    requires WellFormed(s.db.sessions) && s.txns[t].phase == LockingSessions([]) && s.txns[t].call.ChangeStatus?
    requires !NoneAppeared(s.db, s.txns[t])
    ensures PassedThrough(cfg, start, steps, k, past, t, s.txns[t].call)
    ensures var d := Decide(cfg, s.txns[t].call, env, s.txns[t].users, s.txns[t].sessions);
      d.Err? && (d.error != UserNotFound ==> Exec(cfg, past.db, s.txns[t].call, env) == d)
  {
    var x := s.txns[t];
    if x.call.actorId !in x.users {
      k, past := MissedActorIsSerial(cfg, start, steps, s, t, env);
    } else if x.call.actorSessionId !in x.held {
      k, past := MissedActorSessionIsSerial(cfg, start, steps, s, t, env);
    } else if x.call.newStatus.Banned? && s.db.sessions[x.call.actorSessionId].userId != x.call.actorId {
      k, past := ForeignSessionIsSerial(cfg, start, steps, s, t, env);
    } else {
      k, past := |steps|, s;
      assert steps[..k] == steps;
      OtherErrorIsCurrent(cfg, s.db, x, env);
    }
  }

  lemma UnknownTargetIsMissing(cfg: Config, c: Call, env: Env, users: map<Id, User>, sessions: map<Id, Session>)
    requires c.ChangeStatus? && Decide(cfg, c, env, users, sessions) == Err(UserNotFound)
    ensures c.actorId in users && c.actorSessionId in sessions && c.targetId !in users
  {
  }

  /** An unknown target that is missing still means that no row was missed. */
  lemma UnknownTargetMissesNothing(cfg: Config, db: Db, x: Txn, env: Env)
    requires ReadsAreCurrent(db, x) && x.call.ChangeStatus? && x.call.targetId !in db.users
    requires Decide(cfg, x.call, env, x.users, x.sessions) == Err(UserNotFound)
    ensures NoneAppeared(db, x)
  {
    UnknownTargetIsMissing(cfg, x.call, env, x.users, x.sessions);
  }

  lemma KnownErrorIsSerial(cfg: Config, start: Db, steps: seq<Step>, s: State, t: TxnId, env: Env)
    returns (k: nat, past: State)
    requires Reaches(cfg, start, steps, s) && t in s.txns && WellFormed(s.db.sessions)
    requires s.txns[t].phase == LockingSessions([]) && s.txns[t].call.ChangeStatus?
    requires Decide(cfg, s.txns[t].call, env, s.txns[t].users, s.txns[t].sessions).Err?
    requires Decide(cfg, s.txns[t].call, env, s.txns[t].users, s.txns[t].sessions) == Err(UserNotFound) ==>
      s.txns[t].call.targetId !in s.db.users
    ensures PassedThrough(cfg, start, steps, k, past, t, s.txns[t].call)
    ensures Exec(cfg, past.db, s.txns[t].call, env)
      == Err(Decide(cfg, s.txns[t].call, env, s.txns[t].users, s.txns[t].sessions).error)
  {
    ReachableKeeps(cfg, start, steps);
    InvHolds(cfg, s, t);
    if Decide(cfg, s.txns[t].call, env, s.txns[t].users, s.txns[t].sessions) == Err(UserNotFound) {
      UnknownTargetMissesNothing(cfg, s.db, s.txns[t], env);
    }
    if NoneAppeared(s.db, s.txns[t]) {
      k, past := |steps|, s;
      assert steps[..k] == steps;
      RejectionIsAtomic(cfg, s.db, s.txns[t], env);
    } else {
      k, past := MissedRowIsSerial(cfg, start, steps, s, t, env);
    }
  }

  /** A status change rejects with the error that it has when run on its own at some instant while it was in
      flight, unless it reports an unknown target that has been added since. */
  lemma StatusRejectionIsSerial(cfg: Config, start: Db, steps: seq<Step>, s: State, t: TxnId, env: Env)
    returns (k: nat, past: State)
    requires Reaches(cfg, start, steps, s) && t in s.txns
    requires WellFormed(start.sessions) && AllEndAtAnInstant(cfg, s.history)
    requires s.txns[t].phase == LockingSessions([]) && s.txns[t].call.ChangeStatus?
    requires Decide(cfg, s.txns[t].call, env, s.txns[t].users, s.txns[t].sessions).Err?
    requires Decide(cfg, s.txns[t].call, env, s.txns[t].users, s.txns[t].sessions) == Err(UserNotFound) ==>
      s.txns[t].call.targetId !in s.db.users
    ensures PassedThrough(cfg, start, steps, k, past, t, s.txns[t].call)
    ensures Exec(cfg, past.db, s.txns[t].call, env)
      == Err(Decide(cfg, s.txns[t].call, env, s.txns[t].users, s.txns[t].sessions).error)
  {
    SessionsStayWellFormed(cfg, start, steps, s);
    k, past := KnownErrorIsSerial(cfg, start, steps, s, t, env);
  }

  /** The administrator of the call may carry it out at `clock`, as far as its own rows go. */
  ghost predicate AdminFit(cfg: Config, db: Db, c: Call, clock: Time)
    requires c.ChangeStatus?
  {
    var now := NormalizeTime(clock);
    && ValidAuthTime(clock) && (c.newStatus.Muted? ==> c.mutedUntil.Some? && WantedUntil(c).value > now)
    && Usable(db, c.actorId, c.actorSessionId, now)
    && ValidSessionStructure(db.sessions[c.actorSessionId], c.actorSessionId)
    && c.actorId in db.users && ValidUserStructure(cfg, db.users[c.actorId], c.actorId, false)
    && CheckStatusActor(db.users[c.actorId]) == Pass && UserRowOk(Unmuted(db.users[c.actorId], now))
  }

  /** On healthy rows: a valid mute end, a usable session, and an administrator in good standing. */
  lemma FitOnHealthyRows(cfg: Config, db: Db, c: Call, env: Env)
    requires HealthyRows(cfg, db, env.clock) && c.ChangeStatus?
    ensures var now := NormalizeTime(env.clock);
      AdminFit(cfg, db, c, env.clock) <==>
        && (c.newStatus.Muted? ==> c.mutedUntil.Some? && WantedUntil(c).value > now)
        && Usable(db, c.actorId, c.actorSessionId, now) && CheckStatusActor(db.users[c.actorId]) == Pass
  {
    if Usable(db, c.actorId, c.actorSessionId, NormalizeTime(env.clock)) {
      RecoveryAccepted(cfg, db, env, c.actorId, c.requestId);
      RecoveryUnmutes(db.users[c.actorId], NormalizeTime(env.clock), c.requestId);
    }
  }

  /** Without its target, a status change locks no session but the administrator's. */
  lemma OnlyOwnSession(db: Db, c: Call)
    requires Sound(db) && c.ChangeStatus? && c.targetId !in db.users
    ensures var selected := SelectSessions(db.sessions, SessionCondition(c, SelectUsers(db.users, UserIds(c))));
      && (forall sid <- selected :: sid == c.actorSessionId)
      && (c.actorSessionId in selected <==> c.actorSessionId in db.sessions)
      && (c.actorSessionId in selected ==> selected[c.actorSessionId] == db.sessions[c.actorSessionId])
  {
  }

  lemma ActorCheckedExactly(cfg: Config, c: Call, clock: Time, users: map<Id, User>, sessions: map<Id, Session>)
    requires c.ChangeStatus? && forall sid <- sessions :: sid == c.actorSessionId
    ensures var now := NormalizeTime(clock);
      var checked := CheckActor(cfg, c, clock, users, sessions);
      && (checked.Ok? <==>
            && ValidAuthTime(clock) && (c.newStatus.Muted? ==> c.mutedUntil.Some? && WantedUntil(c).value > now)
            && c.actorId in users && ValidUserStructure(cfg, users[c.actorId], c.actorId, false)
            && c.actorSessionId in sessions
            && (var s := sessions[c.actorSessionId];
                ValidSessionStructure(s, c.actorSessionId) && s.userId == c.actorId && s.revokedAt.None?
                && NormalizeTime(s.expiresAt) > now))
      && (checked.Ok? ==> checked.value == (now, users[c.actorId]))
  {
  }

  lemma PlanUnknownExactly(cfg: Config, c: Call, now: Time, actor: User, users: map<Id, User>)
    requires c.ChangeStatus? && UserRowOk(actor)
    ensures PlanStatus(cfg, c, now, actor, users) == Err(UserNotFound) <==>
      CheckStatusActor(actor) == Pass && UserRowOk(Unmuted(actor, now)) && c.targetId !in users
  {
    RecoveryUnmutes(actor, now, c.requestId);
    if c.targetId in users {
      TargetIsKnown(cfg, c, now, users);
    }
  }

  lemma TargetIsKnown(cfg: Config, c: Call, now: Time, users: map<Id, User>)
    requires c.ChangeStatus?
    ensures AdmitTarget(cfg, c, now, users) == Err(UserNotFound) <==> c.targetId !in users
  {
  }

  lemma OthersKnowTheTarget(cfg: Config, c: Call, clock: Time, p: StatusPlan, users: map<Id, User>,
                            sessions: map<Id, Session>)
    requires c.ChangeStatus?
    ensures CheckActor(cfg, c, clock, users, sessions) != Err(UserNotFound)
    ensures CompleteStatus(c, p, sessions) != Err(UserNotFound)
    ensures Precheck(cfg, c) != Fail(UserNotFound)
  {
  }

  lemma UnknownWhen(cfg: Config, db: Db, c: Call, env: Env)
    requires c.ChangeStatus?
    ensures var users := SelectUsers(db.users, UserIds(c));
      var checked := CheckActor(cfg, c, env.clock, users, SelectSessions(db.sessions, SessionCondition(c, users)));
      Exec(cfg, db, c, env) == Err(UserNotFound) <==>
        && Precheck(cfg, c) == Pass && checked.Ok?
        && PlanStatus(cfg, c, checked.value.0, checked.value.1, users) == Err(UserNotFound)
  {
    var users := SelectUsers(db.users, UserIds(c));
    var sessions := SelectSessions(db.sessions, SessionCondition(c, users));
    forall p: StatusPlan {
      OthersKnowTheTarget(cfg, c, env.clock, p, users, sessions);
    }
  }

  /** A status change on its own reports an unknown target exactly when the target is missing and the
      administrator is fit. */
  lemma UnknownTargetExactly(cfg: Config, db: Db, c: Call, env: Env)
    requires Sound(db) && c.ChangeStatus?
    ensures Exec(cfg, db, c, env) == Err(UserNotFound) <==>
      Precheck(cfg, c) == Pass && AdminFit(cfg, db, c, env.clock) && c.targetId !in db.users
  {
    var users := SelectUsers(db.users, UserIds(c));
    UnknownWhen(cfg, db, c, env);
    if c.targetId !in db.users {
      OnlyOwnSession(db, c);
      ActorCheckedExactly(cfg, c, env.clock, users,
                          SelectSessions(db.sessions, SessionCondition(c, users)));
    }
    if c.actorId in db.users {
      PlanUnknownExactly(cfg, c, NormalizeTime(env.clock), db.users[c.actorId], users);
    }
  }

  /** At each instant of its flight, the call would report an unknown target on its own exactly then. */
  lemma UnknownAtInstant(cfg: Config, start: Db, steps: seq<Step>, t: TxnId, c: Call, env: Env, k: nat, past: State)
    requires Good(start) && c.ChangeStatus? && PassedThrough(cfg, start, steps, k, past, t, c)
    ensures Exec(cfg, past.db, c, env) == Err(UserNotFound) <==>
      AdminFit(cfg, past.db, c, env.clock) && c.targetId !in past.db.users
  {
    ReachableKeeps(cfg, start, steps[..k]);
    InvHolds(cfg, past, t);
    UnknownTargetExactly(cfg, past.db, c, env);
  }

  lemma MissedWhenStarted(past: State, x: Txn, id: Id)
    requires x.phase == LockingSessions([]) && id in UserIds(x.call) && id !in x.users
    requires forall other <- UserIds(x.call) :: other in past.db.users ==> UserTaken(x, other)
    ensures id !in past.db.users
  {
  }

  /** A rejection for an unknown target missed it when its user statement started. At that instant it is the
      error of the call on its own exactly if the administrator was fit then. */
  lemma FitAtStatementIsSerial(cfg: Config, start: Db, steps: seq<Step>, s: State, t: TxnId, env: Env)
    returns (k: nat, past: State)
    requires Reaches(cfg, start, steps, s) && t in s.txns
    requires s.txns[t].phase == LockingSessions([]) && s.txns[t].call.ChangeStatus?
    requires Decide(cfg, s.txns[t].call, env, s.txns[t].users, s.txns[t].sessions) == Err(UserNotFound)
    ensures PassedThrough(cfg, start, steps, k, past, t, s.txns[t].call) && past.txns[t].phase.Starting?
    ensures s.txns[t].call.targetId !in past.db.users
    ensures Exec(cfg, past.db, s.txns[t].call, env) == Err(UserNotFound) <==>
      AdminFit(cfg, past.db, s.txns[t].call, env.clock)
  {
    UnknownTargetIsMissing(cfg, s.txns[t].call, env, s.txns[t].users, s.txns[t].sessions);
    k, past := UsersStatement(cfg, start, steps, s, t);
    MissedWhenStarted(past, s.txns[t], s.txns[t].call.targetId);
    UnknownAtInstant(cfg, start, steps, t, s.txns[t].call, env, k, past);
  }

  /** The same at the begin of the call, which a caller can observe before it: an administrator who is fit
      then gets no error that the call would not have on its own. */
  lemma FitAtBeginIsSerial(cfg: Config, start: Db, steps: seq<Step>, s: State, t: TxnId, env: Env, b: nat, begun: State)
    requires Reaches(cfg, start, steps, s) && t in s.txns
    requires s.txns[t].phase == LockingSessions([]) && s.txns[t].call.ChangeStatus?
    requires Decide(cfg, s.txns[t].call, env, s.txns[t].users, s.txns[t].sessions) == Err(UserNotFound)
    requires b < |steps| && steps[b] == Begin(t, s.txns[t].call)
    requires PassedThrough(cfg, start, steps, b + 1, begun, t, s.txns[t].call)
    ensures s.txns[t].call.targetId !in begun.db.users
    ensures Exec(cfg, begun.db, s.txns[t].call, env) == Err(UserNotFound) <==>
      AdminFit(cfg, begun.db, s.txns[t].call, env.clock)
  {
    var k, past := FitAtStatementIsSerial(cfg, start, steps, s, t, env);
    assert b < k;
    assert steps[..k][..b + 1] == steps[..b + 1];
    UsersNeverVanish(cfg, start, steps[..k], b + 1, begun, past);
    UnknownAtInstant(cfg, start, steps, t, s.txns[t].call, env, b + 1, begun);
  }

  /** At some instant of the flight the target is missing and the administrator is fit. */
  ghost predicate FitBeforeTarget(cfg: Config, start: Db, steps: seq<Step>, t: TxnId, c: Call, clock: Time)
    requires c.ChangeStatus?
  {
    exists k, past :: PassedThrough(cfg, start, steps, k, past, t, c)
                      && AdminFit(cfg, past.db, c, clock) && c.targetId !in past.db.users
  }

  /** The rejection for an unknown target is serial exactly if the administrator was fit at an instant of the
      flight at which the target was still missing. */
  lemma UnknownTargetIsSerialExactly(cfg: Config, start: Db, steps: seq<Step>, t: TxnId, c: Call, env: Env)
    requires Good(start) && c.ChangeStatus?
    ensures Serial(cfg, start, steps, t, c, env, UserNotFound) <==>
      FitBeforeTarget(cfg, start, steps, t, c, env.clock)
  {
    forall k, past | PassedThrough(cfg, start, steps, k, past, t, c)
      ensures Exec(cfg, past.db, c, env) == Err(UserNotFound) <==>
        AdminFit(cfg, past.db, c, env.clock) && c.targetId !in past.db.users
    {
      UnknownAtInstant(cfg, start, steps, t, c, env, k, past);
    }
  }

  /** Which rejections of a status change are serial: all but those for an unknown target, and of these exactly
      the ones whose administrator was fit before the target was added. */
  lemma StatusRejectionIsSerialExactly(cfg: Config, start: Db, steps: seq<Step>, s: State, t: TxnId, env: Env, e: Error)
    requires Reaches(cfg, start, steps, s) && t in s.txns
    requires WellFormed(start.sessions) && AllEndAtAnInstant(cfg, s.history)
    requires s.txns[t].phase == LockingSessions([]) && s.txns[t].call.ChangeStatus?
    requires Decide(cfg, s.txns[t].call, env, s.txns[t].users, s.txns[t].sessions) == Err(e)
    ensures Serial(cfg, start, steps, t, s.txns[t].call, env, e) <==>
      (e == UserNotFound ==> FitBeforeTarget(cfg, start, steps, t, s.txns[t].call, env.clock))
  {
    if e == UserNotFound {
      UnknownTargetIsSerialExactly(cfg, start, steps, t, s.txns[t].call, env);
    } else {
      var k, past := StatusRejectionIsSerial(cfg, start, steps, s, t, env);
    }
  }

  /** The guard for callers: every rejection of a status change whose administrator is fit when it begins is
      serial, under any interleaving. */
  lemma FitCallersAreSerial(cfg: Config, start: Db, steps: seq<Step>, s: State, t: TxnId, env: Env, e: Error,
                            b: nat, begun: State)
    requires Reaches(cfg, start, steps, s) && t in s.txns
    requires WellFormed(start.sessions) && AllEndAtAnInstant(cfg, s.history)
    requires s.txns[t].phase == LockingSessions([]) && s.txns[t].call.ChangeStatus?
    requires Decide(cfg, s.txns[t].call, env, s.txns[t].users, s.txns[t].sessions) == Err(e)
    requires b < |steps| && steps[b] == Begin(t, s.txns[t].call)
    requires PassedThrough(cfg, start, steps, b + 1, begun, t, s.txns[t].call)
    requires AdminFit(cfg, begun.db, s.txns[t].call, env.clock)
    ensures Serial(cfg, start, steps, t, s.txns[t].call, env, e)
  {
    if e == UserNotFound {
      FitAtBeginIsSerial(cfg, start, steps, s, t, env, b, begun);
    } else {
      StatusRejectionIsSerialExactly(cfg, start, steps, s, t, env, e);
    }
  }
}
