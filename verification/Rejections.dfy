/** What the error of a call other than a status change means under interleaving: it is the error of the call
    run on its own at some instant while it was in flight. */
module Rejections {
  import opened Wrappers
  import opened Domain
  import opened Database
  import opened Protocol
  import opened Interleaving
  import opened Refinement
  import opened Guarantees

  /** Nobody begins under the id `t` from step `k` on. */
  predicate BeginsNoMore(steps: seq<Step>, k: nat, t: TxnId) {
    forall i | k <= i < |steps| :: !(steps[i].Begin? && steps[i].t == t)
  }

  /** The execution has passed through `past` after its first `k` steps, and what is in flight as `t` at its
      end was in flight there already. */
  ghost predicate PassedThrough(cfg: Config, start: Db, steps: seq<Step>, k: nat, past: State, t: TxnId, call: Call) {
    && k <= |steps| && Execute(cfg, Fresh(start), steps[..k]) == Some(past)
    && t in past.txns && past.txns[t].call == call
    && BeginsNoMore(steps, k, t)
  }

  /** The error is the one that the call has when run on its own at some instant of its flight. */
  ghost predicate Serial(cfg: Config, start: Db, steps: seq<Step>, t: TxnId, c: Call, env: Env, e: Error) {
    exists k, past :: PassedThrough(cfg, start, steps, k, past, t, c) && Exec(cfg, past.db, c, env) == Err(e)
  }

  lemma StepKeepsFlight(cfg: Config, s: State, step: Step, t: TxnId)
    requires Enabled(cfg, s, step) && t in Do(cfg, s, step).txns && !(step.Begin? && step.t == t)
    ensures t in s.txns && Do(cfg, s, step).txns[t].call == s.txns[t].call
  {
  }

  /** From an instant of its flight to the end, a transaction never leaves and keeps its call. */
  lemma {:induction false} StaysInFlight(cfg: Config, start: Db, steps: seq<Step>, s: State, t: TxnId, k: nat,
                                         past: State)
    requires Execute(cfg, Fresh(start), steps) == Some(s) && t in s.txns
    requires k <= |steps| && Execute(cfg, Fresh(start), steps[..k]) == Some(past) && BeginsNoMore(steps, k, t)
    ensures PassedThrough(cfg, start, steps, k, past, t, s.txns[t].call)
    decreases |steps|
  {
    if k == |steps| {
      assert steps[..k] == steps;
    } else {
      var n := |steps| - 1;
      var mid := Execute(cfg, Fresh(start), steps[..n]).value;
      StepKeepsFlight(cfg, mid, steps[n], t);
      assert steps[..n][..k] == steps[..k];
      StaysInFlight(cfg, start, steps[..n], mid, t, k, past);
    }
  }

  /** The user row is held, or still to be locked by the statement. */
  predicate UserTaken(x: Txn, id: Id) {
    id in x.users || (x.phase.LockingUsers? && id in x.phase.todo)
  }

  predicate SessionTaken(x: Txn, sid: Id) {
    sid in x.held || (x.phase.LockingSessions? && sid in x.phase.todo)
  }

  lemma UsersProgress(cfg: Config, s: State, step: Step, t: TxnId)
    requires Enabled(cfg, s, step) && step != StartUsers(t)
    requires t in Do(cfg, s, step).txns && !Do(cfg, s, step).txns[t].phase.Starting?
    ensures t in s.txns && !s.txns[t].phase.Starting? && Do(cfg, s, step).txns[t].call == s.txns[t].call
    ensures forall id :: UserTaken(s.txns[t], id) ==> UserTaken(Do(cfg, s, step).txns[t], id)
  {
    if step == LockUser(t) {
      var todo := s.txns[t].phase.todo;
      assert todo == [todo[0]] + todo[1..];
    }
  }

  /** A transaction past its start has taken every named user that existed when its statement started. */
  lemma {:induction false} UsersStatement(cfg: Config, start: Db, steps: seq<Step>, s: State, t: TxnId)
    returns (k: nat, past: State)
    requires Execute(cfg, Fresh(start), steps) == Some(s) && t in s.txns && !s.txns[t].phase.Starting?
    ensures PassedThrough(cfg, start, steps, k, past, t, s.txns[t].call) && past.txns[t].phase.Starting?
    ensures forall id <- UserIds(s.txns[t].call) :: id in past.db.users ==> UserTaken(s.txns[t], id)
    decreases |steps|
  {
    var n := |steps| - 1;
    var mid := Execute(cfg, Fresh(start), steps[..n]).value;
    if steps[n] == StartUsers(t) {
      k, past := n, mid;
    } else {
      UsersProgress(cfg, mid, steps[n], t);
      k, past := UsersStatement(cfg, start, steps[..n], mid, t);
      assert steps[..n][..k] == steps[..k];
    }
  }

  lemma SessionsProgress(cfg: Config, s: State, step: Step, t: TxnId)
    requires Enabled(cfg, s, step) && step != StartSessions(t)
    requires t in Do(cfg, s, step).txns && Do(cfg, s, step).txns[t].phase.LockingSessions?
    ensures t in s.txns && s.txns[t].phase.LockingSessions?
    ensures Do(cfg, s, step).txns[t].call == s.txns[t].call && Do(cfg, s, step).txns[t].users == s.txns[t].users
    ensures forall sid :: SessionTaken(s.txns[t], sid) ==> SessionTaken(Do(cfg, s, step).txns[t], sid)
  {
    if step == LockSession(t) {
      var todo := s.txns[t].phase.todo;
      assert todo == [todo[0]] + todo[1..];
    }
  }

  /** A transaction that locks sessions has taken every candidate of the start of its statement, at which
      it held all its users. */
  lemma {:induction false} SessionsStatement(cfg: Config, start: Db, steps: seq<Step>, s: State, t: TxnId)
    returns (k: nat, past: State)
    requires Execute(cfg, Fresh(start), steps) == Some(s) && t in s.txns && s.txns[t].phase.LockingSessions?
    ensures PassedThrough(cfg, start, steps, k, past, t, s.txns[t].call)
    ensures past.txns[t].phase == LockingUsers([]) && past.txns[t].users == s.txns[t].users
    ensures forall sid <- Candidates(past, past.txns[t]) :: SessionTaken(s.txns[t], sid)
    decreases |steps|
  {
    var n := |steps| - 1;
    var mid := Execute(cfg, Fresh(start), steps[..n]).value;
    if steps[n] == StartSessions(t) {
      k, past := n, mid;
    } else {
      SessionsProgress(cfg, mid, steps[n], t);
      k, past := SessionsStatement(cfg, start, steps[..n], mid, t);
      assert steps[..n][..k] == steps[..k];
    }
  }

  /** Without its user a call rejects, whatever sessions there are. */
  lemma MissingUserRejects(cfg: Config, c: Call, env: Env, some: map<Id, Session>, other: map<Id, Session>)
    requires !c.ChangeStatus? && UserIds(c) != {}
    ensures Decide(cfg, c, env, map[], some).Err?
    ensures Decide(cfg, c, env, map[], some) == Decide(cfg, c, env, map[], other)
  {
  }

  lemma RejectedForUser(cfg: Config, db: Db, c: Call, env: Env, sessions: map<Id, Session>)
    requires Precheck(cfg, c) == Pass && !c.ChangeStatus? && UserIds(c) != {}
    requires forall id <- UserIds(c) :: id !in db.users
    ensures Exec(cfg, db, c, env) == Err(Decide(cfg, c, env, map[], sessions).error)
  {
    assert forall id :: id !in SelectUsers(db.users, UserIds(c));
    assert SelectUsers(db.users, UserIds(c)) == map[];
    MissingUserRejects(cfg, c, env, sessions, SelectSessions(db.sessions, SessionCondition(c, map[])));
  }

  /** A refresh or an edit whose session was missing when the statement started. */
  lemma RejectedForSession(cfg: Config, db: Db, c: Call, env: Env, users: map<Id, User>)
    requires Sound(db) && Precheck(cfg, c) == Pass && (c.Refresh? || c.UpdateMe?) && c.sessionId !in db.sessions
    requires users == SelectUsers(db.users, UserIds(c)) && Decide(cfg, c, env, users, map[]).Err?
    ensures Exec(cfg, db, c, env) == Err(Decide(cfg, c, env, users, map[]).error)
  {
    var selected := SelectSessions(db.sessions, SessionCondition(c, users));
    assert forall sid :: sid !in selected;
    assert selected == map[];
  }

  lemma OneUserNamed(c: Call, id: Id)
    requires !c.ChangeStatus? && id in UserIds(c)
    ensures UserIds(c) == {id}
  {
  }

  lemma OnlyNamedIsRead(db: Db, x: Txn, sid: Id)
    requires Sound(db) && ReadsAreCurrent(db, x) && (x.call.Refresh? || x.call.UpdateMe?)
    ensures sid in x.sessions ==> sid == x.call.sessionId && sid in x.held
  {
  }

  lemma NothingHeld(db: Db, x: Txn)
    requires Sound(db) && ReadsAreCurrent(db, x) && (x.call.Refresh? || x.call.UpdateMe?) && x.call.sessionId !in x.held
    ensures x.sessions == map[]
  {
    forall sid
      ensures sid !in x.sessions
    {
      OnlyNamedIsRead(db, x, sid);
    }
  }

  lemma SelectedUsersHeld(past: Db, x: Txn, db: Db)
    requires ReadsAreCurrent(past, x) && past.users.Keys <= db.users.Keys
    requires forall id <- UserIds(x.call) :: id in db.users ==> id in x.users
    ensures SelectUsers(past.users, UserIds(x.call)) == x.users
  {
    assert forall id :: id in SelectUsers(past.users, UserIds(x.call)) <==> id in x.users;
  }

  lemma NamedIsCandidate(past: State, y: Txn)
    requires Sound(past.db) && (y.call.Refresh? || y.call.UpdateMe?)
    ensures y.call.sessionId in past.db.sessions ==> y.call.sessionId in Candidates(past, y)
  {
  }

  /** The session that a refresh or an edit names, missed by its statement, was missing when it started. */
  lemma MissedSession(past: State, x: Txn, y: Txn)
    requires Sound(past.db) && (x.call.Refresh? || x.call.UpdateMe?) && x.call.sessionId !in x.held
    requires x.phase == LockingSessions([]) && y.call == x.call
    requires forall sid <- Candidates(past, y) :: SessionTaken(x, sid)
    ensures x.call.sessionId !in past.db.sessions
  {
    NamedIsCandidate(past, y);
  }

  lemma OnlySessionAppeared(db: Db, x: Txn)
    requires !NoneAppeared(db, x) && !x.call.ChangeStatus?
    requires forall id <- UserIds(x.call) :: id in db.users ==> id in x.users
    ensures (x.call.Refresh? || x.call.UpdateMe?) && x.call.sessionId !in x.held
  {
  }

  /** A rejection of any call, as long as no row that it missed has appeared. */
  lemma RejectionIsSerialNow(cfg: Config, start: Db, steps: seq<Step>, s: State, t: TxnId, env: Env)
    requires Reaches(cfg, start, steps, s) && t in s.txns
    requires s.txns[t].phase == LockingSessions([]) && NoneAppeared(s.db, s.txns[t])
    requires Decide(cfg, s.txns[t].call, env, s.txns[t].users, s.txns[t].sessions).Err?
    ensures Exec(cfg, s.db, s.txns[t].call, env)
      == Err(Decide(cfg, s.txns[t].call, env, s.txns[t].users, s.txns[t].sessions).error)
  {
    ReachableKeeps(cfg, start, steps);
    InvHolds(cfg, s, t);
    RejectionIsAtomic(cfg, s.db, s.txns[t], env);
  }

  /** The uniqueness conflict that stops a commit is the error of the call run on its own now. */
  lemma ConflictIsSerial(cfg: Config, start: Db, steps: seq<Step>, s: State, t: TxnId)
    requires Reaches(cfg, start, steps, s) && t in s.txns && s.txns[t].phase.Prepared?
    requires Admit(s.db, s.txns[t].call, s.txns[t].phase.env).Fail?
    ensures Exec(cfg, s.db, s.txns[t].call, s.txns[t].phase.env)
      == Err(Admit(s.db, s.txns[t].call, s.txns[t].phase.env).error)
  {
    ReachableKeeps(cfg, start, steps);
    InvHolds(cfg, s, t);
    ConflictIsAtomic(cfg, s.db, s.txns[t]);
  }

  lemma UsersNeverVanish(cfg: Config, start: Db, steps: seq<Step>, k: nat, past: State, s: State)
    requires Reaches(cfg, start, steps, s) && k <= |steps| && Reaches(cfg, start, steps[..k], past)
    ensures past.db.users.Keys <= s.db.users.Keys
  {
    StatesOnlyMoveOn(cfg, start, steps, k, past, s);
    assert forall id <- past.db.users :: id in s.db.users;
  }

  lemma MissedUserIsSerial(cfg: Config, start: Db, steps: seq<Step>, s: State, t: TxnId, env: Env, id: Id)
    returns (k: nat, past: State)
    requires Reaches(cfg, start, steps, s) && t in s.txns && TxnOk(cfg, s, s.txns[t])
    requires s.txns[t].phase == LockingSessions([]) && !s.txns[t].call.ChangeStatus?
    requires id in UserIds(s.txns[t].call) && id !in s.txns[t].users
    ensures PassedThrough(cfg, start, steps, k, past, t, s.txns[t].call)
    ensures Exec(cfg, past.db, s.txns[t].call, env)
      == Err(Decide(cfg, s.txns[t].call, env, map[], s.txns[t].sessions).error)
    ensures s.txns[t].users == map[]
  {
    OneUserNamed(s.txns[t].call, id);
    k, past := UsersStatement(cfg, start, steps, s, t);
    MissingUserRejects(cfg, s.txns[t].call, env, s.txns[t].sessions, s.txns[t].sessions);
    RejectedForUser(cfg, past.db, s.txns[t].call, env, s.txns[t].sessions);
  }

  lemma MissedSessionIsSerial(cfg: Config, start: Db, steps: seq<Step>, s: State, t: TxnId, env: Env)
    returns (k: nat, past: State)
    requires Reaches(cfg, start, steps, s) && t in s.txns && TxnOk(cfg, s, s.txns[t]) && Sound(s.db)
    requires s.txns[t].phase == LockingSessions([]) && (s.txns[t].call.Refresh? || s.txns[t].call.UpdateMe?)
    requires s.txns[t].call.sessionId !in s.txns[t].held
    requires forall id <- UserIds(s.txns[t].call) :: id in s.db.users ==> id in s.txns[t].users
    requires Decide(cfg, s.txns[t].call, env, s.txns[t].users, map[]).Err?
    ensures PassedThrough(cfg, start, steps, k, past, t, s.txns[t].call)
    ensures Exec(cfg, past.db, s.txns[t].call, env)
      == Err(Decide(cfg, s.txns[t].call, env, s.txns[t].users, map[]).error)
  {
    k, past := SessionsStatement(cfg, start, steps, s, t);
    ReachableKeeps(cfg, start, steps[..k]);
    InvHolds(cfg, past, t);
    MissedSession(past, s.txns[t], past.txns[t]);
    UsersNeverVanish(cfg, start, steps, k, past, s);
    SelectedUsersHeld(past.db, past.txns[t], s.db);
    RejectedForSession(cfg, past.db, s.txns[t].call, env, s.txns[t].users);
  }

  lemma InvHolds(cfg: Config, s: State, t: TxnId)
    requires Inv(cfg, s) && t in s.txns
    ensures Sound(s.db) && TxnOk(cfg, s, s.txns[t])
  {
  }

  /** A call other than a status change rejects with the error that it has when run on its own at some
      instant while it was in flight: now, or when the statement started that missed its row. */
  lemma RejectionIsSerial(cfg: Config, start: Db, steps: seq<Step>, s: State, t: TxnId, env: Env)
    returns (k: nat, past: State)
    requires Reaches(cfg, start, steps, s) && t in s.txns
    requires s.txns[t].phase == LockingSessions([]) && !s.txns[t].call.ChangeStatus?
    requires Decide(cfg, s.txns[t].call, env, s.txns[t].users, s.txns[t].sessions).Err?
    ensures PassedThrough(cfg, start, steps, k, past, t, s.txns[t].call)
    ensures Exec(cfg, past.db, s.txns[t].call, env)
      == Err(Decide(cfg, s.txns[t].call, env, s.txns[t].users, s.txns[t].sessions).error)
  {
    ReachableKeeps(cfg, start, steps);
    InvHolds(cfg, s, t);
    if NoneAppeared(s.db, s.txns[t]) {
      k, past := |steps|, s;
      assert steps[..k] == steps;
      RejectionIsAtomic(cfg, s.db, s.txns[t], env);
    } else if id :| id in UserIds(s.txns[t].call) && id in s.db.users && id !in s.txns[t].users {
      k, past := MissedUserIsSerial(cfg, start, steps, s, t, env, id);
    } else {
      OnlySessionAppeared(s.db, s.txns[t]);
      NothingHeld(s.db, s.txns[t]);
      k, past := MissedSessionIsSerial(cfg, start, steps, s, t, env);
    }
  }
}
