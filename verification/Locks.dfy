/** What the lock order and the row locks give in every reachable state. */
module Locks {
  import opened Wrappers
  import opened Domain
  import opened Database
  import opened Protocol
  import opened Verdicts
  import opened Runs
  import opened Order
  import opened Interleaving
  import opened Refinement

  datatype Row = UserRow(id: Id) | SessionRow(id: Id)

  /** Users in ascending order of id, then sessions in ascending order of id. */
  predicate Below(a: Row, b: Row) {
    match (a, b)
    case (UserRow(i), UserRow(j)) => i < j
    case (UserRow(_), SessionRow(_)) => true
    case (SessionRow(_), UserRow(_)) => false
    case (SessionRow(i), SessionRow(j)) => i < j
  }

  predicate Holds(x: Txn, r: Row) {
    match r
    case UserRow(id) => id in x.users
    case SessionRow(id) => id in x.held
  }

  /** The row that a transaction locks next, if its statement still has rows to lock. */
  function NextRow(x: Txn): Option<Row> {
    match x.phase
    case LockingUsers(todo) => if todo == [] then None else Some(UserRow(todo[0]))
    case LockingSessions(todo) => if todo == [] then None else Some(SessionRow(todo[0]))
    case _ => None
  }

  predicate WaitsFor(s: State, t: TxnId, u: TxnId) {
    && t in s.txns && u in s.txns && t != u
    && NextRow(s.txns[t]).Some? && Holds(s.txns[u], NextRow(s.txns[t]).value)
  }

  predicate Blocked(s: State, t: TxnId) {
    exists u <- s.txns :: WaitsFor(s, t, u)
  }

  /** A transaction waits only for a row above every row that it holds. */
  lemma WaitsAbove(db: Db, x: Txn, r: Row)
    requires LocksOk(db, x) && NextRow(x).Some? && Holds(x, r)
    ensures Below(r, NextRow(x).value)
  {
    match x.phase
    case LockingUsers(todo) => assert todo[0] in todo;
    case LockingSessions(todo) => assert todo[0] in todo;
    case _ =>
  }

  ghost predicate AllLocksOk(s: State) {
    forall t <- s.txns :: LocksOk(s.db, s.txns[t])
  }

  lemma InvGivesLocks(cfg: Config, s: State)
    requires Inv(cfg, s)
    ensures AllLocksOk(s)
  {
    forall t <- s.txns
      ensures LocksOk(s.db, s.txns[t])
    {
      assert TxnOk(cfg, s, s.txns[t]);
    }
  }

  /** A path of the waits-for graph. */
  predicate WaitPath(s: State, path: seq<TxnId>) {
    forall i | 0 <= i < |path| - 1 :: WaitsFor(s, path[i], path[i + 1])
  }

  lemma {:induction false} RowsAscendAlongPath(s: State, path: seq<TxnId>)
    requires AllLocksOk(s) && |path| >= 2 && WaitPath(s, path)
    requires path[|path| - 1] in s.txns && NextRow(s.txns[path[|path| - 1]]).Some?
    ensures path[0] in s.txns && NextRow(s.txns[path[0]]).Some?
    ensures Below(NextRow(s.txns[path[0]]).value, NextRow(s.txns[path[|path| - 1]]).value)
  {
    var n := |path|;
    assert WaitsFor(s, path[n - 2], path[n - 1]);
    WaitsAbove(s.db, s.txns[path[n - 1]], NextRow(s.txns[path[n - 2]]).value);
    if n > 2 {
      var front := path[..n - 1];
      forall i | 0 <= i < |front| - 1
        ensures WaitsFor(s, front[i], front[i + 1])
      {
        assert WaitsFor(s, path[i], path[i + 1]);
      }
      RowsAscendAlongPath(s, front);
    }
  }

  /** In every reachable state the waits-for graph has no cycle. */
  lemma NoWaitCycle(cfg: Config, start: Db, steps: seq<Step>, path: seq<TxnId>)
    requires Good(start) && Execute(cfg, Fresh(start), steps).Some?
    requires |path| >= 2 && WaitPath(Execute(cfg, Fresh(start), steps).value, path)
    ensures path[0] != path[|path| - 1]
  {
    var s := Execute(cfg, Fresh(start), steps).value;
    ReachableKeeps(cfg, start, steps);
    InvGivesLocks(cfg, s);
    if path[0] == path[|path| - 1] {
      assert WaitsFor(s, path[0], path[1]);
      RowsAscendAlongPath(s, path);
    }
  }

  /** Among waiting transactions, one waits for a row that no other's row is above. */
  lemma {:induction false} HighestWaiter(s: State, waiting: set<TxnId>) returns (t: TxnId)
    requires waiting != {}
    requires forall u | u in waiting :: u in s.txns && NextRow(s.txns[u]).Some?
    ensures t in waiting
    ensures forall u | u in waiting :: !Below(NextRow(s.txns[t]).value, NextRow(s.txns[u]).value)
    decreases |waiting|
  {
    t := PickTxn(waiting);
    if waiting != {t} {
      var u := HighestWaiter(s, waiting - {t});
      assert forall w | w in waiting :: w == t || w in waiting - {t};
      if Below(NextRow(s.txns[t]).value, NextRow(s.txns[u]).value) {
        t := u;
      }
    }
  }

  lemma PickTxn(ts: set<TxnId>) returns (t: TxnId)
    requires ts != {}
    ensures t in ts
  {
    t := Pick(ts);
  }

  /** While transactions are in flight, one of them does not wait. */
  lemma SomeoneIsNotBlocked(s: State) returns (t: TxnId)
    requires AllLocksOk(s) && s.txns.Keys != {}
    ensures t in s.txns && !Blocked(s, t)
  {
    var blocked := set u | u in s.txns && Blocked(s, u);
    if blocked == {} {
      t := Pick(s.txns.Keys);
    } else {
      var top := HighestWaiter(s, blocked);
      t :| t in s.txns && WaitsFor(s, top, t);
      if Blocked(s, t) {
        WaitsAbove(s.db, s.txns[t], NextRow(s.txns[top]).value);
      }
    }
  }

  /** What an unblocked transaction does next of its own accord: some environment lets it take a step
      other than giving up, or its decision is to reject, or its commit meets a uniqueness conflict. */
  ghost predicate CanProceed(cfg: Config, s: State, t: TxnId)
    requires t in s.txns
  {
    var x := s.txns[t];
    match x.phase
    case Starting => Enabled(cfg, s, StartUsers(t))
    case LockingUsers(todo) =>
      if todo != [] then Enabled(cfg, s, LockUser(t))
      else if x.call.Logout? && Candidates(s, x) == {} then
        forall env: Env :: SampleNow(env.clock).Ok? ==> Enabled(cfg, s, MissLogout(t, env))
      else Enabled(cfg, s, StartSessions(t))
    case LockingSessions(todo) =>
      if todo != [] then Enabled(cfg, s, LockSession(t))
      else
        forall env: Env :: DrawsFresh(s, x.call, env) ==>
          Enabled(cfg, s, Prepare(t, env)) || Decide(cfg, x.call, env, x.users, x.sessions).Err?
    case Prepared(env, _) => Enabled(cfg, s, Commit(t)) || (x.call.Register? && EmailTaken(s.db, x.call.email))
  }

  lemma UnblockedLocks(s: State, t: TxnId)
    requires AllLocksOk(s) && t in s.txns && !Blocked(s, t) && NextRow(s.txns[t]).Some?
    ensures s.txns[t].phase.LockingUsers? ==>
      UserFree(s, t, s.txns[t].phase.todo[0]) && s.txns[t].phase.todo[0] in s.db.users
    ensures s.txns[t].phase.LockingSessions? ==>
      SessionFree(s, t, s.txns[t].phase.todo[0]) && s.txns[t].phase.todo[0] in s.db.sessions
  {
    assert LocksOk(s.db, s.txns[t]);
    assert forall u | u in s.txns :: !WaitsFor(s, t, u);
    assert s.txns[t].phase.todo[0] in s.txns[t].phase.todo;
  }

  lemma LogoutMissProceeds(cfg: Config, s: State, t: TxnId, env: Env)
    requires t in s.txns && s.txns[t].phase == LockingUsers([]) && s.txns[t].call.Logout?
    requires Candidates(s, s.txns[t]) == {} && SampleNow(env.clock).Ok?
    ensures Enabled(cfg, s, MissLogout(t, env))
  {
    assert RevokeAll(map[], NormalizeTime(env.clock)) == map[];
  }

  lemma LockedProceeds(cfg: Config, s: State, t: TxnId, env: Env)
    requires t in s.txns && s.txns[t].phase == LockingSessions([]) && DrawsFresh(s, s.txns[t].call, env)
    ensures Enabled(cfg, s, Prepare(t, env))
      || Decide(cfg, s.txns[t].call, env, s.txns[t].users, s.txns[t].sessions).Err?
  {
  }

  /** A transaction between two statements, or before its first. */
  lemma BetweenStatementsProceeds(cfg: Config, s: State, t: TxnId)
    requires t in s.txns && (s.txns[t].phase.Starting? || s.txns[t].phase == LockingUsers([]))
    ensures CanProceed(cfg, s, t)
  {
    var x := s.txns[t];
    if x.phase.LockingUsers? && x.call.Logout? && Candidates(s, x) == {} {
      forall env: Env | SampleNow(env.clock).Ok?
        ensures Enabled(cfg, s, MissLogout(t, env))
      {
        LogoutMissProceeds(cfg, s, t, env);
      }
    }
  }

  lemma FullyLockedProceeds(cfg: Config, s: State, t: TxnId)
    requires t in s.txns && s.txns[t].phase == LockingSessions([])
    ensures CanProceed(cfg, s, t)
  {
    var x := s.txns[t];
    forall env: Env | DrawsFresh(s, x.call, env)
      ensures Enabled(cfg, s, Prepare(t, env)) || Decide(cfg, x.call, env, x.users, x.sessions).Err?
    {
      LockedProceeds(cfg, s, t, env);
    }
  }

  lemma LockingProceeds(cfg: Config, s: State, t: TxnId)
    requires AllLocksOk(s) && t in s.txns && !Blocked(s, t) && NextRow(s.txns[t]).Some?
    ensures CanProceed(cfg, s, t)
  {
    UnblockedLocks(s, t);
  }

  lemma UnblockedProceeds(cfg: Config, s: State, t: TxnId)
    requires AllLocksOk(s) && t in s.txns && TxnOk(cfg, s, s.txns[t]) && !Blocked(s, t)
    ensures CanProceed(cfg, s, t)
  {
    if NextRow(s.txns[t]).Some? {
      LockingProceeds(cfg, s, t);
    } else {
      match s.txns[t].phase
      case Prepared(_, _) => PreparedProceeds(cfg, s, t);
      case LockingSessions(_) => FullyLockedProceeds(cfg, s, t);
      case _ => BetweenStatementsProceeds(cfg, s, t);
    }
  }

  lemma PreparedProceeds(cfg: Config, s: State, t: TxnId)
    requires t in s.txns && TxnOk(cfg, s, s.txns[t]) && s.txns[t].phase.Prepared?
    ensures Enabled(cfg, s, Commit(t)) || (s.txns[t].call.Register? && EmailTaken(s.db, s.txns[t].call.email))
  {
    var x := s.txns[t];
    assert x.call.Register? ==> DrewUser(x, x.phase.env.freshId);
    assert x.call.Login? ==> DrewSession(x, x.phase.env.freshId);
  }

  /** In every reachable state with a transaction in flight, some transaction proceeds. */
  lemma NoDeadlock(cfg: Config, start: Db, steps: seq<Step>) returns (t: TxnId)
    requires Good(start) && Execute(cfg, Fresh(start), steps).Some?
    requires Execute(cfg, Fresh(start), steps).value.txns.Keys != {}
    ensures t in Execute(cfg, Fresh(start), steps).value.txns
    ensures CanProceed(cfg, Execute(cfg, Fresh(start), steps).value, t)
  {
    var s := Execute(cfg, Fresh(start), steps).value;
    ReachableKeeps(cfg, start, steps);
    InvGivesLocks(cfg, s);
    t := SomeoneIsNotBlocked(s);
    assert TxnOk(cfg, s, s.txns[t]);
    UnblockedProceeds(cfg, s, t);
  }

  /** `x` has locked all its session rows. */
  predicate HasItsSessions(x: Txn) {
    x.phase == LockingSessions([]) || x.phase.Prepared?
  }

  /** From the moment a self-deletion or a ban holds its session locks until it ends, the active
      sessions it has locked are exactly the user's active sessions: no login adds one and no logout
      takes one away. */
  lemma LockedSetIsExact(cfg: Config, start: Db, steps: seq<Step>, t: TxnId, userId: Id, sid: Id)
    requires Good(start) && Execute(cfg, Fresh(start), steps).Some?
    requires t in Execute(cfg, Fresh(start), steps).value.txns
    requires var x := Execute(cfg, Fresh(start), steps).value.txns[t];
      HasItsSessions(x) && Cond(x).Rows? && userId in Cond(x).activeOf && userId in x.users
    ensures var s := Execute(cfg, Fresh(start), steps).value;
      var x := s.txns[t];
      (sid in s.db.sessions && s.db.sessions[sid].userId == userId && s.db.sessions[sid].revokedAt.None?)
      <==>
      (sid in x.sessions && x.sessions[sid].userId == userId && x.sessions[sid].revokedAt.None?)
  {
    var s := Execute(cfg, Fresh(start), steps).value;
    ReachableKeeps(cfg, start, steps);
    LockedSetInState(cfg, s, s.txns[t], userId, sid);
  }

  lemma LockedSetInState(cfg: Config, s: State, x: Txn, userId: Id, sid: Id)
    requires Sound(s.db) && TxnOk(cfg, s, x)
    requires HasItsSessions(x) && Cond(x).Rows? && userId in Cond(x).activeOf && userId in x.users
    ensures (sid in s.db.sessions && s.db.sessions[sid].userId == userId && s.db.sessions[sid].revokedAt.None?)
      <==> (sid in x.sessions && x.sessions[sid].userId == userId && x.sessions[sid].revokedAt.None?)
  {
    assert Covers(s.db, x, []);
    if sid in s.db.sessions && s.db.sessions[sid].userId == userId && s.db.sessions[sid].revokedAt.None? {
      assert Guarded(x, s.db.sessions[sid]);
      assert sid in x.held;
    }
    if sid in x.sessions {
      assert sid in x.held;
    }
  }

  /** The revocations of a prepared self-deletion or status change each find their row active, so the
      affected-rows check on them never fails. */
  lemma RevocationsFindTheirRows(cfg: Config, start: Db, steps: seq<Step>, t: TxnId, sid: Id)
    requires Good(start) && Execute(cfg, Fresh(start), steps).Some?
    requires t in Execute(cfg, Fresh(start), steps).value.txns
    requires var x := Execute(cfg, Fresh(start), steps).value.txns[t];
      && x.phase.Prepared? && (x.call.DeleteMe? || x.call.ChangeStatus?)
      && sid in x.phase.verdict.delta.sessions
    ensures var s := Execute(cfg, Fresh(start), steps).value;
      && sid in s.db.sessions && s.db.sessions[sid].revokedAt.None?
      && s.txns[t].phase.verdict.delta.sessions[sid].revokedAt.Some?
  {
    var s := Execute(cfg, Fresh(start), steps).value;
    ReachableKeeps(cfg, start, steps);
    var x := s.txns[t];
    assert TxnOk(cfg, s, x);
    CommitIsAtomic(cfg, s.db, x);
    RevocationsInState(cfg, s.db, x.call, x.phase.env, x.phase.verdict, sid);
  }

  lemma RevocationsInState(cfg: Config, db: Db, c: Call, env: Env, v: Verdict, sid: Id)
    requires Sound(db) && Exec(cfg, db, c, env) == Ok(v) && (c.DeleteMe? || c.ChangeStatus?)
    requires sid in v.delta.sessions
    ensures sid in db.sessions && db.sessions[sid].revokedAt.None? && v.delta.sessions[sid].revokedAt.Some?
  {
    if c.ChangeStatus? {
      var w := ChangeStatusVerdict(cfg, db, c, env, v);
    }
  }
}
