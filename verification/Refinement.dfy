/** Every interleaving leaves the database that its committed calls leave when they run one at a time,
    in commit order. */
module Refinement {
  import opened Wrappers
  import opened Domain
  import opened Database
  import opened Protocol
  import opened LegalSteps
  import opened Runs
  import opened Order
  import opened Interleaving

  /** A step of one transaction that leaves the database alone. */
  lemma OneTxnMoves(cfg: Config, s: State, s': State, t: TxnId, x: Txn)
    requires Inv(cfg, s)
    requires s'.db == s.db && s'.txns == s.txns[t := x]
    requires s.issuedUsers <= s'.issuedUsers && s.issuedSessions <= s'.issuedSessions
    requires TxnOk(cfg, s', x)
    requires forall u | u in s.txns && u != t :: Exclusive(x, s.txns[u])
    ensures Inv(cfg, s')
  {
    forall u | u in s'.txns
      ensures TxnOk(cfg, s', s'.txns[u])
    {
      if u != t {
        assert TxnOk(cfg, s, s.txns[u]);
      }
    }
    forall u, w | u in s'.txns && w in s'.txns && u != w
      ensures Exclusive(s'.txns[u], s'.txns[w])
    {
      if u != t && w != t {
        assert Exclusive(s.txns[u], s.txns[w]);
      } else if u == t {
        assert Exclusive(x, s.txns[w]);
      } else {
        assert Exclusive(x, s.txns[u]);
      }
    }
  }

  lemma MovedTxnOk(cfg: Config, s: State, s': State, x: Txn, y: Txn)
    requires TxnOk(cfg, s, x) && y.call == x.call && !y.phase.Prepared? && LocksOk(s.db, y) && s'.db == s.db
    ensures TxnOk(cfg, s', y)
  {
  }

  lemma MovedIsExclusive(y: Txn, z: Txn)
    requires !y.phase.Prepared? && y.users.Keys !! z.users.Keys && y.held !! z.held
    ensures Exclusive(y, z)
  {
  }

  /** A step that only moves one transaction on to `y`, which decides nothing yet. */
  lemma MoveKeeps(cfg: Config, s: State, s': State, t: TxnId, y: Txn)
    requires Inv(cfg, s) && t in s.txns && s' == s.(txns := s.txns[t := y])
    requires y.call == s.txns[t].call && !y.phase.Prepared? && LocksOk(s.db, y)
    requires forall u | u in s.txns && u != t ::
      y.users.Keys !! s.txns[u].users.Keys && y.held !! s.txns[u].held
    ensures Inv(cfg, s')
  {
    MovedTxnOk(cfg, s, s', s.txns[t], y);
    forall u | u in s.txns && u != t
      ensures Exclusive(y, s.txns[u])
    {
      MovedIsExclusive(y, s.txns[u]);
    }
    OneTxnMoves(cfg, s, s', t, y);
  }

  lemma Apart(cfg: Config, s: State, t: TxnId)
    requires Inv(cfg, s) && t in s.txns
    ensures LocksOk(s.db, s.txns[t])
    ensures forall u | u in s.txns && u != t ::
      s.txns[t].users.Keys !! s.txns[u].users.Keys && s.txns[t].held !! s.txns[u].held
  {
    assert TxnOk(cfg, s, s.txns[t]);
    forall u | u in s.txns && u != t
      ensures s.txns[t].users.Keys !! s.txns[u].users.Keys && s.txns[t].held !! s.txns[u].held
    {
      assert Exclusive(s.txns[t], s.txns[u]);
    }
  }

  lemma FreshTxnOk(cfg: Config, s: State, call: Call)
    requires Precheck(cfg, call) == Pass
    ensures TxnOk(cfg, s, Txn(call, Starting, map[], {}, map[]))
    ensures forall y: Txn :: Exclusive(Txn(call, Starting, map[], {}, map[]), y)
  {
  }

  lemma BeginKeeps(cfg: Config, s: State, t: TxnId, call: Call)
    requires Inv(cfg, s) && t !in s.txns && Precheck(cfg, call) == Pass
    ensures Inv(cfg, s.(txns := s.txns[t := Txn(call, Starting, map[], {}, map[])]))
  {
    var x := Txn(call, Starting, map[], {}, map[]);
    var s' := s.(txns := s.txns[t := x]);
    FreshTxnOk(cfg, s', call);
    OneTxnMoves(cfg, s, s', t, x);
  }

  lemma StartUsersOk(db: Db, x: Txn, y: Txn)
    requires LocksOk(db, x) && x.phase.Starting?
    requires y == x.(phase := LockingUsers(InOrder(UserIds(x.call) * db.users.Keys)))
    ensures LocksOk(db, y)
  {
  }

  lemma LockUserOk(db: Db, x: Txn, y: Txn)
    requires LocksOk(db, x) && x.phase.LockingUsers? && x.phase.todo != [] && x.phase.todo[0] in db.users
    requires y == x.(phase := LockingUsers(x.phase.todo[1..]),
                     users := x.users[x.phase.todo[0] := db.users[x.phase.todo[0]]])
    ensures LocksOk(db, y)
  {
    assert x.phase.todo[0] in x.phase.todo;
    assert forall id <- x.phase.todo[1..] :: id in x.phase.todo && x.phase.todo[0] < id;
    assert ReadsAreCurrent(db, y);
  }

  lemma LockUserKeeps(cfg: Config, s: State, s': State, t: TxnId, y: Txn)
    requires Inv(cfg, s) && t in s.txns && s' == s.(txns := s.txns[t := y])
    requires s.txns[t].phase.LockingUsers? && s.txns[t].phase.todo != []
    requires var id := s.txns[t].phase.todo[0];
      && UserFree(s, t, id) && id in s.db.users
      && y == s.txns[t].(phase := LockingUsers(s.txns[t].phase.todo[1..]),
                         users := s.txns[t].users[id := s.db.users[id]])
    ensures Inv(cfg, s')
  {
    Apart(cfg, s, t);
    LockUserOk(s.db, s.txns[t], y);
    forall u | u in s.txns && u != t
      ensures y.users.Keys !! s.txns[u].users.Keys
    {
      assert s.txns[t].users.Keys !! s.txns[u].users.Keys;
    }
    MoveKeeps(cfg, s, s', t, y);
  }

  lemma CandidatesCover(db: Db, x: Txn)
    requires x.call.Logout? ==> SelectSessions(db.sessions, Cond(x)).Keys != {}
    requires Sound(db)
    ensures Covers(db, x, InOrder(SelectSessions(db.sessions, Cond(x)).Keys))
  {
  }

  lemma StartSessionsOk(db: Db, x: Txn, y: Txn, candidates: set<Id>)
    requires LocksOk(db, x) && x.phase == LockingUsers([])
    requires candidates <= db.sessions.Keys && Covers(db, x, InOrder(candidates))
    requires y == x.(phase := LockingSessions(InOrder(candidates)))
    ensures LocksOk(db, y)
  {
    assert ReadsAreCurrent(db, y);
    assert Covers(db, y, y.phase.todo);
  }

  lemma LockSessionReads(db: Db, x: Txn, y: Txn, sid: Id)
    requires ReadsAreCurrent(db, x) && sid in db.sessions && sid !in x.held
    requires y.call == x.call && y.users == x.users && y.held == x.held + {sid}
    requires y.sessions
      == if Matches(Cond(x), db.sessions[sid]) then x.sessions[sid := db.sessions[sid]] else x.sessions
    ensures ReadsAreCurrent(db, y)
  {
  }

  lemma LockSessionCovers(db: Db, x: Txn, y: Txn, todo: seq<Id>)
    requires todo != [] && Covers(db, x, todo)
    requires y.call == x.call && y.users == x.users && y.held == x.held + {todo[0]}
    ensures Covers(db, y, todo[1..])
  {
  }

  lemma LockSessionOk(db: Db, x: Txn, y: Txn, sid: Id)
    requires LocksOk(db, x) && x.phase.LockingSessions? && x.phase.todo != []
    requires sid == x.phase.todo[0] && sid in db.sessions
    requires y == x.(phase := LockingSessions(x.phase.todo[1..]), held := x.held + {sid},
                     sessions := if Matches(Cond(x), db.sessions[sid]) then x.sessions[sid := db.sessions[sid]]
                                 else x.sessions)
    ensures LocksOk(db, y)
  {
    var todo := x.phase.todo;
    assert sid in todo;
    LockSessionReads(db, x, y, sid);
    LockSessionCovers(db, x, y, todo);
    assert forall id <- todo[1..] :: id in todo && sid < id;
  }

  lemma LockSessionKeeps(cfg: Config, s: State, s': State, t: TxnId, y: Txn)
    requires Inv(cfg, s) && t in s.txns && s' == s.(txns := s.txns[t := y])
    requires s.txns[t].phase.LockingSessions? && s.txns[t].phase.todo != []
    requires SessionFree(s, t, s.txns[t].phase.todo[0])
    requires LocksOk(s.db, y) && y.call == s.txns[t].call && y.phase.LockingSessions?
    requires y.users == s.txns[t].users && y.held == s.txns[t].held + {s.txns[t].phase.todo[0]}
    ensures Inv(cfg, s')
  {
    Apart(cfg, s, t);
    forall u | u in s.txns && u != t
      ensures y.held !! s.txns[u].held
    {
      assert s.txns[t].held !! s.txns[u].held;
    }
    MoveKeeps(cfg, s, s', t, y);
  }

  /** A locking statement starts, or locks its next row. */
  lemma LockingKeeps(cfg: Config, s: State, t: TxnId, step: Step)
    requires Inv(cfg, s) && Enabled(cfg, s, step) && t == step.t
    requires step.StartUsers? || step.LockUser? || step.StartSessions? || step.LockSession?
    ensures Inv(cfg, Do(cfg, s, step))
  {
    var s' := Do(cfg, s, step);
    var x, y := s.txns[t], s'.txns[t];
    Apart(cfg, s, t);
    match step
    case StartUsers(_) =>
      StartUsersOk(s.db, x, y);
      MoveKeeps(cfg, s, s', t, y);
    case LockUser(_) =>
      LockUserKeeps(cfg, s, s', t, y);
    case StartSessions(_) =>
      CandidatesCover(s.db, x);
      StartSessionsOk(s.db, x, y, Candidates(s, x));
      MoveKeeps(cfg, s, s', t, y);
    case LockSession(_) =>
      LockSessionOk(s.db, x, y, x.phase.todo[0]);
      LockSessionKeeps(cfg, s, s', t, y);
    case _ =>
  }

  lemma PrepareOk(cfg: Config, s: State, s': State, x: Txn, y: Txn, env: Env)
    requires TxnOk(cfg, s, x) && x.phase == LockingSessions([]) && DrawsFresh(s, x.call, env)
    requires s.db.users.Keys <= s.issuedUsers && s.db.sessions.Keys <= s.issuedSessions
    requires Decide(cfg, x.call, env, x.users, x.sessions).Ok?
    requires y == x.(phase := Prepared(env, Decide(cfg, x.call, env, x.users, x.sessions).value))
    requires s'.db == s.db
    requires x.call.Register? ==> env.freshId in s'.issuedUsers
    requires x.call.Login? ==> env.freshId in s'.issuedSessions
    ensures TxnOk(cfg, s', y)
  {
    assert ReadsAreCurrent(s'.db, y);
    assert Covers(s'.db, y, []);
  }

  lemma PreparedIsExclusive(cfg: Config, s: State, x: Txn, y: Txn, env: Env, z: Txn)
    requires Exclusive(x, z) && TxnOk(cfg, s, z) && DrawsFresh(s, x.call, env)
    requires y.call == x.call && y.users == x.users && y.held == x.held && y.phase.Prepared? && y.phase.env == env
    ensures Exclusive(y, z)
  {
  }

  lemma PrepareKeeps(cfg: Config, s: State, t: TxnId, env: Env)
    requires Inv(cfg, s) && Enabled(cfg, s, Prepare(t, env))
    ensures Inv(cfg, Do(cfg, s, Prepare(t, env)))
  {
    var s' := Do(cfg, s, Prepare(t, env));
    PrepareOk(cfg, s, s', s.txns[t], s'.txns[t], env);
    forall u | u in s.txns && u != t
      ensures Exclusive(s'.txns[t], s.txns[u])
    {
      PreparedIsExclusive(cfg, s, s.txns[t], s'.txns[t], env, s.txns[u]);
    }
    OneTxnMoves(cfg, s, s', t, s'.txns[t]);
  }

  lemma RemovalKeeps(cfg: Config, s: State, s': State, t: TxnId)
    requires Inv(cfg, s) && s'.db == s.db && s'.txns == s.txns - {t}
    requires s'.issuedUsers == s.issuedUsers && s'.issuedSessions == s.issuedSessions
    ensures Inv(cfg, s')
  {
    forall u | u in s'.txns
      ensures TxnOk(cfg, s', s'.txns[u])
    {
      assert TxnOk(cfg, s, s.txns[u]);
    }
  }

  /** What a commit of `x` may write, as the other transactions see it. */
  ghost predicate WritesWithin(db: Db, d: Delta, x: Txn) {
    && (forall id <- d.users :: id in x.users || id !in db.users)
    && (forall sid <- d.sessions :: sid in x.held || sid !in db.sessions)
    && (forall sid <- d.sessions :: sid !in db.sessions ==> d.sessions[sid].userId in x.users)
  }

  lemma CommitWritesWithin(cfg: Config, s: State, x: Txn)
    requires TxnOk(cfg, s, x) && x.phase.Prepared?
    ensures WritesWithin(s.db, x.phase.verdict.delta, x)
  {
    WritesHeldRows(cfg, x.call, x.phase.env, x.users, x.sessions);
    assert x.call.Register? ==> DrewUser(x, x.phase.env.freshId);
    assert x.call.Login? ==> DrewSession(x, x.phase.env.freshId);
  }

  lemma ReadsStayCurrent(db: Db, d: Delta, x: Txn, y: Txn)
    requires ReadsAreCurrent(db, y) && WritesWithin(db, d, x)
    requires x.users.Keys !! y.users.Keys && x.held !! y.held
    ensures ReadsAreCurrent(Apply(db, d), y)
  {
  }

  /** No phantom joins a locked set, and no session leaves it: a new session needs the lock on its
      owner, and a session row that is held cannot be written by anyone else. */
  lemma CoverStays(db: Db, d: Delta, x: Txn, y: Txn, todo: seq<Id>)
    requires Sound(db) && LegalDelta(db, d) && WritesWithin(db, d, x)
    requires x.users.Keys !! y.users.Keys && Covers(db, y, todo)
    requires forall sid <- todo :: sid in db.sessions
    requires forall sid <- y.held :: sid in db.sessions
    ensures Covers(Apply(db, d), y, todo)
  {
    var db' := Apply(db, d);
    forall sid <- db'.sessions | Guarded(y, db'.sessions[sid])
      ensures sid in y.held || sid in todo
    {
      if sid in db.sessions {
        assert Guarded(y, db.sessions[sid]);
      }
    }
  }

  lemma PhaseStays(db: Db, d: Delta, x: Txn, y: Txn)
    requires Sound(db) && LegalDelta(db, d) && WritesWithin(db, d, x)
    requires x.users.Keys !! y.users.Keys && PhaseOk(db, y)
    requires forall sid <- y.held :: sid in db.sessions
    ensures PhaseOk(Apply(db, d), y)
  {
    match y.phase
    case LockingSessions(todo) => CoverStays(db, d, x, y, todo);
    case Prepared(_, _) => CoverStays(db, d, x, y, []);
    case _ =>
  }

  /** The values that other transactions have drawn stay unused. */
  lemma DrawsStayUnused(cfg: Config, s: State, x: Txn, y: Txn)
    requires x.phase.Prepared? && TxnOk(cfg, s, x) && TxnOk(cfg, s, y) && Exclusive(x, y)
    requires x.users.Keys <= s.db.users.Keys && x.sessions.Keys <= s.db.sessions.Keys
    ensures var db' := Apply(s.db, x.phase.verdict.delta);
      && (forall id :: DrewUser(y, id) ==> id !in db'.users)
      && (forall id :: DrewSession(y, id) ==> id !in db'.sessions)
  {
    WritesHeldRows(cfg, x.call, x.phase.env, x.users, x.sessions);
    assert x.call.Register? ==> DrewUser(x, x.phase.env.freshId);
    assert x.call.Login? ==> DrewSession(x, x.phase.env.freshId);
  }

  lemma HeldRowsExist(db: Db, x: Txn)
    requires ReadsAreCurrent(db, x)
    ensures x.users.Keys <= db.users.Keys && x.sessions.Keys <= db.sessions.Keys
  {
    forall sid | sid in x.sessions
      ensures sid in db.sessions
    {
      assert sid in x.held;
    }
  }

  /** A commit disturbs no other transaction. */
  lemma CommitSparesOthers(cfg: Config, s: State, s': State, x: Txn, y: Txn)
    requires Good(s.db) && x.phase.Prepared? && LegalDelta(s.db, x.phase.verdict.delta)
    requires TxnOk(cfg, s, x) && TxnOk(cfg, s, y) && Exclusive(x, y)
    requires WritesWithin(s.db, x.phase.verdict.delta, x)
    requires s'.db == Apply(s.db, x.phase.verdict.delta)
    requires s'.issuedUsers == s.issuedUsers && s'.issuedSessions == s.issuedSessions
    ensures TxnOk(cfg, s', y)
  {
    var d := x.phase.verdict.delta;
    ReadsStayCurrent(s.db, d, x, y);
    PhaseStays(s.db, d, x, y);
    HeldRowsExist(s.db, x);
    DrawsStayUnused(cfg, s, x, y);
  }

  lemma CommitKeeps(cfg: Config, s: State, t: TxnId)
    requires Inv(cfg, s) && Enabled(cfg, s, Commit(t))
    ensures Inv(cfg, Do(cfg, s, Commit(t)))
    ensures Exec(cfg, s.db, s.txns[t].call, s.txns[t].phase.env) == Ok(s.txns[t].phase.verdict)
  {
    var s' := Do(cfg, s, Commit(t));
    var x := s.txns[t];
    var d := x.phase.verdict.delta;
    assert TxnOk(cfg, s, x);
    CommitIsAtomic(cfg, s.db, x);
    ExecIsLegal(cfg, s.db, x.call, x.phase.env, x.phase.verdict);
    StepKeepsSound(s.db, d);
    StepKeepsExpelledOut(s.db, d);
    CommitWritesWithin(cfg, s, x);
    IssuedStays(cfg, s, s', x);
    forall u | u in s'.txns
      ensures TxnOk(cfg, s', s'.txns[u])
    {
      CommitSparesOthers(cfg, s, s', x, s.txns[u]);
    }
  }

  lemma IssuedStays(cfg: Config, s: State, s': State, x: Txn)
    requires TxnOk(cfg, s, x) && x.phase.Prepared?
    requires s.db.users.Keys <= s.issuedUsers && s.db.sessions.Keys <= s.issuedSessions
    requires s'.db == Apply(s.db, x.phase.verdict.delta)
    requires s'.issuedUsers == s.issuedUsers && s'.issuedSessions == s.issuedSessions
    ensures s'.db.users.Keys <= s'.issuedUsers && s'.db.sessions.Keys <= s'.issuedSessions
  {
    WritesHeldRows(cfg, x.call, x.phase.env, x.users, x.sessions);
    assert x.call.Register? ==> DrewUser(x, x.phase.env.freshId);
    assert x.call.Login? ==> DrewSession(x, x.phase.env.freshId);
    forall sid <- s'.db.sessions
      ensures sid in s.issuedSessions
    {
      if sid in x.sessions {
        assert sid in x.held;
      }
    }
  }

  lemma StepKeeps(cfg: Config, s: State, step: Step)
    requires Inv(cfg, s) && Enabled(cfg, s, step)
    ensures Inv(cfg, Do(cfg, s, step))
  {
    match step
    case Begin(t, call) => BeginKeeps(cfg, s, t, call);
    case MissLogout(t, _) => RemovalKeeps(cfg, s, Do(cfg, s, step), t);
    case Prepare(t, env) => PrepareKeeps(cfg, s, t, env);
    case Commit(t) => CommitKeeps(cfg, s, t);
    case Abort(t) => RemovalKeeps(cfg, s, Do(cfg, s, step), t);
    case _ => LockingKeeps(cfg, s, step.t, step);
  }

  /** The step leaves database and history alone, or appends one call and runs it. */
  ghost predicate ExtendsRun(cfg: Config, s: State, s': State) {
    || (s'.db == s.db && s'.history == s.history)
    || exists e :: s'.history == s.history + [e] && RunOne(cfg, s.db, e) == Some(s'.db)
  }

  lemma CommitExtendsRun(cfg: Config, s: State, t: TxnId)
    requires Inv(cfg, s) && Enabled(cfg, s, Commit(t))
    ensures ExtendsRun(cfg, s, Do(cfg, s, Commit(t)))
  {
    var s', x := Do(cfg, s, Commit(t)), s.txns[t];
    var e := Committed(x.call, x.phase.env, x.phase.verdict.reply);
    CommitKeeps(cfg, s, t);
    assert s'.history == s.history + [e] && RunOne(cfg, s.db, e) == Some(s'.db);
  }

  lemma MissExtendsRun(cfg: Config, s: State, t: TxnId, env: Env)
    requires Inv(cfg, s) && Enabled(cfg, s, MissLogout(t, env))
    ensures ExtendsRun(cfg, s, Do(cfg, s, MissLogout(t, env)))
  {
    var s', x := Do(cfg, s, MissLogout(t, env)), s.txns[t];
    var e := Committed(x.call, env, LoggedOut);
    assert TxnOk(cfg, s, x);
    LogoutMissIsAtomic(cfg, s.db, x, env);
    assert s'.history == s.history + [e] && RunOne(cfg, s.db, e) == Some(s'.db);
  }

  /** One step extends the serial run by the call that it commits, if it commits one. */
  lemma StepExtendsRun(cfg: Config, s: State, step: Step)
    requires Inv(cfg, s) && Enabled(cfg, s, step)
    ensures ExtendsRun(cfg, s, Do(cfg, s, step))
  {
    match step
    case Commit(t) => CommitExtendsRun(cfg, s, t);
    case MissLogout(t, env) => MissExtendsRun(cfg, s, t, env);
    case _ =>
  }

  lemma LogoutMissIsAtomic(cfg: Config, db: Db, x: Txn, env: Env)
    requires Precheck(cfg, x.call) == Pass && x.call.Logout? && x.users.Keys <= UserIds(x.call)
    requires SelectSessions(db.sessions, Cond(x)).Keys == {}
    requires Decide(cfg, x.call, env, map[], map[]).Ok?
    ensures RunOne(cfg, db, Committed(x.call, env, LoggedOut)) == Some(db)
  {
    assert SelectUsers(db.users, UserIds(x.call)) == map[] == x.users;
    assert SelectSessions(db.sessions, Cond(x)) == map[];
    var v := Decide(cfg, x.call, env, map[], map[]).value;
    assert RevokeAll(map[], NormalizeTime(env.clock)) == map[];
    assert Apply(db, NO_CHANGE) == db;
  }

  lemma {:induction false} ReachableKeeps(cfg: Config, start: Db, steps: seq<Step>)
    requires Good(start) && Execute(cfg, Fresh(start), steps).Some?
    ensures Inv(cfg, Execute(cfg, Fresh(start), steps).value)
  {
    if steps != [] {
      ReachableKeeps(cfg, start, steps[..|steps| - 1]);
      StepKeeps(cfg, Execute(cfg, Fresh(start), steps[..|steps| - 1]).value, steps[|steps| - 1]);
    }
  }

  /** The database of every reachable state is what the committed calls leave, with the same replies,
      when they run one at a time in commit order. */
  lemma {:induction false} InterleavingIsSerializable(cfg: Config, start: Db, steps: seq<Step>)
    requires Good(start) && Execute(cfg, Fresh(start), steps).Some?
    ensures var s := Execute(cfg, Fresh(start), steps).value;
      Run(cfg, start, s.history) == Some(s.db)
  {
    if steps != [] {
      var mid := Execute(cfg, Fresh(start), steps[..|steps| - 1]).value;
      InterleavingIsSerializable(cfg, start, steps[..|steps| - 1]);
      ReachableKeeps(cfg, start, steps[..|steps| - 1]);
      StepExtendsRun(cfg, mid, steps[|steps| - 1]);
      var s := Do(cfg, mid, steps[|steps| - 1]);
      if s.history != mid.history {
        var e :| s.history == mid.history + [e] && RunOne(cfg, mid.db, e) == Some(s.db);
        assert s.history[..|s.history| - 1] == mid.history;
        assert RunLast(cfg, start, s.history) == Some(s.db);
      }
    }
  }
}
