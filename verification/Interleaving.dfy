/** Transactions that interleave statement by statement and row lock by row lock.

    A locking statement first fixes its candidate rows, as of its start, and then locks them one at a
    time in ascending order of id. It waits while another transaction holds the row; after the wait it
    checks the row condition again on the latest committed version. A row lock lasts until the
    transaction ends. Writes stay private until the commit. */
module Interleaving {
  import opened Wrappers
  import opened Domain
  import opened Database
  import opened Protocol
  import opened Runs
  import opened Order

  type TxnId = nat

  datatype Phase =
    | Starting
    | LockingUsers(todo: seq<Id>)
    | LockingSessions(todo: seq<Id>)
    | Prepared(env: Env, verdict: Verdict)

  /** A transaction in flight: `users` are the user rows it holds, as read; `held` are the session rows
      it holds, and `sessions` those of them that met the row condition, as read. */
  datatype Txn = Txn(call: Call, phase: Phase, users: map<Id, User>, held: set<Id>, sessions: map<Id, Session>)

  /** `issuedUsers` and `issuedSessions` are the values the id sequences have handed out; `history`
      lists the committed calls in commit order. */
  datatype State = State(
    db: Db, issuedUsers: set<Id>, issuedSessions: set<Id>,
    txns: map<TxnId, Txn>, history: seq<Committed>)

  datatype Step =
    | Begin(t: TxnId, call: Call)
    | StartUsers(t: TxnId)
    | LockUser(t: TxnId)
    | StartSessions(t: TxnId)
    | LockSession(t: TxnId)
    | MissLogout(t: TxnId, env: Env)
    | Prepare(t: TxnId, env: Env)
    | Commit(t: TxnId)
    | Abort(t: TxnId)

  function Fresh(db: Db): State {
    State(db, db.users.Keys, db.sessions.Keys, map[], [])
  }

  function Cond(x: Txn): Condition {
    SessionCondition(x.call, x.users)
  }

  function Candidates(s: State, x: Txn): set<Id> {
    SelectSessions(s.db.sessions, Cond(x)).Keys
  }

  predicate UserFree(s: State, t: TxnId, id: Id) {
    forall u <- s.txns :: u != t ==> id !in s.txns[u].users
  }

  predicate SessionFree(s: State, t: TxnId, sid: Id) {
    forall u <- s.txns :: u != t ==> sid !in s.txns[u].held
  }

  /** A sequence value that was never handed out before, where the call draws one. */
  predicate DrawsFresh(s: State, c: Call, env: Env) {
    && (c.Register? ==> env.freshId !in s.issuedUsers)
    && (c.Login? ==> env.freshId !in s.issuedSessions)
  }

  /** When a step can be taken. A transaction may abort in any phase: on an error of its own, on a
      failing statement, or on a failing commit. */
  predicate Enabled(cfg: Config, s: State, step: Step) {
    match step
    case Begin(t, call) => t !in s.txns && Precheck(cfg, call) == Pass
    case StartUsers(t) => t in s.txns && s.txns[t].phase.Starting?
    case LockUser(t) =>
      && t in s.txns && s.txns[t].phase.LockingUsers? && s.txns[t].phase.todo != []
      && UserFree(s, t, s.txns[t].phase.todo[0]) && s.txns[t].phase.todo[0] in s.db.users
    case StartSessions(t) =>
      && t in s.txns && s.txns[t].phase == LockingUsers([])
      && !(s.txns[t].call.Logout? && Candidates(s, s.txns[t]) == {})
    case LockSession(t) =>
      && t in s.txns && s.txns[t].phase.LockingSessions? && s.txns[t].phase.todo != []
      && SessionFree(s, t, s.txns[t].phase.todo[0]) && s.txns[t].phase.todo[0] in s.db.sessions
    case MissLogout(t, env) =>
      && t in s.txns && s.txns[t].phase == LockingUsers([])
      && s.txns[t].call.Logout? && Candidates(s, s.txns[t]) == {}
      && Decide(cfg, s.txns[t].call, env, map[], map[]).Ok?
    case Prepare(t, env) =>
      && t in s.txns && s.txns[t].phase == LockingSessions([])
      && DrawsFresh(s, s.txns[t].call, env)
      && Decide(cfg, s.txns[t].call, env, s.txns[t].users, s.txns[t].sessions).Ok?
    case Commit(t) =>
      && t in s.txns && s.txns[t].phase.Prepared?
      && Admit(s.db, s.txns[t].call, s.txns[t].phase.env) == Pass
    case Abort(t) => t in s.txns
  }

  /** The state after a step. A single-row revocation that finds no candidate is over, and committed,
      at once. */
  ghost function Do(cfg: Config, s: State, step: Step): State
    requires Enabled(cfg, s, step)
  {
    match step
    case Begin(t, call) => s.(txns := s.txns[t := Txn(call, Starting, map[], {}, map[])])
    case StartUsers(t) =>
      var x := s.txns[t];
      s.(txns := s.txns[t := x.(phase := LockingUsers(InOrder(UserIds(x.call) * s.db.users.Keys)))])
    case LockUser(t) =>
      var x := s.txns[t];
      var id := x.phase.todo[0];
      s.(txns := s.txns[t := x.(phase := LockingUsers(x.phase.todo[1..]), users := x.users[id := s.db.users[id]])])
    case StartSessions(t) =>
      var x := s.txns[t];
      s.(txns := s.txns[t := x.(phase := LockingSessions(InOrder(Candidates(s, x))))])
    case LockSession(t) =>
      var x := s.txns[t];
      var sid := x.phase.todo[0];
      var row := s.db.sessions[sid];
      s.(txns := s.txns[t := x.(phase := LockingSessions(x.phase.todo[1..]), held := x.held + {sid},
                                sessions := if Matches(Cond(x), row) then x.sessions[sid := row] else x.sessions)])
    case MissLogout(t, env) =>
      var x := s.txns[t];
      s.(txns := s.txns - {t}, history := s.history + [Committed(x.call, env, LoggedOut)])
    case Prepare(t, env) =>
      var x := s.txns[t];
      s.(txns := s.txns[t := x.(phase := Prepared(env, Decide(cfg, x.call, env, x.users, x.sessions).value))],
         issuedUsers := if x.call.Register? then s.issuedUsers + {env.freshId} else s.issuedUsers,
         issuedSessions := if x.call.Login? then s.issuedSessions + {env.freshId} else s.issuedSessions)
    case Commit(t) =>
      var x := s.txns[t];
      s.(db := Apply(s.db, x.phase.verdict.delta), txns := s.txns - {t},
         history := s.history + [Committed(x.call, x.phase.env, x.phase.verdict.reply)])
    case Abort(t) => s.(txns := s.txns - {t})
  }

  /** The state after a sequence of steps, if each was enabled in its turn. */
  ghost function Execute(cfg: Config, s: State, steps: seq<Step>): Option<State> {
    if steps == [] then Some(s)
    else
      match Execute(cfg, s, steps[..|steps| - 1])
      case None => None
      case Some(mid) =>
        if Enabled(cfg, mid, steps[|steps| - 1]) then Some(Do(cfg, mid, steps[|steps| - 1])) else None
  }

  /** A session that may only leave the locked set of `x`, not join it: its owner is locked by `x`. */
  predicate Guarded(x: Txn, row: Session) {
    match Cond(x)
    case NoRows => false
    case Rows(_, activeOf) => row.userId in activeOf && row.userId in x.users && row.revokedAt.None?
    case OwnActive(_, _) => Matches(Cond(x), row)
  }

  /** Every guarded session is locked already or still to be locked. */
  ghost predicate Covers(db: Db, x: Txn, todo: seq<Id>) {
    && (forall sid <- db.sessions :: Guarded(x, db.sessions[sid]) ==> sid in x.held || sid in todo)
    && (Cond(x).OwnActive? ==> Cond(x).id in x.held || Cond(x).id in todo)
  }

  /** What `x` has read is what the database holds. */
  ghost predicate ReadsAreCurrent(db: Db, x: Txn) {
    && x.users.Keys <= UserIds(x.call)
    && (forall id <- x.users :: id in db.users && db.users[id] == x.users[id])
    && x.sessions.Keys <= x.held
    && (forall sid <- x.held ::
          && sid in db.sessions
          && (sid in x.sessions <==> Matches(Cond(x), db.sessions[sid])))
    && (forall sid <- x.sessions :: x.sessions[sid] == db.sessions[sid])
  }

  /** Rows are locked in ascending order, users before sessions. */
  ghost predicate PhaseOk(db: Db, x: Txn) {
    match x.phase
    case Starting => x.users == map[] && x.held == {}
    case LockingUsers(todo) =>
      && x.held == {} && Ascending(todo)
      && (forall id <- todo :: id in db.users && id in UserIds(x.call) && forall h <- x.users :: h < id)
    case LockingSessions(todo) =>
      && Ascending(todo)
      && (forall sid <- todo :: sid in db.sessions && forall h <- x.held :: h < sid)
      && Covers(db, x, todo)
    case Prepared(_, _) => Covers(db, x, [])
  }

  /** The call passed its input checks, and a prepared verdict is its decision on the rows it holds. */
  ghost predicate CallOk(cfg: Config, x: Txn) {
    && Precheck(cfg, x.call) == Pass
    && (x.phase.Prepared? ==> Decide(cfg, x.call, x.phase.env, x.users, x.sessions) == Ok(x.phase.verdict))
  }

  ghost predicate LocksOk(db: Db, x: Txn) {
    ReadsAreCurrent(db, x) && PhaseOk(db, x)
  }

  /** The id a prepared transaction has drawn for the row it inserts. */
  predicate DrewUser(x: Txn, id: Id) {
    x.phase.Prepared? && x.call.Register? && x.phase.env.freshId == id
  }

  predicate DrewSession(x: Txn, id: Id) {
    x.phase.Prepared? && x.call.Login? && x.phase.env.freshId == id
  }

  ghost predicate TxnOk(cfg: Config, s: State, x: Txn) {
    && CallOk(cfg, x)
    && LocksOk(s.db, x)
    && (forall id :: DrewUser(x, id) ==> id in s.issuedUsers && id !in s.db.users)
    && (forall id :: DrewSession(x, id) ==> id in s.issuedSessions && id !in s.db.sessions)
  }

  /** No row is locked twice, and no sequence value is drawn twice. */
  ghost predicate Exclusive(x: Txn, y: Txn) {
    && x.users.Keys !! y.users.Keys && x.held !! y.held
    && (forall id :: !(DrewUser(x, id) && DrewUser(y, id)))
    && (forall id :: !(DrewSession(x, id) && DrewSession(y, id)))
  }

  /** The invariant of every reachable state. */
  ghost predicate Inv(cfg: Config, s: State) {
    && Good(s.db)
    && s.db.users.Keys <= s.issuedUsers && s.db.sessions.Keys <= s.issuedSessions
    && (forall t <- s.txns :: TxnOk(cfg, s, s.txns[t]))
    && (forall t, u | t in s.txns && u in s.txns && t != u :: Exclusive(s.txns[t], s.txns[u]))
  }

  /** An accepted call has found every row that it names. */
  lemma AcceptFindsAll(cfg: Config, c: Call, env: Env, users: map<Id, User>, sessions: map<Id, Session>)
    requires Decide(cfg, c, env, users, sessions).Ok?
    ensures UserIds(c) <= users.Keys
    ensures SessionCondition(c, users).Rows? ==>
      SessionCondition(c, users).ids <= sessions.Keys && SessionCondition(c, users).activeOf <= UserIds(c)
  {
  }

  /** A call writes only rows that it holds, apart from the one row it may insert. */
  lemma WritesHeldRows(cfg: Config, c: Call, env: Env, users: map<Id, User>, sessions: map<Id, Session>)
    requires Decide(cfg, c, env, users, sessions).Ok?
    ensures var d := Decide(cfg, c, env, users, sessions).value.delta;
      && d.users.Keys <= users.Keys + (if c.Register? then {env.freshId} else {})
      && d.sessions.Keys <= sessions.Keys + (if c.Login? then {env.freshId} else {})
      && (c.Login? ==> c.userId in users && env.freshId in d.sessions && d.sessions[env.freshId].userId == c.userId)
  {
  }

  /** No row that the call names has come into being since the statement that missed it. */
  ghost predicate NoneAppeared(db: Db, x: Txn) {
    && (forall id <- UserIds(x.call) :: id in db.users ==> id in x.users)
    && (Cond(x).Rows? ==> forall sid <- Cond(x).ids :: sid in db.sessions ==> sid in x.held)
  }

  /** A call locks active sessions only of users that it names. */
  lemma ActiveOfNamed(c: Call, users: map<Id, User>)
    ensures SessionCondition(c, users).Rows? ==> SessionCondition(c, users).activeOf <= UserIds(c)
  {
  }

  /** As long as no named row has appeared, and once every guarded session is locked, the rows held are
      the rows that the statements would select now. */
  lemma HeldIsSelected(db: Db, x: Txn)
    requires Sound(db) && ReadsAreCurrent(db, x) && Covers(db, x, []) && NoneAppeared(db, x)
    ensures SelectUsers(db.users, UserIds(x.call)) == x.users
    ensures SelectSessions(db.sessions, Cond(x)) == x.sessions
  {
    assert forall id :: id in SelectUsers(db.users, UserIds(x.call)) <==> id in x.users;
    ActiveOfNamed(x.call, x.users);
    var now := SelectSessions(db.sessions, Cond(x));
    forall sid | sid in now
      ensures sid in x.sessions
    {
      if !(Cond(x).Rows? && sid in Cond(x).ids) {
        assert Guarded(x, db.sessions[sid]);
      }
    }
    assert forall sid | sid in x.sessions :: sid in x.held;
    assert forall sid | sid in x.sessions :: sid in now && now[sid] == x.sessions[sid];
    assert now == x.sessions;
  }

  /** The decision of a fully locked transaction is that of the call run on its own, there and then. */
  lemma DecisionIsCurrent(cfg: Config, db: Db, x: Txn, env: Env)
    requires Sound(db) && Precheck(cfg, x.call) == Pass && ReadsAreCurrent(db, x) && Covers(db, x, [])
    requires NoneAppeared(db, x)
    ensures var d := Decide(cfg, x.call, env, x.users, x.sessions);
      Exec(cfg, db, x.call, env)
      == if d.Ok? && Admit(db, x.call, env).Fail? then Err(Admit(db, x.call, env).error) else d
  {
    HeldIsSelected(db, x);
  }

  lemma AcceptedMissesNothing(cfg: Config, db: Db, x: Txn, env: Env)
    requires ReadsAreCurrent(db, x) && Decide(cfg, x.call, env, x.users, x.sessions).Ok?
    ensures NoneAppeared(db, x)
  {
    AcceptFindsAll(cfg, x.call, env, x.users, x.sessions);
    assert forall sid | sid in x.sessions :: sid in x.held;
  }

  /** A commit is the call run on its own, there and then. */
  lemma CommitIsAtomic(cfg: Config, db: Db, x: Txn)
    requires Sound(db) && CallOk(cfg, x) && LocksOk(db, x) && x.phase.Prepared?
    requires Admit(db, x.call, x.phase.env) == Pass
    ensures Exec(cfg, db, x.call, x.phase.env) == Ok(x.phase.verdict)
  {
    AcceptedMissesNothing(cfg, db, x, x.phase.env);
    DecisionIsCurrent(cfg, db, x, x.phase.env);
  }

  /** So is the uniqueness conflict that a commit meets. */
  lemma ConflictIsAtomic(cfg: Config, db: Db, x: Txn)
    requires Sound(db) && CallOk(cfg, x) && LocksOk(db, x) && x.phase.Prepared?
    requires Admit(db, x.call, x.phase.env).Fail?
    ensures Exec(cfg, db, x.call, x.phase.env) == Err(Admit(db, x.call, x.phase.env).error)
  {
    AcceptedMissesNothing(cfg, db, x, x.phase.env);
    DecisionIsCurrent(cfg, db, x, x.phase.env);
  }

  /** And so is the rejection of a fully locked transaction, unless a row that it missed has appeared. */
  lemma RejectionIsAtomic(cfg: Config, db: Db, x: Txn, env: Env)
    requires Sound(db) && Precheck(cfg, x.call) == Pass && LocksOk(db, x) && x.phase == LockingSessions([])
    requires NoneAppeared(db, x) && Decide(cfg, x.call, env, x.users, x.sessions).Err?
    ensures Exec(cfg, db, x.call, env) == Err(Decide(cfg, x.call, env, x.users, x.sessions).error)
  {
    DecisionIsCurrent(cfg, db, x, env);
  }
}
