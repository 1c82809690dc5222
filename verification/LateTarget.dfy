/** Why the error of a status change is not always that of the call run on its own: an execution in which one
    reports an unknown target, although at no instant of its flight it would have done so alone. */
module LateTarget {
  import opened Wrappers
  import opened Domain
  import opened Database
  import opened Protocol
  import opened Verdicts
  import opened Runs
  import opened Order
  import opened Interleaving
  import opened Guarantees
  import opened Acceptance
  import opened Rejections

  lemma UnknownTargetNeedsAdmin(cfg: Config, db: Db, c: Call, env: Env)
    requires c.ChangeStatus? && Exec(cfg, db, c, env) == Err(UserNotFound)
    ensures c.targetId !in db.users && c.actorId in db.users && db.users[c.actorId].role == RoleAdmin
  {
  }

  lemma {:induction false} InTurn(cfg: Config, s: State, first: seq<Step>, mid: State, rest: seq<Step>)
    requires Execute(cfg, s, first) == Some(mid)
    ensures Execute(cfg, s, first + rest) == Execute(cfg, mid, rest)
  {
    if rest == [] {
      assert first + rest == first;
    } else {
      var n := |rest| - 1;
      InTurn(cfg, s, first, mid, rest[..n]);
      assert (first + rest)[..|first + rest| - 1] == first + rest[..n];
    }
  }

  /** Only commits change the database. */
  lemma {:induction false} OnlyCommitsWrite(cfg: Config, s: State, steps: seq<Step>, s': State)
    requires Execute(cfg, s, steps) == Some(s') && forall step <- steps :: !step.Commit?
    ensures s'.db == s.db
  {
    if steps != [] {
      var n := |steps| - 1;
      OnlyCommitsWrite(cfg, s, steps[..n], Execute(cfg, s, steps[..n]).value);
      assert steps[n] in steps;
    }
  }

  lemma First(cfg: Config, s: State, step: Step, rest: seq<Step>)
    requires Enabled(cfg, s, step)
    ensures Execute(cfg, s, [step] + rest) == Execute(cfg, Do(cfg, s, step), rest)
  {
    assert [step][..0] == [];
    assert Execute(cfg, s, []) == Some(s);
    assert Execute(cfg, s, [step]) == Some(Do(cfg, s, step));
    InTurn(cfg, s, [step], Do(cfg, s, step), rest);
  }

  /** The three steps that take a status change from its user statement to its decision. */
  function LastLocks(t: TxnId): seq<Step> {
    [LockUser(t), StartSessions(t), LockSession(t)]
  }

  /** The rows that a status change holds when its target appeared after its user statement started. */
  lemma TargetIsMissed(cfg: Config, s: State, t: TxnId, c: Call) returns (s': State)
    requires Sound(s.db) && c.ChangeStatus? && !c.newStatus.Banned?
    requires c.actorId in s.db.users && c.actorSessionId in s.db.sessions
    requires t in s.txns && s.txns[t] == Txn(c, LockingUsers([c.actorId]), map[], {}, map[])
    requires UserFree(s, t, c.actorId) && SessionFree(s, t, c.actorSessionId)
    ensures Execute(cfg, s, LastLocks(t)) == Some(s') && s'.db == s.db
    ensures t in s'.txns && s'.txns[t].call == c && s'.txns[t].phase == LockingSessions([])
    ensures s'.txns[t].users == map[c.actorId := s.db.users[c.actorId]]
    ensures s'.txns[t].sessions == map[c.actorSessionId := s.db.sessions[c.actorSessionId]]
  {
    var s1 := Do(cfg, s, LockUser(t));
    ActorSessionIsCandidate(s1, s1.txns[t]);
    var s2 := Do(cfg, s1, StartSessions(t));
    ExecuteThree(cfg, s, LockUser(t), StartSessions(t), LockSession(t));
    s' := Do(cfg, s2, LockSession(t));
  }

  lemma ExecuteThree(cfg: Config, s: State, a: Step, b: Step, c: Step)
    requires Enabled(cfg, s, a) && Enabled(cfg, Do(cfg, s, a), b) && Enabled(cfg, Do(cfg, Do(cfg, s, a), b), c)
    ensures Execute(cfg, s, [a, b, c]) == Some(Do(cfg, Do(cfg, Do(cfg, s, a), b), c))
  {
    var steps := [a, b, c];
    assert steps[..2] == [a, b] && [a, b][..1] == [a] && [a][..0] == [];
    assert Execute(cfg, s, []) == Some(s);
    assert Execute(cfg, s, [a]) == Some(Do(cfg, s, a));
    assert Execute(cfg, s, [a, b]) == Some(Do(cfg, Do(cfg, s, a), b));
  }

  lemma ActorSessionIsCandidate(s: State, x: Txn)
    requires Sound(s.db) && x.call.ChangeStatus? && !x.call.newStatus.Banned? && x.call.actorSessionId in s.db.sessions
    ensures InOrder(Candidates(s, x)) == [x.call.actorSessionId]
  {
    var sid := x.call.actorSessionId;
    assert forall other :: other in Candidates(s, x) <==> other == sid;
    AscendingIsUnique(InOrder(Candidates(s, x)), [sid]);
  }

  lemma MissedTargetRejects(cfg: Config, db: Db, c: Call, env: Env)
    requires Healthy(cfg, db, env) && c.ChangeStatus? && !c.newStatus.Banned? && c.actorId != c.targetId
    requires Usable(db, c.actorId, c.actorSessionId, NormalizeTime(env.clock))
    requires CheckStatusActor(db.users[c.actorId]) == Pass
    requires c.newStatus.Muted? ==> c.mutedUntil.Some? && WantedUntil(c).value > NormalizeTime(env.clock)
    ensures Decide(cfg, c, env, map[c.actorId := db.users[c.actorId]],
                   map[c.actorSessionId := db.sessions[c.actorSessionId]])
      == Err(UserNotFound)
  {
    SampledNow(cfg, db, env);
    RecoveryAccepted(cfg, db, env, c.actorId, c.requestId);
  }

  /** A status change whose target was added after its user statement started can reject with an unknown
      user although, run on its own at that moment, it would commit. */
  lemma AppearedTargetIsMissed(cfg: Config, s: State, t: TxnId, c: Call, env: Env) returns (s': State)
    requires Healthy(cfg, s.db, env) && c.ChangeStatus? && !c.newStatus.Banned? && Exec(cfg, s.db, c, env).Ok?
    requires t in s.txns && s.txns[t] == Txn(c, LockingUsers([c.actorId]), map[], {}, map[])
    requires UserFree(s, t, c.actorId) && SessionFree(s, t, c.actorSessionId)
    ensures Execute(cfg, s, LastLocks(t)) == Some(s') && s'.db == s.db
    ensures t in s'.txns && s'.txns[t].call == c && s'.txns[t].phase == LockingSessions([])
    ensures Decide(cfg, c, env, s'.txns[t].users, s'.txns[t].sessions) == Err(UserNotFound)
  {
    ChangeStatusAccepted(cfg, s.db, c, env);
    s' := TargetIsMissed(cfg, s, t, c);
    MissedTargetRejects(cfg, s.db, c, env);
  }

  /** The steps of a transaction that locks no session, from its first lock to its commit. */
  function LastSteps(u: TxnId, env: Env): seq<Step> {
    [StartSessions(u), Prepare(u, env), Commit(u)]
  }

  lemma StartsWithoutSessions(cfg: Config, s: State, u: TxnId) returns (s': State)
    requires u in s.txns && s.txns[u].phase == LockingUsers([]) && Cond(s.txns[u]) == NoRows
    ensures Enabled(cfg, s, StartSessions(u)) && Do(cfg, s, StartSessions(u)) == s'
    ensures s' == s.(txns := s.txns[u := s.txns[u].(phase := LockingSessions([]))])
  {
    assert forall sid :: sid !in Candidates(s, s.txns[u]);
    assert InOrder(Candidates(s, s.txns[u])) == [];
    s' := Do(cfg, s, StartSessions(u));
  }

  lemma Finishes(cfg: Config, s: State, u: TxnId, env: Env, v: Verdict) returns (s': State)
    requires u in s.txns && s.txns[u].phase == LockingUsers([]) && Cond(s.txns[u]) == NoRows
    requires s.txns[u].sessions == map[] && DrawsFresh(s, s.txns[u].call, env)
    requires Decide(cfg, s.txns[u].call, env, s.txns[u].users, map[]) == Ok(v)
    requires Admit(s.db, s.txns[u].call, env) == Pass
    ensures Execute(cfg, s, LastSteps(u, env)) == Some(s')
    ensures s'.txns == s.txns - {u} && s'.db == Apply(s.db, v.delta)
  {
    var s1 := StartsWithoutSessions(cfg, s, u);
    var s2 := Do(cfg, s1, Prepare(u, env));
    s' := Do(cfg, s2, Commit(u));
    ExecuteThree(cfg, s, StartSessions(u), Prepare(u, env), Commit(u));
  }

  /** A call that locks no session decides on its users alone. */
  lemma DecidesOnUsers(cfg: Config, db: Db, c: Call, env: Env, v: Verdict)
    requires (c.Register? || c.Promote?) && Exec(cfg, db, c, env) == Ok(v)
    ensures Precheck(cfg, c) == Pass && Admit(db, c, env) == Pass
    ensures Decide(cfg, c, env, SelectUsers(db.users, UserIds(c)), map[]) == Ok(v)
  {
  }

  /** A registration from its start to its commit. */
  function RegisterSteps(u: TxnId, c: Call, env: Env): seq<Step> {
    [Begin(u, c)] + ([StartUsers(u)] + LastSteps(u, env))
  }

  lemma Registers(cfg: Config, s: State, u: TxnId, c: Call, env: Env) returns (s': State)
    requires c.Register? && u !in s.txns && Exec(cfg, s.db, c, env).Ok? && env.freshId !in s.issuedUsers
    ensures Execute(cfg, s, RegisterSteps(u, c, env)) == Some(s') && s'.txns == s.txns
    ensures s'.db == Apply(s.db, Exec(cfg, s.db, c, env).value.delta)
  {
    var v := Exec(cfg, s.db, c, env).value;
    DecidesOnUsers(cfg, s.db, c, env, v);
    var s1 := Do(cfg, s, Begin(u, c));
    assert InOrder(UserIds(c) * s.db.users.Keys) == [];
    var s2 := Do(cfg, s1, StartUsers(u));
    assert SelectUsers(s.db.users, UserIds(c)) == map[];
    s' := Finishes(cfg, s2, u, env, v);
    First(cfg, s1, StartUsers(u), LastSteps(u, env));
    First(cfg, s, Begin(u, c), [StartUsers(u)] + LastSteps(u, env));
    assert s'.txns == s.txns;
  }

  /** A promotion from its start to its commit. */
  function PromoteSteps(u: TxnId, c: Call, env: Env): seq<Step> {
    [Begin(u, c), StartUsers(u), LockUser(u)] + LastSteps(u, env)
  }

  lemma PromotedExists(cfg: Config, db: Db, c: Call, env: Env)
    requires c.Promote? && Exec(cfg, db, c, env).Ok?
    ensures c.userId in db.users
  {
  }

  /** Up to its lock: the promotion holds the row that it would select. */
  lemma PromotionLocks(cfg: Config, s: State, u: TxnId, c: Call) returns (s': State)
    requires c.Promote? && u !in s.txns && c.userId in s.db.users && UserFree(s, u, c.userId)
    ensures Execute(cfg, s, [Begin(u, c), StartUsers(u), LockUser(u)]) == Some(s') && s'.db == s.db
    ensures s'.txns == s.txns[u := Txn(c, LockingUsers([]), SelectUsers(s.db.users, UserIds(c)), {}, map[])]
  {
    var s1 := Do(cfg, s, Begin(u, c));
    OneInOrder(UserIds(c) * s.db.users.Keys, c.userId);
    var s2 := Do(cfg, s1, StartUsers(u));
    ExecuteThree(cfg, s, Begin(u, c), StartUsers(u), LockUser(u));
    s' := Do(cfg, s2, LockUser(u));
    assert s'.txns[u].users == SelectUsers(s.db.users, UserIds(c));
  }

  lemma Promotes(cfg: Config, s: State, u: TxnId, c: Call, env: Env) returns (s': State)
    requires c.Promote? && u !in s.txns && Exec(cfg, s.db, c, env).Ok? && UserFree(s, u, c.userId)
    ensures Execute(cfg, s, PromoteSteps(u, c, env)) == Some(s') && s'.txns == s.txns
    ensures s'.db == Apply(s.db, Exec(cfg, s.db, c, env).value.delta)
  {
    var v := Exec(cfg, s.db, c, env).value;
    DecidesOnUsers(cfg, s.db, c, env, v);
    PromotedExists(cfg, s.db, c, env);
    var held := PromotionLocks(cfg, s, u, c);
    s' := Finishes(cfg, held, u, env, v);
    InTurn(cfg, s, [Begin(u, c), StartUsers(u), LockUser(u)], held, LastSteps(u, env));
    assert s'.txns == s.txns;
  }

  lemma OneInOrder(ids: set<Id>, id: Id)
    requires forall x :: x in ids <==> x == id
    ensures InOrder(ids) == [id]
  {
    AscendingIsUnique(InOrder(ids), [id]);
  }

  /** The status change begins and fixes the users that it will lock: the target is not among them. */
  lemma Opens(cfg: Config, db: Db, c: Call) returns (s: State)
    requires c.ChangeStatus? && Precheck(cfg, c) == Pass && c.actorId in db.users && c.targetId !in db.users
    ensures Execute(cfg, Fresh(db), [Begin(0, c), StartUsers(0)]) == Some(s)
    ensures s.db == db && s.issuedUsers == db.users.Keys
    ensures s.txns == map[0 := Txn(c, LockingUsers([c.actorId]), map[], {}, map[])]
  {
    var s1 := Do(cfg, Fresh(db), Begin(0, c));
    OneInOrder(UserIds(c) * db.users.Keys, c.actorId);
    s := Do(cfg, s1, StartUsers(0));
    First(cfg, s1, StartUsers(0), []);
    First(cfg, Fresh(db), Begin(0, c), [StartUsers(0)] + []);
    assert [Begin(0, c)] + ([StartUsers(0)] + []) == [Begin(0, c), StartUsers(0)];
    assert Execute(cfg, s, []) == Some(s);
  }

  predicate CommitsOnlyAtEnd(steps: seq<Step>) {
    forall i | 0 <= i < |steps| - 1 :: !steps[i].Commit?
  }

  lemma WrittenBefore(cfg: Config, s: State, first: seq<Step>, mid: State, rest: seq<Step>, n: nat, past: State)
    requires Execute(cfg, s, first) == Some(mid) && n <= |rest|
    requires forall step <- rest[..n] :: !step.Commit?
    requires Execute(cfg, s, (first + rest)[..|first| + n]) == Some(past)
    ensures past.db == mid.db
  {
    assert (first + rest)[..|first| + n] == first + rest[..n];
    InTurn(cfg, s, first, mid, rest[..n]);
    OnlyCommitsWrite(cfg, mid, rest[..n], past);
  }

  /** During two stretches that each end with their one commit, and a third without any, the database is one
      of three. */
  lemma OneOfThree(cfg: Config, s: State, x: seq<Step>, s1: State, y: seq<Step>, s2: State, z: seq<Step>,
                   k: nat, past: State)
    requires Execute(cfg, s, x) == Some(s1) && CommitsOnlyAtEnd(x)
    requires Execute(cfg, s, x + y) == Some(s2) && CommitsOnlyAtEnd(y)
    requires forall step <- z :: !step.Commit?
    requires k <= |x + y + z| && Execute(cfg, s, (x + y + z)[..k]) == Some(past)
    ensures past.db == s.db || past.db == s1.db || past.db == s2.db
  {
    if k < |x| {
      assert (x + y + z)[..k] == x[..k];
      OnlyCommitsWrite(cfg, s, x[..k], past);
    } else if k < |x + y| {
      assert (x + y + z)[..k] == (x + y)[..|x| + (k - |x|)];
      WrittenBefore(cfg, s, x, s1, y, k - |x|, past);
    } else {
      WrittenBefore(cfg, s, x + y, s2, z, k - |x + y|, past);
    }
  }

  function Opening(c: Call): seq<Step> {
    [Begin(0, c), StartUsers(0)]
  }

  function UntilBirth(c: Call, register: Call, born: Env): seq<Step> {
    Opening(c) + RegisterSteps(1, register, born)
  }

  function Promotion(c: Call, promoted: Env): seq<Step>
    requires c.ChangeStatus?
  {
    PromoteSteps(2, Promote(c.actorId), promoted)
  }

  /** A status change starts; then its target is registered, and then its administrator is promoted. */
  ghost predicate Story(cfg: Config, start: Db, one: Db, two: Db, c: Call, register: Call, born: Env, promoted: Env) {
    && c.ChangeStatus? && Precheck(cfg, c) == Pass && register.Register?
    && c.actorId in start.users && start.users[c.actorId].role != RoleAdmin
    && c.targetId !in start.users && born.freshId == c.targetId
    && Exec(cfg, start, register, born).Ok?
    && one == Apply(start, Exec(cfg, start, register, born).value.delta)
    && Exec(cfg, one, Promote(c.actorId), promoted).Ok?
    && two == Apply(one, Exec(cfg, one, Promote(c.actorId), promoted).value.delta)
  }

  lemma StoryUnfolds(cfg: Config, start: Db, one: Db, two: Db, c: Call, register: Call, born: Env, promoted: Env)
    returns (s0: State, s1: State, s2: State)
    requires Story(cfg, start, one, two, c, register, born, promoted)
    ensures Execute(cfg, Fresh(start), Opening(c)) == Some(s0) && s0.db == start
    ensures Execute(cfg, Fresh(start), UntilBirth(c, register, born)) == Some(s1) && s1.db == one
    ensures Execute(cfg, Fresh(start), UntilBirth(c, register, born) + Promotion(c, promoted)) == Some(s2)
    ensures s2.db == two
    ensures s2.txns == map[0 := Txn(c, LockingUsers([c.actorId]), map[], {}, map[])]
  {
    s0 := Opens(cfg, start, c);
    s1 := Registers(cfg, s0, 1, register, born);
    InTurn(cfg, Fresh(start), Opening(c), s0, RegisterSteps(1, register, born));
    s2 := Promotes(cfg, s1, 2, Promote(c.actorId), promoted);
    InTurn(cfg, Fresh(start), UntilBirth(c, register, born), s1, Promotion(c, promoted));
  }

  lemma OneCommitEach(c: Call, register: Call, born: Env, promoted: Env)
    requires c.ChangeStatus?
    ensures CommitsOnlyAtEnd(UntilBirth(c, register, born)) && CommitsOnlyAtEnd(Promotion(c, promoted))
    ensures forall step <- LastLocks(0) :: !step.Commit?
  {
  }

  lemma StoryKnows(cfg: Config, start: Db, one: Db, two: Db, c: Call, register: Call, born: Env, promoted: Env,
                   env: Env)
    requires Story(cfg, start, one, two, c, register, born, promoted)
    ensures Exec(cfg, start, c, env) != Err(UserNotFound)
    ensures Exec(cfg, one, c, env) != Err(UserNotFound)
    ensures Exec(cfg, two, c, env) != Err(UserNotFound)
  {
    RegisterVerdict(cfg, start, register, born, Exec(cfg, start, register, born).value);
    assert c.targetId in one.users && c.targetId in two.users;
    if Exec(cfg, start, c, env) == Err(UserNotFound) {
      UnknownTargetNeedsAdmin(cfg, start, c, env);
    } else if Exec(cfg, one, c, env) == Err(UserNotFound) {
      UnknownTargetNeedsAdmin(cfg, one, c, env);
    } else if Exec(cfg, two, c, env) == Err(UserNotFound) {
      UnknownTargetNeedsAdmin(cfg, two, c, env);
    }
  }

  function AllSteps(c: Call, register: Call, born: Env, promoted: Env): seq<Step>
    requires c.ChangeStatus?
  {
    UntilBirth(c, register, born) + Promotion(c, promoted) + LastLocks(0)
  }

  /** The last locks of the status change, which is alone in flight by then. */
  lemma TargetComesLate(cfg: Config, s: State, c: Call, env: Env) returns (s': State)
    requires c.ChangeStatus? && s.txns == map[0 := Txn(c, LockingUsers([c.actorId]), map[], {}, map[])]
    requires !c.newStatus.Banned? && Healthy(cfg, s.db, env) && Exec(cfg, s.db, c, env).Ok?
    ensures Execute(cfg, s, LastLocks(0)) == Some(s')
    ensures 0 in s'.txns && s'.txns[0].call == c && s'.txns[0].phase == LockingSessions([])
    ensures Decide(cfg, c, env, s'.txns[0].users, s'.txns[0].sessions) == Err(UserNotFound)
  {
    s' := AppearedTargetIsMissed(cfg, s, 0, c, env);
  }

  lemma ThreeDatabases(cfg: Config, start: Db, one: Db, two: Db, c: Call, register: Call, born: Env, promoted: Env,
                       k: nat, past: State)
    requires Story(cfg, start, one, two, c, register, born, promoted)
    requires PassedThrough(cfg, start, AllSteps(c, register, born, promoted), k, past, 0, c)
    ensures past.db == start || past.db == one || past.db == two
  {
    var s0, s1, s2 := StoryUnfolds(cfg, start, one, two, c, register, born, promoted);
    OneCommitEach(c, register, born, promoted);
    OneOfThree(cfg, Fresh(start), UntilBirth(c, register, born), s1, Promotion(c, promoted), s2, LastLocks(0),
               k, past);
  }

  /** The story can happen to every healthy database: `u` is an ordinary user with a usable session. */
  ghost predicate Setting(cfg: Config, db: Db, c: Call, env: Env, register: Call, u: User) {
    && Good(db) && Healthy(cfg, db, env)
    && c.ChangeStatus? && c.newStatus.Frozen? && Precheck(cfg, c) == Pass && env.freshId != c.targetId
    && c.actorId in db.users && db.users[c.actorId] == u && u.role == RoleUser && u.status.Active?
    && Usable(db, c.actorId, c.actorSessionId, NormalizeTime(env.clock))
    && c.targetId !in db.users && c.targetId !in db.sessions
    && register.Register? && Precheck(cfg, register) == Pass && register.passwordHash != ""
    && !EmailTaken(db, register.email)
  }

  function Newcomer(c: Call, env: Env, register: Call): User
    requires c.ChangeStatus? && register.Register?
  {
    NewUserRow(c.targetId, register.email, register.passwordHash, register.displayName, NormalizeTime(env.clock))
  }

  function Grown(db: Db, c: Call, env: Env, register: Call): Db
    requires c.ChangeStatus? && register.Register?
  {
    Db(db.users[c.targetId := Newcomer(c, env, register)], db.sessions, db.audits)
  }

  function Promoted(db: Db, u: User, env: Env): Db {
    Db(db.users[u.id := u.(role := RoleAdmin, updatedAt := NormalizeTime(env.clock))], db.sessions, db.audits)
  }

  lemma HealthyForOthers(cfg: Config, db: Db, env: Env, id: Id)
    requires Healthy(cfg, db, env) && id > 0 && id !in db.users && id !in db.sessions
    ensures Healthy(cfg, db, env.(freshId := id))
  {
  }

  lemma NewcomerIsAccepted(cfg: Config, db: Db, c: Call, env: Env, register: Call, u: User)
    requires Setting(cfg, db, c, env, register, u)
    ensures Exec(cfg, db, register, env.(freshId := c.targetId)).Ok?
  {
    HealthyForOthers(cfg, db, env, c.targetId);
    RegisterAccepted(cfg, db, register, env.(freshId := c.targetId));
  }

  lemma NewcomerIsBorn(cfg: Config, db: Db, c: Call, env: Env, register: Call, v: Verdict)
    requires c.ChangeStatus? && register.Register? && Exec(cfg, db, register, env.(freshId := c.targetId)) == Ok(v)
    ensures Apply(db, v.delta) == Grown(db, c, env, register)
  {
    RegisterVerdict(cfg, db, register, env.(freshId := c.targetId), v);
  }

  lemma UserIsPromoted(cfg: Config, db: Db, env: Env, u: User)
    requires u.id in db.users && db.users[u.id] == u && u.role == RoleUser && u.status.Active? && UserRowOk(u)
    requires u.createdAt <= NormalizeTime(env.clock)
    ensures Exec(cfg, db, Promote(u.id), env).Ok?
    ensures Apply(db, Exec(cfg, db, Promote(u.id), env).value.delta) == Promoted(db, u, env)
  {
    assert SelectUsers(db.users, {u.id})[u.id] == u;
  }

  lemma GrownIsHealthy(cfg: Config, db: Db, c: Call, env: Env, register: Call, u: User)
    requires Setting(cfg, db, c, env, register, u)
    ensures Healthy(cfg, Grown(db, c, env, register), env)
  {
    SampledNow(cfg, db, env);
  }

  lemma PromotedIsHealthy(cfg: Config, db: Db, env: Env, u: User)
    requires Healthy(cfg, db, env) && u.id in db.users && db.users[u.id] == u
    ensures Healthy(cfg, Promoted(db, u, env), env)
  {
    SampledNow(cfg, db, env);
  }

  lemma FreezeIsAccepted(cfg: Config, db: Db, c: Call, env: Env, register: Call, u: User)
    requires Setting(cfg, db, c, env, register, u)
    ensures var two := Promoted(Grown(db, c, env, register), u, env);
      Healthy(cfg, two, env) && Exec(cfg, two, c, env).Ok?
  {
    var grown := Grown(db, c, env, register);
    GrownIsHealthy(cfg, db, c, env, register, u);
    PromotedIsHealthy(cfg, grown, env, u);
    ChangeStatusAccepted(cfg, Promoted(grown, u, env), c, env);
  }

  lemma StoryHappens(cfg: Config, start: Db, c: Call, env: Env, register: Call, u: User) returns (one: Db, two: Db)
    requires Setting(cfg, start, c, env, register, u)
    ensures Story(cfg, start, one, two, c, register, env.(freshId := c.targetId), env)
    ensures Healthy(cfg, two, env) && Exec(cfg, two, c, env).Ok?
  {
    NewcomerIsAccepted(cfg, start, c, env, register, u);
    NewcomerIsBorn(cfg, start, c, env, register, Exec(cfg, start, register, env.(freshId := c.targetId)).value);
    one := Grown(start, c, env, register);
    UserIsPromoted(cfg, one, env, u);
    two := Promoted(one, u, env);
    FreezeIsAccepted(cfg, start, c, env, register, u);
  }

  lemma StoryEnds(cfg: Config, start: Db, c: Call, env: Env, register: Call, u: User) returns (s: State)
    requires Setting(cfg, start, c, env, register, u)
    ensures Execute(cfg, Fresh(start), AllSteps(c, register, env.(freshId := c.targetId), env)) == Some(s)
    ensures 0 in s.txns && s.txns[0].call == c && s.txns[0].phase == LockingSessions([])
    ensures Decide(cfg, c, env, s.txns[0].users, s.txns[0].sessions) == Err(UserNotFound)
  {
    var born := env.(freshId := c.targetId);
    var one, two := StoryHappens(cfg, start, c, env, register, u);
    var s0, s1, s2 := StoryUnfolds(cfg, start, one, two, c, register, born, env);
    s := TargetComesLate(cfg, s2, c, env);
    InTurn(cfg, Fresh(start), UntilBirth(c, register, born) + Promotion(c, env), s2, LastLocks(0));
  }

  /** At no instant of its flight does the status change alone report an unknown target. */
  lemma NeverUnknownAlone(cfg: Config, start: Db, one: Db, two: Db, c: Call, register: Call, born: Env, promoted: Env,
                          env: Env, k: nat, past: State)
    requires Story(cfg, start, one, two, c, register, born, promoted)
    requires PassedThrough(cfg, start, AllSteps(c, register, born, promoted), k, past, 0, c)
    ensures Exec(cfg, past.db, c, env) != Err(UserNotFound)
  {
    StoryKnows(cfg, start, one, two, c, register, born, promoted, env);
    ThreeDatabases(cfg, start, one, two, c, register, born, promoted, k, past);
  }

  /** On every healthy database with an ordinary user whose session is usable: a freeze of an account that is
      only then registered, by that user, who is only then promoted, reports an unknown target. At no instant
      of its flight would it have done so alone. */
  lemma LateTargetIsNotSerial(cfg: Config, start: Db, c: Call, env: Env, register: Call, u: User)
    returns (steps: seq<Step>, s: State)
    requires Setting(cfg, start, c, env, register, u)
    ensures Reaches(cfg, start, steps, s) && 0 in s.txns && s.txns[0].call == c
    ensures s.txns[0].phase == LockingSessions([])
    ensures Decide(cfg, c, env, s.txns[0].users, s.txns[0].sessions) == Err(UserNotFound)
    ensures !Serial(cfg, start, steps, 0, c, env, UserNotFound)
  {
    var one, two := StoryHappens(cfg, start, c, env, register, u);
    s := StoryEnds(cfg, start, c, env, register, u);
    steps := AllSteps(c, register, env.(freshId := c.targetId), env);
    forall k, past | PassedThrough(cfg, start, steps, k, past, 0, c)
      ensures Exec(cfg, past.db, c, env) != Err(UserNotFound)
    {
      NeverUnknownAlone(cfg, start, one, two, c, register, env.(freshId := c.targetId), env, env, k, past);
    }
  }
}
