/** When the stored sessions have the structure that the checks on a locked session ask for. A login can break
    it: the check on a new expiry lets the zero instant pass, which the check on a stored expiry refuses. */
module SessionRows {
  import opened Wrappers
  import opened Domain
  import opened Database
  import opened Protocol
  import opened Verdicts
  import opened LegalSteps
  import opened Runs
  import opened Interleaving
  import opened Guarantees
  import opened Acceptance

  ghost predicate WellFormed(sessions: map<Id, Session>) {
    forall sid <- sessions :: ValidSessionStructure(sessions[sid], sid)
  }

  /** A login does not open a session that would end at the zero instant. */
  predicate EndsAtAnInstant(cfg: Config, c: Call, env: Env) {
    c.Login? ==> NormalizeTime(NormalizeTime(env.clock) + cfg.refreshTTL) != ZERO_TIME
  }

  lemma NormalizedAgain(t: Time)
    ensures NormalizeTime(NormalizeTime(t)) == NormalizeTime(t)
  {
  }

  /** A session with valid instants is well-formed unless it ends at the zero instant. */
  lemma WellFormedUnlessZero(s: Session, clock: Time, ttl: Time)
    requires s.id > 0 && s.userId > 0 && ValidAuthTime(clock) && s.createdAt == NormalizeTime(clock)
    requires s.expiresAt == NormalizeTime(s.createdAt + ttl) && ValidExpiry(s.createdAt, s.expiresAt)
    ensures ValidSessionStructure(s, s.id) <==> s.expiresAt != ZERO_TIME
  {
    NormalizedAgain(clock);
    NormalizedAgain(s.createdAt + ttl);
  }

  /** The session of a committed login is well-formed unless it ends at the zero instant. */
  lemma OpenedIsWellFormed(cfg: Config, db: Db, c: Call, env: Env, v: Verdict)
    requires Sound(db) && c.Login? && Exec(cfg, db, c, env) == Ok(v)
    ensures ValidSessionStructure(OpenedSession(cfg, c, env), env.freshId) <==> EndsAtAnInstant(cfg, c, env)
    ensures v.delta.sessions == map[env.freshId := OpenedSession(cfg, c, env)] && env.freshId !in db.sessions
  {
    LoginVerdict(cfg, db, c, env, v);
    WellFormedUnlessZero(OpenedSession(cfg, c, env), env.clock, cfg.refreshTTL);
  }

  lemma ZeroIsWhole()
    ensures NormalizeTime(ZERO_TIME) == ZERO_TIME
  {
  }

  lemma EndAtZeroIsAdmitted(cfg: Config, db: Db, c: Call, env: Env)
    requires Healthy(cfg, db, env) && c.Login? && NormalizeTime(env.clock) + cfg.refreshTTL == ZERO_TIME
    requires c.userId in db.users && db.users[c.userId].passwordHash == c.credentialHash
    requires db.users[c.userId].status.CanLogin()
    ensures Exec(cfg, db, c, env).Ok?
  {
    LoginAccepted(cfg, db, c, env);
  }

  /** Such a login is not refused: it commits, and its session is malformed. */
  lemma MalformedIsOpened(cfg: Config, db: Db, c: Call, env: Env)
    requires Healthy(cfg, db, env) && c.Login? && NormalizeTime(env.clock) + cfg.refreshTTL == ZERO_TIME
    requires c.userId in db.users && db.users[c.userId].passwordHash == c.credentialHash
    requires db.users[c.userId].status.CanLogin()
    ensures Exec(cfg, db, c, env).Ok?
    ensures Exec(cfg, db, c, env).value.delta.sessions == map[env.freshId := OpenedSession(cfg, c, env)]
    ensures !ValidSessionStructure(OpenedSession(cfg, c, env), env.freshId)
  {
    EndAtZeroIsAdmitted(cfg, db, c, env);
    ZeroIsWhole();
    OpenedIsWellFormed(cfg, db, c, env, Exec(cfg, db, c, env).value);
  }

  lemma ChangeStatusOpensNone(cfg: Config, db: Db, c: Call, env: Env, v: Verdict)
    requires Sound(db) && c.ChangeStatus? && Exec(cfg, db, c, env) == Ok(v)
    ensures v.delta.sessions.Keys <= db.sessions.Keys
  {
    var w := ChangeStatusVerdict(cfg, db, c, env, v);
  }

  lemma OnlyLoginsOpen(cfg: Config, db: Db, c: Call, env: Env, v: Verdict)
    requires Sound(db) && !c.Login? && Exec(cfg, db, c, env) == Ok(v)
    ensures v.delta.sessions.Keys <= db.sessions.Keys
  {
    match c
    case Register(_, _, _) => RegisterVerdict(cfg, db, c, env, v);
    case Refresh(_, _, _, _) => RefreshVerdict(cfg, db, c, env, v);
    case Logout(_, _) => LogoutVerdict(cfg, db, c, env, v);
    case RecoverMute(_, _, _) => RecoverMuteVerdict(cfg, db, c, env, v);
    case UpdateMe(_, _, _, _, _) => UpdateMeVerdict(cfg, db, c, env, v);
    case DeleteMe(_, _, _) => DeleteMeVerdict(cfg, db, c, env, v);
    case ChangeStatus(_, _, _, _, _, _, _) => ChangeStatusOpensNone(cfg, db, c, env, v);
    case Promote(_) => PromoteVerdict(cfg, db, c, env, v);
  }

  lemma MovesKeepStructure(db: Db, d: Delta)
    requires LegalDelta(db, d) && d.sessions.Keys <= db.sessions.Keys
    ensures WellFormed(Apply(db, d).sessions) <==> WellFormed(db.sessions)
  {
    var after := Apply(db, d).sessions;
    assert after.Keys == db.sessions.Keys;
    assert forall sid <- db.sessions ::
      ValidSessionStructure(after[sid], sid) == ValidSessionStructure(db.sessions[sid], sid);
  }

  /** A committed call leaves well-formed sessions behind exactly if it found such, and opens none that ends at
      the zero instant. */
  lemma CommitKeepsSessions(cfg: Config, db: Db, c: Call, env: Env, v: Verdict)
    requires Sound(db) && Exec(cfg, db, c, env) == Ok(v)
    ensures WellFormed(Apply(db, v.delta).sessions) <==> WellFormed(db.sessions) && EndsAtAnInstant(cfg, c, env)
  {
    if c.Login? {
      OpenedIsWellFormed(cfg, db, c, env, v);
      var after := Apply(db, v.delta).sessions;
      assert after[env.freshId] == OpenedSession(cfg, c, env);
      assert forall sid <- db.sessions :: sid in after && after[sid] == db.sessions[sid];
    } else {
      ExecIsLegal(cfg, db, c, env, v);
      OnlyLoginsOpen(cfg, db, c, env, v);
      MovesKeepStructure(db, v.delta);
    }
  }

  ghost predicate AllEndAtAnInstant(cfg: Config, h: seq<Committed>) {
    forall e <- h :: EndsAtAnInstant(cfg, e.call, e.env)
  }

  lemma LastOfAll(cfg: Config, h: seq<Committed>)
    requires h != []
    ensures AllEndAtAnInstant(cfg, h) <==>
      AllEndAtAnInstant(cfg, h[..|h| - 1]) && EndsAtAnInstant(cfg, h[|h| - 1].call, h[|h| - 1].env)
  {
    assert h == h[..|h| - 1] + [h[|h| - 1]];
  }

  lemma {:induction false} RunKeepsSessions(cfg: Config, start: Db, h: seq<Committed>)
    requires Good(start) && Run(cfg, start, h).Some?
    ensures WellFormed(Run(cfg, start, h).value.sessions) <==>
      WellFormed(start.sessions) && AllEndAtAnInstant(cfg, h)
    decreases |h|
  {
    if h != [] {
      var front, last := h[..|h| - 1], h[|h| - 1];
      var before, v := LastStep(cfg, start, h);
      RunKeepsSessions(cfg, start, front);
      CommitKeepsSessions(cfg, before, last.call, last.env, v);
      LastOfAll(cfg, h);
    }
  }

  /** In every reachable state the sessions are well-formed exactly if they were at the start, and no committed
      login has opened one that ends at the zero instant. */
  lemma SessionsStayWellFormed(cfg: Config, start: Db, steps: seq<Step>, s: State)
    requires Reaches(cfg, start, steps, s)
    ensures WellFormed(s.db.sessions) <==> WellFormed(start.sessions) && AllEndAtAnInstant(cfg, s.history)
  {
    ReachedByRun(cfg, start, steps, s);
    RunKeepsSessions(cfg, start, s.history);
  }
}
