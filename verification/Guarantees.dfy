/** What holds in every state that interleaved transactions can reach. */
module Guarantees {
  import opened Wrappers
  import opened Domain
  import opened Database
  import opened Protocol
  import opened Verdicts
  import opened LegalSteps
  import opened Runs
  import opened Credentials
  import opened Interleaving
  import opened Refinement

  /** The state after some steps on a freshly started service. */
  ghost predicate Reaches(cfg: Config, start: Db, steps: seq<Step>, s: State) {
    Good(start) && Execute(cfg, Fresh(start), steps) == Some(s)
  }

  lemma ReachedByRun(cfg: Config, start: Db, steps: seq<Step>, s: State)
    requires Reaches(cfg, start, steps, s)
    ensures Run(cfg, start, s.history) == Some(s.db)
  {
    InterleavingIsSerializable(cfg, start, steps);
  }

  /** No interleaving with logins, refreshes and logouts leaves a banned or deleted user with an active
      session; the table constraints hold throughout. */
  lemma ExpelledUsersHaveNoSession(cfg: Config, start: Db, steps: seq<Step>, s: State)
    requires Reaches(cfg, start, steps, s)
    ensures Sound(s.db) && ExpelledAreOut(s.db)
  {
    ReachedByRun(cfg, start, steps, s);
    RunKeepsGood(cfg, start, s.history);
  }

  /** In every reachable state each row meets the constraints of its table, one by one. */
  lemma RowsMeetConstraints(cfg: Config, start: Db, steps: seq<Step>, s: State)
    requires Reaches(cfg, start, steps, s)
    ensures forall id <- s.db.users :: var u := s.db.users[id];
      && u.id == id && id > 0 && u.email != "" && u.passwordHash != ""
      && 1 <= |u.displayName| <= 100 && |u.bio| <= 1000 && u.violationCount >= 0 && u.updatedAt >= u.createdAt
      && (u.status == Muted <==> u.mutedUntil.Some?) && (u.status == Deleted <==> u.deletedAt.Some?)
      && (u.deletedAt.Some? ==> u.deletedAt.value >= u.createdAt)
    ensures forall sid <- s.db.sessions :: var x := s.db.sessions[sid];
      && x.id == sid && sid > 0 && x.userId in s.db.users && |x.tokenHash| == 32 && x.expiresAt > x.createdAt
      && (x.revokedAt.Some? ==> x.revokedAt.value >= x.createdAt)
  {
    ExpelledUsersHaveNoSession(cfg, start, steps, s);
  }

  /** A step appends at most one call to the history. */
  lemma {:induction false} HistoryGrows(cfg: Config, start: Db, steps: seq<Step>, k: nat, earlier: State, s: State)
    requires Reaches(cfg, start, steps, s) && k <= |steps| && Reaches(cfg, start, steps[..k], earlier)
    ensures earlier.history <= s.history
    decreases |steps|
  {
    if k < |steps| {
      var front := steps[..|steps| - 1];
      var mid := Execute(cfg, Fresh(start), front).value;
      assert front[..k] == steps[..k];
      HistoryGrows(cfg, start, front, k, earlier, mid);
      assert mid.history <= s.history;
    } else {
      assert steps[..k] == steps;
    }
  }

  /** From any moment of an execution to any later one, a session keeps its owner, creation and expiry
      and is revoked at most once, a deleted account stays as it is, and the log only grows. */
  lemma StatesOnlyMoveOn(cfg: Config, start: Db, steps: seq<Step>, k: nat, earlier: State, s: State)
    requires Reaches(cfg, start, steps, s) && k <= |steps| && Reaches(cfg, start, steps[..k], earlier)
    ensures Later(earlier.db, s.db)
  {
    HistoryGrows(cfg, start, steps, k, earlier, s);
    ReachedByRun(cfg, start, steps, s);
    ReachedByRun(cfg, start, steps[..k], earlier);
    var n := |earlier.history|;
    assert s.history[..n] == earlier.history;
    RunIsLater(cfg, start, s.history, n);
  }

  /** The log replays to every user's standing. */
  lemma LogAccountsForStandings(cfg: Config, start: Db, steps: seq<Step>, s: State, id: Id)
    requires Reaches(cfg, start, steps, s) && id in s.db.users
    ensures start.audits <= s.db.audits
    ensures Accounted(NewEntries(start, s.db), s.db, id, StartingStanding(start, id))
  {
    ReachedByRun(cfg, start, steps, s);
    AuditLogReplays(cfg, start, s.history, id);
  }

  /** However many concurrent calls notice that a mute is over, its end is recorded once: between two
      such entries of one user the user has been muted again. */
  lemma MuteEndsOnce(cfg: Config, start: Db, steps: seq<Step>, s: State, log: seq<AuditEntry>, id: Id, i: nat, j: nat)
    returns (k: nat)
    requires Reaches(cfg, start, steps, s) && id in s.db.users && s.db.audits == start.audits + log
    requires i < j < |log| && log[i].targetId == log[j].targetId == id
    requires log[i].action.MuteExpired? && log[j].action.MuteExpired?
    ensures i < k < j && log[k].targetId == id && log[k].action.StatusChanged? && log[k].newStatus.Muted?
  {
    ReachedByRun(cfg, start, steps, s);
    k := OneRecoveryPerMute(cfg, start, s.history, log, id, i, j);
  }

  /** Administrators that were active are never muted, frozen or banned. */
  lemma AdministratorsStayUntouched(cfg: Config, start: Db, steps: seq<Step>, s: State)
    requires Reaches(cfg, start, steps, s) && AdminsUntouched(start)
    ensures AdminsUntouched(s.db)
  {
    ReachedByRun(cfg, start, steps, s);
    NoRunTouchesAdmins(cfg, start, s.history);
  }

  /** Two committed refreshes never accept the same token. */
  lemma TokensWorkOnce(cfg: Config, start: Db, steps: seq<Step>, s: State, i: nat, j: nat)
    requires Reaches(cfg, start, steps, s) && FreshDigests(start, s.history)
    requires i < j < |s.history| && s.history[i].call.Refresh? && s.history[j].call.Refresh?
    requires s.history[i].call.sessionId == s.history[j].call.sessionId
    ensures s.history[i].call.candidate != s.history[j].call.candidate
  {
    ReachedByRun(cfg, start, steps, s);
    RefreshTokenIsOneShot(cfg, start, s.history, i, j);
  }

  /** Once a session is revoked, no call through it ever commits again. */
  lemma RevokedSessionsStayDead(cfg: Config, start: Db, steps: seq<Step>, k: nat, earlier: State, s: State,
                                sid: Id, j: nat)
    requires Reaches(cfg, start, steps, s) && k <= |steps| && Reaches(cfg, start, steps[..k], earlier)
    requires RevokedIn(earlier.db, sid)
    requires |earlier.history| <= j < |s.history|
    ensures ActsThrough(s.history[j].call).Some? ==> ActsThrough(s.history[j].call).value.1 != sid
  {
    HistoryGrows(cfg, start, steps, k, earlier, s);
    ReachedByRun(cfg, start, steps, s);
    ReachedByRun(cfg, start, steps[..k], earlier);
    assert s.history[..|earlier.history|] == earlier.history;
    RevokedSessionIsDead(cfg, start, s.history, |earlier.history|, j, sid);
  }

  /** The stored digest is that of the token returned last. */
  lemma StoredDigestsAreLatest(cfg: Config, start: Db, steps: seq<Step>, s: State, sid: Id)
    requires Reaches(cfg, start, steps, s) && sid in s.db.sessions
    ensures LatestDigest(start, s.history, sid) == Some(s.db.sessions[sid].tokenHash)
  {
    ReachedByRun(cfg, start, steps, s);
    StoredDigestIsLatest(cfg, start, s.history, sid);
  }

  /** No access token of a session outlives its login plus the refresh TTL. */
  lemma TokensEndWithLogin(cfg: Config, start: Db, steps: seq<Step>, s: State, i: nat, j: nat)
    requires cfg.Valid() && Reaches(cfg, start, steps, s) && i < |s.history| && j < |s.history|
    requires s.history[i].call.Login? && GrantOf(s.history[i].reply).Some? && GrantOf(s.history[j].reply).Some?
    requires GrantOf(s.history[i].reply).value.sessionId == GrantOf(s.history[j].reply).value.sessionId
    ensures GrantOf(s.history[j].reply).value.expiresAt <= NormalizeTime(s.history[i].env.clock) + cfg.refreshTTL
  {
    ReachedByRun(cfg, start, steps, s);
    NoGrantOutlivesLogin(cfg, start, s.history, i, j);
  }

  /** One committed call moves every user along the status machine. */
  lemma UsersMoveAlongMachine(cfg: Config, start: Db, steps: seq<Step>, s: State, k: nat, id: Id)
    returns (before: Db, after: Db)
    requires Reaches(cfg, start, steps, s) && k < |s.history|
    ensures Run(cfg, start, s.history[..k]) == Some(before) && Run(cfg, start, s.history[..k + 1]) == Some(after)
    ensures id in before.users ==> id in after.users && UserMove(before.users[id], after.users[id])
    ensures id !in before.users && id in after.users ==> NewUser(after.users[id])
  {
    ReachedByRun(cfg, start, steps, s);
    RunOfPrefix(cfg, start, s.history, k + 1);
    var h := s.history[..k + 1];
    assert h[..|h| - 1] == s.history[..k];
    var v;
    before, v := LastStep(cfg, start, h);
    after := Apply(before, v.delta);
  }

  /** Every entry of an administrator has, in the state that its commit leaves, an author in good
      standing and an ordinary user as its target. */
  lemma EntriesHaveFitAuthors(cfg: Config, start: Db, steps: seq<Step>, s: State, k: nat)
    returns (before: Db, after: Db)
    requires Reaches(cfg, start, steps, s) && k < |s.history|
    ensures Run(cfg, start, s.history[..k]) == Some(before) && Run(cfg, start, s.history[..k + 1]) == Some(after)
    ensures before.audits <= after.audits && WellAuthored(NewEntries(before, after), after)
  {
    ReachedByRun(cfg, start, steps, s);
    AuthorsAuthorized(cfg, start, s.history, k);
    before, after := Run(cfg, start, s.history[..k]).value, Run(cfg, start, s.history[..k + 1]).value;
  }

  /** No two users share an email address. */
  ghost predicate EmailsAreUnique(db: Db) {
    forall a, b | a in db.users && b in db.users && a != b :: db.users[a].email != db.users[b].email
  }

  lemma OnlyRegistrationsAdd(cfg: Config, db: Db, c: Call, env: Env, v: Verdict)
    requires Sound(db) && !c.Register? && Exec(cfg, db, c, env) == Ok(v)
    ensures v.delta.users.Keys <= db.users.Keys
  {
    match c
    case Login(_, _, _) => LoginVerdict(cfg, db, c, env, v);
    case Refresh(_, _, _, _) => RefreshVerdict(cfg, db, c, env, v);
    case Logout(_, _) => LogoutVerdict(cfg, db, c, env, v);
    case RecoverMute(_, _, _) => RecoverMuteVerdict(cfg, db, c, env, v);
    case UpdateMe(_, _, _, _, _) => UpdateMeVerdict(cfg, db, c, env, v);
    case DeleteMe(_, _, _) => DeleteMeVerdict(cfg, db, c, env, v);
    case ChangeStatus(_, _, _, _, _, _, _) => ChangeStatusAddsNone(cfg, db, c, env, v);
    case Promote(_) => PromoteVerdict(cfg, db, c, env, v);
  }

  lemma ChangeStatusAddsNone(cfg: Config, db: Db, c: Call, env: Env, v: Verdict)
    requires Sound(db) && c.ChangeStatus? && Exec(cfg, db, c, env) == Ok(v)
    ensures v.delta.users.Keys <= db.users.Keys
  {
    var w := ChangeStatusVerdict(cfg, db, c, env, v);
  }

  lemma StepKeepsEmails(db: Db, d: Delta)
    requires EmailsAreUnique(db) && LegalDelta(db, d) && d.users.Keys <= db.users.Keys
    ensures EmailsAreUnique(Apply(db, d))
  {
    var db' := Apply(db, d);
    assert forall id <- db'.users :: id in db.users && db'.users[id].email == db.users[id].email;
  }

  lemma RegistrationKeepsEmails(cfg: Config, db: Db, c: Call, env: Env, v: Verdict)
    requires EmailsAreUnique(db) && c.Register? && Exec(cfg, db, c, env) == Ok(v)
    ensures EmailsAreUnique(Apply(db, v.delta))
  {
    RegisterVerdict(cfg, db, c, env, v);
    var db' := Apply(db, v.delta);
    assert forall id <- db'.users | id != env.freshId :: id in db.users && db'.users[id] == db.users[id];
    assert db'.users[env.freshId].email == c.email;
  }

  lemma {:induction false} RunKeepsEmails(cfg: Config, start: Db, h: seq<Committed>)
    requires Good(start) && EmailsAreUnique(start) && Run(cfg, start, h).Some?
    ensures EmailsAreUnique(Run(cfg, start, h).value)
    decreases |h|
  {
    if h != [] {
      var before, v := LastStep(cfg, start, h);
      var last := h[|h| - 1];
      RunKeepsEmails(cfg, start, h[..|h| - 1]);
      if last.call.Register? {
        RegistrationKeepsEmails(cfg, before, last.call, last.env, v);
      } else {
        OnlyRegistrationsAdd(cfg, before, last.call, last.env, v);
        StepKeepsEmails(before, v.delta);
      }
    }
  }

  /** In every reachable state an email address belongs to one user at most, also after registrations that
      raced for it. */
  lemma EmailsStayUnique(cfg: Config, start: Db, steps: seq<Step>, s: State)
    requires Reaches(cfg, start, steps, s) && EmailsAreUnique(start)
    ensures EmailsAreUnique(s.db)
  {
    ReachedByRun(cfg, start, steps, s);
    RunKeepsEmails(cfg, start, s.history);
  }
}
