/** Serial runs of committed calls, and what holds along every one of them. */
module Runs {
  import opened Wrappers
  import opened Domain
  import opened Database
  import opened Protocol
  import opened LegalSteps

  /** A call that committed, what it sampled, and what it replied. */
  datatype Committed = Committed(call: Call, env: Env, reply: Reply)

  /** The database after the calls of `h`, run one at a time; `None` if one of them does not commit
      with the reply on record. */
  function Run(cfg: Config, start: Db, h: seq<Committed>): Option<Db>
    decreases |h|, 1
  {
    if h == [] then Some(start) else RunLast(cfg, start, h)
  }

  /** A run that ends with the last call of `h`. */
  function RunLast(cfg: Config, start: Db, h: seq<Committed>): Option<Db>
    requires h != []
    decreases |h|, 0
  {
    match Run(cfg, start, h[..|h| - 1])
    case None => None
    case Some(before) => RunOne(cfg, before, h[|h| - 1])
  }

  function RunOne(cfg: Config, db: Db, e: Committed): Option<Db> {
    match Exec(cfg, db, e.call, e.env)
    case Err(_) => None
    case Ok(v) => if v.reply == e.reply then Some(Apply(db, v.delta)) else None
  }

  lemma FrontRuns(cfg: Config, start: Db, h: seq<Committed>)
    requires h != [] && Run(cfg, start, h).Some?
    ensures Run(cfg, start, h[..|h| - 1]).Some?
    ensures RunOne(cfg, Run(cfg, start, h[..|h| - 1]).value, h[|h| - 1]) == Run(cfg, start, h)
  {
    assert RunLast(cfg, start, h).Some?;
  }

  /** No banned or deleted user owns a session that is not revoked. */
  ghost predicate ExpelledAreOut(db: Db) {
    forall sid <- db.sessions ::
      db.sessions[sid].userId in db.users && db.users[db.sessions[sid].userId].status.Expelled() ==>
        db.sessions[sid].revokedAt.Some?
  }

  /** An administrator is active, or has deleted its own account. */
  ghost predicate AdminsUntouched(db: Db) {
    forall id <- db.users | db.users[id].role == RoleAdmin ::
      db.users[id].status.Active? || db.users[id].status.Deleted?
  }

  ghost predicate Good(db: Db) {
    Sound(db) && ExpelledAreOut(db)
  }

  /** What never changes between an earlier and a later database. */
  ghost predicate Later(db: Db, db': Db) {
    && db.audits <= db'.audits
    && (forall id <- db.users ::
          && id in db'.users
          && db'.users[id].email == db.users[id].email
          && db'.users[id].passwordHash == db.users[id].passwordHash
          && db'.users[id].createdAt == db.users[id].createdAt
          && (db.users[id].role == RoleAdmin ==> db'.users[id].role == RoleAdmin)
          && (db.users[id].status.Deleted? ==> db'.users[id] == db.users[id]))
    && (forall sid <- db.sessions :: sid in db'.sessions && SessionMove(db.sessions[sid], db'.sessions[sid]))
  }

  lemma StepKeepsSound(db: Db, d: Delta)
    requires Sound(db) && LegalDelta(db, d)
    ensures Sound(Apply(db, d))
  {
    var db' := Apply(db, d);
    forall sid <- db'.sessions
      ensures db'.sessions[sid].userId in db'.users
    {
      assert sid in db.sessions ==> db'.sessions[sid].userId == db.sessions[sid].userId;
    }
  }

  /** The session is revoked if its owner is banned or deleted. */
  ghost predicate SessionIsOut(db: Db, sid: Id)
    requires sid in db.sessions
  {
    var s := db.sessions[sid];
    s.userId in db.users && db.users[s.userId].status.Expelled() ==> s.revokedAt.Some?
  }

  lemma StepKeepsSessionOut(db: Db, d: Delta, sid: Id)
    requires UsersMove(db, d) && SessionsMove(db, d) && ExpelsSessions(db, d) && sid in Apply(db, d).sessions
    requires sid in db.sessions ==> SessionIsOut(db, sid) && db.sessions[sid].userId in db.users
    ensures SessionIsOut(Apply(db, d), sid)
  {
    var id := Apply(db, d).sessions[sid].userId;
    if sid in db.sessions {
      assert id == db.sessions[sid].userId;
      if id in d.users && !db.users[id].status.Expelled() && db.sessions[sid].revokedAt.None? {
        assert d.users[id].status.Expelled() ==> sid in d.sessions;
      }
    }
  }

  lemma StepKeepsExpelledOut(db: Db, d: Delta)
    requires Good(db) && LegalDelta(db, d)
    ensures ExpelledAreOut(Apply(db, d))
  {
    var db' := Apply(db, d);
    forall sid <- db'.sessions
      ensures SessionIsOut(db', sid)
    {
      assert sid in db.sessions ==> SessionIsOut(db, sid);
      StepKeepsSessionOut(db, d, sid);
    }
  }

  lemma StepIsLater(db: Db, d: Delta)
    requires Sound(db) && LegalDelta(db, d)
    ensures Later(db, Apply(db, d))
  {
  }

  lemma LaterThroughStep(a: Db, b: Db, d: Delta)
    requires Later(a, b) && Sound(b) && LegalDelta(b, d)
    ensures Later(a, Apply(b, d))
  {
    StepIsLater(b, d);
    LaterIsTransitive(a, b, Apply(b, d));
  }

  lemma LaterIsTransitive(a: Db, b: Db, c: Db)
    requires Later(a, b) && Later(b, c)
    ensures Later(a, c)
  {
  }

  lemma LaterIsReflexive(a: Db)
    requires Sound(a)
    ensures Later(a, a)
  {
  }

  lemma StepKeepsAdmins(db: Db, d: Delta)
    requires Sound(db) && LegalDelta(db, d) && AdminsUntouched(db)
    ensures AdminsUntouched(Apply(db, d))
  {
  }

  /** The last call of a run, as a step on the database that the others left. */
  lemma LastStep(cfg: Config, start: Db, h: seq<Committed>) returns (before: Db, v: Verdict)
    requires h != [] && Run(cfg, start, h).Some? && Good(start)
    ensures Run(cfg, start, h[..|h| - 1]) == Some(before)
    ensures Exec(cfg, before, h[|h| - 1].call, h[|h| - 1].env) == Ok(v) && v.reply == h[|h| - 1].reply
    ensures Run(cfg, start, h).value == Apply(before, v.delta)
    ensures Good(before) && LegalDelta(before, v.delta)
  {
    FrontRuns(cfg, start, h);
    before := Run(cfg, start, h[..|h| - 1]).value;
    v := Exec(cfg, before, h[|h| - 1].call, h[|h| - 1].env).value;
    RunKeepsGood(cfg, start, h[..|h| - 1]);
    ExecIsLegal(cfg, before, h[|h| - 1].call, h[|h| - 1].env, v);
  }

  /** Along every run the constraints hold, and whoever is banned or deleted has no active session. */
  lemma {:induction false} RunKeepsGood(cfg: Config, start: Db, h: seq<Committed>)
    requires Good(start) && Run(cfg, start, h).Some?
    ensures Good(Run(cfg, start, h).value)
    decreases |h|, 0
  {
    if h != [] {
      FrontRuns(cfg, start, h);
      var before := Run(cfg, start, h[..|h| - 1]).value;
      var last := h[|h| - 1];
      RunKeepsGood(cfg, start, h[..|h| - 1]);
      var v := Exec(cfg, before, last.call, last.env).value;
      ExecIsLegal(cfg, before, last.call, last.env, v);
      StepKeepsSound(before, v.delta);
      StepKeepsExpelledOut(before, v.delta);
    }
  }

  lemma {:induction false} RunOfPrefix(cfg: Config, start: Db, h: seq<Committed>, k: nat)
    requires k <= |h| && Run(cfg, start, h).Some?
    ensures Run(cfg, start, h[..k]).Some?
  {
    if k < |h| {
      FrontRuns(cfg, start, h);
      assert h[..k] == h[..|h| - 1][..k];
      RunOfPrefix(cfg, start, h[..|h| - 1], k);
    } else {
      assert h[..k] == h;
    }
  }

  /** A session keeps its owner, creation and expiry, and is revoked at most once; deleted accounts
      stay as they are; the log only grows. */
  lemma {:induction false} RunIsLater(cfg: Config, start: Db, h: seq<Committed>, k: nat)
    requires Good(start) && k <= |h| && Run(cfg, start, h).Some?
    ensures Run(cfg, start, h[..k]).Some?
    ensures Later(Run(cfg, start, h[..k]).value, Run(cfg, start, h).value)
    decreases |h|
  {
    RunOfPrefix(cfg, start, h, k);
    RunKeepsGood(cfg, start, h);
    if k < |h| {
      var before, v := LastStep(cfg, start, h);
      assert h[..k] == h[..|h| - 1][..k];
      RunIsLater(cfg, start, h[..|h| - 1], k);
      LaterThroughStep(Run(cfg, start, h[..k]).value, before, v.delta);
    } else {
      assert h[..k] == h;
      LaterIsReflexive(Run(cfg, start, h).value);
    }
  }

  /** From administrators that are active, no run mutes, freezes or bans one. */
  lemma {:induction false} NoRunTouchesAdmins(cfg: Config, start: Db, h: seq<Committed>)
    requires Good(start) && AdminsUntouched(start) && Run(cfg, start, h).Some?
    ensures AdminsUntouched(Run(cfg, start, h).value)
  {
    if h != [] {
      var before, v := LastStep(cfg, start, h);
      NoRunTouchesAdmins(cfg, start, h[..|h| - 1]);
      StepKeepsAdmins(before, v.delta);
    }
  }

  /** The standing a user starts from in a run that begins at `start`. */
  function StartingStanding(start: Db, id: Id): Standing {
    if id in start.users then StandingOf(start.users[id]) else Standing(Active, None)
  }

  /** The entries that a run has appended. */
  function NewEntries(start: Db, end: Db): seq<AuditEntry>
    requires |start.audits| <= |end.audits|
  {
    end.audits[|start.audits|..]
  }

  /** The log so far, from standing `from`, leads to the user's standing in `db`. */
  ghost predicate Accounted(log: seq<AuditEntry>, db: Db, id: Id, from: Standing)
    requires id in db.users
  {
    var r := Replay(log, id, from);
    r.Some? && (r.value == StandingOf(db.users[id]) || db.users[id].status.Deleted?)
  }

  lemma StepKeepsAccount(db: Db, d: Delta, log: seq<AuditEntry>, id: Id, from: Standing)
    requires Sound(db) && LegalDelta(db, d) && id in db.users && Accounted(log, db, id, from)
    ensures Accounted(log + d.audits, Apply(db, d), id, from)
  {
    ReplayAppend(log, d.audits, id, from);
    assert Apply(db, d).users[id] == After(db, d, id);
    if db.users[id].status.Deleted? {
      ReplaySkips(d.audits, id, Replay(log, id, from).value);
    }
  }

  /** The audit log is a gap-free replay of every user's standing: its entries chain from the
      starting standing to the current one, and only a user's own deletion goes unrecorded. */
  lemma {:induction false} AuditLogReplays(cfg: Config, start: Db, h: seq<Committed>, id: Id)
    requires Good(start) && Run(cfg, start, h).Some?
    requires id in Run(cfg, start, h).value.users
    ensures start.audits <= Run(cfg, start, h).value.audits
    ensures var end := Run(cfg, start, h).value;
      Accounted(NewEntries(start, end), end, id, StartingStanding(start, id))
    decreases |h|
  {
    if h == [] {
      NothingNew(start, id);
    } else {
      var before, v := LastStep(cfg, start, h);
      EntriesNameUsers(cfg, start, h[..|h| - 1]);
      EntriesGrow(start, before, v.delta);
      if id in before.users {
        AuditLogReplays(cfg, start, h[..|h| - 1], id);
        StepKeepsAccount(before, v.delta, NewEntries(start, before), id, StartingStanding(start, id));
      } else {
        RunIsLater(cfg, start, h[..|h| - 1], 0);
        assert h[..|h| - 1][..0] == [];
        StepOpensAccount(start, before, v.delta, id);
      }
    }
  }

  lemma NothingNew(start: Db, id: Id)
    requires id in start.users
    ensures Accounted(NewEntries(start, start), start, id, StartingStanding(start, id))
  {
    assert NewEntries(start, start) == [];
  }

  /** A user who has just been added has no entries, and starts active. */
  lemma StepOpensAccount(start: Db, before: Db, d: Delta, id: Id)
    requires Sound(before) && LegalDelta(before, d) && Later(start, before) && id !in before.users
    requires id in Apply(before, d).users && NamesUsers(NewEntries(start, before), before)
    ensures Accounted(NewEntries(start, before) + d.audits, Apply(before, d), id, StartingStanding(start, id))
  {
    ReplaySkips(NewEntries(start, before) + d.audits, id, StartingStanding(start, id));
  }

  lemma EntriesGrow(start: Db, before: Db, d: Delta)
    requires start.audits <= before.audits
    ensures start.audits <= Apply(before, d).audits
    ensures NewEntries(start, Apply(before, d)) == NewEntries(start, before) + d.audits
  {
  }

  ghost predicate NamesUsers(entries: seq<AuditEntry>, db: Db) {
    forall e <- entries :: e.targetId in db.users
  }

  lemma NamesUsersLater(entries: seq<AuditEntry>, db: Db, d: Delta)
    requires NamesUsers(entries, db) && LegalDelta(db, d)
    ensures NamesUsers(entries + d.audits, Apply(db, d))
  {
  }

  ghost predicate ExpiriesRecorded(entries: seq<AuditEntry>) {
    forall e <- entries :: e.action.MuteExpired? ==> RecordsExpiry(e)
  }

  lemma ExpiriesRecordedLater(entries: seq<AuditEntry>, db: Db, d: Delta)
    requires ExpiriesRecorded(entries) && LegalDelta(db, d)
    ensures ExpiriesRecorded(entries + d.audits)
  {
  }

  lemma {:induction false} EntriesNameUsers(cfg: Config, start: Db, h: seq<Committed>)
    requires Good(start) && Run(cfg, start, h).Some?
    ensures var end := Run(cfg, start, h).value;
      start.audits <= end.audits && NamesUsers(NewEntries(start, end), end)
    decreases |h|
  {
    if h != [] {
      var before, v := LastStep(cfg, start, h);
      EntriesNameUsers(cfg, start, h[..|h| - 1]);
      EntriesGrow(start, before, v.delta);
      NamesUsersLater(NewEntries(start, before), before, v.delta);
    }
  }

  /** An entry of the system ends an expired mute; an entry of an administrator has, in `db`, an author
      in good standing. */
  ghost predicate WellAuthored(entries: seq<AuditEntry>, db: Db) {
    forall e <- entries :: if e.action.StatusChanged? then ActorInGoodStanding(db, e) else RecordsExpiry(e)
  }

  lemma StepIsWellAuthored(db: Db, d: Delta)
    requires LegalDelta(db, d)
    ensures db.audits <= Apply(db, d).audits
    ensures WellAuthored(NewEntries(db, Apply(db, d)), Apply(db, d))
  {
    assert NewEntries(db, Apply(db, d)) == d.audits;
  }

  /** Along every run the entries of a call are well authored right after its commit. */
  lemma AuthorsAuthorized(cfg: Config, start: Db, h: seq<Committed>, k: nat)
    requires Good(start) && k < |h| && Run(cfg, start, h).Some?
    ensures Run(cfg, start, h[..k]).Some? && Run(cfg, start, h[..k + 1]).Some?
    ensures var before, after := Run(cfg, start, h[..k]).value, Run(cfg, start, h[..k + 1]).value;
      before.audits <= after.audits && WellAuthored(NewEntries(before, after), after)
  {
    RunOfPrefix(cfg, start, h, k + 1);
    var g := h[..k + 1];
    assert g[..|g| - 1] == h[..k];
    var before, v := LastStep(cfg, start, g);
    StepIsWellAuthored(before, v.delta);
  }

  lemma {:induction false} EntryShapes(cfg: Config, start: Db, h: seq<Committed>)
    requires Good(start) && Run(cfg, start, h).Some?
    ensures var end := Run(cfg, start, h).value;
      start.audits <= end.audits && ExpiriesRecorded(NewEntries(start, end))
    decreases |h|
  {
    if h != [] {
      var before, v := LastStep(cfg, start, h);
      EntryShapes(cfg, start, h[..|h| - 1]);
      EntriesGrow(start, before, v.delta);
      ExpiriesRecordedLater(NewEntries(start, before), before, v.delta);
    }
  }

  /** A replay that gets from a standing that is not muted to a muted one passes an entry that mutes. */
  lemma {:induction false} MutingEntry(log: seq<AuditEntry>, id: Id, from: Standing) returns (k: nat)
    requires Replay(log, id, from).Some? && !from.status.Muted?
    requires Replay(log, id, from).value.status.Muted?
    ensures k < |log| && log[k].targetId == id && log[k].newStatus.Muted?
  {
    var e := log[|log| - 1];
    if e.targetId == id {
      k := |log| - 1;
    } else {
      k := MutingEntry(log[..|log| - 1], id, from);
    }
  }

  lemma ReplayOfPrefix(log: seq<AuditEntry>, id: Id, from: Standing, n: nat)
    requires Replay(log, id, from).Some? && n <= |log|
    ensures Replay(log[..n], id, from).Some?
  {
    assert log == log[..n] + log[n..];
    ReplayAppend(log[..n], log[n..], id, from);
  }

  lemma ReplayLast(log: seq<AuditEntry>, id: Id, from: Standing)
    requires log != [] && Replay(log, id, from).Some? && log[|log| - 1].targetId == id
    ensures var e := log[|log| - 1];
      && Replay(log[..|log| - 1], id, from) == Some(Standing(e.oldStatus, e.oldMutedUntil))
      && Replay(log, id, from) == Some(Standing(e.newStatus, e.newMutedUntil))
  {
  }

  /** At an entry of the user the replay stands where the entry says, before and after it. */
  lemma ReplayAt(log: seq<AuditEntry>, id: Id, from: Standing, n: nat)
    requires Replay(log, id, from).Some? && n < |log| && log[n].targetId == id
    ensures Replay(log[..n], id, from) == Some(Standing(log[n].oldStatus, log[n].oldMutedUntil))
    ensures Replay(log[..n + 1], id, from) == Some(Standing(log[n].newStatus, log[n].newMutedUntil))
  {
    var g := log[..n + 1];
    ReplayOfPrefix(log, id, from, n + 1);
    ReplayLast(g, id, from);
    assert g[..n] == log[..n];
  }

  /** Between two entries of the user the replay goes from the end of the first to the start of the second. */
  lemma ReplayBetween(log: seq<AuditEntry>, id: Id, from: Standing, i: nat, j: nat)
    requires Replay(log, id, from).Some? && i < j < |log| && log[i].targetId == log[j].targetId == id
    ensures Replay(log[i + 1..j], id, Standing(log[i].newStatus, log[i].newMutedUntil))
      == Some(Standing(log[j].oldStatus, log[j].oldMutedUntil))
  {
    ReplayAt(log, id, from, i);
    ReplayAt(log, id, from, j);
    assert log[..j] == log[..i + 1] + log[i + 1..j];
    ReplayAppend(log[..i + 1], log[i + 1..j], id, from);
  }

  lemma OneRecoveryInLog(log: seq<AuditEntry>, id: Id, from: Standing, i: nat, j: nat) returns (k: nat)
    requires Replay(log, id, from).Some? && i < j < |log|
    requires log[i].targetId == id && !log[i].newStatus.Muted?
    requires log[j].targetId == id && log[j].oldStatus.Muted?
    ensures i < k < j && log[k].targetId == id && log[k].newStatus.Muted?
  {
    ReplayBetween(log, id, from, i, j);
    var m := MutingEntry(log[i + 1..j], id, Standing(log[i].newStatus, log[i].newMutedUntil));
    k := i + 1 + m;
  }

  /** Between two recoveries of the same user an administrator has muted the user again: one mute
      episode is recovered and recorded at most once, however many calls notice that it is over. */
  lemma OneRecoveryPerMute(cfg: Config, start: Db, h: seq<Committed>, log: seq<AuditEntry>, id: Id, i: nat, j: nat)
    returns (k: nat)
    requires Good(start) && Run(cfg, start, h).Some? && id in Run(cfg, start, h).value.users
    requires Run(cfg, start, h).value.audits == start.audits + log
    requires i < j < |log| && log[i].targetId == log[j].targetId == id
    requires log[i].action.MuteExpired? && log[j].action.MuteExpired?
    ensures i < k < j && log[k].targetId == id && log[k].action.StatusChanged? && log[k].newStatus.Muted?
  {
    AuditLogReplays(cfg, start, h, id);
    EntryShapes(cfg, start, h);
    assert NewEntries(start, Run(cfg, start, h).value) == log;
    k := OneRecoveryInLog(log, id, StartingStanding(start, id), i, j);
  }
}
