/** What the tokens handed out along a run are good for. */
module Credentials {
  import opened Wrappers
  import opened Domain
  import opened Database
  import opened Protocol
  import opened Verdicts
  import opened Runs

  /** The session whose stored digest a committed call sets. */
  function SetsDigestOf(e: Committed): Option<Id> {
    match e.call
    case Login(_, _, _) => Some(e.env.freshId)
    case Refresh(sessionId, _, _, _) => Some(sessionId)
    case _ => None
  }

  /** The digest most recently handed out for a session, by the run or else before it. */
  function LatestDigest(start: Db, h: seq<Committed>, sid: Id): Option<Digest> {
    if h == [] then if sid in start.sessions then Some(start.sessions[sid].tokenHash) else None
    else if SetsDigestOf(h[|h| - 1]) == Some(sid) then Some(h[|h| - 1].env.hash)
    else LatestDigest(start, h[..|h| - 1], sid)
  }

  /** Which digests a call changes, and to what; a refresh finds the digest that it presented. */
  ghost predicate DigestsMove(db: Db, e: Committed, d: Delta) {
    && (forall sid <- d.sessions ::
          if SetsDigestOf(e) == Some(sid) then d.sessions[sid].tokenHash == e.env.hash
          else sid in db.sessions && d.sessions[sid].tokenHash == db.sessions[sid].tokenHash)
    && (SetsDigestOf(e).Some? ==> SetsDigestOf(e).value in d.sessions)
    && (e.call.Refresh? ==>
          e.call.sessionId in db.sessions && db.sessions[e.call.sessionId].tokenHash == e.call.candidate)
  }

  lemma ChangeStatusKeepsDigests(db: Db, e: Committed, d: Delta, w: StatusChange)
    requires e.call.ChangeStatus? && ShapedAs(db, e.call, d, w)
    ensures DigestsMove(db, e, d)
  {
  }

  lemma RevokingKeepsDigests(db: Db, e: Committed, condition: Condition, at: Time, d: Delta)
    requires SetsDigestOf(e).None? && d.sessions == RevokeAll(SelectSessions(db.sessions, condition), at)
    ensures DigestsMove(db, e, d)
  {
  }

  lemma DigestStep(cfg: Config, db: Db, e: Committed, v: Verdict)
    requires Sound(db) && Exec(cfg, db, e.call, e.env) == Ok(v)
    ensures DigestsMove(db, e, v.delta)
  {
    var c := e.call;
    match c
    case Register(_, _, _) => RegisterVerdict(cfg, db, c, e.env, v);
    case Login(_, _, _) => LoginVerdict(cfg, db, c, e.env, v);
    case Refresh(_, _, _, _) => RefreshVerdict(cfg, db, c, e.env, v);
    case Logout(userId, sessionId) =>
      LogoutVerdict(cfg, db, c, e.env, v);
      RevokingKeepsDigests(db, e, OwnActive(sessionId, userId), NormalizeTime(e.env.clock), v.delta);
    case RecoverMute(_, _, _) => RecoverMuteVerdict(cfg, db, c, e.env, v);
    case UpdateMe(_, _, _, _, _) => UpdateMeVerdict(cfg, db, c, e.env, v);
    case DeleteMe(userId, _, _) =>
      DeleteMeVerdict(cfg, db, c, e.env, v);
      RevokingKeepsDigests(db, e, Rows({}, {userId}), NormalizeTime(e.env.clock), v.delta);
    case ChangeStatus(_, _, _, _, _, _, _) =>
      var w := ChangeStatusVerdict(cfg, db, c, e.env, v);
      ChangeStatusKeepsDigests(db, e, v.delta, w);
    case Promote(_) => PromoteVerdict(cfg, db, c, e.env, v);
  }

  /** At every point of a run a session's stored digest belongs to the token returned by its latest
      login or refresh. */
  lemma {:induction false} StoredDigestIsLatest(cfg: Config, start: Db, h: seq<Committed>, sid: Id)
    requires Good(start) && Run(cfg, start, h).Some? && sid in Run(cfg, start, h).value.sessions
    ensures LatestDigest(start, h, sid) == Some(Run(cfg, start, h).value.sessions[sid].tokenHash)
  {
    if h != [] {
      var before, v := LastStep(cfg, start, h);
      DigestStep(cfg, before, h[|h| - 1], v);
      if SetsDigestOf(h[|h| - 1]) != Some(sid) {
        StoredDigestIsLatest(cfg, start, h[..|h| - 1], sid);
      }
    }
  }

  /** The generated digests of a run differ from each other and from those stored before it. */
  ghost predicate FreshDigests(start: Db, h: seq<Committed>) {
    && (forall i, j | 0 <= i < j < |h| && SetsDigestOf(h[i]).Some? && SetsDigestOf(h[j]).Some? ::
          h[i].env.hash != h[j].env.hash)
    && (forall i, sid | 0 <= i < |h| && SetsDigestOf(h[i]).Some? && sid in start.sessions ::
          h[i].env.hash != start.sessions[sid].tokenHash)
  }

  /** Where the latest digest after the first `n` calls comes from. */
  lemma {:induction false} DigestOrigin(start: Db, h: seq<Committed>, n: nat, sid: Id) returns (i: int)
    requires n <= |h| && LatestDigest(start, h[..n], sid).Some?
    ensures -1 <= i < n
    ensures i == -1 ==> sid in start.sessions && LatestDigest(start, h[..n], sid).value == start.sessions[sid].tokenHash
    ensures i >= 0 ==> SetsDigestOf(h[i]) == Some(sid) && LatestDigest(start, h[..n], sid).value == h[i].env.hash
    ensures forall m :: i < m < n ==> SetsDigestOf(h[m]) != Some(sid)
  {
    if n == 0 {
      i := -1;
    } else if SetsDigestOf(h[n - 1]) == Some(sid) {
      i := n - 1;
    } else {
      assert h[..n][..n - 1] == h[..n - 1];
      i := DigestOrigin(start, h, n - 1, sid);
    }
  }

  /** An accepted refresh presented the latest token of its session. */
  lemma AcceptedIsLatest(cfg: Config, start: Db, h: seq<Committed>, n: nat)
    requires Good(start) && n < |h| && Run(cfg, start, h).Some? && h[n].call.Refresh?
    ensures LatestDigest(start, h[..n], h[n].call.sessionId) == Some(h[n].call.candidate)
  {
    var before, v := StepAt(cfg, start, h, n);
    DigestStep(cfg, before, h[n], v);
    StoredDigestIsLatest(cfg, start, h[..n], h[n].call.sessionId);
  }

  /** A refresh token is accepted by at most one committed refresh. */
  lemma RefreshTokenIsOneShot(cfg: Config, start: Db, h: seq<Committed>, i: nat, j: nat)
    requires Good(start) && Run(cfg, start, h).Some? && FreshDigests(start, h)
    requires i < j < |h| && h[i].call.Refresh? && h[j].call.Refresh?
    requires h[i].call.sessionId == h[j].call.sessionId
    ensures h[i].call.candidate != h[j].call.candidate
  {
    var sid := h[i].call.sessionId;
    AcceptedIsLatest(cfg, start, h, i);
    AcceptedIsLatest(cfg, start, h, j);
    var a := DigestOrigin(start, h, i, sid);
    var b := DigestOrigin(start, h, j, sid);
    assert SetsDigestOf(h[i]) == Some(sid);
  }

  /** The user and the session that a call acts through. */
  function ActsThrough(c: Call): Option<(Id, Id)> {
    match c
    case Refresh(sessionId, _, ownerId, _) => Some((ownerId, sessionId))
    case UpdateMe(userId, sessionId, _, _, _) => Some((userId, sessionId))
    case DeleteMe(userId, sessionId, _) => Some((userId, sessionId))
    case ChangeStatus(actorId, actorSessionId, _, _, _, _, _) => Some((actorId, actorSessionId))
    case _ => None
  }

  /** A session that is its user's own, not revoked and not over. */
  ghost predicate InForce(db: Db, userId: Id, sid: Id, now: Time) {
    && sid in db.sessions && db.sessions[sid].userId == userId
    && db.sessions[sid].revokedAt.None? && db.sessions[sid].expiresAt > now
  }

  /** A call commits only through a session in force. */
  lemma CommitsThroughSessionInForce(cfg: Config, db: Db, c: Call, env: Env, v: Verdict)
    requires Sound(db) && Exec(cfg, db, c, env) == Ok(v) && ActsThrough(c).Some?
    ensures InForce(db, ActsThrough(c).value.0, ActsThrough(c).value.1, NormalizeTime(env.clock))
  {
    match c
    case Refresh(_, _, _, _) => RefreshVerdict(cfg, db, c, env, v);
    case UpdateMe(_, _, _, _, _) => UpdateMeVerdict(cfg, db, c, env, v);
    case DeleteMe(_, _, _) => DeleteMeVerdict(cfg, db, c, env, v);
    case ChangeStatus(_, _, _, _, _, _, _) =>
      var w := ChangeStatusVerdict(cfg, db, c, env, v);
    case _ =>
  }

  lemma NotThroughRevoked(cfg: Config, db: Db, c: Call, env: Env, v: Verdict, sid: Id)
    requires Sound(db) && Exec(cfg, db, c, env) == Ok(v)
    requires sid in db.sessions && db.sessions[sid].revokedAt.Some?
    ensures ActsThrough(c).Some? ==> ActsThrough(c).value.1 != sid
  {
    if ActsThrough(c).Some? {
      CommitsThroughSessionInForce(cfg, db, c, env, v);
    }
  }

  /** The `j`-th call of a run, as a step on the database that the earlier ones left. */
  lemma StepAt(cfg: Config, start: Db, h: seq<Committed>, j: nat) returns (before: Db, v: Verdict)
    requires Good(start) && Run(cfg, start, h).Some? && j < |h|
    ensures Run(cfg, start, h[..j]) == Some(before) && Sound(before)
    ensures Exec(cfg, before, h[j].call, h[j].env) == Ok(v)
  {
    RunOfPrefix(cfg, start, h, j + 1);
    var g := h[..j + 1];
    assert g[..|g| - 1] == h[..j] && g[|g| - 1] == h[j];
    before, v := LastStep(cfg, start, g);
  }

  lemma PrefixIsLater(cfg: Config, start: Db, h: seq<Committed>, k: nat, j: nat)
    requires Good(start) && Run(cfg, start, h).Some? && k <= j <= |h|
    ensures Run(cfg, start, h[..k]).Some? && Run(cfg, start, h[..j]).Some?
    ensures Later(Run(cfg, start, h[..k]).value, Run(cfg, start, h[..j]).value)
  {
    RunOfPrefix(cfg, start, h, j);
    assert h[..j][..k] == h[..k];
    RunIsLater(cfg, start, h[..j], k);
  }

  ghost predicate RevokedIn(db: Db, sid: Id) {
    sid in db.sessions && db.sessions[sid].revokedAt.Some?
  }

  /** Once a session is revoked, no later call of the run commits through it. */
  lemma RevokedSessionIsDead(cfg: Config, start: Db, h: seq<Committed>, k: nat, j: nat, sid: Id)
    requires Good(start) && Run(cfg, start, h).Some? && k <= j < |h|
    ensures Run(cfg, start, h[..k]).Some?
    ensures RevokedIn(Run(cfg, start, h[..k]).value, sid) ==>
      ActsThrough(h[j].call).None? || ActsThrough(h[j].call).value.1 != sid
  {
    PrefixIsLater(cfg, start, h, k, j);
    var before, v := StepAt(cfg, start, h, j);
    if RevokedIn(Run(cfg, start, h[..k]).value, sid) {
      NotThroughRevoked(cfg, before, h[j].call, h[j].env, v, sid);
    }
  }

  /** The access grant of a reply, if it carries one. */
  function GrantOf(r: Reply): Option<Grant> {
    match r
    case LoggedIn(access, _, _, _) => Some(access)
    case Refreshed(access, _, _) => Some(access)
    case _ => None
  }

  lemma MultiplesAdd(a: Time, b: Time)
    requires a % SECOND == 0 && b % SECOND == 0
    ensures (a + b) % SECOND == 0 && NormalizeTime(a + b) == a + b
  {
  }

  lemma UnixIsMonotone(a: Time, b: Time)
    requires a % SECOND == 0 && b % SECOND == 0 && a < b
    ensures Unix(a) < Unix(b) && (Unix(b) - Unix(a)) * SECOND == b - a
  {
  }

  /** The token is issued now and ends no later than the access TTL and its session allow;
      `expiresIn` is its exact lifetime in seconds. */
  ghost predicate GrantBounded(cfg: Config, s: Session, g: Grant) {
    && s.id == g.sessionId && s.userId == g.userId && s.revokedAt.None?
    && g.issuedAt < g.expiresAt
    && g.expiresAt == Earlier(NormalizeTime(s.expiresAt), g.issuedAt + cfg.accessTTL)
    && ValidExpiry(g.issuedAt, g.expiresAt)
    && g.expiresIn * SECOND == g.expiresAt - g.issuedAt && g.expiresIn > 0
  }

  lemma MadeGrantIsBounded(cfg: Config, s: Session, now: Time)
    requires cfg.Valid() && now % SECOND == 0 && InYearRange(now) && s.revokedAt.None?
    requires ValidExpiry(now, NormalizeTime(s.expiresAt))
    ensures GrantBounded(cfg, s,
      MakeGrant(s.userId, s.id, now, Earlier(NormalizeTime(s.expiresAt), NormalizeTime(now + cfg.accessTTL))))
  {
    MultiplesAdd(now, cfg.accessTTL);
    UnixIsMonotone(now, Earlier(NormalizeTime(s.expiresAt), now + cfg.accessTTL));
  }

  lemma NormalizedIsWhole(t: Time)
    ensures NormalizeTime(t) % SECOND == 0
  {
  }

  lemma LoginGrantIsBounded(cfg: Config, db: Db, c: Call, env: Env, v: Verdict)
    requires cfg.Valid() && Sound(db) && c.Login? && Exec(cfg, db, c, env) == Ok(v)
    ensures GrantOf(v.reply).Some? && env.freshId in v.delta.sessions
    ensures GrantBounded(cfg, v.delta.sessions[env.freshId], GrantOf(v.reply).value)
    ensures GrantOf(v.reply).value.issuedAt == NormalizeTime(env.clock)
    ensures v.delta.sessions[env.freshId].expiresAt == NormalizeTime(env.clock) + cfg.refreshTTL
  {
    LoginVerdict(cfg, db, c, env, v);
    OpenedSessionIsBounded(cfg, c, env);
  }

  lemma OpenedSessionIsBounded(cfg: Config, c: Call, env: Env)
    requires cfg.Valid() && c.Login? && InYearRange(NormalizeTime(env.clock))
    requires ValidExpiry(NormalizeTime(env.clock), OpenedSession(cfg, c, env).expiresAt)
    ensures var now, s := NormalizeTime(env.clock), OpenedSession(cfg, c, env);
      && s.expiresAt == now + cfg.refreshTTL
      && GrantBounded(cfg, s,
           MakeGrant(c.userId, env.freshId, now, Earlier(s.expiresAt, NormalizeTime(now + cfg.accessTTL))))
  {
    NormalizedIsWhole(env.clock);
    LoginSessionIsBounded(cfg, OpenedSession(cfg, c, env), NormalizeTime(env.clock));
  }

  lemma LoginSessionIsBounded(cfg: Config, s: Session, now: Time)
    requires cfg.Valid() && now % SECOND == 0 && InYearRange(now) && s.revokedAt.None?
    requires s.expiresAt == NormalizeTime(now + cfg.refreshTTL) && ValidExpiry(now, s.expiresAt)
    ensures s.expiresAt == now + cfg.refreshTTL
    ensures GrantBounded(cfg, s,
      MakeGrant(s.userId, s.id, now, Earlier(s.expiresAt, NormalizeTime(now + cfg.accessTTL))))
  {
    MultiplesAdd(now, cfg.refreshTTL);
    MadeGrantIsBounded(cfg, s, now);
  }

  lemma RefreshGrantIsBounded(cfg: Config, db: Db, c: Call, env: Env, v: Verdict)
    requires cfg.Valid() && Sound(db) && c.Refresh? && Exec(cfg, db, c, env) == Ok(v)
    ensures GrantOf(v.reply).Some? && c.sessionId in v.delta.sessions
    ensures GrantBounded(cfg, v.delta.sessions[c.sessionId], GrantOf(v.reply).value)
    ensures GrantOf(v.reply).value.issuedAt == NormalizeTime(env.clock)
  {
    RefreshVerdict(cfg, db, c, env, v);
    NormalizedIsWhole(env.clock);
    MadeGrantIsBounded(cfg, v.delta.sessions[c.sessionId], NormalizeTime(env.clock));
  }

  lemma OtherRepliesGrantNothing(cfg: Config, db: Db, c: Call, env: Env, v: Verdict)
    requires Sound(db) && !c.Login? && !c.Refresh? && Exec(cfg, db, c, env) == Ok(v)
    ensures GrantOf(v.reply).None?
  {
    match c
    case Register(_, _, _) => RegisterVerdict(cfg, db, c, env, v);
    case Logout(_, _) => LogoutVerdict(cfg, db, c, env, v);
    case RecoverMute(_, _, _) => RecoverMuteVerdict(cfg, db, c, env, v);
    case UpdateMe(_, _, _, _, _) => UpdateMeVerdict(cfg, db, c, env, v);
    case DeleteMe(_, _, _) => DeleteMeVerdict(cfg, db, c, env, v);
    case ChangeStatus(_, _, _, _, _, _, _) =>
      var w := ChangeStatusVerdict(cfg, db, c, env, v);
    case Promote(_) => PromoteVerdict(cfg, db, c, env, v);
    case _ =>
  }

  /** Every access token that a call hands out is bounded by the session it leaves behind. */
  lemma EveryGrantIsBounded(cfg: Config, db: Db, c: Call, env: Env, v: Verdict)
    requires cfg.Valid() && Sound(db) && Exec(cfg, db, c, env) == Ok(v) && GrantOf(v.reply).Some?
    ensures c.Login? || c.Refresh?
    ensures var g := GrantOf(v.reply).value;
      && g.issuedAt == NormalizeTime(env.clock) && g.sessionId in v.delta.sessions
      && GrantBounded(cfg, v.delta.sessions[g.sessionId], g)
      && (c.Login? ==> v.delta.sessions[g.sessionId].expiresAt == NormalizeTime(env.clock) + cfg.refreshTTL)
  {
    if c.Login? {
      LoginGrantIsBounded(cfg, db, c, env, v);
    } else if c.Refresh? {
      RefreshGrantIsBounded(cfg, db, c, env, v);
    } else {
      OtherRepliesGrantNothing(cfg, db, c, env, v);
    }
  }

  /** The internal-error branch on the access expiry of a refresh is dead: the earlier of a valid
      session expiry and a later instant is itself valid. */
  lemma AccessExpiryIsValid(cfg: Config, now: Time, sessionExpiresAt: Time)
    requires cfg.Valid() && now % SECOND == 0 && InYearRange(now) && ValidExpiry(now, sessionExpiresAt)
    ensures ValidExpiry(now, Earlier(sessionExpiresAt, NormalizeTime(now + cfg.accessTTL)))
  {
    MultiplesAdd(now, cfg.accessTTL);
  }

  /** The refusal to sign an expiry at the zero instant is not dead: a login one access TTL before that
      instant passes every check on its expiries and still ends in an internal error. */
  lemma ZeroExpiryIsRefused(cfg: Config, user: User, env: Env)
    requires cfg.Valid() && env.clock == ZERO_TIME - cfg.accessTTL && InYearRange(env.clock)
    requires ValidExpiry(env.clock, NormalizeTime(env.clock + cfg.refreshTTL))
    requires user.deletedAt.None? && user.status.CanLogin()
    ensures var c, users := Login(user.id, user.passwordHash, ""), map[user.id := user];
      AdmitLogin(cfg, c, env.clock, users).Ok? && DecideLogin(cfg, c, env, users) == Err(Internal)
  {
    MultiplesAdd(ZERO_TIME, -cfg.accessTTL);
    MultiplesAdd(env.clock, cfg.accessTTL);
    MultiplesAdd(env.clock, cfg.refreshTTL);
  }

  /** What a call samples is fit for the session row that it writes. */
  predicate FitSample(env: Env) {
    |env.hash| == 32 && env.freshId > 0
  }

  /** An admitted login on fit rows succeeds unless its access token would end at the zero instant. */
  lemma AdmittedLoginSucceeds(cfg: Config, c: Call, env: Env, users: map<Id, User>)
    requires cfg.Valid() && c.Login? && AdmitLogin(cfg, c, env.clock, users).Ok? && FitSample(env)
    requires UserRowOk(users[c.userId]) && UserRowOk(Unmuted(users[c.userId], NormalizeTime(env.clock)))
    ensures DecideLogin(cfg, c, env, users).Ok? <==> NormalizeTime(env.clock) + cfg.accessTTL != ZERO_TIME
  {
    NormalizedIsWhole(env.clock);
    MultiplesAdd(NormalizeTime(env.clock), cfg.accessTTL);
    MultiplesAdd(NormalizeTime(env.clock), cfg.refreshTTL);
    RecoveryUnmutes(users[c.userId], NormalizeTime(env.clock), c.requestId);
  }

  /** The same for a refresh, whose access token ends at the expiry of its session if that is earlier. */
  lemma AdmittedRefreshSucceeds(cfg: Config, c: Call, env: Env, users: map<Id, User>, sessions: map<Id, Session>)
    requires cfg.Valid() && c.Refresh? && AdmitRefresh(cfg, c, env.clock, users, sessions).Ok? && |env.hash| == 32
    requires UserRowOk(users[c.ownerId]) && UserRowOk(Unmuted(users[c.ownerId], NormalizeTime(env.clock)))
    requires SessionRowOk(sessions[c.sessionId])
    ensures DecideRefresh(cfg, c, env, users, sessions).Ok? <==>
      Earlier(NormalizeTime(sessions[c.sessionId].expiresAt), NormalizeTime(env.clock) + cfg.accessTTL) != ZERO_TIME
  {
    NormalizedIsWhole(env.clock);
    MultiplesAdd(NormalizeTime(env.clock), cfg.accessTTL);
    RecoveryUnmutes(users[c.ownerId], NormalizeTime(env.clock), c.requestId);
  }

  /** The grant of the `k`-th call of a run, against the session as that call left it. */
  lemma GrantInRun(cfg: Config, start: Db, h: seq<Committed>, k: nat) returns (after: Db)
    requires cfg.Valid() && Good(start) && k < |h| && Run(cfg, start, h).Some?
    requires GrantOf(h[k].reply).Some?
    ensures Later(after, Run(cfg, start, h).value)
    ensures var g := GrantOf(h[k].reply).value;
      && g.sessionId in after.sessions && g.expiresAt <= after.sessions[g.sessionId].expiresAt
      && (h[k].call.Login? ==> after.sessions[g.sessionId].expiresAt == NormalizeTime(h[k].env.clock) + cfg.refreshTTL)
  {
    RunIsLater(cfg, start, h, k + 1);
    var before, v := LastStep(cfg, start, h[..k + 1]);
    EveryGrantIsBounded(cfg, before, h[k].call, h[k].env, v);
    after := Apply(before, v.delta);
  }

  /** However often a session is refreshed, no access token outlives its login plus the refresh TTL. */
  lemma NoGrantOutlivesLogin(cfg: Config, start: Db, h: seq<Committed>, i: nat, j: nat)
    requires cfg.Valid() && Good(start) && Run(cfg, start, h).Some? && i < |h| && j < |h|
    requires h[i].call.Login? && GrantOf(h[i].reply).Some? && GrantOf(h[j].reply).Some?
    requires GrantOf(h[i].reply).value.sessionId == GrantOf(h[j].reply).value.sessionId
    ensures GrantOf(h[j].reply).value.expiresAt <= NormalizeTime(h[i].env.clock) + cfg.refreshTTL
  {
    var atLogin := GrantInRun(cfg, start, h, i);
    var atUse := GrantInRun(cfg, start, h, j);
  }

  /** The user a reply shows, if it shows one. */
  function UserShown(r: Reply): Option<User> {
    match r
    case Registered(user) => Some(user)
    case LoggedIn(_, _, _, user) => Some(user)
    case Viewed(user) => Some(user)
    case _ => None
  }

  /** The instant that a call works with. */
  function InstantOf(c: Call, env: Env): Time {
    if c.RecoverMute? then c.now else NormalizeTime(env.clock)
  }

  /** The shown user is current, and is the row that the call leaves behind without its hash. */
  ghost predicate ShowsCurrent(u: User, d: Delta, now: Time) {
    (u.status == Muted ==> u.mutedUntil.Some? && u.mutedUntil.value > now)
    && u.id in d.users && u == d.users[u.id].(passwordHash := "")
  }

  lemma UnmutedIsCurrent(u: User, now: Time)
    requires UserRowOk(u)
    ensures MuteIsCurrent(Unmuted(u, now), now) && Unmuted(u, now).id == u.id
  {
  }

  lemma EditedIsCurrent(u: User, now: Time, name: Option<string>, bio: Option<string>)
    requires UserRowOk(u)
    ensures var v := Edited(Unmuted(u, now), name, bio, now);
      MuteIsCurrent(v, now) && v.id == u.id
  {
    UnmutedIsCurrent(u, now);
  }

  lemma TargetShownIsCurrent(db: Db, c: Call, d: Delta, w: StatusChange)
    requires Sound(db) && c.ChangeStatus? && ShapedAs(db, c, d, w)
    ensures d.users[c.targetId].id == c.targetId && MuteIsCurrent(d.users[c.targetId], w.now)
  {
    RecoveryUnmutes(db.users[c.targetId], w.now, c.requestId);
  }

  /** No reply shows a mute that is over, nor a password hash; a shown user is the stored one. */
  lemma ShownUserIsCurrent(cfg: Config, db: Db, c: Call, env: Env, v: Verdict)
    requires Sound(db) && Exec(cfg, db, c, env) == Ok(v) && UserShown(v.reply).Some?
    ensures ShowsCurrent(UserShown(v.reply).value, v.delta, InstantOf(c, env))
  {
    var now := NormalizeTime(env.clock);
    match c
    case Register(_, _, _) => RegisterVerdict(cfg, db, c, env, v);
    case Login(userId, _, _) =>
      LoginVerdict(cfg, db, c, env, v);
      UnmutedIsCurrent(db.users[userId], now);
    case Refresh(_, _, _, _) => RefreshVerdict(cfg, db, c, env, v);
    case Logout(_, _) => LogoutVerdict(cfg, db, c, env, v);
    case RecoverMute(userId, at, _) =>
      RecoverMuteVerdict(cfg, db, c, env, v);
      UnmutedIsCurrent(db.users[userId], at);
    case UpdateMe(userId, _, newName, newBio, _) =>
      UpdateMeVerdict(cfg, db, c, env, v);
      EditedIsCurrent(db.users[userId], now, newName, newBio);
    case DeleteMe(_, _, _) => DeleteMeVerdict(cfg, db, c, env, v);
    case ChangeStatus(_, _, _, _, _, _, _) =>
      var w := ChangeStatusVerdict(cfg, db, c, env, v);
      TargetShownIsCurrent(db, c, v.delta, w);
    case Promote(_) => PromoteVerdict(cfg, db, c, env, v);
  }
}
