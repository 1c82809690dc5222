/** Registration, login, refresh, logout and the recovery of an expired mute, against the repository. */
module Auth {
  import opened Wrappers
  import opened Domain
  import opened Database
  import opened Protocol
  import opened Verdicts
  import opened Repositories
  import opened Transactions
  import opened Runs
  import opened Credentials
  import opened Acceptance
  import opened Answers
  import opened Effects
  import opened Decimal
  import opened Base64Url
  import opened Tokens

  /** A revocation that breaks a constraint makes a logout fail. */
  lemma UnfitRevocationFailsLogout(env: Env, now: Time, sessions: map<Id, Session>, sid: Id)
    requires SampleNow(env.clock) == Ok(now) && sid in sessions
    requires !SessionRowOk(sessions[sid].(revokedAt := Some(now)))
    ensures DecideLogout(env, sessions) == Err(Internal)
  {
    assert !SessionRowOk(RevokeAll(sessions, now)[sid]);
  }

  /** Ends a lapsed mute in the current transaction; the entry stays pending until the decision is made. */
  method RecoverForAuth(repo: Repository, user: User, now: Time, requestId: string)
    returns (r: Outcome<(User, seq<AuditEntry>)>)
    requires user.id in repo.staged.users && repo.staged.users[user.id] == user && UserRowOk(user)
    modifies repo`staged, repo`faults, repo`failed
    ensures r.Ok? ==>
      && r == RecoverUser(user, now, requestId) && repo.failed == old(repo.failed)
      && repo.staged == old(repo.staged).(users := old(repo.staged).users[user.id := r.value.0])
    ensures r.Err? ==> r == Err(Internal) && (repo.failed || RecoverUser(user, now, requestId) == Err(Internal))
  {
    if !user.status.Muted? {
      assert repo.staged.users[user.id := user] == repo.staged.users;
      return Ok((user, []));
    }
    if user.mutedUntil.None? {
      return Err(Internal);
    }
    if user.mutedUntil.value > now {
      assert repo.staged.users[user.id := user] == repo.staged.users;
      return Ok((user, []));
    }
    var recovered := repo.RecoverExpiredMute(user.id, now);
    if recovered.Err? {
      return Err(Internal);
    }
    if recovered.value.None? || !ValidRecovered(recovered.value.value, user, now) {
      return Err(Internal);
    }
    return Ok((recovered.value.value, [MuteExpiredEntry(user, now, requestId)]));
  }

  predicate ValidRecovered(recovered: User, user: User, now: Time) {
    && recovered.id == user.id && recovered.passwordHash == user.passwordHash
    && recovered.status.Active? && recovered.mutedUntil.None? && recovered.deletedAt.None?
    && recovered.updatedAt == now
  }

  /** Writes the pending entries. */
  method InsertAudits(repo: Repository, entries: seq<AuditEntry>) returns (ok: bool)
    modifies repo`staged, repo`faults, repo`failed
    ensures ok ==>
      && repo.staged == old(repo.staged).(audits := old(repo.staged).audits + entries)
      && repo.failed == old(repo.failed)
    ensures !ok ==> repo.failed
  {
    var i := 0;
    ghost var was := repo.staged;
    assert was.audits + entries[..0] == was.audits;
    while i < |entries|
      invariant 0 <= i <= |entries|
      invariant repo.staged == was.(audits := was.audits + entries[..i])
      invariant repo.failed == old(repo.failed)
    {
      var inserted := repo.InsertAudit(entries[i]);
      if inserted.Err? {
        return false;
      }
      assert was.audits + entries[..i] + [entries[i]] == was.audits + entries[..i + 1];
      i := i + 1;
    }
    assert entries[..i] == entries;
    return true;
  }

  /** The pair of tokens handed to a client. */
  datatype TokenPair = TokenPair(access: Claims, refresh: string)

  predicate ValidCreatedSession(s: Session, userId: Id, hash: Digest, expiresAt: Time, now: Time) {
    && s.id > 0 && s.userId == userId && s.revokedAt.None? && s.tokenHash == hash
    && s.createdAt == now && s.expiresAt % SECOND == 0 && s.expiresAt <= expiresAt
    && ValidExpiry(now, NormalizeTime(s.expiresAt))
  }

  /** Inserts the session and checks the returned row; on a faithful repository the check holds. */
  method CreateCheckedSession(repo: Repository, userId: Id, hash: Digest, expiresAt: Time, now: Time)
    returns (r: Outcome<Session>)
    requires repo.nextSessionId > 0 && repo.nextSessionId !in repo.staged.sessions && userId in repo.staged.users
    requires expiresAt % SECOND == 0 && ValidExpiry(now, expiresAt)
    modifies repo`staged, repo`nextSessionId, repo`faults, repo`failed
    ensures r.Ok? ==>
      && r.value == Session(old(repo.nextSessionId), userId, hash, expiresAt, None, now) && SessionRowOk(r.value)
      && repo.staged == old(repo.staged).(sessions := old(repo.staged).sessions[old(repo.nextSessionId) := r.value])
      && repo.failed == old(repo.failed)
    ensures r.Err? ==>
      r == Err(Internal)
      && (repo.failed || !SessionRowOk(Session(old(repo.nextSessionId), userId, hash, expiresAt, None, now)))
  {
    var created := repo.CreateSession(userId, hash, expiresAt, now);
    if created.Err? || !ValidCreatedSession(created.value, userId, hash, expiresAt, now) {
      return Err(Internal);
    }
    return created;
  }

  /** Where a call gets its randomness and signs its tokens. */
  datatype Mint = Mint(manager: Manager, sha: seq<Byte> -> Digest)

  /** The environment of a call that samples this clock, sequence and source of secrets. */
  function EnvOf(clock: Time, freshId: Id, mint: Mint, secretSource: seq<Byte>): Env {
    Env(clock, freshId,
        if |secretSource| >= REFRESH_SECRET_BYTES then mint.sha(secretSource[..REFRESH_SECRET_BYTES]) else [])
  }

  ghost predicate EnoughRandomness(secretSource: seq<Byte>, jwtSource: seq<Byte>) {
    |secretSource| >= REFRESH_SECRET_BYTES && |jwtSource| >= JWT_ID_RANDOM_BYTES
  }

  /** The refresh token names the session and holds the fresh secret. */
  ghost predicate HoldsSecret(secretSource: seq<Byte>, sessionId: Id, refresh: string) {
    && |secretSource| >= REFRESH_SECRET_BYTES && sessionId > 0
    && refresh == Print(sessionId) + "." + Encode(secretSource[..REFRESH_SECRET_BYTES])
  }

  /** The tokens carry the grant and the fresh secret. */
  ghost predicate CarriesGrant(mint: Mint, secretSource: seq<Byte>, jwtSource: seq<Byte>, g: Grant, tokens: TokenPair) {
    && |jwtSource| >= JWT_ID_RANDOM_BYTES && HoldsSecret(secretSource, g.sessionId, tokens.refresh)
    && Sign(mint.manager, g.userId, g.sessionId, g.issuedAt, g.expiresAt, Encode(jwtSource[..JWT_ID_RANDOM_BYTES]))
       == Ok(tokens.access)
  }

  /** The grant with its lifetime in whole seconds; the check that it is positive never fires. */
  method GrantFor(userId: Id, sessionId: Id, now: Time, expiresAt: Time) returns (r: Outcome<Grant>)
    requires now % SECOND == 0 && expiresAt % SECOND == 0 && now < expiresAt
    ensures r == Ok(MakeGrant(userId, sessionId, now, expiresAt))
  {
    UnixIsMonotone(now, expiresAt);
    var expiresIn := Unix(expiresAt) - Unix(now);
    if expiresIn <= 0 {
      return Err(Internal);
    }
    return Ok(Grant(userId, sessionId, now, expiresAt, expiresIn));
  }

  /** Issues the tokens of a session; only a dry source of randomness or an expiry at the zero instant
      makes it fail. */
  method IssueTokens(mint: Mint, userId: Id, sessionId: Id, now: Time, expiresAt: Time,
                     secret: string, ghost secretSource: seq<Byte>, jwtSource: seq<Byte>)
    returns (r: Outcome<TokenPair>)
    requires userId > 0 && 1 <= sessionId <= MAX_INT64
    requires now % SECOND == 0 && now != ZERO_TIME && expiresAt % SECOND == 0 && now < expiresAt
    requires |secretSource| >= REFRESH_SECRET_BYTES && secret == Encode(secretSource[..REFRESH_SECRET_BYTES])
    ensures r.Ok? <==> |jwtSource| >= JWT_ID_RANDOM_BYTES && expiresAt != ZERO_TIME
    ensures r.Ok? ==>
      CarriesGrant(mint, secretSource, jwtSource, MakeGrant(userId, sessionId, now, expiresAt), r.value)
  {
    UnixIsMonotone(now, expiresAt);
    var jwtId := GenerateJwtId(jwtSource);
    if jwtId.Err? {
      return Err(Internal);
    }
    var access := Sign(mint.manager, userId, sessionId, now, expiresAt, jwtId.value);
    if access.Err? {
      return Err(Internal);
    }
    FormatSucceeds(sessionId, secretSource[..REFRESH_SECRET_BYTES]);
    var refresh := FormatRefreshToken(sessionId, secret);
    if refresh.Err? {
      return Err(Internal);
    }
    return Ok(TokenPair(access.value, refresh.value));
  }

  /** The instants of an admitted call, as the later checks find them. */
  predicate Timely(now: Time, sessionExpiresAt: Time, accessExpiresAt: Time) {
    && now % SECOND == 0 && now != ZERO_TIME
    && sessionExpiresAt % SECOND == 0 && accessExpiresAt % SECOND == 0
    && ValidExpiry(now, sessionExpiresAt) && ValidExpiry(now, accessExpiresAt)
  }

  lemma EarlierIsTimely(now: Time, a: Time, b: Time)
    requires Timely(now, a, b)
    ensures Earlier(a, b) % SECOND == 0 && now < Earlier(a, b)
  {
  }

  lemma AdmittedLoginIsTimely(cfg: Config, c: Call, clock: Time, users: map<Id, User>)
    requires c.Login? && AdmitLogin(cfg, c, clock, users).Ok?
    ensures var p := AdmitLogin(cfg, c, clock, users).value;
      Timely(p.now, p.refreshExpiresAt, p.accessExpiresAt)
  {
  }

  lemma AdmittedRefreshIsTimely(cfg: Config, c: Call, clock: Time, users: map<Id, User>, sessions: map<Id, Session>)
    requires cfg.Valid() && c.Refresh? && AdmitRefresh(cfg, c, clock, users, sessions).Ok?
    ensures var p := AdmitRefresh(cfg, c, clock, users, sessions).value;
      Timely(p.now, p.sessionExpiresAt, p.accessExpiresAt)
  {
  }

  /** The first half of a login: the user lock and the checks behind it. */
  method LockForLogin(repo: Repository, cfg: Config, c: Call, clock: Time) returns (r: Outcome<LoginPlan>)
    requires c.Login? && Sound(repo.staged)
    modifies repo`faults, repo`failed
    ensures r.Ok? ==>
      && r == AdmitLogin(cfg, c, clock, SelectUsers(repo.staged.users, {c.userId}))
      && repo.failed == old(repo.failed)
    ensures r.Err? ==>
      || AdmitLogin(cfg, c, clock, SelectUsers(repo.staged.users, {c.userId})) == Err(r.error)
      || (repo.failed && r == Err(Internal))
  {
    OneUserInOrder(repo.staged.users, c.userId);
    var users := repo.LockUsers([c.userId]);
    if users.Err? {
      return Err(Internal);
    }
    if |users.value| == 0 {
      return Err(InvalidCredentials);
    }
    if |users.value| != 1 || users.value[0].id != c.userId {
      return Err(Internal);
    }
    var user := users.value[0];
    if user.passwordHash != c.credentialHash || user.deletedAt.Some? || !user.status.CanLogin() {
      return Err(InvalidCredentials);
    }
    var sampled := SampleNow(clock);
    if sampled.Err? {
      return Err(sampled.error);
    }
    var now := sampled.value;
    var refreshExpiresAt := NormalizeTime(now + cfg.refreshTTL);
    var accessExpiresAt := NormalizeTime(now + cfg.accessTTL);
    if !ValidExpiry(now, refreshExpiresAt) || !ValidExpiry(now, accessExpiresAt) {
      return Err(Internal);
    }
    return Ok(LoginPlan(user, now, refreshExpiresAt, accessExpiresAt));
  }

  datatype Minted = Minted(session: Session, grant: Grant, tokens: TokenPair)

  /** Generates a secret, stores its session, and issues the tokens. */
  method MintSession(repo: Repository, userId: Id, p: LoginPlan, mint: Mint,
                     secretSource: seq<Byte>, jwtSource: seq<Byte>)
    returns (r: Outcome<Minted>)
    requires userId > 0 && userId in repo.staged.users && Timely(p.now, p.refreshExpiresAt, p.accessExpiresAt)
    requires 1 <= repo.nextSessionId <= MAX_INT64 && repo.nextSessionId !in repo.staged.sessions
    modifies repo`staged, repo`nextSessionId, repo`faults, repo`failed
    ensures var hash := EnvOf(0, 0, mint, secretSource).hash;
      var session := Session(old(repo.nextSessionId), userId, hash, p.refreshExpiresAt, None, p.now);
      var expiresAt := Earlier(p.refreshExpiresAt, p.accessExpiresAt);
      if r.Ok? then
        && SessionRowOk(session) && expiresAt != ZERO_TIME
        && r.value.session == session && r.value.grant == MakeGrant(userId, session.id, p.now, expiresAt)
        && CarriesGrant(mint, secretSource, jwtSource, r.value.grant, r.value.tokens)
        && repo.staged == old(repo.staged).(sessions := old(repo.staged).sessions[session.id := session])
        && repo.failed == old(repo.failed)
      else
        && r == Err(Internal)
        && (repo.failed || !EnoughRandomness(secretSource, jwtSource) || !SessionRowOk(session)
            || expiresAt == ZERO_TIME)
  {
    var generated := GenerateRefreshSecret(secretSource, mint.sha);
    if generated.Err? {
      return Err(Internal);
    }
    var created := CreateCheckedSession(repo, userId, generated.value.1, p.refreshExpiresAt, p.now);
    if created.Err? {
      return Err(Internal);
    }
    var session := created.value;
    var actualExpiry := Earlier(session.expiresAt, p.accessExpiresAt);
    EarlierIsTimely(p.now, session.expiresAt, p.accessExpiresAt);
    var grant := GrantFor(userId, session.id, p.now, actualExpiry);
    if grant.Err? {
      return Err(Internal);
    }
    var secret := generated.value.0;
    var issued := IssueTokens(mint, userId, session.id, p.now, actualExpiry, secret, secretSource, jwtSource);
    if issued.Err? {
      return Err(Internal);
    }
    return Ok(Minted(session, grant.value, issued.value));
  }

  /** The second half of a login: recovery, the new session, the tokens and the pending entry. */
  method OpenSession(repo: Repository, c: Call, p: LoginPlan, mint: Mint, secretSource: seq<Byte>, jwtSource: seq<Byte>)
    returns (r: Outcome<Reply>, tokens: Option<TokenPair>)
    requires c.Login? && c.userId > 0 && Sound(repo.staged)
    requires c.userId in repo.staged.users && p.user == repo.staged.users[c.userId]
    requires Timely(p.now, p.refreshExpiresAt, p.accessExpiresAt)
    requires 1 <= repo.nextSessionId <= MAX_INT64 && repo.nextSessionId !in repo.staged.sessions
    modifies repo`staged, repo`nextSessionId, repo`faults, repo`failed
    ensures Drafted(old(repo.staged), repo.staged,
                    CompleteLogin(c, EnvOf(0, old(repo.nextSessionId), mint, secretSource), p),
                    r, repo.failed || !EnoughRandomness(secretSource, jwtSource))
    ensures r.Ok? ==>
      GrantOf(r.value).Some? && tokens.Some?
      && CarriesGrant(mint, secretSource, jwtSource, GrantOf(r.value).value, tokens.value)
  {
    tokens := None;
    ghost var was := repo.staged;
    var recovery := RecoverForAuth(repo, p.user, p.now, c.requestId);
    if recovery.Err? {
      return Err(Internal), None;
    }
    var user := recovery.value.0;
    var minted := MintSession(repo, user.id, p, mint, secretSource, jwtSource);
    if minted.Err? {
      return Err(Internal), None;
    }
    var session := minted.value.session;
    var inserted := InsertAudits(repo, recovery.value.1);
    if !inserted {
      return Err(Internal), None;
    }
    LoginDrafted(was, c, EnvOf(0, session.id, mint, secretSource), p, user, recovery.value.1);
    r := Ok(LoggedIn(minted.value.grant, session.tokenHash, session.expiresAt, SecretFree(user)));
    tokens := Some(minted.value.tokens);
  }

  /** The verdict of an admitted login whose recovery and session are known. */
  lemma LoginDrafted(was: Db, c: Call, env: Env, p: LoginPlan, user: User, entries: seq<AuditEntry>)
    requires c.Login? && RecoverUser(p.user, p.now, c.requestId) == Ok((user, entries))
    requires var s := Session(env.freshId, c.userId, env.hash, p.refreshExpiresAt, None, p.now);
      SessionRowOk(s) && Earlier(p.refreshExpiresAt, p.accessExpiresAt) != ZERO_TIME
    ensures var s := Session(env.freshId, c.userId, env.hash, p.refreshExpiresAt, None, p.now);
      var decision := CompleteLogin(c, env, p);
      && decision.Ok?
      && decision.value.reply == LoggedIn(
           MakeGrant(c.userId, s.id, p.now, Earlier(p.refreshExpiresAt, p.accessExpiresAt)),
           env.hash, p.refreshExpiresAt, SecretFree(user))
      && Apply(was, decision.value.delta)
         == Db(was.users[c.userId := user], was.sessions[s.id := s], was.audits + entries)
  {
    var s := Session(env.freshId, c.userId, env.hash, p.refreshExpiresAt, None, p.now);
    assert was.users + map[c.userId := user] == was.users[c.userId := user];
    assert was.sessions + map[s.id := s] == was.sessions[s.id := s];
  }

  /** The first half of a refresh: the locks and the checks behind them. */
  method LockForRefresh(repo: Repository, cfg: Config, c: Call, clock: Time) returns (r: Outcome<RefreshPlan>)
    requires c.Refresh? && cfg.Valid() && Sound(repo.staged)
    modifies repo`faults, repo`failed
    ensures r.Ok? ==>
      && r == AdmitRefresh(cfg, c, clock, SelectUsers(repo.staged.users, {c.ownerId}),
                           SelectSessions(repo.staged.sessions, Rows({c.sessionId}, {})))
      && repo.failed == old(repo.failed)
    ensures r.Err? ==>
      || AdmitRefresh(cfg, c, clock, SelectUsers(repo.staged.users, {c.ownerId}),
                      SelectSessions(repo.staged.sessions, Rows({c.sessionId}, {}))) == Err(r.error)
      || (repo.failed && r == Err(Internal))
  {
    OneUserInOrder(repo.staged.users, c.ownerId);
    OneSessionSelected(repo.staged.sessions, c.sessionId);
    var users := repo.LockUsers([c.ownerId]);
    if users.Err? {
      return Err(Internal);
    }
    if |users.value| == 0 {
      return Err(InvalidRefreshToken);
    }
    if |users.value| != 1 {
      return Err(Internal);
    }
    var user := users.value[0];
    if user.id != c.ownerId {
      return Err(InvalidRefreshToken);
    }
    var locked := repo.LockSession(c.sessionId);
    if locked.Err? {
      return Err(if locked.error.NotFound? then InvalidRefreshToken else Internal);
    }
    var session := locked.value;
    if session.id != c.sessionId || session.userId != c.ownerId || session.userId != user.id {
      return Err(InvalidRefreshToken);
    }
    if session.revokedAt.Some? || |session.tokenHash| != |c.candidate| || session.tokenHash != c.candidate {
      return Err(InvalidRefreshToken);
    }
    if user.deletedAt.Some? || !user.status.CanLogin() {
      return Err(InvalidRefreshToken);
    }
    if user.status.Muted? && user.mutedUntil.None? {
      return Err(Internal);
    }
    var sampled := SampleNow(clock);
    if sampled.Err? {
      return Err(sampled.error);
    }
    var now := sampled.value;
    var sessionExpiresAt := NormalizeTime(session.expiresAt);
    if !ValidExpiry(now, sessionExpiresAt) {
      return Err(InvalidRefreshToken);
    }
    var accessExpiresAt := Earlier(sessionExpiresAt, NormalizeTime(now + cfg.accessTTL));
    AccessExpiryIsValid(cfg, now, sessionExpiresAt);
    if !ValidExpiry(now, accessExpiresAt) {
      return Err(Internal);
    }
    return Ok(RefreshPlan(user, session, now, sessionExpiresAt, accessExpiresAt));
  }

  /** Generates a secret, issues the tokens, and stores the new digest. */
  method ReissueTokens(repo: Repository, userId: Id, p: RefreshPlan, mint: Mint,
                       secretSource: seq<Byte>, jwtSource: seq<Byte>)
    returns (r: Outcome<(Digest, TokenPair)>)
    requires userId > 0 && 1 <= p.session.id <= MAX_INT64 && Timely(p.now, p.sessionExpiresAt, p.accessExpiresAt)
    requires p.session.id in repo.staged.sessions && repo.staged.sessions[p.session.id] == p.session
    modifies repo`staged, repo`faults, repo`failed
    ensures var rotated := p.session.(tokenHash := EnvOf(0, 0, mint, secretSource).hash);
      if r.Ok? then
        && SessionRowOk(rotated) && p.accessExpiresAt != ZERO_TIME && r.value.0 == rotated.tokenHash
        && CarriesGrant(mint, secretSource, jwtSource,
                        MakeGrant(userId, p.session.id, p.now, p.accessExpiresAt), r.value.1)
        && repo.staged == old(repo.staged).(sessions := old(repo.staged).sessions[p.session.id := rotated])
        && repo.failed == old(repo.failed)
      else
        && r == Err(Internal)
        && (repo.failed || !EnoughRandomness(secretSource, jwtSource) || !SessionRowOk(rotated)
            || p.accessExpiresAt == ZERO_TIME)
  {
    var generated := GenerateRefreshSecret(secretSource, mint.sha);
    if generated.Err? {
      return Err(Internal);
    }
    var secret := generated.value.0;
    var issued := IssueTokens(mint, userId, p.session.id, p.now, p.accessExpiresAt, secret, secretSource, jwtSource);
    if issued.Err? {
      return Err(Internal);
    }
    var rotated := repo.RotateSessionToken(p.session.id, generated.value.1);
    if rotated.Err? {
      return Err(Internal);
    }
    return Ok((generated.value.1, issued.value));
  }

  /** The second half of a refresh: recovery, the tokens, the new digest and the pending entry. */
  method RotateSession(repo: Repository, c: Call, p: RefreshPlan, freshId: Id, mint: Mint,
                       secretSource: seq<Byte>, jwtSource: seq<Byte>)
    returns (r: Outcome<Reply>, tokens: Option<TokenPair>)
    requires c.Refresh? && c.ownerId > 0 && 1 <= c.sessionId <= MAX_INT64 && Sound(repo.staged)
    requires c.ownerId in repo.staged.users && p.user == repo.staged.users[c.ownerId]
    requires c.sessionId in repo.staged.sessions && p.session == repo.staged.sessions[c.sessionId]
    requires Timely(p.now, p.sessionExpiresAt, p.accessExpiresAt)
    modifies repo`staged, repo`faults, repo`failed
    ensures Drafted(old(repo.staged), repo.staged,
                    CompleteRefresh(c, EnvOf(0, freshId, mint, secretSource), p),
                    r, repo.failed || !EnoughRandomness(secretSource, jwtSource))
    ensures r.Ok? ==>
      GrantOf(r.value).Some? && tokens.Some?
      && CarriesGrant(mint, secretSource, jwtSource, GrantOf(r.value).value, tokens.value)
  {
    tokens := None;
    ghost var was := repo.staged;
    var recovery := RecoverForAuth(repo, p.user, p.now, c.requestId);
    if recovery.Err? {
      return Err(Internal), None;
    }
    var user := recovery.value.0;
    var issued := ReissueTokens(repo, user.id, p, mint, secretSource, jwtSource);
    if issued.Err? {
      return Err(Internal), None;
    }
    var inserted := InsertAudits(repo, recovery.value.1);
    if !inserted {
      return Err(Internal), None;
    }
    RefreshDrafted(was, c, EnvOf(0, freshId, mint, secretSource), p, user, recovery.value.1);
    var grant := MakeGrant(user.id, p.session.id, p.now, p.accessExpiresAt);
    return Ok(Refreshed(grant, issued.value.0, p.sessionExpiresAt)), Some(issued.value.1);
  }

  /** The verdict of an admitted refresh whose recovery is known. */
  lemma RefreshDrafted(was: Db, c: Call, env: Env, p: RefreshPlan, user: User, entries: seq<AuditEntry>)
    requires c.Refresh? && RecoverUser(p.user, p.now, c.requestId) == Ok((user, entries))
    requires SessionRowOk(p.session.(tokenHash := env.hash)) && p.accessExpiresAt != ZERO_TIME
    ensures var rotated, decision := p.session.(tokenHash := env.hash), CompleteRefresh(c, env, p);
      && decision.Ok?
      && decision.value.reply
         == Refreshed(MakeGrant(c.ownerId, c.sessionId, p.now, p.accessExpiresAt), env.hash, p.sessionExpiresAt)
      && Apply(was, decision.value.delta)
         == Db(was.users[c.ownerId := user], was.sessions[c.sessionId := rotated], was.audits + entries)
  {
    var rotated := p.session.(tokenHash := env.hash);
    assert was.users + map[c.ownerId := user] == was.users[c.ownerId := user];
    assert was.sessions + map[c.sessionId := rotated] == was.sessions[c.sessionId := rotated];
  }

  /** The locks, the checks and the writes of a login. */
  method LoginBody(repo: Repository, cfg: Config, c: Call, clock: Time, mint: Mint,
                   secretSource: seq<Byte>, jwtSource: seq<Byte>)
    returns (r: Outcome<Reply>, tokens: Option<TokenPair>)
    requires c.Login? && c.userId > 0 && Sound(repo.staged)
    requires 1 <= repo.nextSessionId <= MAX_INT64 && repo.nextSessionId !in repo.staged.sessions
    modifies repo`staged, repo`nextSessionId, repo`faults, repo`failed
    ensures Drafted(old(repo.staged), repo.staged,
                    DecideLogin(cfg, c, EnvOf(clock, old(repo.nextSessionId), mint, secretSource),
                                SelectUsers(old(repo.staged).users, {c.userId})),
                    r, repo.failed || !EnoughRandomness(secretSource, jwtSource))
    ensures r.Ok? ==>
      GrantOf(r.value).Some? && tokens.Some?
      && CarriesGrant(mint, secretSource, jwtSource, GrantOf(r.value).value, tokens.value)
  {
    var plan := LockForLogin(repo, cfg, c, clock);
    if plan.Err? {
      return Err(plan.error), None;
    }
    AdmittedLoginIsTimely(cfg, c, clock, SelectUsers(repo.staged.users, {c.userId}));
    r, tokens := OpenSession(repo, c, plan.value, mint, secretSource, jwtSource);
  }

  /** A login whose credential has been read and compared: one transaction. */
  method LoginTransaction(repo: Repository, cfg: Config, c: Call, clock: Time, mint: Mint,
                          secretSource: seq<Byte>, jwtSource: seq<Byte>)
    returns (r: Outcome<Reply>, tokens: Option<TokenPair>)
    requires c.Login? && c.userId > 0 && cfg.Valid() && Sound(repo.committed) && !repo.failed
    requires repo.SequencesAhead() && repo.nextSessionId <= MAX_INT64
    modifies repo
    ensures Carried(cfg, old(repo.committed), repo.committed, c,
                    EnvOf(clock, old(repo.nextSessionId), mint, secretSource),
                    r, repo.failed || !EnoughRandomness(secretSource, jwtSource))
    ensures r.Ok? ==>
      GrantOf(r.value).Some? && tokens.Some?
      && CarriesGrant(mint, secretSource, jwtSource, GrantOf(r.value).value, tokens.value)
  {
    var begun := repo.Begin();
    if !begun {
      return Err(Internal), None;
    }
    r, tokens := LoginBody(repo, cfg, c, clock, mint, secretSource, jwtSource);
    r := repo.Finish(r);
  }

  /** The locks, the checks and the writes of a refresh. */
  method RefreshBody(repo: Repository, cfg: Config, c: Call, clock: Time, freshId: Id, mint: Mint,
                     secretSource: seq<Byte>, jwtSource: seq<Byte>)
    returns (r: Outcome<Reply>, tokens: Option<TokenPair>)
    requires c.Refresh? && c.ownerId > 0 && 1 <= c.sessionId <= MAX_INT64 && cfg.Valid() && Sound(repo.staged)
    modifies repo`staged, repo`faults, repo`failed
    ensures Drafted(old(repo.staged), repo.staged,
                    DecideRefresh(cfg, c, EnvOf(clock, freshId, mint, secretSource),
                                  SelectUsers(old(repo.staged).users, {c.ownerId}),
                                  SelectSessions(old(repo.staged).sessions, Rows({c.sessionId}, {}))),
                    r, repo.failed || !EnoughRandomness(secretSource, jwtSource))
    ensures r.Ok? ==>
      GrantOf(r.value).Some? && tokens.Some?
      && CarriesGrant(mint, secretSource, jwtSource, GrantOf(r.value).value, tokens.value)
  {
    ghost var users := SelectUsers(repo.staged.users, {c.ownerId});
    ghost var sessions := SelectSessions(repo.staged.sessions, Rows({c.sessionId}, {}));
    var plan := LockForRefresh(repo, cfg, c, clock);
    if plan.Err? {
      return Err(plan.error), None;
    }
    AdmittedRefreshIsTimely(cfg, c, clock, users, sessions);
    AdmittedRefreshFacts(cfg, c, clock, users, sessions);
    r, tokens := RotateSession(repo, c, plan.value, freshId, mint, secretSource, jwtSource);
  }

  lemma AdmittedRefreshFacts(cfg: Config, c: Call, clock: Time, users: map<Id, User>, sessions: map<Id, Session>)
    requires c.Refresh? && AdmitRefresh(cfg, c, clock, users, sessions).Ok?
    ensures var p := AdmitRefresh(cfg, c, clock, users, sessions).value;
      && c.ownerId in users && p.user == users[c.ownerId]
      && c.sessionId in sessions && p.session == sessions[c.sessionId]
  {
  }

  /** A refresh whose token has been parsed and its owner looked up: one transaction. */
  method RefreshTransaction(repo: Repository, cfg: Config, c: Call, clock: Time, freshId: Id, mint: Mint,
                            secretSource: seq<Byte>, jwtSource: seq<Byte>)
    returns (r: Outcome<Reply>, tokens: Option<TokenPair>)
    requires c.Refresh? && c.ownerId > 0 && 1 <= c.sessionId <= MAX_INT64 && cfg.Valid()
    requires Sound(repo.committed) && !repo.failed
    modifies repo
    ensures Carried(cfg, old(repo.committed), repo.committed, c, EnvOf(clock, freshId, mint, secretSource),
                    r, repo.failed || !EnoughRandomness(secretSource, jwtSource))
    ensures r.Ok? ==>
      GrantOf(r.value).Some? && tokens.Some?
      && CarriesGrant(mint, secretSource, jwtSource, GrantOf(r.value).value, tokens.value)
  {
    var begun := repo.Begin();
    if !begun {
      return Err(Internal), None;
    }
    r, tokens := RefreshBody(repo, cfg, c, clock, freshId, mint, secretSource, jwtSource);
    r := repo.Finish(r);
  }

  /** The password hasher: `hash` may fail, and `compare` fails on a malformed hash. */
  datatype Hasher = Hasher(
    hash: string -> Option<string>,
    compare: (string, string) -> Option<bool>,
    dummyHash: string,
    dummyCandidate: string)

  /** The user with an email address, read without a lock. */
  method FindLoginCredential(repo: Repository, email: string) returns (r: Outcome<User>)
    modifies repo`faults, repo`failed
    ensures r.Ok? ==>
      && repo.failed == old(repo.failed)
      && exists id <- repo.committed.users :: repo.committed.users[id] == r.value && r.value.email == email
    ensures r == Err(NotFound) ==> !EmailTaken(repo.committed, email) && repo.failed == old(repo.failed)
    ensures r.Err? && !r.error.NotFound? ==> r == Err(Internal) && repo.failed
  {
    var fault := repo.Fails();
    if fault {
      return Err(Internal);
    }
    if id :| id in repo.committed.users && repo.committed.users[id].email == email {
      return Ok(repo.committed.users[id]);
    }
    return Err(NotFound);
  }

  /** The email address of this user belongs to no other. */
  ghost predicate OnlyOwner(db: Db, id: Id)
    requires id in db.users
  {
    forall other <- db.users :: db.users[other].email == db.users[id].email ==> other == id
  }

  /** Passwords have 8 to 72 bytes. */
  predicate PasswordOk(password: string) {
    8 <= |password| <= 72
  }

  /** A login from email address and password. A comparison is made whatever the outcome of the lookup. Either
      the login is refused before its transaction, or `c` is the transaction that it carries out. */
  method Login(repo: Repository, cfg: Config, hasher: Hasher, email: string, password: string, requestId: string,
               clock: Time, mint: Mint, secretSource: seq<Byte>, jwtSource: seq<Byte>)
    returns (r: Outcome<Reply>, tokens: Option<TokenPair>, ghost c: Call)
    requires cfg.Valid() && Sound(repo.committed) && !repo.failed
    requires repo.SequencesAhead() && repo.nextSessionId <= MAX_INT64
    modifies repo
    // Whoever gets as far as the transaction has presented the password of a stored user who may log in.
    ensures c.Login? ==> var db := old(repo.committed);
      && cfg.emailOk(email) && 8 <= |password| <= 72
      && c.userId in db.users && db.users[c.userId].email == email
      && hasher.compare(db.users[c.userId].passwordHash, password) == Some(true)
      && db.users[c.userId].deletedAt.None? && db.users[c.userId].status in {Pending, Active, Muted, Frozen}
      && c == Call.Login(c.userId, db.users[c.userId].passwordHash, requestId)
    ensures c.Login? ==>
      Carried(cfg, old(repo.committed), repo.committed, c, EnvOf(clock, old(repo.nextSessionId), mint, secretSource), r,
              repo.failed || !EnoughRandomness(secretSource, jwtSource))
    ensures !c.Login? ==> r.Err? && repo.committed == old(repo.committed)
    // The owner of an email address is refused exactly for a wrong password or a barred account.
    ensures forall id | id in old(repo.committed).users && old(repo.committed).users[id].email == email ::
      var u := old(repo.committed).users[id];
      OnlyOwner(old(repo.committed), id) && cfg.emailOk(email) && 8 <= |password| <= 72 ==>
        if hasher.compare(u.passwordHash, password) == None then r == Err(Internal) && !c.Login?
        else if hasher.compare(u.passwordHash, password) == Some(false) || u.deletedAt.Some?
          || u.status in {Banned, Deleted} then
          !c.Login? && (r == Err(InvalidCredentials) || (r == Err(Internal) && repo.failed))
        else (c.Login? && c.userId == id) || (r == Err(Internal) && repo.failed)
    // Without such an owner, the dummy comparison decides between a refusal and a broken hasher.
    ensures !EmailTaken(old(repo.committed), email) || !cfg.emailOk(email) || !(8 <= |password| <= 72) ==>
      !c.Login?
      && ((r == Err(Internal) && repo.failed)
          || r == Err(if hasher.compare(hasher.dummyHash, hasher.dummyCandidate) == Some(true) then InvalidCredentials
                      else Internal))
    ensures r.Ok? ==>
      && GrantOf(r.value).Some? && tokens.Some?
      && CarriesGrant(mint, secretSource, jwtSource, GrantOf(r.value).value, tokens.value)
  {
    tokens := None;
    c := Promote(0);
    var fieldsValid := cfg.emailOk(email) && PasswordOk(password);
    var found: Outcome<User> := Err(InvalidCredentials);
    if fieldsValid {
      found := FindLoginCredential(repo, email);
    }
    var matched :=
      if found.Ok? then hasher.compare(found.value.passwordHash, password)
      else hasher.compare(hasher.dummyHash, hasher.dummyCandidate);
    if matched.None? {
      return Err(Internal), None, c;
    }
    if found.Err? && !matched.value {
      return Err(Internal), None, c;
    }
    if found == Err(Internal) {
      return Err(Internal), None, c;
    }
    if found.Err? {
      return Err(InvalidCredentials), None, c;
    }
    var credential := found.value;
    if !matched.value || credential.deletedAt.Some? || !credential.status.CanLogin() {
      return Err(InvalidCredentials), None, c;
    }
    if credential.id <= 0 {
      return Err(Internal), None, c;
    }
    var call := Call.Login(credential.id, credential.passwordHash, requestId);
    c := call;
    r, tokens := LoginTransaction(repo, cfg, call, clock, mint, secretSource, jwtSource);
  }

  /** The digest is the stored one of a session that is neither revoked nor over, and whose owner may log in;
      the access token would not end at the zero instant. */
  ghost predicate Current(cfg: Config, db: Db, sid: Id, digest: Digest, clock: Time) {
    && HealthyRows(cfg, db, clock) && sid in db.sessions
    && (var s, now := db.sessions[sid], NormalizeTime(clock);
        && s.tokenHash == digest && s.revokedAt.None? && s.expiresAt >= now + SECOND
        && s.userId in db.users && db.users[s.userId].status in {Pending, Active, Muted, Frozen}
        && (if NormalizeTime(s.expiresAt) < now + cfg.accessTTL then NormalizeTime(s.expiresAt)
            else now + cfg.accessTTL) != ZERO_TIME)
  }

  lemma CurrentIsAccepted(cfg: Config, db: Db, c: Call, env: Env)
    requires c.Refresh? && c.sessionId > 0 && Current(cfg, db, c.sessionId, c.candidate, env.clock)
    requires c.ownerId == db.sessions[c.sessionId].userId
    ensures |env.hash| == 32 ==> Exec(cfg, db, c, env).Ok?
  {
    if |env.hash| == 32 {
      NormalizedIsWhole(env.clock);
      EndsLater(db.sessions[c.sessionId].expiresAt, NormalizeTime(env.clock));
      RefreshAccepted(cfg, db, c, env);
    }
  }

  /** A refresh from a raw token: parse it, look up the owner of its session, and rotate. */
  method Refresh(repo: Repository, cfg: Config, raw: string, requestId: string, clock: Time, mint: Mint,
                 secretSource: seq<Byte>, jwtSource: seq<Byte>)
    returns (r: Outcome<Reply>, tokens: Option<TokenPair>, ghost c: Call)
    requires cfg.Valid() && Sound(repo.committed) && !repo.failed
    modifies repo
    // A formatted token leads to the transaction if its session is stored, active or not.
    ensures forall id: nat, secret: seq<Byte> |
      1 <= id <= MAX_INT64 && |secret| == 32 && FormatRefreshToken(id, Encode(secret)) == Ok(raw) ::
        if id in old(repo.committed).sessions then
          || c == Call.Refresh(id, mint.sha(secret), old(repo.committed).sessions[id].userId, requestId)
          || (!c.Refresh? && r == Err(Internal) && repo.failed)
        else !c.Refresh? && (r == Err(InvalidRefreshToken) || (r == Err(Internal) && repo.failed))
    // Any other string is refused outright.
    ensures (forall id: nat, secret: seq<Byte> | 1 <= id <= MAX_INT64 && |secret| == 32 ::
               FormatRefreshToken(id, Encode(secret)) != Ok(raw)) ==>
      !c.Refresh? && r == Err(InvalidRefreshToken)
    ensures !c.Refresh? ==> r.Err? && repo.committed == old(repo.committed)
    ensures c.Refresh? ==>
      Carried(cfg, old(repo.committed), repo.committed, c, EnvOf(clock, 0, mint, secretSource), r,
              repo.failed || !EnoughRandomness(secretSource, jwtSource))
    // On healthy rows the current token of a live session is accepted.
    ensures forall id: nat, secret: seq<Byte> |
      1 <= id <= MAX_INT64 && |secret| == 32 && FormatRefreshToken(id, Encode(secret)) == Ok(raw) ::
        (&& Current(cfg, old(repo.committed), id, mint.sha(secret), clock) && !repo.failed
         && |secretSource| >= 32 && |jwtSource| >= 16 && |mint.sha(secretSource[..32])| == 32) ==> r.Ok?
    ensures r.Ok? ==>
      && GrantOf(r.value).Some? && tokens.Some?
      && CarriesGrant(mint, secretSource, jwtSource, GrantOf(r.value).value, tokens.value)
  {
    tokens := None;
    c := Promote(0);
    var parsed := ParseRefreshToken(raw);
    forall id: nat, secret: seq<Byte>
      ensures parsed == Some((id, secret))
        <==> 1 <= id <= MAX_INT64 && |secret| == 32 && FormatRefreshToken(id, Encode(secret)) == Ok(raw)
    {
      ParseIsInverseOfFormat(raw, id, secret);
    }
    if parsed.None? {
      return Err(InvalidRefreshToken), None, c;
    }
    var sessionId, secret := parsed.value.0, parsed.value.1;
    var fault := repo.Fails();
    if fault {
      return Err(Internal), None, c;
    }
    if sessionId !in repo.committed.sessions {
      return Err(InvalidRefreshToken), None, c;
    }
    var ownerId := repo.committed.sessions[sessionId].userId;
    if ownerId <= 0 {
      return Err(Internal), None, c;
    }
    var call := Call.Refresh(sessionId, mint.sha(secret), ownerId, requestId);
    c := call;
    ghost var db := repo.committed;
    r, tokens := RefreshTransaction(repo, cfg, call, clock, 0, mint, secretSource, jwtSource);
    if Current(cfg, db, sessionId, mint.sha(secret), clock) {
      CurrentIsAccepted(cfg, db, call, EnvOf(clock, 0, mint, secretSource));
    }
  }

  /** The refresh token that a login or refresh hands out names its session, and presents the digest
      that the call stored. */
  lemma IssuedTokenPresentsStoredDigest(mint: Mint, secretSource: seq<Byte>, sessionId: Id, refresh: string)
    requires HoldsSecret(secretSource, sessionId, refresh) && sessionId <= MAX_INT64
    ensures ParseRefreshToken(refresh) == Some((sessionId, secretSource[..REFRESH_SECRET_BYTES]))
    ensures mint.sha(secretSource[..REFRESH_SECRET_BYTES]) == EnvOf(0, 0, mint, secretSource).hash
  {
    var secret := secretSource[..REFRESH_SECRET_BYTES];
    FormatSucceeds(sessionId, secret);
    ParseIsInverseOfFormat(refresh, sessionId, secret);
  }

  /** After any run, the token that its latest login or refresh of a session handed out is accepted, as long as
      the session lives and its owner may log in. */
  lemma LatestTokenIsAccepted(cfg: Config, start: Db, h: seq<Committed>, sid: nat, secret: seq<Byte>, mint: Mint,
                              requestId: string, env: Env)
    requires Good(start) && Run(cfg, start, h).Some? && 1 <= sid <= MAX_INT64 && |secret| == 32 && |env.hash| == 32
    requires LatestDigest(start, h, sid) == Some(mint.sha(secret))
    requires sid in Run(cfg, start, h).value.sessions
    requires var db := Run(cfg, start, h).value;
      Current(cfg, db, sid, db.sessions[sid].tokenHash, env.clock)
    ensures var db := Run(cfg, start, h).value;
      && ParseRefreshToken(Print(sid) + "." + Encode(secret)) == Some((sid, secret))
      && Exec(cfg, db, Call.Refresh(sid, mint.sha(secret), db.sessions[sid].userId, requestId), env).Ok?
  {
    var db := Run(cfg, start, h).value;
    FormattedParses(sid, secret);
    StoredDigestIsLatest(cfg, start, h, sid);
    CurrentIsAccepted(cfg, db, Call.Refresh(sid, mint.sha(secret), db.sessions[sid].userId, requestId), env);
  }

  /** The tokens of a grant, letter by letter: the claims name its user and session and its two instants, and the
      refresh token is the session id, a dot and the first 32 bytes of the secret source. */
  lemma GrantedTokens(mint: Mint, secretSource: seq<Byte>, jwtSource: seq<Byte>, g: Grant, tokens: TokenPair)
    requires CarriesGrant(mint, secretSource, jwtSource, g, tokens)
    ensures |secretSource| >= 32 && |jwtSource| >= 16 && g.userId > 0 && g.sessionId > 0
    ensures tokens.refresh == Print(g.sessionId) + "." + Encode(secretSource[..32])
    ensures tokens.access == Claims(mint.manager.issuer, Print(g.userId), [mint.manager.audience],
                                    Some(Unix(g.issuedAt)), Some(Unix(g.expiresAt)),
                                    Encode(jwtSource[..16]), Print(g.sessionId))
  {
  }

  /** The access token of a grant authenticates its user and session from 30 seconds before its issue until
      its end. */
  lemma GrantedAccessIsAccepted(mint: Mint, secretSource: seq<Byte>, jwtSource: seq<Byte>, g: Grant, tokens: TokenPair,
                                now: Time)
    requires CarriesGrant(mint, secretSource, jwtSource, g, tokens) && now != ZERO_TIME
    requires g.userId <= MAX_INT64 && g.sessionId <= MAX_INT64
    requires g.issuedAt % SECOND == 0 && g.expiresAt % SECOND == 0
    ensures Verify(mint.manager, tokens.access, now)
      == if g.issuedAt <= now + 30 * SECOND && now < g.expiresAt then Some(Principal(g.userId, g.sessionId)) else None
  {
    VerifyAcceptsSigned(mint.manager, g.userId, g.sessionId, g.issuedAt, g.expiresAt, jwtSource[..16], now);
  }

  /** Without a fault, 32 bytes of randomness for the secret and 16 for the token id are enough. */
  lemma RandomnessNeeded(secretSource: seq<Byte>, jwtSource: seq<Byte>)
    ensures EnoughRandomness(secretSource, jwtSource) <==> |secretSource| >= 32 && |jwtSource| >= 16
  {
  }

  /** A registration: invalid fields are refused, then the password is hashed, and one row is inserted. */
  method Register(repo: Repository, cfg: Config, hasher: Hasher, email: string, password: string, displayName: string,
                  clock: Time)
    returns (r: Outcome<Reply>)
    requires Sound(repo.committed) && repo.SequencesAhead() && !repo.failed
    modifies repo
    ensures
      if !cfg.emailOk(email) || !(8 <= |password| <= 72) || !cfg.nameOk(displayName) then
        r == Err(ValidationFailed) && repo.committed == old(repo.committed)
      else match hasher.hash(password)
        case None => r == Err(Internal) && repo.committed == old(repo.committed)
        case Some(hash) =>
          Carried(cfg, old(repo.committed), repo.committed, Call.Register(email, hash, displayName),
                  Env(clock, old(repo.nextUserId), []), r, repo.failed)
  {
    if !cfg.emailOk(email) || !PasswordOk(password) || !cfg.nameOk(displayName) {
      return Err(ValidationFailed);
    }
    var hash := hasher.hash(password);
    if hash.None? {
      return Err(Internal);
    }
    r := InsertUser(repo, cfg, Call.Register(email, hash.value, displayName), clock);
  }

  method InsertUser(repo: Repository, cfg: Config, c: Call, clock: Time) returns (r: Outcome<Reply>)
    requires c.Register? && Precheck(cfg, c) == Pass && Sound(repo.committed) && repo.SequencesAhead() && !repo.failed
    modifies repo
    ensures Carried(cfg, old(repo.committed), repo.committed, c, Env(clock, old(repo.nextUserId), []), r, repo.failed)
  {
    var sampled := SampleNow(clock);
    if sampled.Err? {
      return Err(sampled.error);
    }
    ghost var was := repo.committed;
    var user := repo.CreateUser(c.email, c.passwordHash, c.displayName, sampled.value);
    if user.Err? {
      return Err(user.error);
    }
    assert repo.committed.users == was.users + map[user.value.id := user.value];
    assert repo.committed.sessions == was.sessions + map[];
    return Ok(Registered(SecretFree(user.value)));
  }

  /** A logout: one conditional update, which also succeeds when it finds nothing to revoke. */
  method Logout(repo: Repository, cfg: Config, c: Call, clock: Time) returns (r: Outcome<Reply>)
    requires c.Logout? && Sound(repo.committed) && !repo.failed
    modifies repo
    ensures Carried(cfg, old(repo.committed), repo.committed, c, Env(clock, 0, []), r, repo.failed)
  {
    if c.userId <= 0 || c.sessionId <= 0 {
      return Err(Internal);
    }
    var sampled := SampleNow(clock);
    if sampled.Err? {
      return Err(sampled.error);
    }
    ghost var was := repo.committed;
    assert SelectUsers(was.users, {}) == map[];
    var revoked := repo.RevokeSession(c.userId, c.sessionId, sampled.value);
    if revoked.Err? {
      ghost var selected := SelectSessions(was.sessions, OwnActive(c.sessionId, c.userId));
      if sid :| sid in selected && !SessionRowOk(selected[sid].(revokedAt := Some(sampled.value))) {
        UnfitRevocationFailsLogout(Env(clock, 0, []), sampled.value, selected, sid);
      }
      return Err(Internal);
    }
    assert repo.committed.users == was.users + map[];
    return Ok(LoggedOut);
  }

  /** The transaction behind a read that saw a lapsed mute. */
  method RecoverBody(repo: Repository, cfg: Config, c: Call) returns (r: Outcome<Reply>)
    requires c.RecoverMute? && Sound(repo.staged) && ValidAuthTime(c.now)
    modifies repo`staged, repo`faults, repo`failed
    ensures Drafted(old(repo.staged), repo.staged,
                    DecideRecoverMute(cfg, c, SelectUsers(old(repo.staged).users, {c.userId})), r, repo.failed)
    ensures r.Ok? ==> r.value.Viewed? && ValidUserStructure(cfg, r.value.user, c.userId, true)
  {
    ghost var was := repo.staged;
    OneUserInOrder(repo.staged.users, c.userId);
    var users := repo.LockUsers([c.userId]);
    if users.Err? {
      return Err(Internal);
    }
    if |users.value| == 0 {
      return Err(NotFound);
    }
    if |users.value| != 1 || users.value[0].id != c.userId {
      return Err(Internal);
    }
    var current := users.value[0];
    if !ValidUserStructure(cfg, current, c.userId, false) {
      return Err(Internal);
    }
    var recovery := RecoverForAuth(repo, current, c.now, c.requestId);
    if recovery.Err? {
      return Err(Internal);
    }
    if !ValidUserStructure(cfg, recovery.value.0, c.userId, false) {
      return Err(Internal);
    }
    var inserted := InsertAudits(repo, recovery.value.1);
    if !inserted {
      return Err(Internal);
    }
    assert repo.staged.users == was.users + map[c.userId := recovery.value.0];
    assert repo.staged.sessions == was.sessions + map[];
    return Ok(Viewed(SecretFree(recovery.value.0)));
  }

  /** A lapsed mute of the user has ended, with one entry; without one the database is as it was. */
  ghost predicate RecoveredWith(db: Db, db': Db, id: Id, now: Time, requestId: string)
    requires id in db.users
  {
    var u := db.users[id];
    if u.status == Muted && u.mutedUntil.Some? && u.mutedUntil.value <= now then
      && db'.users == db.users[id := u.(status := Active, mutedUntil := None, updatedAt := now)]
      && db'.sessions == db.sessions
      && db'.audits
         == db.audits + [AuditEntry(MuteExpired, None, id, Muted, Active, u.mutedUntil, None, "", requestId, now)]
    else db' == db
  }

  lemma RecoveryOutcome(cfg: Config, db: Db, db': Db, c: Call, env: Env, r: Outcome<Reply>, failed: bool)
    requires Sound(db) && c.RecoverMute? && Carried(cfg, db, db', c, env, r, failed)
    ensures r.Ok? ==>
      && c.userId in db.users && c.userId in db'.users && r == Ok(Viewed(db'.users[c.userId].(passwordHash := "")))
      && RecoveredWith(db, db', c.userId, c.now, c.requestId)
    ensures c.userId > 0 && c.now % SECOND == 0 && HealthyRows(cfg, db, c.now) && c.userId in db.users && !failed ==>
      r.Ok?
  {
    if r.Ok? {
      RecoverMuteVerdict(cfg, db, c, env, Exec(cfg, db, c, env).value);
      RecoverMuteEffect(cfg, db, c, env, Exec(cfg, db, c, env).value);
    }
    if HealthyRows(cfg, db, c.now) {
      RecoverMuteAccepted(cfg, db, c, env);
    }
  }

  /** Recovers a lapsed mute that an earlier read observed; the check after the commit never fails. */
  method RecoverExpiredMuteAfterRead(repo: Repository, cfg: Config, observed: User, now: Time, requestId: string)
    returns (r: Outcome<User>)
    requires Sound(repo.committed) && !repo.failed && observed.id > 0
    requires ValidAuthTime(now) && NormalizeTime(now) == now
    modifies repo
    ensures !(observed.status == Muted && observed.mutedUntil.Some? && observed.mutedUntil.value <= now) ==>
      r == Ok(observed.(passwordHash := "")) && repo.committed == old(repo.committed)
    // A lapsed mute is ended if the stored one has lapsed too, and the stored user is returned without the hash.
    ensures observed.status == Muted && observed.mutedUntil.Some? && observed.mutedUntil.value <= now && r.Ok? ==>
      && observed.id in repo.committed.users
      && r.value == repo.committed.users[observed.id].(passwordHash := "")
    ensures (&& observed.status == Muted && observed.mutedUntil.Some? && observed.mutedUntil.value <= now
             && HealthyRows(cfg, old(repo.committed), now) && observed.id in old(repo.committed).users
             && !repo.failed) ==>
      r.Ok? && RecoveredWith(old(repo.committed), repo.committed, observed.id, now, requestId)
    ensures MuteIsOver(observed, now) ==>
      Carried(cfg, old(repo.committed), repo.committed, RecoverMute(observed.id, now, requestId), Env(0, 0, []),
              if r.Ok? then Ok(Viewed(r.value)) else Err(r.error), repo.failed)
    ensures MuteIsOver(observed, now) && r.Ok? ==> MuteIsCurrent(r.value, now)
  {
    if !MuteIsOver(observed, now) {
      return Ok(SecretFree(observed));
    }
    var c := RecoverMute(observed.id, now, requestId);
    ghost var was := repo.committed;
    NoRowsSelected(was.sessions);
    var begun := repo.Begin();
    if !begun {
      return Err(Internal);
    }
    var reply := RecoverBody(repo, cfg, c);
    reply := repo.Finish(reply);
    RecoveryOutcome(cfg, was, repo.committed, c, Env(0, 0, []), reply, repo.failed);
    if reply.Err? {
      return Err(reply.error);
    }
    var latest := reply.value.user;
    if !ValidUserStructure(cfg, latest, observed.id, true) {
      return Err(Internal);
    }
    return Ok(latest);
  }

  /** The checks on the session and the user that an authenticated request has observed; yields the
      instant of the request. */
  function AdmitRequest(cfg: Config, userId: Id, sessionId: Id, session: Session, user: User, clock: Time)
    : Outcome<Time>
  {
    var named := userId > 0 && sessionId > 0;
    :- Need(named, SessionInvalid);
    :- Need(ValidSessionStructure(session, sessionId), Internal);
    :- Need(session.userId == userId && session.revokedAt.None?, SessionInvalid);
    :- StrictUserCheck(cfg, user, session.userId, true);
    var now :- SampleNow(clock);
    :- Need(NormalizeTime(session.expiresAt) > now, SessionInvalid);
    Ok(now)
  }

  /** What becomes of a request whose user had a lapsed mute, once that has been dealt with. */
  function AfterRecovery(cfg: Config, userId: Id, recovery: Outcome<Reply>): Outcome<User> {
    match recovery
    case Ok(Viewed(user)) =>
      :- StrictUserCheck(cfg, user, userId, true);
      Ok(user)
    case Err(NotFound) => Err(SessionInvalid)
    case _ => Err(Internal)
  }

  /** Whoever a request is let through as is neither banned nor deleted, and is muted only as long as
      the mute lasts. */
  lemma AdmittedUserIsFit(cfg: Config, userId: Id, sessionId: Id, session: Session, user: User, clock: Time)
    requires AdmitRequest(cfg, userId, sessionId, session, user, clock).Ok?
    ensures var now := NormalizeTime(clock);
      && user.id == userId == session.userId && user.passwordHash == ""
      && session.id == sessionId && session.revokedAt.None? && NormalizeTime(session.expiresAt) > now
      && !user.status.Expelled() && user.deletedAt.None?
      && (!MuteIsOver(user, now) ==> MuteIsCurrent(user, now))
  {
  }

  /** The outcome of a request for the session and the user that it has observed; only a lapsed mute
      makes it touch the database, through the recovery whose reply is `recovery`. */
  ghost predicate AuthenticatedAs(cfg: Config, before: Db, after: Db, userId: Id, sessionId: Id,
                                  session: Session, user: User, requestId: string, clock: Time,
                                  r: Outcome<User>, recovery: Outcome<Reply>, failed: bool)
  {
    var admitted := AdmitRequest(cfg, userId, sessionId, session, user, clock);
    if admitted.Err? then r == Err(admitted.error) && after == before
    else if !MuteIsOver(user, admitted.value) then r == Ok(user) && after == before
    else
      && r == AfterRecovery(cfg, userId, recovery)
      && Carried(cfg, before, after, RecoverMute(userId, admitted.value, requestId), Env(0, 0, []), recovery, failed)
  }

  lemma NobodyToRecover(cfg: Config, db: Db, c: Call, env: Env)
    requires c.RecoverMute? && Precheck(cfg, c) == Pass
    ensures c.userId !in db.users ==> Exec(cfg, db, c, env) == Err(NotFound)
  {
  }

  /** The part of an authentication that follows the lookup. The rows were read without a lock and may
      be out of date by now, so they are arbitrary here. */
  method AuthenticateObserved(repo: Repository, cfg: Config, userId: Id, sessionId: Id, session: Session, user: User,
                              requestId: string, clock: Time)
    returns (r: Outcome<User>, ghost recovery: Outcome<Reply>)
    requires Sound(repo.committed) && !repo.failed
    modifies repo
    ensures AuthenticatedAs(cfg, old(repo.committed), repo.committed, userId, sessionId, session, user,
                            requestId, clock, r, recovery, repo.failed)
    // A user who is gone by the time of the recovery makes the session invalid.
    ensures (&& AdmitRequest(cfg, userId, sessionId, session, user, clock).Ok? && MuteIsOver(user, NormalizeTime(clock))
             && userId !in old(repo.committed).users && !repo.failed) ==> r == Err(SessionInvalid)
    ensures r.Ok? ==>
      || (r.value == user && repo.committed == old(repo.committed))
      || (userId in repo.committed.users && r.value == repo.committed.users[userId].(passwordHash := ""))
    ensures r.Ok? ==>
      && r.value.id == userId && r.value.passwordHash == ""
      && !r.value.status.Expelled() && r.value.deletedAt.None? && MuteIsCurrent(r.value, NormalizeTime(clock))
  {
    recovery := Ok(LoggedOut);
    var now :- AdmitRequest(cfg, userId, sessionId, session, user, clock);
    AdmittedUserIsFit(cfg, userId, sessionId, session, user, clock);
    if !MuteIsOver(user, now) {
      return Ok(SecretFree(user)), recovery;
    }
    NobodyToRecover(cfg, repo.committed, RecoverMute(userId, now, requestId), Env(0, 0, []));
    var latest := RecoverExpiredMuteAfterRead(repo, cfg, user, now, requestId);
    if latest.Err? {
      return Err(if latest.error.NotFound? then SessionInvalid else Internal), Err(latest.error);
    }
    recovery := Ok(Viewed(latest.value));
    var check := StrictUserCheck(cfg, latest.value, userId, true);
    if check.Fail? {
      return Err(check.error), recovery;
    }
    return latest, recovery;
  }

  /** A session with its owner, as the lookup of a request joins them: without the password hash. */
  method FindAuthenticationState(repo: Repository, sessionId: Id) returns (r: Outcome<(Session, User)>)
    modifies repo`faults, repo`failed
    ensures r.Ok? ==>
      && sessionId in repo.committed.sessions && r.value.0 == repo.committed.sessions[sessionId]
      && r.value.0.userId in repo.committed.users
      && r.value.1 == repo.committed.users[r.value.0.userId].(passwordHash := "")
      && repo.failed == old(repo.failed)
    ensures r.Err? ==>
      || (r == Err(Internal) && repo.failed)
      || (r == Err(NotFound) && repo.failed == old(repo.failed)
          && (sessionId !in repo.committed.sessions
              || repo.committed.sessions[sessionId].userId !in repo.committed.users))
  {
    var fault := repo.Fails();
    if fault {
      return Err(Internal);
    }
    if sessionId !in repo.committed.sessions {
      return Err(NotFound);
    }
    var session := repo.committed.sessions[sessionId];
    if session.userId !in repo.committed.users {
      return Err(NotFound);
    }
    return Ok((session, SecretFree(repo.committed.users[session.userId])));
  }

  /** The checks of a request on healthy rows. */
  lemma AdmittedOnHealthyRows(cfg: Config, db: Db, userId: Id, sessionId: Id, clock: Time)
    requires HealthyRows(cfg, db, clock) && sessionId in db.sessions
    ensures var s, now := db.sessions[sessionId], NormalizeTime(clock);
      AdmitRequest(cfg, userId, sessionId, s, db.users[s.userId].(passwordHash := ""), clock)
      == if s.userId != userId || s.revokedAt.Some? || s.expiresAt < now + SECOND
           || db.users[s.userId].status in {Banned, Deleted} then Err(SessionInvalid)
         else Ok(now)
  {
    NormalizedIsWhole(clock);
    EndsLater(db.sessions[sessionId].expiresAt, NormalizeTime(clock));
  }

  /** The checks of a request on malformed rows, which are internal errors: first the session, then whether it is
      the user's own and active, then the user. */
  lemma MalformedRequest(cfg: Config, db: Db, userId: Id, sessionId: Id, clock: Time)
    requires Sound(db) && userId > 0 && sessionId > 0 && sessionId in db.sessions
    ensures var s := db.sessions[sessionId];
      var r := AdmitRequest(cfg, userId, sessionId, s, db.users[s.userId].(passwordHash := ""), clock);
      if MalformedSession(s) then r == Err(Internal)
      else if s.userId != userId || s.revokedAt.Some? then r == Err(SessionInvalid)
      else MalformedUser(cfg, db.users[userId]) ==> r == Err(Internal)
  {
    MalformedSessionIsInvalid(db, sessionId);
    MalformedUserIsInvalid(cfg, db, db.sessions[sessionId].userId);
  }

  lemma HealthyAtTheSecond(cfg: Config, db: Db, clock: Time)
    requires HealthyRows(cfg, db, clock)
    ensures HealthyRows(cfg, db, NormalizeTime(clock)) && NormalizeTime(clock) % SECOND == 0
  {
    NowIsWholeSecond(clock);
    NowIsWholeSecond(NormalizeTime(clock));
  }

  /** What an authentication on healthy rows comes to: the session must be the user's own, not revoked and not
      over, and the user neither banned nor deleted; a lapsed mute has ended before the user is returned. */
  ghost predicate AuthenticationAnswer(db: Db, db': Db, userId: Id, sessionId: Id, requestId: string, clock: Time,
                                       r: Outcome<User>)
  {
    var now := NormalizeTime(clock);
    if userId <= 0 || sessionId <= 0 || sessionId !in db.sessions || db.sessions[sessionId].userId != userId
      || db.sessions[sessionId].revokedAt.Some? || db.sessions[sessionId].expiresAt < now + SECOND
      || userId !in db.users || db.users[userId].status in {Banned, Deleted} then
      r == Err(SessionInvalid) && db' == db
    else
      && RecoveredWith(db, db', userId, now, requestId)
      && userId in db'.users && r == Ok(db'.users[userId].(passwordHash := ""))
  }

  lemma AuthenticatedOnHealthyRows(cfg: Config, db: Db, db': Db, userId: Id, sessionId: Id, requestId: string,
                                   clock: Time, r: Outcome<User>, recovery: Outcome<Reply>)
    requires HealthyRows(cfg, db, clock) && userId > 0 && sessionId > 0 && sessionId in db.sessions
    requires var s := db.sessions[sessionId];
      AuthenticatedAs(cfg, db, db', userId, sessionId, s, db.users[s.userId].(passwordHash := ""),
                      requestId, clock, r, recovery, false)
    ensures AuthenticationAnswer(db, db', userId, sessionId, requestId, clock, r)
  {
    var s, now := db.sessions[sessionId], NormalizeTime(clock);
    AdmittedOnHealthyRows(cfg, db, userId, sessionId, clock);
    if AdmitRequest(cfg, userId, sessionId, s, db.users[s.userId].(passwordHash := ""), clock).Ok?
       && MuteIsOver(db.users[s.userId], now) {
      HealthyAtTheSecond(cfg, db, clock);
      RecoveryOutcome(cfg, db, db', RecoverMute(userId, now, requestId), Env(0, 0, []), recovery, false);
    }
  }

  /** The authentication of a request: the lookup of its session and user, and what follows from them. */
  method Authenticate(repo: Repository, cfg: Config, userId: Id, sessionId: Id, requestId: string, clock: Time)
    returns (r: Outcome<User>, ghost recovery: Outcome<Reply>)
    requires Sound(repo.committed) && !repo.failed
    modifies repo
    ensures HealthyRows(cfg, old(repo.committed), clock) && !repo.failed ==>
      AuthenticationAnswer(old(repo.committed), repo.committed, userId, sessionId, requestId, clock, r)
    ensures r.Ok? ==>
      && userId in repo.committed.users && r.value == repo.committed.users[userId].(passwordHash := "")
      && r.value.status !in {Banned, Deleted} && r.value.deletedAt.None?
      && (r.value.status == Muted ==> r.value.mutedUntil.Some? && r.value.mutedUntil.value > NormalizeTime(clock))
    ensures var db := old(repo.committed);
      if userId <= 0 || sessionId <= 0 then r == Err(SessionInvalid) && repo.committed == db
      else
        || (r == Err(Internal) && repo.failed && repo.committed == db)
        || (sessionId !in db.sessions && r == Err(SessionInvalid) && repo.committed == db)
        || (sessionId in db.sessions
            && AuthenticatedAs(cfg, db, repo.committed, userId, sessionId, db.sessions[sessionId],
                               db.users[db.sessions[sessionId].userId].(passwordHash := ""),
                               requestId, clock, r, recovery, repo.failed))
  {
    recovery := Ok(LoggedOut);
    ghost var db := repo.committed;
    if userId <= 0 || sessionId <= 0 {
      return Err(SessionInvalid), recovery;
    }
    var state := FindAuthenticationState(repo, sessionId);
    if state.Err? {
      return Err(if state.error.NotFound? then SessionInvalid else Internal), recovery;
    }
    r, recovery := AuthenticateObserved(repo, cfg, userId, sessionId, state.value.0, state.value.1, requestId, clock);
    if HealthyRows(cfg, db, clock) && !repo.failed {
      AuthenticatedOnHealthyRows(cfg, db, repo.committed, userId, sessionId, requestId, clock, r, recovery);
    }
  }
}
