/** The rows of the identity tables, their table constraints, and the checks the service runs on them. */
module Domain {
  import opened Wrappers

  type Id = int

  /** An instant, in nanoseconds since the Unix epoch. */
  type Time = int

  type Byte = b: int | 0 <= b < 256

  /** The bytes of a SHA-256 digest. */
  type Digest = seq<Byte>

  const SECOND: Time := 1_000_000_000

  /** The zero instant, 0001-01-01T00:00:00Z. */
  const ZERO_TIME: Time := -62_135_596_800 * SECOND

  /** 0000-01-01T00:00:00Z. */
  const YEAR_ZERO: Time := -62_167_219_200 * SECOND

  /** 10000-01-01T00:00:00Z. */
  const YEAR_TEN_THOUSAND: Time := 253_402_300_800 * SECOND

  /** Truncation to the second, which rounds towards the past also before the epoch. */
  function NormalizeTime(t: Time): Time {
    t - t % SECOND
  }

  /** Whole seconds since the epoch. */
  function Unix(t: Time): int {
    t / SECOND
  }

  predicate InYearRange(t: Time) {
    YEAR_ZERO <= t < YEAR_TEN_THOUSAND
  }

  predicate ValidAuthTime(t: Time) {
    NormalizeTime(t) != ZERO_TIME && InYearRange(NormalizeTime(t))
  }

  /** The instant a call works with: the clock reading in whole seconds, refused when out of range. */
  function SampleNow(clock: Time): Outcome<Time> {
    if ValidAuthTime(clock) then Ok(NormalizeTime(clock)) else Err(Internal)
  }

  predicate ValidExpiry(now: Time, expiresAt: Time) {
    expiresAt > now && InYearRange(expiresAt)
  }

  datatype Role = RoleUser | RoleAdmin

  datatype Status = Pending | Active | Muted | Frozen | Banned | Deleted {
    predicate CanLogin() {
      Pending? || Active? || Muted? || Frozen?
    }

    predicate CanEditProfile() {
      Pending? || Active? || Muted?
    }

    predicate CanDeleteAccount() {
      Pending? || Active? || Muted?
    }

    /** The statuses that must own no active session. */
    predicate Expelled() {
      Banned? || Deleted?
    }
  }

  datatype User = User(
    id: Id,
    email: string,
    passwordHash: string,
    displayName: string,
    bio: string,
    role: Role,
    status: Status,
    mutedUntil: Option<Time>,
    violationCount: int,
    createdAt: Time,
    updatedAt: Time,
    deletedAt: Option<Time>)

  datatype Session = Session(
    id: Id,
    userId: Id,
    tokenHash: Digest,
    expiresAt: Time,
    revokedAt: Option<Time>,
    createdAt: Time)

  datatype Action = MuteExpired | StatusChanged

  /** One row of the audit log; both actions record the status pair of the target before and after. */
  datatype AuditEntry = AuditEntry(
    action: Action,
    actorId: Option<Id>,
    targetId: Id,
    oldStatus: Status,
    newStatus: Status,
    oldMutedUntil: Option<Time>,
    newMutedUntil: Option<Time>,
    reason: string,
    requestId: string,
    createdAt: Time)

  /** The settings of the service; the two text validators are opaque predicates of it. */
  datatype Config = Config(
    accessTTL: Time,
    refreshTTL: Time,
    emailOk: string -> bool,
    nameOk: string -> bool)
  {
    /** What the constructor of the service checks before it accepts a configuration. */
    predicate Valid() {
      && accessTTL >= SECOND && accessTTL % SECOND == 0
      && refreshTTL >= SECOND && refreshTTL % SECOND == 0
      && refreshTTL > accessTTL
    }
  }

  /** The CHECK constraints of the users table, without those on the spelling of email and name. */
  predicate UserRowOk(u: User) {
    && u.id > 0
    && u.email != "" && u.passwordHash != ""
    && 1 <= |u.displayName| <= 100
    && |u.bio| <= 1000
    && u.violationCount >= 0
    && u.updatedAt >= u.createdAt
    && (u.deletedAt.Some? ==> u.deletedAt.value >= u.createdAt)
    && (u.status.Muted? <==> u.mutedUntil.Some?)
    && (u.status.Deleted? <==> u.deletedAt.Some?)
  }

  /** The CHECK constraints of the user_sessions table. */
  predicate SessionRowOk(s: Session) {
    && s.id > 0
    && |s.tokenHash| == 32
    && s.expiresAt > s.createdAt
    && (s.revokedAt.Some? ==> s.revokedAt.value >= s.createdAt)
  }

  predicate ValidUserFields(cfg: Config, u: User, expectedId: Id, secretFree: bool) {
    && u.id > 0 && u.id == expectedId
    && (secretFree ==> u.passwordHash == "")
    && cfg.emailOk(u.email)
    && cfg.nameOk(u.displayName)
    && |u.bio| <= 1000 && u.violationCount >= 0
    && ValidAuthTime(u.createdAt) && ValidAuthTime(u.updatedAt) && u.updatedAt >= u.createdAt
    && (u.mutedUntil.Some? ==> ValidAuthTime(u.mutedUntil.value))
    && (u.deletedAt.Some? ==> ValidAuthTime(u.deletedAt.value) && u.deletedAt.value >= u.createdAt)
  }

  predicate ValidUserStructure(cfg: Config, u: User, expectedId: Id, secretFree: bool) {
    && ValidUserFields(cfg, u, expectedId, secretFree)
    && (u.mutedUntil.Some? <==> u.status.Muted?)
    && (u.deletedAt.Some? <==> u.status.Deleted?)
  }

  /** The authorization check on a user row that an authenticated call has read. */
  function StrictUserCheck(cfg: Config, u: User, expectedId: Id, secretFree: bool): Check {
    if !ValidUserFields(cfg, u, expectedId, secretFree) then Fail(Internal)
    else if u.deletedAt.Some? then Fail(SessionInvalid)
    else match u.status
      case Banned | Deleted => Fail(SessionInvalid)
      case Muted => Need(u.mutedUntil.Some?, Internal)
      case _ => Need(u.mutedUntil.None?, Internal)
  }

  predicate ValidSessionStructure(s: Session, sessionId: Id) {
    && s.id > 0 && s.id == sessionId && s.userId > 0
    && ValidAuthTime(s.createdAt) && ValidAuthTime(s.expiresAt)
    && NormalizeTime(s.expiresAt) > NormalizeTime(s.createdAt)
  }

  predicate MuteIsOver(u: User, now: Time) {
    u.status.Muted? && u.mutedUntil.Some? && u.mutedUntil.value <= now
  }

  /** A user that a call may act on: a mute still shown is still running. */
  predicate MuteIsCurrent(u: User, now: Time) {
    u.status.Muted? ==> u.mutedUntil.Some? && u.mutedUntil.value > now
  }

  /** The row of a newly registered user. */
  function NewUserRow(id: Id, email: string, passwordHash: string, displayName: string, now: Time): User {
    User(id, email, passwordHash, displayName, "", RoleUser, Active, None, 0, now, now, None)
  }

  function SecretFree(u: User): User {
    u.(passwordHash := "")
  }

  /** The administrative part of the status machine. */
  predicate ValidAdminTransition(from: Status, next: Status) {
    from.Pending? || from.Banned? ==> next.Active? || from == next
  }

  predicate ValidAdminStatus(s: Status) {
    s.Active? || s.Muted? || s.Frozen? || s.Banned?
  }

  function CheckStatusActor(actor: User): Check {
    if actor.deletedAt.Some? || actor.status.Expelled() then Fail(SessionInvalid)
    else if actor.role != RoleAdmin then Fail(AdminRequired)
    else if actor.status.Frozen? then Fail(UserFrozen)
    else Pass
  }

  function MuteExpiredEntry(u: User, now: Time, requestId: string): AuditEntry
  {
    AuditEntry(MuteExpired, None, u.id, Muted, Active, u.mutedUntil, None, "", requestId, now)
  }
}
