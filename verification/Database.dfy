/** The stored state: users, sessions and the append-only audit log. */
module Database {
  import opened Wrappers
  import opened Domain

  datatype Db = Db(users: map<Id, User>, sessions: map<Id, Session>, audits: seq<AuditEntry>)

  /** What one transaction leaves behind: new versions of rows, new rows, and appended audit entries. */
  datatype Delta = Delta(users: map<Id, User>, sessions: map<Id, Session>, audits: seq<AuditEntry>)

  const NO_CHANGE := Delta(map[], map[], [])

  function Apply(db: Db, d: Delta): Db {
    Db(db.users + d.users, db.sessions + d.sessions, db.audits + d.audits)
  }

  /** Every row is stored under its own id, and satisfies its table constraints. */
  ghost predicate Sound(db: Db) {
    && (forall id <- db.users :: db.users[id].id == id && UserRowOk(db.users[id]))
    && (forall id <- db.sessions :: db.sessions[id].id == id && SessionRowOk(db.sessions[id]))
    && (forall id <- db.sessions :: db.sessions[id].userId in db.users)
  }

  predicate EmailTaken(db: Db, email: string) {
    exists id <- db.users :: db.users[id].email == email
  }

  function SelectUsers(users: map<Id, User>, ids: set<Id>): map<Id, User> {
    map id | id in users && id in ids :: users[id]
  }

  /** The row condition of a statement on user_sessions:
      `Rows` selects by session id or as an active session of a listed user, and
      `OwnActive` is the condition of the single-row revocation of a logout. */
  datatype Condition =
    | NoRows
    | Rows(ids: set<Id>, activeOf: set<Id>)
    | OwnActive(id: Id, userId: Id)

  predicate Matches(c: Condition, s: Session) {
    match c
    case NoRows => false
    case Rows(ids, activeOf) => s.id in ids || (s.userId in activeOf && s.revokedAt.None?)
    case OwnActive(id, userId) => s.id == id && s.userId == userId && s.revokedAt.None?
  }

  function SelectSessions(sessions: map<Id, Session>, c: Condition): map<Id, Session> {
    map id | id in sessions && Matches(c, sessions[id]) :: sessions[id]
  }

  function RevokeAll(sessions: map<Id, Session>, at: Time): map<Id, Session> {
    map id | id in sessions :: sessions[id].(revokedAt := Some(at))
  }
}
