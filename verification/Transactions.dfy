/** How the calls of the service relate to `Exec` when they run against the repository. */
module Transactions {
  import opened Wrappers
  import opened Domain
  import opened Database
  import opened Protocol
  import opened Verdicts
  import opened Order
  import opened Repositories

  /** What one call made of the database and of its reply: exactly what `Exec` says, or, if an
      operation failed by plan, an internal error and no change at all. */
  ghost predicate Carried(cfg: Config, before: Db, after: Db, c: Call, env: Env, r: Outcome<Reply>, failed: bool) {
    match r
    case Ok(reply) =>
      && Exec(cfg, before, c, env).Ok?
      && reply == Exec(cfg, before, c, env).value.reply
      && after == Apply(before, Exec(cfg, before, c, env).value.delta)
    case Err(e) =>
      && after == before
      && (Exec(cfg, before, c, env) == Err(e) || (failed && e == Internal))
  }

  /** Field by field: without a fault the call has its reply and exactly its writes, or its error and none. */
  lemma CarriedInFull(cfg: Config, before: Db, after: Db, c: Call, env: Env, r: Outcome<Reply>, failed: bool)
    requires Carried(cfg, before, after, c, env, r, failed)
    ensures match Exec(cfg, before, c, env)
            case Ok(v) =>
              || (r == Ok(v.reply) && after.users == before.users + v.delta.users
                  && after.sessions == before.sessions + v.delta.sessions
                  && after.audits == before.audits + v.delta.audits)
              || (failed && r == Err(Internal) && after == before)
            case Err(e) => after == before && (r == Err(e) || (failed && r == Err(Internal)))
  {
  }

  /** The same for a transaction body, whose staged writes are dropped on an error. */
  ghost predicate Drafted(before: Db, after: Db, decision: Outcome<Verdict>, r: Outcome<Reply>, failed: bool) {
    match r
    case Ok(reply) =>
      decision.Ok? && reply == decision.value.reply && after == Apply(before, decision.value.delta)
    case Err(e) => decision == Err(e) || (failed && e == Internal)
  }

  /** A locking read of one user yields its row, if there is one. */
  lemma OneUserInOrder(users: map<Id, User>, id: Id)
    ensures UsersInOrder(users, SetOf([id])) == if id in users then [users[id]] else []
    ensures SelectUsers(users, {id}) == if id in users then map[id := users[id]] else map[]
  {
    var found := if id in users then [id] else [];
    var wanted := SetOf([id]) * users.Keys;
    assert forall x :: x in wanted <==> x in found;
    AscendingIsUnique(InOrder(wanted), found);
    forall x
      ensures x in SelectUsers(users, {id}) <==> x == id && id in users
    {
    }
  }

  lemma OneSessionSelected(sessions: map<Id, Session>, id: Id)
    requires forall sid <- sessions :: sessions[sid].id == sid
    ensures SelectSessions(sessions, Rows({id}, {})) == if id in sessions then map[id := sessions[id]] else map[]
  {
    var selected := SelectSessions(sessions, Rows({id}, {}));
    forall sid
      ensures sid in selected <==> sid == id && id in sessions
    {
      if sid in selected {
        assert sid in sessions;
      }
    }
  }

  lemma NoRowsSelected(sessions: map<Id, Session>)
    ensures SelectSessions(sessions, NoRows) == map[]
  {
    var selected := SelectSessions(sessions, NoRows);
    assert forall sid :: sid !in selected;
    assert selected.Keys == {};
  }

  function IdsOf(sessions: seq<Session>): (ids: seq<Id>)
    ensures |ids| == |sessions| && forall k | 0 <= k < |sessions| :: ids[k] == sessions[k].id
  {
    seq(|sessions|, k requires 0 <= k < |sessions| => sessions[k].id)
  }

  /** A locking read of sessions yields each selected row once, in ascending order of id. */
  lemma SelectedInOrder(sessions: map<Id, Session>, c: Condition)
    requires forall sid <- sessions :: sessions[sid].id == sid
    ensures var rows, selected := SessionsInOrder(sessions, c), SelectSessions(sessions, c);
      && Lists(IdsOf(rows), selected.Keys)
      && forall k | 0 <= k < |rows| :: rows[k].id in selected && selected[rows[k].id] == rows[k]
  {
    var ids := InOrder(SelectSessions(sessions, c).Keys);
    var rows := SessionsInOrder(sessions, c);
    forall k | 0 <= k < |rows|
      ensures IdsOf(rows)[k] == ids[k] && rows[k] == sessions[ids[k]]
    {
      assert ids[k] in sessions;
    }
    assert IdsOf(rows) == ids;
  }

  /** The errors of a transaction that the service hands on as they are. */
  function PassedOn(c: Call): set<Error> {
    match c
    case Login(_, _, _) => {InvalidCredentials}
    case Refresh(_, _, _, _) => {InvalidRefreshToken}
    case RecoverMute(_, _, _) => {NotFound}
    case UpdateMe(_, _, _, _, _) => {SessionInvalid, UserFrozen}
    case DeleteMe(_, _, _) => {SessionInvalid, UserFrozen}
    case ChangeStatus(_, _, _, _, _, _, _) =>
      {AdminRequired, AdminTargetForbidden, InvalidStatusTransition, UserFrozen, SessionInvalid, UserNotFound,
       ValidationFailed}
    case _ => {}
  }

  function Classified(c: Call, e: Error): Error {
    if e in PassedOn(c) then e else Internal
  }

  /** The classification after a transaction never rewrites an error: whatever a decision rejects
      with is passed on already. */
  lemma ClassificationIsIdentity(cfg: Config, c: Call, env: Env, users: map<Id, User>, sessions: map<Id, Session>)
    requires !c.Promote? && Decide(cfg, c, env, users, sessions).Err?
    ensures var e := Decide(cfg, c, env, users, sessions).error;
      Classified(c, e) == e
  {
    match c
    case ChangeStatus(_, _, _, _, _, _, _) => StatusErrors(cfg, c, env, users, sessions);
    case _ =>
  }

  lemma StatusErrors(cfg: Config, c: Call, env: Env, users: map<Id, User>, sessions: map<Id, Session>)
    requires c.ChangeStatus? && DecideChangeStatus(cfg, c, env, users, sessions).Err?
    ensures var e := DecideChangeStatus(cfg, c, env, users, sessions).error;
      Classified(c, e) == e
  {
  }

  /** Revoking a list of locked rows is revoking the selected set. */
  lemma RevokedAsSelected(all: map<Id, Session>, selected: map<Id, Session>, ids: seq<Id>, at: Time)
    requires SetOf(ids) == selected.Keys && selected.Keys <= all.Keys
    requires forall sid <- selected :: selected[sid] == all[sid] && selected[sid].revokedAt.None?
    ensures WithRevoked(all, SetOf(ids), at) == all + RevokeAll(selected, at)
    ensures (forall sid <- RevokeAll(selected, at) :: SessionRowOk(RevokeAll(selected, at)[sid]))
      <==> forall sid <- ids :: Revocable(all, sid, at)
  {
    assert forall sid :: sid in ids <==> sid in selected;
    var a, b := WithRevoked(all, SetOf(ids), at), all + RevokeAll(selected, at);
    assert forall sid :: sid in b <==> sid in all;
    assert forall sid | sid in all :: a[sid] == b[sid];
    assert a == b;
    if forall sid <- RevokeAll(selected, at) :: SessionRowOk(RevokeAll(selected, at)[sid]) {
      forall sid <- ids
        ensures Revocable(all, sid, at)
      {
        assert sid in RevokeAll(selected, at);
      }
    }
    if forall sid <- ids :: Revocable(all, sid, at) {
      forall sid <- RevokeAll(selected, at)
        ensures SessionRowOk(RevokeAll(selected, at)[sid])
      {
        assert sid in ids && Revocable(all, sid, at);
      }
    }
  }

  /** Revokes the selected sessions, which are locked and active: it fails only by plan or on a table
      constraint, never for a row that it does not find. */
  method RevokeSelected(repo: Repository, ids: seq<Id>, at: Time, ghost selected: map<Id, Session>) returns (ok: bool)
    requires SetOf(ids) == selected.Keys && selected.Keys <= repo.staged.sessions.Keys
    requires forall sid <- selected :: selected[sid] == repo.staged.sessions[sid] && selected[sid].revokedAt.None?
    modifies repo`staged, repo`faults, repo`failed
    ensures ok ==>
      && AllRowsOk(RevokeAll(selected, at)) && repo.failed == old(repo.failed)
      && repo.staged == old(repo.staged).(sessions := old(repo.staged).sessions + RevokeAll(selected, at))
    ensures !ok ==> repo.failed || !AllRowsOk(RevokeAll(selected, at))
  {
    RevokedAsSelected(repo.staged.sessions, selected, ids, at);
    var revoked := repo.RevokeLockedSessions(ids, at);
    ok := revoked.Ok?;
  }
}
