// Registration finalization: consuming the invite, storing the legal acceptance, marking the user
// and ensuring the profile in one transaction, with a compensating delete after a failure. Invite
// statements of every other session interleave freely.

module Registration {
  import opened Options
  import I = Invites
  import T = InviteTheorems
  import Runs

  /** Statements the open finalization transaction has executed. */
  datatype Pc = Begun | InviteConsumed | AcceptanceStored | UserMarked(at: int) | ProfileEnsured(at: int)

  /** `Rejected` is the failure raised before the guarded block: it is not compensated.
      `Unacknowledged` is a commit that took effect while its caller saw an error. */
  datatype Finalization =
    NotStarted | Running(inviteId: int, nonce: int, pc: Pc) | Finished | Unacknowledged | Failed | Rejected

  /** `users` maps each user row to its finalization mark; `legal` and `profiles` are keyed by user. */
  datatype State = State(
    inv: I.State, users: map<int, Option<int>>, legal: set<int>, profiles: set<int>, fin: map<int, Finalization>)

  datatype Action =
    | Invite(action: I.Action)
    | SignUp(user: int)
    | BootstrapProfile(user: int)
    | Begin(user: int, inviteId: int, nonce: int, legalOk: bool)
    | ConsumeInvite(user: int, now: int)
    | StoreAcceptance(user: int)
    | MarkFinalized(user: int, at: int)
    | EnsureProfile(user: int)
    | Commit(user: int)
    | CommitLost(user: int)
    | Fail(user: int)
    | Compensate(user: int, deleted: bool)

  /** The transaction's writes are in the tables. */
  predicate IsCommitted(f: Finalization) { f.Finished? || f.Unacknowledged? }
  predicate HoldsClaim(f: Finalization) { f.Running? && !f.pc.Begun? }

  /** Rollback: every uncommitted write of the transaction disappears. */
  function Rollback(s: State, user: int): State
    requires user in s.fin
  {
    var inv := if HoldsClaim(s.fin[user]) then I.ConsumeRollbackStep(s.inv, s.fin[user].inviteId) else s.inv;
    s.(inv := inv, fin := s.fin[user := Failed])
  }

  /** Deleting the user row: dependent rows go with it and invites lose the reference to it. */
  function DeleteUser(s: State, user: int): State {
    var rows := map id | id in s.inv.rows ::
      if s.inv.rows[id].consumedBy == Some(user) then s.inv.rows[id].(consumedBy := None) else s.inv.rows[id];
    s.(inv := s.inv.(rows := rows), users := s.users - {user}, legal := s.legal - {user},
       profiles := s.profiles - {user})
  }

  function AfterCommit(s: State, user: int, at: int, f: Finalization): State
    requires user in s.fin && s.fin[user].Running?
  {
    State(I.ConsumeCommitStep(s.inv, s.fin[user].inviteId), s.users[user := Some(at)],
          s.legal + {user}, s.profiles + {user}, s.fin[user := f])
  }

  function TransactionStep(s: State, user: int, a: Action): State
    requires user in s.fin && s.fin[user].Running?
  {
    var f := s.fin[user];
    match a
    case ConsumeInvite(_, now) =>
      if f.pc != Begun || I.RowLocked(s.inv, f.inviteId) then s
      else
        var inv := I.ConsumeUpdateStep(s.inv, f.inviteId, user, f.nonce, now);
        if f.inviteId in inv.claims then s.(inv := inv, fin := s.fin[user := f.(pc := InviteConsumed)])
          else Rollback(s, user)
    case StoreAcceptance(_) =>
      if f.pc != InviteConsumed then s
      else if user in s.legal then Rollback(s, user)
      else s.(fin := s.fin[user := f.(pc := AcceptanceStored)])
    case MarkFinalized(_, at) =>
      if f.pc != AcceptanceStored then s
      else if user !in s.users then Rollback(s, user)
      else s.(fin := s.fin[user := f.(pc := UserMarked(at))])
    case EnsureProfile(_) =>
      if f.pc.UserMarked? then s.(fin := s.fin[user := f.(pc := ProfileEnsured(f.pc.at))]) else s
    case Commit(_) => if f.pc.ProfileEnsured? then AfterCommit(s, user, f.pc.at, Finished) else s
    case CommitLost(_) => if f.pc.ProfileEnsured? then AfterCommit(s, user, f.pc.at, Unacknowledged) else s
    case _ => s
  }

  function Apply(s: State, a: Action): State {
    match a
    case Invite(action) =>
      if action.ConsumeUpdate? || action.ConsumeCommit? || action.ConsumeRollback? then s
      else s.(inv := I.Apply(s.inv, action))
    case SignUp(user) =>
      if user in s.fin then s else s.(users := s.users[user := None], fin := s.fin[user := NotStarted])
    case BootstrapProfile(user) => if user in s.users then s.(profiles := s.profiles + {user}) else s
    case Begin(user, inviteId, nonce, legalOk) =>
      if user !in s.fin || s.fin[user] != NotStarted then s
      else s.(fin := s.fin[user := if legalOk then Running(inviteId, nonce, Begun) else Rejected])
    case Fail(user) =>
      if user in s.fin && (s.fin[user].Running? || s.fin[user].NotStarted?) then Rollback(s, user) else s
    case Compensate(user, deleted) =>
      if user in s.fin && (s.fin[user].Failed? || s.fin[user].Unacknowledged?) && deleted
      then DeleteUser(s, user).(fin := s.fin[user := Failed]) else s
    case _ => if a.user in s.fin && s.fin[a.user].Running? then TransactionStep(s, a.user, a) else s
  }

  // ---- The invariant ----

  predicate Finalized(s: State, user: int) { user in s.users && s.users[user].Some? }
  predicate Owns(s: State, user: int, id: int) { id in s.inv.rows && s.inv.rows[id].consumedBy == Some(user) }
  function Owned(s: State, user: int): set<int> { set id | id in s.inv.rows && Owns(s, user, id) }

  ghost predicate ClaimsMatch(s: State) {
    && (forall id :: id in s.inv.claims ==>
          var user := s.inv.claims[id].user; user in s.fin && HoldsClaim(s.fin[user]) && s.fin[user].inviteId == id)
    && (forall user :: user in s.fin && HoldsClaim(s.fin[user]) ==>
          s.fin[user].inviteId in s.inv.claims && s.inv.claims[s.fin[user].inviteId].user == user)
  }

  /** Consumers are exactly the users whose finalization finished, and each consumed once. */
  ghost predicate ConsumersMatch(s: State) {
    && (forall id :: id in s.inv.rows ==> (s.inv.rows[id].consumedBy.Some? ==> s.inv.rows[id].status == I.Consumed))
    && (forall id, user :: Owns(s, user, id) ==> user in s.fin && IsCommitted(s.fin[user]))
    && (forall user, i, j :: Owns(s, user, i) && Owns(s, user, j) ==> i == j)
    && (forall user :: user in s.fin && IsCommitted(s.fin[user]) ==> exists id :: Owns(s, user, id))
  }

  ghost predicate UsersMatch(s: State) {
    && (forall user :: user in s.users ==> user in s.fin)
    && (forall user :: user in s.fin && IsCommitted(s.fin[user]) ==>
      Finalized(s, user) && user in s.legal && user in s.profiles)
    && (forall user :: Finalized(s, user) ==> IsCommitted(s.fin[user]))
  }

  ghost predicate Inv(s: State) { I.Inv(s.inv) && ClaimsMatch(s) && ConsumersMatch(s) && UsersMatch(s) }

  // ---- Steps keep it ----

  /** Statements of other sessions touch neither consumers nor claims. */
  lemma InviteStepKeepsConsumers(s: I.State, a: I.Action)
    requires !a.ConsumeUpdate? && !a.ConsumeCommit? && !a.ConsumeRollback?
    ensures var s' := I.Apply(s, a);
            && s'.claims == s.claims
            && (forall id :: id in s.rows ==> id in s'.rows && s'.rows[id].consumedBy == s.rows[id].consumedBy)
            && (forall id :: id in s'.rows && id !in s.rows ==> s'.rows[id].consumedBy.None?)
  {
  }

  lemma InviteKeepsInv(s: State, a: I.Action)
    requires Inv(s)
    ensures Inv(Apply(s, Invite(a)))
  {
    var s' := Apply(s, Invite(a));
    if s' != s {
      I.StepKeepsInv(s.inv, a);
      I.StepEvolves(s.inv, a);
      InviteStepKeepsConsumers(s.inv, a);
      forall id, user ensures Owns(s', user, id) <==> Owns(s, user, id) {
      }
      forall user | user in s'.fin && IsCommitted(s'.fin[user]) ensures exists id :: Owns(s', user, id) {
        var id :| Owns(s, user, id);
        assert Owns(s', user, id);
      }
    }
  }

  lemma RollbackKeepsInv(s: State, user: int)
    requires Inv(s) && user in s.fin && (s.fin[user].Running? || s.fin[user].NotStarted?)
    ensures Inv(Rollback(s, user)) && Rollback(s, user).inv.rows == s.inv.rows
  {
    var s' := Rollback(s, user);
    assert forall id, u :: Owns(s', u, id) == Owns(s, u, id);
  }

  /** A user whose finalization failed owns nothing, so deleting it changes no invite. */
  lemma DeleteKeepsInv(s: State, user: int)
    requires Inv(s) && user in s.fin && s.fin[user].Failed?
    ensures Inv(DeleteUser(s, user)) && DeleteUser(s, user).inv == s.inv
  {
    var s' := DeleteUser(s, user);
    forall id | id in s.inv.rows ensures s'.inv.rows[id] == s.inv.rows[id] {
      assert !Owns(s, user, id);
    }
    assert s'.inv.rows == s.inv.rows;
    assert forall id, u :: Owns(s', u, id) == Owns(s, u, id);
  }

  lemma CommitKeepsInv(s: State, user: int, f: Finalization)
    requires Inv(s) && user in s.fin && s.fin[user].Running? && s.fin[user].pc.ProfileEnsured? && IsCommitted(f)
    ensures Inv(AfterCommit(s, user, s.fin[user].pc.at, f))
  {
    var s' := AfterCommit(s, user, s.fin[user].pc.at, f);
    var id := s.fin[user].inviteId;
    I.StepKeepsInv(s.inv, I.ConsumeCommit(id));
    assert s'.inv.rows == s.inv.rows[id := I.Consume(s.inv.rows[id], s.inv.claims[id])];
    assert Owns(s', user, id);
    forall j, u ensures Owns(s', u, j) <==> if j == id then u == user else Owns(s, u, j) {
    }
    forall u | u in s'.fin && IsCommitted(s'.fin[u]) ensures exists j :: Owns(s', u, j) {
      if u != user {
        var j :| Owns(s, u, j);
        assert j != id;
        assert Owns(s', u, j);
      }
    }
  }

  /** Invite rows up to their consumer. */
  ghost predicate SameButConsumer(rows: I.Table, rows': I.Table) {
    rows'.Keys == rows.Keys && forall id :: id in rows ==> rows'[id] == rows[id].(consumedBy := rows'[id].consumedBy)
  }

  lemma ConsumerIrrelevant(s: I.State, rows': I.Table)
    requires I.Inv(s) && SameButConsumer(s.rows, rows')
    ensures I.Inv(s.(rows := rows'))
  {
    forall id ensures id in I.LiveIds(rows') <==> id in I.LiveIds(s.rows) {
      assert id in rows' ==> id in s.rows;
    }
    assert I.LiveIds(rows') == I.LiveIds(s.rows);
    if s.creator.Some? { assert I.Remaining(rows', s.creator.value) == I.Remaining(s.rows, s.creator.value); }
  }

  lemma DeletedOwnsNothing(s: State, user: int)
    requires ConsumersMatch(s) && user in s.fin
    ensures var s' := DeleteUser(s, user).(fin := s.fin[user := Failed]);
            && (forall id, u :: Owns(s', u, id) <==> u != user && Owns(s, u, id))
            && ConsumersMatch(s')
  {
    var s' := DeleteUser(s, user).(fin := s.fin[user := Failed]);
    forall id, u ensures Owns(s', u, id) <==> u != user && Owns(s, u, id) {
    }
    forall u | u in s'.fin && IsCommitted(s'.fin[u]) ensures exists id :: Owns(s', u, id) {
      var id :| Owns(s, u, id);
      assert Owns(s', u, id);
    }
  }

  /** Compensating a commit that did take effect deletes a finalized user and orphans its invite. */
  lemma DeleteCommittedKeepsInv(s: State, user: int)
    requires Inv(s) && user in s.fin && s.fin[user].Unacknowledged?
    ensures Inv(DeleteUser(s, user).(fin := s.fin[user := Failed]))
  {
    DeletedOwnsNothing(s, user);
    ConsumerIrrelevant(s.inv, DeleteUser(s, user).inv.rows);
  }

  /** Moving on within the transaction touches nothing committed. */
  lemma AdvanceKeepsInv(s: State, user: int, pc: Pc)
    requires Inv(s) && user in s.fin && HoldsClaim(s.fin[user]) && pc != Begun
    ensures Inv(s.(fin := s.fin[user := s.fin[user].(pc := pc)]))
  {
    var s' := s.(fin := s.fin[user := s.fin[user].(pc := pc)]);
    assert forall id, u :: Owns(s', u, id) == Owns(s, u, id);
  }

  lemma ConsumeKeepsInv(s: State, user: int, now: int)
    requires Inv(s) && user in s.fin && s.fin[user].Running? && s.fin[user].pc == Begun
    requires !I.RowLocked(s.inv, s.fin[user].inviteId)
    ensures Inv(TransactionStep(s, user, ConsumeInvite(user, now)))
  {
    var f := s.fin[user];
    var s' := TransactionStep(s, user, ConsumeInvite(user, now));
    I.StepKeepsInv(s.inv, I.ConsumeUpdate(f.inviteId, user, f.nonce, now));
    if s' == Rollback(s, user) {
      RollbackKeepsInv(s, user);
    } else {
      assert s'.inv.claims == s.inv.claims[f.inviteId := I.Claim(user, now)];
      assert forall id, u :: Owns(s', u, id) == Owns(s, u, id);
    }
  }

  lemma TransactionKeepsInv(s: State, user: int, a: Action)
    requires Inv(s) && user in s.fin && s.fin[user].Running? && !a.Commit? && !a.CommitLost?
    ensures Inv(TransactionStep(s, user, a))
  {
    var s' := TransactionStep(s, user, a);
    if s' == s {
    } else if a.ConsumeInvite? {
      assert s' == TransactionStep(s, user, ConsumeInvite(user, a.now));
      ConsumeKeepsInv(s, user, a.now);
    } else if s' == Rollback(s, user) {
      RollbackKeepsInv(s, user);
    } else {
      AdvanceKeepsInv(s, user, s'.fin[user].pc);
    }
  }

  lemma CompensateKeepsInv(s: State, user: int)
    requires Inv(s) && user in s.fin && (s.fin[user].Failed? || s.fin[user].Unacknowledged?)
    ensures Inv(DeleteUser(s, user).(fin := s.fin[user := Failed]))
  {
    if s.fin[user].Unacknowledged? {
      DeleteCommittedKeepsInv(s, user);
    } else {
      DeleteKeepsInv(s, user);
      assert s.fin[user := Failed] == s.fin;
    }
  }

  /** After a failure, and after a lost commit, the compensating delete leaves no trace of the user:
      it is in no table, consumes no invite, and counts as failed. Nothing else changes. */
  lemma CompensationErasesUser(s: State, user: int)
    requires user in s.fin && (s.fin[user].Failed? || s.fin[user].Unacknowledged?)
    ensures var s' := Apply(s, Compensate(user, true));
            && user !in s'.users && user !in s'.legal && user !in s'.profiles && !(exists id :: Owns(s', user, id))
            && s'.fin == s.fin[user := Failed]
            && (forall other :: other != user ==>
                  && (other in s'.users <==> other in s.users)
                  && (other in s.users ==> s'.users[other] == s.users[other])
                  && (other in s'.legal <==> other in s.legal) && (other in s'.profiles <==> other in s.profiles))
            && s'.inv == s.inv.(rows := s'.inv.rows) && s'.inv.rows.Keys == s.inv.rows.Keys
            && (forall id :: id in s.inv.rows ==>
                  var row := s.inv.rows[id];
                  s'.inv.rows[id] == if row.consumedBy == Some(user) then row.(consumedBy := None) else row)
  {
  }

  lemma StepKeepsInv(s: State, a: Action)
    requires Inv(s)
    ensures Inv(Apply(s, a))
  {
    var s' := Apply(s, a);
    if s' == s {
      return;
    }
    match a
    case Invite(action) => InviteKeepsInv(s, action);
    case Fail(user) => RollbackKeepsInv(s, user);
    case Compensate(user, _) => CompensateKeepsInv(s, user);
    case Commit(user) => CommitKeepsInv(s, user, Finished);
    case CommitLost(user) => CommitKeepsInv(s, user, Unacknowledged);
    case SignUp(_) => assert forall id, u :: Owns(s', u, id) == Owns(s, u, id);
    case BootstrapProfile(_) => assert forall id, u :: Owns(s', u, id) == Owns(s, u, id);
    case Begin(_, _, _, _) => assert forall id, u :: Owns(s', u, id) == Owns(s, u, id);
    case _ => TransactionKeepsInv(s, a.user, a);
  }

  // ---- Whole runs ----

  /** Before any registration: no transaction open, nobody finalized, no invite has a consumer. */
  ghost predicate Initial(s: State) {
    && T.Quiet(s.inv) && I.Capacity(s.inv.rows) && I.UniqueCodes(s.inv.rows)
    && s.fin == map[] && s.users == map[]
    && (forall id :: id in s.inv.rows ==> s.inv.rows[id].consumedBy.None?)
  }

  lemma InvInEveryRun(s: State, acts: seq<Action>)
    requires Initial(s)
    ensures Inv(Runs.Run(Apply, s, acts))
  {
    forall x: State, a: Action | Inv(x) ensures Inv(Apply(x, a)) {
      StepKeepsInv(x, a);
    }
    Runs.RunKeeps(Apply, Inv, s, acts);
  }

  /** In every run a user is marked finalized exactly when it owns exactly one consumed invite, and
      owns none otherwise; a finalized user has an acceptance and a profile; capacity still holds. */
  lemma FinalizedExactlyWhenOwningOneInvite(s: State, acts: seq<Action>, user: int)
    requires Initial(s)
    ensures var s' := Runs.Run(Apply, s, acts);
            && |Owned(s', user)| == (if Finalized(s', user) then 1 else 0)
            && (forall id :: id in Owned(s', user) ==> s'.inv.rows[id].status == I.Consumed)
            && (Finalized(s', user) ==> user in s'.legal && user in s'.profiles)
            && (user in s'.fin && (s'.fin[user].Failed? || s'.fin[user].Rejected?) ==> Owned(s', user) == {})
            && I.Capacity(s'.inv.rows)
  {
    InvInEveryRun(s, acts);
    var s' := Runs.Run(Apply, s, acts);
    if Finalized(s', user) {
      var id :| Owns(s', user, id);
      assert Owned(s', user) == {id};
    } else {
      assert forall id :: !Owns(s', user, id);
      assert Owned(s', user) == {};
    }
  }

  /** What a failure after the last statement leaves: rolled back, the invite is unconsumed; committed
      with its acknowledgement lost, it is consumed, and by nobody once the user is deleted. */
  lemma FailedCommitOutcome(s: State, user: int, a: Action, deleted: bool)
    requires Inv(s) && user in s.fin && s.fin[user].Running? && s.fin[user].pc.ProfileEnsured?
    requires a == Fail(user) || a == CommitLost(user)
    ensures var after := Apply(Apply(s, a), Compensate(user, deleted));
            var id := s.fin[user].inviteId;
            && Inv(after) && id in after.inv.rows
            && (after.inv.rows[id].status != I.Consumed <==> a == Fail(user))
            && (a == CommitLost(user) ==>
                  after.inv.rows[id].consumedBy == (if deleted then None else Some(user)) &&
                    (Finalized(after, user) <==> !deleted))
  {
    StepKeepsInv(s, a);
    StepKeepsInv(Apply(s, a), Compensate(user, deleted));
    if a == Fail(user) {
      FailureLeavesInviteReusable(s, user, deleted, 0, 0, 0);
    } else {
      assert Apply(s, a).inv.rows[s.fin[user].inviteId] ==
        I.Consume(s.inv.rows[s.fin[user].inviteId], s.inv.claims[s.fin[user].inviteId]);
    }
  }

  /** Failing at any statement, and whatever becomes of the compensating delete, leaves every
      invite row as it was, and the invite it had taken can be consumed by the next attempt. */
  lemma FailureLeavesInviteReusable(s: State, user: int, deleted: bool, nonce: int, now: int, retry: int)
    requires Inv(s) && user in s.fin && s.fin[user].Running?
    ensures var failed := Apply(Apply(s, Fail(user)), Compensate(user, deleted));
            var id := s.fin[user].inviteId;
            && failed.inv.rows == s.inv.rows && Inv(failed)
            && (HoldsClaim(s.fin[user]) && I.ConsumeWhere(s.inv.rows[id], nonce, now) &&
                retry in s.fin && s.fin[retry] == Running(id, nonce, Begun) ==>
                  Apply(failed, ConsumeInvite(retry, now)).fin[retry].pc == InviteConsumed)
  {
    StepKeepsInv(s, Fail(user));
    var rolled := Apply(s, Fail(user));
    RollbackKeepsInv(s, user);
    StepKeepsInv(rolled, Compensate(user, deleted));
    if deleted {
      DeleteKeepsInv(rolled, user);
    }
  }

  // ---- The procedure ----

  datatype Input = Input(inviteId: int, user: int, nonce: int, legalOk: bool)

  /** Where the guarded block is made to throw, besides its own checks. */
  datatype Injection = NoInjection | AtConsume | AtFinalize | AtProfile

  function FailIf(s: State, user: int, fails: bool): State { if fails then Apply(s, Fail(user)) else s }

  /** The statements of one call, in order, with nothing interleaved. Once it has failed, the
      remaining statements do nothing; once it has committed, neither does the compensation. */
  function FinalizeCall(s: State, i: Input, injection: Injection, deleted: bool, now: int, at: int): State {
    var begun := FailIf(Apply(s, Begin(i.user, i.inviteId, i.nonce, i.legalOk)), i.user, injection == AtConsume);
    AfterConsume(Apply(begun, ConsumeInvite(i.user, now)), i.user, injection, deleted, at)
  }

  function AfterConsume(s: State, user: int, injection: Injection, deleted: bool, at: int): State {
    var stored := Apply(FailIf(s, user, injection == AtFinalize), StoreAcceptance(user));
    var marked := FailIf(Apply(stored, MarkFinalized(user, at)), user, injection == AtProfile);
    Apply(Apply(Apply(marked, EnsureProfile(user)), Commit(user)), Compensate(user, deleted))
  }

  datatype Outcome =
    Ok | LegalAcceptanceInvalid | Injected | InviteConsumeFailed | AcceptanceInsertFailed | UserUpdateFailed

  predicate Succeeds(s: State, i: Input, injection: Injection, now: int) {
    && i.legalOk && injection == NoInjection
    && i.inviteId in s.inv.rows && I.ConsumeWhere(s.inv.rows[i.inviteId], i.nonce, now)
    && i.user !in s.legal && i.user in s.users
  }

  /** Nobody else is writing, and the user has signed up but not finalized. */
  ghost predicate ReadyAlone(s: State, user: int) {
    Inv(s) && T.Quiet(s.inv) && user in s.fin && s.fin[user] == NotStarted
  }

  /** After a failure the remaining statements do nothing until the compensation. */
  lemma SettledRest(s: State, user: int, injection: Injection, deleted: bool, at: int)
    requires user in s.fin && (s.fin[user].Failed? || s.fin[user].Rejected?)
    ensures AfterConsume(s, user, injection, deleted, at) == Apply(s, Compensate(user, deleted))
  {
  }

  lemma RestFails(s: State, user: int, injection: Injection, deleted: bool, at: int)
    requires user in s.fin && s.fin[user].Running? && s.fin[user].pc == InviteConsumed
    requires injection == AtFinalize || injection == AtProfile || user in s.legal || user !in s.users
    ensures AfterConsume(s, user, injection, deleted, at) == Apply(Rollback(s, user), Compensate(user, deleted))
  {
    var stored := Apply(FailIf(s, user, injection == AtFinalize), StoreAcceptance(user));
    var marked := FailIf(Apply(stored, MarkFinalized(user, at)), user, injection == AtProfile);
    assert marked == Rollback(s, user);
  }

  lemma RestSucceeds(s: State, user: int, deleted: bool, at: int)
    requires user in s.fin && s.fin[user].Running? && s.fin[user].pc == InviteConsumed
    requires user !in s.legal && user in s.users
    ensures AfterConsume(s, user, NoInjection, deleted, at) ==
            State(I.ConsumeCommitStep(s.inv, s.fin[user].inviteId), s.users[user := Some(at)],
                  s.legal + {user}, s.profiles + {user}, s.fin[user := Finished])
  {
  }

  predicate Consumable(s: State, i: Input, injection: Injection, now: int) {
    && i.legalOk && injection != AtConsume
    && i.inviteId in s.inv.rows && I.ConsumeWhere(s.inv.rows[i.inviteId], i.nonce, now)
  }

  function Settled(s: State, i: Input): State { s.(fin := s.fin[i.user := if i.legalOk then Failed else Rejected]) }

  lemma ConsumeStage(s: State, i: Input, injection: Injection, now: int)
    requires ReadyAlone(s, i.user)
    ensures var begun := FailIf(Apply(s, Begin(i.user, i.inviteId, i.nonce, i.legalOk)), i.user,
      injection == AtConsume);
            Apply(begun, ConsumeInvite(i.user, now)) ==
            if Consumable(s, i, injection, now)
            then s.(inv := s.inv.(claims := map[i.inviteId := I.Claim(i.user, now)]),
                    fin := s.fin[i.user := Running(i.inviteId, i.nonce, InviteConsumed)])
            else Settled(s, i)
  {
  }

  lemma CallSucceeds(s: State, i: Input, injection: Injection, deleted: bool, now: int, at: int)
    requires ReadyAlone(s, i.user) && Succeeds(s, i, injection, now)
    ensures FinalizeCall(s, i, injection, deleted, now, at) ==
            State(s.inv.(rows := s.inv.rows[i.inviteId := I.Consume(s.inv.rows[i.inviteId], I.Claim(i.user, now))]),
                  s.users[i.user := Some(at)], s.legal + {i.user}, s.profiles + {i.user}, s.fin[i.user := Finished])
  {
    ConsumeStage(s, i, injection, now);
    var claimed := s.inv.(claims := map[i.inviteId := I.Claim(i.user, now)]);
    var consumed := s.(inv := claimed, fin := s.fin[i.user := Running(i.inviteId, i.nonce, InviteConsumed)]);
    RestSucceeds(consumed, i.user, deleted, at);
    assert claimed.claims - {i.inviteId} == s.inv.claims;
    assert consumed.fin[i.user := Finished] == s.fin[i.user := Finished];
  }

  lemma CallFails(s: State, i: Input, injection: Injection, deleted: bool, now: int, at: int)
    requires ReadyAlone(s, i.user) && !Succeeds(s, i, injection, now)
    ensures FinalizeCall(s, i, injection, deleted, now, at) == Apply(Settled(s, i), Compensate(i.user, deleted))
  {
    ConsumeStage(s, i, injection, now);
    if Consumable(s, i, injection, now) {
      var claimed := s.inv.(claims := map[i.inviteId := I.Claim(i.user, now)]);
      var consumed := s.(inv := claimed, fin := s.fin[i.user := Running(i.inviteId, i.nonce, InviteConsumed)]);
      RestFails(consumed, i.user, injection, deleted, at);
      assert claimed.claims - {i.inviteId} == s.inv.claims;
      assert Rollback(consumed, i.user) == Settled(s, i);
    } else {
      SettledRest(Settled(s, i), i.user, injection, deleted, at);
    }
  }

  class Database {
    var rows: I.Table
    var users: map<int, Option<int>>
    var legal: set<int>
    var profiles: set<int>
    ghost var fin: map<int, Finalization>
    ghost var nonces: set<int>

    ghost function Committed(): State reads this {
      State(I.State(rows, None, map[], nonces), users, legal, profiles, fin)
    }

    /** The guarded transaction, writing in place; its caller restores the tables if it throws. */
    method Transaction(i: Input, injection: Injection, now: int, at: int) returns (r: Outcome)
      requires i.legalOk
      modifies `rows, `users, `legal, `profiles
      ensures r == Ok <==> Succeeds(old(Committed()), i, injection, now)
      ensures r == Ok ==>
                && i.inviteId in old(rows)
                && rows == old(rows)[i.inviteId := old(rows)[i.inviteId].(
                     status := I.Consumed, consumedAt := Some(now), consumedBy := Some(i.user))]
                && users == old(users)[i.user := Some(at)]
                && legal == old(legal) + {i.user} && profiles == old(profiles) + {i.user}
      ensures var valid := i.inviteId in old(rows) && var row := old(rows)[i.inviteId];
                row.phase == I.AlphaStage1 && row.status == I.Reserved && row.nonce == Some(i.nonce) &&
                now < row.expiresAt;
              var consumed := injection != AtConsume && valid;
              var stored := consumed && injection != AtFinalize && i.user !in old(legal);
              var marked := stored && i.user in old(users);
              && (r == Ok <==> marked && injection == NoInjection)
              && (r == InviteConsumeFailed <==> injection != AtConsume && !valid)
              && (r == AcceptanceInsertFailed <==> consumed && injection != AtFinalize && i.user in old(legal))
              && (r == UserUpdateFailed <==> stored && i.user !in old(users))
      ensures r != LegalAcceptanceInvalid
    {
      if injection == AtConsume { return Injected; }
      if i.inviteId !in rows || !I.ConsumeWhere(rows[i.inviteId], i.nonce, now) { return InviteConsumeFailed; }
      rows := rows[i.inviteId := I.Consume(rows[i.inviteId], I.Claim(i.user, now))];
      if injection == AtFinalize { return Injected; }
      if i.user in legal { return AcceptanceInsertFailed; }
      legal := legal + {i.user};
      if i.user !in users { return UserUpdateFailed; }
      users := users[i.user := Some(at)];
      if injection == AtProfile { return Injected; }
      if i.user !in profiles {
        profiles := profiles + {i.user};
      }
      return Ok;
    }

    method CompensateFailedRegistration(user: int, deleted: bool)
      modifies `rows, `users, `legal, `profiles
      ensures Committed() == if deleted then DeleteUser(old(Committed()), user) else old(Committed())
      ensures deleted ==>
                && user !in users && user !in legal && user !in profiles
                && (forall id :: id in rows ==> rows[id].consumedBy != Some(user))
      ensures deleted ==>
                && rows.Keys == old(rows).Keys && users == old(users) - {user}
                && legal == old(legal) - {user} && profiles == old(profiles) - {user}
                && (forall id :: id in rows && old(rows)[id].consumedBy != Some(user) ==> rows[id] == old(rows)[id])
                && (forall id :: id in rows && old(rows)[id].consumedBy == Some(user) ==>
                      rows[id] == old(rows)[id].(consumedBy := None))
      ensures !deleted ==> unchanged(this)
    {
      if deleted {
        rows := map id | id in rows ::
          if rows[id].consumedBy == Some(user) then rows[id].(consumedBy := None) else rows[id];
        users, legal, profiles := users - {user}, legal - {user}, profiles - {user};
      }
    }

    /** One call for a user signed up and not yet finalized. A failed call throws after trying to
        delete the user; all its own writes are rolled back. */
    method FinalizeInviteRegistration(i: Input, injection: Injection, deleted: bool, now: int, at: int)
      returns (r: Outcome)
      requires i.user in fin && fin[i.user] == NotStarted
      modifies this
      ensures r == Ok <==> Succeeds(old(Committed()), i, injection, now)
      ensures r == LegalAcceptanceInvalid <==> !i.legalOk
      ensures Committed() == CallResult(old(Committed()), i, injection, deleted, now, at)
      ensures r == Ok ==>
                && i.inviteId in old(rows) && users == old(users)[i.user := Some(at)]
                && legal == old(legal) + {i.user} && profiles == old(profiles) + {i.user}
                && rows == old(rows)[i.inviteId := old(rows)[i.inviteId].(
                     status := I.Consumed, consumedAt := Some(now), consumedBy := Some(i.user))]
      ensures r == LegalAcceptanceInvalid || (r != Ok && !deleted) ==>
                rows == old(rows) && users == old(users) && legal == old(legal) && profiles == old(profiles)
      ensures r != Ok && r != LegalAcceptanceInvalid && deleted ==>
                && users == old(users) - {i.user} && legal == old(legal) - {i.user}
                && profiles == old(profiles) - {i.user} && rows.Keys == old(rows).Keys
                && (forall id :: id in rows && old(rows)[id].consumedBy != Some(i.user) ==> rows[id] == old(rows)[id])
                && (forall id :: id in rows && old(rows)[id].consumedBy == Some(i.user) ==>
                      rows[id] == old(rows)[id].(consumedBy := None))
    {
      if !i.legalOk {
        fin := fin[i.user := Rejected];
        return LegalAcceptanceInvalid;
      }
      var rows0, users0, legal0, profiles0 := rows, users, legal, profiles;
      r := Transaction(i, injection, now, at);
      if r == Ok {
        fin := fin[i.user := Finished];
      } else {
        rows, users, legal, profiles := rows0, users0, legal0, profiles0;
        fin := fin[i.user := Failed];
        assert Committed() == Settled(old(Committed()), i);
        CompensateFailedRegistration(i.user, deleted);
      }
    }
  }

  /** What one undisturbed call leaves behind. */
  function CallResult(s: State, i: Input, injection: Injection, deleted: bool, now: int, at: int): State {
    if Succeeds(s, i, injection, now) then
      State(s.inv.(rows := s.inv.rows[i.inviteId := I.Consume(s.inv.rows[i.inviteId], I.Claim(i.user, now))]),
            s.users[i.user := Some(at)], s.legal + {i.user}, s.profiles + {i.user}, s.fin[i.user := Finished])
    else if i.legalOk && deleted then DeleteUser(Settled(s, i), i.user)
    else Settled(s, i)
  }

  lemma FailedCallResult(s: State, i: Input, injection: Injection, deleted: bool, now: int, at: int)
    requires ReadyAlone(s, i.user) && !Succeeds(s, i, injection, now)
    ensures var after := CallResult(s, i, injection, deleted, now, at);
            after == Apply(Settled(s, i), Compensate(i.user, deleted)) && after.inv == s.inv &&
              !Finalized(after, i.user)
  {
    if i.legalOk {
      StepKeepsInv(s, Fail(i.user));
      assert Apply(s, Fail(i.user)) == Settled(s, i);
      DeleteKeepsInv(Settled(s, i), i.user);
    }
  }

  /** The call is all or nothing: it performs its statements, and on failure no invite changed and
      the user is not finalized, whether or not the compensating delete went through. */
  lemma CallIsAllOrNothing(s: State, i: Input, injection: Injection, deleted: bool, now: int, at: int)
    requires ReadyAlone(s, i.user)
    ensures var after := CallResult(s, i, injection, deleted, now, at);
            && after == FinalizeCall(s, i, injection, deleted, now, at)
            && Inv(after)
            && (if Succeeds(s, i, injection, now) then Finalized(after, i.user)
                else after.inv == s.inv && !Finalized(after, i.user))
  {
    CallKeepsInv(s, i, injection, deleted, now, at);
    if Succeeds(s, i, injection, now) {
      CallSucceeds(s, i, injection, deleted, now, at);
    } else {
      CallFails(s, i, injection, deleted, now, at);
      FailedCallResult(s, i, injection, deleted, now, at);
    }
  }

  lemma CallKeepsInv(s: State, i: Input, injection: Injection, deleted: bool, now: int, at: int)
    requires Inv(s)
    ensures Inv(FinalizeCall(s, i, injection, deleted, now, at))
  {
    forall x: State, a: Action | Inv(x) ensures Inv(Apply(x, a)) {
      StepKeepsInv(x, a);
    }
  }
}
