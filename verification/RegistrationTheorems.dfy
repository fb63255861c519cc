// What holds over whole registration runs: the lifecycle of an invite between any two points of a
// run, and exactly when a consumed invite is left without a consumer.

module RegistrationTheorems {
  import opened Options
  import opened Registration
  import B = BalancePolicy
  import I = Invites
  import Runs

  // ---- Lifecycle ----

  /** Rows stay and keep what identifies them. A consumed, expired or revoked row does not change,
      except that its consumer may be cleared. */
  ghost predicate Follows(rows: I.Table, rows': I.Table) {
    forall id :: id in rows ==>
      && id in rows' && I.SameInvite(rows[id], rows'[id])
      && (I.Terminal(rows[id]) ==>
            && rows'[id] == rows[id].(consumedBy := rows'[id].consumedBy)
            && (rows'[id].consumedBy == rows[id].consumedBy || rows'[id].consumedBy == None))
  }
  ghost predicate StateFollows(s: State, s': State) { Follows(s.inv.rows, s'.inv.rows) }

  /** A commit that took effect and was reported as a failure, not yet compensated. */
  predicate Lost(s: State, user: int) { user in s.fin && s.fin[user].Unacknowledged? }

  lemma CompensateFollows(s: State, user: int, deleted: bool)
    ensures StateFollows(s, Apply(s, Compensate(user, deleted)))
  {
  }

  lemma CommitFollows(s: State, user: int, f: Finalization)
    requires Inv(s) && user in s.fin && s.fin[user].Running? && s.fin[user].pc.ProfileEnsured?
    ensures StateFollows(s, AfterCommit(s, user, s.fin[user].pc.at, f))
  {
  }

  /** Before its commit a transaction writes no row. */
  lemma UncommittedWritesNoRow(s: State, user: int, a: Action)
    requires user in s.fin && s.fin[user].Running? && !a.Commit? && !a.CommitLost?
    ensures TransactionStep(s, user, a).inv.rows == s.inv.rows
    ensures var s' := TransactionStep(s, user, a);
            s'.users == s.users && s'.legal == s.legal && s'.profiles == s.profiles && s'.fin.Keys == s.fin.Keys &&
              forall other :: other in s.fin && other != user ==> s'.fin[other] == s.fin[other]
  {
  }

  lemma StepFollows(s: State, a: Action)
    requires Inv(s)
    ensures StateFollows(s, Apply(s, a))
  {
    match a
    case Compensate(user, deleted) => CompensateFollows(s, user, deleted);
    case Commit(user) => if Apply(s, a) != s { CommitFollows(s, user, Finished); }
    case CommitLost(user) => if Apply(s, a) != s { CommitFollows(s, user, Unacknowledged); }
    case Invite(action) =>
      I.StepEvolves(s.inv, action);
    case Fail(user) =>
      if Apply(s, a) != s { RollbackKeepsInv(s, user); }
    case SignUp(_) =>
    case BootstrapProfile(_) =>
    case Begin(_, _, _, _) =>
    case _ => if Apply(s, a) != s { UncommittedWritesNoRow(s, a.user, a); }
  }

  lemma StepKeepsOwner(s: State, a: Action, user: int, id: int)
    requires Inv(s) && Owns(s, user, id)
    ensures Owns(Apply(s, a), user, id) || (a == Compensate(user, true) && Lost(s, user))
  {
    if a.Invite? { I.StepEvolves(s.inv, a.action); }
  }

  /** Between any two points of a run the rows follow their lifecycle. */
  lemma LifecycleInEveryRun(s: State, first: seq<Action>, second: seq<Action>)
    requires Initial(s)
    ensures StateFollows(Runs.Run(Apply, s, first), Runs.Run(Apply, s, first + second))
  {
    InvInEveryRun(s, first);
    forall x: State, a: Action | Inv(x) ensures Inv(Apply(x, a)) && StateFollows(x, Apply(x, a)) {
      StepKeepsInv(x, a);
      StepFollows(x, a);
    }
    Runs.RunAppend(Apply, s, first, second);
    Runs.RunRelates(Apply, Inv, StateFollows, Runs.Run(Apply, s, first), second);
  }

  /** An owner is lost only by compensating that user's lost commit. */
  lemma {:induction false} OwnerClearedOnlyByCompensation(s: State, first: seq<Action>, second: seq<Action>,
    user: int, id: int)
    requires Initial(s) && Owns(Runs.Run(Apply, s, first), user, id)
    ensures Owns(Runs.Run(Apply, s, first + second), user, id) ||
            exists j :: 0 <= j < |second| && second[j] == Compensate(user, true) &&
              Lost(Runs.Run(Apply, s, first + second[..j]), user)
    decreases |second|
  {
    if second == [] {
      assert first + second == first;
    } else {
      var front, last := second[..|second| - 1], second[|second| - 1];
      assert first + second == first + front + [last];
      Runs.RunSnoc(Apply, s, first + front, last);
      OwnerClearedOnlyByCompensation(s, first, front, user, id);
      var before := Runs.Run(Apply, s, first + front);
      InvInEveryRun(s, first + front);
      if Owns(before, user, id) {
        StepKeepsOwner(before, last, user, id);
        assert second[..|second| - 1] == front;
      } else {
        var j :| 0 <= j < |front| && front[j] == Compensate(user, true) &&
          Lost(Runs.Run(Apply, s, first + front[..j]), user);
        assert second[..j] == front[..j] && second[j] == front[j];
      }
    }
  }

  /** No row, acceptance or profile of the user is left, and no invite names it. */
  ghost predicate Gone(s: State, user: int) {
    && user in s.fin && s.fin[user].Failed?
    && user !in s.users && user !in s.legal && user !in s.profiles
    && (forall id :: id in s.inv.rows ==> s.inv.rows[id].consumedBy != Some(user))
  }

  lemma CommitKeepsGone(s: State, other: int, f: Finalization, user: int)
    requires Inv(s) && Gone(s, user) && other in s.fin && s.fin[other].Running? && s.fin[other].pc.ProfileEnsured?
    ensures Gone(AfterCommit(s, other, s.fin[other].pc.at, f), user)
  {
  }

  lemma StepKeepsGone(s: State, a: Action, user: int)
    requires Inv(s) && Gone(s, user)
    ensures Gone(Apply(s, a), user)
  {
    match a
    case Invite(action) =>
      if Apply(s, a) != s { InviteStepKeepsConsumers(s.inv, action); }
    case Fail(other) =>
      if Apply(s, a) != s { RollbackKeepsInv(s, other); }
    case Compensate(_, _) =>
    case Commit(other) => if Apply(s, a) != s { CommitKeepsGone(s, other, Finished, user); }
    case CommitLost(other) => if Apply(s, a) != s { CommitKeepsGone(s, other, Unacknowledged, user); }
    case SignUp(_) =>
    case BootstrapProfile(_) =>
    case Begin(_, _, _, _) =>
    case _ => if Apply(s, a) != s { UncommittedWritesNoRow(s, a.user, a); }
  }

  /** A user whose failed or lost finalization was compensated never comes back, in any later state. */
  lemma CompensatedStaysGone(s: State, first: seq<Action>, second: seq<Action>, user: int)
    requires Initial(s)
    requires var failed := Runs.Run(Apply, s, first);
             user in failed.fin && (failed.fin[user].Failed? || failed.fin[user].Unacknowledged?)
    ensures Gone(Runs.Run(Apply, s, first + [Compensate(user, true)] + second), user)
  {
    InvInEveryRun(s, first);
    CompensationErasesUser(Runs.Run(Apply, s, first), user);
    Runs.RunSnoc(Apply, s, first, Compensate(user, true));
    var deleted := Runs.Run(Apply, s, first + [Compensate(user, true)]);
    assert forall id :: id in deleted.inv.rows ==> !Owns(deleted, user, id);
    InvInEveryRun(s, first + [Compensate(user, true)]);
    var inv := (x: State) => Inv(x) && Gone(x, user);
    forall x: State, a: Action | inv(x) ensures inv(Apply(x, a)) {
      StepKeepsInv(x, a);
      StepKeepsGone(x, a, user);
    }
    Runs.RunAppend(Apply, s, first + [Compensate(user, true)], second);
    Runs.RunKeeps(Apply, inv, deleted, second);
  }

  // ---- Orphaned invites ----

  /** Some invite is consumed and has no consumer. */
  ghost predicate Orphaned(s: State) {
    exists id :: id in s.inv.rows && s.inv.rows[id].status == I.Consumed && s.inv.rows[id].consumedBy.None?
  }

  /** A lost commit of this user would take effect now. */
  predicate ReadyToCommit(s: State, user: int) {
    user in s.fin && s.fin[user].Running? && s.fin[user].pc.ProfileEnsured?
  }

  lemma InviteStepConsumesNothing(s: I.State, a: I.Action)
    requires !a.ConsumeUpdate? && !a.ConsumeCommit? && !a.ConsumeRollback?
    ensures forall id :: id in I.Apply(s, a).rows && I.Apply(s, a).rows[id].status == I.Consumed ==>
      id in s.rows && s.rows[id].status == I.Consumed
  {
  }

  lemma OrphanStep(s: State, a: Action)
    requires Inv(s)
    ensures Orphaned(Apply(s, a)) <==> Orphaned(s) || (a.Compensate? && a.deleted && Lost(s, a.user))
  {
    var s' := Apply(s, a);
    StepFollows(s, a);
    match a
    case Invite(action) =>
      if s' != s {
        InviteStepConsumesNothing(s.inv, action);
        InviteStepKeepsConsumers(s.inv, action);
      }
    case Compensate(user, deleted) =>
      if deleted && Lost(s, user) {
        var id :| Owns(s, user, id);
        assert s'.inv.rows[id].status == I.Consumed && s'.inv.rows[id].consumedBy.None?;
      } else if s' != s {
        DeleteKeepsInv(s, user);
      }
    case Fail(user) =>
      if s' != s { RollbackKeepsInv(s, user); }
    case _ =>
  }

  lemma LostStep(s: State, a: Action, user: int)
    ensures Lost(Apply(s, a), user) <==>
            (Lost(s, user) && a != Compensate(user, true)) || (a == CommitLost(user) && ReadyToCommit(s, user))
  {
  }

  /** Action number i is a commit of this user that takes effect but is reported as a failure. */
  ghost predicate LosesCommit(s: State, acts: seq<Action>, i: int, user: int) {
    0 <= i < |acts| && acts[i] == CommitLost(user) && ReadyToCommit(Runs.Run(Apply, s, acts[..i]), user)
  }
  /** Some lost commit was followed by the compensating delete of its user. */
  ghost predicate LossCompensated(s: State, acts: seq<Action>) {
    exists i, j, user :: i < j < |acts| && LosesCommit(s, acts, i, user) && acts[j] == Compensate(user, true)
  }

  lemma LosesCommitEarlier(s: State, acts: seq<Action>, a: Action, i: int, user: int)
    requires i < |acts|
    ensures LosesCommit(s, acts + [a], i, user) <==> LosesCommit(s, acts, i, user)
  {
    if 0 <= i { assert (acts + [a])[..i] == acts[..i]; }
  }

  /** A user is lost exactly after an effective lost commit that no delete has followed. */
  lemma {:induction false} LostTraced(s: State, acts: seq<Action>, user: int)
    requires Initial(s)
    ensures Lost(Runs.Run(Apply, s, acts), user) ==> exists i :: LosesCommit(s, acts, i, user)
    ensures forall i :: LosesCommit(s, acts, i, user) ==>
      Lost(Runs.Run(Apply, s, acts), user) || exists j :: i < j < |acts| && acts[j] == Compensate(user, true)
    decreases |acts|
  {
    if acts != [] {
      var n := |acts| - 1;
      var front, a := acts[..n], acts[n];
      assert acts == front + [a];
      var before := Runs.Run(Apply, s, front);
      LostTraced(s, front, user);
      LostStep(before, a, user);
      forall i ensures LosesCommit(s, acts, i, user) <==>
                       LosesCommit(s, front, i, user) ||
                         (i == n && a == CommitLost(user) && ReadyToCommit(before, user)) {
        if i < n { LosesCommitEarlier(s, front, a, i, user); }
      }
      if Lost(before, user) {
        var i :| LosesCommit(s, front, i, user);
        assert LosesCommit(s, acts, i, user);
      } else if Lost(Runs.Run(Apply, s, acts), user) {
        assert LosesCommit(s, acts, n, user);
      }
      forall i | LosesCommit(s, acts, i, user)
        ensures Lost(Runs.Run(Apply, s, acts), user) || exists j :: i < j < |acts| && acts[j] == Compensate(user, true)
      {
        if i < n && !Lost(before, user) {
          var j :| i < j < |front| && front[j] == Compensate(user, true);
          assert acts[j] == Compensate(user, true);
        } else if i < n && a == Compensate(user, true) {
          assert acts[n] == Compensate(user, true);
        }
      }
    }
  }

  /** In every run an invite is consumed without a consumer exactly when some lost commit was later
      followed by the compensating delete of its user. */
  lemma {:induction false} OrphanedExactly(s: State, acts: seq<Action>)
    requires Initial(s) && forall id :: id in s.inv.rows ==> s.inv.rows[id].status != I.Consumed
    ensures Orphaned(Runs.Run(Apply, s, acts)) <==> LossCompensated(s, acts)
    decreases |acts|
  {
    if acts != [] {
      var n := |acts| - 1;
      var front, a := acts[..n], acts[n];
      assert acts == front + [a];
      OrphanedExactly(s, front);
      InvInEveryRun(s, front);
      OrphanStep(Runs.Run(Apply, s, front), a);
      CompensatedStep(s, front, a);
    }
  }

  /** The last action compensates a loss exactly when it deletes a user that is lost by then. */
  lemma CompensatedStep(s: State, front: seq<Action>, a: Action)
    requires Initial(s)
    ensures LossCompensated(s, front + [a]) <==>
            LossCompensated(s, front) || (a.Compensate? && a.deleted && Lost(Runs.Run(Apply, s, front), a.user))
  {
    var acts, n := front + [a], |front|;
    if LossCompensated(s, front) {
      var i, j, user :| i < j < n && LosesCommit(s, front, i, user) && front[j] == Compensate(user, true);
      LosesCommitEarlier(s, front, a, i, user);
      assert acts[j] == Compensate(user, true);
    }
    if a.Compensate? && a.deleted && Lost(Runs.Run(Apply, s, front), a.user) {
      LostTraced(s, front, a.user);
      var i :| LosesCommit(s, front, i, a.user);
      LosesCommitEarlier(s, front, a, i, a.user);
      assert acts[n] == Compensate(a.user, true);
    }
    if LossCompensated(s, acts) && !LossCompensated(s, front) {
      var i, j, user :| i < j < |acts| && LosesCommit(s, acts, i, user) && acts[j] == Compensate(user, true);
      LosesCommitEarlier(s, front, a, i, user);
      LostTraced(s, front, user);
      assert j == n;
    }
  }

  /** Every consumed invite has a consumer who is finalized. */
  ghost predicate ConsumedHaveConsumers(s: State) {
    forall id :: id in s.inv.rows && s.inv.rows[id].status == I.Consumed ==>
      exists user :: s.inv.rows[id].consumedBy == Some(user) && Finalized(s, user)
  }

  /** A consumed invite belongs to a finalized user in every run, unless a commit took effect, was
      reported as a failure, and the compensating delete of its user went through. */
  lemma ConsumedHaveConsumersExactly(s: State, acts: seq<Action>)
    requires Initial(s) && forall id :: id in s.inv.rows ==> s.inv.rows[id].status != I.Consumed
    ensures ConsumedHaveConsumers(Runs.Run(Apply, s, acts)) <==> !LossCompensated(s, acts)
  {
    var s' := Runs.Run(Apply, s, acts);
    OrphanedExactly(s, acts);
    InvInEveryRun(s, acts);
    if !Orphaned(s') {
      forall id | id in s'.inv.rows && s'.inv.rows[id].status == I.Consumed
        ensures exists user :: s'.inv.rows[id].consumedBy == Some(user) && Finalized(s', user)
      {
        var user := s'.inv.rows[id].consumedBy.value;
        assert Owns(s', user, id);
      }
    }
  }

  // ---- Such a run ----

  const LOSS_ROW := I.Invite("a", 1, I.Reserved, 1_000, Some(0), Some(7), None, None, I.AlphaStage1, B.NotCounted)
  const LOSS_INVITES := I.State(map[1 := LOSS_ROW], None, map[], {7})
  const LOSS_START := State(LOSS_INVITES, map[], {}, {}, map[])

  /** The state of the run while user 5 is in its transaction with the invite claimed. */
  function Claimed(pc: Pc): State {
    State(LOSS_INVITES.(claims := map[1 := I.Claim(5, 0)]), map[5 := None], {}, {}, map[5 := Running(1, 7, pc)])
  }

  const LOSS_BEGIN: seq<Action> := [SignUp(5), Begin(5, 1, 7, true), ConsumeInvite(5, 0)]
  const LOSS_WRITES: seq<Action> := [StoreAcceptance(5), MarkFinalized(5, 0), EnsureProfile(5)]
  const LOSS_END: seq<Action> := [CommitLost(5), Compensate(5, true)]

  lemma LossBegins()
    ensures Apply(Apply(Apply(LOSS_START, SignUp(5)), Begin(5, 1, 7, true)), ConsumeInvite(5, 0)) ==
      Claimed(InviteConsumed)
  {
    var signed := Apply(LOSS_START, SignUp(5));
    assert signed == LOSS_START.(users := map[5 := None], fin := map[5 := NotStarted]);
    var begun := Apply(signed, Begin(5, 1, 7, true));
    assert begun == signed.(fin := map[5 := Running(1, 7, Begun)]);
  }

  lemma LossWrites()
    ensures Apply(Apply(Apply(Claimed(InviteConsumed), StoreAcceptance(5)), MarkFinalized(5, 0)), EnsureProfile(5)) ==
            Claimed(ProfileEnsured(0))
  {
    assert Apply(Claimed(InviteConsumed), StoreAcceptance(5)) == Claimed(AcceptanceStored);
    assert Apply(Claimed(AcceptanceStored), MarkFinalized(5, 0)) == Claimed(UserMarked(0));
  }

  lemma LossRunReady()
    ensures Runs.Run(Apply, LOSS_START, LOSS_BEGIN + LOSS_WRITES) == Claimed(ProfileEnsured(0))
  {
    Runs.RunAppend(Apply, LOSS_START, LOSS_BEGIN, LOSS_WRITES);
    Runs.RunThree(Apply, LOSS_START, SignUp(5), Begin(5, 1, 7, true), ConsumeInvite(5, 0));
    LossBegins();
    Runs.RunThree(Apply, Claimed(InviteConsumed), StoreAcceptance(5), MarkFinalized(5, 0), EnsureProfile(5));
    LossWrites();
  }

  lemma LossIsCompensated(s: State, ready: seq<Action>, user: int)
    requires ReadyToCommit(Runs.Run(Apply, s, ready), user)
    ensures LossCompensated(s, ready + [CommitLost(user), Compensate(user, true)])
  {
    var acts := ready + [CommitLost(user), Compensate(user, true)];
    assert acts[..|ready|] == ready;
    assert LosesCommit(s, acts, |ready|, user) && acts[|ready| + 1] == Compensate(user, true);
  }

  /** A run that loses a commit and compensates it leaves the invite consumed by nobody. */
  lemma LossCanHappen()
    ensures Initial(LOSS_START) && LossCompensated(LOSS_START, LOSS_BEGIN + LOSS_WRITES + LOSS_END)
    ensures Orphaned(Runs.Run(Apply, LOSS_START, LOSS_BEGIN + LOSS_WRITES + LOSS_END))
  {
    LossRunReady();
    assert I.LiveIds(LOSS_START.inv.rows) == {1};
    LossIsCompensated(LOSS_START, LOSS_BEGIN + LOSS_WRITES, 5);
    OrphanedExactly(LOSS_START, LOSS_BEGIN + LOSS_WRITES + LOSS_END);
  }
}
