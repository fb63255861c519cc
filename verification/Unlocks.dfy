// Submitting an unlock answer: the attempt and the unlock are written in one transaction, any
// number of which run at once, and any statement of which may fail.

module Unlocks {
  import opened Options
  import A = AnswerText
  import D = DepthHeuristic
  import Runs

  datatype Target = Target(owner: int, onboarded: bool)
  datatype Attempt = Attempt(viewer: int, profile: int, verdict: D.Verdict)
  datatype Unlock = Unlock(viewer: int, profile: int)

  datatype Pc = Begun | AttemptInserted | UnlockInserted(id: int) | ConflictSeen | UnlockFound
  datatype Tx = Tx(attempt: Attempt, pc: Pc)

  /** Committed rows, and the open transactions with their uncommitted ones. */
  datatype State = State(targets: map<int, Target>, attempts: seq<Attempt>, unlocks: map<int, Unlock>,
    txs: map<int, Tx>)

  datatype Action =
    | AddTarget(profile: int, owner: int, onboarded: bool)
    | Submit(tx: int, attempt: Attempt)
    | Statement(tx: int, newId: int)
    | Fail(tx: int)

  predicate RowFor(unlocks: map<int, Unlock>, u: Unlock, id: int) { id in unlocks && unlocks[id] == u }
  ghost predicate HasRow(unlocks: map<int, Unlock>, u: Unlock) { exists id :: RowFor(unlocks, u, id) }
  function RowOf(t: Tx): Unlock { Unlock(t.attempt.viewer, t.attempt.profile) }

  /** Another open transaction has inserted this pair or this id. */
  ghost predicate InFlight(s: State, tx: int, u: Unlock, id: int) {
    exists other :: other in s.txs && other != tx && s.txs[other].pc.UnlockInserted? &&
      (RowOf(s.txs[other]) == u || s.txs[other].pc.id == id)
  }

  /** The checks before the transaction: the target exists, is onboarded and is not the viewer's own. */
  predicate Submittable(targets: map<int, Target>, a: Attempt) {
    a.profile in targets && targets[a.profile].onboarded && targets[a.profile].owner != a.viewer
  }

  function Goto(s: State, tx: int, pc: Pc): State
    requires tx in s.txs
  {
    s.(txs := s.txs[tx := s.txs[tx].(pc := pc)])
  }
  function End(s: State, tx: int): State { s.(txs := s.txs - {tx}) }

  function Committed(s: State, tx: int): State
    requires tx in s.txs
  {
    var t := s.txs[tx];
    End(s.(attempts := s.attempts + [t.attempt],
           unlocks := if t.pc.UnlockInserted? then s.unlocks[t.pc.id := RowOf(t)] else s.unlocks), tx)
  }

  /** INSERT ... ON CONFLICT DO NOTHING waits for an uncommitted row of the same pair. */
  ghost function InsertUnlock(s: State, tx: int, newId: int): State
    requires tx in s.txs
  {
    var u := RowOf(s.txs[tx]);
    if HasRow(s.unlocks, u) then Goto(s, tx, ConflictSeen)
    else if InFlight(s, tx, u, newId) then s
    else if newId in s.unlocks then End(s, tx)
    else Goto(s, tx, UnlockInserted(newId))
  }

  ghost function Execute(s: State, tx: int, newId: int): State
    requires tx in s.txs
  {
    var t := s.txs[tx];
    match t.pc
    case Begun => Goto(s, tx, AttemptInserted)
    case AttemptInserted => if t.attempt.verdict == D.Pass then InsertUnlock(s, tx, newId) else Committed(s, tx)
    case ConflictSeen => if HasRow(s.unlocks, RowOf(t)) then Goto(s, tx, UnlockFound) else End(s, tx)
    case UnlockInserted(_) => Committed(s, tx)
    case UnlockFound => Committed(s, tx)
  }

  ghost function Apply(s: State, a: Action): State {
    match a
    case AddTarget(profile, owner, onboarded) =>
      if profile in s.targets && s.targets[profile].owner != owner then s
      else s.(targets := s.targets[profile := Target(owner, onboarded)])
    case Submit(tx, attempt) =>
      if tx in s.txs || !Submittable(s.targets, attempt) then s else s.(txs := s.txs[tx := Tx(attempt, Begun)])
    case Statement(tx, newId) => if tx in s.txs then Execute(s, tx, newId) else s
    case Fail(tx) => End(s, tx)
  }

  // ---- The invariant ----

  ghost predicate Passed(attempts: seq<Attempt>, u: Unlock) { Attempt(u.viewer, u.profile, D.Pass) in attempts }

  ghost predicate OneRowPerPair(unlocks: map<int, Unlock>) {
    forall i, j | i in unlocks && j in unlocks :: unlocks[i] == unlocks[j] ==> i == j
  }

  predicate NotOwn(targets: map<int, Target>, viewer: int, profile: int) {
    profile in targets && targets[profile].owner != viewer
  }

  ghost predicate TxOk(s: State, tx: int, t: Tx) {
    && NotOwn(s.targets, t.attempt.viewer, t.attempt.profile)
    && (!t.pc.Begun? && !t.pc.AttemptInserted? ==> t.attempt.verdict == D.Pass)
    && (t.pc.ConflictSeen? || t.pc.UnlockFound? ==> HasRow(s.unlocks, RowOf(t)))
    && (t.pc.UnlockInserted? ==>
      t.pc.id !in s.unlocks && !HasRow(s.unlocks, RowOf(t)) && !InFlight(s, tx, RowOf(t), t.pc.id))
  }

  ghost predicate Inv(s: State) {
    && OneRowPerPair(s.unlocks)
    && (forall u :: HasRow(s.unlocks, u) <==> Passed(s.attempts, u))
    && (forall id :: id in s.unlocks ==> NotOwn(s.targets, s.unlocks[id].viewer, s.unlocks[id].profile))
    && (forall tx :: tx in s.txs ==> TxOk(s, tx, s.txs[tx]))
  }

  lemma CommitInsertKeepsTables(s: State, tx: int)
    requires Inv(s) && tx in s.txs && s.txs[tx].pc.UnlockInserted?
    ensures var s' := Committed(s, tx);
            && OneRowPerPair(s'.unlocks)
            && (forall u :: HasRow(s'.unlocks, u) <==> HasRow(s.unlocks, u) || u == RowOf(s.txs[tx]))
            && (forall u :: Passed(s'.attempts, u) <==> Passed(s.attempts, u) || u == RowOf(s.txs[tx]))
  {
    var s', t := Committed(s, tx), s.txs[tx];
    forall i | i in s.unlocks ensures s.unlocks[i] != RowOf(t) {
      assert RowFor(s.unlocks, s.unlocks[i], i);
    }
    forall u ensures HasRow(s'.unlocks, u) <==> HasRow(s.unlocks, u) || u == RowOf(t) {
      assert RowFor(s'.unlocks, RowOf(t), t.pc.id);
      if HasRow(s.unlocks, u) {
        var i :| RowFor(s.unlocks, u, i);
        assert RowFor(s'.unlocks, u, i);
      }
      if HasRow(s'.unlocks, u) && u != RowOf(t) {
        var i :| RowFor(s'.unlocks, u, i);
        assert RowFor(s.unlocks, u, i);
      }
    }
  }

  /** Committing one transaction leaves the others' claims in order. */
  lemma OthersSurviveCommit(s: State, tx: int, other: int)
    requires Inv(s) && tx in s.txs && other in s.txs && other != tx
    ensures TxOk(Committed(s, tx), other, s.txs[other])
  {
    var s', t, u := Committed(s, tx), s.txs[tx], s.txs[other];
    if t.pc.UnlockInserted? {
      CommitInsertKeepsTables(s, tx);
      assert u.pc.UnlockInserted? ==> RowOf(u) != RowOf(t) && u.pc.id != t.pc.id;
    }
  }

  lemma CommitKeepsInv(s: State, tx: int)
    requires Inv(s) && tx in s.txs
    requires var t := s.txs[tx];
             t.pc.UnlockInserted? || t.pc.UnlockFound? || (t.pc.AttemptInserted? && t.attempt.verdict != D.Pass)
    ensures Inv(Committed(s, tx))
  {
    var s', t := Committed(s, tx), s.txs[tx];
    if t.pc.UnlockInserted? {
      CommitInsertKeepsTables(s, tx);
    } else {
      assert forall u :: Passed(s'.attempts, u) <==>
        Passed(s.attempts, u) || (t.attempt.verdict == D.Pass && u == RowOf(t));
    }
    forall other | other in s'.txs ensures TxOk(s', other, s'.txs[other]) {
      OthersSurviveCommit(s, tx, other);
    }
  }

  /** Steps that write only the stepping transaction's own progress. */
  lemma ProgressKeepsInv(s: State, s': State, tx: int)
    requires Inv(s) && s' == s.(txs := s'.txs) && s'.txs - {tx} == s.txs - {tx}
    requires tx in s'.txs ==> TxOk(s', tx, s'.txs[tx])
    requires tx in s'.txs && s'.txs[tx].pc.UnlockInserted? ==>
      tx in s.txs && !InFlight(s, tx, RowOf(s'.txs[tx]), s'.txs[tx].pc.id)
    ensures Inv(s')
  {
    forall other | other != tx ensures (other in s'.txs <==> other in s.txs) &&
      (other in s.txs ==> s'.txs[other] == s.txs[other]) {
      assert other in s'.txs - {tx} <==> other in s.txs - {tx};
      assert other in s.txs ==> (s'.txs - {tx})[other] == (s.txs - {tx})[other];
    }
    forall other | other in s'.txs && other != tx ensures TxOk(s', other, s'.txs[other]) {
      var u := s.txs[other];
      assert TxOk(s, other, u);
      if u.pc.UnlockInserted? && InFlight(s', other, RowOf(u), u.pc.id) {
        var w :| w in s'.txs && w != other && s'.txs[w].pc.UnlockInserted? &&
          (RowOf(s'.txs[w]) == RowOf(u) || s'.txs[w].pc.id == u.pc.id);
        assert false;
      }
    }
  }

  lemma InsertUnlockKeepsInv(s: State, tx: int, newId: int)
    requires Inv(s) && tx in s.txs && s.txs[tx].pc.AttemptInserted? && s.txs[tx].attempt.verdict == D.Pass
    ensures Inv(InsertUnlock(s, tx, newId))
  {
  }

  lemma StepKeepsInv(s: State, a: Action)
    requires Inv(s)
    ensures Inv(Apply(s, a))
  {
    var s' := Apply(s, a);
    match a
    case AddTarget(_, _, _) =>
      forall tx | tx in s'.txs ensures TxOk(s', tx, s'.txs[tx]) { assert TxOk(s, tx, s.txs[tx]); }
    case Submit(tx, _) => if s' != s { ProgressKeepsInv(s, s', tx); }
    case Fail(tx) => ProgressKeepsInv(s, s', tx);
    case Statement(tx, newId) =>
      if tx in s.txs {
        var t := s.txs[tx];
        if t.pc.AttemptInserted? && t.attempt.verdict == D.Pass {
          InsertUnlockKeepsInv(s, tx, newId);
        } else if t.pc.Begun? || t.pc.ConflictSeen? {
          ProgressKeepsInv(s, s', tx);
        } else {
          CommitKeepsInv(s, tx);
        }
      }
  }

  // ---- Whole runs ----

  /** In every run of concurrent and failing submissions a pair has an unlock row exactly when a
      committed attempt passed for it, has at most one, and never names the viewer's own profile. */
  lemma UnlockedExactlyWhenPassed(targets: map<int, Target>, acts: seq<Action>, u: Unlock)
    ensures var s := Runs.Run(Apply, State(targets, [], map[], map[]), acts);
            && (HasRow(s.unlocks, u) <==> Passed(s.attempts, u))
            && |Rows(s.unlocks, u)| == (if HasRow(s.unlocks, u) then 1 else 0)
            && (HasRow(s.unlocks, u) ==> NotOwn(s.targets, u.viewer, u.profile))
  {
    var s0 := State(targets, [], map[], map[]);
    assert Inv(s0);
    forall x: State, a: Action | Inv(x) ensures Inv(Apply(x, a)) {
      StepKeepsInv(x, a);
    }
    Runs.RunKeeps(Apply, Inv, s0, acts);
    RowsCount(Runs.Run(Apply, s0, acts).unlocks, u);
  }

  function Rows(unlocks: map<int, Unlock>, u: Unlock): set<int> { set id | id in unlocks && unlocks[id] == u }

  lemma RowsCount(unlocks: map<int, Unlock>, u: Unlock)
    requires OneRowPerPair(unlocks)
    ensures |Rows(unlocks, u)| == if HasRow(unlocks, u) then 1 else 0
  {
    if id :| RowFor(unlocks, u, id) {
      forall j ensures j in Rows(unlocks, u) <==> j == id {
        assert j in unlocks && unlocks[j] == u ==> RowFor(unlocks, u, j);
      }
      assert Rows(unlocks, u) == {id};
    } else {
      forall id ensures id !in Rows(unlocks, u) {
        assert !RowFor(unlocks, u, id);
      }
      assert Rows(unlocks, u) == {};
    }
  }

  // ---- The procedures ----

  const MIN_ANSWER_LEN := 12
  const MAX_ANSWER_LEN := 800

  /** A trimmed profile id as it arrives: empty, no UUID, or the id of some row. */
  datatype ProfileId = Blank | NotUuid | Uuid(id: int)
  datatype Question = Configured | NotConfigured | LookupFailed

  datatype SubmitResult =
    | Evaluated(verdict: D.Verdict, unlocked: bool, idempotent: bool)
    | InvalidBody | InvalidProfileId | ProfileNotFound | ProfileNotOnboarded | SelfUnlockNotAllowed
    | QuestionNotConfigured | ServiceUnavailable | PersistenceFailed

  datatype StatusResult = Status(unlocked: bool, count: nat) | StatusInvalidId | StatusNotFound | StatusUnavailable

  /** The body limits count UTF-16 code units of the trimmed answer. */
  predicate BodyOk(profile: ProfileId, text: string) {
    profile != Blank && 12 <= A.Utf16Length(A.Trim(text)) <= 800
  }

  /** The submission gets as far as the evaluation. */
  predicate Evaluable(targets: map<int, Target>, viewer: int, profile: ProfileId, text: string, lookupUp: bool,
    question: Question) {
    BodyOk(profile, text) && profile.Uuid? && lookupUp && question == Configured &&
    profile.id in targets && targets[profile.id].onboarded && targets[profile.id].owner != viewer
  }

  /** Each refusal before the evaluation, and exactly when it is given. */
  ghost predicate RefusedFor(targets: map<int, Target>, viewer: int, profile: ProfileId, text: string, lookupUp: bool,
    question: Question, r: SubmitResult) {
    var asked := BodyOk(profile, text) && profile.Uuid?;
    var found := asked && lookupUp && profile.id in targets;
    var allowed := found && targets[profile.id].onboarded && targets[profile.id].owner != viewer;
    && (r == InvalidBody <==> !BodyOk(profile, text))
    && (r == InvalidProfileId <==> BodyOk(profile, text) && profile == NotUuid)
    && (r == ProfileNotFound <==> asked && lookupUp && profile.id !in targets)
    && (r == ProfileNotOnboarded <==> found && !targets[profile.id].onboarded)
    && (r == SelfUnlockNotAllowed <==>
          found && targets[profile.id].onboarded && targets[profile.id].owner == viewer)
    && (r == QuestionNotConfigured <==> allowed && question == NotConfigured)
    && (r == ServiceUnavailable <==> (asked && !lookupUp) || (allowed && question == LookupFailed))
  }

  class Database {
    var targets: map<int, Target>
    var attempts: seq<Attempt>
    var unlocks: map<int, Unlock>

    ghost function Tables(): State reads this { State(targets, attempts, unlocks, map[]) }
    ghost predicate Valid() reads this { Inv(Tables()) }

    /** Inserting an existing pair reports its row; a fresh pair gets the new id. */
    method CreateUnlock(viewer: int, profile: int, newId: int, storageUp: bool) returns (ok: bool, inserted: bool)
      requires newId !in unlocks
      modifies `unlocks
      ensures ok <==> storageUp
      ensures inserted <==> ok && !HasRow(old(unlocks), Unlock(viewer, profile))
      ensures unlocks == if inserted then old(unlocks)[newId := Unlock(viewer, profile)] else old(unlocks)
      ensures ok ==> HasRow(unlocks, Unlock(viewer, profile))
    {
      var u := Unlock(viewer, profile);
      if !storageUp { return false, false; }
      if id :| id in unlocks && RowFor(unlocks, u, id) { return true, false; }
      unlocks := unlocks[newId := u];
      assert RowFor(unlocks, u, newId);
      return true, true;
    }

    /** One undisturbed submission; the flags tell which lookups and inserts work. */
    method SubmitDbUnlockAnswer(
        viewer: int, profile: ProfileId, text: string, lookupUp: bool, question: Question,
        newId: int, attemptUp: bool, unlockUp: bool)
      returns (r: SubmitResult)
      requires Valid() && newId !in unlocks
      modifies this
      ensures Valid() && targets == old(targets)
      ensures RefusedFor(targets, viewer, profile, text, lookupUp, question, r)
      ensures r.Evaluated? || r == PersistenceFailed <==> Evaluable(targets, viewer, profile, text, lookupUp, question)
      ensures r == PersistenceFailed <==>
                Evaluable(targets, viewer, profile, text, lookupUp, question) &&
                (!attemptUp || (!unlockUp && D.Evaluate(A.Read(text)).verdict == D.Pass))
      ensures r.Evaluated? ==>
                && r.verdict == D.Evaluate(A.Read(text)).verdict
                && attempts == old(attempts) + [Attempt(viewer, profile.id, r.verdict)]
                && (r.unlocked <==> r.verdict == D.Pass)
                && (r.unlocked ==> HasRow(unlocks, Unlock(viewer, profile.id)))
                && (r.idempotent <==> r.unlocked && HasRow(old(unlocks), Unlock(viewer, profile.id)))
                && unlocks == (if r.unlocked && !r.idempotent then old(unlocks)[newId := Unlock(viewer, profile.id)]
                               else old(unlocks))
      ensures !r.Evaluated? ==> attempts == old(attempts) && unlocks == old(unlocks)
    {
      var refusal := Check(viewer, profile, text, lookupUp, question);
      if refusal.Some? { return refusal.value; }
      var evaluation := D.EvaluateDepthAnswer(A.Trim(text));
      A.ReadTrimmed(text);
      r := Persist(viewer, profile.id, evaluation.verdict, newId, attemptUp, unlockUp);
    }

    /** The checks before the evaluation, in order. */
    method Check(viewer: int, profile: ProfileId, text: string, lookupUp: bool, question: Question)
      returns (r: Option<SubmitResult>)
      ensures r.None? <==> Evaluable(targets, viewer, profile, text, lookupUp, question)
      ensures r != Some(PersistenceFailed) && (r.Some? ==> !r.value.Evaluated?)
      ensures r.Some? ==> RefusedFor(targets, viewer, profile, text, lookupUp, question, r.value)
    {
      var answer := A.Trim(text);
      if profile == Blank || answer == "" { return Some(InvalidBody); }
      if A.Utf16Length(answer) < MIN_ANSWER_LEN || A.Utf16Length(answer) > MAX_ANSWER_LEN { return Some(InvalidBody); }
      if profile == NotUuid { return Some(InvalidProfileId); }
      if !lookupUp { return Some(ServiceUnavailable); }
      var id := profile.id;
      if id !in targets { return Some(ProfileNotFound); }
      if !targets[id].onboarded { return Some(ProfileNotOnboarded); }
      if targets[id].owner == viewer { return Some(SelfUnlockNotAllowed); }
      if question == LookupFailed { return Some(ServiceUnavailable); }
      if question == NotConfigured { return Some(QuestionNotConfigured); }
      return None;
    }

    /** The transaction: both rows or neither. */
    method Persist(viewer: int, profile: int, verdict: D.Verdict, newId: int, attemptUp: bool, unlockUp: bool)
      returns (r: SubmitResult)
      requires Valid() && newId !in unlocks && Submittable(targets, Attempt(viewer, profile, verdict))
      modifies `attempts, `unlocks
      ensures Valid()
      ensures if !attemptUp || (!unlockUp && verdict == D.Pass)
              then r == PersistenceFailed && attempts == old(attempts) && unlocks == old(unlocks)
              else
                var already := HasRow(old(unlocks), Unlock(viewer, profile));
                && r == Evaluated(verdict, verdict == D.Pass, verdict == D.Pass && already)
                && attempts == old(attempts) + [Attempt(viewer, profile, verdict)]
                && (verdict == D.Pass ==> HasRow(unlocks, Unlock(viewer, profile)))
                && unlocks == (if verdict == D.Pass && !already then old(unlocks)[newId := Unlock(viewer, profile)]
                               else old(unlocks))
    {
      var attempts0 := attempts;
      ghost var before := Tables();
      if !attemptUp { return PersistenceFailed; }
      var attempt := Attempt(viewer, profile, verdict);
      attempts := attempts + [attempt];
      if verdict != D.Pass {
        SubmissionCommits(before, attempt, newId);
        return Evaluated(verdict, false, false);
      }
      var ok, inserted := CreateUnlock(viewer, profile, newId, unlockUp);
      if !ok {
        attempts := attempts0;
        return PersistenceFailed;
      }
      SubmissionCommits(before, attempt, newId);
      return Evaluated(verdict, true, !inserted);
    }

    /** A passing attempt was committed if and only if the count is one. */
    method CountUnlocks(viewer: int, profile: int) returns (count: nat)
      ensures count == |Rows(unlocks, Unlock(viewer, profile))|
      ensures Valid() ==> count == if Passed(attempts, Unlock(viewer, profile)) then 1 else 0
    {
      count := |set id | id in unlocks && unlocks[id] == Unlock(viewer, profile)|;
      if Valid() { RowsCount(unlocks, Unlock(viewer, profile)); }
    }

    method HasUnlock(viewer: int, profile: int) returns (found: bool)
      ensures found <==> HasRow(unlocks, Unlock(viewer, profile))
      ensures Valid() ==> (found <==> Passed(attempts, Unlock(viewer, profile)))
    {
      found := exists id :: id in unlocks && RowFor(unlocks, Unlock(viewer, profile), id);
    }

    /** Counting exactly one row and finding a row are the same answer. */
    method GetDbUnlockStatus(viewer: int, profile: ProfileId, lookupUp: bool, countUp: bool) returns (r: StatusResult)
      requires Valid()
      ensures r == StatusInvalidId <==> !profile.Uuid?
      ensures r == StatusNotFound <==> profile.Uuid? && lookupUp && profile.id !in targets
      ensures r.Status? <==> profile.Uuid? && lookupUp && profile.id in targets && countUp
      ensures r.Status? ==>
                (r.unlocked <==> Passed(attempts, Unlock(viewer, profile.id))) && r.count == if r.unlocked then 1 else 0
    {
      if !profile.Uuid? { return StatusInvalidId; }
      if !lookupUp { return StatusUnavailable; }
      if profile.id !in targets { return StatusNotFound; }
      if !countUp { return StatusUnavailable; }
      var count := CountUnlocks(viewer, profile.id);
      return Status(count == 1, count);
    }
  }

  /** A submission run alone leaves the tables its transaction commits. */
  lemma SubmissionCommits(s: State, a: Attempt, newId: int)
    requires Inv(s) && s.txs == map[] && Submittable(s.targets, a) && newId !in s.unlocks
    ensures var inserts := a.verdict == D.Pass && !HasRow(s.unlocks, Unlock(a.viewer, a.profile));
            Inv(s.(attempts := s.attempts + [a],
                   unlocks := if inserts then s.unlocks[newId := Unlock(a.viewer, a.profile)] else s.unlocks))
  {
    var pc := if a.verdict != D.Pass then AttemptInserted
              else if HasRow(s.unlocks, Unlock(a.viewer, a.profile)) then UnlockFound else UnlockInserted(newId);
    var open := s.(txs := map[0 := Tx(a, pc)]);
    CommitKeepsInv(open, 0);
    assert Committed(open, 0).txs == map[];
  }

  /** A transaction opens exactly for an existing, onboarded profile of somebody else. */
  lemma SubmitOpensExactly(s: State, tx: int, a: Attempt)
    ensures tx in Apply(s, Submit(tx, a)).txs && tx !in s.txs <==>
            && tx !in s.txs && a.profile in s.targets && s.targets[a.profile].onboarded
            && s.targets[a.profile].owner != a.viewer
    ensures tx !in s.txs && tx in Apply(s, Submit(tx, a)).txs ==>
      Apply(s, Submit(tx, a)) == s.(txs := s.txs[tx := Tx(a, Begun)])
  {
  }

  /** The statements of one submission with nobody else writing, the last ones idle if it needs fewer. */
  ghost function SubmitAlone(s: State, tx: int, a: Attempt, newId: int): State {
    var statement := Statement(tx, newId);
    Apply(Apply(Apply(Apply(Apply(s, Submit(tx, a)), statement), statement), statement), statement)
  }

  /** A submission run alone records its attempt, whatever its verdict, and a first PASS unlocks. */
  lemma SubmissionAlone(s: State, tx: int, a: Attempt, newId: int)
    requires s.txs == map[] && Submittable(s.targets, a) && newId !in s.unlocks
    ensures var inserts := a.verdict == D.Pass && !HasRow(s.unlocks, Unlock(a.viewer, a.profile));
            SubmitAlone(s, tx, a, newId) == s.(attempts := s.attempts + [a],
              unlocks := if inserts then s.unlocks[newId := Unlock(a.viewer, a.profile)] else s.unlocks)
  {
    var begun := s.(txs := map[tx := Tx(a, Begun)]);
    assert Apply(s, Submit(tx, a)) == begun;
    var inserted := s.(txs := map[tx := Tx(a, AttemptInserted)]);
    assert Execute(begun, tx, newId) == inserted;
    assert map[tx := Tx(a, AttemptInserted)] - {tx} == map[];
    assert !InFlight(inserted, tx, RowOf(inserted.txs[tx]), newId);
    if a.verdict == D.Pass {
      var pc := if HasRow(s.unlocks, Unlock(a.viewer, a.profile)) then ConflictSeen else UnlockInserted(newId);
      var tried := s.(txs := map[tx := Tx(a, pc)]);
      assert Execute(inserted, tx, newId) == tried;
      assert map[tx := Tx(a, pc)] - {tx} == map[];
      if pc.ConflictSeen? {
        assert Execute(tried, tx, newId) == s.(txs := map[tx := Tx(a, UnlockFound)]);
        assert map[tx := Tx(a, UnlockFound)] - {tx} == map[];
      }
    }
  }
}
