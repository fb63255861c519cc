// Whole runs of concurrent, crashing and retried onboarding saves, and recovery from any of them.

module OnboardingTheorems {
  import opened Onboarding
  import Runs

  ghost predicate Initial(s: State) { UniqueRows(s) && OnboardedComplete(s) && s.calls == map[] }

  /** In every run an onboarded profile has a stored answer with its evaluation, there is one
      answer per user and question, one evaluation per answer, and no evaluation without its
      answer; a call that reported success left the profile onboarded. */
  lemma OnboardedOnlyWhenComplete(s: State, acts: seq<Action>)
    requires Initial(s)
    ensures var s' := Runs.Run(Apply, s, acts); Inv(s') && UniqueRows(s') && OnboardedComplete(s')
    ensures var s' := Runs.Run(Apply, s, acts);
            forall user :: user in s'.profiles && s'.profiles[user].onboarded ==>
              exists id, e :: id in s'.answers && s'.answers[id].user == user && e in s'.evaluations &&
                s'.evaluations[e].answerId == id
  {
    forall x: State, a: Action | Inv(x) ensures Inv(Apply(x, a)) {
      StepKeepsInv(x, a);
    }
    Runs.RunKeeps(Apply, Inv, s, acts);
    var s' := Runs.Run(Apply, s, acts);
    forall user | user in s'.profiles && s'.profiles[user].onboarded
      ensures exists id, e ::
        id in s'.answers && s'.answers[id].user == user && e in s'.evaluations && s'.evaluations[e].answerId == id
    {
      assert Complete(s', user);
      var id :| id in s'.answers && s'.answers[id].user == user && HasEvaluation(s'.evaluations, id);
      var e :| e in s'.evaluations && s'.evaluations[e].answerId == id;
    }
  }

  // ---- Where the contents come from ----

  ghost predicate Wrote(s: State, call: int, id: int) {
    && call in s.calls && id in s.answers
    && var i := s.calls[call].input; s.answers[id] == Answer(i.user, i.question, i.text)
  }
  ghost predicate Judged(s: State, call: int, e: int) {
    && call in s.calls && e in s.evaluations
    && var i := s.calls[call].input;
       AnswerFor(s.answers, i.user, i.question, s.evaluations[e].answerId) &&
         s.evaluations[e] == Evaluation(s.evaluations[e].answerId, i.user, i.verdict)
  }
  ghost predicate Named(s: State, call: int, user: int) {
    call in s.calls && user in s.profiles && s.calls[call].input.user == user &&
      s.profiles[user].nickname == s.calls[call].input.nickname
  }

  /** Every row was there at the start or carries the contents of one call for it. */
  ghost predicate Traced(s0: State, s: State) {
    && (forall id :: id in s.answers ==>
      (id in s0.answers && s.answers[id] == s0.answers[id]) || exists call :: Wrote(s, call, id))
    && (forall e :: e in s.evaluations ==>
      (e in s0.evaluations && s.evaluations[e] == s0.evaluations[e]) || exists call :: Judged(s, call, e))
    && (forall u :: u in s.profiles ==>
          (u in s0.profiles && s.profiles[u].nickname == s0.profiles[u].nickname) || exists call :: Named(s, call, u))
  }

  /** What one statement of a call may change. */
  ghost predicate WritesOwn(s: State, s': State, call: int) {
    && call in s'.calls
    && (forall c :: c in s.calls ==> c in s'.calls && s'.calls[c].input == s.calls[c].input)
    && (forall id :: id in s.answers ==> id in s'.answers && s'.answers[id] == s.answers[id])
    && (forall id :: id in s'.answers && id !in s.answers ==> Wrote(s', call, id))
    && (forall e :: e in s'.evaluations ==>
          (e in s.evaluations && s'.evaluations[e] == s.evaluations[e]) || Judged(s', call, e))
    && (forall u :: u in s'.profiles ==>
          (u in s.profiles && s'.profiles[u].nickname == s.profiles[u].nickname) || Named(s', call, u))
  }

  lemma UpsertWritesOwn(s: State, call: int, o: Outcome, newId: int)
    requires Inv(s) && call in s.calls
    requires s.calls[call].pc.UpdateProfile? || s.calls[call].pc.InsertProfile?
    ensures WritesOwn(s, Execute(s, call, o, newId), call)
  {
    assert CallOk(s, s.calls[call]);
  }

  lemma MarkWritesOwn(s: State, call: int, o: Outcome, newId: int)
    requires Inv(s) && call in s.calls
    requires s.calls[call].pc.MarkOnboarded?
    ensures WritesOwn(s, Execute(s, call, o, newId), call)
  {
    assert CallOk(s, s.calls[call]);
  }

  lemma InsertAnswerWritesOwn(s: State, call: int, o: Outcome, newId: int)
    requires Inv(s) && call in s.calls
    requires s.calls[call].pc.InsertAnswer?
    ensures WritesOwn(s, Execute(s, call, o, newId), call)
  {
    assert CallOk(s, s.calls[call]);
  }

  lemma InsertEvaluationWritesOwn(s: State, call: int, o: Outcome, newId: int)
    requires Inv(s) && call in s.calls
    requires s.calls[call].pc.InsertFirstEvaluation? || s.calls[call].pc.InsertMissingEvaluation?
    ensures WritesOwn(s, Execute(s, call, o, newId), call)
  {
    assert CallOk(s, s.calls[call]);
  }

  lemma ReadsWriteNothing(s: State, call: int, o: Outcome, newId: int)
    requires call in s.calls
    requires var pc := s.calls[call].pc;
             pc.FindAnswer? || pc.FindDuplicate? || pc.ReconcileProfile? || pc.ReadProfile? || pc.CheckEvaluation? ||
               pc.Done?
    ensures WritesOwn(s, Execute(s, call, o, newId), call)
  {
    var s' := Execute(s, call, o, newId);
    assert s'.answers == s.answers && s'.evaluations == s.evaluations && s'.profiles == s.profiles;
  }

  lemma StepWritesOwn(s: State, call: int, o: Outcome, newId: int)
    requires Inv(s) && call in s.calls
    ensures WritesOwn(s, Execute(s, call, o, newId), call)
  {
    match s.calls[call].pc
    case UpdateProfile(_) => UpsertWritesOwn(s, call, o, newId);
    case InsertProfile(_) => UpsertWritesOwn(s, call, o, newId);
    case InsertAnswer => InsertAnswerWritesOwn(s, call, o, newId);
    case InsertFirstEvaluation(_) => InsertEvaluationWritesOwn(s, call, o, newId);
    case InsertMissingEvaluation(_) => InsertEvaluationWritesOwn(s, call, o, newId);
    case MarkOnboarded(_, _) => MarkWritesOwn(s, call, o, newId);
    case _ => ReadsWriteNothing(s, call, o, newId);
  }

  lemma WritesOwnTraced(s0: State, s: State, s': State, call: int)
    requires Traced(s0, s) && WritesOwn(s, s', call)
    ensures Traced(s0, s')
  {
    forall id | id in s'.answers && !(id in s0.answers && s'.answers[id] == s0.answers[id])
      ensures exists c :: Wrote(s', c, id)
    {
      if id in s.answers {
        var c :| Wrote(s, c, id);
        assert Wrote(s', c, id);
      }
    }
    forall e | e in s'.evaluations && !(e in s0.evaluations && s'.evaluations[e] == s0.evaluations[e])
      ensures exists c :: Judged(s', c, e)
    {
      if !Judged(s', call, e) {
        var c :| Judged(s, c, e);
        assert Judged(s', c, e);
      }
    }
    forall u | u in s'.profiles && !(u in s0.profiles && s'.profiles[u].nickname == s0.profiles[u].nickname)
      ensures exists c :: Named(s', c, u)
    {
      if !Named(s', call, u) {
        var c :| Named(s, c, u);
        assert Named(s', c, u);
      }
    }
  }

  lemma StepKeepsTraced(s0: State, s: State, a: Action)
    requires Inv(s) && Traced(s0, s)
    ensures Traced(s0, Apply(s, a))
  {
    if a.Start? {
      WritesOwnTraced(s0, s, Apply(s, a), a.call);
    } else if a.call in s.calls {
      StepWritesOwn(s, a.call, a.outcome, a.newId);
      WritesOwnTraced(s0, s, Apply(s, a), a.call);
    }
  }

  /** In every run, with whatever crashes, failures and races, each answer holds the text of a call
      by its user for its question, each evaluation the verdict of such a call, and each profile the
      nickname of a call by its user, unless the row was there at the start. */
  lemma ContentsInEveryRun(s: State, acts: seq<Action>)
    requires Initial(s)
    ensures Traced(s, Runs.Run(Apply, s, acts))
  {
    var inv := (x: State) => Inv(x) && Traced(s, x);
    forall x: State, a: Action | inv(x) ensures inv(Apply(x, a)) {
      StepKeepsInv(x, a);
      StepKeepsTraced(s, x, a);
    }
    Runs.RunKeeps(Apply, inv, s, acts);
  }

  // ---- Recovery ----

  /** The call takes its next `n` statements with nobody interfering and no failures. */
  ghost function Undisturbed(s: State, call: int, newId: int, bareCode: bool, n: nat): (s': State)
    requires call in s.calls
    ensures call in s'.calls
    decreases n
  {
    if n == 0 then s else Undisturbed(Execute(s, call, Ran(bareCode), newId), call, newId, bareCode, n - 1)
  }

  lemma {:induction false} DoneStays(s: State, call: int, newId: int, bareCode: bool, n: nat)
    requires call in s.calls && s.calls[call].pc.Done?
    ensures Undisturbed(s, call, newId, bareCode, n) == s
    decreases n
  {
    if n > 0 {
      DoneStays(s, call, newId, bareCode, n - 1);
    }
  }

  /** How many statements a call still has ahead of it at most. */
  function Ahead(pc: Pc): nat {
    match pc
    case FindAnswer => 8
    case UpdateProfile(_) => 7
    case InsertProfile(_) => 6
    case ReconcileProfile(_) => 5
    case ReadProfile => 4
    case InsertAnswer => 3
    case FindDuplicate => 8
    case CheckEvaluation(_) => 3
    case InsertFirstEvaluation(_) => 2
    case InsertMissingEvaluation(_) => 2
    case MarkOnboarded(_, _) => 1
    case Done(_) => 0
  }

  /** What the undisturbed call has written by the time it reaches a statement, over the tables
      `s0` it started from. A profile that someone else inserted first keeps its name until the mark. */
  ghost predicate TablesAt(s0: State, s: State, i: Input, pc: Pc, newId: int, bareCode: bool) {
    var found := HasAnswer(s0.answers, i.user, i.question);
    var same := s.answers == s0.answers && s.evaluations == s0.evaluations;
    var raced := i.question in s0.questions && i.user in s0.profiles && s.profiles == s0.profiles;
    var renamed := i.user in s0.users && (raced || s.profiles == Renamed(s0.profiles, i));
    match pc
    case FindAnswer => same && s.profiles == s0.profiles
    case UpdateProfile(existing) => same && s.profiles == s0.profiles && (existing.Some? <==> found)
    case InsertProfile(existing) =>
      same && s.profiles == s0.profiles && (existing.Some? <==> found) && i.user !in s0.profiles
    case ReconcileProfile(existing) => same && raced && (existing.Some? <==> found)
    case ReadProfile => same && renamed && !found
    case InsertAnswer => same && renamed && !found
    case FindDuplicate => false
    case CheckEvaluation(answerId) => same && renamed && found
    case InsertMissingEvaluation(answerId) => same && renamed && found && !HasEvaluation(s0.evaluations, answerId)
    case InsertFirstEvaluation(answerId) =>
      && renamed && !found && answerId == newId && i.question in s0.questions
      && s.answers == s0.answers[newId := Answer(i.user, i.question, i.text)] && s.evaluations == s0.evaluations
    case MarkOnboarded(answerId, flags) =>
      && renamed && CanMarkProfileOnboarded(flags) && (flags.existing.Some? <==> found)
      && i.question in s0.questions && (!found ==> answerId == newId)
      && s.answers == (if found then s0.answers else s0.answers[newId := Answer(i.user, i.question, i.text)])
      && s.evaluations == (if HasEvaluation(s0.evaluations, answerId) then s0.evaluations
                           else s0.evaluations[newId := Evaluation(answerId, i.user, i.verdict)])
    case Done(result) => Saves(s0, s, i, newId, newId, bareCode, result)
  }

  /** What keeps an undisturbed call on its way. The foreign keys matter only to a call for an
      unknown user or question. */
  ghost predicate OnTrack(s0: State, s: State, call: int, newId: int, bareCode: bool) {
    && Inv(s) && UniqueRows(s0) && newId !in s0.answers && newId !in s0.evaluations
    && call in s.calls && s.calls == s0.calls[call := s.calls[call]]
    && s.users == s0.users && s.questions == s0.questions
    && var i := s.calls[call].input;
       ((i.user in s0.users && i.question in s0.questions) || ForeignKeys(s0)) &&
       TablesAt(s0, s, i, s.calls[call].pc, newId, bareCode)
  }

  /** Still on its way, and closer to the end. */
  ghost predicate Advances(s0: State, s: State, s': State, call: int, newId: int, bareCode: bool) {
    && OnTrack(s0, s', call, newId, bareCode) && call in s.calls
    && s'.calls[call].input == s.calls[call].input && Ahead(s'.calls[call].pc) < Ahead(s.calls[call].pc)
  }

  lemma FindAdvances(s0: State, s: State, call: int, newId: int, bareCode: bool)
    requires OnTrack(s0, s, call, newId, bareCode) && s.calls[call].pc.FindAnswer?
    ensures Advances(s0, s, Execute(s, call, Ran(bareCode), newId), call, newId, bareCode)
  {
    ExecuteKeepsInv(s, call, Ran(bareCode), newId);
    assert CallOk(s, s.calls[call]);
  }

  lemma ReadAdvances(s0: State, s: State, call: int, newId: int, bareCode: bool)
    requires OnTrack(s0, s, call, newId, bareCode)
    requires s.calls[call].pc.ReadProfile? || s.calls[call].pc.ReconcileProfile?
    ensures Advances(s0, s, Execute(s, call, Ran(bareCode), newId), call, newId, bareCode)
  {
    ExecuteKeepsInv(s, call, Ran(bareCode), newId);
    assert CallOk(s, s.calls[call]);
  }

  lemma CheckEvaluationAdvances(s0: State, s: State, call: int, newId: int, bareCode: bool)
    requires OnTrack(s0, s, call, newId, bareCode) && s.calls[call].pc.CheckEvaluation?
    ensures Advances(s0, s, Execute(s, call, Ran(bareCode), newId), call, newId, bareCode)
  {
    ExecuteKeepsInv(s, call, Ran(bareCode), newId);
    assert CallOk(s, s.calls[call]);
  }

  lemma UpdateProfileAdvances(s0: State, s: State, call: int, newId: int, bareCode: bool)
    requires OnTrack(s0, s, call, newId, bareCode) && s.calls[call].pc.UpdateProfile?
    ensures Advances(s0, s, Execute(s, call, Ran(bareCode), newId), call, newId, bareCode)
  {
    ExecuteKeepsInv(s, call, Ran(bareCode), newId);
    assert CallOk(s, s.calls[call]);
  }

  lemma InsertProfileAdvances(s0: State, s: State, call: int, newId: int, bareCode: bool)
    requires OnTrack(s0, s, call, newId, bareCode) && s.calls[call].pc.InsertProfile?
    ensures Advances(s0, s, Execute(s, call, Ran(bareCode), newId), call, newId, bareCode)
  {
    ExecuteKeepsInv(s, call, Ran(bareCode), newId);
    assert CallOk(s, s.calls[call]);
  }

  lemma InsertAnswerAdvances(s0: State, s: State, call: int, newId: int, bareCode: bool)
    requires OnTrack(s0, s, call, newId, bareCode) && s.calls[call].pc.InsertAnswer?
    ensures Advances(s0, s, Execute(s, call, Ran(bareCode), newId), call, newId, bareCode)
  {
    ExecuteKeepsInv(s, call, Ran(bareCode), newId);
    assert CallOk(s, s.calls[call]);
  }

  lemma InsertEvaluationAdvances(s0: State, s: State, call: int, newId: int, bareCode: bool)
    requires OnTrack(s0, s, call, newId, bareCode)
    requires s.calls[call].pc.InsertFirstEvaluation? || s.calls[call].pc.InsertMissingEvaluation?
    ensures Advances(s0, s, Execute(s, call, Ran(bareCode), newId), call, newId, bareCode)
  {
    ExecuteKeepsInv(s, call, Ran(bareCode), newId);
    assert CallOk(s, s.calls[call]);
  }

  lemma MarkAdvances(s0: State, s: State, call: int, newId: int, bareCode: bool)
    requires OnTrack(s0, s, call, newId, bareCode) && s.calls[call].pc.MarkOnboarded?
    ensures Advances(s0, s, Execute(s, call, Ran(bareCode), newId), call, newId, bareCode)
  {
    ExecuteKeepsInv(s, call, Ran(bareCode), newId);
    assert CallOk(s, s.calls[call]);
  }

  lemma OnTrackStep(s0: State, s: State, call: int, newId: int, bareCode: bool)
    requires OnTrack(s0, s, call, newId, bareCode) && !s.calls[call].pc.Done?
    ensures Advances(s0, s, Execute(s, call, Ran(bareCode), newId), call, newId, bareCode)
  {
    match s.calls[call].pc
    case FindAnswer => FindAdvances(s0, s, call, newId, bareCode);
    case UpdateProfile(_) => UpdateProfileAdvances(s0, s, call, newId, bareCode);
    case InsertProfile(_) => InsertProfileAdvances(s0, s, call, newId, bareCode);
    case CheckEvaluation(_) => CheckEvaluationAdvances(s0, s, call, newId, bareCode);
    case InsertAnswer => InsertAnswerAdvances(s0, s, call, newId, bareCode);
    case InsertFirstEvaluation(_) => InsertEvaluationAdvances(s0, s, call, newId, bareCode);
    case InsertMissingEvaluation(_) => InsertEvaluationAdvances(s0, s, call, newId, bareCode);
    case MarkOnboarded(_, _) => MarkAdvances(s0, s, call, newId, bareCode);
    case _ => ReadAdvances(s0, s, call, newId, bareCode);
  }

  lemma {:induction false} OnTrackArrives(s0: State, s: State, call: int, newId: int, bareCode: bool, n: nat)
    requires OnTrack(s0, s, call, newId, bareCode) && Ahead(s.calls[call].pc) <= n
    ensures var s' := Undisturbed(s, call, newId, bareCode, n);
            OnTrack(s0, s', call, newId, bareCode) && s'.calls[call].input == s.calls[call].input &&
            s'.calls[call].pc.Done?
    decreases n
  {
    if s.calls[call].pc.Done? {
      DoneStays(s, call, newId, bareCode, n);
    } else {
      OnTrackStep(s0, s, call, newId, bareCode);
      OnTrackArrives(s0, Execute(s, call, Ran(bareCode), newId), call, newId, bareCode, n - 1);
    }
  }

  /** The call is over, and what it did is exactly an undisturbed save of `before`; the calls of
      everybody else are where they were. */
  ghost predicate Performed(before: State, s: State, call: int, input: Input, newId: int, bareCode: bool) {
    && call in s.calls && s.calls[call].pc.Done?
    && s.calls == before.calls[call := Call(input, s.calls[call].pc)]
    && Saves(before, s, input, newId, newId, bareCode, s.calls[call].pc.result)
  }

  lemma UndisturbedCallSaves(s: State, call: int, input: Input, newId: int, bareCode: bool, n: nat)
    requires Inv(s) && call !in s.calls && newId !in s.answers && newId !in s.evaluations && 8 <= n
    requires (input.user in s.users && input.question in s.questions) || ForeignKeys(s)
    ensures var s' := Undisturbed(Apply(s, Start(call, input)), call, newId, bareCode, n);
            Inv(s') && Performed(s, s', call, input, newId, bareCode)
  {
    StepKeepsInv(s, Start(call, input));
    OnTrackArrives(s, Apply(s, Start(call, input)), call, newId, bareCode, n);
  }

  /** From any state that crashes, failures and interleavings can leave, one later undisturbed call
      for an existing user and question succeeds: the answer it names is stored and evaluated, and
      the profile is onboarded under its nickname. Eight statements are enough. */
  lemma UndisturbedCallRecovers(start: State, acts: seq<Action>, call: int, input: Input, newId: int,
    bareCode: bool, n: nat)
    requires Initial(start) && 8 <= n
    requires var s := Runs.Run(Apply, start, acts);
             call !in s.calls && input.user in s.users && input.question in s.questions && newId !in s.answers &&
               newId !in s.evaluations
    ensures var s := Runs.Run(Apply, start, acts);
            var s' := Undisturbed(Apply(s, Start(call, input)), call, newId, bareCode, n);
            && Performed(s, s', call, input, newId, bareCode)
            && var r := s'.calls[call].pc.result;
            r.Saved? && AnswerFor(s'.answers, input.user, input.question, r.answerId) &&
              HasEvaluation(s'.evaluations, r.answerId) && s'.profiles[input.user] == Profile(input.nickname, true)
  {
    OnboardedOnlyWhenComplete(start, acts);
    var s := Runs.Run(Apply, start, acts);
    UndisturbedCallSaves(s, call, input, newId, bareCode, n);
    var s' := Undisturbed(Apply(s, Start(call, input)), call, newId, bareCode, n);
    assert CallOk(s', s'.calls[call]);
  }

  lemma StepKeepsForeignKeys(s: State, a: Action)
    requires ForeignKeys(s)
    ensures ForeignKeys(Apply(s, a))
  {
    if a.Step? && a.call in s.calls {
      match s.calls[a.call].pc
      case InsertProfile(_) =>
      case InsertAnswer =>
      case UpdateProfile(_) =>
      case MarkOnboarded(_, _) =>
      case _ =>
    }
  }

  /** With the foreign keys in force, whatever the input: an undisturbed call does what the procedure
      does, and reports what it reports. */
  lemma UndisturbedCallIsTheProcedure(start: State, acts: seq<Action>, call: int, input: Input, newId: int,
    bareCode: bool, n: nat)
    requires Initial(start) && ForeignKeys(start) && 8 <= n
    requires var s := Runs.Run(Apply, start, acts);
             call !in s.calls && newId !in s.answers && newId !in s.evaluations
    ensures var s := Runs.Run(Apply, start, acts);
            var s' := Undisturbed(Apply(s, Start(call, input)), call, newId, bareCode, n);
            Performed(s, s', call, input, newId, bareCode)
  {
    OnboardedOnlyWhenComplete(start, acts);
    forall x: State, a: Action | ForeignKeys(x) ensures ForeignKeys(Apply(x, a)) {
      StepKeepsForeignKeys(x, a);
    }
    Runs.RunKeeps(Apply, ForeignKeys, start, acts);
    UndisturbedCallSaves(Runs.Run(Apply, start, acts), call, input, newId, bareCode, n);
  }

  /** A call that loses the race for the answer completes the one that won: the text stored first
      stays, and the call reports a duplicate. */
  lemma LostRaceCompletesWinner(s: State, call: int, newId: int, n: nat)
    requires Inv(s) && call in s.calls && s.calls[call].pc == InsertAnswer && 9 <= n
    requires newId !in s.answers && newId !in s.evaluations
    requires var i := s.calls[call].input;
             i.user in s.users && i.question in s.questions && HasAnswer(s.answers, i.user, i.question)
    ensures var s' := Undisturbed(s, call, newId, true, n);
            var i := s.calls[call].input;
            Performed(s, s', call, i, newId, true) && s'.calls[call].pc.result.Saved? &&
              s'.calls[call].pc.result.duplicate && s'.answers == s.answers
  {
    var raced := Execute(s, call, Ran(true), newId);
    ExecuteKeepsInv(s, call, Ran(true), newId);
    assert raced.calls[call].pc == FindDuplicate;
    ExecuteKeepsInv(raced, call, Ran(true), newId);
    var found := Execute(raced, call, Ran(true), newId);
    assert found.calls[call].pc.UpdateProfile?;
    OnTrackArrives(s, found, call, newId, true, n - 2);
  }

  /** Unless the driver wraps the violation: then its code is not seen, and nothing more is done. */
  lemma WrappedRaceIsReported(s: State, call: int, newId: int, n: nat)
    requires call in s.calls && s.calls[call].pc == InsertAnswer && 1 <= n
    requires HasAnswer(s.answers, s.calls[call].input.user, s.calls[call].input.question)
    ensures var s' := Undisturbed(s, call, newId, false, n);
            s'.calls[call].pc == Done(DbError) && s'.(calls := s.calls) == s
  {
    DoneStays(Execute(s, call, Ran(false), newId), call, newId, false, n - 1);
  }

  /** A call that loses the race for the profile row goes on as if it had found it. */
  lemma LostProfileRaceSaves(s: State, call: int, newId: int, bareCode: bool, n: nat)
    requires Inv(s) && call in s.calls && s.calls[call].pc.InsertProfile? && 6 <= n
    requires newId !in s.answers && newId !in s.evaluations
    requires var i := s.calls[call].input;
             && i.user in s.users && i.question in s.questions && i.user in s.profiles
             && (s.calls[call].pc.existing.None? ==> !HasAnswer(s.answers, i.user, i.question))
    ensures var s' := Undisturbed(s, call, newId, bareCode, n);
            Performed(s, s', call, s.calls[call].input, newId, bareCode) && s'.calls[call].pc.result.Saved?
  {
    assert CallOk(s, s.calls[call]);
    ExecuteKeepsInv(s, call, Ran(bareCode), newId);
    OnTrackArrives(s, Execute(s, call, Ran(bareCode), newId), call, newId, bareCode, n - 1);
  }

  /** A statement that fails ends its call. Nothing is reported saved: the promise rejects where an
      earlier answer was being completed, except at the evaluation, whose failure is reported. */
  lemma FailedStatementEnds(s: State, call: int, o: Outcome, newId: int)
    requires Inv(s) && call in s.calls && !o.Ran? && !s.calls[call].pc.Done?
    requires s.calls[call].pc.MarkOnboarded? ==> CanMarkProfileOnboarded(s.calls[call].pc.flags)
    ensures var s' := Execute(s, call, o, newId);
            var pc := s.calls[call].pc;
            var completing := pc.CheckEvaluation? || (pc.MarkOnboarded? && pc.flags.existing.Some?) ||
              ((pc.UpdateProfile? || pc.InsertProfile? || pc.ReconcileProfile?) && pc.existing.Some?);
            && s'.calls[call].pc == Done(if completing then Rejected else DbError)
            && (o.Failed? ==> s'.(calls := s.calls) == s)
            && (o.ReplyLost? ==>
                 var ran := Execute(s, call, Ran(true), newId); s'.(calls := s.calls) == ran.(calls := s.calls))
  {
    match s.calls[call].pc
    case InsertAnswer =>
    case InsertFirstEvaluation(_) =>
    case InsertMissingEvaluation(_) =>
    case UpdateProfile(_) =>
    case InsertProfile(_) =>
    case MarkOnboarded(_, _) =>
    case _ =>
  }
}
