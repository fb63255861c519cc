// Saving an onboarding answer: a chain of autocommitted statements, retried and run concurrently.
// A crash is a call that is never stepped again.

module Onboarding {
  import opened Options

  datatype Profile = Profile(nickname: string, onboarded: bool)
  datatype Answer = Answer(user: int, question: int, text: string)
  datatype Evaluation = Evaluation(answerId: int, user: int, verdict: string)

  datatype Input = Input(user: int, question: int, nickname: string, text: string, verdict: string)

  /** `Rejected` is a promise that rejects: the completion of an existing answer is returned without
      being awaited, so the surrounding handlers never see its exceptions. */
  datatype Result = Saved(answerId: int, duplicate: bool) | SetupRequired | DbError | Rejected

  /** What the onboarding gate is asked with. */
  datatype Flags = Flags(existing: Option<int>, existingComplete: bool, answerInserted: bool, evaluationInserted: bool)

  /** The next statement. `existing` is the answer found by an earlier statement, if any. */
  datatype Pc =
    | FindAnswer
    | UpdateProfile(existing: Option<int>)
    | InsertProfile(existing: Option<int>)
    | ReconcileProfile(existing: Option<int>)
    | ReadProfile
    | InsertAnswer
    | FindDuplicate
    | InsertFirstEvaluation(answerId: int)
    | CheckEvaluation(answerId: int)
    | InsertMissingEvaluation(answerId: int)
    | MarkOnboarded(answerId: int, flags: Flags)
    | Done(result: Result)

  datatype Call = Call(input: Input, pc: Pc)

  /** `profiles` is keyed by its unique user column. */
  datatype State = State(
    users: set<int>, questions: set<int>, profiles: map<int, Profile>,
    answers: map<int, Answer>, evaluations: map<int, Evaluation>, calls: map<int, Call>)

  /** What becomes of one statement. A constraint violation is seen with its own code or wrapped;
      with `ReplyLost` the statement takes effect but the caller sees an error. */
  datatype Outcome = Ran(bareCode: bool) | ReplyLost | Failed

  datatype Action = Start(call: int, input: Input) | Step(call: int, outcome: Outcome, newId: int)

  // ---- Queries and constraints ----

  predicate AnswerFor(answers: map<int, Answer>, user: int, question: int, id: int) {
    id in answers && answers[id].user == user && answers[id].question == question
  }
  ghost predicate HasAnswer(answers: map<int, Answer>, user: int, question: int) {
    exists id :: AnswerFor(answers, user, question, id)
  }
  ghost predicate HasEvaluation(evaluations: map<int, Evaluation>, answerId: int) {
    exists e :: e in evaluations && evaluations[e].answerId == answerId
  }

  /** Open for an answer found with its evaluation, or for both just inserted. */
  predicate CanMarkProfileOnboarded(f: Flags): (open: bool)
    ensures open <==> (f.existing.Some? && f.existingComplete) ||
                      (f.existing.None? && f.answerInserted && f.evaluationInserted)
  {
    if f.existing.Some? then f.existingComplete else f.answerInserted && f.evaluationInserted
  }

  /** An answer found, with its evaluation; and an answer and its evaluation both just inserted. */
  function FoundComplete(answerId: int): Flags { Flags(Some(answerId), true, false, false) }
  function InsertedBoth(): Flags { Flags(None, false, true, true) }

  ghost predicate AnswerAccepted(s: State, i: Input, newId: int) {
    newId !in s.answers && i.user in s.users && i.question in s.questions && !HasAnswer(s.answers, i.user, i.question)
  }
  ghost predicate EvaluationAccepted(s: State, answerId: int, newId: int) {
    newId !in s.evaluations && answerId in s.answers && !HasEvaluation(s.evaluations, answerId)
  }

  // ---- Statements ----

  function Goto(s: State, call: int, pc: Pc): State
    requires call in s.calls
  {
    s.(calls := s.calls[call := s.calls[call].(pc := pc)])
  }

  /** Where an exception from the profile upsert ends up. */
  function Thrown(existing: Option<int>): Pc { Done(if existing.Some? then Rejected else DbError) }

  function AfterUpsert(existing: Option<int>): Pc {
    if existing.Some? then CheckEvaluation(existing.value) else ReadProfile
  }

  function UpdateProfileStep(s: State, call: int, existing: Option<int>, o: Outcome): State
    requires call in s.calls
  {
    var i := s.calls[call].input;
    var s' := if o.Failed? || i.user !in s.profiles then s
              else s.(profiles := s.profiles[i.user := s.profiles[i.user].(nickname := i.nickname)]);
    Goto(s', call, if !o.Ran? then Thrown(existing) else if i.user in s.profiles then AfterUpsert(existing)
      else InsertProfile(existing))
  }

  /** ON CONFLICT DO NOTHING: a row that appeared meanwhile is left alone and no row is returned. */
  function InsertProfileStep(s: State, call: int, existing: Option<int>, o: Outcome): State
    requires call in s.calls
  {
    var i := s.calls[call].input;
    var inserts := i.user !in s.profiles && i.user in s.users;
    var s' := if o.Failed? || !inserts then s else s.(profiles := s.profiles[i.user := Profile(i.nickname, false)]);
    Goto(s', call, if !o.Ran? || (i.user !in s.profiles && i.user !in s.users) then Thrown(existing)
                   else if inserts then AfterUpsert(existing) else ReconcileProfile(existing))
  }

  ghost function InsertAnswerStep(s: State, call: int, o: Outcome, newId: int): State
    requires call in s.calls
  {
    var i := s.calls[call].input;
    var accepted := AnswerAccepted(s, i, newId);
    var s' := if o.Failed? || !accepted then s
              else s.(answers := s.answers[newId := Answer(i.user, i.question, i.text)]);
    Goto(s', call,
         if o.Ran? && accepted then InsertFirstEvaluation(newId)
         else if o.Ran? && o.bareCode && (HasAnswer(s.answers, i.user, i.question) || newId in s.answers) then
           FindDuplicate
         else if o.Ran? && o.bareCode && (i.user !in s.users || i.question !in s.questions) then Done(SetupRequired)
         else Done(DbError))
  }

  ghost function InsertEvaluationStep(s: State, call: int, answerId: int, flags: Flags, o: Outcome, newId: int): State
    requires call in s.calls
  {
    var i := s.calls[call].input;
    var accepted := EvaluationAccepted(s, answerId, newId);
    var s' := if o.Failed? || !accepted then s
              else s.(evaluations := s.evaluations[newId := Evaluation(answerId, i.user, i.verdict)]);
    Goto(s', call, if o.Ran? && accepted then MarkOnboarded(answerId, flags) else Done(DbError))
  }

  /** The profile is marked only if the gate lets it. */
  function MarkStep(s: State, call: int, answerId: int, flags: Flags, o: Outcome): State
    requires call in s.calls
  {
    var i := s.calls[call].input;
    var gate := CanMarkProfileOnboarded(flags);
    var s' := if !gate || o.Failed? || i.user !in s.profiles then s
              else s.(profiles := s.profiles[i.user := Profile(i.nickname, true)]);
    Goto(s', call, if !gate then Done(SetupRequired)
                   else if !o.Ran? then Thrown(flags.existing)
                   else if i.user in s.profiles then Done(Saved(answerId, flags.existing.Some?))
                     else Done(SetupRequired))
  }

  ghost function FindStep(s: State, call: int, o: Outcome, absent: Pc): State
    requires call in s.calls
  {
    var i := s.calls[call].input;
    Goto(s, call, if !o.Ran? then Done(DbError)
                  else if id :| AnswerFor(s.answers, i.user, i.question, id) then UpdateProfile(Some(id)) else absent)
  }

  ghost function Execute(s: State, call: int, o: Outcome, newId: int): State
    requires call in s.calls
  {
    var i := s.calls[call].input;
    match s.calls[call].pc
    case FindAnswer => FindStep(s, call, o, UpdateProfile(None))
    case UpdateProfile(existing) => UpdateProfileStep(s, call, existing, o)
    case InsertProfile(existing) => InsertProfileStep(s, call, existing, o)
    case ReconcileProfile(existing) =>
      Goto(s, call, if !o.Ran? then Thrown(existing) else if i.user in s.profiles then AfterUpsert(existing)
        else Done(SetupRequired))
    case ReadProfile =>
      Goto(s, call, if !o.Ran? then Done(DbError) else if i.user in s.profiles then InsertAnswer
        else Done(SetupRequired))
    case InsertAnswer => InsertAnswerStep(s, call, o, newId)
    case FindDuplicate => FindStep(s, call, o, Done(DbError))
    case InsertFirstEvaluation(answerId) => InsertEvaluationStep(s, call, answerId, InsertedBoth(), o, newId)
    case CheckEvaluation(answerId) =>
      Goto(s, call, if !o.Ran? then Done(Rejected)
                    else if HasEvaluation(s.evaluations, answerId) then MarkOnboarded(answerId, FoundComplete(answerId))
                    else InsertMissingEvaluation(answerId))
    case InsertMissingEvaluation(answerId) => InsertEvaluationStep(s, call, answerId, FoundComplete(answerId), o, newId)
    case MarkOnboarded(answerId, flags) => MarkStep(s, call, answerId, flags, o)
    case Done(_) => s
  }

  ghost function Apply(s: State, a: Action): State {
    match a
    case Start(call, input) => if call in s.calls then s else s.(calls := s.calls[call := Call(input, FindAnswer)])
    case Step(call, outcome, newId) => if call in s.calls then Execute(s, call, outcome, newId) else s
  }

  // ---- One save, from tables to tables ----

  /** The profiles with this nickname, whoever was onboarded staying so. */
  function Renamed(profiles: map<int, Profile>, i: Input): map<int, Profile> {
    profiles[i.user := Profile(i.nickname, i.user in profiles && profiles[i.user].onboarded)]
  }

  /** A save with nobody interfering: it succeeds for an existing user and question. The stored text
      of an earlier answer is kept, a missing evaluation is added, and the profile is onboarded. */
  ghost predicate Saves(s: State, s': State, i: Input, newAnswer: int, newEvaluation: int, bareCode: bool, r: Result) {
    && s'.users == s.users && s'.questions == s.questions
    && (r.Saved? <==> i.user in s.users && i.question in s.questions)
    && (r.Saved? ==>
          && (r.duplicate <==> HasAnswer(s.answers, i.user, i.question))
          && AnswerFor(s'.answers, i.user, i.question, r.answerId)
          && s'.profiles == s.profiles[i.user := Profile(i.nickname, true)]
          && s'.answers == (if r.duplicate then s.answers
                            else s.answers[newAnswer := Answer(i.user, i.question, i.text)])
          && (!r.duplicate ==> r.answerId == newAnswer)
          && s'.evaluations == (if HasEvaluation(s.evaluations, r.answerId) then s.evaluations
                                else s.evaluations[newEvaluation := Evaluation(r.answerId, i.user, i.verdict)]))
    && (!r.Saved? ==>
          && s'.answers == s.answers && s'.evaluations == s.evaluations
          && s'.profiles == (if i.user in s.users then Renamed(s.profiles, i) else s.profiles)
          && r == if i.user in s.users && bareCode then SetupRequired else DbError)
  }

  /** The description leaves nothing open. */
  lemma SavesDetermines(s: State, s1: State, s2: State, i: Input, newAnswer: int, newEvaluation: int,
    bareCode: bool, r1: Result, r2: Result)
    requires UniqueRows(s)
    requires Saves(s, s1, i, newAnswer, newEvaluation, bareCode, r1)
    requires Saves(s, s2, i, newAnswer, newEvaluation, bareCode, r2)
    ensures r1 == r2 && s1 == s2.(calls := s1.calls)
  {
  }

  ghost predicate ForeignKeys(s: State) {
    && s.profiles.Keys <= s.users
    && (forall id :: id in s.answers ==> s.answers[id].user in s.users && s.answers[id].question in s.questions)
  }

  // ---- The invariant ----

  ghost predicate UniqueRows(s: State) {
    && (forall a, b | a in s.answers && b in s.answers ::
          s.answers[a].user == s.answers[b].user && s.answers[a].question == s.answers[b].question ==> a == b)
    && (forall d, e | d in s.evaluations && e in s.evaluations ::
      s.evaluations[d].answerId == s.evaluations[e].answerId ==> d == e)
    && (forall e :: e in s.evaluations ==> s.evaluations[e].answerId in s.answers)
  }

  /** The user has an answer with its evaluation. */
  ghost predicate Complete(s: State, user: int) {
    exists id :: id in s.answers && s.answers[id].user == user && HasEvaluation(s.evaluations, id)
  }

  ghost predicate OnboardedComplete(s: State) {
    forall user :: user in s.profiles && s.profiles[user].onboarded ==> Complete(s, user)
  }

  /** The answer a call has found or written. */
  function KnownAnswer(pc: Pc): Option<int> {
    match pc
    case UpdateProfile(existing) => existing
    case InsertProfile(existing) => existing
    case ReconcileProfile(existing) => existing
    case InsertFirstEvaluation(answerId) => Some(answerId)
    case CheckEvaluation(answerId) => Some(answerId)
    case InsertMissingEvaluation(answerId) => Some(answerId)
    case MarkOnboarded(answerId, _) => Some(answerId)
    case Done(result) => if result.Saved? then Some(result.answerId) else None
    case _ => None
  }

  /** The flags a call carries to the gate claim only what is stored. */
  ghost predicate FlagsTrue(s: State, answerId: int, f: Flags) {
    (f.existing.Some? ==> f.existing.value == answerId) &&
    (f.existingComplete || f.evaluationInserted ==> HasEvaluation(s.evaluations, answerId))
  }

  ghost predicate PcOk(s: State, i: Input, pc: Pc) {
    var known := KnownAnswer(pc);
    var saved := pc.Done? && pc.result.Saved?;
    && (known.Some? ==> AnswerFor(s.answers, i.user, i.question, known.value))
    && (pc.MarkOnboarded? ==> FlagsTrue(s, pc.answerId, pc.flags))
    && (saved ==> HasEvaluation(s.evaluations, known.value))
    && (saved ==> i.user in s.profiles && s.profiles[i.user].onboarded)
  }

  ghost predicate CallOk(s: State, c: Call) { PcOk(s, c.input, c.pc) }

  ghost predicate Inv(s: State) {
    UniqueRows(s) && OnboardedComplete(s) && forall c :: c in s.calls ==> CallOk(s, s.calls[c])
  }

  // ---- Steps keep it ----

  /** Rows are only added; a profile never loses its onboarding mark. */
  ghost predicate Grows(s: State, s': State) {
    && (forall id :: id in s.answers ==> id in s'.answers && s'.answers[id] == s.answers[id])
    && (forall e :: e in s.evaluations ==> e in s'.evaluations && s'.evaluations[e] == s.evaluations[e])
    && (forall u :: u in s.profiles ==> u in s'.profiles && (s.profiles[u].onboarded ==> s'.profiles[u].onboarded))
  }

  lemma CompletePersists(s: State, s': State, user: int)
    requires Grows(s, s') && Complete(s, user)
    ensures Complete(s', user)
  {
  }

  /** Enough for a step of one call: the tables grow, stay unique, and the mark is justified. */
  lemma OneCallStep(s: State, s': State, call: int)
    requires Inv(s) && Grows(s, s') && UniqueRows(s')
    requires s'.calls.Keys <= s.calls.Keys + {call}
    requires forall c :: c in s'.calls && c != call ==> s'.calls[c] == s.calls[c]
    requires call in s'.calls ==> CallOk(s', s'.calls[call])
    requires forall u :: u in s'.profiles && s'.profiles[u].onboarded ==>
      (u in s.profiles && s.profiles[u].onboarded) || Complete(s', u)
    ensures Inv(s')
  {
  }

  lemma AcceptedAnswerUnique(s: State, i: Input, newId: int)
    requires UniqueRows(s) && AnswerAccepted(s, i, newId)
    ensures UniqueRows(s.(answers := s.answers[newId := Answer(i.user, i.question, i.text)]))
  {
    forall a | a in s.answers ensures !(s.answers[a].user == i.user && s.answers[a].question == i.question) {
      assert !AnswerFor(s.answers, i.user, i.question, a);
    }
  }

  lemma InsertAnswerKeepsInv(s: State, call: int, o: Outcome, newId: int)
    requires Inv(s) && call in s.calls
    ensures Inv(InsertAnswerStep(s, call, o, newId))
  {
    var i := s.calls[call].input;
    var s' := InsertAnswerStep(s, call, o, newId);
    if AnswerAccepted(s, i, newId) && !o.Failed? {
      AcceptedAnswerUnique(s, i, newId);
      assert UniqueRows(s');
    } else {
      assert s'.answers == s.answers;
    }
    OneCallStep(s, s', call);
  }

  lemma InsertEvaluationKeepsInv(s: State, call: int, answerId: int, flags: Flags, o: Outcome, newId: int)
    requires flags.existing.Some? ==> flags.existing.value == answerId
    requires Inv(s) && call in s.calls
    requires AnswerFor(s.answers, s.calls[call].input.user, s.calls[call].input.question, answerId)
    ensures Inv(InsertEvaluationStep(s, call, answerId, flags, o, newId))
  {
    var s' := InsertEvaluationStep(s, call, answerId, flags, o, newId);
    if EvaluationAccepted(s, answerId, newId) && !o.Failed? {
      assert newId in s'.evaluations && s'.evaluations[newId].answerId == answerId;
      assert forall e :: e in s.evaluations ==> s.evaluations[e].answerId != answerId;
    }
    OneCallStep(s, s', call);
  }

  /** Marking is justified: a call passes the gate only with flags that claim an evaluation, and it
      claims only what is stored. */
  lemma MarkKeepsInv(s: State, call: int, answerId: int, flags: Flags, o: Outcome)
    requires Inv(s) && call in s.calls && s.calls[call].pc == MarkOnboarded(answerId, flags)
    ensures Inv(MarkStep(s, call, answerId, flags, o))
  {
    assert CallOk(s, s.calls[call]);
    OneCallStep(s, MarkStep(s, call, answerId, flags, o), call);
  }

  /** A statement that at most writes profiles, marking nobody. */
  lemma ProfileStepKeepsInv(s: State, profiles: map<int, Profile>, call: int, pc: Pc)
    requires Inv(s) && call in s.calls && PcOk(s, s.calls[call].input, pc) && !(pc.Done? && pc.result.Saved?)
    requires s.profiles.Keys <= profiles.Keys
    requires forall u :: u in profiles ==> (profiles[u].onboarded <==> u in s.profiles && s.profiles[u].onboarded)
    ensures Inv(Goto(s.(profiles := profiles), call, pc))
  {
  }

  lemma UpdateProfileKeepsInv(s: State, call: int, existing: Option<int>, o: Outcome)
    requires Inv(s) && call in s.calls && s.calls[call].pc == UpdateProfile(existing)
    ensures Inv(UpdateProfileStep(s, call, existing, o))
  {
  }

  lemma InsertProfileKeepsInv(s: State, call: int, existing: Option<int>, o: Outcome)
    requires Inv(s) && call in s.calls && s.calls[call].pc == InsertProfile(existing)
    ensures Inv(InsertProfileStep(s, call, existing, o))
  {
  }

  lemma ReadKeepsInv(s: State, call: int, o: Outcome, newId: int)
    requires Inv(s) && call in s.calls
    requires var pc := s.calls[call].pc; pc.ReconcileProfile? || pc.ReadProfile? || pc.CheckEvaluation?
    ensures Inv(Execute(s, call, o, newId))
  {
  }

  lemma FindKeepsInv(s: State, call: int, o: Outcome, absent: Pc)
    requires Inv(s) && call in s.calls && (absent == UpdateProfile(None) || absent == Done(DbError))
    ensures Inv(FindStep(s, call, o, absent))
  {
  }

  lemma StepKeepsInv(s: State, a: Action)
    requires Inv(s)
    ensures Inv(Apply(s, a))
  {
    if a.Start? {
      OneCallStep(s, Apply(s, a), a.call);
    } else if a.call in s.calls {
      ExecuteKeepsInv(s, a.call, a.outcome, a.newId);
    }
  }

  lemma ExecuteKeepsInv(s: State, call: int, o: Outcome, newId: int)
    requires Inv(s) && call in s.calls
    ensures Inv(Execute(s, call, o, newId))
  {
    assert CallOk(s, s.calls[call]);
    match s.calls[call].pc
    case FindAnswer => FindKeepsInv(s, call, o, UpdateProfile(None));
    case FindDuplicate => FindKeepsInv(s, call, o, Done(DbError));
    case UpdateProfile(existing) => UpdateProfileKeepsInv(s, call, existing, o);
    case InsertProfile(existing) => InsertProfileKeepsInv(s, call, existing, o);
    case ReconcileProfile(_) => ReadKeepsInv(s, call, o, newId);
    case ReadProfile => ReadKeepsInv(s, call, o, newId);
    case CheckEvaluation(_) => ReadKeepsInv(s, call, o, newId);
    case InsertAnswer => InsertAnswerKeepsInv(s, call, o, newId);
    case InsertFirstEvaluation(answerId) => InsertEvaluationKeepsInv(s, call, answerId, InsertedBoth(), o, newId);
    case InsertMissingEvaluation(answerId) => InsertEvaluationKeepsInv(s, call, answerId, FoundComplete(answerId),
      o, newId);
    case MarkOnboarded(answerId, flags) => MarkKeepsInv(s, call, answerId, flags, o);
    case Done(_) =>
  }
}
