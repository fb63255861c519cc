// The onboarding repository as single undisturbed calls over its tables.

module OnboardingService {
  import opened Options
  import opened Onboarding

  /** At most one evaluation per answer: the rows of an answer number one or none. */
  lemma EvaluationCount(s: State, answerId: int)
    requires UniqueRows(s)
    ensures |set e | e in s.evaluations && s.evaluations[e].answerId == answerId| ==
            if HasEvaluation(s.evaluations, answerId) then 1 else 0
  {
    var rows := set e | e in s.evaluations && s.evaluations[e].answerId == answerId;
    if HasEvaluation(s.evaluations, answerId) {
      var e :| e in s.evaluations && s.evaluations[e].answerId == answerId;
      forall d ensures d in rows <==> d == e {
        assert d in rows ==>
          d in s.evaluations && e in s.evaluations && s.evaluations[d].answerId == s.evaluations[e].answerId;
      }
      assert rows == {e};
    } else {
      forall d ensures d !in rows {}
      assert rows == {};
    }
  }

  class Repository {
    var users: set<int>
    var questions: set<int>
    var profiles: map<int, Profile>
    var answers: map<int, Answer>
    var evaluations: map<int, Evaluation>

    ghost function Tables(): State reads this { State(users, questions, profiles, answers, evaluations, map[]) }

    /** Unique indexes and foreign keys, and onboarding only after a complete save. */
    ghost predicate Valid()
      reads this
    {
      UniqueRows(Tables()) && OnboardedComplete(Tables()) && ForeignKeys(Tables())
    }

    method UpsertProfileMetadata(user: int, nickname: string) returns (ok: bool)
      requires Valid()
      modifies `profiles
      ensures Valid()
      ensures ok <==> user in users
      ensures var onboarded := user in old(profiles) && old(profiles)[user].onboarded;
              profiles == if ok then old(profiles)[user := Profile(nickname, onboarded)] else old(profiles)
    {
      if user in profiles {
        profiles := profiles[user := profiles[user].(nickname := nickname)];
        return true;
      }
      if user !in users { return false; }
      profiles := profiles[user := Profile(nickname, false)];
      return true;
    }

    method HasDepthEvaluation(answerId: int) returns (found: bool)
      ensures found <==> HasEvaluation(evaluations, answerId)
      ensures UniqueRows(Tables()) ==>
                |set e | e in evaluations && evaluations[e].answerId == answerId| == if found then 1 else 0
    {
      if UniqueRows(Tables()) { EvaluationCount(Tables(), answerId); }
      found := exists e :: e in evaluations && evaluations[e].answerId == answerId;
    }

    method InsertDepthEvaluation(input: Input, answerId: int, newId: int)
      requires Valid() && EvaluationAccepted(Tables(), answerId, newId)
      modifies `evaluations
      ensures Valid() && HasEvaluation(evaluations, answerId)
      ensures evaluations == old(evaluations)[newId := Evaluation(answerId, input.user, input.verdict)]
    {
      ghost var before := Tables();
      evaluations := evaluations[newId := Evaluation(answerId, input.user, input.verdict)];
      assert evaluations[newId].answerId == answerId;
      assert forall e :: e in before.evaluations ==> before.evaluations[e].answerId != answerId;
      forall u | u in profiles && profiles[u].onboarded ensures Complete(Tables(), u) {
        CompletePersists(before, Tables(), u);
      }
    }

    /** Only ever asked for a user whose answer has its evaluation. */
    method MarkProfileOnboarded(user: int, nickname: string) returns (ok: bool)
      requires Valid() && Complete(Tables(), user)
      modifies `profiles
      ensures Valid() && (ok <==> user in old(profiles))
      ensures profiles == if ok then old(profiles)[user := Profile(nickname, true)] else old(profiles)
    {
      if user !in profiles { return false; }
      ghost var before := Tables();
      profiles := profiles[user := Profile(nickname, true)];
      forall u | u in profiles && profiles[u].onboarded ensures Complete(Tables(), u) {
        CompletePersists(before, Tables(), u);
      }
      return true;
    }

    /** The stored text is kept; a missing evaluation is filled in from the call at hand. */
    method CompleteExistingOnboardingAnswer(input: Input, answerId: int, newEvaluation: int) returns (r: Result)
      requires Valid() && AnswerFor(answers, input.user, input.question, answerId) && newEvaluation !in evaluations
      modifies `profiles, `evaluations
      ensures Valid()
      ensures r == Saved(answerId, true) && HasEvaluation(evaluations, answerId)
      ensures profiles == old(profiles)[input.user := Profile(input.nickname, true)]
      ensures evaluations == if HasEvaluation(old(evaluations), answerId) then old(evaluations)
                             else old(evaluations)[newEvaluation := Evaluation(answerId, input.user, input.verdict)]
    {
      var upserted := UpsertProfileMetadata(input.user, input.nickname);
      if !upserted { return SetupRequired; }
      var evaluationComplete := HasDepthEvaluation(answerId);
      if !evaluationComplete {
        InsertDepthEvaluation(input, answerId, newEvaluation);
        evaluationComplete := true;
      }
      if !CanMarkProfileOnboarded(Flags(Some(answerId), evaluationComplete, false, false)) { return SetupRequired; }
      assert Complete(Tables(), input.user);
      var marked := MarkProfileOnboarded(input.user, input.nickname);
      return if marked then Saved(answerId, true) else SetupRequired;
    }

    method SaveOnboardingAnswer(input: Input, newAnswer: int, newEvaluation: int, bareCode: bool) returns (r: Result)
      requires Valid() && newAnswer !in answers && newEvaluation !in evaluations
      modifies `profiles, `answers, `evaluations
      ensures Valid()
      ensures Saves(old(Tables()), Tables(), input, newAnswer, newEvaluation, bareCode, r)
      ensures r.Saved? ==> HasEvaluation(evaluations, r.answerId)
      ensures !r.Saved? ==>
        forall u :: u in profiles && profiles[u].onboarded ==> u in old(profiles) && old(profiles)[u].onboarded
    {
      if id :| id in answers && AnswerFor(answers, input.user, input.question, id) {
        r := CompleteExistingOnboardingAnswer(input, id, newEvaluation);
        return;
      }
      var upserted := UpsertProfileMetadata(input.user, input.nickname);
      if !upserted { return DbError; }
      if input.question !in questions { return if bareCode then SetupRequired else DbError; }
      InsertAnswer(input, newAnswer);
      InsertDepthEvaluation(input, newAnswer, newEvaluation);
      if !CanMarkProfileOnboarded(Flags(None, false, true, true)) { return SetupRequired; }
      assert Complete(Tables(), input.user);
      var marked := MarkProfileOnboarded(input.user, input.nickname);
      return if marked then Saved(newAnswer, false) else SetupRequired;
    }

    method InsertAnswer(input: Input, newId: int)
      requires Valid() && AnswerAccepted(Tables(), input, newId)
      modifies `answers
      ensures Valid() && answers == old(answers)[newId := Answer(input.user, input.question, input.text)]
      ensures !HasEvaluation(evaluations, newId)
    {
      ghost var before := Tables();
      AcceptedAnswerUnique(before, input, newId);
      answers := answers[newId := Answer(input.user, input.question, input.text)];
      forall u | u in profiles && profiles[u].onboarded ensures Complete(Tables(), u) {
        CompletePersists(before, Tables(), u);
      }
    }
  }
}
