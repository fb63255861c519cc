// Case lists of the readiness proofs: duplicate detection and the exact-pass requirement.

module ProofCases {
  import opened Options

  /** `Unrecognized` is any status text other than PASS and FAIL. */
  datatype Status = Pass | Fail | Unrecognized
  datatype Case = Case(name: string, status: Status)

  datatype Problem = Missing | DuplicateRequired | NotPass | DuplicateCase
  datatype CaseFailure = CaseFailure(problem: Problem, name: string)

  function Names(cases: seq<Case>): seq<string> {
    seq(|cases|, i requires 0 <= i < |cases| => cases[i].name)
  }
  function Count(cases: seq<Case>, name: string): nat { multiset(Names(cases))[name] }

  ghost predicate Distinct(names: seq<string>) {
    forall i, j :: 0 <= i < j < |names| ==> names[i] != names[j]
  }

  /** No case name twice, and every required case there with status PASS. */
  ghost predicate ExactPass(cases: seq<Case>, required: seq<string>) {
    Distinct(Names(cases)) && forall name :: name in required ==> Case(name, Pass) in cases
  }

  // ---- Counting ----

  lemma {:induction false} CountPositive(names: seq<string>, name: string)
    ensures multiset(names)[name] > 0 <==> name in names
  {
  }

  lemma {:induction false} TwoOccurrences(names: seq<string>, i: nat, j: nat)
    requires i < j < |names| && names[i] == names[j]
    ensures multiset(names)[names[i]] > 1
  {
    var front, rest := names[..j], names[j..];
    assert names == front + rest;
    assert front[i] == names[i] && rest[0] == names[j];
    assert names[i] in multiset(front) && names[i] in multiset(rest);
  }

  lemma {:induction false} OccursTwice(names: seq<string>, name: string) returns (i: nat, j: nat)
    requires multiset(names)[name] > 1
    ensures i < j < |names| && names[i] == names[j] == name
  {
    var last := |names| - 1;
    assert names == names[..last] + [names[last]];
    if names[last] == name {
      assert name in multiset(names[..last]);
      i, j :| 0 <= i < last && names[i] == name && j == last;
    } else {
      i, j := OccursTwice(names[..last], name);
    }
  }

  /** Names are pairwise distinct exactly when none is counted twice. */
  lemma DistinctIffCountedOnce(names: seq<string>)
    ensures Distinct(names) <==> forall name :: multiset(names)[name] <= 1
  {
    if Distinct(names) {
      forall name ensures multiset(names)[name] <= 1 {
        if multiset(names)[name] > 1 {
          var i, j := OccursTwice(names, name);
        }
      }
    } else {
      var i, j :| 0 <= i < j < |names| && names[i] == names[j];
      TwoOccurrences(names, i, j);
    }
  }

  /** The names that occur more than once. */
  method CollectDuplicateNames(names: seq<string>) returns (dupes: set<string>)
    ensures forall name :: name in dupes <==> multiset(names)[name] > 1
    ensures dupes == {} <==> Distinct(names)
  {
    var seen: set<string> := {};
    dupes := {};
    for i := 0 to |names|
      invariant forall name :: name in seen <==> multiset(names[..i])[name] > 0
      invariant forall name :: name in dupes <==> multiset(names[..i])[name] > 1
    {
      assert names[..i + 1] == names[..i] + [names[i]];
      if names[i] in seen { dupes := dupes + {names[i]}; }
      seen := seen + {names[i]};
    }
    assert names[..|names|] == names;
    DistinctIffCountedOnce(names);
    assert dupes == {} <==> forall name :: name !in dupes;
  }

  // ---- The exact-pass requirement ----

  function Find(cases: seq<Case>, name: string): (found: Option<Case>)
    ensures found.Some? <==> name in Names(cases)
    ensures found.Some? ==> found.value in cases && found.value.name == name
  {
    if cases == [] then None
    else if cases[0].name == name then assert Names(cases)[0] == name; Some(cases[0])
    else
      assert Names(cases) == [cases[0].name] + Names(cases[1..]);
      Find(cases[1..], name)
  }

  /** What each kind of failure says about the cases. */
  ghost predicate Flawed(cases: seq<Case>, required: seq<string>, problem: Problem, name: string) {
    var count := Count(cases, name);
    match problem
    case Missing => name in required && count == 0
    case DuplicateRequired => name in required && count > 1
    case NotPass => name in required && Find(cases, name).Some? && Find(cases, name).value.status != Pass
    case DuplicateCase => count > 1
  }

  method CountCases(cases: seq<Case>) returns (counts: map<string, nat>)
    ensures forall name :: name in counts <==> Count(cases, name) > 0
    ensures forall name :: name in counts ==> counts[name] == Count(cases, name)
  {
    counts := map[];
    for i := 0 to |cases|
      invariant forall name :: name in counts <==> Count(cases[..i], name) > 0
      invariant forall name :: name in counts ==> counts[name] == Count(cases[..i], name)
    {
      var name := cases[i].name;
      assert Names(cases[..i + 1]) == Names(cases[..i]) + [name];
      counts := counts[name := (if name in counts then counts[name] else 0) + 1];
    }
    assert cases[..|cases|] == cases;
  }

  method RequireExactPassCases(cases: seq<Case>, required: seq<string>) returns (failures: seq<CaseFailure>)
    ensures forall problem, name :: CaseFailure(problem, name) in failures <==> Flawed(cases, required, problem, name)
    ensures failures == [] <==> ExactPass(cases, required)
  {
    failures := [];
    var counts := CountCases(cases);
    for i := 0 to |required|
      invariant forall problem, name ::
        CaseFailure(problem, name) in failures <==>
          problem != DuplicateCase && Flawed(cases, required[..i], problem, name)
    {
      var name := required[i];
      assert required[..i + 1] == required[..i] + [name];
      var count := if name in counts then counts[name] else 0;
      CountPositive(Names(cases), name);
      if count == 0 {
        failures := failures + [CaseFailure(Missing, name)];
      } else {
        if count != 1 { failures := failures + [CaseFailure(DuplicateRequired, name)]; }
        var found := Find(cases, name);
        if found.None? || found.value.status != Pass { failures := failures + [CaseFailure(NotPass, name)]; }
      }
    }
    assert required[..|required|] == required;
    ghost var before := failures;
    var unread := counts.Keys;
    while unread != {}
      invariant unread <= counts.Keys
      invariant forall problem, name :: CaseFailure(problem, name) in failures <==>
        CaseFailure(problem, name) in before ||
        (problem == DuplicateCase && name in counts && name !in unread && counts[name] > 1)
      decreases |unread|
    {
      var name :| name in unread;
      unread := unread - {name};
      if counts[name] > 1 { failures := failures + [CaseFailure(DuplicateCase, name)]; }
    }
    FlawlessIffExactPass(cases, required);
    assert failures != [] ==> CaseFailure(failures[0].problem, failures[0].name) in failures;
  }

  /** No failure of any kind means exactly that the names are distinct and the required cases passed. */
  lemma FlawlessIffExactPass(cases: seq<Case>, required: seq<string>)
    ensures (forall problem, name :: !Flawed(cases, required, problem, name)) <==> ExactPass(cases, required)
  {
    var names := Names(cases);
    DistinctIffCountedOnce(names);
    if forall problem, name :: !Flawed(cases, required, problem, name) {
      forall name ensures multiset(names)[name] <= 1 { assert !Flawed(cases, required, DuplicateCase, name); }
      forall name | name in required ensures Case(name, Pass) in cases {
        assert !Flawed(cases, required, Missing, name) && !Flawed(cases, required, NotPass, name);
        CountPositive(names, name);
        assert Find(cases, name).value == Case(name, Pass);
      }
    }
    if ExactPass(cases, required) {
      forall problem, name ensures !Flawed(cases, required, problem, name) {
        if name in required { ExactPassCase(cases, required, name); }
      }
    }
  }

  /** Under exact pass a required case occurs once, and that occurrence is a PASS. */
  lemma ExactPassCase(cases: seq<Case>, required: seq<string>, name: string)
    requires ExactPass(cases, required) && name in required
    ensures Count(cases, name) == 1 && Find(cases, name) == Some(Case(name, Pass))
    ensures forall c :: c in cases && c.name == name ==> c.status == Pass
  {
    var names := Names(cases);
    DistinctIffCountedOnce(names);
    var i :| 0 <= i < |cases| && cases[i] == Case(name, Pass);
    assert names[i] == name;
    CountPositive(names, name);
    forall c | c in cases && c.name == name ensures c == cases[i] {
      var j :| 0 <= j < |cases| && cases[j] == c;
      assert names[j] == name;
    }
  }
}
