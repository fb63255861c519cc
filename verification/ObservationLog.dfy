// Aggregation of the integration observation log.

module ObservationLog {
  import opened Options
  import opened ProofCases

  /** One trimmed line of the log after JSON parsing. `Record` is any JSON object or array; its name
      is None when not a string, and `extraKeys` says whether it has keys besides name and status. */
  datatype Line = Blank | NotJson | NotObject | Record(name: Option<string>, status: Status, extraKeys: bool)

  datatype Failure =
    | LogMissing | MalformedJson | MalformedObject | MalformedFields
    | ExtraFields(name: string) | UnknownCase(name: string)
    | Duplicate(name: string) | Unobserved(name: string)

  datatype Aggregation = Aggregation(failures: seq<Failure>, cases: seq<Case>)

  // ---- What a log says, independently of the order of its lines ----

  function Observation(name: string, status: Status): Line { Record(Some(name), status, false) }

  /** How many well-formed lines of this log observe the case. */
  function Observations(log: seq<Line>, name: string): nat {
    multiset(log)[Observation(name, Pass)] + multiset(log)[Observation(name, Fail)]
  }

  /** The line is an observation of a required case. */
  predicate Usable(line: Line, required: seq<string>) {
    line.Record? && line.name.Some? && line.status != Unrecognized && !line.extraKeys && line.name.value in required
  }

  ghost predicate AllUsable(log: seq<Line>, required: seq<string>) {
    forall line :: line in log && line != Blank ==> Usable(line, required)
  }

  /** Every nonblank line observes a required case, and each required case is observed exactly once. */
  ghost predicate Complete(log: seq<Line>, required: seq<string>) {
    AllUsable(log, required) && forall name :: name in required ==> Observations(log, name) == 1
  }

  /** PASS exactly when the case was observed and never failed. */
  function Outcome(log: seq<Line>, name: string): Status {
    if Observation(name, Pass) in log && Observation(name, Fail) !in log then Pass else Fail
  }
  function Outcomes(log: seq<Line>, required: seq<string>): seq<Case> {
    seq(|required|, i requires 0 <= i < |required| => Case(required[i], Outcome(log, required[i])))
  }

  // ---- The passes over the log ----

  /** Times a name occurs among the accepted observations, and whether it ever failed. */
  function Seen(observations: seq<Case>, name: string): nat {
    multiset(observations)[Case(name, Pass)] + multiset(observations)[Case(name, Fail)]
  }
  predicate Failed(observations: seq<Case>, name: string) { Case(name, Fail) in observations }

  /** The accepted observations are the usable lines. */
  ghost predicate Accepts(observations: seq<Case>, log: seq<Line>, required: seq<string>) {
    forall name, status :: multiset(observations)[Case(name, status)] ==
                           (if name in required && status != Unrecognized
                            then multiset(log)[Observation(name, status)] else 0)
  }

  lemma AcceptStep(observations: seq<Case>, log: seq<Line>, required: seq<string>, line: Line)
    requires Accepts(observations, log, required)
    ensures AllUsable(log + [line], required) <==> AllUsable(log, required) && (line == Blank || Usable(line, required))
    ensures Usable(line, required) ==>
      Accepts(observations + [Case(line.name.value, line.status)], log + [line], required)
    ensures !Usable(line, required) ==> Accepts(observations, log + [line], required)
  {
  }

  /** Keeps the usable lines; the rest are failures. */
  method ReadLines(log: seq<Line>, required: seq<string>) returns (failures: seq<Failure>, observations: seq<Case>)
    ensures failures == [] <==> AllUsable(log, required)
    ensures Accepts(observations, log, required)
  {
    failures, observations := [], [];
    for i := 0 to |log|
      invariant failures == [] <==> AllUsable(log[..i], required)
      invariant Accepts(observations, log[..i], required)
    {
      var line := log[i];
      assert log[..i + 1] == log[..i] + [line];
      AcceptStep(observations, log[..i], required, line);
      if line == Blank { continue; }
      if line.NotJson? { failures := failures + [MalformedJson]; continue; }
      if line.NotObject? { failures := failures + [MalformedObject]; continue; }
      if line.name.None? || line.status == Unrecognized { failures := failures + [MalformedFields]; continue; }
      if line.extraKeys { failures := failures + [ExtraFields(line.name.value)]; continue; }
      if line.name.value !in required { failures := failures + [UnknownCase(line.name.value)]; continue; }
      observations := observations + [Case(line.name.value, line.status)];
    }
    assert log[..|log|] == log;
  }

  /** The two maps summarise the observations. */
  ghost predicate Summarises(counts: map<string, nat>, byName: map<string, Status>, observations: seq<Case>) {
    (forall name :: name in counts <==> Seen(observations, name) > 0) &&
    (forall name :: name in byName <==> Seen(observations, name) > 0) &&
    (forall name :: name in counts ==> counts[name] == Seen(observations, name)) &&
    (forall name :: name in byName ==> byName[name] == if Failed(observations, name) then Fail else Pass)
  }

  lemma SeenStep(observations: seq<Case>, item: Case, name: string)
    requires item.status != Unrecognized
    ensures Seen(observations + [item], name) == Seen(observations, name) + (if item.name == name then 1 else 0)
    ensures Failed(observations + [item], name) <==> Failed(observations, name) || item == Case(name, Fail)
    ensures Failed(observations, name) ==> Seen(observations, name) > 0
  {
  }

  lemma SummaryStep(counts: map<string, nat>, byName: map<string, Status>, observations: seq<Case>, item: Case)
    requires Summarises(counts, byName, observations) && item.status != Unrecognized
    ensures var name := item.name;
            Summarises(
              counts[name := (if name in counts then counts[name] else 0) + 1],
              byName[name := if (name in byName && byName[name] == Fail) || item.status == Fail then Fail else Pass],
              observations + [item])
  {
    forall name
      ensures Seen(observations + [item], name) == Seen(observations, name) + (if item.name == name then 1 else 0)
      ensures Failed(observations + [item], name) <==> Failed(observations, name) || item == Case(name, Fail)
      ensures Failed(observations, name) ==> Seen(observations, name) > 0
    {
      SeenStep(observations, item, name);
    }
  }

  /** Counts the observations of each name, and keeps FAIL once seen. */
  method Collate(observations: seq<Case>) returns (counts: map<string, nat>, byName: map<string, Status>)
    requires forall c :: c in observations ==> c.status != Unrecognized
    ensures Summarises(counts, byName, observations)
  {
    counts, byName := map[], map[];
    for i := 0 to |observations|
      invariant Summarises(counts, byName, observations[..i])
    {
      var item := observations[i];
      assert observations[..i + 1] == observations[..i] + [item] && item in observations;
      SummaryStep(counts, byName, observations[..i], item);
      counts := counts[item.name := (if item.name in counts then counts[item.name] else 0) + 1];
      if (item.name in byName && byName[item.name] == Fail) || item.status == Fail {
        byName := byName[item.name := Fail];
      } else {
        byName := byName[item.name := Pass];
      }
    }
    assert observations[..|observations|] == observations;
  }

  /** Failures of the two passes over the maps: a name seen twice, a required name not seen. */
  method InventoryFailures(counts: map<string, nat>, byName: map<string, Status>, requiredNames: seq<string>)
    returns (failures: seq<Failure>)
    ensures failures == [] <==>
            (forall name :: name in counts ==> counts[name] <= 1) &&
              (forall name :: name in requiredNames ==> name in byName)
  {
    failures := [];
    var unread := counts.Keys;
    while unread != {}
      invariant unread <= counts.Keys
      invariant failures == [] <==> forall name :: name in counts && name !in unread ==> counts[name] <= 1
      decreases |unread|
    {
      var name :| name in unread;
      unread := unread - {name};
      if counts[name] > 1 { failures := failures + [Duplicate(name)]; }
    }
    ghost var once := failures == [];
    for i := 0 to |requiredNames|
      invariant failures == [] <==> once && forall name :: name in requiredNames[..i] ==> name in byName
    {
      assert requiredNames[..i + 1] == requiredNames[..i] + [requiredNames[i]];
      if requiredNames[i] !in byName { failures := failures + [Unobserved(requiredNames[i])]; }
    }
    assert requiredNames[..|requiredNames|] == requiredNames;
  }

  /** The maps read off the log: counts and outcomes of the required names are those of the log. */
  lemma SummaryReadsLog(
      log: seq<Line>, required: seq<string>, observations: seq<Case>,
      counts: map<string, nat>, byName: map<string, Status>)
    requires Accepts(observations, log, required) && Summarises(counts, byName, observations)
    ensures forall name :: name in counts ==> name in required
    ensures forall name :: name in required ==> Seen(observations, name) == Observations(log, name)
    ensures forall name :: name in required && name in byName ==> byName[name] == Outcome(log, name)
    ensures forall name :: name in required && name !in byName ==> Outcome(log, name) == Fail
  {
  }

  /** `log` is None when the file does not exist. No failure exactly when the log is complete; the
      reported cases never turn an observed FAIL into a PASS, whatever the order of the lines. */
  method AggregateIntegrationObservations(log: Option<seq<Line>>, requiredNames: seq<string>) returns (r: Aggregation)
    ensures r.failures == [] <==> log.Some? && Complete(log.value, requiredNames)
    ensures r.cases == if log.Some? then Outcomes(log.value, requiredNames) else []
  {
    if log.None? { return Aggregation([LogMissing], []); }
    var lineFailures, observations := ReadLines(log.value, requiredNames);
    forall c | c in observations ensures c.status != Unrecognized {
      assert c in multiset(observations) && c == Case(c.name, c.status);
    }
    var counts, byName := Collate(observations);
    var nameFailures := InventoryFailures(counts, byName, requiredNames);
    SummaryReadsLog(log.value, requiredNames, observations, counts, byName);
    var cases := seq(|requiredNames|, i requires 0 <= i < |requiredNames| =>
      Case(requiredNames[i], if requiredNames[i] in byName then byName[requiredNames[i]] else Fail));
    forall i | 0 <= i < |requiredNames| ensures cases[i] == Outcomes(log.value, requiredNames)[i] {
      assert requiredNames[i] in requiredNames;
    }
    r := Aggregation(lineFailures + nameFailures, cases);
  }

  /** The order of the lines changes neither the verdict nor any reported case. */
  lemma LineOrderIrrelevant(log: seq<Line>, shuffled: seq<Line>, required: seq<string>)
    requires multiset(log) == multiset(shuffled)
    ensures Complete(log, required) <==> Complete(shuffled, required)
    ensures Outcomes(log, required) == Outcomes(shuffled, required)
  {
    forall line ensures line in log <==> line in shuffled {
      assert line in multiset(log) <==> line in multiset(shuffled);
    }
  }

  /** A complete log whose required cases are all reported PASS has no FAIL line at all. */
  lemma CompleteAndPassing(log: seq<Line>, required: seq<string>)
    requires Complete(log, required)
    ensures (forall c :: c in Outcomes(log, required) ==> c.status == Pass) <==>
            forall line :: line in log && line != Blank ==> line.status == Pass
  {
    var cases := Outcomes(log, required);
    if forall c :: c in cases ==> c.status == Pass {
      forall line | line in log && line != Blank ensures line.status == Pass {
        assert Usable(line, required);
        var i :| 0 <= i < |required| && required[i] == line.name.value;
        assert cases[i] in cases && line == Observation(line.name.value, line.status);
      }
    } else {
      var c :| c in cases && c.status != Pass;
      assert Observations(log, c.name) == 1;
      assert multiset(log)[Observation(c.name, Pass)] == 0 || multiset(log)[Observation(c.name, Fail)] > 0 by {
        assert Observation(c.name, Pass) in log <==> multiset(log)[Observation(c.name, Pass)] > 0;
        assert Observation(c.name, Fail) in log <==> multiset(log)[Observation(c.name, Fail)] > 0;
      }
      assert Observation(c.name, Fail) in log;
    }
  }
}
