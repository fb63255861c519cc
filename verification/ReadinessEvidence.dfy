// Combining source artifacts into readiness evidence, and validating that evidence later.

module ReadinessEvidence {
  import opened Options
  import opened Hostnames
  import opened ProofCases
  import opened ProofArtifact
  import L = ObservationLog

  datatype Required = Required(integration: seq<string>, smoke: seq<string>)
  datatype Expectation = Expectation(gitSha: string, migrationChecksum: string, previewHostname: Option<string>)
  datatype Combination = Accepted(artifact: Combined) | Refused(failures: seq<Failure>)

  method AsFailures(flaws: seq<CaseFailure>) returns (failures: seq<Failure>)
    ensures failures == [] <==> flaws == []
  {
    failures := seq(|flaws|, i requires 0 <= i < |flaws| => CaseProblem(flaws[i]));
  }

  // ---- Validation ----

  /** The evidence is well formed at this clock, describes this commit and migration set, and shows
      every required case passing exactly once. */
  ghost predicate Proves(rules: Rules, required: Required, a: Combined, expected: Expectation, clock: Clock) {
    CombinedAcceptable(rules, a, expected.previewHostname, clock) &&
    a.content.subjectGitSha == expected.gitSha && a.content.migrationChecksum == expected.migrationChecksum &&
    ExactPass(a.content.integrationCases, required.integration) && ExactPass(a.content.smokeCases, required.smoke)
  }

  method ValidateReadinessEvidence(rules: Rules, required: Required, a: Combined, expected: Expectation, clock: Clock)
    returns (failures: seq<Failure>)
    ensures failures == [] <==> Proves(rules, required, a, expected, clock)
    ensures failures == [] && expected.previewHostname.Some? &&
            NormalHost(rules.lower, expected.previewHostname.value) != "" ==>
              NormalHost(rules.lower, a.content.previewHostname) ==
                NormalHost(rules.lower, expected.previewHostname.value)
    ensures failures == [] ==>
              && a.content.subjectGitSha == expected.gitSha && a.content.migrationChecksum == expected.migrationChecksum
              && (forall c :: c in a.content.integrationCases + a.content.smokeCases ==> c.status == Pass)
              && (forall name :: name in required.integration ==> Case(name, Pass) in a.content.integrationCases)
              && (forall name :: name in required.smoke ==> Case(name, Pass) in a.content.smokeCases)
  {
    failures := ParseCombinedReadinessArtifact(rules, a, expected.previewHostname, clock);
    if failures != [] { return; }
    if a.content.subjectGitSha != expected.gitSha { failures := failures + [CommitMismatch]; }
    if !Hex(expected.gitSha, 40) { failures := failures + [BadShape]; }
    if a.content.migrationChecksum != expected.migrationChecksum { failures := failures + [ChecksumMismatch]; }
    var hostFailures := HostFailures(rules, a.content.previewHostname, expected.previewHostname);
    failures := failures + hostFailures;
    if a.content.verdict != PassVerdict { failures := failures + [NotPassVerdict]; }
    var flaws := RequireExactPassCases(a.content.integrationCases, required.integration);
    var more := AsFailures(flaws);
    failures := failures + more;
    flaws := RequireExactPassCases(a.content.smokeCases, required.smoke);
    more := AsFailures(flaws);
    failures := failures + more;
  }

  /** The host an expectation names, if it names one. */
  function HostNamed(rules: Rules, expected: Option<string>): string {
    if expected.Some? then NormalHost(rules.lower, expected.value) else ""
  }

  /** One piece of evidence is of one commit, one migration set and one preview deployment: whenever it
      validates for two expectations, they agree on all three, except that either may leave the host
      open. The host is never a permanent deployment. */
  lemma EvidenceIsOfOneDeployment(rules: Rules, required: Required, a: Combined, first: Expectation,
    second: Expectation, clock: Clock, later: Clock)
    requires Proves(rules, required, a, first, clock) && Proves(rules, required, a, second, later)
    ensures first.gitSha == second.gitSha && first.migrationChecksum == second.migrationChecksum
    ensures var x, y := HostNamed(rules, first.previewHostname), HostNamed(rules, second.previewHostname);
            x == y || x == "" || y == ""
    ensures var h := NormalHost(rules.lower, a.content.previewHostname);
            h != CANONICAL_PRODUCTION_HOSTNAME && h != CANONICAL_MAIN_BRANCH_ALIAS_HOSTNAME
  {
  }

  /** And so is one smoke artifact. */
  lemma SmokeIsOfOneHost(rules: Rules, smoke: Artifact, first: Option<string>, second: Option<string>, clock: Clock,
    later: Clock)
    requires smoke.deployment.Some?
    requires Acceptable(rules, smoke, first, clock) && Acceptable(rules, smoke, second, later)
    ensures var x, y := HostNamed(rules, first), HostNamed(rules, second); x == y || x == "" || y == ""
  {
  }

  // ---- Combination ----

  /** Both sources are acceptable at this clock, passing, complete, and about the same thing. */
  ghost predicate Combinable(rules: Rules, required: Required, integration: Artifact, smoke: Artifact,
    expectedHost: string, clock: Clock) {
    integration.deployment.None? && smoke.deployment.Some? &&
    Acceptable(rules, integration, None, clock) && Acceptable(rules, smoke, Some(expectedHost), clock) &&
    integration.base.verdict == smoke.base.verdict == PassVerdict &&
    integration.base.subjectGitSha == smoke.base.subjectGitSha &&
    integration.base.migrationChecksum == smoke.base.migrationChecksum &&
    smoke.deployment.value.previewHostname == NormalHost(rules.lower, expectedHost) &&
    ExactPass(integration.base.cases, required.integration) && ExactPass(smoke.base.cases, required.smoke) &&
    forall f :: f in smoke.base.futureNotApplicable ==> f.name !in required.smoke
  }

  /** Content hashes have the shape of content hashes. */
  ghost predicate DigestsShaped(rules: Rules) {
    forall c: Content :: Hex(rules.digest(c), 16)
  }

  method CombineSourceArtifacts(
      rules: Rules, required: Required, integration: Artifact, smoke: Artifact, expectedHost: string, clock: Clock)
    returns (r: Combination)
    requires DigestsShaped(rules)
    ensures r.Accepted? <==>
            Combinable(rules, required, integration, smoke, expectedHost, clock) && 0 <= clock.maxAgeMs &&
              0 <= clock.clockSkewMs
    ensures r.Accepted? ==> r.artifact == BuildCombined(rules, integration, smoke, clock.nowMs)
  {
    var failures := ParseProofArtifact(rules, integration, None, clock);
    if failures == [] && integration.deployment.Some? { failures := [WrongKind]; }
    var smokeFailures := ParseProofArtifact(rules, smoke, Some(expectedHost), clock);
    if smokeFailures == [] && smoke.deployment.None? { smokeFailures := [WrongKind]; }
    failures := failures + smokeFailures;
    if failures != [] { return Refused(failures); }
    if integration.base.verdict != PassVerdict { failures := failures + [NotPassVerdict]; }
    if smoke.base.verdict != PassVerdict { failures := failures + [NotPassVerdict]; }
    if integration.base.subjectGitSha != smoke.base.subjectGitSha { failures := failures + [CommitMismatch]; }
    if integration.base.migrationChecksum != smoke.base.migrationChecksum { failures := failures + [ChecksumMismatch]; }
    if smoke.deployment.value.previewHostname != NormalHost(rules.lower, expectedHost) {
      failures := failures + [HostMismatch];
    }
    var sourceFailures := SourceCaseFailures(required, integration.base, smoke.base);
    failures := failures + sourceFailures;
    if failures != [] { return Refused(failures); }
    assert Combinable(rules, required, integration, smoke, expectedHost, clock);
    var built := BuildCombined(rules, integration, smoke, clock.nowMs);
    failures := ParseCombinedReadinessArtifact(rules, built, Some(expectedHost), clock);
    BuiltIsAcceptable(rules, required, integration, smoke, expectedHost, clock);
    if failures != [] { return Refused(failures); }
    r := Accepted(built);
  }

  method SourceCaseFailures(required: Required, integration: Base, smoke: Base) returns (failures: seq<Failure>)
    ensures failures == [] <==>
            ExactPass(integration.cases, required.integration) && ExactPass(smoke.cases, required.smoke) &&
            forall f :: f in smoke.futureNotApplicable ==> f.name !in required.smoke
  {
    var flaws := RequireExactPassCases(integration.cases, required.integration);
    failures := AsFailures(flaws);
    flaws := RequireExactPassCases(smoke.cases, required.smoke);
    var more := AsFailures(flaws);
    failures := failures + more;
    ghost var exact := failures == [];
    var future := smoke.futureNotApplicable;
    for i := 0 to |future|
      invariant failures == [] <==> exact && forall f :: f in future[..i] ==> f.name !in required.smoke
    {
      assert future[..i + 1] == future[..i] + [future[i]];
      if future[i].name in required.smoke { failures := failures + [RequiredAsFuture(future[i].name)]; }
    }
    assert future[..|future|] == future;
  }

  /** Writing every status as PASS changes nothing when the source is an acceptable PASS. */
  lemma PassesUnchanged(cases: seq<Case>)
    requires VerdictFits(cases, PassVerdict) && NamesPresent(cases)
    ensures AsPasses(cases) == cases
  {
  }

  lemma BuiltIsAcceptable(rules: Rules, required: Required, integration: Artifact, smoke: Artifact,
    expectedHost: string, clock: Clock)
    requires DigestsShaped(rules) && Combinable(rules, required, integration, smoke, expectedHost, clock)
    ensures var built := BuildCombined(rules, integration, smoke, clock.nowMs);
            CombinedAcceptable(rules, built, Some(expectedHost), clock) <==>
              0 <= clock.maxAgeMs && 0 <= clock.clockSkewMs
  {
    PassesUnchanged(integration.base.cases);
    PassesUnchanged(smoke.base.cases);
  }

  // ---- What suffices ----

  function AllPass(names: seq<string>): seq<Case> {
    seq(|names|, i requires 0 <= i < |names| => Case(names[i], Pass))
  }

  /** A list of names a suite can report under. */
  ghost predicate Reportable(rules: Rules, names: seq<string>) {
    names != [] && Distinct(names) && forall name :: name in names ==> name != "" && !rules.secretLike(name)
  }

  lemma AllPassIsExact(rules: Rules, names: seq<string>)
    requires Reportable(rules, names)
    ensures Names(AllPass(names)) == names && ExactPass(AllPass(names), names)
    ensures Coherent(AllPass(names), [], PassVerdict) && AllPassed(rules, AllPass(names))
  {
    forall name | name in names ensures Case(name, Pass) in AllPass(names) {
      var i :| 0 <= i < |names| && names[i] == name;
      assert AllPass(names)[i] == Case(name, Pass);
    }
    assert Names(AllPass(names)) == names;
    assert FutureNames([]) == [];
    forall c | c in AllPass(names) ensures c.name in names && c.status == Pass {
      var i :| 0 <= i < |names| && AllPass(names)[i] == c;
    }
  }

  /** Nothing more is asked: complete passing suites, both fresh, of one commit and one migration set,
      the smoke suite against the expected preview host, always combine. */
  lemma CompletePassesCombine(rules: Rules, required: Required, gitSha: string, migrationChecksum: string,
    d: Deployment, integrationAt: int, smokeAt: int, clock: Clock)
    requires Hex(gitSha, 40) && Hex(migrationChecksum, 16) && d.runnerGitSha == d.deploymentGitSha == gitSha
    requires DeploymentId(d.deploymentId) && Hex(d.databaseFingerprintSha, 64)
    requires PreviewHost(d.previewHostname) && NormalHost(rules.lower, d.previewHostname) == d.previewHostname
    requires d.previewHostname != "" && !rules.secretLike(d.previewHostname)
    requires Reportable(rules, required.integration) && Reportable(rules, required.smoke)
    requires Fresh(Canonical(integrationAt), clock) && Fresh(Canonical(smokeAt), clock)
    ensures var integration := Artifact(Base(2, PassVerdict, gitSha, migrationChecksum, Canonical(integrationAt),
      INTEGRATION_MATRIX, AllPass(required.integration), []), None);
            var smoke := Artifact(Base(2, PassVerdict, gitSha, migrationChecksum, Canonical(smokeAt),
              SMOKE_MATRIX, AllPass(required.smoke), []), Some(d));
            Combinable(rules, required, integration, smoke, d.previewHostname, clock)
  {
    AllPassIsExact(rules, required.integration);
    AllPassIsExact(rules, required.smoke);
  }

  // ---- What the pipeline guarantees ----

  /** No FAIL becomes a PASS: the combined cases are the source cases, all of them PASS there, and
      each required case is there exactly once. */
  lemma CombiningInventsNoPass(rules: Rules, required: Required, integration: Artifact, smoke: Artifact,
    expectedHost: string, clock: Clock)
    requires Combinable(rules, required, integration, smoke, expectedHost, clock)
    ensures var c := BuildCombined(rules, integration, smoke, clock.nowMs).content;
            c.integrationCases == integration.base.cases && c.smokeCases == smoke.base.cases &&
            (forall x :: x in integration.base.cases + smoke.base.cases ==> x.status == Pass) &&
            (forall name :: name in required.integration ==> Count(c.integrationCases, name) == 1) &&
            (forall name :: name in required.smoke ==> Count(c.smokeCases, name) == 1)
  {
    PassesUnchanged(integration.base.cases);
    PassesUnchanged(smoke.base.cases);
    forall x | x in integration.base.cases + smoke.base.cases ensures x.status == Pass {
      assert x in integration.base.cases || x in smoke.base.cases;
    }
    forall name | name in required.integration ensures Count(integration.base.cases, name) == 1 {
      ExactPassCase(integration.base.cases, required.integration, name);
    }
    forall name | name in required.smoke ensures Count(smoke.base.cases, name) == 1 {
      ExactPassCase(smoke.base.cases, required.smoke, name);
    }
  }

  /** The same limits at a later moment. */
  function At(clock: Clock, nowMs: int): Clock { clock.(nowMs := nowMs) }

  function Earliest(a: int, b: int, c: int): int {
    var ab := if a < b then a else b;
    if ab < c then ab else c
  }

  /** Combined evidence proves readiness from the moment it is made until the oldest of its three
      times exceeds the age limit, and never after. */
  lemma EvidenceLifetime(
      rules: Rules, required: Required, integration: Artifact, smoke: Artifact, expectedHost: string, clock: Clock,
        later: int)
    requires DigestsShaped(rules) && Combinable(rules, required, integration, smoke, expectedHost, clock)
    requires 0 <= clock.maxAgeMs && 0 <= clock.clockSkewMs && clock.nowMs <= later
    ensures var expected := Expectation(integration.base.subjectGitSha, integration.base.migrationChecksum,
      Some(expectedHost));
            Proves(rules, required, BuildCombined(rules, integration, smoke, clock.nowMs), expected,
              At(clock, later)) <==>
            later - Earliest(clock.nowMs, integration.base.timestamp.ms, smoke.base.timestamp.ms) <= clock.maxAgeMs
  {
    BuiltIsAcceptable(rules, required, integration, smoke, expectedHost, clock);
    PassesUnchanged(integration.base.cases);
    PassesUnchanged(smoke.base.cases);
    var built := BuildCombined(rules, integration, smoke, clock.nowMs);
    assert AllFresh(built.content, At(clock, later)) <==>
           later - Earliest(clock.nowMs, integration.base.timestamp.ms, smoke.base.timestamp.ms) <= clock.maxAgeMs;
  }

  /** Sources that combined once combine again later exactly while both are within the age limit. */
  lemma RecombinationExactly(
      rules: Rules, required: Required, integration: Artifact, smoke: Artifact, expectedHost: string, clock: Clock,
        later: int)
    requires Combinable(rules, required, integration, smoke, expectedHost, clock) && clock.nowMs <= later
    ensures Combinable(rules, required, integration, smoke, expectedHost, At(clock, later)) <==>
            later - integration.base.timestamp.ms <= clock.maxAgeMs && later - smoke.base.timestamp.ms <= clock.maxAgeMs
  {
  }

  /** Recombining cannot refresh: evidence combined from these sources at any moment proves nothing
      once either source is older than the limit, whatever the commit it is checked against. */
  lemma RecombiningCannotRefresh(
      rules: Rules, required: Required, integration: Artifact, smoke: Artifact, combinedAt: int,
        expected: Expectation, clock: Clock)
    requires smoke.deployment.Some? && integration.base.timestamp.Canonical? && smoke.base.timestamp.Canonical?
    requires clock.nowMs - integration.base.timestamp.ms > clock.maxAgeMs ||
      clock.nowMs - smoke.base.timestamp.ms > clock.maxAgeMs
    ensures !Proves(rules, required, BuildCombined(rules, integration, smoke, combinedAt), expected, clock)
  {
  }

  function DefaultClock(nowMs: int): Clock { Clock(nowMs, PROOF_MAX_AGE_MS, PROOF_CLOCK_SKEW_MS) }

  /** With the default limits every accepted evidence rests on sources at most 24 hours old and at
      most five minutes ahead of the clock. */
  lemma EvidenceIsRecent(rules: Rules, required: Required, a: Combined, expected: Expectation, nowMs: int)
    requires Proves(rules, required, a, expected, DefaultClock(nowMs))
    ensures nowMs - 86_400_000 <= a.content.integrationTimestamp.ms <= nowMs + 300_000
    ensures nowMs - 86_400_000 <= a.content.smokeTimestamp.ms <= nowMs + 300_000
  {
  }

  // ---- From the observation log to the evidence ----

  /** The integration artifact the suite runner builds from an aggregated log. */
  function RunnerArtifact(cases: seq<Case>, gitSha: string, migrationChecksum: string, nowMs: int): Artifact {
    Artifact(Base(ARTIFACT_VERSION, PassVerdict, gitSha, migrationChecksum, Canonical(nowMs), INTEGRATION_MATRIX,
      cases, []), None)
  }

  /** The runner's gate: a complete log whose cases all passed, and an artifact that validates. */
  ghost predicate RunnerAccepts(
      rules: Rules, required: Required, log: seq<L.Line>, gitSha: string, migrationChecksum: string, clock: Clock)
  {
    var cases := L.Outcomes(log, required.integration);
    L.Complete(log, required.integration) && (forall c :: c in cases ==> c.status == Pass) &&
    Acceptable(rules, RunnerArtifact(cases, gitSha, migrationChecksum, clock.nowMs), None, clock)
  }

  method BuildFromLog(
      rules: Rules, required: Required, log: Option<seq<L.Line>>, gitSha: string, migrationChecksum: string,
        clock: Clock)
    returns (r: Option<Artifact>)
    ensures r.Some? <==> log.Some? && RunnerAccepts(rules, required, log.value, gitSha, migrationChecksum, clock)
    ensures r.Some? ==> forall line :: line in log.value && line != L.Blank ==> line.status == Pass
    ensures r.Some? ==> r.value == RunnerArtifact(L.Outcomes(log.value, required.integration), gitSha,
      migrationChecksum, clock.nowMs)
  {
    var aggregated := L.AggregateIntegrationObservations(log, required.integration);
    if aggregated.failures != [] { return None; }
    var anyFail := exists c :: c in aggregated.cases && c.status == Fail;
    if anyFail { return None; }
    L.CompleteAndPassing(log.value, required.integration);
    var artifact := RunnerArtifact(aggregated.cases, gitSha, migrationChecksum, clock.nowMs);
    var failures := ParseProofArtifact(rules, artifact, None, clock);
    if failures != [] { return None; }
    r := Some(artifact);
  }

  /** Evidence traces to the log: however the runner's artifact was combined later, evidence that
      proves readiness is of the commit the suite ran on, was observed within the age limit, and has
      behind each of its integration cases exactly one line of the log, a PASS. */
  lemma EvidenceTracesToLog(
      rules: Rules, required: Required, log: seq<L.Line>, gitSha: string, migrationChecksum: string, ran: Clock,
      smoke: Artifact, combinedAt: int, expected: Expectation, clock: Clock)
    requires RunnerAccepts(rules, required, log, gitSha, migrationChecksum, ran) && smoke.deployment.Some?
    requires var source := RunnerArtifact(L.Outcomes(log, required.integration), gitSha, migrationChecksum, ran.nowMs);
             Proves(rules, required, BuildCombined(rules, source, smoke, combinedAt), expected, clock)
    ensures gitSha == expected.gitSha && migrationChecksum == expected.migrationChecksum
    ensures clock.nowMs - ran.nowMs <= clock.maxAgeMs
    ensures var source := RunnerArtifact(L.Outcomes(log, required.integration), gitSha, migrationChecksum, ran.nowMs);
            forall c :: c in BuildCombined(rules, source, smoke, combinedAt).content.integrationCases ==>
              c.name in required.integration &&
              multiset(log)[L.Observation(c.name, Pass)] == 1 && multiset(log)[L.Observation(c.name, Fail)] == 0
  {
  }
}
