// Readiness proof artifacts: source artifacts, the combined artifact, and their validation.

module ProofArtifact {
  import opened Hostnames
  import opened ProofCases
  import opened Options

  const ARTIFACT_VERSION := 2
  const PROOF_MAX_AGE_MS := 24 * 60 * 60 * 1000
  const PROOF_CLOCK_SKEW_MS := 5 * 60 * 1000
  const INTEGRATION_MATRIX := "real_postgresql_integration"
  const SMOKE_MATRIX := "deployed_http_alpha_surface"

  /** A timestamp text is either the canonical rendering of some millisecond or it is malformed. */
  datatype Timestamp = Canonical(ms: int) | Malformed
  datatype Clock = Clock(nowMs: int, maxAgeMs: int, clockSkewMs: int)

  datatype Verdict = PassVerdict | FailVerdict | BlockedExternal | Incomplete
  datatype FutureCase = FutureCase(name: string, reason: string)

  /** The fields both source artifacts share; an absent futureNotApplicable list is empty. */
  datatype Base = Base(
    artifactVersion: int, verdict: Verdict, subjectGitSha: string, migrationChecksum: string,
    timestamp: Timestamp, matrix: string, cases: seq<Case>, futureNotApplicable: seq<FutureCase>)
  datatype Deployment = Deployment(
    previewHostname: string, runnerGitSha: string, deploymentGitSha: string, deploymentId: string,
    databaseFingerprintSha: string)

  /** `deployment` is present exactly in artifacts of kind "smoke". */
  datatype Artifact = Artifact(base: Base, deployment: Option<Deployment>)

  datatype Content = Content(
    artifactVersion: int, verdict: Verdict, subjectGitSha: string, migrationChecksum: string, previewHostname: string,
    timestamp: Timestamp, integrationTimestamp: Timestamp, smokeTimestamp: Timestamp,
    integrationCases: seq<Case>, smokeCases: seq<Case>)
  datatype Combined = Combined(content: Content, contentDigest: string)

  /** The content hash, the runtime's lower-casing and the secret patterns. Only free-form text is
      scanned for secrets: the shapes of the other fields exclude every pattern. */
  datatype Rules = Rules(digest: Content -> string, lower: string -> string, secretLike: string -> bool)

  predicate Hex(s: string, n: nat) { |s| == n && forall c :: c in s ==> '0' <= c <= '9' || 'a' <= c <= 'f' }

  lemma HexDigits(c: char)
    ensures '0' <= c <= '9' || 'a' <= c <= 'f' <==> c in "0123456789abcdef"
  {
    if '0' <= c <= '9' {
      assert "0123456789abcdef"[c as int - '0' as int] == c;
    } else if 'a' <= c <= 'f' {
      assert "0123456789abcdef"[10 + c as int - 'a' as int] == c;
    }
  }

  /** So many lower-case hexadecimal digits and nothing else. */
  lemma HexMeans(s: string, n: nat)
    ensures Hex(s, n) <==> |s| == n && forall i :: 0 <= i < |s| ==> s[i] in "0123456789abcdef"
  {
    forall i | 0 <= i < |s|
      ensures s[i] in s && ('0' <= s[i] <= '9' || 'a' <= s[i] <= 'f' <==> s[i] in "0123456789abcdef")
    {
      HexDigits(s[i]);
    }
  }

  predicate DeploymentId(s: string) {
    "dpl_" < s && forall c :: c in s[4..] ==> 'A' <= c <= 'Z' || 'a' <= c <= 'z' || '0' <= c <= '9'
  }

  datatype Failure =
    | BadShape | TimestampInvalid | TimestampInFuture | TimestampStale
    | DuplicateName(name: string) | ActiveAndFuture(name: string)
    | EmptyPass | PassWithFail | FailWithoutFail | IncompleteProof | BlockedWithPass | AllPassButFail
    | BadHostname(why: HostnameFailure) | HostMismatch | CommitMismatch | ChecksumMismatch | DigestMismatch | SecretLike
    | WrongKind | NotPassVerdict | CaseProblem(flaw: CaseFailure) | RequiredAsFuture(name: string)

  // ---- Timestamps ----

  /** Neither older than the limit nor ahead of the clock by more than the skew. */
  predicate Fresh(t: Timestamp, clock: Clock) {
    t.Canonical? && t.ms <= clock.nowMs + clock.clockSkewMs && clock.nowMs - t.ms <= clock.maxAgeMs
  }

  method ValidateTimestampBounds(t: Timestamp, clock: Clock) returns (failures: seq<Failure>)
    ensures failures == [] <==> Fresh(t, clock)
    ensures TimestampStale in failures <==> t.Canonical? && t.ms < clock.nowMs - clock.maxAgeMs
    ensures TimestampInFuture in failures <==> t.Canonical? && t.ms > clock.nowMs + clock.clockSkewMs
  {
    failures := [];
    if t.Malformed? { return [TimestampInvalid]; }
    if t.ms > clock.nowMs + clock.clockSkewMs { failures := failures + [TimestampInFuture]; }
    if clock.nowMs - t.ms > clock.maxAgeMs { failures := failures + [TimestampStale]; }
  }

  // ---- Case inventory ----

  function FutureNames(future: seq<FutureCase>): seq<string> {
    seq(|future|, i requires 0 <= i < |future| => future[i].name)
  }

  predicate VerdictFits(cases: seq<Case>, verdict: Verdict) {
    match verdict
    case PassVerdict => cases != [] && forall c :: c in cases ==> c.status != Fail
    case FailVerdict => exists c :: c in cases && c.status == Fail
    case BlockedExternal => forall c :: c in cases ==> c.status != Pass
    case Incomplete => false
  }

  /** Names are distinct in each list and not shared between them, and the verdict fits the cases. */
  ghost predicate Coherent(cases: seq<Case>, future: seq<FutureCase>, verdict: Verdict) {
    Distinct(Names(cases)) && Distinct(FutureNames(future)) &&
    (forall name :: name in Names(cases) ==> name !in FutureNames(future)) &&
    VerdictFits(cases, verdict)
  }

  /** The flaw a reported failure names. */
  ghost predicate Flawed(f: Failure, cases: seq<Case>, future: seq<FutureCase>, verdict: Verdict) {
    match f
    case DuplicateName(name) => multiset(Names(cases))[name] > 1 || multiset(FutureNames(future))[name] > 1
    case ActiveAndFuture(name) => name in Names(cases) && name in FutureNames(future)
    case EmptyPass => verdict == PassVerdict && cases == []
    case PassWithFail => verdict == PassVerdict && exists c :: c in cases && c.status == Fail
    case FailWithoutFail => verdict == FailVerdict && forall c :: c in cases ==> c.status != Fail
    case IncompleteProof => verdict == Incomplete
    case BlockedWithPass => verdict == BlockedExternal && exists c :: c in cases && c.status == Pass
    case AllPassButFail => verdict == FailVerdict && cases != [] && forall c :: c in cases ==> c.status != Fail
    case _ => false
  }

  method VerdictFailures(cases: seq<Case>, future: seq<FutureCase>, verdict: Verdict) returns (failures: seq<Failure>)
    ensures failures == [] <==> VerdictFits(cases, verdict)
    ensures forall f :: f in failures ==> Flawed(f, cases, future, verdict)
  {
    failures := [];
    var anyFail := exists c :: c in cases && c.status == Fail;
    var anyPass := exists c :: c in cases && c.status == Pass;
    var allPass := cases != [] && !anyFail;
    if verdict == PassVerdict {
      if cases == [] { failures := failures + [EmptyPass]; }
      if anyFail { failures := failures + [PassWithFail]; }
    }
    if verdict == FailVerdict && !anyFail { failures := failures + [FailWithoutFail]; }
    if verdict == Incomplete { failures := failures + [IncompleteProof]; }
    if verdict == BlockedExternal && anyPass { failures := failures + [BlockedWithPass]; }
    if allPass && verdict == FailVerdict { failures := failures + [AllPassButFail]; }
  }

  method ValidateCaseInventory(cases: seq<Case>, future: seq<FutureCase>, verdict: Verdict)
    returns (failures: seq<Failure>)
    ensures failures == [] <==> Coherent(cases, future, verdict)
    ensures forall f :: f in failures ==> Flawed(f, cases, future, verdict)
  {
    var caseNames, futureNames := Names(cases), FutureNames(future);
    failures := DuplicateFailures(caseNames);
    var more := DuplicateFailures(futureNames);
    failures := failures + more;
    ghost var distinct := failures == [];
    for i := 0 to |futureNames|
      invariant failures == [] <==> distinct && forall name :: name in futureNames[..i] ==> name !in caseNames
      invariant forall f :: f in failures ==> Flawed(f, cases, future, verdict)
    {
      assert futureNames[..i + 1] == futureNames[..i] + [futureNames[i]];
      if futureNames[i] in caseNames { failures := failures + [ActiveAndFuture(futureNames[i])]; }
    }
    assert futureNames[..|futureNames|] == futureNames;
    more := VerdictFailures(cases, future, verdict);
    failures := failures + more;
  }

  method DuplicateFailures(names: seq<string>) returns (failures: seq<Failure>)
    ensures failures == [] <==> Distinct(names)
    ensures forall f :: f in failures ==> f.DuplicateName? && multiset(names)[f.name] > 1
  {
    var dupes := CollectDuplicateNames(names);
    failures := Report(dupes);
  }

  method Report(dupes: set<string>) returns (failures: seq<Failure>)
    ensures failures == [] <==> dupes == {}
    ensures forall f :: f in failures <==> f.DuplicateName? && f.name in dupes
  {
    failures := [];
    var left := dupes;
    while left != {}
      invariant left <= dupes
      invariant failures == [] <==> left == dupes
      invariant forall f :: f in failures <==> f.DuplicateName? && f.name in dupes && f.name !in left
      decreases |left|
    {
      var name :| name in left;
      left := left - {name};
      failures := failures + [DuplicateName(name)];
    }
  }

  // ---- Source artifacts ----

  predicate NamesPresent(cases: seq<Case>) {
    forall c :: c in cases ==> c.name != "" && c.status != Unrecognized
  }

  /** The schemas of the two kinds. */
  predicate SchemaAccepts(a: Artifact) {
    var b := a.base;
    b.artifactVersion == ARTIFACT_VERSION && Hex(b.subjectGitSha, 40) && Hex(b.migrationChecksum, 16) &&
    b.timestamp.Canonical? && NamesPresent(b.cases) &&
    (forall f :: f in b.futureNotApplicable ==> f.name != "" && f.reason != "") &&
    match a.deployment
    case None => b.matrix == INTEGRATION_MATRIX
    case Some(d) =>
      b.matrix == SMOKE_MATRIX && d.previewHostname != "" && Hex(d.runnerGitSha, 40) && Hex(d.deploymentGitSha, 40) &&
      DeploymentId(d.deploymentId) && Hex(d.databaseFingerprintSha, 64)
  }

  predicate NoSecretNames(rules: Rules, cases: seq<Case>) {
    forall c :: c in cases ==> !rules.secretLike(c.name)
  }
  predicate NoSecrets(rules: Rules, a: Artifact) {
    NoSecretNames(rules, a.base.cases) &&
    (forall f :: f in a.base.futureNotApplicable ==> !rules.secretLike(f.name) && !rules.secretLike(f.reason)) &&
    (a.deployment.Some? ==> !rules.secretLike(a.deployment.value.previewHostname))
  }

  /** A preview host, and the expected one if one is expected. */
  ghost predicate ExpectedHost(rules: Rules, host: string, expected: Option<string>) {
    && PreviewHost(NormalHost(rules.lower, host))
    && (expected.Some? && NormalHost(rules.lower, expected.value) != "" ==>
      NormalHost(rules.lower, host) == NormalHost(rules.lower, expected.value))
  }

  method HostFailures(rules: Rules, host: string, expected: Option<string>) returns (failures: seq<Failure>)
    ensures failures == [] <==> ExpectedHost(rules, host, expected)
  {
    HostAcceptedExactly(rules.lower, host, expected);
    var failure := ValidateEvidenceHostname(rules.lower, host, expected);
    return if failure.Some? then [BadHostname(failure.value)] else [];
  }

  /** One commit was tested, run and deployed, on the expected host. */
  ghost predicate OneDeployment(rules: Rules, b: Base, d: Deployment, expected: Option<string>) {
    && d.runnerGitSha == b.subjectGitSha && d.deploymentGitSha == b.subjectGitSha
    && DeploymentId(d.deploymentId) && Hex(d.databaseFingerprintSha, 64)
    && d.previewHostname != "" && !rules.secretLike(d.previewHostname)
    && ExpectedHost(rules, d.previewHostname, expected)
  }

  /** What a parsed artifact means at this clock. */
  ghost predicate Acceptable(rules: Rules, a: Artifact, expected: Option<string>, clock: Clock) {
    var b := a.base;
    && b.artifactVersion == 2 && Hex(b.subjectGitSha, 40) && Hex(b.migrationChecksum, 16)
    && Fresh(b.timestamp, clock) && Coherent(b.cases, b.futureNotApplicable, b.verdict)
    && (forall c :: c in b.cases ==>
          c.name != "" && !rules.secretLike(c.name) && (c.status == Pass || c.status == Fail))
    && (forall f :: f in b.futureNotApplicable ==>
          f.name != "" && f.reason != "" && !rules.secretLike(f.name) && !rules.secretLike(f.reason))
    && b.matrix == (if a.deployment.None? then INTEGRATION_MATRIX else SMOKE_MATRIX)
    && (a.deployment.Some? ==> OneDeployment(rules, b, a.deployment.value, expected))
  }

  method ParseProofArtifact(rules: Rules, a: Artifact, expected: Option<string>, clock: Clock)
    returns (failures: seq<Failure>)
    ensures failures == [] <==> Acceptable(rules, a, expected, clock)
    ensures failures == [] && a.deployment.Some? && expected.Some? && NormalHost(rules.lower, expected.value) != "" ==>
              NormalHost(rules.lower, a.deployment.value.previewHostname) == NormalHost(rules.lower, expected.value)
  {
    if !SchemaAccepts(a) { return [BadShape]; }
    failures := ValidateTimestampBounds(a.base.timestamp, clock);
    var inventory := ValidateCaseInventory(a.base.cases, a.base.futureNotApplicable, a.base.verdict);
    failures := failures + inventory;
    if a.deployment.Some? {
      var d := a.deployment.value;
      var hostFailures := HostFailures(rules, d.previewHostname, expected);
      failures := failures + hostFailures;
      if a.base.subjectGitSha != d.runnerGitSha || a.base.subjectGitSha != d.deploymentGitSha {
        failures := failures + [CommitMismatch];
      }
    }
    if !NoSecrets(rules, a) { failures := failures + [SecretLike]; }
  }

  // ---- The combined artifact ----

  predicate CombinedSchemaAccepts(a: Combined) {
    var c := a.content;
    c.artifactVersion == ARTIFACT_VERSION && c.verdict == PassVerdict && Hex(c.subjectGitSha, 40) &&
    Hex(c.migrationChecksum, 16) && c.previewHostname != "" &&
    c.timestamp.Canonical? && c.integrationTimestamp.Canonical? && c.smokeTimestamp.Canonical? &&
    (forall x :: x in c.integrationCases ==> x.name != "" && x.status == Pass) &&
    (forall x :: x in c.smokeCases ==> x.name != "" && x.status == Pass) && Hex(a.contentDigest, 16)
  }

  /** All three times of the combined artifact are in bounds. */
  predicate AllFresh(c: Content, clock: Clock) {
    Fresh(c.timestamp, clock) && Fresh(c.integrationTimestamp, clock) && Fresh(c.smokeTimestamp, clock)
  }

  /** Named, passing, distinct cases without secrets. */
  ghost predicate AllPassed(rules: Rules, cases: seq<Case>) {
    Distinct(Names(cases)) && forall x :: x in cases ==> x.status == Pass && x.name != "" && !rules.secretLike(x.name)
  }

  ghost predicate CombinedAcceptable(rules: Rules, a: Combined, expected: Option<string>, clock: Clock) {
    var c := a.content;
    && c.artifactVersion == 2 && c.verdict == PassVerdict
    && Hex(c.subjectGitSha, 40) && Hex(c.migrationChecksum, 16)
    && AllFresh(c, clock) && AllPassed(rules, c.integrationCases) && AllPassed(rules, c.smokeCases)
    && c.previewHostname != "" && !rules.secretLike(c.previewHostname)
    && ExpectedHost(rules, c.previewHostname, expected)
    && a.contentDigest == rules.digest(c) && Hex(a.contentDigest, 16)
  }

  method ValidateAllTimestamps(c: Content, clock: Clock) returns (failures: seq<Failure>)
    ensures failures == [] <==> AllFresh(c, clock)
  {
    failures := ValidateTimestampBounds(c.timestamp, clock);
    var more := ValidateTimestampBounds(c.integrationTimestamp, clock);
    failures := failures + more;
    more := ValidateTimestampBounds(c.smokeTimestamp, clock);
    failures := failures + more;
  }

  method ParseCombinedReadinessArtifact(rules: Rules, a: Combined, expected: Option<string>, clock: Clock)
    returns (failures: seq<Failure>)
    ensures failures == [] <==> CombinedAcceptable(rules, a, expected, clock)
    ensures failures == [] && expected.Some? && NormalHost(rules.lower, expected.value) != "" ==>
              NormalHost(rules.lower, a.content.previewHostname) == NormalHost(rules.lower, expected.value)
  {
    if !CombinedSchemaAccepts(a) { return [BadShape]; }
    var c := a.content;
    failures := ValidateAllTimestamps(c, clock);
    var more := HostFailures(rules, c.previewHostname, expected);
    failures := failures + more;
    more := DuplicateFailures(Names(c.integrationCases));
    failures := failures + more;
    more := DuplicateFailures(Names(c.smokeCases));
    failures := failures + more;
    if rules.digest(c) != a.contentDigest { failures := failures + [DigestMismatch]; }
    if !(NoSecretNames(rules, c.integrationCases) && NoSecretNames(rules, c.smokeCases) &&
      !rules.secretLike(c.previewHostname)) {
      failures := failures + [SecretLike];
    }
  }

  /** Every status is written as PASS, whatever the source case says. */
  function AsPasses(cases: seq<Case>): seq<Case> {
    seq(|cases|, i requires 0 <= i < |cases| => Case(cases[i].name, Pass))
  }

  function BuildCombined(rules: Rules, integration: Artifact, smoke: Artifact, nowMs: int): Combined
    requires smoke.deployment.Some?
  {
    var content := Content(
      ARTIFACT_VERSION, PassVerdict, integration.base.subjectGitSha, integration.base.migrationChecksum,
      smoke.deployment.value.previewHostname, Canonical(nowMs), integration.base.timestamp, smoke.base.timestamp,
      AsPasses(integration.base.cases), AsPasses(smoke.base.cases));
    Combined(content, rules.digest(content))
  }
}
