// Host names of preview deployments, as readiness evidence names them.

module Hostnames {
  import opened Options
  import AnswerText

  const CANONICAL_PRODUCTION_HOSTNAME := "unstandard-m9qj.vercel.app"
  const CANONICAL_MAIN_BRANCH_ALIAS_HOSTNAME := "unstandard-m9qj-git-main-unstandard.vercel.app"

  datatype HostnameFailure =
    | EmptyHost | UrlNotHostname | Localhost | ProductionAlias | MainBranchAlias | NotVercelApp | UnexpectedPreview

  /** Trimmed and in lower case; `lower` is the runtime's case mapping. */
  function NormalHost(lower: string -> string, host: string): string { lower(AnswerText.Trim(host)) }

  predicate EndsWith(s: string, suffix: string) { |suffix| <= |s| && s[|s| - |suffix|..] == suffix }

  /** What is wrong with a normalized host, whatever deployment is expected. */
  function NameFailure(h: string): Option<HostnameFailure> {
    if h == "" then Some(EmptyHost)
    else if '/' in h || '?' in h || '@' in h then Some(UrlNotHostname)
    else if h == "localhost" || EndsWith(h, ".localhost") then Some(Localhost)
    else if h == CANONICAL_PRODUCTION_HOSTNAME then Some(ProductionAlias)
    else if h == CANONICAL_MAIN_BRANCH_ALIAS_HOSTNAME then Some(MainBranchAlias)
    else if !EndsWith(h, ".vercel.app") then Some(NotVercelApp)
    else None
  }

  function ValidateEvidenceHostname(lower: string -> string, host: string, expected: Option<string>)
    : Option<HostnameFailure>
  {
    var h := NormalHost(lower, host);
    if NameFailure(h).Some? then NameFailure(h)
    else if expected.Some? && NormalHost(lower, expected.value) != "" && NormalHost(lower, expected.value) != h
    then Some(UnexpectedPreview)
    else None
  }

  /** A bare preview host: no URL, and neither of the two permanent deployments. */
  predicate PreviewHost(h: string) {
    && '/' !in h && '?' !in h && '@' !in h && EndsWith(h, ".vercel.app")
    && h != "unstandard-m9qj.vercel.app" && h != "unstandard-m9qj-git-main-unstandard.vercel.app"
  }

  lemma LastCharacter(h: string, suffix: string)
    requires EndsWith(h, suffix) && suffix != ""
    ensures h != "" && h[|h| - 1] == suffix[|suffix| - 1]
  {
    assert h[|h| - |suffix|..][|suffix| - 1] == h[|h| - 1];
  }

  /** No preview host is local. */
  lemma PreviewIsNotLocal(h: string)
    requires EndsWith(h, ".vercel.app")
    ensures h != "" && h != "localhost" && !EndsWith(h, ".localhost")
  {
    LastCharacter(h, ".vercel.app");
    if EndsWith(h, ".localhost") { LastCharacter(h, ".localhost"); }
  }

  lemma NamesAcceptedExactly(h: string)
    ensures NameFailure(h).None? <==> PreviewHost(h)
  {
    if EndsWith(h, ".vercel.app") { PreviewIsNotLocal(h); }
  }

  /** Accepted are exactly the preview hosts, and of those only the expected one if one is expected. */
  lemma HostAcceptedExactly(lower: string -> string, host: string, expected: Option<string>)
    ensures var h := lower(AnswerText.Trim(host));
            var other := expected.Some? && lower(AnswerText.Trim(expected.value)) != "" &&
              lower(AnswerText.Trim(expected.value)) != h;
            && (ValidateEvidenceHostname(lower, host, expected).None? <==> PreviewHost(h) && !other)
            && (ValidateEvidenceHostname(lower, host, expected) == Some(UnexpectedPreview) <==>
                  PreviewHost(h) && other)
  {
    NamesAcceptedExactly(lower(AnswerText.Trim(host)));
  }
}
