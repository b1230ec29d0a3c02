/**
 * Construction of the analyzer: the caller's partial options are merged with
 * the defaults, and a directory without a `.git` entry is refused.
 */
module Config {
  import opened Wrappers

  /** `includeBranches`: the string 'all', or a list of branch names. */
  datatype IncludeBranches = All | Only(names: seq<string>)

  /** The effective options (AnalysisOptions). */
  datatype Options = Options(
    threshold: int,
    includeBranches: IncludeBranches,
    excludePatterns: seq<string>,
    maxResults: int,
    analyzeHistory: bool)

  /**
   * What a caller may pass: every field may be missing. A missing number
   * stands for undefined and for NaN alike (both falsy, like 0).
   */
  datatype PartialOptions = PartialOptions(
    threshold: Option<int>,
    includeBranches: Option<IncludeBranches>,
    excludePatterns: Option<seq<string>>,
    maxResults: Option<int>,
    analyzeHistory: Option<bool>)

  datatype Analyzer = Analyzer(repositoryPath: string, options: Options)

  /** The errors that abort construction or a whole analysis. */
  datatype Error = NotARepository(path: string) | GitCommandFailed(command: string)

  const DefaultThreshold: int := 1024 * 1024
  const DefaultMaxResults: int := 100
  const DefaultExcludePatterns: seq<string> := [".git/**", "node_modules/**"]

  /** `value || fallback` on a number: undefined, NaN and 0 are falsy. */
  function NumberOr(value: Option<int>, fallback: int): int {
    if value.Some? && value.value != 0 then value.value else fallback
  }

  /**
   * The constructor's option merge. A number the caller gives is kept unless
   * it is falsy; so neither threshold nor maxResults can end up 0. Lists are
   * kept whenever given (an empty list is truthy); analyzeHistory is false
   * only when the caller says false.
   */
  function ResolveOptions(p: PartialOptions): (o: Options)
    ensures o.threshold != 0 && o.maxResults != 0
    ensures o.threshold == DefaultThreshold <==> p.threshold.None? || p.threshold.value in {0, DefaultThreshold}
    ensures o.maxResults == DefaultMaxResults <==> p.maxResults.None? || p.maxResults.value in {0, DefaultMaxResults}
    ensures p.threshold.Some? && p.threshold.value != 0 ==> o.threshold == p.threshold.value
    ensures p.maxResults.Some? && p.maxResults.value != 0 ==> o.maxResults == p.maxResults.value
    ensures o.includeBranches == All <==> p.includeBranches.None? || p.includeBranches.value == All
    ensures p.includeBranches.Some? ==> o.includeBranches == p.includeBranches.value
    ensures o.excludePatterns == if p.excludePatterns.Some? then p.excludePatterns.value else DefaultExcludePatterns
    ensures !o.analyzeHistory <==> p.analyzeHistory == Some(false)
  {
    Options(
      NumberOr(p.threshold, DefaultThreshold),
      if p.includeBranches.Some? then p.includeBranches.value else All,
      if p.excludePatterns.Some? then p.excludePatterns.value else DefaultExcludePatterns,
      NumberOr(p.maxResults, DefaultMaxResults),
      p.analyzeHistory != Some(false))
  }

  /** The constructor: it fails exactly when the directory has no `.git` entry. */
  function NewAnalyzer(repositoryPath: string, p: PartialOptions, hasGitEntry: bool): (r: Result<Analyzer, Error>)
    ensures r.Ok? <==> hasGitEntry
    ensures r.Err? ==> r.error == NotARepository(repositoryPath)
    ensures r.Ok? ==> r.value.repositoryPath == repositoryPath && r.value.options == ResolveOptions(p)
  {
    if hasGitEntry then Ok(Analyzer(repositoryPath, ResolveOptions(p)))
    else Err(NotARepository(repositoryPath))
  }

  /** A threshold or result cap of 0 falls back to the default. */
  lemma ZeroMeansDefault(p: PartialOptions)
    requires p.threshold == Some(0) && p.maxResults == Some(0)
    ensures ResolveOptions(p).threshold == DefaultThreshold
    ensures ResolveOptions(p).maxResults == DefaultMaxResults
  {
  }
}
