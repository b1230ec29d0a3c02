/**
 * analyze: the whole analysis, its steps run in turn. Only the two branch
 * listings and the object listing can abort it; every other failure is
 * caught inside its step.
 */
module Engine {
  import opened Wrappers
  import opened Git
  import opened Config
  import opened Report
  import Branches
  import CrossRef
  import BranchReport
  import Advice
  import Footprint

  /** analyzeBranches as a value: one recorded entry per branch, in order. */
  function BranchEntries(branches: seq<string>): seq<BranchAnalysis> {
    seq(|branches|, i requires 0 <= i < |branches| => BranchReport.StubEntry(branches[i]))
  }

  /**
   * The result of analyze: the branches, then the large files, then the
   * branch entries, the recommendations, the summary and the repository
   * size, in that order; the first failing listing decides the error.
   */
  function Analysis(a: Analyzer, git: Oracle, render: Renderer): Result<AnalysisResult, Error> {
    match Branches.GetAllBranches(git, a.options.includeBranches)
    case Err(e) => Err(e)
    case Ok(branches) =>
      match CrossRef.LargeFiles(git, a.options, render)
      case Err(e) => Err(e)
      case Ok(largeFiles) =>
        Ok(Assembled(a, git, render, branches, largeFiles))
  }

  /** The report analyze builds once the branches and the large files are known. */
  function Assembled(a: Analyzer, git: Oracle, render: Renderer, branches: seq<string>, largeFiles: seq<LargeFile>): AnalysisResult {
    var branchAnalysis := BranchEntries(branches);
    var totalSize := Footprint.RepositorySize(git);
    AnalysisResult(
      a.repositoryPath,
      totalSize,
      FormatNumber(render, totalSize),
      largeFiles,
      branchAnalysis,
      Advice.Recommendations(largeFiles, render),
      Advice.CreateSummary(largeFiles, branchAnalysis, render))
  }

  /** analyze, calling each step as the analyzer does. */
  method Analyze(a: Analyzer, git: Oracle, render: Renderer) returns (r: Result<AnalysisResult, Error>)
    ensures r == Analysis(a, git, render)
  {
    var branches := Branches.GetAllBranches(git, a.options.includeBranches);
    if branches.Err? {
      return Err(branches.error);
    }
    var largeFiles := CrossRef.FindLargeFiles(git, a.options, render);
    if largeFiles.Err? {
      return Err(largeFiles.error);
    }
    assert Analysis(a, git, render) == Ok(Assembled(a, git, render, branches.value, largeFiles.value));
    var branchAnalysis := BranchReport.AnalyzeBranches(branches.value);
    assert branchAnalysis == BranchEntries(branches.value);
    var recommendations := Advice.GenerateRecommendations(largeFiles.value, render);
    var summary := Advice.CreateSummary(largeFiles.value, branchAnalysis, render);
    var totalSize := Footprint.GetRepositorySize(git);
    return Ok(AnalysisResult(
      a.repositoryPath,
      totalSize,
      FormatNumber(render, totalSize),
      largeFiles.value,
      branchAnalysis,
      recommendations,
      summary));
  }

  /**
   * analyze fails exactly when one of the remote branch listing, the local
   * branch listing and the object listing fails, with the first of them as
   * its error; no other command can make it fail.
   */
  lemma AnalysisFailures(a: Analyzer, git: Oracle, render: Renderer)
    ensures Analysis(a, git, render).Ok? <==>
      Exec(git.remoteBranchNames).Some? && Exec(git.localBranchNames).Some? && Exec(git.allObjects).Some?
    ensures Exec(git.remoteBranchNames).None? ==>
      Analysis(a, git, render) == Err(GitCommandFailed(RemoteBranchNamesCommand))
    ensures Exec(git.remoteBranchNames).Some? && Exec(git.localBranchNames).None? ==>
      Analysis(a, git, render) == Err(GitCommandFailed(LocalBranchNamesCommand))
    ensures Exec(git.remoteBranchNames).Some? && Exec(git.localBranchNames).Some? && Exec(git.allObjects).None? ==>
      Analysis(a, git, render) == Err(GitCommandFailed(AllObjectsCommand))
  {
    CrossRef.LargeFilesShape(git, a.options, render);
  }

  /**
   * The large files of a report are sorted largest first, all at or above
   * the threshold, at most `maxResults` of them, and each is in the main
   * branch exactly when the main branch is among its branches.
   */
  lemma ReportFiles(a: Analyzer, git: Oracle, render: Renderer)
    requires Analysis(a, git, render).Ok?
    ensures var files := Analysis(a, git, render).value.largeFiles;
      CrossRef.SortedFiles(files)
      && (forall f :: f in files ==> f.size >= a.options.threshold)
      && (a.options.maxResults >= 0 ==> |files| <= a.options.maxResults)
      && forall f :: f in files ==> Branches.MainBranch(git).Some? && (f.isInMainBranch <==> Branches.MainBranch(git).value in f.branches)
  {
    CrossRef.LargeFilesShape(git, a.options, render);
  }

  /**
   * The branch entries name the branches, in order and, for distinct names,
   * once each; every entry has size 0 and no large files, so none counts as
   * a branch with large files; an entry is remote exactly when its name
   * starts with `origin/`.
   */
  lemma EntriesShape(branches: seq<string>)
    ensures var entries := BranchEntries(branches);
      |entries| == |branches|
      && (forall i :: 0 <= i < |branches| ==>
            entries[i].name == branches[i] && entries[i].size == 0 && entries[i].uniqueSize == 0
            && (entries[i].isRemote <==> BranchReport.IsRemote(branches[i])))
      && (Branches.NoDuplicates(branches) ==>
            forall i, j :: 0 <= i < j < |entries| ==> entries[i].name != entries[j].name)
      && Advice.Select(entries, BranchReport.HasLargeFiles) == []
  {
    var entries := BranchEntries(branches);
    Advice.SelectEmpty(entries, BranchReport.HasLargeFiles);
    forall e | e in entries ensures !BranchReport.HasLargeFiles(e) {
      var i :| 0 <= i < |entries| && entries[i] == e;
    }
  }

  /**
   * The branch entries of a report name the selected branches, once each, in
   * order, and the summary counts them and finds no branch with large files.
   */
  lemma ReportBranches(a: Analyzer, git: Oracle, render: Renderer)
    requires Analysis(a, git, render).Ok?
    ensures var res := Analysis(a, git, render).value;
      var branches := Branches.GetAllBranches(git, a.options.includeBranches).value;
      |res.branchAnalysis| == |branches|
      && (forall i :: 0 <= i < |branches| ==> res.branchAnalysis[i] == BranchReport.StubEntry(branches[i]))
      && (forall i, j :: 0 <= i < j < |res.branchAnalysis| ==> res.branchAnalysis[i].name != res.branchAnalysis[j].name)
      && res.summary.totalBranches == |branches|
      && res.summary.branchesWithLargeFiles == 0
  {
    var branches := Branches.GetAllBranches(git, a.options.includeBranches).value;
    var files := CrossRef.LargeFiles(git, a.options, render).value;
    assert Analysis(a, git, render).value == Assembled(a, git, render, branches, files);
    AssembledBranches(a, git, render, branches, files);
  }

  /** The branch part of a report built from a list of distinct branch names. */
  lemma AssembledBranches(a: Analyzer, git: Oracle, render: Renderer, branches: seq<string>, files: seq<LargeFile>)
    requires Branches.NoDuplicates(branches)
    ensures var res := Assembled(a, git, render, branches, files);
      |res.branchAnalysis| == |branches|
      && (forall i :: 0 <= i < |branches| ==> res.branchAnalysis[i] == BranchReport.StubEntry(branches[i]))
      && (forall i, j :: 0 <= i < j < |res.branchAnalysis| ==> res.branchAnalysis[i].name != res.branchAnalysis[j].name)
      && res.summary.totalBranches == |branches|
      && res.summary.branchesWithLargeFiles == 0
  {
    EntriesShape(branches);
  }

  /**
   * The summary of a report agrees with its file list and its
   * recommendations: it counts the files, names the largest, and estimates
   * the not-in-main saving the first recommendation reports, or 0 when every
   * file is in the main branch. The size is that of `count-objects -v`.
   */
  lemma ReportSummary(a: Analyzer, git: Oracle, render: Renderer)
    requires Analysis(a, git, render).Ok?
    ensures var res := Analysis(a, git, render).value;
      res.repositoryPath == a.repositoryPath
      && res.totalSize == Footprint.RepositorySize(git)
      && res.summary.totalFiles == |res.largeFiles|
      && (res.summary.largestFile.Some? <==> res.largeFiles != [])
      && (res.largeFiles != [] ==>
            res.summary.largestFile == Some(res.largeFiles[0]) && res.summary.oldestLargeFile == Some(res.largeFiles[0]))
      && (forall f :: f in res.largeFiles ==>
            res.summary.largestFile.Some? && f.size <= res.summary.largestFile.value.size)
      && ((exists f :: f in res.largeFiles && !f.isInMainBranch) ==>
            res.recommendations != []
            && res.summary.estimatedCleanupSavings == res.recommendations[0].potentialSavings)
      && ((forall f :: f in res.largeFiles ==> f.isInMainBranch) ==> res.summary.estimatedCleanupSavings == 0)
      && |res.recommendations| <= 3
      && forall rec :: rec in res.recommendations ==> rec.actionable
  {
    var branches := Branches.GetAllBranches(git, a.options.includeBranches).value;
    var files := CrossRef.LargeFiles(git, a.options, render).value;
    assert Analysis(a, git, render).value == Assembled(a, git, render, branches, files);
    var entries := BranchEntries(branches);
    ReportFiles(a, git, render);
    Advice.SummaryAgreesWithAdvice(files, entries, render);
    Advice.RecommendationsFire(files, render);
    Advice.SavingsBounded(files, render);
  }
}
