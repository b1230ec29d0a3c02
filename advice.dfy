/**
 * generateRecommendations and createSummary: filters and exact integer sums
 * over the large-file list.
 */
module Advice {
  import opened Wrappers
  import opened JsText
  import opened Report
  import BranchReport

  /** `xs.filter(keep)`: the elements `keep` accepts, in order. */
  function Select<T(!new)>(xs: seq<T>, keep: T -> bool): (r: seq<T>)
    ensures |r| <= |xs|
    ensures forall x :: x in r <==> x in xs && keep(x)
  {
    if xs == [] then []
    else
      var init := xs[..|xs| - 1];
      var last := xs[|xs| - 1];
      assert xs == init + [last];
      Select(init, keep) + if keep(last) then [last] else []
  }

  /** Filtering one more element appends it exactly when it is accepted: the filter keeps order and multiplicity. */
  lemma SelectSnoc<T(!new)>(xs: seq<T>, x: T, keep: T -> bool)
    ensures Select(xs + [x], keep) == Select(xs, keep) + if keep(x) then [x] else []
  {
    assert (xs + [x])[..|xs|] == xs;
  }

  /** Filtering a concatenation filters each part: the accepted elements stay in their original order. */
  lemma {:induction false} SelectAppend<T(!new)>(xs: seq<T>, ys: seq<T>, keep: T -> bool)
    ensures Select(xs + ys, keep) == Select(xs, keep) + Select(ys, keep)
  {
    if ys == [] {
      assert xs + ys == xs;
    } else {
      var init, last := ys[..|ys| - 1], ys[|ys| - 1];
      assert xs + ys == (xs + init) + [last];
      assert ys == init + [last];
      SelectAppend(xs, init, keep);
      SelectSnoc(xs + init, last, keep);
      SelectSnoc(init, last, keep);
    }
  }

  /** `files.reduce((sum, file) => sum + file.size, 0)`, exact since every size is an integer. */
  function SumSizes(files: seq<LargeFile>): int {
    if files == [] then 0 else SumSizes(files[..|files| - 1]) + files[|files| - 1].size
  }

  lemma SumSnoc(files: seq<LargeFile>, f: LargeFile)
    ensures SumSizes(files + [f]) == SumSizes(files) + f.size
  {
    assert (files + [f])[..|files|] == files;
  }

  /** A selection is empty exactly when no element is accepted. */
  lemma SelectEmpty<T(!new)>(xs: seq<T>, keep: T -> bool)
    ensures Select(xs, keep) == [] <==> forall x :: x in xs ==> !keep(x)
  {
    var s := Select(xs, keep);
    if s != [] {
      assert s[0] in s;
    }
  }

  /** With no negative size, a selection never sums to more than the whole list, nor to less than 0. */
  lemma {:induction false} SelectedSumBounded(files: seq<LargeFile>, keep: LargeFile -> bool)
    requires forall f :: f in files ==> f.size >= 0
    ensures 0 <= SumSizes(Select(files, keep)) <= SumSizes(files)
  {
    if files != [] {
      var init := files[..|files| - 1];
      var last := files[|files| - 1];
      assert files == init + [last];
      assert forall f :: f in init ==> f in files;
      SelectedSumBounded(init, keep);
      if keep(last) {
        SumSnoc(Select(init, keep), last);
      } else {
        assert Select(files, keep) == Select(init, keep);
      }
    }
  }

  /** A non-empty list of positive sizes sums to at least any one of them, hence to more than 0. */
  lemma {:induction false} SumExceedsMember(files: seq<LargeFile>, f: LargeFile)
    requires forall g :: g in files ==> g.size > 0
    requires f in files
    ensures SumSizes(files) >= f.size > 0
  {
    var init, last := files[..|files| - 1], files[|files| - 1];
    assert files == init + [last];
    assert SumSizes(files) == SumSizes(init) + last.size;
    if init != [] {
      assert forall g :: g in init ==> g in files;
      if f in init {
        SumExceedsMember(init, f);
      } else {
        SumExceedsMember(init, init[0]);
      }
    }
  }

  /** With positive sizes, a non-empty selection saves more than 0 bytes and no more than the whole list. */
  lemma SelectionSavings(files: seq<LargeFile>, keep: LargeFile -> bool)
    requires forall f :: f in files ==> f.size > 0
    ensures Select(files, keep) != [] ==> 0 < SumSizes(Select(files, keep)) <= SumSizes(files)
  {
    var s := Select(files, keep);
    SelectedSumBounded(files, keep);
    if s != [] {
      assert s[0] in s;
      SumExceedsMember(s, s[0]);
    }
  }

  predicate NotInMain(f: LargeFile) {
    !f.isInMainBranch
  }

  /** Files strictly larger than 10 MiB. */
  const VeryLargeLimit: int := 10 * 1024 * 1024

  predicate IsVeryLarge(f: LargeFile) {
    f.size > VeryLargeLimit
  }

  /** The extensions of the binary-artifact pattern, matched at the end of the path, ignoring case. */
  const ArtifactExtensions: seq<string> :=
    ["jar", "war", "ear", "zip", "tar", "gz", "exe", "dll", "so", "dylib", "a", "lib"]

  predicate IsArtifactPath(path: string) {
    exists e :: e in ArtifactExtensions && EndsWithIgnoreCase(path, "." + e)
  }

  predicate HasArtifactPath(f: LargeFile) {
    IsArtifactPath(f.path)
  }

  const NotInMainNoun: string := " large files exist only in non-main branches"
  const VeryLargeNoun: string := " very large files (>10MB) found"
  const ArtifactNoun: string := " potential binary artifacts found"

  const NotInMainAction: string := "Consider removing these files from historical commits using git filter-branch or BFG"
  const VeryLargeAction: string := "Consider using Git LFS for these files or removing them if no longer needed"
  const ArtifactAction: string := "Review if these build artifacts should be in version control"

  /** One heuristic's recommendation: emitted only when its selection is non-empty. */
  function Advise(selected: seq<LargeFile>, kind: RecommendationType, severity: Severity,
                  noun: string, action: string, render: Renderer): seq<Recommendation>
  {
    if |selected| > 0 then
      var savings := SumSizes(selected);
      [Recommendation(kind, severity, Decimal(|selected|) + noun, savings, FormatBytes(render, savings), true, Some(action))]
    else []
  }

  /** The recommendations, in their fixed order: not in main, very large, binary artifacts. */
  function Recommendations(files: seq<LargeFile>, render: Renderer): seq<Recommendation> {
    Advise(Select(files, NotInMain), LargeFileAdvice, High,
           NotInMainNoun, NotInMainAction, render)
    + Advise(Select(files, IsVeryLarge), LargeFileAdvice, High,
             VeryLargeNoun, VeryLargeAction, render)
    + Advise(Select(files, HasArtifactPath), BinaryArtifact, Medium,
             ArtifactNoun, ArtifactAction, render)
  }

  /** generateRecommendations, pushing each heuristic's recommendation in turn. */
  method GenerateRecommendations(files: seq<LargeFile>, render: Renderer) returns (recommendations: seq<Recommendation>)
    ensures recommendations == Recommendations(files, render)
  {
    recommendations := [];
    var filesNotInMain := Select(files, NotInMain);
    if |filesNotInMain| > 0 {
      var totalSavings := SumSizes(filesNotInMain);
      recommendations := recommendations + [Recommendation(LargeFileAdvice, High,
        Decimal(|filesNotInMain|) + NotInMainNoun,
        totalSavings, FormatBytes(render, totalSavings), true, Some(NotInMainAction))];
    }
    ghost var notInMainPart := recommendations;
    assert notInMainPart == Advise(filesNotInMain, LargeFileAdvice, High, NotInMainNoun, NotInMainAction, render);
    var veryLargeFiles := Select(files, IsVeryLarge);
    if |veryLargeFiles| > 0 {
      var totalSavings := SumSizes(veryLargeFiles);
      recommendations := recommendations + [Recommendation(LargeFileAdvice, High,
        Decimal(|veryLargeFiles|) + VeryLargeNoun,
        totalSavings, FormatBytes(render, totalSavings), true, Some(VeryLargeAction))];
    }
    ghost var veryLargePart := recommendations;
    assert veryLargePart
        == notInMainPart + Advise(veryLargeFiles, LargeFileAdvice, High, VeryLargeNoun, VeryLargeAction, render);
    var potentialArtifacts := Select(files, HasArtifactPath);
    if |potentialArtifacts| > 0 {
      var totalSavings := SumSizes(potentialArtifacts);
      recommendations := recommendations + [Recommendation(BinaryArtifact, Medium,
        Decimal(|potentialArtifacts|) + ArtifactNoun,
        totalSavings, FormatBytes(render, totalSavings), true, Some(ArtifactAction))];
    }
    assert recommendations
        == veryLargePart + Advise(potentialArtifacts, BinaryArtifact, Medium, ArtifactNoun, ArtifactAction, render);
  }

  /** The shape of one heuristic's contribution. */
  lemma AdviseShape(selected: seq<LargeFile>, kind: RecommendationType, severity: Severity,
                    noun: string, action: string, render: Renderer)
    ensures var r := Advise(selected, kind, severity, noun, action, render);
      |r| == (if selected == [] then 0 else 1)
      && forall rec :: rec in r ==>
           rec.kind == kind && rec.severity == severity && rec.action == Some(action) && rec.actionable
           && rec.potentialSavings == SumSizes(selected)
           && rec.potentialSavingsFormatted == FormatBytes(render, rec.potentialSavings)
  {
  }

  /** Where the one-element parts of a concatenation land in it. */
  lemma Positions(ra: seq<Recommendation>, rb: seq<Recommendation>, rc: seq<Recommendation>)
    requires |ra| <= 1 && |rb| <= 1 && |rc| <= 1
    ensures var r := ra + rb + rc;
      |r| == |ra| + |rb| + |rc|
      && (ra != [] ==> r[0] == ra[0])
      && (rb != [] ==> r[|ra|] == rb[0])
      && (rc != [] ==> r[|r| - 1] == rc[0])
  {
  }

  /** One heuristic's contribution is its recommendation exactly when some file meets it. */
  lemma Fires(files: seq<LargeFile>, keep: LargeFile -> bool, kind: RecommendationType, severity: Severity,
              noun: string, action: string, render: Renderer)
    ensures var r := Advise(Select(files, keep), kind, severity, noun, action, render);
      (|r| == 1 <==> exists f :: f in files && keep(f))
      && |r| <= 1
      && (r != [] ==> r[0].kind == kind && r[0].severity == severity && r[0].action == Some(action)
                      && r[0].potentialSavings == SumSizes(Select(files, keep)))
  {
    SelectEmpty(files, keep);
  }

  /**
   * Each heuristic fires exactly when some file meets it; the
   * recommendations come in the fixed order not-in-main, very-large,
   * binary-artifact, each reporting its selection's exact sum.
   */
  lemma RecommendationsFire(files: seq<LargeFile>, render: Renderer)
    ensures var r := Recommendations(files, render);
      var notInMain := exists f :: f in files && !f.isInMainBranch;
      var veryLarge := exists f :: f in files && f.size > VeryLargeLimit;
      var artifact := exists f :: f in files && IsArtifactPath(f.path);
      |r| == (if notInMain then 1 else 0) + (if veryLarge then 1 else 0) + (if artifact then 1 else 0)
      && (notInMain ==> r[0].action == Some(NotInMainAction) && r[0].severity == High
                        && r[0].potentialSavings == SumSizes(Select(files, NotInMain)))
      && (veryLarge ==> var k := if notInMain then 1 else 0;
                        r[k].action == Some(VeryLargeAction) && r[k].severity == High
                        && r[k].potentialSavings == SumSizes(Select(files, IsVeryLarge)))
      && (artifact ==> r[|r| - 1].kind == BinaryArtifact && r[|r| - 1].severity == Medium
                       && r[|r| - 1].potentialSavings == SumSizes(Select(files, HasArtifactPath)))
  {
    var ra := Advise(Select(files, NotInMain), LargeFileAdvice, High,
                     NotInMainNoun, NotInMainAction, render);
    var rb := Advise(Select(files, IsVeryLarge), LargeFileAdvice, High,
                     VeryLargeNoun, VeryLargeAction, render);
    var rc := Advise(Select(files, HasArtifactPath), BinaryArtifact, Medium,
                     ArtifactNoun, ArtifactAction, render);
    Fires(files, NotInMain, LargeFileAdvice, High, NotInMainNoun, NotInMainAction, render);
    Fires(files, IsVeryLarge, LargeFileAdvice, High, VeryLargeNoun, VeryLargeAction, render);
    Fires(files, HasArtifactPath, BinaryArtifact, Medium, ArtifactNoun, ArtifactAction, render);
    Positions(ra, rb, rc);
    assert Recommendations(files, render) == ra + rb + rc;
  }

  /**
   * Every recommendation is actionable, and with positive sizes, as the
   * threshold makes them by default, saves more than 0 bytes and no more than
   * the whole list.
   */
  lemma SavingsBounded(files: seq<LargeFile>, render: Renderer)
    ensures forall rec :: rec in Recommendations(files, render) ==> rec.actionable
    ensures (forall f :: f in files ==> f.size > 0) ==>
      forall rec :: rec in Recommendations(files, render) ==> 0 < rec.potentialSavings <= SumSizes(files)
  {
    var a, b, c := Select(files, NotInMain), Select(files, IsVeryLarge), Select(files, HasArtifactPath);
    AdviseShape(a, LargeFileAdvice, High, NotInMainNoun, NotInMainAction, render);
    AdviseShape(b, LargeFileAdvice, High, VeryLargeNoun, VeryLargeAction, render);
    AdviseShape(c, BinaryArtifact, Medium, ArtifactNoun, ArtifactAction, render);
    if forall f :: f in files ==> f.size > 0 {
      SelectionSavings(files, NotInMain);
      SelectionSavings(files, IsVeryLarge);
      SelectionSavings(files, HasArtifactPath);
    }
  }

  /** Any path ending in `.` and one of the artifact extensions is an artifact path. */
  lemma ArtifactSuffix(stem: string, e: string)
    requires e in ArtifactExtensions
    ensures IsArtifactPath(stem + "." + e)
  {
    var path := stem + "." + e;
    var suffix := "." + e;
    forall i | 0 <= i < |suffix| ensures path[|path| - |suffix| + i] == suffix[i] {
      assert path == stem + suffix;
    }
  }

  /**
   * The recorded summary: the counts, the first large file as both the
   * largest and the oldest, the branches with large files, and the exact sum
   * of the files not in the main branch.
   */
  function CreateSummary(files: seq<LargeFile>, branchAnalysis: seq<BranchAnalysis>, render: Renderer): (s: Summary)
    ensures s.totalFiles == |files| && s.totalBranches == |branchAnalysis|
    ensures s.largestFile == s.oldestLargeFile
    ensures s.largestFile.Some? <==> files != []
    ensures files != [] ==> s.largestFile == Some(files[0])
    ensures 0 <= s.branchesWithLargeFiles <= |branchAnalysis|
    ensures (forall f :: f in files ==> f.size >= 0) ==> 0 <= s.estimatedCleanupSavings <= SumSizes(files)
  {
    var first := if |files| > 0 then Some(files[0]) else None;
    var cleanup := SumSizes(Select(files, NotInMain));
    assert (forall f :: f in files ==> f.size >= 0) ==> 0 <= cleanup <= SumSizes(files) by {
      if forall f :: f in files ==> f.size >= 0 {
        SelectedSumBounded(files, NotInMain);
      }
    }
    Summary(|files|, |branchAnalysis|, first, first,
            |Select(branchAnalysis, BranchReport.HasLargeFiles)|, cleanup, FormatBytes(render, cleanup))
  }

  /**
   * The summary's cleanup estimate is the first recommendation's savings when
   * some file is not in the main branch, and 0 otherwise; for a list sorted
   * largest first, the largest file is no smaller than any other; and branch
   * entries without large files count as no branch with large files.
   */
  lemma SummaryAgreesWithAdvice(files: seq<LargeFile>, branchAnalysis: seq<BranchAnalysis>, render: Renderer)
    ensures var s := CreateSummary(files, branchAnalysis, render);
      var r := Recommendations(files, render);
      (s.largestFile.Some? <==> files != []) && s.oldestLargeFile == s.largestFile
      && (files != [] ==> s.largestFile == Some(files[0]) && s.oldestLargeFile == Some(files[0]))
      && ((exists f :: f in files && !f.isInMainBranch) ==> s.estimatedCleanupSavings == r[0].potentialSavings)
      && ((forall f :: f in files ==> f.isInMainBranch) ==> s.estimatedCleanupSavings == 0)
      && ((forall i, j :: 0 <= i < j < |files| ==> files[i].size >= files[j].size) ==>
            forall f :: f in files ==> f.size <= s.largestFile.value.size)
      && ((forall e :: e in branchAnalysis ==> e.largeFiles == []) ==> s.branchesWithLargeFiles == 0)
  {
    var s := CreateSummary(files, branchAnalysis, render);
    if exists f :: f in files && !f.isInMainBranch {
      var ra := Advise(Select(files, NotInMain), LargeFileAdvice, High,
                       NotInMainNoun, NotInMainAction, render);
      Fires(files, NotInMain, LargeFileAdvice, High, NotInMainNoun, NotInMainAction, render);
      assert Recommendations(files, render)[0] == ra[0];
    } else {
      SelectEmpty(files, NotInMain);
    }
    SelectEmpty(branchAnalysis, BranchReport.HasLargeFiles);
    if forall i, j :: 0 <= i < j < |files| ==> files[i].size >= files[j].size {
      forall f | f in files ensures f.size <= s.largestFile.value.size {
        var i :| 0 <= i < |files| && files[i] == f;
      }
    }
  }

  /**
   * One 15 MiB blob reachable only from a feature branch, at `big.bin`: two
   * recommendations fire, not-in-main then very-large, each saving exactly
   * 15 MiB, and the summary estimates the same saving. The file record is
   * given as it stands after the cross-reference step; its path is taken as
   * given here, not derived from an `ls-tree -r HEAD` listing.
   */
  lemma FeatureBranchBlob(f: LargeFile, render: Renderer)
    requires f.size == 15 * 1024 * 1024 && !f.isInMainBranch && f.path == "big.bin"
    ensures var r := Recommendations([f], render);
      |r| == 2
      && r[0].action == Some(NotInMainAction) && r[1].action == Some(VeryLargeAction)
      && r[0].potentialSavings == r[1].potentialSavings == 15 * 1024 * 1024
      && CreateSummary([f], [], render).estimatedCleanupSavings == 15 * 1024 * 1024
  {
    assert !IsArtifactPath(f.path) by {
      assert LowerAscii(f.path[|f.path| - 1]) == 'n';
      forall e | e in ArtifactExtensions ensures !EndsWithIgnoreCase(f.path, "." + e) {
        var suffix := "." + e;
        assert suffix[|suffix| - 1] == e[|e| - 1];
        assert LowerAscii(suffix[|suffix| - 1]) != LowerAscii(f.path[|f.path| - 1]);
      }
    }
    assert Select([f], NotInMain) == [f];
    assert Select([f], IsVeryLarge) == [f];
    assert Select([f], HasArtifactPath) == [];
    assert SumSizes([f]) == f.size;
  }
}
