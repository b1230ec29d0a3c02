/**
 * analyzeBranches: one entry per branch, in order. Sizes and per-branch large
 * files are never computed; only `isRemote` depends on the branch.
 */
module BranchReport {
  import opened JsText
  import opened Report

  /** A branch is remote exactly when its name starts with `origin/`. */
  predicate IsRemote(name: string) {
    StartsWith(name, "origin/")
  }

  /** The entry the analyzer records for one branch. */
  function StubEntry(name: string): BranchAnalysis {
    BranchAnalysis(name, 0, "0 B", 0, "0 B", [], IsRemote(name))
  }

  /** A recorded entry has no large files, so it never counts as a branch with large files. */
  predicate HasLargeFiles(entry: BranchAnalysis) {
    |entry.largeFiles| > 0
  }

  /**
   * The loop of analyzeBranches. Nothing inside it can abort an iteration
   * (the only command it runs is caught on its own), so every branch gets an
   * entry, in the order given.
   */
  method AnalyzeBranches(branches: seq<string>) returns (analysis: seq<BranchAnalysis>)
    ensures |analysis| == |branches|
    ensures forall i :: 0 <= i < |branches| ==> analysis[i] == StubEntry(branches[i])
    ensures forall e :: e in analysis ==> !HasLargeFiles(e) && e.size == 0 && e.uniqueSize == 0
  {
    analysis := [];
    for i := 0 to |branches|
      invariant |analysis| == i
      invariant forall j :: 0 <= j < i ==> analysis[j] == StubEntry(branches[j])
    {
      var isRemote := StartsWith(branches[i], "origin/");
      analysis := analysis + [BranchAnalysis(branches[i], 0, "0 B", 0, "0 B", [], isRemote)];
    }
  }

  /** A name is remote exactly when it is `origin/` followed by some branch name. */
  lemma RemoteNames(name: string)
    ensures IsRemote(name) <==> exists rest :: name == "origin/" + rest
  {
    if IsRemote(name) {
      assert name == "origin/" + name[|"origin/"|..];
    } else {
      forall rest ensures name != "origin/" + rest {
        assert ("origin/" + rest)[..|"origin/"|] == "origin/";
      }
    }
  }
}
