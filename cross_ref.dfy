/**
 * The cross-reference resolver, the second half of findLargeFiles: for each
 * candidate blob, the local heads whose tree holds it, its path in HEAD's
 * tree, and whether the main branch is among its branches.
 */
module CrossRef {
  import opened Wrappers
  import opened JsText
  import opened Git
  import opened Config
  import opened Report
  import Branches
  import Finder

  /** One `show-ref --heads` line, `<commit> <refname>`. */
  datatype HeadRef = HeadRef(commit: string, refName: string)

  /**
   * The heads the show-ref lines name, in order, skipping blank lines. None
   * when a non-blank line has no second field: `refName.replace` then throws
   * and the whole candidate is dropped.
   */
  function ParseHeads(lines: seq<string>): Option<seq<HeadRef>> {
    if lines == [] then Some([])
    else AddHead(ParseHeads(lines[..|lines| - 1]), lines[|lines| - 1])
  }

  /** One show-ref line's effect on the heads parsed before it. */
  function AddHead(heads: Option<seq<HeadRef>>, line: string): Option<seq<HeadRef>> {
    match heads
    case None => None
    case Some(hs) =>
      if Trim(line) == [] then heads
      else
        var fields := Split(line, ' ');
        if |fields| < 2 then None else Some(hs + [HeadRef(fields[0], fields[1])])
  }

  /** Once a line has thrown, no later line brings the scan back. */
  lemma {:induction false} ParseHeadsFailureSticks(lines: seq<string>, n: nat)
    requires n <= |lines| && ParseHeads(lines[..n]).None?
    ensures ParseHeads(lines).None?
  {
    if n < |lines| {
      var init := lines[..|lines| - 1];
      assert init[..n] == lines[..n];
      ParseHeadsFailureSticks(init, n);
    } else {
      assert lines[..n] == lines;
    }
  }

  /** The branch name: the ref name with its first `refs/heads/` removed. */
  function BranchName(h: HeadRef): string {
    ReplaceFirst(h.refName, "refs/heads/", "")
  }

  /** A head `refs/heads/<name>` is reported under its plain branch name. */
  lemma HeadBranchName(commit: string, name: string)
    ensures BranchName(HeadRef(commit, "refs/heads/" + name)) == name
  {
    var refName := "refs/heads/" + name;
    assert refName[..|"refs/heads/"|] == "refs/heads/";
    ReplaceLeadingPrefix(refName, "refs/heads/");
    assert refName[|"refs/heads/"|..] == name;
  }

  /** `execGit('ls-tree -r <rev>').includes(hash)`; a listing that fails holds nothing. */
  predicate TreeHolds(git: Oracle, rev: string, hash: string) {
    match Exec(git.treeListing(rev))
    case Some(listing) => Contains(listing, hash)
    case None => false
  }

  /** The heads whose tree listing contains the hash, in show-ref order. */
  function Holding(git: Oracle, heads: seq<HeadRef>, hash: string): (r: seq<HeadRef>)
    ensures |r| <= |heads|
    ensures forall h :: h in r <==> h in heads && TreeHolds(git, h.commit, hash)
  {
    if heads == [] then []
    else
      var init := heads[..|heads| - 1];
      var last := heads[|heads| - 1];
      assert heads == init + [last];
      Holding(git, init, hash) + if TreeHolds(git, last.commit, hash) then [last] else []
  }

  lemma HoldingSnoc(git: Oracle, heads: seq<HeadRef>, h: HeadRef, hash: string)
    ensures Holding(git, heads + [h], hash)
         == Holding(git, heads, hash) + if TreeHolds(git, h.commit, hash) then [h] else []
  {
    assert (heads + [h])[..|heads|] == heads;
  }

  function BranchesOf(heads: seq<HeadRef>): seq<string> {
    seq(|heads|, i requires 0 <= i < |heads| => BranchName(heads[i]))
  }

  function CommitsOf(heads: seq<HeadRef>): seq<string> {
    seq(|heads|, i requires 0 <= i < |heads| => heads[i].commit)
  }

  lemma ProjectSnoc(heads: seq<HeadRef>, h: HeadRef)
    ensures BranchesOf(heads + [h]) == BranchesOf(heads) + [BranchName(h)]
    ensures CommitsOf(heads + [h]) == CommitsOf(heads) + [h.commit]
  {
  }

  /** `lines.find(line => line.includes(hash))`, as the index of the line found. */
  function FirstContaining(lines: seq<string>, hash: string): (r: Option<nat>)
    ensures r.Some? ==> r.value < |lines| && Contains(lines[r.value], hash)
    ensures r.Some? ==> forall j :: 0 <= j < r.value ==> !Contains(lines[j], hash)
    ensures r.None? ==> forall j :: 0 <= j < |lines| ==> !Contains(lines[j], hash)
  {
    if lines == [] then None
    else if Contains(lines[0], hash) then Some(0)
    else
      match FirstContaining(lines[1..], hash)
      case Some(k) =>
        assert forall j :: 0 < j <= k ==> lines[j] == lines[1..][j - 1];
        Some(k + 1)
      case None =>
        assert forall j :: 0 < j < |lines| ==> lines[j] == lines[1..][j - 1];
        None
  }

  /** `<deleted-file-` and the first eight characters of the hash, then `>`. */
  function DeletedPlaceholder(hash: string): string {
    "<deleted-file-" + hash[..if |hash| < 8 then |hash| else 8] + ">"
  }

  /**
   * The path from HEAD's listing: the second tab-separated field of the first
   * line containing the hash, "" when no line does, and the placeholder when
   * the listing command fails.
   */
  function HeadPath(listing: Option<string>, hash: string): string {
    match listing
    case None => DeletedPlaceholder(hash)
    case Some(out) =>
      var lines := Split(out, '\n');
      match FirstContaining(lines, hash)
      case None => ""
      case Some(k) =>
        if lines[k] == "" then ""
        else
          var fields := Split(lines[k], '\t');
          if |fields| >= 2 then fields[1] else ""
  }

  /**
   * For an `ls-tree` listing whose first line holding the hash is
   * `<meta>\t<path>`, the path found is exactly that path.
   */
  lemma ListingPath(lines: seq<string>, k: nat, meta: string, path: string, hash: string)
    requires k < |lines| && forall i :: 0 <= i < |lines| ==> '\n' !in lines[i]
    requires lines[k] == meta + "\t" + path && '\t' !in meta && '\t' !in path
    requires Contains(lines[k], hash) && forall j :: 0 <= j < k ==> !Contains(lines[j], hash)
    ensures HeadPath(Some(Join(lines, '\n')), hash) == path
  {
    var out := Join(lines, '\n');
    assert Split(out, '\n') == lines by {
      SplitJoin(lines, '\n');
    }
    TabFields(meta, path);
    assert FirstContaining(lines, hash) == Some(k) by {
      FirstContainingAt(lines, hash, k);
    }
    HeadPathAt(out, hash, k, [meta, path]);
  }

  /** `<meta>\t<path>` is a non-empty line whose tab-separated fields are the two parts. */
  lemma TabFields(meta: string, path: string)
    requires '\t' !in meta && '\t' !in path
    ensures meta + "\t" + path != ""
    ensures Split(meta + "\t" + path, '\t') == [meta, path]
  {
    assert meta + "\t" + path == meta + ['\t'] + path;
    SplitCons(meta, path, '\t');
    SplitAlone(path, '\t');
  }

  /** The path is the second field of the first matching line, once that line is known. */
  lemma HeadPathAt(out: string, hash: string, k: nat, fields: seq<string>)
    requires FirstContaining(Split(out, '\n'), hash) == Some(k)
    requires Split(out, '\n')[k] != "" && Split(Split(out, '\n')[k], '\t') == fields && |fields| >= 2
    ensures HeadPath(Some(out), hash) == fields[1]
  {
  }

  lemma FirstContainingAt(lines: seq<string>, hash: string, k: nat)
    requires k < |lines| && Contains(lines[k], hash)
    requires forall j :: 0 <= j < k ==> !Contains(lines[j], hash)
    ensures FirstContaining(lines, hash) == Some(k)
  {
  }

  predicate NoLineHolds(lines: seq<string>, hash: string) {
    forall i :: 0 <= i < |lines| ==> !Contains(lines[i], hash)
  }

  /** A listing none of whose lines holds the hash gives the empty path; a failing one gives the placeholder. */
  lemma PathWithoutMatch(listing: Option<string>, hash: string)
    requires listing.Some? ==> NoLineHolds(Split(listing.value, '\n'), hash)
    ensures listing.Some? ==> HeadPath(listing, hash) == ""
    ensures listing.None? && |hash| >= 8 ==> HeadPath(listing, hash) == "<deleted-file-" + hash[..8] + ">"
  {
    if listing.Some? {
      var lines := Split(listing.value, '\n');
      assert FirstContaining(lines, hash).None?;
    }
  }

  /** The heads `show-ref --heads` lists; None when the command fails or one of its lines throws. */
  function Heads(git: Oracle): Option<seq<HeadRef>> {
    match Exec(git.headRefs)
    case None => None
    case Some(refs) => ParseHeads(Split(refs, '\n'))
  }

  /** Whether the steps of a candidate's analysis that can throw all succeed; none depends on the candidate. */
  predicate ResolutionSucceeds(git: Oracle) {
    Heads(git).Some? && Branches.MainBranch(git).Some?
  }

  /** The entry recorded for a candidate, given the heads and the main branch. */
  function Entry(git: Oracle, c: BlobRecord, heads: seq<HeadRef>, main: string, render: Renderer): LargeFile {
    var held := Holding(git, heads, c.hash);
    var branches := BranchesOf(held);
    LargeFile(c.hash, c.size, HeadPath(Exec(git.treeListing("HEAD")), c.hash),
              FormatBytes(render, c.size), branches, CommitsOf(held), main in branches)
  }

  /**
   * One candidate's analysis. It is dropped (None) when `show-ref --heads`
   * fails, when a show-ref line has no ref name, or when the main branch
   * cannot be resolved; a head whose listing fails is only skipped.
   */
  function Resolve(git: Oracle, c: BlobRecord, render: Renderer): Option<LargeFile> {
    if ResolutionSucceeds(git)
    then Some(Entry(git, c, Heads(git).value, Branches.MainBranch(git).value, render))
    else None
  }

  /**
   * A recorded entry keeps the blob's hash and size; its branches and commits
   * pair up, head by head, exactly for the heads whose tree holds the blob;
   * and it is in the main branch exactly when the main branch is among them.
   */
  lemma EntryReferences(git: Oracle, c: BlobRecord, heads: seq<HeadRef>, main: string, render: Renderer)
    ensures var f := Entry(git, c, heads, main, render);
      f.hash == c.hash && f.size == c.size
      && |f.branches| == |f.commits|
      && (forall i :: 0 <= i < |f.commits| ==>
            TreeHolds(git, f.commits[i], c.hash)
            && exists h :: h in heads && h.commit == f.commits[i] && BranchName(h) == f.branches[i])
      && (forall h :: h in heads && TreeHolds(git, h.commit, c.hash) ==> BranchName(h) in f.branches)
      && (f.isInMainBranch <==> main in f.branches)
  {
    var f := Entry(git, c, heads, main, render);
    var held := Holding(git, heads, c.hash);
    forall i | 0 <= i < |f.commits|
      ensures TreeHolds(git, f.commits[i], c.hash)
      ensures exists h :: h in heads && h.commit == f.commits[i] && BranchName(h) == f.branches[i]
    {
      assert held[i] in held;
    }
    forall h | h in heads && TreeHolds(git, h.commit, c.hash) ensures BranchName(h) in f.branches {
      var i :| 0 <= i < |held| && held[i] == h;
      assert f.branches[i] == BranchName(h);
    }
  }

  /** The results of `analyze` over the candidates, in order, without the candidates it drops. */
  function FilterMap(candidates: seq<BlobRecord>, analyze: BlobRecord -> Option<LargeFile>): seq<LargeFile> {
    if candidates == [] then []
    else
      FilterMap(candidates[..|candidates| - 1], analyze)
      + match analyze(candidates[|candidates| - 1])
        case Some(f) => [f]
        case None => []
  }

  /**
   * An analysis that succeeds on every candidate keeps them all, one for
   * one; one that fails on every candidate keeps none.
   */
  lemma {:induction false} FilterMapAllOrNothing(candidates: seq<BlobRecord>, analyze: BlobRecord -> Option<LargeFile>)
    ensures (forall c :: analyze(c).Some?) ==>
      |FilterMap(candidates, analyze)| == |candidates|
      && forall i :: 0 <= i < |candidates| ==> analyze(candidates[i]) == Some(FilterMap(candidates, analyze)[i])
    ensures (forall c :: analyze(c).None?) ==> FilterMap(candidates, analyze) == []
  {
    if candidates != [] {
      var init := candidates[..|candidates| - 1];
      var last := candidates[|candidates| - 1];
      FilterMapAllOrNothing(init, analyze);
      if forall c :: analyze(c).Some? {
        var r := FilterMap(candidates, analyze);
        var before := FilterMap(init, analyze);
        assert r == before + [analyze(last).value];
        forall i | 0 <= i < |candidates| ensures analyze(candidates[i]) == Some(r[i]) {
          if i < |init| {
            assert candidates[i] == init[i] && r[i] == before[i];
          }
        }
      }
    }
  }

  /** The per-candidate loop: a candidate whose analysis throws is dropped. */
  function ResolveAll(git: Oracle, candidates: seq<BlobRecord>, render: Renderer): seq<LargeFile> {
    FilterMap(candidates, c => Resolve(git, c, render))
  }

  /**
   * As nothing that can throw depends on the candidate, either every
   * candidate is resolved, in order, or none is.
   */
  lemma AllOrNothing(git: Oracle, candidates: seq<BlobRecord>, render: Renderer)
    ensures var r := ResolveAll(git, candidates, render);
      if ResolutionSucceeds(git) then
        |r| == |candidates|
        && forall i :: 0 <= i < |r| ==> Resolve(git, candidates[i], render) == Some(r[i])
      else r == []
  {
    var analyze := c => Resolve(git, c, render);
    FilterMapAllOrNothing(candidates, analyze);
    if ResolutionSucceeds(git) {
      assert forall c :: analyze(c).Some?;
    } else {
      assert forall c :: analyze(c).None?;
    }
  }

  predicate SortedFiles(files: seq<LargeFile>) {
    forall i, j :: 0 <= i < j < |files| ==> files[i].size >= files[j].size
  }

  /** findLargeFiles: only the object listing failing aborts the analysis. */
  function LargeFiles(git: Oracle, options: Options, render: Renderer): Result<seq<LargeFile>, Error> {
    match Exec(git.allObjects)
    case None => Err(GitCommandFailed(AllObjectsCommand))
    case Some(listing) =>
      Ok(ResolveAll(git, Finder.Candidates(listing, options.threshold, options.maxResults), render))
  }

  /**
   * When resolution succeeds, the resolved files follow the candidates one
   * for one: same count, same sizes, and each is in the main branch exactly
   * when the main branch is one of its branches.
   */
  lemma ResolvedSizes(git: Oracle, candidates: seq<BlobRecord>, render: Renderer)
    requires ResolutionSucceeds(git)
    ensures var files := ResolveAll(git, candidates, render);
      |files| == |candidates|
      && forall i :: 0 <= i < |files| ==>
           files[i].size == candidates[i].size
           && (files[i].isInMainBranch <==> Branches.MainBranch(git).value in files[i].branches)
  {
    AllOrNothing(git, candidates, render);
    var files := ResolveAll(git, candidates, render);
    var heads, main := Heads(git).value, Branches.MainBranch(git).value;
    forall i | 0 <= i < |files|
      ensures files[i].size == candidates[i].size
      ensures files[i].isInMainBranch <==> main in files[i].branches
    {
      assert Resolve(git, candidates[i], render) == Some(files[i]);
      assert files[i] == Entry(git, candidates[i], heads, main, render);
    }
  }

  /**
   * The resolved files keep the candidates' order and at most their count,
   * so sorted candidates at or above a threshold give sorted files at or
   * above it; any file at all means the main branch was resolved.
   */
  lemma ResolvedFollowCandidates(git: Oracle, candidates: seq<BlobRecord>, render: Renderer, threshold: int)
    requires Finder.SortedBySize(candidates)
    requires forall b :: b in candidates ==> b.size >= threshold
    ensures var files := ResolveAll(git, candidates, render);
      |files| <= |candidates|
      && SortedFiles(files)
      && (files != [] ==> Branches.MainBranch(git).Some?)
      && forall i :: 0 <= i < |files| ==>
           files[i].size >= threshold
           && (files[i].isInMainBranch <==> Branches.MainBranch(git).value in files[i].branches)
  {
    AllOrNothing(git, candidates, render);
    var files := ResolveAll(git, candidates, render);
    if ResolutionSucceeds(git) {
      ResolvedSizes(git, candidates, render);
      forall i | 0 <= i < |files| ensures files[i].size >= threshold {
        assert candidates[i] in candidates;
      }
    }
  }

  /**
   * The large files are sorted by size, largest first, all at or above the
   * threshold, at most `maxResults` of them, and each is in the main branch
   * exactly when the main branch is one of its branches.
   */
  lemma LargeFilesShape(git: Oracle, options: Options, render: Renderer)
    ensures LargeFiles(git, options, render).Ok? <==> Exec(git.allObjects).Some?
    ensures LargeFiles(git, options, render).Ok? ==>
      var files := LargeFiles(git, options, render).value;
      SortedFiles(files)
      && (forall f :: f in files ==> f.size >= options.threshold)
      && (options.maxResults >= 0 ==> |files| <= options.maxResults)
      && (files != [] ==> Branches.MainBranch(git).Some?)
      && forall f :: f in files ==> (f.isInMainBranch <==> Branches.MainBranch(git).value in f.branches)
  {
    if Exec(git.allObjects).Some? {
      var listing := Exec(git.allObjects).value;
      var candidates := Finder.Candidates(listing, options.threshold, options.maxResults);
      Finder.CandidatesBounds(listing, options.threshold, options.maxResults);
      ResolvedFollowCandidates(git, candidates, render, options.threshold);
    }
  }

  /**
   * The loop over the show-ref lines for one blob: a head is recorded, branch
   * and commit together, when its tree listing contains the hash; a listing
   * that fails is skipped; a line without a ref name throws (ok is false).
   */
  method ScanHeads(git: Oracle, lines: seq<string>, hash: string)
    returns (ok: bool, branches: seq<string>, commits: seq<string>)
    ensures ok <==> ParseHeads(lines).Some?
    ensures ok ==> branches == BranchesOf(Holding(git, ParseHeads(lines).value, hash))
    ensures ok ==> commits == CommitsOf(Holding(git, ParseHeads(lines).value, hash))
  {
    branches, commits := [], [];
    ghost var heads: seq<HeadRef> := [];
    for i := 0 to |lines|
      invariant ParseHeads(lines[..i]) == Some(heads)
      invariant branches == BranchesOf(Holding(git, heads, hash))
      invariant commits == CommitsOf(Holding(git, heads, hash))
    {
      assert lines[..i + 1][..i] == lines[..i];
      assert ParseHeads(lines[..i + 1]) == AddHead(Some(heads), lines[i]);
      var line := lines[i];
      if Trim(line) == [] {
        continue;
      }
      var fields := Split(line, ' ');
      if |fields| < 2 {
        ParseHeadsFailureSticks(lines, i + 1);
        return false, [], [];
      }
      var commitHash, refName := fields[0], fields[1];
      var branchName := ReplaceFirst(refName, "refs/heads/", "");
      var listing := Exec(git.treeListing(commitHash));
      var head := HeadRef(commitHash, refName);
      HoldingSnoc(git, heads, head, hash);
      ProjectSnoc(Holding(git, heads, hash), head);
      assert TreeHolds(git, commitHash, hash) <==> listing.Some? && Contains(listing.value, hash);
      if listing.Some? && Contains(listing.value, hash) {
        branches := branches + [branchName];
        commits := commits + [commitHash];
        assert branches == BranchesOf(Holding(git, heads + [head], hash));
      } else {
        assert Holding(git, heads + [head], hash) == Holding(git, heads, hash);
      }
      heads := heads + [head];
    }
    assert lines[..|lines|] == lines;
    ok := true;
  }

  /** The path lookup in HEAD's listing, with the placeholder when the listing fails. */
  method FindHeadPath(git: Oracle, hash: string) returns (path: string)
    ensures path == HeadPath(Exec(git.treeListing("HEAD")), hash)
  {
    path := "";
    var listing := Exec(git.treeListing("HEAD"));
    if listing.None? {
      path := DeletedPlaceholder(hash);
    } else {
      var lines := Split(listing.value, '\n');
      var found := FirstContaining(lines, hash);
      if found.Some? && lines[found.value] != "" {
        var fields := Split(lines[found.value], '\t');
        path := if |fields| >= 2 then fields[1] else "";
      }
    }
  }

  /** The body of the per-candidate loop of findLargeFiles. */
  method AnalyzeCandidate(git: Oracle, c: BlobRecord, render: Renderer) returns (r: Option<LargeFile>)
    ensures r == Resolve(git, c, render)
  {
    var refs := Exec(git.headRefs);
    if refs.None? {
      return None;
    }
    var ok, branches, commits := ScanHeads(git, Split(refs.value, '\n'), c.hash);
    if !ok {
      return None;
    }
    assert Heads(git) == ParseHeads(Split(refs.value, '\n'));
    var path := FindHeadPath(git, c.hash);
    var main := Branches.GetMainBranch(git);
    if main.None? {
      return None;
    }
    return Some(LargeFile(c.hash, c.size, path, FormatBytes(render, c.size), branches, commits, main.value in branches));
  }

  /** The per-candidate loop of findLargeFiles: a candidate whose analysis throws is skipped. */
  method AnalyzeCandidates(git: Oracle, candidates: seq<BlobRecord>, render: Renderer) returns (files: seq<LargeFile>)
    ensures files == ResolveAll(git, candidates, render)
  {
    files := [];
    for i := 0 to |candidates|
      invariant files == ResolveAll(git, candidates[..i], render)
    {
      assert candidates[..i + 1][..i] == candidates[..i];
      var file := AnalyzeCandidate(git, candidates[i], render);
      if file.Some? {
        files := files + [file.value];
      }
    }
    assert candidates[..|candidates|] == candidates;
  }

  /** findLargeFiles: the scan, then every candidate's analysis in turn. */
  method FindLargeFiles(git: Oracle, options: Options, render: Renderer) returns (r: Result<seq<LargeFile>, Error>)
    ensures r == LargeFiles(git, options, render)
    ensures r.Ok? ==> SortedFiles(r.value) && forall f :: f in r.value ==> f.size >= options.threshold
    ensures r.Ok? && options.maxResults >= 0 ==> |r.value| <= options.maxResults
  {
    var listing := Exec(git.allObjects);
    if listing.None? {
      return Err(GitCommandFailed(AllObjectsCommand));
    }
    var candidates := Finder.FindCandidates(listing.value, options.threshold, options.maxResults);
    var largeFiles := AnalyzeCandidates(git, candidates, render);
    LargeFilesShape(git, options, render);
    return Ok(largeFiles);
  }
}
