/**
 * The git commands the analyzer runs, taken as an oracle over one snapshot
 * of the repository. Each field holds the standard output of one command, or
 * None when the command fails (execGit then throws).
 */
module Git {
  import opened Wrappers
  import opened JsText

  datatype Oracle = Oracle(
    /** git branch -r --format="%(refname:short)" */
    remoteBranchNames: Option<string>,
    /** git branch --format="%(refname:short)" */
    localBranchNames: Option<string>,
    /** git cat-file --batch-check --batch-all-objects */
    allObjects: Option<string>,
    /** git show-ref --heads */
    headRefs: Option<string>,
    /** git ls-tree -r <rev>, for any revision text */
    treeListing: string -> Option<string>,
    /** git symbolic-ref refs/remotes/origin/HEAD */
    originHead: Option<string>,
    /** git branch -r */
    remoteBranchList: Option<string>,
    /** git count-objects -v */
    objectCounts: Option<string>)

  const RemoteBranchNamesCommand := "branch -r --format=\"%(refname:short)\""
  const LocalBranchNamesCommand := "branch --format=\"%(refname:short)\""
  const AllObjectsCommand := "cat-file --batch-check --batch-all-objects"

  /** execGit: the command's output with surrounding white space trimmed, or None when it throws. */
  function Exec(stdout: Option<string>): (r: Option<string>)
    ensures r.Some? <==> stdout.Some?
    ensures r.Some? ==> |r.value| <= |stdout.value|
    ensures r.Some? ==> r.value == Trim(stdout.value)
  {
    match stdout
    case None => None
    case Some(out) => Some(Trim(out))
  }
}
