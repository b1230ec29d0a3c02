/**
 * Branch enumeration (getAllBranches) and main-branch resolution
 * (getMainBranch).
 */
module Branches {
  import opened Wrappers
  import opened JsText
  import opened Git
  import opened Config

  predicate NoDuplicates(s: seq<string>) {
    forall i, j :: 0 <= i < j < |s| ==> s[i] != s[j]
  }

  /** `lines.filter(Boolean)`: the non-empty strings, in order. */
  function NonEmpty(lines: seq<string>): (r: seq<string>)
    ensures |r| <= |lines|
    ensures forall x :: x in r <==> x in lines && x != ""
  {
    if lines == [] then []
    else
      var init := NonEmpty(lines[..|lines| - 1]);
      var last := lines[|lines| - 1];
      assert lines == lines[..|lines| - 1] + [last];
      if last == "" then init else init + [last]
  }

  /** Filtering a list with one more string filters the list, then keeps that string unless it is empty. */
  lemma NonEmptySnoc(lines: seq<string>, x: string)
    ensures NonEmpty(lines + [x]) == NonEmpty(lines) + if x == "" then [] else [x]
  {
    assert (lines + [x])[..|lines|] == lines;
  }

  /** Filtering works part by part: the kept strings of a concatenation keep their order. */
  lemma {:induction false} NonEmptyAppend(a: seq<string>, b: seq<string>)
    ensures NonEmpty(a + b) == NonEmpty(a) + NonEmpty(b)
  {
    if b == [] {
      assert a + b == a;
    } else {
      var b' := b[..|b| - 1];
      var y := b[|b| - 1];
      NonEmptyAppend(a, b');
      assert a + b == (a + b') + [y];
      assert b == b' + [y];
      NonEmptySnoc(a + b', y);
      NonEmptySnoc(b', y);
    }
  }

  /** `output.split('\n').filter(Boolean)`: the names a `git branch` listing holds. */
  function BranchNames(output: string): seq<string> {
    NonEmpty(Split(output, '\n'))
  }

  /**
   * `[...new Set(names)]`: a Set keeps insertion order and ignores a value it
   * already holds, so each name appears once, where it first occurred.
   */
  function Distinct(names: seq<string>): (r: seq<string>)
    ensures |r| <= |names|
    ensures NoDuplicates(r)
    ensures forall x :: x in r <==> x in names
  {
    if names == [] then []
    else
      var init := Distinct(names[..|names| - 1]);
      var last := names[|names| - 1];
      assert names == names[..|names| - 1] + [last];
      if last in init then init else init + [last]
  }

  /**
   * Deduplicating a concatenation first lists the deduplicated first part,
   * then only names that the first part does not hold.
   */
  lemma {:induction false} DistinctAppend(a: seq<string>, b: seq<string>)
    ensures |Distinct(a)| <= |Distinct(a + b)|
    ensures Distinct(a + b)[..|Distinct(a)|] == Distinct(a)
    ensures forall x :: x in Distinct(a + b)[|Distinct(a)|..] ==> x !in a && x in b
  {
    if b == [] {
      assert a + b == a;
    } else {
      var b' := b[..|b| - 1];
      var y := b[|b| - 1];
      DistinctAppend(a, b');
      assert (a + b)[..|a + b| - 1] == a + b';
      assert b == b' + [y];
      var d := Distinct(a + b');
      if y !in d {
        assert Distinct(a + b) == d + [y];
        assert (d + [y])[..|Distinct(a)|] == d[..|Distinct(a)|];
        assert (d + [y])[|Distinct(a)|..] == d[|Distinct(a)|..] + [y];
      }
    }
  }

  /** A list without duplicates is its own deduplication. */
  lemma {:induction false} DistinctKeepsDistinct(names: seq<string>)
    requires NoDuplicates(names)
    ensures Distinct(names) == names
  {
    if names != [] {
      var init := names[..|names| - 1];
      DistinctKeepsDistinct(init);
      assert names[|names| - 1] !in init;
      assert init + [names[|names| - 1]] == names;
    }
  }

  /** `all.filter(branch => listed.includes(branch))`: the listed names, in the order of `all`. */
  function KeepListed(all: seq<string>, listed: seq<string>): (r: seq<string>)
    ensures |r| <= |all|
    ensures forall x :: x in r <==> x in all && x in listed
    ensures NoDuplicates(all) ==> NoDuplicates(r)
  {
    if all == [] then []
    else
      var init := KeepListed(all[..|all| - 1], listed);
      var last := all[|all| - 1];
      assert all == all[..|all| - 1] + [last];
      if last in listed then init + [last] else init
  }

  /** Keeping the listed names of a concatenation keeps them part by part: the order is that of `all`. */
  lemma {:induction false} KeepListedAppend(a: seq<string>, b: seq<string>, listed: seq<string>)
    ensures KeepListed(a + b, listed) == KeepListed(a, listed) + KeepListed(b, listed)
  {
    if b != [] {
      var b' := b[..|b| - 1];
      KeepListedAppend(a, b', listed);
      assert (a + b)[..|a + b| - 1] == a + b';
      assert (a + b)[|a + b| - 1] == b[|b| - 1];
    } else {
      assert a + b == a;
    }
  }

  /**
   * getAllBranches: the remote-tracking names are listed first, then the
   * local ones; either listing failing aborts the analysis. The result is the
   * local names followed by the remote names, each name once, filtered by
   * `includeBranches` when that is a list.
   */
  function GetAllBranches(git: Oracle, selection: IncludeBranches): (r: Result<seq<string>, Error>)
    ensures Exec(git.remoteBranchNames).None? ==> r == Err(GitCommandFailed(RemoteBranchNamesCommand))
    ensures Exec(git.remoteBranchNames).Some? && Exec(git.localBranchNames).None? ==>
              r == Err(GitCommandFailed(LocalBranchNamesCommand))
    ensures r.Ok? <==> Exec(git.remoteBranchNames).Some? && Exec(git.localBranchNames).Some?
    ensures r.Ok? ==> NoDuplicates(r.value)
    ensures r.Ok? ==>
              var local := BranchNames(Exec(git.localBranchNames).value);
              var remote := BranchNames(Exec(git.remoteBranchNames).value);
              var all := Distinct(local + remote);
              r.value == (match selection case All => all case Only(names) => KeepListed(all, names))
              && (forall x :: x in r.value <==>
                    (x in local || x in remote) && (selection.Only? ==> x in selection.names))
  {
    match Exec(git.remoteBranchNames)
    case None => Err(GitCommandFailed(RemoteBranchNamesCommand))
    case Some(remoteOut) =>
      match Exec(git.localBranchNames)
      case None => Err(GitCommandFailed(LocalBranchNamesCommand))
      case Some(localOut) =>
        var local := BranchNames(localOut);
        var remote := BranchNames(remoteOut);
        var all := Distinct(local + remote);
        match selection
        case All => Ok(all)
        case Only(names) => Ok(KeepListed(all, names))
  }

  /**
   * The local names come first: the result starts with the distinct local
   * names, or, under a list of names to include, with those of them that are
   * listed; only then come remote names no local name repeats.
   */
  lemma LocalNamesFirst(git: Oracle, selection: IncludeBranches)
    requires GetAllBranches(git, selection).Ok?
    ensures var r := GetAllBranches(git, selection).value;
      var local := BranchNames(Exec(git.localBranchNames).value);
      var remote := BranchNames(Exec(git.remoteBranchNames).value);
      var first := match selection case All => Distinct(local) case Only(names) => KeepListed(Distinct(local), names);
      |first| <= |r| && r[..|first|] == first
      && forall x :: x in r[|first|..] ==> x !in local && x in remote
  {
    var local := BranchNames(Exec(git.localBranchNames).value);
    var remote := BranchNames(Exec(git.remoteBranchNames).value);
    var all := Distinct(local + remote);
    var k := |Distinct(local)|;
    DistinctAppend(local, remote);
    if selection.Only? {
      var names := selection.names;
      assert all == all[..k] + all[k..];
      KeepListedAppend(all[..k], all[k..], names);
      var first := KeepListed(Distinct(local), names);
      var r := KeepListed(all, names);
      assert r == first + KeepListed(all[k..], names);
      assert r[..|first|] == first;
      assert r[|first|..] == KeepListed(all[k..], names);
    }
  }

  /** The fallback names, in priority order. */
  const CommonMainNames: seq<string> := ["main", "master", "develop"]

  /** `lines.some(b => b.includes(name))` */
  predicate Mentioned(name: string, lines: seq<string>) {
    exists l :: l in lines && Contains(l, name)
  }

  /** The first of `names` that some line mentions, if any. */
  function FirstMentioned(names: seq<string>, lines: seq<string>): (r: Option<string>)
    ensures r.Some? ==> r.value in names && Mentioned(r.value, lines)
    ensures r.None? <==> forall n :: n in names ==> !Mentioned(n, lines)
  {
    if names == [] then None
    else if Mentioned(names[0], lines) then Some(names[0])
    else
      var r := FirstMentioned(names[1..], lines);
      assert names == [names[0]] + names[1..];
      r
  }

  /** The search from position `i` either stops at `names[i]` or goes on from `i + 1`. */
  lemma FirstMentionedStep(names: seq<string>, i: nat, lines: seq<string>)
    requires i < |names|
    ensures FirstMentioned(names[i..], lines)
            == if Mentioned(names[i], lines) then Some(names[i]) else FirstMentioned(names[i + 1..], lines)
  {
    assert names[i..][1..] == names[i + 1..];
  }

  /**
   * getMainBranch: the target of refs/remotes/origin/HEAD with its first
   * `refs/remotes/origin/` removed; when that command fails, the first of
   * main, master, develop that is a substring of a line of `git branch -r`,
   * and "main" when none is. None when `git branch -r` fails too (it throws).
   */
  function MainBranch(git: Oracle): Option<string> {
    match Exec(git.originHead)
    case Some(target) => Some(ReplaceFirst(target, "refs/remotes/origin/", ""))
    case None =>
      match Exec(git.remoteBranchList)
      case None => None
      case Some(listing) =>
        match FirstMentioned(CommonMainNames, Split(listing, '\n'))
        case Some(name) => Some(name)
        case None => Some("main")
  }

  /** The loop of getMainBranch, over the fallback names in priority order. */
  method GetMainBranch(git: Oracle) returns (r: Option<string>)
    ensures r == MainBranch(git)
  {
    var target := Exec(git.originHead);
    if target.Some? {
      return Some(ReplaceFirst(target.value, "refs/remotes/origin/", ""));
    }
    var listing := Exec(git.remoteBranchList);
    if listing.None? {
      return None;
    }
    var lines := Split(listing.value, '\n');
    for i := 0 to |CommonMainNames|
      invariant FirstMentioned(CommonMainNames, lines) == FirstMentioned(CommonMainNames[i..], lines)
    {
      var common := CommonMainNames[i];
      FirstMentionedStep(CommonMainNames, i, lines);
      if Mentioned(common, lines) {
        return Some(common);
      }
    }
    return Some("main");
  }

  /**
   * When refs/remotes/origin/HEAD points at `refs/remotes/origin/<name>`,
   * the main branch is `<name>`, whatever `git branch -r` would say.
   */
  lemma SymbolicRefTarget(git: Oracle, name: string)
    requires Exec(git.originHead) == Some("refs/remotes/origin/" + name)
    ensures MainBranch(git) == Some(name)
  {
    var target := "refs/remotes/origin/" + name;
    assert target[..|"refs/remotes/origin/"|] == "refs/remotes/origin/";
    ReplaceLeadingPrefix(target, "refs/remotes/origin/");
    assert target[|"refs/remotes/origin/"|..] == name;
  }

  /**
   * Without the symbolic ref, the fallback picks main over master over
   * develop by substring, and "main" when no line mentions any of them.
   */
  lemma FallbackPriority(git: Oracle)
    requires Exec(git.originHead).None? && Exec(git.remoteBranchList).Some?
    ensures var lines := Split(Exec(git.remoteBranchList).value, '\n');
      MainBranch(git) == Some(
        if Mentioned("main", lines) then "main"
        else if Mentioned("master", lines) then "master"
        else if Mentioned("develop", lines) then "develop"
        else "main")
  {
    var lines := Split(Exec(git.remoteBranchList).value, '\n');
    var m := FirstMentioned(CommonMainNames, lines);
    if !Mentioned("main", lines) {
      assert m == FirstMentioned(["master", "develop"], lines) by {
        assert CommonMainNames[1..] == ["master", "develop"];
      }
      if !Mentioned("master", lines) {
        assert m == FirstMentioned(["develop"], lines) by {
          assert ["master", "develop"][1..] == ["develop"];
        }
      }
    }
  }
}
