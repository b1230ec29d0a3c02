# GitSpaceAnalyzer analysis engine, modelled in Dafny

This project models the analysis engine of `GitSpaceAnalyzer`, the class in
`node_modules/@git-space-analyzer/core/dist/analyzer.js` that inspects a git
repository's object store. It finds the blobs at or above a size threshold,
records which local branch heads hold each of them, looks up the blob's path in
HEAD's tree, and tells whether the main branch holds it. From that list it
builds the cleanup recommendations and a summary. It also reports the object
store's footprint as `git count-objects -v` gives it.

git is an oracle. The datatype `Git.Oracle` holds the standard output of every
command the analyzer runs as an `Option<string>`, with `None` when the command
fails (`execGit` then throws). `ls-tree -r <rev>` is a function from the
revision text to such an output. `Git.Exec` applies the `.trim()` that
`execGit` applies to every output. The ECMAScript string operations the code
uses are written out in `JsText`: `trim`, `split`, `includes`, `indexOf`,
`startsWith`, `replace` with a string pattern, and the global `parseInt`,
with its leading white space, its sign, its `0x` prefix and NaN as `None`.

Modules, leaf first:

- `Wrappers`: `Option` and `Result`.
- `JsText`: the JavaScript string semantics above, with round-trip lemmas. Splitting and joining on one character are inverses. Printing a number in decimal and reading it back with `parseInt` gives the number.
- `Git`: the oracle and `execGit`.
- `Config`: the constructor's option defaults and the `.git` check, which is a boolean input.
- `Report`: the result records, after `packages/core/dist/types.d.ts`.
- `Finder`: the scan of `cat-file --batch-check --batch-all-objects`, the stable descending sort and the `slice(0, maxResults)`.
- `Branches`: `getAllBranches` and `getMainBranch`.
- `CrossRef`: the per-candidate loop of `findLargeFiles`, with the show-ref scan, the HEAD path lookup and `isInMainBranch`.
- `BranchReport`: the `analyzeBranches` stub.
- `Advice`: `generateRecommendations` and `createSummary`.
- `Footprint`: `getRepositorySize`.
- `Engine`: `analyze`, which runs the steps in turn.

Where the code does something other than what one might expect, the model
follows the code:

- The path is looked up in `HEAD`'s listing, not in the main branch's. It stays `""` when no line of the listing holds the hash. The `<deleted-file-…>` placeholder appears only when the HEAD listing command itself fails.
- A `threshold` or `maxResults` of 0 falls back to the default because of `||`. A negative `maxResults` is kept, and `slice(0, k)` then counts from the end (`Finder.SliceEnd`).
- The main-branch fallback matches `main`, `master` and `develop` as substrings of the `git branch -r` lines. So a remote branch `origin/maintenance` selects `main`.
- Nothing a candidate's analysis can throw depends on the candidate. The failures are `show-ref --heads` failing, a show-ref line without a ref name (its `.replace` then throws), and `git branch -r` failing when the symbolic ref cannot be read. So, over one repository snapshot, either every candidate is kept or every candidate is dropped (`CrossRef.AllOrNothing`). A head whose own `ls-tree` fails is only skipped.
- `getRepositorySize` tests `line.startsWith('size ')` and `'size-pack '`. git prints these counters as `size: N` and `size-pack: N`, with a colon, so on git's own output no line matches and the total is 0 (`Footprint.ColonFormatTotal`). The model follows the code as written and proves both what the loop adds for `size N` lines and what it adds for git's colon format. A keyed value that `parseInt` cannot read makes the total NaN, and NaN stays (`Footprint.UnreadableValue`).
- `getAllBranches` runs the remote listing before the local one. The result lists local names first.

## Model

| member | source | states |
|---|---|---|
| Config.ResolveOptions | node_modules/@git-space-analyzer/core/dist/analyzer.js:10-16 | A given threshold or maxResults is kept unless it is falsy, so neither can end up 0. A given includeBranches is kept, and it defaults to all. An empty exclude list is kept. analyzeHistory is false only when the caller says false. |
| Config.NewAnalyzer | node_modules/@git-space-analyzer/core/dist/analyzer.js:8-20 | Construction succeeds exactly when the directory has a `.git` entry. Otherwise it fails with NotARepository for that path. On success the options are the merged ones. |
| Config.ZeroMeansDefault | node_modules/@git-space-analyzer/core/dist/analyzer.js:11-14 | A threshold of 0 gives 1048576 and a maxResults of 0 gives 100. |
| Git.Exec | node_modules/@git-space-analyzer/core/dist/analyzer.js:24-35 | execGit fails exactly when the command fails. Otherwise it returns exactly the `trim` of the output. |
| JsText.Trim | node_modules/@git-space-analyzer/core/dist/analyzer.js:30 | The trimmed text is the slice of the input left when leading and trailing ECMAScript white space is cut: everything before and after it is white space, and it neither starts nor ends with white space. It is empty exactly when the input is all white space. |
| JsText.JoinSplit | node_modules/@git-space-analyzer/core/dist/analyzer.js:82 | Joining the pieces of a split on one character gives back the text. |
| JsText.SplitJoin | node_modules/@git-space-analyzer/core/dist/analyzer.js:85 | Splitting the join of separator-free pieces gives back the pieces. |
| JsText.IndexOf | node_modules/@git-space-analyzer/core/dist/analyzer.js:114 | The index found is the first occurrence of the pattern. None means the pattern occurs nowhere. |
| JsText.ReplaceLeadingPrefix | node_modules/@git-space-analyzer/core/dist/analyzer.js:110 | `replace` of a prefix the text starts with leaves the rest of the text. |
| JsText.ParseDecimal | node_modules/@git-space-analyzer/core/dist/analyzer.js:86 | parseInt of the decimal numeral of n is n. |
| JsText.ParseInt | node_modules/@git-space-analyzer/core/dist/analyzer.js:86 | parseInt of a text that is empty or all white space is NaN. |
| JsText.ParseSpacedDecimal | node_modules/@git-space-analyzer/core/dist/analyzer.js:86 | parseInt skips leading white space before a run of decimal digits, and leading zeros do not change the value. |
| JsText.ParseSignedDecimal | node_modules/@git-space-analyzer/core/dist/analyzer.js:282 | parseInt reads one leading `-` or `+` after white space, and `-` negates the number. |
| JsText.ParseLeadingNumeral | node_modules/@git-space-analyzer/core/dist/analyzer.js:86 | parseInt reads the leading numeral and ignores everything after the first non-digit, so `12abc` gives 12. Only a lone `0` followed by `x` or `X` would switch to hexadecimal. |
| Finder.KeptBlob | node_modules/@git-space-analyzer/core/dist/analyzer.js:83-92 | A kept blob comes from a non-blank line whose split on spaces has at least three fields. The first field is its hash, the second is `blob`, and parseInt of the third is its size, which is at or above the threshold. |
| Finder.ScanSoundAndComplete | node_modules/@git-space-analyzer/core/dist/analyzer.js:82-93 | Every scanned blob is at or above the threshold and comes from a listing line that keeps it. Every such line contributes its blob. |
| Finder.ThresholdBoundary | node_modules/@git-space-analyzer/core/dist/analyzer.js:86 | A line `<hash> blob <size>` is kept exactly when size >= threshold. A blob of exactly the threshold is kept and one byte less is not. |
| Finder.SplitObjectLine | node_modules/@git-space-analyzer/core/dist/analyzer.js:85 | A line `<hash> <type> <size>` destructures into those three fields. |
| Finder.OnlyBlobsKept | node_modules/@git-space-analyzer/core/dist/analyzer.js:86 | A line whose type is not `blob`, such as a tree, commit or tag, is never kept, whatever its size. |
| Finder.SortBySize | node_modules/@git-space-analyzer/core/dist/analyzer.js:95 | The sort is a permutation of its input, ordered by size, largest first. |
| Finder.SortKeepsTies | node_modules/@git-space-analyzer/core/dist/analyzer.js:95 | For every size, the blobs of that size keep their scan order, so the sort is stable. |
| Finder.StableSortUnique | node_modules/@git-space-analyzer/core/dist/analyzer.js:95 | Two size-sorted sequences that agree, size by size, on their elements in order are equal. |
| Finder.SliceEnd | node_modules/@git-space-analyzer/core/dist/analyzer.js:97 | `slice(0, k)` keeps k entries when 0 <= k <= length and the whole list when k > length. A negative k drops the last -k entries, or everything when -k >= length. |
| Finder.CandidatesBounds | node_modules/@git-space-analyzer/core/dist/analyzer.js:80-97 | The candidates are a prefix of the stable sort of the kept blobs, sorted largest first, all at or above the threshold. There are min(maxResults, kept) of them for maxResults >= 0, and kept + maxResults (at least 0) for a negative maxResults. |
| Finder.CandidatesOfAnyStableSort | node_modules/@git-space-analyzer/core/dist/analyzer.js:95-97 | The candidates are the first maxResults of any stable descending sort of the kept blobs. |
| Finder.FindCandidates | node_modules/@git-space-analyzer/core/dist/analyzer.js:80-97 | The scan loop, sort and slice give the candidates: sorted, at or above the threshold, at most maxResults. |
| Finder.ScanListing | node_modules/@git-space-analyzer/core/dist/analyzer.js:82-93 | The loop over the listing lines pushes exactly the scanned blobs, in line order. |
| Branches.NonEmpty | node_modules/@git-space-analyzer/core/dist/analyzer.js:70-71 | `filter(Boolean)` keeps exactly the non-empty lines. |
| Branches.NonEmptySnoc | node_modules/@git-space-analyzer/core/dist/analyzer.js:70-71 | Filtering a list with one more line filters the list, then keeps that line unless it is empty. |
| Branches.NonEmptyAppend | node_modules/@git-space-analyzer/core/dist/analyzer.js:70-71 | The filter works part by part and keeps the order of the lines. |
| Branches.Distinct | node_modules/@git-space-analyzer/core/dist/analyzer.js:72 | The set spread holds each name once and exactly the names of its input. |
| Branches.DistinctAppend | node_modules/@git-space-analyzer/core/dist/analyzer.js:72 | The deduplicated local names come first. After them come only remote names that are not local. |
| Branches.DistinctKeepsDistinct | node_modules/@git-space-analyzer/core/dist/analyzer.js:72 | A list without duplicates is unchanged by the set spread. |
| Branches.KeepListed | node_modules/@git-space-analyzer/core/dist/analyzer.js:73-75 | The includeBranches filter keeps exactly the names that are listed, without introducing duplicates. |
| Branches.KeepListedAppend | node_modules/@git-space-analyzer/core/dist/analyzer.js:74 | The filter keeps the order of the full list, part by part. |
| Branches.GetAllBranches | node_modules/@git-space-analyzer/core/dist/analyzer.js:69-77 | It fails exactly when a listing fails, the remote listing first. On success the result is the deduplicated concatenation of the local names and then the remote names, filtered by the includeBranches list when there is one. Each name appears once, and the names are those of either listing that the selection allows. |
| Branches.LocalNamesFirst | node_modules/@git-space-analyzer/core/dist/analyzer.js:72-76 | The result starts with the distinct local names, or with those of them that are listed. After them come only remote names that no local name repeats. |
| Branches.FirstMentioned | node_modules/@git-space-analyzer/core/dist/analyzer.js:162-166 | The name found is the first in priority order that some line contains. None means no line contains any of them. |
| Branches.GetMainBranch | node_modules/@git-space-analyzer/core/dist/analyzer.js:155-169 | The loop over main, master and develop returns the main branch the resolution defines. |
| Branches.SymbolicRefTarget | node_modules/@git-space-analyzer/core/dist/analyzer.js:157 | A symbolic ref `refs/remotes/origin/<name>` gives `<name>`. |
| Branches.FallbackPriority | node_modules/@git-space-analyzer/core/dist/analyzer.js:159-167 | Without the symbolic ref, the main branch is main, else master, else develop, matched by substring, and "main" when no line mentions any of them. |
| CrossRef.ParseHeadsFailureSticks | node_modules/@git-space-analyzer/core/dist/analyzer.js:106-110 | Once a show-ref line without a ref name throws, the whole scan fails. |
| CrossRef.HeadBranchName | node_modules/@git-space-analyzer/core/dist/analyzer.js:110 | `refs/heads/<name>` is reported as `<name>`. |
| CrossRef.Holding | node_modules/@git-space-analyzer/core/dist/analyzer.js:111-118 | A head is recorded exactly when its tree listing succeeds and contains the hash. |
| CrossRef.FirstContaining | node_modules/@git-space-analyzer/core/dist/analyzer.js:127 | `find` gives the first line containing the hash. None means no line contains it. |
| CrossRef.ListingPath | node_modules/@git-space-analyzer/core/dist/analyzer.js:124-131 | When the first line holding the hash is `<meta>\t<path>`, the path found is that path. |
| CrossRef.PathWithoutMatch | node_modules/@git-space-analyzer/core/dist/analyzer.js:124-135 | A listing with no matching line gives "". A failing listing gives `<deleted-file-` + the first 8 hash characters + `>`. |
| CrossRef.EntryReferences | node_modules/@git-space-analyzer/core/dist/analyzer.js:103-147 | The entry keeps hash and size. Branches and commits pair up head by head, exactly for the heads whose tree holds the blob. isInMainBranch holds exactly when the main branch is among the branches. |
| CrossRef.FilterMapAllOrNothing | node_modules/@git-space-analyzer/core/dist/analyzer.js:100-152 | A per-candidate analysis that never fails keeps every candidate in order. One that always fails keeps none. |
| CrossRef.AllOrNothing | node_modules/@git-space-analyzer/core/dist/analyzer.js:100-152 | Either every candidate is resolved, in order, or none is. |
| CrossRef.ResolvedSizes | node_modules/@git-space-analyzer/core/dist/analyzer.js:138-147 | The resolved files follow the candidates one for one, with their sizes and the main-branch test. |
| CrossRef.ResolvedFollowCandidates | node_modules/@git-space-analyzer/core/dist/analyzer.js:100-153 | The resolved files are at most as many as the candidates, still sorted and at or above the threshold. |
| CrossRef.LargeFilesShape | node_modules/@git-space-analyzer/core/dist/analyzer.js:78-154 | findLargeFiles fails only when the object listing fails. Its files are sorted, at or above the threshold, at most maxResults, and isInMainBranch holds exactly when the main branch is among a file's branches. |
| CrossRef.ScanHeads | node_modules/@git-space-analyzer/core/dist/analyzer.js:103-122 | The show-ref loop records branch names and commits of exactly the heads whose listing holds the hash. It fails exactly when a line lacks a ref name. |
| CrossRef.FindHeadPath | node_modules/@git-space-analyzer/core/dist/analyzer.js:124-135 | The path lookup gives the HEAD path the model defines. |
| CrossRef.AnalyzeCandidate | node_modules/@git-space-analyzer/core/dist/analyzer.js:101-151 | One candidate's analysis gives the resolved entry, or drops the candidate when a step throws. |
| CrossRef.AnalyzeCandidates | node_modules/@git-space-analyzer/core/dist/analyzer.js:99-153 | The loop keeps each resolved candidate, in order. |
| CrossRef.FindLargeFiles | node_modules/@git-space-analyzer/core/dist/analyzer.js:78-154 | findLargeFiles returns files sorted largest first, at or above the threshold, at most maxResults of them. |
| BranchReport.AnalyzeBranches | node_modules/@git-space-analyzer/core/dist/analyzer.js:170-206 | One entry per branch, in order. Each has size 0, unique size 0 and no large files, and is remote exactly when its name starts with `origin/`. |
| BranchReport.RemoteNames | node_modules/@git-space-analyzer/core/dist/analyzer.js:175 | A branch is remote exactly when its name is `origin/` followed by something. |
| Advice.Select | node_modules/@git-space-analyzer/core/dist/analyzer.js:210 | `filter` keeps exactly the elements the test accepts. |
| Advice.SelectSnoc | node_modules/@git-space-analyzer/core/dist/analyzer.js:210 | Filtering a list with one more element filters the list, then keeps that element exactly when the test accepts it. |
| Advice.SelectAppend | node_modules/@git-space-analyzer/core/dist/analyzer.js:210 | The filter works part by part and keeps the order of the list. |
| Advice.SelectEmpty | node_modules/@git-space-analyzer/core/dist/analyzer.js:211 | A filter is empty exactly when no element is accepted. |
| Advice.SelectedSumBounded | node_modules/@git-space-analyzer/core/dist/analyzer.js:212 | With non-negative sizes, a filtered sum is between 0 and the whole list's sum. |
| Advice.SelectionSavings | node_modules/@git-space-analyzer/core/dist/analyzer.js:224-226 | With positive sizes, a non-empty filter saves more than 0 bytes and no more than the whole list. |
| Advice.CreateSummary | node_modules/@git-space-analyzer/core/dist/analyzer.js:253-273 | The summary counts the files and the branch entries. largestFile and oldestLargeFile are the same, both the first file, and absent exactly for an empty list. branchesWithLargeFiles is at most the branch count. With non-negative sizes, the cleanup estimate is between 0 and the total size. |
| Advice.GenerateRecommendations | node_modules/@git-space-analyzer/core/dist/analyzer.js:207-252 | The three conditional pushes give the recommendations in the fixed order the model defines: not-in-main, very large, binary artifact, each present only when its filter is non-empty. |
| Advice.AdviseShape | node_modules/@git-space-analyzer/core/dist/analyzer.js:211-221 | A heuristic emits one recommendation exactly when its filter is non-empty. That recommendation is actionable, with the exact sum of the filtered sizes. |
| Advice.RecommendationsFire | node_modules/@git-space-analyzer/core/dist/analyzer.js:207-252 | Each heuristic fires exactly when some file meets it. They come in the order not-in-main (high), very large above 10 MiB (high), binary artifact (medium), each with its filter's exact sum. |
| Advice.SavingsBounded | node_modules/@git-space-analyzer/core/dist/analyzer.js:211-250 | Every recommendation is actionable. With positive sizes, each saves more than 0 bytes and at most the whole list. |
| Advice.ArtifactSuffix | node_modules/@git-space-analyzer/core/dist/analyzer.js:238 | Every path ending in `.` plus one of the twelve extensions is a binary artifact. |
| Advice.SummaryAgreesWithAdvice | node_modules/@git-space-analyzer/core/dist/analyzer.js:253-273 | largestFile and oldestLargeFile are both exactly the first file, or absent for an empty list. For a list sorted largest first, no file is larger. The cleanup estimate equals the not-in-main recommendation's savings, or 0 when every file is in main. Branch entries without large files count 0. |
| Advice.FeatureBranchBlob | node_modules/@git-space-analyzer/core/dist/analyzer.js:207-263 | A 15 MiB blob only on a feature branch, at `big.bin`, triggers two recommendations, not-in-main then very-large, each saving 15 MiB. The summary estimates the same. |
| Footprint.GetRepositorySize | node_modules/@git-space-analyzer/core/dist/analyzer.js:274-293 | The loop gives the line-by-line total, or 0 when the command fails. |
| Footprint.TotalSizeAppend | node_modules/@git-space-analyzer/core/dist/analyzer.js:280-287 | The total over two runs of lines is the sum of their totals. |
| Footprint.SizeLine | node_modules/@git-space-analyzer/core/dist/analyzer.js:281-283 | A `size <v>` line adds parseInt(v) * 1024, and the `size-pack ` test does not match it. |
| Footprint.SizePackLine | node_modules/@git-space-analyzer/core/dist/analyzer.js:284-286 | A `size-pack <v>` line adds parseInt(v) * 1024, and the `size ` test does not match it. |
| Footprint.SizeGarbageUnrelated | node_modules/@git-space-analyzer/core/dist/analyzer.js:281-286 | A `size-garbage` line starts with neither key. |
| Footprint.UnrelatedAppended | node_modules/@git-space-analyzer/core/dist/analyzer.js:280-287 | A line starting with neither key leaves the total as it is. |
| Footprint.SizeAndPack | node_modules/@git-space-analyzer/core/dist/analyzer.js:278-288 | One `size n` and one `size-pack m` line among other lines give n * 1024 + m * 1024 bytes. |
| Footprint.UnreadableValue | node_modules/@git-space-analyzer/core/dist/analyzer.js:282 | A keyed value parseInt cannot read makes the total NaN, and it stays NaN. |
| Footprint.ColonLineIgnored | node_modules/@git-space-analyzer/core/dist/analyzer.js:281-286 | A `<key>:<value>` line, the format git prints, matches neither key. |
| Footprint.ColonFormatTotal | node_modules/@git-space-analyzer/core/dist/analyzer.js:278-288 | Output made only of `<key>:<value>` lines totals 0. |
| Engine.Analyze | node_modules/@git-space-analyzer/core/dist/analyzer.js:44-68 | analyze runs the steps in turn and returns the result the model defines. |
| Engine.AnalysisFailures | node_modules/@git-space-analyzer/core/dist/analyzer.js:44-68 | analyze fails exactly when the remote listing, the local listing or the object listing fails, with the first of these as the error. |
| Engine.ReportFiles | node_modules/@git-space-analyzer/core/dist/analyzer.js:50-64 | The report's files are sorted, at or above the threshold, at most maxResults, and isInMainBranch holds exactly when the main branch is among a file's branches. |
| Engine.EntriesShape | node_modules/@git-space-analyzer/core/dist/analyzer.js:170-206 | The branch entries name the branches in order. Each has size 0. Each is remote exactly when its name starts with `origin/`. None has large files. |
| Engine.ReportBranches | node_modules/@git-space-analyzer/core/dist/analyzer.js:53-57 | The report has one entry per selected branch, names distinct. totalBranches counts them and branchesWithLargeFiles is 0. |
| Engine.ReportSummary | node_modules/@git-space-analyzer/core/dist/analyzer.js:55-67 | The summary counts the files. largestFile and oldestLargeFile are exactly the first file, and no file is larger. When some file is not in main, there is a recommendation and the cleanup estimate matches the first one; otherwise it is 0. At most three recommendations, all actionable. The total size is the footprint. |

## Left out

- The process, filesystem and console I/O (`execSync`, `existsSync`, `console.log`, `console.warn`). Command outputs are oracle inputs. The `.git` check is a boolean input. Warnings are not collected.
- The 10 MiB `maxBuffer` of `execSync`. An output beyond it makes the command fail, which the oracle expresses as `None`.
- `formatBytes` beyond its exact case. `Report.FormatBytes` gives "0 B" for 0 and takes every other amount from a given renderer, because the rest is floating point (`Math.log`, `Math.pow`, `toFixed`). For the same reason, NaN renders as "NaN undefined" without further proof.
- `lastCommitDate` in `analyzeBranches`. It is built by `new Date` parsing of `git log` output, which is date and locale handling. The `git log` command it runs is caught, so it cannot change the branch entries.
- The `type: 'blob'` field of the finder's objects and of LargeFile. It is the constant `blob`.
- `excludePatterns` and `analyzeHistory` are merged into the options but no operation reads them. The model keeps them only in `Config.Options`.
- `includeBranches` holding something other than `'all'` or a list of strings. Numbers that are not integers, for `threshold` and `maxResults`.
- JavaScript numbers are doubles. parseInt, `size * 1024` in getRepositorySize and the `reduce` sums in generateRecommendations and createSummary are exact only up to 2^53. The model's integers are exact, so sizes and totals beyond 2^53 bytes are not rounded as they would be.
- Case folding beyond ASCII for the artifact pattern's `i` flag. The extensions are ASCII.
- The CLI, the VS Code extension and the IntelliJ plugin, which are display and argument parsing over the analysis result.
