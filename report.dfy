/**
 * The records the analyzer builds and returns, after the interfaces
 * GitObject, LargeFile, BranchAnalysis, Recommendation, AnalysisSummary and
 * AnalysisResult. Date fields are not part of this model.
 */
module Report {
  import opened Wrappers

  /** A blob kept by the large-object finder, before it is cross-referenced. */
  datatype BlobRecord = BlobRecord(hash: string, size: int)

  /** A large blob with the branches and commits whose trees hold it. */
  datatype LargeFile = LargeFile(
    hash: string,
    size: int,
    path: string,
    sizeFormatted: string,
    branches: seq<string>,
    commits: seq<string>,
    isInMainBranch: bool)

  /** The per-branch entry; sizes and large files are never computed by the analyzer. */
  datatype BranchAnalysis = BranchAnalysis(
    name: string,
    size: int,
    sizeFormatted: string,
    uniqueSize: int,
    uniqueSizeFormatted: string,
    largeFiles: seq<LargeFile>,
    isRemote: bool)

  datatype RecommendationType = LargeFileAdvice | UnusedBranch | DuplicateFile | BinaryArtifact

  datatype Severity = High | Medium | Low

  datatype Recommendation = Recommendation(
    kind: RecommendationType,
    severity: Severity,
    description: string,
    potentialSavings: int,
    potentialSavingsFormatted: string,
    actionable: bool,
    action: Option<string>)

  datatype Summary = Summary(
    totalFiles: nat,
    totalBranches: nat,
    largestFile: Option<LargeFile>,
    oldestLargeFile: Option<LargeFile>,
    branchesWithLargeFiles: nat,
    estimatedCleanupSavings: int,
    estimatedCleanupSavingsFormatted: string)

  /** A JavaScript number as the analyzer can produce one here: an integer, or NaN. */
  datatype Number = Finite(value: int) | NaN

  datatype AnalysisResult = AnalysisResult(
    repositoryPath: string,
    totalSize: Number,
    totalSizeFormatted: string,
    largeFiles: seq<LargeFile>,
    branchAnalysis: seq<BranchAnalysis>,
    recommendations: seq<Recommendation>,
    summary: Summary)

  /**
   * The floating-point part of formatBytes (logarithm, power, two-decimal
   * rounding), which this model takes as given.
   */
  type Renderer = int -> string

  /** formatBytes: zero bytes is "0 B"; every other amount is rendered by `render`. */
  function FormatBytes(render: Renderer, bytes: int): string {
    if bytes == 0 then "0 B" else render(bytes)
  }

  /** formatBytes applied to a number that may be NaN, which prints as "NaN undefined". */
  function FormatNumber(render: Renderer, n: Number): string {
    match n
    case Finite(v) => FormatBytes(render, v)
    case NaN => "NaN undefined"
  }
}
