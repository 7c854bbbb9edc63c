/**
 * The records of the sweep package: the periodic re-check of published content for stale
 * repositories, broken code links, citations to re-read and thin coverage.
 */
module SweepTypes {
  import opened Results
  import VerifyTypes

  /** The four kinds of sweep check. */
  datatype CheckType = ClaimConsistencyCheck | RepoFreshnessCheck | CodeLinksCheck | CoverageCheck

  datatype SweepStatus = OK | Warning | Issue

  /**
   * A result message: the template the source formats, with its arguments. `FromVerify`
   * carries the message of the verify package's check unchanged.
   */
  datatype SweepMessage =
    | ReadFailed(err: string)
    | GhMissing
    | UnparsableRepoUrl
    | FetchFailed(stderr: string)
    | RepoInfoUnparsable(err: string)
    | RepoArchived
    | PushDateUnparsable(err: string)
    | NotUpdatedFor(age: int)
    | UpdatedAgo(age: int)
    | LowCitationDensity
    | TechniqueUnexplained
    | CodeLinkValid
    | FromVerify(message: VerifyTypes.Message)
    | CheckAtHead(shortSha: string)
    | CitationToReview(citation: string)

  /** The suggested fixes the checks attach. */
  datatype Fix =
    | FindActiveFork
    | FindActiveAlternative
    | ReviewForCitations
    | ExplainTechnique
    | UpdatePermalink
    | CheckFileAtHead
    | SearchSnippets

  /** The free-form details of a result, one alternative per shape the checks produce. */
  datatype SweepDetails =
    | NoDetails
    | ArchivedDetails
    | StaleDetails(lastPush: int, ageDays: int)
    | FreshDetails(lastPush: int)
    | DensityDetails(paragraphs: int, citations: int)
    | TechniqueDetails(technique: string)
    | LinkDetails(owner: string, repo: string, commitSha: string, filePath: string, startLine: int, endLine: int)
    | HeadDetails(commitSha: string, filePath: string)
    | CitationDetails(citationId: string, needsReview: bool)

  /**
   * One finding of a sweep. The source's timestamp and its never-set line number are not
   * modelled; `fix` is `None` where the source leaves the suggested fix empty.
   */
  datatype SweepResult = SweepResult(
    checkType: CheckType,
    status: SweepStatus,
    target: string,
    file: string,
    message: SweepMessage,
    details: SweepDetails,
    fix: Option<Fix>)

  datatype SweepSummary = SweepSummary(totalChecks: int, ok: int, warnings: int, issues: int)

  /** A sweep's report. The generated report id and timestamp are not modelled. */
  datatype SweepReport = SweepReport(
    contentFiles: seq<string>,
    checksRun: seq<CheckType>,
    summary: SweepSummary,
    results: seq<SweepResult>)
}
