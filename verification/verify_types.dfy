/**
 * The records of the verify package: what a check looked at, what it found, and the
 * report that gathers the findings of a run.
 */
module VerifyTypes {
  import opened Results

  /** The five kinds of pre-publish check. */
  datatype CheckType = Citation | Url | CodeLink | Claim | TodoMarker

  datatype CheckStatus = Pass | Fail | Warn

  /** Where a check looked: a file, a 1-based line (0 when unknown) and that line's text. */
  datatype Target = Target(file: string, line: int, text: string)

  /**
   * The kind-specific details of a result. The source keeps one optional record per kind;
   * every verifier fills at most one of them, which is what these alternatives say.
   */
  datatype Details =
    | NoDetails
    | CitationDetails(paperId: string, resolved: bool)
    | UrlDetails(url: string, httpStatus: Option<int>, error: Option<string>)
    | CodeLinkDetails(permalink: string, fileExists: bool, lineRangeValid: bool)
    | ClaimDetails(claimText: string, confidence: string, suggestedAction: string)

  /**
   * Why a claim does or does not need a citation: the fixed reason of one rung of the
   * heuristic ladder, or the model's own words.
   */
  datatype Reason = ExemptPhrase | MustCitePhrase | ShouldCitePhrase | NoPhrase | ModelReason(text: string)

  /** The words of a reason. */
  function ReasonText(r: Reason): string {
    match r
    case ExemptPhrase => "Sentence is a definition, example, or transitional prose"
    case MustCitePhrase => "Sentence contains comparison, attribution, or cites prior work"
    case ShouldCitePhrase => "Sentence contains causal claim or complexity statement"
    case NoPhrase => "No citation-requiring patterns detected"
    case ModelReason(text) => text
  }

  /**
   * A result message: the template the source formats, with its arguments. `Text` is a
   * message whose words come from elsewhere (an error); `MessageText` gives the words of
   * the messages that have none.
   */
  datatype Message =
    | Text(text: string)
    | TodoFound
    | ClaimCited
    | ClaimUncited
    | ReasonGiven(reason: Reason)
    | CitationLookupFailed(paperId: string, err: string)
    | CitationResolved(paperId: string)
    | CitationNotFound(paperId: string)
    | InvalidUrl(url: string, err: string)
    | UrlNotAccessible(url: string, err: string)
    | UrlAccessible(url: string, status: int)
    | UrlClientError(url: string, status: int)
    | UrlUnexpectedStatus(url: string, status: int)
    | GhNotFound(permalink: string)
    | CodeLinkLookupFailed(permalink: string, err: string)
    | FileMissingAtCommit(path: string, shortSha: string)
    | LineRangeUnverified(permalink: string, startLine: int, endLine: int)
    | LineRangeTooLong(startLine: int, endLine: int, lineCount: int)
    | CodeLinkValid(permalink: string)

  /** The words of the messages the source writes out in full, and of a claim's reason. */
  function MessageText(m: Message): string
    requires m.Text? || m.TodoFound? || m.ClaimCited? || m.ClaimUncited? || m.ReasonGiven?
  {
    match m
    case Text(text) => text
    case TodoFound => "TODO/FIXME marker found - remove before publishing"
    case ClaimCited => "Claim has citation"
    case ClaimUncited => "Uncited factual claim detected"
    case ReasonGiven(reason) => ReasonText(reason)
  }

  /** One finding. The source's generated check id and timestamp are not modelled. */
  datatype VerificationResult = VerificationResult(
    checkType: CheckType,
    target: Target,
    status: CheckStatus,
    message: Message,
    details: Details)

  datatype ReportSummary = ReportSummary(totalChecks: int, passed: int, failed: int, warnings: int)

  /** A run's report. The generated report id and timestamp are not modelled. */
  datatype VerificationReport = VerificationReport(
    contentFiles: seq<string>,
    summary: ReportSummary,
    results: seq<VerificationResult>,
    exitCode: int)
}
