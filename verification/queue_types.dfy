/**
 * The records of the candidate queue: items discovered for review, with their
 * kind-specific data and review metadata, and the statistics of a queue.
 */
module QueueTypes {
  import opened Results

  /** The four kinds of candidate. */
  datatype CandidateType = Paper | Concept | Repo | CodeLocation

  /** A review status; `Unset` is the empty status a caller may leave for `Add` to fill in. */
  datatype CandidateStatus = Unset | Pending | Approved | Rejected

  /** An instant, as an opaque number; `ZeroTime` stands for Go's zero `time.Time`. */
  type Time = int

  const ZeroTime: Time := 0

  datatype PaperData = PaperData(s2Id: string, title: string, authors: seq<string>, year: int, relevanceNotes: string)

  datatype ConceptData = ConceptData(name: string, description: string, relatedPapers: seq<string>, relatedRepos: seq<string>)

  datatype RepoData = RepoData(url: string, name: string, description: string, relevanceNotes: string)

  datatype CodeLocationData = CodeLocationData(
    repoUrl: string,
    filePath: string,
    startLine: int,
    endLine: int,
    commitSha: string,
    permalinkUrl: string,
    functionName: Option<string>,
    description: string,
    surroundingContext: string)

  /**
   * A discovered item awaiting review. The kind-specific data are optional pointers in
   * the source; so are the review fields, filled in on approval or rejection.
   */
  datatype Candidate = Candidate(
    id: string,
    candidateType: CandidateType,
    status: CandidateStatus,
    discoveredAt: Time,
    discoveredBy: string,
    discoveryContext: string,
    paperData: Option<PaperData>,
    conceptData: Option<ConceptData>,
    repoData: Option<RepoData>,
    codeLocationData: Option<CodeLocationData>,
    reviewedAt: Option<Time>,
    reviewedBy: Option<string>,
    reviewNotes: Option<string>,
    rejectionReason: Option<string>)

  /** Queue statistics; `byType` has a key exactly for the kinds that occur. */
  datatype QueueStats = QueueStats(total: int, pending: int, approved: int, rejected: int, byType: map<CandidateType, int>)
}
