# scribe, modelled in Dafny

`scribe` is the command-line tool that looks after a phylogenetics compendium written in
Markdown. This project models the parts of it that decide things.

- **Verify pipeline** (`internal/verify`). It reads each content file and reports, as
  verification results with a pass, fail or warn status:
  - every TODO/FIXME/XXX/HACK marker;
  - every distinct `@paper:` citation, looked up with the `bip` tool;
  - every URL, probed over HTTP. GitHub `blob` URLs are skipped here.
  - every GitHub permalink with a line range, checked with `gh api`;
  - every sentence that looks like an uncited factual claim. Pattern heuristics decide this,
    with an optional language-model fallback.

  The report sums up the statuses and sets the exit code to 1 when anything failed.
- **Language-model client** (`internal/llm`). It picks `claude` or `ollama`, runs a prompt,
  strips Markdown fences from the answer and decodes the claim analysis.
- **Sweep** (`internal/sweep`). It re-checks finished content for:
  - repository freshness: archived, or not pushed for two years;
  - code links, through the verify checker, plus a reminder to check each link at the
    repository's head;
  - citations to re-read;
  - citation density.

  A file that cannot be read becomes an issue in the report.
- **Candidate queue** (`internal/queue`). A JSON-lines store of candidate papers,
  repositories, concepts and code locations, with a second file of rejected ones. A
  candidate is added unless:
  - its ID is already queued; or
  - an earlier rejection shares its external ID.

  Pending candidates are approved or rejected. Statistics count the queue by status and by
  kind.
- **Blocking detector** (`internal/status`). It records the items an autonomous task is
  blocked on. It decides when the task should stop for human review:
  - an item blocked for more than thirty minutes;
  - the iteration budget spent;
  - the cost budget spent.
- **Output helpers** (`internal/output`). Status symbols, counted labels, the progress bar
  and human-readable durations.

Each Go file becomes one Dafny module. The modules are:

| module | Go source |
|---|---|
| `Verify` | `verify.go` |
| `Citations` | `citations.go` |
| `Claims`, `Patterns` | `claims.go` |
| `CodeLinks` | `codelinks.go` |
| `Urls` | `urls.go` |
| `VerifyReport` | `report.go` |
| `Llm` | `client.go` |
| `Sweep` | `sweep.go` |
| `Freshness` | `freshness.go` |
| `SweepCodeLinks` | the sweep's `codelinks.go` |
| `Consistency` | `consistency.go` |
| `Coverage` | `coverage.go` |
| `SweepReports` | the sweep's `report.go` |
| `QueueStore` | `store.go` |
| `Candidates` | `candidates.go` |
| `Blocking` | `blocking.go` and the checkpoint constructor |
| `Format` | `format.go` |

Support modules:
- `Results`: Option and Result.
- `Text`: the Go string functions the code calls.
- `Seqs`: filtering, counting and de-duplication.

Code that updates state keeps its form:
- The report builders, the queue store, the candidate service, the task checkpoint and the
  blocking detector are classes whose methods change their fields.
- Loops such as `VerifyFile`, `SweepFile`, `splitSentences`, `findLineNumber`,
  `RemoveBlockedItem` and `ShouldQueueForReview` are methods with loop invariants. Each is
  proved equal to a specification function, and the properties are proved about that
  function.

Every call to an external tool or service is a parameter holding that tool's answers, and
so is the clock:
- `bip`, `gh`, HTTP, `claude`/`ollama`, the file system and JSON decoding are the `Env`
  and `SweepEnv` records, or parameters of the operation.
- The clock is a `now` or `stamp` argument.

## Model

| member | source | states |
|---|---|---|
| `Text.Index` | scribe/internal/llm/client.go:139-145 | `strings.Index`: -1 exactly when the substring does not occur, else the first position where it occurs |
| `Text.TrimSpace` | scribe/internal/verify/verify.go:110 | `strings.TrimSpace`: the result is the middle slice of the input; only white space was removed on either side; it neither starts nor ends with white space |
| `Text.TrimSpaceIdempotent` | scribe/internal/llm/client.go:134-149 | trimming twice is trimming once |
| `Text.ScanSound` | scribe/internal/verify/urls.go:17-19 | `FindAllString` over a matcher: every value found satisfies what every match satisfies, and its text occurs in the input |
| `Text.ScanEmpty` | scribe/internal/verify/urls.go:17-19 | nothing is found exactly when the matcher matches at no position |
| `Text.ScanFirst` | scribe/internal/verify/urls.go:17-19 | the first value found is the leftmost match, taken whole, and the search resumes at its end |
| `Text.ScanJoined` | scribe/internal/verify/urls.go:17-19 | when no match of the left text changes or appears across a joining character that starts no match, the matches of the join are those of the left text then those of the right |
| `Text.Utf8Len` | scribe/internal/verify/verify.go:111 | `len` of a Go string counts UTF-8 bytes: between one and four per character |
| `Text.NatToString` | scribe/internal/output/format.go:135 | `%d` of a natural number: at least one digit, and no leading zero |
| `Text.Atoi` | scribe/internal/verify/codelinks.go:42-46 | `strconv.Atoi` of a digit string: its decimal value when that fits in 64 bits; out-of-range input yields a value that is still in range |
| `Text.AtoiOfNatToString` | scribe/internal/verify/codelinks.go:42-46 | reading back a rendered 64-bit count gives the count |
| `Text.GoDiv` | scribe/internal/output/format.go:150 | Go's truncating `/` agrees with Euclidean division on non-negative operands |
| `Text.GoDivMod` | scribe/internal/output/format.go:150 | quotient times divisor plus remainder is the dividend; the remainder is smaller than the divisor and takes the dividend's sign |
| `Seqs.Filter` | scribe/internal/verify/report.go:66-74 | the kept elements come from the input and satisfy the predicate |
| `Seqs.FilterKeeps` | scribe/internal/verify/report.go:66-74 | every element that satisfies the predicate is kept |
| `Seqs.FilterAppend` | scribe/internal/verify/report.go:66-74 | filtering distributes over concatenation, so order is kept |
| `Seqs.Dedup` | scribe/internal/verify/citations.go:18-29 | the `seen` map: the same elements as the input, each exactly once |
| `Seqs.DedupFirstSeenOrder` | scribe/internal/verify/citations.go:18-29 | de-duplicated elements come in the order of their first appearance |
| `Seqs.CountPermutation` | scribe/internal/verify/report.go:34-63 | a count depends only on the multiset of results |
| `Citations.KeyRun` | scribe/internal/verify/citations.go:15 | `[a-zA-Z0-9_-]+`: the longest run of key characters |
| `Citations.CitationTokensSound` | scribe/internal/verify/citations.go:18-29 | every extracted key follows an `@paper:` match in the text |
| `Citations.CitationTokensComplete` | scribe/internal/verify/citations.go:18-29 | every `@paper:` match in the text has its key extracted |
| `Citations.HasCitationIffTokens` | scribe/internal/verify/verify.go:116-117 | the text matches the citation pattern exactly when some key is extracted |
| `Citations.ExtractCitations` | scribe/internal/verify/citations.go:18-29 | the distinct keys in order of first appearance; a key is listed exactly when it occurs |
| `Citations.LookupPaper` | scribe/internal/verify/citations.go:77-98 | found when `bip` succeeds; not found when it fails with "not found" or "no such"; an error in every other case, including `bip` missing |
| `Citations.VerifyCitation` | scribe/internal/verify/citations.go:32-74 | passes exactly when `bip` found the paper; never warns; the details carry the key and whether it was found |
| `Claims.TodoWordAt` | scribe/internal/verify/claims.go:13 | a match is one of the four marker words, case-folded, with a word boundary on both sides |
| `Claims.TodoMatchLen` | scribe/internal/verify/claims.go:13 | the optional colon and trailing white space extend the match past the word and stay inside the text |
| `Claims.TodoMarkersFromFirst` | scribe/internal/verify/claims.go:16-18 | from any position, the search takes the first marker at or after it, whole, and resumes at the end of that match |
| `Claims.TodoMarkersFromEmpty` | scribe/internal/verify/claims.go:16-18 | from any position, nothing is found exactly when no marker word starts at or after it |
| `Claims.ExtractTodoMarkers` | scribe/internal/verify/claims.go:16-18 | each marker found starts with one of the four words, case-folded; there is none exactly when no marker word starts anywhere; the first is the whole leftmost match and the search resumes after it |
| `Claims.VerifyTodoMarker` | scribe/internal/verify/claims.go:21-34 | a marker is always a failure at its file and line |
| `Claims.ExampleEgNeedsWordAfter` | scribe/internal/verify/claims.go:56 | the `e.g.` branch matches only where a word character follows it |
| `Claims.LadderSpec` | scribe/internal/verify/claims.go:63-88 | the heuristic verdict of the three table answers: a citation is needed exactly when the sentence is not exempt and a table of claims matches; the confidence is high, medium or low by the first table that matches |
| `Claims.HeuristicsSpec` | scribe/internal/verify/claims.go:37-88 | the same ladder, over the tables applied to the trimmed sentence |
| `Claims.HeuristicsIgnoreSurroundingSpace` | scribe/internal/verify/claims.go:63-88 | surrounding white space does not change the heuristic verdict |
| `Claims.FinalVerdictSpec` | scribe/internal/verify/claims.go:118-131 | the model's answer replaces the heuristic verdict only when confidence is low, the model is enabled and available, and its analysis succeeded |
| `Claims.ClaimOutcome` | scribe/internal/verify/claims.go:91-156 | a claim result never warns, and a cited sentence passes |
| `Claims.ClaimOutcomeSpec` | scribe/internal/verify/claims.go:91-156 | an uncited sentence fails exactly when the final verdict needs a citation, and keeps the verdict's confidence; the suggested action is "add citation" exactly on failure |
| `Claims.ExemptNeverFails` | scribe/internal/verify/claims.go:54-59 | an exempt sentence always passes |
| `Claims.MustCiteFails` | scribe/internal/verify/claims.go:39-44 | an uncited, non-exempt sentence that matches the must-cite table fails with high confidence, whatever the model says |
| `Claims.DecideClaim` | scribe/internal/verify/claims.go:97-131 | the step-by-step verdict equals the final-verdict function |
| `Claims.VerifyClaim` | scribe/internal/verify/claims.go:91-156 | the step-by-step result equals the claim outcome |
| `CodeLinks.HeadAt` | scribe/internal/verify/codelinks.go:21 | the permalink head matched at a position: owner and repo without `/`, a hex commit, a path without `#` |
| `CodeLinks.PermalinkAt` | scribe/internal/verify/codelinks.go:21 | a match is a well-formed permalink whose rendering occurs at that position |
| `CodeLinks.PermalinksSound` | scribe/internal/verify/codelinks.go:36 | every permalink found is well formed and occurs in the text |
| `CodeLinks.Permalinks` | scribe/internal/verify/codelinks.go:36 | every match is well formed and occurs in the text; there is none exactly when the pattern matches at no position; the first is the leftmost match, taken whole, and the search resumes at its end |
| `CodeLinks.ToLinks` | scribe/internal/verify/codelinks.go:37-56 | the loop turns each match into its link, in order, one link per match |
| `CodeLinks.LinksOfShape` | scribe/internal/verify/codelinks.go:35-58 | every link comes from a permalink in the content, its lines read from the digits |
| `CodeLinks.ExtractCodeLinks` | scribe/internal/verify/codelinks.go:35-58 | the loop's links are the specified links |
| `CodeLinks.SingleLineAnchor` | scribe/internal/verify/codelinks.go:43-46 | without `-L`, the end line is the start line |
| `CodeLinks.ReversedRangeKept` | scribe/internal/verify/codelinks.go:42-46 | a range written backwards is kept as written, start 20 and end 10 |
| `CodeLinks.LinkHasBlob` | scribe/internal/verify/verify.go:76 | a text that contains a permalink contains `/blob/` |
| `CodeLinks.BareRepoUrlHasNoLink` | scribe/internal/verify/codelinks.go:21 | a text without `/blob/` has no permalink |
| `CodeLinks.EstimateLines` | scribe/internal/verify/codelinks.go:171-174 | the size divided by 30 with truncation, at least one line |
| `CodeLinks.CheckFileExistsAtCommit` | scribe/internal/verify/codelinks.go:145-178 | "does not exist, no error" exactly when `gh` failed with 404/Not Found; exists exactly when `gh` gave a size, and then the line count is an estimate of at least 1 |
| `CodeLinks.Abbrev` | scribe/internal/verify/codelinks.go:117 | the corrected abbreviation: the first eight characters of the commit, or all of it when shorter |
| `CodeLinks.ShortShaAsWritten` | scribe/internal/verify/codelinks.go:117 | the slice `[:8]` as written: defined exactly when the commit has at least eight characters |
| `CodeLinks.ShortShaPanics` | scribe/internal/verify/codelinks.go:117 | the well-formed permalink with commit "abc123" makes the slice panic |
| `CodeLinks.AbbrevAgrees` | scribe/internal/verify/codelinks.go:117 | where the slice does not panic, it equals the corrected abbreviation |
| `CodeLinks.CodeLinkOutcome` | scribe/internal/verify/codelinks.go:61-140 | without `gh` it warns; with an estimated count it warns; it passes exactly when the file exists, the count is exact and positive, and both lines are within it; a missing file fails with the abbreviated commit; the details flags follow the status |
| `CodeLinks.VerifyCodeLink` | scribe/internal/verify/codelinks.go:61-140 | the flag-by-flag method equals the outcome over `gh`'s answer |
| `CodeLinks.LookupNeverPasses` | scribe/internal/verify/codelinks.go:104-113 | the real lookup only estimates line counts, so a code link never passes |
| `Urls.SchemeLen` | scribe/internal/verify/urls.go:14 | `https?://`: `https://` is tried first, and at most one scheme fits |
| `Urls.UrlLen` | scribe/internal/verify/urls.go:14 | the match never runs past the end of the text |
| `Urls.UrlLenFacts` | scribe/internal/verify/urls.go:14 | a match is a URL with the scheme found there and runs to the end or to an excluded character; without one, no scheme is there or no URL character follows it |
| `Urls.SchemeLenSuffix` | scribe/internal/verify/urls.go:14 | the pattern looks neither behind nor ahead: the scheme at a position is the scheme at the start of the text from there |
| `Urls.UrlLenBeforeSpace` | scribe/internal/verify/urls.go:14 | a match never runs over a space |
| `Urls.ExtractedAreUrls` | scribe/internal/verify/urls.go:17-19 | every URL found has the URL shape and occurs in the text |
| `Urls.ExtractURLs` | scribe/internal/verify/urls.go:17-19 | every extracted URL has the URL shape and occurs in the text; there is none exactly when the pattern matches at no position; the first is the leftmost match and the search resumes at its end |
| `Urls.ExtractURLsSpaced` | scribe/internal/verify/urls.go:17-19 | URLs of two texts joined by a space are those of the first followed by those of the second: order and repeats are kept |
| `Urls.NoSchemeNoUrl` | scribe/internal/verify/urls.go:17-19 | a text with no scheme yields no URL |
| `Urls.UrlAloneIsExtracted` | scribe/internal/verify/urls.go:17-19 | a URL on its own is extracted as itself |
| `Urls.ClientDo` | scribe/internal/verify/urls.go:55-61 | the client gives the status unless the server redirected ten times or more |
| `Urls.StatusVerdict` | scribe/internal/verify/urls.go:86-95 | 2xx and 3xx pass, 4xx fail, all else warns |
| `Urls.UrlOutcome` | scribe/internal/verify/urls.go:22-105 | a request error fails; otherwise HEAD's status decides, then GET's if HEAD failed; both failing fails with GET's error; a status is recorded exactly when no error is |
| `Urls.VerifyURL` | scribe/internal/verify/urls.go:22-105 | the step-by-step method equals the outcome |
| `Urls.GetOnlyAfterHeadFails` | scribe/internal/verify/urls.go:64-81 | GET's answer does not matter when HEAD succeeded |
| `Urls.TenRedirectsFail` | scribe/internal/verify/urls.go:55-61 | the tenth redirect stops the client; nine are followed |
| `Llm.NewClient` | scribe/internal/llm/client.go:21-33 | `claude` is preferred, then `ollama` with its default model; an error when neither is installed |
| `Llm.CompleteRunsProvider` | scribe/internal/llm/client.go:47-84 | the provider's command runs with its arguments, and its output comes back trimmed; an unknown provider is an error |
| `Llm.CutAtFence` | scribe/internal/llm/client.go:139-141 | the text before the first fence, with no fence left |
| `Llm.ExtractJSONSpec` | scribe/internal/llm/client.go:133-150 | the result is trimmed; unfenced text is just trimmed; fenced text has no fence left; a `json` fence is cut after its tag, a plain fence after its three backticks, and each at the next fence |
| `Llm.AnalyzeClaimSpec` | scribe/internal/llm/client.go:95-130 | the analysis succeeds exactly when the model answered and the fenced-stripped answer decodes |
| `Verify.Lines` | scribe/internal/verify/verify.go:38-45 | the scanner's lines contain no line feed; there are none exactly for an empty file |
| `Verify.LinesOfNewline` | scribe/internal/verify/verify.go:38-45 | a line feed ends a line, and a carriage return before it is dropped |
| `Verify.LineOf` | scribe/internal/verify/verify.go:163-170 | the 1-based number of the first line containing the text, 0 when none does |
| `Verify.FindLineNumber` | scribe/internal/verify/verify.go:163-170 | the loop equals that specification |
| `Verify.Sentences` | scribe/internal/verify/verify.go:173-191 | every piece is a non-empty trimmed sentence with at most its last character a terminator |
| `Verify.UnterminatedIsOneSentence` | scribe/internal/verify/verify.go:173-191 | a text with no terminator is one trimmed piece |
| `Verify.SplitAfterTerminator` | scribe/internal/verify/verify.go:173-191 | splitting distributes at a terminator |
| `Verify.SplitSentences` | scribe/internal/verify/verify.go:173-191 | the loop equals the sentence specification |
| `Verify.MarkerResults` | scribe/internal/verify/verify.go:48-53 | one failure per marker, at that line |
| `Verify.TodoResults` | scribe/internal/verify/verify.go:42-54 | one failure per marker over all lines, each pointing at its line's number and text |
| `Verify.CheckLineMarkers` | scribe/internal/verify/verify.go:48-53 | the per-line loop equals its specification |
| `Verify.CheckTodoMarkers` | scribe/internal/verify/verify.go:42-54 | the line loop equals its specification |
| `Verify.CitationResultsShape` | scribe/internal/verify/verify.go:61-70 | one citation result per distinct key, in order, each naming its key |
| `Verify.CheckCitations` | scribe/internal/verify/verify.go:61-70 | the loop checks the de-duplicated keys of the content |
| `Verify.UrlResults` | scribe/internal/verify/verify.go:73-85 | one URL result per extracted URL that is not a GitHub blob URL |
| `Verify.CheckUrl` | scribe/internal/verify/verify.go:79-84 | one URL checked at its line |
| `Verify.CheckUrls` | scribe/internal/verify/verify.go:73-85 | the loop equals the URL specification |
| `Verify.CodeLinkResultsShape` | scribe/internal/verify/verify.go:88-96 | one code-link result per permalink, in order |
| `Verify.CheckCodeLink` | scribe/internal/verify/verify.go:90-95 | one link checked at its line |
| `Verify.CheckCodeLinks` | scribe/internal/verify/verify.go:88-96 | the loop equals the code-link specification |
| `Verify.ClaimCheckShape` | scribe/internal/verify/verify.go:109-124 | a sentence adds at most one result. That result is a failed claim on its line, trimmed, at least 20 bytes long and uncited. A line with a citation adds nothing |
| `Verify.ClaimResultsShape` | scribe/internal/verify/verify.go:99-125 | every reported claim is a failure from a checked line, at least 20 bytes, uncited |
| `Verify.SkippedOrCitedLineAddsNothing` | scribe/internal/verify/verify.go:102-117 | front matter, fences, headers, blank lines and lines with a citation add no claim result |
| `Verify.CheckSentences` | scribe/internal/verify/verify.go:109-124 | the sentence loop equals its specification |
| `Verify.CheckLine` | scribe/internal/verify/verify.go:100-124 | one line's claims checked as specified |
| `Verify.CheckClaims` | scribe/internal/verify/verify.go:99-125 | the line loop equals the claim specification |
| `Verify.VerifyFile` | scribe/internal/verify/verify.go:22-128 | the file's results: markers, then citations, URLs, code links and failed claims, in that order |
| `Verify.FileOutcome` | scribe/internal/verify/verify.go:137-155 | an unreadable file gives one failure; a readable one gives its results |
| `Verify.RunResultsAppend` | scribe/internal/verify/verify.go:131-160 | a run over two lists of files finds what the two runs find |
| `Verify.CheckFiles` | scribe/internal/verify/verify.go:134-156 | every file recorded in order, its results appended |
| `Verify.VerifyFiles` | scribe/internal/verify/verify.go:131-160 | the report lists the files and all results; the summary counts them; the exit code is 1 exactly when something failed |
| `VerifyReport.Summarize` | scribe/internal/verify/report.go:34-63 | the counts are those of the status filters and add up to the total |
| `VerifyReport.SummaryIgnoresOrder` | scribe/internal/verify/report.go:34-63 | the order of the results does not change the summary |
| `VerifyReport.ReportBuilder.AddFile` | scribe/internal/verify/report.go:24-26 | one file appended, results unchanged |
| `VerifyReport.ReportBuilder.AddResult` | scribe/internal/verify/report.go:29-31 | one result appended, files unchanged |
| `VerifyReport.ReportBuilder.Build` | scribe/internal/verify/report.go:34-63 | the report holds what was added, its summary, and exit code 1 exactly when something failed |
| `VerifyReport.FilterByStatus` | scribe/internal/verify/report.go:66-74 | exactly the results with that status, in order |
| `VerifyReport.FilterByType` | scribe/internal/verify/report.go:77-85 | exactly the results of that type, in order |
| `Freshness.RepoAtMatch` | scribe/internal/sweep/freshness.go:13 | a match at a position has a non-empty owner without slashes and a non-empty name of allowed characters, spells its own URL there, and its name stops only at the end or at a character the name group excludes |
| `Freshness.ParseRender` | scribe/internal/sweep/freshness.go:59-65 | parsing a rendered repository URL gives back its owner and repository |
| `Freshness.ExtractRepoURLs` | scribe/internal/sweep/freshness.go:16-27 | the distinct matches in order of first appearance, each one occurring in the text and parsing back to itself |
| `Freshness.RepoFreshness` | scribe/internal/sweep/freshness.go:43-126 | the early returns. Without `gh` it warns; an unparsable URL warns. A failed call is an issue; an archived repository is an issue; bad JSON or a bad push date warns. Otherwise it is an issue exactly when the last push is over two years old, and fine otherwise |
| `Freshness.FreshnessResults` | scribe/internal/sweep/freshness.go:35-38 | one verdict per URL, in order |
| `Freshness.CheckRepoFreshness` | scribe/internal/sweep/freshness.go:31-41 | the loop gives one verdict per distinct repository URL |
| `SweepCodeLinks.StatusMappingInverse` | scribe/internal/sweep/codelinks.go:43-54 | pass, fail and warn map one-to-one onto ok, issue and warning |
| `SweepCodeLinks.LinkVerdict` | scribe/internal/sweep/codelinks.go:24-57 | the verify verdict's status mapped. A valid link gets its own message, any other keeps the verify message. Only a failure suggests a fix |
| `SweepCodeLinks.CodeLinkSweep` | scribe/internal/sweep/codelinks.go:12-22 | one verdict per extracted link, in order |
| `SweepCodeLinks.SweepLinksNeverOK` | scribe/internal/sweep/codelinks.go:41-54 | through the estimating lookup, no code link is ever reported fine |
| `SweepCodeLinks.HeadMessageAsWritten` | scribe/internal/sweep/codelinks.go:76 | the reminder as written exists exactly when the commit has eight characters or more |
| `SweepCodeLinks.HeadReminderPanics` | scribe/internal/sweep/codelinks.go:76 | commit "abc123" makes it panic; otherwise it equals the corrected reminder |
| `SweepCodeLinks.CodeLinksAtHead` | scribe/internal/sweep/codelinks.go:61-87 | one warning per link, in order, suggesting a check at the head and naming the abbreviated commit |
| `Consistency.ClaimConsistency` | scribe/internal/sweep/consistency.go:12-40 | nothing without citations. Otherwise one fine result per distinct key, in first-appearance order, no key twice, every key present; each result is marked for review |
| `Coverage.BlankLineCount` | scribe/internal/sweep/coverage.go:87 | the non-overlapping `\n\n` matches use two characters each |
| `Coverage.JoinParagraphs` | scribe/internal/sweep/coverage.go:29 | joining two texts with a blank line adds exactly one paragraph break |
| `Coverage.DensityRule` | scribe/internal/sweep/coverage.go:31 | the warning fires exactly for six or more paragraphs with fewer citations than a third of them |
| `Coverage.CitationDensity` | scribe/internal/sweep/coverage.go:22-49 | at most one warning, about the file itself |
| `Coverage.TechniqueAt` | scribe/internal/sweep/coverage.go:88 | a technique match is one of the five words, case-folded |
| `Coverage.UnexplainedTechniques` | scribe/internal/sweep/coverage.go:51-83 | every technique counts as explained, so nothing is reported |
| `Coverage.CoverageGaps` | scribe/internal/sweep/coverage.go:10-20 | at most one warning, about the file: more than five paragraphs and fewer citations than a third of them (integer division) |
| `SweepReports.Summarize` | scribe/internal/sweep/report.go:46-70 | the counts are those of the status filters and add up to the total |
| `SweepReports.SummaryIgnoresOrder` | scribe/internal/sweep/report.go:46-70 | the order of the results does not change the summary |
| `SweepReports.RecordedChecks` | scribe/internal/sweep/report.go:31-38 | recording checks one by one, skipping repeats, keeps the distinct checks in first-seen order |
| `SweepReports.SweepReportBuilder.AddFile` | scribe/internal/sweep/report.go:26-28 | one file appended, nothing else changes |
| `SweepReports.SweepReportBuilder.AddCheck` | scribe/internal/sweep/report.go:31-38 | a check is appended unless already recorded |
| `SweepReports.SweepReportBuilder.AddResult` | scribe/internal/sweep/report.go:41-43 | one result appended, nothing else changes |
| `SweepReports.SweepReportBuilder.Build` | scribe/internal/sweep/report.go:46-70 | the report holds what was added and its summary |
| `SweepReports.FilterByStatus` | scribe/internal/sweep/report.go:73-81 | exactly the results with that status, in order |
| `SweepReports.FilterByCheckType` | scribe/internal/sweep/report.go:84-92 | exactly the results of that check, in order |
| `Sweep.DefaultOptions` | scribe/internal/sweep/sweep.go:13-22 | four distinct checks covering every kind |
| `Sweep.ChecksToRun` | scribe/internal/sweep/sweep.go:34-37 | the requested checks, or every kind when none are requested |
| `Sweep.CheckResults` | scribe/internal/sweep/sweep.go:40-49 | each check's results are of that check and that file |
| `Sweep.ContentResults` | scribe/internal/sweep/sweep.go:39-50 | results come only from checks that were run, and from the file |
| `Sweep.ContentResultsAppend` | scribe/internal/sweep/sweep.go:39-50 | running two lists of checks one after another finds what running them together finds |
| `Sweep.SweepFile` | scribe/internal/sweep/sweep.go:25-53 | a read error is returned as is; otherwise the loop gives each check's results in order |
| `Sweep.ReadIssue` | scribe/internal/sweep/sweep.go:71-81 | an unreadable file is an issue targeting the file, with the read error |
| `Sweep.FileSweep` | scribe/internal/sweep/sweep.go:68-88 | one file: its read issue, or its checks' results |
| `Sweep.SweepResultsAppend` | scribe/internal/sweep/sweep.go:68-88 | a sweep over two lists of files finds what the two sweeps find |
| `Sweep.AddChecks` | scribe/internal/sweep/sweep.go:64-66 | the checks are recorded once each, in first-seen order |
| `Sweep.SweepFiles` | scribe/internal/sweep/sweep.go:56-91 | the report lists every file and the distinct checks. Its results are all files' results in order, with an unreadable file not stopping the rest. Its summary counts them |
| `QueueStore.DecodeLines` | scribe/internal/queue/store.go:172-203 | decoding never yields more candidates than lines |
| `QueueStore.DecodePrefixError` | scribe/internal/queue/store.go:191-194 | the first undecodable line ends the read with its error |
| `QueueStore.NoGarbledReads` | scribe/internal/queue/store.go:172-203 | a file with no undecodable line reads successfully |
| `QueueStore.FirstGarbledFails` | scribe/internal/queue/store.go:184-194 | the error names the 1-based number of the first undecodable line |
| `QueueStore.BlankLineIgnored` | scribe/internal/queue/store.go:188-190 | blank lines change nothing |
| `QueueStore.Encode` | scribe/internal/queue/store.go:230-252 | one record line per candidate, in order |
| `QueueStore.ReadAfterWrite` | scribe/internal/queue/store.go:172-252 | reading what was written gives back the same candidates |
| `QueueStore.ReadAfterAppend` | scribe/internal/queue/store.go:206-227 | reading after an append gives the old candidates and then the new one; an unreadable file stays unreadable |
| `QueueStore.FindFirst` | scribe/internal/queue/store.go:71-82 | found exactly when some candidate has the ID, and then the first one |
| `QueueStore.FirstWithId` | scribe/internal/queue/store.go:91-98 | the first index holding the ID |
| `QueueStore.ReplaceFirst` | scribe/internal/queue/store.go:91-98 | only the first entry with the ID is replaced |
| `QueueStore.MatchesExternalId` | scribe/internal/queue/store.go:118-136 | a rejected entry matches exactly when it has the same kind and the same external ID |
| `QueueStore.StatsTotal` | scribe/internal/queue/store.go:155-157 | the total is the number of candidates |
| `QueueStore.StatsByStatus` | scribe/internal/queue/store.go:158-165 | pending, approved and rejected are the status counts |
| `QueueStore.StatsByType` | scribe/internal/queue/store.go:157 | each kind's count is that kind's count in the queue, and a kind has an entry exactly when it occurs |
| `QueueStore.StatsTypeTotal` | scribe/internal/queue/store.go:155-157 | the per-kind counts add up to the total |
| `QueueStore.Store.ReadAll` | scribe/internal/queue/store.go:46-48 | the decoded queue file; a missing file is empty |
| `QueueStore.Store.ReadRejected` | scribe/internal/queue/store.go:51-53 | the decoded rejected file |
| `QueueStore.Store.Append` | scribe/internal/queue/store.go:56-58 | one record appended to the queue; an error exactly when the file cannot be opened |
| `QueueStore.Store.AppendRejected` | scribe/internal/queue/store.go:61-63 | one record appended to the rejected file |
| `QueueStore.Store.WriteAll` | scribe/internal/queue/store.go:66-68 | the queue replaced by the candidates |
| `QueueStore.Store.FindById` | scribe/internal/queue/store.go:71-82 | a read error passed on, else the first candidate with the ID |
| `QueueStore.Store.Update` | scribe/internal/queue/store.go:85-105 | a read error or an unknown ID leaves the queue unchanged; otherwise the first entry with the ID is replaced and the rest kept |
| `QueueStore.Store.IsRejected` | scribe/internal/queue/store.go:109-139 | whether a rejected entry of that kind carries the external ID |
| `QueueStore.Store.GetStats` | scribe/internal/queue/store.go:142-169 | the statistics of the queue |
| `QueueStore.ReadJsonl` | scribe/internal/queue/store.go:172-203 | the line loop equals the decoding specification |
| `Candidates.GenerateId` | scribe/internal/queue/candidates.go:21-23 | "c-" followed by the timestamp |
| `Candidates.Filled` | scribe/internal/queue/candidates.go:27-35 | a missing ID, status or discovery time is filled in (status pending); anything given is kept; nothing else changes |
| `Candidates.AddKeepsIdsUnique` | scribe/internal/queue/candidates.go:26-59 | an accepted add appends the candidate and keeps IDs unique |
| `Candidates.AddRefusesRejected` | scribe/internal/queue/candidates.go:46-56 | a candidate whose external ID was rejected for its kind is refused |
| `Candidates.AddRefusesDuplicate` | scribe/internal/queue/candidates.go:37-44 | a candidate whose ID is queued is refused as a duplicate |
| `Candidates.UnderReview` | scribe/internal/queue/candidates.go:92-101 | approval and rejection apply only to a queued candidate that is pending |
| `Candidates.ReviewChangesOneEntry` | scribe/internal/queue/candidates.go:91-149 | a review rewrites exactly the one pending entry |
| `Candidates.NoFilterKeepsAll` | scribe/internal/queue/candidates.go:62-83 | listing without filters gives the whole queue |
| `Candidates.ListedIff` | scribe/internal/queue/candidates.go:62-83 | a candidate is listed exactly when it is queued and passes both filters |
| `Candidates.CandidateService.Add` | scribe/internal/queue/candidates.go:26-59 | the outcome of the checks in order; the candidate is appended exactly when there is no error |
| `Candidates.CandidateService.List` | scribe/internal/queue/candidates.go:62-83 | the queue filtered by status and kind, or the read error |
| `Candidates.CandidateService.Get` | scribe/internal/queue/candidates.go:86-88 | the first candidate with the ID |
| `Candidates.CandidateService.Approve` | scribe/internal/queue/candidates.go:91-121 | a pending candidate is rewritten as approved; anything else is an error and changes nothing |
| `Candidates.CandidateService.Reject` | scribe/internal/queue/candidates.go:124-149 | a pending candidate is rewritten as rejected and appended to the rejected file |
| `Candidates.CandidateService.Stats` | scribe/internal/queue/candidates.go:152-154 | the store's statistics |
| `Candidates.CandidateService.FindPending` | scribe/internal/queue/candidates.go:92-101 | the lookup equals the pending-candidate specification |
| `Candidates.ExternalIdOf` | scribe/internal/queue/candidates.go:157-173 | the switch equals the external-ID specification |
| `Blocking.TaskCheckpoint.constructor` | scribe/internal/status/checkpoint.go:120-145 | a new checkpoint has no iterations, no cost and no blocked items |
| `Blocking.RemainingMembers` | scribe/internal/status/blocking.go:28-36 | removal keeps exactly the entries for other items |
| `Blocking.RemainingEmpty` | scribe/internal/status/blocking.go:28-36 | nothing remains exactly when every entry was for the removed item |
| `Blocking.RemainingAbsent` | scribe/internal/status/blocking.go:28-36 | removing an item that is not blocked changes nothing |
| `Blocking.RemainingAfterAdd` | scribe/internal/status/blocking.go:18-36 | removing a just-added item undoes the add; removing twice is removing once |
| `Blocking.FirstLongBlocked` | scribe/internal/status/blocking.go:55-59 | the first entry blocked for more than thirty minutes, if any |
| `Blocking.ReviewDecision` | scribe/internal/status/blocking.go:53-74 | review is due exactly when an item is blocked over thirty minutes, or iterations are used up, or a set budget is reached; the reason is non-empty exactly then and names the first rule that fires |
| `Blocking.NoBudgetIgnoresCost` | scribe/internal/status/blocking.go:67-71 | without a budget the cost never decides |
| `Blocking.NoProgressRuleAbsent` | scribe/internal/status/blocking.go:48-74 | with nothing blocked for long, iterations left and no budget, the task is never queued, however long it has stalled |
| `Blocking.BlockingDetector.AddBlockedItem` | scribe/internal/status/blocking.go:18-25 | one entry appended, blocked since now; nothing else changes |
| `Blocking.BlockingDetector.RemoveBlockedItem` | scribe/internal/status/blocking.go:28-36 | the entries for other items, in order; nothing is left exactly when all were for this item |
| `Blocking.BlockingDetector.ShouldQueueForReview` | scribe/internal/status/blocking.go:53-74 | the scan equals the review decision |
| `Format.FormatStatus` | scribe/internal/output/format.go:117-130 | one symbol; "?" exactly for an unknown status |
| `Format.StatusSymbolsDistinct` | scribe/internal/output/format.go:117-130 | the four known statuses have distinct symbols |
| `Format.FormatCount` | scribe/internal/output/format.go:133-138 | the count in decimal, a space, then the singular exactly for one |
| `Format.FormatCountReadBack` | scribe/internal/output/format.go:133-138 | the count can be read back from the front of the label |
| `Format.ProgressBar` | scribe/internal/output/format.go:146-156 | `width` cells, filled ones first. With no total all are empty. It panics exactly when the filled share is negative |
| `Format.ProgressBarInRange` | scribe/internal/output/format.go:146-156 | for progress between 0 and the total the bar exists; empty at 0, full at the total |
| `Format.ProgressBarNegative` | scribe/internal/output/format.go:150-155 | a share truncating below zero makes `strings.Repeat` panic |
| `Format.DurationParts` | scribe/internal/output/format.go:70-88 | the unit ranges of the three branches; a zero second or minute part is left out; the parts rebuild the duration up to the last unit shown |
| `Format.Render` | scribe/internal/output/format.go:72-87 | the text ends with the unit of its last part |

## Left out

- External tools and services are not modelled; each is replaced by a parameter holding its
  answers:
  - `bip`, `gh`, the HTTP client, `claude`/`ollama` and the file system;
  - the clock (`time.Now`), the UUIDs and the `GenerateID` timestamp (a `now` or `stamp`
    parameter).
- Llm.AnalyzeClaimSpec: JSON decoding of the model's answer is a parameter (`decode`), not a
  JSON parser.
- Floating point is not modelled:
  - costs (`EstimatedCostUSD`, `CostBudgetUSD`) are whole cents;
  - ages are nanoseconds;
  - the density ratio detail is left out.
- `fmt.Sprintf` texts are not modelled. Messages are constructors that carry their
  arguments.
- Freshness.RepoFreshness: the rounded day and year counts in its messages are left out.
- Format.ProgressBar: Go's 64-bit `int` overflow of `current * width` is not modelled.
- Format.DurationParts: the float conversion of `Seconds()`/`Minutes()`/`Hours()` is taken
  as exact truncation.
- The regular-expression engine is not modelled. Each pattern is replaced by a hand-written
  matcher for that pattern:
  - leftmost, non-overlapping matches for `FindAllString`;
  - the claim tables as the union of their alternatives, for `MatchString`.
- `triggerBipartiteAdd` is left out (candidates.go:176-203). It runs `bip` after an approval
  and only logs its error, so it does not change any result.
- Errors while writing the queue after a successful read are not distinguished from success.
- The `os.ErrNotExist` branches that the store already turns into an empty list are not
  modelled separately.
- `NewStore`'s paths and directory creation are not part of this model.
- Scanner errors in `VerifyFile` are not modelled. A file that reads has lines.
- QueueStore.NoGarbledReads: holds over lines already split. `readJSONL` never calls
  `scanner.Buffer` (store.go:182), so a record line longer than 64 KiB makes `scanner.Err()`
  fail the read (store.go:197-199); the model has no line length, so it reads such a file.
- QueueStore.ReadAfterAppend: holds over lines already split. `appendJSONL` writes the record
  and a line feed after whatever the file holds (store.go:220); when the file's last line has
  no line feed, the record is glued onto it, that line no longer decodes, and every later read
  fails. The model has no unterminated last line.
- Blocking.ReviewDecision: the doc comment of `ShouldQueueForReview` (blocking.go:48-52) lists
  a third trigger, no progress in the last three iterations, which the code (blocking.go:53-74)
  does not implement. The model follows the code; `Blocking.NoProgressRuleAbsent` states the
  consequence.
- Candidate kinds, statuses and check types are closed enumerations:
  - an unknown check name, which the Go `switch` skips, cannot be written;
  - an unknown status, which Go's statistics skip, cannot be written.
- `CheckedAt`, `ReportID`, `CheckID` and the source `Line` of results are left out.
- `GetBlockedItems` is a plain field read.
- Left out of the status package: checkpoint persistence, logging, display and commit
  handling.
- Left out of the output package: the writer methods, `FormatTime`, `FormatTimeSince`,
  colours and `FormatCurrency`.
- The command-line entry point is not part of this model.

## Findings

| source | as written | input that shows it | evidently intended | confidence | as-written member | corrected member |
|---|---|---|---|---|---|---|
| scribe/internal/verify/codelinks.go:117 | the missing-file message slices `CommitSHA[:8]` | a permalink with commit `abc123`, which the pattern `[a-f0-9]+` accepts; the file is missing at that commit | name the commit by at most its first eight characters | not executed | `CodeLinks.ShortShaPanics` | `CodeLinks.Abbrev` |
| scribe/internal/sweep/codelinks.go:76 | the at-head reminder slices `CommitSHA[:8]` for every link | any permalink with commit `abc123` in swept content | name the commit by at most its first eight characters | not executed | `SweepCodeLinks.HeadReminderPanics` | `SweepCodeLinks.CodeLinksAtHead` |
