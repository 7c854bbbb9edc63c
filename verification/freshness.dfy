/**
 * Repository freshness: the GitHub repository URLs of a document, and for each one a
 * verdict from `gh`'s answer about the repository (archived, or not pushed to for over
 * two years).
 */
module Freshness {
  import opened Results
  import opened Text
  import opened SweepTypes
  import Seqs

  const RepoPrefix: string := "https://github.com/"

  /** The owner group `[^/]+`. */
  predicate IsOwnerChar(c: char) { c != '/' }

  /** The repository group `[^/\s#)]+`. */
  predicate IsRepoChar(c: char) { c != '/' && !IsRegexSpace(c) && c != '#' && c != ')' }

  /** The two groups of a repository URL. */
  datatype RepoRef = RepoRef(owner: string, repo: string)

  predicate WellFormed(r: RepoRef) {
    r.owner != [] && r.repo != [] && All(r.owner, IsOwnerChar) && All(r.repo, IsRepoChar)
  }

  function RepoUrl(r: RepoRef): string {
    UrlWith(RepoPrefix, r)
  }

  /** The text of a match after any literal prefix: the prefix, the owner, a slash and the name. */
  function UrlWith(prefix: string, r: RepoRef): string {
    prefix + r.owner + "/" + r.repo
  }

  /**
   * The pattern `https://github\.com/([^/]+)/([^/\s#)]+)` at position `i`. The owner runs
   * to the next '/', and the repository name is as long as it can be.
   */
  function RepoAt(s: string, i: int): Option<RepoRef>
    requires 0 <= i <= |s|
  {
    MatchWith(s, i, RepoPrefix)
  }

  /** The two groups after a literal prefix at position `i`, matched as `RepoAt` matches them. */
  function MatchWith(s: string, i: int, prefix: string): Option<RepoRef>
    requires 0 <= i <= |s|
  {
    if !At(s, i, prefix) then None
    else
      var start := i + |prefix|;
      var o := RunLen(s, start, IsOwnerChar);
      var slash := start + o;
      if o == 0 || slash == |s| then None
      else
        var n := RunLen(s, slash + 1, IsRepoChar);
        if n == 0 then None
        else Some(RepoRef(s[start..slash], s[slash + 1..slash + 1 + n]))
  }

  /** A match is well formed, spells its own URL, and its name runs to the first excluded character. */
  lemma RepoAtMatch(s: string, i: int)
    requires 0 <= i <= |s|
    ensures var r := RepoAt(s, i);
      r.Some? ==> WellFormed(r.value) && At(s, i, RepoUrl(r.value))
                  && (i + |RepoUrl(r.value)| == |s| || !IsRepoChar(s[i + |RepoUrl(r.value)|]))
  {
    if RepoAt(s, i).Some? {
      MatchWithFacts(s, i, RepoPrefix);
    }
  }

  /** `RepoAtMatch` for any literal prefix. */
  lemma MatchWithFacts(s: string, i: int, prefix: string)
    requires 0 <= i <= |s| && MatchWith(s, i, prefix).Some?
    ensures var r := MatchWith(s, i, prefix).value;
      && WellFormed(r) && At(s, i, UrlWith(prefix, r))
      && (i + |UrlWith(prefix, r)| == |s| || !IsRepoChar(s[i + |UrlWith(prefix, r)|]))
  {
    var start := i + |prefix|;
    var o := RunLen(s, start, IsOwnerChar);
    var n := RunLen(s, start + o + 1, IsRepoChar);
    Matched(s, i, prefix, o, n, MatchWith(s, i, prefix).value);
  }

  /** The prefix, an owner run, a slash and a maximal name run in a row form a match. */
  lemma Matched(s: string, i: int, prefix: string, o: int, n: int, r: RepoRef)
    requires 0 <= i && At(s, i, prefix) && 0 < o && 0 < n && i + |prefix| + o + 1 + n <= |s|
    requires forall k :: i + |prefix| <= k < i + |prefix| + o ==> IsOwnerChar(s[k])
    requires s[i + |prefix| + o] == '/'
    requires forall k :: i + |prefix| + o + 1 <= k < i + |prefix| + o + 1 + n ==> IsRepoChar(s[k])
    requires i + |prefix| + o + 1 + n == |s| || !IsRepoChar(s[i + |prefix| + o + 1 + n])
    requires r == RepoRef(s[i + |prefix|..i + |prefix| + o], s[i + |prefix| + o + 1..i + |prefix| + o + 1 + n])
    ensures WellFormed(r) && At(s, i, UrlWith(prefix, r))
    ensures i + |UrlWith(prefix, r)| == |s| || !IsRepoChar(s[i + |UrlWith(prefix, r)|])
  {
    var start := i + |prefix|;
    var slash := start + o;
    var end := slash + 1 + n;
    assert s[i..end] == s[i..start] + r.owner + [s[slash]] + r.repo;
    RunSlice(s, start, o, IsOwnerChar);
    RunSlice(s, slash + 1, n, IsRepoChar);
  }

  /** A repository URL parses back into its own owner and repository name. */
  lemma ParseRender(r: RepoRef)
    requires WellFormed(r)
    ensures RepoAt(RepoUrl(r), 0) == Some(r)
  {
    ParseRenderWith(RepoPrefix, r);
  }

  /** `ParseRender` for any literal prefix. */
  lemma ParseRenderWith(prefix: string, r: RepoRef)
    requires WellFormed(r)
    ensures MatchWith(UrlWith(prefix, r), 0, prefix) == Some(r)
  {
    var u := UrlWith(prefix, r);
    var start := |prefix|;
    var slash := start + |r.owner|;
    assert At(u, 0, prefix) by {
      assert u[..start] == prefix;
    }
    RunsOfUrl(prefix, r);
    assert u[start..slash] == r.owner;
    assert u[slash + 1..|u|] == r.repo;
  }

  /** In a rendered URL, the owner run and the name run are exactly the owner and the name. */
  lemma RunsOfUrl(prefix: string, r: RepoRef)
    requires WellFormed(r)
    ensures var u := UrlWith(prefix, r);
      && |u| == |prefix| + |r.owner| + 1 + |r.repo|
      && RunLen(u, |prefix|, IsOwnerChar) == |r.owner|
      && RunLen(u, |prefix| + |r.owner| + 1, IsRepoChar) == |r.repo|
  {
    var u := UrlWith(prefix, r);
    var start := |prefix|;
    var slash := start + |r.owner|;
    forall k | start <= k < slash ensures IsOwnerChar(u[k]) {
      assert u[k] == r.owner[k - start];
    }
    assert u[slash] == '/';
    RunLenExact(u, start, |r.owner|, IsOwnerChar);
    forall k | slash + 1 <= k < |u| ensures IsRepoChar(u[k]) {
      assert u[k] == r.repo[k - slash - 1];
    }
    RunLenExact(u, slash + 1, |r.repo|, IsRepoChar);
  }

  /** The pattern's successive leftmost matches from position `i` on (`FindAllString`). */
  function RepoMatchesFrom(s: string, i: int): (r: seq<string>)
    requires 0 <= i <= |s|
    ensures forall u :: u in r ==> Contains(s, u) && RepoAt(u, 0).Some? && RepoUrl(RepoAt(u, 0).value) == u
    decreases |s| - i
  {
    if i == |s| then []
    else match RepoAt(s, i)
      case Some(ref) =>
        RepoAtMatch(s, i);
        ParseRender(ref);
        [RepoUrl(ref)] + RepoMatchesFrom(s, i + |RepoUrl(ref)|)
      case None => RepoMatchesFrom(s, i + 1)
  }

  function RepoMatches(content: string): seq<string> {
    RepoMatchesFrom(content, 0)
  }

  /** `ExtractRepoURLs`: the distinct matches in order of first appearance, through a `seen` set. */
  method ExtractRepoURLs(content: string) returns (urls: seq<string>)
    ensures urls == Seqs.Dedup(RepoMatches(content))
    ensures Seqs.NoDuplicates(urls)
    ensures forall u :: u in urls ==> Contains(content, u) && RepoAt(u, 0).Some? && RepoUrl(RepoAt(u, 0).value) == u
  {
    var matches := RepoMatches(content);
    var seen: set<string> := {};
    urls := [];
    var i := 0;
    while i < |matches|
      invariant 0 <= i <= |matches|
      invariant urls == Seqs.Dedup(matches[..i])
      invariant forall u :: u in seen <==> u in urls
    {
      assert matches[..i + 1] == matches[..i] + [matches[i]];
      var url := matches[i];
      if url !in seen {
        seen := seen + {url};
        urls := urls + [url];
      }
      i := i + 1;
    }
    assert matches[..i] == matches;
  }

  // ---------------------------------------------------------------- one repository

  /** Nanoseconds, the unit of Go's durations. */
  const Hour: int := 3600 * 1000000000

  /** `StaleThreshold`: two years of 365 days. */
  const StaleThreshold: int := 2 * 365 * 24 * Hour

  /**
   * What `gh api repos/<owner>/<repo>` did: failed with its stderr, printed something that
   * is not JSON, or printed the repository's `archived` flag and `pushed_at`, the latter
   * read as an RFC 3339 instant in nanoseconds or the parse error.
   */
  datatype GhRepoAnswer = GhRepoFailed(stderr: string) | GhRepoBadJson(err: string) | GhRepoInfo(archived: bool, pushedAt: Result<int, string>)

  function RepoApiPath(r: RepoRef): string {
    "repos/" + r.owner + "/" + r.repo
  }

  /**
   * `checkSingleRepoFreshness`: the ladder of early returns over whether `gh` is installed,
   * whether the URL parses, and `gh`'s answer; `now` is the clock's reading. Without `gh`
   * the verdict is a warning. For a URL that parses, a failed call or an archived
   * repository is an issue (whatever the push date), unreadable output or push date a
   * warning, and otherwise the verdict is an issue exactly when the last push is more
   * than two years old, and fine otherwise.
   */
  function RepoFreshness(url: string, file: string, ghOnPath: bool, gh: string -> GhRepoAnswer, now: int): (r: SweepResult)
    ensures r.checkType == RepoFreshnessCheck && r.target == url && r.file == file
    ensures !ghOnPath ==> r.status == Warning && r.message == GhMissing
    ensures ghOnPath && RepoAt(url, 0).None? ==> r.status == Warning && r.message == UnparsableRepoUrl
    ensures ghOnPath && RepoAt(url, 0).Some? ==>
      var a := gh(RepoApiPath(RepoAt(url, 0).value));
      && (a.GhRepoFailed? ==> r.status == Issue && r.message == FetchFailed(a.stderr))
      && (a.GhRepoBadJson? ==> r.status == Warning)
      && (a.GhRepoInfo? && a.archived ==> r.status == Issue && r.message == RepoArchived)
      && (a.GhRepoInfo? && !a.archived && a.pushedAt.Err? ==> r.status == Warning)
      && (a.GhRepoInfo? && !a.archived && a.pushedAt.Ok? ==>
            (r.status == Issue <==> now - a.pushedAt.value > StaleThreshold)
            && (r.status == OK <==> now - a.pushedAt.value <= StaleThreshold))
  {
    var base := SweepResult(RepoFreshnessCheck, OK, url, file, GhMissing, NoDetails, None);
    if !ghOnPath then base.(status := Warning, message := GhMissing)
    else
      var parsed := RepoAt(url, 0);
      if parsed.None? then base.(status := Warning, message := UnparsableRepoUrl)
      else
        match gh(RepoApiPath(parsed.value))
        case GhRepoFailed(stderr) => base.(status := Issue, message := FetchFailed(stderr))
        case GhRepoBadJson(err) => base.(status := Warning, message := RepoInfoUnparsable(err))
        case GhRepoInfo(archived, pushedAt) =>
          if archived then base.(status := Issue, message := RepoArchived, fix := Some(FindActiveFork), details := ArchivedDetails)
          else if pushedAt.Err? then base.(status := Warning, message := PushDateUnparsable(pushedAt.error))
          else
            var age := now - pushedAt.value;
            if age > StaleThreshold then
              base.(status := Issue, message := NotUpdatedFor(age), fix := Some(FindActiveAlternative),
                    details := StaleDetails(pushedAt.value, GoDiv(age, 24 * Hour)))
            else base.(status := OK, message := UpdatedAgo(age), details := FreshDetails(pushedAt.value))
  }

  /** One verdict per URL, in order. */
  function FreshnessResults(urls: seq<string>, file: string, ghOnPath: bool, gh: string -> GhRepoAnswer, now: int)
    : (r: seq<SweepResult>)
    ensures |r| == |urls|
    ensures forall k :: 0 <= k < |urls| ==> r[k] == RepoFreshness(urls[k], file, ghOnPath, gh, now)
    decreases |urls|
  {
    if urls == [] then []
    else FreshnessResults(urls[..|urls| - 1], file, ghOnPath, gh, now) + [RepoFreshness(urls[|urls| - 1], file, ghOnPath, gh, now)]
  }

  /** The freshness verdicts of a document: one per distinct repository URL, in order of first appearance. */
  function RepoFreshnessOf(content: string, file: string, ghOnPath: bool, gh: string -> GhRepoAnswer, now: int): seq<SweepResult> {
    FreshnessResults(Seqs.Dedup(RepoMatches(content)), file, ghOnPath, gh, now)
  }

  /** `CheckRepoFreshness`: the URLs extracted, then one verdict appended per URL. */
  method CheckRepoFreshness(content: string, file: string, ghOnPath: bool, gh: string -> GhRepoAnswer, now: int)
    returns (results: seq<SweepResult>)
    ensures results == RepoFreshnessOf(content, file, ghOnPath, gh, now)
    ensures |results| == |Seqs.Dedup(RepoMatches(content))|
  {
    var urls := ExtractRepoURLs(content);
    results := [];
    var i := 0;
    while i < |urls|
      invariant 0 <= i <= |urls|
      invariant results == FreshnessResults(urls[..i], file, ghOnPath, gh, now)
    {
      assert urls[..i + 1][..i] == urls[..i];
      results := results + [RepoFreshness(urls[i], file, ghOnPath, gh, now)];
      i := i + 1;
    }
    assert urls[..i] == urls;
  }
}
