/**
 * GitHub permalinks: finding `https://github.com/<owner>/<repo>/blob/<sha>/<path>#L<n>[-L<m>]`
 * links in a document and checking, through the `gh` tool, that the file exists at that
 * commit and that the line range fits in it.
 */
module CodeLinks {
  import opened Results
  import opened Text
  import opened VerifyTypes

  const GithubPrefix: string := "https://github.com/"

  /** Characters of an owner or repository segment: `[^/]`. */
  predicate IsSegmentChar(c: char) { c != '/' }

  /** Characters of a commit hash: `[a-f0-9]`. */
  predicate IsShaChar(c: char) { ('a' <= c <= 'f') || IsDigit(c) }

  /** Characters of a file path: `[^#]`. */
  predicate IsPathChar(c: char) { c != '#' }

  /** The capture groups of one match of the permalink pattern; `endDigits` is empty when the `-L<m>` part is absent. */
  datatype Permalink = Permalink(owner: string, repo: string, sha: string, path: string, startDigits: string, endDigits: string)

  /** What the groups of a match must look like. */
  predicate WellFormed(p: Permalink) {
    && p.owner != [] && All(p.owner, IsSegmentChar)
    && p.repo != [] && All(p.repo, IsSegmentChar)
    && p.sha != [] && All(p.sha, IsShaChar)
    && p.path != [] && All(p.path, IsPathChar)
    && p.startDigits != [] && All(p.startDigits, IsDigit)
    && All(p.endDigits, IsDigit)
  }

  /** One group of the pattern followed by a literal: `([^/]+)/`, `([a-f0-9]+)/`, ... */
  datatype Step = Step(group: char -> bool, lit: string)

  /** The groups for owner, repository, commit and path, with what follows each. */
  const HeadSteps: seq<Step> :=
    [Step(IsSegmentChar, "/"), Step(IsSegmentChar, "/blob/"), Step(IsShaChar, "/"), Step(IsPathChar, "#L")]

  /** The groups, each followed by its step's literal. */
  function Joined(groups: seq<string>, steps: seq<Step>): string
    requires |groups| == |steps|
  {
    if groups == [] then [] else groups[0] + steps[0].lit + Joined(groups[1..], steps[1..])
  }

  /** The text of a match up to its start line: everything before the digits. */
  function HeadText(p: Permalink): string {
    GithubPrefix + Joined([p.owner, p.repo, p.sha, p.path], HeadSteps)
  }

  /** The optional `-L<m>` part. */
  function EndText(endDigits: string): string {
    if endDigits == [] then [] else "-L" + endDigits
  }

  /** The text of the whole match, put back together from its groups. */
  function Render(p: Permalink): string {
    HeadText(p) + p.startDigits + EndText(p.endDigits)
  }

  /**
   * A non-empty greedy group of `p` characters at `j` followed by `lit`: the group's
   * length, or 0 when the run is empty or `lit` does not follow it.
   */
  function GroupThen(s: string, j: int, p: char -> bool, lit: string): (n: nat)
    requires 0 <= j <= |s|
    ensures n > 0 ==> j + n + |lit| <= |s| && All(s[j..j + n], p) && At(s, j + n, lit)
  {
    var r := RunLen(s, j, p);
    if r > 0 && At(s, j + r, lit) then RunSlice(s, j, r, p); r else 0
  }

  /**
   * The groups of `steps` matched one after another from `j`, each the longest non-empty
   * run of its characters and followed by its literal.
   */
  function StepsAt(s: string, j: int, steps: seq<Step>): (r: Option<seq<string>>)
    requires 0 <= j <= |s|
    ensures r.Some? ==> |r.value| == |steps| && At(s, j, Joined(r.value, steps))
    ensures r.Some? ==> forall k :: 0 <= k < |steps| ==> r.value[k] != [] && All(r.value[k], steps[k].group)
    decreases |steps|
  {
    if steps == [] then Some([])
    else
      var n := GroupThen(s, j, steps[0].group, steps[0].lit);
      if n == 0 then None
      else
        match StepsAt(s, j + n + |steps[0].lit|, steps[1..])
        case None => None
        case Some(rest) =>
          StepsCons(s, j, n, steps, rest);
          Some([s[j..j + n]] + rest)
  }

  /** A first group and its literal, then the groups of the remaining steps, match all the steps. */
  lemma StepsCons(s: string, j: int, n: nat, steps: seq<Step>, rest: seq<string>)
    requires 0 <= j && 0 < n && |steps| > 0 && j + n + |steps[0].lit| <= |s|
    requires All(s[j..j + n], steps[0].group) && At(s, j + n, steps[0].lit)
    requires |rest| == |steps| - 1 && At(s, j + n + |steps[0].lit|, Joined(rest, steps[1..]))
    requires forall k :: 0 <= k < |rest| ==> rest[k] != [] && All(rest[k], steps[1..][k].group)
    ensures var groups := [s[j..j + n]] + rest;
      && At(s, j, Joined(groups, steps))
      && forall k :: 0 <= k < |steps| ==> groups[k] != [] && All(groups[k], steps[k].group)
  {
    var groups := [s[j..j + n]] + rest;
    assert groups[1..] == rest;
    AtConcat(s, j, s[j..j + n], steps[0].lit);
    AtConcat(s, j, s[j..j + n] + steps[0].lit, Joined(rest, steps[1..]));
    forall k | 0 <= k < |steps| ensures groups[k] != [] && All(groups[k], steps[k].group) {
      if k > 0 {
        assert groups[k] == rest[k - 1] && steps[k] == steps[1..][k - 1];
      }
    }
  }

  /**
   * The part of a match before the start line, at `i`: the prefix, then owner, repository,
   * commit and path. The groups come back in a link whose line digits are still empty.
   */
  function HeadAt(s: string, i: int): (r: Option<Permalink>)
    requires 0 <= i <= |s|
    ensures r.Some? ==> r.value.startDigits == [] && r.value.endDigits == []
    ensures r.Some? ==> At(s, i, HeadText(r.value))
    ensures r.Some? ==> && r.value.owner != [] && All(r.value.owner, IsSegmentChar)
                        && r.value.repo != [] && All(r.value.repo, IsSegmentChar)
    ensures r.Some? ==> && r.value.sha != [] && All(r.value.sha, IsShaChar)
                        && r.value.path != [] && All(r.value.path, IsPathChar)
  {
    if !At(s, i, GithubPrefix) then None
    else
      match StepsAt(s, i + |GithubPrefix|, HeadSteps)
      case None => None
      case Some(g) =>
        var p := Permalink(g[0], g[1], g[2], g[3], [], []);
        assert [p.owner, p.repo, p.sha, p.path] == g;
        AtConcat(s, i, GithubPrefix, Joined(g, HeadSteps));
        Some(p)
  }

  /**
   * The match of the permalink pattern starting exactly at `i`, if any. Every group is
   * greedy and is followed by a character it cannot contain, so the match is unique: each
   * group is the longest run of its characters, and the optional `-L<m>` is taken when
   * present.
   */
  function PermalinkAt(s: string, i: int): (r: Option<Permalink>)
    requires 0 <= i <= |s|
    ensures r.Some? ==> WellFormed(r.value) && At(s, i, Render(r.value))
  {
    match HeadAt(s, i)
    case None => None
    case Some(head) =>
      var e := i + |HeadText(head)|;
      var n := GroupThen(s, e, IsDigit, "");
      if n == 0 then None
      else
        var f := e + n;
        var m := if At(s, f, "-L") then GroupThen(s, f + 2, IsDigit, "") else 0;
        Some(WithLines(s, i, head, e, n, m))
  }

  /**
   * The head of a match completed with its line digits: the start digits at `e`, and the
   * end digits after "-L" when there are any.
   */
  function WithLines(s: string, i: int, head: Permalink, e: int, n: nat, m: nat): (p: Permalink)
    requires At(s, i, HeadText(head)) && e == i + |HeadText(head)|
    requires head.owner != [] && All(head.owner, IsSegmentChar) && head.repo != [] && All(head.repo, IsSegmentChar)
    requires head.sha != [] && All(head.sha, IsShaChar) && head.path != [] && All(head.path, IsPathChar)
    requires 0 < n && e + n <= |s| && All(s[e..e + n], IsDigit)
    requires m > 0 ==> At(s, e + n, "-L") && e + n + 2 + m <= |s| && All(s[e + n + 2..e + n + 2 + m], IsDigit)
    ensures WellFormed(p) && At(s, i, Render(p))
  {
    var f := e + n;
    var p := head.(startDigits := s[e..f], endDigits := if m > 0 then s[f + 2..f + 2 + m] else []);
    assert HeadText(p) == HeadText(head);
    if m > 0 then
      AtConcat(s, f, "-L", p.endDigits);
      AtRender(s, i, p);
      p
    else
      AtRender(s, i, p);
      p
  }

  /** A match is its head, its start digits and its "-L" part, one after another. */
  lemma AtRender(s: string, i: int, p: Permalink)
    requires At(s, i, HeadText(p))
    requires At(s, i + |HeadText(p)|, p.startDigits)
    requires p.endDigits != [] ==> At(s, i + |HeadText(p)| + |p.startDigits|, "-L" + p.endDigits)
    ensures At(s, i, Render(p))
  {
    AtConcat(s, i, HeadText(p), p.startDigits);
    if p.endDigits != [] {
      AtConcat(s, i, HeadText(p) + p.startDigits, EndText(p.endDigits));
    } else {
      assert Render(p) == HeadText(p) + p.startDigits;
    }
  }

  /** The permalink matched at the start of `t`, if any. */
  function PermalinkStart(t: string): Option<Permalink> { PermalinkAt(t, 0) }

  /** The length of the text a matched permalink spans. */
  function RenderSize(p: Permalink): nat { |Render(p)| }

  /**
   * `FindAllStringSubmatch` with the permalink pattern: the successive leftmost matches, in
   * order. Each is well formed and occurs in the content; there is none exactly when the
   * pattern matches at no position; and the first is the leftmost match, taken whole, after
   * which the search resumes at its end.
   */
  function Permalinks(content: string): (r: seq<Permalink>)
    ensures forall p :: p in r ==> WellFormed(p) && Contains(content, Render(p))
    ensures r == [] <==> forall k :: 0 <= k < |content| ==> !MatchStarts(content[k..], PermalinkStart, RenderSize)
    ensures forall j :: FirstMatchAt(content, j, PermalinkStart, RenderSize) ==>
      r == [PermalinkStart(content[j..]).value]
        + Scan(content[j + MatchSize(content[j..], PermalinkStart, RenderSize)..], PermalinkStart, RenderSize)
  {
    PermalinksSound(content);
    ScanEmpty(content, PermalinkStart, RenderSize);
    ScanFirstAll(content, PermalinkStart, RenderSize);
    Scan(content, PermalinkStart, RenderSize)
  }

  /** Every permalink found is well formed and occurs in the content. */
  lemma PermalinksSound(content: string)
    ensures forall p :: p in Scan(content, PermalinkStart, RenderSize) ==> WellFormed(p) && Contains(content, Render(p))
  {
    forall x | MatchStarts(x, PermalinkStart, RenderSize)
      ensures WellFormed(PermalinkStart(x).value) && HasPrefix(x, Render(PermalinkStart(x).value))
    {
    }
    ScanSound(content, PermalinkStart, RenderSize, WellFormed, Render);
  }

  /** Every permalink found is well formed. */
  lemma PermalinksWellFormed(content: string)
    ensures forall k :: 0 <= k < |Scan(content, PermalinkStart, RenderSize)| ==>
      WellFormed(Scan(content, PermalinkStart, RenderSize)[k])
  {
    PermalinksSound(content);
    var ms := Scan(content, PermalinkStart, RenderSize);
    forall k | 0 <= k < |ms| ensures WellFormed(ms[k]) {
      assert ms[k] in ms;
    }
  }

  /** The parsed link, with the line numbers read by `strconv.Atoi`. */
  datatype CodeLinkMatch = CodeLinkMatch(
    fullUrl: string,
    owner: string,
    repo: string,
    commitSha: string,
    filePath: string,
    startLine: int,
    endLine: int)

  /** One match turned into a link; without `-L<m>` the range is the single start line. */
  function ToLink(p: Permalink): CodeLinkMatch
    requires WellFormed(p)
  {
    var start := Atoi(p.startDigits);
    CodeLinkMatch(Render(p), p.owner, p.repo, p.sha, p.path, start,
      if p.endDigits == [] then start else Atoi(p.endDigits))
  }

  /** The links of a document: one per match of the permalink pattern, in order. */
  function LinksOf(content: string): (r: seq<CodeLinkMatch>)
    ensures |r| == |Permalinks(content)|
  {
    PermalinksWellFormed(content);
    var ms := Scan(content, PermalinkStart, RenderSize);
    seq(|ms|, k requires 0 <= k < |ms| => ToLink(ms[k]))
  }

  /** A link's URL is a match found in the content, and its commit is a non-empty run of hash characters. */
  predicate LinkFromContent(content: string, l: CodeLinkMatch) {
    && Contains(content, l.fullUrl)
    && HasPrefix(l.fullUrl, GithubPrefix)
    && l.commitSha != [] && All(l.commitSha, IsShaChar)
    && 0 <= l.startLine <= MaxInt64 && 0 <= l.endLine <= MaxInt64
  }

  /** Every link of a document points at a GitHub file at a commit, with line numbers in the range of an int64. */
  lemma LinksOfShape(content: string)
    ensures forall l :: l in LinksOf(content) ==> LinkFromContent(content, l)
  {
    PermalinksSound(content);
    var ms := Scan(content, PermalinkStart, RenderSize);
    var links := LinksOf(content);
    forall l | l in links
      ensures LinkFromContent(content, l)
    {
      var k :| 0 <= k < |links| && links[k] == l;
      assert ms[k] in ms;
      RenderShape(ms[k]);
    }
  }

  /**
   * `ExtractCodeLinks`: one link per match, in order. Each link's URL is the match, its
   * parts are the groups, its lines are the numbers read from the anchor; the end line is
   * the start line when the anchor names one line, and is not compared with it otherwise.
   */
  method ExtractCodeLinks(content: string) returns (links: seq<CodeLinkMatch>)
    ensures links == LinksOf(content)
    ensures forall l :: l in links ==> LinkFromContent(content, l)
  {
    var matches := Scan(content, PermalinkStart, RenderSize);
    PermalinksWellFormed(content);
    links := ToLinks(matches);
    LinksOfShape(content);
  }

  /** The loop of `ExtractCodeLinks`: each match turned into a link, in order. */
  method ToLinks(matches: seq<Permalink>) returns (links: seq<CodeLinkMatch>)
    requires forall k :: 0 <= k < |matches| ==> WellFormed(matches[k])
    ensures |links| == |matches|
    ensures forall k :: 0 <= k < |matches| ==> links[k] == ToLink(matches[k])
  {
    links := [];
    var i := 0;
    while i < |matches|
      invariant 0 <= i <= |matches| && |links| == i
      invariant forall k :: 0 <= k < i ==> links[k] == ToLink(matches[k])
    {
      links := links + [ToLink(matches[i])];
      i := i + 1;
    }
  }

  /** A one-line anchor gives a one-line range. */
  lemma SingleLineAnchor(p: Permalink)
    requires WellFormed(p) && p.endDigits == []
    ensures ToLink(p).endLine == ToLink(p).startLine
  {
  }

  /** A reversed range such as `#L20-L10` is taken as written: start 20, end 10. */
  lemma ReversedRangeKept()
    ensures var l := ToLink(Permalink("owner", "repo", "abc123", "file.go", "20", "10"));
      l.startLine == 20 && l.endLine == 10
  {
    assert DecimalValue("20") == 20 by { assert "20"[..1] == "2"; }
    assert DecimalValue("10") == 10 by { assert "10"[..1] == "1"; }
  }

  /** Every match starts with the prefix and carries "/blob/" after owner and repository. */
  lemma RenderShape(p: Permalink)
    ensures HasPrefix(Render(p), GithubPrefix)
    ensures At(Render(p), |GithubPrefix| + |p.owner| + 1 + |p.repo|, "/blob/")
  {
    var g := [p.owner, p.repo, p.sha, p.path];
    var j2 := Joined(g[1..], HeadSteps[1..]);
    var j3 := Joined(g[2..], HeadSteps[2..]);
    assert g[1..][1..] == g[2..];
    assert HeadSteps[1..][1..] == HeadSteps[2..];
    assert j2 == p.repo + "/blob/" + j3;
    assert Joined(g, HeadSteps) == p.owner + "/" + j2;
    AtAppend(p.repo, "/blob/");
    AtExtend(p.repo + "/blob/", |p.repo|, "/blob/", j3);
    AtAppend(p.owner + "/", j2);
    AtWithin(p.owner + "/" + j2, |p.owner| + 1, j2, |p.repo|, "/blob/");
    AtAppend(GithubPrefix, Joined(g, HeadSteps));
    AtWithin(HeadText(p), |GithubPrefix|, Joined(g, HeadSteps), |p.owner| + 1 + |p.repo|, "/blob/");
    AtExtend(HeadText(p), 0, GithubPrefix, p.startDigits);
    AtExtend(HeadText(p) + p.startDigits, 0, GithubPrefix, EndText(p.endDigits));
    AtExtend(HeadText(p), |GithubPrefix| + |p.owner| + 1 + |p.repo|, "/blob/", p.startDigits);
    AtExtend(HeadText(p) + p.startDigits, |GithubPrefix| + |p.owner| + 1 + |p.repo|, "/blob/", EndText(p.endDigits));
  }

  /** Every text holding a permalink holds "/blob/". */
  lemma LinkHasBlob(s: string, p: Permalink)
    requires Contains(s, Render(p))
    ensures Contains(s, "/blob/")
  {
    var j :| 0 <= j <= |s| && At(s, j, Render(p));
    var k := j + |GithubPrefix| + |p.owner| + 1 + |p.repo|;
    RenderShape(p);
    AtWithin(s, j, Render(p), |GithubPrefix| + |p.owner| + 1 + |p.repo|, "/blob/");
    assert 0 <= k <= |s| && At(s, k, "/blob/");
  }

  /** Without "/blob/" there is no permalink: a bare repository URL yields no link. */
  lemma BareRepoUrlHasNoLink(s: string)
    requires !Contains(s, "/blob/")
    ensures Permalinks(s) == []
  {
    var ms := Permalinks(s);
    if ms != [] {
      assert ms[0] in ms;
      LinkHasBlob(s, ms[0]);
    }
  }

  // ---------------------------------------------------------------- checking a link

  /** Bytes per line assumed when the line count is estimated from the file size. */
  const EstimatedCharsPerLine: int := 30

  /** What `gh api repos/<owner>/<repo>/contents/<path>?ref=<sha>` did: failed with its stderr, answered something that is not the expected JSON, or answered with the file's size. */
  datatype GhFileAnswer = GhRunFailed(stderr: string) | GhBadJson(err: string) | GhSize(size: int)

  /** The API path asked for a file at a commit. */
  function ApiPath(owner: string, repo: string, sha: string, path: string): string {
    "repos/" + owner + "/" + repo + "/contents/" + path + "?ref=" + sha
  }

  /** What the lookup reports: whether the file exists, its line count, whether that count is an estimate, and an error. */
  datatype FileCheck = FileCheck(fileExists: bool, lineCount: int, isEstimated: bool, err: Option<string>)

  /** The line count guessed from a size: `size / 30`, but at least one. */
  function EstimateLines(size: int): (n: int)
    ensures n >= 1
    ensures size >= EstimatedCharsPerLine ==> n * EstimatedCharsPerLine <= size < (n + 1) * EstimatedCharsPerLine
    ensures size < 2 * EstimatedCharsPerLine ==> n == 1
  {
    var q := GoDiv(size, EstimatedCharsPerLine);
    if q < 1 then 1 else q
  }

  /**
   * `checkFileExistsAtCommit` on the tool's answer. A failure whose stderr mentions
   * "404" or "Not Found" means the file is absent; any other failure, or an answer that
   * is not JSON, is an error; a size means the file exists, with an estimated line count.
   */
  function CheckFileExistsAtCommit(answer: GhFileAnswer): (c: FileCheck)
    ensures c.err.None? && !c.fileExists <==>
      answer.GhRunFailed? && (Contains(answer.stderr, "404") || Contains(answer.stderr, "Not Found"))
    ensures c.err.Some? ==> !c.fileExists
    ensures c.fileExists <==> answer.GhSize?
    ensures c.fileExists ==> c.isEstimated && c.lineCount >= 1 && c.err.None?
  {
    match answer
    case GhRunFailed(stderr) =>
      if Contains(stderr, "404") || Contains(stderr, "Not Found") then FileCheck(false, 0, false, None)
      else FileCheck(false, 0, false, Some("gh api error: " + stderr))
    case GhBadJson(err) => FileCheck(false, 0, false, Some("parse response: " + err))
    case GhSize(size) => FileCheck(true, EstimateLines(size), true, None)
  }

  /**
   * The eight-character abbreviation of a commit hash in the "file missing" message. The
   * source slices `[:8]`, which panics on a shorter hash; see `ShortShaAsWritten`. Here a
   * shorter hash is shown whole.
   */
  function Abbrev(sha: string): (r: string)
    ensures |r| == (if |sha| < 8 then |sha| else 8) && r == sha[..|r|]
  {
    if |sha| < 8 then sha else sha[..8]
  }

  /** `sha[:8]` as the source writes it: None stands for the slice-bounds panic. */
  function ShortShaAsWritten(sha: string): (r: Option<string>)
    ensures r.Some? <==> |sha| >= 8
  {
    if |sha| >= 8 then Some(sha[..8]) else None
  }

  /** The six-character hash of the source's own tests forms a valid link, and slicing it panics. */
  lemma ShortShaPanics()
    ensures WellFormed(Permalink("owner", "repo", "abc123", "file.go", "10", "20"))
    ensures ShortShaAsWritten("abc123") == None
  {
  }

  /** Where the slice does not panic, the abbreviation agrees with it. */
  lemma AbbrevAgrees(sha: string)
    ensures ShortShaAsWritten(sha).Some? ==> ShortShaAsWritten(sha).value == Abbrev(sha)
  {
  }

  /**
   * The verdict on a link, given whether `gh` is installed and what the lookup found. The
   * lookup's answer is only consulted when the tool is installed.
   */
  function CodeLinkOutcome(link: CodeLinkMatch, file: string, line: int, text: string, ghOnPath: bool, check: FileCheck)
    : (r: VerificationResult)
    ensures r.checkType == CodeLink && r.target == Target(file, line, text)
    ensures r.details.CodeLinkDetails? && r.details.permalink == link.fullUrl
    ensures r.status == Warn <==> !ghOnPath || (check.err.None? && check.fileExists && check.isEstimated)
    ensures r.status == Pass <==> (ghOnPath && check.err.None? && check.fileExists && !check.isEstimated
      && check.lineCount > 0 && link.startLine <= check.lineCount && link.endLine <= check.lineCount)
    ensures r.details.fileExists <==> ghOnPath && check.err.None? && check.fileExists
    ensures r.details.lineRangeValid <==> r.details.fileExists && (r.status == Pass || r.status == Warn)
    ensures ghOnPath && check.err.None? && !check.fileExists ==>
      r.message == FileMissingAtCommit(link.filePath, Abbrev(link.commitSha))
  {
    var target := Target(file, line, text);
    if !ghOnPath then
      VerificationResult(CodeLink, target, Warn, GhNotFound(link.fullUrl), CodeLinkDetails(link.fullUrl, false, false))
    else if check.err.Some? then
      VerificationResult(CodeLink, target, Fail, CodeLinkLookupFailed(link.fullUrl, check.err.value),
        CodeLinkDetails(link.fullUrl, false, false))
    else
      var rangeSkipped := check.fileExists && check.isEstimated;
      var rangeValid := check.fileExists && !check.isEstimated && check.lineCount > 0
        && link.startLine <= check.lineCount && link.endLine <= check.lineCount;
      var details := CodeLinkDetails(link.fullUrl, check.fileExists, rangeValid || rangeSkipped);
      if !check.fileExists then
        VerificationResult(CodeLink, target, Fail, FileMissingAtCommit(link.filePath, Abbrev(link.commitSha)), details)
      else if rangeSkipped then
        VerificationResult(CodeLink, target, Warn,
          LineRangeUnverified(link.fullUrl, link.startLine, link.endLine), details)
      else if !rangeValid then
        VerificationResult(CodeLink, target, Fail,
          LineRangeTooLong(link.startLine, link.endLine, check.lineCount), details)
      else
        VerificationResult(CodeLink, target, Pass, CodeLinkValid(link.fullUrl), details)
  }

  /**
   * `VerifyCodeLink`: the flags set one after another as in the source, with the `gh`
   * tool given by whether it is installed and by its answer for each API path.
   */
  method VerifyCodeLink(link: CodeLinkMatch, file: string, line: int, text: string,
                        ghOnPath: bool, ghApi: string -> GhFileAnswer)
    returns (result: VerificationResult)
    ensures result == CodeLinkOutcome(link, file, line, text, ghOnPath,
      CheckFileExistsAtCommit(ghApi(ApiPath(link.owner, link.repo, link.commitSha, link.filePath))))
  {
    var target := Target(file, line, text);
    if !ghOnPath {
      return VerificationResult(CodeLink, target, Warn, GhNotFound(link.fullUrl), CodeLinkDetails(link.fullUrl, false, false));
    }
    var check := CheckFileExistsAtCommit(ghApi(ApiPath(link.owner, link.repo, link.commitSha, link.filePath)));
    if check.err.Some? {
      return VerificationResult(CodeLink, target, Fail, CodeLinkLookupFailed(link.fullUrl, check.err.value),
        CodeLinkDetails(link.fullUrl, false, false));
    }
    var lineRangeValid := false;
    var lineRangeSkipped := false;
    if check.fileExists {
      if check.isEstimated {
        lineRangeSkipped := true;
      } else if check.lineCount > 0 {
        lineRangeValid := link.startLine <= check.lineCount && link.endLine <= check.lineCount;
      }
    }
    var status: CheckStatus;
    var message: Message;
    if !check.fileExists {
      status, message := Fail, FileMissingAtCommit(link.filePath, Abbrev(link.commitSha));
    } else if lineRangeSkipped {
      status, message := Warn, LineRangeUnverified(link.fullUrl, link.startLine, link.endLine);
      lineRangeValid := true;
    } else if !lineRangeValid {
      status, message := Fail, LineRangeTooLong(link.startLine, link.endLine, check.lineCount);
    } else {
      status, message := Pass, CodeLinkValid(link.fullUrl);
    }
    result := VerificationResult(CodeLink, target, status, message,
      CodeLinkDetails(link.fullUrl, check.fileExists, lineRangeValid));
  }

  /** Through the real lookup, which always estimates the line count, a link never passes. */
  lemma LookupNeverPasses(link: CodeLinkMatch, file: string, line: int, text: string, ghOnPath: bool, answer: GhFileAnswer)
    ensures CodeLinkOutcome(link, file, line, text, ghOnPath, CheckFileExistsAtCommit(answer)).status != Pass
  {
  }
}
