/**
 * The sweep's code-link checks: each permalink re-checked with the verify package's
 * checker and its verdict mapped onto the sweep's statuses, and the reminder to check
 * each linked file at the repository's head.
 */
module SweepCodeLinks {
  import opened Results
  import opened SweepTypes
  import VerifyTypes
  import CodeLinks

  /** `verify.VerifyCodeLink(link, file, 0, "")`: the verify package's verdict, at line 0 with no line text. */
  function VerifyLink(link: CodeLinks.CodeLinkMatch, file: string, ghOnPath: bool, ghApi: string -> CodeLinks.GhFileAnswer)
    : VerifyTypes.VerificationResult
  {
    CodeLinks.CodeLinkOutcome(link, file, 0, "", ghOnPath,
      CodeLinks.CheckFileExistsAtCommit(ghApi(CodeLinks.ApiPath(link.owner, link.repo, link.commitSha, link.filePath))))
  }

  /** The sweep status of a verify status: pass is fine, failure an issue, a warning a warning. */
  function SweepStatusOf(s: VerifyTypes.CheckStatus): SweepStatus {
    match s
    case Pass => OK
    case Fail => Issue
    case Warn => Warning
  }

  /** The verify status a sweep status comes from. */
  function VerifyStatusOf(t: SweepStatus): VerifyTypes.CheckStatus {
    match t
    case OK => VerifyTypes.Pass
    case Issue => VerifyTypes.Fail
    case Warning => VerifyTypes.Warn
  }

  /** The mapping loses nothing: it and `VerifyStatusOf` undo each other. */
  lemma StatusMappingInverse()
    ensures forall s :: VerifyStatusOf(SweepStatusOf(s)) == s
    ensures forall t :: SweepStatusOf(VerifyStatusOf(t)) == t
  {
  }

  /**
   * `checkSingleCodeLink`: the verify verdict's status mapped; a valid link gets its own
   * message, any other keeps the verify message, and only a failure suggests a fix.
   */
  function LinkVerdict(link: CodeLinks.CodeLinkMatch, file: string, ghOnPath: bool, ghApi: string -> CodeLinks.GhFileAnswer)
    : (r: SweepResult)
    ensures var v := VerifyLink(link, file, ghOnPath, ghApi);
      && r.checkType == CodeLinksCheck && r.target == link.fullUrl && r.file == file
      && r.status == SweepStatusOf(v.status)
      && (v.status == VerifyTypes.Pass ==> r.message == CodeLinkValid)
      && (v.status != VerifyTypes.Pass ==> r.message == FromVerify(v.message))
      && (r.fix.Some? <==> v.status == VerifyTypes.Fail)
  {
    var v := VerifyLink(link, file, ghOnPath, ghApi);
    var result := SweepResult(CodeLinksCheck, OK, link.fullUrl, file, CodeLinkValid,
      LinkDetails(link.owner, link.repo, link.commitSha, link.filePath, link.startLine, link.endLine), None);
    match v.status
    case Pass => result.(status := OK, message := CodeLinkValid)
    case Fail => result.(status := Issue, message := FromVerify(v.message), fix := Some(UpdatePermalink))
    case Warn => result.(status := Warning, message := FromVerify(v.message))
  }

  /** `CheckCodeLinks`: one verdict per extracted link, in order. */
  function CodeLinkSweep(content: string, file: string, ghOnPath: bool, ghApi: string -> CodeLinks.GhFileAnswer)
    : (r: seq<SweepResult>)
    ensures |r| == |CodeLinks.LinksOf(content)|
    ensures forall k :: 0 <= k < |r| ==> r[k] == LinkVerdict(CodeLinks.LinksOf(content)[k], file, ghOnPath, ghApi)
  {
    var links := CodeLinks.LinksOf(content);
    seq(|links|, k requires 0 <= k < |links| => LinkVerdict(links[k], file, ghOnPath, ghApi))
  }

  /**
   * Through the real lookup, which only estimates line counts, the sweep never reports a
   * code link as fine: every verdict is a warning or an issue.
   */
  lemma SweepLinksNeverOK(content: string, file: string, ghOnPath: bool, ghApi: string -> CodeLinks.GhFileAnswer)
    ensures forall r :: r in CodeLinkSweep(content, file, ghOnPath, ghApi) ==> r.status != OK
  {
    var links := CodeLinks.LinksOf(content);
    var rs := CodeLinkSweep(content, file, ghOnPath, ghApi);
    forall r | r in rs ensures r.status != OK {
      var k :| 0 <= k < |rs| && rs[k] == r;
      var link := links[k];
      CodeLinks.LookupNeverPasses(link, file, 0, "", ghOnPath,
        ghApi(CodeLinks.ApiPath(link.owner, link.repo, link.commitSha, link.filePath)));
    }
  }

  // ---------------------------------------------------------------- at head

  /** The reminder for one link, naming its commit by the abbreviation `CodeLinks.Abbrev`. */
  function HeadReminder(link: CodeLinks.CodeLinkMatch, file: string): SweepResult {
    SweepResult(CodeLinksCheck, Warning, link.fullUrl, file, CheckAtHead(CodeLinks.Abbrev(link.commitSha)),
      HeadDetails(link.commitSha, link.filePath), Some(CheckFileAtHead))
  }

  /** The reminder's message as the source writes it, slicing `[:8]`: `None` stands for the panic. */
  function HeadMessageAsWritten(link: CodeLinks.CodeLinkMatch): (r: Option<SweepMessage>)
    ensures r.Some? <==> |link.commitSha| >= 8
  {
    match CodeLinks.ShortShaAsWritten(link.commitSha)
    case Some(short) => Some(CheckAtHead(short))
    case None => None
  }

  /**
   * The link shape of the verify tests, whose commit is the six characters "abc123", makes
   * the reminder as written panic; where it does not panic, it says what `HeadReminder` says.
   */
  lemma HeadReminderPanics(link: CodeLinks.CodeLinkMatch, file: string)
    ensures link.commitSha == "abc123" ==> HeadMessageAsWritten(link) == None
    ensures HeadMessageAsWritten(link).Some? ==> HeadMessageAsWritten(link).value == HeadReminder(link, file).message
  {
    CodeLinks.AbbrevAgrees(link.commitSha);
  }

  /** `CheckCodeLinksAtHead`: one warning per extracted link, in order, each suggesting a check at the head. */
  function CodeLinksAtHead(content: string, file: string): (r: seq<SweepResult>)
    ensures |r| == |CodeLinks.LinksOf(content)|
    ensures forall k :: 0 <= k < |r| ==>
      r[k].status == Warning && r[k].target == CodeLinks.LinksOf(content)[k].fullUrl && r[k].fix == Some(CheckFileAtHead)
    ensures forall k :: 0 <= k < |r| ==>
      r[k].message == CheckAtHead(CodeLinks.Abbrev(CodeLinks.LinksOf(content)[k].commitSha))
  {
    var links := CodeLinks.LinksOf(content);
    seq(|links|, k requires 0 <= k < |links| => HeadReminder(links[k], file))
  }
}
