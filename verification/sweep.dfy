/**
 * The sweep itself: the chosen checks run over each file's content in order, and the
 * files, checks and findings gathered into a report.
 */
module Sweep {
  import opened Results
  import opened SweepTypes
  import SweepReports
  import Freshness
  import Coverage
  import SweepCodeLinks
  import Consistency
  import CodeLinks
  import Seqs

  /** Which checks to run; an empty list means all of them. */
  datatype Options = Options(checks: seq<CheckType>)

  /** `DefaultOptions`: all four checks, freshness first, coverage last. */
  function DefaultOptions(): (o: Options)
    ensures |o.checks| == 4 && Seqs.NoDuplicates(o.checks)
    ensures forall t: CheckType :: t in o.checks
  {
    var o := Options([RepoFreshnessCheck, CodeLinksCheck, ClaimConsistencyCheck, CoverageCheck]);
    forall t: CheckType ensures t in o.checks {
      if t.RepoFreshnessCheck? { assert o.checks[0] == t; }
      else if t.CodeLinksCheck? { assert o.checks[1] == t; }
      else if t.ClaimConsistencyCheck? { assert o.checks[2] == t; }
      else { assert o.checks[3] == t; }
    }
    o
  }

  /** The checks a sweep runs: those asked for, or the defaults when none are. */
  function ChecksToRun(opts: Options): (checks: seq<CheckType>)
    ensures checks != []
    ensures opts.checks != [] ==> checks == opts.checks
    ensures opts.checks == [] ==> forall t: CheckType :: t in checks
  {
    if |opts.checks| == 0 then DefaultOptions().checks else opts.checks
  }

  /**
   * The tools and services a sweep consults, as their answers: whether `gh` is installed,
   * its answers about repositories and about files at a commit, the clock, and the file
   * system (a file's text or the error reading it).
   */
  datatype SweepEnv = SweepEnv(
    ghOnPath: bool,
    ghRepo: string -> Freshness.GhRepoAnswer,
    ghFile: string -> CodeLinks.GhFileAnswer,
    now: int,
    read: string -> Result<string, string>)

  /** The findings of one kind of check on a file's content. */
  function CheckResults(check: CheckType, content: string, file: string, env: SweepEnv): (r: seq<SweepResult>)
    ensures forall x :: x in r ==> x.checkType == check && x.file == file
  {
    match check
    case RepoFreshnessCheck => Freshness.RepoFreshnessOf(content, file, env.ghOnPath, env.ghRepo, env.now)
    case CodeLinksCheck => SweepCodeLinks.CodeLinkSweep(content, file, env.ghOnPath, env.ghFile)
    case ClaimConsistencyCheck => Consistency.ClaimConsistency(content, file)
    case CoverageCheck => Coverage.CoverageGaps(content, file)
  }

  /** The findings of a list of checks on a file's content: each check's, in list order. */
  function ContentResults(content: string, file: string, checks: seq<CheckType>, env: SweepEnv): (r: seq<SweepResult>)
    ensures forall x :: x in r ==> x.checkType in checks && x.file == file
    decreases |checks|
  {
    if checks == [] then []
    else
      var init := checks[..|checks| - 1];
      var rest := ContentResults(content, file, init, env);
      assert forall t :: t in init ==> t in checks;
      rest + CheckResults(checks[|checks| - 1], content, file, env)
  }

  /** Running two lists of checks one after the other finds what running them together finds. */
  lemma {:induction false} ContentResultsAppend(content: string, file: string, a: seq<CheckType>, b: seq<CheckType>, env: SweepEnv)
    ensures ContentResults(content, file, a + b, env) == ContentResults(content, file, a, env) + ContentResults(content, file, b, env)
    decreases |b|
  {
    if b == [] {
      assert a + b == a;
    } else {
      var init := b[..|b| - 1];
      var last := CheckResults(b[|b| - 1], content, file, env);
      assert (a + b)[..|a + b| - 1] == a + init;
      assert (a + b)[|a + b| - 1] == b[|b| - 1];
      assert ContentResults(content, file, a + b, env) == ContentResults(content, file, a + init, env) + last;
      ContentResultsAppend(content, file, a, init, env);
      Seqs.ConcatAssoc(ContentResults(content, file, a, env), ContentResults(content, file, init, env), last);
    }
  }

  /**
   * `SweepFile`: the file read, then each check's findings appended in the order of the
   * checks to run; a read error is returned as it is.
   */
  method SweepFile(file: string, opts: Options, env: SweepEnv) returns (r: Result<seq<SweepResult>, string>)
    ensures env.read(file).Err? ==> r == Err(env.read(file).error)
    ensures env.read(file).Ok? ==> r == Ok(ContentResults(env.read(file).value, file, ChecksToRun(opts), env))
  {
    var read := env.read(file);
    if read.Err? {
      return Err(read.error);
    }
    var content := read.value;
    var results: seq<SweepResult> := [];
    var checks := opts.checks;
    if |checks| == 0 {
      checks := DefaultOptions().checks;
    }
    var i := 0;
    while i < |checks|
      invariant 0 <= i <= |checks|
      invariant results == ContentResults(content, file, checks[..i], env)
    {
      assert checks[..i + 1][..i] == checks[..i];
      results := results + CheckResults(checks[i], content, file, env);
      i := i + 1;
    }
    assert checks[..i] == checks;
    return Ok(results);
  }

  // ---------------------------------------------------------------- many files

  /** The finding that stands for a file that could not be read: an issue about the file. */
  function ReadIssue(file: string, err: string): (r: SweepResult)
    ensures r.status == Issue && r.target == file && r.file == file && r.message == ReadFailed(err)
  {
    SweepResult(RepoFreshnessCheck, Issue, file, file, ReadFailed(err), NoDetails, None)
  }

  /** The findings of one file: its checks' findings, or the single read issue. */
  function FileSweep(file: string, opts: Options, env: SweepEnv): (r: seq<SweepResult>)
    ensures env.read(file).Err? ==> r == [ReadIssue(file, env.read(file).error)]
    ensures env.read(file).Ok? ==> r == ContentResults(env.read(file).value, file, ChecksToRun(opts), env)
  {
    match env.read(file)
    case Err(e) => [ReadIssue(file, e)]
    case Ok(content) => ContentResults(content, file, ChecksToRun(opts), env)
  }

  /** The findings of a sweep over `files`, file after file. */
  function SweepResults(files: seq<string>, opts: Options, env: SweepEnv): seq<SweepResult>
    decreases |files|
  {
    if files == [] then []
    else SweepResults(files[..|files| - 1], opts, env) + FileSweep(files[|files| - 1], opts, env)
  }

  /** A sweep over two lists of files finds what the two sweeps find, one after the other. */
  lemma {:induction false} SweepResultsAppend(a: seq<string>, b: seq<string>, opts: Options, env: SweepEnv)
    ensures SweepResults(a + b, opts, env) == SweepResults(a, opts, env) + SweepResults(b, opts, env)
    decreases |b|
  {
    if b == [] {
      assert a + b == a;
    } else {
      var init := b[..|b| - 1];
      var last := FileSweep(b[|b| - 1], opts, env);
      assert (a + b)[..|a + b| - 1] == a + init;
      assert (a + b)[|a + b| - 1] == b[|b| - 1];
      assert SweepResults(a + b, opts, env) == SweepResults(a + init, opts, env) + last;
      SweepResultsAppend(a, init, opts, env);
      Seqs.ConcatAssoc(SweepResults(a, opts, env), SweepResults(init, opts, env), last);
    }
  }

  /** The checks handed to the builder one by one. */
  method AddChecks(builder: SweepReports.SweepReportBuilder, checks: seq<CheckType>)
    requires builder.checksRun == []
    modifies builder
    ensures builder.checksRun == Seqs.Dedup(checks)
    ensures builder.files == old(builder.files) && builder.results == old(builder.results)
  {
    var i := 0;
    while i < |checks|
      invariant 0 <= i <= |checks|
      invariant builder.checksRun == Seqs.Dedup(checks[..i])
      invariant builder.files == old(builder.files) && builder.results == old(builder.results)
    {
      assert checks[..i + 1] == checks[..i] + [checks[i]];
      SweepReports.RecordedChecks(checks[..i], checks[i]);
      builder.AddCheck(checks[i]);
      i := i + 1;
    }
    assert checks[..i] == checks;
  }

  /** A file's findings handed to the builder one by one, in order. */
  method AddResults(builder: SweepReports.SweepReportBuilder, results: seq<SweepResult>)
    modifies builder
    ensures builder.results == old(builder.results) + results
    ensures builder.files == old(builder.files) && builder.checksRun == old(builder.checksRun)
  {
    var j := 0;
    while j < |results|
      invariant 0 <= j <= |results|
      invariant builder.files == old(builder.files) && builder.checksRun == old(builder.checksRun)
      invariant builder.results == old(builder.results) + results[..j]
    {
      assert results[..j + 1] == results[..j] + [results[j]];
      builder.AddResult(results[j]);
      j := j + 1;
    }
    assert results[..j] == results;
  }

  /** File `i` of `SweepFiles`: recorded, swept, and its read issue or its findings handed to the builder. */
  method SweepOne(builder: SweepReports.SweepReportBuilder, files: seq<string>, i: nat, opts: Options, env: SweepEnv)
    requires i < |files| && builder.files == files[..i] && builder.results == SweepResults(files[..i], opts, env)
    modifies builder
    ensures builder.files == files[..i + 1]
    ensures builder.results == SweepResults(files[..i + 1], opts, env)
    ensures builder.checksRun == old(builder.checksRun)
  {
    var file := files[i];
    assert files[..i + 1][..i] == files[..i];
    assert files[..i + 1] == files[..i] + [file];
    builder.AddFile(file);
    var results := SweepFile(file, opts, env);
    match results {
      case Err(e) =>
        builder.AddResult(ReadIssue(file, e));
      case Ok(rs) =>
        AddResults(builder, rs);
    }
  }

  /**
   * `SweepFiles`: the checks to run recorded once each, in order of first mention; then
   * every file recorded in order and its findings (or its read issue) added, a file that
   * cannot be read not stopping the others; then the report built.
   */
  method SweepFiles(files: seq<string>, opts: Options, env: SweepEnv) returns (report: SweepReport)
    ensures report.contentFiles == files
    ensures report.checksRun == Seqs.Dedup(ChecksToRun(opts)) && Seqs.NoDuplicates(report.checksRun)
    ensures report.results == SweepResults(files, opts, env)
    ensures report.summary == SweepReports.Summarize(report.results)
  {
    var builder := new SweepReports.SweepReportBuilder();
    var checks := opts.checks;
    if |checks| == 0 {
      checks := DefaultOptions().checks;
    }
    AddChecks(builder, checks);
    var i := 0;
    while i < |files|
      invariant 0 <= i <= |files|
      invariant builder.files == files[..i]
      invariant builder.results == SweepResults(files[..i], opts, env)
      invariant builder.checksRun == Seqs.Dedup(checks)
    {
      SweepOne(builder, files, i, opts, env);
      i := i + 1;
    }
    assert files[..i] == files;
    report := builder.Build();
  }
}
