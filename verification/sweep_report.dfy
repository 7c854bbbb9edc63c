/** The sweep package's report builder and the report filters. */
module SweepReports {
  import opened SweepTypes
  import Seqs

  function StatusIs(status: SweepStatus): SweepResult -> bool {
    (r: SweepResult) => r.status == status
  }

  function CheckTypeIs(checkType: CheckType): SweepResult -> bool {
    (r: SweepResult) => r.checkType == checkType
  }

  /**
   * The summary of a list of results: the total and one count per status. Every result
   * has exactly one status, so the three counts add up to the total. Each count is the
   * length of what `FilterByStatus` returns for that status.
   */
  function Summarize(results: seq<SweepResult>): (s: SweepSummary)
    ensures s.totalChecks == |results|
    ensures s.ok == |Seqs.Filter(results, StatusIs(OK))|
    ensures s.warnings == |Seqs.Filter(results, StatusIs(Warning))|
    ensures s.issues == |Seqs.Filter(results, StatusIs(Issue))|
    ensures 0 <= s.ok && 0 <= s.warnings && 0 <= s.issues
    ensures s.ok + s.warnings + s.issues == s.totalChecks
  {
    Seqs.CountPartition(results, StatusIs(OK), StatusIs(Warning), StatusIs(Issue));
    SweepSummary(|results|,
      Seqs.Count(results, StatusIs(OK)),
      Seqs.Count(results, StatusIs(Warning)),
      Seqs.Count(results, StatusIs(Issue)))
  }

  /** The order in which results were added does not change the summary. */
  lemma SummaryIgnoresOrder(a: seq<SweepResult>, b: seq<SweepResult>)
    requires multiset(a) == multiset(b)
    ensures Summarize(a) == Summarize(b)
  {
    assert |a| == |multiset(a)| == |b|;
    Seqs.CountPermutation(a, b, StatusIs(OK));
    Seqs.CountPermutation(a, b, StatusIs(Warning));
    Seqs.CountPermutation(a, b, StatusIs(Issue));
  }

  /** The checks run after `check` is recorded: unchanged when it is already listed, otherwise one more at the end. */
  function WithCheck(checks: seq<CheckType>, check: CheckType): seq<CheckType> {
    if check in checks then checks else checks + [check]
  }

  /**
   * Recording checks one by one lists each distinct check once, in the order of its first
   * recording, whatever repeats the sequence of recordings holds.
   */
  lemma {:induction false} RecordedChecks(checks: seq<CheckType>, check: CheckType)
    ensures Seqs.Dedup(checks + [check]) == WithCheck(Seqs.Dedup(checks), check)
    ensures Seqs.NoDuplicates(WithCheck(Seqs.Dedup(checks), check))
    ensures check in WithCheck(Seqs.Dedup(checks), check)
  {
    assert (checks + [check])[..|checks|] == checks;
  }

  /** Accumulates the files, the checks run and the results of a sweep, then builds the report. */
  class SweepReportBuilder {
    var files: seq<string>
    var checksRun: seq<CheckType>
    var results: seq<SweepResult>

    constructor ()
      ensures files == [] && checksRun == [] && results == []
    {
      files := [];
      checksRun := [];
      results := [];
    }

    method AddFile(file: string)
      modifies this
      ensures files == old(files) + [file]
      ensures checksRun == old(checksRun) && results == old(results)
    {
      files := files + [file];
    }

    /** Records a check unless it is already listed: a scan of the list, then an append. */
    method AddCheck(check: CheckType)
      modifies this
      ensures checksRun == WithCheck(old(checksRun), check)
      ensures files == old(files) && results == old(results)
    {
      var i := 0;
      while i < |checksRun|
        invariant 0 <= i <= |checksRun|
        invariant forall j :: 0 <= j < i ==> checksRun[j] != check
      {
        if checksRun[i] == check {
          return;
        }
        i := i + 1;
      }
      checksRun := checksRun + [check];
    }

    method AddResult(result: SweepResult)
      modifies this
      ensures results == old(results) + [result]
      ensures files == old(files) && checksRun == old(checksRun)
    {
      results := results + [result];
    }

    /** The report of everything added so far, with the per-status counts. */
    method Build() returns (report: SweepReport)
      ensures report.contentFiles == files && report.checksRun == checksRun && report.results == results
      ensures report.summary == Summarize(results)
    {
      var ok, warnings, issues := 0, 0, 0;
      var i := 0;
      while i < |results|
        invariant 0 <= i <= |results|
        invariant ok == Seqs.Count(results[..i], StatusIs(OK))
        invariant warnings == Seqs.Count(results[..i], StatusIs(Warning))
        invariant issues == Seqs.Count(results[..i], StatusIs(Issue))
      {
        assert results[..i + 1][..i] == results[..i];
        match results[i].status {
          case OK => ok := ok + 1;
          case Warning => warnings := warnings + 1;
          case Issue => issues := issues + 1;
        }
        i := i + 1;
      }
      assert results[..i] == results;
      report := SweepReport(files, checksRun, SweepSummary(|results|, ok, warnings, issues), results);
    }
  }

  /** The report's results with the given status, in report order. */
  method FilterByStatus(report: SweepReport, status: SweepStatus) returns (filtered: seq<SweepResult>)
    ensures filtered == Seqs.Filter(report.results, StatusIs(status))
    ensures forall r :: r in filtered ==> r in report.results && r.status == status
    ensures forall r :: r in report.results && r.status == status ==> r in filtered
  {
    filtered := [];
    var i := 0;
    while i < |report.results|
      invariant 0 <= i <= |report.results|
      invariant filtered == Seqs.Filter(report.results[..i], StatusIs(status))
    {
      assert report.results[..i + 1][..i] == report.results[..i];
      if report.results[i].status == status {
        filtered := filtered + [report.results[i]];
      }
      i := i + 1;
    }
    assert report.results[..i] == report.results;
    forall r | r in report.results && r.status == status ensures r in filtered {
      Seqs.FilterKeeps(report.results, StatusIs(status), r);
    }
  }

  /** The report's results of the given kind of check, in report order. */
  method FilterByCheckType(report: SweepReport, checkType: CheckType) returns (filtered: seq<SweepResult>)
    ensures filtered == Seqs.Filter(report.results, CheckTypeIs(checkType))
    ensures forall r :: r in filtered ==> r in report.results && r.checkType == checkType
    ensures forall r :: r in report.results && r.checkType == checkType ==> r in filtered
  {
    filtered := [];
    var i := 0;
    while i < |report.results|
      invariant 0 <= i <= |report.results|
      invariant filtered == Seqs.Filter(report.results[..i], CheckTypeIs(checkType))
    {
      assert report.results[..i + 1][..i] == report.results[..i];
      if report.results[i].checkType == checkType {
        filtered := filtered + [report.results[i]];
      }
      i := i + 1;
    }
    assert report.results[..i] == report.results;
    forall r | r in report.results && r.checkType == checkType ensures r in filtered {
      Seqs.FilterKeeps(report.results, CheckTypeIs(checkType), r);
    }
  }
}
