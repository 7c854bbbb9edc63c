/** The verify package's report builder and the report filters. */
module VerifyReport {
  import opened VerifyTypes
  import Seqs

  function StatusIs(status: CheckStatus): VerificationResult -> bool {
    (r: VerificationResult) => r.status == status
  }

  function TypeIs(checkType: CheckType): VerificationResult -> bool {
    (r: VerificationResult) => r.checkType == checkType
  }

  /**
   * The summary of a list of results: the total and one count per status. Every result
   * has exactly one status, so the three counts add up to the total. Each count is the
   * length of what `FilterByStatus` returns for that status.
   */
  function Summarize(results: seq<VerificationResult>): (s: ReportSummary)
    ensures s.totalChecks == |results|
    ensures s.passed == |Seqs.Filter(results, StatusIs(Pass))|
    ensures s.failed == |Seqs.Filter(results, StatusIs(Fail))|
    ensures s.warnings == |Seqs.Filter(results, StatusIs(Warn))|
    ensures 0 <= s.passed && 0 <= s.failed && 0 <= s.warnings
    ensures s.passed + s.failed + s.warnings == s.totalChecks
  {
    Seqs.CountPartition(results, StatusIs(Pass), StatusIs(Fail), StatusIs(Warn));
    ReportSummary(|results|,
      Seqs.Count(results, StatusIs(Pass)),
      Seqs.Count(results, StatusIs(Fail)),
      Seqs.Count(results, StatusIs(Warn)))
  }

  /** The order in which results were added does not change the summary. */
  lemma SummaryIgnoresOrder(a: seq<VerificationResult>, b: seq<VerificationResult>)
    requires multiset(a) == multiset(b)
    ensures Summarize(a) == Summarize(b)
  {
    assert |a| == |multiset(a)| == |b|;
    Seqs.CountPermutation(a, b, StatusIs(Pass));
    Seqs.CountPermutation(a, b, StatusIs(Fail));
    Seqs.CountPermutation(a, b, StatusIs(Warn));
  }

  /** Accumulates the files and results of a run, then builds the report. */
  class ReportBuilder {
    var files: seq<string>
    var results: seq<VerificationResult>

    constructor ()
      ensures files == [] && results == []
    {
      files := [];
      results := [];
    }

    method AddFile(file: string)
      modifies this
      ensures files == old(files) + [file]
      ensures results == old(results)
    {
      files := files + [file];
    }

    method AddResult(result: VerificationResult)
      modifies this
      ensures results == old(results) + [result]
      ensures files == old(files)
    {
      results := results + [result];
    }

    /**
     * The report of everything added so far: the files and results in the order they
     * were added, the per-status counts, and exit code 1 exactly when some check failed.
     */
    method Build() returns (report: VerificationReport)
      ensures report.contentFiles == files && report.results == results
      ensures report.summary == Summarize(results)
      ensures report.exitCode == (if report.summary.failed > 0 then 1 else 0)
    {
      var passed, failed, warnings := 0, 0, 0;
      var i := 0;
      while i < |results|
        invariant 0 <= i <= |results|
        invariant passed == Seqs.Count(results[..i], StatusIs(Pass))
        invariant failed == Seqs.Count(results[..i], StatusIs(Fail))
        invariant warnings == Seqs.Count(results[..i], StatusIs(Warn))
      {
        assert results[..i + 1][..i] == results[..i];
        match results[i].status {
          case Pass => passed := passed + 1;
          case Fail => failed := failed + 1;
          case Warn => warnings := warnings + 1;
        }
        i := i + 1;
      }
      assert results[..i] == results;
      var exitCode := 0;
      if failed > 0 {
        exitCode := 1;
      }
      report := VerificationReport(files, ReportSummary(|results|, passed, failed, warnings), results, exitCode);
    }
  }

  /** The report's results with the given status, in report order. */
  method FilterByStatus(report: VerificationReport, status: CheckStatus) returns (filtered: seq<VerificationResult>)
    ensures filtered == Seqs.Filter(report.results, StatusIs(status))
    ensures forall r :: r in filtered ==> r in report.results && r.status == status
    ensures forall r :: r in report.results && r.status == status ==> r in filtered
  {
    filtered := [];
    var i := 0;
    while i < |report.results|
      invariant 0 <= i <= |report.results|
      invariant filtered == Seqs.Filter(report.results[..i], StatusIs(status))
    {
      assert report.results[..i + 1][..i] == report.results[..i];
      if report.results[i].status == status {
        filtered := filtered + [report.results[i]];
      }
      i := i + 1;
    }
    assert report.results[..i] == report.results;
    forall r | r in report.results && r.status == status ensures r in filtered {
      Seqs.FilterKeeps(report.results, StatusIs(status), r);
    }
  }

  /** The report's results of the given kind, in report order. */
  method FilterByType(report: VerificationReport, checkType: CheckType) returns (filtered: seq<VerificationResult>)
    ensures filtered == Seqs.Filter(report.results, TypeIs(checkType))
    ensures forall r :: r in filtered ==> r in report.results && r.checkType == checkType
    ensures forall r :: r in report.results && r.checkType == checkType ==> r in filtered
  {
    filtered := [];
    var i := 0;
    while i < |report.results|
      invariant 0 <= i <= |report.results|
      invariant filtered == Seqs.Filter(report.results[..i], TypeIs(checkType))
    {
      assert report.results[..i + 1][..i] == report.results[..i];
      if report.results[i].checkType == checkType {
        filtered := filtered + [report.results[i]];
      }
      i := i + 1;
    }
    assert report.results[..i] == report.results;
    forall r | r in report.results && r.checkType == checkType ensures r in filtered {
      Seqs.FilterKeeps(report.results, TypeIs(checkType), r);
    }
  }
}
