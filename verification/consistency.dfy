/** Claim consistency: every distinct citation of a document flagged for a manual re-read. */
module Consistency {
  import opened Results
  import opened SweepTypes
  import Citations
  import Seqs

  /** The result for one citation: fine, with the citation as target and a request for review. */
  function ReviewRequest(citation: string, file: string): SweepResult {
    SweepResult(ClaimConsistencyCheck, OK, citation, file, CitationToReview(citation),
      CitationDetails(citation, true), Some(SearchSnippets))
  }

  /**
   * `CheckClaimConsistency`: nothing for a document without citations; otherwise one fine
   * result per distinct citation key, in order of first appearance, each naming its key
   * and asking for review.
   */
  function ClaimConsistency(content: string, file: string): (r: seq<SweepResult>)
    ensures Citations.CitationTokens(content) == [] ==> r == []
    ensures |r| == |Seqs.Dedup(Citations.CitationTokens(content))|
    ensures forall k :: 0 <= k < |r| ==>
      && r[k].status == OK && r[k].checkType == ClaimConsistencyCheck && r[k].file == file
      && r[k].target == Seqs.Dedup(Citations.CitationTokens(content))[k]
      && r[k].details == CitationDetails(r[k].target, true)
    ensures forall i, j :: 0 <= i < j < |r| ==> r[i].target != r[j].target
    ensures forall c :: c in Citations.CitationTokens(content) <==> exists k :: 0 <= k < |r| && r[k].target == c
  {
    var citations := Seqs.Dedup(Citations.CitationTokens(content));
    if |citations| == 0 then []
    else
      var r := seq(|citations|, k requires 0 <= k < |citations| => ReviewRequest(citations[k], file));
      forall c | c in citations ensures exists k :: 0 <= k < |r| && r[k].target == c {
        var k := Seqs.FirstIndex(citations, c);
        assert r[k].target == c;
      }
      r
  }
}
