/**
 * Citation keys: finding `@paper:<key>` markers in a document and checking each key
 * against the local paper index through the `bip` tool.
 */
module Citations {
  import opened Results
  import opened Text
  import opened VerifyTypes
  import Seqs

  const Marker: string := "@paper:"

  /** The characters a key may hold: `[a-zA-Z0-9_-]`. */
  predicate IsKeyChar(c: char) { IsAsciiLetter(c) || IsDigit(c) || c == '_' || c == '-' }

  /** The longest prefix of `s` made of key characters. */
  function KeyRun(s: string): (r: string)
    ensures |r| <= |s| && r == s[..|r|]
    ensures forall k :: 0 <= k < |r| ==> IsKeyChar(r[k])
    ensures |r| == |s| || !IsKeyChar(s[|r|])
  {
    if |s| > 0 && IsKeyChar(s[0]) then [s[0]] + KeyRun(s[1..]) else []
  }

  /** The citation pattern `@paper:([a-zA-Z0-9_-]+)` matches at position `i`. */
  predicate CitationAt(s: string, i: int) {
    At(s, i, Marker) && i + 7 < |s| && IsKeyChar(s[i + 7])
  }

  /** The key captured by a match at position `i`: the whole run of key characters. */
  function KeyAt(s: string, i: int): string
    requires CitationAt(s, i)
  {
    KeyRun(s[i + 7..])
  }

  /** The pattern matches somewhere in `s` (the regexp's `MatchString`). */
  predicate HasCitation(s: string) {
    exists i :: 0 <= i < |s| && CitationAt(s, i)
  }

  /**
   * The keys captured by the citation pattern's successive leftmost matches, repeats
   * included (`FindAllStringSubmatch`, group 1). A match runs to the end of its key, and
   * the search resumes after it.
   */
  function CitationTokens(s: string): seq<string>
    decreases |s|
  {
    if |s| == 0 then []
    else if CitationAt(s, 0) then
      var key := KeyRun(s[7..]);
      [key] + CitationTokens(s[7 + |key|..])
    else CitationTokens(s[1..])
  }

  lemma AtShift(s: string, m: int, i: int, sub: string)
    requires 0 <= m <= |s| && 0 <= i
    ensures At(s[m..], i, sub) <==> At(s, m + i, sub)
  {
    if m + i + |sub| <= |s| {
      assert s[m..][i..i + |sub|] == s[m + i..m + i + |sub|];
    }
  }

  lemma CitationAtShift(s: string, m: int, i: int)
    requires 0 <= m <= |s| && 0 <= i
    ensures CitationAt(s[m..], i) <==> CitationAt(s, m + i)
    ensures CitationAt(s, m + i) ==> KeyAt(s[m..], i) == KeyAt(s, m + i)
  {
    AtShift(s, m, i, Marker);
    if m + i + 7 <= |s| {
      assert s[m..][i + 7..] == s[m + i + 7..];
    }
  }

  /** Every captured key is the full key of some match of the pattern. */
  lemma {:induction false} CitationTokensSound(s: string)
    ensures forall t :: t in CitationTokens(s) ==> exists i :: CitationAt(s, i) && KeyAt(s, i) == t
    decreases |s|
  {
    if |s| > 0 {
      var skip := if CitationAt(s, 0) then 7 + |KeyRun(s[7..])| else 1;
      var rest := s[skip..];
      CitationTokensSound(rest);
      forall t | t in CitationTokens(rest) ensures exists i :: CitationAt(s, i) && KeyAt(s, i) == t {
        var i :| CitationAt(rest, i) && KeyAt(rest, i) == t;
        CitationAtShift(s, skip, i);
      }
    }
  }

  /** Every match of the pattern contributes its key. */
  lemma {:induction false} CitationTokensComplete(s: string, i: int)
    requires CitationAt(s, i)
    ensures KeyAt(s, i) in CitationTokens(s)
    decreases |s|
  {
    if i > 0 {
      if CitationAt(s, 0) {
        var key := KeyRun(s[7..]);
        var skip := 7 + |key|;
        assert s[i] == '@';
        forall j | 1 <= j < 7 ensures s[j] != '@' {
          assert s[j] == Marker[j];
        }
        forall j | 7 <= j < skip ensures s[j] != '@' {
          assert s[j] == key[j - 7];
        }
        assert skip <= i;
        CitationAtShift(s, skip, i - skip);
        CitationTokensComplete(s[skip..], i - skip);
      } else {
        CitationAtShift(s, 1, i - 1);
        CitationTokensComplete(s[1..], i - 1);
      }
    }
  }

  /** The pattern matches somewhere exactly when it captures at least one key. */
  lemma HasCitationIffTokens(s: string)
    ensures HasCitation(s) <==> |CitationTokens(s)| > 0
  {
    if HasCitation(s) {
      var i :| CitationAt(s, i);
      CitationTokensComplete(s, i);
    }
    if |CitationTokens(s)| > 0 {
      CitationTokensSound(s);
      assert CitationTokens(s)[0] in CitationTokens(s);
    }
  }

  /**
   * The distinct citation keys of a document in order of first appearance: the loop over
   * the pattern's matches that skips keys already seen.
   */
  method ExtractCitations(content: string) returns (citations: seq<string>)
    ensures citations == Seqs.Dedup(CitationTokens(content))
    ensures Seqs.NoDuplicates(citations)
    ensures forall k :: k in citations <==> exists i :: CitationAt(content, i) && KeyAt(content, i) == k
  {
    var matches := CitationTokens(content);
    var seen: set<string> := {};
    citations := [];
    var i := 0;
    while i < |matches|
      invariant 0 <= i <= |matches|
      invariant citations == Seqs.Dedup(matches[..i])
      invariant forall k :: k in seen <==> k in citations
    {
      assert matches[..i + 1] == matches[..i] + [matches[i]];
      var id := matches[i];
      if id !in seen {
        seen := seen + {id};
        citations := citations + [id];
      }
      i := i + 1;
    }
    assert matches[..i] == matches;
    CitationTokensSound(content);
    forall k | exists i :: CitationAt(content, i) && KeyAt(content, i) == k ensures k in citations {
      var j :| CitationAt(content, j) && KeyAt(content, j) == k;
      CitationTokensComplete(content, j);
    }
  }

  // ---------------------------------------------------------------- lookup

  /** What running `bip s2 get <paper id>` did: no such tool, exit status zero, or a failure with its stderr. */
  datatype BipAnswer = BipNotInstalled | BipSucceeded | BipFailed(stderr: string)

  /**
   * Whether the paper is known to the local index. A failure whose stderr mentions
   * "not found" or "no such" is an ordinary "unknown paper"; any other failure, and a
   * missing tool, is an error.
   */
  function LookupPaper(answer: BipAnswer): (r: Result<bool, string>)
    ensures r == Ok(true) <==> answer.BipSucceeded?
    ensures r == Ok(false) <==> answer.BipFailed? && (Contains(answer.stderr, "not found") || Contains(answer.stderr, "no such"))
    ensures r.Err? <==> answer.BipNotInstalled? || (answer.BipFailed? && !Contains(answer.stderr, "not found") && !Contains(answer.stderr, "no such"))
  {
    match answer
    case BipNotInstalled => Err("bip CLI not found")
    case BipSucceeded => Ok(true)
    case BipFailed(stderr) =>
      if Contains(stderr, "not found") || Contains(stderr, "no such") then Ok(false)
      else Err("bip lookup failed: " + stderr)
  }

  /**
   * The citation check of one key: it passes exactly when the index knows the paper, and
   * the details record the key and whether it resolved.
   */
  function VerifyCitation(paperId: string, file: string, line: int, lineText: string, answer: BipAnswer): (r: VerificationResult)
    ensures r.checkType == Citation && r.target == Target(file, line, lineText)
    ensures r.status == Pass <==> answer.BipSucceeded?
    ensures r.status != Warn
    ensures r.details == CitationDetails(paperId, r.status == Pass)
  {
    var target := Target(file, line, lineText);
    match LookupPaper(answer)
    case Err(e) =>
      VerificationResult(Citation, target, Fail, CitationLookupFailed(paperId, e), CitationDetails(paperId, false))
    case Ok(resolved) =>
      VerificationResult(Citation, target, if resolved then Pass else Fail,
        if resolved then CitationResolved(paperId) else CitationNotFound(paperId),
        CitationDetails(paperId, resolved))
  }
}
