/**
 * TODO markers and factual claims: the scanner for leftover TODO/FIXME/XXX/HACK markers,
 * the three tables of phrase patterns behind the citation heuristics, and the claim check
 * that consults a language model only when the heuristics have nothing to say.
 */
module Claims {
  import opened Results
  import opened Text
  import opened Patterns
  import opened VerifyTypes
  import Llm

  // ---------------------------------------------------------------- TODO markers

  const TodoWords: seq<string> := ["TODO", "FIXME", "XXX", "HACK"]

  /**
   * The marker word of the pattern `(?i)\b(TODO|FIXME|XXX|HACK)\b` at position `i`, if any.
   * The four words start with different letters, so at most one can match.
   */
  function TodoWordAt(s: string, i: int): (r: Option<string>)
    requires 0 <= i <= |s|
    ensures r.Some? ==>
      r.value in TodoWords && FoldedAt(s, i, r.value) && AtWordBoundary(s, i) && AtWordBoundary(s, i + |r.value|)
  {
    if !AtWordBoundary(s, i) then None
    else if FoldedAt(s, i, "TODO") && AtWordBoundary(s, i + 4) then Some("TODO")
    else if FoldedAt(s, i, "FIXME") && AtWordBoundary(s, i + 5) then Some("FIXME")
    else if FoldedAt(s, i, "XXX") && AtWordBoundary(s, i + 3) then Some("XXX")
    else if FoldedAt(s, i, "HACK") && AtWordBoundary(s, i + 4) then Some("HACK")
    else None
  }

  /** The length of a marker match of `\b(TODO|FIXME|XXX|HACK)\b:?\s*` that starts with `word` at `i`. */
  function TodoMatchLen(s: string, i: int, word: string): (n: nat)
    requires 0 <= i && i + |word| <= |s|
    ensures |word| <= n && i + n <= |s|
  {
    var j := i + |word|;
    var k := if j < |s| && s[j] == ':' then j + 1 else j;
    k - i + RunLen(s, k, IsRegexSpace)
  }

  /** The markers found from position `i` on: each match is taken whole, and the search resumes after it. */
  function TodoMarkersFrom(s: string, i: int): (r: seq<string>)
    requires 0 <= i <= |s|
    ensures forall m :: m in r ==> exists w :: w in TodoWords && FoldedAt(m, 0, w)
    decreases |s| - i
  {
    if i == |s| then []
    else match TodoWordAt(s, i)
      case Some(w) =>
        var n := TodoMatchLen(s, i, w);
        var m := s[i..i + n];
        assert FoldedAt(m, 0, w);
        [m] + TodoMarkersFrom(s, i + n)
      case None => TodoMarkersFrom(s, i + 1)
  }

  /** The length of the marker match at `i`, 0 when no marker word starts there. */
  function TodoLenAt(s: string, i: int): nat
    requires 0 <= i <= |s|
  {
    match TodoWordAt(s, i)
    case Some(w) => TodoMatchLen(s, i, w)
    case None => 0
  }

  /** A marker starts at `j`, and none starts from `i` up to `j`. */
  predicate FirstTodoAt(s: string, i: int, j: int) {
    0 <= i <= j < |s| && TodoWordAt(s, j).Some? && forall k :: i <= k < j ==> TodoWordAt(s, k).None?
  }

  /** The search from `i` takes first the first marker at or after `i` whole, then resumes after it. */
  lemma {:induction false} TodoMarkersFromFirst(s: string, i: int, j: int)
    requires FirstTodoAt(s, i, j)
    ensures TodoMarkersFrom(s, i) == [s[j..j + TodoLenAt(s, j)]] + TodoMarkersFrom(s, j + TodoLenAt(s, j))
    decreases j - i
  {
    if i < j {
      assert FirstTodoAt(s, i + 1, j);
      TodoMarkersFromFirst(s, i + 1, j);
    }
  }

  /** The search from `i` finds nothing exactly when no marker word starts at or after `i`. */
  lemma {:induction false} TodoMarkersFromEmpty(s: string, i: int)
    requires 0 <= i <= |s|
    ensures TodoMarkersFrom(s, i) == [] <==> forall k :: i <= k < |s| ==> TodoWordAt(s, k).None?
    decreases |s| - i
  {
    if i < |s| && TodoWordAt(s, i).None? {
      TodoMarkersFromEmpty(s, i + 1);
    }
  }

  /**
   * `ExtractTodoMarkers`: every match of the marker pattern, in order, each beginning with
   * one of the four words in any letter case; there is none exactly when no marker word
   * starts anywhere, and the first is the whole leftmost match, after which the search
   * resumes at its end.
   */
  function ExtractTodoMarkers(content: string): (r: seq<string>)
    ensures forall m :: m in r ==> exists w :: w in TodoWords && FoldedAt(m, 0, w)
    ensures r == [] <==> forall k :: 0 <= k < |content| ==> TodoWordAt(content, k).None?
    ensures forall j :: FirstTodoAt(content, 0, j) ==>
      r == [content[j..j + TodoLenAt(content, j)]] + TodoMarkersFrom(content, j + TodoLenAt(content, j))
  {
    TodoMarkersFromEmpty(content, 0);
    forall j | FirstTodoAt(content, 0, j)
      ensures TodoMarkersFrom(content, 0)
        == [content[j..j + TodoLenAt(content, j)]] + TodoMarkersFrom(content, j + TodoLenAt(content, j))
    {
      TodoMarkersFromFirst(content, 0, j);
    }
    TodoMarkersFrom(content, 0)
  }

  /** A marker is always a failure, reported at the line it was found on. */
  function VerifyTodoMarker(marker: string, file: string, line: int, text: string): (r: VerificationResult)
    ensures r.checkType == TodoMarker && r.status == Fail
    ensures r.target == Target(file, line, text) && r.message == TodoFound
  {
    VerificationResult(TodoMarker, Target(file, line, text), Fail, TodoFound, NoDetails)
  }

  // ---------------------------------------------------------------- heuristic tables

  /** The three pattern tables of the heuristics. */
  datatype Table = MustCiteTable | ShouldCiteTable | ExemptTable

  /** The `e\.g\.` branch of the example pattern, with the word boundaries around the group. */
  const ExampleEg: Alternative := "|e.g.|"

  /** The patterns of each table, in the source's order, one list of alternatives per regexp. */
  function TableOf(t: Table): seq<Pattern> {
    match t
    case MustCiteTable => [
      // \b(\d+%|\d+x|faster|slower|better|worse)\s+(than|compared to)
      ["|#%_than", "|#%_compared to", "|#x_than", "|#x_compared to",
       "|faster_than", "|faster_compared to", "|slower_than", "|slower_compared to",
       "|better_than", "|better_compared to", "|worse_than", "|worse_compared to"],
      // \b(discovered|introduced|invented|developed)\s+by
      ["|discovered_by", "|introduced_by", "|invented_by", "|developed_by"],
      // \b(as shown|as described|according to|as demonstrated)\s+(in|by)
      ["|as shown_in", "|as shown_by", "|as described_in", "|as described_by",
       "|according to_in", "|according to_by", "|as demonstrated_in", "|as demonstrated_by"],
      // \bstudies\s+(have\s+)?(shown|demonstrated|found|revealed)
      ["|studies_have_shown", "|studies_have_demonstrated", "|studies_have_found", "|studies_have_revealed",
       "|studies_shown", "|studies_demonstrated", "|studies_found", "|studies_revealed"]]
    case ShouldCiteTable => [
      // \b(causes?|leads?\s+to|results?\s+in)\b
      ["|cause?s|", "|lead?s_to|", "|result?s_in|"],
      // \b(O\(n|O\(log|complexity\s+of)
      ["|O(n", "|O(log", "|complexity_of"],
      // \b(historically|traditionally|originally)\b
      ["|historically|", "|traditionally|", "|originally|"]]
    case ExemptTable => [
      // \b(is\s+defined\s+as|refers?\s+to|means?)\b
      ["|is_defined_as|", "|refer?s_to|", "|mean?s|"],
      // \b(for\s+example|e\.g\.|such\s+as|i\.e\.)\b
      ["|for_example|", ExampleEg, "|such_as|", "|i.e.|"],
      // \b(in\s+this\s+(section|chapter)|we\s+now|let\s+us)\b
      ["|in_this_section|", "|in_this_chapter|", "|we_now|", "|let_us|"],
      // ^```: a code fence at the start
      ["^```"]]
  }

  predicate IsExempt(sentence: string) { AnyMatches(TableOf(ExemptTable), sentence) }
  predicate MustCite(sentence: string) { AnyMatches(TableOf(MustCiteTable), sentence) }
  predicate ShouldCite(sentence: string) { AnyMatches(TableOf(ShouldCiteTable), sentence) }

  /**
   * Because a word boundary follows the group, the `e.g.` branch matches only where a word
   * character comes right after the second period, never before a space or a comma.
   */
  lemma ExampleEgNeedsWordAfter(s: string, i: int)
    requires 0 <= i <= |s|
    requires MatchAt(ExampleEg, s, i)
    ensures i + 4 < |s| && IsWordChar(s[i + 4])
  {
    assert ExampleEg[1..] == "e.g." + "|";
    assert MatchAt("e.g." + "|", s, i);
    MatchWord("e.g.", "|", s, i);
    assert FoldEq(s[i + 3], "e.g."[3]);
    assert s[i + 3] == '.';
    assert AtWordBoundary(s, i + 4);
  }

  // ---------------------------------------------------------------- heuristics

  const High: string := "high"
  const Medium: string := "medium"
  const Low: string := "low"

  /** The outcome of a claim analysis: whether a citation is needed, how sure, and why. */
  datatype Verdict = Verdict(needsCitation: bool, confidence: string, reason: Reason)

  /**
   * The heuristic ladder on the three pattern verdicts. Exemptions win over everything;
   * then a must-cite phrase gives a confident "cite", a should-cite phrase a medium one;
   * with no phrase at all the answer is "no citation", with low confidence.
   */
  function Ladder(exempt: bool, mustCite: bool, shouldCite: bool): Verdict {
    if exempt then Verdict(false, High, ExemptPhrase)
    else if mustCite then Verdict(true, High, MustCitePhrase)
    else if shouldCite then Verdict(true, Medium, ShouldCitePhrase)
    else Verdict(false, Low, NoPhrase)
  }

  /** The ladder asks for a citation exactly when a phrase asks for one and none exempts, and is as sure as the strongest rung reached. */
  lemma LadderSpec(exempt: bool, mustCite: bool, shouldCite: bool)
    ensures var v := Ladder(exempt, mustCite, shouldCite);
      && (v.needsCitation <==> !exempt && (mustCite || shouldCite))
      && (v.confidence == High <==> exempt || mustCite)
      && (v.confidence == Medium <==> !exempt && !mustCite && shouldCite)
      && (v.confidence == Low <==> !exempt && !mustCite && !shouldCite)
  {
  }

  /** The heuristics: the ladder applied to what the three tables find in the trimmed sentence. */
  function AnalyzeClaimWithHeuristics(sentence: string): Verdict {
    var t := TrimSpace(sentence);
    Ladder(IsExempt(t), MustCite(t), ShouldCite(t))
  }

  /** The heuristic verdict in terms of the three tables, matched against the trimmed sentence. */
  lemma HeuristicsSpec(sentence: string)
    ensures var v := AnalyzeClaimWithHeuristics(sentence);
      var t := TrimSpace(sentence);
      && (v.needsCitation <==> !IsExempt(t) && (MustCite(t) || ShouldCite(t)))
      && (v.confidence == High <==> IsExempt(t) || MustCite(t))
      && (v.confidence == Medium <==> !IsExempt(t) && !MustCite(t) && ShouldCite(t))
      && (v.confidence == Low <==> !IsExempt(t) && !MustCite(t) && !ShouldCite(t))
  {
    var t := TrimSpace(sentence);
    LadderSpec(IsExempt(t), MustCite(t), ShouldCite(t));
  }

  /** White space around a sentence does not change the heuristics' verdict. */
  lemma HeuristicsIgnoreSurroundingSpace(sentence: string)
    ensures AnalyzeClaimWithHeuristics(TrimSpace(sentence)) == AnalyzeClaimWithHeuristics(sentence)
  {
    TrimSpaceIdempotent(sentence);
  }

  function FromAnalysis(a: Llm.ClaimAnalysisResult): Verdict {
    Verdict(a.needsCitation, a.confidence, ModelReason(a.reason))
  }

  /**
   * The verdict the claim check acts on: the heuristics', replaced by the model's answer
   * only when the heuristics are unsure, the model is wanted and available, and its
   * answer was obtained and decoded.
   */
  function FinalVerdict(sentence: string, useLLM: bool, env: Llm.Env): Verdict {
    var h := AnalyzeClaimWithHeuristics(sentence);
    if h.confidence == Low && useLLM && Llm.IsAvailable(env) then
      match Llm.NewClient(env)
      case Err(_) => h
      case Ok(client) =>
        match Llm.AnalyzeClaim(client, sentence, env)
        case Ok(analysis) => FromAnalysis(analysis)
        case Err(_) => h
    else h
  }

  /**
   * The model is consulted only when the heuristics are unsure and it is wanted and
   * available; any verdict other than the heuristics' is the model's decoded answer.
   */
  lemma FinalVerdictSpec(sentence: string, useLLM: bool, env: Llm.Env)
    ensures var v := FinalVerdict(sentence, useLLM, env);
      var h := AnalyzeClaimWithHeuristics(sentence);
      && ((h.confidence != Low || !useLLM || !Llm.IsAvailable(env)) ==> v == h)
      && (v != h ==>
        && Llm.IsAvailable(env) && Llm.AnalyzeClaim(Llm.NewClient(env).value, sentence, env).Ok?
        && v == FromAnalysis(Llm.AnalyzeClaim(Llm.NewClient(env).value, sentence, env).value))
  {
  }

  const NoAction: string := "no action needed"
  const AddCitation: string := "add citation"

  /**
   * The result of the claim check. A sentence with a citation nearby passes outright;
   * otherwise it fails exactly when the final verdict asks for a citation, and the
   * details carry the verdict's confidence and the action to take.
   */
  function ClaimOutcome(sentence: string, file: string, line: int, hasCitation: bool, useLLM: bool, env: Llm.Env)
    : (r: VerificationResult)
    ensures r.checkType == Claim && r.target == Target(file, line, sentence) && r.status != Warn
    ensures hasCitation ==> r.status == Pass
  {
    var target := Target(file, line, sentence);
    if hasCitation then
      VerificationResult(Claim, target, Pass, ClaimCited, ClaimDetails(sentence, High, NoAction))
    else
      var v := FinalVerdict(sentence, useLLM, env);
      if v.needsCitation then
        VerificationResult(Claim, target, Fail, ClaimUncited, ClaimDetails(sentence, v.confidence, AddCitation))
      else
        VerificationResult(Claim, target, Pass, ReasonGiven(v.reason), ClaimDetails(sentence, v.confidence, NoAction))
  }

  /**
   * The details of a claim result carry the sentence; with a citation nearby it passes
   * with high confidence, otherwise it fails exactly when the final
   * verdict asks for a citation and carries that verdict's confidence; failures suggest
   * adding a citation.
   */
  lemma ClaimOutcomeSpec(sentence: string, file: string, line: int, hasCitation: bool, useLLM: bool, env: Llm.Env)
    ensures var r := ClaimOutcome(sentence, file, line, hasCitation, useLLM, env);
      && r.details.ClaimDetails? && r.details.claimText == sentence
      && (hasCitation ==> r.status == Pass && r.details == ClaimDetails(sentence, High, NoAction))
      && (!hasCitation ==> (r.status == Fail <==> FinalVerdict(sentence, useLLM, env).needsCitation))
      && (!hasCitation ==> r.details.confidence == FinalVerdict(sentence, useLLM, env).confidence)
      && r.details.suggestedAction == (if r.status == Fail then AddCitation else NoAction)
  {
  }

  /** An exempt sentence never fails the claim check, whatever the model would say. */
  lemma ExemptNeverFails(sentence: string, file: string, line: int, hasCitation: bool, useLLM: bool, env: Llm.Env)
    requires IsExempt(TrimSpace(sentence))
    ensures ClaimOutcome(sentence, file, line, hasCitation, useLLM, env).status == Pass
  {
    HeuristicsSpec(sentence);
    FinalVerdictSpec(sentence, useLLM, env);
  }

  /** A must-cite phrase without an exemption or a nearby citation always fails, with high confidence. */
  lemma MustCiteFails(sentence: string, file: string, line: int, useLLM: bool, env: Llm.Env)
    requires !IsExempt(TrimSpace(sentence)) && MustCite(TrimSpace(sentence))
    ensures ClaimOutcome(sentence, file, line, false, useLLM, env).status == Fail
    ensures ClaimOutcome(sentence, file, line, false, useLLM, env).details.confidence == High
  {
    HeuristicsSpec(sentence);
    FinalVerdictSpec(sentence, useLLM, env);
  }

  /**
   * The verdict as `VerifyClaim` computes it in its locals: the heuristics first, their
   * answer overwritten by the model's when it is consulted and answers.
   */
  method DecideClaim(sentence: string, useLLM: bool, env: Llm.Env) returns (v: Verdict)
    ensures v == FinalVerdict(sentence, useLLM, env)
  {
    var h := AnalyzeClaimWithHeuristics(sentence);
    var needsCitation, confidence, reason := h.needsCitation, h.confidence, h.reason;
    if confidence == Low && useLLM && Llm.IsAvailable(env) {
      var client := Llm.NewClient(env);
      if client.Ok? {
        var analysis := Llm.AnalyzeClaim(client.value, sentence, env);
        if analysis.Ok? {
          needsCitation := analysis.value.needsCitation;
          confidence := analysis.value.confidence;
          reason := ModelReason(analysis.value.reason);
        }
      }
    }
    v := Verdict(needsCitation, confidence, reason);
  }

  /** `VerifyClaim`: a nearby citation passes outright; otherwise the verdict decides. */
  method VerifyClaim(sentence: string, file: string, line: int, hasCitation: bool, useLLM: bool, env: Llm.Env)
    returns (result: VerificationResult)
    ensures result == ClaimOutcome(sentence, file, line, hasCitation, useLLM, env)
  {
    var target := Target(file, line, sentence);
    if hasCitation {
      return VerificationResult(Claim, target, Pass, ClaimCited, ClaimDetails(sentence, High, NoAction));
    }
    var v := DecideClaim(sentence, useLLM, env);
    if v.needsCitation {
      result := VerificationResult(Claim, target, Fail, ClaimUncited, ClaimDetails(sentence, v.confidence, AddCitation));
    } else {
      result := VerificationResult(Claim, target, Pass, ReasonGiven(v.reason), ClaimDetails(sentence, v.confidence, NoAction));
    }
  }
}
