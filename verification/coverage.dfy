/**
 * Coverage gaps: a warning when a long document cites too little, and the (so far
 * inactive) check for techniques named without an explanation.
 */
module Coverage {
  import opened Results
  import opened Text
  import opened SweepTypes
  import Citations
  import Patterns

  // ---------------------------------------------------------------- citation density

  /** The number of non-overlapping matches of `\n\n`, found left to right. */
  function BlankLineCount(s: string): (n: nat)
    ensures 2 * n <= |s|
    decreases |s|
  {
    if |s| < 2 then 0
    else if s[0] == '\n' && s[1] == '\n' then 1 + BlankLineCount(s[2..])
    else BlankLineCount(s[1..])
  }

  /**
   * Joining two texts with a blank line adds exactly one break when the first does not
   * end in a newline; so `n` newline-free paragraphs joined this way count as `n`.
   */
  lemma {:induction false} JoinParagraphs(a: string, b: string)
    requires a == [] || a[|a| - 1] != '\n'
    ensures BlankLineCount(a + "\n\n" + b) == BlankLineCount(a) + 1 + BlankLineCount(b)
    decreases |a|
  {
    var s := a + "\n\n" + b;
    if a == [] {
      assert s[2..] == b;
    } else if |a| >= 2 && a[0] == '\n' && a[1] == '\n' {
      assert s[2..] == a[2..] + "\n\n" + b;
      JoinParagraphs(a[2..], b);
    } else {
      assert s[1..] == a[1..] + "\n\n" + b;
      JoinParagraphs(a[1..], b);
    }
  }

  /** The paragraph estimate: one more than the number of blank-line breaks. */
  function Paragraphs(content: string): int {
    BlankLineCount(content) + 1
  }

  /** The number of matches of the citation pattern, repeats included. */
  function CitationCount(content: string): int {
    |Citations.CitationTokens(content)|
  }

  /**
   * `checkCitationDensity`: one warning, about the whole file, when there are more than
   * five paragraphs and fewer citations than a third of them (integer division).
   */
  function CitationDensity(content: string, file: string): (r: seq<SweepResult>)
    ensures |r| <= 1
    ensures forall x :: x in r ==> x.checkType == CoverageCheck && x.status == Warning && x.target == file && x.file == file
  {
    var paragraphs := Paragraphs(content);
    var citations := CitationCount(content);
    if paragraphs > 5 && citations < paragraphs / 3 then
      [SweepResult(CoverageCheck, Warning, file, file, LowCitationDensity, DensityDetails(paragraphs, citations), Some(ReviewForCitations))]
    else []
  }

  /**
   * The density rule in whole numbers: a warning exactly when there are at least six
   * paragraphs and three times one more than the citation count still fits in them.
   */
  lemma DensityRule(content: string, file: string)
    ensures |CitationDensity(content, file)| == 1 <==>
      Paragraphs(content) >= 6 && 3 * (CitationCount(content) + 1) <= Paragraphs(content)
  {
    var p := Paragraphs(content);
    var c := CitationCount(content);
    if p > 5 {
      assert c < p / 3 <==> 3 * (c + 1) <= p by {
        assert p == 3 * (p / 3) + p % 3;
      }
    }
  }

  // ---------------------------------------------------------------- techniques

  /** The alternatives of `(?i)\b(algorithm|method|technique|approach|strategy)\b`, in order. */
  const Techniques: seq<string> := ["algorithm", "method", "technique", "approach", "strategy"]

  /** The first alternative that matches at `i` between word boundaries, case-folded. */
  function TechniqueAt(s: string, i: int, words: seq<string>): (r: Option<string>)
    requires 0 <= i <= |s|
    ensures r.Some? ==> r.value in words && Patterns.FoldedAt(s, i, r.value)
  {
    if words == [] then None
    else
      var w := words[0];
      if Patterns.AtWordBoundary(s, i) && Patterns.FoldedAt(s, i, w) && Patterns.AtWordBoundary(s, i + |w|) then Some(w)
      else TechniqueAt(s, i, words[1..])
  }

  /** The text of the pattern's successive leftmost matches from position `i` on (`FindAllString`). */
  function TechniquesFrom(s: string, i: int): seq<string>
    requires 0 <= i <= |s|
    decreases |s| - i
  {
    if i == |s| then []
    else match TechniqueAt(s, i, Techniques)
      case Some(w) =>
        assert |w| > 0 by {
          assert forall t :: t in Techniques ==> |t| > 0;
        }
        [s[i..i + |w|]] + TechniquesFrom(s, i + |w|)
      case None => TechniquesFrom(s, i + 1)
  }

  /** `isExplained`: a placeholder that counts every mention as explained. */
  predicate IsExplained(content: string, term: string) {
    true
  }

  /**
   * `checkUnexplainedTechniques` over the mentions found: a warning for each one that is
   * not explained. With every mention counted as explained, there are none.
   */
  function UnexplainedTechniques(content: string, file: string, mentions: seq<string>): (r: seq<SweepResult>)
    ensures r == []
    decreases |mentions|
  {
    if mentions == [] then []
    else
      var rest := UnexplainedTechniques(content, file, mentions[..|mentions| - 1]);
      var t := mentions[|mentions| - 1];
      if IsExplained(content, t) then rest
      else rest + [SweepResult(CoverageCheck, Warning, t, file, TechniqueUnexplained, TechniqueDetails(t), Some(ExplainTechnique))]
  }

  /**
   * `CheckCoverageGaps`: the density finding followed by the technique findings, so at
   * most one warning, about the file itself.
   */
  function CoverageGaps(content: string, file: string): (r: seq<SweepResult>)
    ensures |r| <= 1
    ensures forall x :: x in r ==> x.checkType == CoverageCheck && x.status == Warning && x.target == file && x.file == file
    ensures |r| == 1 <==> Paragraphs(content) > 5 && CitationCount(content) < Paragraphs(content) / 3
  {
    CitationDensity(content, file) + UnexplainedTechniques(content, file, TechniquesFrom(content, 0))
  }
}
