/**
 * The per-file run: the document split into lines as a line scanner reads it, every check
 * applied to its lines or to its whole text, and the findings of all files gathered into
 * one report.
 */
module Verify {
  import opened Results
  import opened Text
  import opened VerifyTypes
  import Seqs
  import VerifyReport
  import Citations
  import Claims
  import Urls
  import CodeLinks
  import Llm

  // ---------------------------------------------------------------- lines

  predicate NotNewline(c: char) { c != '\n' }

  /** A line scanner drops one carriage return before the line feed. */
  function DropCR(line: string): (r: string)
    ensures |r| <= |line| && r == line[..|r|] && |line| - 1 <= |r|
  {
    if |line| > 0 && line[|line| - 1] == '\r' then line[..|line| - 1] else line
  }

  /**
   * The lines of a text as `bufio.ScanLines` yields them: split at each line feed, each
   * without its carriage return; a final line feed does not start another line.
   */
  function Lines(s: string): (r: seq<string>)
    ensures forall k :: 0 <= k < |r| ==> All(r[k], NotNewline)
    ensures s == [] <==> r == []
    decreases |s|
  {
    if s == [] then []
    else
      var n := RunLen(s, 0, NotNewline);
      RunSlice(s, 0, n, NotNewline);
      var line := DropCR(s[..n]);
      if n == |s| then [line] else [line] + Lines(s[n + 1..])
  }

  /** A line followed by a line feed is read as that line, then the rest. */
  lemma LinesOfNewline(a: string, b: string)
    requires All(a, NotNewline)
    ensures Lines(a + "\n" + b) == [DropCR(a)] + Lines(b)
  {
    var s := a + "\n" + b;
    var n := RunLen(s, 0, NotNewline);
    assert forall k :: 0 <= k < |a| ==> s[k] == a[k];
    assert s[|a|] == '\n';
    assert n == |a|;
    assert s[..n] == a;
    assert s[n + 1..] == b;
  }

  // ---------------------------------------------------------------- findLineNumber

  /**
   * The 1-based number of the first line containing `sub`, or 0 when no line does.
   */
  function LineOf(lines: seq<string>, sub: string): (n: nat)
    ensures n <= |lines|
    ensures n == 0 <==> forall k :: 0 <= k < |lines| ==> !Contains(lines[k], sub)
    ensures n > 0 ==> Contains(lines[n - 1], sub) && forall k :: 0 <= k < n - 1 ==> !Contains(lines[k], sub)
  {
    if lines == [] then 0
    else if Contains(lines[0], sub) then 1
    else
      var r := LineOf(lines[1..], sub);
      assert forall k :: 1 <= k < |lines| ==> lines[k] == lines[1..][k - 1];
      if r == 0 then 0 else r + 1
  }

  /** `findLineNumber`: the search loop that returns at the first line containing `sub`. */
  method FindLineNumber(lines: seq<string>, sub: string) returns (n: int)
    ensures n == LineOf(lines, sub)
  {
    var i := 0;
    while i < |lines|
      invariant 0 <= i <= |lines|
      invariant forall k :: 0 <= k < i ==> !Contains(lines[k], sub)
    {
      if Contains(lines[i], sub) {
        return i + 1;
      }
      i := i + 1;
    }
    return 0;
  }

  /** The text of line `n`, or "" when there is no such line. */
  function LineText(lines: seq<string>, n: int): string {
    if 0 < n <= |lines| then lines[n - 1] else ""
  }

  // ---------------------------------------------------------------- splitSentences

  predicate IsTerminator(c: char) { c == '.' || c == '?' || c == '!' }

  /** No sentence terminator anywhere in `s`. */
  predicate Unterminated(s: string) { forall k :: 0 <= k < |s| ==> !IsTerminator(s[k]) }

  /** A piece is kept when it is not empty. */
  function Keep(s: string): seq<string> {
    if |s| > 0 then [s] else []
  }

  /** What a sentence looks like: not empty, trimmed, and terminated at most at its end. */
  predicate IsSentence(p: string) {
    |p| > 0 && TrimSpace(p) == p && Unterminated(p[..|p| - 1])
  }

  /** A piece without terminators before its last character trims to at most one sentence. */
  lemma TrimmedPiece(c: string)
    requires |c| > 0 && Unterminated(c[..|c| - 1])
    ensures forall p :: p in Keep(TrimSpace(c)) ==> IsSentence(p)
  {
    var t := TrimSpace(c);
    TrimSpaceIdempotent(c);
    if |t| > 0 {
      forall k | 0 <= k < |t| - 1 ensures !IsTerminator(t[k]) {
        assert t[k] == c[TrimStart(c) + k];
        assert c[TrimStart(c) + k] == c[..|c| - 1][TrimStart(c) + k];
      }
    }
  }

  /**
   * The sentences of `text` when `current` has been read before it: a sentence ends at
   * each '.', '?' or '!', and is kept trimmed unless nothing but space is left.
   */
  function SplitFrom(text: string, current: string): seq<string>
    decreases |text|
  {
    if text == [] then Keep(TrimSpace(current))
    else
      var c := current + [text[0]];
      if IsTerminator(text[0]) then Keep(TrimSpace(c)) + SplitFrom(text[1..], [])
      else SplitFrom(text[1..], c)
  }

  /**
   * Every sentence is non-empty and trimmed, and holds a '.', '?' or '!' at most once,
   * as its last character.
   */
  lemma {:induction false} SplitFromSentences(text: string, current: string)
    requires Unterminated(current)
    ensures forall p :: p in SplitFrom(text, current) ==> IsSentence(p)
    decreases |text|
  {
    if text == [] {
      if current != [] {
        TrimmedPiece(current);
      }
    } else {
      var c := current + [text[0]];
      if IsTerminator(text[0]) {
        assert c[..|c| - 1] == current;
        TrimmedPiece(c);
        SplitFromSentences(text[1..], []);
      } else {
        SplitFromSentences(text[1..], c);
      }
    }
  }

  /** The sentences of a text. */
  function Sentences(text: string): (r: seq<string>)
    ensures forall p :: p in r ==> IsSentence(p)
  {
    SplitFromSentences(text, []);
    SplitFrom(text, [])
  }

  /** A text without terminators is one sentence: itself, trimmed, unless it is blank. */
  lemma {:induction false} UnterminatedIsOneSentence(text: string, current: string)
    requires Unterminated(current) && Unterminated(text)
    ensures SplitFrom(text, current) == Keep(TrimSpace(current + text))
    decreases |text|
  {
    if text == [] {
      assert current + text == current;
    } else {
      assert (current + [text[0]]) + text[1..] == current + text;
      UnterminatedIsOneSentence(text[1..], current + [text[0]]);
    }
  }

  /** Splitting after a terminator splits the sentences: they are read piece by piece. */
  lemma {:induction false} SplitAfterTerminator(a: string, b: string, current: string)
    requires Unterminated(current) && |a| > 0 && IsTerminator(a[|a| - 1])
    ensures SplitFrom(a + b, current) == SplitFrom(a, current) + SplitFrom(b, [])
    decreases |a|
  {
    var c := current + [a[0]];
    assert (a + b)[0] == a[0] && (a + b)[1..] == a[1..] + b;
    if |a| == 1 {
      assert a[1..] + b == b;
      assert SplitFrom(a[1..], []) == [];
    } else if IsTerminator(a[0]) {
      SplitAfterTerminator(a[1..], b, []);
    } else {
      SplitAfterTerminator(a[1..], b, c);
    }
  }

  /**
   * One step of the split: the next character read into `current`; at a terminator the
   * trimmed piece is kept when not empty and `current` starts afresh.
   */
  lemma SplitStep(text: string, i: int, current: string)
    requires 0 <= i < |text| && Unterminated(current)
    ensures IsTerminator(text[i]) ==>
      SplitFrom(text[i..], current) == Keep(TrimSpace(current + [text[i]])) + SplitFrom(text[i + 1..], [])
    ensures !IsTerminator(text[i]) ==>
      Unterminated(current + [text[i]]) && SplitFrom(text[i..], current) == SplitFrom(text[i + 1..], current + [text[i]])
  {
    assert text[i..][0] == text[i] && text[i..][1..] == text[i + 1..];
  }

  /**
   * `splitSentences`: the characters appended one by one to `current`, which is trimmed,
   * kept when not empty and reset at each terminator; what is left at the end is kept too.
   */
  method SplitSentences(text: string) returns (sentences: seq<string>)
    ensures sentences == Sentences(text)
  {
    sentences := [];
    var current: string := [];
    var i := 0;
    while i < |text|
      invariant 0 <= i <= |text|
      invariant Unterminated(current)
      invariant SplitFrom(text, []) == sentences + SplitFrom(text[i..], current)
    {
      SplitStep(text, i, current);
      ghost var before := sentences;
      current := current + [text[i]];
      if IsTerminator(text[i]) {
        var s := TrimSpace(current);
        if |s| > 0 {
          sentences := sentences + [s];
        }
        assert sentences == before + Keep(s);
        Seqs.ConcatAssoc(before, Keep(s), SplitFrom(text[i + 1..], []));
        current := [];
      }
      i := i + 1;
    }
    assert text[i..] == [];
    var s := TrimSpace(current);
    if |s| > 0 {
      sentences := sentences + [s];
    }
  }

  // ---------------------------------------------------------------- one file

  /** Options of a run: whether the claim check may consult a language model. */
  datatype Options = Options(useLLM: bool)

  /** `DefaultOptions`: the model is consulted. */
  const DefaultOptions: Options := Options(true)

  /**
   * The tools and services a run consults, as their answers: `bip` for each paper key,
   * the network for each URL, `gh` (whether installed, and its answer for each API path),
   * the language-model environment, and the file system (a file's text or the error
   * reading it).
   */
  datatype Env = Env(
    bip: string -> Citations.BipAnswer,
    http: string -> Urls.UrlProbe,
    ghOnPath: bool,
    ghApi: string -> CodeLinks.GhFileAnswer,
    llm: Llm.Env,
    read: string -> Result<string, string>)

  /** The marker findings of one line, numbered `n`. */
  function MarkerResults(file: string, n: int, line: string, markers: seq<string>): (r: seq<VerificationResult>)
    ensures |r| == |markers|
    ensures forall x :: x in r ==> x.checkType == TodoMarker && x.status == Fail && x.target == Target(file, n, line)
    decreases |markers|
  {
    if markers == [] then []
    else
      var init := MarkerResults(file, n, line, markers[..|markers| - 1]);
      init + [Claims.VerifyTodoMarker(markers[|markers| - 1], file, n, line)]
  }

  /** The number of marker matches on the first `n` lines. */
  function MarkerCount(lines: seq<string>, n: nat): nat
    requires n <= |lines|
  {
    if n == 0 then 0 else MarkerCount(lines, n - 1) + |Claims.ExtractTodoMarkers(lines[n - 1])|
  }

  /**
   * The marker findings of the first `n` lines: one failure per match of the marker
   * pattern, carrying the line's number and text.
   */
  function TodoResults(file: string, lines: seq<string>, n: nat): (r: seq<VerificationResult>)
    requires n <= |lines|
    ensures |r| == MarkerCount(lines, n)
    ensures forall x :: x in r ==>
      && x.checkType == TodoMarker && x.status == Fail
      && 1 <= x.target.line <= n && x.target.text == lines[x.target.line - 1]
  {
    if n == 0 then []
    else
      var init := TodoResults(file, lines, n - 1);
      init + MarkerResults(file, n, lines[n - 1], Claims.ExtractTodoMarkers(lines[n - 1]))
  }

  /** The check of one citation key, reported at the first line that cites it. */
  function CitationCheck(file: string, lines: seq<string>, key: string, env: Env): VerificationResult {
    var n := LineOf(lines, Citations.Marker + key);
    Citations.VerifyCitation(key, file, n, LineText(lines, n), env.bip(key))
  }

  /** One citation check per key, in order. */
  function CitationResults(file: string, lines: seq<string>, keys: seq<string>, env: Env): seq<VerificationResult>
    decreases |keys|
  {
    if keys == [] then []
    else CitationResults(file, lines, keys[..|keys| - 1], env) + [CitationCheck(file, lines, keys[|keys| - 1], env)]
  }

  /** The findings of one more key. */
  lemma CitationStep(file: string, lines: seq<string>, keys: seq<string>, i: int, env: Env)
    requires 0 <= i < |keys|
    ensures CitationResults(file, lines, keys[..i + 1], env)
      == CitationResults(file, lines, keys[..i], env) + [CitationCheck(file, lines, keys[i], env)]
  {
    assert keys[..i + 1][..i] == keys[..i];
  }

  /** One citation finding per key, in order, each naming its key and whether it resolved. */
  lemma {:induction false} CitationResultsShape(file: string, lines: seq<string>, keys: seq<string>, env: Env)
    ensures |CitationResults(file, lines, keys, env)| == |keys|
    ensures var r := CitationResults(file, lines, keys, env);
      forall k :: 0 <= k < |keys| ==>
        r[k].checkType == Citation && r[k].details == CitationDetails(keys[k], r[k].status == Pass)
    decreases |keys|
  {
    if keys != [] {
      var init := keys[..|keys| - 1];
      CitationResultsShape(file, lines, init, env);
      assert forall k :: 0 <= k < |keys| - 1 ==> keys[k] == init[k];
    }
  }

  /** A URL is given to the URL check unless it is a GitHub file link, which the code-link check covers. */
  predicate UrlChecked(url: string) {
    !(Contains(url, "github.com") && Contains(url, "/blob/"))
  }

  /** The check of one URL, reported at the first line that holds it. */
  function UrlCheck(file: string, lines: seq<string>, url: string, env: Env): VerificationResult {
    var n := LineOf(lines, url);
    Urls.UrlOutcome(url, file, n, LineText(lines, n), env.http(url))
  }

  /** One URL check per URL that is not a GitHub file link, in order. */
  function UrlResults(file: string, lines: seq<string>, urls: seq<string>, env: Env): (r: seq<VerificationResult>)
    ensures |r| == |Seqs.Filter(urls, UrlChecked)|
    ensures forall x :: x in r ==> x.checkType == Url && x.details.UrlDetails? && UrlChecked(x.details.url) && x.details.url in urls
    decreases |urls|
  {
    if urls == [] then []
    else
      var url := urls[|urls| - 1];
      UrlResults(file, lines, urls[..|urls| - 1], env) + (if UrlChecked(url) then [UrlCheck(file, lines, url, env)] else [])
  }

  /** The check of one code link, reported at the first line that holds it. */
  function CodeLinkCheck(file: string, lines: seq<string>, link: CodeLinks.CodeLinkMatch, env: Env): VerificationResult {
    var n := LineOf(lines, link.fullUrl);
    CodeLinks.CodeLinkOutcome(link, file, n, LineText(lines, n), env.ghOnPath,
      CodeLinks.CheckFileExistsAtCommit(env.ghApi(CodeLinks.ApiPath(link.owner, link.repo, link.commitSha, link.filePath))))
  }

  /** One code-link check per link, in order. */
  function CodeLinkResults(file: string, lines: seq<string>, links: seq<CodeLinks.CodeLinkMatch>, env: Env): seq<VerificationResult>
    decreases |links|
  {
    if links == [] then []
    else CodeLinkResults(file, lines, links[..|links| - 1], env) + [CodeLinkCheck(file, lines, links[|links| - 1], env)]
  }

  /** One code-link finding per link, in order, each naming its permalink. */
  lemma {:induction false} CodeLinkResultsShape(file: string, lines: seq<string>, links: seq<CodeLinks.CodeLinkMatch>, env: Env)
    ensures |CodeLinkResults(file, lines, links, env)| == |links|
    ensures var r := CodeLinkResults(file, lines, links, env);
      forall k :: 0 <= k < |links| ==>
        r[k].checkType == CodeLink && r[k].details.CodeLinkDetails? && r[k].details.permalink == links[k].fullUrl
    decreases |links|
  {
    if links != [] {
      var init := links[..|links| - 1];
      CodeLinkResultsShape(file, lines, init, env);
      assert forall k :: 0 <= k < |links| - 1 ==> links[k] == init[k];
    }
  }

  /** Lines the claim scan passes over: front matter, code fences, headings and blank lines. */
  predicate SkipLine(line: string) {
    HasPrefix(line, "---") || HasPrefix(line, "```") || HasPrefix(line, "#") || TrimSpace(line) == []
  }

  /** Fragments shorter than this many bytes are not treated as claims. */
  const MinClaimBytes: nat := 20

  /**
   * The claim finding of one sentence of line `n`, if any: short fragments are skipped; a
   * citation in the sentence or on its own line counts as nearby; only failures are kept.
   */
  function ClaimCheck(file: string, lines: seq<string>, n: int, sentence: string, useLLM: bool, env: Env): seq<VerificationResult> {
    var s := TrimSpace(sentence);
    if Utf8Len(s) < MinClaimBytes then []
    else
      var hasCitation := Citations.HasCitation(s) || (0 < n <= |lines| && Citations.HasCitation(lines[n - 1]));
      var result := Claims.ClaimOutcome(s, file, n, hasCitation, useLLM, env.llm);
      if result.status == Fail then [result] else []
  }

  /**
   * A sentence yields at most one finding: a failure on its line, about the trimmed
   * sentence, at least twenty bytes long, with no citation in it or on its line.
   */
  lemma ClaimCheckShape(file: string, lines: seq<string>, n: int, sentence: string, useLLM: bool, env: Env)
    ensures var r := ClaimCheck(file, lines, n, sentence, useLLM, env);
      && |r| <= 1
      && (forall x :: x in r ==>
        && x.checkType == Claim && x.status == Fail && x.target.line == n
        && x.target.text == TrimSpace(sentence) && Utf8Len(x.target.text) >= MinClaimBytes
        && !Citations.HasCitation(x.target.text))
      && (0 < n <= |lines| && Citations.HasCitation(lines[n - 1]) ==> r == [])
  {
  }

  /**
   * The claim findings of the lines before line `n`, then those of `sentences`, sentences
   * of line `n`, in order.
   */
  function SentenceResults(file: string, lines: seq<string>, n: nat, sentences: seq<string>, useLLM: bool, env: Env)
    : seq<VerificationResult>
    requires 0 < n <= |lines|
    decreases n, 0, |sentences|
  {
    if sentences == [] then ClaimResults(file, lines, n - 1, useLLM, env)
    else
      var init := SentenceResults(file, lines, n, sentences[..|sentences| - 1], useLLM, env);
      init + ClaimCheck(file, lines, n, sentences[|sentences| - 1], useLLM, env)
  }

  /**
   * The claim findings of lines 1 to `n`: those of the lines before line `n`, then, unless
   * the scan passes over line `n`, those of its sentences.
   */
  function ClaimResults(file: string, lines: seq<string>, n: nat, useLLM: bool, env: Env): seq<VerificationResult>
    requires n <= |lines|
    decreases n, 1, 0
  {
    if n == 0 then []
    else if SkipLine(lines[n - 1]) then ClaimResults(file, lines, n - 1, useLLM, env)
    else SentenceResults(file, lines, n, Sentences(lines[n - 1]), useLLM, env)
  }

  /** The findings of one more sentence. */
  lemma SentenceStep(file: string, lines: seq<string>, n: nat, sentences: seq<string>, j: int, useLLM: bool, env: Env)
    requires 0 < n <= |lines| && 0 <= j < |sentences|
    ensures SentenceResults(file, lines, n, sentences[..j + 1], useLLM, env)
      == SentenceResults(file, lines, n, sentences[..j], useLLM, env) + ClaimCheck(file, lines, n, sentences[j], useLLM, env)
  {
    assert sentences[..j + 1][..j] == sentences[..j];
  }

  /** What every claim finding up to line `n` is: a failure on a line that is scanned and cites no paper. */
  predicate ClaimFindingsUpTo(lines: seq<string>, n: nat, r: seq<VerificationResult>)
    requires n <= |lines|
  {
    forall x :: x in r ==>
      && x.checkType == Claim && x.status == Fail && 1 <= x.target.line <= n
      && !SkipLine(lines[x.target.line - 1]) && !Citations.HasCitation(lines[x.target.line - 1])
  }

  /** Findings about the first lines are findings about the first `n` lines. */
  lemma FindingsWiden(lines: seq<string>, m: nat, n: nat, r: seq<VerificationResult>)
    requires m <= n <= |lines| && ClaimFindingsUpTo(lines, m, r)
    ensures ClaimFindingsUpTo(lines, n, r)
  {
  }

  /** Two lists of findings about the first `n` lines, one after the other. */
  lemma FindingsAppend(lines: seq<string>, n: nat, a: seq<VerificationResult>, b: seq<VerificationResult>)
    requires n <= |lines| && ClaimFindingsUpTo(lines, n, a) && ClaimFindingsUpTo(lines, n, b)
    ensures ClaimFindingsUpTo(lines, n, a + b)
  {
  }

  /** The finding of a sentence of a scanned line, if any, is a failure on that line, which cites no paper. */
  lemma ClaimCheckFindings(file: string, lines: seq<string>, n: nat, sentence: string, useLLM: bool, env: Env)
    requires 0 < n <= |lines| && !SkipLine(lines[n - 1])
    ensures var r := ClaimCheck(file, lines, n, sentence, useLLM, env);
      && |r| <= 1 && ClaimFindingsUpTo(lines, n, r)
      && (Citations.HasCitation(lines[n - 1]) ==> r == [])
  {
    ClaimCheckShape(file, lines, n, sentence, useLLM, env);
  }

  /**
   * The sentences of line `n` add at most one finding each to those of the lines before
   * it, and none when the line cites a paper.
   */
  lemma {:induction false} SentenceResultsGrow(file: string, lines: seq<string>, n: nat, sentences: seq<string>, useLLM: bool, env: Env)
    requires 0 < n <= |lines| && !SkipLine(lines[n - 1])
    ensures var r := SentenceResults(file, lines, n, sentences, useLLM, env);
      var before := ClaimResults(file, lines, n - 1, useLLM, env);
      && |before| <= |r| <= |before| + |sentences|
      && (Citations.HasCitation(lines[n - 1]) ==> r == before)
    decreases |sentences|
  {
    if sentences != [] {
      var init := sentences[..|sentences| - 1];
      SentenceResultsGrow(file, lines, n, init, useLLM, env);
      ClaimCheckFindings(file, lines, n, sentences[|sentences| - 1], useLLM, env);
    }
  }

  /**
   * Every claim finding up to line `n` is a failure on one of the lines read, a line the
   * scan does not skip and that cites no paper.
   */
  lemma {:induction false} SentenceResultsFindings(file: string, lines: seq<string>, n: nat, sentences: seq<string>, useLLM: bool, env: Env)
    requires 0 < n <= |lines| && !SkipLine(lines[n - 1])
    ensures ClaimFindingsUpTo(lines, n, SentenceResults(file, lines, n, sentences, useLLM, env))
    decreases n, 0, |sentences|
  {
    if sentences == [] {
      ClaimResultsShape(file, lines, n - 1, useLLM, env);
      FindingsWiden(lines, n - 1, n, ClaimResults(file, lines, n - 1, useLLM, env));
    } else {
      var init := sentences[..|sentences| - 1];
      SentenceResultsFindings(file, lines, n, init, useLLM, env);
      ClaimCheckFindings(file, lines, n, sentences[|sentences| - 1], useLLM, env);
      FindingsAppend(lines, n, SentenceResults(file, lines, n, init, useLLM, env),
        ClaimCheck(file, lines, n, sentences[|sentences| - 1], useLLM, env));
    }
  }

  /**
   * Every claim finding is a failure on one of the lines read, a line the scan does not
   * skip and that cites no paper.
   */
  lemma {:induction false} ClaimResultsShape(file: string, lines: seq<string>, n: nat, useLLM: bool, env: Env)
    requires n <= |lines|
    ensures ClaimFindingsUpTo(lines, n, ClaimResults(file, lines, n, useLLM, env))
    decreases n, 1, 0
  {
    if n > 0 {
      if SkipLine(lines[n - 1]) {
        ClaimResultsShape(file, lines, n - 1, useLLM, env);
      } else {
        SentenceResultsFindings(file, lines, n, Sentences(lines[n - 1]), useLLM, env);
      }
    }
  }

  /** A line the scan passes over, or one that cites a paper, adds no claim finding. */
  lemma SkippedOrCitedLineAddsNothing(file: string, lines: seq<string>, n: nat, useLLM: bool, env: Env)
    requires 0 < n <= |lines|
    requires SkipLine(lines[n - 1]) || Citations.HasCitation(lines[n - 1])
    ensures ClaimResults(file, lines, n, useLLM, env) == ClaimResults(file, lines, n - 1, useLLM, env)
  {
    if !SkipLine(lines[n - 1]) {
      SentenceResultsGrow(file, lines, n, Sentences(lines[n - 1]), useLLM, env);
    }
  }

  /**
   * The findings of one file with the given text, in the order the source produces them:
   * markers line by line, then citations, URLs, code links, and claims.
   */
  function FileResults(file: string, content: string, opts: Options, env: Env): seq<VerificationResult> {
    var lines := Lines(content);
    TodoResults(file, lines, |lines|)
    + CitationResults(file, lines, Seqs.Dedup(Citations.CitationTokens(content)), env)
    + UrlResults(file, lines, Urls.ExtractURLs(content), env)
    + CodeLinkResults(file, lines, CodeLinks.LinksOf(content), env)
    + ClaimResults(file, lines, |lines|, opts.useLLM, env)
  }

  /** The markers of one line, each reported as a failure at that line, in order. */
  method CheckLineMarkers(file: string, lineNum: int, line: string) returns (results: seq<VerificationResult>)
    ensures results == MarkerResults(file, lineNum, line, Claims.ExtractTodoMarkers(line))
  {
    var markers := Claims.ExtractTodoMarkers(line);
    results := [];
    var j := 0;
    while j < |markers|
      invariant 0 <= j <= |markers|
      invariant results == MarkerResults(file, lineNum, line, markers[..j])
    {
      assert markers[..j + 1][..j] == markers[..j];
      results := results + [Claims.VerifyTodoMarker(markers[j], file, lineNum, line)];
      j := j + 1;
    }
    assert markers[..j] == markers;
  }

  /** The findings of one more line: its markers, reported at that line. */
  lemma TodoStep(file: string, lines: seq<string>, n: nat)
    requires n < |lines|
    ensures TodoResults(file, lines, n + 1)
      == TodoResults(file, lines, n) + MarkerResults(file, n + 1, lines[n], Claims.ExtractTodoMarkers(lines[n]))
  {
  }

  /** The marker pass of `VerifyFile`: each scanned line searched for markers, in order. */
  method CheckTodoMarkers(file: string, lines: seq<string>) returns (results: seq<VerificationResult>)
    ensures results == TodoResults(file, lines, |lines|)
  {
    results := [];
    var lineNum := 0;
    while lineNum < |lines|
      invariant 0 <= lineNum <= |lines|
      invariant results == TodoResults(file, lines, lineNum)
    {
      TodoStep(file, lines, lineNum);
      var line := lines[lineNum];
      lineNum := lineNum + 1;
      var found := CheckLineMarkers(file, lineNum, line);
      results := results + found;
    }
  }

  /** The citation pass of `VerifyFile`: each distinct key checked at the first line citing it. */
  method CheckCitations(file: string, content: string, lines: seq<string>, env: Env) returns (results: seq<VerificationResult>)
    ensures results == CitationResults(file, lines, Seqs.Dedup(Citations.CitationTokens(content)), env)
  {
    var citations := Citations.ExtractCitations(content);
    results := [];
    var i := 0;
    while i < |citations|
      invariant 0 <= i <= |citations|
      invariant results == CitationResults(file, lines, citations[..i], env)
    {
      CitationStep(file, lines, citations, i, env);
      var n := FindLineNumber(lines, Citations.Marker + citations[i]);
      var lineText := "";
      if n > 0 && n <= |lines| {
        lineText := lines[n - 1];
      }
      results := results + [Citations.VerifyCitation(citations[i], file, n, lineText, env.bip(citations[i]))];
      i := i + 1;
    }
    assert citations[..i] == citations;
  }

  /** The findings of one more URL: its check, unless it is a GitHub file link. */
  lemma UrlStep(file: string, lines: seq<string>, urls: seq<string>, i: int, env: Env)
    requires 0 <= i < |urls|
    ensures UrlResults(file, lines, urls[..i + 1], env)
      == UrlResults(file, lines, urls[..i], env) + (if UrlChecked(urls[i]) then [UrlCheck(file, lines, urls[i], env)] else [])
  {
    assert urls[..i + 1][..i] == urls[..i];
  }

  /** One URL checked at the first line that holds it. */
  method CheckUrl(file: string, lines: seq<string>, url: string, env: Env) returns (result: VerificationResult)
    ensures result == UrlCheck(file, lines, url, env)
  {
    var n := FindLineNumber(lines, url);
    var lineText := "";
    if n > 0 && n <= |lines| {
      lineText := lines[n - 1];
    }
    result := Urls.VerifyURL(url, file, n, lineText, env.http(url));
  }

  /** The URL pass of `VerifyFile`: each URL that is not a GitHub file link checked at its first line. */
  method CheckUrls(file: string, content: string, lines: seq<string>, env: Env) returns (results: seq<VerificationResult>)
    ensures results == UrlResults(file, lines, Urls.ExtractURLs(content), env)
  {
    var urls := Urls.ExtractURLs(content);
    results := [];
    var i := 0;
    while i < |urls|
      invariant 0 <= i <= |urls|
      invariant results == UrlResults(file, lines, urls[..i], env)
    {
      UrlStep(file, lines, urls, i, env);
      var url := urls[i];
      i := i + 1;
      if Contains(url, "github.com") && Contains(url, "/blob/") {
        continue;
      }
      var result := CheckUrl(file, lines, url, env);
      results := results + [result];
    }
    assert urls[..i] == urls;
  }

  /** The findings of one more code link. */
  lemma CodeLinkStep(file: string, lines: seq<string>, links: seq<CodeLinks.CodeLinkMatch>, i: int, env: Env)
    requires 0 <= i < |links|
    ensures CodeLinkResults(file, lines, links[..i + 1], env)
      == CodeLinkResults(file, lines, links[..i], env) + [CodeLinkCheck(file, lines, links[i], env)]
  {
    assert links[..i + 1][..i] == links[..i];
  }

  /** One code link checked at the first line that holds it. */
  method CheckCodeLink(file: string, lines: seq<string>, link: CodeLinks.CodeLinkMatch, env: Env)
    returns (result: VerificationResult)
    ensures result == CodeLinkCheck(file, lines, link, env)
  {
    var n := FindLineNumber(lines, link.fullUrl);
    var lineText := "";
    if n > 0 && n <= |lines| {
      lineText := lines[n - 1];
    }
    result := CodeLinks.VerifyCodeLink(link, file, n, lineText, env.ghOnPath, env.ghApi);
  }

  /** The code-link pass of `VerifyFile`: each permalink checked at its first line. */
  method CheckCodeLinks(file: string, content: string, lines: seq<string>, env: Env) returns (results: seq<VerificationResult>)
    ensures results == CodeLinkResults(file, lines, CodeLinks.LinksOf(content), env)
  {
    var codeLinks := CodeLinks.ExtractCodeLinks(content);
    results := [];
    var i := 0;
    while i < |codeLinks|
      invariant 0 <= i <= |codeLinks|
      invariant results == CodeLinkResults(file, lines, codeLinks[..i], env)
    {
      CodeLinkStep(file, lines, codeLinks, i, env);
      var result := CheckCodeLink(file, lines, codeLinks[i], env);
      results := results + [result];
      i := i + 1;
    }
    assert codeLinks[..i] == codeLinks;
  }

  /**
   * The sentences of line `lineNum`, each trimmed, skipped when short, and appended to the
   * findings so far when the claim check fails.
   */
  method CheckSentences(file: string, lines: seq<string>, lineNum: nat, sentences: seq<string>, useLLM: bool, env: Env,
                        before: seq<VerificationResult>)
    returns (results: seq<VerificationResult>)
    requires 0 < lineNum <= |lines| && before == ClaimResults(file, lines, lineNum - 1, useLLM, env)
    ensures results == SentenceResults(file, lines, lineNum, sentences, useLLM, env)
  {
    results := before;
    var j := 0;
    while j < |sentences|
      invariant 0 <= j <= |sentences|
      invariant results == SentenceResults(file, lines, lineNum, sentences[..j], useLLM, env)
    {
      SentenceStep(file, lines, lineNum, sentences, j, useLLM, env);
      var sentence := TrimSpace(sentences[j]);
      j := j + 1;
      if Utf8Len(sentence) < MinClaimBytes {
        continue;
      }
      var hasCitation := Citations.HasCitation(sentence)
        || (lineNum > 0 && lineNum <= |lines| && Citations.HasCitation(lines[lineNum - 1]));
      var result := Claims.VerifyClaim(sentence, file, lineNum, hasCitation, useLLM, env.llm);
      if result.status == Fail {
        results := results + [result];
      }
    }
    assert sentences[..j] == sentences;
  }

  /** Line `lineNum` added to the claim findings of the lines before it. */
  method CheckLine(file: string, lines: seq<string>, lineNum: nat, useLLM: bool, env: Env, before: seq<VerificationResult>)
    returns (results: seq<VerificationResult>)
    requires 0 < lineNum <= |lines| && before == ClaimResults(file, lines, lineNum - 1, useLLM, env)
    ensures results == ClaimResults(file, lines, lineNum, useLLM, env)
  {
    var line := lines[lineNum - 1];
    if HasPrefix(line, "---") || HasPrefix(line, "```") || HasPrefix(line, "#") || TrimSpace(line) == [] {
      return before;
    }
    var sentences := SplitSentences(line);
    results := CheckSentences(file, lines, lineNum, sentences, useLLM, env, before);
  }

  /** The claim pass of `VerifyFile`: the lines in order, with their 1-based numbers. */
  method CheckClaims(file: string, lines: seq<string>, useLLM: bool, env: Env) returns (results: seq<VerificationResult>)
    ensures results == ClaimResults(file, lines, |lines|, useLLM, env)
  {
    results := [];
    var i := 0;
    while i < |lines|
      invariant 0 <= i <= |lines|
      invariant results == ClaimResults(file, lines, i, useLLM, env)
    {
      results := CheckLine(file, lines, i + 1, useLLM, env, results);
      i := i + 1;
    }
  }

  /**
   * `VerifyFile` on a file whose text was read: the lines the scanner yields are checked
   * for markers, then the whole text for citations, URLs and code links, then the lines
   * again, sentence by sentence, for uncited claims.
   */
  method VerifyFile(file: string, content: string, opts: Options, env: Env) returns (results: seq<VerificationResult>)
    ensures results == FileResults(file, content, opts, env)
  {
    var lines := Lines(content);
    results := CheckTodoMarkers(file, lines);
    var citations := CheckCitations(file, content, lines, env);
    results := results + citations;
    var urls := CheckUrls(file, content, lines, env);
    results := results + urls;
    var links := CheckCodeLinks(file, content, lines, env);
    results := results + links;
    var claims := CheckClaims(file, lines, opts.useLLM, env);
    results := results + claims;
  }

  // ---------------------------------------------------------------- many files

  /** The finding that stands for a file that could not be read: a failure at line 0. */
  function ReadFailure(file: string, err: string): (r: VerificationResult)
    ensures r.status == Fail && r.checkType == Citation && r.target == Target(file, 0, "")
  {
    VerificationResult(Citation, Target(file, 0, ""), Fail, Text(err), NoDetails)
  }

  /** The findings of one file: its checks, or the single read failure. */
  function FileOutcome(file: string, opts: Options, env: Env): (r: seq<VerificationResult>)
    ensures env.read(file).Err? ==> r == [ReadFailure(file, env.read(file).error)]
    ensures env.read(file).Ok? ==> r == FileResults(file, env.read(file).value, opts, env)
  {
    match env.read(file)
    case Err(e) => [ReadFailure(file, e)]
    case Ok(content) => FileResults(file, content, opts, env)
  }

  /** The findings of a run over `files`, file after file. */
  function RunResults(files: seq<string>, opts: Options, env: Env): seq<VerificationResult>
    decreases |files|, 1
  {
    if files == [] then [] else RunThrough(files, opts, env)
  }

  /** The findings of a run over a non-empty list: those of all its files but the last, then the last file's. */
  function RunThrough(files: seq<string>, opts: Options, env: Env): seq<VerificationResult>
    requires files != []
    decreases |files|, 0
  {
    RunResults(files[..|files| - 1], opts, env) + FileOutcome(files[|files| - 1], opts, env)
  }

  /** A run over two lists of files finds what the two runs find, one after the other. */
  lemma {:induction false} RunResultsAppend(a: seq<string>, b: seq<string>, opts: Options, env: Env)
    ensures RunResults(a + b, opts, env) == RunResults(a, opts, env) + RunResults(b, opts, env)
    decreases |b|
  {
    if b == [] {
      assert a + b == a;
    } else {
      var init := b[..|b| - 1];
      var last := FileOutcome(b[|b| - 1], opts, env);
      assert (a + b)[..|a + b| - 1] == a + init;
      assert (a + b)[|a + b| - 1] == b[|b| - 1];
      assert RunResults(a + b, opts, env) == RunResults(a + init, opts, env) + last;
      assert RunResults(b, opts, env) == RunResults(init, opts, env) + last;
      RunResultsAppend(a, init, opts, env);
      Seqs.ConcatAssoc(RunResults(a, opts, env), RunResults(init, opts, env), last);
    }
  }

  /** The findings of one file handed to the report builder one by one, in order. */
  method AddResults(builder: VerifyReport.ReportBuilder, results: seq<VerificationResult>)
    modifies builder
    ensures builder.results == old(builder.results) + results
    ensures builder.files == old(builder.files)
  {
    var j := 0;
    while j < |results|
      invariant 0 <= j <= |results|
      invariant builder.files == old(builder.files)
      invariant builder.results == old(builder.results) + results[..j]
    {
      assert results[..j + 1] == results[..j] + [results[j]];
      builder.AddResult(results[j]);
      j := j + 1;
    }
    assert results[..j] == results;
  }

  /**
   * File `i` of `VerifyFiles`: recorded, read, and either its read failure or its
   * findings handed to the builder.
   */
  method CheckFile(builder: VerifyReport.ReportBuilder, files: seq<string>, i: nat, opts: Options, env: Env)
    requires i < |files| && builder.files == files[..i] && builder.results == RunResults(files[..i], opts, env)
    modifies builder
    ensures builder.files == files[..i + 1]
    ensures builder.results == RunResults(files[..i + 1], opts, env)
  {
    var file := files[i];
    assert files[..i + 1][..i] == files[..i];
    assert files[..i + 1] == files[..i] + [file];
    builder.AddFile(file);
    match env.read(file) {
      case Err(e) =>
        builder.AddResult(ReadFailure(file, e));
      case Ok(content) =>
        var results := VerifyFile(file, content, opts, env);
        AddResults(builder, results);
    }
  }

  /** The loop of `VerifyFiles`: every file recorded in order and its findings, or its read failure, added. */
  method CheckFiles(builder: VerifyReport.ReportBuilder, files: seq<string>, opts: Options, env: Env)
    requires builder.files == [] && builder.results == []
    modifies builder
    ensures builder.files == files
    ensures builder.results == RunResults(files, opts, env)
  {
    var i := 0;
    while i < |files|
      invariant 0 <= i <= |files|
      invariant builder.files == files[..i]
      invariant builder.results == RunResults(files[..i], opts, env)
    {
      CheckFile(builder, files, i, opts, env);
      i := i + 1;
    }
    assert files[..i] == files;
  }

  /**
   * `VerifyFiles`: every file recorded in order, its findings (or its read failure) added
   * to the builder, and the report built; a failure to read one file does not stop the
   * others.
   */
  method VerifyFiles(files: seq<string>, opts: Options, env: Env) returns (report: VerificationReport)
    ensures report.contentFiles == files
    ensures report.results == RunResults(files, opts, env)
    ensures report.summary == VerifyReport.Summarize(report.results)
    ensures report.exitCode == (if report.summary.failed > 0 then 1 else 0)
  {
    var builder := new VerifyReport.ReportBuilder();
    CheckFiles(builder, files, opts, env);
    report := builder.Build();
  }
}
