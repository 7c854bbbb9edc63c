/**
 * The language-model client: picks the `claude` command-line tool or a local `ollama`,
 * sends it a prompt, and reads a claim analysis back from its answer.
 */
module Llm {
  import opened Results
  import opened Text

  const ClaudeProvider: string := "claude"
  const OllamaProvider: string := "ollama"
  const DefaultOllamaModel: string := "llama3.2"
  const ClaudeModel: string := "claude-haiku-4-20250514"

  datatype Client = Client(provider: string, model: string)

  /** The answer the model gives about one sentence. */
  datatype ClaimAnalysisResult = ClaimAnalysisResult(
    needsCitation: bool,
    confidence: string,
    reason: string,
    suggestedAction: string)

  /**
   * The world the client runs in: whether each tool is on the search path, what running a
   * program with given arguments prints (stdout) or the error and stderr it fails with,
   * and what JSON decoding makes of a text (None when it is not a claim-analysis object).
   */
  datatype Env = Env(
    claudeOnPath: bool,
    ollamaOnPath: bool,
    run: (string, seq<string>) -> Result<string, string>,
    decode: string -> Option<ClaimAnalysisResult>)

  /** The preferred available provider: `claude` first, else `ollama` with its default model. */
  function NewClient(env: Env): (r: Result<Client, string>)
    ensures r.Ok? <==> env.claudeOnPath || env.ollamaOnPath
    ensures env.claudeOnPath ==> r == Ok(Client(ClaudeProvider, ""))
    ensures !env.claudeOnPath && env.ollamaOnPath ==> r == Ok(Client(OllamaProvider, DefaultOllamaModel))
  {
    if env.claudeOnPath then Ok(Client(ClaudeProvider, ""))
    else if env.ollamaOnPath then Ok(Client(OllamaProvider, DefaultOllamaModel))
    else Err("no LLM provider available: install claude CLI or ollama")
  }

  /** Some provider can be used. */
  predicate IsAvailable(env: Env) {
    NewClient(env).Ok?
  }

  /**
   * One completion: the provider's program is run on the prompt and its output is returned
   * with surrounding white space removed; an unknown provider is an error.
   */
  function Complete(c: Client, prompt: string, env: Env): Result<string, string> {
    if c.provider == ClaudeProvider then
      match env.run(ClaudeProvider, ["-p", prompt, "--model", ClaudeModel])
      case Ok(out) => Ok(TrimSpace(out))
      case Err(e) => Err("claude CLI error: " + e)
    else if c.provider == OllamaProvider then
      match env.run(OllamaProvider, ["run", c.model, prompt])
      case Ok(out) => Ok(TrimSpace(out))
      case Err(e) => Err("ollama error: " + e)
    else Err("unknown provider: " + c.provider)
  }

  /**
   * `claude` is run as `claude -p <prompt> --model <model>`, `ollama` as `ollama run
   * <model> <prompt>`; a completion succeeds exactly when the program does, and its text
   * is the program's output with surrounding white space removed.
   */
  lemma CompleteRunsProvider(c: Client, prompt: string, env: Env)
    ensures var r := Complete(c, prompt, env);
      && (c.provider != ClaudeProvider && c.provider != OllamaProvider ==> r.Err?)
      && (c.provider == ClaudeProvider ==>
        var out := env.run(ClaudeProvider, ["-p", prompt, "--model", ClaudeModel]);
        r.Ok? == out.Ok? && (out.Ok? ==> r.value == TrimSpace(out.value)))
      && (c.provider == OllamaProvider ==>
        var out := env.run(OllamaProvider, ["run", c.model, prompt]);
        r.Ok? == out.Ok? && (out.Ok? ==> r.value == TrimSpace(out.value)))
      && (r.Ok? ==> TrimSpace(r.value) == r.value)
  {
    if c.provider == ClaudeProvider {
      var out := env.run(ClaudeProvider, ["-p", prompt, "--model", ClaudeModel]);
      if out.Ok? { TrimSpaceIdempotent(out.value); }
    } else if c.provider == OllamaProvider {
      var out := env.run(OllamaProvider, ["run", c.model, prompt]);
      if out.Ok? { TrimSpaceIdempotent(out.value); }
    }
  }

  const Fence: string := "```"
  const JsonFence: string := "```json"

  /** The text before the first closing fence, or all of it when there is none. */
  function CutAtFence(s: string): (r: string)
    ensures !Contains(r, Fence)
    ensures Contains(s, Fence) ==> r == s[..Index(s, Fence)]
    ensures !Contains(s, Fence) ==> r == s
  {
    var idx := Index(s, Fence);
    if idx != -1 then
      var r := s[..idx];
      assert forall k :: 0 <= k <= |r| && At(r, k, Fence) ==> At(s, k, Fence);
      r
    else s
  }

  lemma JsonFenceIsFence(t: string)
    ensures HasPrefix(t, JsonFence) ==> HasPrefix(t, Fence)
  {
    if HasPrefix(t, JsonFence) {
      assert t[..3] == t[..7][..3];
    }
  }

  lemma TrimKeepsNoFence(u: string)
    ensures !Contains(u, Fence) ==> !Contains(TrimSpace(u), Fence)
  {
    var r := TrimSpace(u);
    if Contains(r, Fence) {
      ContainsSlice(u, TrimStart(u), TrimStart(u) + |r|, Fence);
    }
  }

  /**
   * The JSON inside a model's answer: the trimmed answer, with a leading "```json" or
   * "```" fence and everything from the next fence on removed.
   */
  function ExtractJSON(s: string): string {
    var t := TrimSpace(s);
    var u :=
      if HasPrefix(t, JsonFence) then CutAtFence(t[|JsonFence|..])
      else if HasPrefix(t, Fence) then CutAtFence(t[|Fence|..])
      else t;
    TrimSpace(u)
  }

  /**
   * The extracted JSON has no surrounding white space; an unfenced answer is only trimmed;
   * a fenced one loses its opening fence ("```json" before "```") and everything from the
   * next fence on, so no fence is left in it.
   */
  lemma ExtractJSONSpec(s: string)
    ensures var r := ExtractJSON(s);
      && TrimSpace(r) == r
      && (!HasPrefix(TrimSpace(s), Fence) ==> r == TrimSpace(s))
      && (HasPrefix(TrimSpace(s), Fence) ==> !Contains(r, Fence))
      && (HasPrefix(TrimSpace(s), JsonFence) ==> r == TrimSpace(CutAtFence(TrimSpace(s)[|JsonFence|..])))
      && (HasPrefix(TrimSpace(s), Fence) && !HasPrefix(TrimSpace(s), JsonFence) ==>
            r == TrimSpace(CutAtFence(TrimSpace(s)[|Fence|..])))
  {
    var t := TrimSpace(s);
    var u :=
      if HasPrefix(t, JsonFence) then CutAtFence(t[|JsonFence|..])
      else if HasPrefix(t, Fence) then CutAtFence(t[|Fence|..])
      else t;
    JsonFenceIsFence(t);
    TrimSpaceIdempotent(u);
    TrimSpaceIdempotent(s);
    TrimKeepsNoFence(u);
  }

  /**
   * The analysis prompt for a sentence. The sentence is quoted; the fixed guidance text
   * that follows it in the source is abbreviated here.
   */
  function ClaimPrompt(sentence: string): string {
    "Analyze if this sentence from a scientific document is a factual claim that requires a citation.\n\nSentence: \""
    + sentence + "\"\n\nRespond with JSON only."
  }

  /**
   * Asks the model about a sentence: the completion, its JSON extracted and decoded; a
   * failed completion or an undecodable answer is an error.
   */
  function AnalyzeClaim(c: Client, sentence: string, env: Env): Result<ClaimAnalysisResult, string> {
    match Complete(c, ClaimPrompt(sentence), env)
    case Err(e) => Err("LLM analysis failed: " + e)
    case Ok(response) =>
      match env.decode(ExtractJSON(response))
      case None => Err("parse LLM response")
      case Some(result) => Ok(result)
  }

  /**
   * The analysis succeeds exactly when the completion does and its extracted JSON decodes,
   * and it is then the decoded answer.
   */
  lemma AnalyzeClaimSpec(c: Client, sentence: string, env: Env)
    ensures var r := AnalyzeClaim(c, sentence, env);
      var answer := Complete(c, ClaimPrompt(sentence), env);
      && (answer.Err? ==> r.Err?)
      && (r.Ok? <==> answer.Ok? && env.decode(ExtractJSON(answer.value)).Some?)
      && (r.Ok? ==> r.value == env.decode(ExtractJSON(answer.value)).value)
  {
  }
}
