/**
 * Web links: finding `http://` and `https://` URLs in a document and checking that each
 * answers a HEAD (or, failing that, a GET) request with a success or redirect status.
 */
module Urls {
  import opened Results
  import opened Text
  import opened VerifyTypes

  const Http: string := "http://"
  const Https: string := "https://"

  /** The characters a URL runs over after its scheme: `[^\s\)\]>]`. */
  predicate IsUrlChar(c: char) { !IsRegexSpace(c) && c != ')' && c != ']' && c != '>' }

  /**
   * The length of the scheme of the pattern `https?://` at `i`, or 0. The optional `s` is
   * tried first; without it "https" cannot be followed by "://", so at most one of the two
   * schemes fits.
   */
  function SchemeLen(s: string, i: int): (n: nat)
    requires 0 <= i <= |s|
    ensures n == 0 || n == |Http| || n == |Https|
    ensures n == |Https| <==> At(s, i, Https)
    ensures n == |Http| <==> At(s, i, Http)
  {
    if At(s, i, Https) then
      assert s[i + 4] == 's';
      |Https|
    else if At(s, i, Http) then |Http|
    else 0
  }

  /** A URL starts with a scheme, has something after it, and runs over URL characters only. */
  predicate IsUrl(u: string) {
    0 < SchemeLen(u, 0) < |u| && All(u, IsUrlChar)
  }

  /** A scheme followed by a non-empty run of URL characters is a URL with the same scheme. */
  lemma MatchIsUrl(s: string, i: int, m: nat, n: nat)
    requires 0 <= i <= |s| && m == SchemeLen(s, i) > 0 && 0 < n && i + m + n <= |s|
    requires forall k :: i + m <= k < i + m + n ==> IsUrlChar(s[k])
    ensures IsUrl(s[i..i + m + n]) && SchemeLen(s[i..i + m + n], 0) == m
  {
    var u := s[i..i + m + n];
    assert u[..m] == s[i..i + m];
    if m == |Https| {
      assert At(u, 0, Https);
    } else {
      assert At(u, 0, Http);
    }
    forall k | 0 <= k < |u| ensures IsUrlChar(u[k]) {
      if k >= m { assert u[k] == s[i + k]; }
      else if m == |Https| { assert u[k] == Https[k]; }
      else { assert u[k] == Http[k]; }
    }
  }

  /**
   * The length of the match of `https?://[^\s\)\]>]+` at the start of `t`, 0 for none: the
   * scheme and the longest non-empty run of URL characters after it. The pattern looks
   * neither behind nor ahead, so a match depends only on the text from where it starts.
   */
  function UrlLen(t: string): (l: nat)
    ensures l <= |t|
  {
    var m := SchemeLen(t, 0);
    if m == 0 then 0
    else
      var n := RunLen(t, m, IsUrlChar);
      if n == 0 then 0 else m + n
  }

  /**
   * A match is a URL with the scheme found at the start of the text, and runs to the end or
   * to an excluded character; with no match, no scheme is there or no URL character follows it.
   */
  lemma UrlLenFacts(t: string)
    ensures UrlLen(t) > 0 ==>
      IsUrl(t[..UrlLen(t)]) && SchemeLen(t[..UrlLen(t)], 0) == SchemeLen(t, 0)
      && (UrlLen(t) == |t| || !IsUrlChar(t[UrlLen(t)]))
    ensures UrlLen(t) == 0 ==>
      SchemeLen(t, 0) == 0 || SchemeLen(t, 0) == |t| || !IsUrlChar(t[SchemeLen(t, 0)])
  {
    var m := SchemeLen(t, 0);
    var l := UrlLen(t);
    if l > 0 {
      MatchIsUrl(t, 0, m, l - m);
      assert t[0..l] == t[..l];
    }
  }

  /** The URL matched at the start of `t`, if any. */
  function UrlMatch(t: string): Option<string> {
    var l := UrlLen(t);
    if l == 0 then None else Some(t[..l])
  }

  /** The text a matched URL spans: the URL itself. */
  function UrlText(u: string): string { u }

  /** The length of the text a matched URL spans. */
  function UrlSize(u: string): nat { |u| }

  /**
   * `ExtractURLs`: every match of the URL pattern, in order, repeats kept. Each starts with
   * a scheme, holds no white space, ')', ']' or '>', and occurs in the content; there is
   * none exactly when the pattern matches at no position; and the first is the leftmost
   * match, after which the search resumes at its end.
   */
  function ExtractURLs(content: string): (r: seq<string>)
    ensures forall u :: u in r ==> IsUrl(u) && Contains(content, u)
    ensures r == [] <==> forall k :: 0 <= k < |content| ==> !MatchStarts(content[k..], UrlMatch, UrlSize)
    ensures forall j :: FirstMatchAt(content, j, UrlMatch, UrlSize) ==>
      r == [UrlMatch(content[j..]).value]
        + Scan(content[j + MatchSize(content[j..], UrlMatch, UrlSize)..], UrlMatch, UrlSize)
  {
    ExtractedAreUrls(content);
    ScanEmpty(content, UrlMatch, UrlSize);
    ScanFirstAll(content, UrlMatch, UrlSize);
    Scan(content, UrlMatch, UrlSize)
  }

  /** Every match is a URL of the content. */
  lemma ExtractedAreUrls(content: string)
    ensures forall u :: u in Scan(content, UrlMatch, UrlSize) ==> IsUrl(u) && Contains(content, UrlText(u))
  {
    forall x | MatchStarts(x, UrlMatch, UrlSize)
      ensures IsUrl(UrlMatch(x).value) && HasPrefix(x, UrlText(UrlMatch(x).value))
    {
      UrlLenFacts(x);
    }
    ScanSound(content, UrlMatch, UrlSize, IsUrl, UrlText);
  }

  /** A match never runs over a space: before one, it is the match of the text up to it. */
  lemma UrlLenBeforeSpace(x: string, b: string)
    ensures UrlLen(x + " " + b) == UrlLen(x)
  {
    assert x + " " + b == x + (" " + b);
    AtBeforeBarrier(x, " " + b, 0, Https);
    AtBeforeBarrier(x, " " + b, 0, Http);
    var m := SchemeLen(x, 0);
    if m > 0 {
      RunLenStops(x, " " + b, m, IsUrlChar);
    }
  }

  /**
   * URLs separated by white space are all extracted, in their order, each as often as it
   * appears: no URL runs over a space.
   */
  lemma ExtractURLsSpaced(a: string, b: string)
    ensures ExtractURLs(a + " " + b) == ExtractURLs(a) + ExtractURLs(b)
  {
    var s := a + [' '] + b;
    assert (" " + b)[0] == ' ';
    assert !MatchStarts([' '] + b, UrlMatch, UrlSize);
    forall k | 0 <= k < |a|
      ensures UrlMatch(s[k..]) == UrlMatch(a[k..])
        && (MatchStarts(a[k..], UrlMatch, UrlSize) || !MatchStarts(s[k..], UrlMatch, UrlSize))
    {
      assert s[k..] == a[k..] + " " + b;
      UrlLenBeforeSpace(a[k..], b);
      var l := UrlLen(a[k..]);
      assert s[k..][..l] == a[k..][..l];
    }
    ScanJoined(a, ' ', b, UrlMatch, UrlSize);
  }

  /** A text with no scheme in it has no URL. */
  lemma NoSchemeNoUrl(s: string)
    requires forall j :: 0 <= j <= |s| ==> SchemeLen(s, j) == 0
    ensures ExtractURLs(s) == []
  {
    forall k | 0 <= k < |s| ensures !MatchStarts(s[k..], UrlMatch, UrlSize) {
      SchemeLenSuffix(s, k);
    }
  }

  /** The scheme at a position is the scheme at the start of the text from there. */
  lemma SchemeLenSuffix(s: string, k: int)
    requires 0 <= k <= |s|
    ensures SchemeLen(s[k..], 0) == SchemeLen(s, k)
  {
    AtSame(s, k, s[k..], 0, Https);
    AtSame(s, k, s[k..], 0, Http);
  }

  /** A URL standing alone is extracted as itself, once. */
  lemma UrlAloneIsExtracted(u: string)
    requires IsUrl(u)
    ensures ExtractURLs(u) == [u]
  {
    var m := SchemeLen(u, 0);
    RunLenExact(u, m, |u| - m, IsUrlChar);
    assert u[0..] == u && u[..|u|] == u;
    assert FirstMatchAt(u, 0, UrlMatch, UrlSize);
    assert u[|u|..] == [];
  }

  // ---------------------------------------------------------------- checking a URL

  /**
   * What the server does with one request: it answers after following `redirects`
   * redirects with a final status, or the request fails in transport with an error.
   */
  datatype ServerReply = Reply(redirects: nat, status: int) | Unreachable(err: string)

  /** The number of redirects after which the client gives up. */
  const MaxRedirects: nat := 10

  /**
   * `client.Do`: the redirect policy is asked before each redirect with the requests made
   * so far and refuses once there are ten of them, so at most nine redirects are followed.
   */
  function ClientDo(reply: ServerReply): (r: Result<int, string>)
    ensures r.Ok? <==> reply.Reply? && reply.redirects < MaxRedirects
    ensures r.Ok? ==> r.value == reply.status
  {
    match reply
    case Unreachable(err) => Err(err)
    case Reply(redirects, status) =>
      if redirects + 1 > MaxRedirects then Err("too many redirects") else Ok(status)
  }

  /**
   * What the network does with a URL: whether a request for it can be built (an invalid
   * URL gives the parse error), and the replies to HEAD and to GET.
   */
  datatype UrlProbe = UrlProbe(requestError: Option<string>, head: ServerReply, get: ServerReply)

  /** The status range of a response: 2xx and 3xx pass, 4xx fail, anything else warns. */
  function StatusVerdict(code: int): (s: CheckStatus)
    ensures s == Pass <==> 200 <= code < 400
    ensures s == Fail <==> 400 <= code < 500
    ensures s == Warn <==> code < 200 || code >= 500
  {
    if 200 <= code < 400 then Pass else if 400 <= code < 500 then Fail else Warn
  }

  /**
   * The verdict on a URL. A request that cannot be built fails with its error; HEAD is
   * tried first and GET only when HEAD fails in transport; when both fail the URL fails
   * with GET's error; a response is judged by its status, which the details record.
   */
  function UrlOutcome(url: string, file: string, line: int, text: string, probe: UrlProbe)
    : (r: VerificationResult)
    ensures r.checkType == Url && r.target == Target(file, line, text)
    ensures r.details.UrlDetails? && r.details.url == url
    ensures probe.requestError.Some? ==>
      r.status == Fail && r.details == UrlDetails(url, None, probe.requestError)
    ensures probe.requestError.None? && ClientDo(probe.head).Ok? ==>
      r.status == StatusVerdict(ClientDo(probe.head).value)
      && r.details == UrlDetails(url, Some(ClientDo(probe.head).value), None)
    ensures probe.requestError.None? && ClientDo(probe.head).Err? && ClientDo(probe.get).Ok? ==>
      r.status == StatusVerdict(ClientDo(probe.get).value)
      && r.details == UrlDetails(url, Some(ClientDo(probe.get).value), None)
    ensures probe.requestError.None? && ClientDo(probe.head).Err? && ClientDo(probe.get).Err? ==>
      r.status == Fail && r.details == UrlDetails(url, None, Some(ClientDo(probe.get).error))
    ensures r.details.httpStatus.Some? <==> r.details.error.None?
  {
    var target := Target(file, line, text);
    match probe.requestError
    case Some(e) => VerificationResult(Url, target, Fail, InvalidUrl(url, e), UrlDetails(url, None, Some(e)))
    case None =>
      var answer := if ClientDo(probe.head).Ok? then ClientDo(probe.head) else ClientDo(probe.get);
      match answer
      case Err(e) => VerificationResult(Url, target, Fail, UrlNotAccessible(url, e), UrlDetails(url, None, Some(e)))
      case Ok(code) =>
        var status := StatusVerdict(code);
        var message :=
          if status == Pass then UrlAccessible(url, code)
          else if status == Fail then UrlClientError(url, code)
          else UrlUnexpectedStatus(url, code);
        VerificationResult(Url, target, status, message, UrlDetails(url, Some(code), None))
  }

  /**
   * `VerifyURL`: the request built, sent with HEAD, re-sent with GET when that fails, and
   * the response classified, with `req`, `resp` and `err` reassigned as in the source.
   */
  method VerifyURL(url: string, file: string, line: int, text: string, probe: UrlProbe)
    returns (result: VerificationResult)
    ensures result == UrlOutcome(url, file, line, text, probe)
  {
    var target := Target(file, line, text);
    if probe.requestError.Some? {
      var e := probe.requestError.value;
      return VerificationResult(Url, target, Fail, InvalidUrl(url, e), UrlDetails(url, None, Some(e)));
    }
    var req := probe.head;
    var resp := ClientDo(req);
    if resp.Err? {
      req := probe.get;
      resp := ClientDo(req);
      if resp.Err? {
        var e := resp.error;
        return VerificationResult(Url, target, Fail, UrlNotAccessible(url, e), UrlDetails(url, None, Some(e)));
      }
    }
    var statusCode := resp.value;
    var status: CheckStatus;
    var message: Message;
    if statusCode >= 200 && statusCode < 400 {
      status, message := Pass, UrlAccessible(url, statusCode);
    } else if statusCode >= 400 && statusCode < 500 {
      status, message := Fail, UrlClientError(url, statusCode);
    } else {
      status, message := Warn, UrlUnexpectedStatus(url, statusCode);
    }
    result := VerificationResult(Url, target, status, message, UrlDetails(url, Some(statusCode), None));
  }

  /** When HEAD gets a response, what GET would have done does not matter. */
  lemma GetOnlyAfterHeadFails(url: string, file: string, line: int, text: string, probe: UrlProbe, get: ServerReply)
    requires ClientDo(probe.head).Ok?
    ensures UrlOutcome(url, file, line, text, probe) == UrlOutcome(url, file, line, text, probe.(get := get))
  {
  }

  /** A chain of ten redirects is not followed to its end; nine are. */
  lemma TenRedirectsFail()
    ensures ClientDo(Reply(10, 200)).Err?
    ensures ClientDo(Reply(9, 200)) == Ok(200)
  {
  }
}
