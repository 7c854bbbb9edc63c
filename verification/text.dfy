/**
 * The parts of Go's `strings`, `unicode`, `strconv` and integer arithmetic that the
 * scribe core relies on, over Dafny strings (sequences of Unicode scalar values).
 */
module Text {
  import opened Results

  /**
   * The code points of the Unicode White_Space property, as the inclusive ranges of Go's
   * `unicode.White_Space` table; on Latin-1 they are exactly the characters `unicode.IsSpace`
   * lists by hand.
   */
  const WhiteSpace: seq<(char, char)> := [
    ('\t', '\r'), (' ', ' '), ('\U{0085}', '\U{0085}'), ('\U{00A0}', '\U{00A0}'),
    ('\U{1680}', '\U{1680}'), ('\U{2000}', '\U{200A}'), ('\U{2028}', '\U{2029}'),
    ('\U{202F}', '\U{202F}'), ('\U{205F}', '\U{205F}'), ('\U{3000}', '\U{3000}')]

  /** `c` lies in one of the ranges. */
  predicate InRanges(c: char, ranges: seq<(char, char)>) {
    |ranges| > 0 && (ranges[0].0 <= c <= ranges[0].1 || InRanges(c, ranges[1..]))
  }

  /** `unicode.IsSpace`. */
  predicate IsSpace(c: char) { InRanges(c, WhiteSpace) }

  /** The regular-expression class `\s`, which in Go's RE2 syntax is `[\t\n\f\r ]`. */
  predicate IsRegexSpace(c: char) {
    c == '\t' || c == '\n' || c == '\U{000C}' || c == '\r' || c == ' '
  }

  /** The regular-expression class `\d`, ASCII digits only. */
  predicate IsDigit(c: char) { '0' <= c <= '9' }

  predicate IsAsciiLetter(c: char) { ('a' <= c <= 'z') || ('A' <= c <= 'Z') }

  /** A character on which the regular-expression assertion `\b` sees a word: `[0-9A-Za-z_]`. */
  predicate IsWordChar(c: char) { IsAsciiLetter(c) || IsDigit(c) || c == '_' }

  predicate AllDigits(s: string) { forall k :: 0 <= k < |s| ==> IsDigit(s[k]) }

  // ---------------------------------------------------------------- searching

  /** `sub` occurs in `s` starting at position `i`. */
  predicate At(s: string, i: int, sub: string) {
    0 <= i && i + |sub| <= |s| && s[i..i + |sub|] == sub
  }

  /** `strings.HasPrefix`. */
  predicate HasPrefix(s: string, prefix: string) { At(s, 0, prefix) }

  /** `strings.Contains`. */
  predicate Contains(s: string, sub: string) {
    exists i :: 0 <= i <= |s| && At(s, i, sub)
  }

  function IndexFrom(s: string, sub: string, j: nat): (r: int)
    requires j <= |s|
    ensures r == -1 || (j <= r <= |s| && At(s, r, sub))
    ensures r == -1 ==> forall k :: j <= k <= |s| ==> !At(s, k, sub)
    ensures 0 <= r ==> forall k :: j <= k < r ==> !At(s, k, sub)
    decreases |s| - j
  {
    if At(s, j, sub) then j
    else if j == |s| then -1
    else IndexFrom(s, sub, j + 1)
  }

  /** `strings.Index`: the first position of `sub` in `s`, or -1. */
  function Index(s: string, sub: string): (r: int)
    ensures -1 <= r <= |s|
    ensures r == -1 <==> !Contains(s, sub)
    ensures 0 <= r ==> At(s, r, sub) && forall k :: 0 <= k < r ==> !At(s, k, sub)
  {
    IndexFrom(s, sub, 0)
  }

  /** Two pieces found one right after the other form their concatenation. */
  lemma AtConcat(s: string, i: int, x: string, y: string)
    requires At(s, i, x) && At(s, i + |x|, y)
    ensures At(s, i, x + y)
  {
    assert s[i..i + |x| + |y|] == s[i..i + |x|] + s[i + |x|..i + |x| + |y|];
  }

  /** Both parts of a concatenation occur in it, at their places. */
  lemma AtAppend(x: string, y: string)
    ensures At(x + y, 0, x) && At(x + y, |x|, y)
  {
    assert (x + y)[..|x|] == x;
    assert (x + y)[|x|..|x| + |y|] == y;
  }

  /** An occurrence stays one when text is appended. */
  lemma AtExtend(x: string, j: int, sub: string, y: string)
    requires At(x, j, sub)
    ensures At(x + y, j, sub)
  {
    assert (x + y)[j..j + |sub|] == x[j..j + |sub|];
  }

  /** An occurrence inside an occurrence is an occurrence. */
  lemma AtWithin(s: string, i: int, t: string, j: int, sub: string)
    requires At(s, i, t) && At(t, j, sub)
    ensures At(s, i + j, sub)
  {
    forall k | 0 <= k < |sub| ensures s[i + j + k] == sub[k] {
      assert s[i..i + |t|][j + k] == t[j + k];
      assert t[j..j + |sub|][k] == sub[k];
    }
    assert s[i + j..i + j + |sub|] == sub;
  }

  /** The length of the longest run of characters satisfying `p` that starts at `j`. */
  function RunLen(s: string, j: int, p: char -> bool): (n: nat)
    requires 0 <= j <= |s|
    ensures j + n <= |s|
    ensures forall k :: j <= k < j + n ==> p(s[k])
    ensures j + n == |s| || !p(s[j + n])
    decreases |s| - j
  {
    if j < |s| && p(s[j]) then 1 + RunLen(s, j + 1, p) else 0
  }

  /** A run that ends where `p` fails, or at the end, is the longest run. */
  lemma {:induction false} RunLenExact(s: string, j: int, n: nat, p: char -> bool)
    requires 0 <= j && j + n <= |s|
    requires forall k :: j <= k < j + n ==> p(s[k])
    requires j + n == |s| || !p(s[j + n])
    ensures RunLen(s, j, p) == n
    decreases n
  {
    if n > 0 {
      RunLenExact(s, j + 1, n - 1, p);
    }
  }

  /** Every character of `s` satisfies `p`. */
  predicate All(s: string, p: char -> bool) { forall k :: 0 <= k < |s| ==> p(s[k]) }

  /** A run of characters satisfying `p` is, as a slice, all `p`. */
  lemma RunSlice(s: string, j: int, n: int, p: char -> bool)
    requires 0 <= j && 0 <= n && j + n <= |s|
    requires forall k :: j <= k < j + n ==> p(s[k])
    ensures All(s[j..j + n], p)
  {
    var t := s[j..j + n];
    forall k | 0 <= k < n ensures p(t[k]) {
      assert t[k] == s[j + k];
    }
  }

  /** Where two texts agree from some position on, an occurrence at that position is one in both. */
  lemma AtSame(s: string, i: int, t: string, j: int, sub: string)
    requires 0 <= i <= |s| && 0 <= j <= |t| && s[i..] == t[j..]
    ensures At(s, i, sub) <==> At(t, j, sub)
  {
    if i + |sub| <= |s| {
      assert s[i..i + |sub|] == s[i..][..|sub|];
      assert t[j..j + |sub|] == t[j..][..|sub|];
    }
  }

  /** Where two texts agree from some position on, the runs from there are as long. */
  lemma {:induction false} RunLenSame(s: string, i: int, t: string, j: int, p: char -> bool)
    requires 0 <= i <= |s| && 0 <= j <= |t| && s[i..] == t[j..]
    ensures RunLen(s, i, p) == RunLen(t, j, p)
    decreases |s| - i
  {
    if i < |s| {
      assert s[i] == s[i..][0] && t[j] == t[j..][0];
      assert s[i + 1..] == s[i..][1..] && t[j + 1..] == t[j..][1..];
      RunLenSame(s, i + 1, t, j + 1, p);
    }
  }

  /** Text appended after a character outside `p` does not lengthen a run. */
  lemma {:induction false} RunLenStops(s: string, t: string, i: int, p: char -> bool)
    requires 0 <= i <= |s| && t != [] && !p(t[0])
    ensures RunLen(s + t, i, p) == RunLen(s, i, p)
    decreases |s| - i
  {
    if i < |s| {
      assert (s + t)[i] == s[i];
      RunLenStops(s, t, i + 1, p);
    } else {
      assert (s + t)[i] == t[0];
    }
  }

  /** An occurrence of a word that lacks the first character of `t` does not reach into `t`. */
  lemma AtBeforeBarrier(s: string, t: string, i: int, sub: string)
    requires 0 <= i <= |s| && t != [] && forall k :: 0 <= k < |sub| ==> sub[k] != t[0]
    ensures At(s + t, i, sub) <==> At(s, i, sub)
  {
    if i + |sub| <= |s| {
      assert (s + t)[i..i + |sub|] == s[i..i + |sub|];
    } else if i + |sub| <= |s + t| {
      assert (s + t)[i..i + |sub|][|s| - i] == t[0];
    }
  }

  /** An occurrence inside a slice is an occurrence in the whole string. */
  lemma ContainsSlice(s: string, lo: int, hi: int, sub: string)
    requires 0 <= lo <= hi <= |s|
    requires Contains(s[lo..hi], sub)
    ensures Contains(s, sub)
  {
    var i :| 0 <= i <= hi - lo && At(s[lo..hi], i, sub);
    forall k | 0 <= k < |sub| ensures s[lo + i..lo + i + |sub|][k] == sub[k] {
      assert s[lo..hi][i..i + |sub|][k] == sub[k];
    }
    assert At(s, lo + i, sub);
  }

  // ---------------------------------------------------------------- repeated matching

  /**
   * A pattern's match at the start of `t`: `parse(t)` is what it captures, and `size` the
   * length of the text it spans. A match spanning nothing or more than `t` is no match (no
   * pattern modelled here reports one).
   */
  predicate MatchStarts<T>(t: string, parse: string -> Option<T>, size: T -> nat) {
    parse(t).Some? && 0 < size(parse(t).value) <= |t|
  }

  /** The length of the text spanned by the match at the start of `t`. */
  function MatchSize<T>(t: string, parse: string -> Option<T>, size: T -> nat): nat
    requires MatchStarts(t, parse, size)
  {
    size(parse(t).value)
  }

  /**
   * The successive leftmost matches of a pattern in `t`, as `FindAll` reports them: after a
   * match the search resumes at its end, otherwise one character further on.
   */
  function Scan<T>(t: string, parse: string -> Option<T>, size: T -> nat): seq<T>
    decreases |t|
  {
    if t == [] then []
    else if MatchStarts(t, parse, size) then [parse(t).value] + Scan(t[MatchSize(t, parse, size)..], parse, size)
    else Scan(t[1..], parse, size)
  }

  /**
   * When every match has property `P` and its text `text` at the start of the input, every
   * match reported has `P` and its text occurs in `t`.
   */
  lemma {:induction false} ScanSound<T>(t: string, parse: string -> Option<T>, size: T -> nat,
                                        P: T -> bool, text: T -> string)
    requires forall x :: MatchStarts(x, parse, size) ==> P(parse(x).value) && HasPrefix(x, text(parse(x).value))
    ensures forall v :: v in Scan(t, parse, size) ==> P(v) && Contains(t, text(v))
    decreases |t|
  {
    if t != [] {
      var n := if MatchStarts(t, parse, size) then MatchSize(t, parse, size) else 1;
      var rest := t[n..];
      ScanSound(rest, parse, size, P, text);
      forall v | v in Scan(rest, parse, size) ensures Contains(t, text(v)) {
        var u := text(v);
        var k :| 0 <= k <= |rest| && At(rest, k, u);
        assert t[n + k..n + k + |u|] == rest[k..k + |u|];
        assert At(t, n + k, u);
      }
      if MatchStarts(t, parse, size) {
        assert At(t, 0, text(parse(t).value));
      }
    }
  }

  /** Nothing is reported exactly when no match starts anywhere in `t`. */
  lemma {:induction false} ScanEmpty<T>(t: string, parse: string -> Option<T>, size: T -> nat)
    ensures Scan(t, parse, size) == [] <==> forall k :: 0 <= k < |t| ==> !MatchStarts(t[k..], parse, size)
    decreases |t|
  {
    if t != [] {
      assert t[0..] == t;
      if !MatchStarts(t, parse, size) {
        ScanEmpty(t[1..], parse, size);
        forall k | 1 <= k < |t| ensures t[1..][k - 1..] == t[k..] { }
        forall k | 0 <= k < |t| - 1 ensures t[1..][k..] == t[k + 1..] { }
      }
    }
  }

  /** The first match in `t` starts at `j`. */
  predicate FirstMatchAt<T>(t: string, j: int, parse: string -> Option<T>, size: T -> nat) {
    0 <= j < |t| && MatchStarts(t[j..], parse, size) && forall k :: 0 <= k < j ==> !MatchStarts(t[k..], parse, size)
  }

  /**
   * When the first match starts at `j`, it is reported first, and the search resumes at its
   * end: no match is missed and none is reported out of order.
   */
  lemma {:induction false} ScanFirst<T>(t: string, j: int, parse: string -> Option<T>, size: T -> nat)
    requires FirstMatchAt(t, j, parse, size)
    ensures Scan(t, parse, size)
      == [parse(t[j..]).value] + Scan(t[j + MatchSize(t[j..], parse, size)..], parse, size)
    decreases j
  {
    assert t[0..] == t;
    if j > 0 {
      var rest := t[1..];
      assert rest[j - 1..] == t[j..];
      forall k | 0 <= k < j - 1 ensures !MatchStarts(rest[k..], parse, size) {
        assert rest[k..] == t[k + 1..];
      }
      assert FirstMatchAt(rest, j - 1, parse, size);
      ScanFirst(rest, j - 1, parse, size);
      assert rest[j - 1 + MatchSize(t[j..], parse, size)..] == t[j + MatchSize(t[j..], parse, size)..];
    }
  }

  /** `ScanFirst` for every position. */
  lemma ScanFirstAll<T>(t: string, parse: string -> Option<T>, size: T -> nat)
    ensures forall j :: FirstMatchAt(t, j, parse, size) ==>
      Scan(t, parse, size) == [parse(t[j..]).value] + Scan(t[j + MatchSize(t[j..], parse, size)..], parse, size)
  {
    forall j | FirstMatchAt(t, j, parse, size)
      ensures Scan(t, parse, size)
        == [parse(t[j..]).value] + Scan(t[j + MatchSize(t[j..], parse, size)..], parse, size)
    {
      ScanFirst(t, j, parse, size);
    }
  }

  /**
   * Two texts joined by a character at which no match starts, and across which no match of
   * the first text runs, give the matches of the first followed by those of the second.
   */
  lemma {:induction false} ScanJoined<T>(a: string, c: char, b: string, parse: string -> Option<T>, size: T -> nat)
    requires !MatchStarts([c] + b, parse, size)
    requires forall k :: 0 <= k < |a| ==>
      parse((a + [c] + b)[k..]) == parse(a[k..])
      && (MatchStarts(a[k..], parse, size) || !MatchStarts((a + [c] + b)[k..], parse, size))
    ensures Scan(a + [c] + b, parse, size) == Scan(a, parse, size) + Scan(b, parse, size)
    decreases |a|
  {
    var s := a + [c] + b;
    if a == [] {
      assert s == [c] + b;
      assert s[1..] == b;
    } else {
      assert s[0..] == s && a[0..] == a;
      var n := if MatchStarts(a, parse, size) then MatchSize(a, parse, size) else 1;
      var rest := a[n..];
      assert s[n..] == rest + [c] + b;
      forall k | 0 <= k < |rest|
        ensures parse((rest + [c] + b)[k..]) == parse(rest[k..])
          && (MatchStarts(rest[k..], parse, size) || !MatchStarts((rest + [c] + b)[k..], parse, size))
      {
        assert rest[k..] == a[n + k..];
        assert (rest + [c] + b)[k..] == s[n + k..];
      }
      ScanJoined(rest, c, b, parse, size);
    }
  }

  // ---------------------------------------------------------------- trimming

  /** Where `TrimSpace(s)` starts inside `s`: after the leading run of white space. */
  function TrimStart(s: string): nat
    ensures TrimStart(s) <= |s|
  {
    RunLen(s, 0, IsSpace)
  }

  /**
   * Scanning back from `e` while the character before it is white space, but not past
   * `lo`: where the trailing run of white space of `s[lo..]` begins.
   */
  function EndFrom(s: string, lo: nat, e: nat): (r: nat)
    requires lo <= e <= |s|
    ensures lo <= r <= e
    ensures forall k :: r <= k < e ==> IsSpace(s[k])
    ensures r == lo || !IsSpace(s[r - 1])
    decreases e
  {
    if e > lo && IsSpace(s[e - 1]) then EndFrom(s, lo, e - 1) else e
  }

  /** Where `TrimSpace(s)` ends inside `s`. */
  function TrimEnd(s: string): nat
    ensures TrimStart(s) <= TrimEnd(s) <= |s|
  {
    EndFrom(s, TrimStart(s), |s|)
  }

  /**
   * `strings.TrimSpace`: the slice of `s` left once leading and trailing white space is
   * removed (scanning forward for the start, then backward for the end, as the function's
   * ASCII path does); everything cut away is white space and the ends that remain are not.
   */
  function TrimSpace(s: string): (r: string)
    ensures TrimStart(s) + |r| <= |s| && r == s[TrimStart(s)..TrimStart(s) + |r|]
    ensures forall k :: 0 <= k < TrimStart(s) ==> IsSpace(s[k])
    ensures forall k :: TrimStart(s) + |r| <= k < |s| ==> IsSpace(s[k])
    ensures r == [] || (!IsSpace(r[0]) && !IsSpace(r[|r| - 1]))
  {
    s[TrimStart(s)..TrimEnd(s)]
  }

  /** Trimming a trimmed string changes nothing. */
  lemma TrimSpaceIdempotent(s: string)
    ensures TrimSpace(TrimSpace(s)) == TrimSpace(s)
  {
    var t := TrimSpace(s);
    if t != [] {
      assert TrimStart(t) == 0;
      assert TrimEnd(t) == |t|;
    }
  }

  /** A character that is not white space survives trimming when it ends the string. */
  lemma TrimSpaceKeepsLast(s: string)
    requires |s| > 0 && !IsSpace(s[|s| - 1])
    ensures |TrimSpace(s)| > 0 && TrimSpace(s)[|TrimSpace(s)| - 1] == s[|s| - 1]
    ensures TrimStart(s) + |TrimSpace(s)| == |s|
  {
  }

  // ---------------------------------------------------------------- byte length

  /** The number of bytes of the UTF-8 encoding of `c`. */
  function RuneLen(c: char): nat {
    if c < '\U{80}' then 1 else if c < '\U{800}' then 2 else if c < '\U{10000}' then 3 else 4
  }

  /** Go's `len` of a string: the length of its UTF-8 encoding in bytes. */
  function Utf8Len(s: string): (n: nat)
    ensures |s| <= n <= 4 * |s|
  {
    if s == [] then 0 else Utf8Len(s[..|s| - 1]) + RuneLen(s[|s| - 1])
  }

  // ---------------------------------------------------------------- decimal numbers

  function DigitChar(d: nat): (c: char)
    requires d < 10
    ensures IsDigit(c)
  {
    ('0' as int + d) as char
  }

  function DigitValue(c: char): nat
    requires IsDigit(c)
  {
    (c as int) - ('0' as int)
  }

  /** `%d` of a non-negative integer: its decimal digits, without leading zeros. */
  function NatToString(n: nat): (r: string)
    ensures |r| >= 1 && AllDigits(r)
    ensures |r| > 1 ==> r[0] != '0'
    decreases n
  {
    if n < 10 then [DigitChar(n)] else NatToString(n / 10) + [DigitChar(n % 10)]
  }

  /** `%d` of any integer. */
  function IntToString(n: int): string {
    if n < 0 then "-" + NatToString(-n) else NatToString(n)
  }

  /** The value of a string of decimal digits. */
  function DecimalValue(ds: string): nat
    requires AllDigits(ds)
  {
    if ds == [] then 0 else DecimalValue(ds[..|ds| - 1]) * 10 + DigitValue(ds[|ds| - 1])
  }

  const MaxInt64: int := 0x7fff_ffff_ffff_ffff

  /**
   * `strconv.Atoi` on a non-empty run of ASCII digits, its error ignored: the value,
   * or the largest 64-bit integer when the value does not fit.
   */
  function Atoi(ds: string): (r: int)
    requires AllDigits(ds)
    ensures 0 <= r <= MaxInt64
    ensures DecimalValue(ds) <= MaxInt64 ==> r == DecimalValue(ds)
  {
    if DecimalValue(ds) > MaxInt64 then MaxInt64 else DecimalValue(ds)
  }

  /** Reading back the decimal rendering of `n` gives `n`. */
  lemma {:induction false} DecimalOfNatToString(n: nat)
    ensures DecimalValue(NatToString(n)) == n
    decreases n
  {
    if n >= 10 {
      var prefix := NatToString(n / 10);
      var s := NatToString(n);
      assert s[..|s| - 1] == prefix;
      DecimalOfNatToString(n / 10);
    }
  }

  /** `Atoi` inverts `%d` on every non-negative 64-bit integer. */
  lemma AtoiOfNatToString(n: nat)
    requires n <= MaxInt64
    ensures Atoi(NatToString(n)) == n
  {
    DecimalOfNatToString(n);
  }

  // ---------------------------------------------------------------- Go integer division

  /** Go's `/` on integers, which truncates toward zero. */
  function GoDiv(a: int, b: int): (q: int)
    requires b != 0
    ensures 0 <= a && 0 < b ==> q == a / b
  {
    var q := (if a < 0 then -a else a) / (if b < 0 then -b else b);
    if (a < 0) != (b < 0) then -q else q
  }

  /** Go's `%` on integers: the remainder takes the sign of the dividend. */
  function GoMod(a: int, b: int): int
    requires b != 0
  {
    a - GoDiv(a, b) * b
  }

  /** Truncated division and remainder recombine, with the remainder smaller than the divisor. */
  lemma GoDivMod(a: int, b: int)
    requires b != 0
    ensures GoDiv(a, b) * b + GoMod(a, b) == a
    ensures (if b < 0 then -b else b) > (if GoMod(a, b) < 0 then -GoMod(a, b) else GoMod(a, b))
    ensures GoMod(a, b) == 0 || (GoMod(a, b) < 0) == (a < 0)
  {
    var ua := if a < 0 then -a else a;
    var ub := if b < 0 then -b else b;
    var q := ua / ub;
    assert ua == q * ub + ua % ub;
    if a < 0 && b < 0 {
      assert GoDiv(a, b) * b == -(q * ub);
      assert GoMod(a, b) == -(ua % ub);
    } else if a < 0 {
      assert GoDiv(a, b) * b == -(q * ub);
      assert GoMod(a, b) == -(ua % ub);
    } else if b < 0 {
      assert GoDiv(a, b) * b == q * ub;
      assert GoMod(a, b) == ua % ub;
    } else {
      assert GoMod(a, b) == ua % ub;
    }
  }
}
