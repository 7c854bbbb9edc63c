/**
 * The building blocks of the case-insensitive phrase patterns of the claim heuristics.
 *
 * Each heuristic regexp is written here as the list of its alternatives, its alternation
 * groups multiplied out. Only whether a pattern matches somewhere (`MatchString`) is asked
 * of these patterns, and for that question an alternation is the union of its branches, so
 * the expansion is exact.
 */
module Patterns {
  import opened Text

  /** ASCII lower case; other characters are left alone. */
  function ToLower(c: char): char {
    if 'A' <= c <= 'Z' then (c as int + 32) as char else c
  }

  /**
   * `c` matches the pattern character `p` under `(?i)`: simple case folding, which for the
   * letters these patterns use adds U+017F LONG S to `s` and U+212A KELVIN SIGN to `k`.
   */
  predicate FoldEq(c: char, p: char) {
    c == p
    || (IsAsciiLetter(p) && ToLower(c) == ToLower(p))
    || (ToLower(p) == 's' && c == '\U{017F}')
    || (ToLower(p) == 'k' && c == '\U{212A}')
  }

  /** The assertion `\b`: a word character on exactly one side of position `i`. */
  predicate AtWordBoundary(s: string, i: int)
    requires 0 <= i <= |s|
  {
    (i > 0 && IsWordChar(s[i - 1])) != (i < |s| && IsWordChar(s[i]))
  }

  /**
   * An alternative is written as a string in a small notation: `_` stands for `\s+`,
   * `#` for `\d+`, `|` for `\b`, `^` for the start of the text, `?c` for an optional
   * `c`; every other character stands for itself, case-folded. (None of the patterns
   * modelled here uses those five characters literally.)
   */
  type Alternative = string

  /** A pattern is the list of its alternatives. */
  type Pattern = seq<Alternative>

  predicate IsOperator(c: char) { c == '_' || c == '#' || c == '|' || c == '^' || c == '?' }

  /** The alternative matches some prefix of `s[i..]` (backtracking through `+` and `?`). */
  predicate MatchAt(p: Alternative, s: string, i: int)
    requires 0 <= i <= |s|
    decreases |p|, |s| - i
  {
    if p == [] then true
    else if p[0] == '_' then
      i < |s| && IsRegexSpace(s[i]) && (MatchAt(p[1..], s, i + 1) || MatchAt(p, s, i + 1))
    else if p[0] == '#' then
      i < |s| && IsDigit(s[i]) && (MatchAt(p[1..], s, i + 1) || MatchAt(p, s, i + 1))
    else if p[0] == '|' then AtWordBoundary(s, i) && MatchAt(p[1..], s, i)
    else if p[0] == '^' then i == 0 && MatchAt(p[1..], s, i)
    else if p[0] == '?' && |p| >= 2 then
      (i < |s| && FoldEq(s[i], p[1]) && MatchAt(p[2..], s, i + 1)) || MatchAt(p[2..], s, i)
    else i < |s| && FoldEq(s[i], p[0]) && MatchAt(p[1..], s, i + 1)
  }

  /** The alternative matches at position `i` or later. */
  predicate MatchesFrom(a: Alternative, s: string, i: int)
    requires 0 <= i <= |s|
    decreases |s| - i
  {
    MatchAt(a, s, i) || (i < |s| && MatchesFrom(a, s, i + 1))
  }

  /** The pattern matches somewhere in `s` (the regexp's `MatchString`): one of its alternatives does. */
  predicate Matches(p: Pattern, s: string) {
    |p| > 0 && (MatchesFrom(p[0], s, 0) || Matches(p[1..], s))
  }

  /** Some pattern of the table matches `s`. */
  predicate AnyMatches(table: seq<Pattern>, s: string) {
    |table| > 0 && (Matches(table[0], s) || AnyMatches(table[1..], s))
  }

  /** `MatchesFrom` is a search: it holds exactly when the alternative matches at some later position. */
  lemma {:induction false} MatchesFromSearch(a: Alternative, s: string, i: int)
    requires 0 <= i <= |s|
    ensures MatchesFrom(a, s, i) <==> exists j :: i <= j <= |s| && MatchAt(a, s, j)
    decreases |s| - i
  {
    if i < |s| {
      MatchesFromSearch(a, s, i + 1);
      if MatchAt(a, s, i) {
        assert exists j :: i <= j <= |s| && MatchAt(a, s, j);
      }
      if MatchesFrom(a, s, i) && !MatchAt(a, s, i) {
        var j :| i + 1 <= j <= |s| && MatchAt(a, s, j);
        assert i <= j <= |s| && MatchAt(a, s, j);
      }
      if exists j :: i <= j <= |s| && MatchAt(a, s, j) {
        var j :| i <= j <= |s| && MatchAt(a, s, j);
        if j > i {
          assert i + 1 <= j <= |s| && MatchAt(a, s, j);
        }
      }
    } else {
      if MatchesFrom(a, s, i) {
        assert MatchAt(a, s, i);
        assert exists j :: i <= j <= |s| && MatchAt(a, s, j);
      }
      if exists j :: i <= j <= |s| && MatchAt(a, s, j) {
        var j :| i <= j <= |s| && MatchAt(a, s, j);
        assert j == i && MatchAt(a, s, i);
        assert MatchesFrom(a, s, i);
      }
    }
  }

  /** A literal word at position `i`, case-folded. */
  predicate FoldedAt(s: string, i: int, w: string) {
    0 <= i && i + |w| <= |s| && forall k :: 0 <= k < |w| ==> FoldEq(s[i + k], w[k])
  }

  /** A word without operators matches exactly where its characters do. */
  lemma {:induction false} MatchWord(w: string, rest: Alternative, s: string, i: int)
    requires 0 <= i <= |s|
    requires forall k :: 0 <= k < |w| ==> !IsOperator(w[k])
    ensures MatchAt(w + rest, s, i) <==> FoldedAt(s, i, w) && MatchAt(rest, s, i + |w|)
    decreases |w|
  {
    if w != [] {
      assert (w + rest)[0] == w[0];
      assert (w + rest)[1..] == w[1..] + rest;
      if i < |s| {
        MatchWord(w[1..], rest, s, i + 1);
        if FoldEq(s[i], w[0]) && FoldedAt(s, i + 1, w[1..]) {
          forall k | 0 <= k < |w| ensures FoldEq(s[i + k], w[k]) {
            if k > 0 {
              assert w[k] == w[1..][k - 1];
            }
          }
        }
        if FoldedAt(s, i, w) {
          assert FoldEq(s[i], w[0]);
          forall k | 0 <= k < |w| - 1 ensures FoldEq(s[i + 1 + k], w[1..][k]) {
            assert FoldEq(s[i + (k + 1)], w[k + 1]);
          }
        }
      }
    } else {
      assert w + rest == rest;
    }
  }
}
