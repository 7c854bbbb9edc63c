/**
 * The command-line output helpers that compute text: status symbols, counted labels, the
 * progress bar and the human-readable duration.
 */
module Format {
  import opened Results
  import opened Text

  // ---------------------------------------------------------------- status symbols

  /** The four status values, numbered from zero as `iota` numbers them. */
  const StatusOK := 0
  const StatusWarning := 1
  const StatusError := 2
  const StatusPending := 3

  /** `FormatStatus`: a symbol per known status, and "?" for any other number. */
  function FormatStatus(s: int): (r: string)
    ensures |r| == 1
    ensures r == "?" <==> !(StatusOK <= s <= StatusPending)
  {
    if s == StatusOK then "✓"
    else if s == StatusWarning then "⚠"
    else if s == StatusError then "✗"
    else if s == StatusPending then "○"
    else "?"
  }

  /** The four known statuses are told apart by their symbols. */
  lemma StatusSymbolsDistinct(s: int, t: int)
    requires StatusOK <= s <= StatusPending && StatusOK <= t <= StatusPending && s != t
    ensures FormatStatus(s) != FormatStatus(t)
  {
    assert FormatStatus(s)[0] != FormatStatus(t)[0];
  }

  // ---------------------------------------------------------------- counts

  /** `FormatCount`: the count in decimal, a space, and the singular label exactly for one. */
  function FormatCount(count: int, singular: string, plural: string): (r: string)
    ensures var n := |IntToString(count)|;
      && |r| > n && r[..n] == IntToString(count) && r[n] == ' '
      && (count == 1 ==> r[n + 1..] == singular)
      && (count != 1 ==> r[n + 1..] == plural)
  {
    var digits := IntToString(count);
    var noun := if count == 1 then singular else plural;
    var r := digits + " " + noun;
    assert r[..|digits|] == digits;
    assert r[|digits| + 1..] == noun;
    r
  }

  /** The count can be read back from the front of the text, for any non-negative 64-bit count. */
  lemma FormatCountReadBack(count: int, singular: string, plural: string)
    requires 0 <= count <= MaxInt64
    ensures var r := FormatCount(count, singular, plural);
      var n := |NatToString(count)|;
      AllDigits(r[..n]) && Atoi(r[..n]) == count && r[n] == ' '
  {
    AtoiOfNatToString(count);
  }

  // ---------------------------------------------------------------- progress bar

  /** `strings.Repeat` of a one-character string. */
  function Repeat(c: char, n: nat): (r: string)
    ensures |r| == n && forall i :: 0 <= i < n ==> r[i] == c
  {
    seq(n, i => c)
  }

  const Full: char := '█'
  const Empty: char := '░'

  /** The number of filled cells: the truncated share of the width, capped at the width. */
  function Filled(current: int, total: int, width: int): int
    requires total != 0
  {
    var f := GoDiv(current * width, total);
    if f > width then width else f
  }

  /**
   * `ProgressBar`, with `None` for the panic of `strings.Repeat` on a negative count. With no
   * total the bar is `width` empty cells; otherwise the filled cells come first, then the
   * empty ones, `width` cells in all, and it panics exactly when the filled share is negative.
   */
  function ProgressBar(current: int, total: int, width: int): (r: Option<string>)
    ensures total == 0 ==> (r.Some? <==> width >= 0)
    ensures total == 0 && r.Some? ==> forall i :: 0 <= i < |r.value| ==> r.value[i] == Empty
    ensures total != 0 ==> (r.Some? <==> Filled(current, total, width) >= 0)
    ensures r.Some? ==> |r.value| == width
    ensures total != 0 && r.Some? ==>
      forall i :: 0 <= i < width ==> (r.value[i] == Full <==> i < Filled(current, total, width))
  {
    if total == 0 then
      if width < 0 then None else Some(Repeat(Empty, width))
    else
      var filled := Filled(current, total, width);
      if filled < 0 then None
      else
        var bar := Repeat(Full, filled) + Repeat(Empty, width - filled);
        assert forall i :: 0 <= i < width ==> (bar[i] == Full <==> i < filled);
        Some(bar)
  }

  /**
   * For progress between none and the total, the bar never panics and fills
   * `current * width / total` cells: none at the start and all of them at the end.
   */
  lemma ProgressBarInRange(current: int, total: int, width: int)
    requires 0 < total && 0 <= current <= total && 0 <= width
    ensures ProgressBar(current, total, width).Some?
    ensures Filled(current, total, width) == current * width / total
    ensures current == 0 ==> Filled(current, total, width) == 0
    ensures current == total ==> Filled(current, total, width) == width
  {
    var p := current * width;
    ScaleLe(current, total, width);
    var q := p / total;
    assert q * total <= p;
    ShareLe(q, width, total);
    if current == total {
      ShareOfWhole(width, total);
    }
  }

  /** Scaling by a non-negative number preserves order. */
  lemma ScaleLe(x: int, y: int, w: int)
    requires 0 <= x <= y && 0 <= w
    ensures 0 <= x * w <= y * w
  {
    assert y * w - x * w == (y - x) * w;
  }

  /** A share that fits in `width` parts of a positive total is at most `width`. */
  lemma ShareLe(q: int, width: int, total: int)
    requires 0 < total && q * total <= total * width
    ensures q <= width
  {
    if q > width {
      assert q * total - width * total == (q - width) * total;
      ScaleLe(1, q - width, total);
    }
  }

  /** The whole total's share is the whole width. */
  lemma ShareOfWhole(width: int, total: int)
    requires 0 < total && 0 <= width
    ensures total * width / total == width
  {
    var p := total * width;
    var q := p / total;
    var r := p % total;
    assert (width - q) * total == r by {
      assert p == q * total + r;
      assert (width - q) * total == width * total - q * total;
    }
    if width - q >= 1 {
      ScaleLe(1, width - q, total);
    } else if width - q <= -1 {
      ScaleLe(1, q - width, total);
    }
  }

  /** A bar with negative progress whose share truncates below zero panics. */
  lemma ProgressBarNegative(current: int, total: int, width: int)
    requires 0 < total && 0 < width && current * width <= -total
    ensures ProgressBar(current, total, width).None?
  {
    assert GoDiv(current * width, total) < 0 by {
      GoDivMod(current * width, total);
    }
  }

  // ---------------------------------------------------------------- durations

  /** Go's duration units, in nanoseconds. */
  const Second: int := 1000000000
  const Minute: int := 60 * Second
  const Hour: int := 60 * Minute

  /** The numbers a duration is shown with, and which of them are shown. */
  datatype Shown =
    | Secs(s: int)
    | MinSecs(m: int, s: int)
    | Mins(m: int)
    | HourMins(h: int, m: int)
    | Hours(h: int)

  /**
   * The parts of `FormatDuration`: below a minute the whole seconds; below an hour the whole
   * minutes and the seconds past them, the seconds left out when zero; from an hour on the
   * whole hours and the minutes past them, the minutes left out when zero. For a duration
   * that is not negative, the parts add up to the duration truncated to the last unit shown.
   */
  function DurationParts(d: int): (p: Shown)
    ensures d < Minute <==> p.Secs?
    ensures Minute <= d < Hour <==> p.MinSecs? || p.Mins?
    ensures Hour <= d <==> p.HourMins? || p.Hours?
    ensures p.Secs? ==> p.s == GoDiv(d, Second)
    ensures 0 <= d && p.Secs? ==> p.s * Second <= d < (p.s + 1) * Second
    ensures p.MinSecs? ==> 0 < p.s < 60 && 0 < p.m < 60 && (p.m * 60 + p.s) * Second <= d < (p.m * 60 + p.s + 1) * Second
    ensures p.Mins? ==> 0 < p.m < 60 && p.m * Minute <= d < p.m * Minute + Second
    ensures p.HourMins? ==> 0 < p.m < 60 && 0 < p.h && (p.h * 60 + p.m) * Minute <= d < (p.h * 60 + p.m + 1) * Minute
    ensures p.Hours? ==> 0 < p.h && p.h * Hour <= d < p.h * Hour + Minute
  {
    if d < Minute then Secs(GoDiv(d, Second))
    else if d < Hour then
      var mins := d / Minute;
      var secs := (d / Second) % 60;
      assert d / Second == mins * 60 + secs by {
        MinutesOfSeconds(d);
      }
      if secs > 0 then MinSecs(mins, secs) else Mins(mins)
    else
      var hours := d / Hour;
      var mins := (d / Minute) % 60;
      assert d / Minute == hours * 60 + mins by {
        HoursOfMinutes(d);
      }
      if mins > 0 then HourMins(hours, mins) else Hours(hours)
  }

  /** Whole minutes are whole seconds divided by sixty. */
  lemma MinutesOfSeconds(d: int)
    requires 0 <= d
    ensures d / Minute == d / Second / 60
  {
  }

  /** Whole hours are whole minutes divided by sixty. */
  lemma HoursOfMinutes(d: int)
    requires 0 <= d
    ensures d / Hour == d / Minute / 60
  {
  }

  /** The text of the parts: each number followed by its unit letter, separated by a space. */
  function Render(p: Shown): (r: string)
    ensures |r| >= 2
    ensures r[|r| - 1] == (if p.Secs? || p.MinSecs? then 's' else if p.Mins? || p.HourMins? then 'm' else 'h')
  {
    match p
    case Secs(s) => IntToString(s) + "s"
    case MinSecs(m, s) => IntToString(m) + "m " + IntToString(s) + "s"
    case Mins(m) => IntToString(m) + "m"
    case HourMins(h, m) => IntToString(h) + "h " + IntToString(m) + "m"
    case Hours(h) => IntToString(h) + "h"
  }

  /** `FormatDuration` of a duration in nanoseconds. */
  function FormatDuration(d: int): string {
    Render(DurationParts(d))
  }
}
