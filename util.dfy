/**
 * The shared numeric and text helpers of the editor: `clamp` and
 * `normalizeNewlines`.
 */
module Util {
  import opened JsString

  /** `clamp(value, min, max)`. JavaScript numbers are modelled as integers;
      the `TypeError` thrown for non-number arguments is excluded by typing. */
  function Clamp(value: int, min: int, max: int): (r: int)
    ensures Min(min, max) <= r <= Max(min, max)
    ensures Min(min, max) <= value <= Max(min, max) ==> r == value
    ensures value < Min(min, max) ==> r == Min(min, max)
    ensures value > Max(min, max) ==> r == Max(min, max)
  {
    var (lo, hi) := if min > max then (max, min) else (min, max);
    if value < lo then lo
    else if value > hi then hi
    else value
  }

  /** Clamping is idempotent and does not care about the order of the bounds. */
  lemma ClampIdempotent(value: int, a: int, b: int)
    ensures Clamp(Clamp(value, a, b), a, b) == Clamp(value, a, b)
    ensures Clamp(value, a, b) == Clamp(value, b, a)
  {
  }

  /** Number of positions at which "\r\n" starts. */
  function CrlfCount(s: string): nat
    decreases |s|
  {
    if |s| < 2 then 0
    else (if s[0] == '\r' && s[1] == '\n' then 1 else 0) + CrlfCount(s[1..])
  }

  /** `text.replace(/\r\n/g, "\n")`: every "\r\n", scanned left to right, becomes "\n". */
  function NormalizeNewlines(s: string): (r: string)
    ensures |r| == |s| - CrlfCount(s)
    ensures CrlfCount(s) == 0 ==> r == s
    ensures Count(r, '\n') == Count(s, '\n')
    ensures Count(s, '\r') - Count(r, '\r') == CrlfCount(s)
    decreases |s|
  {
    if |s| >= 2 && s[0] == '\r' && s[1] == '\n' then
      assert s[1..][1..] == s[2..];
      "\n" + NormalizeNewlines(s[2..])
    else if s == [] then
      ""
    else
      [s[0]] + NormalizeNewlines(s[1..])
  }

  /** The replacement is not idempotent: a "\r" in front of "\r\n" survives one pass. */
  lemma NormalizeNewlinesNotIdempotent()
    ensures NormalizeNewlines("\r\r\n") == "\r\n"
    ensures NormalizeNewlines(NormalizeNewlines("\r\r\n")) == "\n"
  {
    assert "\r\r\n"[1..] == "\r\n";
    assert "\r\n"[2..] == "";
  }
}
