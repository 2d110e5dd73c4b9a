/**
 * `take_chars` (shared/util.rs) and the "cut and add an ellipsis" rule that
 * the active-window and media modules build on it.
 */
module Util {
  import opened Base

  function Min(a: int, b: int): int { if a <= b then a else b }

  /**
   * The first `x` characters of `s`: the empty string when `x` is zero, the
   * whole of `s` when it has no more than `x` characters.
   */
  function TakeChars(s: string, x: nat): (r: string)
    ensures StartsWith(s, r)
    ensures x == 0 ==> r == []
    ensures x > 0 ==> |r| == Min(x, |s|)
    ensures |s| <= x && x > 0 ==> r == s
    ensures |s| > x ==> r == s[..x]
  {
    if x == 0 then [] else CharIndexScan(s, x, 0)
  }

  /**
   * The `char_indices().enumerate()` loop: walk the characters counting
   * them; stop and cut when the count reaches `x`, and hand back the whole
   * string if the characters run out first.
   */
  function CharIndexScan(s: string, x: nat, count: nat): (r: string)
    requires count <= |s| && count <= x
    ensures StartsWith(s, r)
    ensures |r| == Min(x, |s|)
    decreases |s| - count
  {
    if count == |s| then s
    else if count == x then s[..count]
    else CharIndexScan(s, x, count + 1)
  }

  const ELLIPSIS: string := "…"

  /**
   * Truncation used for window titles and media text: when a non-zero limit
   * is exceeded, keep `lim` characters and append an ellipsis; otherwise the
   * text is left alone.
   */
  function Ellipsize(text: string, lim: nat): (r: string)
    ensures lim == 0 || |text| <= lim ==> r == text
    ensures lim != 0 && |text| > lim ==> r == text[..lim] + ELLIPSIS
    ensures lim != 0 ==> |r| <= lim + 1
    ensures StartsWith(r, TakeChars(text, lim))
  {
    if lim != 0 && |text| > lim then TakeChars(text, lim) + ELLIPSIS else text
  }
}
