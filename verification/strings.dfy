/**
 * The few `java.lang.String` queries the migration rules use: `startsWith`,
 * and `contains`, which Java implements as `indexOf(t) >= 0`.
 * Strings are sequences of Dafny characters (Unicode scalar values), not
 * UTF-16 code units, so lengths and indices count characters.
 */
module Strings {

  /** `s` begins with `prefix`. */
  predicate StartsWith(s: string, prefix: string) {
    |prefix| <= |s| && s[..|prefix|] == prefix
  }

  /** `t` occurs in `s` as a block starting at index `i`. */
  predicate OccursAt(s: string, t: string, i: nat) {
    i + |t| <= |s| && s[i..i + |t|] == t
  }

  /** `t` occurs somewhere in `s`: the meaning of `String.contains`. */
  ghost predicate Contains(s: string, t: string) {
    exists i: nat :: OccursAt(s, t, i)
  }

  /**
   * The left-to-right scan of `String.indexOf(t, from)` for `from <= |s|`:
   * the first index at or after `from` where `t` occurs, or -1 when there is
   * none. (For an empty `t` and `from > |s|` Java answers `|s|` and this
   * answers -1; `ContainsText` only scans from 0.)
   */
  function IndexOf(s: string, t: string, from: nat): (r: int)
    ensures r == -1 || (from <= r && OccursAt(s, t, r))
    ensures r >= 0 ==> forall j: nat :: from <= j < r ==> !OccursAt(s, t, j)
    ensures r == -1 ==> forall j: nat :: from <= j ==> !OccursAt(s, t, j)
    decreases |s| - from
  {
    if from + |t| > |s| then -1
    else if s[from..from + |t|] == t then from
    else IndexOf(s, t, from + 1)
  }

  /** `String.contains`: true exactly when `t` occurs in `s`. */
  function ContainsText(s: string, t: string): (b: bool)
    ensures b <==> Contains(s, t)
  {
    IndexOf(s, t, 0) >= 0
  }

}
