/** The one piece of the JavaScript string library the typewriter relies on. */
module JsText {

  /** `p` is a prefix of `s`. */
  predicate IsPrefix(p: string, s: string) {
    |p| <= |s| && s[..|p|] == p
  }

  /** Distance between two positions. */
  function Dist(a: int, b: int): nat {
    if a >= b then a - b else b - a
  }

  /** JavaScript clamps a `substring` argument into `[0, |s|]`: the index of the string nearest to `i`. */
  function ClampIndex(i: int, n: nat): (r: nat)
    ensures r <= n
    ensures forall j :: 0 <= j <= n ==> Dist(r, i) <= Dist(j, i)
  {
    if i < 0 then 0 else if i > n then n else i
  }

  /**
   * `s.substring(start, end)`: both indices are clamped into `[0, |s|]` and,
   * when the first ends up beyond the second, the two are swapped.
   */
  function Substring(s: string, start: int, end: int): (r: string)
    ensures |r| <= |s|
    ensures start == 0 ==> IsPrefix(r, s) && |r| == ClampIndex(end, |s|)
  {
    var a := ClampIndex(start, |s|);
    var b := ClampIndex(end, |s|);
    if a <= b then s[a..b] else s[b..a]
  }

  /** Taking one more character of `s` after a proper prefix `p` appends exactly `s[|p|]`. */
  lemma PrefixGrow(p: string, s: string)
    requires IsPrefix(p, s) && |p| < |s|
    ensures Substring(s, 0, |p| + 1) == p + [s[|p|]]
  {
    assert s[..|p| + 1] == s[..|p|] + [s[|p|]];
  }

  /** Taking one character fewer than a non-empty prefix `p` drops its last character. */
  lemma PrefixShrink(p: string, s: string)
    requires IsPrefix(p, s) && p != []
    ensures Substring(s, 0, |p| - 1) == p[..|p| - 1]
  {
  }
}
