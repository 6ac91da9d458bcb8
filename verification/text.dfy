/** Scans over strings that several parts of the model share: the length of a
    run of characters of one class at either end of a string, and Python's
    `str.lstrip` / `str.rstrip` with a single character, which are such scans. */
module Text {

  /** Length of the longest prefix of `s` whose characters all satisfy `ok`. */
  function PrefixWhile(s: string, ok: char -> bool): (n: nat)
    ensures n <= |s|
    ensures forall i :: 0 <= i < n ==> ok(s[i])
    ensures n < |s| ==> !ok(s[n])
  {
    if |s| > 0 && ok(s[0]) then 1 + PrefixWhile(s[1..], ok) else 0
  }

  /** Length of the longest suffix of `s` whose characters all satisfy `ok`. */
  function SuffixWhile(s: string, ok: char -> bool): (n: nat)
    ensures n <= |s|
    ensures forall i :: |s| - n <= i < |s| ==> ok(s[i])
    ensures n < |s| ==> !ok(s[|s| - n - 1])
  {
    if |s| > 0 && ok(s[|s| - 1]) then 1 + SuffixWhile(s[..|s| - 1], ok) else 0
  }

  /** A run of `ok` characters followed by a character that is not `ok` (or by
      nothing) is exactly the prefix that `PrefixWhile` measures. */
  lemma {:induction false} PrefixWhileOfConcat(p: string, r: string, ok: char -> bool)
    requires forall i :: 0 <= i < |p| ==> ok(p[i])
    requires |r| == 0 || !ok(r[0])
    ensures PrefixWhile(p + r, ok) == |p|
  {
    if |p| > 0 {
      assert (p + r)[1..] == p[1..] + r;
      PrefixWhileOfConcat(p[1..], r, ok);
    } else {
      assert p + r == r;
    }
  }

  function IsChar(c: char): char -> bool {
    x => x == c
  }

  /** Python's `s.lstrip(c)` for a one-character argument: every leading `c` removed. */
  function StripLeading(s: string, c: char): (r: string)
    ensures |r| <= |s| && r == s[|s| - |r|..]
    ensures forall i :: 0 <= i < |s| - |r| ==> s[i] == c
    ensures |r| == 0 || r[0] != c
  {
    s[PrefixWhile(s, IsChar(c))..]
  }

  /** Python's `s.rstrip(c)` for a one-character argument: every trailing `c` removed. */
  function StripTrailing(s: string, c: char): (r: string)
    ensures |r| <= |s| && r == s[..|r|]
    ensures forall i :: |r| <= i < |s| ==> s[i] == c
    ensures |r| == 0 || r[|r| - 1] != c
  {
    s[..|s| - SuffixWhile(s, IsChar(c))]
  }

  predicate StartsWith(s: string, prefix: string) {
    |prefix| <= |s| && s[..|prefix|] == prefix
  }

  predicate EndsWith(s: string, suffix: string) {
    |suffix| <= |s| && s[|s| - |suffix|..] == suffix
  }
}
