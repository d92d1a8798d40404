// The three JavaScript string built-ins the classifier relies on:
// String.prototype.toLowerCase (restricted to ASCII), String.prototype.includes
// and String.prototype.substring.

module Text {

  predicate IsUpper(c: char) {
    'A' <= c <= 'Z'
  }

  /** True when no character of `s` is an ASCII capital. */
  predicate IsLowered(s: string) {
    forall i :: 0 <= i < |s| ==> !IsUpper(s[i])
  }

  /** ASCII case folding of one character; every other character is kept. */
  function LowerChar(c: char): (r: char)
    ensures !IsUpper(r)
    ensures IsUpper(c) ==> r as int == c as int + 32
    ensures !IsUpper(c) ==> r == c
  {
    if IsUpper(c) then (c as int + 32) as char else c
  }

  /** `s.toLowerCase()`, folding only the ASCII capitals. */
  function Lower(s: string): (r: string)
    ensures |r| == |s|
    ensures forall i :: 0 <= i < |s| ==> r[i] == LowerChar(s[i])
  {
    seq(|s|, i requires 0 <= i < |s| => LowerChar(s[i]))
  }

  /** Lowering a lowered string changes nothing. */
  lemma LowerOfLowered(s: string)
    requires IsLowered(s)
    ensures Lower(s) == s
  {
  }

  /** Lowering leaves no ASCII capital behind. */
  lemma LowerIsLowered(s: string)
    ensures IsLowered(Lower(s))
  {
  }

  lemma LowerIdempotent(s: string)
    ensures Lower(Lower(s)) == Lower(s)
  {
    LowerIsLowered(s);
    LowerOfLowered(Lower(s));
  }

  /** `k` occurs in `s` starting at position `at`. */
  predicate OccursAt(s: string, k: string, at: int) {
    0 <= at && at + |k| <= |s| && s[at..at + |k|] == k
  }

  /**
   * `s.includes(k)`: `k` occurs at some position of `s`. Only a string no
   * longer than `s` can occur in it, every string includes its own
   * prefixes, and so every string includes the empty string.
   */
  predicate Contains(s: string, k: string)
    ensures Contains(s, k) ==> |k| <= |s|
    ensures |k| <= |s| && s[..|k|] == k ==> Contains(s, k)
    ensures k == [] ==> Contains(s, k)
  {
    assert |k| <= |s| && s[..|k|] == k ==> OccursAt(s, k, 0);
    exists i | 0 <= i <= |s| - |k| :: OccursAt(s, k, i)
  }

  /** `k` occurring at position `at` of `s` makes `s` include `k`. */
  lemma IncludesAt(s: string, k: string, at: nat)
    requires OccursAt(s, k, at)
    ensures Contains(s, k)
  {
  }

  /** Every character of an included string occurs in the including one. */
  lemma IncludedCharsOccur(s: string, k: string, j: nat)
    requires j < |k|
    ensures Contains(s, k) ==> k[j] in s
  {
    if Contains(s, k) {
      var at: int :| 0 <= at <= |s| - |k| && OccursAt(s, k, at);
      assert s[at..at + |k|][j] == s[at + j];
    }
  }

  /** Two adjacent characters of an included string are adjacent in the including one. */
  lemma IncludedPairsOccur(s: string, k: string, j: nat)
    requires j + 1 < |k|
    ensures Contains(s, k) ==>
      exists i :: 0 <= i < |s| - 1 && s[i] == k[j] && s[i + 1] == k[j + 1]
  {
    if Contains(s, k) {
      var at: int :| 0 <= at <= |s| - |k| && OccursAt(s, k, at);
      assert s[at..at + |k|][j] == s[at + j] && s[at..at + |k|][j + 1] == s[at + j + 1];
    }
  }

  /** `Math.min(Math.max(x, 0), n)`: how `substring` normalises an index. */
  function ClampIndex(x: int, n: nat): (r: nat)
    ensures r <= n
    ensures 0 <= x <= n ==> r == x
    ensures x < 0 ==> r == 0
    ensures n < x ==> r == n
  {
    if x < 0 then 0 else if x > n then n else x
  }

  /**
   * `s.substring(start, end)`: both indices are clamped to `[0, |s|]` and
   * swapped when the first is the larger.
   */
  function Substring(s: string, start: int, end: int): (r: string)
    ensures |r| <= |s|
    ensures Contains(s, r)
    ensures 0 <= start <= end <= |s| ==> r == s[start..end]
    ensures start <= 0 <= end ==> r == s[..ClampIndex(end, |s|)]
  {
    var a := ClampIndex(start, |s|);
    var b := ClampIndex(end, |s|);
    var r := if a <= b then s[a..b] else s[b..a];
    assert OccursAt(s, r, if a <= b then a else b);
    r
  }

  /** The order of the two indices does not matter. */
  lemma SubstringSymmetric(s: string, start: int, end: int)
    ensures Substring(s, start, end) == Substring(s, end, start)
  {
  }
}
