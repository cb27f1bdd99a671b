/**
 * The JavaScript string operations the schema setters and the environment
 * classifier rely on: `String.prototype.trim`, lower-casing, and the substring
 * test a literal regular expression performs.
 */
module Text {

  /** The characters `trim` removes: ECMAScript WhiteSpace and LineTerminator. */
  predicate IsSpace(c: char) {
    || c == ' ' || c == '\t' || c == '\n' || c == '\U{0B}' || c == '\U{0C}' || c == '\r'
    || c == '\U{A0}' || c == '\U{1680}' || ('\U{2000}' <= c <= '\U{200A}')
    || c == '\U{2028}' || c == '\U{2029}' || c == '\U{202F}' || c == '\U{205F}'
    || c == '\U{3000}' || c == '\U{FEFF}'
  }

  /** Neither end of `s` is whitespace. */
  predicate IsTrimmed(s: string) {
    s == [] || (!IsSpace(s[0]) && !IsSpace(s[|s| - 1]))
  }

  /** Where `s` stops being whitespace: the length of its longest whitespace prefix. */
  function SpanStart(s: string, from: nat): (i: nat)
    requires from <= |s|
    ensures from <= i <= |s|
    ensures forall k | from <= k < i :: IsSpace(s[k])
    ensures i == |s| || !IsSpace(s[i])
    decreases |s| - from
  {
    if from < |s| && IsSpace(s[from]) then SpanStart(s, from + 1) else from
  }

  /** Where the whitespace suffix of `s[lo..hi]` begins. */
  function SpanEnd(s: string, lo: nat, hi: nat): (j: nat)
    requires lo <= hi <= |s|
    ensures lo <= j <= hi
    ensures forall k | j <= k < hi :: IsSpace(s[k])
    ensures j == lo || !IsSpace(s[j - 1])
  {
    if lo < hi && IsSpace(s[hi - 1]) then SpanEnd(s, lo, hi - 1) else hi
  }

  /** `r` stands at position `i` of `s` with nothing but whitespace around it. */
  predicate Framed(s: string, r: string, i: int) {
    && OccursAt(s, r, i)
    && (forall k | 0 <= k < i :: IsSpace(s[k]))
    && (forall k | i + |r| <= k < |s| :: IsSpace(s[k]))
  }

  /** `String.prototype.trim`: drops whitespace at both ends and keeps the middle. */
  function Trim(s: string): (r: string)
    ensures IsTrimmed(r)
    ensures exists i :: Framed(s, r, i)
  {
    var lo := SpanStart(s, 0);
    var hi := SpanEnd(s, lo, |s|);
    assert Framed(s, s[lo..hi], lo);
    s[lo..hi]
  }

  /** A string that is already trimmed is its own trim. */
  lemma TrimIdempotent(s: string)
    requires IsTrimmed(s)
    ensures Trim(s) == s
  {
  }

  /** The lower case of one character; only the ASCII letters change. */
  function LowerChar(c: char): (d: char)
    ensures ('A' <= c <= 'Z') == (d != c)
    ensures !('A' <= d <= 'Z')
    ensures IsSpace(d) == IsSpace(c)
  {
    if 'A' <= c <= 'Z' then (c as int - 'A' as int + 'a' as int) as char else c
  }

  /** No character of `s` changes under lower-casing. */
  predicate IsLower(s: string) {
    forall i | 0 <= i < |s| :: LowerChar(s[i]) == s[i]
  }

  /** Lower-casing, character by character. */
  function Lower(s: string): (r: string)
    ensures |r| == |s|
    ensures forall i | 0 <= i < |s| :: r[i] == LowerChar(s[i])
    ensures IsLower(r)
  {
    seq(|s|, i requires 0 <= i < |s| => LowerChar(s[i]))
  }

  /** Any piece cut out of a lower-case string is lower-case. */
  lemma LowerSlice(s: string, i: int, j: int)
    requires IsLower(s) && 0 <= i <= j <= |s|
    ensures IsLower(s[i..j])
  {
  }

  /** The schema's `lowercase` and `trim` setters together yield a lower-case, trimmed string. */
  lemma TrimLowerNormal(s: string)
    ensures IsLower(Trim(Lower(s))) && IsTrimmed(Trim(Lower(s)))
  {
    var l := Lower(s);
    var r := Trim(l);
    var i :| Framed(l, r, i);
    LowerSlice(l, i, i + |r|);
  }

  /** `pat` occurs in `s` starting at position `i`. */
  predicate OccursAt(s: string, pat: string, i: int) {
    0 <= i <= |s| - |pat| && s[i..i + |pat|] == pat
  }

  /** The substring test `/pat/.test(s)` performs for a pattern without metacharacters. */
  predicate Contains(s: string, pat: string) {
    exists i | 0 <= i <= |s| - |pat| :: OccursAt(s, pat, i)
  }

  /** A string with no upper-case ASCII letter is its own lower case. */
  lemma LowerIdentity(s: string)
    requires forall c | c in s :: !('A' <= c <= 'Z')
    ensures Lower(s) == s
  {
    assert forall i | 0 <= i < |s| :: s[i] in s;
  }

  /**
   * `pat` does not occur in `s` when its `k`-th character is missing from the
   * part of `s` where that character would have to stand.
   */
  lemma NotContains(s: string, pat: string, k: int)
    requires 0 <= k < |pat| <= |s|
    requires pat[k] !in s[k..|s| - |pat| + k + 1]
    ensures !Contains(s, pat)
  {
    forall i | 0 <= i <= |s| - |pat|
      ensures !OccursAt(s, pat, i)
    {
      assert s[i..i + |pat|][k] == s[k..|s| - |pat| + k + 1][i];
    }
  }

  /** `pat` does not occur in `s` when one of its characters occurs nowhere in `s`. */
  lemma NotContainsChar(s: string, pat: string, c: char)
    requires c in pat && c !in s
    ensures !Contains(s, pat)
  {
  }
}
