/**
 * Character classes and substring search used by the extractor.
 *
 * The extractor relies on Python's `str.lower`, the regular-expression classes
 * `\w` and `\s`, `str.strip`, `str.split` and the `in` operator on strings.
 * This module gives them their ASCII meaning: a character outside ASCII is
 * never upper case, never a word character and never whitespace here.
 */
module Text {

  /** Python's `str.isspace` (and so `\s`, `strip()` and `split()`) on ASCII:
      tab, line feed, vertical tab, form feed, carriage return, the four
      information separators 0x1C-0x1F, and the space itself. */
  predicate IsSpace(c: char) {
    var n := c as int;
    n == 32 || 9 <= n <= 13 || 28 <= n <= 31
  }

  predicate IsUpper(c: char) {
    'A' <= c <= 'Z'
  }

  /** The regular-expression class `\w` on ASCII: letters, digits and underscore. */
  predicate IsWordChar(c: char) {
    'a' <= c <= 'z' || 'A' <= c <= 'Z' || '0' <= c <= '9' || c == '_'
  }

  /** `str.lower` on one character. */
  function LowerChar(c: char): (d: char)
    ensures !IsUpper(d)
    ensures IsSpace(d) == IsSpace(c) && IsWordChar(d) == IsWordChar(c)
    ensures !IsUpper(c) ==> d == c
    ensures IsUpper(c) ==> 'a' <= d <= 'z' && d as int - 'a' as int == c as int - 'A' as int
  {
    if IsUpper(c) then (c as int + 32) as char else c
  }

  /** `str.lower` on a string (ASCII letters only). */
  function Lower(s: string): string {
    seq(|s|, i requires 0 <= i < |s| => LowerChar(s[i]))
  }

  /** `k` occurs in `t` starting at position `i`. */
  predicate OccursAt(k: string, t: string, i: int) {
    0 <= i <= |t| - |k| && t[i..i + |k|] == k
  }

  /** Python's `k in t` for strings. */
  predicate IsSubstring(k: string, t: string) {
    exists i :: 0 <= i <= |t| - |k| && OccursAt(k, t, i)
  }

  /** Containment of strings is transitive: whatever occurs in a text still
      occurs in any longer text that embeds it. */
  lemma {:induction false} SubstringTransitive(k: string, t: string, u: string)
    requires IsSubstring(k, t) && IsSubstring(t, u)
    ensures IsSubstring(k, u)
  {
    var i :| 0 <= i <= |t| - |k| && OccursAt(k, t, i);
    var j :| 0 <= j <= |u| - |t| && OccursAt(t, u, j);
    forall m | 0 <= m < |k|
      ensures u[j + i..j + i + |k|][m] == k[m]
    {
      assert u[j + i + m] == t[i + m];
    }
    assert u[j + i..j + i + |k|] == k;
    assert OccursAt(k, u, j + i);
  }

  /** A text occurs in itself surrounded by anything. */
  lemma {:induction false} SubstringOfExtension(t: string, a: string, b: string)
    ensures IsSubstring(t, a + t + b)
  {
    var u := a + t + b;
    assert u[|a|..|a| + |t|] == t;
    assert OccursAt(t, u, |a|);
  }
}
