/**
 * Character classes the (La)TeX lexer tests for, and the maximal-run
 * scanner that its `alpha1`, `space1` and `not_line_ending` recognisers
 * share.
 */
module Chars {

  /** A letter as the lexer's `alpha1` recogniser sees it: ASCII only. */
  predicate IsAsciiLetter(c: char) {
    ('a' <= c <= 'z') || ('A' <= c <= 'Z')
  }

  /** A character of a Whitespace run (`space1`): a space or a tab. */
  predicate IsBlank(c: char) {
    c == ' ' || c == '\t'
  }

  /** A character that ends the body of a comment: carriage return or line feed. */
  predicate IsLineBreak(c: char) {
    c == '\r' || c == '\n'
  }

  /** A character a comment body may contain. */
  predicate IsLineContent(c: char) {
    !IsLineBreak(c)
  }

  /** A character a Text run may hold only when escaped: backslash, `%`, braces, `$`, space, tab, newline. */
  predicate IsStructural(c: char) {
    c in "\\%{}$ \t\n"
  }

  /** `w` holds no line-break character. */
  predicate IsLine(w: seq<char>) {
    forall i :: 0 <= i < |w| ==> IsLineContent(w[i])
  }

  /** Every character of `w` is an ASCII letter. */
  predicate AllLetters(w: seq<char>) {
    forall i :: 0 <= i < |w| ==> IsAsciiLetter(w[i])
  }

  /** Every character of `w` is a space or a tab. */
  predicate AllBlank(w: seq<char>) {
    forall i :: 0 <= i < |w| ==> IsBlank(w[i])
  }

  /** A character that a backslash turns into literal text. */
  predicate IsEscapable(c: char) {
    c in "%{}$&,;! "
  }

  /** A carriage return directly followed by a line feed sits at `i`. */
  predicate CrLfAt(s: seq<char>, i: int)
    requires 0 <= i && i + 1 < |s|
  {
    s[i] == '\r' && s[i + 1] == '\n'
  }

  /** `s` holds no "\r\n" pair. */
  predicate HasNoCrLf(s: seq<char>) {
    forall i :: 0 <= i && i + 1 < |s| ==> !CrLfAt(s, i)
  }

  /** A suffix of an input without "\r\n" has none either. */
  lemma NoCrLfSuffix(s: seq<char>, k: nat)
    requires HasNoCrLf(s) && k <= |s|
    ensures HasNoCrLf(s[k..])
  {
    var rest := s[k..];
    forall i | 0 <= i && i + 1 < |rest|
      ensures !CrLfAt(rest, i)
    {
      assert !CrLfAt(s, k + i);
    }
  }

  /** `rest` is a (not necessarily proper) suffix of `s`. */
  predicate IsSuffix(rest: seq<char>, s: seq<char>) {
    |rest| <= |s| && s[|s| - |rest|..] == rest
  }

  /** Length of the longest prefix of `s` whose characters all satisfy `p`. */
  function SpanLen(s: seq<char>, p: char -> bool): (n: nat)
    ensures n <= |s|
    ensures forall i :: 0 <= i < n ==> p(s[i])
    ensures n < |s| ==> !p(s[n])
  {
    if |s| == 0 || !p(s[0]) then 0 else 1 + SpanLen(s[1..], p)
  }

  /** The maximal run is unique: any `n` with the run property is `SpanLen`. */
  lemma SpanLenUnique(s: seq<char>, p: char -> bool, n: nat)
    requires n <= |s|
    requires forall i :: 0 <= i < n ==> p(s[i])
    requires n < |s| ==> !p(s[n])
    ensures SpanLen(s, p) == n
  {
  }

  /** A suffix of a suffix is a suffix. */
  lemma SuffixTransitive(a: seq<char>, b: seq<char>, c: seq<char>)
    requires IsSuffix(a, b) && IsSuffix(b, c)
    ensures IsSuffix(a, c)
  {
    assert c[|c| - |a|..] == c[|c| - |b|..][|b| - |a|..];
  }
}
