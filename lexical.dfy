/** The character classes and keyword tests the rule's patterns are built
    from, restricted to ASCII: `\w` is a letter, a digit or `_`, `\s` is one
    of the six ASCII whitespace characters, and case-insensitive matching
    folds only the ASCII letters. */
module Lexical {

  /** `\w`: ASCII letters, digits and underscore. */
  predicate IsWordChar(c: char) {
    ('a' <= c <= 'z') || ('A' <= c <= 'Z') || ('0' <= c <= '9') || c == '_'
  }

  /** `\s`: space, tab, line feed, carriage return, vertical tab, form feed. */
  predicate IsSpace(c: char) {
    c == ' ' || c == '\t' || c == '\n' || c == '\r' || c == '\U{000B}' || c == '\U{000C}'
  }

  /** ASCII upper-casing; every other character is left as it is. */
  function Upper(c: char): char {
    if 'a' <= c <= 'z' then (c as int - 32) as char else c
  }

  /** The upper-case keyword `kw` occurs at `p` in `s`, ignoring ASCII case. */
  predicate KeywordAt(s: string, p: nat, kw: string) {
    p + |kw| <= |s| && forall i | 0 <= i < |kw| :: Upper(s[p + i]) == kw[i]
  }

  /** `\b` at position `p`: a word character on exactly one side of `p`. */
  predicate WordBoundary(s: string, p: nat) {
    (0 < p <= |s| && IsWordChar(s[p - 1])) != (p < |s| && IsWordChar(s[p]))
  }

  /** Every character of `s[i..j]` is whitespace. */
  predicate AllSpace(s: string, i: nat, j: nat) {
    i <= j <= |s| && forall t | i <= t < j :: IsSpace(s[t])
  }

  /** No character of `s[i..j]` is whitespace. */
  predicate NoSpace(s: string, i: nat, j: nat) {
    i <= j <= |s| && forall t | i <= t < j :: !IsSpace(s[t])
  }

  /** The end of the longest run of whitespace that starts at `p`: where a
      greedy `\s*` from `p` stops. */
  function SpaceRun(s: string, p: nat): (q: nat)
    requires p <= |s|
    ensures p <= q <= |s| && AllSpace(s, p, q)
    ensures q == |s| || !IsSpace(s[q])
    decreases |s| - p
  {
    if p < |s| && IsSpace(s[p]) then SpaceRun(s, p + 1) else p
  }

  /** A whitespace run from `p` that is followed by a non-space character
      (or the end) is the one SpaceRun finds. */
  lemma SpaceRunUnique(s: string, p: nat, q: nat)
    requires AllSpace(s, p, q) && (q == |s| || !IsSpace(s[q]))
    ensures SpaceRun(s, p) == q
  {
  }

  /** A keyword that starts with a non-space character cannot start on whitespace. */
  lemma KeywordStartsOnNonSpace(s: string, p: nat, kw: string)
    requires KeywordAt(s, p, kw) && |kw| > 0 && !IsSpace(kw[0])
    ensures p < |s| && !IsSpace(s[p])
  {
    assert Upper(s[p + 0]) == kw[0];
  }
}
