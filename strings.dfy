/** The string operations of the host language that the rule relies on:
    `find`, `rfind`, `count("\n")` and `replace("\n", "\\n")`. */
module Strings {

  /** No character of `s[i..j]` is `c`. */
  predicate NoChar(s: string, i: nat, j: nat, c: char) {
    i <= j <= |s| && forall t | i <= t < j :: s[t] != c
  }

  /** `s.find(c, lo)`: the first index at or after `lo` that holds `c`, or -1. */
  function Find(s: string, lo: nat, c: char): (r: int)
    requires lo <= |s|
    ensures r == -1 || (lo <= r < |s| && s[r] == c)
    ensures NoChar(s, lo, if r == -1 then |s| else r, c)
    decreases |s| - lo
  {
    if lo == |s| then -1
    else if s[lo] == c then lo
    else Find(s, lo + 1, c)
  }

  /** `s.rfind(c, 0, hi)`: the last index below `hi` that holds `c`, or -1. */
  function RFind(s: string, hi: nat, c: char): (r: int)
    requires hi <= |s|
    ensures r == -1 || (0 <= r < hi && s[r] == c)
    ensures NoChar(s, r + 1, hi, c)
  {
    if hi == 0 then -1
    else if s[hi - 1] == c then hi - 1
    else RFind(s, hi - 1, c)
  }

  /** `s.count("\n")`. */
  function CountNewlines(s: string): (n: nat)
    ensures n <= |s|
    ensures n == 0 <==> NoChar(s, 0, |s|, '\n')
  {
    if s == [] then 0
    else (if s[0] == '\n' then 1 else 0) + CountNewlines(s[1..])
  }

  /** The count is the multiplicity of the line feed in the string. */
  lemma {:induction false} CountNewlinesIsMultiplicity(s: string)
    ensures CountNewlines(s) == multiset(s)['\n']
  {
    if s != [] {
      assert s == [s[0]] + s[1..];
      assert multiset(s) == multiset([s[0]]) + multiset(s[1..]);
      CountNewlinesIsMultiplicity(s[1..]);
    }
  }

  /** Counting line feeds distributes over concatenation. */
  lemma CountNewlinesAppend(a: string, b: string)
    ensures CountNewlines(a + b) == CountNewlines(a) + CountNewlines(b)
  {
    CountNewlinesIsMultiplicity(a);
    CountNewlinesIsMultiplicity(b);
    CountNewlinesIsMultiplicity(a + b);
    assert multiset(a + b) == multiset(a) + multiset(b);
  }

  /** Counting line feeds of adjacent slices adds up. */
  lemma CountNewlinesSplit(s: string, i: nat, j: nat, k: nat)
    requires i <= j <= k <= |s|
    ensures CountNewlines(s[i..k]) == CountNewlines(s[i..j]) + CountNewlines(s[j..k])
  {
    assert s[i..k] == s[i..j] + s[j..k];
    CountNewlinesAppend(s[i..j], s[j..k]);
  }

  /** `s.replace("\n", "\\n")`: every line feed becomes a backslash and `n`. */
  function Escape(s: string): (r: string)
    ensures NoChar(r, 0, |r|, '\n')
    ensures |r| == |s| + CountNewlines(s)
  {
    if s == [] then []
    else (if s[0] == '\n' then "\\n" else [s[0]]) + Escape(s[1..])
  }

  /** Turns every backslash followed by `n` back into a line feed. */
  function Unescape(s: string): string
    decreases |s|
  {
    if |s| >= 2 && s[0] == '\\' && s[1] == 'n' then "\n" + Unescape(s[2..])
    else if s == [] then []
    else [s[0]] + Unescape(s[1..])
  }

  /** Escaping loses nothing on text without backslashes. */
  lemma {:induction false} EscapeRoundTrip(s: string)
    requires NoChar(s, 0, |s|, '\\')
    ensures Unescape(Escape(s)) == s
  {
    if s != [] {
      var rest := Escape(s[1..]);
      assert NoChar(s[1..], 0, |s[1..]|, '\\');
      EscapeRoundTrip(s[1..]);
      if s[0] == '\n' {
        assert Escape(s) == "\\n" + rest;
        assert ("\\n" + rest)[2..] == rest;
      } else {
        assert Escape(s) == [s[0]] + rest;
        assert ([s[0]] + rest)[1..] == rest;
      }
    }
  }

  /** Text without line feeds is left as it is. */
  lemma {:induction false} EscapeWithoutNewlines(s: string)
    requires NoChar(s, 0, |s|, '\n')
    ensures Escape(s) == s
  {
    if s != [] {
      assert NoChar(s[1..], 0, |s[1..]|, '\n');
      EscapeWithoutNewlines(s[1..]);
      assert s == [s[0]] + s[1..];
    }
  }
}
