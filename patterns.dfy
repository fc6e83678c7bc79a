/** The four patterns of the rule, written as hand-rolled matchers, each
    beside a literal reading of the regular expression it replaces:

      statement   \bOPEN\s+DATASET\b[^.]*\.      (case-insensitive)
      mode        \bIN\s+(TEXT|BINARY)\s+MODE\b  (case-insensitive)
      text mode   \bIN\s+TEXT\s+MODE\b           (case-insensitive)
      encoding    \bENCODING\b\s+\S+             (case-insensitive) */
module Patterns {
  import opened Wrappers
  import opened Lexical
  import opened Strings

  const OpenKw := "OPEN"
  const DatasetKw := "DATASET"
  const InKw := "IN"
  const TextKw := "TEXT"
  const BinaryKw := "BINARY"
  const ModeKw := "MODE"
  const EncodingKw := "ENCODING"

  // ---------------------------------------------------------------------
  // Statement pattern
  // ---------------------------------------------------------------------

  /** The end (one past the period) of the statement match that starts at
      `p`, if one does. The whitespace run is taken whole, and `[^.]*\.` runs
      to the first period after `DATASET`. */
  function StmtEnd(text: string, p: nat): (r: Option<nat>)
    ensures r.Some? ==> p + |OpenKw| + 1 + |DatasetKw| < r.value <= |text| && text[r.value - 1] == '.'
  {
    if WordBoundary(text, p) && KeywordAt(text, p, OpenKw) then
      var j := SpaceRun(text, p + |OpenKw|);
      if j > p + |OpenKw| && KeywordAt(text, j, DatasetKw) && WordBoundary(text, j + |DatasetKw|) then
        var d := Find(text, j + |DatasetKw|, '.');
        if d == -1 then None else Some(d + 1)
      else None
    else None
  }

  /** `text[p..e]` matches the statement pattern, read literally: some
      non-empty whitespace run between the two keywords, and a run without
      periods before the closing period. */
  ghost predicate StmtRegex(text: string, p: nat, e: nat) {
    WordBoundary(text, p) && KeywordAt(text, p, OpenKw) &&
    exists j: nat ::
      p + |OpenKw| < j && AllSpace(text, p + |OpenKw|, j) &&
      KeywordAt(text, j, DatasetKw) && WordBoundary(text, j + |DatasetKw|) &&
      j + |DatasetKw| < e <= |text| && NoChar(text, j + |DatasetKw|, e - 1, '.') && text[e - 1] == '.'
  }

  /** The matcher finds exactly the matches of the regular expression, and
      there is at most one match from a given start. */
  lemma StmtEndIsRegexMatch(text: string, p: nat, e: nat)
    ensures StmtEnd(text, p) == Some(e) <==> StmtRegex(text, p, e)
  {
    if StmtEnd(text, p) == Some(e) {
      StmtEndGivesRegex(text, p, e);
    }
    if StmtRegex(text, p, e) {
      var j: nat :|
        p + |OpenKw| < j && AllSpace(text, p + |OpenKw|, j) &&
        KeywordAt(text, j, DatasetKw) && WordBoundary(text, j + |DatasetKw|) &&
        j + |DatasetKw| < e <= |text| && NoChar(text, j + |DatasetKw|, e - 1, '.') && text[e - 1] == '.';
      RegexGivesStmtEnd(text, p, j, e);
    }
  }

  lemma StmtEndGivesRegex(text: string, p: nat, e: nat)
    requires StmtEnd(text, p) == Some(e)
    ensures StmtRegex(text, p, e)
  {
    var j := SpaceRun(text, p + |OpenKw|);
    assert AllSpace(text, p + |OpenKw|, j);
  }

  lemma RegexGivesStmtEnd(text: string, p: nat, j: nat, e: nat)
    requires WordBoundary(text, p) && KeywordAt(text, p, OpenKw)
    requires p + |OpenKw| < j && AllSpace(text, p + |OpenKw|, j)
    requires KeywordAt(text, j, DatasetKw) && WordBoundary(text, j + |DatasetKw|)
    requires j + |DatasetKw| < e <= |text| && NoChar(text, j + |DatasetKw|, e - 1, '.') && text[e - 1] == '.'
    ensures StmtEnd(text, p) == Some(e)
  {
    KeywordStartsOnNonSpace(text, j, DatasetKw);
    SpaceRunUnique(text, p + |OpenKw|, j);
    var d := Find(text, j + |DatasetKw|, '.');
    assert d == e - 1;
  }

  // ---------------------------------------------------------------------
  // Mode patterns
  // ---------------------------------------------------------------------

  /** `IN <kw> MODE` matches at `p`, with whole-word `IN` and `MODE`. */
  predicate ModeAt(s: string, p: nat, kw: string) {
    WordBoundary(s, p) && KeywordAt(s, p, InKw) &&
    (var j := SpaceRun(s, p + |InKw|);
     j > p + |InKw| && KeywordAt(s, j, kw) &&
     (var k := SpaceRun(s, j + |kw|);
      k > j + |kw| && KeywordAt(s, k, ModeKw) && WordBoundary(s, k + |ModeKw|)))
  }

  /** `\bIN\s+<kw>\s+MODE\b` matches at `p`, read literally. */
  ghost predicate ModeRegex(s: string, p: nat, kw: string) {
    WordBoundary(s, p) && KeywordAt(s, p, InKw) &&
    exists j: nat, k: nat ::
      p + |InKw| < j && AllSpace(s, p + |InKw|, j) && KeywordAt(s, j, kw) &&
      j + |kw| < k && AllSpace(s, j + |kw|, k) && KeywordAt(s, k, ModeKw) &&
      WordBoundary(s, k + |ModeKw|)
  }

  /** For a mode keyword that starts with a non-space character, the matcher
      agrees with the regular expression. */
  lemma ModeAtIsRegexMatch(s: string, p: nat, kw: string)
    requires |kw| > 0 && !IsSpace(kw[0])
    ensures ModeAt(s, p, kw) <==> ModeRegex(s, p, kw)
  {
    if ModeAt(s, p, kw) {
      ModeAtGivesRegex(s, p, kw);
    }
    if ModeRegex(s, p, kw) {
      var j: nat, k: nat :|
        p + |InKw| < j && AllSpace(s, p + |InKw|, j) && KeywordAt(s, j, kw) &&
        j + |kw| < k && AllSpace(s, j + |kw|, k) && KeywordAt(s, k, ModeKw) &&
        WordBoundary(s, k + |ModeKw|);
      RegexGivesModeAt(s, p, kw, j, k);
    }
  }

  lemma ModeAtGivesRegex(s: string, p: nat, kw: string)
    requires ModeAt(s, p, kw)
    ensures ModeRegex(s, p, kw)
  {
    var j := SpaceRun(s, p + |InKw|);
    var k := SpaceRun(s, j + |kw|);
    assert AllSpace(s, p + |InKw|, j) && AllSpace(s, j + |kw|, k);
  }

  lemma RegexGivesModeAt(s: string, p: nat, kw: string, j: nat, k: nat)
    requires |kw| > 0 && !IsSpace(kw[0])
    requires WordBoundary(s, p) && KeywordAt(s, p, InKw)
    requires p + |InKw| < j && AllSpace(s, p + |InKw|, j) && KeywordAt(s, j, kw)
    requires j + |kw| < k && AllSpace(s, j + |kw|, k) && KeywordAt(s, k, ModeKw)
    requires WordBoundary(s, k + |ModeKw|)
    ensures ModeAt(s, p, kw)
  {
    KeywordStartsOnNonSpace(s, j, kw);
    SpaceRunUnique(s, p + |InKw|, j);
    KeywordStartsOnNonSpace(s, k, ModeKw);
    SpaceRunUnique(s, j + |kw|, k);
  }

  /** `MODE_RE.search(s)`: `IN TEXT MODE` or `IN BINARY MODE` occurs. */
  predicate HasMode(s: string) {
    exists p: nat | p <= |s| :: ModeAt(s, p, TextKw) || ModeAt(s, p, BinaryKw)
  }

  /** `TEXT_MODE_RE.search(s)`: `IN TEXT MODE` occurs. */
  predicate IsTextMode(s: string) {
    exists p: nat | p <= |s| :: ModeAt(s, p, TextKw)
  }

  /** Every `IN TEXT MODE` is also a mode clause, so text mode is never
      reported as a missing mode. */
  lemma TextModeHasMode(s: string)
    ensures IsTextMode(s) ==> HasMode(s)
  {
    if IsTextMode(s) {
      var p: nat :| p <= |s| && ModeAt(s, p, TextKw);
      assert ModeAt(s, p, TextKw) || ModeAt(s, p, BinaryKw);
    }
  }

  // ---------------------------------------------------------------------
  // Encoding pattern
  // ---------------------------------------------------------------------

  /** `ENCODING` as a whole word at `p`, then whitespace, then at least one
      non-space character. */
  predicate EncodingAt(s: string, p: nat) {
    WordBoundary(s, p) && KeywordAt(s, p, EncodingKw) && WordBoundary(s, p + |EncodingKw|) &&
    (var j := SpaceRun(s, p + |EncodingKw|); p + |EncodingKw| < j < |s|)
  }

  /** `\bENCODING\b\s+\S+` matches at `p`, read literally. */
  ghost predicate EncodingRegex(s: string, p: nat) {
    WordBoundary(s, p) && KeywordAt(s, p, EncodingKw) && WordBoundary(s, p + |EncodingKw|) &&
    exists j: nat, k: nat ::
      p + |EncodingKw| < j && AllSpace(s, p + |EncodingKw|, j) && j < k && NoSpace(s, j, k)
  }

  /** The encoding matcher agrees with the regular expression. */
  lemma EncodingAtIsRegexMatch(s: string, p: nat)
    ensures EncodingAt(s, p) <==> EncodingRegex(s, p)
  {
    if EncodingAt(s, p) {
      var j := SpaceRun(s, p + |EncodingKw|);
      assert AllSpace(s, p + |EncodingKw|, j) && NoSpace(s, j, j + 1);
    }
    if EncodingRegex(s, p) {
      var j: nat, k: nat :|
        p + |EncodingKw| < j && AllSpace(s, p + |EncodingKw|, j) && j < k && NoSpace(s, j, k);
      SpaceRunUnique(s, p + |EncodingKw|, j);
    }
  }

  /** `ENCODING_RE.search(s)`: an encoding clause occurs. */
  predicate HasEncoding(s: string) {
    exists p: nat | p <= |s| :: EncodingAt(s, p)
  }
}
