/** Worked scenarios of the rule on concrete statements and units. */
module Scenarios {
  import opened Wrappers
  import opened Strings
  import opened Lines
  import opened Lexical
  import opened Patterns
  import opened Locator
  import opened Rule

  /** A keyword occurrence fixes the character it starts on. */
  lemma KeywordHead(s: string, p: nat, kw: string, i: nat)
    requires i < |kw| && KeywordAt(s, p, kw)
    ensures p + i < |s| && Upper(s[p + i]) == kw[i] && s[p + i] in s
  {
  }

  lemma UpperOfLetter(c: char, u: char)
    requires 'A' <= u <= 'Z' && Upper(c) == u
    ensures c == u || c as int == u as int + 32
  {
  }

  /** Without an `I` anywhere, no mode clause is present. */
  lemma NoInNoMode(s: string)
    requires 'I' !in s && 'i' !in s
    ensures !HasMode(s) && !IsTextMode(s)
  {
    forall p: nat | p <= |s| ensures !KeywordAt(s, p, InKw) {
      if KeywordAt(s, p, InKw) {
        KeywordHead(s, p, InKw, 0);
        UpperOfLetter(s[p], 'I');
      }
    }
  }

  /** Without a `C` anywhere, no encoding clause is present. */
  lemma NoCNoEncoding(s: string)
    requires 'C' !in s && 'c' !in s
    ensures !HasEncoding(s)
  {
    forall p: nat | p <= |s| ensures !KeywordAt(s, p, EncodingKw) {
      if KeywordAt(s, p, EncodingKw) {
        KeywordHead(s, p, EncodingKw, 2);
        UpperOfLetter(s[p + 2], 'C');
      }
    }
  }

  /** `kw` is written out at `p`. */
  predicate WrittenAt(s: string, p: nat, kw: string) {
    p + |kw| <= |s| && forall i | 0 <= i < |kw| :: s[p + i] == kw[i]
  }

  /** An upper-case keyword written out at `p` occurs there. */
  lemma KeywordWritten(s: string, p: nat, kw: string)
    requires forall i | 0 <= i < |kw| :: 'A' <= kw[i] <= 'Z'
    requires WrittenAt(s, p, kw)
    ensures KeywordAt(s, p, kw)
  {
    forall i | 0 <= i < |kw| ensures Upper(s[p + i]) == kw[i] {
      assert s[p + i] == kw[i];
    }
  }

  /** `IN <kw> MODE` written with single spaces, between non-word
      characters, is a mode clause. */
  lemma ModeClause(s: string, p: nat, kw: string)
    requires |kw| > 0 && forall i | 0 <= i < |kw| :: 'A' <= kw[i] <= 'Z'
    requires 0 < p && p + |kw| + 8 < |s| && !IsWordChar(s[p - 1]) && !IsWordChar(s[p + |kw| + 8])
    requires WrittenAt(s, p, InKw) && s[p + 2] == ' '
    requires WrittenAt(s, p + 3, kw) && s[p + 3 + |kw|] == ' '
    requires WrittenAt(s, p + 4 + |kw|, ModeKw)
    ensures ModeAt(s, p, kw)
  {
    KeywordWritten(s, p, InKw);
    KeywordWritten(s, p + 3, kw);
    KeywordWritten(s, p + 4 + |kw|, ModeKw);
    assert InKw[0] == 'I' && ModeKw[3] == 'E';
    assert AllSpace(s, p + 2, p + 3) && AllSpace(s, p + 3 + |kw|, p + 4 + |kw|);
    RegexGivesModeAt(s, p, kw, p + 3, p + 4 + |kw|);
  }

  /** Without an `X` anywhere, no text-mode clause is present. */
  lemma NoXNoTextMode(s: string)
    requires 'X' !in s && 'x' !in s
    ensures !IsTextMode(s)
  {
    forall p: nat | p <= |s| ensures !ModeAt(s, p, TextKw) {
      if WordBoundary(s, p) && KeywordAt(s, p, InKw) {
        var j := SpaceRun(s, p + |InKw|);
        if KeywordAt(s, j, TextKw) {
          KeywordHead(s, j, TextKw, 2);
        }
      }
    }
  }

  /** `ENCODING`, one space and a non-space character, after a non-word
      character, is an encoding clause. */
  lemma EncodingClause(s: string, p: nat)
    requires 0 < p && p + |EncodingKw| + 1 < |s| && !IsWordChar(s[p - 1])
    requires WrittenAt(s, p, EncodingKw) && s[p + |EncodingKw|] == ' '
    requires !IsSpace(s[p + |EncodingKw| + 1])
    ensures EncodingAt(s, p)
  {
    KeywordWritten(s, p, EncodingKw);
    assert EncodingKw[0] == 'E' && EncodingKw[7] == 'G';
    SpaceRunUnique(s, p + 8, p + 9);
  }

  const StmtHead := "OPEN DATASET "

  /** A statement without a mode clause: missing mode. */
  lemma NoModeStatement(x: string)
    requires 'I' !in x && 'i' !in x
    ensures Classify(StmtHead + x + ".") == Some(OpenDatasetNoMode)
  {
    NoInNoMode(StmtHead + x + ".");
  }

  const NoModeStmt := "OPEN DATASET F."

  lemma NoModeStmtClass()
    ensures Classify(NoModeStmt) == Some(OpenDatasetNoMode)
  {
    assert NoModeStmt == StmtHead + "F" + ".";
    NoModeStatement("F");
  }

  const TextTail := " IN TEXT MODE."
  const TextEncodingTail := " IN TEXT MODE ENCODING UTF-8."
  const BinaryTail := " IN BINARY MODE."

  /** A keyword written out in `t` is written out, shifted, in `a + t`. */
  lemma WrittenAfter(a: string, t: string, k: nat, kw: string)
    requires WrittenAt(t, k, kw)
    ensures WrittenAt(a + t, |a| + k, kw)
  {
    forall i | 0 <= i < |kw| ensures (a + t)[|a| + k + i] == kw[i] {
      assert (a + t)[|a| + (k + i)] == t[k + i];
    }
  }

  /** A mode clause written out in `t` is a mode clause of `a + t`. */
  lemma ModeClauseAfter(a: string, t: string, k: nat, kw: string)
    requires |kw| > 0 && forall i | 0 <= i < |kw| :: 'A' <= kw[i] <= 'Z'
    requires 0 < k && k + |kw| + 8 < |t| && !IsWordChar(t[k - 1]) && !IsWordChar(t[k + |kw| + 8])
    requires WrittenAt(t, k, InKw) && t[k + 2] == ' '
    requires WrittenAt(t, k + 3, kw) && t[k + 3 + |kw|] == ' '
    requires WrittenAt(t, k + 4 + |kw|, ModeKw)
    ensures ModeAt(a + t, |a| + k, kw)
  {
    var s, p := a + t, |a| + k;
    WrittenAfter(a, t, k, InKw);
    WrittenAfter(a, t, k + 3, kw);
    WrittenAfter(a, t, k + 4 + |kw|, ModeKw);
    assert s[p - 1] == t[k - 1] && s[p + 2] == t[k + 2];
    assert s[p + 3 + |kw|] == t[k + 3 + |kw|] && s[p + |kw| + 8] == t[k + |kw| + 8];
    ModeClause(s, p, kw);
  }

  /** An encoding clause written out in `t` is an encoding clause of `a + t`. */
  lemma EncodingClauseAfter(a: string, t: string, k: nat)
    requires 0 < k && k + |EncodingKw| + 1 < |t| && !IsWordChar(t[k - 1])
    requires WrittenAt(t, k, EncodingKw) && t[k + |EncodingKw|] == ' '
    requires !IsSpace(t[k + |EncodingKw| + 1])
    ensures EncodingAt(a + t, |a| + k)
  {
    var s, p := a + t, |a| + k;
    WrittenAfter(a, t, k, EncodingKw);
    assert s[p - 1] == t[k - 1] && s[p + |EncodingKw|] == t[k + |EncodingKw|];
    assert s[p + |EncodingKw| + 1] == t[k + |EncodingKw| + 1];
    EncodingClause(s, p);
  }

  /** `OPEN DATASET <x> IN TEXT MODE.` without an encoding clause: missing
      encoding. */
  lemma TextModeStatement(x: string)
    requires 'C' !in x && 'c' !in x
    ensures Classify(StmtHead + x + TextTail) == Some(OpenDatasetTextNoEncoding)
  {
    TextTailParts();
    ModeClauseAfter(StmtHead + x, TextTail, 1, TextKw);
    NoCNoEncoding(StmtHead + x + TextTail);
  }

  lemma TextTailParts()
    ensures WrittenAt(TextTail, 1, InKw) && WrittenAt(TextTail, 4, TextKw) && WrittenAt(TextTail, 9, ModeKw)
    ensures TextTail[0] == ' ' && TextTail[3] == ' ' && TextTail[8] == ' ' && TextTail[13] == '.'
    ensures 'C' !in TextTail && 'c' !in TextTail && 'C' !in StmtHead && 'c' !in StmtHead
  {
  }

  /** `OPEN DATASET <x> IN TEXT MODE ENCODING UTF-8.`: no defect, whatever
      the operand. */
  lemma TextModeEncodingStatement(x: string)
    ensures Classify(StmtHead + x + TextEncodingTail) == None
  {
    TextEncodingTailModeParts();
    TextEncodingTailEncodingParts();
    ModeClauseAfter(StmtHead + x, TextEncodingTail, 1, TextKw);
    EncodingClauseAfter(StmtHead + x, TextEncodingTail, 14);
  }

  lemma TextEncodingTailModeParts()
    ensures WrittenAt(TextEncodingTail, 1, InKw) && WrittenAt(TextEncodingTail, 4, TextKw)
    ensures WrittenAt(TextEncodingTail, 9, ModeKw)
    ensures TextEncodingTail[0] == ' ' && TextEncodingTail[3] == ' ' && TextEncodingTail[8] == ' '
    ensures TextEncodingTail[13] == ' '
  {
  }

  lemma TextEncodingTailEncodingParts()
    ensures WrittenAt(TextEncodingTail, 14, EncodingKw)
    ensures TextEncodingTail[13] == ' ' && TextEncodingTail[22] == ' ' && TextEncodingTail[23] == 'U'
  {
  }

  /** `OPEN DATASET <x> IN BINARY MODE.`, with no `X` in the operand: no
      defect. */
  lemma BinaryModeStatement(x: string)
    requires 'X' !in x && 'x' !in x
    ensures Classify(StmtHead + x + BinaryTail) == None
  {
    BinaryTailParts();
    ModeClauseAfter(StmtHead + x, BinaryTail, 1, BinaryKw);
    NoXNoTextMode(StmtHead + x + BinaryTail);
  }

  lemma BinaryTailParts()
    ensures WrittenAt(BinaryTail, 1, InKw) && WrittenAt(BinaryTail, 4, BinaryKw) && WrittenAt(BinaryTail, 11, ModeKw)
    ensures BinaryTail[0] == ' ' && BinaryTail[3] == ' ' && BinaryTail[10] == ' ' && BinaryTail[15] == '.'
    ensures 'X' !in BinaryTail && 'x' !in BinaryTail && 'X' !in StmtHead && 'x' !in StmtHead
  {
  }

  // ---------------------------------------------------------------------
  // Units and batches
  // ---------------------------------------------------------------------

  /** Code without a whole or partial `OPEN` anywhere has no findings. */
  lemma NoOpenKeywordNoFindings(u: Unit)
    requires forall p: nat | p < |Code(u)| :: !KeywordAt(Code(u), p, OpenKw)
    ensures UnitFindings(u) == []
  {
    NoStatementNoFindings(u);
  }

  /** Code without the letter `O` has no findings. */
  lemma NoLetterONoFindings(u: Unit)
    requires 'O' !in Code(u) && 'o' !in Code(u)
    ensures UnitFindings(u) == []
  {
    forall p: nat | p < |Code(u)| ensures !KeywordAt(Code(u), p, OpenKw) {
      if KeywordAt(Code(u), p, OpenKw) {
        KeywordHead(Code(u), p, OpenKw, 0);
      }
    }
    NoOpenKeywordNoFindings(u);
  }

  const LineCode := "A.\nOPEN DATASET F.\n"

  lemma LineCodeParts()
    ensures |LineCode| == 19 && LineCode[2] == '\n' && LineCode[7] == ' ' && LineCode[15] == ' '
    ensures LineCode[16] == 'F' && LineCode[17] == '.' && LineCode[18] == '\n'
    ensures LineCode[0] == 'A' && LineCode[1] == '.'
    ensures WrittenAt(LineCode, 3, OpenKw) && WrittenAt(LineCode, 8, DatasetKw)
    ensures LineCode[..3] == "A.\n"
  {
  }

  /** The statement of `LineCode` matches from position 3 to 18. */
  lemma LineCodeMatch()
    ensures StmtEnd(LineCode, 3) == Some(18)
  {
    LineCodeParts();
    KeywordWritten(LineCode, 3, OpenKw);
    KeywordWritten(LineCode, 8, DatasetKw);
    assert OpenKw[0] == 'O' && DatasetKw[6] == 'T';
    assert AllSpace(LineCode, 7, 8);
    RegexGivesStmtEnd(LineCode, 3, 8, 18);
  }

  /** No match of `LineCode` starts outside that statement. */
  lemma LineCodeOnlyMatch(p: nat)
    requires p < |LineCode| && StmtEnd(LineCode, p).Some?
    ensures 3 <= p < 18
  {
    LineCodeParts();
    KeywordHead(LineCode, p, OpenKw, 0);
  }

  /** The single statement of `LineCode`. */
  lemma LineCodeStatements()
    ensures Locate(LineCode) == [Span(3, 18)]
  {
    var spans := [Span(3, 18)];
    LineCodeMatch();
    forall p: nat | p < |LineCode| && StmtEnd(LineCode, p).Some?
      ensures exists i | 0 <= i < |spans| :: spans[i].start <= p < spans[i].end
    {
      LineCodeOnlyMatch(p);
      assert spans[0].start <= p < spans[0].end;
    }
    LocateIsUnique(LineCode, spans);
  }

  /** The line facts of that statement. */
  lemma LineCodeLines()
    ensures LineOf(LineCode, 3) == 2 && LineOf(LineCode, 18) == 2
    ensures LineSnippet(LineCode, 3, 18) == NoModeStmt
    ensures NoChar(NoModeStmt, 0, |NoModeStmt|, '\n')
  {
    LineCodeFirstLine();
    LineCodeStatementText();
    assert IsLineWindow(LineCode, 3, 18, 3, 18);
    LineWindowUnique(LineCode, 3, 18, 3, 18);
    LineOfAdvance(LineCode, 3, 18);
  }

  lemma LineCodeFirstLine()
    ensures LineOf(LineCode, 3) == 2
  {
    LineCodeParts();
    CountNewlinesIsMultiplicity("A.\n");
    assert multiset("A.\n")['\n'] == 1;
  }

  lemma LineCodeStatementText()
    ensures LineCode[3..18] == NoModeStmt
    ensures NoChar(LineCode, 3, 18, '\n')
    ensures LineCode[2] == '\n' && LineCode[18] == '\n'
    ensures NoChar(NoModeStmt, 0, |NoModeStmt|, '\n') && CountNewlines(NoModeStmt) == 0
  {
    assert forall i | 0 <= i < |NoModeStmt| :: LineCode[3 + i] == NoModeStmt[i];
  }

  /** The finding of that statement in a unit starting at line 10. */
  lemma LineCodeFinding(u: Unit)
    requires u.startLine == Some(10) && u.code == Some(LineCode)
    ensures FindingFor(u, LineCode, Span(3, 18)).Some?
    ensures var f := FindingFor(u, LineCode, Span(3, 18)).value;
      f.issuesType == Some("OpenDatasetNoMode") &&
      f.startingLine == Some(12) && f.endingLine == Some(13) &&
      f.snippet == Some("OPEN DATASET F.")
  {
    LineCodeLines();
    NoModeStmtClass();
    FindingForShape(u, LineCode, Span(3, 18));
    EscapeWithoutNewlines(NoModeStmt);
  }

  /** A unit starting at line 10 whose statement is on its second line: the
      finding starts at line 12, and its end is the line after. */
  lemma LineNumberScenario(u: Unit)
    requires u.startLine == Some(10) && u.code == Some(LineCode)
    ensures |UnitFindings(u)| == 1
    ensures UnitFindings(u)[0].issuesType == Some("OpenDatasetNoMode")
    ensures UnitFindings(u)[0].startingLine == Some(12)
    ensures UnitFindings(u)[0].endingLine == Some(13)
    ensures UnitFindings(u)[0].snippet == Some("OPEN DATASET F.")
  {
    LineCodeStatements();
    LineCodeFinding(u);
    var spans := [Span(3, 18)];
    FindingsPerStatement(u, LineCode, spans);
    var idx := DefectIndices(u, LineCode, spans);
    assert 0 in idx;
  }

  /** Of three units, only the one with a defect is returned, scanned. */
  lemma BatchScenario(u1: Unit, u2: Unit, u3: Unit)
    requires UnitFindings(u1) == [] && UnitFindings(u2) != [] && UnitFindings(u3) == []
    ensures Kept([u1, u2, u3]) == [Scanned(u2)]
  {
    var rs := ScanAll([u1, u2, u3]);
    assert rs[0] == Scanned(u1) && rs[1] == Scanned(u2) && rs[2] == Scanned(u3);
    KeepSecond(rs);
  }

  lemma KeepSecond(rs: seq<Unit>)
    requires |rs| == 3 && !HasFindings(rs[0]) && HasFindings(rs[1]) && !HasFindings(rs[2])
    ensures KeepWithFindings(rs) == [rs[1]]
  {
    KeepWithFindingsSnoc(rs, 0);
    KeepWithFindingsSnoc(rs, 1);
    KeepWithFindingsSnoc(rs, 2);
    assert rs[..0] == [] && rs[..3] == rs;
  }

  /** The batch scenario on concrete units: a unit without code, the unit of
      `LineNumberScenario`, and a unit without any statement. */
  lemma ConcreteBatchScenario(u1: Unit, u2: Unit, u3: Unit)
    requires u1.code == None
    requires u2.startLine == Some(10) && u2.code == Some(LineCode)
    requires u3.code == Some("WRITE X.")
    ensures Kept([u1, u2, u3]) == [Scanned(u2)]
  {
    NoLetterONoFindings(u1);
    NoLetterONoFindings(u3);
    LineNumberScenario(u2);
    BatchScenario(u1, u2, u3);
  }
}
