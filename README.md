# Rule 111: `OPEN DATASET` without `MODE` / `ENCODING`

This project is a Dafny model of a small static-analysis rule for ABAP
source. A *unit* is a fragment of an ABAP program with identity fields, the
line it starts at, and its text. The rule does four things:

- It finds every `OPEN DATASET … .` statement in the unit's text.
- It classifies each statement:
  - a statement with no `IN TEXT MODE` / `IN BINARY MODE` clause is reported
    as `OpenDatasetNoMode`;
  - otherwise, a text-mode statement with no `ENCODING <token>` clause is
    reported as `OpenDatasetTextNoEncoding`;
  - every other statement is accepted.
- For each reported statement it builds a *finding*: the unit's identity,
  absolute start and end line numbers, the issue tag, severity `error`, a
  message, a suggestion, and the full source line(s) of the statement with
  line feeds escaped.
- A batch entry point scans a list of units and keeps only those with at
  least one finding.

The model follows the shape of the original:

| module | file | what it is |
|---|---|---|
| `Wrappers` | `wrappers.dfy` | `Option`; collecting the present values of a sequence of options |
| `Lexical` | `lexical.dfy` | character classes, ASCII case folding, `\b`, greedy whitespace runs |
| `Strings` | `strings.dfy` | `find`, `rfind`, `count("\n")`, `replace("\n", "\\n")` |
| `Lines` | `lines.dfy` | `get_line_snippet` and line numbers |
| `Patterns` | `patterns.dfy` | the four regular expressions, hand-written as matchers |
| `Locator` | `locator.dfy` | `finditer` over the statement pattern |
| `Rule` | `rule.dfy` | `Unit`, `Finding`, the decision policy, and the findings of a unit and a batch, as functions |
| `Scanner` | `scanner.dfy` | `scan_unit` and the batch loop, as imperative methods proved against `Rule` |
| `Scenarios` | `scenarios.dfy` | worked cases: each kind of statement, the line-number case, the three-unit batch |

The pure parts (the snippet helper and the patterns) are functions. `scan_unit`
and the batch filter are loops in the original, so they are methods with loop
invariants:

- `Scanner.ScanUnit` builds the findings list one statement at a time, with
  the same two branches and the same early exit for a missing mode.
- `Scanner.ScanBatch` appends the units that have findings.

Both are proved equal to their specifications (`Rule.Scanned`, `Rule.Kept`).
The properties of the rule are proved about those specifications.

Each regular expression has two forms:

- a matcher that takes every `\s+` whole, as the greedy engine does;
- a literal reading of the pattern, existential over the whitespace runs.

A lemma shows the two agree. `finditer` is modelled as a scan over the table
of statement matches at each position. The text lemmas show the located spans:

- are real matches;
- do not overlap;
- leave no match start uncovered;
- are the only sequence with those three properties.

Two points of the code's behaviour are worth stating outright:

- A statement yields at most one finding, for two reasons. The missing-mode
  branch ends with `continue`. Also every `IN TEXT MODE` is a mode clause
  (`Patterns.TextModeHasMode`), so the text-mode branch cannot fire for a
  statement that lacks a mode anyway. `Rule.FindingsPerStatement` proves the
  bound.
- `ending_line` is `starting_line + (line feeds in the snippet) + 1`. For a
  one-line statement this is the line *after* the statement.
  `Rule.FindingForShape` states it as written: the end line is one more than
  the line holding the statement's period.

## Model

| member | source | states |
|---|---|---|
| Lexical.SpaceRun | app/app.py:63-66 | where a greedy `\s+`/`\s*` from a position stops: everything before is whitespace, the next character is not |
| Lexical.SpaceRunUnique | app/app.py:63-66 | any whitespace run that ends on a non-space character or the end of the text is that greedy run |
| Strings.Find | app/app.py:53 | `text.find("\n", end)`: an index holding the character at or after the start with none before it, or -1 if there is none |
| Strings.RFind | app/app.py:47 | `text.rfind("\n", 0, start)`: the last index below the bound holding the character, with none after it, or -1 |
| Strings.CountNewlines | app/app.py:85 | `count("\n")` is at most the length, and zero exactly when the text has no line feed |
| Strings.CountNewlinesIsMultiplicity | app/app.py:85 | the count equals the multiplicity of `'\n'` in the text |
| Strings.CountNewlinesSplit | app/app.py:85 | counts of adjacent slices add up |
| Strings.Escape | app/app.py:116 | `replace("\n", "\\n")` leaves no line feed and lengthens the text by one per line feed |
| Strings.EscapeRoundTrip | app/app.py:116 | on text without backslashes, turning each `\n` pair back into a line feed recovers the raw snippet |
| Strings.EscapeWithoutNewlines | app/app.py:116 | text without line feeds is left unchanged |
| Lines.LineStart | app/app.py:47-51 | the line start is 0 or just past a line feed, at most the position, and no line feed lies in between |
| Lines.LineEnd | app/app.py:53-55 | the line end is the text length or a line feed, at or after the position, with no line feed in between |
| Lines.LineSnippet | app/app.py:42-57 | the snippet is `text[ls..le]` for a window of whole lines that contains the span |
| Lines.LineWindowUnique | app/app.py:42-57 | any whole-line window around the span is the one the snippet takes, so the snippet is determined by that window |
| Lines.LineOfAdvance | app/app.py:85 | the line number at a later position is the earlier one plus the line feeds in between |
| Lines.SnippetLines | app/app.py:87-89 | the snippet has exactly the line feeds of the statement, and starts on the statement's line |
| Lines.SnippetEndLine | app/app.py:89-93 | start line plus snippet line count is one past the line of the statement's end |
| Patterns.StmtEnd | app/app.py:63 | a statement match from a position ends just past a period, beyond `OPEN`, whitespace and `DATASET` |
| Patterns.StmtEndIsRegexMatch | app/app.py:63 | the statement matcher ends at `e` exactly when `\bOPEN\s+DATASET\b[^.]*\.` (ignoring case) matches from the position to `e` |
| Patterns.ModeAtIsRegexMatch | app/app.py:64-65 | the mode matcher holds exactly when `\bIN\s+<kw>\s+MODE\b` (ignoring case) matches there |
| Patterns.TextModeHasMode | app/app.py:64-65 | a text-mode match is always a mode match, so a text-mode statement is never reported as missing a mode |
| Patterns.EncodingAtIsRegexMatch | app/app.py:66 | the encoding matcher holds exactly when `\bENCODING\b\s+\S+` (ignoring case) matches there |
| Locator.LocateFrom | app/app.py:75 | the spans scanned from a position are matches from there, in order, without overlap |
| Locator.LocateFromCovers | app/app.py:75 | every match start at or after the position lies inside a located span |
| Locator.LocateFromUnique | app/app.py:75 | ordered, non-overlapping matches that cover every match start are exactly the located spans |
| Locator.Locate | app/app.py:75 | `finditer` spans are non-empty, within the text, ordered and non-overlapping |
| Locator.LocateSound | app/app.py:75 | every located span is a statement match of the text |
| Locator.LocateComplete | app/app.py:75 | every position where a statement match starts lies inside a located span |
| Locator.LocateIsUnique | app/app.py:75 | the located spans are the only sound, ordered, non-overlapping, covering sequence of spans |
| Locator.LocateNone | app/app.py:70-75 | text where no statement match starts yields no spans |
| Rule.ClassifyPolicy | app/app.py:95-141 | `OpenDatasetNoMode` iff no mode clause; `OpenDatasetTextNoEncoding` iff a mode clause, text mode and no encoding; no finding otherwise |
| Rule.StatementDecision | app/app.py:96-141 | a statement's finding has the tag the policy chooses, and it has no finding in the accepted cases |
| Rule.FindingForShape | app/app.py:85-117 | a statement's finding echoes the unit identity, errs, has a line-feed-free snippet, starts at base plus the statement's line, and ends one past the line of its period |
| Rule.MakeFindingShape | app/app.py:104-141 | the finding of either kind is well formed and has those line numbers |
| Rule.MakeFindingLines | app/app.py:85-93 | `starting_line` is base plus the statement's line; `ending_line` is base plus the period's line plus one |
| Rule.FindingsPerStatement | app/app.py:75-141 | the k-th finding belongs to the k-th defective statement; statements are counted in order; a statement is defective exactly when the policy reports it, so each statement yields at most one finding |
| Rule.FindingsWellFormed | app/app.py:104-141 | every finding of a unit echoes its identity, has severity `error`, one of the two tags, start before end, and a snippet without line feeds |
| Rule.FindingsInOrder | app/app.py:75-141 | findings come in source order: their starting lines do not decrease |
| Rule.FindingsSameIdentity | app/app.py:106-109 | findings depend on a unit only through its identity fields, start line and code |
| Rule.Scanned | app/app.py:143-145 | the scanned unit equals the input in every field except `findings`, which holds the computed findings |
| Rule.ScanIdempotent | app/app.py:143-145 | findings already attached are ignored, so scanning a scanned unit changes nothing |
| Rule.NoStatementNoFindings | app/app.py:70-75 | code in which no statement match starts, empty or absent code included, has no findings |
| Rule.ScanAll | app/app.py:154-155 | each unit of the batch is scanned, in order |
| Rule.KeepWithFindingsMembership | app/app.py:154-157 | a unit is kept exactly when it is in the list and has a non-empty findings list |
| Rule.KeepWithFindingsAppend | app/app.py:154-157 | filtering distributes over concatenation, so input order is preserved |
| Rule.KeptMembership | app/app.py:152-158 | the batch result holds exactly the scans of the input units that have findings |
| Scanner.ScanUnit | app/app.py:69-145 | `scan_unit` returns the scanned unit, and all its findings are well formed |
| Scanner.ScanStatement | app/app.py:76-141 | one loop turn yields exactly the statement's finding, or none |
| Scanner.ScanStep | app/app.py:75-141 | each loop turn extends the findings so far by the current statement's finding |
| Scanner.ScannedIsWellFormed | app/app.py:143-145 | the unit with the loop's findings attached is the scanned unit |
| Scanner.ScanBatch | app/app.py:152-158 | the batch loop returns exactly the kept units, each with findings |
| Scenarios.NoInNoMode | app/app.py:80-81 | a statement without an `I` has neither a mode clause nor text mode |
| Scenarios.NoCNoEncoding | app/app.py:82 | a statement without a `C` has no encoding clause |
| Scenarios.NoXNoTextMode | app/app.py:81 | a statement without an `X` is not in text mode |
| Scenarios.ModeClause | app/app.py:64-65 | `IN <kw> MODE`, single-spaced between non-word characters, is a mode clause |
| Scenarios.EncodingClause | app/app.py:66 | `ENCODING`, a space and a non-space character is an encoding clause |
| Scenarios.NoModeStatement | app/app.py:96-120 | `OPEN DATASET <x>.` with no `I` in `x` is an `OpenDatasetNoMode` statement |
| Scenarios.TextModeStatement | app/app.py:123-141 | `OPEN DATASET <x> IN TEXT MODE.` with no `C` in `x` is an `OpenDatasetTextNoEncoding` statement |
| Scenarios.TextModeEncodingStatement | app/app.py:123 | `OPEN DATASET <x> IN TEXT MODE ENCODING UTF-8.` has no defect, whatever `x` is |
| Scenarios.BinaryModeStatement | app/app.py:96-123 | `OPEN DATASET <x> IN BINARY MODE.` with no `X` in `x` has no defect |
| Scenarios.NoOpenKeywordNoFindings | app/app.py:70-75 | code with no case-insensitive `OPEN` anywhere has no findings |
| Scenarios.NoLetterONoFindings | app/app.py:70-75 | code without the letter `O` has no findings |
| Scenarios.LineCodeStatements | app/app.py:75 | `A.\nOPEN DATASET F.\n` has the single statement at 3..18 |
| Scenarios.LineNumberScenario | app/app.py:73-93 | with start line 10 that code gives one `OpenDatasetNoMode` finding, from line 12 to 13, whose snippet is `OPEN DATASET F.` |
| Scenarios.BatchScenario | app/app.py:152-158 | of three units where only the second has findings, the batch returns just the second one, scanned |
| Scenarios.ConcreteBatchScenario | app/app.py:152-158 | the same for a unit without code, the line-number unit and a unit without statements |

## Left out

- The web layer is not modelled: the FastAPI application, the route
  decorators, `async`, `Body(...)` parsing and `/health` (app/app.py:1-9,
  151-168). It is transport only.
- The single-unit endpoint `/remediate` (app/app.py:161-163) only returns
  `scan_unit(unit)`, which is `Scanner.ScanUnit`.
- Pydantic validation and `model_dump` are not modelled. `Unit` and `Finding`
  are plain datatypes, and `Optional` fields are `Option`. Defaults such as
  `code = ""` and `start_line = 0` are values the caller supplies. `Code` and
  `Base` model `code or ""` and `start_line or 0`.
- Regular expressions: the four patterns are hand-written matchers over ASCII.
  - `\w` is `[A-Za-z0-9_]`.
  - `\s` is space, tab, line feed, carriage return, vertical tab and form feed.
  - Case-insensitive matching folds only `a`–`z`.
  Python's Unicode-wide classes and case folding are not modelled. These
  include non-ASCII letters and digits in `\b`, other Unicode whitespace and
  `\x1c`–`\x1f` in `\s`, and `ſ` matching `S` and `ı`/`İ` matching `I`. Text that uses them can
  match differently.
- The message and suggestion texts are copied as constants. No property
  depends on their wording.
- `end_line` of a unit is carried through unchanged and used nowhere, as in
  the original.
- Lone surrogates (U+D800–U+DFFF) are not modelled. A Python `str` may hold
  them, but a Dafny `char` is a Unicode scalar value. Every other code point,
  including those outside the Basic Multilingual Plane, is a single `char`,
  as in Python.
