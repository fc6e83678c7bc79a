/** Rule 111: records, the defect classifier, and the findings a unit's text
    gives rise to, as functions of the unit. */
module Rule {
  import opened Wrappers
  import opened Strings
  import opened Lines
  import opened Patterns
  import opened Locator

  // ---------------------------------------------------------------------
  // Records
  // ---------------------------------------------------------------------

  /** The two defects the rule reports. */
  datatype IssueKind = OpenDatasetNoMode | OpenDatasetTextNoEncoding {
    /** The `issues_type` tag. */
    function Tag(): string {
      match this
      case OpenDatasetNoMode => "OpenDatasetNoMode"
      case OpenDatasetTextNoEncoding => "OpenDatasetTextNoEncoding"
    }

    function Message(): string {
      match this
      case OpenDatasetNoMode => NoModeMessage
      case OpenDatasetTextNoEncoding => TextNoEncodingMessage
    }

    function Suggestion(): string {
      match this
      case OpenDatasetNoMode => NoModeSuggestion
      case OpenDatasetTextNoEncoding => TextNoEncodingSuggestion
    }
  }

  const Severity := "error"
  const NoModeMessage := "OPEN DATASET without MODE. Specify IN TEXT MODE or IN BINARY MODE and, for text, an explicit ENCODING."
  const NoModeSuggestion := "OPEN DATASET lv_file FOR OUTPUT IN TEXT MODE ENCODING UTF-8.\n* or *\nOPEN DATASET lv_file FOR INPUT IN BINARY MODE."
  const TextNoEncodingMessage := "OPEN DATASET in TEXT MODE without explicit ENCODING."
  const TextNoEncodingSuggestion := "Add ENCODING UTF-8 (or the required code page)."

  /** One reported defect; every field is optional, as in the record it models. */
  datatype Finding = Finding(
    progName: Option<string>,
    inclName: Option<string>,
    types: Option<string>,
    blockname: Option<string>,
    startingLine: Option<int>,
    endingLine: Option<int>,
    issuesType: Option<string>,
    severity: Option<string>,
    message: Option<string>,
    suggestion: Option<string>,
    snippet: Option<string>)

  /** A source fragment with its identity and its position in the program. */
  datatype Unit = Unit(
    pgmName: string,
    incName: string,
    unitType: string,
    name: Option<string>,
    startLine: Option<int>,
    endLine: Option<int>,
    code: Option<string>,
    findings: Option<seq<Finding>>)

  /** `unit.code or ""`. */
  function Code(u: Unit): string {
    if u.code.Some? then u.code.value else ""
  }

  /** `unit.start_line or 0`: the line the unit starts at in its program. */
  function Base(u: Unit): int {
    if u.startLine.Some? then u.startLine.value else 0
  }

  // ---------------------------------------------------------------------
  // Classifier
  // ---------------------------------------------------------------------

  /** The decision policy for one statement: a missing mode is reported
      alone, and only a text-mode statement is checked for an encoding. */
  function Classify(stmt: string): Option<IssueKind> {
    if !HasMode(stmt) then Some(OpenDatasetNoMode)
    else if IsTextMode(stmt) && !HasEncoding(stmt) then Some(OpenDatasetTextNoEncoding)
    else None
  }

  /** Each outcome of the policy, and exactly when it happens. */
  lemma ClassifyPolicy(stmt: string)
    ensures Classify(stmt) == Some(OpenDatasetNoMode) <==> !HasMode(stmt)
    ensures Classify(stmt) == Some(OpenDatasetTextNoEncoding) <==>
      HasMode(stmt) && IsTextMode(stmt) && !HasEncoding(stmt)
    ensures Classify(stmt) == None <==>
      HasMode(stmt) && (!IsTextMode(stmt) || HasEncoding(stmt))
  {
  }

  predicate ValidSpan(src: string, sp: Span) {
    sp.start <= sp.end <= |src|
  }

  predicate ValidSpans(src: string, spans: seq<Span>) {
    forall i | 0 <= i < |spans| :: ValidSpan(src, spans[i])
  }

  function StatementText(src: string, sp: Span): string
    requires ValidSpan(src, sp)
  {
    src[sp.start..sp.end]
  }

  /** The finding the scan builds for a statement of kind `kind`, field by field. */
  function ScanFinding(u: Unit, kind: IssueKind, startingLine: int, endingLine: int, snippet: string): Finding {
    Finding(Some(u.pgmName), Some(u.incName), Some(u.unitType), u.name,
      Some(startingLine), Some(endingLine), Some(kind.Tag()), Some(Severity),
      Some(kind.Message()), Some(kind.Suggestion()), Some(Escape(snippet)))
  }

  /** The finding of kind `kind` for the statement at `sp` of unit `u`. */
  function MakeFinding(u: Unit, src: string, sp: Span, kind: IssueKind): Finding
    requires ValidSpan(src, sp)
  {
    var lineInBlock := LineOf(src, sp.start);
    var snippet := LineSnippet(src, sp.start, sp.end);
    var startingLine := Base(u) + lineInBlock;
    var endingLine := startingLine + (CountNewlines(snippet) + 1);
    ScanFinding(u, kind, startingLine, endingLine, snippet)
  }

  /** The finding, if any, that the statement at `sp` gives rise to. */
  function FindingFor(u: Unit, src: string, sp: Span): Option<Finding>
    requires ValidSpan(src, sp)
  {
    match Classify(StatementText(src, sp))
    case None => None
    case Some(kind) => Some(MakeFinding(u, src, sp, kind))
  }

  /** What every finding of unit `u` looks like: it echoes the unit's
      identity, is an error of one of the two kinds, ends on a later line than
      it starts, and its snippet is a single line of text. */
  predicate WellFormedFinding(u: Unit, f: Finding) {
    f.progName == Some(u.pgmName) && f.inclName == Some(u.incName) &&
    f.types == Some(u.unitType) && f.blockname == u.name &&
    f.severity == Some(Severity) &&
    (f.issuesType == Some("OpenDatasetNoMode") || f.issuesType == Some("OpenDatasetTextNoEncoding")) &&
    f.startingLine.Some? && f.endingLine.Some? && f.startingLine.value < f.endingLine.value &&
    f.snippet.Some? && NoChar(f.snippet.value, 0, |f.snippet.value|, '\n')
  }

  /** The statement-level outcomes: no mode gives exactly a
      `OpenDatasetNoMode` finding, text mode without an encoding gives exactly
      a `OpenDatasetTextNoEncoding` finding, and nothing else gives one. */
  lemma StatementDecision(u: Unit, src: string, sp: Span)
    requires ValidSpan(src, sp)
    ensures var stmt := StatementText(src, sp);
      !HasMode(stmt) ==>
        FindingFor(u, src, sp).Some? && FindingFor(u, src, sp).value.issuesType == Some("OpenDatasetNoMode")
    ensures var stmt := StatementText(src, sp);
      HasMode(stmt) && IsTextMode(stmt) && !HasEncoding(stmt) ==>
        FindingFor(u, src, sp).Some? && FindingFor(u, src, sp).value.issuesType == Some("OpenDatasetTextNoEncoding")
    ensures var stmt := StatementText(src, sp);
      HasMode(stmt) && (!IsTextMode(stmt) || HasEncoding(stmt)) ==> FindingFor(u, src, sp) == None
  {
  }

  /** A statement's finding is well formed, starts on the statement's first
      line and ends on the line after the statement's last line. */
  lemma FindingForShape(u: Unit, src: string, sp: Span)
    requires ValidSpan(src, sp)
    ensures FindingFor(u, src, sp).Some? ==>
      var f := FindingFor(u, src, sp).value;
      WellFormedFinding(u, f) &&
      f.startingLine == Some(Base(u) + LineOf(src, sp.start)) &&
      f.endingLine == Some(Base(u) + LineOf(src, sp.end) + 1)
  {
    match Classify(StatementText(src, sp))
    case None =>
    case Some(kind) =>
      MakeFindingShape(u, src, sp, kind);
  }

  lemma MakeFindingShape(u: Unit, src: string, sp: Span, kind: IssueKind)
    requires ValidSpan(src, sp)
    ensures var f := MakeFinding(u, src, sp, kind);
      WellFormedFinding(u, f) &&
      f.startingLine == Some(Base(u) + LineOf(src, sp.start)) &&
      f.endingLine == Some(Base(u) + LineOf(src, sp.end) + 1)
  {
    MakeFindingLines(u, src, sp, kind);
    assert kind.Tag() == "OpenDatasetNoMode" || kind.Tag() == "OpenDatasetTextNoEncoding";
  }

  lemma MakeFindingLines(u: Unit, src: string, sp: Span, kind: IssueKind)
    requires ValidSpan(src, sp)
    ensures var f := MakeFinding(u, src, sp, kind);
      f.startingLine == Some(Base(u) + LineOf(src, sp.start)) &&
      f.endingLine == Some(Base(u) + LineOf(src, sp.end) + 1)
  {
    var snippet := LineSnippet(src, sp.start, sp.end);
    var startingLine := Base(u) + LineOf(src, sp.start);
    var endingLine := startingLine + (CountNewlines(snippet) + 1);
    FindingFromFields(u, src, sp, kind, startingLine, endingLine, snippet);
    SnippetEndLine(src, sp.start, sp.end);
  }

  /** The finding of a statement, from the quantities the scan computes. */
  lemma FindingFromFields(u: Unit, src: string, sp: Span, kind: IssueKind, startingLine: int, endingLine: int, snippet: string)
    requires ValidSpan(src, sp)
    requires startingLine == Base(u) + LineOf(src, sp.start)
    requires snippet == LineSnippet(src, sp.start, sp.end)
    requires endingLine == startingLine + (CountNewlines(snippet) + 1)
    ensures MakeFinding(u, src, sp, kind) == ScanFinding(u, kind, startingLine, endingLine, snippet)
  {
  }

  // ---------------------------------------------------------------------
  // Findings of a sequence of statements, and of a unit
  // ---------------------------------------------------------------------

  /** The finding, if any, of each statement at `spans`. */
  function StatementFindings(u: Unit, src: string, spans: seq<Span>): (opts: seq<Option<Finding>>)
    requires ValidSpans(src, spans)
    ensures |opts| == |spans| && forall i | 0 <= i < |spans| :: opts[i] == FindingFor(u, src, spans[i])
  {
    seq(|spans|, i requires 0 <= i < |spans| && ValidSpans(src, spans) => FindingFor(u, src, spans[i]))
  }

  /** The findings of the statements at `spans`, in statement order. */
  function Findings(u: Unit, src: string, spans: seq<Span>): seq<Finding>
    requires ValidSpans(src, spans)
  {
    Collect(StatementFindings(u, src, spans))
  }

  /** The positions, in increasing order, of the statements that have a defect. */
  function DefectIndices(u: Unit, src: string, spans: seq<Span>): seq<nat>
    requires ValidSpans(src, spans)
  {
    SomeIndices(StatementFindings(u, src, spans))
  }

  /** One finding per defective statement, in statement order: the k-th
      finding is the finding of the k-th defective statement, and a statement
      is defective exactly when the classifier reports it. */
  lemma FindingsPerStatement(u: Unit, src: string, spans: seq<Span>)
    requires ValidSpans(src, spans)
    ensures var fs, idx := Findings(u, src, spans), DefectIndices(u, src, spans);
      |fs| == |idx| <= |spans| &&
      (forall j, k | 0 <= j < k < |idx| :: idx[j] < idx[k]) &&
      (forall k | 0 <= k < |fs| :: idx[k] < |spans| && FindingFor(u, src, spans[idx[k]]) == Some(fs[k])) &&
      (forall i | 0 <= i < |spans| :: i in idx <==> Classify(StatementText(src, spans[i])).Some?)
  {
    CollectAtIndices(StatementFindings(u, src, spans));
  }

  /** Every finding of a sequence of statements is well formed. */
  lemma FindingsWellFormed(u: Unit, src: string, spans: seq<Span>)
    requires ValidSpans(src, spans)
    ensures forall f | f in Findings(u, src, spans) :: WellFormedFinding(u, f)
  {
    var opts := StatementFindings(u, src, spans);
    forall f | f in Findings(u, src, spans) ensures WellFormedFinding(u, f) {
      CollectMembership(opts, f);
      var i :| 0 <= i < |opts| && opts[i] == Some(f);
      FindingForShape(u, src, spans[i]);
    }
  }

  /** For ordered, non-overlapping statements, the findings' starting lines
      never decrease. */
  lemma FindingsInOrder(u: Unit, src: string, spans: seq<Span>)
    requires ValidSpans(src, spans) && Disjoint(spans)
    ensures var fs := Findings(u, src, spans);
      forall j, k | 0 <= j < k < |fs| ::
        fs[j].startingLine.Some? && fs[k].startingLine.Some? &&
        fs[j].startingLine.value <= fs[k].startingLine.value
  {
    var fs, idx := Findings(u, src, spans), DefectIndices(u, src, spans);
    FindingsPerStatement(u, src, spans);
    forall j, k | 0 <= j < k < |fs|
      ensures fs[j].startingLine.Some? && fs[k].startingLine.Some? &&
        fs[j].startingLine.value <= fs[k].startingLine.value
    {
      var a, b := spans[idx[j]], spans[idx[k]];
      FindingForShape(u, src, a);
      FindingForShape(u, src, b);
      LineOfAdvance(src, a.start, b.start);
    }
  }

  /** Two units with the same identity and base line give the same findings. */
  lemma FindingsSameIdentity(u: Unit, v: Unit, src: string, spans: seq<Span>)
    requires u.pgmName == v.pgmName && u.incName == v.incName && u.unitType == v.unitType
    requires u.name == v.name && Base(u) == Base(v)
    requires ValidSpans(src, spans)
    ensures Findings(u, src, spans) == Findings(v, src, spans)
  {
    forall i | 0 <= i < |spans| ensures FindingFor(u, src, spans[i]) == FindingFor(v, src, spans[i]) {
      FindingForSameIdentity(u, v, src, spans[i]);
    }
    assert StatementFindings(u, src, spans) == StatementFindings(v, src, spans);
  }

  lemma FindingForSameIdentity(u: Unit, v: Unit, src: string, sp: Span)
    requires u.pgmName == v.pgmName && u.incName == v.incName && u.unitType == v.unitType
    requires u.name == v.name && Base(u) == Base(v)
    requires ValidSpan(src, sp)
    ensures FindingFor(u, src, sp) == FindingFor(v, src, sp)
  {
    match Classify(StatementText(src, sp))
    case None =>
    case Some(kind) =>
      assert MakeFinding(u, src, sp, kind) == MakeFinding(v, src, sp, kind);
  }

  /** The findings of unit `u`: those of the statements located in its code. */
  function UnitFindings(u: Unit): seq<Finding> {
    Findings(u, Code(u), Locate(Code(u)))
  }

  /** `scan_unit(u)`: a copy of `u` whose findings are its computed findings. */
  function Scanned(u: Unit): (r: Unit)
    ensures r.pgmName == u.pgmName && r.incName == u.incName && r.unitType == u.unitType
    ensures r.name == u.name && r.startLine == u.startLine && r.endLine == u.endLine && r.code == u.code
    ensures r.findings == Some(UnitFindings(u))
  {
    u.(findings := Some(UnitFindings(u)))
  }

  /** Scanning ignores the findings a unit already carries, so scanning the
      result again changes nothing. */
  lemma ScanIdempotent(u: Unit, oldFindings: Option<seq<Finding>>)
    ensures UnitFindings(u.(findings := oldFindings)) == UnitFindings(u)
    ensures Scanned(Scanned(u)) == Scanned(u)
  {
    var src := Code(u);
    FindingsSameIdentity(u.(findings := oldFindings), u, src, Locate(src));
    FindingsSameIdentity(Scanned(u), u, src, Locate(src));
  }

  /** Code in which no statement match starts, empty or absent code among
      it, has no findings. */
  lemma NoStatementNoFindings(u: Unit)
    requires forall p: nat | p < |Code(u)| :: StmtEnd(Code(u), p).None?
    ensures UnitFindings(u) == []
  {
    LocateNone(Code(u));
  }

  // ---------------------------------------------------------------------
  // Batch
  // ---------------------------------------------------------------------

  /** `if res.findings:` — the unit carries a non-empty list of findings. */
  predicate HasFindings(r: Unit) {
    r.findings.Some? && r.findings.value != []
  }

  /** The units of `rs` that carry findings, in order. */
  function KeepWithFindings(rs: seq<Unit>): seq<Unit>
    decreases |rs|
  {
    if rs == [] then []
    else
      var n := |rs| - 1;
      KeepWithFindings(rs[..n]) + if HasFindings(rs[n]) then [rs[n]] else []
  }

  /** Extending the units by one keeps that unit when it carries findings. */
  lemma KeepWithFindingsSnoc(rs: seq<Unit>, i: nat)
    requires i < |rs|
    ensures KeepWithFindings(rs[..i + 1]) ==
      KeepWithFindings(rs[..i]) + if HasFindings(rs[i]) then [rs[i]] else []
  {
    assert rs[..i + 1][..i] == rs[..i];
  }

  /** Every unit scanned, in order. */
  function ScanAll(units: seq<Unit>): (rs: seq<Unit>)
    ensures |rs| == |units| && forall k | 0 <= k < |units| :: rs[k] == Scanned(units[k])
  {
    seq(|units|, k requires 0 <= k < |units| => Scanned(units[k]))
  }

  /** The batch result: the scanned units that have at least one finding. */
  function Kept(units: seq<Unit>): seq<Unit> {
    KeepWithFindings(ScanAll(units))
  }

  /** A unit survives the filter exactly when it is in the input and carries findings. */
  lemma {:induction false} KeepWithFindingsMembership(rs: seq<Unit>, r: Unit)
    ensures r in KeepWithFindings(rs) <==> r in rs && HasFindings(r)
    decreases |rs|
  {
    if rs != [] {
      var n := |rs| - 1;
      KeepWithFindingsMembership(rs[..n], r);
      assert rs == rs[..n] + [rs[n]];
    }
  }

  /** The filter keeps the order of its input: a batch split in two is
      filtered part by part. */
  lemma {:induction false} KeepWithFindingsAppend(a: seq<Unit>, b: seq<Unit>)
    ensures KeepWithFindings(a + b) == KeepWithFindings(a) + KeepWithFindings(b)
    decreases |b|
  {
    if b != [] {
      var n := |b| - 1;
      assert (a + b)[..|a| + n] == a + b[..n];
      assert (a + b)[|a| + n] == b[n];
      KeepWithFindingsAppend(a, b[..n]);
    } else {
      assert a + b == a;
    }
  }

  /** A unit is in the batch result exactly when it is the scan of an input
      unit that has findings; every unit in it carries findings. */
  lemma KeptMembership(units: seq<Unit>, r: Unit)
    ensures r in Kept(units) <==>
      exists k | 0 <= k < |units| :: r == Scanned(units[k]) && UnitFindings(units[k]) != []
    ensures r in Kept(units) ==> HasFindings(r)
  {
    var rs := ScanAll(units);
    KeepWithFindingsMembership(rs, r);
    if r in rs {
      var k :| 0 <= k < |rs| && rs[k] == r;
      assert r == Scanned(units[k]);
    }
  }
}
