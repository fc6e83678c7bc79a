/** The rule's entry points: scanning one unit, and scanning a batch and
    keeping the units that have findings. */
module Scanner {
  import opened Wrappers
  import opened Strings
  import opened Lines
  import opened Patterns
  import opened Locator
  import opened Rule

  /** `scan_unit`: walks the located statements in order, classifies each,
      and appends at most one finding per statement; the result is a copy of
      the unit carrying those findings. */
  method ScanUnit(u: Unit) returns (out: Unit)
    ensures out == Scanned(u)
    ensures out.findings.Some? && forall f | f in out.findings.value :: WellFormedFinding(u, f)
  {
    var src := if u.code.Some? then u.code.value else "";
    var findings: seq<Finding> := [];
    var baseStart := if u.startLine.Some? then u.startLine.value else 0;
    var spans := Locate(src);
    for i := 0 to |spans|
      invariant findings == Collect(StatementFindings(u, src, spans)[..i])
    {
      var found := ScanStatement(u, src, baseStart, spans[i]);
      ScanStep(u, src, spans, i, found);
      if found.Some? {
        findings := findings + [found.value];
      }
    }
    ScannedIsWellFormed(u, src, spans, findings);
    out := u.(findings := Some(findings));
  }

  /** One turn of the loop of `scan_unit` extends the findings so far by the
      current statement's finding, if it has one. */
  lemma ScanStep(u: Unit, src: string, spans: seq<Span>, i: nat, found: Option<Finding>)
    requires ValidSpans(src, spans) && i < |spans| && found == FindingFor(u, src, spans[i])
    ensures Collect(StatementFindings(u, src, spans)[..i + 1]) ==
      Collect(StatementFindings(u, src, spans)[..i]) + (if found.Some? then [found.value] else [])
  {
    CollectSnoc(StatementFindings(u, src, spans), i);
  }

  /** The unit carrying the findings of its located statements is its scan,
      and those findings are well formed. */
  lemma ScannedIsWellFormed(u: Unit, src: string, spans: seq<Span>, findings: seq<Finding>)
    requires src == Code(u) && spans == Locate(src)
    requires findings == Collect(StatementFindings(u, src, spans)[..|spans|])
    ensures u.(findings := Some(findings)) == Scanned(u)
    ensures forall f | f in findings :: WellFormedFinding(u, f)
  {
    assert StatementFindings(u, src, spans)[..|spans|] == StatementFindings(u, src, spans);
    FindingsWellFormed(u, src, spans);
  }

  /** The body of the loop of `scan_unit` for the statement at `sp`: the
      statement's finding, if it has one. A missing mode is reported without
      looking at the encoding. */
  method ScanStatement(u: Unit, src: string, baseStart: int, sp: Span) returns (found: Option<Finding>)
    requires ValidSpan(src, sp) && baseStart == Base(u)
    ensures found == FindingFor(u, src, sp)
  {
    var stmt := src[sp.start..sp.end];
    var hasMode := HasMode(stmt);
    var isTextMode := IsTextMode(stmt);
    var hasEncoding := HasEncoding(stmt);

    var lineInBlock := LineOf(src, sp.start);
    var snippetLine := LineSnippet(src, sp.start, sp.end);
    var snippetLineCount := CountNewlines(snippetLine) + 1;
    var startingLineAbs := baseStart + lineInBlock;
    var endingLineAbs := baseStart + lineInBlock + snippetLineCount;

    assert stmt == StatementText(src, sp);
    if !hasMode {
      var f := Finding(
        Some(u.pgmName), Some(u.incName), Some(u.unitType), u.name,
        Some(startingLineAbs), Some(endingLineAbs), Some("OpenDatasetNoMode"), Some("error"),
        Some(NoModeMessage), Some(NoModeSuggestion), Some(Escape(snippetLine)));
      FindingFromFields(u, src, sp, OpenDatasetNoMode, startingLineAbs, endingLineAbs, snippetLine);
      assert f == ScanFinding(u, OpenDatasetNoMode, startingLineAbs, endingLineAbs, snippetLine);
      return Some(f);
    }
    if isTextMode && !hasEncoding {
      var f := Finding(
        Some(u.pgmName), Some(u.incName), Some(u.unitType), u.name,
        Some(startingLineAbs), Some(endingLineAbs), Some("OpenDatasetTextNoEncoding"), Some("error"),
        Some(TextNoEncodingMessage), Some(TextNoEncodingSuggestion), Some(Escape(snippetLine)));
      FindingFromFields(u, src, sp, OpenDatasetTextNoEncoding, startingLineAbs, endingLineAbs, snippetLine);
      assert f == ScanFinding(u, OpenDatasetTextNoEncoding, startingLineAbs, endingLineAbs, snippetLine);
      return Some(f);
    }
    return None;
  }

  /** The batch filter: scans every unit in order and keeps those whose
      findings are non-empty. */
  method ScanBatch(units: seq<Unit>) returns (results: seq<Unit>)
    ensures results == Kept(units)
    ensures forall r | r in results :: HasFindings(r)
  {
    ghost var scanned := ScanAll(units);
    results := [];
    for i := 0 to |units|
      invariant results == KeepWithFindings(scanned[..i])
    {
      var res := ScanUnit(units[i]);
      KeepWithFindingsSnoc(scanned, i);
      assert scanned[i] == res;
      if res.findings.Some? && res.findings.value != [] {
        results := results + [res];
      }
    }
    assert scanned[..|units|] == scanned;
    forall r | r in results ensures HasFindings(r) {
      KeptMembership(units, r);
    }
  }
}
