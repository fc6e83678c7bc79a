/** The statement locator: a left-to-right scan for non-overlapping matches
    of the statement pattern, as `finditer` performs it. The scan is stated
    over a table of what the statement matcher returns at each position of
    the text, so that its properties do not depend on how a match is found. */
module Locator {
  import opened Wrappers
  import opened Patterns

  /** A match's character offsets in the unit text: `end` is one past the period. */
  datatype Span = Span(start: nat, end: nat)

  /** A table of match ends: `ends[p]` is where a match starting at `p` ends. */
  predicate ValidTable(ends: seq<Option<nat>>) {
    forall p | 0 <= p < |ends| :: ends[p].Some? ==> p < ends[p].value <= |ends|
  }

  /** The statement matcher's result at every position of `text`. */
  function MatchTable(text: string): (ends: seq<Option<nat>>)
    ensures |ends| == |text| && ValidTable(ends)
    ensures forall p | 0 <= p < |text| :: ends[p] == StmtEnd(text, p)
  {
    seq(|text|, p requires 0 <= p < |text| => StmtEnd(text, p))
  }

  /** A match starts at `sp.start` and ends at `sp.end`. */
  predicate IsMatch(ends: seq<Option<nat>>, sp: Span) {
    sp.start < |ends| && ends[sp.start] == Some(sp.end)
  }

  /** Every span is a match starting at or after `from`. */
  predicate StartsFrom(ends: seq<Option<nat>>, from: nat, spans: seq<Span>) {
    forall i | 0 <= i < |spans| :: from <= spans[i].start && IsMatch(ends, spans[i])
  }

  /** The spans are in order and do not overlap. */
  predicate Disjoint(spans: seq<Span>) {
    forall i, j | 0 <= i < j < |spans| :: spans[i].end <= spans[j].start
  }

  /** Every position at or after `from` where a match starts lies inside a span. */
  ghost predicate Covers(ends: seq<Option<nat>>, from: nat, spans: seq<Span>) {
    forall p: nat | from <= p < |ends| && ends[p].Some? ::
      exists i | 0 <= i < |spans| :: spans[i].start <= p < spans[i].end
  }

  /** The matches found by scanning from `from`: the first position where a
      match starts, then the scan resumes where that match ends. */
  function LocateFrom(ends: seq<Option<nat>>, from: nat): (spans: seq<Span>)
    requires ValidTable(ends) && from <= |ends|
    ensures StartsFrom(ends, from, spans) && Disjoint(spans)
    ensures forall i | 0 <= i < |spans| :: spans[i].start < spans[i].end <= |ends|
    decreases |ends| - from
  {
    if from == |ends| then []
    else match ends[from]
      case Some(e) => [Span(from, e)] + LocateFrom(ends, e)
      case None => LocateFrom(ends, from + 1)
  }

  /** No match is skipped: each match start is inside some located span
      (either it is that span's start, or an earlier match consumed it). */
  lemma {:induction false} LocateFromCovers(ends: seq<Option<nat>>, from: nat)
    requires ValidTable(ends) && from <= |ends|
    ensures Covers(ends, from, LocateFrom(ends, from))
    decreases |ends| - from
  {
    if from < |ends| {
      match ends[from]
      case Some(e) =>
        LocateFromCovers(ends, e);
        CoversCons(ends, from, e, LocateFrom(ends, e));
      case None =>
        LocateFromCovers(ends, from + 1);
    }
  }

  /** A match at `from` ending at `e`, followed by spans that cover from `e`,
      covers from `from`. */
  lemma CoversCons(ends: seq<Option<nat>>, from: nat, e: nat, rest: seq<Span>)
    requires from < e && Covers(ends, e, rest)
    ensures Covers(ends, from, [Span(from, e)] + rest)
  {
    var spans := [Span(from, e)] + rest;
    forall p: nat | from <= p < |ends| && ends[p].Some?
      ensures exists i | 0 <= i < |spans| :: spans[i].start <= p < spans[i].end
    {
      if p < e {
        assert spans[0].start <= p < spans[0].end;
      } else {
        var i :| 0 <= i < |rest| && rest[i].start <= p < rest[i].end;
        assert spans[i + 1] == rest[i];
      }
    }
  }

  /** Ordered spans that cover from `from` and begin with a span ending at
      `e` cover, without that first span, from `e`. */
  lemma CoversTail(ends: seq<Option<nat>>, from: nat, spans: seq<Span>)
    requires |spans| > 0 && Disjoint(spans) && Covers(ends, from, spans)
    requires from <= spans[0].start < spans[0].end
    ensures Covers(ends, spans[0].end, spans[1..])
  {
    var e, rest := spans[0].end, spans[1..];
    forall p: nat | e <= p < |ends| && ends[p].Some?
      ensures exists k | 0 <= k < |rest| :: rest[k].start <= p < rest[k].end
    {
      var k :| 0 <= k < |spans| && spans[k].start <= p < spans[k].end;
      assert rest[k - 1] == spans[k];
    }
  }

  /** The located spans are the only ordered, non-overlapping sequence of
      matches from `from` that leaves no match start uncovered. */
  lemma {:induction false} LocateFromUnique(ends: seq<Option<nat>>, from: nat, spans: seq<Span>)
    requires ValidTable(ends) && from <= |ends|
    requires StartsFrom(ends, from, spans) && Disjoint(spans) && Covers(ends, from, spans)
    ensures spans == LocateFrom(ends, from)
    decreases |ends| - from
  {
    assert |spans| > 0 ==> spans[0].start < |ends|;
    if from < |ends| {
      match ends[from]
      case Some(e) =>
        SpansAfterFirst(ends, from, e, spans);
        LocateFromUnique(ends, e, spans[1..]);
        assert spans == [spans[0]] + spans[1..];
      case None =>
        NoSpanAt(ends, from, spans);
        LocateFromUnique(ends, from + 1, spans);
    }
  }

  /** When a match starts at `from`, covering spans from `from` consist of
      it followed by covering spans from where it ends. */
  lemma SpansAfterFirst(ends: seq<Option<nat>>, from: nat, e: nat, spans: seq<Span>)
    requires ValidTable(ends) && from < |ends| && ends[from] == Some(e)
    requires StartsFrom(ends, from, spans) && Disjoint(spans) && Covers(ends, from, spans)
    ensures |spans| > 0 && spans[0] == Span(from, e) && e <= |ends|
    ensures StartsFrom(ends, e, spans[1..]) && Disjoint(spans[1..]) && Covers(ends, e, spans[1..])
  {
    FirstSpanAt(ends, from, e, spans);
    CoversTail(ends, from, spans);
    assert StartsFrom(ends, e, spans[1..]);
  }

  /** When a match starts at `from`, covering spans from `from` begin with it. */
  lemma FirstSpanAt(ends: seq<Option<nat>>, from: nat, e: nat, spans: seq<Span>)
    requires ValidTable(ends) && from < |ends| && ends[from] == Some(e)
    requires StartsFrom(ends, from, spans) && Disjoint(spans) && Covers(ends, from, spans)
    ensures |spans| > 0 && spans[0] == Span(from, e)
  {
    var i :| 0 <= i < |spans| && spans[i].start <= from < spans[i].end;
    assert i == 0;
  }

  /** When no match starts at `from`, covering spans from `from` cover from `from + 1`. */
  lemma NoSpanAt(ends: seq<Option<nat>>, from: nat, spans: seq<Span>)
    requires from < |ends| && ends[from] == None
    requires StartsFrom(ends, from, spans) && Covers(ends, from, spans)
    ensures StartsFrom(ends, from + 1, spans) && Covers(ends, from + 1, spans)
  {
  }

  // ---------------------------------------------------------------------
  // The locator over a unit's text
  // ---------------------------------------------------------------------

  /** `STMT_RE.finditer(text)`: the statement spans of `text`, in order. */
  function Locate(text: string): (spans: seq<Span>)
    ensures forall i | 0 <= i < |spans| :: spans[i].start < spans[i].end <= |text|
    ensures Disjoint(spans)
  {
    LocateFrom(MatchTable(text), 0)
  }

  /** Every located span is a statement match of the text. */
  lemma LocateSound(text: string)
    ensures forall i | 0 <= i < |Locate(text)| :: StmtEnd(text, Locate(text)[i].start) == Some(Locate(text)[i].end)
  {
    var ends := MatchTable(text);
    assert StartsFrom(ends, 0, Locate(text));
  }

  /** Every position where a statement match starts lies inside a located span. */
  lemma LocateComplete(text: string, p: nat)
    requires p < |text| && StmtEnd(text, p).Some?
    ensures exists i | 0 <= i < |Locate(text)| :: Locate(text)[i].start <= p < Locate(text)[i].end
  {
    var ends := MatchTable(text);
    LocateFromCovers(ends, 0);
    assert ends[p].Some?;
    var i :| 0 <= i < |LocateFrom(ends, 0)| && LocateFrom(ends, 0)[i].start <= p < LocateFrom(ends, 0)[i].end;
    assert Locate(text)[i] == LocateFrom(ends, 0)[i];
  }

  /** The located spans are the one sequence of ordered, non-overlapping
      statement matches that leaves no match start uncovered. */
  lemma LocateIsUnique(text: string, spans: seq<Span>)
    requires forall i | 0 <= i < |spans| :: spans[i].start < |text| && StmtEnd(text, spans[i].start) == Some(spans[i].end)
    requires Disjoint(spans)
    requires forall p: nat | p < |text| && StmtEnd(text, p).Some? ::
      exists i | 0 <= i < |spans| :: spans[i].start <= p < spans[i].end
    ensures spans == Locate(text)
  {
    var ends := MatchTable(text);
    assert StartsFrom(ends, 0, spans);
    assert Covers(ends, 0, spans) by {
      forall p: nat | 0 <= p < |ends| && ends[p].Some?
        ensures exists i | 0 <= i < |spans| :: spans[i].start <= p < spans[i].end
      {
        assert StmtEnd(text, p).Some?;
      }
    }
    LocateFromUnique(ends, 0, spans);
  }

  /** Text in which no statement match starts has no spans. */
  lemma LocateNone(text: string)
    requires forall p: nat | p < |text| :: StmtEnd(text, p).None?
    ensures Locate(text) == []
  {
    var spans := Locate(text);
    assert |spans| > 0 ==> StmtEnd(text, spans[0].start).Some? by {
      LocateSound(text);
    }
  }
}
