/** Line arithmetic over a unit's text: the line a position falls on, and
    the whole lines a statement span lies on. */
module Lines {
  import opened Strings

  /** The index just after the last line feed before `pos`, or 0. */
  function LineStart(text: string, pos: nat): (ls: nat)
    requires pos <= |text|
    ensures ls <= pos
    ensures ls == 0 || text[ls - 1] == '\n'
    ensures NoChar(text, ls, pos, '\n')
  {
    var i := RFind(text, pos, '\n');
    if i == -1 then 0 else i + 1
  }

  /** The index of the first line feed at or after `pos`, or the length. */
  function LineEnd(text: string, pos: nat): (le: nat)
    requires pos <= |text|
    ensures pos <= le <= |text|
    ensures le == |text| || text[le] == '\n'
    ensures NoChar(text, pos, le, '\n')
  {
    var i := Find(text, pos, '\n');
    if i == -1 then |text| else i
  }

  /** `text[ls..le]` is made of whole lines and spans `text[start..end]`. */
  predicate IsLineWindow(text: string, start: nat, end: nat, ls: nat, le: nat) {
    ls <= start <= end <= le <= |text|
    && (ls == 0 || text[ls - 1] == '\n') && NoChar(text, ls, start, '\n')
    && (le == |text| || text[le] == '\n') && NoChar(text, end, le, '\n')
  }

  /** The full line or lines on which `text[start..end]` lies. */
  function LineSnippet(text: string, start: nat, end: nat): (r: string)
    requires start <= end <= |text|
    ensures exists ls: nat, le: nat | IsLineWindow(text, start, end, ls, le) :: r == text[ls..le]
  {
    var ls := LineStart(text, start);
    var le := LineEnd(text, end);
    assert IsLineWindow(text, start, end, ls, le);
    text[ls..le]
  }

  /** There is only one line window around a span: the one LineSnippet takes. */
  lemma LineWindowUnique(text: string, start: nat, end: nat, ls: nat, le: nat)
    requires IsLineWindow(text, start, end, ls, le)
    ensures ls == LineStart(text, start) && le == LineEnd(text, end)
    ensures LineSnippet(text, start, end) == text[ls..le]
  {
  }

  /** The 1-based number of the line on which position `pos` lies. */
  function LineOf(text: string, pos: nat): nat
    requires pos <= |text|
  {
    CountNewlines(text[..pos]) + 1
  }

  /** Moving from `a` to `b` advances the line number by the line feeds passed. */
  lemma LineOfAdvance(text: string, a: nat, b: nat)
    requires a <= b <= |text|
    ensures LineOf(text, b) == LineOf(text, a) + CountNewlines(text[a..b])
    ensures LineOf(text, a) <= LineOf(text, b)
  {
    CountNewlinesSplit(text, 0, a, b);
    assert text[..a] == text[0..a] && text[..b] == text[0..b];
  }

  /** The snippet holds exactly the line feeds of the span, and it starts on
      the line the span starts on. */
  lemma SnippetLines(text: string, start: nat, end: nat)
    requires start <= end <= |text|
    ensures CountNewlines(LineSnippet(text, start, end)) == CountNewlines(text[start..end])
    ensures LineOf(text, LineStart(text, start)) == LineOf(text, start)
  {
    var ls, le := LineStart(text, start), LineEnd(text, end);
    CountNewlinesSplit(text, ls, start, le);
    CountNewlinesSplit(text, start, end, le);
    assert NoChar(text[ls..start], 0, start - ls, '\n');
    assert NoChar(text[end..le], 0, le - end, '\n');
    LineOfAdvance(text, ls, start);
  }

  /** The line after the snippet's last line is the line after the span's
      last line. */
  lemma SnippetEndLine(text: string, start: nat, end: nat)
    requires start <= end <= |text|
    ensures LineOf(text, start) + (CountNewlines(LineSnippet(text, start, end)) + 1) == LineOf(text, end) + 1
  {
    SnippetLines(text, start, end);
    LineOfAdvance(text, start, end);
  }
}
