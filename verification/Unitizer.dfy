/** Cutting a document into logical units. */
module Unitizer {
  import opened Text
  import opened LineTable
  import opened Units
  import opened HeadingStack
  import opened Segments

  // ---------------------------------------------------------------- the loops

  method FenceEnd(lines: seq<string>, i: nat, ghost digit: char -> bool) returns (j: nat)
    requires i < |lines| && IsFence(lines[i])
    ensures IsBlock(lines, false, digit, i, j, CodeFence)
  {
    j := i + 1;
    while j < |lines| && !IsFence(lines[j])
      invariant i < j <= |lines|
      invariant forall m | i < m < j :: !IsFence(lines[m])
    {
      j := j + 1;
    }
    if j < |lines| {
      j := j + 1;
    }
  }

  method BlockEnd(lines: seq<string>, i: nat, codeMode: bool, digit: char -> bool) returns (j: nat, isList: bool)
    requires i < |lines| && !Blank(lines[i])
    requires !codeMode ==> !IsFence(lines[i]) && !IsHeading(lines[i])
    ensures isList == (!codeMode && IsListItem(digit, lines[i]))
    ensures IsBlock(lines, codeMode, digit, i, j, if codeMode then Code else if isList then List else Paragraph)
  {
    j := i;
    isList := !codeMode && IsListItem(digit, lines[i]);
    while j < |lines| && !Blank(lines[j])
      invariant i <= j <= |lines|
      invariant forall m | i <= m < j :: !Breaks(codeMode, digit, isList, lines[m])
    {
      if !codeMode {
        if IsFence(lines[j]) || IsHeading(lines[j]) {
          break;
        }
        if isList {
          if !(IsListItem(digit, lines[j]) || IsIndented(lines[j])) {
            break;
          }
        } else if IsListItem(digit, lines[j]) {
          break;
        }
      }
      j := j + 1;
    }
  }

  /** Where the unit that begins at line `i` ends, and what it is. */
  method BlockAt(lines: seq<string>, i: nat, codeMode: bool, digit: char -> bool) returns (j: nat, blockType: BlockType)
    requires i < |lines| && !Blank(lines[i])
    ensures IsBlock(lines, codeMode, digit, i, j, blockType)
    ensures blockType == Heading <==> !codeMode && !IsFence(lines[i]) && IsHeading(lines[i])
  {
    if !codeMode && IsFence(lines[i]) {
      j := FenceEnd(lines, i, digit);
      blockType := CodeFence;
    } else if !codeMode && IsHeading(lines[i]) {
      j := i + 1;
      blockType := Heading;
    } else {
      var isList;
      j, isList := BlockEnd(lines, i, codeMode, digit);
      blockType := if codeMode then Code else if isList then List else Paragraph;
    }
  }

  method UnitOf(text: string, starts: seq<nat>, i: nat, j: nat, blockType: BlockType, path: seq<string>)
    returns (u: LogicalUnit)
    requires IsLineTable(text, starts)
    requires i < j <= |Lines(text)| && !Blank(Lines(text)[i])
    ensures IsSpanOfLines(text, u, i, j) && !Blank(u.text)
    ensures u.lineStart == i + 1 && u.lineEnd == j
    ensures u.blockType == blockType && u.headingPath == path
  {
    NonEmptyLineStarted(text, i);
    BodyIsNotBlank(text, i, j);
    var (span, body) := SpanOf(text, starts, i, j);
    u := LogicalUnit(body, span.lo, span.hi, i + 1, j, blockType, path);
  }

  method UnitizeStructured(text: string, codeMode: bool, digit: char -> bool) returns (units: seq<LogicalUnit>)
    ensures Unitized(text, codeMode, digit, units)
  {
    hide IsBlock, IsSpanOfLines, IsHeading, IsListItem, Blank, AllPaths, LinesInOrder, LinesCovered, Outline,
      HeadingsIn;
    units := [];
    if text == "" {
      EmptyText(codeMode, digit);
      return;
    }
    var starts := LineStarts(text);
    var lines := Lines(text);
    var stack: seq<HeadingMark> := [];
    var i, n := 0, |lines|;
    Nothing(text, codeMode, digit);
    while i < n
      invariant i <= n
      invariant UnitizedUpTo(text, codeMode, digit, units, i)
      invariant stack == Outline(HeadingsIn(lines, units))
    {
      if Blank(lines[i]) {
        // Heading and fence lines are never blank (MarkedLinesAreNotBlank).
        SkipBlank(lines, units, i);
        i := i + 1;
        continue;
      }
      var j, blockType := BlockAt(lines, i, codeMode, digit);
      if blockType == Heading {
        stack := PushHeading(stack, MarkOf(lines[i]), HeadingsIn(lines, units));
      }
      var u := UnitOf(text, starts, i, j, blockType, Titles(stack));
      if !Blank(u.text) {
        HeadingsAppend(lines, units, u);
        AppendUnit(text, codeMode, digit, units, i, j, u);
        units := units + [u];
      }
      i := j;
    }
  }

  // ---------------------------------------------------------------- proofs of the loop

  lemma BodyIsNotBlank(text: string, i: nat, j: nat)
    requires i < j <= |Lines(text)| && !Blank(Lines(text)[i])
    ensures Offset(Lines(text), i) <= SpanEnd(text, j) <= |text|
    ensures !Blank(text[Offset(Lines(text), i)..SpanEnd(text, j)])
  {
    var ls := Lines(text);
    JoinLines(text);
    NonEmptyLineStarted(text, i);
    SpanBounds(text, i, j);
    LineSlice(ls, i);
    OffsetMonotone(ls, i, j);
    var m :| 0 <= m < |ls[i]| && !IsSpace(ls[i][m]);
    var body := text[Offset(ls, i)..SpanEnd(text, j)];
    assert body[m] == ls[i][m];
  }

  lemma EmptyText(codeMode: bool, digit: char -> bool)
    ensures Unitized("", codeMode, digit, [])
  {
  }

  lemma Nothing(text: string, codeMode: bool, digit: char -> bool)
    ensures UnitizedUpTo(text, codeMode, digit, [], 0)
    ensures Outline(HeadingsIn(Lines(text), [])) == []
  {
  }

  lemma SkipBlank(ls: seq<string>, units: seq<LogicalUnit>, i: nat)
    requires i < |ls| && Blank(ls[i])
    requires LinesCovered(ls, units, i) && LinesInOrder(units, i)
    ensures LinesCovered(ls, units, i + 1) && LinesInOrder(units, i + 1)
  {
  }

  lemma CoverUnit(ls: seq<string>, units: seq<LogicalUnit>, i: nat, u: LogicalUnit)
    requires LinesCovered(ls, units, i) && LinesInOrder(units, i)
    requires u.lineStart == i + 1 <= u.lineEnd <= |ls|
    ensures LinesCovered(ls, units + [u], u.lineEnd) && LinesInOrder(units + [u], u.lineEnd)
  {
    var all := units + [u];
    forall m | 0 <= m < u.lineEnd ensures InUnit(all, m) || Blank(ls[m]) {
      if m < i {
        assert InUnit(units, m) || Blank(ls[m]);
        if InUnit(units, m) {
          var k :| 0 <= k < |units| && units[k].lineStart <= m + 1 <= units[k].lineEnd;
          assert all[k] == units[k];
        }
      } else {
        assert all[|units|] == u;
      }
    }
  }

  lemma PathOfUnit(text: string, units: seq<LogicalUnit>, u: LogicalUnit)
    requires AllPaths(text, units)
    requires u.headingPath == Titles(Outline(HeadingsIn(Lines(text), units + [u])))
    ensures AllPaths(text, units + [u])
  {
    var all := units + [u];
    assert all[..|units| + 1] == all;
    forall k | 0 <= k < |all| ensures HasPath(text, all, k) {
      if k < |units| {
        assert HasPath(text, units, k);
        assert all[..k + 1] == units[..k + 1];
      }
    }
  }

  lemma AddToAll(text: string, codeMode: bool, digit: char -> bool, units: seq<LogicalUnit>, u: LogicalUnit)
    requires AllUnits(text, codeMode, digit, units) && IsUnit(text, codeMode, digit, u)
    ensures AllUnits(text, codeMode, digit, units + [u])
  {
    hide IsUnit;
  }

  lemma AppendUnit(
    text: string, codeMode: bool, digit: char -> bool, units: seq<LogicalUnit>, i: nat, j: nat, u: LogicalUnit)
    requires UnitizedUpTo(text, codeMode, digit, units, i)
    requires u.lineStart == i + 1 <= u.lineEnd == j <= |Lines(text)|
    requires IsBlock(Lines(text), codeMode, digit, i, j, u.blockType) && IsSpanOfLines(text, u, i, j)
    requires u.headingPath == Titles(Outline(HeadingsIn(Lines(text), units + [u])))
    ensures UnitizedUpTo(text, codeMode, digit, units + [u], j)
  {
    hide IsBlock, IsSpanOfLines, AllUnits, AllPaths, LinesCovered, LinesInOrder;
    CoverUnit(Lines(text), units, i, u);
    PathOfUnit(text, units, u);
    AddToAll(text, codeMode, digit, units, u);
  }
}
