/** What a unitized document guarantees: its units tile the text and are the only ones possible. */
module Segments {
  import opened Text
  import opened LineTable
  import opened Units

  lemma BlockStartsNonBlank(ls: seq<string>, codeMode: bool, digit: char -> bool, a: nat, b: nat, bt: BlockType)
    requires IsBlock(ls, codeMode, digit, a, b, bt)
    ensures !Blank(ls[a])
  {
    MarkedLinesAreNotBlank(ls[a]);
    if (codeMode || !IsFence(ls[a])) && (codeMode || !IsHeading(ls[a])) {
      assert !Breaks(codeMode, digit, !codeMode && IsListItem(digit, ls[a]), ls[a]);
    }
  }

  /** The span of lines `[a, b)` reaches to the end of each of its lines. */
  lemma SpanReaches(text: string, a: nat, b: nat, m: nat)
    requires a <= m < b <= |Lines(text)| && a < StartedLines(text)
    ensures Offset(Lines(text), a) <= Offset(Lines(text), m)
    ensures Offset(Lines(text), m) + |Lines(text)[m]| <= SpanEnd(text, b) <= |text|
  {
    var ls := Lines(text);
    JoinLines(text);
    SpanBounds(text, a, b);
    LineSlice(ls, m);
    OffsetMonotone(ls, m, b);
    if a < m {
      OffsetMonotone(ls, a, m);
    }
  }

  lemma UnitParts(text: string, codeMode: bool, digit: char -> bool, u: LogicalUnit)
    requires IsUnit(text, codeMode, digit, u)
    ensures 1 <= u.lineStart <= u.lineEnd <= |Lines(text)| && Lines(text)[u.lineStart - 1] != ""
    ensures u.charStart == Offset(Lines(text), u.lineStart - 1) <= u.charEnd <= |text|
    ensures u.charEnd == SpanEnd(text, u.lineEnd) && u.text == text[u.charStart..u.charEnd]
  {
    hide IsBlock, SpanEnd, StartedLines, Lines, Offset, JoinWith;
    BlockStartsNonBlank(Lines(text), codeMode, digit, u.lineStart - 1, u.lineEnd, u.blockType);
  }

  lemma UnitExtent(text: string, codeMode: bool, digit: char -> bool, u: LogicalUnit)
    requires IsUnit(text, codeMode, digit, u)
    ensures u.lineStart - 1 < StartedLines(text)
    ensures u.charStart < u.charEnd <= |text| && u.text == text[u.charStart..u.charEnd]
    ensures u.charStart == Offset(Lines(text), u.lineStart - 1) && u.charEnd == SpanEnd(text, u.lineEnd)
  {
    hide IsUnit, SpanEnd, StartedLines, Lines, Offset, JoinWith, Blank;
    UnitParts(text, codeMode, digit, u);
    var a := u.lineStart - 1;
    NonEmptyLineStarted(text, a);
    SpanReaches(text, a, u.lineEnd, a);
  }

  lemma UnitsInOrder(text: string, codeMode: bool, digit: char -> bool, units: seq<LogicalUnit>, i: nat, j: nat)
    requires Unitized(text, codeMode, digit, units) && i < j < |units|
    ensures units[i].charEnd <= units[j].charStart
  {
    hide IsUnit, AllPaths, LinesCovered;
    UnitExtent(text, codeMode, digit, units[i]);
    UnitExtent(text, codeMode, digit, units[j]);
    var b, a := units[i].lineEnd, units[j].lineStart - 1;
    assert b <= a;
    if b < a {
      OffsetMonotone(Lines(text), b, a);
    }
  }

  lemma LineOfChar(text: string, p: nat)
    requires p < |text| && !IsSpace(text[p])
    ensures var ls, m := Lines(text), NewlinesBefore(text, p);
            m < |ls| && !Blank(ls[m]) && Offset(ls, m) <= p < Offset(ls, m) + |ls[m]|
  {
    hide Lines, Offset, NewlinesBefore, JoinWith;
    var ls, m := Lines(text), NewlinesBefore(text, p);
    Locate(text, p);
    JoinLines(text);
    LineSlice(ls, m);
    OffsetEnd(ls);
    OffsetStep(ls, m);
    if m + 1 < |ls| {
      NewlineBefore(ls, m + 1);
    }
    assert p < Offset(ls, m) + |ls[m]|;
    assert ls[m][p - Offset(ls, m)] == text[p];
  }

  /** A character that is not white space lies in a line that is not blank, hence in a unit. */
  lemma CharInUnit(text: string, codeMode: bool, digit: char -> bool, units: seq<LogicalUnit>, p: nat)
    requires Unitized(text, codeMode, digit, units) && p < |text| && !IsSpace(text[p])
    ensures Covered(UnitSpans(units), p)
  {
    hide IsUnit, AllPaths, LinesInOrder, Lines, Offset, NewlinesBefore, SpanEnd, StartedLines, JoinWith, IsSpace, Blank;
    var ls, m := Lines(text), NewlinesBefore(text, p);
    LineOfChar(text, p);
    assert InUnit(units, m);
    var k :| 0 <= k < |units| && units[k].lineStart <= m + 1 <= units[k].lineEnd;
    var u := units[k];
    assert IsUnit(text, codeMode, digit, u);
    UnitExtent(text, codeMode, digit, u);
    LinesOfUnit(text, codeMode, digit, u);
    SpanReaches(text, u.lineStart - 1, u.lineEnd, m);
    assert UnitSpans(units)[k].lo <= p < UnitSpans(units)[k].hi;
  }

  lemma LinesOfUnit(text: string, codeMode: bool, digit: char -> bool, u: LogicalUnit)
    requires IsUnit(text, codeMode, digit, u)
    ensures 1 <= u.lineStart <= u.lineEnd <= |Lines(text)|
  {
  }

  /** The units tile the document: nothing but white space lies outside them. */
  lemma UnitsTile(text: string, codeMode: bool, digit: char -> bool, units: seq<LogicalUnit>)
    requires Unitized(text, codeMode, digit, units)
    ensures Tiles(text, UnitSpans(units), |text|)
    ensures forall k | 0 <= k < |units| ::
              units[k].charStart < units[k].charEnd <= |text|
                && units[k].text == text[units[k].charStart..units[k].charEnd]
  {
    hide IsUnit, AllPaths, LinesCovered, LinesInOrder;
    var spans := UnitSpans(units);
    forall k | 0 <= k < |units|
      ensures units[k].charStart < units[k].charEnd <= |text|
              && units[k].text == text[units[k].charStart..units[k].charEnd]
    {
      UnitExtent(text, codeMode, digit, units[k]);
    }
    forall i, j | 0 <= i < j < |spans| ensures spans[i].hi <= spans[j].lo {
      UnitsInOrder(text, codeMode, digit, units, i, j);
    }
    forall p | 0 <= p < |text| ensures Covered(spans, p) || IsSpace(text[p]) {
      if !IsSpace(text[p]) {
        CharInUnit(text, codeMode, digit, units, p);
      }
    }
  }

  /** Every line that is not blank lies in exactly one unit. */
  lemma UnitsPartitionLines(text: string, codeMode: bool, digit: char -> bool, units: seq<LogicalUnit>, m: nat)
    requires Unitized(text, codeMode, digit, units) && m < |Lines(text)|
    ensures !Blank(Lines(text)[m]) ==> InUnit(units, m)
    ensures forall i, j | 0 <= i < |units| && 0 <= j < |units| ::
              units[i].lineStart <= m + 1 <= units[i].lineEnd && units[j].lineStart <= m + 1 <= units[j].lineEnd ==>
                i == j
  {
    hide AllUnits, AllPaths;
  }

  /** The lines that are not blank. */
  function Written(ls: seq<string>): seq<string> {
    if ls == [] then []
    else Written(ls[..|ls| - 1]) + if Blank(ls[|ls| - 1]) then [] else [ls[|ls| - 1]]
  }

  lemma {:induction false} WrittenConcat(a: seq<string>, b: seq<string>)
    ensures Written(a + b) == Written(a) + Written(b)
  {
    hide Blank;
    if b == [] {
      assert a + b == a;
    } else {
      var n := |b| - 1;
      WrittenConcat(a, b[..n]);
      assert (a + b)[..|a + b| - 1] == a + b[..n];
    }
  }

  lemma {:induction false} NothingWritten(ls: seq<string>)
    requires forall m | 0 <= m < |ls| :: Blank(ls[m])
    ensures Written(ls) == []
  {
    if ls != [] {
      NothingWritten(ls[..|ls| - 1]);
    }
  }

  /** The non-blank lines of the units' texts, unit by unit. */
  function WrittenIn(units: seq<LogicalUnit>): seq<string> {
    if units == [] then [] else WrittenIn(units[..|units| - 1]) + Written(Lines(units[|units| - 1].text))
  }

  function LastLine(units: seq<LogicalUnit>, n: nat): nat
    requires n <= |units|
  {
    if n == 0 then 0 else units[n - 1].lineEnd
  }

  lemma UnitText(text: string, codeMode: bool, digit: char -> bool, units: seq<LogicalUnit>, n: nat)
    requires Unitized(text, codeMode, digit, units) && n < |units| && !EndsInNewline(text)
    ensures var u := units[n];
            && 1 <= u.lineStart <= u.lineEnd <= |Lines(text)|
            && Lines(u.text) == Lines(text)[u.lineStart - 1..u.lineEnd]
  {
    hide AllPaths, LinesCovered, LinesInOrder, IsBlock, Lines, SpanEnd, EndsInNewline;
    var u := units[n];
    assert IsUnit(text, codeMode, digit, u);
    LinesAreNewlineFree(text);
    LinesJoin(Lines(text)[u.lineStart - 1..u.lineEnd]);
  }

  /** The lines from the end of one unit to the beginning of the next are blank. */
  lemma BetweenUnits(text: string, codeMode: bool, digit: char -> bool, units: seq<LogicalUnit>, n: nat, m: nat)
    requires Unitized(text, codeMode, digit, units) && n <= |units| && LastLine(units, n) <= m < |Lines(text)|
    requires n < |units| ==> m < units[n].lineStart - 1
    ensures Blank(Lines(text)[m])
  {
    hide AllUnits, AllPaths, Lines, Blank;
    forall k | 0 <= k < |units| ensures !(units[k].lineStart <= m + 1 <= units[k].lineEnd) {
      if k < n {
        assert units[k].lineEnd <= LastLine(units, n);
      } else {
        assert units[n].lineStart <= units[k].lineStart;
      }
    }
  }

  /**
   * Reading the units one after the other gives exactly the non-blank lines of the document, each
   * once and in order.
   */
  lemma UnitsKeepLines(text: string, codeMode: bool, digit: char -> bool, units: seq<LogicalUnit>)
    requires Unitized(text, codeMode, digit, units) && !EndsInNewline(text)
    ensures WrittenIn(units) == Written(Lines(text))
  {
    hide Unitized, Lines, Written;
    var ls, n := Lines(text), |units|;
    FirstUnitsKeepLines(text, codeMode, digit, units, n);
    var last := LastLine(units, n);
    forall m | 0 <= m < |ls[last..]| ensures Blank(ls[last..][m]) {
      BetweenUnits(text, codeMode, digit, units, n, last + m);
    }
    NothingWritten(ls[last..]);
    WrittenConcat(ls[..last], ls[last..]);
    assert ls[..last] + ls[last..] == ls && units[..n] == units;
  }

  lemma {:induction false} FirstUnitsKeepLines(
    text: string, codeMode: bool, digit: char -> bool, units: seq<LogicalUnit>, n: nat)
    requires Unitized(text, codeMode, digit, units) && !EndsInNewline(text) && n <= |units|
    ensures LastLine(units, n) <= |Lines(text)|
    ensures WrittenIn(units[..n]) == Written(Lines(text)[..LastLine(units, n)])
  {
    hide Unitized, Lines, Blank, Written, WrittenIn;
    if n == 0 {
      NothingWritten([]);
      NoUnits();
      assert Lines(text)[..0] == [] && units[..0] == [];
    } else {
      var ls, u, last := Lines(text), units[n - 1], LastLine(units, n - 1);
      FirstUnitsKeepLines(text, codeMode, digit, units, n - 1);
      UnitText(text, codeMode, digit, units, n - 1);
      UnitAfter(text, codeMode, digit, units, n - 1);
      var gap := ls[last..u.lineStart - 1];
      forall m | 0 <= m < |gap| ensures Blank(gap[m]) {
        BetweenUnits(text, codeMode, digit, units, n - 1, last + m);
      }
      NothingWritten(gap);
      ThreeParts(ls, last, u.lineStart - 1, u.lineEnd);
      OneMoreUnit(units, n);
    }
  }

  lemma NoUnits()
    ensures WrittenIn([]) == []
  {
  }

  lemma OneMoreUnit(units: seq<LogicalUnit>, n: nat)
    requires 0 < n <= |units|
    ensures WrittenIn(units[..n]) == WrittenIn(units[..n - 1]) + Written(Lines(units[n - 1].text))
  {
    hide Written, Lines;
    assert units[..n][..n - 1] == units[..n - 1];
  }

  lemma ThreeParts(ls: seq<string>, a: nat, b: nat, c: nat)
    requires a <= b <= c <= |ls|
    ensures Written(ls[..c]) == Written(ls[..a]) + Written(ls[a..b]) + Written(ls[b..c])
  {
    hide Written;
    WrittenConcat(ls[..a], ls[a..b]);
    WrittenConcat(ls[..b], ls[b..c]);
    assert ls[..a] + ls[a..b] == ls[..b] && ls[..b] + ls[b..c] == ls[..c];
  }

  lemma UnitAfter(text: string, codeMode: bool, digit: char -> bool, units: seq<LogicalUnit>, n: nat)
    requires Unitized(text, codeMode, digit, units) && n < |units|
    ensures LastLine(units, n) <= units[n].lineStart - 1
  {
    hide AllPaths, LinesCovered, IsBlock, IsSpanOfLines;
    assert IsUnit(text, codeMode, digit, units[n]);
    assert n > 0 ==> units[n - 1].lineEnd < units[n].lineStart;
  }

  /** A heading line is a heading unit of its own unless it lies inside a fence. */
  lemma HeadingLinesAreUnits(text: string, digit: char -> bool, units: seq<LogicalUnit>, m: nat)
    requires Unitized(text, false, digit, units) && m < |Lines(text)| && IsHeading(Lines(text)[m])
    ensures exists k | 0 <= k < |units| ::
              && units[k].lineStart <= m + 1 <= units[k].lineEnd
              && (units[k].blockType == CodeFence || (units[k].blockType == Heading && units[k].lineStart == m + 1))
  {
    hide AllPaths, LinesInOrder, IsHeading, IsListItem, Blank;
    var ls := Lines(text);
    MarkedLinesAreNotBlank(ls[m]);
    assert InUnit(units, m);
    var k :| 0 <= k < |units| && units[k].lineStart <= m + 1 <= units[k].lineEnd;
    var u := units[k];
    assert IsUnit(text, false, digit, u);
    assert Breaks(false, digit, IsListItem(digit, ls[u.lineStart - 1]), ls[m]);
  }

  // ---------------------------------------------------------------- determinism

  /** Its first line fixes how far a block reaches and what it is. */
  lemma BlockIsUnique(ls: seq<string>, codeMode: bool, digit: char -> bool, a: nat,
                      b: nat, bt: BlockType, b': nat, bt': BlockType)
    requires IsBlock(ls, codeMode, digit, a, b, bt) && IsBlock(ls, codeMode, digit, a, b', bt')
    ensures b == b' && bt == bt'
  {
    if b < b' {
      BlockIsNotLonger(ls, codeMode, digit, a, b, bt, b', bt');
    } else if b' < b {
      BlockIsNotLonger(ls, codeMode, digit, a, b', bt', b, bt);
    }
  }

  lemma BlockIsNotLonger(ls: seq<string>, codeMode: bool, digit: char -> bool, a: nat,
                         b: nat, bt: BlockType, b': nat, bt': BlockType)
    requires IsBlock(ls, codeMode, digit, a, b, bt) && IsBlock(ls, codeMode, digit, a, b', bt')
    ensures b' <= b
  {
    hide IsListItem, Blank;
    if !codeMode && IsFence(ls[a]) {
      var last := ls[b - 1];
    } else if codeMode || !IsHeading(ls[a]) {
      assert b < |ls| ==> Breaks(codeMode, digit, !codeMode && IsListItem(digit, ls[a]), ls[b]);
    }
  }

  /** Two unitizations that agree on their first `k` units begin the next one at the same line. */
  lemma StartsNotEarlier(text: string, codeMode: bool, digit: char -> bool,
                         us: seq<LogicalUnit>, vs: seq<LogicalUnit>, k: nat)
    requires Unitized(text, codeMode, digit, us) && Unitized(text, codeMode, digit, vs)
    requires k < |us| && k <= |vs| && us[..k] == vs[..k]
    ensures k < |vs| && vs[k].lineStart <= us[k].lineStart
  {
    hide AllPaths, IsBlock, IsSpanOfLines;
    var m := us[k].lineStart - 1;
    assert IsUnit(text, codeMode, digit, us[k]);
    BlockStartsNonBlank(Lines(text), codeMode, digit, m, us[k].lineEnd, us[k].blockType);
    forall r | 0 <= r < k ensures vs[r].lineEnd < us[k].lineStart {
      assert vs[r] == vs[..k][r] == us[..k][r] == us[r];
    }
    assert InUnit(vs, m);
    var q :| 0 <= q < |vs| && vs[q].lineStart <= m + 1 <= vs[q].lineEnd;
    if q < k {
      assert false;
    }
    if k < q {
      assert vs[k].lineEnd < vs[q].lineStart;
    }
  }

  lemma {:induction false} UnitsAgree(text: string, codeMode: bool, digit: char -> bool,
                                      us: seq<LogicalUnit>, vs: seq<LogicalUnit>, k: nat)
    requires Unitized(text, codeMode, digit, us) && Unitized(text, codeMode, digit, vs)
    requires k <= |us|
    ensures k <= |vs| && us[..k] == vs[..k]
  {
    hide AllUnits, AllPaths, LinesCovered, LinesInOrder;
    if k > 0 {
      var i := k - 1;
      UnitsAgree(text, codeMode, digit, us, vs, i);
      StartsNotEarlier(text, codeMode, digit, us, vs, i);
      StartsNotEarlier(text, codeMode, digit, vs, us, i);
      SameUnit(text, codeMode, digit, us, vs, i);
      assert us[..k] == us[..i] + [us[i]];
      assert vs[..k] == vs[..i] + [vs[i]];
    }
  }

  lemma SameBlock(text: string, codeMode: bool, digit: char -> bool, u: LogicalUnit, v: LogicalUnit)
    requires IsUnit(text, codeMode, digit, u) && IsUnit(text, codeMode, digit, v) && u.lineStart == v.lineStart
    ensures 1 <= u.lineStart <= |Lines(text)|
    ensures u == v.(headingPath := u.headingPath)
  {
    BlockIsUnique(Lines(text), codeMode, digit, u.lineStart - 1, u.lineEnd, u.blockType, v.lineEnd, v.blockType);
    hide IsBlock;
  }

  lemma SamePathAfter(text: string, front: seq<LogicalUnit>, u: LogicalUnit, v: LogicalUnit)
    requires u.headingPath == Titles(Outline(HeadingsIn(Lines(text), front + [u])))
    requires v.headingPath == Titles(Outline(HeadingsIn(Lines(text), front + [v])))
    requires 1 <= u.lineStart <= |Lines(text)| && u == v.(headingPath := u.headingPath)
    ensures u.headingPath == v.headingPath
  {
    hide Outline, HeadingsIn, MarkOf, Titles;
    HeadingsAppend(Lines(text), front, u);
    HeadingsAppend(Lines(text), front, v);
  }

  lemma SamePath(text: string, us: seq<LogicalUnit>, vs: seq<LogicalUnit>, i: nat)
    requires AllPaths(text, us) && AllPaths(text, vs)
    requires i < |us| && i < |vs| && us[..i] == vs[..i]
    requires 1 <= us[i].lineStart <= |Lines(text)| && us[i] == vs[i].(headingPath := us[i].headingPath)
    ensures us[i].headingPath == vs[i].headingPath
  {
    hide Outline, HeadingsIn, Titles;
    assert us[..i + 1] == us[..i] + [us[i]] && vs[..i + 1] == us[..i] + [vs[i]];
    assert HasPath(text, us, i) && HasPath(text, vs, i);
    SamePathAfter(text, us[..i], us[i], vs[i]);
  }

  lemma SameUnit(text: string, codeMode: bool, digit: char -> bool,
                 us: seq<LogicalUnit>, vs: seq<LogicalUnit>, i: nat)
    requires Unitized(text, codeMode, digit, us) && Unitized(text, codeMode, digit, vs)
    requires i < |us| && i < |vs| && us[..i] == vs[..i] && us[i].lineStart == vs[i].lineStart
    ensures us[i] == vs[i]
  {
    hide IsUnit, LinesCovered, LinesInOrder, AllPaths;
    SameBlock(text, codeMode, digit, us[i], vs[i]);
    SamePath(text, us, vs, i);
  }

  /** The segmentation admits exactly one sequence of units, so unitizing is deterministic. */
  lemma UnitsAreUnique(text: string, codeMode: bool, digit: char -> bool, us: seq<LogicalUnit>, vs: seq<LogicalUnit>)
    requires Unitized(text, codeMode, digit, us) && Unitized(text, codeMode, digit, vs)
    ensures us == vs
  {
    UnitsAgree(text, codeMode, digit, us, vs, |us|);
    UnitsAgree(text, codeMode, digit, vs, us, |vs|);
    assert us[..|us|] == us && vs[..|us|] == vs;
  }

  /** The headings among the units grow by the last unit's own, if it is one. */
  lemma HeadingsAppend(ls: seq<string>, units: seq<LogicalUnit>, u: LogicalUnit)
    requires 1 <= u.lineStart <= |ls|
    ensures HeadingsIn(ls, units + [u]) ==
            if u.blockType == Heading then HeadingsIn(ls, units) + [MarkOf(ls[u.lineStart - 1])]
            else HeadingsIn(ls, units)
  {
    var all := units + [u];
    assert all[..|all| - 1] == units && all[|all| - 1] == u;
    assert all != [];
  }
}
