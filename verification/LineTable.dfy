/** The table of line starts, the binary search over it, and spans of whole lines. */
module LineTable {
  import opened Text

  predicate EndsInNewline(t: string) {
    t != "" && t[|t| - 1] == '\n'
  }

  /** How many lines begin inside the text; a final empty line after the last newline does not. */
  function StartedLines(t: string): nat {
    if t == "" then 1 else 1 + NewlinesBefore(t, |t| - 1)
  }

  /** Entry `L` is the offset at which the 1-based line `L` begins; entry 0 is unused. */
  ghost predicate IsLineTable(t: string, starts: seq<nat>) {
    && |starts| == StartedLines(t) + 1
    && StartedLines(t) <= |Lines(t)|
    && starts[0] == 0
    && (forall k | 1 <= k < |starts| :: starts[k] == Offset(Lines(t), k - 1))
  }

  // ---------------------------------------------------------------- where lines lie

  /** Every offset lies in the line whose number is the count of newlines before it. */
  lemma {:induction false} Locate(t: string, off: nat)
    requires off <= |t|
    ensures var ls, k := Lines(t), NewlinesBefore(t, off);
            k < |ls| && Offset(ls, k) <= off <= Offset(ls, k) + |ls[k]|
    decreases off
  {
    assert Offset(Lines(t), 0) == 0;
    hide Lines, JoinWith, Offset;
    var ls := Lines(t);
    JoinLines(t);
    if off > 0 {
      Locate(t, off - 1);
      var k := NewlinesBefore(t, off - 1);
      LineSlice(ls, k);
      LinesAreNewlineFree(t);
      if off - 1 < Offset(ls, k) + |ls[k]| {
        assert t[off - 1] == ls[k][off - 1 - Offset(ls, k)];
        assert t[off - 1] in ls[k];
      } else {
        OffsetEnd(ls);
        OffsetStep(ls, k);
        NewlineBefore(ls, k + 1);
      }
    }
  }

  lemma LineCount(t: string)
    ensures |Lines(t)| == NewlinesBefore(t, |t|) + 1
  {
    var ls, k := Lines(t), NewlinesBefore(t, |t|);
    Locate(t, |t|);
    JoinLines(t);
    OffsetEnd(ls);
    if k + 1 < |ls| {
      OffsetMonotone(ls, k, |ls|);
      OffsetMonotone(ls, k + 1, |ls|);
      OffsetStep(ls, k);
    }
  }

  lemma StartedAtMost(t: string)
    ensures StartedLines(t) <= |Lines(t)|
  {
    LineCount(t);
    if t != "" {
      NewlinesMonotone(t, |t| - 1, |t|);
    }
  }

  lemma NewlineEndsLine(t: string, p: nat)
    requires p < |t| && t[p] == '\n'
    ensures var ls, k := Lines(t), NewlinesBefore(t, p);
            k + 1 < |ls| && Offset(ls, k + 1) == p + 1
  {
    hide Lines, Offset;
    var ls, k := Lines(t), NewlinesBefore(t, p + 1);
    Locate(t, p);
    Locate(t, p + 1);
    OffsetStep(ls, k - 1);
  }

  /** A line begins inside the text unless it is the empty line after a final newline. */
  lemma StartedLine(t: string, k: nat)
    requires 0 < k < |Lines(t)|
    ensures k < StartedLines(t) <==> Offset(Lines(t), k) < |t|
  {
    var ls := Lines(t);
    JoinLines(t);
    LinesAreNewlineFree(t);
    NewlinesInLine(ls, k, Offset(ls, k));
    NewlineBefore(ls, k);
    if Offset(ls, k) < |t| {
      NewlinesMonotone(t, Offset(ls, k), |t| - 1);
    }
  }

  lemma NonEmptyLineStarted(t: string, k: nat)
    requires k < |Lines(t)| && Lines(t)[k] != ""
    ensures k < StartedLines(t)
  {
    if k > 0 {
      StartedLine(t, k);
      JoinLines(t);
      LineSlice(Lines(t), k);
    }
  }

  // ---------------------------------------------------------------- the table

  method LineStarts(text: string) returns (starts: seq<nat>)
    ensures IsLineTable(text, starts)
  {
    starts := [0, 0];
    StartedAtMost(text);
    LineCount(text);
    for i := 0 to |text|
      invariant |starts| == 2 + (if text == "" then 0 else NewlinesBefore(text, if i < |text| then i else |text| - 1))
      invariant |starts| - 1 <= |Lines(text)|
      invariant starts[0] == 0
      invariant forall k | 1 <= k < |starts| :: starts[k] == Offset(Lines(text), k - 1)
    {
      if text[i] == '\n' && i + 1 < |text| {
        NewlineEndsLine(text, i);
        starts := starts + [i + 1];
      }
    }
  }

  /** `line` is the last entry, from 1 on, whose start does not exceed `offset`. */
  ghost predicate LastStartUpTo(starts: seq<nat>, offset: nat, line: nat) {
    && 1 <= line < |starts|
    && (forall k | 1 <= k <= line :: starts[k] <= offset)
    && (forall k | line < k < |starts| :: offset < starts[k])
  }

  method LineOf(starts: seq<nat>, offset: int) returns (line: nat)
    requires |starts| >= 2 && starts[1] == 0
    requires forall i, j | 1 <= i < j < |starts| :: starts[i] <= starts[j]
    ensures if offset < 0 then line == 1 else LastStartUpTo(starts, offset, line)
  {
    if offset < 0 {
      return 1;
    }
    var lo, hi, ans := 1, |starts| - 1, 1;
    while lo <= hi
      invariant 1 <= lo <= hi + 1 <= |starts|
      invariant 1 <= ans < |starts| && ans == (if lo == 1 then 1 else lo - 1)
      invariant forall k | 1 <= k < lo :: starts[k] <= offset
      invariant forall k | hi < k < |starts| :: offset < starts[k]
    {
      var mid := (lo + hi) / 2;
      if starts[mid] <= offset {
        ans := mid;
        lo := mid + 1;
      } else {
        hi := mid - 1;
      }
    }
    line := ans;
  }

  lemma TableIsSorted(t: string, starts: seq<nat>)
    requires IsLineTable(t, starts)
    ensures |starts| >= 2 && starts[1] == 0
    ensures forall i, j | 1 <= i < j < |starts| :: starts[i] <= starts[j]
  {
    forall i, j | 1 <= i < j < |starts| ensures starts[i] <= starts[j] {
      OffsetMonotone(Lines(t), i - 1, j - 1);
    }
  }

  /** Searching the table counts newlines. */
  lemma SearchCountsNewlines(t: string, starts: seq<nat>, off: nat, line: nat)
    requires IsLineTable(t, starts) && off < |t|
    requires LastStartUpTo(starts, off, line)
    ensures line == 1 + NewlinesBefore(t, off)
  {
    var ls, k := Lines(t), NewlinesBefore(t, off);
    Locate(t, off);
    if k > 0 {
      StartedLine(t, k);
    }
    assert starts[k + 1] == Offset(ls, k) <= off;
    if k + 1 < line {
      assert starts[k + 2] == Offset(ls, k + 1) <= off;
      OffsetStep(ls, k);
      assert false;
    }
  }

  // ---------------------------------------------------------------- spans of lines

  /** A span of whole lines leaves out its last newline, unless nothing begins after it. */
  function SpanEnd(text: string, line1: nat): int
    requires line1 <= |Lines(text)|
  {
    if line1 < StartedLines(text) then Offset(Lines(text), line1) - 1 else |text|
  }

  /** The character span and text of the 0-based lines `[line0, line1)`. */
  function SpanOf(text: string, starts: seq<nat>, line0: nat, line1: nat): (r: (Span, string))
    requires IsLineTable(text, starts) && line1 <= |Lines(text)|
    requires line0 < line1 ==> line0 + 1 < |starts|
    ensures text != "" && line0 < line1 ==>
              var ls := Lines(text);
              && r.0.lo == Offset(ls, line0) <= r.0.hi <= |text|
              && r.0.hi == SpanEnd(text, line1)
              && r.1 == text[r.0.lo..r.0.hi]
              && (!EndsInNewline(text) ==> r.1 == Join(ls[line0..line1]))
  {
    if text == "" || line0 >= line1 then (Span(0, 0), "")
    else
      var cs := starts[line0 + 1];
      var ce0 := if line1 + 1 < |starts| then starts[line1 + 1] else |text|;
      SpanBounds(text, line0, line1);
      var ce := if line1 + 1 < |starts| && ce0 > cs && text[ce0 - 1] == '\n' then ce0 - 1 else ce0;
      (Span(cs, ce), text[cs..ce])
  }

  lemma SpanBounds(t: string, line0: nat, line1: nat)
    requires line0 < line1 <= |Lines(t)| && line0 < StartedLines(t)
    ensures var ls := Lines(t);
            && Offset(ls, line0) < Offset(ls, line1) <= |t| + 1
            && Join(ls[line0..line1]) == t[Offset(ls, line0)..Offset(ls, line1) - 1]
            && (line1 < StartedLines(t) ==> Offset(ls, line1) <= |t| && t[Offset(ls, line1) - 1] == '\n')
            && (line1 >= StartedLines(t) ==>
                  if line1 == |ls| then Offset(ls, line1) == |t| + 1
                  else EndsInNewline(t) && Offset(ls, line1) == |t|)
  {
    var ls := Lines(t);
    JoinLines(t);
    JoinSlice(ls, line0, line1);
    OffsetEnd(ls);
    StartedAtMost(t);
    if line1 < |ls| {
      NewlineBefore(ls, line1);
      StartedLine(t, line1);
    }
  }
}
