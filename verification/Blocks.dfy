/** Where units begin and end, line by line, and what makes a line a list item. */
module Blocks {
  import opened Text
  import opened Units

  // ---------------------------------------------------------------- list items

  /** From position `k` on the line is a bullet or a number with a full stop, followed by white space. */
  ghost predicate ItemAt(digit: char -> bool, line: string, k: nat) {
    && BlankIn(line, 0, if k <= |line| then k else |line|)
    && ((k + 2 <= |line| && (line[k] == '-' || line[k] == '*' || line[k] == '+') && IsSpace(line[k + 1]))
        || exists d: nat :: NumberAt(digit, line, k, d))
  }

  ghost predicate NumberAt(digit: char -> bool, line: string, k: nat, d: nat) {
    && 1 <= d && k + d + 2 <= |line|
    && (forall i | k <= i < k + d :: digit(line[i]))
    && line[k + d] == '.' && IsSpace(line[k + d + 1])
  }

  lemma {:induction false} FirstVisible(line: string) returns (k: nat)
    ensures k <= |line| && BlankIn(line, 0, k) && LStrip(line) == line[k..]
    ensures k < |line| ==> !IsSpace(line[k])
  {
    if line != "" && IsSpace(line[0]) {
      k := FirstVisible(line[1..]);
      assert line[1..][k..] == line[k + 1..];
      assert forall i | 0 <= i < k :: line[1..][i] == line[i + 1];
      forall i | 0 <= i < k + 1 ensures IsSpace(line[i]) {
        if i > 0 { assert line[i] == line[1..][i - 1]; }
      }
      k := k + 1;
    } else {
      k := 0;
    }
  }

  /** The list test is the regular expression, for digits that are neither white space nor a full stop. */
  lemma ListItemTest(digit: char -> bool, line: string)
    requires !digit('.') && forall c | IsSpace(c) :: !digit(c)
    ensures IsListItem(digit, line) <==> exists k: nat :: ItemAt(digit, line, k)
  {
    hide LStrip;
    var k := FirstVisible(line);
    var s := LStrip(line);
    var d := LeadingDigits(digit, s);
    assert forall i | 0 <= i < |s| :: s[i] == line[k + i];
    if IsListItem(digit, line) {
      if d >= 1 && |s| >= d + 2 && s[d] == '.' && IsSpace(s[d + 1]) {
        assert forall i | k <= i < k + d :: line[i] == s[i - k];
        assert NumberAt(digit, line, k, d);
      }
      assert ItemAt(digit, line, k);
    }
    if exists j: nat :: ItemAt(digit, line, j) {
      var j: nat :| ItemAt(digit, line, j);
      ItemIsVisible(digit, line, j, k);
      if exists e: nat :: NumberAt(digit, line, j, e) {
        var e: nat :| NumberAt(digit, line, j, e);
        assert forall i | 0 <= i < e :: digit(s[i]) by { assert forall i | 0 <= i < e :: s[i] == line[j + i]; }
        assert s[e] == line[k + e] == '.';
        assert d == e;
        assert s[d + 1] == line[k + d + 1];
      } else {
        assert s[0] == line[k] && s[1] == line[k + 1];
      }
    }
  }

  lemma ItemIsVisible(digit: char -> bool, line: string, j: nat, k: nat)
    requires ItemAt(digit, line, j) && forall c | IsSpace(c) :: !digit(c)
    requires k <= |line| && BlankIn(line, 0, k) && (k < |line| ==> !IsSpace(line[k]))
    ensures j == k
  {
    if exists e: nat :: NumberAt(digit, line, j, e) {
      var e: nat :| NumberAt(digit, line, j, e);
      assert digit(line[j]);
    }
    assert j < |line| && !IsSpace(line[j]);
  }

  // ---------------------------------------------------------------- units

  /** The type of a unit, by its first line. */
  lemma TypeByFirstLine(text: string, codeMode: bool, digit: char -> bool, u: LogicalUnit)
    requires IsUnit(text, codeMode, digit, u)
    ensures var first := Lines(text)[u.lineStart - 1];
            && (u.blockType == Code <==> codeMode)
            && (u.blockType == CodeFence <==> !codeMode && "```" <= first)
            && (u.blockType == Heading <==> !codeMode && !("```" <= first) && IsHeading(first))
            && (u.blockType == List <==>
                  !codeMode && !("```" <= first) && !IsHeading(first) && IsListItem(digit, first))
            && (u.blockType == Paragraph <==>
                  !codeMode && !("```" <= first) && !IsHeading(first) && !IsListItem(digit, first))
  {
    hide Lines, IsHeading, IsListItem, IsSpanOfLines, Breaks;
  }

  /**
   * When a unit that holds line `m` (0-based) holds the next one, too: a heading never, a fence up to
   * its closing line, code up to a blank line, a paragraph up to a blank line, a fence, a heading or a
   * list item, and a list as long as there are items and indented lines.
   */
  lemma UnitGoesOn(text: string, codeMode: bool, digit: char -> bool, u: LogicalUnit, m: nat)
    requires IsUnit(text, codeMode, digit, u) && u.lineStart <= m + 1 <= u.lineEnd && m + 1 < |Lines(text)|
    ensures var line, next := Lines(text)[m], Lines(text)[m + 1];
            m + 2 <= u.lineEnd <==>
              match u.blockType {
                case Heading => false
                case CodeFence => m + 1 == u.lineStart || !("```" <= line)
                case Code => !Blank(next)
                case Paragraph => !Blank(next) && !("```" <= next) && !IsHeading(next) && !IsListItem(digit, next)
                case List =>
                  && !Blank(next) && !("```" <= next) && !IsHeading(next)
                  && (IsListItem(digit, next) || " " <= next || "\t" <= next)
                case _ => false
              }
  {
    hide Lines, IsHeading, IsListItem, Blank, IsSpanOfLines;
    var ls, a, b := Lines(text), u.lineStart - 1, u.lineEnd;
    assert IsBlock(ls, codeMode, digit, a, b, u.blockType);
    if u.blockType == CodeFence {
      FenceGoesOn(ls, codeMode, digit, a, b, m);
    }
  }

  lemma FenceGoesOn(ls: seq<string>, codeMode: bool, digit: char -> bool, a: nat, b: nat, m: nat)
    requires IsBlock(ls, codeMode, digit, a, b, CodeFence) && a <= m < b && m + 1 < |ls|
    ensures m + 1 < b <==> m == a || !("```" <= ls[m])
  {
    hide IsHeading, IsListItem, Blank, Breaks;
  }
}
