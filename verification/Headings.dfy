/** What heading lines say, and how heading paths follow from them: every path is its parent's path and a title. */
module Headings {
  import opened Text
  import opened Units
  import opened HeadingStack

  // ---------------------------------------------------------------- heading lines

  function Hashes(n: nat): string {
    seq(n, _ => '#')
  }

  /** Begins and ends with a visible character. */
  predicate IsTrimmed(t: string) {
    t != "" && !IsSpace(t[0]) && !IsSpace(t[|t| - 1])
  }

  /** The line is `n` hashes, white space, the title, and perhaps white space. */
  ghost predicate Says(line: string, n: nat, title: string) {
    exists pad, tail ::
      && line == Hashes(n) + pad + title + tail
      && 1 <= n <= 6 && pad != "" && Blank(pad) && IsTrimmed(title) && Blank(tail)
  }

  lemma {:induction false} LStripPad(pad: string, rest: string)
    requires Blank(pad) && rest != "" && !IsSpace(rest[0])
    ensures LStrip(pad + rest) == rest
  {
    if pad == "" {
      assert pad + rest == rest;
    } else {
      assert (pad + rest)[1..] == pad[1..] + rest;
      LStripPad(pad[1..], rest);
    }
  }

  lemma {:induction false} RStripTail(s: string, tail: string)
    requires Blank(tail) && s != "" && !IsSpace(s[|s| - 1])
    ensures RStrip(s + tail) == s
  {
    if tail == "" {
      assert s + tail == s;
    } else {
      var n := |tail| - 1;
      assert (s + tail)[..|s + tail| - 1] == s + tail[..n];
      RStripTail(s, tail[..n]);
    }
  }

  /** Such a line is a heading of that level and title. */
  lemma HeadingMarks(line: string, n: nat, title: string)
    requires Says(line, n, title)
    ensures IsHeading(line) && MarkOf(line) == HeadingMark(n, title)
  {
    var pad, tail :| && line == Hashes(n) + pad + title + tail
                     && pad != "" && Blank(pad) && IsTrimmed(title) && Blank(tail);
    hide LStrip, RStrip;
    assert line[n] == pad[0] && IsSpace(pad[0]);
    assert forall k | 0 <= k < n :: line[k] == Hashes(n)[k] == '#';
    assert LeadingHashes(line) == n;
    assert line[n..] == pad + (title + tail);
    LStripPad(pad, title + tail);
    RStripTail(title, tail);
  }

  /** The heading test is the regular expression: one to six hashes, white space, and one more character. */
  lemma HeadingTest(line: string)
    ensures IsHeading(line) <==>
              exists n | 1 <= n <= 6 ::
                n + 2 <= |line| && (forall k | 0 <= k < n :: line[k] == '#') && IsSpace(line[n])
  {
    if exists n | 1 <= n <= 6 :: n + 2 <= |line| && (forall k | 0 <= k < n :: line[k] == '#') && IsSpace(line[n]) {
      var n :| 1 <= n <= 6 && n + 2 <= |line| && (forall k | 0 <= k < n :: line[k] == '#') && IsSpace(line[n]);
      assert LeadingHashes(line) == n;
    }
  }

  // ---------------------------------------------------------------- the outline as units pass by

  /** The headings that are open before unit `k`. */
  ghost function OpenBefore(ls: seq<string>, units: seq<LogicalUnit>, k: nat): seq<HeadingMark>
    requires k <= |units|
  {
    Outline(HeadingsIn(ls, units[..k]))
  }

  predicate IsHeadingUnit(ls: seq<string>, u: LogicalUnit) {
    u.blockType == Heading && 1 <= u.lineStart <= |ls|
  }

  function LevelOf(ls: seq<string>, u: LogicalUnit): nat
    requires IsHeadingUnit(ls, u)
  {
    LeadingHashes(ls[u.lineStart - 1])
  }

  lemma OpenAfter(ls: seq<string>, units: seq<LogicalUnit>, k: nat)
    requires k < |units|
    ensures OpenBefore(ls, units, k + 1) ==
              if IsHeadingUnit(ls, units[k])
              then Below(OpenBefore(ls, units, k), LevelOf(ls, units[k])) + [MarkOf(ls[units[k].lineStart - 1])]
              else OpenBefore(ls, units, k)
  {
    assert units[..k + 1][..k] == units[..k];
    var hs := HeadingsIn(ls, units[..k]);
    if IsHeadingUnit(ls, units[k]) {
      OutlineStep(hs, MarkOf(ls[units[k].lineStart - 1]));
    } else {
      assert hs + [] == hs;
    }
  }

  lemma {:induction false} BelowTwice(hs: seq<HeadingMark>, high: nat, low: nat)
    requires low <= high
    ensures Below(Below(hs, high), low) == Below(hs, low)
  {
    if hs != [] {
      var front, h := hs[..|hs| - 1], hs[|hs| - 1];
      assert hs == front + [h];
      BelowTwice(front, high, low);
      BelowSnoc(front, h, high);
      BelowSnoc(front, h, low);
      BelowSnoc(Below(front, high), h, low);
    }
  }

  lemma BelowSnoc(hs: seq<HeadingMark>, h: HeadingMark, level: nat)
    ensures Below(hs + [h], level) == if h.level < level then Below(hs, level) + [h] else Below(hs, level)
  {
    assert (hs + [h])[..|hs|] == hs;
    assert Below(hs, level) + [] == Below(hs, level);
  }

  /** Headings of a level or deeper do not change what is open below that level. */
  lemma {:induction false} BelowStays(ls: seq<string>, units: seq<LogicalUnit>, i: nat, j: nat, level: nat)
    requires i <= j <= |units|
    requires forall k | i <= k < j && IsHeadingUnit(ls, units[k]) :: LevelOf(ls, units[k]) >= level
    ensures Below(OpenBefore(ls, units, j), level) == Below(OpenBefore(ls, units, i), level)
    decreases j - i
  {
    hide OpenBefore, Below;
    if i < j {
      BelowStays(ls, units, i, j - 1, level);
      OpenAfter(ls, units, j - 1);
      if IsHeadingUnit(ls, units[j - 1]) {
        var open, l := OpenBefore(ls, units, j - 1), LevelOf(ls, units[j - 1]);
        BelowSnoc(Below(open, l), MarkOf(ls[units[j - 1].lineStart - 1]), level);
        BelowTwice(open, l, level);
      }
    }
  }

  /** A unit's path is the titles of what is open after it. */
  lemma PathIsOpen(text: string, codeMode: bool, digit: char -> bool, units: seq<LogicalUnit>, k: nat)
    requires Unitized(text, codeMode, digit, units) && k < |units|
    ensures units[k].headingPath == Titles(OpenBefore(Lines(text), units, k + 1))
    ensures units[k].blockType == Heading ==> IsHeadingUnit(Lines(text), units[k])
  {
    hide LinesCovered, LinesInOrder, IsBlock, IsSpanOfLines, Outline, HeadingsIn;
    assert IsUnit(text, codeMode, digit, units[k]) && HasPath(text, units, k);
  }

  lemma TitlesSnoc(hs: seq<HeadingMark>, h: HeadingMark)
    ensures Titles(hs + [h]) == Titles(hs) + [h.title]
  {
  }

  lemma AfterHeading(ls: seq<string>, units: seq<LogicalUnit>, i: nat, level: nat)
    requires i < |units| && IsHeadingUnit(ls, units[i]) && LevelOf(ls, units[i]) < level
    ensures Below(OpenBefore(ls, units, i + 1), level) == OpenBefore(ls, units, i + 1)
  {
    hide HeadingsIn;
    var open := OpenBefore(ls, units, i + 1);
    OutlineIncreases(HeadingsIn(ls, units[..i + 1]));
    OpenAfter(ls, units, i);
    assert open[|open| - 1].level == LevelOf(ls, units[i]);
    AllBelow(open, level);
  }

  // ---------------------------------------------------------------- paths

  /**
   * The path of a heading is the path of its parent and its own title. Its parent is the last heading
   * before it with fewer hashes.
   */
  lemma ParentPath(
    text: string, codeMode: bool, digit: char -> bool, units: seq<LogicalUnit>, i: nat, j: nat, title: string)
    requires Unitized(text, codeMode, digit, units) && i < j < |units|
    requires units[i].blockType == Heading && units[j].blockType == Heading
    requires forall k | i <= k <= j && units[k].blockType == Heading :: IsHeadingUnit(Lines(text), units[k])
    requires var n := LevelOf(Lines(text), units[j]);
             && Says(Lines(text)[units[j].lineStart - 1], n, title) && LevelOf(Lines(text), units[i]) < n
             && forall k | i < k < j && IsHeadingUnit(Lines(text), units[k]) :: LevelOf(Lines(text), units[k]) >= n
    ensures units[j].headingPath == units[i].headingPath + [title]
  {
    hide Unitized, Lines, OpenBefore, Below, Says;
    var ls, n := Lines(text), LevelOf(Lines(text), units[j]);
    PathIsOpen(text, codeMode, digit, units, i);
    PathIsOpen(text, codeMode, digit, units, j);
    BelowStays(ls, units, i + 1, j, n);
    AfterHeading(ls, units, i, n);
    OpenAfter(ls, units, j);
    HeadingMarks(ls[units[j].lineStart - 1], n, title);
    TitlesSnoc(OpenBefore(ls, units, i + 1), MarkOf(ls[units[j].lineStart - 1]));
  }

  /** A heading with no heading of fewer hashes before it begins a path. */
  lemma RootPath(text: string, codeMode: bool, digit: char -> bool, units: seq<LogicalUnit>, j: nat, title: string)
    requires Unitized(text, codeMode, digit, units) && j < |units| && IsHeadingUnit(Lines(text), units[j])
    requires var n := LevelOf(Lines(text), units[j]);
             && Says(Lines(text)[units[j].lineStart - 1], n, title)
             && forall k | 0 <= k < j && IsHeadingUnit(Lines(text), units[k]) :: LevelOf(Lines(text), units[k]) >= n
    ensures units[j].headingPath == [title]
  {
    hide Unitized, Lines, OpenBefore, Below, Says;
    var ls, n := Lines(text), LevelOf(Lines(text), units[j]);
    PathIsOpen(text, codeMode, digit, units, j);
    BelowStays(ls, units, 0, j, n);
    NothingOpen(ls, units, n);
    OpenAfter(ls, units, j);
    HeadingMarks(ls[units[j].lineStart - 1], n, title);
    TitlesSnoc([], MarkOf(ls[units[j].lineStart - 1]));
  }

  lemma NothingOpen(ls: seq<string>, units: seq<LogicalUnit>, level: nat)
    ensures OpenBefore(ls, units, 0) == [] && Below([], level) == [] && Titles([]) == []
  {
  }

  /** Any other unit has the path of the last heading before it, or none. */
  lemma BodyPath(text: string, codeMode: bool, digit: char -> bool, units: seq<LogicalUnit>, i: nat, j: nat)
    requires Unitized(text, codeMode, digit, units) && i <= j < |units|
    requires forall k | i <= k <= j :: units[k].blockType != Heading
    ensures units[j].headingPath == if i == 0 then [] else units[i - 1].headingPath
    decreases j - i
  {
    hide Unitized, OpenBefore, Lines;
    PathIsOpen(text, codeMode, digit, units, j);
    OpenAfter(Lines(text), units, j);
    if i < j {
      BodyPath(text, codeMode, digit, units, i, j - 1);
      PathIsOpen(text, codeMode, digit, units, j - 1);
    } else if i > 0 {
      PathIsOpen(text, codeMode, digit, units, i - 1);
    } else {
      NothingOpen(Lines(text), units, 0);
    }
  }

  /** A heading with more hashes than the heading just before it extends that heading's path by its title. */
  lemma NestedHeading(
    text: string, codeMode: bool, digit: char -> bool, units: seq<LogicalUnit>, i: nat, j: nat, title: string)
    requires Unitized(text, codeMode, digit, units) && i < j < |units|
    requires IsHeadingUnit(Lines(text), units[i]) && IsHeadingUnit(Lines(text), units[j])
    requires forall k | i < k < j :: units[k].blockType != Heading
    requires Says(Lines(text)[units[j].lineStart - 1], LevelOf(Lines(text), units[j]), title)
    requires LevelOf(Lines(text), units[i]) < LevelOf(Lines(text), units[j])
    ensures units[j].headingPath == units[i].headingPath + [title]
  {
    hide Unitized, Lines, Says;
    ParentPath(text, codeMode, digit, units, i, j, title);
  }

  lemma {:induction false} BelowIsPrefix(hs: seq<HeadingMark>, level: nat) returns (m: nat)
    requires LevelsIncrease(hs)
    ensures m <= |hs| && Below(hs, level) == hs[..m]
    ensures hs != [] && hs[|hs| - 1].level >= level ==> m < |hs|
  {
    if hs == [] {
      m := 0;
    } else if hs[|hs| - 1].level < level {
      AllBelow(hs, level);
      m := |hs|;
    } else {
      var front, h := hs[..|hs| - 1], hs[|hs| - 1];
      assert hs == front + [h];
      m := BelowIsPrefix(front, level);
      BelowSnoc(front, h, level);
      assert front[..m] == hs[..m];
    }
  }

  /** With as many hashes or fewer it closes that heading: its path goes on from a proper part of the other's path. */
  lemma ClosingHeading(
    text: string, codeMode: bool, digit: char -> bool, units: seq<LogicalUnit>, i: nat, j: nat, title: string)
    returns (m: nat)
    requires Unitized(text, codeMode, digit, units) && i < j < |units|
    requires IsHeadingUnit(Lines(text), units[i]) && IsHeadingUnit(Lines(text), units[j])
    requires forall k | i < k < j :: units[k].blockType != Heading
    requires Says(Lines(text)[units[j].lineStart - 1], LevelOf(Lines(text), units[j]), title)
    requires LevelOf(Lines(text), units[i]) >= LevelOf(Lines(text), units[j])
    ensures m < |units[i].headingPath| && units[j].headingPath == units[i].headingPath[..m] + [title]
  {
    hide Unitized, Lines, Below, Says, HeadingsIn, Outline;
    var ls, n := Lines(text), LevelOf(Lines(text), units[j]);
    var open := OpenBefore(ls, units, i + 1);
    PathIsOpen(text, codeMode, digit, units, i);
    PathIsOpen(text, codeMode, digit, units, j);
    BelowStays(ls, units, i + 1, j, n);
    OpenAfter(ls, units, i);
    OpenAfter(ls, units, j);
    HeadingMarks(ls[units[j].lineStart - 1], n, title);
    OutlineIncreases(HeadingsIn(ls, units[..i + 1]));
    m := BelowIsPrefix(open, n);
    TitlesSnoc(open[..m], MarkOf(ls[units[j].lineStart - 1]));
    assert Titles(open[..m]) == Titles(open)[..m];
  }
}
