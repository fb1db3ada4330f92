/** Logical units of a document, and the tests on single lines that delimit them. */
module Units {
  import opened Text
  import opened LineTable

  datatype BlockType = Heading | Paragraph | CodeFence | Code | List | HardSplit | Mixed

  datatype LogicalUnit = LogicalUnit(
    text: string, charStart: nat, charEnd: nat, lineStart: nat, lineEnd: nat,
    blockType: BlockType, headingPath: seq<string>)

  function UnitSpans(us: seq<LogicalUnit>): seq<Span> {
    seq(|us|, k requires 0 <= k < |us| => Span(us[k].charStart, us[k].charEnd))
  }

  // ---------------------------------------------------------------- line tests

  predicate IsFence(line: string) {
    "```" <= line
  }

  function LeadingHashes(line: string): (n: nat)
    ensures n <= |line|
    ensures forall k | 0 <= k < n :: line[k] == '#'
    ensures n < |line| ==> line[n] != '#'
  {
    if line != "" && line[0] == '#' then 1 + LeadingHashes(line[1..]) else 0
  }

  /** `^(#{1,6})\s+(.+)$` */
  predicate IsHeading(line: string) {
    var level := LeadingHashes(line);
    1 <= level <= 6 && |line| >= level + 2 && IsSpace(line[level])
  }

  function LeadingDigits(digit: char -> bool, s: string): (n: nat)
    ensures n <= |s|
    ensures forall k | 0 <= k < n :: digit(s[k])
    ensures n < |s| ==> !digit(s[n])
  {
    if s != "" && digit(s[0]) then 1 + LeadingDigits(digit, s[1..]) else 0
  }

  /** `^(\s*([-*+]|\d+\.)\s+)` where `digit` decides `\d`. */
  predicate IsListItem(digit: char -> bool, line: string) {
    var s := LStrip(line);
    || (|s| >= 2 && s[0] in "-*+" && IsSpace(s[1]))
    || (var d := LeadingDigits(digit, s);
        d >= 1 && |s| >= d + 2 && s[d] == '.' && IsSpace(s[d + 1]))
  }

  predicate IsIndented(line: string) {
    " " <= line || "\t" <= line
  }

  /** A line that ends the paragraph, code block or list that would otherwise contain it. */
  predicate Breaks(codeMode: bool, digit: char -> bool, inList: bool, line: string) {
    || Blank(line)
    || (!codeMode &&
        (IsFence(line) || IsHeading(line) ||
         if inList then !IsListItem(digit, line) && !IsIndented(line) else IsListItem(digit, line)))
  }

  lemma MarkedLinesAreNotBlank(line: string)
    ensures IsFence(line) || IsHeading(line) ==> !Blank(line)
  {
    if IsFence(line) {
      assert !IsSpace(line[0]);
    } else if IsHeading(line) {
      assert !IsSpace(line[0]);
    }
  }

  // ---------------------------------------------------------------- the declarative segmentation

  /** What the 0-based lines `[a, b)` must be to form one unit of type `bt`. */
  ghost predicate IsBlock(ls: seq<string>, codeMode: bool, digit: char -> bool, a: nat, b: nat, bt: BlockType) {
    && a < b <= |ls|
    && if !codeMode && IsFence(ls[a]) then
         && bt == CodeFence
         && (forall m | a < m < b - 1 :: !IsFence(ls[m]))
         && (if b - 1 > a && IsFence(ls[b - 1]) then true else b == |ls|)
       else if !codeMode && IsHeading(ls[a]) then
         && bt == Heading
         && b == a + 1
       else
         var inList := !codeMode && IsListItem(digit, ls[a]);
         && bt == (if codeMode then Code else if inList then List else Paragraph)
         && (forall m | a <= m < b :: !Breaks(codeMode, digit, inList, ls[m]))
         && (b == |ls| || Breaks(codeMode, digit, inList, ls[b]))
  }

  /** The unit's text, offsets and lines are those of the 0-based lines `[a, b)`. */
  ghost predicate IsSpanOfLines(text: string, u: LogicalUnit, a: nat, b: nat)
    requires a < b <= |Lines(text)|
  {
    && u.lineStart == a + 1
    && u.lineEnd == b
    && u.charStart == Offset(Lines(text), a) <= u.charEnd <= |text|
    && u.charEnd == SpanEnd(text, b)
    && u.text == text[u.charStart..u.charEnd]
    && (!EndsInNewline(text) ==> u.text == Join(Lines(text)[a..b]))
  }

  ghost predicate IsUnit(text: string, codeMode: bool, digit: char -> bool, u: LogicalUnit) {
    && 1 <= u.lineStart <= u.lineEnd <= |Lines(text)|
    && IsSpanOfLines(text, u, u.lineStart - 1, u.lineEnd)
    && IsBlock(Lines(text), codeMode, digit, u.lineStart - 1, u.lineEnd, u.blockType)
  }

  ghost predicate InUnit(units: seq<LogicalUnit>, line: nat) {
    exists k | 0 <= k < |units| :: units[k].lineStart <= line + 1 <= units[k].lineEnd
  }

  // ---------------------------------------------------------------- the outline

  datatype HeadingMark = HeadingMark(level: nat, title: string)

  function MarkOf(line: string): HeadingMark {
    var level := LeadingHashes(line);
    HeadingMark(level, Strip(line[level..]))
  }

  /** The headings among the units, in document order. */
  ghost function HeadingsIn(ls: seq<string>, units: seq<LogicalUnit>): seq<HeadingMark> {
    if units == [] then []
    else
      var front, u := units[..|units| - 1], units[|units| - 1];
      HeadingsIn(ls, front) +
      (if u.blockType == Heading && 1 <= u.lineStart <= |ls| then [MarkOf(ls[u.lineStart - 1])] else [])
  }

  /** No later heading has the same or a smaller level. */
  ghost predicate IsOpen(hs: seq<HeadingMark>, k: nat)
    requires k < |hs|
  {
    forall m | k < m < |hs| :: hs[k].level < hs[m].level
  }

  /** Those of the first `n` headings that are open in `hs`, in document order. */
  ghost function OpenAmong(hs: seq<HeadingMark>, n: nat): seq<HeadingMark>
    requires n <= |hs|
  {
    if n == 0 then []
    else OpenAmong(hs, n - 1) + (if IsOpen(hs, n - 1) then [hs[n - 1]] else [])
  }

  ghost function Outline(hs: seq<HeadingMark>): seq<HeadingMark> {
    OpenAmong(hs, |hs|)
  }

  function Titles(hs: seq<HeadingMark>): seq<string> {
    seq(|hs|, k requires 0 <= k < |hs| => hs[k].title)
  }

  ghost predicate LevelsIncrease(hs: seq<HeadingMark>) {
    forall i, j | 0 <= i < j < |hs| :: hs[i].level < hs[j].level
  }

  /** The first `k + 1` units, up to and including unit `k`, fix its heading path. */
  ghost predicate HasPath(text: string, units: seq<LogicalUnit>, k: nat)
    requires k < |units|
  {
    units[k].headingPath == Titles(Outline(HeadingsIn(Lines(text), units[..k + 1])))
  }

  ghost predicate AllUnits(text: string, codeMode: bool, digit: char -> bool, units: seq<LogicalUnit>) {
    forall k | 0 <= k < |units| :: IsUnit(text, codeMode, digit, units[k])
  }

  ghost predicate LinesInOrder(units: seq<LogicalUnit>, upto: nat) {
    && (forall k | 0 <= k < |units| :: units[k].lineStart <= units[k].lineEnd <= upto)
    && (forall i, j | 0 <= i < j < |units| :: units[i].lineEnd < units[j].lineStart)
  }

  ghost predicate LinesCovered(ls: seq<string>, units: seq<LogicalUnit>, upto: nat) {
    && upto <= |ls|
    && (forall m | 0 <= m < upto :: InUnit(units, m) || Blank(ls[m]))
  }

  ghost predicate AllPaths(text: string, units: seq<LogicalUnit>) {
    forall k | 0 <= k < |units| :: HasPath(text, units, k)
  }

  /** The units are the blocks of the first `upto` lines: ordered, disjoint, and blank in between. */
  ghost predicate UnitizedUpTo(text: string, codeMode: bool, digit: char -> bool, units: seq<LogicalUnit>, upto: nat) {
    && AllUnits(text, codeMode, digit, units)
    && LinesInOrder(units, upto)
    && LinesCovered(Lines(text), units, upto)
    && AllPaths(text, units)
  }

  ghost predicate Unitized(text: string, codeMode: bool, digit: char -> bool, units: seq<LogicalUnit>) {
    UnitizedUpTo(text, codeMode, digit, units, |Lines(text)|)
  }
}
