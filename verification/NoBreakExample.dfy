/**
 * A document that gets one chunk more than it needs: at a budget of 4 a no-break space is cut off
 * behind "aaaa", and the group that begins with it misses the last paragraph.
 */
module NoBreakExample {
  import opened Text
  import opened LineTable
  import opened Canonical
  import opened Units
  import opened Segments
  import opened Splitting
  import opened Packing
  import opened Chunker
  import opened Determinism
  import opened ChunkCount

  const TEXT := "aaaa\U{A0}\n\nb\n\nc"
  const LINES := ["aaaa\U{A0}", "", "b", "", "c"]

  const LONG := LogicalUnit("aaaa\U{A0}", 0, 5, 1, 1, Paragraph, [])
  const SECOND := LogicalUnit("b", 7, 8, 3, 3, Paragraph, [])
  const THIRD := LogicalUnit("c", 10, 11, 5, 5, Paragraph, [])

  // ---------------------------------------------------------------- units

  lemma LinesOfText()
    ensures Lines(TEXT) == LINES && StartedLines(TEXT) == 5
    ensures Offset(LINES, 0) == 0 && Offset(LINES, 1) == 6 && Offset(LINES, 2) == 7
    ensures Offset(LINES, 3) == 9 && Offset(LINES, 4) == 10
  {
    hide Lines;
    var l4, l3, l2, l1 := ["c"], ["", "c"], ["b", "", "c"], ["", "b", "", "c"];
    assert LINES[1..] == l1 && l1[1..] == l2 && l2[1..] == l3 && l3[1..] == l4;
    assert JoinWith(l4, "\n") == "c";
    assert JoinWith(l3, "\n") == "\nc";
    assert JoinWith(l2, "\n") == "b\n\nc";
    assert JoinWith(l1, "\n") == "\nb\n\nc";
    assert Join(LINES) == TEXT;
    assert forall k | 0 <= k < 5 :: NewlineFree(LINES[k]);
    LinesJoin(LINES);
    LineCount(TEXT);
    assert Offset(l1, 0) == 0 && Offset(l1, 1) == 1 + Offset(l2, 0) == 1;
    assert Offset(l2, 1) == 2 && Offset(l1, 2) == 1 + Offset(l2, 1);
    assert Offset(l3, 1) == 1 && Offset(l2, 2) == 2 + Offset(l3, 1) && Offset(l1, 3) == 1 + Offset(l2, 2);
  }

  /** A line of letters and spaces without a full stop is an ordinary line. */
  lemma OrdinaryLine(digit: char -> bool, line: string)
    requires line != "" && 'a' <= line[0] <= 'z' && '.' !in line
    ensures !Breaks(false, digit, false, line) && !IsFence(line) && !IsHeading(line) && !IsListItem(digit, line)
  {
    assert LStrip(line) == line;
    assert line[0] != '`' && line[0] != '#';
    assert LeadingHashes(line) == 0;
    var d := LeadingDigits(digit, line);
    assert d < |line| ==> line[d] in line;
  }

  lemma BlankLine(digit: char -> bool)
    ensures Breaks(false, digit, false, "")
  {
  }

  lemma OrdinaryBlock(digit: char -> bool, a: nat)
    requires a == 0 || a == 2 || a == 4
    ensures IsBlock(LINES, false, digit, a, a + 1, Paragraph)
  {
    hide IsListItem, IsHeading, IsFence, Breaks;
    OrdinaryLine(digit, LINES[a]);
    BlankLine(digit);
  }

  lemma LineSpans()
    requires |Lines(TEXT)| == 5
    ensures SpanEnd(TEXT, 1) == 5 && SpanEnd(TEXT, 3) == 8 && SpanEnd(TEXT, 5) == 11
  {
    hide Lines, StartedLines, Offset;
    LinesOfText();
  }

  lemma LineIsUnit(digit: char -> bool, u: LogicalUnit, a: nat)
    requires (a == 0 || a == 2 || a == 4) && |Lines(TEXT)| == 5
    requires u.text == LINES[a] && u.lineStart == u.lineEnd == a + 1 && u.blockType == Paragraph
    requires u.charStart == Offset(LINES, a) && u.charEnd == SpanEnd(TEXT, a + 1)
    requires u.charStart <= u.charEnd <= |TEXT| && TEXT[u.charStart..u.charEnd] == u.text
    ensures IsUnit(TEXT, false, digit, u)
  {
    hide Lines, StartedLines, Offset, IsBlock, SpanEnd;
    LinesOfText();
    OrdinaryBlock(digit, a);
    assert LINES[a..a + 1] == [LINES[a]];
  }

  lemma UnitsOfText(digit: char -> bool)
    ensures Unitized(TEXT, false, digit, [LONG, SECOND, THIRD])
  {
    hide Lines, StartedLines, Offset, IsUnit, SpanEnd, LinesCovered, AllPaths;
    LinesOfText();
    LineSpans();
    assert TEXT[0..5] == LONG.text && TEXT[7..8] == SECOND.text && TEXT[10..11] == THIRD.text;
    var units := [LONG, SECOND, THIRD];
    LineIsUnit(digit, LONG, 0);
    LineIsUnit(digit, SECOND, 2);
    LineIsUnit(digit, THIRD, 4);
    LinesAreCovered(units);
    NoHeadingPaths(units);
  }

  lemma LinesAreCovered(units: seq<LogicalUnit>)
    requires units == [LONG, SECOND, THIRD]
    ensures LinesCovered(LINES, units, 5)
  {
    assert units[0].lineStart == 1 && units[1].lineStart == 3 && units[2].lineStart == 5;
    assert InUnit(units, 0) && InUnit(units, 2) && InUnit(units, 4);
    assert Blank(LINES[1]) && Blank(LINES[3]);
  }

  lemma NoHeadingPaths(units: seq<LogicalUnit>)
    requires forall u | u in units :: u.blockType == Paragraph && u.headingPath == []
    ensures AllPaths(TEXT, units)
  {
    hide Lines;
    forall k | 0 <= k < |units| ensures HasPath(TEXT, units, k) {
      NoHeadings(Lines(TEXT), units[..k + 1]);
    }
  }

  lemma {:induction false} NoHeadings(ls: seq<string>, units: seq<LogicalUnit>)
    requires forall u | u in units :: u.blockType == Paragraph
    ensures HeadingsIn(ls, units) == []
  {
    if units != [] {
      NoHeadings(ls, units[..|units| - 1]);
      assert units[|units| - 1] in units;
    }
  }

  // ---------------------------------------------------------------- pieces

  /** The first four characters hold no newline and no space, so the cut is at the budget. */
  lemma LongCut()
    ensures CutsWell(LONG.text, 4, 4) && CutsWell(LONG.text[4..], 4, 1)
  {
    assert LONG.text[..4] == "aaaa";
    assert forall k | 0 <= k < 4 :: LONG.text[k] == LONG.text[..4][k] == 'a';
  }

  lemma LongSplits()
    ensures IsSplit(LONG, 4, [PieceOf(LONG, 0, 4), PieceOf(LONG, 4, 5)])
  {
    hide CutsWell, IsSplitUpTo, PieceOf;
    LongCut();
    assert LONG.text[0..] == LONG.text;
    NothingCut();
    OnePiece(LONG, [], 0, 4);
    assert [] + [PieceOf(LONG, 0, 4)] == [PieceOf(LONG, 0, 4)];
    OnePiece(LONG, [PieceOf(LONG, 0, 4)], 4, 5);
    assert [PieceOf(LONG, 0, 4)] + [PieceOf(LONG, 4, 5)] == [PieceOf(LONG, 0, 4), PieceOf(LONG, 4, 5)];
  }

  lemma NothingCut()
    ensures IsSplitUpTo(LONG, 4, [], 0)
  {
  }

  lemma OnePiece(u: LogicalUnit, before: seq<LogicalUnit>, lo: nat, hi: nat)
    requires lo <= hi <= |u.text|
    requires IsSplitUpTo(u, 4, before, lo) && CutsWell(u.text[lo..], 4, hi - lo)
    ensures IsSplitUpTo(u, 4, before + [PieceOf(u, lo, hi)], hi)
  {
    hide CutsWell;
    var all := before + [PieceOf(u, lo, hi)];
    assert all[..|all| - 1] == before && all[|all| - 1] == PieceOf(u, lo, hi);
    assert |PieceOf(u, lo, hi).text| == hi - lo;
  }

  lemma PiecesOfText()
    ensures IsExpansion([LONG, SECOND, THIRD], 4, [PieceOf(LONG, 0, 4), PieceOf(LONG, 4, 5), SECOND, THIRD])
  {
    hide IsExpansion, IsSplit;
    var units, split := [LONG, SECOND, THIRD], [PieceOf(LONG, 0, 4), PieceOf(LONG, 4, 5)];
    LongSplits();
    ShortStays(SECOND);
    ShortStays(THIRD);
    NothingYet(units);
    ExtendExpansion(units, 0, 4, [], split);
    assert [] + split == split;
    ExtendExpansion(units, 1, 4, split, [SECOND]);
    ExtendExpansion(units, 2, 4, split + [SECOND], [THIRD]);
    assert units[..3] == units;
    assert split + [SECOND] + [THIRD] == [PieceOf(LONG, 0, 4), PieceOf(LONG, 4, 5), SECOND, THIRD];
  }

  lemma ShortStays(u: LogicalUnit)
    requires |u.text| == 1
    ensures IsSplit(u, 4, [u])
  {
  }

  lemma NothingYet(units: seq<LogicalUnit>)
    ensures IsExpansion(units[..0], 4, [])
  {
  }

  /** The pieces, whatever their line numbers. */
  predicate ArePieces(ps: seq<LogicalUnit>) {
    && |ps| == 4
    && ps[0].text == "aaaa" && ps[0].charStart == 0 && ps[0].charEnd == 4
    && ps[1].text == "\U{A0}" && ps[1].charStart == 4 && ps[1].charEnd == 5
    && ps[2].text == "b" && ps[2].charStart == 7 && ps[2].charEnd == 8
    && ps[3].text == "c" && ps[3].charStart == 10 && ps[3].charEnd == 11
  }

  lemma FixedPieces(ps: seq<LogicalUnit>)
    requires LinesFixed(TEXT, [PieceOf(LONG, 0, 4), PieceOf(LONG, 4, 5), SECOND, THIRD], ps)
    ensures ArePieces(ps)
  {
    hide IsLineNumber;
    assert LONG.text[0..4] == "aaaa" && LONG.text[4..5] == "\U{A0}";
  }

  // ---------------------------------------------------------------- groups

  lemma GroupsOfPieces(ps: seq<LogicalUnit>)
    requires ArePieces(ps)
    ensures Greedy([[ps[0]], [ps[1], ps[2]], [ps[3]]], 4) && Fit([[ps[0]], [ps[1]], [ps[2], ps[3]]], 4)
    ensures Flatten([[ps[0]], [ps[1], ps[2]], [ps[3]]]) == ps == Flatten([[ps[0]], [ps[1]], [ps[2], ps[3]]])
  {
    FlattenThree([ps[0]], [ps[1], ps[2]], [ps[3]]);
    FlattenThree([ps[0]], [ps[1]], [ps[2], ps[3]]);
    assert Grown([ps[0]], 4) && Grown([ps[1], ps[2]], 4) && Grown([ps[3]], 4);
    assert MustBreak([ps[0]], [ps[1], ps[2]], 4) && MustBreak([ps[1], ps[2]], [ps[3]], 4);
  }

  lemma YieldsOfGroups(ps: seq<LogicalUnit>)
    requires ArePieces(ps)
    ensures Yields(TEXT, [ps[0]]) && Yields(TEXT, [ps[1], ps[2]]) && Yields(TEXT, [ps[3]])
    ensures !Yields(TEXT, [ps[1]]) && Yields(TEXT, [ps[2], ps[3]])
  {
    assert !IsSpace(TEXT[0..4][0]) && !IsSpace(TEXT[4..8][3]);
    assert !IsSpace(TEXT[10..11][0]) && !IsSpace(TEXT[7..11][0]);
    assert TEXT[4..5] == "\U{A0}";
  }

  lemma ExpandedIs(digit: char -> bool, units: seq<LogicalUnit>, expanded: seq<LogicalUnit>)
    requires Unitized(TEXT, false, digit, units) && IsExpansion(units, 4, expanded)
    ensures expanded == [PieceOf(LONG, 0, 4), PieceOf(LONG, 4, 5), SECOND, THIRD]
  {
    hide Unitized, IsExpansion, PieceOf;
    UnitsOfText(digit);
    UnitsAreUnique(TEXT, false, digit, units, [LONG, SECOND, THIRD]);
    PiecesOfText();
    ExpansionIsUnique(units, 4, expanded, [PieceOf(LONG, 0, 4), PieceOf(LONG, 4, 5), SECOND, THIRD]);
  }

  lemma PiecesAre(doc: CanonicalDocument, digit: char -> bool, w: Witness, chunks: seq<ChunkDraft>)
    requires doc.text == TEXT && doc.kind.Prose? && IsChunking(doc, 4, digit, w, chunks)
    ensures ArePieces(w.pieces)
  {
    hide Unitized, IsExpansion, LinesFixed, Greedy, Emitted, Tiles, Exact, Flatten, ArePieces, PieceOf;
    ExpandedIs(digit, w.units, w.expanded);
    FixedPieces(w.pieces);
  }

  lemma Counts(ps: seq<LogicalUnit>, groups: seq<seq<LogicalUnit>>)
    requires ArePieces(ps) && Flatten(groups) == ps && Greedy(groups, 4)
    ensures Yield(TEXT, groups) == 3
    ensures var other := [[ps[0]], [ps[1]], [ps[2], ps[3]]]; Rival(ps, 4, other) && Yield(TEXT, other) == 2
  {
    assert |ps| == 4;
    hide Greedy, Fit, Flatten, Yields, Yield, ArePieces;
    GroupsOfPieces(ps);
    GreedyIsUnique(groups, [[ps[0]], [ps[1], ps[2]], [ps[3]]], 4);
    YieldsOfGroups(ps);
    YieldThree(TEXT, [ps[0]], [ps[1], ps[2]], [ps[3]]);
    YieldThree(TEXT, [ps[0]], [ps[1]], [ps[2], ps[3]]);
  }

  /** The chunker makes three chunks of the text, and a grouping of the same pieces makes two. */
  lemma NoBreakDocument(doc: CanonicalDocument, digit: char -> bool, w: Witness, chunks: seq<ChunkDraft>)
    requires doc.text == TEXT && doc.kind.Prose? && IsChunking(doc, 4, digit, w, chunks)
    ensures |chunks| == 3
    ensures exists other :: Rival(w.pieces, 4, other) && Yield(doc.text, other) == 2
  {
    hide IsChunking, Greedy, Flatten, Yield, Rival, Packable, Exact, Fit;
    ChunkCounts(doc, 4, digit, w, chunks);
    PiecesAre(doc, digit, w, chunks);
    Counts(w.pieces, w.groups);
  }

  lemma {:induction false} StripsKeepOut(s: string, c: char)
    requires c !in s
    ensures c !in LStrip(s) && c !in RStrip(s)
    decreases |s|
  {
    if s != "" {
      StripsKeepOut(s[1..], c);
      StripsKeepOut(s[..|s| - 1], c);
    }
  }

  /** Every mark of a heading, a fence or code has one of these characters. */
  lemma PlainLine(line: string)
    requires '#' !in line && '`' !in line && ' ' !in line && '{' !in line
    ensures !LooksLikeHeading(line) && !LooksLikeFence(line) && !LooksLikeCode(line)
  {
    hide LStrip, RStrip;
    StripsKeepOut(line, '#');
    StripsKeepOut(line, '`');
    StripsKeepOut(LStrip(line), '`');
    StripsKeepOut(line, ' ');
    StripsKeepOut(LStrip(line), ' ');
    StripsKeepOut(line, '{');
    assert "#"[0] == '#' && "```"[0] == '`' && "{"[0] == '{';
    assert "def "[3] == "class "[5] == "import "[6] == "from "[4] == ' ';
    assert "function "[8] == "package "[7] == "public "[6] == "private "[7] == "static "[6] == ' ';
  }

  lemma PlainLines(k: nat)
    requires k < 5
    ensures !LooksLikeHeading(LINES[k]) && !LooksLikeFence(LINES[k]) && !LooksLikeCode(LINES[k])
  {
    hide LooksLikeHeading, LooksLikeFence, LooksLikeCode;
    assert '#' !in LINES[k] && '`' !in LINES[k] && ' ' !in LINES[k] && '{' !in LINES[k];
    PlainLine(LINES[k]);
  }

  /** The chunker does get this document: normalization leaves the text as it is, and it is prose. */
  lemma TextIsCanonicalProse()
    ensures CanonicalText(TEXT) == TEXT && DetectKind(TEXT).Prose?
  {
    hide Lines, StartedLines, Offset, LooksLikeHeading, LooksLikeFence, LooksLikeCode, CanonicalText, DetectKind, Blank;
    LinesOfText();
    CanonicalFixpoints(TEXT);
    forall k | 0 <= k < 5 ensures !LooksLikeHeading(LINES[k]) && !LooksLikeFence(LINES[k]) && !LooksLikeCode(LINES[k]) {
      PlainLines(k);
    }
    KindsByLines(TEXT);
    TextIsWritten();
  }

  lemma TextIsWritten()
    ensures !Blank(TEXT)
  {
    assert TEXT[0] == 'a';
  }

  lemma FlattenThree(x: seq<LogicalUnit>, y: seq<LogicalUnit>, z: seq<LogicalUnit>)
    ensures Flatten([x, y, z]) == x + y + z
  {
    assert [x, y, z][1..] == [y, z] && [y, z][1..] == [z] && [z][1..] == [];
    assert Flatten([z]) == z && Flatten([y, z]) == y + z;
  }

  lemma YieldThree(text: string, x: seq<LogicalUnit>, y: seq<LogicalUnit>, z: seq<LogicalUnit>)
    ensures Yield(text, [x, y, z])
            == (if Yields(text, x) then 1 else 0) + (if Yields(text, y) then 1 else 0)
              + (if Yields(text, z) then 1 else 0)
  {
    hide Yields;
    assert [x, y, z][1..] == [y, z] && [y, z][1..] == [z] && [z][1..] == [];
    assert Yield(text, [z]) == if Yields(text, z) then 1 else 0;
  }
}
