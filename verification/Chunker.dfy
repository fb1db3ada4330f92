/** Chunking a canonical document: unitize, split, repair lines, pack, emit. */
module Chunker {
  import opened Text
  import opened LineTable
  import opened Units
  import opened Segments
  import opened Splitting
  import opened Packing
  import opened Unitizer
  import opened Canonical

  datatype ChunkDraft = ChunkDraft(
    ordinal: nat, content: string, charStart: nat, charEnd: nat, lineStart: nat, lineEnd: nat,
    blockType: BlockType, headingPath: seq<string>, oversizedSplit: bool)

  datatype ChunkResult = Chunks(chunks: seq<ChunkDraft>) | ValueError(message: string)

  function ChunkSpans(cs: seq<ChunkDraft>): seq<Span> {
    seq(|cs|, k requires 0 <= k < |cs| => Span(cs[k].charStart, cs[k].charEnd))
  }

  function ConcatContents(cs: seq<ChunkDraft>): string {
    if cs == [] then "" else ConcatContents(cs[..|cs| - 1]) + cs[|cs| - 1].content
  }

  // ---------------------------------------------------------------- unitize

  method Unitize(doc: CanonicalDocument, digit: char -> bool) returns (units: seq<LogicalUnit>)
    ensures doc.kind.Empty? ==> units == []
    ensures !doc.kind.Empty? ==> Unitized(doc.text, doc.kind.Code?, digit, units)
  {
    if doc.kind.Empty? || Blank(doc.text) {
      BlankUnitizes(doc.text, doc.kind.Code?, digit);
      return [];
    }
    units := UnitizeStructured(doc.text, doc.kind.Code?, digit);
  }

  /** Code mode ignores fences and headings, and a document it is used for has none. */
  lemma CodeHasNoMarkup(text: string, m: nat)
    requires DetectKind(text) == ContentKind.Code && m < |Lines(text)|
    ensures !IsFence(Lines(text)[m]) && !IsHeading(Lines(text)[m])
  {
    KindsByLines(text);
    var line := Lines(text)[m];
    assert !LooksLikeFence(line) && !LooksLikeHeading(line);
    if IsFence(line) {
      RStripKeeps(line, "```");
    }
  }

  lemma {:induction false} RStripKeeps(s: string, start: string)
    requires start <= s && start != "" && !IsSpace(start[|start| - 1])
    ensures start <= RStrip(s)
  {
    if |s| > |start| && IsSpace(s[|s| - 1]) {
      RStripKeeps(s[..|s| - 1], start);
    }
  }

  lemma BlankUnitizes(text: string, codeMode: bool, digit: char -> bool)
    ensures Blank(text) ==> Unitized(text, codeMode, digit, [])
  {
    if Blank(text) {
      JoinLines(text);
      forall m | 0 <= m < |Lines(text)| ensures Blank(Lines(text)[m]) {
        LineSlice(Lines(text), m);
        forall k | 0 <= k < |Lines(text)[m]| ensures IsSpace(Lines(text)[m][k]) {
          assert Lines(text)[m][k] == text[Offset(Lines(text), m) + k];
        }
      }
    }
  }

  // ---------------------------------------------------------------- line numbers

  /** The 1-based number of the line that holds offset `off`. */
  ghost predicate IsLineNumber(text: string, off: nat, line: nat) {
    if text == "" then line == 1 else off < |text| ==> line == 1 + NewlinesBefore(text, off)
  }

  function LastOffset(charStart: nat, charEnd: nat): nat {
    if charEnd as int - 1 > charStart then charEnd - 1 else charStart
  }

  method LinesOfSpan(text: string, starts: seq<nat>, charStart: nat, charEnd: nat) returns (ls: nat, le: nat)
    requires IsLineTable(text, starts)
    ensures IsLineNumber(text, charStart, ls) && IsLineNumber(text, LastOffset(charStart, charEnd), le)
  {
    if text == "" {
      return 1, 1;
    }
    TableIsSorted(text, starts);
    var last := LastOffset(charStart, charEnd);
    ls := LineOf(starts, charStart);
    le := LineOf(starts, last);
    if charStart < |text| { SearchCountsNewlines(text, starts, charStart, ls); }
    if last < |text| { SearchCountsNewlines(text, starts, last, le); }
  }

  /** The same units with their line numbers recomputed from their offsets. */
  ghost predicate LinesFixed(text: string, us: seq<LogicalUnit>, vs: seq<LogicalUnit>) {
    && |vs| == |us|
    && (forall k | 0 <= k < |us| ::
          && vs[k] == us[k].(lineStart := vs[k].lineStart, lineEnd := vs[k].lineEnd)
          && IsLineNumber(text, us[k].charStart, vs[k].lineStart)
          && IsLineNumber(text, LastOffset(us[k].charStart, us[k].charEnd), vs[k].lineEnd))
  }

  method FixLines(text: string, units: seq<LogicalUnit>) returns (out: seq<LogicalUnit>)
    ensures LinesFixed(text, units, out)
  {
    var starts := LineStarts(text);
    out := [];
    for i := 0 to |units|
      invariant LinesFixed(text, units[..i], out)
    {
      var u := units[i];
      var ls, le := LinesOfSpan(text, starts, u.charStart, u.charEnd);
      out := out + [u.(lineStart := ls, lineEnd := le)];
    }
    assert units[..|units|] == units;
  }

  // ---------------------------------------------------------------- expansion

  /** Each unit fits the budget and carries exactly the text of its span. */
  ghost predicate Exact(text: string, us: seq<LogicalUnit>, maxChars: nat) {
    forall k | 0 <= k < |us| :: IsSlice(text, us[k]) && |us[k].text| <= maxChars
  }

  /** The concatenation of the splits of the units. */
  ghost predicate IsExpansion(us: seq<LogicalUnit>, maxChars: nat, out: seq<LogicalUnit>)
    requires 1 <= maxChars
  {
    if us == [] then out == []
    else
      exists n | 0 <= n <= |out| ::
        IsExpansion(us[..|us| - 1], maxChars, out[..n]) && IsSplit(us[|us| - 1], maxChars, out[n..])
  }

  method Expand(text: string, units: seq<LogicalUnit>, maxChars: nat, ghost upto: nat) returns (out: seq<LogicalUnit>)
    requires 1 <= maxChars
    requires Tiles(text, UnitSpans(units), upto)
    requires forall k | 0 <= k < |units| ::
               units[k].charStart < units[k].charEnd <= |text|
                 && units[k].text == text[units[k].charStart..units[k].charEnd]
    ensures IsExpansion(units, maxChars, out)
    ensures Tiles(text, UnitSpans(out), upto)
    ensures Exact(text, out, maxChars)
  {
    hide IsSplit, Exact;
    out := [];
    NothingExpanded(text, maxChars);
    for i := 0 to |units|
      invariant IsExpansion(units[..i], maxChars, out)
      invariant Tiles(text, UnitSpans(out), EndBefore(units, i))
      invariant Exact(text, out, maxChars)
    {
      var pieces := SplitOversized(units[i], maxChars);
      ExpandOne(text, units, upto, i, maxChars, out, pieces);
      ExtendExpansion(units, i, maxChars, out, pieces);
      out := out + pieces;
    }
    assert units[..|units|] == units;
    GapIsBlank(text, units, upto, |units|);
    TilesAppend(text, UnitSpans(out), EndBefore(units, |units|), [], upto);
    assert UnitSpans(out) + [] == UnitSpans(out);
  }

  function EndBefore(units: seq<LogicalUnit>, i: nat): nat
    requires i <= |units|
  {
    if i == 0 then 0 else units[i - 1].charEnd
  }

  lemma NothingExpanded(text: string, maxChars: nat)
    ensures Exact(text, [], maxChars)
  {
  }

  lemma ExtendExpansion(units: seq<LogicalUnit>, i: nat, maxChars: nat, out: seq<LogicalUnit>, pieces: seq<LogicalUnit>)
    requires 1 <= maxChars && i < |units|
    requires IsExpansion(units[..i], maxChars, out) && IsSplit(units[i], maxChars, pieces)
    ensures IsExpansion(units[..i + 1], maxChars, out + pieces)
  {
    hide IsSplit;
    assert units[..i + 1][..i] == units[..i];
    assert (out + pieces)[..|out|] == out && (out + pieces)[|out|..] == pieces;
  }

  function StartAfter(units: seq<LogicalUnit>, upto: nat, i: nat): nat
    requires i <= |units|
  {
    if i < |units| then units[i].charStart else upto
  }

  /** Before, between and after consecutive units there is only white space. */
  lemma GapIsBlank(text: string, units: seq<LogicalUnit>, upto: nat, i: nat)
    requires Tiles(text, UnitSpans(units), upto) && i <= |units|
    ensures EndBefore(units, i) <= StartAfter(units, upto, i) <= upto
    ensures upto <= |text|
    ensures BlankIn(text, EndBefore(units, i), StartAfter(units, upto, i))
  {
    var spans := UnitSpans(units);
    if i > 0 { assert spans[i - 1].hi <= upto; }
    if i < |units| { assert spans[i].lo < spans[i].hi <= upto; }
    if 0 < i < |units| { assert spans[i - 1].hi <= spans[i].lo; }
    forall p | EndBefore(units, i) <= p < StartAfter(units, upto, i) ensures IsSpace(text[p]) {
      GapIsNotCovered(spans, i, p);
      assert Covered(spans, p) || IsSpace(text[p]);
    }
  }

  lemma ExpandOne(text: string, units: seq<LogicalUnit>, upto: nat, i: nat, maxChars: nat,
                  out: seq<LogicalUnit>, pieces: seq<LogicalUnit>)
    requires 1 <= maxChars && i < |units|
    requires Tiles(text, UnitSpans(units), upto)
    requires units[i].charStart < units[i].charEnd <= |text|
             && units[i].text == text[units[i].charStart..units[i].charEnd]
    requires IsSplit(units[i], maxChars, pieces)
    requires Tiles(text, UnitSpans(out), EndBefore(units, i)) && Exact(text, out, maxChars)
    ensures Tiles(text, UnitSpans(out + pieces), units[i].charEnd) && Exact(text, out + pieces, maxChars)
  {
    var u := units[i];
    GapIsBlank(text, units, upto, i);
    PiecesOfUnit(text, u, maxChars, pieces);
    var more := UnitSpans(pieces);
    TilesAppend(text, UnitSpans(out), EndBefore(units, i), more, u.charEnd);
    assert UnitSpans(out + pieces) == UnitSpans(out) + more;
  }

  lemma OneSpanIsOrdered(u: LogicalUnit)
    requires u.charStart < u.charEnd
    ensures Ordered(UnitSpans([u]))
  {
  }

  lemma PiecesOfUnit(text: string, u: LogicalUnit, maxChars: nat, pieces: seq<LogicalUnit>)
    requires 1 <= maxChars && u.charStart < u.charEnd <= |text| && u.text == text[u.charStart..u.charEnd]
    requires IsSplit(u, maxChars, pieces)
    ensures Ordered(UnitSpans(pieces)) && Exact(text, pieces, maxChars)
    ensures forall k | 0 <= k < |pieces| :: u.charStart <= pieces[k].charStart && pieces[k].charEnd <= u.charEnd
    ensures forall p | u.charStart <= p < u.charEnd :: Covered(UnitSpans(pieces), p)
  {
    hide IsSplitUpTo, CutsWell, Ordered;
    if |u.text| <= maxChars {
      OneSpanIsOrdered(u);
      forall p | u.charStart <= p < u.charEnd ensures Covered(UnitSpans(pieces), p) {
        assert UnitSpans(pieces)[0].lo <= p < UnitSpans(pieces)[0].hi;
      }
    } else {
      PiecesTile(u, maxChars, pieces, |u.text|);
      PieceSizes(u, maxChars, pieces, |u.text|);
      forall k | 0 <= k < |pieces| ensures IsSlice(text, pieces[k]) {
        PiecesAreSlices(text, u, maxChars, pieces, |u.text|, k);
      }
    }
  }

  ghost predicate IsSlice(text: string, u: LogicalUnit) {
    u.charStart <= u.charEnd <= |text| && u.text == text[u.charStart..u.charEnd]
  }

  lemma SliceOfSlice(t: string, a: nat, b: nat, lo: nat, hi: nat)
    requires a <= b <= |t| && lo <= hi <= b - a
    ensures t[a..b][lo..hi] == t[a + lo..a + hi]
  {
    var x, y := t[a..b][lo..hi], t[a + lo..a + hi];
    forall k | 0 <= k < hi - lo ensures x[k] == y[k] {
      assert x[k] == t[a..b][lo + k] == t[a + (lo + k)] == y[k];
    }
    assert x == y;
  }

  lemma PieceIsSlice(text: string, u: LogicalUnit, lo: nat, hi: nat)
    requires IsSlice(text, u) && lo <= hi <= |u.text|
    ensures IsSlice(text, PieceOf(u, lo, hi))
  {
    SliceOfSlice(text, u.charStart, u.charEnd, lo, hi);
  }

  lemma {:induction false} PiecesAreSlices(
    text: string, u: LogicalUnit, maxChars: nat, pieces: seq<LogicalUnit>, upto: nat, k: nat)
    requires 1 <= maxChars && IsSlice(text, u) && IsSplitUpTo(u, maxChars, pieces, upto) && k < |pieces|
    ensures IsSlice(text, pieces[k])
    decreases |pieces|
  {
    hide IsSplitUpTo, CutsWell, IsSlice, PieceOf;
    SplitFront(u, maxChars, pieces, upto);
    var n := |pieces| - 1;
    var lo := upto - |pieces[n].text|;
    if k < n {
      PiecesAreSlices(text, u, maxChars, pieces[..n], lo, k);
    } else {
      PieceIsSlice(text, u, lo, upto);
    }
  }

  // ---------------------------------------------------------------- emission

  ghost predicate HasHardSplit(group: seq<LogicalUnit>) {
    exists k | 0 <= k < |group| :: group[k].blockType == HardSplit
  }

  /** The common type of the group's units, else hard split if one was cut, else mixed. */
  ghost function GroupType(group: seq<LogicalUnit>): BlockType
    requires group != []
  {
    if forall k | 0 <= k < |group| :: group[k].blockType == group[0].blockType then group[0].blockType
    else if HasHardSplit(group) then HardSplit
    else Mixed
  }

  method TypeOf(group: seq<LogicalUnit>) returns (blockType: BlockType, split: bool)
    requires group != []
    ensures blockType == GroupType(group) && (split <==> HasHardSplit(group))
    ensures split <==> exists u :: u in group && u.blockType == HardSplit
    ensures (forall u | u in group :: u.blockType == blockType)
            || ((exists u, v :: u in group && v in group && u.blockType != v.blockType)
                && blockType == if split then HardSplit else Mixed)
  {
    var types := set u | u in group :: u.blockType;
    split := HardSplit in types;
    assert group[0].blockType in types;
    if |types| == 1 {
      blockType :| blockType in types;
      forall k | 0 <= k < |group| ensures group[k].blockType == blockType {
        OnlyOne(types, blockType, group[k].blockType);
      }
    } else if HardSplit in types {
      blockType := HardSplit;
    } else {
      blockType := Mixed;
    }
    if forall k | 0 <= k < |group| :: group[k].blockType == group[0].blockType {
      assert types == {group[0].blockType};
    }
  }

  lemma OnlyOne(types: set<BlockType>, a: BlockType, b: BlockType)
    requires |types| == 1 && a in types && b in types
    ensures a == b
  {
    assert |types - {a}| == 0;
    assert b in types - {a} ==> types - {a} != {};
  }

  function Deeper(path: seq<string>, next: seq<string>): seq<string> {
    if path <= next && |path| < |next| then next else if path == [] then next else path
  }

  /** The path after looking at the first `n` units of the group. */
  function PathAfter(group: seq<LogicalUnit>, n: nat): seq<string>
    requires group != [] && n <= |group|
  {
    if n == 0 then group[0].headingPath else Deeper(PathAfter(group, n - 1), group[n - 1].headingPath)
  }

  method DeepestPath(group: seq<LogicalUnit>) returns (heading: seq<string>)
    requires group != []
    ensures heading == PathAfter(group, |group|)
    ensures IsMaximalPath(group, heading) && IsFirstComePath(group, heading)
  {
    heading := group[0].headingPath;
    for i := 0 to |group|
      invariant heading == PathAfter(group, i)
    {
      var path := group[i].headingPath;
      if heading <= path && |path| > |heading| {
        heading := path;
      } else if heading == [] {
        heading := path;
      }
    }
    PathIsMaximal(group, |group|);
    PathIsFirstCome(group, |group|);
  }

  /**
   * A path that does not lead to the result was passed over because it does not extend a path that
   * came before it and does.
   */
  ghost predicate IsFirstComePath(group: seq<LogicalUnit>, path: seq<string>) {
    FirstComeUpTo(group, |group|, path)
  }

  ghost predicate FirstComeUpTo(group: seq<LogicalUnit>, n: nat, path: seq<string>)
    requires n <= |group|
  {
    forall j | 0 <= j < n :: group[j].headingPath <= path || PassedOver(group, j, path)
  }

  ghost predicate PassedOver(group: seq<LogicalUnit>, j: nat, path: seq<string>)
    requires j < |group|
  {
    exists i | 0 <= i < j :: group[i].headingPath <= path && !(group[i].headingPath <= group[j].headingPath)
  }

  lemma PassedOverStays(group: seq<LogicalUnit>, j: nat, before: seq<string>, after: seq<string>)
    requires j < |group| && before <= after && PassedOver(group, j, before)
    ensures PassedOver(group, j, after)
  {
    var i :| 0 <= i < j && group[i].headingPath <= before && !(group[i].headingPath <= group[j].headingPath);
    assert group[i].headingPath <= after;
  }

  /** The path after `n` units is that of one of them. */
  lemma {:induction false} PathIsKnown(group: seq<LogicalUnit>, n: nat) returns (k: nat)
    requires group != [] && n <= |group|
    ensures k < |group| && (k < n || k == 0) && group[k].headingPath == PathAfter(group, n)
  {
    if n == 0 {
      k := 0;
    } else {
      k := PathIsKnown(group, n - 1);
      if PathAfter(group, n) != PathAfter(group, n - 1) {
        k := n - 1;
      }
    }
  }

  lemma {:induction false} PathIsFirstCome(group: seq<LogicalUnit>, n: nat)
    requires group != [] && n <= |group|
    ensures FirstComeUpTo(group, n, PathAfter(group, n))
  {
    hide PassedOver;
    if n > 0 {
      PathIsFirstCome(group, n - 1);
      var before, next, after := PathAfter(group, n - 1), group[n - 1].headingPath, PathAfter(group, n);
      assert before <= after;
      forall j | 0 <= j < n - 1 ensures group[j].headingPath <= after || PassedOver(group, j, after) {
        if !(group[j].headingPath <= before) {
          PassedOverStays(group, j, before, after);
        }
      }
      if !(next <= after) {
        var k := PathIsKnown(group, n - 1);
        PassNow(group, n - 1, k, after);
      }
    }
  }

  lemma PassNow(group: seq<LogicalUnit>, j: nat, k: nat, path: seq<string>)
    requires k < j < |group| && group[k].headingPath <= path && !(group[k].headingPath <= group[j].headingPath)
    ensures PassedOver(group, j, path)
  {
  }

  /** A group has only one such path among its own, so this is the path the loop takes. */
  lemma FirstComeIsUnique(group: seq<LogicalUnit>, k: nat, l: nat)
    requires k < |group| && l < |group|
    requires IsFirstComePath(group, group[k].headingPath) && IsFirstComePath(group, group[l].headingPath)
    ensures group[k].headingPath == group[l].headingPath
  {
    hide PassedOver;
    SamePrefixes(group, group[k].headingPath, group[l].headingPath, |group|);
  }

  lemma {:induction false} SamePrefixes(group: seq<LogicalUnit>, p: seq<string>, q: seq<string>, n: nat)
    requires IsFirstComePath(group, p) && IsFirstComePath(group, q) && n <= |group|
    ensures forall j | 0 <= j < n :: group[j].headingPath <= p <==> group[j].headingPath <= q
  {
    if n > 0 {
      SamePrefixes(group, p, q, n - 1);
    }
  }

  /** A path of the group that extends the first unit's path and that no unit's path extends further. */
  ghost predicate IsMaximalPath(group: seq<LogicalUnit>, path: seq<string>)
    requires group != []
  {
    && (exists k | 0 <= k < |group| :: group[k].headingPath == path)
    && group[0].headingPath <= path
    && (forall k | 0 <= k < |group| :: path <= group[k].headingPath ==> path == group[k].headingPath)
  }

  lemma {:induction false} PathIsMaximal(group: seq<LogicalUnit>, n: nat)
    requires group != [] && n <= |group|
    ensures exists k | 0 <= k < |group| :: group[k].headingPath == PathAfter(group, n)
    ensures group[0].headingPath <= PathAfter(group, n)
    ensures forall k | 0 <= k < n :: PathAfter(group, n) <= group[k].headingPath ==>
              PathAfter(group, n) == group[k].headingPath
  {
    if n > 0 {
      PathIsMaximal(group, n - 1);
      var before, next := PathAfter(group, n - 1), group[n - 1].headingPath;
      if PathAfter(group, n) == before {
        var k :| 0 <= k < |group| && group[k].headingPath == before;
        assert group[k].headingPath == PathAfter(group, n);
      } else {
        assert group[n - 1].headingPath == PathAfter(group, n);
      }
    } else {
      assert group[0].headingPath == PathAfter(group, n);
    }
  }

  ghost predicate IsChunkOf(text: string, group: seq<LogicalUnit>, ordinal: nat, c: ChunkDraft) {
    && group != []
    && c.ordinal == ordinal
    && c.charStart == group[0].charStart <= c.charEnd == group[|group| - 1].charEnd <= |text|
    && c.content == text[c.charStart..c.charEnd]
    && IsLineNumber(text, c.charStart, c.lineStart)
    && IsLineNumber(text, LastOffset(c.charStart, c.charEnd), c.lineEnd)
    && c.blockType == GroupType(group)
    && c.headingPath == PathAfter(group, |group|)
    && (c.oversizedSplit <==> HasHardSplit(group))
  }

  ghost predicate BlankGroup(text: string, group: seq<LogicalUnit>) {
    && group != []
    && group[0].charStart <= group[|group| - 1].charEnd <= |text|
    && Blank(text[group[0].charStart..group[|group| - 1].charEnd])
  }

  /** The groups that yield a chunk. */
  ghost function Emitting(text: string, groups: seq<seq<LogicalUnit>>): seq<seq<LogicalUnit>> {
    if groups == [] then []
    else
      var front, last := groups[..|groups| - 1], groups[|groups| - 1];
      if BlankGroup(text, last) then Emitting(text, front) else Emitting(text, front) + [last]
  }

  /** One chunk for each group that is not blank, in order. */
  ghost predicate Emitted(text: string, groups: seq<seq<LogicalUnit>>, chunks: seq<ChunkDraft>) {
    && |chunks| == |Emitting(text, groups)|
    && (forall k | 0 <= k < |chunks| :: IsChunkOf(text, Emitting(text, groups)[k], k, chunks[k]))
  }

  ghost predicate Bounded(chunks: seq<ChunkDraft>, maxChars: nat) {
    forall k | 0 <= k < |chunks| :: 1 <= |chunks[k].content| <= maxChars && !Blank(chunks[k].content)
  }

  method EmitChunk(text: string, group: seq<LogicalUnit>, ordinal: nat) returns (c: ChunkDraft)
    requires group != [] && group[0].charStart <= group[|group| - 1].charEnd <= |text|
    ensures IsChunkOf(text, group, ordinal, c)
  {
    var charStart, charEnd := group[0].charStart, group[|group| - 1].charEnd;
    var blockType, split := TypeOf(group);
    var heading := DeepestPath(group);
    var starts := LineStarts(text);
    var lineStart, lineEnd := LinesOfSpan(text, starts, charStart, charEnd);
    c := ChunkDraft(
      ordinal, text[charStart..charEnd], charStart, charEnd, lineStart, lineEnd, blockType, heading, split);
  }

  method EmitChunks(
    text: string, units: seq<LogicalUnit>, groups: seq<seq<LogicalUnit>>, maxChars: nat, ghost upto: nat)
    returns (chunks: seq<ChunkDraft>)
    requires Packable(units, maxChars) && Tiles(text, UnitSpans(units), upto)
    requires Flatten(groups) == units && Greedy(groups, maxChars)
    ensures Emitted(text, groups, chunks)
    ensures Tiles(text, ChunkSpans(chunks), upto)
    ensures Bounded(chunks, maxChars)
  {
    hide Greedy, Tiles, Packable, Emitted, IsChunkOf;
    chunks := [];
    NothingEmitted(text, groups);
    for g := 0 to |groups|
      invariant Emitted(text, groups[..g], chunks)
      invariant GroupStart(groups, g) <= |units|
      invariant Tiles(text, ChunkSpans(chunks), EndBefore(units, GroupStart(groups, g)))
      invariant Bounded(chunks, maxChars)
    {
      var group := groups[g];
      GroupInText(text, units, upto, groups, maxChars, g);
      var charStart, charEnd := group[0].charStart, group[|group| - 1].charEnd;
      var content := text[charStart..charEnd];
      assert groups[..g + 1] == groups[..g] + [group];
      if Blank(content) {
        SkipGroup(text, groups[..g], group, chunks, EndBefore(units, GroupStart(groups, g)));
        continue;
      }
      if |content| > maxChars {
        assert false; // every group fits the budget, so nothing is ever truncated
      }
      var c := EmitChunk(text, group, |chunks|);
      AddChunk(text, groups[..g], group, chunks, EndBefore(units, GroupStart(groups, g)), c);
      chunks := chunks + [c];
    }
    assert groups[..|groups|] == groups;
    GroupsEnd(groups);
    GapIsBlank(text, units, upto, |units|);
    CloseTiling(text, ChunkSpans(chunks), EndBefore(units, |units|), upto);
  }

  lemma NothingEmitted(text: string, groups: seq<seq<LogicalUnit>>)
    ensures Emitted(text, groups[..0], []) && Tiles(text, ChunkSpans([]), 0)
  {
  }

  lemma CloseTiling(text: string, spans: seq<Span>, last: nat, upto: nat)
    requires Tiles(text, spans, last) && last <= upto <= |text| && BlankIn(text, last, upto)
    ensures Tiles(text, spans, upto)
  {
  }

  /** A group's span lies in the text, fits the budget, and is preceded by white space only. */
  lemma GroupInText(
    text: string, units: seq<LogicalUnit>, upto: nat, groups: seq<seq<LogicalUnit>>, maxChars: nat, g: nat)
    requires Packable(units, maxChars) && Tiles(text, UnitSpans(units), upto)
    requires Flatten(groups) == units && Greedy(groups, maxChars) && g < |groups|
    ensures GroupStart(groups, g) <= GroupStart(groups, g + 1) <= |units|
    ensures var group, before := groups[g], EndBefore(units, GroupStart(groups, g));
            && group != []
            && before <= group[0].charStart < group[|group| - 1].charEnd <= |text|
            && group[|group| - 1].charEnd - group[0].charStart <= maxChars
            && BlankIn(text, before, group[0].charStart)
            && EndBefore(units, GroupStart(groups, g + 1)) == group[|group| - 1].charEnd
  {
    GreedyFits(units, groups, maxChars, g);
    hide Greedy;
    GroupAt(groups, g);
    var group, lo, hi := groups[g], GroupStart(groups, g), GroupStart(groups, g + 1);
    assert group[0] == units[lo..hi][0] == units[lo];
    assert group[|group| - 1] == units[lo..hi][|group| - 1] == units[hi - 1];
    PackableOrder(units, maxChars, lo, hi - 1);
    GapIsBlank(text, units, upto, lo);
    assert UnitSpans(units)[lo].lo < UnitSpans(units)[lo].hi;
    assert UnitSpans(units)[hi - 1].hi <= upto <= |text|;
  }

  lemma SkipGroup(
    text: string, groups: seq<seq<LogicalUnit>>, group: seq<LogicalUnit>, chunks: seq<ChunkDraft>, before: nat)
    requires Emitted(text, groups, chunks) && Tiles(text, ChunkSpans(chunks), before)
    requires BlankGroup(text, group) && before <= group[0].charStart && BlankIn(text, before, group[0].charStart)
    ensures Emitted(text, groups + [group], chunks)
    ensures Tiles(text, ChunkSpans(chunks), group[|group| - 1].charEnd)
  {
    hide IsChunkOf;
    var lo, hi := group[0].charStart, group[|group| - 1].charEnd;
    forall p | before <= p < hi ensures IsSpace(text[p]) {
      if p >= lo {
        assert IsSpace(text[lo..hi][p - lo]);
      }
    }
    assert (groups + [group])[..|groups|] == groups;
  }

  lemma AddChunk(text: string, groups: seq<seq<LogicalUnit>>, group: seq<LogicalUnit>, chunks: seq<ChunkDraft>,
                 before: nat, c: ChunkDraft)
    requires Emitted(text, groups, chunks) && Tiles(text, ChunkSpans(chunks), before)
    requires IsChunkOf(text, group, |chunks|, c) && !BlankGroup(text, group)
    requires before <= c.charStart < c.charEnd && BlankIn(text, before, c.charStart)
    ensures Emitted(text, groups + [group], chunks + [c])
    ensures Tiles(text, ChunkSpans(chunks + [c]), c.charEnd)
  {
    TilesAppendOne(text, ChunkSpans(chunks), before, Span(c.charStart, c.charEnd), c.charEnd);
    assert ChunkSpans(chunks + [c]) == ChunkSpans(chunks) + [Span(c.charStart, c.charEnd)];
    hide IsChunkOf, Tiles;
    assert (groups + [group])[..|groups|] == groups;
  }

  // ---------------------------------------------------------------- the chunker

  /** How chunks come about: unitize, split, renumber lines, pack greedily, emit. */
  ghost predicate IsChunking(
    doc: CanonicalDocument, maxChars: nat, digit: char -> bool, w: Witness, chunks: seq<ChunkDraft>)
    requires 1 <= maxChars
  {
    && (if doc.kind.Empty? then w.units == [] else Unitized(doc.text, doc.kind.Code?, digit, w.units))
    && IsExpansion(w.units, maxChars, w.expanded)
    && Tiles(doc.text, UnitSpans(w.expanded), if doc.kind.Empty? then 0 else |doc.text|)
    && LinesFixed(doc.text, w.expanded, w.pieces) && Exact(doc.text, w.pieces, maxChars)
    && Flatten(w.groups) == w.pieces && Greedy(w.groups, maxChars)
    && Emitted(doc.text, w.groups, chunks)
  }

  lemma {:induction false} EmittingIsFromGroups(text: string, groups: seq<seq<LogicalUnit>>)
    ensures forall g | g in Emitting(text, groups) :: g in groups
    decreases |groups|
  {
    hide BlankGroup;
    if groups != [] {
      EmittingIsFromGroups(text, groups[..|groups| - 1]);
    }
  }

  /** What a chunk says of the group of pieces it was made of. */
  lemma ChunkDescribes(
    doc: CanonicalDocument, maxChars: nat, digit: char -> bool, w: Witness, chunks: seq<ChunkDraft>, k: nat)
    returns (group: seq<LogicalUnit>)
    requires 1 <= maxChars && IsChunking(doc, maxChars, digit, w, chunks) && k < |chunks|
    ensures group in w.groups && group != []
    ensures var c := chunks[k];
            && c.charStart == group[0].charStart <= c.charEnd == group[|group| - 1].charEnd <= |doc.text|
            && c.content == doc.text[c.charStart..c.charEnd]
            && (c.oversizedSplit <==> exists u :: u in group && u.blockType == HardSplit)
            && ((forall u | u in group :: u.blockType == c.blockType)
                || ((exists u, v :: u in group && v in group && u.blockType != v.blockType)
                    && c.blockType == if c.oversizedSplit then HardSplit else Mixed))
            && (exists u :: u in group && u.headingPath == c.headingPath)
            && IsMaximalPath(group, c.headingPath) && IsFirstComePath(group, c.headingPath)
  {
    hide Unitized, IsExpansion, Tiles, LinesFixed, Exact, Greedy, Flatten, Emitting, IsMaximalPath, IsFirstComePath,
      PathAfter;
    EmittingIsFromGroups(doc.text, w.groups);
    group := Emitting(doc.text, w.groups)[k];
    assert IsChunkOf(doc.text, group, k, chunks[k]);
    GroupTypeMeans(group);
    PathMeans(group);
  }

  lemma GroupTypeMeans(group: seq<LogicalUnit>)
    requires group != []
    ensures HasHardSplit(group) <==> exists u :: u in group && u.blockType == HardSplit
    ensures (forall u | u in group :: u.blockType == GroupType(group))
            || ((exists u, v :: u in group && v in group && u.blockType != v.blockType)
                && GroupType(group) == if HasHardSplit(group) then HardSplit else Mixed)
  {
    if HasHardSplit(group) {
      var k :| 0 <= k < |group| && group[k].blockType == HardSplit;
      assert group[k] in group;
    }
    if !(forall k | 0 <= k < |group| :: group[k].blockType == group[0].blockType) {
      var k :| 0 <= k < |group| && group[k].blockType != group[0].blockType;
      assert group[k] in group && group[0] in group;
    }
  }

  lemma PathMeans(group: seq<LogicalUnit>)
    requires group != []
    ensures IsMaximalPath(group, PathAfter(group, |group|)) && IsFirstComePath(group, PathAfter(group, |group|))
    ensures exists u :: u in group && u.headingPath == PathAfter(group, |group|)
  {
    PathIsMaximal(group, |group|);
    PathIsFirstCome(group, |group|);
    var k := PathIsKnown(group, |group|);
    assert group[k] in group;
  }

  /** The intermediate results of one run of the chunker. */
  datatype Witness = Witness(
    units: seq<LogicalUnit>, expanded: seq<LogicalUnit>, pieces: seq<LogicalUnit>, groups: seq<seq<LogicalUnit>>)

  /** Chunk `k` is an exact, bounded, non-blank slice that knows its ordinal and its lines. */
  ghost predicate ChunkIsExact(text: string, maxChars: nat, c: ChunkDraft, k: nat) {
    && c.ordinal == k
    && c.charStart < c.charEnd <= |text|
    && c.content == text[c.charStart..c.charEnd]
    && 1 <= |c.content| <= maxChars
    && !Blank(c.content)
    && c.lineStart == 1 + NewlinesBefore(text, c.charStart)
    && c.lineEnd == 1 + NewlinesBefore(text, c.charEnd - 1)
    && 1 <= c.lineStart <= c.lineEnd <= NewlinesBefore(text, |text|) + 1
  }

  /** Every chunk is exact, and chunks are ordered and do not overlap. */
  ghost predicate HasProvenance(text: string, maxChars: nat, chunks: seq<ChunkDraft>) {
    && (forall k | 0 <= k < |chunks| :: ChunkIsExact(text, maxChars, chunks[k], k))
    && (forall i, j | 0 <= i < j < |chunks| :: chunks[i].charEnd <= chunks[j].charStart)
  }

  method ChunkHybrid(doc: CanonicalDocument, maxChars: int, digit: char -> bool)
    returns (result: ChunkResult, ghost w: Witness)
    ensures result.ValueError? <==> maxChars < 1
    ensures maxChars >= 1 ==> HasProvenance(doc.text, maxChars, result.chunks)
    ensures maxChars >= 1 ==>
              (Squeeze(ConcatContents(result.chunks)) == Squeeze(doc.text) <==> !doc.kind.Empty? || Blank(doc.text))
    ensures maxChars >= 1 ==> IsChunking(doc, maxChars, digit, w, result.chunks)
  {
    hide Unitized, IsExpansion, LinesFixed, Greedy, Emitted, Tiles, HasProvenance;
    w := Witness([], [], [], []);
    if maxChars < 1 {
      return ValueError("max_chars must be >= 1"), w;
    }
    var text := doc.text;
    var raw := Unitize(doc, digit);
    ghost var upto := if doc.kind.Empty? then 0 else |text|;
    RawUnitsTile(doc, digit, raw);
    var expanded := Expand(text, raw, maxChars, upto);
    ghost var split := expanded;
    expanded := FixLines(text, expanded);
    FixedKeepsSpans(text, split, expanded, maxChars);
    var repaired := [];
    for i := 0 to |expanded|
      invariant repaired == expanded[..i]
    {
      var u := expanded[i];
      var expected := text[u.charStart..u.charEnd];
      if expected != u.text {
        assert false; // units carry exactly the text of their span, so nothing is ever repaired
      }
      repaired := repaired + [u];
    }
    assert expanded[..|expanded|] == expanded;
    ghost var fixed := expanded;
    expanded := FixLines(text, repaired);
    FixedTwice(text, split, fixed, expanded);
    FixedKeepsSpans(text, split, expanded, maxChars);
    ExactIsPackable(text, expanded, upto, maxChars);
    var groups := Pack(expanded, maxChars);
    var chunks := EmitChunks(text, expanded, groups, maxChars, upto);
    w := Witness(raw, split, expanded, groups);
    ProvenanceOf(text, groups, chunks, maxChars, upto);
    ConservationOf(doc, chunks, upto);
    result := Chunks(chunks);
  }

  lemma RawUnitsTile(doc: CanonicalDocument, digit: char -> bool, raw: seq<LogicalUnit>)
    requires doc.kind.Empty? ==> raw == []
    requires !doc.kind.Empty? ==> Unitized(doc.text, doc.kind.Code?, digit, raw)
    ensures Tiles(doc.text, UnitSpans(raw), if doc.kind.Empty? then 0 else |doc.text|)
    ensures forall k | 0 <= k < |raw| ::
              && raw[k].charStart < raw[k].charEnd <= |doc.text|
              && raw[k].text == doc.text[raw[k].charStart..raw[k].charEnd]
  {
    hide Unitized;
    if !doc.kind.Empty? {
      UnitsTile(doc.text, doc.kind.Code?, digit, raw);
    }
  }

  lemma FixedKeepsSpans(text: string, us: seq<LogicalUnit>, vs: seq<LogicalUnit>, maxChars: nat)
    requires LinesFixed(text, us, vs) && Exact(text, us, maxChars)
    ensures UnitSpans(vs) == UnitSpans(us) && Exact(text, vs, maxChars)
  {
    hide IsLineNumber;
    forall k | 0 <= k < |vs|
      ensures IsSlice(text, vs[k]) && |vs[k].text| <= maxChars && UnitSpans(vs)[k] == UnitSpans(us)[k]
    {
      assert IsSlice(text, us[k]);
    }
  }

  lemma FixedTwice(text: string, us: seq<LogicalUnit>, vs: seq<LogicalUnit>, ws: seq<LogicalUnit>)
    requires LinesFixed(text, us, vs) && LinesFixed(text, vs, ws)
    ensures LinesFixed(text, us, ws)
  {
    hide IsLineNumber;
  }

  lemma ExactIsPackable(text: string, units: seq<LogicalUnit>, upto: nat, maxChars: nat)
    requires Exact(text, units, maxChars) && Tiles(text, UnitSpans(units), upto)
    ensures Packable(units, maxChars)
  {
    forall k | 0 <= k < |units| ensures units[k].charEnd - units[k].charStart <= maxChars {
      assert IsSlice(text, units[k]);
    }
  }

  lemma ChunkShape(text: string, groups: seq<seq<LogicalUnit>>, chunks: seq<ChunkDraft>, maxChars: nat, k: nat)
    requires Emitted(text, groups, chunks) && k < |chunks|
    requires 1 <= |chunks[k].content| <= maxChars && !Blank(chunks[k].content)
    requires chunks[k].charStart < chunks[k].charEnd <= |text|
    ensures ChunkIsExact(text, maxChars, chunks[k], k)
  {
    hide GroupType, HasHardSplit, Blank, PathAfter;
    var c := chunks[k];
    assert IsChunkOf(text, Emitting(text, groups)[k], k, c);
    NewlinesMonotone(text, c.charStart, c.charEnd - 1);
    NewlinesMonotone(text, c.charEnd - 1, |text|);
  }

  lemma ProvenanceOf(text: string, groups: seq<seq<LogicalUnit>>, chunks: seq<ChunkDraft>, maxChars: nat, upto: nat)
    requires Emitted(text, groups, chunks) && Tiles(text, ChunkSpans(chunks), upto) && Bounded(chunks, maxChars)
    ensures HasProvenance(text, maxChars, chunks)
  {
    hide Emitted, ChunkIsExact, Blank;
    var spans := ChunkSpans(chunks);
    forall k | 0 <= k < |chunks| ensures ChunkIsExact(text, maxChars, chunks[k], k) {
      assert spans[k].lo < spans[k].hi <= |text|;
      assert 1 <= |chunks[k].content| <= maxChars && !Blank(chunks[k].content);
      ChunkShape(text, groups, chunks, maxChars, k);
    }
    forall i, j | 0 <= i < j < |chunks| ensures chunks[i].charEnd <= chunks[j].charStart {
      assert spans[i].hi <= spans[j].lo;
    }
  }

  lemma {:induction false} SqueezeContents(text: string, chunks: seq<ChunkDraft>)
    requires forall k | 0 <= k < |chunks| ::
               chunks[k].charStart <= chunks[k].charEnd <= |text|
                 && chunks[k].content == text[chunks[k].charStart..chunks[k].charEnd]
    ensures Squeeze(ConcatContents(chunks)) == SqueezeSpans(text, ChunkSpans(chunks))
  {
    if chunks != [] {
      var n := |chunks| - 1;
      SqueezeContents(text, chunks[..n]);
      assert ChunkSpans(chunks)[..n] == ChunkSpans(chunks[..n]);
      SqueezeConcat(ConcatContents(chunks[..n]), chunks[n].content);
    }
  }

  /** Nothing but white space is lost, unless the document is not blank and yet marked empty. */
  lemma ConservationOf(doc: CanonicalDocument, chunks: seq<ChunkDraft>, upto: nat)
    requires upto == if doc.kind.Empty? then 0 else |doc.text|
    requires Tiles(doc.text, ChunkSpans(chunks), upto)
    requires exists maxChars: nat :: HasProvenance(doc.text, maxChars, chunks)
    ensures Squeeze(ConcatContents(chunks)) == Squeeze(doc.text) <==> !doc.kind.Empty? || Blank(doc.text)
  {
    forall k | 0 <= k < |chunks|
      ensures chunks[k].charStart <= chunks[k].charEnd <= |doc.text|
      ensures chunks[k].content == doc.text[chunks[k].charStart..chunks[k].charEnd]
    {
      var maxChars: nat :| HasProvenance(doc.text, maxChars, chunks);
      assert ChunkIsExact(doc.text, maxChars, chunks[k], k);
    }
    SqueezeContents(doc.text, chunks);
    TilingConserves(doc.text, ChunkSpans(chunks), upto);
    assert doc.text[..|doc.text|] == doc.text;
    SqueezeBlank(doc.text);
  }

  // ---------------------------------------------------------------- from raw text to chunks

  /** The ingestion path: normalize, then chunk. */
  method ChunkArtifact(raw: string, maxChars: int, digit: char -> bool)
    returns (doc: CanonicalDocument, result: ChunkResult)
    ensures doc.text == CanonicalText(raw)
    ensures result.ValueError? <==> maxChars < 1
    ensures maxChars >= 1 ==>
              && HasProvenance(doc.text, maxChars, result.chunks)
              && Squeeze(ConcatContents(result.chunks)) == Squeeze(raw)
              && (forall k | 0 <= k < |result.chunks| :: result.chunks[k].lineEnd <= doc.lineCount)
  {
    doc := NormalizeToCanonical(raw);
    ghost var w;
    result, w := ChunkHybrid(doc, maxChars, digit);
    LineCountIsKept(raw);
    forall k | maxChars >= 1 && 0 <= k < |result.chunks| ensures result.chunks[k].lineEnd <= doc.lineCount {
      assert ChunkIsExact(doc.text, maxChars, result.chunks[k], k);
    }
  }
}
