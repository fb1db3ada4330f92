/**
 * When a document gets the fewest chunks it could: what packing wastes by beginning a group with a
 * blank piece, and which documents cannot waste anything.
 */
module FewestChunks {
  import opened Common
  import opened Text
  import opened LineTable
  import opened Canonical
  import opened Units
  import opened Segments
  import opened Unitizer
  import opened Splitting
  import opened Packing
  import opened Chunker
  import opened Determinism
  import opened ChunkCount

  /** The first piece from `i` on that is not blank. */
  function NextWritten(units: seq<LogicalUnit>, i: nat): (r: nat)
    requires i <= |units|
    ensures i <= r <= |units|
    ensures forall k | i <= k < r :: Blank(units[k].text)
    ensures r < |units| ==> !Blank(units[r].text)
    decreases |units| - i
  {
    if i < |units| && Blank(units[i].text) then NextWritten(units, i + 1) else i
  }

  /**
   * The group that begins at `i` would reach one more piece that is not blank if it began at its
   * first such piece instead.
   */
  predicate Wastes(units: seq<LogicalUnit>, i: nat, maxChars: nat)
    requires i < |units|
  {
    var end, first := Reach(units, i, i + 1, maxChars), NextWritten(units, i);
    first < end && NextWritten(units, end) < Reach(units, first, first + 1, maxChars)
  }

  /** None of the groups from `i` on wastes room. */
  predicate NoWaste(units: seq<LogicalUnit>, i: nat, maxChars: nat)
    requires i <= |units|
    decreases |units| - i
  {
    i == |units| || (!Wastes(units, i, maxChars) && NoWaste(units, Reach(units, i, i + 1, maxChars), maxChars))
  }

  /** How many of the greedy groups from `i` on are not blank. */
  function Taken(units: seq<LogicalUnit>, i: nat, maxChars: nat): nat
    requires i <= |units|
    decreases |units| - i
  {
    if i == |units| then 0
    else
      var end := Reach(units, i, i + 1, maxChars);
      (if NextWritten(units, i) < end then 1 else 0) + Taken(units, end, maxChars)
  }

  // ---------------------------------------------------------------- prefixes

  lemma {:induction false} ReachInPrefix(units: seq<LogicalUnit>, n: nat, i: nat, j: nat, maxChars: nat)
    requires i < j <= n <= |units|
    ensures Reach(units[..n], i, j, maxChars) == Min(Reach(units, i, j, maxChars), n)
    decreases n - j
  {
    if j < n {
      ReachInPrefix(units, n, i, j + 1, maxChars);
    }
  }

  lemma {:induction false} NextInPrefix(units: seq<LogicalUnit>, n: nat, i: nat)
    requires i <= n <= |units|
    ensures NextWritten(units[..n], i) == Min(NextWritten(units, i), n)
    decreases n - i
  {
    if i < n {
      NextInPrefix(units, n, i + 1);
    }
  }

  /** Blank pieces cost the least grouping nothing. */
  lemma {:induction false} LeastSkips(units: seq<LogicalUnit>, i: nat, j: nat, maxChars: nat)
    requires i <= j <= |units| && j <= NextWritten(units, i)
    ensures Least(units, i, maxChars) == Least(units, j, maxChars)
    decreases j - i
  {
    if i < j {
      LeastSkips(units, i + 1, j, maxChars);
    }
  }

  /** From a piece inside a group at least as much fits as from the group's first piece. */
  lemma ReachGrows(units: seq<LogicalUnit>, i: nat, c: nat, maxChars: nat)
    requires Packable(units, maxChars) && i <= c < |units| && c < Reach(units, i, i + 1, maxChars)
    ensures Reach(units, i, i + 1, maxChars) <= Reach(units, c, c + 1, maxChars)
  {
    PackableOrder(units, maxChars, i, c);
  }

  lemma Unfold(units: seq<LogicalUnit>, i: nat, maxChars: nat)
    requires i < |units|
    ensures var end := Reach(units, i, i + 1, maxChars);
            && Taken(units, i, maxChars) == (if NextWritten(units, i) < end then 1 else 0) + Taken(units, end, maxChars)
            && (!Blank(units[i].text) ==> Least(units, i, maxChars) == 1 + Least(units, end, maxChars))
  {
  }

  /** A group with a piece that is not blank counts one, however far such a piece lets the least grouping reach. */
  lemma WrittenStep(us: seq<LogicalUnit>, i: nat, first: nat, end: nat, far: nat, maxChars: nat)
    requires i <= first < end <= far <= |us|
    requires NextWritten(us, i) == first && Reach(us, i, i + 1, maxChars) == end
             && Reach(us, first, first + 1, maxChars) == far
    requires far <= NextWritten(us, end)
    ensures Taken(us, i, maxChars) - Taken(us, end, maxChars) == Least(us, i, maxChars) - Least(us, end, maxChars)
  {
    hide Reach, Taken, Least, Blank;
    Unfold(us, i, maxChars);
    LeastSkips(us, i, first, maxChars);
    Unfold(us, first, maxChars);
    LeastSkips(us, end, far, maxChars);
  }

  lemma BlankStep(us: seq<LogicalUnit>, i: nat, end: nat, maxChars: nat)
    requires i < end <= |us| && Reach(us, i, i + 1, maxChars) == end <= NextWritten(us, i)
    ensures Taken(us, i, maxChars) - Taken(us, end, maxChars) == Least(us, i, maxChars) - Least(us, end, maxChars)
  {
    hide Reach, Taken, Least, Blank;
    Unfold(us, i, maxChars);
    LeastSkips(us, i, end, maxChars);
  }

  /** A group that wastes nothing counts the same for the greedy and for the least grouping of any prefix. */
  lemma SameStep(units: seq<LogicalUnit>, n: nat, i: nat, maxChars: nat)
    requires Packable(units, maxChars) && i < n <= |units| && !Wastes(units, i, maxChars)
    ensures var us, end := units[..n], Min(Reach(units, i, i + 1, maxChars), n);
            Taken(us, i, maxChars) - Taken(us, end, maxChars) == Least(us, i, maxChars) - Least(us, end, maxChars)
  {
    hide Packable, Reach, NextWritten, Blank, Taken, Least;
    var us, end, first := units[..n], Reach(units, i, i + 1, maxChars), NextWritten(units, i);
    ReachInPrefix(units, n, i, i + 1, maxChars);
    NextInPrefix(units, n, i);
    if first < end && first < n {
      SameWrittenStep(units, n, i, first, maxChars);
    } else {
      BlankStep(us, i, Min(end, n), maxChars);
    }
  }

  lemma SameWrittenStep(units: seq<LogicalUnit>, n: nat, i: nat, first: nat, maxChars: nat)
    requires Packable(units, maxChars) && i < n <= |units| && !Wastes(units, i, maxChars)
    requires first == NextWritten(units, i) && first < Reach(units, i, i + 1, maxChars) && first < n
    ensures var us, end := units[..n], Min(Reach(units, i, i + 1, maxChars), n);
            Taken(us, i, maxChars) - Taken(us, end, maxChars) == Least(us, i, maxChars) - Least(us, end, maxChars)
  {
    hide Packable, Reach, NextWritten, Blank, Taken, Least;
    var us, end := units[..n], Reach(units, i, i + 1, maxChars);
    ReachInPrefix(units, n, i, i + 1, maxChars);
    NextInPrefix(units, n, i);
    ReachGrows(units, i, first, maxChars);
    ReachInPrefix(units, n, first, first + 1, maxChars);
    NextInPrefix(units, n, Min(end, n));
    WrittenStep(us, i, first, Min(end, n), Min(Reach(units, first, first + 1, maxChars), n), maxChars);
  }

  lemma {:induction false} NoWasteIsLeast(units: seq<LogicalUnit>, n: nat, i: nat, maxChars: nat)
    requires Packable(units, maxChars) && i <= n <= |units| && NoWaste(units, i, maxChars)
    ensures Taken(units[..n], i, maxChars) == Least(units[..n], i, maxChars)
    decreases n - i
  {
    hide Packable, Reach, Wastes;
    if i < n {
      var end := Reach(units, i, i + 1, maxChars);
      SameStep(units, n, i, maxChars);
      if end < n {
        NoWasteIsLeast(units, n, end, maxChars);
      }
    }
  }

  lemma {:induction false} WrittenIsTaken(units: seq<LogicalUnit>, i: nat, maxChars: nat)
    requires i <= |units| && NextWritten(units, i) < |units|
    ensures Taken(units, i, maxChars) >= 1
    decreases |units| - i
  {
    hide Blank;
    var end := Reach(units, i, i + 1, maxChars);
    if NextWritten(units, i) >= end {
      NextFrom(units, i, end);
      WrittenIsTaken(units, end, maxChars);
    }
  }

  lemma {:induction false} NextFrom(units: seq<LogicalUnit>, i: nat, j: nat)
    requires i <= j <= |units| && j <= NextWritten(units, i)
    ensures NextWritten(units, j) == NextWritten(units, i)
    decreases j - i
  {
    if i < j {
      NextFrom(units, i + 1, j);
    }
  }

  lemma NothingLeft(units: seq<LogicalUnit>, maxChars: nat)
    ensures Least(units, |units|, maxChars) == 0
  {
  }

  /** Up to the piece that a wasteful group misses, the greedy grouping has one chunk more. */
  lemma WasteCosts(units: seq<LogicalUnit>, i: nat, maxChars: nat) returns (n: nat)
    requires i < |units| && Wastes(units, i, maxChars)
    ensures i < n <= |units| && Taken(units[..n], i, maxChars) > Least(units[..n], i, maxChars)
  {
    hide Reach, NextWritten, Blank, Taken, Least;
    var end, first := Reach(units, i, i + 1, maxChars), NextWritten(units, i);
    var missed := NextWritten(units, end);
    n := missed + 1;
    var us := units[..n];
    ReachInPrefix(units, n, i, i + 1, maxChars);
    NextInPrefix(units, n, i);
    NextInPrefix(units, n, end);
    WrittenIsTaken(us, end, maxChars);
    ReachInPrefix(units, n, first, first + 1, maxChars);
    LeastSkips(us, i, first, maxChars);
    Unfold(us, i, maxChars);
    Unfold(us, first, maxChars);
    NothingLeft(us, maxChars);
  }

  lemma {:induction false} WasteShows(units: seq<LogicalUnit>, i: nat, maxChars: nat) returns (n: nat)
    requires Packable(units, maxChars) && i <= |units| && !NoWaste(units, i, maxChars)
    ensures i < n <= |units| && Taken(units[..n], i, maxChars) > Least(units[..n], i, maxChars)
    decreases |units| - i
  {
    hide Packable, Reach, Wastes;
    if Wastes(units, i, maxChars) {
      n := WasteCosts(units, i, maxChars);
    } else {
      n := WasteShows(units, Reach(units, i, i + 1, maxChars), maxChars);
      SameStep(units, n, i, maxChars);
    }
  }

  // ---------------------------------------------------------------- groupings

  ghost predicate Packs(pieces: seq<LogicalUnit>, maxChars: nat, groups: seq<seq<LogicalUnit>>) {
    Flatten(groups) == pieces && Greedy(groups, maxChars)
  }

  /** After each piece there are as few chunks as any grouping of the pieces so far gives. */
  ghost predicate FewestAfter(text: string, pieces: seq<LogicalUnit>, maxChars: nat) {
    forall mine, other | Packs(pieces, maxChars, mine) && Rival(pieces, maxChars, other) ::
      Yield(text, mine) <= Yield(text, other)
  }

  ghost predicate FewestThroughout(text: string, pieces: seq<LogicalUnit>, maxChars: nat) {
    forall n | 0 <= n <= |pieces| :: FewestAfter(text, pieces[..n], maxChars)
  }

  /** Between one piece and the next there is only white space. */
  ghost predicate Spaced(text: string, units: seq<LogicalUnit>) {
    forall k | 1 <= k < |units| ::
      units[k - 1].charEnd <= units[k].charStart <= |text| && BlankIn(text, units[k - 1].charEnd, units[k].charStart)
  }

  lemma TilesAreSpaced(text: string, units: seq<LogicalUnit>, upto: nat)
    requires Tiles(text, UnitSpans(units), upto)
    ensures Spaced(text, units)
  {
    hide Tiles, BlankIn;
    forall k | 1 <= k < |units|
      ensures units[k - 1].charEnd <= units[k].charStart <= |text|
      ensures BlankIn(text, units[k - 1].charEnd, units[k].charStart)
    {
      GapIsBlank(text, units, upto, k);
    }
  }

  /** Blank pieces, one after the other, make a blank slice. */
  lemma {:induction false} BlankRun(text: string, units: seq<LogicalUnit>, i: nat, end: nat, maxChars: nat)
    requires Exact(text, units, maxChars) && Spaced(text, units) && i < end <= |units|
    requires forall k | i <= k < end :: Blank(units[k].text)
    ensures units[i].charStart <= units[end - 1].charEnd <= |text|
    ensures BlankIn(text, units[i].charStart, units[end - 1].charEnd)
    decreases end
  {
    var last := units[end - 1];
    assert IsSlice(text, last) && Blank(last.text);
    forall p | last.charStart <= p < last.charEnd ensures IsSpace(text[p]) {
      assert last.text[p - last.charStart] == text[p];
    }
    if i < end - 1 {
      BlankRun(text, units, i, end - 1, maxChars);
    }
  }

  lemma GrownSlice(units: seq<LogicalUnit>, i: nat, hi: nat, maxChars: nat)
    requires Packable(units, maxChars) && i < hi <= |units| && hi <= Reach(units, i, i + 1, maxChars)
    ensures Grown(units[i..hi], maxChars)
  {
    var group := units[i..hi];
    forall k | 1 <= k < |group| ensures Joins(group[..k], group[k], maxChars) {
      PackableOrder(units, maxChars, i + k - 1, i + k);
    }
  }

  lemma GrownIsNotEmpty(group: seq<LogicalUnit>, maxChars: nat)
    requires Grown(group, maxChars)
    ensures group != []
  {
  }

  /** A group yields a chunk exactly when one of its pieces is not blank. */
  lemma YieldOfSlice(text: string, units: seq<LogicalUnit>, i: nat, end: nat, maxChars: nat)
    requires Packable(units, maxChars) && Exact(text, units, maxChars) && Spaced(text, units) && i < end <= |units|
    ensures Yields(text, units[i..end]) <==> NextWritten(units, i) < end
  {
    hide Packable, Exact, Spaced, Yields;
    var first := NextWritten(units, i);
    if first < end {
      NonBlankUnitYields(text, units, maxChars, i, first, end);
    } else {
      BlankRun(text, units, i, end, maxChars);
      BlankSlice(text, units, i, end);
    }
  }

  lemma BlankSlice(text: string, units: seq<LogicalUnit>, i: nat, end: nat)
    requires i < end <= |units| && units[i].charStart <= units[end - 1].charEnd <= |text|
    requires BlankIn(text, units[i].charStart, units[end - 1].charEnd)
    ensures !Yields(text, units[i..end])
  {
    var group := units[i..end];
    assert group[0] == units[i] && group[|group| - 1] == units[end - 1];
  }

  /** One more group in front. */
  lemma PutFirst(
    text: string, first: seq<LogicalUnit>, rest: seq<seq<LogicalUnit>>, pieces: seq<LogicalUnit>, maxChars: nat)
    requires Grown(first, maxChars) && Packs(pieces, maxChars, rest)
    requires pieces != [] ==> !Joins(first, pieces[0], maxChars)
    ensures Packs(first + pieces, maxChars, [first] + rest)
    ensures Yield(text, [first] + rest) == (if Yields(text, first) then 1 else 0) + Yield(text, rest)
  {
    hide Yields, Joins;
    var groups := [first] + rest;
    assert groups[1..] == rest;
    forall g | 0 <= g < |groups| ensures Grown(groups[g], maxChars) {
      if g > 0 { assert Grown(rest[g - 1], maxChars); }
    }
    forall g | 0 <= g < |groups| - 1 ensures MustBreak(groups[g], groups[g + 1], maxChars) {
      if g > 0 {
        assert MustBreak(rest[g - 1], rest[g - 1 + 1], maxChars);
      } else {
        assert Grown(rest[0], maxChars);
        assert rest[0][0] == pieces[0];
      }
    }
  }

  /** The greedy grouping, and how many chunks it gives. */
  lemma {:induction false} GreedyFrom(text: string, units: seq<LogicalUnit>, i: nat, maxChars: nat)
    returns (groups: seq<seq<LogicalUnit>>)
    requires Packable(units, maxChars) && Exact(text, units, maxChars) && Spaced(text, units) && i <= |units|
    ensures Packs(units[i..], maxChars, groups) && Yield(text, groups) == Taken(units, i, maxChars)
    decreases |units| - i
  {
    hide Packable, Exact, Spaced, Yields, Grown, Yield, Taken, Packs;
    if i == |units| {
      groups := [];
      NoPieces(text, units, maxChars);
    } else {
      var end := Reach(units, i, i + 1, maxChars);
      var rest := GreedyFrom(text, units, end, maxChars);
      var first := units[i..end];
      GrownSlice(units, i, end, maxChars);
      YieldOfSlice(text, units, i, end, maxChars);
      assert end < |units| ==> units[end..][0] == units[end] && first[0] == units[i];
      PutFirst(text, first, rest, units[end..], maxChars);
      assert units[i..] == first + units[end..];
      Unfold(units, i, maxChars);
      groups := [first] + rest;
    }
  }

  lemma NoPieces(text: string, units: seq<LogicalUnit>, maxChars: nat)
    ensures Packs(units[|units|..], maxChars, []) && Yield(text, []) == Taken(units, |units|, maxChars)
  {
  }

  lemma PrefixInOrder(text: string, units: seq<LogicalUnit>, n: nat, maxChars: nat)
    requires Packable(units, maxChars) && Exact(text, units, maxChars) && Spaced(text, units) && n <= |units|
    ensures Packable(units[..n], maxChars) && Exact(text, units[..n], maxChars) && Spaced(text, units[..n])
  {
    var spans, all := UnitSpans(units[..n]), UnitSpans(units);
    assert forall k | 0 <= k < n :: spans[k] == all[k];
  }

  lemma FewestIfLeast(text: string, units: seq<LogicalUnit>, maxChars: nat)
    requires Packable(units, maxChars) && Exact(text, units, maxChars) && Spaced(text, units)
    requires Taken(units, 0, maxChars) == Least(units, 0, maxChars)
    ensures FewestAfter(text, units, maxChars)
  {
    hide Packable, Exact, Spaced, Taken, Least, Yield, Greedy;
    assert units[0..] == units;
    var packed := GreedyFrom(text, units, 0, maxChars);
    forall mine, other | Packs(units, maxChars, mine) && Rival(units, maxChars, other)
      ensures Yield(text, mine) <= Yield(text, other)
    {
      GreedyIsUnique(mine, packed, maxChars);
      LeastIsLeast(text, units, maxChars, 0, 0, other);
    }
  }

  lemma NotFewestIfMore(text: string, units: seq<LogicalUnit>, maxChars: nat)
    requires Packable(units, maxChars) && Exact(text, units, maxChars) && Spaced(text, units)
    requires Taken(units, 0, maxChars) > Least(units, 0, maxChars)
    ensures !FewestAfter(text, units, maxChars)
  {
    hide Packable, Exact, Spaced, Taken, Least, Yield, Greedy;
    assert units[0..] == units;
    var packed := GreedyFrom(text, units, 0, maxChars);
    var best := LeastIsAttained(text, units, maxChars, 0);
    assert Packs(units, maxChars, packed) && Rival(units, maxChars, best);
  }

  /**
   * Packing gives as few chunks as can be after every piece if and only if no group wastes room. The
   * condition looks at the pieces only: at each group's reach, and at the reach of its first piece
   * that is not blank.
   */
  lemma FewestIffNoWaste(text: string, units: seq<LogicalUnit>, maxChars: nat)
    requires Packable(units, maxChars) && Exact(text, units, maxChars) && Spaced(text, units)
    ensures FewestThroughout(text, units, maxChars) <==> NoWaste(units, 0, maxChars)
  {
    hide Packable, Exact, Spaced, Taken, Least, NoWaste, FewestAfter;
    if NoWaste(units, 0, maxChars) {
      forall n | 0 <= n <= |units| ensures FewestAfter(text, units[..n], maxChars) {
        PrefixInOrder(text, units, n, maxChars);
        NoWasteIsLeast(units, n, 0, maxChars);
        FewestIfLeast(text, units[..n], maxChars);
      }
    } else {
      var n := WasteShows(units, 0, maxChars);
      PrefixInOrder(text, units, n, maxChars);
      NotFewestIfMore(text, units[..n], maxChars);
    }
  }

  // ---------------------------------------------------------------- documents

  /** A document whose pieces waste nothing gets the fewest chunks any grouping of its pieces gives. */
  lemma NoWasteGivesFewest(
    doc: CanonicalDocument, maxChars: nat, digit: char -> bool, w: Witness, chunks: seq<ChunkDraft>)
    requires 1 <= maxChars && IsChunking(doc, maxChars, digit, w, chunks)
    ensures FewestThroughout(doc.text, w.pieces, maxChars) <==> NoWaste(w.pieces, 0, maxChars)
    ensures NoWaste(w.pieces, 0, maxChars) ==>
              forall other | Rival(w.pieces, maxChars, other) :: |chunks| <= Yield(doc.text, other)
  {
    ChunkCounts(doc, maxChars, digit, w, chunks);
    DocumentPiecesTile(doc, maxChars, digit, w, chunks);
    hide IsChunking, Greedy, Packable, Exact, Tiles, Spaced, NoWaste, Yield, Rival;
    TilesAreSpaced(doc.text, w.pieces, if doc.kind.Empty? then 0 else |doc.text|);
    FewestIffNoWaste(doc.text, w.pieces, maxChars);
    assert w.pieces[..|w.pieces|] == w.pieces;
    assert Packs(w.pieces, maxChars, w.groups);
  }

  lemma {:induction false} WrittenPiecesWasteNothing(units: seq<LogicalUnit>, i: nat, maxChars: nat)
    requires i <= |units| && forall u | u in units :: !Blank(u.text)
    ensures NoWaste(units, i, maxChars)
    decreases |units| - i
  {
    hide Blank;
    if i < |units| {
      var end := Reach(units, i, i + 1, maxChars);
      assert units[i] in units;
      WrittenPiecesWasteNothing(units, end, maxChars);
    }
  }

  lemma FittingUnitStays(u: LogicalUnit, maxChars: nat, pieces: seq<LogicalUnit>)
    requires 1 <= maxChars && |u.text| <= maxChars && IsSplit(u, maxChars, pieces)
    ensures pieces == [u]
  {
  }

  /** Units within the budget are not split. */
  lemma {:induction false} FittingUnitsStay(us: seq<LogicalUnit>, maxChars: nat, out: seq<LogicalUnit>)
    requires 1 <= maxChars && IsExpansion(us, maxChars, out) && forall u | u in us :: |u.text| <= maxChars
    ensures out == us
    decreases |us|
  {
    hide IsSplit;
    if us != [] {
      var front, last := us[..|us| - 1], us[|us| - 1];
      assert last in us;
      var n :| 0 <= n <= |out| && IsExpansion(front, maxChars, out[..n]) && IsSplit(last, maxChars, out[n..]);
      FittingUnitsStay(front, maxChars, out[..n]);
      FittingUnitStays(last, maxChars, out[n..]);
      assert out == out[..n] + out[n..] && us == front + [last];
    }
  }

  lemma UnitIsWritten(text: string, codeMode: bool, digit: char -> bool, u: LogicalUnit)
    requires IsUnit(text, codeMode, digit, u)
    ensures !Blank(u.text)
  {
    hide IsBlock, SpanEnd, Lines, Offset, Blank;
    BlockStartsNonBlank(Lines(text), codeMode, digit, u.lineStart - 1, u.lineEnd, u.blockType);
    BodyIsNotBlank(text, u.lineStart - 1, u.lineEnd);
  }

  lemma UnitsAreWritten(text: string, codeMode: bool, digit: char -> bool, units: seq<LogicalUnit>)
    requires Unitized(text, codeMode, digit, units)
    ensures forall u | u in units :: !Blank(u.text)
  {
    hide IsUnit, Blank, AllPaths, LinesCovered, LinesInOrder;
    forall u | u in units ensures !Blank(u.text) {
      UnitIsWritten(text, codeMode, digit, u);
    }
  }

  lemma FixedKeepsTexts(text: string, us: seq<LogicalUnit>, vs: seq<LogicalUnit>)
    requires LinesFixed(text, us, vs) && forall u | u in us :: !Blank(u.text)
    ensures forall v | v in vs :: !Blank(v.text)
  {
    hide Blank, IsLineNumber;
    forall k | 0 <= k < |vs| ensures !Blank(vs[k].text) {
      assert us[k] in us;
    }
  }

  /** A document none of whose units exceeds the budget gets the fewest chunks that can be. */
  lemma FittingUnitsGiveFewest(
    doc: CanonicalDocument, maxChars: nat, digit: char -> bool, w: Witness, chunks: seq<ChunkDraft>)
    requires 1 <= maxChars && IsChunking(doc, maxChars, digit, w, chunks)
    requires forall u | u in w.units :: |u.text| <= maxChars
    ensures forall other | Rival(w.pieces, maxChars, other) :: |chunks| <= Yield(doc.text, other)
  {
    hide Unitized, LinesFixed, IsExpansion, Greedy, Emitted, Tiles, Rival, Exact, Blank, NoWaste, Yield;
    if !doc.kind.Empty? {
      UnitsAreWritten(doc.text, doc.kind.Code?, digit, w.units);
    }
    FittingUnitsStay(w.units, maxChars, w.expanded);
    FixedKeepsTexts(doc.text, w.expanded, w.pieces);
    WrittenPiecesWasteNothing(w.pieces, 0, maxChars);
    NoWasteGivesFewest(doc, maxChars, digit, w, chunks);
  }
}
