/**
 * How many chunks a document gets. Packing makes as few groups as can be, but blank groups yield no
 * chunk, so a group that begins with a blank piece may waste room that another grouping would save.
 */
module ChunkCount {
  import opened Text
  import opened Canonical
  import opened Units
  import opened Packing
  import opened Chunker

  ghost predicate Yields(text: string, group: seq<LogicalUnit>) {
    group != [] && !BlankGroup(text, group)
  }

  /** How many chunks a grouping gives. */
  ghost function Yield(text: string, groups: seq<seq<LogicalUnit>>): nat {
    if groups == [] then 0 else (if Yields(text, groups[0]) then 1 else 0) + Yield(text, groups[1..])
  }

  /** The group yields a chunk, and that chunk begins with white space. */
  ghost predicate Led(text: string, group: seq<LogicalUnit>) {
    Yields(text, group) && Blank(group[0].text)
  }

  ghost function LedByBlank(text: string, groups: seq<seq<LogicalUnit>>): nat {
    if groups == [] then 0 else (if Led(text, groups[0]) then 1 else 0) + LedByBlank(text, groups[1..])
  }

  /** Where the units stop that fit the budget together with unit `i`. */
  function Reach(units: seq<LogicalUnit>, i: nat, j: nat, maxChars: nat): (r: nat)
    requires i < j <= |units|
    ensures j <= r <= |units|
    ensures forall k | j <= k < r :: units[k].charEnd - units[i].charStart <= maxChars
    ensures r < |units| ==> units[r].charEnd - units[i].charStart > maxChars
    decreases |units| - j
  {
    if j < |units| && units[j].charEnd - units[i].charStart <= maxChars then Reach(units, i, j + 1, maxChars) else j
  }

  /** The groups from unit `i` on when each begins at a unit that is not blank and takes what fits. */
  function Least(units: seq<LogicalUnit>, i: nat, maxChars: nat): nat
    requires i <= |units|
    decreases |units| - i
  {
    if i == |units| then 0
    else if Blank(units[i].text) then Least(units, i + 1, maxChars)
    else 1 + Least(units, Reach(units, i, i + 1, maxChars), maxChars)
  }

  ghost predicate Fit(groups: seq<seq<LogicalUnit>>, maxChars: nat) {
    forall g | 0 <= g < |groups| :: GroupLength(groups[g]) <= maxChars
  }

  /** White space all over a slice is white space all over a part of it. */
  lemma BlankPart(text: string, lo: nat, from: nat, to: nat, hi: nat)
    requires lo <= from <= to <= hi <= |text| && Blank(text[lo..hi])
    ensures Blank(text[from..to])
  {
    forall k | 0 <= k < to - from ensures IsSpace(text[from..to][k]) {
      assert text[from..to][k] == text[from + k] == text[lo..hi][from + k - lo];
    }
  }

  /** A group of consecutive units with a unit that is not blank is not blank. */
  lemma NonBlankUnitYields(text: string, units: seq<LogicalUnit>, maxChars: nat, lo: nat, i: nat, hi: nat)
    requires Packable(units, maxChars) && Exact(text, units, maxChars) && lo <= i < hi <= |units|
    requires !Blank(units[i].text)
    ensures Yields(text, units[lo..hi])
  {
    hide Blank, Packable;
    var group := units[lo..hi];
    PackableOrder(units, maxChars, lo, i);
    PackableOrder(units, maxChars, i, hi - 1);
    assert IsSlice(text, units[i]) && IsSlice(text, units[lo]) && IsSlice(text, units[hi - 1]);
    assert group[0] == units[lo] && group[|group| - 1] == units[hi - 1];
    if Blank(text[units[lo].charStart..units[hi - 1].charEnd]) {
      BlankPart(text, units[lo].charStart, units[i].charStart, units[i].charEnd, units[hi - 1].charEnd);
    }
  }

  /** No grouping that fits the budget gives fewer chunks. */
  lemma {:induction false} LeastIsLeast(
    text: string, units: seq<LogicalUnit>, maxChars: nat, i: nat, j: nat, other: seq<seq<LogicalUnit>>)
    requires Packable(units, maxChars) && Exact(text, units, maxChars) && j <= i <= |units|
    requires Flatten(other) == units[j..] && Fit(other, maxChars)
    ensures Least(units, i, maxChars) <= Yield(text, other)
    decreases |units| - i + |other|
  {
    hide Packable, Exact, Yields;
    if i == |units| {
    } else if Blank(units[i].text) {
      LeastIsLeast(text, units, maxChars, i + 1, j, other);
    } else {
      assert other != [];
      var first, j' := other[0], j + |other[0]|;
      FirstOf(units, j, other);
      if j' <= i {
        LeastIsLeast(text, units, maxChars, i, j', other[1..]);
      } else {
        NonBlankUnitYields(text, units, maxChars, j, i, j');
        ReachesPast(units, maxChars, i, j, j');
        LeastIsLeast(text, units, maxChars, Reach(units, i, i + 1, maxChars), j', other[1..]);
      }
    }
  }

  lemma FirstOf(units: seq<LogicalUnit>, j: nat, other: seq<seq<LogicalUnit>>)
    requires j <= |units| && Flatten(other) == units[j..] && other != []
    ensures j + |other[0]| <= |units| && other[0] == units[j..j + |other[0]|]
    ensures Flatten(other[1..]) == units[j + |other[0]|..]
  {
    assert units[j..][|other[0]|..] == units[j + |other[0]|..];
    assert other[0] == Flatten(other)[..|other[0]|];
  }

  /** What fits together with an earlier unit fits together with this one. */
  lemma ReachesPast(units: seq<LogicalUnit>, maxChars: nat, i: nat, j: nat, hi: nat)
    requires Packable(units, maxChars) && j <= i < hi <= |units| && GroupLength(units[j..hi]) <= maxChars
    ensures Reach(units, i, i + 1, maxChars) >= hi
  {
    var r := Reach(units, i, i + 1, maxChars);
    assert units[j..hi][0] == units[j] && units[j..hi][hi - j - 1] == units[hi - 1];
    PackableOrder(units, maxChars, j, i);
    if r < hi {
      PackableOrder(units, maxChars, r, hi - 1);
    }
  }

  /** And one gives that many. */
  lemma {:induction false} LeastIsAttained(text: string, units: seq<LogicalUnit>, maxChars: nat, i: nat)
    returns (groups: seq<seq<LogicalUnit>>)
    requires Packable(units, maxChars) && Exact(text, units, maxChars) && i <= |units|
    ensures Flatten(groups) == units[i..] && Fit(groups, maxChars) && Yield(text, groups) == Least(units, i, maxChars)
    decreases |units| - i
  {
    hide Exact, Yields, Packable, Blank, Reach;
    if i == |units| {
      groups := [];
    } else {
      var blank := Blank(units[i].text);
      var hi := if blank then i + 1 else Reach(units, i, i + 1, maxChars);
      var rest := LeastIsAttained(text, units, maxChars, hi);
      var first := units[i..hi];
      groups := [first] + rest;
      assert groups[1..] == rest && units[i..] == first + units[hi..];
      assert first[0] == units[i] && first[|first| - 1] == units[hi - 1];
      ReachFits(units, maxChars, i, hi);
      if blank {
        BlankUnitYieldsNothing(text, units, maxChars, i);
      } else {
        NonBlankUnitYields(text, units, maxChars, i, i, hi);
      }
    }
  }

  lemma ReachFits(units: seq<LogicalUnit>, maxChars: nat, i: nat, hi: nat)
    requires Packable(units, maxChars) && i < |units|
    requires hi == i + 1 || hi == Reach(units, i, i + 1, maxChars)
    ensures units[hi - 1].charEnd - units[i].charStart <= maxChars
  {
  }

  lemma BlankUnitYieldsNothing(text: string, units: seq<LogicalUnit>, maxChars: nat, i: nat)
    requires Exact(text, units, maxChars) && i < |units| && Blank(units[i].text)
    ensures !Yields(text, units[i..i + 1])
  {
    assert IsSlice(text, units[i]) && units[i..i + 1] == [units[i]];
  }

  /** Greedy groups that do not begin with a blank piece are never more than the chunks of any other grouping. */
  lemma {:induction false} AnchoredStayAhead(
    text: string, units: seq<LogicalUnit>, maxChars: nat, i: nat, j: nat,
    mine: seq<seq<LogicalUnit>>, other: seq<seq<LogicalUnit>>)
    requires Packable(units, maxChars) && Exact(text, units, maxChars) && j <= i <= |units|
    requires Flatten(mine) == units[i..] && Greedy(mine, maxChars)
    requires Flatten(other) == units[j..] && Fit(other, maxChars)
    ensures Yield(text, mine) <= Yield(text, other) + LedByBlank(text, mine)
    decreases |mine| + |other|
  {
    hide Packable, Exact, Yields;
    if mine == [] {
    } else {
      assert Grown(mine[0], maxChars);
      hide Grown, Joins;
      FirstOf(units, i, mine);
      GreedyTail(mine, maxChars);
      var i' := i + |mine[0]|;
      if Blank(mine[0][0].text) {
        AnchoredStayAhead(text, units, maxChars, i', j, mine[1..], other);
      } else {
        assert other != [] by { assert |units[j..]| > 0; }
        FirstOf(units, j, other);
        var j' := j + |other[0]|;
        if j' <= i {
          AnchoredStayAhead(text, units, maxChars, i, j', mine, other[1..]);
        } else {
          assert mine[0][0] == units[i];
          NonBlankUnitYields(text, units, maxChars, j, i, j');
          FirstGroupReaches(units, maxChars, i, j, mine, other[0]);
          AnchoredStayAhead(text, units, maxChars, i', j', mine[1..], other[1..]);
        }
      }
    }
  }

  // ---------------------------------------------------------------- the chunks of a document

  lemma {:induction false} YieldAppend(text: string, front: seq<seq<LogicalUnit>>, last: seq<LogicalUnit>)
    ensures Yield(text, front + [last]) == Yield(text, front) + if Yields(text, last) then 1 else 0
  {
    hide Yields;
    if front == [] {
      assert front + [last] == [last];
    } else {
      assert (front + [last])[1..] == front[1..] + [last];
      YieldAppend(text, front[1..], last);
    }
  }

  lemma {:induction false} EmittedCount(text: string, groups: seq<seq<LogicalUnit>>)
    requires forall g | 0 <= g < |groups| :: groups[g] != []
    ensures |Emitting(text, groups)| == Yield(text, groups)
    decreases |groups|
  {
    hide BlankGroup;
    if groups != [] {
      var n := |groups| - 1;
      EmittedCount(text, groups[..n]);
      YieldAppend(text, groups[..n], groups[n]);
      assert groups == groups[..n] + [groups[n]];
    }
  }

  /** A grouping of the same pieces that packing could have chosen. */
  ghost predicate Rival(pieces: seq<LogicalUnit>, maxChars: nat, other: seq<seq<LogicalUnit>>) {
    Flatten(other) == pieces && Fit(other, maxChars)
  }

  lemma ChunkCounts(
    doc: CanonicalDocument, maxChars: nat, digit: char -> bool, w: Witness, chunks: seq<ChunkDraft>)
    requires 1 <= maxChars && IsChunking(doc, maxChars, digit, w, chunks)
    ensures |chunks| == Yield(doc.text, w.groups) && Greedy(w.groups, maxChars) && Flatten(w.groups) == w.pieces
    ensures Packable(w.pieces, maxChars) && Exact(doc.text, w.pieces, maxChars) && Fit(w.groups, maxChars)
  {
    hide Unitized, IsExpansion, IsChunkOf;
    forall g | 0 <= g < |w.groups| ensures w.groups[g] != [] {
      assert Grown(w.groups[g], maxChars);
    }
    hide Greedy;
    EmittedCount(doc.text, w.groups);
    DocumentPiecesTile(doc, maxChars, digit, w, chunks);
    ExactIsPackable(doc.text, w.pieces, if doc.kind.Empty? then 0 else |doc.text|, maxChars);
    forall g | 0 <= g < |w.groups| ensures GroupLength(w.groups[g]) <= maxChars {
      GreedyFits(w.pieces, w.groups, maxChars, g);
    }
  }

  lemma DocumentPiecesTile(
    doc: CanonicalDocument, maxChars: nat, digit: char -> bool, w: Witness, chunks: seq<ChunkDraft>)
    requires 1 <= maxChars && IsChunking(doc, maxChars, digit, w, chunks)
    ensures Tiles(doc.text, UnitSpans(w.pieces), if doc.kind.Empty? then 0 else |doc.text|)
  {
    hide Unitized, IsExpansion, Tiles, Greedy, Emitted, IsLineNumber;
    assert UnitSpans(w.pieces) == UnitSpans(w.expanded);
  }

  /**
   * The fewest chunks any grouping of the pieces gives is `Least`, and a document gets no more than
   * that plus the number of its chunks that begin with a blank piece.
   */
  lemma ChunksAgainstFewest(
    doc: CanonicalDocument, maxChars: nat, digit: char -> bool, w: Witness, chunks: seq<ChunkDraft>)
    requires 1 <= maxChars && IsChunking(doc, maxChars, digit, w, chunks)
    ensures var fewest := Least(w.pieces, 0, maxChars);
            && fewest <= |chunks| <= fewest + LedByBlank(doc.text, w.groups)
            && (forall other | Rival(w.pieces, maxChars, other) :: fewest <= Yield(doc.text, other))
            && (exists other :: Rival(w.pieces, maxChars, other) && Yield(doc.text, other) == fewest)
  {
    ChunkCounts(doc, maxChars, digit, w, chunks);
    hide IsChunking, Greedy, Packable, Exact, Yield, Least, LedByBlank;
    assert w.pieces[0..] == w.pieces;
    forall other | Rival(w.pieces, maxChars, other) ensures Least(w.pieces, 0, maxChars) <= Yield(doc.text, other) {
      LeastIsLeast(doc.text, w.pieces, maxChars, 0, 0, other);
    }
    assert Rival(w.pieces, maxChars, w.groups);
    var best := LeastIsAttained(doc.text, w.pieces, maxChars, 0);
    assert Rival(w.pieces, maxChars, best);
    AnchoredStayAhead(doc.text, w.pieces, maxChars, 0, 0, w.groups, best);
  }
}
