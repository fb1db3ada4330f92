/** Cutting a unit that exceeds the character budget. */
module Splitting {
  import opened Text
  import opened Units

  /** `s.rfind(c)` */
  function RFind(s: string, c: char): (r: int)
    ensures -1 <= r < |s|
    ensures r >= 0 ==> s[r] == c
    ensures forall k | r < k < |s| :: s[k] != c
  {
    if s == "" then -1 else if s[|s| - 1] == c then |s| - 1 else RFind(s[..|s| - 1], c)
  }

  /** `c` occurs in `rest[..maxChars]` at or after a quarter of the budget. */
  ghost predicate Breakable(rest: string, maxChars: nat, c: char)
    requires maxChars <= |rest|
  {
    exists k | maxChars / 4 <= k < maxChars :: rest[k] == c
  }

  /** A cut just behind the last `c` of the window. */
  ghost predicate CutsAfterLast(rest: string, maxChars: nat, c: char, cut: nat)
    requires maxChars <= |rest|
  {
    && maxChars / 4 < cut <= maxChars
    && rest[cut - 1] == c
    && (forall k | cut <= k < maxChars :: rest[k] != c)
  }

  /** Behind the last newline if one comes late enough, else behind such a space, else at the budget. */
  ghost predicate PreferredCut(rest: string, maxChars: nat, cut: nat)
    requires 1 <= maxChars <= |rest|
  {
    if Breakable(rest, maxChars, '\n') then CutsAfterLast(rest, maxChars, '\n', cut)
    else if Breakable(rest, maxChars, ' ') then CutsAfterLast(rest, maxChars, ' ', cut)
    else cut == maxChars
  }

  function PieceOf(u: LogicalUnit, lo: nat, hi: nat): LogicalUnit
    requires lo <= hi <= |u.text|
  {
    u.(text := u.text[lo..hi], charStart := u.charStart + lo, charEnd := u.charStart + hi, blockType := HardSplit)
  }

  /** A cut of what is left of a unit: all of it if it fits, else where the preference says. */
  ghost predicate CutsWell(rest: string, maxChars: nat, cut: nat)
    requires 1 <= maxChars
  {
    && 1 <= cut <= maxChars
    && if |rest| <= maxChars then cut == |rest| else PreferredCut(rest, maxChars, cut)
  }

  /** The pieces lie end to end, cover `u.text[..upto]`, and each is cut in the right place. */
  ghost predicate IsSplitUpTo(u: LogicalUnit, maxChars: nat, pieces: seq<LogicalUnit>, upto: nat)
    requires 1 <= maxChars
  {
    && upto <= |u.text|
    && if pieces == [] then upto == 0
       else
         var last := pieces[|pieces| - 1];
         var cut := |last.text|;
         && cut <= upto
         && last == PieceOf(u, upto - cut, upto)
         && CutsWell(u.text[upto - cut..], maxChars, cut)
         && IsSplitUpTo(u, maxChars, pieces[..|pieces| - 1], upto - cut)
  }

  ghost predicate IsSplit(u: LogicalUnit, maxChars: nat, pieces: seq<LogicalUnit>)
    requires 1 <= maxChars
  {
    if |u.text| <= maxChars then pieces == [u] else IsSplitUpTo(u, maxChars, pieces, |u.text|)
  }

  method SplitOversized(u: LogicalUnit, maxChars: nat) returns (out: seq<LogicalUnit>)
    requires 1 <= maxChars
    ensures IsSplit(u, maxChars, out)
  {
    hide IsSplitUpTo, PreferredCut, PieceOf;
    if |u.text| <= maxChars {
      return [u];
    }
    out := [];
    var text, pos := u.text, 0;
    NoPieces(u, maxChars, 0);
    while pos < |text|
      invariant pos <= |text|
      invariant IsSplitUpTo(u, maxChars, out, pos)
    {
      var remaining := |text| - pos;
      var cut;
      if remaining <= maxChars {
        cut := remaining;
      } else {
        cut := WindowCut(text[pos..], maxChars);
      }
      AddPiece(u, maxChars, out, pos, cut);
      out := out + [PieceOf(u, pos, pos + cut)];
      pos := pos + cut;
    }
  }

  lemma NoPieces(u: LogicalUnit, maxChars: nat, upto: nat)
    requires 1 <= maxChars
    ensures IsSplitUpTo(u, maxChars, [], upto) <==> upto == 0
  {
  }

  lemma AddPiece(u: LogicalUnit, maxChars: nat, out: seq<LogicalUnit>, pos: nat, cut: nat)
    requires 1 <= maxChars && IsSplitUpTo(u, maxChars, out, pos)
    requires pos + cut <= |u.text| && CutsWell(u.text[pos..], maxChars, cut)
    ensures IsSplitUpTo(u, maxChars, out + [PieceOf(u, pos, pos + cut)], pos + cut)
  {
    hide CutsWell;
    var last := PieceOf(u, pos, pos + cut);
    var all := out + [last];
    assert all[..|all| - 1] == out && all[|all| - 1] == last;
  }

  method WindowCut(rest: string, maxChars: nat) returns (cut: int)
    requires 1 <= maxChars < |rest|
    ensures 1 <= cut <= maxChars && PreferredCut(rest, maxChars, cut)
  {
    var window := rest[..maxChars];
    cut := RFind(window, '\n');
    if cut < maxChars / 4 {
      cut := RFind(window, ' ');
    }
    if cut < maxChars / 4 {
      cut := maxChars;
    } else {
      cut := cut + 1;
    }
    assert Breakable(rest, maxChars, '\n') <==> RFind(window, '\n') >= maxChars / 4 by {
      if RFind(window, '\n') >= maxChars / 4 { assert rest[RFind(window, '\n')] == '\n'; }
      if Breakable(rest, maxChars, '\n') {
        var k :| maxChars / 4 <= k < maxChars && rest[k] == '\n';
        assert window[k] == '\n';
      }
    }
    assert Breakable(rest, maxChars, ' ') <==> RFind(window, ' ') >= maxChars / 4 by {
      if RFind(window, ' ') >= maxChars / 4 { assert rest[RFind(window, ' ')] == ' '; }
      if Breakable(rest, maxChars, ' ') {
        var k :| maxChars / 4 <= k < maxChars && rest[k] == ' ';
        assert window[k] == ' ';
      }
    }
    forall k | cut <= k < maxChars ensures rest[k] == window[k] {}
  }

  // ---------------------------------------------------------------- what splitting guarantees

  function ConcatTexts(us: seq<LogicalUnit>): string {
    if us == [] then "" else ConcatTexts(us[..|us| - 1]) + us[|us| - 1].text
  }

  /** A cut that does not end the unit is longer than a quarter of the budget. */
  lemma CutBounds(rest: string, maxChars: nat, cut: nat)
    requires 1 <= maxChars && CutsWell(rest, maxChars, cut)
    ensures 1 <= cut <= maxChars
    ensures cut < |rest| ==> cut > maxChars / 4
  {
  }

  /** Dropping the last piece leaves a splitting of a shorter prefix. */
  lemma SplitFront(u: LogicalUnit, maxChars: nat, ps: seq<LogicalUnit>, upto: nat)
    requires 1 <= maxChars && IsSplitUpTo(u, maxChars, ps, upto) && ps != []
    ensures var n := |ps| - 1; var lo := upto - |ps[n].text|;
            && 0 <= lo < upto <= |u.text|
            && IsSplitUpTo(u, maxChars, ps[..n], lo)
            && ps[n] == PieceOf(u, lo, upto)
            && CutsWell(u.text[lo..], maxChars, upto - lo)
  {
    CutBounds(u.text[upto - |ps[|ps| - 1].text|..], maxChars, |ps[|ps| - 1].text|);
    hide CutsWell;
  }

  lemma {:induction false} PiecesConcat(u: LogicalUnit, maxChars: nat, pieces: seq<LogicalUnit>, upto: nat)
    requires 1 <= maxChars && IsSplitUpTo(u, maxChars, pieces, upto)
    ensures ConcatTexts(pieces) == u.text[..upto]
    decreases |pieces|
  {
    hide IsSplitUpTo, CutsWell;
    NoPieces(u, maxChars, upto);
    if pieces != [] {
      SplitFront(u, maxChars, pieces, upto);
      var n := |pieces| - 1;
      var lo := upto - |pieces[n].text|;
      PiecesConcat(u, maxChars, pieces[..n], lo);
      assert u.text[..lo] + u.text[lo..upto] == u.text[..upto];
    }
  }

  lemma {:induction false} PieceSizes(u: LogicalUnit, maxChars: nat, pieces: seq<LogicalUnit>, upto: nat)
    requires 1 <= maxChars && IsSplitUpTo(u, maxChars, pieces, upto)
    ensures forall k | 0 <= k < |pieces| :: 1 <= |pieces[k].text| <= maxChars
    ensures forall k | 0 <= k < |pieces| && (k < |pieces| - 1 || upto < |u.text|) :: |pieces[k].text| > maxChars / 4
    decreases |pieces|
  {
    hide IsSplitUpTo, CutsWell;
    NoPieces(u, maxChars, upto);
    if pieces != [] {
      SplitFront(u, maxChars, pieces, upto);
      var n := |pieces| - 1;
      var cut := |pieces[n].text|;
      PieceSizes(u, maxChars, pieces[..n], upto - cut);
      CutBounds(u.text[upto - cut..], maxChars, cut);
    }
  }

  /** `text[from..from + n]` ends behind the last late newline of its window, else a late blank, else at the budget. */
  ghost predicate EndsWell(text: string, from: nat, n: nat, maxChars: nat) {
    && 1 <= n <= maxChars && from + maxChars <= |text|
    && var late := maxChars / 4;
       || (n > late && text[from + n - 1] == '\n' && forall q | from + n <= q < from + maxChars :: text[q] != '\n')
       || (n > late && text[from + n - 1] == ' '
           && (forall q | from + late <= q < from + maxChars :: text[q] != '\n')
           && forall q | from + n <= q < from + maxChars :: text[q] != ' ')
       || (n == maxChars && forall q | from + late <= q < from + maxChars :: text[q] != '\n' && text[q] != ' ')
  }

  /** What the preferred cut means in the whole text. */
  lemma RestOfCut(text: string, from: nat, maxChars: nat, n: nat)
    requires from <= |text| && 1 <= maxChars < |text| - from && CutsWell(text[from..], maxChars, n)
    ensures EndsWell(text, from, n, maxChars)
  {
    var rest := text[from..];
    assert forall q | from <= q < |text| :: text[q] == rest[q - from];
  }

  lemma {:induction false} PiecesEnd(u: LogicalUnit, maxChars: nat, pieces: seq<LogicalUnit>, upto: nat, k: nat)
    returns (from: nat)
    requires 1 <= maxChars && IsSplitUpTo(u, maxChars, pieces, upto) && k < |pieces|
    ensures from + |pieces[k].text| <= upto <= |u.text|
    ensures k == |pieces| - 1 ==> from + |pieces[k].text| == upto
    ensures k < |pieces| - 1 ==> from + |pieces[k].text| < upto
    ensures pieces[k] == PieceOf(u, from, from + |pieces[k].text|)
    ensures from + |pieces[k].text| < |u.text| ==> EndsWell(u.text, from, |pieces[k].text|, maxChars)
    decreases |pieces|
  {
    hide IsSplitUpTo, CutsWell, EndsWell;
    SplitFront(u, maxChars, pieces, upto);
    var n := |pieces| - 1;
    var cut := |pieces[n].text|;
    CutBounds(u.text[upto - cut..], maxChars, cut);
    if k < n {
      from := PiecesEnd(u, maxChars, pieces[..n], upto - cut, k);
    } else {
      from := upto - cut;
      if upto < |u.text| {
        NotAll(u.text[from..], maxChars, cut);
        RestOfCut(u.text, from, maxChars, cut);
      }
    }
  }

  lemma NotAll(rest: string, maxChars: nat, cut: nat)
    requires 1 <= maxChars && CutsWell(rest, maxChars, cut) && cut < |rest|
    ensures maxChars < |rest|
  {
  }

  /**
   * Where a piece that is not the last ends: behind the last newline of the window if that comes at a
   * quarter of the budget or later, else behind such a last blank, else at the budget.
   */
  lemma PieceEnds(u: LogicalUnit, maxChars: nat, pieces: seq<LogicalUnit>, k: nat) returns (from: nat)
    requires 1 <= maxChars && IsSplit(u, maxChars, pieces) && k < |pieces| - 1
    ensures var n, late := |pieces[k].text|, maxChars / 4;
            && from + maxChars <= |u.text| && 1 <= n <= maxChars
            && pieces[k] == u.(text := u.text[from..from + n], charStart := u.charStart + from,
                               charEnd := u.charStart + from + n, blockType := HardSplit)
            && (|| (n > late && u.text[from + n - 1] == '\n'
                    && forall q | from + n <= q < from + maxChars :: u.text[q] != '\n')
                || (n > late && u.text[from + n - 1] == ' '
                    && (forall q | from + late <= q < from + maxChars :: u.text[q] != '\n')
                    && forall q | from + n <= q < from + maxChars :: u.text[q] != ' ')
                || (n == maxChars
                    && forall q | from + late <= q < from + maxChars :: u.text[q] != '\n' && u.text[q] != ' '))
  {
    hide IsSplitUpTo;
    from := PiecesEnd(u, maxChars, pieces, |u.text|, k);
  }

  lemma {:induction false} PieceCount(u: LogicalUnit, maxChars: nat, pieces: seq<LogicalUnit>, upto: nat)
    requires 1 <= maxChars && IsSplitUpTo(u, maxChars, pieces, upto)
    ensures upto >= if upto < |u.text| || pieces == [] then |pieces| * (maxChars / 4 + 1)
                    else (|pieces| - 1) * (maxChars / 4 + 1) + 1
    decreases |pieces|
  {
    hide IsSplitUpTo, CutsWell, PieceOf;
    NoPieces(u, maxChars, upto);
    if pieces != [] {
      SplitFront(u, maxChars, pieces, upto);
      var n := |pieces| - 1;
      var cut := |pieces[n].text|;
      PieceCount(u, maxChars, pieces[..n], upto - cut);
      CutBounds(u.text[upto - cut..], maxChars, cut);
      assert (n + 1) * (maxChars / 4 + 1) == n * (maxChars / 4 + 1) + (maxChars / 4 + 1);
    }
  }

  /** The pieces' spans tile the unit's span. */
  lemma {:induction false} PiecesTile(u: LogicalUnit, maxChars: nat, pieces: seq<LogicalUnit>, upto: nat)
    requires 1 <= maxChars && IsSplitUpTo(u, maxChars, pieces, upto)
    ensures Ordered(UnitSpans(pieces))
    ensures forall k | 0 <= k < |pieces| ::
              u.charStart <= pieces[k].charStart && pieces[k].charEnd <= u.charStart + upto
    ensures forall p | u.charStart <= p < u.charStart + upto :: Covered(UnitSpans(pieces), p)
    decreases |pieces|
  {
    hide IsSplitUpTo, CutsWell;
    NoPieces(u, maxChars, upto);
    if pieces != [] {
      SplitFront(u, maxChars, pieces, upto);
      var n := |pieces| - 1;
      var lo := upto - |pieces[n].text|;
      PiecesTile(u, maxChars, pieces[..n], lo);
      var s := Span(u.charStart + lo, u.charStart + upto);
      assert UnitSpans(pieces) == UnitSpans(pieces[..n]) + [s];
      forall p | u.charStart <= p < u.charStart + upto ensures Covered(UnitSpans(pieces), p) {
        CoveredAppend(UnitSpans(pieces[..n]), [s], p);
        if p >= u.charStart + lo { assert [s][0].lo <= p < [s][0].hi; }
      }
    }
  }

  /** Splitting loses nothing, and makes at most ceil(length / (maxChars / 4 + 1)) pieces. */
  lemma SplitIsLossless(u: LogicalUnit, maxChars: nat, pieces: seq<LogicalUnit>)
    requires 1 <= maxChars && IsSplit(u, maxChars, pieces)
    ensures ConcatTexts(pieces) == u.text
    ensures forall k | 0 <= k < |pieces| :: |pieces[k].text| <= maxChars && (u.text != "" ==> |pieces[k].text| >= 1)
    ensures forall k | 0 <= k < |pieces| - 1 :: |pieces[k].text| > maxChars / 4
    ensures u.text != "" ==> |pieces| <= (|u.text| + maxChars / 4) / (maxChars / 4 + 1)
  {
    hide IsSplitUpTo, CutsWell;
    var n, m := |pieces|, maxChars / 4 + 1;
    if |u.text| <= maxChars {
      assert ConcatTexts(pieces) == ConcatTexts(pieces[..0]) + u.text == u.text;
      if u.text != "" {
        DivisionBound(1, |u.text| + m - 1, m);
      }
    } else {
      PiecesConcat(u, maxChars, pieces, |u.text|);
      PieceSizes(u, maxChars, pieces, |u.text|);
      PieceCount(u, maxChars, pieces, |u.text|);
      assert n * m == (n - 1) * m + m;
      DivisionBound(n, |u.text| + m - 1, m);
    }
  }

  lemma DivisionBound(n: nat, x: nat, m: nat)
    requires 1 <= m && n * m <= x
    ensures n <= x / m
  {
    var q := x / m;
    assert x == q * m + x % m;
    assert (q + 1) * m == q * m + m;
    assert q + 1 <= n ==> (q + 1) * m <= n * m;
  }
}
