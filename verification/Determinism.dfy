/** Each stage's contract fixes its result, so equal documents yield equal chunks. */
module Determinism {
  import opened Text
  import opened Units
  import opened Segments
  import opened Splitting
  import opened Packing
  import opened Canonical
  import opened Chunker

  // ---------------------------------------------------------------- splitting

  lemma CutIsUnique(rest: string, maxChars: nat, c: nat, d: nat)
    requires 1 <= maxChars && CutsWell(rest, maxChars, c) && CutsWell(rest, maxChars, d)
    ensures c == d
  {
  }

  lemma LastPiecesAgree(u: LogicalUnit, maxChars: nat, ps: seq<LogicalUnit>, a: nat, qs: seq<LogicalUnit>, b: nat)
    requires 1 <= maxChars && IsSplitUpTo(u, maxChars, ps, a) && IsSplitUpTo(u, maxChars, qs, b)
    requires |ps| == |qs| > 0 && a - |ps[|ps| - 1].text| == b - |qs[|ps| - 1].text|
    ensures a == b && ps[|ps| - 1] == qs[|ps| - 1]
  {
    SplitFront(u, maxChars, ps, a);
    SplitFront(u, maxChars, qs, b);
    hide IsSplitUpTo, CutsWell;
    var lo := a - |ps[|ps| - 1].text|;
    CutIsUnique(u.text[lo..], maxChars, a - lo, b - lo);
  }

  lemma SamePrefixes(ps: seq<LogicalUnit>, qs: seq<LogicalUnit>, n: nat)
    requires n <= |ps| && n <= |qs| && ps[..n] == qs[..n][..n]
    ensures ps[..n] == qs[..n]
    ensures |ps| == n + 1 <= |qs| && ps[n] == qs[n] ==> ps == qs[..n + 1]
  {
    assert qs[..n][..n] == qs[..n];
    if |ps| == n + 1 <= |qs| && ps[n] == qs[n] {
      assert ps == ps[..n] + [ps[n]] && qs[..n + 1] == qs[..n] + [qs[n]];
    }
  }

  /** Where the last piece begins. */
  lemma LastStart(u: LogicalUnit, maxChars: nat, ps: seq<LogicalUnit>, upto: nat) returns (lo: nat)
    requires 1 <= maxChars && IsSplitUpTo(u, maxChars, ps, upto) && ps != []
    ensures lo == upto - |ps[|ps| - 1].text| < upto
    ensures IsSplitUpTo(u, maxChars, ps[..|ps| - 1], lo)
  {
    SplitFront(u, maxChars, ps, upto);
    hide IsSplitUpTo, CutsWell, PieceOf;
    lo := upto - |ps[|ps| - 1].text|;
  }

  lemma NoPiecesFirst(u: LogicalUnit, maxChars: nat, ps: seq<LogicalUnit>, a: nat, qs: seq<LogicalUnit>, b: nat)
    requires 1 <= maxChars && IsSplitUpTo(u, maxChars, ps, a) && IsSplitUpTo(u, maxChars, qs, b)
    requires ps == []
    ensures if qs == [] then a == b else a < b
  {
    if qs != [] {
      var lo := LastStart(u, maxChars, qs, b);
    }
  }

  lemma {:induction false} SplitsAgree(
    u: LogicalUnit, maxChars: nat, ps: seq<LogicalUnit>, a: nat, qs: seq<LogicalUnit>, b: nat)
    requires 1 <= maxChars && IsSplitUpTo(u, maxChars, ps, a) && IsSplitUpTo(u, maxChars, qs, b)
    requires |ps| <= |qs|
    ensures ps == qs[..|ps|]
    ensures if |ps| == |qs| then a == b else a < b
    decreases |qs|
  {
    hide IsSplitUpTo, CutsWell, PieceOf;
    if ps == [] {
      NoPiecesFirst(u, maxChars, ps, a, qs, b);
    } else {
      var n := |qs| - 1;
      var lo := LastStart(u, maxChars, qs, b);
      if |ps| < |qs| {
        SplitsAgree(u, maxChars, ps, a, qs[..n], lo);
        SamePrefixes(qs[..n], qs, |ps|);
      } else {
        var lo' := LastStart(u, maxChars, ps, a);
        SplitsAgree(u, maxChars, ps[..n], lo', qs[..n], lo);
        LastPiecesAgree(u, maxChars, ps, a, qs, b);
        SamePrefixes(ps, qs, n);
      }
    }
  }

  lemma SplitIsUnique(u: LogicalUnit, maxChars: nat, ps: seq<LogicalUnit>, qs: seq<LogicalUnit>)
    requires 1 <= maxChars && IsSplit(u, maxChars, ps) && IsSplit(u, maxChars, qs)
    ensures ps == qs
  {
    if |u.text| > maxChars {
      if |ps| <= |qs| {
        SplitsAgree(u, maxChars, ps, |u.text|, qs, |u.text|);
      } else {
        SplitsAgree(u, maxChars, qs, |u.text|, ps, |u.text|);
      }
    }
  }

  lemma {:induction false} ExpansionIsUnique(
    us: seq<LogicalUnit>, maxChars: nat, ps: seq<LogicalUnit>, qs: seq<LogicalUnit>)
    requires 1 <= maxChars && IsExpansion(us, maxChars, ps) && IsExpansion(us, maxChars, qs)
    ensures ps == qs
    decreases |us|
  {
    hide IsSplit;
    if us != [] {
      var front, last := us[..|us| - 1], us[|us| - 1];
      var m :| 0 <= m <= |ps| && IsExpansion(front, maxChars, ps[..m]) && IsSplit(last, maxChars, ps[m..]);
      var n :| 0 <= n <= |qs| && IsExpansion(front, maxChars, qs[..n]) && IsSplit(last, maxChars, qs[n..]);
      ExpansionIsUnique(front, maxChars, ps[..m], qs[..n]);
      SplitIsUnique(last, maxChars, ps[m..], qs[n..]);
      assert ps == ps[..m] + ps[m..] && qs == qs[..n] + qs[n..];
    }
  }

  // ---------------------------------------------------------------- line numbers

  lemma LinesAreUnique(text: string, us: seq<LogicalUnit>, upto: nat, vs: seq<LogicalUnit>, ws: seq<LogicalUnit>)
    requires Tiles(text, UnitSpans(us), upto)
    requires LinesFixed(text, us, vs) && LinesFixed(text, us, ws)
    ensures vs == ws
  {
    forall k | 0 <= k < |us| ensures vs[k] == ws[k] {
      assert UnitSpans(us)[k].lo < UnitSpans(us)[k].hi <= |text|;
    }
  }

  // ---------------------------------------------------------------- packing

  lemma FirstNotShorter(gs: seq<seq<LogicalUnit>>, hs: seq<seq<LogicalUnit>>, maxChars: nat)
    requires gs != [] && hs != [] && Flatten(gs) == Flatten(hs) && Greedy(gs, maxChars) && Greedy(hs, maxChars)
    ensures |gs[0]| >= |hs[0]|
  {
    var m, flat := |gs[0]|, Flatten(gs);
    assert Grown(hs[0], maxChars) && Grown(gs[0], maxChars);
    hide Joins;
    assert flat[..m] == gs[0];
    if m < |hs[0]| {
      assert hs[0][..m] == flat[..m] && hs[0][m] == flat[m];
      assert Joins(hs[0][..m], hs[0][m], maxChars);
      NextMustBreak(gs, maxChars);
      assert false;
    }
  }

  lemma {:induction false} GreedyIsUnique(gs: seq<seq<LogicalUnit>>, hs: seq<seq<LogicalUnit>>, maxChars: nat)
    requires Flatten(gs) == Flatten(hs) && Greedy(gs, maxChars) && Greedy(hs, maxChars)
    ensures gs == hs
  {
    if gs == [] {
      assert hs != [] ==> Grown(hs[0], maxChars);
    } else {
      assert Grown(gs[0], maxChars);
      assert hs != [];
      FirstNotShorter(gs, hs, maxChars);
      FirstNotShorter(hs, gs, maxChars);
      var flat := Flatten(gs);
      assert gs[0] == flat[..|gs[0]|] == hs[0];
      assert Flatten(gs[1..]) == flat[|gs[0]|..] == Flatten(hs[1..]);
      GreedyTail(gs, maxChars);
      GreedyTail(hs, maxChars);
      GreedyIsUnique(gs[1..], hs[1..], maxChars);
      assert gs == [gs[0]] + gs[1..] && hs == [hs[0]] + hs[1..];
    }
  }

  // ---------------------------------------------------------------- emission

  lemma ChunkIsUnique(text: string, group: seq<LogicalUnit>, k: nat, c: ChunkDraft, d: ChunkDraft)
    requires IsChunkOf(text, group, k, c) && IsChunkOf(text, group, k, d) && c.charStart < c.charEnd
    ensures c == d
  {
    hide GroupType, HasHardSplit;
  }

  /** Equal documents and budgets yield equal chunks. */
  lemma ChunkingIsDeterministic(doc: CanonicalDocument, maxChars: nat, digit: char -> bool,
                                v: Witness, cs: seq<ChunkDraft>, w: Witness, ds: seq<ChunkDraft>)
    requires 1 <= maxChars
    requires IsChunking(doc, maxChars, digit, v, cs) && HasProvenance(doc.text, maxChars, cs)
    requires IsChunking(doc, maxChars, digit, w, ds) && HasProvenance(doc.text, maxChars, ds)
    ensures cs == ds
  {
    hide Unitized, IsExpansion, LinesFixed, Greedy, Tiles, IsChunkOf;
    if !doc.kind.Empty? {
      UnitsAreUnique(doc.text, doc.kind.Code?, digit, v.units, w.units);
    }
    ExpansionIsUnique(v.units, maxChars, v.expanded, w.expanded);
    LinesAreUnique(doc.text, v.expanded, if doc.kind.Empty? then 0 else |doc.text|, v.pieces, w.pieces);
    GreedyIsUnique(v.groups, w.groups, maxChars);
    var groups := Emitting(doc.text, v.groups);
    forall k | 0 <= k < |cs| ensures cs[k] == ds[k] {
      assert ChunkIsExact(doc.text, maxChars, cs[k], k);
      ChunkIsUnique(doc.text, groups[k], k, cs[k], ds[k]);
    }
  }
}
