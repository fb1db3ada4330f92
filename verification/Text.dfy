/** Character and line vocabulary shared by the canonicalizer and the chunker. */
module Text {

  /** A half-open character span `[lo, hi)`. */
  datatype Span = Span(lo: nat, hi: nat)

  /** The white space of `str.isspace`, `str.strip` and the regular expression class `\s`. */
  predicate IsSpace(c: char) {
    || '\t' <= c <= '\r'
    || '\U{1C}' <= c <= ' '
    || c == '\U{85}'
    || c == '\U{A0}'
    || c == '\U{1680}'
    || '\U{2000}' <= c <= '\U{200A}'
    || c == '\U{2028}'
    || c == '\U{2029}'
    || c == '\U{202F}'
    || c == '\U{205F}'
    || c == '\U{3000}'
  }

  /** `not s.strip()` */
  predicate Blank(s: string) {
    forall k | 0 <= k < |s| :: IsSpace(s[k])
  }

  ghost predicate BlankIn(t: string, lo: nat, hi: nat)
    requires lo <= hi <= |t|
  {
    forall k | lo <= k < hi :: IsSpace(t[k])
  }

  /** The characters of `s` that are not white space, in order. */
  function Squeeze(s: string): string {
    if s == "" then "" else (if IsSpace(s[0]) then "" else [s[0]]) + Squeeze(s[1..])
  }

  lemma {:induction false} SqueezeConcat(a: string, b: string)
    ensures Squeeze(a + b) == Squeeze(a) + Squeeze(b)
  {
    if a == "" {
      assert a + b == b;
    } else {
      assert (a + b)[1..] == a[1..] + b;
      SqueezeConcat(a[1..], b);
    }
  }

  lemma {:induction false} SqueezeBlank(s: string)
    ensures Blank(s) <==> Squeeze(s) == ""
  {
    if s != "" {
      SqueezeBlank(s[1..]);
      assert Blank(s) <==> IsSpace(s[0]) && Blank(s[1..]) by {
        if IsSpace(s[0]) && Blank(s[1..]) {
          forall k | 0 <= k < |s| ensures IsSpace(s[k]) {
            if k > 0 { assert s[k] == s[1..][k - 1]; }
          }
        }
      }
    }
  }

  /** Text without white space is left alone, so with `SqueezeConcat` and `SqueezeBlank` nothing else is removed. */
  lemma {:induction false} SqueezeWord(s: string)
    requires forall c | c in s :: !IsSpace(c)
    ensures Squeeze(s) == s
  {
    if s != "" {
      SqueezeWord(s[1..]);
      assert s[0] in s && [s[0]] + s[1..] == s;
    }
  }

  /** Blanks, tabs and line ends are white space; the visible characters of ASCII are not. */
  lemma WhiteSpaceOfAscii(c: char)
    ensures c <= '~' ==> (IsSpace(c) <==> c == ' ' || '\t' <= c <= '\r' || '\U{1C}' <= c <= '\U{1F}')
  {
  }

  function LStrip(s: string): string {
    if s != "" && IsSpace(s[0]) then LStrip(s[1..]) else s
  }

  function RStrip(s: string): string {
    if s != "" && IsSpace(s[|s| - 1]) then RStrip(s[..|s| - 1]) else s
  }

  function Strip(s: string): string {
    RStrip(LStrip(s))
  }

  // ---------------------------------------------------------------- lines

  /** `t.split("\n")` */
  function Lines(t: string): (ls: seq<string>)
    ensures |ls| >= 1
  {
    if t == "" then [""]
    else
      var rest := Lines(t[1..]);
      if t[0] == '\n' then [""] + rest else [[t[0]] + rest[0]] + rest[1..]
  }

  /** `nl.join(ls)` */
  function JoinWith(ls: seq<string>, nl: string): string {
    if ls == [] then "" else if |ls| == 1 then ls[0] else ls[0] + nl + JoinWith(ls[1..], nl)
  }

  /** `"\n".join(ls)` */
  function Join(ls: seq<string>): string {
    JoinWith(ls, "\n")
  }

  predicate NewlineFree(s: string) {
    '\n' !in s
  }

  lemma {:induction false} LinesAreNewlineFree(t: string)
    ensures forall k | 0 <= k < |Lines(t)| :: NewlineFree(Lines(t)[k])
  {
    if t != "" {
      LinesAreNewlineFree(t[1..]);
    }
  }

  lemma {:induction false} JoinLines(t: string)
    ensures Join(Lines(t)) == t
  {
    if t != "" {
      JoinLines(t[1..]);
      var rest := Lines(t[1..]);
      if t[0] == '\n' {
        assert Lines(t)[1..] == rest;
      } else if |rest| > 1 {
        assert Lines(t)[1..] == rest[1..];
      }
    }
  }

  lemma {:induction false} LinesOfLine(s: string)
    requires NewlineFree(s)
    ensures Lines(s) == [s]
  {
    if s != "" {
      LinesOfLine(s[1..]);
      assert s[0] in s && [s[0]] + s[1..] == s;
    }
  }

  lemma {:induction false} LinesOfLineThen(s: string, t: string)
    requires NewlineFree(s)
    ensures Lines(s + "\n" + t) == [s] + Lines(t)
  {
    if s == "" {
      assert (s + "\n" + t)[1..] == t;
    } else {
      assert (s + "\n" + t)[1..] == s[1..] + "\n" + t;
      LinesOfLineThen(s[1..], t);
      assert s[0] in s && [s[0]] + s[1..] == s;
    }
  }

  /** Splitting undoes joining. */
  lemma {:induction false} LinesJoin(ls: seq<string>)
    requires |ls| >= 1
    requires forall k | 0 <= k < |ls| :: NewlineFree(ls[k])
    ensures Lines(Join(ls)) == ls
  {
    if |ls| == 1 {
      LinesOfLine(ls[0]);
    } else {
      LinesJoin(ls[1..]);
      LinesOfLineThen(ls[0], Join(ls[1..]));
    }
  }

  /** Where line `k` (0-based) begins in `Join(ls)`; `Offset(ls, |ls|)` is one past the end. */
  function Offset(ls: seq<string>, k: nat): nat
    requires k <= |ls|
  {
    if k == 0 then 0 else |ls[0]| + 1 + Offset(ls[1..], k - 1)
  }

  lemma {:induction false} OffsetStep(ls: seq<string>, k: nat)
    requires k < |ls|
    ensures Offset(ls, k + 1) == Offset(ls, k) + |ls[k]| + 1
  {
    if k > 0 {
      OffsetStep(ls[1..], k - 1);
    }
  }

  lemma {:induction false} OffsetMonotone(ls: seq<string>, i: nat, j: nat)
    requires i < j <= |ls|
    ensures Offset(ls, i) + |ls[i]| + 1 <= Offset(ls, j)
    decreases j
  {
    OffsetStep(ls, j - 1);
    if i < j - 1 {
      OffsetMonotone(ls, i, j - 1);
    }
  }

  lemma {:induction false} JoinConcat(a: seq<string>, b: seq<string>)
    requires a != [] && b != []
    ensures Join(a + b) == Join(a) + "\n" + Join(b)
  {
    if |a| == 1 {
      assert (a + b)[1..] == b;
    } else {
      assert (a + b)[1..] == a[1..] + b;
      JoinConcat(a[1..], b);
    }
  }

  lemma {:induction false} OffsetIsLength(ls: seq<string>, k: nat)
    requires 0 < k <= |ls|
    ensures Offset(ls, k) == |Join(ls[..k])| + 1
  {
    if k == 1 {
      assert Offset(ls[1..], 0) == 0;
    } else {
      OffsetIsLength(ls[1..], k - 1);
      assert ls[..k][1..] == ls[1..][..k - 1];
    }
  }

  /** Lines `[i, j)` of a joined text are one slice of it. */
  lemma JoinSlice(ls: seq<string>, i: nat, j: nat)
    requires i < j <= |ls|
    ensures Offset(ls, i) < Offset(ls, j) <= |Join(ls)| + 1
    ensures Join(ls)[Offset(ls, i)..Offset(ls, j) - 1] == Join(ls[i..j])
  {
    OffsetMonotone(ls, i, j);
    OffsetIsLength(ls, j);
    var head := Join(ls[..j]);
    if j < |ls| {
      JoinConcat(ls[..j], ls[j..]);
      assert ls[..j] + ls[j..] == ls;
    } else {
      assert ls[..j] == ls;
    }
    assert Join(ls)[..|head|] == head;
    if i > 0 {
      OffsetIsLength(ls, i);
      JoinConcat(ls[..i], ls[i..j]);
      assert ls[..i] + ls[i..j] == ls[..j];
      assert head[Offset(ls, i)..] == Join(ls[i..j]);
    } else {
      assert ls[0..j] == ls[..j];
    }
    assert Join(ls)[Offset(ls, i)..Offset(ls, j) - 1] == head[Offset(ls, i)..];
  }

  lemma OffsetEnd(ls: seq<string>)
    requires |ls| >= 1
    ensures Offset(ls, |ls|) == |Join(ls)| + 1
  {
    OffsetIsLength(ls, |ls|);
    assert ls[..|ls|] == ls;
  }

  lemma LineSlice(ls: seq<string>, k: nat)
    requires k < |ls|
    ensures Offset(ls, k) + |ls[k]| <= |Join(ls)|
    ensures Join(ls)[Offset(ls, k)..Offset(ls, k) + |ls[k]|] == ls[k]
  {
    JoinSlice(ls, k, k + 1);
    OffsetStep(ls, k);
    assert ls[k..k + 1] == [ls[k]];
  }

  /** Every line but the first is preceded by a newline. */
  lemma NewlineBefore(ls: seq<string>, k: nat)
    requires 0 < k < |ls|
    ensures 0 < Offset(ls, k) <= |Join(ls)|
    ensures Join(ls)[Offset(ls, k) - 1] == '\n'
    decreases k
  {
    JoinSlice(ls, k, |ls|);
    OffsetEnd(ls);
    OffsetMonotone(ls, k, |ls|);
    var u := Join(ls[1..]);
    assert Join(ls) == ls[0] + "\n" + u;
    if k > 1 {
      NewlineBefore(ls[1..], k - 1);
    }
  }

  // ---------------------------------------------------------------- counting newlines

  /** The number of newlines strictly before offset `off`. */
  function NewlinesBefore(t: string, off: nat): nat
    requires off <= |t|
  {
    if off == 0 then 0 else NewlinesBefore(t, off - 1) + (if t[off - 1] == '\n' then 1 else 0)
  }

  lemma {:induction false} NewlinesMonotone(t: string, a: nat, b: nat)
    requires a <= b <= |t|
    ensures NewlinesBefore(t, a) <= NewlinesBefore(t, b)
    decreases b
  {
    if a < b {
      NewlinesMonotone(t, a, b - 1);
    }
  }

  /** No newline occurs inside line `k`, and `k` of them precede it. */
  lemma {:induction false} NewlinesInLine(ls: seq<string>, k: nat, off: nat)
    requires forall m | 0 <= m < |ls| :: NewlineFree(ls[m])
    requires k < |ls| && Offset(ls, k) <= off <= Offset(ls, k) + |ls[k]|
    ensures off <= |Join(ls)| && NewlinesBefore(Join(ls), off) == k
    decreases k, off
  {
    LineSlice(ls, k);
    var t := Join(ls);
    if off > Offset(ls, k) {
      NewlinesInLine(ls, k, off - 1);
      assert t[off - 1] == t[Offset(ls, k)..Offset(ls, k) + |ls[k]|][off - 1 - Offset(ls, k)];
      assert t[off - 1] in ls[k];
    } else if k > 0 {
      NewlineBefore(ls, k);
      OffsetStep(ls, k - 1);
      NewlinesInLine(ls, k - 1, off - 1);
    }
  }

  // ---------------------------------------------------------------- tilings

  ghost predicate Covered(spans: seq<Span>, p: nat) {
    exists k | 0 <= k < |spans| :: spans[k].lo <= p < spans[k].hi
  }

  /** The spans are not empty, and each ends before the next begins. */
  ghost predicate Ordered(spans: seq<Span>) {
    && (forall k | 0 <= k < |spans| :: spans[k].lo < spans[k].hi)
    && (forall i, j | 0 <= i < j < |spans| :: spans[i].hi <= spans[j].lo)
  }

  /** The ordered spans lie in `t[..upto]`, which is blank outside them. */
  ghost predicate Tiles(t: string, spans: seq<Span>, upto: nat) {
    && upto <= |t|
    && Ordered(spans)
    && (forall k | 0 <= k < |spans| :: spans[k].hi <= upto)
    && (forall p | 0 <= p < upto :: Covered(spans, p) || IsSpace(t[p]))
  }

  /** The non-blank characters under the spans, in order. */
  ghost function SqueezeSpans(t: string, spans: seq<Span>): string
    requires forall k | 0 <= k < |spans| :: spans[k].lo <= spans[k].hi <= |t|
  {
    if spans == [] then ""
    else
      var last := spans[|spans| - 1];
      SqueezeSpans(t, spans[..|spans| - 1]) + Squeeze(t[last.lo..last.hi])
  }

  lemma CoveredAppend(a: seq<Span>, b: seq<Span>, p: nat)
    ensures Covered(a + b, p) <==> Covered(a, p) || Covered(b, p)
  {
    if Covered(a, p) {
      var k :| 0 <= k < |a| && a[k].lo <= p < a[k].hi;
      assert (a + b)[k] == a[k];
    }
    if Covered(b, p) {
      var k :| 0 <= k < |b| && b[k].lo <= p < b[k].hi;
      assert (a + b)[|a| + k] == b[k];
    }
  }

  /** Nothing between two consecutive spans is covered. */
  lemma GapIsNotCovered(spans: seq<Span>, i: nat, p: nat)
    requires Ordered(spans) && i <= |spans|
    requires i > 0 ==> spans[i - 1].hi <= p
    requires i < |spans| ==> p < spans[i].lo
    ensures !Covered(spans, p)
  {
    forall k | 0 <= k < |spans| ensures !(spans[k].lo <= p < spans[k].hi) {
      if k < i - 1 {
        assert spans[k].hi <= spans[i - 1].lo;
      } else if k > i {
        assert spans[i].hi <= spans[k].lo;
      }
    }
  }

  /** A tiling grows by spans that tile what follows. */
  lemma TilesAppend(t: string, spans: seq<Span>, upto: nat, more: seq<Span>, upto': nat)
    requires Tiles(t, spans, upto) && upto <= upto' <= |t|
    requires Ordered(more)
    requires forall k | 0 <= k < |more| :: upto <= more[k].lo && more[k].hi <= upto'
    requires forall p | upto <= p < upto' :: Covered(more, p) || IsSpace(t[p])
    ensures Tiles(t, spans + more, upto')
  {
    forall p | 0 <= p < upto' ensures Covered(spans + more, p) || IsSpace(t[p]) {
      CoveredAppend(spans, more, p);
    }
  }

  lemma TilesAppendOne(t: string, spans: seq<Span>, upto: nat, s: Span, upto': nat)
    requires Tiles(t, spans, upto) && upto <= s.lo < s.hi <= upto' <= |t|
    requires BlankIn(t, upto, s.lo) && BlankIn(t, s.hi, upto')
    ensures Tiles(t, spans + [s], upto')
  {
    forall p | upto <= p < upto' ensures Covered([s], p) || IsSpace(t[p]) {
      if s.lo <= p < s.hi {
        assert [s][0].lo <= p < [s][0].hi;
      }
    }
    TilesAppend(t, spans, upto, [s], upto');
  }

  /** Without its last span, a tiling tiles the text before that span. */
  lemma TilesPrefix(t: string, spans: seq<Span>, upto: nat)
    requires Tiles(t, spans, upto) && spans != []
    ensures var last := spans[|spans| - 1];
            && Tiles(t, spans[..|spans| - 1], last.lo)
            && BlankIn(t, last.hi, upto)
  {
    var init, last := spans[..|spans| - 1], spans[|spans| - 1];
    assert spans == init + [last];
    forall p | 0 <= p < last.lo ensures Covered(init, p) || IsSpace(t[p]) {
      assert Covered(spans, p) || IsSpace(t[p]);
      CoveredAppend(init, [last], p);
    }
    forall p | last.hi <= p < upto ensures IsSpace(t[p]) {
      assert Covered(spans, p) || IsSpace(t[p]);
    }
  }

  lemma SqueezeBlankIn(t: string, lo: nat, hi: nat)
    requires lo <= hi <= |t| && BlankIn(t, lo, hi)
    ensures Squeeze(t[lo..hi]) == ""
  {
    SqueezeBlank(t[lo..hi]);
  }

  /** A tiling loses no character that is not white space. */
  lemma {:induction false} TilingConserves(t: string, spans: seq<Span>, upto: nat)
    requires Tiles(t, spans, upto)
    ensures SqueezeSpans(t, spans) == Squeeze(t[..upto])
    decreases |spans|
  {
    if spans == [] {
      forall p | 0 <= p < upto ensures IsSpace(t[p]) {
        assert Covered(spans, p) || IsSpace(t[p]);
      }
      SqueezeBlankIn(t, 0, upto);
    } else {
      var init, last := spans[..|spans| - 1], spans[|spans| - 1];
      TilesPrefix(t, spans, upto);
      TilingConserves(t, init, last.lo);
      SqueezeBlankIn(t, last.hi, upto);
      calc {
        Squeeze(t[..upto]);
        { assert t[..upto] == t[..last.hi] + t[last.hi..upto]; SqueezeConcat(t[..last.hi], t[last.hi..upto]); }
        Squeeze(t[..last.hi]);
        { assert t[..last.hi] == t[..last.lo] + t[last.lo..last.hi]; SqueezeConcat(t[..last.lo], t[last.lo..last.hi]); }
        Squeeze(t[..last.lo]) + Squeeze(t[last.lo..last.hi]);
      }
    }
  }
}
