/** Structure-preserving normalization of an artifact's text. */
module Canonical {
  import opened Text

  datatype ContentKind = Markdown | Code | Prose | Empty

  datatype CanonicalDocument = CanonicalDocument(text: string, kind: ContentKind, lineCount: nat)

  // ---------------------------------------------------------------- string primitives

  predicate EndsWith(s: string, tail: string) {
    |tail| <= |s| && s[|s| - |tail|..] == tail
  }

  /** `ln.rstrip(" \t")` */
  function StripTrailing(s: string): string {
    if s != "" && s[|s| - 1] in " \t" then StripTrailing(s[..|s| - 1]) else s
  }

  /** `s.replace("\r\n", "\n")` */
  function ReplaceCrLf(s: string): string {
    if |s| >= 2 && s[0] == '\r' && s[1] == '\n' then "\n" + ReplaceCrLf(s[2..])
    else if s == "" then "" else [s[0]] + ReplaceCrLf(s[1..])
  }

  /** `s.replace("\r", "\n")` */
  function ReplaceCr(s: string): string {
    if s == "" then "" else [if s[0] == '\r' then '\n' else s[0]] + ReplaceCr(s[1..])
  }

  function UnifyNewlines(raw: string): string {
    ReplaceCr(ReplaceCrLf(raw))
  }

  function StripLines(ls: seq<string>): seq<string> {
    if ls == [] then [] else [StripTrailing(ls[0])] + StripLines(ls[1..])
  }

  function TrimFront(ls: seq<string>): seq<string> {
    if ls != [] && ls[0] == "" then TrimFront(ls[1..]) else ls
  }

  function TrimBack(ls: seq<string>): seq<string> {
    if ls != [] && ls[|ls| - 1] == "" then TrimBack(ls[..|ls| - 1]) else ls
  }

  function KeptLines(raw: string): seq<string> {
    TrimBack(TrimFront(StripLines(Lines(UnifyNewlines(raw)))))
  }

  function CanonicalText(raw: string): string {
    Join(KeptLines(raw))
  }

  // ---------------------------------------------------------------- kind detection

  function Count(ls: seq<string>, test: string -> bool): nat {
    if ls == [] then 0 else (if test(ls[0]) then 1 else 0) + Count(ls[1..], test)
  }

  predicate LooksLikeHeading(ln: string) {
    "#" <= LStrip(ln)
  }

  predicate LooksLikeFence(ln: string) {
    "```" <= Strip(ln)
  }

  predicate LooksLikeCode(ln: string) {
    || "def " <= ln || "class " <= ln || "import " <= ln || "from " <= ln
    || "function " <= ln || "package " <= ln
    || EndsWith(RStrip(ln), "{")
    || "public " <= Strip(ln) || "private " <= Strip(ln) || "static " <= Strip(ln)
  }

  function DetectKind(text: string): (kind: ContentKind)
    ensures kind == Empty <==> Blank(text)
  {
    if Blank(text) then Empty
    else
      var ls := Lines(text);
      var headings := Count(ls, LooksLikeHeading);
      if Count(ls, LooksLikeFence) >= 1 || headings >= 2 then Markdown
      else if Count(ls, LooksLikeCode) >= 2 && headings == 0 then Code
      else Prose
  }

  ghost predicate SomeLine(ls: seq<string>, test: string -> bool) {
    exists k | 0 <= k < |ls| :: test(ls[k])
  }

  ghost predicate TwoLines(ls: seq<string>, test: string -> bool) {
    exists i, j | 0 <= i < j < |ls| :: test(ls[i]) && test(ls[j])
  }

  lemma {:induction false} CountedLines(ls: seq<string>, test: string -> bool)
    ensures Count(ls, test) >= 1 <==> SomeLine(ls, test)
    ensures Count(ls, test) >= 2 <==> TwoLines(ls, test)
  {
    if ls != [] {
      CountedLines(ls[1..], test);
      if SomeLine(ls[1..], test) {
        var k :| 0 <= k < |ls[1..]| && test(ls[1..][k]);
        assert test(ls[k + 1]);
      }
      if TwoLines(ls[1..], test) {
        var i, j :| 0 <= i < j < |ls[1..]| && test(ls[1..][i]) && test(ls[1..][j]);
        assert test(ls[i + 1]) && test(ls[j + 1]);
      }
      if SomeLine(ls, test) {
        var k :| 0 <= k < |ls| && test(ls[k]);
        assert k > 0 ==> test(ls[1..][k - 1]);
      }
      if TwoLines(ls, test) {
        var i, j :| 0 <= i < j < |ls| && test(ls[i]) && test(ls[j]);
        assert test(ls[1..][j - 1]) && (i > 0 ==> test(ls[1..][i - 1]));
      }
    }
  }

  /** A fence or two headings make Markdown; without either, and without any heading, two lines of code make code. */
  lemma KindsByLines(text: string)
    ensures var ls, kind := Lines(text), DetectKind(text);
            && (kind == Empty <==> Blank(text))
            && (kind == Markdown <==> !Blank(text) && (SomeLine(ls, LooksLikeFence) || TwoLines(ls, LooksLikeHeading)))
            && (kind == Code <==> !Blank(text) && TwoLines(ls, LooksLikeCode)
                                  && !SomeLine(ls, LooksLikeFence) && !SomeLine(ls, LooksLikeHeading))
  {
    var ls := Lines(text);
    CountedLines(ls, LooksLikeFence);
    CountedLines(ls, LooksLikeHeading);
    CountedLines(ls, LooksLikeCode);
  }

  // What the three tests look for, as positions in the line.

  ghost predicate BeginsAt(ln: string, start: string, k: nat) {
    k + |start| <= |ln| && ln[k..k + |start|] == start && BlankIn(ln, 0, k)
  }

  /** After white space only, the line goes on with this text. */
  ghost predicate BeginsWith(ln: string, start: string) {
    exists k: nat :: BeginsAt(ln, start, k)
  }

  lemma BeginsLater(ln: string, start: string, k: nat)
    requires ln != "" && IsSpace(ln[0])
    ensures BeginsAt(ln, start, k + 1) <==> BeginsAt(ln[1..], start, k)
  {
    var rest := ln[1..];
    if k + 1 + |start| <= |ln| {
      var x, y := ln[k + 1..k + 1 + |start|], rest[k..k + |start|];
      assert forall i | 0 <= i < |start| :: x[i] == ln[k + 1 + i] == rest[k + i] == y[i];
      assert x == y;
      assert forall i | 0 <= i < k :: rest[i] == ln[i + 1];
      if BlankIn(rest, 0, k) {
        forall i | 0 <= i < k + 1 ensures IsSpace(ln[i]) {
          if i > 0 { assert ln[i] == rest[i - 1]; }
        }
      }
    }
  }

  lemma {:induction false} LStripBegins(ln: string, start: string)
    requires start != "" && !IsSpace(start[0])
    ensures start <= LStrip(ln) <==> BeginsWith(ln, start)
  {
    if BeginsWith(ln, start) {
      var k: nat :| BeginsAt(ln, start, k);
      assert ln[k] == start[0];
    }
    if ln != "" && IsSpace(ln[0]) {
      LStripBegins(ln[1..], start);
      if BeginsWith(ln[1..], start) {
        var k: nat :| BeginsAt(ln[1..], start, k);
        BeginsLater(ln, start, k);
      }
      if BeginsWith(ln, start) {
        var k: nat :| BeginsAt(ln, start, k);
        BeginsLater(ln, start, k - 1);
      }
    } else {
      if start <= ln {
        assert BeginsAt(ln, start, 0);
      }
      if BeginsWith(ln, start) {
        var k: nat :| BeginsAt(ln, start, k);
        assert k == 0;
      }
    }
  }

  /** A text that ends in a visible character survives stripping the end of the line. */
  lemma {:induction false} RStripBegins(s: string, start: string)
    requires start != "" && !IsSpace(start[|start| - 1])
    ensures start <= RStrip(s) <==> start <= s
  {
    if s != "" && IsSpace(s[|s| - 1]) {
      RStripBegins(s[..|s| - 1], start);
      assert start <= s ==> start != s;
    }
  }

  /** A line looks like a heading or a fence when its first visible characters are `#` or three backticks. */
  lemma MarkersAreLeading(ln: string)
    ensures LooksLikeHeading(ln) <==> BeginsWith(ln, "#")
    ensures LooksLikeFence(ln) <==> BeginsWith(ln, "```")
  {
    LStripBegins(ln, "#");
    LStripBegins(ln, "```");
    RStripBegins(LStrip(ln), "```");
  }

  /** The last visible character is a brace. */
  ghost predicate OpensBlock(ln: string) {
    exists k | 0 <= k < |ln| :: ln[k] == '{' && BlankIn(ln, k + 1, |ln|)
  }

  lemma {:induction false} RStripEndsInBrace(ln: string)
    ensures EndsWith(RStrip(ln), "{") <==> OpensBlock(ln)
  {
    if ln != "" && IsSpace(ln[|ln| - 1]) {
      var front := ln[..|ln| - 1];
      RStripEndsInBrace(front);
      if OpensBlock(front) {
        var k :| 0 <= k < |front| && front[k] == '{' && BlankIn(front, k + 1, |front|);
        assert forall p | k + 1 <= p < |front| :: ln[p] == front[p];
        assert ln[k] == '{' && BlankIn(ln, k + 1, |ln|);
      }
      if OpensBlock(ln) {
        var k :| 0 <= k < |ln| && ln[k] == '{' && BlankIn(ln, k + 1, |ln|);
        assert front[k] == '{' && BlankIn(front, k + 1, |front|);
      }
    } else if ln != "" {
      if ln[|ln| - 1] == '{' {
        assert BlankIn(ln, |ln|, |ln|);
      }
      if OpensBlock(ln) {
        var k :| 0 <= k < |ln| && ln[k] == '{' && BlankIn(ln, k + 1, |ln|);
        assert k == |ln| - 1;
      }
    }
  }

  lemma {:induction false} RStripBeginsBlank(s: string, start: string)
    requires start != "" && IsSpace(start[|start| - 1])
    ensures start <= RStrip(s) <==> start <= s && exists p | |start| <= p < |s| :: !IsSpace(s[p])
  {
    if s != "" && IsSpace(s[|s| - 1]) {
      var front := s[..|s| - 1];
      RStripBeginsBlank(front, start);
      assert forall p | 0 <= p < |front| :: front[p] == s[p];
    } else if s != "" && start <= s {
      assert |start| < |s| ==> !IsSpace(s[|s| - 1]);
    }
  }

  /** After white space only, the line goes on with this word, a blank, and something visible later on. */
  ghost predicate Declares(ln: string, word: string) {
    exists k: nat, p: nat :: BeginsAt(ln, word + " ", k) && k + |word| < p < |ln| && !IsSpace(ln[p])
  }

  lemma {:induction false} LStripDeclares(ln: string, word: string)
    requires word != "" && !IsSpace(word[0])
    ensures word + " " <= Strip(ln) <==> Declares(ln, word)
  {
    var start := word + " ";
    if ln != "" && IsSpace(ln[0]) {
      LStripDeclares(ln[1..], word);
      if Declares(ln[1..], word) {
        var k: nat, p: nat :| BeginsAt(ln[1..], start, k) && k + |word| < p < |ln[1..]| && !IsSpace(ln[1..][p]);
        BeginsLater(ln, start, k);
        assert !IsSpace(ln[p + 1]);
      }
      if Declares(ln, word) {
        var k: nat, p: nat :| BeginsAt(ln, start, k) && k + |word| < p < |ln| && !IsSpace(ln[p]);
        assert ln[k] == start[0];
        BeginsLater(ln, start, k - 1);
        assert !IsSpace(ln[1..][p - 1]);
      }
    } else {
      RStripBeginsBlank(ln, start);
      if start <= Strip(ln) {
        var p :| |start| <= p < |ln| && !IsSpace(ln[p]);
        assert BeginsAt(ln, start, 0);
      }
      if Declares(ln, word) {
        var k: nat, p: nat :| BeginsAt(ln, start, k) && k + |word| < p < |ln| && !IsSpace(ln[p]);
        assert ln[k] == start[0];
        assert k == 0;
      }
    }
  }

  /** A line looks like code: it begins with one of six keywords, opens a block, or declares with a modifier. */
  lemma CodeMarkers(ln: string)
    ensures LooksLikeCode(ln) <==>
              || (exists word | word in {"def", "class", "import", "from", "function", "package"} :: word + " " <= ln)
              || OpensBlock(ln)
              || (exists word | word in {"public", "private", "static"} :: Declares(ln, word))
  {
    hide OpensBlock, Declares, Strip, RStrip;
    RStripEndsInBrace(ln);
    LStripDeclares(ln, "public");
    LStripDeclares(ln, "private");
    LStripDeclares(ln, "static");
    Keywords(ln);
  }

  lemma Keywords(ln: string)
    ensures (exists word | word in {"def", "class", "import", "from", "function", "package"} :: word + " " <= ln) <==>
              || "def " <= ln || "class " <= ln || "import " <= ln || "from " <= ln
              || "function " <= ln || "package " <= ln
    ensures "public" + " " == "public " && "private" + " " == "private " && "static" + " " == "static "
  {
    assert "def" + " " == "def " && "class" + " " == "class " && "import" + " " == "import " && "from" + " " == "from ";
    assert "function" + " " == "function " && "package" + " " == "package ";
    assert "public" + " " == "public " && "private" + " " == "private " && "static" + " " == "static ";
  }

  // ---------------------------------------------------------------- the operation

  /** `cut` is the line without the blanks and tabs at its end. */
  ghost predicate IsCut(line: string, cut: string) {
    && cut <= line
    && (cut == "" || (cut[|cut| - 1] != ' ' && cut[|cut| - 1] != '\t'))
    && (forall p | |cut| <= p < |line| :: line[p] == ' ' || line[p] == '\t')
  }

  /** `kept` are the lines from `a` up to `b`, cut; there is nothing on the lines outside. */
  ghost predicate IsKept(lines: seq<string>, a: nat, b: nat, kept: seq<string>) {
    && a <= b <= |lines| && |kept| == b - a
    && (forall k | a <= k < b :: IsCut(lines[k], kept[k - a]))
    && (forall k | 0 <= k < a :: IsCut(lines[k], ""))
    && (forall k | b <= k < |lines| :: IsCut(lines[k], ""))
  }

  method NormalizeToCanonical(raw: string) returns (doc: CanonicalDocument)
    ensures doc.text == CanonicalText(raw)
    ensures exists kept, a, b ::
              && IsKept(Lines(ScanNewlines(raw)), a, b, kept)
              && doc.text == Join(kept) && doc.lineCount == |kept|
    ensures IsCanonical(doc.text)
    ensures Squeeze(doc.text) == Squeeze(raw)
    ensures doc.kind == DetectKind(doc.text)
    ensures doc.lineCount == |KeptLines(raw)|
  {
    var unified := UnifyNewlines(raw);
    var lines := StripLines(Lines(unified));
    while lines != [] && lines[0] == ""
      invariant TrimFront(lines) == TrimFront(StripLines(Lines(unified)))
    {
      lines := lines[1..];
    }
    while lines != [] && lines[|lines| - 1] == ""
      invariant TrimBack(lines) == KeptLines(raw)
    {
      lines := lines[..|lines| - 1];
    }
    var text := Join(lines);
    CanonicalIsCanonical(raw);
    CanonicalConserves(raw);
    LineCountIsKept(raw);
    ghost var a, b := KeptLinesAreLines(raw);
    doc := CanonicalDocument(
      text, DetectKind(text), if text == "" then 0 else NewlinesBefore(text, |text|) + 1);
  }

  // ---------------------------------------------------------------- newlines

  /** One left-to-right scan that reads CRLF, a lone CR and LF as one newline each. */
  function ScanNewlines(raw: string): string {
    if raw == "" then ""
    else if raw[0] != '\r' then [raw[0]] + ScanNewlines(raw[1..])
    else if |raw| >= 2 && raw[1] == '\n' then "\n" + ScanNewlines(raw[2..])
    else "\n" + ScanNewlines(raw[1..])
  }

  lemma {:induction false} TwoPassesAreOneScan(raw: string)
    ensures UnifyNewlines(raw) == ScanNewlines(raw)
  {
    if raw == "" {
    } else if |raw| >= 2 && raw[0] == '\r' && raw[1] == '\n' {
      TwoPassesAreOneScan(raw[2..]);
      assert ReplaceCrLf(raw) == "\n" + ReplaceCrLf(raw[2..]);
      assert ReplaceCrLf(raw)[1..] == ReplaceCrLf(raw[2..]);
    } else {
      TwoPassesAreOneScan(raw[1..]);
      assert ReplaceCrLf(raw) == [raw[0]] + ReplaceCrLf(raw[1..]);
      assert ReplaceCrLf(raw)[1..] == ReplaceCrLf(raw[1..]);
    }
  }

  lemma {:induction false} ReplaceCrRemovesCr(s: string)
    ensures '\r' !in ReplaceCr(s)
  {
    if s != "" {
      ReplaceCrRemovesCr(s[1..]);
    }
  }

  lemma {:induction false} UnifyKeepsCrFree(s: string)
    requires '\r' !in s
    ensures UnifyNewlines(s) == s
  {
    TwoPassesAreOneScan(s);
    ScanKeepsCrFree(s);
  }

  lemma {:induction false} ScanKeepsCrFree(s: string)
    requires '\r' !in s
    ensures ScanNewlines(s) == s
  {
    if s != "" {
      assert s[0] in s && s == [s[0]] + s[1..];
      ScanKeepsCrFree(s[1..]);
    }
  }

  lemma {:induction false} ScanSqueeze(raw: string)
    ensures Squeeze(ScanNewlines(raw)) == Squeeze(raw)
  {
    if raw != "" {
      var skip := if raw[0] == '\r' && |raw| >= 2 && raw[1] == '\n' then 2 else 1;
      ScanSqueeze(raw[skip..]);
      assert ScanNewlines(raw)[1..] == ScanNewlines(raw[skip..]);
      if skip == 2 {
        assert raw[1..][1..] == raw[2..];
      }
    }
  }

  lemma {:induction false} ScanOverLine(s: string, rest: string)
    requires '\r' !in s
    ensures ScanNewlines(s + rest) == s + ScanNewlines(rest)
  {
    if s == "" {
      assert s + rest == rest;
    } else {
      assert s[0] in s && s == [s[0]] + s[1..];
      assert (s + rest)[1..] == s[1..] + rest;
      ScanOverLine(s[1..], rest);
    }
  }

  lemma {:induction false} ScanOneEnd(nl: string, rest: string)
    requires nl in {"\n", "\r\n", "\r"}
    requires rest == "" || rest[0] != '\n' || nl == "\n"
    ensures ScanNewlines(nl + rest) == "\n" + ScanNewlines(rest)
  {
    assert (nl + rest)[|nl|..] == rest;
  }

  lemma StyledStart(ls: seq<string>, nl: string)
    requires forall k | 0 <= k < |ls| :: NewlineFree(ls[k])
    requires nl in {"\n", "\r\n", "\r"}
    ensures JoinWith(ls, nl) == "" || JoinWith(ls, nl)[0] != '\n' || nl == "\n"
  {
    if ls != [] {
      assert ls[0] != "" ==> ls[0][0] in ls[0];
    }
  }

  lemma {:induction false} StyledScan(ls: seq<string>, nl: string)
    requires nl in {"\n", "\r\n", "\r"}
    requires forall k | 0 <= k < |ls| :: NewlineFree(ls[k]) && '\r' !in ls[k]
    ensures ScanNewlines(JoinWith(ls, nl)) == Join(ls)
  {
    if |ls| == 1 {
      ScanKeepsCrFree(ls[0]);
    } else if |ls| > 1 {
      StyledScanStep(ls[0], ls[1..], nl);
      StyledScan(ls[1..], nl);
    }
  }

  lemma StyledScanStep(s: string, ls: seq<string>, nl: string)
    requires nl in {"\n", "\r\n", "\r"} && '\r' !in s
    requires forall k | 0 <= k < |ls| :: NewlineFree(ls[k])
    ensures ScanNewlines(s + nl + JoinWith(ls, nl)) == s + "\n" + ScanNewlines(JoinWith(ls, nl))
  {
    hide ScanNewlines, JoinWith;
    var rest := JoinWith(ls, nl);
    StyledStart(ls, nl);
    ScanOneEnd(nl, rest);
    ScanOverLine(s, nl + rest);
    assert s + nl + rest == s + (nl + rest);
    assert s + ("\n" + ScanNewlines(rest)) == s + "\n" + ScanNewlines(rest);
  }

  /** The canonical text does not depend on how the artifact ends its lines. */
  lemma NewlineStyleIndependent(ls: seq<string>, nl: string)
    requires nl in {"\n", "\r\n", "\r"}
    requires forall k | 0 <= k < |ls| :: NewlineFree(ls[k]) && '\r' !in ls[k]
    ensures CanonicalText(JoinWith(ls, nl)) == CanonicalText(Join(ls))
  {
    StyledScan(ls, nl);
    StyledScan(ls, "\n");
    TwoPassesAreOneScan(JoinWith(ls, nl));
    TwoPassesAreOneScan(Join(ls));
  }

  // ---------------------------------------------------------------- canonical texts

  predicate Trimmed(ln: string) {
    ln == "" || ln[|ln| - 1] !in " \t"
  }

  /** No CR, no line ends in a space or tab, first and last lines are not empty. */
  predicate IsCanonical(t: string) {
    && '\r' !in t
    && (t == "" || CanonicalLines(Lines(t)))
  }

  predicate CanonicalLines(ls: seq<string>) {
    && ls != [] && ls[0] != "" && ls[|ls| - 1] != ""
    && (forall k | 0 <= k < |ls| :: Trimmed(ls[k]))
  }

  lemma {:induction false} StripTrailingTrims(s: string)
    ensures StripTrailing(s) <= s && Trimmed(StripTrailing(s))
    ensures Squeeze(StripTrailing(s)) == Squeeze(s)
  {
    if s != "" && s[|s| - 1] in " \t" {
      var front := s[..|s| - 1];
      StripTrailingTrims(front);
      SqueezeConcat(front, [s[|s| - 1]]);
      assert s == front + [s[|s| - 1]];
    }
  }

  ghost predicate CleanLine(ln: string) {
    NewlineFree(ln) && '\r' !in ln && Trimmed(ln)
  }

  lemma {:induction false} StripLinesClean(ls: seq<string>)
    requires forall k | 0 <= k < |ls| :: NewlineFree(ls[k]) && '\r' !in ls[k]
    ensures forall k | 0 <= k < |StripLines(ls)| :: CleanLine(StripLines(ls)[k])
  {
    if ls != [] {
      StripLinesClean(ls[1..]);
      StripTrailingTrims(ls[0]);
      var s := StripTrailing(ls[0]);
      assert forall c | c in s :: c in ls[0];
    }
  }

  lemma {:induction false} TrimFrontKeeps(ls: seq<string>)
    requires forall k | 0 <= k < |ls| :: CleanLine(ls[k])
    ensures forall k | 0 <= k < |TrimFront(ls)| :: CleanLine(TrimFront(ls)[k])
    ensures TrimFront(ls) == [] || TrimFront(ls)[0] != ""
  {
    if ls != [] && ls[0] == "" {
      TrimFrontKeeps(ls[1..]);
    }
  }

  lemma {:induction false} TrimBackIsPrefix(ls: seq<string>)
    ensures TrimBack(ls) <= ls
    ensures TrimBack(ls) == [] || TrimBack(ls)[|TrimBack(ls)| - 1] != ""
  {
    if ls != [] && ls[|ls| - 1] == "" {
      TrimBackIsPrefix(ls[..|ls| - 1]);
    }
  }

  lemma {:induction false} JoinHasNoOtherChars(ls: seq<string>, c: char)
    requires c != '\n' && forall k | 0 <= k < |ls| :: c !in ls[k]
    ensures c !in Join(ls)
  {
    if |ls| > 1 {
      JoinHasNoOtherChars(ls[1..], c);
    }
  }

  lemma {:induction false} LineCharsAreTextChars(t: string, k: nat, c: char)
    requires k < |Lines(t)| && c in Lines(t)[k]
    ensures c in t
  {
    if t != "" {
      var rest := Lines(t[1..]);
      if t[0] == '\n' {
        LineCharsAreTextChars(t[1..], k - 1, c);
      } else if k > 0 {
        LineCharsAreTextChars(t[1..], k, c);
      } else if c != t[0] {
        LineCharsAreTextChars(t[1..], 0, c);
      }
    }
  }

  /** What the kept lines of any artifact look like. */
  lemma KeptLinesShape(raw: string)
    ensures var ls := KeptLines(raw);
            && (ls == [] || CanonicalLines(ls))
            && (forall k | 0 <= k < |ls| :: NewlineFree(ls[k]) && '\r' !in ls[k])
  {
    var unified := UnifyNewlines(raw);
    ReplaceCrRemovesCr(ReplaceCrLf(raw));
    var all := Lines(unified);
    LinesAreNewlineFree(unified);
    forall k | 0 <= k < |all| ensures '\r' !in all[k] {
      if '\r' in all[k] {
        LineCharsAreTextChars(unified, k, '\r');
      }
    }
    StripLinesClean(all);
    hide StripLines, TrimFront, TrimBack, Lines, UnifyNewlines;
    var front := TrimFront(StripLines(all));
    TrimFrontKeeps(StripLines(all));
    TrimBackIsPrefix(front);
    assert forall k | 0 <= k < |TrimBack(front)| :: CleanLine(front[k]);
  }

  lemma CanonicalIsCanonical(raw: string)
    ensures IsCanonical(CanonicalText(raw))
  {
    KeptLinesShape(raw);
    var ls := KeptLines(raw);
    JoinHasNoOtherChars(ls, '\r');
    if ls != [] {
      LinesJoin(ls);
    }
  }

  lemma {:induction false} StripTrailingCuts(line: string)
    ensures IsCut(line, StripTrailing(line))
    ensures forall cut | IsCut(line, cut) :: cut == StripTrailing(line)
  {
    if line != "" && line[|line| - 1] in " \t" {
      var front := line[..|line| - 1];
      StripTrailingCuts(front);
      forall cut | IsCut(line, cut) ensures cut == StripTrailing(line) {
        assert cut != line;
        assert IsCut(front, cut);
      }
    } else {
      forall cut | IsCut(line, cut) ensures cut == line {}
    }
  }

  lemma {:induction false} StripLinesAt(ls: seq<string>)
    ensures |StripLines(ls)| == |ls|
    ensures forall k | 0 <= k < |ls| :: StripLines(ls)[k] == StripTrailing(ls[k])
  {
    if ls != [] {
      StripLinesAt(ls[1..]);
    }
  }

  lemma {:induction false} TrimFrontDrops(ls: seq<string>) returns (a: nat)
    ensures a <= |ls| && TrimFront(ls) == ls[a..] && forall k | 0 <= k < a :: ls[k] == ""
  {
    if ls != [] && ls[0] == "" {
      a := TrimFrontDrops(ls[1..]);
      a := a + 1;
    } else {
      a := 0;
    }
  }

  lemma {:induction false} TrimBackDrops(ls: seq<string>) returns (b: nat)
    ensures b <= |ls| && TrimBack(ls) == ls[..b] && forall k | b <= k < |ls| :: ls[k] == ""
  {
    if ls != [] && ls[|ls| - 1] == "" {
      b := TrimBackDrops(ls[..|ls| - 1]);
      assert ls[..|ls| - 1][..b] == ls[..b];
    } else {
      b := |ls|;
    }
  }

  /** The kept lines are consecutive lines of the scanned text, cut at their ends, and no line with text is left out. */
  lemma KeptLinesAreLines(raw: string) returns (a: nat, b: nat)
    ensures IsKept(Lines(ScanNewlines(raw)), a, b, KeptLines(raw))
  {
    hide IsCut, StripTrailing, StripLines, TrimFront, TrimBack, Lines;
    TwoPassesAreOneScan(raw);
    var lines := Lines(ScanNewlines(raw));
    var cut := StripLines(lines);
    StripLinesAt(lines);
    forall k | 0 <= k < |lines| ensures IsCut(lines[k], cut[k]) {
      StripTrailingCuts(lines[k]);
    }
    a := TrimFrontDrops(cut);
    var n := TrimBackDrops(cut[a..]);
    b := a + n;
    assert cut[a..][..n] == cut[a..b];
    assert forall k | b <= k < |lines| :: cut[k] == cut[a..][k - a];
  }

  /** The span arithmetic of the chunker relies on this. */
  lemma CanonicalEndsInText(t: string)
    requires IsCanonical(t) && t != ""
    ensures t[|t| - 1] != '\n'
  {
    var ls := Lines(t);
    JoinLines(t);
    LinesAreNewlineFree(t);
    var k := |ls| - 1;
    LineSlice(ls, k);
    OffsetStep(ls, k);
    OffsetEnd(ls);
    assert t[|t| - 1] == ls[k][|ls[k]| - 1];
    assert t[|t| - 1] in ls[k];
  }

  lemma {:induction false} StripKeepsTrimmed(ls: seq<string>)
    requires forall k | 0 <= k < |ls| :: Trimmed(ls[k])
    ensures StripLines(ls) == ls
  {
    if ls != [] {
      StripKeepsTrimmed(ls[1..]);
    }
  }

  /** Normalization fixes exactly the canonical texts, so doing it twice changes nothing more. */
  lemma CanonicalFixpoints(t: string)
    ensures CanonicalText(t) == t <==> IsCanonical(t)
    ensures CanonicalText(CanonicalText(t)) == CanonicalText(t)
  {
    CanonicalIsCanonical(t);
    IfCanonicalThenFixed(t);
    IfCanonicalThenFixed(CanonicalText(t));
  }

  lemma IfCanonicalThenFixed(t: string)
    ensures IsCanonical(t) ==> CanonicalText(t) == t
  {
    if IsCanonical(t) {
      UnifyKeepsCrFree(t);
      var ls := Lines(t);
      JoinLines(t);
      if t == "" {
        assert StripLines(ls) == [""];
        assert TrimFront([""]) == [];
      } else {
        StripKeepsTrimmed(ls);
      }
    }
  }

  // ---------------------------------------------------------------- conservation

  function SqueezeAll(ls: seq<string>): string {
    if ls == [] then "" else Squeeze(ls[0]) + SqueezeAll(ls[1..])
  }

  lemma {:induction false} SqueezeJoin(ls: seq<string>)
    ensures Squeeze(Join(ls)) == SqueezeAll(ls)
  {
    if |ls| > 1 {
      SqueezeJoin(ls[1..]);
      SqueezeConcat(ls[0] + "\n", Join(ls[1..]));
      SqueezeConcat(ls[0], "\n");
    }
  }

  lemma {:induction false} SqueezeStripLines(ls: seq<string>)
    ensures SqueezeAll(StripLines(ls)) == SqueezeAll(ls)
  {
    if ls != [] {
      StripTrailingTrims(ls[0]);
      SqueezeStripLines(ls[1..]);
    }
  }

  lemma {:induction false} SqueezeTrimFront(ls: seq<string>)
    ensures SqueezeAll(TrimFront(ls)) == SqueezeAll(ls)
  {
    if ls != [] && ls[0] == "" {
      SqueezeTrimFront(ls[1..]);
    }
  }

  lemma {:induction false} SqueezeAllConcat(a: seq<string>, b: seq<string>)
    ensures SqueezeAll(a + b) == SqueezeAll(a) + SqueezeAll(b)
  {
    if a == [] {
      assert a + b == b;
    } else {
      assert (a + b)[1..] == a[1..] + b;
      SqueezeAllConcat(a[1..], b);
    }
  }

  lemma {:induction false} SqueezeTrimBack(ls: seq<string>)
    ensures SqueezeAll(TrimBack(ls)) == SqueezeAll(ls)
  {
    if ls != [] && ls[|ls| - 1] == "" {
      var front := ls[..|ls| - 1];
      SqueezeTrimBack(front);
      assert ls == front + [""];
      SqueezeAllConcat(front, [""]);
      assert SqueezeAll([""]) == "";
    }
  }

  /** Normalization loses no character that is not white space. */
  lemma CanonicalConserves(raw: string)
    ensures Squeeze(CanonicalText(raw)) == Squeeze(raw)
  {
    var unified := UnifyNewlines(raw);
    var stripped := StripLines(Lines(unified));
    TwoPassesAreOneScan(raw);
    ScanSqueeze(raw);
    JoinLines(unified);
    SqueezeJoin(Lines(unified));
    SqueezeStripLines(Lines(unified));
    SqueezeTrimFront(stripped);
    SqueezeTrimBack(TrimFront(stripped));
    SqueezeJoin(KeptLines(raw));
  }

  lemma EmptyJoin()
    ensures Join([]) == ""
  {
  }

  lemma JoinStartsWith(ls: seq<string>)
    requires ls != []
    ensures ls[0] <= Join(ls)
  {
  }

  lemma LineCountIsKept(raw: string)
    ensures var t := CanonicalText(raw);
            |KeptLines(raw)| == if t == "" then 0 else NewlinesBefore(t, |t|) + 1
  {
    hide KeptLines, Offset, JoinWith, NewlinesBefore;
    KeptLinesShape(raw);
    var ls := KeptLines(raw);
    if ls == [] {
      EmptyJoin();
    } else {
      JoinStartsWith(ls);
      NewlinesInLine(ls, |ls| - 1, Offset(ls, |ls| - 1) + |ls[|ls| - 1]|);
      OffsetStep(ls, |ls| - 1);
      OffsetEnd(ls);
    }
  }
}
