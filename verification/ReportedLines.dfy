/** Which line of a patch text a parse error's line number belongs to. */
module ReportedLines {
  import opened Results
  import opened Text
  import opened PatchParser
  import opened PatchPrinter
  import opened PatchNormalForm

  // Numbers relative to the lines given to the parser

  /** The error `e` is about line `k` of `lines`, counting from 0. */
  ghost predicate IsAbout(e: HunkError, lines: seq<string>, k: int) {
    && k >= 0
    && match e
       case NotAHeader(t) => k < |lines| && HeaderOf(lines[k]).NoHeader? && t == Trim(lines[k])
       case EmptyUpdate(path) => k < |lines| && HeaderOf(lines[k]) == UpdateHeader(path)
       case MissingContext(line) => k < |lines| && line == lines[k] && HeadOf(line).Unmarked?
       case NoLines =>
         0 < k <= |lines| && HeadOf(lines[k - 1]).Marked? && (k < |lines| ==> lines[k] == EOF_MARKER)
       case UnexpectedLine(line) =>
         0 < k < |lines| && HeadOf(lines[k - 1]).Marked? && line == lines[k] && !IsDiffLine(line)
  }

  lemma IsAboutFurtherOn(e: HunkError, lines: seq<string>, m: nat, k: int)
    requires m <= |lines| && IsAbout(e, lines[m..], k)
    ensures IsAbout(e, lines, m + k)
  {
    hide HeaderOf, HeadOf, IsDiffLine, Trim;
    assert forall j :: 0 <= j < |lines| - m ==> lines[m..][j] == lines[m + j];
  }

  /** A chunk without a context marker whose first line is no diff line either. */
  predicate BadUnmarked(line: string) {
    !("***" <= line) && HeadOf(line).Unmarked? && !IsDiffLine(line)
  }

  /** The number reported for a chunk is that of the line at fault unless the chunk is the first of its
      update and begins like that; then it is one too high. */
  lemma ChunkErrorLineIff(lines: seq<string>, lineNumber: nat, isFirst: bool)
    requires lines != [] && !("***" <= lines[0])
    requires ChunkOf(lines, lineNumber, isFirst).Err?
    ensures var e := ChunkOf(lines, lineNumber, isFirst).error;
            && e.InvalidHunk?
            && (IsAbout(e.error, lines, e.lineNumber - lineNumber) <==> !(isFirst && BadUnmarked(lines[0])))
            && (isFirst && BadUnmarked(lines[0]) ==> e == InvalidHunk(UnexpectedLine(lines[0]), lineNumber + 1))
  {
    hide HeadOf, Trim, HeaderOf;
    assert "***" <= EOF_MARKER;
    var start := if HeadOf(lines[0]).Marked? then 1 else 0;
    if start < |lines| {
      assert lines[start..][0] == lines[start];
    }
  }

  function BlankLines(lines: seq<string>): (n: nat)
    ensures n <= |lines|
  {
    if lines == [] || !IsBlank(lines[0]) then 0 else 1 + BlankLines(lines[1..])
  }

  /** The first chunk among `lines`, below any blank lines, begins like that. */
  predicate ChunksBeginBadly(lines: seq<string>) {
    BlankLines(lines) < |lines| && BadUnmarked(lines[BlankLines(lines)])
  }

  lemma {:induction false} BadBeginningIsReportedOneOff(lines: seq<string>, lineNumber: nat)
    requires ChunksBeginBadly(lines)
    ensures var f := BlankLines(lines);
            ChunksOf(lines, lineNumber, true) == Err(InvalidHunk(UnexpectedLine(lines[f]), lineNumber + f + 1))
    decreases |lines|
  {
    hide IsBlank, ChunkOf, BadUnmarked;
    if IsBlank(lines[0]) {
      BadBeginningIsReportedOneOff(lines[1..], lineNumber + 1);
    } else {
      assert !("***" <= lines[0]) by { BadUnmarkedIsNoMarker(lines[0]); }
      ChunkFailsIfBadUnmarked(lines, lineNumber);
    }
  }

  lemma BadUnmarkedIsNoMarker(line: string)
    requires BadUnmarked(line)
    ensures !("***" <= line)
  {
  }

  lemma ChunkFailsIfBadUnmarked(lines: seq<string>, lineNumber: nat)
    requires lines != [] && BadUnmarked(lines[0])
    ensures ChunkOf(lines, lineNumber, true) == Err(InvalidHunk(UnexpectedLine(lines[0]), lineNumber + 1))
  {
    hide HeadOf, IsDiffLine;
    assert "***" <= EOF_MARKER;
    assert lines[0..] == lines;
  }

  lemma {:induction false} ChunksErrorLine(lines: seq<string>, lineNumber: nat, isFirst: bool)
    requires ChunksOf(lines, lineNumber, isFirst).Err? && !(isFirst && ChunksBeginBadly(lines))
    ensures var e := ChunksOf(lines, lineNumber, isFirst).error;
            e.InvalidHunk? && IsAbout(e.error, lines, e.lineNumber - lineNumber)
    decreases |lines|
  {
    hide ChunkOf, IsBlank, IsAbout, BadUnmarked;
    var e := ChunksOf(lines, lineNumber, isFirst).error;
    if IsBlank(lines[0]) {
      assert ChunksBeginBadly(lines[1..]) ==> ChunksBeginBadly(lines);
      ChunksErrorLine(lines[1..], lineNumber + 1, isFirst);
      IsAboutFurtherOn(e.error, lines, 1, e.lineNumber - lineNumber - 1);
    } else if ChunkOf(lines, lineNumber, isFirst).Err? {
      ChunkErrorLineIff(lines, lineNumber, isFirst);
    } else {
      ChunkProgress(lines, lineNumber, isFirst);
      var n := ChunkOf(lines, lineNumber, isFirst).value.count;
      ChunksErrorLine(lines[n..], lineNumber + n, false);
      IsAboutFurtherOn(e.error, lines, n, e.lineNumber - lineNumber - n);
    }
  }

  function HeaderLines(lines: seq<string>): (n: nat)
    requires lines != []
    ensures 1 <= n <= |lines|
  {
    if MovePathOf(lines[1..]).Some? then 2 else 1
  }

  /** The first chunk of an update has no context marker and begins with a line that is no diff line. */
  predicate BeginsBadly(lines: seq<string>)
    requires lines != []
  {
    HeaderOf(lines[0]).UpdateHeader? && ChunksBeginBadly(lines[HeaderLines(lines)..])
  }

  /** Where the first chunk of an update is looked for: below the header, the new path and blank lines. */
  function FirstChunkLine(lines: seq<string>): (n: nat)
    requires lines != []
    ensures n <= |lines|
  {
    HeaderLines(lines) + BlankLines(lines[HeaderLines(lines)..])
  }

  /** The number reported for such an update, whatever follows, is that of the line after the bad one. */
  lemma BadUpdateIsReportedOneOff(lines: seq<string>, lineNumber: nat)
    requires lines != [] && BeginsBadly(lines)
    ensures var f := FirstChunkLine(lines);
            && f < |lines| && HeadOf(lines[f]).Unmarked? && !IsDiffLine(lines[f])
            && HunkOf(lines, lineNumber) == Err(InvalidHunk(UnexpectedLine(lines[f]), lineNumber + f + 1))
  {
    hide HeaderOf, HeadOf, IsDiffLine, ChunksOf, BlankLines;
    BadBeginningIsReportedOneOff(lines[HeaderLines(lines)..], lineNumber + HeaderLines(lines));
  }

  lemma HunkErrorLine(lines: seq<string>, lineNumber: nat)
    requires lines != [] && HunkOf(lines, lineNumber).Err? && !BeginsBadly(lines)
    ensures var e := HunkOf(lines, lineNumber).error;
            e.InvalidHunk? && IsAbout(e.error, lines, e.lineNumber - lineNumber)
  {
    hide HeaderOf, ChunksOf, Trim, ChunksBeginBadly;
    var e := HunkOf(lines, lineNumber).error;
    if HeaderOf(lines[0]).UpdateHeader? {
      var skipped := HeaderLines(lines);
      if ChunksOf(lines[skipped..], lineNumber + skipped, true).Err? {
        hide IsAbout;
        ChunksErrorLine(lines[skipped..], lineNumber + skipped, true);
        IsAboutFurtherOn(e.error, lines, skipped, e.lineNumber - lineNumber - skipped);
      }
    }
  }

  /** Where the hunk begins that cannot be parsed. */
  function FailingHunk(lines: seq<string>, lineNumber: nat): (h: nat)
    requires HunksOf(lines, lineNumber).Err?
    ensures h < |lines|
    decreases |lines|
  {
    hide HunkOf;
    match HunkOf(lines, lineNumber)
    case Err(_) => 0
    case Ok(parsed) =>
      HunkProgress(lines, lineNumber);
      parsed.count + FailingHunk(lines[parsed.count..], lineNumber + parsed.count)
  }

  lemma NotAboutTheNext(lines: seq<string>, f: nat)
    requires f < |lines| && HeadOf(lines[f]).Unmarked?
    ensures !IsAbout(UnexpectedLine(lines[f]), lines, f + 1)
  {
    hide HeadOf, IsDiffLine;
  }

  /** Among the lines parsed, the number reported is that of the line at fault if and only if the hunk
      that fails is no update beginning badly; if it is one, the number is one too high. */
  lemma {:induction false} ErrorLineIff(lines: seq<string>, lineNumber: nat)
    requires HunksOf(lines, lineNumber).Err?
    ensures var e := HunksOf(lines, lineNumber).error;
            var h := FailingHunk(lines, lineNumber);
            && e.InvalidHunk?
            && (IsAbout(e.error, lines, e.lineNumber - lineNumber) <==> !BeginsBadly(lines[h..]))
            && (BeginsBadly(lines[h..]) ==>
                  var f := h + FirstChunkLine(lines[h..]);
                  f < |lines| && e == InvalidHunk(UnexpectedLine(lines[f]), lineNumber + f + 1))
    decreases |lines|
  {
    hide HunkOf, IsAbout, BeginsBadly, FirstChunkLine;
    var e := HunksOf(lines, lineNumber).error;
    var h := FailingHunk(lines, lineNumber);
    FailingHunkFails(lines, lineNumber);
    if BeginsBadly(lines[h..]) {
      BadUpdateIsReportedOneOff(lines[h..], lineNumber + h);
      var f := h + FirstChunkLine(lines[h..]);
      assert lines[h..][FirstChunkLine(lines[h..])] == lines[f];
      NotAboutTheNext(lines, f);
    } else {
      HunkErrorLine(lines[h..], lineNumber + h);
      IsAboutFurtherOn(e.error, lines, h, e.lineNumber - lineNumber - h);
    }
  }

  lemma {:induction false} FailingHunkFails(lines: seq<string>, lineNumber: nat)
    requires HunksOf(lines, lineNumber).Err?
    ensures var h := FailingHunk(lines, lineNumber);
            HunkOf(lines[h..], lineNumber + h) == Err(HunksOf(lines, lineNumber).error)
    decreases |lines|
  {
    hide HunkOf;
    if HunkOf(lines, lineNumber).Err? {
      assert lines[0..] == lines;
    } else {
      HunkProgress(lines, lineNumber);
      var n := HunkOf(lines, lineNumber).value.count;
      FailingHunkFails(lines[n..], lineNumber + n);
      var k := FailingHunk(lines[n..], lineNumber + n);
      assert lines[n..][k..] == lines[n + k..];
    }
  }

  // Numbers relative to the text passed in

  /** The pieces of a text put together from two: the last one and the first one become one. */
  function Glued(a: seq<string>, b: seq<string>): seq<string>
    requires a != [] && b != []
  {
    a[..|a| - 1] + [a[|a| - 1] + b[0]] + b[1..]
  }

  lemma GluedAfterNewline(a: seq<string>, b: seq<string>)
    requires a != [] && b != []
    ensures Glued([""] + a, b) == [""] + Glued(a, b)
  {
    assert ([""] + a)[..|a|] == [""] + a[..|a| - 1];
  }

  lemma GluedAfterChar(c: char, a: seq<string>, b: seq<string>)
    requires a != [] && b != []
    ensures Glued([[c] + a[0]] + a[1..], b) == [[c] + Glued(a, b)[0]] + Glued(a, b)[1..]
  {
    var longer := [[c] + a[0]] + a[1..];
    if |a| == 1 {
      assert [c] + a[0] + b[0] == [c] + (a[0] + b[0]);
    } else {
      assert longer[..|a| - 1] == [[c] + a[0]] + a[1..|a| - 1];
      assert a[..|a| - 1] == [a[0]] + a[1..|a| - 1];
    }
  }

  lemma ConsSplit(c: char, s: string)
    ensures Split([c] + s) == if c == '\n' then [""] + Split(s) else [[c] + Split(s)[0]] + Split(s)[1..]
  {
    assert ([c] + s)[1..] == s;
  }

  lemma {:induction false} SplitConcat(a: string, b: string)
    ensures Split(a + b) == Glued(Split(a), Split(b))
  {
    hide Split, Glued;
    if a == "" {
      SplitOfNothingAnd(b);
      return;
    }
    var c, tail := a[0], a[1..];
    assert a == [c] + tail && a + b == [c] + (tail + b);
    SplitConcat(tail, b);
    ConsSplit(c, tail);
    ConsSplit(c, tail + b);
    GluedAfterNewline(Split(tail), Split(b));
    GluedAfterChar(c, Split(tail), Split(b));
  }

  lemma SplitOfNothingAnd(b: string)
    ensures Split("" + b) == Glued(Split(""), Split(b))
  {
    assert "" + b == b && Split("") == [""];
    hide Split;
    assert "" + Split(b)[0] == Split(b)[0];
  }

  lemma GluedAt(a: seq<string>, b: seq<string>, i: nat)
    requires a != [] && b != []
    ensures |Glued(a, b)| == |a| + |b| - 1
    ensures i < |a| - 1 ==> Glued(a, b)[i] == a[i]
    ensures 0 < i < |b| ==> Glued(a, b)[|a| - 1 + i] == b[i]
  {
  }

  /** A piece of a text between its first and its last keeps its contents when text is put around. */
  lemma SplitAround(left: string, s: string, right: string, j: nat)
    requires 1 <= j < |Split(s)| - 1
    ensures |Split(left)| + j < |Split(left + (s + right))|
    ensures Split(left + (s + right))[|Split(left)| - 1 + j] == Split(s)[j]
  {
    hide Split, Glued;
    SplitConcat(s, right);
    SplitConcat(left, s + right);
    GluedAt(Split(s), Split(right), j);
    GluedAt(Split(left), Split(s + right), j);
  }

  lemma SplitAroundCount(left: string, s: string, right: string)
    ensures |Split(left)| - 1 + |Split(s)| <= |Split(left + (s + right))|
  {
    hide Split, Glued;
    SplitConcat(s, right);
    SplitConcat(left, s + right);
    GluedAt(Split(s), Split(right), 0);
    GluedAt(Split(left), Split(s + right), 0);
  }

  lemma LineIsStrippedPart(s: string, i: nat)
    requires i < |Split(s)| - 1
    ensures i < |Lines(s)| && Lines(s)[i] == StripCr(Split(s)[i])
  {
    hide Split, StripCr;
  }

  lemma LinesWithin(s: string)
    ensures |Split(s)| - 1 <= |Lines(s)| <= |Split(s)|
  {
    hide Split;
  }

  /** The whitespace a text begins with. */
  function Margin(text: string): string {
    if text != "" && IsWhitespace(text[0]) then [text[0]] + Margin(text[1..]) else ""
  }

  lemma MarginStep(c: char, rest: string)
    ensures Margin([c] + rest) == if IsWhitespace(c) then [c] + Margin(rest) else ""
    ensures TrimStart([c] + rest) == if IsWhitespace(c) then TrimStart(rest) else [c] + rest
  {
    hide IsWhitespace;
    assert ([c] + rest)[1..] == rest;
  }

  lemma ConcatAssociates(a: string, b: string, c: string)
    ensures a + b + c == a + (b + c)
  {
  }

  lemma FirstAndRest(s: string)
    requires s != ""
    ensures s == [s[0]] + s[1..]
  {
  }

  lemma {:induction false} MarginOf(front: string, right: string)
    requires TrimStart(front) != ""
    ensures front == Margin(front + right) + TrimStart(front)
  {
    assert front != "" by { assert TrimStart("") == ""; }
    var c, rest := front[0], front[1..];
    hide *;
    FirstAndRest(front);
    ConcatAssociates([c], rest, right);
    MarginStep(c, rest);
    MarginStep(c, rest + right);
    if IsWhitespace(c) {
      MarginOf(rest, right);
      ConcatAssociates([c], Margin(rest + right), TrimStart(rest));
    }
  }

  lemma TrimBetween(text: string) returns (right: string)
    requires Trim(text) != ""
    ensures text == Margin(text) + (Trim(text) + right)
  {
    var front := TrimEnd(text);
    right := text[|front|..];
    assert Trim(text) == TrimStart(front);
    hide *;
    PrefixAndRest(front, text);
    MarginOf(front, right);
    ConcatAssociates(Margin(text), Trim(text), right);
  }

  lemma LineWithin(left: string, t: string, right: string, j: nat)
    requires 1 <= j < |Lines(t)| - 1
    ensures var text, k := left + (t + right), |Split(left)| - 1 + j;
            k < |Lines(text)| && Lines(text)[k] == Lines(t)[j]
  {
    hide Split, Lines, StripCr;
    LinesWithin(t);
    SplitAround(left, t, right, j);
    LineIsStrippedPart(left + (t + right), |Split(left)| - 1 + j);
    LineIsStrippedPart(t, j);
  }

  /** The lines of the trimmed text, its first and last apart, are lines of the text, as many further
      down as there are newlines in the margin. */
  lemma TrimmedLineInText(text: string, j: nat)
    requires 1 <= j < |Lines(Trim(text))| - 1
    ensures var k := |Split(Margin(text))| - 1 + j;
            k < |Lines(text)| && Lines(text)[k] == Lines(Trim(text))[j]
  {
    hide *;
    TextWithLines(Trim(text));
    var right := TrimBetween(text);
    LineWithin(Margin(text), Trim(text), right, j);
  }

  /** Lines in front of the patch among those given to the parser: none, or the opening of a here-document. */
  function OpeningLines(lines: seq<string>): nat {
    if StrictBoundaries(lines).Ok? then 0 else 1
  }

  /** How many lines of the text come before the one the parser counts as line 1: those that `trim`
      drops, and the one that opens a here-document. */
  function LinesInFront(text: string): nat {
    |Split(Margin(text))| - 1 + OpeningLines(Lines(Trim(text)))
  }

  /** The lines between the two markers of a patch. */
  function BodyOf(text: string, mode: ParseMode): seq<string>
    requires PatchLines(Lines(Trim(text)), mode).Ok?
  {
    BoundariesTakeTwoLines(Lines(Trim(text)), mode);
    var lines := PatchLines(Lines(Trim(text)), mode).value;
    lines[1..|lines| - 1]
  }

  /** A line of the body, found again among all lines, neither first nor last. */
  lemma BodyLineAmong(lines: seq<string>, mode: ParseMode, j: nat)
    requires PatchLines(lines, mode).Ok? && j + 2 < |PatchLines(lines, mode).value|
    ensures var k := OpeningLines(lines) + 1 + j;
            1 <= k < |lines| - 1 && PatchLines(lines, mode).value[1 + j] == lines[k]
  {
    hide HeredocStart, HeredocEnd;
  }

  lemma PatchLinesCount(lines: seq<string>, mode: ParseMode)
    requires PatchLines(lines, mode).Ok?
    ensures 2 <= |PatchLines(lines, mode).value| == |lines| - 2 * OpeningLines(lines)
  {
    BoundariesTakeTwoLines(lines, mode);
    hide HeredocStart, HeredocEnd;
  }

  lemma TextHasTrimmedLines(text: string)
    requires Lines(Trim(text)) != []
    ensures |Split(Margin(text))| - 1 + |Lines(Trim(text))| - 1 <= |Lines(text)|
  {
    hide *;
    TextWithLines(Trim(text));
    var right := TrimBetween(text);
    SplitAroundCount(Margin(text), Trim(text), right);
    LinesWithin(text);
    LinesWithin(Trim(text));
  }

  lemma BodyLineInText(text: string, mode: ParseMode, j: nat)
    requires PatchLines(Lines(Trim(text)), mode).Ok? && j < |BodyOf(text, mode)|
    ensures var k := LinesInFront(text) + 1 + j;
            k < |Lines(text)| && Lines(text)[k] == BodyOf(text, mode)[j]
  {
    hide Split, Margin, Trim, TrimStart, TrimEnd, Lines, OpeningLines, PatchLines, IsWhitespace;
    var lines := Lines(Trim(text));
    PatchLinesCount(lines, mode);
    BodyLineAmong(lines, mode, j);
    TrimmedLineInText(text, OpeningLines(lines) + 1 + j);
  }

  lemma BodyFits(text: string, mode: ParseMode)
    requires PatchLines(Lines(Trim(text)), mode).Ok?
    ensures LinesInFront(text) + 1 + |BodyOf(text, mode)| <= |Lines(text)|
  {
    hide Split, Margin, Trim, TrimStart, TrimEnd, Lines, OpeningLines, PatchLines, IsWhitespace;
    PatchLinesCount(Lines(Trim(text)), mode);
    TextHasTrimmedLines(text);
  }

  /** The body of the patch is a stretch of the text's lines. */
  lemma BodyInText(text: string, mode: ParseMode)
    requires PatchLines(Lines(Trim(text)), mode).Ok?
    ensures var from := LinesInFront(text) + 1;
            var end := from + |BodyOf(text, mode)|;
            end <= |Lines(text)| && BodyOf(text, mode) == Lines(text)[from..end]
  {
    hide *;
    BodyFits(text, mode);
    var from := LinesInFront(text) + 1;
    var body := BodyOf(text, mode);
    forall j | 0 <= j < |body| ensures Lines(text)[from + j] == body[j] {
      BodyLineInText(text, mode, j);
    }
  }

  lemma ParsedTextFails(text: string, mode: ParseMode)
    requires ParsedText(text, mode).Err? && ParsedText(text, mode).error.InvalidHunk?
    ensures PatchLines(Lines(Trim(text)), mode).Ok?
    ensures HunksOf(BodyOf(text, mode), 2) == Err(ParsedText(text, mode).error)
  {
    hide HunksOf, Lines, Trim, Join, HeredocStart, HeredocEnd;
  }

  /** The hunk that cannot be parsed begins badly. */
  ghost predicate BodyFailsBadly(body: seq<string>)
    requires HunksOf(body, 2).Err?
  {
    BeginsBadly(body[FailingHunk(body, 2)..])
  }

  /** Line `at` is at fault: in the way reported, or as the bad beginning of an update. */
  ghost predicate IsAtFault(e: HunkError, lines: seq<string>, at: int, bad: bool) {
    if bad then
      && 0 <= at < |lines| && e == UnexpectedLine(lines[at])
      && HeadOf(lines[at]).Unmarked? && !IsDiffLine(lines[at])
    else IsAbout(e, lines, at)
  }

  lemma IsAtFaultFurtherOn(e: HunkError, lines: seq<string>, from: nat, k: int, bad: bool)
    requires from <= |lines| && IsAtFault(e, lines[from..], k, bad)
    ensures IsAtFault(e, lines, from + k, bad)
  {
    hide IsAbout, HeadOf, IsDiffLine;
    if bad {
      assert lines[from..][k] == lines[from + k];
    } else {
      IsAboutFurtherOn(e, lines, from, k);
    }
  }

  lemma NumberInBody(body: seq<string>)
    requires HunksOf(body, 2).Err?
    ensures var e, bad := HunksOf(body, 2).error, BodyFailsBadly(body);
            e.InvalidHunk? && IsAtFault(e.error, body, e.lineNumber - 2 - if bad then 1 else 0, bad)
  {
    hide HunksOf, FailingHunk, BeginsBadly, FirstChunkLine, IsAbout, HeadOf, IsDiffLine;
    ErrorLineIff(body, 2);
    var h := FailingHunk(body, 2);
    if BeginsBadly(body[h..]) {
      BadLineOf(body, h);
    }
  }

  lemma BadLineOf(body: seq<string>, h: nat)
    requires h < |body| && BeginsBadly(body[h..])
    ensures var f := h + FirstChunkLine(body[h..]);
            f < |body| && HeadOf(body[f]).Unmarked? && !IsDiffLine(body[f])
  {
    hide HeadOf, IsDiffLine, HunkOf, BeginsBadly, FirstChunkLine;
    BadUpdateIsReportedOneOff(body[h..], 2);
    assert body[h..][FirstChunkLine(body[h..])] == body[h + FirstChunkLine(body[h..])];
  }

  /** The number reported, against the text passed in: line `at` of it, counting from 0, is at fault, of
      those before the patch's last marker; and the number is that line's if and only if as many lines
      come before the patch as the parser counts too many. */
  lemma ReportedNumberIff(text: string, mode: ParseMode) returns (at: int)
    requires ParsedText(text, mode).Err? && ParsedText(text, mode).error.InvalidHunk?
    ensures PatchLines(Lines(Trim(text)), mode).Ok?
    ensures HunksOf(BodyOf(text, mode), 2) == Err(ParsedText(text, mode).error)
    ensures var e, bad := ParsedText(text, mode).error, BodyFailsBadly(BodyOf(text, mode));
            var end := LinesInFront(text) + 1 + |BodyOf(text, mode)|;
            && end <= |Lines(text)|
            && IsAtFault(e.error, Lines(text)[..end], at, bad)
            && (e.lineNumber == at + 1 <==> LinesInFront(text) == if bad then 1 else 0)
            && e.lineNumber + LinesInFront(text) == at + 1 + if bad then 1 else 0
  {
    hide *;
    ParsedTextFails(text, mode);
    BodyInText(text, mode);
    var body, from := BodyOf(text, mode), LinesInFront(text) + 1;
    var e, bad := ParsedText(text, mode).error, BodyFailsBadly(body);
    NumberInBody(body);
    var lines := Lines(text)[..from + |body|];
    assert lines[from..] == body;
    var k := e.lineNumber - 2 - if bad then 1 else 0;
    IsAtFaultFurtherOn(e.error, lines, from, k, bad);
    at := from + k;
  }

  /** In a here-document the number is one too low: the bad line is the third one of the text, and is
      reported as the second. */
  lemma HeredocNumberIsTooLow(open: string, line: string)
    requires HeredocStart(open) && NoNewline(line) && !EndsInCr(line) && HeaderOf(line).NoHeader?
    ensures var text := Heredoc(open, Join([BEGIN_PATCH_MARKER, line, END_PATCH_MARKER], "\n"));
            && ParsedText(text, Lenient) == Err(InvalidHunk(NotAHeader(Trim(line)), 2))
            && |Lines(text)| == 5 && Lines(text)[2] == line
  {
    var lines := [BEGIN_PATCH_MARKER, line, END_PATCH_MARKER];
    var patch := Join(lines, "\n");
    OneLinePatch(line);
    BareNumber(line);
    hide *;
    TextWithLines(patch);
    TrimEnds(patch);
    HeredocIsTransparent(open, patch);
    HeredocLines(open, patch);
    MiddleOfFive(open, lines, "EOF");
  }

  lemma MiddleOfFive(open: string, lines: seq<string>, close: string)
    requires |lines| == 3
    ensures |[open] + lines + [close]| == 5 && ([open] + lines + [close])[2] == lines[1]
  {
  }

  lemma TrimEnds(text: string)
    requires Trim(text) == text && text != ""
    ensures !IsWhitespace(text[|text| - 1])
  {
  }

  lemma OneLinePatch(line: string)
    requires NoNewline(line) && !EndsInCr(line)
    ensures var lines := [BEGIN_PATCH_MARKER, line, END_PATCH_MARKER];
            var patch := Join(lines, "\n");
            Trim(patch) == patch && Lines(patch) == lines
  {
    hide Join, Trim, Lines;
    var lines := [BEGIN_PATCH_MARKER, line, END_PATCH_MARKER];
    PatchTextTrims(lines, "\n", "", "");
    assert "" + Join(lines, "\n") + "" == Join(lines, "\n");
    LinesOfJoin(lines);
  }

  lemma BareNumber(line: string)
    requires NoNewline(line) && !EndsInCr(line) && HeaderOf(line).NoHeader?
    ensures ParsedText(Join([BEGIN_PATCH_MARKER, line, END_PATCH_MARKER], "\n"), Strict)
            == Err(InvalidHunk(NotAHeader(Trim(line)), 2))
  {
    hide Join, Trim, Lines, HeaderOf, HunksOf;
    OneLinePatch(line);
    assert [BEGIN_PATCH_MARKER, line, END_PATCH_MARKER][1..2] == [line];
    NoHeaderFails(line);
  }

  lemma NoHeaderFails(line: string)
    requires HeaderOf(line).NoHeader?
    ensures HunksOf([line], 2) == Err(InvalidHunk(NotAHeader(Trim(line)), 2))
  {
    hide HeaderOf, Trim;
  }
}
