/** The patch format written out by its grammar, and the proof that the parser reads it back. */
module PatchPrinter {
  import opened Results
  import opened Text
  import opened Patch
  import opened PatchParser

  // The syntax: what the author of a patch writes

  /** A line of a chunk. An empty context line may be written with its marker, or as nothing at all. */
  datatype DiffLine = Context(text: string) | Blank | Added(text: string) | Removed(text: string)

  /** A chunk, with the blank lines in front of it; `marked` tells whether it has a line with "@@". */
  datatype ChunkText = ChunkText(
    gap: seq<string>,
    marked: bool,
    context: Option<string>,
    body: seq<DiffLine>,
    isEndOfFile: bool)

  /** The path in a hunk's header, with whatever whitespace there is around the header. */
  datatype PathText = PathText(left: string, path: string, right: string)

  /** A hunk; an update may have blank lines after its last chunk. */
  datatype HunkText =
    | AddText(at: PathText, lines: seq<string>)
    | DeleteText(at: PathText)
    | UpdateText(at: PathText, movePath: Option<string>, chunks: seq<ChunkText>, gap: seq<string>)

  ghost predicate AllBlank(lines: seq<string>) {
    forall l :: l in lines ==> IsBlank(l)
  }

  /** Blank lines at this place. Behind a chunk that may go on, a line that could be one of its own is
      one of its own. */
  ghost predicate GapFits(gap: seq<string>, mayGoOn: bool) {
    AllBlank(gap) && (mayGoOn && gap != [] ==> !IsDiffLine(gap[0]))
  }

  /** A chunk has lines. The first one of an update may do without "@@", if it has no context and does
      not begin with a line that is taken for one of the blank lines in front. */
  ghost predicate ChunkFits(c: ChunkText, isFirst: bool, mayGoOn: bool) {
    && GapFits(c.gap, mayGoOn)
    && c.body != []
    && (c.marked || (isFirst && c.context.None? && !IsBlank(DiffLineText(c.body[0]))))
  }

  ghost predicate ChunksFit(cs: seq<ChunkText>, isFirst: bool, mayGoOn: bool) {
    cs == [] || (ChunkFits(cs[0], isFirst, mayGoOn) && ChunksFit(cs[1..], false, !cs[0].isEndOfFile))
  }

  /** The last of the chunks, or what was before them, may go on. */
  function LastMayGoOn(cs: seq<ChunkText>, mayGoOn: bool): bool {
    if cs == [] then mayGoOn else !cs[|cs| - 1].isEndOfFile
  }

  ghost predicate AllWhitespace(s: string) {
    forall c :: c in s ==> IsWhitespace(c)
  }

  /** A path is not empty and does not end in whitespace, an update has chunks. */
  ghost predicate WellFormed(hunk: HunkText) {
    && AllWhitespace(hunk.at.left) && AllWhitespace(hunk.at.right)
    && hunk.at.path != "" && !IsWhitespace(hunk.at.path[|hunk.at.path| - 1])
    && (hunk.UpdateText? ==>
          && hunk.chunks != [] && ChunksFit(hunk.chunks, true, false)
          && GapFits(hunk.gap, LastMayGoOn(hunk.chunks, false)))
  }

  /** After an update, the next header is not indented. */
  ghost predicate AllWellFormed(hunks: seq<HunkText>) {
    && (forall h :: h in hunks ==> WellFormed(h))
    && (forall i :: 0 <= i < |hunks| - 1 && hunks[i].UpdateText? ==> hunks[i + 1].at.left == "")
  }

  // Its meaning

  function LineText(l: DiffLine): string {
    if l.Blank? then "" else l.text
  }

  function OldLines(body: seq<DiffLine>): seq<string> {
    if body == [] then []
    else (if body[0].Added? then [] else [LineText(body[0])]) + OldLines(body[1..])
  }

  function NewLines(body: seq<DiffLine>): seq<string> {
    if body == [] then []
    else (if body[0].Removed? then [] else [LineText(body[0])]) + NewLines(body[1..])
  }

  function ChunkMeaning(c: ChunkText): Chunk {
    Chunk(c.context, OldLines(c.body), NewLines(c.body), c.isEndOfFile)
  }

  function ChunkMeanings(cs: seq<ChunkText>): seq<Chunk> {
    if cs == [] then [] else [ChunkMeaning(cs[0])] + ChunkMeanings(cs[1..])
  }

  function Meaning(hunk: HunkText): Hunk {
    match hunk
    case AddText(at, lines) => AddFile(at.path, Terminated(lines, "\n"))
    case DeleteText(at) => DeleteFile(at.path)
    case UpdateText(at, movePath, chunks, _) => UpdateFile(at.path, movePath, ChunkMeanings(chunks))
  }

  function Meanings(hunks: seq<HunkText>): seq<Hunk> {
    if hunks == [] then [] else [Meaning(hunks[0])] + Meanings(hunks[1..])
  }

  // Its lines

  function DiffLineText(l: DiffLine): string {
    match l
    case Context(text) => " " + text
    case Blank => ""
    case Added(text) => "+" + text
    case Removed(text) => "-" + text
  }

  function BodyLines(body: seq<DiffLine>): seq<string> {
    if body == [] then [] else [DiffLineText(body[0])] + BodyLines(body[1..])
  }

  function EofLines(isEndOfFile: bool): seq<string> {
    if isEndOfFile then ["*** End of File"] else []
  }

  function HeadLine(context: Option<string>): string {
    match context
    case None => "@@"
    case Some(text) => "@@ " + text
  }

  function HeadLines(c: ChunkText): seq<string> {
    if c.marked then [HeadLine(c.context)] else []
  }

  /** A chunk without the blank lines in front. */
  function BareLines(c: ChunkText): seq<string> {
    HeadLines(c) + (BodyLines(c.body) + EofLines(c.isEndOfFile))
  }

  function ChunkLines(c: ChunkText): seq<string> {
    c.gap + BareLines(c)
  }

  function ChunksLines(cs: seq<ChunkText>): seq<string> {
    if cs == [] then [] else ChunkLines(cs[0]) + ChunksLines(cs[1..])
  }

  function PlusLines(lines: seq<string>): seq<string> {
    if lines == [] then [] else ["+" + lines[0]] + PlusLines(lines[1..])
  }

  function MoveLines(movePath: Option<string>): seq<string> {
    match movePath
    case None => []
    case Some(path) => ["*** Move to: " + path]
  }

  function MarkerOf(hunk: HunkText): string {
    match hunk
    case AddText(_, _) => "*** Add File: "
    case DeleteText(_) => "*** Delete File: "
    case UpdateText(_, _, _, _) => "*** Update File: "
  }

  function HeaderText(hunk: HunkText): string {
    hunk.at.left + (MarkerOf(hunk) + hunk.at.path) + hunk.at.right
  }

  /** The lines below the header. */
  function RestLines(hunk: HunkText): seq<string> {
    match hunk
    case AddText(_, lines) => PlusLines(lines)
    case DeleteText(_) => []
    case UpdateText(_, movePath, chunks, gap) => MoveLines(movePath) + (ChunksLines(chunks) + gap)
  }

  function HunkLines(hunk: HunkText): seq<string> {
    [HeaderText(hunk)] + RestLines(hunk)
  }

  function HunksLines(hunks: seq<HunkText>): seq<string> {
    if hunks == [] then [] else HunkLines(hunks[0]) + HunksLines(hunks[1..])
  }

  function PatchTextLines(hunks: seq<HunkText>): seq<string> {
    ["*** Begin Patch"] + HunksLines(hunks) + ["*** End Patch"]
  }

  // Reading back the body of a chunk

  /** What may follow a chunk that may go on: nothing, or no line of its own. */
  ghost predicate EndsChunk(rest: seq<string>) {
    rest != [] ==> !IsDiffLine(rest[0]) && rest[0] != EOF_MARKER
  }

  lemma DiffLineReadsBack(l: DiffLine)
    ensures var line := DiffLineText(l);
            && line != EOF_MARKER && IsDiffLine(line)
            && OldPart(line) == (if l.Added? then [] else [LineText(l)])
            && NewPart(line) == (if l.Removed? then [] else [LineText(l)])
  {
    if !l.Blank? {
      var line := DiffLineText(l);
      assert line[0] != EOF_MARKER[0];
      assert line[1..] == l.text;
    }
  }

  lemma EndOfBody(rest: seq<string>, isEndOfFile: bool)
    requires !isEndOfFile ==> EndsChunk(rest)
    ensures ScanBody(EofLines(isEndOfFile) + rest)
            == Parsed(Body([], [], isEndOfFile), |EofLines(isEndOfFile)|)
  {
    if !isEndOfFile {
      assert EofLines(isEndOfFile) + rest == rest;
    }
  }

  lemma ScanStep(line: string, tail: seq<string>)
    requires line != EOF_MARKER && IsDiffLine(line)
    ensures var rest := ScanBody(tail);
            ScanBody([line] + tail)
            == Parsed(Body(OldPart(line) + rest.item.oldLines, NewPart(line) + rest.item.newLines, rest.item.isEndOfFile),
                      rest.count + 1)
  {
    hide OldPart, NewPart, IsDiffLine;
    assert ([line] + tail)[0] == line && ([line] + tail)[1..] == tail;
  }

  lemma {:induction false} BodyReadsBack(body: seq<DiffLine>, isEndOfFile: bool, rest: seq<string>)
    requires !isEndOfFile ==> EndsChunk(rest)
    ensures ScanBody(BodyLines(body) + (EofLines(isEndOfFile) + rest))
            == Parsed(Body(OldLines(body), NewLines(body), isEndOfFile), |BodyLines(body)| + |EofLines(isEndOfFile)|)
  {
    hide ScanBody, EofLines, OldPart, NewPart, DiffLineText, LineText, IsDiffLine, EndsChunk;
    var tail := EofLines(isEndOfFile) + rest;
    if body == [] {
      EndOfBody(rest, isEndOfFile);
      assert BodyLines(body) + tail == tail;
      return;
    }
    var line, more := DiffLineText(body[0]), BodyLines(body[1..]);
    DiffLineReadsBack(body[0]);
    assert BodyLines(body) == [line] + more;
    ConcatAssoc([line], more, tail);
    ScanStep(line, more + tail);
    BodyReadsBack(body[1..], isEndOfFile, rest);
  }

  lemma HeadReadsBack(context: Option<string>)
    ensures HeadOf(HeadLine(context)) == Marked(context)
  {
    if context.Some? {
      var line := HeadLine(context);
      assert |line| > |EMPTY_CHANGE_CONTEXT_MARKER|;
      assert line[|CHANGE_CONTEXT_MARKER|..] == context.value;
    }
  }

  lemma DiffLineIsNoHead(l: DiffLine)
    ensures HeadOf(DiffLineText(l)).Unmarked?
  {
    assert EMPTY_CHANGE_CONTEXT_MARKER[0] == '@' && CHANGE_CONTEXT_MARKER[0] == '@';
  }

  lemma MarkedChunkReadsBack(c: ChunkText, rest: seq<string>, lineNumber: nat, isFirst: bool)
    requires c.marked && c.body != [] && (!c.isEndOfFile ==> EndsChunk(rest))
    ensures ChunkOf(BareLines(c) + rest, lineNumber, isFirst) == Ok(Parsed(ChunkMeaning(c), |BareLines(c)|))
  {
    hide HeadOf, HeadLine, DiffLineText, ScanBody, EofLines, IsDiffLine, OldPart, NewPart, LineText;
    var lines := BareLines(c) + rest;
    HeadReadsBack(c.context);
    BodyReadsBack(c.body, c.isEndOfFile, rest);
    assert lines[0] == HeadLine(c.context);
    assert lines[1..] == BodyLines(c.body) + (EofLines(c.isEndOfFile) + rest);
    assert lines[1] == BodyLines(c.body)[0] == DiffLineText(c.body[0]);
    DiffLineReadsBack(c.body[0]);
  }

  lemma UnmarkedChunkReadsBack(c: ChunkText, rest: seq<string>, lineNumber: nat)
    requires !c.marked && c.context.None? && c.body != [] && (!c.isEndOfFile ==> EndsChunk(rest))
    ensures ChunkOf(BareLines(c) + rest, lineNumber, true) == Ok(Parsed(ChunkMeaning(c), |BareLines(c)|))
  {
    hide HeadOf, HeadLine, DiffLineText, ScanBody, EofLines, IsDiffLine, OldPart, NewPart, LineText;
    var lines := BareLines(c) + rest;
    BodyReadsBack(c.body, c.isEndOfFile, rest);
    assert lines[0..] == lines == BodyLines(c.body) + (EofLines(c.isEndOfFile) + rest);
    assert lines[0] == BodyLines(c.body)[0] == DiffLineText(c.body[0]);
    DiffLineReadsBack(c.body[0]);
    DiffLineIsNoHead(c.body[0]);
  }

  lemma ChunkReadsBack(c: ChunkText, rest: seq<string>, lineNumber: nat, isFirst: bool)
    requires c.body != [] && (c.marked || (isFirst && c.context.None?)) && (!c.isEndOfFile ==> EndsChunk(rest))
    ensures ChunkOf(BareLines(c) + rest, lineNumber, isFirst) == Ok(Parsed(ChunkMeaning(c), |BareLines(c)|))
  {
    if c.marked {
      MarkedChunkReadsBack(c, rest, lineNumber, isFirst);
    } else {
      UnmarkedChunkReadsBack(c, rest, lineNumber);
    }
  }

  // Reading back an update's chunks

  /** What may follow an update: nothing, or another hunk's header. */
  ghost predicate EndsUpdate(rest: seq<string>) {
    rest != [] ==> "***" <= rest[0] && rest[0] != EOF_MARKER
  }

  /** A line that starts with something else than whitespace is not blank. */
  lemma NotBlank(line: string)
    requires line != "" && !IsWhitespace(line[0])
    ensures !IsBlank(line)
  {
    var e := TrimEnd(line);
    assert e != "" && e[0] == line[0];
    assert TrimStart(e) == e;
  }

  lemma StarsAreNoDiffLine(line: string)
    requires "***" <= line
    ensures !IsDiffLine(line) && !IsBlank(line) && line[0] == '*'
  {
    assert !IsWhitespace('*');
    hide IsBlank, IsWhitespace;
    assert line[0] == "***"[0];
    NotBlank(line);
  }

  lemma EndsUpdateEndsChunk(rest: seq<string>)
    requires EndsUpdate(rest)
    ensures EndsChunk(rest)
  {
    if rest != [] {
      StarsAreNoDiffLine(rest[0]);
    }
  }

  lemma GapEndsChunk(gap: seq<string>, rest: seq<string>)
    requires GapFits(gap, true) && EndsChunk(rest)
    ensures EndsChunk(gap + rest)
  {
    if gap == [] {
      assert gap + rest == rest;
    } else {
      assert "***" <= EOF_MARKER;
      assert gap[0] in gap;
      if gap[0] == EOF_MARKER {
        StarsAreNoDiffLine(gap[0]);
      }
    }
  }

  lemma HeadLineStarts(context: Option<string>)
    ensures HeadLine(context) != "" && HeadLine(context)[0] == '@' && HeadLine(context) != EOF_MARKER
    ensures !("***" <= HeadLine(context)) && !IsBlank(HeadLine(context)) && !IsDiffLine(HeadLine(context))
  {
    hide IsBlank, IsWhitespace;
    var line := HeadLine(context);
    assert line[0] == '@';
    AtSignStarts(line);
  }

  lemma AtSignStarts(line: string)
    requires line != "" && line[0] == '@'
    ensures line != EOF_MARKER && !("***" <= line) && !IsBlank(line) && !IsDiffLine(line)
  {
    assert EOF_MARKER[0] == '*' && "***"[0] == '*' && !IsWhitespace('@');
    hide IsBlank, IsWhitespace;
    NotBlank(line);
  }

  lemma DiffLineStarts(l: DiffLine)
    ensures !("***" <= DiffLineText(l))
  {
    assert "***"[0] == '*';
  }

  /** A chunk's own first line is not taken for anything else. */
  lemma BareLinesStart(c: ChunkText, isFirst: bool, mayGoOn: bool)
    requires ChunkFits(c, isFirst, mayGoOn)
    ensures BareLines(c) != [] && !IsBlank(BareLines(c)[0]) && !("***" <= BareLines(c)[0])
    ensures c.marked ==> EndsChunk(BareLines(c))
  {
    hide IsBlank, HeadLine, DiffLineText, IsDiffLine;
    HeadLineStarts(c.context);
    DiffLineStarts(c.body[0]);
    assert !c.marked ==> BareLines(c)[0] == DiffLineText(c.body[0]);
  }

  lemma {:induction false} SkipBlanks(gap: seq<string>, lines: seq<string>, lineNumber: nat, isFirst: bool)
    requires AllBlank(gap)
    ensures ChunksOf(gap + lines, lineNumber, isFirst)
            == Counted([], |gap|, ChunksOf(lines, lineNumber + |gap|, isFirst))
    decreases |gap|
  {
    hide ChunkOf, IsBlank;
    if gap == [] {
      assert gap + lines == lines;
      CountedNothing(ChunksOf(lines, lineNumber, isFirst));
    } else {
      var all := gap + lines;
      assert all[0] == gap[0] && gap[0] in gap && all[1..] == gap[1..] + lines;
      SkipBlanks(gap[1..], lines, lineNumber + 1, isFirst);
      var none: seq<Chunk> := [];
      CountedCounted(none, 1, none, |gap| - 1, ChunksOf(lines, lineNumber + |gap|, isFirst));
      assert none + none == none;
    }
  }

  lemma ChunksEnd(rest: seq<string>, lineNumber: nat, isFirst: bool)
    requires EndsUpdate(rest)
    ensures ChunksOf(rest, lineNumber, isFirst) == Ok(Parsed([], 0))
  {
    hide IsBlank, ChunkOf;
    if rest != [] {
      StarsAreNoDiffLine(rest[0]);
    }
  }

  lemma ChunksOfStep(lines: seq<string>, lineNumber: nat, isFirst: bool)
    requires lines != [] && !IsBlank(lines[0]) && !("***" <= lines[0])
    requires ChunkOf(lines, lineNumber, isFirst).Ok?
    ensures var p := ChunkOf(lines, lineNumber, isFirst).value;
            && p.count <= |lines|
            && ChunksOf(lines, lineNumber, isFirst)
               == Counted([p.item], p.count, ChunksOf(lines[p.count..], lineNumber + p.count, false))
  {
    hide ChunkOf, IsBlank;
    ChunkProgress(lines, lineNumber, isFirst);
  }

  lemma ChunksLinesFront(cs: seq<ChunkText>, rest: seq<string>)
    requires cs != []
    ensures ChunksLines(cs) + rest == cs[0].gap + (BareLines(cs[0]) + (ChunksLines(cs[1..]) + rest))
    ensures |ChunksLines(cs)| == |cs[0].gap| + |BareLines(cs[0])| + |ChunksLines(cs[1..])|
  {
    hide BareLines;
    var c, more := cs[0], ChunksLines(cs[1..]);
    ConcatAssoc(c.gap + BareLines(c), more, rest);
    ConcatAssoc(c.gap, BareLines(c), more + rest);
  }

  /** What follows a chunk that may go on does not go on with it. */
  lemma FollowerEndsChunk(cs: seq<ChunkText>, gap: seq<string>, rest: seq<string>)
    requires ChunksFit(cs, false, true) && GapFits(gap, LastMayGoOn(cs, true)) && EndsUpdate(rest)
    ensures EndsChunk(ChunksLines(cs) + (gap + rest))
  {
    hide GapFits, EndsUpdate, IsDiffLine, IsBlank, EndsChunk, BareLines, DiffLineText;
    EndsUpdateEndsChunk(rest);
    if cs == [] {
      assert ChunksLines(cs) + (gap + rest) == gap + rest;
      GapEndsChunk(gap, rest);
      return;
    }
    var more := ChunksLines(cs[1..]) + (gap + rest);
    ChunksLinesFront(cs, gap + rest);
    hide ChunksLines;
    BareLinesStart(cs[0], false, true);
    EndsChunkByFirst(BareLines(cs[0]), more);
    GapEndsChunk(cs[0].gap, BareLines(cs[0]) + more);
  }

  lemma EndsChunkByFirst(lines: seq<string>, more: seq<string>)
    requires lines != [] && EndsChunk(lines)
    ensures EndsChunk(lines + more)
  {
  }

  lemma {:induction false} ChunksReadBack(cs: seq<ChunkText>, gap: seq<string>, rest: seq<string>,
                                          lineNumber: nat, isFirst: bool, mayGoOn: bool)
    requires ChunksFit(cs, isFirst, mayGoOn) && GapFits(gap, LastMayGoOn(cs, mayGoOn)) && EndsUpdate(rest)
    ensures ChunksOf(ChunksLines(cs) + (gap + rest), lineNumber, isFirst)
            == Ok(Parsed(ChunkMeanings(cs), |ChunksLines(cs)| + |gap|))
  {
    hide ChunkOf, ChunksOf, IsBlank, ChunkMeaning, EndsUpdate, EndsChunk, BareLines, IsDiffLine, ChunksLines, DiffLineText;
    if cs == [] {
      assert ChunksLines(cs) == [] by { NoChunksNoLines(); }
      assert ChunksLines(cs) + (gap + rest) == gap + rest;
      SkipBlanks(gap, rest, lineNumber, isFirst);
      ChunksEnd(rest, lineNumber + |gap|, isFirst);
      CountedEnd<Chunk>([], |gap|);
      return;
    }
    var c, more := cs[0], ChunksLines(cs[1..]) + (gap + rest);
    var m, n := lineNumber + |c.gap|, |BareLines(c)|;
    if !c.isEndOfFile {
      FollowerEndsChunk(cs[1..], gap, rest);
    }
    ChunksLinesFront(cs, gap + rest);
    SkipBlanks(c.gap, BareLines(c) + more, lineNumber, isFirst);
    BareLinesStart(c, isFirst, mayGoOn);
    ChunkReadsBack(c, more, m, isFirst);
    ChunksOfStep(BareLines(c) + more, m, isFirst);
    DropFront(BareLines(c), more);
    ChunksReadBack(cs[1..], gap, rest, m + n, false, !c.isEndOfFile);
    var meanings := ChunkMeanings(cs[1..]);
    assert ChunkMeanings(cs) == [ChunkMeaning(c)] + meanings;
    hide ChunkMeanings, ChunksFit, GapFits, LastMayGoOn, ChunkFits;
    assert [] + ([ChunkMeaning(c)] + meanings) == [ChunkMeaning(c)] + meanings;
  }

  lemma NoChunksNoLines()
    ensures ChunksLines([]) == []
  {
  }

  lemma DropFront<T>(front: seq<T>, rest: seq<T>)
    ensures (front + rest)[|front|..] == rest
    ensures front != [] ==> (front + rest)[0] == front[0]
  {
  }

  // Reading back a hunk

  /** What may follow a hunk, by its kind. */
  ghost predicate MayFollow(hunk: HunkText, rest: seq<string>) {
    match hunk
    case AddText(_, _) => rest != [] && rest[0] != "" ==> rest[0][0] != '+'
    case DeleteText(_) => true
    case UpdateText(_, _, _, _) => EndsUpdate(rest)
  }

  lemma {:induction false} PlusLinesReadBack(lines: seq<string>, rest: seq<string>)
    requires rest != [] && rest[0] != "" ==> rest[0][0] != '+'
    ensures AddedText(PlusLines(lines) + rest) == Parsed(Terminated(lines, "\n"), |lines|)
  {
    if lines == [] {
      assert PlusLines(lines) + rest == rest;
      return;
    }
    var more := PlusLines(lines[1..]);
    assert PlusLines(lines) == ["+" + lines[0]] + more;
    hide AddedText, PlusLines;
    PrependAssoc("+" + lines[0], more, rest);
    PlusLineStep(lines[0], more + rest);
    PlusLinesReadBack(lines[1..], rest);
  }

  lemma PlusLineStep(line: string, rest: seq<string>)
    ensures AddedText(["+" + line] + rest)
            == Parsed(line + "\n" + AddedText(rest).item, AddedText(rest).count + 1)
  {
    var all := ["+" + line] + rest;
    assert all[0][1..] == line && all[1..] == rest;
  }

  lemma PlusLinesCount(lines: seq<string>)
    ensures |PlusLines(lines)| == |lines|
  {
  }

  lemma HeaderIsTrimmed(left: string, marker: string, path: string, right: string)
    requires AllWhitespace(left) && AllWhitespace(right)
    requires marker != "" && marker[0] == '*'
    requires path != "" && !IsWhitespace(path[|path| - 1])
    ensures Trim(left + (marker + path) + right) == marker + path
  {
    hide Trim;
    var line := marker + path;
    assert line[0] == '*' && line[|line| - 1] == path[|path| - 1];
    TrimPadded(left, line, right);
  }

  function HeaderMeant(hunk: HunkText): Header {
    match hunk
    case AddText(at, _) => AddHeader(at.path)
    case DeleteText(at) => DeleteHeader(at.path)
    case UpdateText(at, _, _, _) => UpdateHeader(at.path)
  }

  lemma HeaderReadsBack(hunk: HunkText)
    requires WellFormed(hunk)
    ensures HeaderOf(HeaderText(hunk)) == HeaderMeant(hunk)
  {
    hide Trim, ChunksFit, GapFits;
    var marker, path := MarkerOf(hunk), hunk.at.path;
    HeaderIsTrimmed(hunk.at.left, marker, path, hunk.at.right);
    var line := marker + path;
    assert line[|marker|..] == path;
    assert ADD_FILE_MARKER[4] == 'A' && DELETE_FILE_MARKER[4] == 'D' && UPDATE_FILE_MARKER[4] == 'U';
    assert line[4] == marker[4];
  }

  lemma MoveLineReadsBack(movePath: Option<string>, below: seq<string>)
    requires below != [] && !("***" <= below[0])
    ensures var lines := MoveLines(movePath) + below;
            && MovePathOf(lines) == movePath
            && lines[|MoveLines(movePath)|..] == below
  {
    var lines := MoveLines(movePath) + below;
    match movePath
    case None =>
      assert lines == below;
      assert "***" <= MOVE_TO_MARKER;
    case Some(path) =>
      assert (MOVE_TO_MARKER + path)[|MOVE_TO_MARKER|..] == path;
  }

  lemma BlankIsNoMarker(line: string)
    requires IsBlank(line)
    ensures !("***" <= line)
  {
    if "***" <= line {
      StarsAreNoDiffLine(line);
    }
  }

  /** The first line of an update's chunks is no new path. */
  lemma ChunksStart(cs: seq<ChunkText>, rest: seq<string>)
    requires cs != [] && ChunksFit(cs, true, false)
    ensures ChunksLines(cs) + rest != [] && !("***" <= (ChunksLines(cs) + rest)[0])
  {
    hide BareLines, IsBlank, IsDiffLine;
    ChunksLinesFront(cs, rest);
    BareLinesStart(cs[0], true, false);
    if cs[0].gap != [] {
      assert cs[0].gap[0] in cs[0].gap;
      BlankIsNoMarker(cs[0].gap[0]);
    }
  }

  lemma UpdateReadsBack(header: string, path: string, movePath: Option<string>, cs: seq<ChunkText>, gap: seq<string>,
                        rest: seq<string>, lineNumber: nat)
    requires cs != [] && ChunksFit(cs, true, false) && GapFits(gap, LastMayGoOn(cs, false)) && EndsUpdate(rest)
    ensures var below := MoveLines(movePath) + (ChunksLines(cs) + (gap + rest));
            UpdateOf(path, [header] + below, lineNumber)
            == Ok(Parsed(UpdateFile(path, movePath, ChunkMeanings(cs)),
                         1 + |MoveLines(movePath)| + |ChunksLines(cs)| + |gap|))
  {
    hide ChunksOf, ChunksLines, ChunkMeanings, EndsUpdate, MovePathOf, ChunksFit, GapFits, LastMayGoOn;
    var lines := [header] + (MoveLines(movePath) + (ChunksLines(cs) + (gap + rest)));
    ChunksStart(cs, gap + rest);
    MoveLineReadsBack(movePath, ChunksLines(cs) + (gap + rest));
    assert lines[1..] == MoveLines(movePath) + (ChunksLines(cs) + (gap + rest));
    var skipped := 1 + |MoveLines(movePath)|;
    assert lines[skipped..] == lines[1..][|MoveLines(movePath)|..];
    ChunksReadBack(cs, gap, rest, lineNumber + skipped, true, false);
    ChunkMeaningsCount(cs);
  }

  lemma ChunkMeaningsCount(cs: seq<ChunkText>)
    ensures |ChunkMeanings(cs)| == |cs|
  {
  }

  /** What the parser does at a header, told by what the header is. */
  lemma HunkAtHeader(header: string, tail: seq<string>, lineNumber: nat)
    ensures var h, r := HeaderOf(header), HunkOf([header] + tail, lineNumber);
            && (h.AddHeader? ==> var Parsed(contents, n) := AddedText(tail);
                                 r == Ok(Parsed(AddFile(h.path, contents), n + 1)))
            && (h.DeleteHeader? ==> r == Ok(Parsed(DeleteFile(h.path), 1)))
            && (h.UpdateHeader? ==> r == UpdateOf(h.path, [header] + tail, lineNumber))
  {
    hide HeaderOf, AddedText, UpdateOf;
    assert ([header] + tail)[0] == header && ([header] + tail)[1..] == tail;
  }

  lemma RegroupUpdate<T>(a: seq<T>, b: seq<T>, c: seq<T>, d: seq<T>)
    ensures a + (b + c) + d == a + (b + (c + d))
  {
  }

  lemma UpdateHunkReadsBack(hunk: HunkText, rest: seq<string>, lineNumber: nat)
    requires hunk.UpdateText? && WellFormed(hunk) && MayFollow(hunk, rest)
    ensures UpdateOf(hunk.at.path, [HeaderText(hunk)] + (RestLines(hunk) + rest), lineNumber)
            == Ok(Parsed(Meaning(hunk), |HunkLines(hunk)|))
  {
    hide UpdateOf, ChunksLines, ChunkMeanings, EndsUpdate, ChunksFit, GapFits, LastMayGoOn, HeaderText, AllWhitespace;
    var UpdateText(at, movePath, cs, gap) := hunk;
    UpdateReadsBack(HeaderText(hunk), at.path, movePath, cs, gap, rest, lineNumber);
    RegroupUpdate(MoveLines(movePath), ChunksLines(cs), gap, rest);
  }

  lemma PrependAssoc<T>(x: T, s: seq<T>, t: seq<T>)
    ensures [x] + s + t == [x] + (s + t)
  {
  }

  lemma HunkReadsBack(hunk: HunkText, rest: seq<string>, lineNumber: nat)
    requires WellFormed(hunk) && MayFollow(hunk, rest)
    ensures HunkOf(HunkLines(hunk) + rest, lineNumber) == Ok(Parsed(Meaning(hunk), |HunkLines(hunk)|))
  {
    hide HeaderOf, UpdateOf, HunkOf, AddedText, PlusLines, MoveLines, ChunksLines, ChunkMeanings, Terminated,
      EndsUpdate, ChunksFit, GapFits, HeaderText, WellFormed;
    HeaderReadsBack(hunk);
    PrependAssoc(HeaderText(hunk), RestLines(hunk), rest);
    HunkAtHeader(HeaderText(hunk), RestLines(hunk) + rest, lineNumber);
    match hunk {
      case AddText(_, added) =>
        PlusLinesReadBack(added, rest);
        PlusLinesCount(added);
      case DeleteText(_) =>
      case UpdateText(_, _, _, _) =>
        UpdateHunkReadsBack(hunk, rest, lineNumber);
    }
  }

  lemma MarkerStarts(hunk: HunkText, more: string)
    ensures var line := MarkerOf(hunk) + more; "***" <= line && line != EOF_MARKER && line[0] == '*'
  {
    var line := MarkerOf(hunk) + more;
    assert line[..3] == MarkerOf(hunk)[..3] == "***";
    assert line[4] == MarkerOf(hunk)[4] != EOF_MARKER[4];
  }

  lemma HeaderStarts(hunk: HunkText)
    requires AllWhitespace(hunk.at.left)
    ensures var line := HeaderText(hunk);
            && line != "" && line[0] != '+'
            && (hunk.at.left == "" ==> "***" <= line && line != EOF_MARKER)
  {
    hide MarkerOf;
    var line, left := HeaderText(hunk), hunk.at.left;
    MarkerStarts(hunk, hunk.at.path + hunk.at.right);
    var bare := MarkerOf(hunk) + (hunk.at.path + hunk.at.right);
    assert line == left + bare;
    if left == "" {
      assert line == bare;
    } else {
      assert line[0] == left[0] && left[0] in left;
    }
  }

  /** A header may stand behind any hunk, or, if it is not indented, behind an update. */
  lemma HeaderMayFollow(hunk: HunkText, next: HunkText, rest: seq<string>)
    requires WellFormed(next) && (hunk.UpdateText? ==> next.at.left == "")
    ensures MayFollow(hunk, HunkLines(next) + rest)
  {
    hide HeaderText, AllWhitespace, ChunksFit, GapFits, RestLines;
    HeaderStarts(next);
    assert (HunkLines(next) + rest)[0] == HeaderText(next);
  }

  /** Line by line: the parser reads every well-formed list of hunks back as what it means. */
  lemma {:induction false} HunksReadBack(hunks: seq<HunkText>, lineNumber: nat)
    requires AllWellFormed(hunks)
    ensures HunksOf(HunksLines(hunks), lineNumber) == Ok(Meanings(hunks))
  {
    hide HunkOf, HunkLines, Meaning, WellFormed, MayFollow;
    if hunks != [] {
      var tail := HunksLines(hunks[1..]);
      var lines := HunksLines(hunks);
      var n := |HunkLines(hunks[0])|;
      AllWellFormedTail(hunks);
      if hunks[1..] == [] {
        NothingMayFollow(hunks[0]);
      } else {
        HeaderMayFollow(hunks[0], hunks[1], HunksLines(hunks[1..][1..]));
      }
      HunkReadsBack(hunks[0], tail, lineNumber);
      assert lines == HunkLines(hunks[0]) + tail;
      assert lines[n..] == tail;
      HunkLinesNotEmpty(hunks[0]);
      HunksReadBack(hunks[1..], lineNumber + n);
    }
  }

  lemma AllWellFormedTail(hunks: seq<HunkText>)
    requires AllWellFormed(hunks) && hunks != []
    ensures WellFormed(hunks[0]) && AllWellFormed(hunks[1..])
    ensures |hunks| > 1 ==> WellFormed(hunks[1]) && (hunks[0].UpdateText? ==> hunks[1].at.left == "")
  {
    hide WellFormed;
    assert hunks[0] in hunks && forall h :: h in hunks[1..] ==> h in hunks;
    assert forall i :: 0 <= i < |hunks| - 1 ==> hunks[1..][i] == hunks[i + 1];
    assert |hunks| > 1 ==> hunks[1] in hunks;
  }

  lemma ConsWellFormed(hunk: HunkText, more: seq<HunkText>)
    requires WellFormed(hunk) && AllWellFormed(more)
    requires hunk.UpdateText? && more != [] ==> more[0].at.left == ""
    ensures AllWellFormed([hunk] + more)
  {
    hide WellFormed;
    var all := [hunk] + more;
    forall i | 0 <= i < |all| - 1 && all[i].UpdateText? ensures all[i + 1].at.left == "" {
      assert all[i + 1] == more[i];
      assert i > 0 ==> all[i] == more[i - 1];
    }
  }

  lemma NothingMayFollow(hunk: HunkText)
    ensures MayFollow(hunk, [])
  {
  }

  lemma HunkLinesNotEmpty(hunk: HunkText)
    ensures HunkLines(hunk) != []
  {
  }

  // From lines to text

  /** A line that stays one line when it is written and read. */
  predicate Safe(s: string) {
    NoNewline(s) && !EndsInCr(s)
  }

  ghost predicate AllSafe(lines: seq<string>) {
    forall l :: l in lines ==> Safe(l)
  }

  /** A patch as text. Lines may end in "\n" or in "\r\n". */
  function PatchText(hunks: seq<HunkText>, joiner: string): string {
    Join(PatchTextLines(hunks), joiner)
  }

  /** The lines with a carriage return at the end of all but the last. */
  function WithCrs(lines: seq<string>): seq<string>
    requires lines != []
  {
    if |lines| == 1 then lines else [lines[0] + "\r"] + WithCrs(lines[1..])
  }

  lemma {:induction false} CrlfJoinIsJoin(lines: seq<string>)
    requires lines != []
    ensures Join(lines, "\r\n") == Join(WithCrs(lines), "\n") && |WithCrs(lines)| == |lines|
  {
    if |lines| > 1 {
      CrlfJoinIsJoin(lines[1..]);
      hide Join;
      JoinFirst(lines, "\r\n");
      JoinFirst(WithCrs(lines), "\n");
      var rest := Join(lines[1..], "\r\n");
      assert WithCrs(lines)[1..] == WithCrs(lines[1..]);
      assert lines[0] + "\r\n" + rest == lines[0] + "\r" + "\n" + rest;
    }
  }

  lemma JoinFirst(lines: seq<string>, sep: string)
    requires |lines| > 1
    ensures Join(lines, sep) == lines[0] + sep + Join(lines[1..], sep)
  {
  }

  lemma {:induction false} WithCrsAt(lines: seq<string>, i: nat)
    requires i < |lines|
    ensures |WithCrs(lines)| == |lines| && WithCrs(lines)[i] == if i < |lines| - 1 then lines[i] + "\r" else lines[i]
  {
    if |lines| > 1 && i > 0 {
      WithCrsAt(lines[1..], i - 1);
    } else if |lines| > 1 {
      WithCrsAt(lines[1..], 0);
    }
  }

  lemma WithCrsIsPlain(lines: seq<string>)
    requires lines != [] && AllSafe(lines)
    ensures NoNewlines(WithCrs(lines)) && |WithCrs(lines)| == |lines|
  {
    WithCrsAt(lines, 0);
    hide WithCrs;
    forall i | 0 <= i < |lines| ensures NoNewline(WithCrs(lines)[i]) {
      WithCrsAt(lines, i);
      assert lines[i] in lines;
    }
  }

  lemma CrIsStripped(line: string)
    ensures StripCr(line + "\r") == line
  {
    assert (line + "\r")[..|line|] == line;
  }

  lemma StrippedTo(parts: seq<string>, lines: seq<string>)
    requires |parts| == |lines| > 0 && parts[|parts| - 1] == lines[|lines| - 1] != ""
    requires forall i :: 0 <= i < |lines| - 1 ==> StripCr(parts[i]) == lines[i]
    ensures LinesOfParts(parts) == lines
  {
    hide StripCr;
    var n := |lines| - 1;
    assert StripAllCr(parts[..n]) == lines[..n];
    assert lines[..n] + [lines[n]] == lines;
  }

  lemma WithCrsStripped(lines: seq<string>)
    requires lines != [] && lines[|lines| - 1] != ""
    ensures LinesOfParts(WithCrs(lines)) == lines
  {
    hide *;
    WithCrsAt(lines, |lines| - 1);
    forall i | 0 <= i < |lines| - 1 ensures StripCr(WithCrs(lines)[i]) == lines[i] {
      WithCrsAt(lines, i);
      CrIsStripped(lines[i]);
    }
    StrippedTo(WithCrs(lines), lines);
  }

  lemma LinesOfCrlfJoin(lines: seq<string>)
    requires lines != [] && AllSafe(lines) && lines[|lines| - 1] != ""
    ensures Lines(Join(lines, "\r\n")) == lines
  {
    hide Join, Split, WithCrs, LinesOfParts;
    CrlfJoinIsJoin(lines);
    WithCrsIsPlain(lines);
    SplitOfJoin(WithCrs(lines));
    WithCrsStripped(lines);
  }

  lemma SafeLinesReadBack(lines: seq<string>, joiner: string)
    requires lines != [] && AllSafe(lines) && lines[|lines| - 1] != "" && joiner in {"\n", "\r\n"}
    ensures Lines(Join(lines, joiner)) == lines
  {
    hide Lines, Join;
    if joiner == "\n" {
      assert forall i :: 0 <= i < |lines| ==> lines[i] in lines;
      LinesOfJoin(lines);
    } else {
      LinesOfCrlfJoin(lines);
    }
  }

  lemma {:induction false} JoinEnds(lines: seq<string>, sep: string)
    requires lines != [] && lines[0] != "" && lines[|lines| - 1] != ""
    ensures var text := Join(lines, sep);
            text != "" && text[0] == lines[0][0]
            && text[|text| - 1] == lines[|lines| - 1][|lines[|lines| - 1]| - 1]
  {
    if |lines| > 1 {
      JoinLast(lines, sep);
    }
  }

  lemma {:induction false} JoinLast(lines: seq<string>, sep: string)
    requires lines != [] && lines[|lines| - 1] != ""
    ensures var text, last := Join(lines, sep), lines[|lines| - 1];
            text != "" && text[|text| - 1] == last[|last| - 1]
  {
    if |lines| > 1 {
      JoinLast(lines[1..], sep);
    }
  }

  /** A text framed by the patch markers is not touched by trimming, whatever whitespace is put
      around it. */
  lemma PatchTextTrims(lines: seq<string>, joiner: string, left: string, right: string)
    requires |lines| >= 2 && lines[0] == BEGIN_PATCH_MARKER && lines[|lines| - 1] == END_PATCH_MARKER
    requires forall c :: c in left ==> IsWhitespace(c)
    requires forall c :: c in right ==> IsWhitespace(c)
    ensures Trim(left + Join(lines, joiner) + right) == Join(lines, joiner)
  {
    hide Join, Trim;
    MarkerEnds();
    JoinEnds(lines, joiner);
    TrimPadded(left, Join(lines, joiner), right);
  }

  lemma MarkerEnds()
    ensures BEGIN_PATCH_MARKER != "" && !IsWhitespace(BEGIN_PATCH_MARKER[0])
    ensures END_PATCH_MARKER != "" && !IsWhitespace(END_PATCH_MARKER[|END_PATCH_MARKER| - 1])
  {
  }

  lemma PatchTextLinesFrame(hunks: seq<HunkText>)
    ensures var lines := PatchTextLines(hunks);
            && |lines| >= 2 && lines[0] == BEGIN_PATCH_MARKER && lines[|lines| - 1] == END_PATCH_MARKER
            && lines[1..|lines| - 1] == HunksLines(hunks)
    ensures AllSafe(HunksLines(hunks)) ==> AllSafe(PatchTextLines(hunks))
  {
    hide HunksLines;
    assert Safe(BEGIN_PATCH_MARKER) && Safe(END_PATCH_MARKER);
  }

  /** Printing a patch and parsing it gives back exactly the hunks it means, in either mode, with either
      kind of line ending and any whitespace around the patch. */
  lemma PatchReadsBack(hunks: seq<HunkText>, joiner: string, left: string, right: string, mode: ParseMode)
    requires AllWellFormed(hunks) && AllSafe(HunksLines(hunks)) && joiner in {"\n", "\r\n"}
    requires AllWhitespace(left) && AllWhitespace(right)
    ensures ParsedText(left + PatchText(hunks, joiner) + right, mode)
            == Ok(PatchArgs(Meanings(hunks), PatchText(hunks, "\n")))
  {
    hide Trim, Lines, Join, HunksOf, Meanings, HunksLines, PatchTextLines, AllSafe, AllWellFormed;
    var lines := PatchTextLines(hunks);
    PatchTextLinesFrame(hunks);
    PatchTextTrims(lines, joiner, left, right);
    SafeLinesReadBack(lines, joiner);
    HunksReadBack(hunks, 2);
  }
}
