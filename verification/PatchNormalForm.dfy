/** What the parser's results look like: every one of them can be printed and parsed again, and a
    here-document changes none. */
module PatchNormalForm {
  import opened Results
  import opened Text
  import opened Patch
  import opened PatchParser
  import opened PatchPrinter

  // A way to write any hunk: in each chunk the removed lines first, then the added ones

  function AllRemoved(lines: seq<string>): seq<DiffLine> {
    if lines == [] then [] else [Removed(lines[0])] + AllRemoved(lines[1..])
  }

  function AllAdded(lines: seq<string>): seq<DiffLine> {
    if lines == [] then [] else [Added(lines[0])] + AllAdded(lines[1..])
  }

  function WrittenChunk(c: Chunk): ChunkText {
    ChunkText([], true, c.changeContext, AllRemoved(c.oldLines) + AllAdded(c.newLines), c.isEndOfFile)
  }

  function WrittenChunks(cs: seq<Chunk>): seq<ChunkText> {
    if cs == [] then [] else [WrittenChunk(cs[0])] + WrittenChunks(cs[1..])
  }

  /** The lines of a text that is empty or ends with a newline. */
  function TextLines(text: string): seq<string> {
    var parts := Split(text);
    parts[..|parts| - 1]
  }

  function Written(hunk: Hunk): HunkText {
    match hunk
    case AddFile(path, contents) => AddText(PathText("", path, ""), TextLines(contents))
    case DeleteFile(path) => DeleteText(PathText("", path, ""))
    case UpdateFile(path, movePath, chunks) => UpdateText(PathText("", path, ""), movePath, WrittenChunks(chunks), [])
  }

  function WrittenHunks(hunks: seq<Hunk>): seq<HunkText> {
    if hunks == [] then [] else [Written(hunks[0])] + WrittenHunks(hunks[1..])
  }

  ghost predicate PrintableChunk(c: Chunk) {
    c.oldLines != [] || c.newLines != []
  }

  ghost predicate Printable(hunk: Hunk) {
    && hunk.path != "" && !IsWhitespace(hunk.path[|hunk.path| - 1])
    && match hunk
       case AddFile(_, contents) => contents == "" || EndsWith(contents, "\n")
       case DeleteFile(_) => true
       case UpdateFile(_, _, chunks) => chunks != [] && forall c :: c in chunks ==> PrintableChunk(c)
  }

  lemma {:induction false} AddedLines(lines: seq<string>)
    ensures OldLines(AllAdded(lines)) == [] && NewLines(AllAdded(lines)) == lines
  {
    if lines != [] {
      AddedLines(lines[1..]);
      assert AllAdded(lines)[1..] == AllAdded(lines[1..]);
    }
  }

  lemma {:induction false} RemovedThen(lines: seq<string>, body: seq<DiffLine>)
    ensures OldLines(AllRemoved(lines) + body) == lines + OldLines(body)
    ensures NewLines(AllRemoved(lines) + body) == NewLines(body)
  {
    var all := AllRemoved(lines) + body;
    if lines == [] {
      assert all == body;
    } else {
      assert all[0] == Removed(lines[0]) && all[1..] == AllRemoved(lines[1..]) + body;
      RemovedThen(lines[1..], body);
    }
  }

  lemma WrittenChunkMeans(c: Chunk)
    ensures ChunkMeaning(WrittenChunk(c)) == c
    ensures PrintableChunk(c) ==> forall isFirst, mayGoOn :: ChunkFits(WrittenChunk(c), isFirst, mayGoOn)
  {
    AddedLines(c.newLines);
    RemovedThen(c.oldLines, AllAdded(c.newLines));
  }

  lemma {:induction false} WrittenChunksMean(cs: seq<Chunk>)
    requires forall c :: c in cs ==> PrintableChunk(c)
    ensures ChunkMeanings(WrittenChunks(cs)) == cs
    ensures forall isFirst, mayGoOn :: ChunksFit(WrittenChunks(cs), isFirst, mayGoOn)
    ensures |WrittenChunks(cs)| == |cs|
  {
    hide WrittenChunk, ChunkMeaning, PrintableChunk, ChunkFits;
    if cs != [] {
      assert cs[0] in cs && forall c :: c in cs[1..] ==> c in cs;
      WrittenChunkMeans(cs[0]);
      WrittenChunksMean(cs[1..]);
      assert WrittenChunks(cs)[1..] == WrittenChunks(cs[1..]);
    }
  }

  /** Every printable hunk has a well-formed way to be written. */
  lemma WrittenMeans(hunk: Hunk)
    requires Printable(hunk)
    ensures WellFormed(Written(hunk)) && Meaning(Written(hunk)) == hunk && Written(hunk).at.left == ""
  {
    match hunk {
      case AddFile(_, contents) =>
        if contents == "" {
          assert Split(contents) == [""];
        } else {
          SplitOfTerminated(contents);
        }
      case DeleteFile(_) =>
      case UpdateFile(_, _, chunks) =>
        WrittenChunksMean(chunks);
    }
  }

  lemma {:induction false} WrittenHunksMean(hunks: seq<Hunk>)
    requires forall h :: h in hunks ==> Printable(h)
    ensures AllWellFormed(WrittenHunks(hunks)) && Meanings(WrittenHunks(hunks)) == hunks
    ensures forall h :: h in WrittenHunks(hunks) ==> h.at.left == ""
  {
    hide Printable, WellFormed, Written, Meaning, AllWellFormed;
    if hunks == [] {
      NothingIsWellFormed();
      return;
    }
    assert hunks[0] in hunks && forall h :: h in hunks[1..] ==> h in hunks;
    WrittenMeans(hunks[0]);
    WrittenHunksMean(hunks[1..]);
    var first, rest := Written(hunks[0]), WrittenHunks(hunks[1..]);
    assert WrittenHunks(hunks) == [first] + rest;
    assert ([first] + rest)[1..] == rest;
    hide WrittenHunks;
    assert rest != [] ==> rest[0] in rest;
    ConsWellFormed(first, rest);
  }

  lemma NothingIsWellFormed()
    ensures AllWellFormed([])
  {
  }

  // The parser yields printable hunks only

  lemma PathAfterMarker(header: string, marker: string)
    requires marker != "" && marker[|marker| - 1] == ' ' && marker <= header
    requires !IsWhitespace(header[|header| - 1])
    ensures var path := header[|marker|..]; path != "" && !IsWhitespace(path[|path| - 1])
  {
    var path := header[|marker|..];
    assert header == marker + path;
    assert path != "" by {
      assert path == "" ==> header == marker;
    }
    assert path[|path| - 1] == header[|header| - 1];
  }

  lemma HeaderPathIsPrintable(line: string)
    requires !HeaderOf(line).NoHeader?
    ensures HeaderOf(line).path != "" && !IsWhitespace(HeaderOf(line).path[|HeaderOf(line).path| - 1])
  {
    hide Trim;
    MarkersEndInSpace();
    PathAfterMarker(Trim(line), match HeaderOf(line)
                                case AddHeader(_) => ADD_FILE_MARKER
                                case DeleteHeader(_) => DELETE_FILE_MARKER
                                case UpdateHeader(_) => UPDATE_FILE_MARKER);
  }

  lemma MarkersEndInSpace()
    ensures ADD_FILE_MARKER[|ADD_FILE_MARKER| - 1] == ' '
    ensures DELETE_FILE_MARKER[|DELETE_FILE_MARKER| - 1] == ' '
    ensures UPDATE_FILE_MARKER[|UPDATE_FILE_MARKER| - 1] == ' '
  {
  }

  lemma {:induction false} AddedTextIsTerminated(lines: seq<string>)
    ensures AddedText(lines).item == "" || EndsWith(AddedText(lines).item, "\n")
  {
    if lines != [] && lines[0] != "" && lines[0][0] == '+' {
      AddedTextIsTerminated(lines[1..]);
      var rest := AddedText(lines[1..]).item;
      var text := lines[0][1..] + "\n" + rest;
      assert text[|text| - 1..] == "\n";
    }
  }

  lemma ParsedChunkIsPrintable(lines: seq<string>, lineNumber: nat, allowMissingContext: bool)
    requires ChunkOf(lines, lineNumber, allowMissingContext).Ok?
    ensures PrintableChunk(ChunkOf(lines, lineNumber, allowMissingContext).value.item)
  {
    hide HeadOf;
    var start := if HeadOf(lines[0]).Marked? then 1 else 0;
    assert lines[start..][0] == lines[start];
  }

  lemma {:induction false} ParsedChunksArePrintable(lines: seq<string>, lineNumber: nat, isFirst: bool)
    requires ChunksOf(lines, lineNumber, isFirst).Ok?
    ensures forall c :: c in ChunksOf(lines, lineNumber, isFirst).value.item ==> PrintableChunk(c)
    decreases |lines|
  {
    hide ChunkOf, IsBlank, PrintableChunk;
    if lines != [] {
      if IsBlank(lines[0]) {
        ParsedChunksArePrintable(lines[1..], lineNumber + 1, isFirst);
      } else if !("***" <= lines[0]) {
        ChunkProgress(lines, lineNumber, isFirst);
        ParsedChunkIsPrintable(lines, lineNumber, isFirst);
        var n := ChunkOf(lines, lineNumber, isFirst).value.count;
        ParsedChunksArePrintable(lines[n..], lineNumber + n, false);
      }
    }
  }

  lemma ParsedHunkIsPrintable(lines: seq<string>, lineNumber: nat)
    requires lines != [] && HunkOf(lines, lineNumber).Ok?
    ensures Printable(HunkOf(lines, lineNumber).value.item)
  {
    hide HeaderOf, ChunksOf, AddedText, PrintableChunk;
    HeaderPathIsPrintable(lines[0]);
    match HeaderOf(lines[0]) {
      case AddHeader(_) =>
        AddedTextIsTerminated(lines[1..]);
      case DeleteHeader(_) =>
      case UpdateHeader(_) =>
        var skipped := if MovePathOf(lines[1..]).Some? then 2 else 1;
        ParsedChunksArePrintable(lines[skipped..], lineNumber + skipped, true);
    }
  }

  lemma {:induction false} ParsedHunksArePrintable(lines: seq<string>, lineNumber: nat)
    requires HunksOf(lines, lineNumber).Ok?
    ensures forall h :: h in HunksOf(lines, lineNumber).value ==> Printable(h)
    decreases |lines|
  {
    hide HunkOf, Printable;
    if lines != [] {
      HunkProgress(lines, lineNumber);
      ParsedHunkIsPrintable(lines, lineNumber);
      var n := HunkOf(lines, lineNumber).value.count;
      ParsedHunksArePrintable(lines[n..], lineNumber + n);
    }
  }

  /** Whatever lines the parser accepts, however they are spaced and marked: writing the hunks it
      found and parsing that gives the same hunks again. */
  lemma ReprintingIsStable(lines: seq<string>, lineNumber: nat, newLineNumber: nat)
    requires HunksOf(lines, lineNumber).Ok?
    ensures var hunks := HunksOf(lines, lineNumber).value;
            HunksOf(HunksLines(WrittenHunks(hunks)), newLineNumber) == Ok(hunks)
  {
    hide HunksOf, Printable, WellFormed;
    var hunks := HunksOf(lines, lineNumber).value;
    ParsedHunksArePrintable(lines, lineNumber);
    WrittenHunksMean(hunks);
    HunksReadBack(WrittenHunks(hunks), newLineNumber);
  }

  /** The lists of hunks the parser can yield at all are exactly the printable ones. */
  lemma ParserYieldsThePrintable(hunks: seq<Hunk>)
    ensures (exists lines, lineNumber :: HunksOf(lines, lineNumber) == Ok(hunks))
            <==> forall h :: h in hunks ==> Printable(h)
  {
    hide HunksOf, Printable, WellFormed, HunksLines, WrittenHunks, Meanings;
    if lines, lineNumber :| HunksOf(lines, lineNumber) == Ok(hunks) {
      ParsedHunksArePrintable(lines, lineNumber);
    }
    if forall h :: h in hunks ==> Printable(h) {
      WrittenHunksMean(hunks);
      HunksReadBack(WrittenHunks(hunks), 2);
    }
  }

  // Here-documents

  function Heredoc(open: string, patch: string): string {
    open + "\n" + patch + "\nEOF"
  }

  lemma {:induction false} SplitBeforeLine(s: string, line: string)
    requires NoNewline(line)
    ensures Split(s + "\n" + line) == Split(s) + [line]
  {
    var all := s + "\n" + line;
    if s == "" {
      assert all[1..] == line;
      SplitOneLine(line);
    } else {
      assert all[0] == s[0] && all[1..] == s[1..] + "\n" + line;
      SplitBeforeLine(s[1..], line);
      var rest := Split(s[1..]);
      assert (rest + [line])[0] == rest[0] && (rest + [line])[1..] == rest[1..] + [line];
    }
  }

  /** A text that ends in no whitespace ends in a part that keeps no carriage return. */
  lemma LastPartOfTrimmed(patch: string)
    requires patch != "" && !IsWhitespace(patch[|patch| - 1])
    ensures var parts := Split(patch); parts[|parts| - 1] != "" && !EndsInCr(parts[|parts| - 1])
  {
    var parts := Split(patch);
    var init, last := parts[..|parts| - 1], parts[|parts| - 1];
    JoinOfSplit(patch);
    assert parts == init + [last];
    if init != [] {
      JoinSnoc(init, last, "\n");
    }
    hide Join, Split;
    LastPartOf(if init == [] then "" else Join(init, "\n") + "\n", last, patch);
  }

  lemma LastPartOf(front: string, last: string, text: string)
    requires text == front + last && (front == "" || front[|front| - 1] == '\n')
    requires text != "" && !IsWhitespace(text[|text| - 1])
    ensures last != "" && !EndsInCr(last)
  {
    assert last == "" ==> text == front;
    assert text[|text| - 1] == last[|last| - 1];
  }

  lemma HeredocParts(open: string, patch: string)
    requires HeredocStart(open)
    ensures Split(Heredoc(open, patch)) == [open] + Split(patch) + ["EOF"]
  {
    hide Split;
    assert NoNewline("EOF") && NoNewline(open);
    var rest := patch + "\n" + "EOF";
    assert Heredoc(open, patch) == open + "\n" + rest;
    SplitAfterLine(open, rest);
    SplitBeforeLine(patch, "EOF");
  }

  lemma StripInFrame(open: string, parts: seq<string>)
    requires parts != [] && !EndsInCr(open) && !EndsInCr(parts[|parts| - 1]) && parts[|parts| - 1] != ""
    ensures LinesOfParts([open] + parts + ["EOF"]) == [open] + LinesOfParts(parts) + ["EOF"]
  {
    var framed := [open] + parts + ["EOF"];
    assert framed[..|framed| - 1] == [open] + parts;
    assert StripAllCr([open] + parts) == [open] + StripAllCr(parts);
    assert StripAllCr(parts) == StripAllCr(parts[..|parts| - 1]) + [parts[|parts| - 1]];
  }

  lemma HeredocIsTrimmed(open: string, patch: string)
    requires HeredocStart(open)
    ensures Trim(Heredoc(open, patch)) == Heredoc(open, patch)
  {
    hide Trim;
    var text := Heredoc(open, patch);
    assert text[0] == open[0] == '<' && text[|text| - 1] == 'F';
    TrimUntouched(text);
  }

  lemma HeredocLines(open: string, patch: string)
    requires HeredocStart(open) && patch != "" && !IsWhitespace(patch[|patch| - 1])
    ensures Lines(Heredoc(open, patch)) == [open] + Lines(patch) + ["EOF"]
  {
    hide Split, Heredoc, LinesOfParts;
    HeredocParts(open, patch);
    LastPartOfTrimmed(patch);
    assert !EndsInCr(open);
    StripInFrame(open, Split(patch));
  }

  lemma HeredocStartIsNoMarker(open: string)
    requires HeredocStart(open)
    ensures open != BEGIN_PATCH_MARKER
  {
    assert open[0] == '<' && BEGIN_PATCH_MARKER[0] == '*';
  }

  lemma FramedLines(open: string, inner: seq<string>)
    requires HeredocStart(open) && |inner| >= 2
    ensures PatchLines([open] + inner + ["EOF"], Lenient) == PatchLines(inner, Strict)
    ensures PatchLines([open] + inner + ["EOF"], Strict) == Err(FirstLineNotBegin)
  {
    HeredocStartIsNoMarker(open);
    assert HeredocEnd("EOF");
    hide HeredocStart, HeredocEnd, BEGIN_PATCH_MARKER, END_PATCH_MARKER;
    var lines := [open] + inner + ["EOF"];
    assert lines[0] == open && lines[|lines| - 1] == "EOF";
    assert StrictBoundaries(lines) == Err(FirstLineNotBegin);
    hide StrictBoundaries;
    assert lines[1..|lines| - 1] == inner;
  }

  lemma TextWithLines(text: string)
    requires Lines(text) != []
    ensures text != ""
  {
    assert Split("") == [""];
  }

  /** A trimmed patch in a here-document is, in lenient mode, what the bare patch is in strict mode,
      hunks, patch text and errors alike. In strict mode it is refused. */
  lemma HeredocIsTransparent(open: string, patch: string)
    requires HeredocStart(open) && Trim(patch) == patch && |Lines(patch)| >= 2
    ensures ParsedText(Heredoc(open, patch), Lenient) == ParsedText(patch, Strict)
    ensures ParsedText(Heredoc(open, patch), Strict) == Err(FirstLineNotBegin)
  {
    hide Lines, Trim, Heredoc, HunksBetween, PatchLines, HeredocStart, Split, LinesOfParts, StripAllCr, IsWhitespace;
    TextWithLines(patch);
    HeredocIsTrimmed(open, patch);
    HeredocLines(open, patch);
    FramedLines(open, Lines(patch));
  }
}
