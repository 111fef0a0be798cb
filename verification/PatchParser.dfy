/** The line-oriented parser of the patch format: what each loop computes, and the loops. */
module PatchParser {
  import opened Results
  import opened Text
  import opened Patch

  const BEGIN_PATCH_MARKER := "*** Begin Patch"
  const END_PATCH_MARKER := "*** End Patch"
  const ADD_FILE_MARKER := "*** Add File: "
  const DELETE_FILE_MARKER := "*** Delete File: "
  const UPDATE_FILE_MARKER := "*** Update File: "
  const MOVE_TO_MARKER := "*** Move to: "
  const EOF_MARKER := "*** End of File"
  const CHANGE_CONTEXT_MARKER := "@@ "
  const EMPTY_CHANGE_CONTEXT_MARKER := "@@"

  datatype HunkError =
    | EmptyUpdate(path: string)
    | NotAHeader(line: string)
    | NoLines
    | MissingContext(line: string)
    | UnexpectedLine(line: string)

  datatype ParseError =
    | FirstLineNotBegin
    | LastLineNotEnd
    | InvalidHunk(error: HunkError, lineNumber: nat)

  datatype ParseMode = Strict | Lenient

  /** A parsed item and the number of lines it took. */
  datatype Parsed<+T> = Parsed(item: T, count: nat)

  function StripPrefix(s: string, prefix: string): Option<string> {
    if prefix <= s then Some(s[|prefix|..]) else None
  }

  predicate IsBlank(line: string) {
    Trim(line) == ""
  }

  // One chunk

  /** A line of a chunk's body: empty, or marked as context, added or removed. */
  predicate IsDiffLine(line: string) {
    line == "" || line[0] == ' ' || line[0] == '+' || line[0] == '-'
  }

  function OldPart(line: string): seq<string>
    requires IsDiffLine(line)
  {
    if line == "" then [""] else if line[0] == '+' then [] else [line[1..]]
  }

  function NewPart(line: string): seq<string>
    requires IsDiffLine(line)
  {
    if line == "" then [""] else if line[0] == '-' then [] else [line[1..]]
  }

  datatype Body = Body(oldLines: seq<string>, newLines: seq<string>, isEndOfFile: bool)

  /** The diff lines at the front of `lines`, up to and with an end-of-file line. */
  function ScanBody(lines: seq<string>): (r: Parsed<Body>)
    ensures r.count <= |lines|
  {
    if lines == [] then Parsed(Body([], [], false), 0)
    else if lines[0] == EOF_MARKER then Parsed(Body([], [], true), 1)
    else if !IsDiffLine(lines[0]) then Parsed(Body([], [], false), 0)
    else
      var Parsed(rest, n) := ScanBody(lines[1..]);
      Parsed(Body(OldPart(lines[0]) + rest.oldLines, NewPart(lines[0]) + rest.newLines, rest.isEndOfFile), n + 1)
  }

  /** `rest` with lines already collected put in front. */
  function Extend(oldLines: seq<string>, newLines: seq<string>, n: nat, rest: Parsed<Body>): Parsed<Body> {
    Parsed(Body(oldLines + rest.item.oldLines, newLines + rest.item.newLines, rest.item.isEndOfFile), n + rest.count)
  }

  lemma ExtendByNothing(b: Parsed<Body>)
    ensures Extend([], [], 0, b) == b
  {
    assert [] + b.item.oldLines == b.item.oldLines && [] + b.item.newLines == b.item.newLines;
  }

  lemma ExtendByLine(oldLines: seq<string>, newLines: seq<string>, n: nat, lines: seq<string>)
    requires lines != [] && lines[0] != EOF_MARKER && IsDiffLine(lines[0])
    ensures Extend(oldLines, newLines, n, ScanBody(lines))
            == Extend(oldLines + OldPart(lines[0]), newLines + NewPart(lines[0]), n + 1, ScanBody(lines[1..]))
  {
    hide OldPart, NewPart;
    var rest := ScanBody(lines[1..]).item;
    ConcatAssoc(oldLines, OldPart(lines[0]), rest.oldLines);
    ConcatAssoc(newLines, NewPart(lines[0]), rest.newLines);
  }

  lemma ConcatAssoc<T>(a: seq<T>, b: seq<T>, c: seq<T>)
    ensures a + (b + c) == a + b + c
  {
  }

  /** The context a chunk starts with, if its first line is a context marker. */
  datatype ChunkHead = Marked(context: Option<string>) | Unmarked

  function HeadOf(line: string): ChunkHead {
    if line == EMPTY_CHANGE_CONTEXT_MARKER then Marked(None)
    else
      match StripPrefix(line, CHANGE_CONTEXT_MARKER)
      case Some(context) => Marked(Some(context))
      case None => Unmarked
  }

  function ChunkAfterHead(lines: seq<string>, lineNumber: nat, context: Option<string>, start: nat)
    : Result<Parsed<Chunk>, ParseError>
    requires start <= |lines|
  {
    if start == |lines| then Err(InvalidHunk(NoLines, lineNumber + 1))
    else
      var first := lines[start];
      var Parsed(body, n) := ScanBody(lines[start..]);
      if first == EOF_MARKER then Err(InvalidHunk(NoLines, lineNumber + 1))
      else if n == 0 then Err(InvalidHunk(UnexpectedLine(first), lineNumber + 1))
      else Ok(Parsed(Chunk(context, body.oldLines, body.newLines, body.isEndOfFile), start + n))
  }

  function ChunkOf(lines: seq<string>, lineNumber: nat, allowMissingContext: bool): Result<Parsed<Chunk>, ParseError> {
    if lines == [] then Err(InvalidHunk(NoLines, lineNumber))
    else
      match HeadOf(lines[0])
      case Marked(context) => ChunkAfterHead(lines, lineNumber, context, 1)
      case Unmarked =>
        if allowMissingContext then ChunkAfterHead(lines, lineNumber, None, 0)
        else Err(InvalidHunk(MissingContext(lines[0]), lineNumber))
  }

  /** A parsed chunk takes at least one line and no more than there are. */
  lemma ChunkProgress(lines: seq<string>, lineNumber: nat, allowMissingContext: bool)
    requires ChunkOf(lines, lineNumber, allowMissingContext).Ok?
    ensures 1 <= ChunkOf(lines, lineNumber, allowMissingContext).value.count <= |lines|
  {
    hide HeadOf;
  }

  // One hunk

  function Counted<T>(done: seq<T>, skipped: nat, rest: Result<Parsed<seq<T>>, ParseError>)
    : Result<Parsed<seq<T>>, ParseError>
  {
    match rest
    case Ok(Parsed(items, n)) => Ok(Parsed(done + items, skipped + n))
    case Err(e) => Err(e)
  }

  /** The chunks at the front of `lines`, with blank lines between them skipped. */
  function ChunksOf(lines: seq<string>, lineNumber: nat, isFirst: bool): Result<Parsed<seq<Chunk>>, ParseError>
    decreases |lines|
  {
    if lines == [] then Ok(Parsed([], 0))
    else if IsBlank(lines[0]) then Counted([], 1, ChunksOf(lines[1..], lineNumber + 1, isFirst))
    else if "***" <= lines[0] then Ok(Parsed([], 0))
    else
      match ChunkOf(lines, lineNumber, isFirst)
      case Err(e) => Err(e)
      case Ok(Parsed(chunk, n)) =>
        ChunkProgress(lines, lineNumber, isFirst);
        Counted([chunk], n, ChunksOf(lines[n..], lineNumber + n, false))
  }

  /** The added lines at the front of `lines`, each with a newline. */
  function AddedText(lines: seq<string>): (r: Parsed<string>)
    ensures r.count <= |lines|
  {
    if lines == [] || lines[0] == "" || lines[0][0] != '+' then Parsed("", 0)
    else
      var Parsed(rest, n) := AddedText(lines[1..]);
      Parsed(lines[0][1..] + "\n" + rest, n + 1)
  }

  datatype Header = AddHeader(path: string) | DeleteHeader(path: string) | UpdateHeader(path: string) | NoHeader

  function HeaderOf(line: string): Header {
    var header := Trim(line);
    if ADD_FILE_MARKER <= header then AddHeader(header[|ADD_FILE_MARKER|..])
    else if DELETE_FILE_MARKER <= header then DeleteHeader(header[|DELETE_FILE_MARKER|..])
    else if UPDATE_FILE_MARKER <= header then UpdateHeader(header[|UPDATE_FILE_MARKER|..])
    else NoHeader
  }

  function MovePathOf(lines: seq<string>): Option<string> {
    if lines == [] then None else StripPrefix(lines[0], MOVE_TO_MARKER)
  }

  function UpdateOf(path: string, lines: seq<string>, lineNumber: nat): Result<Parsed<Hunk>, ParseError>
    requires lines != []
  {
    var movePath := MovePathOf(lines[1..]);
    var skipped := if movePath.Some? then 2 else 1;
    match ChunksOf(lines[skipped..], lineNumber + skipped, true)
    case Err(e) => Err(e)
    case Ok(Parsed(chunks, n)) =>
      if chunks == [] then Err(InvalidHunk(EmptyUpdate(path), lineNumber))
      else Ok(Parsed(UpdateFile(path, movePath, chunks), skipped + n))
  }

  function HunkOf(lines: seq<string>, lineNumber: nat): Result<Parsed<Hunk>, ParseError>
    requires lines != []
  {
    match HeaderOf(lines[0])
    case AddHeader(path) =>
      var Parsed(contents, n) := AddedText(lines[1..]);
      Ok(Parsed(AddFile(path, contents), n + 1))
    case DeleteHeader(path) => Ok(Parsed(DeleteFile(path), 1))
    case UpdateHeader(path) => UpdateOf(path, lines, lineNumber)
    case NoHeader => Err(InvalidHunk(NotAHeader(Trim(lines[0])), lineNumber))
  }

  lemma {:induction false} ChunksProgress(lines: seq<string>, lineNumber: nat, isFirst: bool)
    requires ChunksOf(lines, lineNumber, isFirst).Ok?
    ensures ChunksOf(lines, lineNumber, isFirst).value.count <= |lines|
    decreases |lines|
  {
    hide ChunkOf, IsBlank;
    if lines != [] {
      if IsBlank(lines[0]) {
        ChunksProgress(lines[1..], lineNumber + 1, isFirst);
      } else if !("***" <= lines[0]) {
        ChunkProgress(lines, lineNumber, isFirst);
        var n := ChunkOf(lines, lineNumber, isFirst).value.count;
        ChunksProgress(lines[n..], lineNumber + n, false);
      }
    }
  }

  /** A parsed hunk takes at least its header line and no more lines than there are. */
  lemma HunkProgress(lines: seq<string>, lineNumber: nat)
    requires lines != [] && HunkOf(lines, lineNumber).Ok?
    ensures 1 <= HunkOf(lines, lineNumber).value.count <= |lines|
  {
    hide HeaderOf, ChunksOf;
    if HeaderOf(lines[0]).UpdateHeader? {
      var skipped := if MovePathOf(lines[1..]).Some? then 2 else 1;
      ChunksProgress(lines[skipped..], lineNumber + skipped, true);
    }
  }

  // The whole patch

  /** The hunks that make up `lines`, all of which they take up. */
  function HunksOf(lines: seq<string>, lineNumber: nat): Result<seq<Hunk>, ParseError>
    decreases |lines|
  {
    if lines == [] then Ok([])
    else
      match HunkOf(lines, lineNumber)
      case Err(e) => Err(e)
      case Ok(Parsed(hunk, n)) =>
        HunkProgress(lines, lineNumber);
        Before([hunk], HunksOf(lines[n..], lineNumber + n))
  }

  /** `check_start_and_end_lines_strict`, on the first and last of `lines` */
  function StrictBoundaries(lines: seq<string>): Result<(), ParseError> {
    if lines == [] then Err(LastLineNotEnd)
    else if lines[0] != BEGIN_PATCH_MARKER then Err(FirstLineNotBegin)
    else if lines[|lines| - 1] != END_PATCH_MARKER then Err(LastLineNotEnd)
    else Ok(())
  }

  predicate HeredocStart(line: string) {
    line == "<<EOF" || line == "<<'EOF'" || line == "<<\"EOF\""
  }

  predicate HeredocEnd(line: string) {
    |line| >= 3 && line[|line| - 3..] == "EOF"
  }

  /** `check_patch_boundaries_lenient`: the patch lines inside a here-document. */
  function LenientLines(lines: seq<string>, original: ParseError): Result<seq<string>, ParseError> {
    if |lines| >= 4 && HeredocStart(lines[0]) && HeredocEnd(lines[|lines| - 1]) then
      var inner := lines[1..|lines| - 1];
      match StrictBoundaries(inner)
      case Ok(_) => Ok(inner)
      case Err(e) => Err(e)
    else Err(original)
  }

  function PatchLines(lines: seq<string>, mode: ParseMode): Result<seq<string>, ParseError> {
    match StrictBoundaries(lines)
    case Ok(_) => Ok(lines)
    case Err(e) => if mode.Strict? then Err(e) else LenientLines(lines, e)
  }

  lemma BoundariesTakeTwoLines(lines: seq<string>, mode: ParseMode)
    requires PatchLines(lines, mode).Ok?
    ensures var inner := PatchLines(lines, mode).value;
            |inner| >= 2 && inner[0] == BEGIN_PATCH_MARKER && inner[|inner| - 1] == END_PATCH_MARKER
  {
    assert BEGIN_PATCH_MARKER[4] != END_PATCH_MARKER[4];
  }

  /** The hunks, and the patch text without any here-document around it. */
  datatype PatchArgs = PatchArgs(hunks: seq<Hunk>, patch: string)

  function HunksBetween(lines: seq<string>): Result<PatchArgs, ParseError>
    requires |lines| >= 2
  {
    match HunksOf(lines[1..|lines| - 1], 2)
    case Ok(hunks) => Ok(PatchArgs(hunks, Join(lines, "\n")))
    case Err(e) => Err(e)
  }

  function ParsedText(patch: string, mode: ParseMode): Result<PatchArgs, ParseError> {
    match PatchLines(Lines(Trim(patch)), mode)
    case Err(e) => Err(e)
    case Ok(lines) =>
      BoundariesTakeTwoLines(Lines(Trim(patch)), mode);
      HunksBetween(lines)
  }

  // The loops

  /** `parse_update_file_chunk` */
  method ParseUpdateFileChunk(lines: seq<string>, lineNumber: nat, allowMissingContext: bool)
    returns (r: Result<Parsed<Chunk>, ParseError>)
    ensures r == ChunkOf(lines, lineNumber, allowMissingContext)
  {
    if lines == [] {
      return Err(InvalidHunk(NoLines, lineNumber));
    }
    var changeContext: Option<string> := None;
    var startIndex := 0;
    match HeadOf(lines[0]) {
      case Marked(context) => changeContext, startIndex := context, 1;
      case Unmarked =>
        if !allowMissingContext {
          return Err(InvalidHunk(MissingContext(lines[0]), lineNumber));
        }
    }
    if startIndex >= |lines| {
      return Err(InvalidHunk(NoLines, lineNumber + 1));
    }
    hide HeadOf;
    var oldLines: seq<string>, newLines: seq<string>, isEndOfFile := [], [], false;
    var parsedLines := 0;
    var i := startIndex;
    ghost var body := ScanBody(lines[startIndex..]);
    ExtendByNothing(body);
    while i < |lines|
      invariant startIndex <= i <= |lines| && parsedLines == i - startIndex
      invariant !isEndOfFile
      invariant parsedLines > 0 ==> lines[startIndex] != EOF_MARKER
      invariant body == Extend(oldLines, newLines, parsedLines, ScanBody(lines[i..]))
    {
      var line := lines[i];
      assert lines[i..][0] == line && lines[i..][1..] == lines[i + 1..];
      if line == EOF_MARKER {
        if parsedLines == 0 {
          return Err(InvalidHunk(NoLines, lineNumber + 1));
        }
        isEndOfFile := true;
        parsedLines := parsedLines + 1;
        break;
      }
      if !IsDiffLine(line) {
        if parsedLines == 0 {
          return Err(InvalidHunk(UnexpectedLine(line), lineNumber + 1));
        }
        break;
      }
      ExtendByLine(oldLines, newLines, parsedLines, lines[i..]);
      oldLines := oldLines + OldPart(line);
      newLines := newLines + NewPart(line);
      parsedLines := parsedLines + 1;
      i := i + 1;
    }
    assert oldLines + [] == oldLines && newLines + [] == newLines;
    assert body == Parsed(Body(oldLines, newLines, isEndOfFile), parsedLines);
    return Ok(Parsed(Chunk(changeContext, oldLines, newLines, isEndOfFile), parsedLines + startIndex));
  }

  /** `parse_one_hunk` */
  method ParseOneHunk(lines: seq<string>, lineNumber: nat) returns (r: Result<Parsed<Hunk>, ParseError>)
    requires lines != []
    ensures r == HunkOf(lines, lineNumber)
  {
    hide Trim, ChunkOf, IsBlank;
    match HeaderOf(lines[0]) {
      case AddHeader(path) =>
        var contents := "";
        var i := 1;
        ghost var all := AddedText(lines[1..]);
        assert contents + all.item == all.item;
        while i < |lines| && lines[i] != "" && lines[i][0] == '+'
          invariant 1 <= i <= |lines|
          invariant var rest := AddedText(lines[i..]);
                    all == Parsed(contents + rest.item, i - 1 + rest.count)
        {
          AddedStep(contents, lines[i..]);
          assert lines[i..][1..] == lines[i + 1..];
          contents := contents + lines[i][1..] + "\n";
          i := i + 1;
        }
        assert contents + "" == contents;
        return Ok(Parsed(AddFile(path, contents), i));
      case DeleteHeader(path) =>
        return Ok(Parsed(DeleteFile(path), 1));
      case UpdateHeader(path) =>
        r := ParseUpdateHunk(path, lines, lineNumber);
      case NoHeader =>
        return Err(InvalidHunk(NotAHeader(Trim(lines[0])), lineNumber));
    }
  }

  lemma AddedStep(contents: string, lines: seq<string>)
    requires lines != [] && lines[0] != "" && lines[0][0] == '+'
    ensures contents + AddedText(lines).item == contents + lines[0][1..] + "\n" + AddedText(lines[1..]).item
  {
    ConcatAssoc(contents, lines[0][1..] + "\n", AddedText(lines[1..]).item);
    ConcatAssoc(contents, lines[0][1..], "\n");
  }

  lemma CountedNothing<T>(r: Result<Parsed<seq<T>>, ParseError>)
    ensures Counted([], 0, r) == r
  {
    if r.Ok? {
      assert [] + r.value.item == r.value.item;
    }
  }

  lemma CountedCounted<T>(a: seq<T>, m: nat, b: seq<T>, n: nat, r: Result<Parsed<seq<T>>, ParseError>)
    ensures Counted(a, m, Counted(b, n, r)) == Counted(a + b, m + n, r)
  {
    if r.Ok? {
      ConcatAssoc(a, b, r.value.item);
    }
  }

  /** The update branch of `parse_one_hunk` */
  method ParseUpdateHunk(path: string, lines: seq<string>, lineNumber: nat) returns (r: Result<Parsed<Hunk>, ParseError>)
    requires lines != []
    ensures r == UpdateOf(path, lines, lineNumber)
  {
    hide ChunkOf, IsBlank, Counted;
    var remaining := lines[1..];
    var parsedLines := 1;
    var movePath := MovePathOf(remaining);
    if movePath.Some? {
      remaining := remaining[1..];
      parsedLines := parsedLines + 1;
    }
    ghost var skipped := parsedLines;
    assert remaining == lines[skipped..];
    var chunks: seq<Chunk> := [];
    ghost var all := ChunksOf(remaining, lineNumber + skipped, true);
    CountedNothing(all);
    while remaining != []
      invariant parsedLines >= skipped
      invariant all == Counted(chunks, parsedLines - skipped, ChunksOf(remaining, lineNumber + parsedLines, chunks == []))
      decreases |remaining|
    {
      if IsBlank(remaining[0]) {
        CountedCounted(chunks, parsedLines - skipped, [], 1,
                       ChunksOf(remaining[1..], lineNumber + parsedLines + 1, chunks == []));
        assert chunks + [] == chunks;
        parsedLines := parsedLines + 1;
        remaining := remaining[1..];
        continue;
      }
      if "***" <= remaining[0] {
        break;
      }
      var chunk := ParseUpdateFileChunk(remaining, lineNumber + parsedLines, chunks == []);
      if chunk.Err? {
        assert all == Err(chunk.error) by { CountedError(chunks, parsedLines - skipped, chunk.error); }
        return Err(chunk.error);
      }
      ChunkProgress(remaining, lineNumber + parsedLines, chunks == []);
      var n := chunk.value.count;
      CountedCounted(chunks, parsedLines - skipped, [chunk.value.item], n,
                     ChunksOf(remaining[n..], lineNumber + parsedLines + n, false));
      chunks := chunks + [chunk.value.item];
      parsedLines := parsedLines + n;
      remaining := remaining[n..];
    }
    assert all == Ok(Parsed(chunks, parsedLines - skipped)) by { CountedEnd(chunks, parsedLines - skipped); }
    if chunks == [] {
      return Err(InvalidHunk(EmptyUpdate(path), lineNumber));
    }
    return Ok(Parsed(UpdateFile(path, movePath, chunks), parsedLines));
  }

  lemma CountedError<T>(done: seq<T>, n: nat, e: ParseError)
    ensures Counted(done, n, Err(e)) == Err(e)
  {
  }

  lemma CountedEnd<T>(done: seq<T>, n: nat)
    ensures Counted(done, n, Ok(Parsed([], 0))) == Ok(Parsed(done, n))
  {
    assert done + [] == done;
  }

  /** `parse_patch_text` */
  method ParsePatchText(patch: string, mode: ParseMode) returns (r: Result<PatchArgs, ParseError>)
    ensures r == ParsedText(patch, mode)
  {
    hide HunkOf, Lines, Trim, Join;
    var bounded := PatchLines(Lines(Trim(patch)), mode);
    if bounded.Err? {
      return Err(bounded.error);
    }
    var lines := bounded.value;
    BoundariesTakeTwoLines(Lines(Trim(patch)), mode);
    var hunks: seq<Hunk> := [];
    var remaining := lines[1..|lines| - 1];
    var lineNumber := 2;
    ghost var all := HunksOf(remaining, lineNumber);
    BeforeNothing(all);
    while remaining != []
      invariant all == Before(hunks, HunksOf(remaining, lineNumber))
      decreases |remaining|
    {
      var hunk := ParseOneHunk(remaining, lineNumber);
      if hunk.Err? {
        return Err(hunk.error);
      }
      HunkProgress(remaining, lineNumber);
      var n := hunk.value.count;
      BeforeBefore(hunks, hunk.value.item, HunksOf(remaining[n..], lineNumber + n));
      hunks := hunks + [hunk.value.item];
      lineNumber := lineNumber + n;
      remaining := remaining[n..];
    }
    assert hunks + [] == hunks;
    return Ok(PatchArgs(hunks, Join(lines, "\n")));
  }

  function Before(done: seq<Hunk>, rest: Result<seq<Hunk>, ParseError>): Result<seq<Hunk>, ParseError> {
    match rest
    case Ok(hunks) => Ok(done + hunks)
    case Err(e) => Err(e)
  }

  lemma BeforeNothing(r: Result<seq<Hunk>, ParseError>)
    ensures Before([], r) == r
  {
    if r.Ok? {
      assert [] + r.value == r.value;
    }
  }

  lemma BeforeBefore(done: seq<Hunk>, hunk: Hunk, r: Result<seq<Hunk>, ParseError>)
    ensures Before(done, Before([hunk], r)) == Before(done + [hunk], r)
  {
    if r.Ok? {
      ConcatAssoc(done, [hunk], r.value);
    }
  }
}
