/** From the text of a patch to the text of a patched file. */
module PatchedText {
  import opened Text
  import opened Patch
  import opened PatchParser
  import opened Contents

  ghost predicate PlainChunk(c: Chunk) {
    NoNewlines(c.oldLines) && NoNewlines(c.newLines)
  }

  lemma TrimmedLinesAreLines(text: string)
    ensures NoNewlines(Lines(text))
  {
    hide Split;
    JoinOfSplit(text);
    var parts := Split(text);
    StripKeepsNoNewline(parts[..|parts| - 1]);
  }

  lemma StripKeepsNoNewline(lines: seq<string>)
    requires NoNewlines(lines)
    ensures NoNewlines(StripAllCr(lines))
  {
    StrippedLinesHaveNoNewline(lines);
  }

  lemma {:induction false} BodyHasNoNewline(lines: seq<string>)
    requires NoNewlines(lines)
    ensures NoNewlines(ScanBody(lines).item.oldLines) && NoNewlines(ScanBody(lines).item.newLines)
  {
    if lines != [] && lines[0] != EOF_MARKER && IsDiffLine(lines[0]) {
      BodyHasNoNewline(lines[1..]);
      PartsHaveNoNewline(lines[0]);
      hide OldPart, NewPart, IsDiffLine;
    }
  }

  lemma PartsHaveNoNewline(line: string)
    requires NoNewline(line) && IsDiffLine(line)
    ensures NoNewlines(OldPart(line)) && NoNewlines(NewPart(line))
  {
    assert line != "" ==> forall c :: c in line[1..] ==> c in line;
  }

  lemma ChunkIsPlain(lines: seq<string>, lineNumber: nat, allowMissingContext: bool)
    requires NoNewlines(lines) && ChunkOf(lines, lineNumber, allowMissingContext).Ok?
    ensures PlainChunk(ChunkOf(lines, lineNumber, allowMissingContext).value.item)
  {
    hide HeadOf, ScanBody;
    var start := if HeadOf(lines[0]).Marked? then 1 else 0;
    BodyHasNoNewline(lines[start..]);
  }

  lemma {:induction false} ChunksArePlain(lines: seq<string>, lineNumber: nat, isFirst: bool)
    requires NoNewlines(lines) && ChunksOf(lines, lineNumber, isFirst).Ok?
    ensures forall c :: c in ChunksOf(lines, lineNumber, isFirst).value.item ==> PlainChunk(c)
    decreases |lines|
  {
    hide ChunkOf, IsBlank, PlainChunk;
    if lines != [] {
      if IsBlank(lines[0]) {
        ChunksArePlain(lines[1..], lineNumber + 1, isFirst);
      } else if !("***" <= lines[0]) {
        ChunkProgress(lines, lineNumber, isFirst);
        ChunkIsPlain(lines, lineNumber, isFirst);
        var n := ChunkOf(lines, lineNumber, isFirst).value.count;
        ChunksArePlain(lines[n..], lineNumber + n, false);
      }
    }
  }

  ghost predicate PlainHunk(hunk: Hunk) {
    hunk.UpdateFile? ==> forall c :: c in hunk.chunks ==> PlainChunk(c)
  }

  lemma {:induction false} HunksArePlain(lines: seq<string>, lineNumber: nat)
    requires NoNewlines(lines) && HunksOf(lines, lineNumber).Ok?
    ensures forall h :: h in HunksOf(lines, lineNumber).value ==> PlainHunk(h)
    decreases |lines|
  {
    hide HunkOf, PlainHunk;
    if lines != [] {
      HunkProgress(lines, lineNumber);
      HunkIsPlain(lines, lineNumber);
      var n := HunkOf(lines, lineNumber).value.count;
      HunksArePlain(lines[n..], lineNumber + n);
    }
  }

  lemma HunkIsPlain(lines: seq<string>, lineNumber: nat)
    requires lines != [] && NoNewlines(lines) && HunkOf(lines, lineNumber).Ok?
    ensures PlainHunk(HunkOf(lines, lineNumber).value.item)
  {
    hide HeaderOf, ChunksOf, AddedText, PlainChunk;
    if HeaderOf(lines[0]).UpdateHeader? {
      var skipped := if MovePathOf(lines[1..]).Some? then 2 else 1;
      ChunksArePlain(lines[skipped..], lineNumber + skipped, true);
    }
  }

  lemma PatchLinesArePlain(lines: seq<string>, mode: ParseMode)
    requires NoNewlines(lines) && PatchLines(lines, mode).Ok?
    ensures NoNewlines(PatchLines(lines, mode).value)
  {
  }

  /** Whatever text a patch was parsed from, in either mode: updating a file that holds a CRLF leaves it
      without a bare newline, and any file empty or ending in the terminator it used before. */
  lemma ParsedPatchKeepsLineEndings(patch: string, mode: ParseMode, hunk: Hunk, contents: string)
    requires ParsedText(patch, mode).Ok? && hunk in ParsedText(patch, mode).value.hunks && hunk.UpdateFile?
    requires NewContents(contents, hunk.chunks).Ok?
    ensures var text := NewContents(contents, hunk.chunks).value;
            && (ContainsCrlf(contents) ==> NoBareLf(text))
            && (text == "" || EndsWith(text, Detect(contents).Joiner()))
  {
    hide NewContents, Lines, Trim, HunksOf, PatchLines, NoNewlines;
    TrimmedLinesAreLines(Trim(patch));
    PatchLinesArePlain(Lines(Trim(patch)), mode);
    var lines := PatchLines(Lines(Trim(patch)), mode).value;
    BoundariesTakeTwoLines(Lines(Trim(patch)), mode);
    InnerLinesArePlain(lines);
    HunksArePlain(lines[1..|lines| - 1], 2);
    assert PlainHunk(hunk);
    assert forall c :: c in hunk.chunks ==> PlainChunk(c);
    if ContainsCrlf(contents) {
      CrlfFileStaysCrlf(contents, hunk.chunks);
    }
    NewContentsEndTerminated(contents, hunk.chunks);
  }

  lemma InnerLinesArePlain(lines: seq<string>)
    requires NoNewlines(lines) && |lines| >= 2
    ensures NoNewlines(lines[1..|lines| - 1])
  {
  }
}
