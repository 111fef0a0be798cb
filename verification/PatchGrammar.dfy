/** The parser accepts nothing but what the grammar writes: every list of lines it takes is a written form
    of the hunks it finds. */
module PatchGrammar {
  import opened Results
  import opened Text
  import opened Patch
  import opened PatchParser
  import opened PatchPrinter

  // A chunk

  function DiffLineOf(line: string): DiffLine
    requires IsDiffLine(line)
  {
    if line == "" then Blank
    else if line[0] == ' ' then Context(line[1..])
    else if line[0] == '+' then Added(line[1..])
    else Removed(line[1..])
  }

  lemma DiffLineWritten(line: string)
    requires IsDiffLine(line)
    ensures DiffLineText(DiffLineOf(line)) == line
  {
    assert line != "" ==> line == [line[0]] + line[1..];
  }

  lemma FirstAndRest<T>(s: seq<T>)
    requires s != []
    ensures s == [s[0]] + s[1..]
  {
  }

  lemma NothingBefore<T>(s: seq<T>)
    ensures [] + s == s
  {
  }

  /** Any lines begin with the lines of a body, the longest there is. */
  lemma {:induction false} BodyWritten(lines: seq<string>)
    returns (body: seq<DiffLine>, isEndOfFile: bool, rest: seq<string>)
    ensures lines == BodyLines(body) + (EofLines(isEndOfFile) + rest)
    ensures !isEndOfFile ==> EndsChunk(rest)
    ensures lines != [] && lines[0] != EOF_MARKER && IsDiffLine(lines[0]) ==> body != []
  {
    body, isEndOfFile, rest := [], false, lines;
    NothingBefore(lines);
    if lines == [] {
      return;
    }
    FirstAndRest(lines);
    if lines[0] == EOF_MARKER {
      isEndOfFile, rest := true, lines[1..];
      NothingBefore(EofLines(true) + rest);
    } else if IsDiffLine(lines[0]) {
      var more;
      more, isEndOfFile, rest := BodyWritten(lines[1..]);
      body := [DiffLineOf(lines[0])] + more;
      LongerBody(lines[0], lines[1..], more, EofLines(isEndOfFile) + rest);
    }
  }

  lemma LongerBody(line: string, lines: seq<string>, body: seq<DiffLine>, after: seq<string>)
    requires IsDiffLine(line) && lines == BodyLines(body) + after
    ensures [line] + lines == BodyLines([DiffLineOf(line)] + body) + after
  {
    hide IsDiffLine, DiffLineOf, DiffLineText;
    DiffLineWritten(line);
    var longer := [DiffLineOf(line)] + body;
    assert longer[0] == DiffLineOf(line) && longer[1..] == body;
    assert BodyLines(longer) == [line] + BodyLines(body);
    ConcatAssoc([line], BodyLines(body), after);
  }

  lemma HeadWritten(line: string)
    requires HeadOf(line).Marked?
    ensures HeadLine(HeadOf(line).context) == line
  {
    if line != EMPTY_CHANGE_CONTEXT_MARKER {
      assert line == CHANGE_CONTEXT_MARKER + line[|CHANGE_CONTEXT_MARKER|..];
    }
  }

  /** A parsed chunk has a body, which begins below its head, if it has one. */
  lemma BodyBegins(lines: seq<string>, lineNumber: nat, isFirst: bool)
    requires ChunkOf(lines, lineNumber, isFirst).Ok?
    ensures lines != []
    ensures var start := if HeadOf(lines[0]).Marked? then 1 else 0;
            start < |lines| && lines[start] != EOF_MARKER && IsDiffLine(lines[start])
    ensures HeadOf(lines[0]).Unmarked? ==> isFirst
  {
    hide HeadOf, IsDiffLine;
    var start := if HeadOf(lines[0]).Marked? then 1 else 0;
    assert lines[start..][0] == lines[start];
  }

  /** The lines of a parsed chunk, found again as a written chunk without blank lines in front. */
  lemma ChunkWritten(lines: seq<string>, lineNumber: nat, isFirst: bool) returns (c: ChunkText, rest: seq<string>)
    requires ChunkOf(lines, lineNumber, isFirst).Ok?
    ensures lines == BareLines(c) + rest
    ensures c.gap == [] && c.body != [] && (!c.isEndOfFile ==> EndsChunk(rest))
    ensures c.marked || (isFirst && c.context.None? && lines != [] && DiffLineText(c.body[0]) == lines[0])
  {
    BodyBegins(lines, lineNumber, isFirst);
    hide ChunkOf, HeadOf, HeadLine, EofLines, IsDiffLine, DiffLineText, EndsChunk;
    if HeadOf(lines[0]).Marked? {
      HeadWritten(lines[0]);
      var body, isEndOfFile, after := BodyWritten(lines[1..]);
      rest := after;
      c := ChunkText([], true, HeadOf(lines[0]).context, body, isEndOfFile);
      FirstAndRest(lines);
      RegroupChunk(lines[0], BodyLines(body), EofLines(isEndOfFile), rest);
    } else {
      var body, isEndOfFile, after := BodyWritten(lines);
      rest := after;
      c := ChunkText([], false, None, body, isEndOfFile);
      NothingBefore(BodyLines(body) + EofLines(isEndOfFile));
      ConcatAssoc(BodyLines(body), EofLines(isEndOfFile), rest);
      assert BodyLines(body)[0] == DiffLineText(body[0]);
    }
  }

  lemma RegroupChunk<T>(head: T, a: seq<T>, b: seq<T>, c: seq<T>)
    ensures [head] + (a + (b + c)) == [head] + (a + b) + c
  {
  }

  // An update's chunks

  /** The chunks and blank lines of an update, found again in their written form. */
  lemma {:induction false} ChunksWritten(lines: seq<string>, lineNumber: nat, isFirst: bool, mayGoOn: bool)
    returns (cs: seq<ChunkText>, gap: seq<string>, rest: seq<string>)
    requires ChunksOf(lines, lineNumber, isFirst).Ok? && (mayGoOn ==> EndsChunk(lines))
    ensures lines == ChunksLines(cs) + (gap + rest)
    ensures ChunksOf(lines, lineNumber, isFirst).value.count == |ChunksLines(cs)| + |gap|
    ensures ChunksFit(cs, isFirst, mayGoOn) && GapFits(gap, LastMayGoOn(cs, mayGoOn))
    ensures rest != [] ==> "***" <= rest[0]
    decreases |lines|
  {
    hide *;
    ChunksOfCases(lines, lineNumber, isFirst);
    if lines == [] || (!IsBlank(lines[0]) && "***" <= lines[0]) {
      cs, gap, rest := [], [], lines;
      NothingYet(lines, mayGoOn);
    } else if IsBlank(lines[0]) {
      var cs', gap', rest' := ChunksWritten(lines[1..], lineNumber + 1, isFirst, false);
      FirstAndRest(lines);
      if mayGoOn {
        NoDiffLineThere(lines);
      }
      cs, gap, rest := BlankInFront(lines[0], cs', gap', rest', isFirst, mayGoOn);
    } else {
      var c, after := ChunkWritten(lines, lineNumber, isFirst);
      ChunkReadsBack(c, after, lineNumber, isFirst);
      var n := |BareLines(c)|;
      DropFront(BareLines(c), after);
      var cs', gap', rest' := ChunksWritten(after, lineNumber + n, false, !c.isEndOfFile);
      cs, gap, rest := [c] + cs', gap', rest';
      ChunkInFront(c, cs', gap' + rest');
      ChunkInFrontFits(c, cs', isFirst, mayGoOn);
    }
  }

  lemma NothingYet(lines: seq<string>, mayGoOn: bool)
    ensures lines == ChunksLines([]) + ([] + lines) && |ChunksLines([])| == 0
    ensures ChunksFit([], true, mayGoOn) && ChunksFit([], false, mayGoOn) && GapFits([], LastMayGoOn([], mayGoOn))
  {
  }

  /** How far the parser gets, by what it finds first. */
  lemma ChunksOfCases(lines: seq<string>, lineNumber: nat, isFirst: bool)
    requires ChunksOf(lines, lineNumber, isFirst).Ok?
    ensures var count := ChunksOf(lines, lineNumber, isFirst).value.count;
            if lines == [] || (!IsBlank(lines[0]) && "***" <= lines[0]) then count == 0
            else if IsBlank(lines[0]) then
              var r := ChunksOf(lines[1..], lineNumber + 1, isFirst);
              r.Ok? && count == 1 + r.value.count
            else
              var p := ChunkOf(lines, lineNumber, isFirst);
              && p.Ok? && 1 <= p.value.count <= |lines|
              && var r := ChunksOf(lines[p.value.count..], lineNumber + p.value.count, false);
                 r.Ok? && count == p.value.count + r.value.count
  {
    hide ChunkOf, IsBlank;
    if lines != [] && !IsBlank(lines[0]) && !("***" <= lines[0]) {
      ChunkProgress(lines, lineNumber, isFirst);
    }
  }

  lemma NoDiffLineThere(lines: seq<string>)
    requires lines != [] && EndsChunk(lines)
    ensures !IsDiffLine(lines[0])
  {
  }

  /** One more blank line, in front of the first chunk or of the blank lines at the end. */
  lemma BlankInFront(line: string, cs: seq<ChunkText>, gap: seq<string>, rest: seq<string>, isFirst: bool, mayGoOn: bool)
    returns (cs': seq<ChunkText>, gap': seq<string>, rest': seq<string>)
    requires ChunksFit(cs, isFirst, false) && GapFits(gap, LastMayGoOn(cs, false))
    requires IsBlank(line) && (mayGoOn ==> !IsDiffLine(line))
    ensures ChunksFit(cs', isFirst, mayGoOn) && GapFits(gap', LastMayGoOn(cs', mayGoOn)) && rest' == rest
    ensures ChunksLines(cs') + (gap' + rest') == [line] + (ChunksLines(cs) + (gap + rest))
  {
    hide IsBlank, IsDiffLine, BareLines, DiffLineText;
    rest' := rest;
    if cs == [] {
      cs', gap' := [], [line] + gap;
      NothingBefore([line] + gap + rest);
      NothingBefore(gap + rest);
      ConcatAssoc([line], gap, rest);
    } else {
      var c := cs[0].(gap := [line] + cs[0].gap);
      cs', gap' := [c] + cs[1..], gap;
      assert cs'[1..] == cs[1..];
      assert ChunkFits(c, isFirst, mayGoOn);
      assert BareLines(c) == BareLines(cs[0]) by { GapApart(cs[0], c.gap); }
      ChunksLinesFront(cs, gap + rest);
      ChunksLinesFront(cs', gap + rest);
      ConcatAssoc([line], cs[0].gap, BareLines(c) + (ChunksLines(cs[1..]) + (gap + rest)));
    }
  }

  lemma GapApart(c: ChunkText, gap: seq<string>)
    ensures BareLines(c.(gap := gap)) == BareLines(c)
  {
  }

  lemma ChunkInFront(c: ChunkText, cs: seq<ChunkText>, after: seq<string>)
    requires c.gap == []
    ensures ChunksLines([c] + cs) + after == BareLines(c) + (ChunksLines(cs) + after)
  {
    hide BareLines;
    assert ([c] + cs)[1..] == cs;
    ChunksLinesFront([c] + cs, after);
    NothingBefore(BareLines(c) + (ChunksLines(cs) + after));
  }

  lemma ChunkInFrontFits(c: ChunkText, cs: seq<ChunkText>, isFirst: bool, mayGoOn: bool)
    requires c.gap == [] && c.body != []
    requires c.marked || (isFirst && c.context.None? && !IsBlank(DiffLineText(c.body[0])))
    requires ChunksFit(cs, false, !c.isEndOfFile)
    ensures ChunksFit([c] + cs, isFirst, mayGoOn)
    ensures LastMayGoOn([c] + cs, mayGoOn) == LastMayGoOn(cs, !c.isEndOfFile)
  {
    hide IsBlank, IsDiffLine, DiffLineText;
    assert ([c] + cs)[1..] == cs;
  }

  // A hunk

  lemma {:induction false} AddedWritten(lines: seq<string>) returns (added: seq<string>)
    ensures var n := AddedText(lines).count; n <= |lines| && lines == PlusLines(added) + lines[n..]
    ensures var rest := lines[AddedText(lines).count..]; rest != [] && rest[0] != "" ==> rest[0][0] != '+'
  {
    if lines == [] || lines[0] == "" || lines[0][0] != '+' {
      added := [];
      NothingBefore(lines);
      assert lines[0..] == lines;
      return;
    }
    var more := AddedWritten(lines[1..]);
    added := [lines[0][1..]] + more;
    var n := AddedText(lines[1..]).count;
    assert AddedText(lines).count == n + 1;
    hide AddedText;
    FirstAndRest(lines[0]);
    FirstAndRest(lines);
    assert added[1..] == more;
    assert lines[1..][n..] == lines[n + 1..];
    PrependAssoc(lines[0], PlusLines(more), lines[n + 1..]);
  }

  lemma TrimLeaves(line: string) returns (left: string, right: string)
    ensures line == left + Trim(line) + right && AllWhitespace(left) && AllWhitespace(right)
  {
    left, right := TrimIs(line);
    hide Trim, IsWhitespace;
  }

  /** A header line, found again in its written form. */
  lemma HeaderWritten(line: string, hunk: HunkText) returns (at: PathText)
    requires HeaderOf(line) == HeaderMeant(hunk)
    ensures at.path == hunk.at.path && line == at.left + (MarkerOf(hunk) + at.path) + at.right
    ensures AllWhitespace(at.left) && AllWhitespace(at.right)
  {
    hide Trim;
    var left, right := TrimLeaves(line);
    at := PathText(left, hunk.at.path, right);
    var header := Trim(line);
    assert MarkerOf(hunk) <= header && header[|MarkerOf(hunk)|..] == hunk.at.path;
    assert header == MarkerOf(hunk) + hunk.at.path;
  }

  lemma AddedCount(lines: seq<string>, added: seq<string>, n: nat)
    requires n <= |lines| && lines == PlusLines(added) + lines[n..]
    ensures |PlusLines(added)| == n
  {
  }

  lemma UpdateWritten(lines: seq<string>, lineNumber: nat, path: string)
    returns (movePath: Option<string>, cs: seq<ChunkText>, gap: seq<string>, rest: seq<string>)
    requires lines != [] && UpdateOf(path, lines, lineNumber).Ok?
    ensures lines == [lines[0]] + (MoveLines(movePath) + (ChunksLines(cs) + (gap + rest)))
    ensures UpdateOf(path, lines, lineNumber).value.count == 1 + |MoveLines(movePath)| + |ChunksLines(cs)| + |gap|
    ensures cs != [] && ChunksFit(cs, true, false) && GapFits(gap, LastMayGoOn(cs, false))
    ensures rest != [] ==> "***" <= rest[0]
  {
    hide ChunksOf, ChunksLines, ChunksFit, GapFits;
    movePath := MovePathOf(lines[1..]);
    var skipped := if movePath.Some? then 2 else 1;
    var below := lines[skipped..];
    FirstAndRest(lines);
    MoveWritten(lines[1..]);
    assert lines[1..][|MoveLines(movePath)|..] == below;
    cs, gap, rest := ChunksWritten(below, lineNumber + skipped, true, false);
    ChunksFound(lines, lineNumber, path);
    if cs == [] {
      NoChunksNoMeaning(below, lineNumber + skipped, gap, rest);
    }
  }

  lemma MoveWritten(lines: seq<string>)
    ensures var m := |MoveLines(MovePathOf(lines))|; m <= |lines| && lines == MoveLines(MovePathOf(lines)) + lines[m..]
  {
    if MovePathOf(lines).Some? {
      assert lines[0] == MOVE_TO_MARKER + lines[0][|MOVE_TO_MARKER|..];
      FirstAndRest(lines);
    } else {
      NothingBefore(lines);
    }
  }

  lemma ChunksFound(lines: seq<string>, lineNumber: nat, path: string)
    requires lines != [] && UpdateOf(path, lines, lineNumber).Ok?
    ensures var skipped := if MovePathOf(lines[1..]).Some? then 2 else 1;
            var r := ChunksOf(lines[skipped..], lineNumber + skipped, true);
            r.Ok? && r.value.item != []
  {
    hide ChunksOf, MovePathOf;
  }

  /** Only blank lines make no chunk. */
  lemma NoChunksNoMeaning(lines: seq<string>, lineNumber: nat, gap: seq<string>, rest: seq<string>)
    requires lines == ChunksLines([]) + (gap + rest) && GapFits(gap, false) && (rest != [] ==> "***" <= rest[0])
    ensures ChunksOf(lines, lineNumber, true).Ok? && ChunksOf(lines, lineNumber, true).value.item == []
  {
    hide ChunkOf, IsBlank;
    NothingBefore(gap + rest);
    SkipBlanks(gap, rest, lineNumber, true);
    if rest != [] {
      StarsAreNoDiffLine(rest[0]);
    }
    CountedEnd<Chunk>([], |gap|);
  }

  /** The lines of a parsed hunk, found again in their written form. */
  lemma HunkWritten(lines: seq<string>, lineNumber: nat) returns (hunk: HunkText, rest: seq<string>)
    requires lines != [] && HunkOf(lines, lineNumber).Ok?
    ensures lines == HunkLines(hunk) + rest && HunkOf(lines, lineNumber).value.count == |HunkLines(hunk)|
    ensures WellFormed(hunk)
    ensures hunk.UpdateText? ==> (rest != [] ==> "***" <= rest[0])
  {
    hide HeaderOf, AddedText, UpdateOf, PlusLines, MoveLines, ChunksLines, ChunksFit, GapFits, LastMayGoOn, MarkerOf, AllWhitespace;
    var header := HeaderOf(lines[0]);
    HeaderPathIsWellFormed(lines[0]);
    var bare := PathText("", header.path, "");
    FirstAndRest(lines);
    assert forall h: HunkText :: h.at.path == header.path ==> h.at.path == header.path;
    match header {
      case AddHeader(path) =>
        var at := HeaderWritten(lines[0], AddText(bare, []));
        var added := AddedWritten(lines[1..]);
        var n := AddedText(lines[1..]).count;
        hunk, rest := AddText(at, added), lines[1..][n..];
        AddedCount(lines[1..], added, n);
        assert HeaderText(hunk) == lines[0] by { SameMarker(hunk, AddText(bare, [])); }
        PrependAssoc(lines[0], PlusLines(added), rest);
      case DeleteHeader(path) =>
        var at := HeaderWritten(lines[0], DeleteText(bare));
        hunk, rest := DeleteText(at), lines[1..];
        assert HeaderText(hunk) == lines[0] by { SameMarker(hunk, DeleteText(bare)); }
      case UpdateHeader(path) =>
        var at := HeaderWritten(lines[0], UpdateText(bare, None, [], []));
        var movePath, cs, gap, after := UpdateWritten(lines, lineNumber, path);
        hunk, rest := UpdateText(at, movePath, cs, gap), after;
        assert HeaderText(hunk) == lines[0] by { SameMarker(hunk, UpdateText(bare, None, [], [])); }
        RegroupUpdate(MoveLines(movePath), ChunksLines(cs), gap, rest);
        PrependAssoc(lines[0], MoveLines(movePath) + (ChunksLines(cs) + gap), rest);
    }
  }

  lemma SameMarker(a: HunkText, b: HunkText)
    requires (a.AddText? <==> b.AddText?) && (a.DeleteText? <==> b.DeleteText?)
    ensures MarkerOf(a) == MarkerOf(b)
  {
  }

  lemma HeaderPathIsWellFormed(line: string)
    requires !HeaderOf(line).NoHeader?
    ensures var path := HeaderOf(line).path; path != "" && !IsWhitespace(path[|path| - 1])
  {
    hide Trim, IsWhitespace;
    var header := Trim(line);
    var marker := match HeaderOf(line)
      case AddHeader(_) => ADD_FILE_MARKER
      case DeleteHeader(_) => DELETE_FILE_MARKER
      case UpdateHeader(_) => UPDATE_FILE_MARKER;
    var path := HeaderOf(line).path;
    assert header == marker + path;
    MarkerEndsInSpace();
    assert path == "" ==> header == marker;
    assert path != "" ==> path[|path| - 1] == header[|header| - 1];
  }

  lemma MarkerEndsInSpace()
    ensures IsWhitespace(ADD_FILE_MARKER[|ADD_FILE_MARKER| - 1])
    ensures IsWhitespace(DELETE_FILE_MARKER[|DELETE_FILE_MARKER| - 1])
    ensures IsWhitespace(UPDATE_FILE_MARKER[|UPDATE_FILE_MARKER| - 1])
  {
  }

  // The whole patch

  /** Every accepted list of lines is a written form of well-formed hunks. */
  lemma {:induction false} HunksWritten(lines: seq<string>, lineNumber: nat) returns (hunks: seq<HunkText>)
    requires HunksOf(lines, lineNumber).Ok?
    ensures lines == HunksLines(hunks) && AllWellFormed(hunks)
    decreases |lines|
  {
    hide HunkOf, HunkLines, WellFormed;
    if lines == [] {
      hunks := [];
      return;
    }
    HunkProgress(lines, lineNumber);
    var hunk, rest := HunkWritten(lines, lineNumber);
    var n := HunkOf(lines, lineNumber).value.count;
    DropFront(HunkLines(hunk), rest);
    assert lines[n..] == rest;
    var more := HunksWritten(rest, lineNumber + n);
    hunks := [hunk] + more;
    assert hunks[1..] == more;
    assert HunksLines(hunks) == lines;
    NextIsNotIndented(hunk, more);
    ConsWellFormed(hunk, more);
  }

  lemma NextIsNotIndented(hunk: HunkText, more: seq<HunkText>)
    requires hunk.UpdateText? && HunksLines(more) != [] ==> "***" <= HunksLines(more)[0]
    requires AllWellFormed(more)
    ensures hunk.UpdateText? && more != [] ==> more[0].at.left == ""
  {
    hide ChunksFit, GapFits, HeaderText, RestLines, AllWhitespace;
    if more != [] {
      assert more[0] in more;
      assert HunksLines(more)[0] == HeaderText(more[0]);
      IndentedIsNoMarker(more[0]);
    }
  }

  lemma IndentedIsNoMarker(hunk: HunkText)
    requires AllWhitespace(hunk.at.left)
    ensures hunk.at.left != "" ==> !("***" <= HeaderText(hunk))
  {
    hide MarkerOf;
    var left := hunk.at.left;
    assert "***"[0] == '*' && !IsWhitespace('*');
    assert left != "" ==> HeaderText(hunk)[0] == left[0] && left[0] in left;
  }

  /** The parser takes exactly the lines that the grammar writes, and takes them for what they mean. */
  lemma ParsesIffWritten(lines: seq<string>, lineNumber: nat, hunks: seq<Hunk>)
    ensures HunksOf(lines, lineNumber) == Ok(hunks)
            <==> exists written :: AllWellFormed(written) && HunksLines(written) == lines && Meanings(written) == hunks
  {
    hide HunksOf, AllWellFormed, HunksLines, Meanings;
    if HunksOf(lines, lineNumber) == Ok(hunks) {
      var written := HunksWritten(lines, lineNumber);
      HunksReadBack(written, lineNumber);
    } else if written :| AllWellFormed(written) && HunksLines(written) == lines && Meanings(written) == hunks {
      HunksReadBack(written, lineNumber);
    }
  }

  // From text

  /** Lines that begin and end with the markers of a patch. */
  predicate IsFramed(lines: seq<string>) {
    lines != [] && lines[0] == "*** Begin Patch" && lines[|lines| - 1] == "*** End Patch"
  }

  /** Lines `inner` in a here-document. */
  predicate IsHeredoc(lines: seq<string>, inner: seq<string>) {
    && |inner| >= 2
    && |lines| == |inner| + 2 && lines[1..|lines| - 1] == inner
    && lines[0] in {"<<EOF", "<<'EOF'", "<<\"EOF\""}
    && EndsWith(lines[|lines| - 1], "EOF")
  }

  lemma HeredocIsNotFramed(lines: seq<string>, inner: seq<string>)
    requires IsHeredoc(lines, inner)
    ensures lines[0] != "*** Begin Patch"
  {
    assert lines[0][0] == '<' && "*** Begin Patch"[0] == '*';
  }

  /** Which lines are taken for those of the patch: all, or in lenient mode those in a here-document. */
  lemma BoundariesIff(lines: seq<string>, mode: ParseMode, inner: seq<string>)
    ensures PatchLines(lines, mode) == Ok(inner)
            <==> IsFramed(inner) && (lines == inner || (mode.Lenient? && IsHeredoc(lines, inner)))
  {
    if IsHeredoc(lines, inner) {
      HeredocIsNotFramed(lines, inner);
    }
    if PatchLines(lines, mode).Ok? {
      BoundariesTakeTwoLines(lines, mode);
    }
  }

  /** What is said of other lines: of the first one if that is no marker, else of the last one; of those in
      the here-document if the lines are one. */
  lemma BoundaryError(lines: seq<string>, mode: ParseMode)
    requires PatchLines(lines, mode).Err?
    ensures var inHeredoc := mode.Lenient? && |lines| >= 2 && IsHeredoc(lines, lines[1..|lines| - 1]);
            var seen := if inHeredoc then lines[1..|lines| - 1] else lines;
            PatchLines(lines, mode).error
            == if seen != [] && seen[0] != "*** Begin Patch" then FirstLineNotBegin else LastLineNotEnd
  {
    HeredocIff(lines);
    assert BEGIN_PATCH_MARKER == "*** Begin Patch";
    hide HeredocStart, HeredocEnd, IsHeredoc, BEGIN_PATCH_MARKER, END_PATCH_MARKER;
  }

  lemma HeredocIff(lines: seq<string>)
    ensures |lines| >= 4 && HeredocStart(lines[0]) && HeredocEnd(lines[|lines| - 1])
            <==> |lines| >= 2 && IsHeredoc(lines, lines[1..|lines| - 1])
  {
  }

  /** The texts that are patches, and what they are patches of. */
  lemma TextParsesIffWritten(text: string, mode: ParseMode, args: PatchArgs)
    ensures ParsedText(text, mode) == Ok(args)
            <==> exists written ::
                   && AllWellFormed(written)
                   && PatchLines(Lines(Trim(text)), mode) == Ok(PatchTextLines(written))
                   && args == PatchArgs(Meanings(written), PatchText(written, "\n"))
  {
    hide HunksOf, AllWellFormed, HunksLines, Meanings, Lines, Trim, PatchLines, Join, PatchTextLines;
    var lines := Lines(Trim(text));
    if ParsedText(text, mode) == Ok(args) {
      var inner := PatchLines(lines, mode).value;
      BoundariesTakeTwoLines(lines, mode);
      var written := HunksWritten(inner[1..|inner| - 1], 2);
      HunksReadBack(written, 2);
      Framed(inner, written);
    } else if written :| AllWellFormed(written) && PatchLines(lines, mode) == Ok(PatchTextLines(written))
                         && args == PatchArgs(Meanings(written), PatchText(written, "\n")) {
      PatchTextLinesFrame(written);
      HunksReadBack(written, 2);
    }
  }

  lemma Framed(inner: seq<string>, written: seq<HunkText>)
    requires |inner| >= 2 && inner[0] == BEGIN_PATCH_MARKER && inner[|inner| - 1] == END_PATCH_MARKER
    requires inner[1..|inner| - 1] == HunksLines(written)
    ensures inner == PatchTextLines(written)
  {
    hide HunksLines;
  }
}
