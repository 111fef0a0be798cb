/** From a file's text to its lines and back, around the application of a patch's chunks. */
module Contents {
  import opened Results
  import opened Text
  import opened Patch
  import opened Replacements
  import opened Splicing

  datatype LineEnding = Lf | Crlf {
    function Joiner(): string {
      match this
      case Lf => "\n"
      case Crlf => "\r\n"
    }
  }

  predicate ContainsCrlf(contents: string) {
    exists k :: 0 <= k < |contents| - 1 && contents[k] == '\r' && contents[k + 1] == '\n'
  }

  /** `LineEnding::detect` */
  function Detect(contents: string): LineEnding {
    if ContainsCrlf(contents) then Crlf else Lf
  }

  /** One CRLF anywhere makes a CRLF file. */
  lemma DetectIff(contents: string)
    ensures Detect(contents) == Crlf <==> exists a: string, b: string :: contents == a + "\r\n" + b
  {
    if k :| 0 <= k < |contents| - 1 && contents[k] == '\r' && contents[k + 1] == '\n' {
      assert contents == contents[..k] + "\r\n" + contents[k + 2..];
    }
    if a: string, b: string :| contents == a + "\r\n" + b {
      assert contents[|a|] == '\r' && contents[|a| + 1] == '\n';
    }
  }

  /** The lines of a file, each without its terminator; a final empty one is dropped. */
  function FileLines(contents: string): seq<string> {
    DropLastIfEmpty(StripAllCr(Split(contents)))
  }

  /** The lines of a file of terminated lines, and what comes after them. */
  lemma FileLinesOfTerminated(lines: seq<string>, last: string)
    requires NoNewlines(lines) && NoNewline(last)
    ensures FileLines(Terminated(lines, "\n") + last)
            == StripAllCr(lines) + if last == "" || last == "\r" then [] else [StripCr(last)]
  {
    hide Split, Terminated, StripCr, StripAllCr;
    SplitOfTerminatedAnd(lines, last);
    StrippedSnoc(lines, last);
    LastStripped(last);
    var stripped := StripAllCr(lines) + [StripCr(last)];
    assert stripped[..|stripped| - 1] == StripAllCr(lines);
    assert StripAllCr(lines) + [] == StripAllCr(lines);
  }

  lemma StrippedSnoc(lines: seq<string>, last: string)
    ensures StripAllCr(lines + [last]) == StripAllCr(lines) + [StripCr(last)]
  {
    hide StripCr;
  }

  lemma LastStripped(last: string)
    ensures StripCr(last) == "" <==> last == "" || last == "\r"
  {
    if StripCr(last) == "" {
      assert last == "" || last == "" + "\r";
    }
  }

  /** The text written for `lines`; a final blank line stands in for the missing terminator. */
  function Render(lines: seq<string>, ending: LineEnding): string {
    Join(if LastIsEmpty(lines) then lines else lines + [""], ending.Joiner())
  }

  /** What the chunks make of a file. */
  ghost function NewContents(contents: string, chunks: seq<Chunk>): Result<string, ReplaceError> {
    var lines := FileLines(contents);
    match Plan(lines, chunks, 0)
    case Err(e) => Err(e)
    case Ok(rs) =>
      PlanIsApplicable(lines, chunks);
      Ok(Render(ApplyBackwards(lines, SortByStart(rs)), Detect(contents)))
  }

  /** Searching and then applying never inserts out of range, whatever the chunks are. */
  lemma PlanIsApplicable(lines: seq<string>, chunks: seq<Chunk>)
    requires Plan(lines, chunks, 0).Ok?
    ensures InFile(SortByStart(Plan(lines, chunks, 0).value), |lines|)
    ensures StartsWithin(SortByStart(Plan(lines, chunks, 0).value), |lines|)
  {
    PlanStaysInFile(lines, chunks, 0);
    SortKeepsMembers(Plan(lines, chunks, 0).value);
  }

  /** `derive_new_contents_from_chunks`, after the file has been read. */
  method DeriveNewContents(contents: string, chunks: seq<Chunk>) returns (r: Result<string, ReplaceError>)
    ensures r == NewContents(contents, chunks)
  {
    hide Plan, SortByStart, ApplyBackwards;
    var ending := Detect(contents);
    var originalLines := StripAllCr(Split(contents));
    if LastIsEmpty(originalLines) {
      originalLines := DropLast(originalLines);
    }
    var replacements := ComputeReplacements(originalLines, chunks);
    if replacements.Err? {
      return Err(replacements.error);
    }
    PlanIsApplicable(originalLines, chunks);
    var newLines := ApplyReplacements(originalLines, replacements.value);
    if !LastIsEmpty(newLines) {
      newLines := newLines + [""];
    }
    return Ok(Join(newLines, ending.Joiner()));
  }

  // The text of terminated lines

  /** What is written is a sequence of terminated lines, whatever the edits were. */
  lemma RenderIsTerminated(lines: seq<string>, ending: LineEnding)
    ensures Render(lines, ending) == Terminated(DropLastIfEmpty(lines), ending.Joiner())
  {
    var body := DropLastIfEmpty(lines);
    JoinWithFinalBlank(body, ending.Joiner());
    assert (if LastIsEmpty(lines) then lines else lines + [""]) == body + [""];
  }

  /** A rewritten file is empty or ends with the terminator the file used before. */
  lemma NewContentsEndTerminated(contents: string, chunks: seq<Chunk>)
    requires NewContents(contents, chunks).Ok?
    ensures var text := NewContents(contents, chunks).value;
            text == "" || EndsWith(text, Detect(contents).Joiner())
  {
    hide Plan, SortByStart, ApplyBackwards, Render;
    var lines := FileLines(contents);
    PlanIsApplicable(lines, chunks);
    var edited := ApplyBackwards(lines, SortByStart(Plan(lines, chunks, 0).value));
    RenderIsTerminated(edited, Detect(contents));
    TerminatedEnds(DropLastIfEmpty(edited), Detect(contents).Joiner());
  }

  // A CRLF file stays a CRLF file

  predicate NoBareLf(s: string) {
    forall k :: 0 <= k < |s| && s[k] == '\n' ==> k > 0 && s[k - 1] == '\r'
  }

  lemma NoBareLfAppend(a: string, b: string)
    requires NoBareLf(a) && NoBareLf(b)
    ensures NoBareLf(a + b)
  {
    var s := a + b;
    forall k | 0 <= k < |s| && s[k] == '\n' ensures k > 0 && s[k - 1] == '\r' {
      if k >= |a| {
        assert b[k - |a|] == '\n';
      }
    }
  }

  lemma {:induction false} TerminatedByCrlf(lines: seq<string>)
    requires NoNewlines(lines)
    ensures NoBareLf(Terminated(lines, "\r\n"))
  {
    if lines != [] {
      TerminatedByCrlf(lines[1..]);
      var line := lines[0] + "\r\n";
      assert forall k :: 0 <= k < |lines[0]| ==> line[k] == lines[0][k];
      assert NoNewline(lines[0]);
      NoBareLfAppend(line, Terminated(lines[1..], "\r\n"));
    }
  }

  lemma StrippedLinesHaveNoNewline(lines: seq<string>)
    requires NoNewlines(lines)
    ensures NoNewlines(StripAllCr(lines)) && NoNewlines(DropLastIfEmpty(StripAllCr(lines)))
  {
    forall i | 0 <= i < |lines| ensures NoNewline(StripAllCr(lines)[i]) {
      assert NoNewline(lines[i]);
      assert forall c :: c in StripCr(lines[i]) ==> c in lines[i];
    }
  }

  lemma FileLinesHaveNoNewline(contents: string)
    ensures NoNewlines(FileLines(contents))
  {
    JoinOfSplit(contents);
    StrippedLinesHaveNoNewline(Split(contents));
  }

  lemma {:induction false} ApplyKeepsNoNewlines(lines: seq<string>, rs: seq<Replacement>)
    requires SortedByStart(rs) && StartsWithin(rs, |lines|)
    requires NoNewlines(lines) && forall r :: r in rs ==> NoNewlines(r.newLines)
    ensures NoNewlines(ApplyBackwards(lines, rs))
  {
    if rs != [] {
      ApplyKeepsNoNewlines(lines, rs[1..]);
      assert rs[0] in rs;
      ConcatHasNoNewlines(ApplyBackwards(lines, rs[1..]), rs[0]);
    }
  }

  lemma ConcatHasNoNewlines(lines: seq<string>, r: Replacement)
    requires r.start <= |lines| && NoNewlines(lines) && NoNewlines(r.newLines)
    ensures NoNewlines(ApplyOne(lines, r))
  {
  }

  lemma PlacedLinesHaveNoNewline(lines: seq<string>, chunk: Chunk, cursor: nat)
    requires PlaceChunk(lines, chunk, cursor).Ok? && NoNewlines(chunk.newLines)
    ensures NoNewlines(PlaceChunk(lines, chunk, cursor).value.replacement.newLines)
  {
    hide SkipContext, SeekSequence.Seek;
    StrippedLinesHaveNoNewline(chunk.newLines);
  }

  lemma {:induction false} PlannedLinesHaveNoNewline(lines: seq<string>, chunks: seq<Chunk>, cursor: nat)
    requires Plan(lines, chunks, cursor).Ok?
    requires forall c :: c in chunks ==> NoNewlines(c.newLines)
    ensures forall r :: r in Plan(lines, chunks, cursor).value ==> NoNewlines(r.newLines)
  {
    hide PlaceChunk;
    if chunks != [] {
      assert chunks[0] in chunks;
      PlacedLinesHaveNoNewline(lines, chunks[0], cursor);
      PlannedLinesHaveNoNewline(lines, chunks[1..], PlaceChunk(lines, chunks[0], cursor).value.cursor);
    }
  }

  /** A file that holds any CRLF has no bare newline once it is rewritten. */
  lemma CrlfFileStaysCrlf(contents: string, chunks: seq<Chunk>)
    requires ContainsCrlf(contents) && NewContents(contents, chunks).Ok?
    requires forall c :: c in chunks ==> NoNewlines(c.newLines)
    ensures NoBareLf(NewContents(contents, chunks).value)
  {
    hide Plan, SortByStart, ApplyBackwards, Render;
    var lines := FileLines(contents);
    var rs := SortByStart(Plan(lines, chunks, 0).value);
    PlanIsApplicable(lines, chunks);
    FileLinesHaveNoNewline(contents);
    PlannedLinesHaveNoNewline(lines, chunks, 0);
    SortKeepsMembers(Plan(lines, chunks, 0).value);
    var edited := ApplyBackwards(lines, rs);
    ApplyKeepsNoNewlines(lines, rs);
    RenderIsTerminated(edited, Crlf);
    TerminatedByCrlf(DropLastIfEmpty(edited));
  }

  // When nothing changes, the text comes back character for character

  /** Every line, the last one included, ends with the file's one kind of terminator. */
  predicate UniformlyTerminated(contents: string) {
    && EndsWith(contents, Detect(contents).Joiner())
    && (ContainsCrlf(contents) ==> NoBareLf(contents))
  }

  predicate EndsInBlankLine(contents: string) {
    var joiner := Detect(contents).Joiner();
    contents == joiner || EndsWith(contents, joiner + joiner)
  }

  lemma {:induction false} NoCrToStrip(body: seq<string>)
    requires !ContainsCrlf(Terminated(body, "\n"))
    ensures forall i :: 0 <= i < |body| ==> !EndsInCr(body[i])
  {
    if body != [] {
      var text, rest := Terminated(body, "\n"), Terminated(body[1..], "\n");
      var n := |body[0]|;
      assert text[n] == '\n';
      assert n > 0 ==> text[n - 1] == body[0][n - 1];
      forall k | 0 <= k < |rest| - 1 ensures !(rest[k] == '\r' && rest[k + 1] == '\n') {
        assert text[n + 1 + k] == rest[k] && text[n + 1 + k + 1] == rest[k + 1];
      }
      NoCrToStrip(body[1..]);
    }
  }

  lemma {:induction false} CrMovesToJoiner(body: seq<string>)
    requires NoBareLf(Terminated(body, "\n"))
    ensures Terminated(body, "\n") == Terminated(StripAllCr(body), "\r\n")
  {
    if body != [] {
      var text, rest := Terminated(body, "\n"), Terminated(body[1..], "\n");
      var n := |body[0]|;
      assert text[n] == '\n';
      assert body[0] == StripCr(body[0]) + "\r" by {
        assert text[n - 1] == '\r';
      }
      forall k | 0 <= k < |rest| && rest[k] == '\n' ensures k > 0 && rest[k - 1] == '\r' {
        assert text[n + 1 + k] == '\n';
        assert text[n + k] == '\r';
      }
      CrMovesToJoiner(body[1..]);
      assert StripAllCr(body)[1..] == StripAllCr(body[1..]);
    }
  }

  /** A uniformly terminated text is its lines, each with the terminator put back. */
  lemma FileLinesTerminated(contents: string)
    requires UniformlyTerminated(contents)
    ensures contents == Terminated(FileLines(contents), Detect(contents).Joiner())
  {
    assert EndsWith(contents, "\n") by {
      assert contents[|contents| - 1..] == "\n";
    }
    SplitOfTerminated(contents);
    var parts := Split(contents);
    hide Split, EndsWith;
    var body := parts[..|parts| - 1];
    assert parts == body + [""];
    assert StripAllCr(parts) == StripAllCr(body) + [""];
    assert FileLines(contents) == StripAllCr(body);
    if ContainsCrlf(contents) {
      CrMovesToJoiner(body);
    } else {
      NoCrToStrip(body);
      StripAllCrNoop(body);
    }
  }

  lemma BlankLineAtEnd(front: string, joiner: string)
    requires front == "" || EndsWith(front, joiner)
    ensures front + joiner == joiner || EndsWith(front + joiner, joiner + joiner)
  {
    if front == "" {
      assert front + joiner == joiner;
    } else {
      var head := front[..|front| - |joiner|];
      EndsWithAppend(head, joiner + joiner);
      assert front + joiner == head + (joiner + joiner);
    }
  }

  lemma BlankLineAtEndIff(lines: seq<string>, joiner: string)
    requires lines != [] && NoNewlines(lines)
    requires joiner != "" && joiner[|joiner| - 1] == '\n'
    ensures LastIsEmpty(lines)
            <==> Terminated(lines, joiner) == joiner || EndsWith(Terminated(lines, joiner), joiner + joiner)
  {
    hide EndsWith, Terminated;
    var init, last := lines[..|lines| - 1], lines[|lines| - 1];
    var front := Terminated(init, joiner);
    assert lines == init + [last];
    TerminatedSnoc(init, last, joiner);
    if last == "" {
      TerminatedEnds(init, joiner);
      BlankLineAtEnd(front, joiner);
      assert front + last + joiner == front + joiner;
    } else {
      NoSecondTerminator(front, last, joiner);
    }
  }

  lemma EndsWithAppend(front: string, suffix: string)
    ensures EndsWith(front + suffix, suffix)
  {
  }

  lemma NoSecondTerminator(front: string, last: string, joiner: string)
    requires last != "" && NoNewline(last) && joiner != "" && joiner[|joiner| - 1] == '\n'
    ensures front + last + joiner != joiner
    ensures !EndsWith(front + last + joiner, joiner + joiner)
  {
    var s := front + last + joiner;
    var n := |front| + |last|;
    assert |s| == n + |joiner| && s[n - 1] == last[|last| - 1];
    assert last[|last| - 1] in last;
    assert (joiner + joiner)[|joiner| - 1] == '\n';
    assert 2 * |joiner| <= |s| ==> s[|s| - 2 * |joiner|..][|joiner| - 1] == last[|last| - 1];
  }

  lemma RenderOfUniform(contents: string)
    requires contents != "" && UniformlyTerminated(contents)
    ensures Render(FileLines(contents), Detect(contents)) == contents <==> !EndsInBlankLine(contents)
  {
    hide FileLines, UniformlyTerminated, Render, Detect, ContainsCrlf;
    var lines, joiner := FileLines(contents), Detect(contents).Joiner();
    RenderIsTerminated(lines, Detect(contents));
    FileLinesHaveNoNewline(contents);
    FileLinesTerminated(contents);
    BlankLineAtEndIff(lines, joiner);
    if LastIsEmpty(lines) {
      TerminatedSnoc(DropLast(lines), "", joiner);
      assert DropLast(lines) + [""] == lines;
    }
  }

  lemma RenderIsUniform(contents: string)
    requires contents != "" && Render(FileLines(contents), Detect(contents)) == contents
    ensures UniformlyTerminated(contents)
  {
    hide FileLines, Render, ContainsCrlf, EndsWith, NoBareLf;
    var lines, ending := FileLines(contents), Detect(contents);
    RenderIsTerminated(lines, ending);
    FileLinesHaveNoNewline(contents);
    TerminatedEnds(DropLastIfEmpty(lines), ending.Joiner());
    if ContainsCrlf(contents) {
      TerminatedByCrlf(DropLastIfEmpty(lines));
    }
  }

  /** Reading a file's lines and writing them out again gives back the file if and only if it is
      empty, or uniformly terminated with a last line that is not blank. */
  lemma RenderUndoesFileLinesIff(contents: string)
    ensures Render(FileLines(contents), Detect(contents)) == contents
            <==> contents == "" || (UniformlyTerminated(contents) && !EndsInBlankLine(contents))
  {
    if contents == "" {
      assert Split(contents) == [""];
      assert StripAllCr([""]) == [""];
      assert FileLines(contents) == [];
    } else if UniformlyTerminated(contents) {
      RenderOfUniform(contents);
    } else if Render(FileLines(contents), Detect(contents)) == contents {
      RenderIsUniform(contents);
    }
  }

  /** A patch of context lines that the file has, each chunk's exactly as they are from where they are
      looked for, applies; and it leaves the file as it is if and only if the file is empty, or uniformly
      terminated with a last line that is not blank. */
  lemma RestatingPatchIsIdentityIff(contents: string, chunks: seq<Chunk>)
    requires RestatedFrom(FileLines(contents), chunks, 0)
    ensures NewContents(contents, chunks).Ok?
    ensures NewContents(contents, chunks) == Ok(contents)
            <==> contents == "" || (UniformlyTerminated(contents) && !EndsInBlankLine(contents))
  {
    hide Plan, SortByStart, ApplyBackwards, Render, RestatedFrom, UniformlyTerminated, EndsInBlankLine;
    var lines := FileLines(contents);
    RestatedLinesComeBack(lines, chunks, 0);
    PlanIsApplicable(lines, chunks);
    SortKeepsMembers(Plan(lines, chunks, 0).value);
    NoopReplacements(lines, SortByStart(Plan(lines, chunks, 0).value));
    RenderUndoesFileLinesIff(contents);
  }

  // What a patch does to the lines

  /** If the listed regions are disjoint, the new text is the left-to-right splice of the file's
      lines, rendered with the file's own terminator. */
  lemma DisjointPatchSplices(contents: string, chunks: seq<Chunk>)
    requires Plan(FileLines(contents), chunks, 0).Ok?
    requires Disjoint(SortByStart(Plan(FileLines(contents), chunks, 0).value))
    ensures var lines := FileLines(contents);
            var rs := SortByStart(Plan(lines, chunks, 0).value);
            && InOrder(rs, 0, |lines|)
            && NewContents(contents, chunks) == Ok(Render(Splice(lines, rs, 0), Detect(contents)))
  {
    hide Plan, SortByStart, ApplyBackwards, Splice, Render;
    var lines := FileLines(contents);
    var rs := SortByStart(Plan(lines, chunks, 0).value);
    PlanIsApplicable(lines, chunks);
    DisjointIsInOrder(rs, 0, |lines|);
    BackwardsIsSplice(lines, rs, 0);
    assert lines[..0] + Splice(lines, rs, 0) == Splice(lines, rs, 0);
  }

  /** That is so whenever no pure addition meets a region that covers a final blank line and no
      end-of-file chunk reaches back over an earlier region. */
  lemma OrdinaryPatchSplices(contents: string, chunks: seq<Chunk>)
    requires Plan(FileLines(contents), chunks, 0).Ok?
    requires var lines := FileLines(contents);
             && !AdditionMeetsRegion(lines, chunks, Plan(lines, chunks, 0).value)
             && !EofMeetsRegion(lines, chunks, Plan(lines, chunks, 0).value)
    ensures var lines := FileLines(contents);
            var rs := SortByStart(Plan(lines, chunks, 0).value);
            && Disjoint(rs) && InOrder(rs, 0, |lines|)
            && NewContents(contents, chunks) == Ok(Render(Splice(lines, rs, 0), Detect(contents)))
  {
    hide Plan, SortByStart, ApplyBackwards, Splice, Render, NewContents, AdditionMeetsRegion, EofMeetsRegion, Disjoint;
    DisjointIff(FileLines(contents), chunks);
    DisjointPatchSplices(contents, chunks);
  }

  /** Otherwise an edit can be lost: of the two chunks, one replaces the final blank line by "x" and
      one adds "y"; the "y" is inserted in front of the blank line and then removed in its place. */
  lemma AdditionBeforeBlankLineIsLost()
    ensures NewContents("a\n\n", [Chunk(None, [""], ["x"], false), Chunk(None, [], ["y"], false)]) == Ok("a\nx\n")
  {
    hide Plan, SortByStart, ApplyBackwards, Render, FileLines, Detect;
    var lines := ["a", ""];
    var r0, r1 := Replacement(1, 1, ["x"]), Replacement(1, 0, ["y"]);
    SmallFile();
    LostAdditionPlan();
    SortOfTwo(r0, r1);
    ApplyTwo(lines, r0, r1);
    assert ApplyOne(lines, r1) == ["a", "y", ""];
    assert ApplyOne(["a", "y", ""], r0) == ["a", "x", ""];
    SmallRender();
  }

  lemma LostAdditionPlan()
    ensures Plan(["a", ""], [Chunk(None, [""], ["x"], false), Chunk(None, [], ["y"], false)], 0)
            == Ok([Replacement(1, 1, ["x"]), Replacement(1, 0, ["y"])])
  {
    hide SeekSequence.Seek;
    var c0, c1 := Chunk(None, [""], ["x"], false), Chunk(None, [], ["y"], false);
    var lines := ["a", ""];
    assert StripAllCr([""]) == [""] && StripAllCr(["x"]) == ["x"] && StripAllCr(["y"]) == ["y"];
    assert SeekSequence.Key(SeekSequence.Exact, lines[0 + 0]) != SeekSequence.Key(SeekSequence.Exact, [""][0]);
    SeekSequence.ExactMatchWins(lines, [""], 0, false, 1);
    PlanOfTwo(lines, c0, c1, Placement(Replacement(1, 1, ["x"]), 2), Placement(Replacement(1, 0, ["y"]), 2));
  }

  lemma SmallRender()
    ensures Render(["a", "x", ""], Lf) == "a\nx\n"
  {
    assert ["a", "x", ""][1..] == ["x", ""] && ["x", ""][1..] == [""];
    assert Join(["x", ""], "\n") == "x\n";
  }

  lemma SmallFile()
    ensures FileLines("a\n\n") == ["a", ""] && Detect("a\n\n") == Lf
  {
    var text := "a\n\n";
    assert text[1..] == "\n\n" && text[1..][1..] == "\n" && text[1..][1..][1..] == "";
    assert Split("\n") == ["", ""];
    assert Split("\n\n") == ["", "", ""];
    assert ['a'] + "" == "a" && ["", "", ""][1..] == ["", ""];
    assert Split(text) == ["a", "", ""];
    assert StripAllCr(["a", "", ""]) == ["a", "", ""];
    assert FileLines(text) == ["a", ""];
  }

  lemma PlanOfTwo(lines: seq<string>, c0: Chunk, c1: Chunk, p0: Placement, p1: Placement)
    requires PlaceChunk(lines, c0, 0) == Ok(p0) && PlaceChunk(lines, c1, p0.cursor) == Ok(p1)
    ensures Plan(lines, [c0, c1], 0) == Ok([p0.replacement, p1.replacement])
  {
    hide PlaceChunk;
    assert [c0, c1][1..] == [c1] && [c1][1..] == [];
    assert Plan(lines, [], p1.cursor) == Ok([]);
    assert [p1.replacement] + [] == [p1.replacement];
    assert [p0.replacement] + [p1.replacement] == [p0.replacement, p1.replacement];
    assert Plan(lines, [c1], p0.cursor) == Ok([p1.replacement]);
  }

  lemma SortOfTwo(r0: Replacement, r1: Replacement)
    requires r0.start <= r1.start
    ensures SortByStart([r0, r1]) == [r0, r1]
  {
    assert [r0, r1][..1] == [r0] && [r0][..0] == [];
    assert SortByStart([r0]) == InsertSorted([], r0) == [r0];
    assert SortByStart([r0, r1]) == InsertSorted([r0], r1);
    hide SortByStart;
    assert UpperBound([r0], r1.start) == 1;
  }

  lemma ApplyTwo(lines: seq<string>, r0: Replacement, r1: Replacement)
    requires r0.start <= r1.start <= |lines|
    ensures ApplyBackwards(lines, [r0, r1]) == ApplyOne(ApplyOne(lines, r1), r0)
  {
    assert [r0, r1][1..] == [r1] && [r1][1..] == [];
    assert ApplyBackwards(lines, [r1]) == ApplyOne(lines, r1);
  }

  /** An end-of-file chunk can land before the cursor, on lines already replaced: here the second
      chunk asks for "b" after the first one has taken it, and its "d" is overwritten. */
  lemma EndOfFileChunkLandsBeforeCursor()
    ensures NewContents("a\nb\n", [Chunk(None, ["b"], ["c"], false), Chunk(None, ["b"], ["d"], true)]) == Ok("a\nc\n")
  {
    hide Plan, SortByStart, ApplyBackwards, Render, FileLines, Detect;
    var lines := ["a", "b"];
    var r0, r1 := Replacement(1, 1, ["c"]), Replacement(1, 1, ["d"]);
    TwoLineFile();
    EndOfFilePlan();
    SortOfTwo(r0, r1);
    ApplyTwo(lines, r0, r1);
    assert ApplyOne(lines, r1) == ["a", "d"];
    assert ApplyOne(["a", "d"], r0) == ["a", "c"];
    TwoLineRender();
  }

  lemma TwoLineFile()
    ensures FileLines("a\nb\n") == ["a", "b"] && Detect("a\nb\n") == Lf
  {
    var text := "a\nb\n";
    SplitAfterLine("a", "b\n");
    SplitAfterLine("b", "");
    assert text == "a" + "\n" + "b\n" && "b\n" == "b" + "\n" + "";
    assert Split("") == [""];
    assert Split(text) == ["a", "b", ""];
    assert StripAllCr(["a", "b", ""]) == ["a", "b", ""];
    assert FileLines(text) == ["a", "b"];
  }

  lemma TwoLineRender()
    ensures Render(["a", "c"], Lf) == "a\nc\n"
  {
    assert ["a", "c"] + [""] == ["a", "c", ""];
    assert ["a", "c", ""][1..] == ["c", ""] && ["c", ""][1..] == [""];
    assert Join(["c", ""], "\n") == "c\n";
  }

  lemma EndOfFilePlan()
    ensures Plan(["a", "b"], [Chunk(None, ["b"], ["c"], false), Chunk(None, ["b"], ["d"], true)], 0)
            == Ok([Replacement(1, 1, ["c"]), Replacement(1, 1, ["d"])])
  {
    hide SeekSequence.Seek;
    var c0, c1 := Chunk(None, ["b"], ["c"], false), Chunk(None, ["b"], ["d"], true);
    var lines := ["a", "b"];
    assert StripAllCr(["b"]) == ["b"] && StripAllCr(["c"]) == ["c"] && StripAllCr(["d"]) == ["d"];
    assert SeekSequence.Key(SeekSequence.Exact, lines[0 + 0]) != SeekSequence.Key(SeekSequence.Exact, ["b"][0]);
    SeekSequence.ExactMatchWins(lines, ["b"], 0, false, 1);
    SeekSequence.ExactMatchWins(lines, ["b"], 2, true, 1);
    PlanOfTwo(lines, c0, c1, Placement(Replacement(1, 1, ["c"]), 2), Placement(Replacement(1, 1, ["d"]), 2));
  }
}
