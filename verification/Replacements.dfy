/** From chunks to replacements: where each chunk lands, and in which order the edits are listed. */
module Replacements {
  import opened Results
  import opened Text
  import opened Patch
  import opened SeekSequence

  /** Replace `oldLen` lines from `start` on by `newLines`. */
  datatype Replacement = Replacement(start: nat, oldLen: nat, newLines: seq<string>) {
    function End(): nat { start + oldLen }
  }

  datatype ReplaceError =
    | ContextNotFound(context: string)
    | LinesNotFound(oldLines: seq<string>)

  /** A chunk's replacement, and the cursor from which the next chunk searches. */
  datatype Placement = Placement(replacement: Replacement, cursor: nat)

  predicate PureAddition(chunk: Chunk) {
    chunk.oldLines == []
  }

  /** Pure additions go to the end of the file, before a final blank line if there is one. */
  function InsertionIndex(lines: seq<string>): nat {
    if LastIsEmpty(lines) then |lines| - 1 else |lines|
  }

  function DropLast(lines: seq<string>): seq<string>
    requires lines != []
  {
    lines[..|lines| - 1]
  }

  function DropLastIfEmpty(lines: seq<string>): seq<string> {
    if LastIsEmpty(lines) then DropLast(lines) else lines
  }

  // The specification, chunk by chunk

  ghost function SkipContext(lines: seq<string>, chunk: Chunk, cursor: nat): Option<nat> {
    match chunk.changeContext
    case None => Some(cursor)
    case Some(context) =>
      match Seek(lines, [context], cursor, false)
      case None => None
      case Some(i) => Some(i + 1)
  }

  ghost function PlaceOldLines(lines: seq<string>, chunk: Chunk, from: nat): Result<Placement, ReplaceError> {
    var pattern := StripAllCr(chunk.oldLines);
    var added := StripAllCr(chunk.newLines);
    match Seek(lines, pattern, from, chunk.isEndOfFile)
    case Some(i) => Ok(Placement(Replacement(i, |pattern|, added), i + |pattern|))
    case None =>
      if !LastIsEmpty(pattern) then Err(LinesNotFound(pattern))
      else
        match Seek(lines, DropLast(pattern), from, chunk.isEndOfFile)
        case Some(i) => Ok(Placement(Replacement(i, |pattern| - 1, DropLastIfEmpty(added)), i + |pattern| - 1))
        case None => Err(LinesNotFound(pattern))
  }

  ghost function PlaceChunk(lines: seq<string>, chunk: Chunk, cursor: nat): Result<Placement, ReplaceError> {
    match SkipContext(lines, chunk, cursor)
    case None => Err(ContextNotFound(chunk.changeContext.value))
    case Some(from) =>
      if PureAddition(chunk) then
        Ok(Placement(Replacement(InsertionIndex(lines), 0, StripAllCr(chunk.newLines)), from))
      else PlaceOldLines(lines, chunk, from)
  }

  function Prepend(done: seq<Replacement>, rest: Result<seq<Replacement>, ReplaceError>)
    : Result<seq<Replacement>, ReplaceError>
  {
    match rest
    case Ok(rs) => Ok(done + rs)
    case Err(e) => Err(e)
  }

  lemma PrependPrepend(a: seq<Replacement>, b: seq<Replacement>, r: Result<seq<Replacement>, ReplaceError>)
    ensures Prepend(a, Prepend(b, r)) == Prepend(a + b, r)
  {
    if r.Ok? {
      assert a + (b + r.value) == a + b + r.value;
    }
  }

  lemma PrependNothing(r: Result<seq<Replacement>, ReplaceError>)
    ensures Prepend([], r) == r
  {
    assert r.Ok? ==> [] + r.value == r.value;
  }

  /** One replacement for each chunk, in chunk order. */
  ghost function Plan(lines: seq<string>, chunks: seq<Chunk>, cursor: nat): (r: Result<seq<Replacement>, ReplaceError>)
    ensures r.Ok? ==> |r.value| == |chunks|
  {
    if chunks == [] then Ok([])
    else
      match PlaceChunk(lines, chunks[0], cursor)
      case Err(e) => Err(e)
      case Ok(p) => Prepend([p.replacement], Plan(lines, chunks[1..], p.cursor))
  }

  // Sorting by start, keeping the order of equal starts

  predicate SortedByStart(rs: seq<Replacement>) {
    forall i, j :: 0 <= i < j < |rs| ==> rs[i].start <= rs[j].start
  }

  /** One past the last entry that does not start after `start`. */
  function UpperBound(rs: seq<Replacement>, start: nat): (p: nat)
    ensures p <= |rs|
    ensures p > 0 ==> rs[p - 1].start <= start
    ensures forall j :: p <= j < |rs| ==> rs[j].start > start
  {
    if rs == [] || rs[|rs| - 1].start <= start then |rs| else UpperBound(rs[..|rs| - 1], start)
  }

  function InsertSorted(rs: seq<Replacement>, r: Replacement): seq<Replacement> {
    var p := UpperBound(rs, r.start);
    rs[..p] + [r] + rs[p..]
  }

  /** `s` is `rs` with `r` put in at `p`, after every entry that does not start later. */
  ghost predicate InsertedAt(rs: seq<Replacement>, r: Replacement, s: seq<Replacement>, p: nat) {
    && |s| == |rs| + 1 && p <= |rs|
    && s[p] == r
    && (forall k :: 0 <= k < p ==> s[k] == rs[k] && rs[k].start <= r.start)
    && (forall k :: p < k < |s| ==> s[k] == rs[k - 1] && r.start < rs[k - 1].start)
  }

  lemma UpperBoundSeparates(rs: seq<Replacement>, start: nat)
    requires SortedByStart(rs)
    ensures forall k :: 0 <= k < UpperBound(rs, start) ==> rs[k].start <= start
  {
    hide UpperBound;
    var p := UpperBound(rs, start);
    assert forall k :: 0 <= k && k + 1 < p ==> rs[k].start <= rs[p - 1].start;
  }

  lemma InsertSortedShape(rs: seq<Replacement>, r: Replacement)
    requires SortedByStart(rs)
    ensures InsertedAt(rs, r, InsertSorted(rs, r), UpperBound(rs, r.start))
  {
    hide UpperBound, SortedByStart;
    UpperBoundSeparates(rs, r.start);
  }

  lemma InsertedAtKeepsOrder(rs: seq<Replacement>, r: Replacement, s: seq<Replacement>, p: nat)
    requires SortedByStart(rs) && InsertedAt(rs, r, s, p)
    ensures SortedByStart(s)
  {
  }

  lemma InsertSortedKeepsOrder(rs: seq<Replacement>, r: Replacement)
    requires SortedByStart(rs)
    ensures SortedByStart(InsertSorted(rs, r))
  {
    hide SortedByStart, InsertedAt, InsertSorted, UpperBound;
    InsertSortedShape(rs, r);
    InsertedAtKeepsOrder(rs, r, InsertSorted(rs, r), UpperBound(rs, r.start));
  }

  lemma InsertSortedKeepsContents(rs: seq<Replacement>, r: Replacement)
    ensures multiset(InsertSorted(rs, r)) == multiset(rs) + multiset{r}
  {
    var p := UpperBound(rs, r.start);
    assert rs == rs[..p] + rs[p..];
  }

  /** `sort_by` on the start: a stable sort. */
  function SortByStart(rs: seq<Replacement>): (s: seq<Replacement>)
    ensures multiset(s) == multiset(rs)
    ensures SortedByStart(s)
  {
    if rs == [] then []
    else
      var init, last := rs[..|rs| - 1], rs[|rs| - 1];
      assert rs == init + [last];
      InsertSortedKeepsOrder(SortByStart(init), last);
      InsertSortedKeepsContents(SortByStart(init), last);
      InsertSorted(SortByStart(init), last)
  }

  /** Every region ends before the next one in the list begins. */
  predicate Disjoint(rs: seq<Replacement>) {
    forall i, j :: 0 <= i < j < |rs| ==> rs[i].End() <= rs[j].start
  }

  predicate InFile(rs: seq<Replacement>, n: nat) {
    forall r :: r in rs ==> r.start <= r.End() <= n
  }

  /** `earlier`, planned before `later`, does not overlap it, nor stand behind it at the same line. */
  predicate Compatible(earlier: Replacement, later: Replacement) {
    || earlier.End() <= later.start
    || (later.start < earlier.start && later.End() <= earlier.start)
  }

  predicate AllCompatible(rs: seq<Replacement>) {
    forall i, j :: 0 <= i < j < |rs| ==> Compatible(rs[i], rs[j])
  }

  ghost predicate CompatibleWithAll(rs: seq<Replacement>, r: Replacement) {
    forall x :: x in rs ==> Compatible(x, r)
  }

  lemma InsertDisjointOnlyIf(rs: seq<Replacement>, r: Replacement, s: seq<Replacement>, p: nat)
    requires InsertedAt(rs, r, s, p) && Disjoint(s)
    ensures Disjoint(rs) && CompatibleWithAll(rs, r)
  {
    forall i, j | 0 <= i < j < |rs| ensures rs[i].End() <= rs[j].start {
      var i', j' := if i < p then i else i + 1, if j < p then j else j + 1;
      assert s[i'] == rs[i] && s[j'] == rs[j];
    }
    forall x | x in rs ensures Compatible(x, r) {
      var k :| 0 <= k < |rs| && rs[k] == x;
      assert k < p ==> s[k].End() <= s[p].start;
      assert p <= k ==> s[k + 1] == x && s[p].End() <= s[k + 1].start;
    }
  }

  lemma InsertDisjointIf(rs: seq<Replacement>, r: Replacement, s: seq<Replacement>, p: nat)
    requires InsertedAt(rs, r, s, p) && Disjoint(rs) && CompatibleWithAll(rs, r)
    ensures Disjoint(s)
  {
    forall i, j | 0 <= i < j < |s| ensures s[i].End() <= s[j].start {
      assert i < p ==> s[i] == rs[i] && Compatible(rs[i], r);
      assert p < j ==> s[j] == rs[j - 1] && Compatible(rs[j - 1], r);
      assert p < i ==> s[i] == rs[i - 1];
      assert j < p ==> s[j] == rs[j];
    }
  }

  lemma InsertDisjointIff(rs: seq<Replacement>, r: Replacement)
    requires SortedByStart(rs)
    ensures Disjoint(InsertSorted(rs, r)) <==> Disjoint(rs) && CompatibleWithAll(rs, r)
  {
    hide SortedByStart, InsertedAt, Disjoint, CompatibleWithAll, InsertSorted, UpperBound;
    var p := UpperBound(rs, r.start);
    var s := InsertSorted(rs, r);
    InsertSortedShape(rs, r);
    if Disjoint(s) {
      InsertDisjointOnlyIf(rs, r, s, p);
    } else if Disjoint(rs) && CompatibleWithAll(rs, r) {
      InsertDisjointIf(rs, r, s, p);
    }
  }

  /** The sorted list is free of overlaps exactly when the chunks are pairwise compatible. */
  lemma {:induction false} SortedDisjointIff(rs: seq<Replacement>)
    ensures Disjoint(SortByStart(rs)) <==> AllCompatible(rs)
  {
    if rs == [] {
      return;
    }
    var init, last := rs[..|rs| - 1], rs[|rs| - 1];
    assert rs == init + [last];
    assert SortByStart(rs) == InsertSorted(SortByStart(init), last);
    hide Disjoint, AllCompatible, Compatible, SortedByStart, SortByStart, InsertSorted;
    SortedDisjointIff(init);
    InsertDisjointIff(SortByStart(init), last);
    SortKeepsMembers(init);
    AllCompatibleSnoc(init, last);
  }

  lemma AllCompatibleSnoc(init: seq<Replacement>, last: Replacement)
    ensures AllCompatible(init + [last]) <==> AllCompatible(init) && CompatibleWithAll(init, last)
  {
    var rs := init + [last];
    if AllCompatible(rs) {
      forall i, j | 0 <= i < j < |init| ensures Compatible(init[i], init[j]) {
        assert Compatible(rs[i], rs[j]);
      }
      forall x | x in init ensures Compatible(x, last) {
        var k :| 0 <= k < |init| && init[k] == x;
        assert Compatible(rs[k], rs[|init|]);
      }
    }
  }

  lemma SortKeepsMembers(rs: seq<Replacement>)
    ensures forall x :: x in SortByStart(rs) <==> x in rs
  {
    assert forall x :: x in SortByStart(rs) <==> x in multiset(SortByStart(rs));
    assert forall x :: x in rs <==> x in multiset(rs);
  }

  // Where a chunk can land

  lemma SkipContextBounds(lines: seq<string>, chunk: Chunk, cursor: nat)
    requires cursor <= |lines|
    ensures var at := SkipContext(lines, chunk, cursor);
            at.Some? ==> cursor <= at.value <= |lines|
  {
    hide Seek, MatchesAt;
    if chunk.changeContext.Some? && SkipContext(lines, chunk, cursor).Some? {
      SeekBounds(lines, [chunk.changeContext.value], cursor, false);
    }
  }

  lemma PlaceOldLinesBounds(lines: seq<string>, chunk: Chunk, from: nat)
    requires from <= |lines| && PlaceOldLines(lines, chunk, from).Ok?
    ensures var p := PlaceOldLines(lines, chunk, from).value;
            && p.cursor == p.replacement.End()
            && from <= p.cursor <= |lines|
            && (p.replacement.start < from ==> chunk.isEndOfFile && p.cursor == |lines|)
            && (chunk.isEndOfFile && p.replacement.oldLen > 0 ==> p.cursor == |lines|)
  {
    hide Seek, MatchesAt;
    var pattern := StripAllCr(chunk.oldLines);
    if Seek(lines, pattern, from, chunk.isEndOfFile).Some? {
      SeekBounds(lines, pattern, from, chunk.isEndOfFile);
    } else {
      SeekBounds(lines, DropLast(pattern), from, chunk.isEndOfFile);
    }
  }

  /** The cursor never moves back and never leaves the file, and neither does a region; only an
      end-of-file chunk can start before the cursor. */
  lemma PlaceChunkBounds(lines: seq<string>, chunk: Chunk, cursor: nat)
    requires cursor <= |lines| && PlaceChunk(lines, chunk, cursor).Ok?
    ensures var p := PlaceChunk(lines, chunk, cursor).value;
            && cursor <= p.cursor <= |lines|
            && p.replacement.End() <= |lines|
            && if PureAddition(chunk) then p.replacement.start == p.replacement.End() == InsertionIndex(lines)
               else p.replacement.End() == p.cursor
                    && (p.replacement.start < cursor ==> chunk.isEndOfFile && p.replacement.End() == |lines|)
                    && (chunk.isEndOfFile && p.replacement.oldLen > 0 ==> p.replacement.End() == |lines|)
  {
    hide Seek, PlaceOldLines;
    SkipContextBounds(lines, chunk, cursor);
    if !PureAddition(chunk) {
      PlaceOldLinesBounds(lines, chunk, SkipContext(lines, chunk, cursor).value);
    }
  }

  // What a placement means

  /** A search for `pattern` from `from` on can end at `i`: it matches there, ignoring whitespace at both
      ends of lines and the look of punctuation. */
  ghost predicate CanLand(lines: seq<string>, pattern: seq<string>, from: nat, eof: bool, i: nat) {
    if pattern == [] then i == from
    else SearchStart(lines, pattern, from, eof) <= i && MatchesAt(Normalised, lines, pattern, i)
  }

  lemma SeekLands(lines: seq<string>, pattern: seq<string>, from: nat, eof: bool)
    ensures match Seek(lines, pattern, from, eof)
            case Some(i) => CanLand(lines, pattern, from, eof, i)
            case None => forall i :: !CanLand(lines, pattern, from, eof, i)
  {
    hide Seek, Key;
    var r := Seek(lines, pattern, from, eof);
    if pattern != [] {
      SoughtSomeIff(lines, pattern, from, eof, r);
      if r.Some? {
        var t :| BestMatch(t, lines, pattern, SearchStart(lines, pattern, from, eof), r.value);
        BestMatchIsAMatch(lines, pattern, SearchStart(lines, pattern, from, eof), t, r.value);
      }
    }
  }

  /** A located chunk takes out lines that match its old lines and puts in its new lines, both without
      carriage returns; if its old lines match nowhere and end in a blank one, that goes for the old
      lines without it, and a final blank new line is left out as well. */
  ghost predicate IsPlacedAt(lines: seq<string>, chunk: Chunk, from: nat, r: Replacement) {
    var pattern, added := StripAllCr(chunk.oldLines), StripAllCr(chunk.newLines);
    || (CanLand(lines, pattern, from, chunk.isEndOfFile, r.start) && r.oldLen == |pattern| && r.newLines == added)
    || ((forall i :: !CanLand(lines, pattern, from, chunk.isEndOfFile, i)) && LastIsEmpty(pattern)
        && CanLand(lines, DropLast(pattern), from, chunk.isEndOfFile, r.start)
        && r.oldLen == |pattern| - 1 && r.newLines == DropLastIfEmpty(added))
  }

  lemma OldLinesArePlaced(lines: seq<string>, chunk: Chunk, from: nat)
    ensures match PlaceOldLines(lines, chunk, from)
            case Ok(p) => IsPlacedAt(lines, chunk, from, p.replacement) && p.cursor == p.replacement.End()
            case Err(e) =>
              var pattern := StripAllCr(chunk.oldLines);
              && e == LinesNotFound(pattern)
              && (forall i :: !CanLand(lines, pattern, from, chunk.isEndOfFile, i))
              && (LastIsEmpty(pattern) ==> forall i :: !CanLand(lines, DropLast(pattern), from, chunk.isEndOfFile, i))
  {
    hide Seek, CanLand;
    var pattern := StripAllCr(chunk.oldLines);
    SeekLands(lines, pattern, from, chunk.isEndOfFile);
    if LastIsEmpty(pattern) {
      SeekLands(lines, DropLast(pattern), from, chunk.isEndOfFile);
    }
  }

  /** The line after the context is where the search for the chunk begins. */
  ghost predicate IsAfterContext(lines: seq<string>, chunk: Chunk, cursor: nat, from: nat) {
    match chunk.changeContext
    case None => from == cursor
    case Some(context) => from > 0 && CanLand(lines, [context], cursor, false, from - 1)
  }

  /** The search for a chunk begins behind its context, and the chunk is placed where its lines match;
      it fails with the context's name if and only if the context is nowhere to be found, and else only
      if its lines are not. */
  lemma ChunkIsPlaced(lines: seq<string>, chunk: Chunk, cursor: nat)
    ensures var at := SkipContext(lines, chunk, cursor);
            && (at.Some? ==> IsAfterContext(lines, chunk, cursor, at.value))
            && (match PlaceChunk(lines, chunk, cursor)
                case Ok(p) => at.Some? && (PureAddition(chunk) || IsPlacedAt(lines, chunk, at.value, p.replacement))
                case Err(LinesNotFound(_)) =>
                  at.Some? && !PureAddition(chunk) && forall r :: !IsPlacedAt(lines, chunk, at.value, r)
                case Err(ContextNotFound(context)) =>
                  chunk.changeContext == Some(context) && forall i :: !CanLand(lines, [context], cursor, false, i))
  {
    hide Seek, CanLand, PlaceOldLines;
    if chunk.changeContext.Some? {
      SeekLands(lines, [chunk.changeContext.value], cursor, false);
    }
    var at := SkipContext(lines, chunk, cursor);
    if at.Some? {
      OldLinesArePlaced(lines, chunk, at.value);
    }
  }

  /** Where the search for a chunk begins: at the cursor, or behind its context, searched from there. */
  ghost predicate SearchBegins(lines: seq<string>, chunk: Chunk, cursor: nat, from: int) {
    match chunk.changeContext
    case None => from == cursor
    case Some(context) => from > 0 && Sought(lines, [context], cursor, false, Some(from - 1))
  }

  /** A chunk without old lines goes to the end, or before a final blank line, and leaves the search where it
      has begun. One with old lines takes those out where the search finds them, or if it does not and the
      last is blank, where it finds the others, then without a final blank line of its own; and the search
      goes on behind. */
  ghost predicate IsPlacement(lines: seq<string>, chunk: Chunk, from: nat, p: Placement) {
    var r, pattern, added := p.replacement, StripAllCr(chunk.oldLines), StripAllCr(chunk.newLines);
    if chunk.oldLines == [] then
      && p.cursor == from && r.oldLen == 0 && r.newLines == added
      && r.start == if lines != [] && lines[|lines| - 1] == "" then |lines| - 1 else |lines|
    else
      && p.cursor == r.start + r.oldLen
      && if Sought(lines, pattern, from, chunk.isEndOfFile, None) then
           && pattern[|pattern| - 1] == "" && r.oldLen == |pattern| - 1
           && Sought(lines, pattern[..|pattern| - 1], from, chunk.isEndOfFile, Some(r.start))
           && (if added != [] && added[|added| - 1] == "" then r.newLines == added[..|added| - 1] else r.newLines == added)
         else
           r.oldLen == |pattern| && r.newLines == added && Sought(lines, pattern, from, chunk.isEndOfFile, Some(r.start))
  }

  /** Which placement a chunk gets. */
  lemma PlacementIff(lines: seq<string>, chunk: Chunk, cursor: nat, p: Placement)
    ensures PlaceChunk(lines, chunk, cursor) == Ok(p)
            <==> exists from: nat :: SearchBegins(lines, chunk, cursor, from) && IsPlacement(lines, chunk, from, p)
  {
    hide Sought, Seek, IsPlacement, PlaceChunk;
    SearchBeginsIff(lines, chunk, cursor);
    var at := SkipContext(lines, chunk, cursor);
    if at.Some? {
      PlacementFrom(lines, chunk, cursor, at.value, p);
    } else {
      NoContextNoPlacement(lines, chunk, cursor);
    }
  }

  lemma NoContextNoPlacement(lines: seq<string>, chunk: Chunk, cursor: nat)
    ensures SkipContext(lines, chunk, cursor).None? ==> PlaceChunk(lines, chunk, cursor).Err?
  {
    hide Seek, PlaceOldLines;
  }

  lemma SeekIff(lines: seq<string>, pattern: seq<string>, start: nat, eof: bool, r: Option<nat>)
    ensures Sought(lines, pattern, start, eof, r) <==> Seek(lines, pattern, start, eof) == r
  {
    hide Seek;
    if Sought(lines, pattern, start, eof, r) {
      SoughtIsUnique(lines, pattern, start, eof, r, Seek(lines, pattern, start, eof));
    }
  }

  lemma SearchBeginsIff(lines: seq<string>, chunk: Chunk, cursor: nat)
    ensures forall from: nat :: SearchBegins(lines, chunk, cursor, from) <==> SkipContext(lines, chunk, cursor) == Some(from)
  {
    hide Seek, Sought;
    if chunk.changeContext.Some? {
      var context := [chunk.changeContext.value];
      forall i: nat ensures Sought(lines, context, cursor, false, Some(i)) <==> Seek(lines, context, cursor, false) == Some(i) {
        SeekIff(lines, context, cursor, false, Some(i));
      }
    }
  }

  lemma PlacementFrom(lines: seq<string>, chunk: Chunk, cursor: nat, from: nat, p: Placement)
    requires SkipContext(lines, chunk, cursor) == Some(from)
    ensures PlaceChunk(lines, chunk, cursor) == Ok(p) <==> IsPlacement(lines, chunk, from, p)
  {
    hide Seek, Sought, SkipContext;
    if chunk.oldLines != [] {
      var pattern := StripAllCr(chunk.oldLines);
      SeekIff(lines, pattern, from, chunk.isEndOfFile, None);
      SeekIff(lines, pattern, from, chunk.isEndOfFile, Some(p.replacement.start));
      SeekIff(lines, DropLast(pattern), from, chunk.isEndOfFile, Some(p.replacement.start));
    }
  }

  /** The plan goes from chunk to chunk: each is placed by where the search was left by the one before. */
  ghost predicate IsPlan(lines: seq<string>, chunks: seq<Chunk>, cursors: seq<nat>, rs: seq<Replacement>) {
    && |cursors| == |chunks| + 1 && |rs| == |chunks|
    && forall i :: 0 <= i < |chunks| ==> PlaceChunk(lines, chunks[i], cursors[i]) == Ok(Placement(rs[i], cursors[i + 1]))
  }

  lemma {:induction false} PlanIff(lines: seq<string>, chunks: seq<Chunk>, cursor: nat, rs: seq<Replacement>)
    ensures Plan(lines, chunks, cursor) == Ok(rs)
            <==> exists cursors :: |cursors| > 0 && cursors[0] == cursor && IsPlan(lines, chunks, cursors, rs)
  {
    hide PlaceChunk;
    if Plan(lines, chunks, cursor) == Ok(rs) {
      var cursors := PlanCourse(lines, chunks, cursor);
    }
    if cursors :| |cursors| > 0 && cursors[0] == cursor && IsPlan(lines, chunks, cursors, rs) {
      CourseIsPlan(lines, chunks, cursors, rs);
    }
  }

  lemma {:induction false} PlanCourse(lines: seq<string>, chunks: seq<Chunk>, cursor: nat) returns (cursors: seq<nat>)
    requires Plan(lines, chunks, cursor).Ok?
    ensures |cursors| > 0 && cursors[0] == cursor && IsPlan(lines, chunks, cursors, Plan(lines, chunks, cursor).value)
  {
    hide PlaceChunk;
    if chunks == [] {
      return [cursor];
    }
    var next := PlaceChunk(lines, chunks[0], cursor).value.cursor;
    var more := PlanCourse(lines, chunks[1..], next);
    cursors := [cursor] + more;
    var rs, rest := Plan(lines, chunks, cursor).value, Plan(lines, chunks[1..], next).value;
    forall i | 0 <= i < |chunks|
      ensures PlaceChunk(lines, chunks[i], cursors[i]) == Ok(Placement(rs[i], cursors[i + 1]))
    {
      if i > 0 {
        assert chunks[i] == chunks[1..][i - 1] && rs[i] == rest[i - 1] && cursors[i] == more[i - 1];
      }
    }
  }

  lemma {:induction false} CourseIsPlan(lines: seq<string>, chunks: seq<Chunk>, cursors: seq<nat>, rs: seq<Replacement>)
    requires IsPlan(lines, chunks, cursors, rs)
    ensures Plan(lines, chunks, cursors[0]) == Ok(rs)
  {
    hide PlaceChunk;
    if chunks != [] {
      assert PlaceChunk(lines, chunks[0], cursors[0]) == Ok(Placement(rs[0], cursors[1]));
      CourseIsPlan(lines, chunks[1..], cursors[1..], rs[1..]);
      assert rs == [rs[0]] + rs[1..];
    }
  }

  /** A chunk stands behind its context, or behind the cursor when it has none, unless it is marked
      end-of-file and has too many lines for what is left of the file there. A pure addition does unless
      the search has passed a final blank line, before which it goes. */
  lemma StandsBehindContextIff(lines: seq<string>, chunk: Chunk, cursor: nat)
    requires cursor <= |lines| && PlaceChunk(lines, chunk, cursor).Ok?
    ensures var from := SkipContext(lines, chunk, cursor).value;
            var r := PlaceChunk(lines, chunk, cursor).value.replacement;
            && (!PureAddition(chunk) ==> |chunk.oldLines| - 1 <= r.oldLen <= |chunk.oldLines|)
            && (from <= r.start <==>
                if PureAddition(chunk) then !LastIsEmpty(lines) || from < |lines|
                else !chunk.isEndOfFile || from <= |lines| - r.oldLen)
  {
    hide Seek;
    SkipContextBounds(lines, chunk, cursor);
    if !PureAddition(chunk) {
      PlaceOldLinesBounds(lines, chunk, SkipContext(lines, chunk, cursor).value);
    }
  }

  /** An end-of-file chunk that is placed on its own context line: that is "b", line 1, behind which
      nothing is left, and the chunk's "b" is line 1 again. */
  lemma EndOfFileChunkOnItsContext()
    ensures var lines, chunk := ["a", "b"], Chunk(Some("b"), ["b"], ["c"], true);
            && SkipContext(lines, chunk, 0) == Some(2)
            && PlaceChunk(lines, chunk, 0) == Ok(Placement(Replacement(1, 1, ["c"]), 2))
  {
    hide Seek;
    var lines, pattern := ["a", "b"], ["b"];
    assert StripAllCr(pattern) == pattern && StripAllCr(["c"]) == ["c"];
    assert Key(Exact, lines[0 + 0]) != Key(Exact, pattern[0]);
    ExactMatchWins(lines, pattern, 0, false, 1);
    ExactMatchWins(lines, pattern, 2, true, 1);
  }

  /** For every chunk list whatsoever, no replacement reaches outside the file. */
  lemma {:induction false} PlanStaysInFile(lines: seq<string>, chunks: seq<Chunk>, cursor: nat)
    requires cursor <= |lines| && Plan(lines, chunks, cursor).Ok?
    ensures InFile(Plan(lines, chunks, cursor).value, |lines|)
  {
    hide PlaceChunk;
    if chunks != [] {
      PlaceChunkBounds(lines, chunks[0], cursor);
      PlanStaysInFile(lines, chunks[1..], PlaceChunk(lines, chunks[0], cursor).value.cursor);
    }
  }

  // Chunks of context lines only

  /** Where a chunk's lines stand exactly as they are, for the first time from where they are looked for. */
  ghost function ExactPlace(lines: seq<string>, chunk: Chunk, from: nat): Option<nat> {
    var pattern := StripAllCr(chunk.oldLines);
    Leftmost(Exact, lines, pattern, SearchStart(lines, pattern, from, chunk.isEndOfFile))
  }

  /** Each chunk only restates lines, and they do stand somewhere from where it is looked for. */
  ghost predicate RestatedFrom(lines: seq<string>, chunks: seq<Chunk>, cursor: nat) {
    chunks == []
    || (var from := SkipContext(lines, chunks[0], cursor);
        && chunks[0].oldLines == chunks[0].newLines != []
        && from.Some?
        && var at := ExactPlace(lines, chunks[0], from.value);
           at.Some? && RestatedFrom(lines, chunks[1..], at.value + |chunks[0].oldLines|))
  }

  lemma ExactLinesAre(lines: seq<string>, pattern: seq<string>, i: nat)
    requires MatchesAt(Exact, lines, pattern, i)
    ensures i + |pattern| <= |lines| && pattern == lines[i..i + |pattern|]
  {
    assert forall k :: 0 <= k < |pattern| ==> Key(Exact, lines[i + k]) == Key(Exact, pattern[k]);
  }

  lemma RestatedChunkIsPlaced(lines: seq<string>, chunk: Chunk, cursor: nat, at: nat)
    requires chunk.oldLines == chunk.newLines != [] && SkipContext(lines, chunk, cursor).Some?
    requires ExactPlace(lines, chunk, SkipContext(lines, chunk, cursor).value) == Some(at)
    ensures at + |chunk.oldLines| <= |lines|
    ensures PlaceChunk(lines, chunk, cursor)
            == Ok(Placement(Replacement(at, |chunk.oldLines|, lines[at..at + |chunk.oldLines|]), at + |chunk.oldLines|))
  {
    hide Seek, Leftmost, MatchesAt, SkipContext;
    var pattern := StripAllCr(chunk.oldLines);
    ExactMatchWins(lines, pattern, SkipContext(lines, chunk, cursor).value, chunk.isEndOfFile, at);
    ExactLinesAre(lines, pattern, at);
  }

  /** Each replacement puts back exactly the lines it takes out. */
  ghost predicate ReplacesByTheSame(lines: seq<string>, rs: seq<Replacement>) {
    forall r :: r in rs ==> r.End() <= |lines| && r.newLines == lines[r.start..r.End()]
  }

  /** Such chunks all find a place, where they put back the lines they take out. */
  lemma {:induction false} RestatedLinesComeBack(lines: seq<string>, chunks: seq<Chunk>, cursor: nat)
    requires RestatedFrom(lines, chunks, cursor)
    ensures Plan(lines, chunks, cursor).Ok? && ReplacesByTheSame(lines, Plan(lines, chunks, cursor).value)
  {
    hide SkipContext, ExactPlace, PlaceChunk;
    if chunks != [] {
      var at := ExactPlace(lines, chunks[0], SkipContext(lines, chunks[0], cursor).value).value;
      RestatedChunkIsPlaced(lines, chunks[0], cursor, at);
      RestatedLinesComeBack(lines, chunks[1..], at + |chunks[0].oldLines|);
    }
  }

  /** The chunk restates lines that stand at `i`, from `from` on; its context stands between the two. */
  ghost predicate StandsAt(lines: seq<string>, chunk: Chunk, from: nat, i: nat) {
    && chunk.oldLines == chunk.newLines != []
    && MatchesAt(Exact, lines, StripAllCr(chunk.oldLines), i)
    && (chunk.isEndOfFile ==> i + |chunk.oldLines| == |lines|)
    && match chunk.changeContext
       case None => from <= i
       case Some(context) => exists k :: from <= k < i && MatchesAt(Exact, lines, [context], k)
  }

  /** The chunks restate lines of the file, one after the other. */
  ghost predicate StandInOrder(lines: seq<string>, chunks: seq<Chunk>, from: nat) {
    chunks == []
    || exists i: nat :: StandsAt(lines, chunks[0], from, i) && StandInOrder(lines, chunks[1..], i + |chunks[0].oldLines|)
  }

  lemma StandInOrderEarlier(lines: seq<string>, chunks: seq<Chunk>, from: nat, earlier: nat)
    requires StandInOrder(lines, chunks, from) && earlier <= from
    ensures StandInOrder(lines, chunks, earlier)
  {
    hide MatchesAt;
    if chunks != [] {
      var i: nat :| StandsAt(lines, chunks[0], from, i) && StandInOrder(lines, chunks[1..], i + |chunks[0].oldLines|);
      assert StandsAt(lines, chunks[0], earlier, i);
    }
  }

  lemma LeftmostExactWins(lines: seq<string>, pattern: seq<string>, start: nat, eof: bool, i: nat)
    requires pattern != [] && MatchesAt(Exact, lines, pattern, i)
    requires SearchStart(lines, pattern, start, eof) <= i
    ensures var at := Leftmost(Exact, lines, pattern, SearchStart(lines, pattern, start, eof));
            at.Some? && at.value <= i && Seek(lines, pattern, start, eof) == at
  {
    hide MatchesAt, Seek;
    var at := Leftmost(Exact, lines, pattern, SearchStart(lines, pattern, start, eof));
    ExactMatchWins(lines, pattern, start, eof, at.value);
  }

  /** A chunk that stands at `i` is found there or further left. */
  lemma StandingChunkIsFound(lines: seq<string>, chunk: Chunk, from: nat, i: nat)
    requires StandsAt(lines, chunk, from, i)
    ensures SkipContext(lines, chunk, from).Some?
    ensures var at := ExactPlace(lines, chunk, SkipContext(lines, chunk, from).value); at.Some? && at.value <= i
  {
    hide MatchesAt, Seek, Leftmost;
    if chunk.changeContext.Some? {
      var context := [chunk.changeContext.value];
      var k :| from <= k < i && MatchesAt(Exact, lines, context, k);
      LeftmostExactWins(lines, context, from, false, k);
    }
    var pattern := StripAllCr(chunk.oldLines);
    LeftmostExactWins(lines, pattern, SkipContext(lines, chunk, from).value, chunk.isEndOfFile, i);
  }

  /** The search is greedy and misses none of them: whatever each chunk takes, it leaves the lines of
      the later ones ahead. */
  lemma {:induction false} StandInOrderIsRestated(lines: seq<string>, chunks: seq<Chunk>, cursor: nat)
    requires StandInOrder(lines, chunks, cursor)
    ensures RestatedFrom(lines, chunks, cursor)
  {
    hide StandsAt, SkipContext, ExactPlace;
    if chunks != [] {
      var i: nat :| StandsAt(lines, chunks[0], cursor, i) && StandInOrder(lines, chunks[1..], i + |chunks[0].oldLines|);
      StandingChunkIsFound(lines, chunks[0], cursor, i);
      var at := ExactPlace(lines, chunks[0], SkipContext(lines, chunks[0], cursor).value).value;
      StandInOrderEarlier(lines, chunks[1..], i + |chunks[0].oldLines|, at + |chunks[0].oldLines|);
      StandInOrderIsRestated(lines, chunks[1..], at + |chunks[0].oldLines|);
      assert chunks[0].oldLines == chunks[0].newLines != [] by { StandsAtRestates(lines, chunks[0], cursor, i); }
    }
  }

  lemma StandsAtRestates(lines: seq<string>, chunk: Chunk, from: nat, i: nat)
    requires StandsAt(lines, chunk, from, i)
    ensures chunk.oldLines == chunk.newLines != []
  {
  }

  /** What is known of the `k`-th entry of a plan made from `cursor` on. */
  ghost predicate EntryBounds(lines: seq<string>, chunk: Chunk, r: Replacement, cursor: nat) {
    && r.End() <= |lines|
    && if PureAddition(chunk) then r.start == r.End() == InsertionIndex(lines)
       else && (r.start < cursor ==> chunk.isEndOfFile && r.End() == |lines|)
            && (chunk.isEndOfFile && r.oldLen > 0 ==> r.End() == |lines|)
  }

  lemma {:induction false} PlanEntryBounds(lines: seq<string>, chunks: seq<Chunk>, cursor: nat, k: nat)
    requires cursor <= |lines| && Plan(lines, chunks, cursor).Ok? && k < |chunks|
    ensures EntryBounds(lines, chunks[k], Plan(lines, chunks, cursor).value[k], cursor)
  {
    hide PlaceChunk;
    PlaceChunkBounds(lines, chunks[0], cursor);
    if k > 0 {
      PlanEntryBounds(lines, chunks[1..], PlaceChunk(lines, chunks[0], cursor).value.cursor, k - 1);
    }
  }

  /** Of two located chunks, the later one starts after the earlier one's region, unless it is an
      end-of-file chunk. */
  lemma {:induction false} LaterStartsAfter(lines: seq<string>, chunks: seq<Chunk>, cursor: nat, i: nat, j: nat)
    requires cursor <= |lines| && Plan(lines, chunks, cursor).Ok? && i < j < |chunks|
    requires !PureAddition(chunks[i]) && !PureAddition(chunks[j])
    ensures var rs := Plan(lines, chunks, cursor).value;
            rs[j].start < rs[i].End() ==> chunks[j].isEndOfFile && rs[j].End() == |lines|
  {
    hide PlaceChunk;
    PlaceChunkBounds(lines, chunks[0], cursor);
    var next := PlaceChunk(lines, chunks[0], cursor).value.cursor;
    if i == 0 {
      PlanEntryBounds(lines, chunks[1..], next, j - 1);
    } else {
      LaterStartsAfter(lines, chunks[1..], next, i - 1, j - 1);
    }
  }

  /** Two chunks clash only through one of two branches of the code: an end-of-file chunk placed
      without regard to the cursor, or a pure addition put before a final blank line. */
  lemma ClashNeedsGuard(lines: seq<string>, chunks: seq<Chunk>, i: nat, j: nat)
    requires Plan(lines, chunks, 0).Ok? && i < j < |chunks|
    requires !Compatible(Plan(lines, chunks, 0).value[i], Plan(lines, chunks, 0).value[j])
    ensures || (chunks[j].isEndOfFile && !PureAddition(chunks[i]) && !PureAddition(chunks[j]))
            || (LastIsEmpty(lines) && (PureAddition(chunks[i]) != PureAddition(chunks[j])))
  {
    hide Plan;
    PlanEntryBounds(lines, chunks, 0, i);
    PlanEntryBounds(lines, chunks, 0, j);
    if !PureAddition(chunks[i]) && !PureAddition(chunks[j]) {
      LaterStartsAfter(lines, chunks, 0, i, j);
    }
  }

  /** Some chunk replaces a final blank line that a pure addition is to go before: it is planned
      first, or its region starts above that line. */
  ghost predicate AdditionMeetsRegion(lines: seq<string>, chunks: seq<Chunk>, rs: seq<Replacement>)
    requires |rs| == |chunks|
  {
    LastIsEmpty(lines) && exists i, j :: AdditionMeetsRegionAt(lines, chunks, rs, i, j)
  }

  ghost predicate AdditionMeetsRegionAt(lines: seq<string>, chunks: seq<Chunk>, rs: seq<Replacement>, i: nat, j: nat)
    requires |rs| == |chunks|
  {
    && i < |chunks| && PureAddition(chunks[i])
    && j < |chunks| && !PureAddition(chunks[j])
    && rs[j].oldLen > 0 && rs[j].End() == |lines|
    && (j < i || rs[j].start < |lines| - 1)
  }

  lemma AdditionCompatibleIff(lines: seq<string>, chunks: seq<Chunk>, i: nat, j: nat)
    requires Plan(lines, chunks, 0).Ok? && LastIsEmpty(lines)
    requires i < |chunks| && j < |chunks| && i != j
    requires PureAddition(chunks[i]) && !PureAddition(chunks[j])
    ensures var rs := Plan(lines, chunks, 0).value;
            AdditionMeetsRegionAt(lines, chunks, rs, i, j)
            <==> !(if i < j then Compatible(rs[i], rs[j]) else Compatible(rs[j], rs[i]))
  {
    hide Plan;
    PlanEntryBounds(lines, chunks, 0, i);
    PlanEntryBounds(lines, chunks, 0, j);
  }

  /** An end-of-file chunk reaches back over what an earlier chunk replaces: the lines it takes out, as
      many as it has counted from the end of the file, begin before that region ends. */
  ghost predicate EofMeetsRegion(lines: seq<string>, chunks: seq<Chunk>, rs: seq<Replacement>)
    requires |rs| == |chunks|
  {
    exists i, j :: EofMeetsRegionAt(lines, chunks, rs, i, j)
  }

  ghost predicate EofMeetsRegionAt(lines: seq<string>, chunks: seq<Chunk>, rs: seq<Replacement>, i: nat, j: nat)
    requires |rs| == |chunks|
  {
    && i < j < |chunks| && !PureAddition(chunks[i]) && !PureAddition(chunks[j])
    && chunks[j].isEndOfFile && rs[j].oldLen > 0
    && |lines| - rs[j].oldLen < rs[i].End() && rs[i].start < |lines|
  }

  lemma EofCompatibleIff(lines: seq<string>, chunks: seq<Chunk>, i: nat, j: nat)
    requires Plan(lines, chunks, 0).Ok? && i < j < |chunks|
    requires !PureAddition(chunks[i]) && !PureAddition(chunks[j])
    ensures var rs := Plan(lines, chunks, 0).value;
            EofMeetsRegionAt(lines, chunks, rs, i, j) <==> !Compatible(rs[i], rs[j])
  {
    hide Plan;
    PlanEntryBounds(lines, chunks, 0, i);
    PlanEntryBounds(lines, chunks, 0, j);
    LaterStartsAfter(lines, chunks, 0, i, j);
  }

  /** For every chunk list, the listed regions are disjoint if and only if neither of the two branches
      does harm: no pure addition meets a region that covers the final blank line, and no end-of-file
      chunk reaches back over an earlier region. */
  lemma DisjointIff(lines: seq<string>, chunks: seq<Chunk>)
    requires Plan(lines, chunks, 0).Ok?
    ensures var rs := Plan(lines, chunks, 0).value;
            Disjoint(SortByStart(rs)) <==> !AdditionMeetsRegion(lines, chunks, rs) && !EofMeetsRegion(lines, chunks, rs)
  {
    hide Plan, SortByStart, Disjoint;
    var rs := Plan(lines, chunks, 0).value;
    SortedDisjointIff(rs);
    if AdditionMeetsRegion(lines, chunks, rs) {
      var i, j :| AdditionMeetsRegionAt(lines, chunks, rs, i, j);
      AdditionCompatibleIff(lines, chunks, i, j);
    } else if EofMeetsRegion(lines, chunks, rs) {
      var i, j :| EofMeetsRegionAt(lines, chunks, rs, i, j);
      EofCompatibleIff(lines, chunks, i, j);
    } else {
      hide Compatible, EofMeetsRegionAt, AdditionMeetsRegionAt, PureAddition;
      forall i, j | 0 <= i < j < |rs| ensures Compatible(rs[i], rs[j]) {
        NothingMeetsSoCompatible(lines, chunks, i, j);
      }
    }
  }

  lemma NothingMeetsSoCompatible(lines: seq<string>, chunks: seq<Chunk>, i: nat, j: nat)
    requires Plan(lines, chunks, 0).Ok? && i < j < |chunks|
    requires !AdditionMeetsRegion(lines, chunks, Plan(lines, chunks, 0).value)
    requires !EofMeetsRegion(lines, chunks, Plan(lines, chunks, 0).value)
    ensures Compatible(Plan(lines, chunks, 0).value[i], Plan(lines, chunks, 0).value[j])
  {
    hide Plan;
    var rs := Plan(lines, chunks, 0).value;
    if !Compatible(rs[i], rs[j]) {
      hide Compatible;
      ClashNeedsGuard(lines, chunks, i, j);
      if !PureAddition(chunks[i]) && !PureAddition(chunks[j]) {
        EofCompatibleIff(lines, chunks, i, j);
      } else if PureAddition(chunks[i]) {
        AdditionCompatibleIff(lines, chunks, i, j);
      } else {
        AdditionCompatibleIff(lines, chunks, j, i);
      }
    }
  }

  /** The part of `compute_replacements` that looks for a chunk's old lines, and once more without
      a final blank line when that fails. */
  method FindOldLines(lines: seq<string>, chunk: Chunk, lineIndex: nat) returns (r: Result<Placement, ReplaceError>)
    ensures r == PlaceOldLines(lines, chunk, lineIndex)
  {
    hide Seek, Sought, StripAllCr, DropLastIfEmpty;
    var wanted := StripAllCr(chunk.oldLines);
    var pattern := wanted;
    var added := StripAllCr(chunk.newLines);
    var found := SeekSequence.SeekSequence(lines, pattern, lineIndex, chunk.isEndOfFile);
    if found.None? && LastIsEmpty(pattern) {
      pattern := DropLast(pattern);
      added := DropLastIfEmpty(added);
      found := SeekSequence.SeekSequence(lines, pattern, lineIndex, chunk.isEndOfFile);
    }
    if found.None? {
      return Err(LinesNotFound(wanted));
    }
    return Ok(Placement(Replacement(found.value, |pattern|, added), found.value + |pattern|));
  }

  /** `compute_replacements` */
  method ComputeReplacements(lines: seq<string>, chunks: seq<Chunk>)
    returns (r: Result<seq<Replacement>, ReplaceError>)
    ensures r == match Plan(lines, chunks, 0)
                 case Ok(rs) => Ok(SortByStart(rs))
                 case Err(e) => Err(e)
  {
    hide Seek, PlaceOldLines, SortByStart;
    var replacements: seq<Replacement> := [];
    var lineIndex: nat := 0;
    ghost var plan := Plan(lines, chunks, 0);
    assert chunks[0..] == chunks;
    PrependNothing(plan);
    for i := 0 to |chunks|
      invariant plan == Prepend(replacements, Plan(lines, chunks[i..], lineIndex))
    {
      var chunk := chunks[i];
      assert chunks[i..][0] == chunk && chunks[i..][1..] == chunks[i + 1..];
      ghost var before := lineIndex;
      if chunk.changeContext.Some? {
        var found := SeekSequence.SeekSequence(lines, [chunk.changeContext.value], lineIndex, false);
        if found.None? {
          return Err(ContextNotFound(chunk.changeContext.value));
        }
        lineIndex := found.value + 1;
      }
      assert SkipContext(lines, chunk, before) == Some(lineIndex);
      var placement := Placement(Replacement(InsertionIndex(lines), 0, StripAllCr(chunk.newLines)), lineIndex);
      if chunk.oldLines != [] {
        var located := FindOldLines(lines, chunk, lineIndex);
        if located.Err? {
          return Err(located.error);
        }
        placement := located.value;
      }
      assert PlaceChunk(lines, chunk, before) == Ok(placement);
      PrependPrepend(replacements, [placement.replacement], Plan(lines, chunks[i + 1..], placement.cursor));
      replacements := replacements + [placement.replacement];
      lineIndex := placement.cursor;
    }
    assert chunks[|chunks|..] == [] && replacements + [] == replacements;
    return Ok(SortByStart(replacements));
  }
}
