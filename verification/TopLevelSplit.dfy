/** The quote- and bracket-aware splitter with which generated TypeScript is filtered. */
module TopLevelSplit {
  import opened Results
  import opened Text

  // Scanning

  datatype Scan = Scan(brace: nat, bracket: nat, paren: nat, angle: nat, stringDelim: Option<char>, escape: bool)

  const START := Scan(0, 0, 0, 0, None, false)

  function Lower(n: nat): nat {
    if n > 0 then n - 1 else 0
  }

  /** `ScanState::observe` */
  function Observed(s: Scan, ch: char): Scan {
    if s.stringDelim.Some? then
      if s.escape then s.(escape := false)
      else if ch == '\\' then s.(escape := true)
      else if ch == s.stringDelim.value then s.(stringDelim := None)
      else s
    else if ch == '\"' || ch == '\'' then s.(stringDelim := Some(ch))
    else if ch == '{' then s.(brace := s.brace + 1)
    else if ch == '}' then s.(brace := Lower(s.brace))
    else if ch == '[' then s.(bracket := s.bracket + 1)
    else if ch == ']' then s.(bracket := Lower(s.bracket))
    else if ch == '(' then s.(paren := s.paren + 1)
    else if ch == ')' then s.(paren := Lower(s.paren))
    else if ch == '<' then s.(angle := s.angle + 1)
    else if ch == '>' then s.(angle := Lower(s.angle))
    else s
  }

  predicate AtTopLevel(s: Scan) {
    s.stringDelim.None? && s.brace == 0 && s.bracket == 0 && s.paren == 0 && s.angle == 0
  }

  class ScanState {
    var brace: nat
    var bracket: nat
    var paren: nat
    var angle: nat
    var stringDelim: Option<char>
    var escape: bool

    constructor ()
      ensures State() == START
    {
      brace, bracket, paren, angle, stringDelim, escape := 0, 0, 0, 0, None, false;
    }

    function State(): Scan
      reads this
    {
      Scan(brace, bracket, paren, angle, stringDelim, escape)
    }

    method Observe(ch: char)
      modifies this
      ensures State() == Observed(old(State()), ch)
    {
      if stringDelim.Some? {
        if escape {
          escape := false;
          return;
        }
        if ch == '\\' {
          escape := true;
          return;
        }
        if ch == stringDelim.value {
          stringDelim := None;
        }
        return;
      }
      if ch == '\"' || ch == '\'' { stringDelim := Some(ch); }
      else if ch == '{' { brace := brace + 1; }
      else if ch == '}' { brace := Lower(brace); }
      else if ch == '[' { bracket := bracket + 1; }
      else if ch == ']' { bracket := Lower(bracket); }
      else if ch == '(' { paren := paren + 1; }
      else if ch == ')' { paren := Lower(paren); }
      else if ch == '<' { angle := angle + 1; }
      else if ch == '>' { if angle > 0 { angle := angle - 1; } }
    }
  }

  /** The state after a whole text. */
  function Scanned(s: Scan, text: string): Scan
    decreases |text|
  {
    if text == "" then s else Scanned(Observed(s, text[0]), text[1..])
  }

  // Splitting

  predicate SplitsAt(s: Scan, ch: char, delimiters: set<char>) {
    AtTopLevel(s) && ch in delimiters
  }

  function PrependFirst(front: string, pieces: seq<string>): seq<string>
    requires pieces != []
  {
    [front + pieces[0]] + pieces[1..]
  }

  /** The pieces between top-level delimiters, as they stand in the text. */
  function Pieces(s: Scan, text: string, delimiters: set<char>): (r: seq<string>)
    ensures r != []
    decreases |text|
  {
    if text == "" then [""]
    else
      var rest := Pieces(Observed(s, text[0]), text[1..], delimiters);
      if SplitsAt(s, text[0], delimiters) then [""] + rest else PrependFirst([text[0]], rest)
  }

  /** The pieces trimmed, and the blank ones left out. */
  function Parts(pieces: seq<string>): seq<string> {
    if pieces == [] then []
    else (if Trim(pieces[0]) == "" then [] else [Trim(pieces[0])]) + Parts(pieces[1..])
  }

  function SplitParts(text: string, delimiters: set<char>): seq<string> {
    Parts(Pieces(START, text, delimiters))
  }

  function PartOf(piece: string): seq<string> {
    if Trim(piece) == "" then [] else [Trim(piece)]
  }

  /** `split_top_level_multi` */
  method SplitTopLevelMulti(input: string, delimiters: set<char>) returns (parts: seq<string>)
    ensures parts == SplitParts(input, delimiters)
  {
    hide Trim, Observed, Pieces, Parts;
    var state := new ScanState();
    var start := 0;
    parts := [];
    assert input[0..] == input && input[0..0] == "";
    SplitBegins(input, delimiters);
    for index := 0 to |input|
      invariant 0 <= start <= index
      invariant fresh(state)
      invariant SplitParts(input, delimiters)
                == parts + Parts(PrependFirst(input[start..index], Pieces(state.State(), input[index..], delimiters)))
    {
      var ch := input[index];
      SplitStep(state.State(), input[start..index], input[index..], delimiters);
      assert input[index..][0] == ch && input[index..][1..] == input[index + 1..];
      if state.stringDelim.None? && AtTopLevel(state.State()) && ch in delimiters {
        var part := Trim(input[start..index]);
        if part != "" {
          parts := parts + [part];
        }
        start := index + 1;
        assert input[start..index + 1] == "";
      } else {
        assert input[start..index] + [ch] == input[start..index + 1];
      }
      state.Observe(ch);
    }
    var tail := Trim(input[start..]);
    assert input[start..|input|] == input[start..];
    SplitEnds(state.State(), input[start..], delimiters);
    assert input[|input|..] == "";
    if tail != "" {
      parts := parts + [tail];
    }
  }

  lemma SplitBegins(input: string, delimiters: set<char>)
    ensures SplitParts(input, delimiters) == [] + Parts(PrependFirst("", Pieces(START, input, delimiters)))
  {
    PrependNothing(Pieces(START, input, delimiters));
  }

  lemma PrependNothing(pieces: seq<string>)
    requires pieces != []
    ensures PrependFirst("", pieces) == pieces
  {
    assert "" + pieces[0] == pieces[0];
  }

  lemma PrependTwice(a: string, b: string, pieces: seq<string>)
    requires pieces != []
    ensures PrependFirst(a, PrependFirst(b, pieces)) == PrependFirst(a + b, pieces)
  {
    assert a + (b + pieces[0]) == a + b + pieces[0];
  }

  /** One round of the loop, on what is still to be split. */
  lemma SplitStep(s: Scan, piece: string, text: string, delimiters: set<char>)
    requires text != ""
    ensures var rest := Pieces(Observed(s, text[0]), text[1..], delimiters);
            Parts(PrependFirst(piece, Pieces(s, text, delimiters)))
            == if SplitsAt(s, text[0], delimiters) then PartOf(piece) + Parts(PrependFirst("", rest))
               else Parts(PrependFirst(piece + [text[0]], rest))
  {
    hide Trim, Observed;
    var rest := Pieces(Observed(s, text[0]), text[1..], delimiters);
    PrependNothing(rest);
    if SplitsAt(s, text[0], delimiters) {
      assert PrependFirst(piece, [""] + rest) == [piece] + rest by { assert piece + "" == piece; }
      assert ([piece] + rest)[1..] == rest;
    } else {
      PrependTwice(piece, [text[0]], rest);
    }
  }

  lemma SplitEnds(s: Scan, piece: string, delimiters: set<char>)
    ensures Parts(PrependFirst(piece, Pieces(s, "", delimiters))) == PartOf(piece)
  {
    hide Trim;
    assert piece + "" == piece;
    assert PrependFirst(piece, [""]) == [piece];
    assert Parts([piece][1..]) == [];
  }

  // What a part is

  /** A text with no top-level delimiter, scanned from the start. */
  predicate Whole(text: string, delimiters: set<char>) {
    Uncut(START, text, delimiters)
  }

  predicate Uncut(s: Scan, text: string, delimiters: set<char>)
    decreases |text|
  {
    text == "" || (!SplitsAt(s, text[0], delimiters) && Uncut(Observed(s, text[0]), text[1..], delimiters))
  }

  /** A text that leaves every bracket and string closed. */
  predicate ClosedText(text: string) {
    Scanned(START, text) == START
  }

  predicate TrimmedText(text: string) {
    text != "" && !IsWhitespace(text[0]) && !IsWhitespace(text[|text| - 1])
  }

  /** A list that splitting can yield: whole, trimmed texts, of which only the last may be open. */
  ghost predicate IsPartList(parts: seq<string>, delimiters: set<char>) {
    && (forall i :: 0 <= i < |parts| ==> TrimmedText(parts[i]) && Whole(parts[i], delimiters))
    && (forall i :: 0 <= i < |parts| - 1 ==> ClosedText(parts[i]))
  }

  /** Delimiters that are no quotes and no brackets. */
  predicate Neutral(delimiters: set<char>) {
    forall d | d in delimiters :: Observed(START, d) == START
  }

  /** Outside a string there is no pending escape, and strings are delimited by quotes. */
  predicate Proper(s: Scan) {
    match s.stringDelim
    case None => !s.escape
    case Some(delim) => delim == '\"' || delim == '\''
  }

  lemma ObservedIsProper(s: Scan, ch: char)
    requires Proper(s)
    ensures Proper(Observed(s, ch))
  {
  }

  lemma {:induction false} ScannedConcat(s: Scan, a: string, b: string)
    ensures Scanned(s, a + b) == Scanned(Scanned(s, a), b)
    decreases |a|
  {
    hide Observed;
    if a == "" {
      assert a + b == b;
    } else {
      assert (a + b)[0] == a[0] && (a + b)[1..] == a[1..] + b;
      ScannedConcat(Observed(s, a[0]), a[1..], b);
    }
  }

  lemma {:induction false} UncutConcat(s: Scan, a: string, b: string, delimiters: set<char>)
    ensures Uncut(s, a + b, delimiters) <==> Uncut(s, a, delimiters) && Uncut(Scanned(s, a), b, delimiters)
    decreases |a|
  {
    hide Observed, SplitsAt;
    if a == "" {
      assert a + b == b;
    } else {
      assert (a + b)[0] == a[0] && (a + b)[1..] == a[1..] + b;
      UncutConcat(Observed(s, a[0]), a[1..], b, delimiters);
    }
  }

  lemma {:induction false} ScannedIsProper(s: Scan, text: string)
    requires Proper(s)
    ensures Proper(Scanned(s, text))
    decreases |text|
  {
    hide Observed;
    if text != "" {
      ObservedIsProper(s, text[0]);
      ScannedIsProper(Observed(s, text[0]), text[1..]);
    }
  }

  /** Whitespace changes nothing outside strings, and never ends one. */
  lemma WhitespaceIsInert(s: Scan, ch: char)
    requires IsWhitespace(ch) && Proper(s)
    ensures if s.stringDelim.None? then Observed(s, ch) == s else Observed(s, ch).stringDelim == s.stringDelim
  {
  }

  ghost predicate AllWhitespace(s: string) {
    forall c :: c in s ==> IsWhitespace(c)
  }

  lemma {:induction false} LeadingWhitespaceIsInert(space: string, text: string, delimiters: set<char>)
    requires AllWhitespace(space)
    ensures Scanned(START, space + text) == Scanned(START, text)
    ensures Whole(space + text, delimiters) ==> Whole(text, delimiters)
  {
    hide IsWhitespace, Observed;
    if space == "" {
      assert space + text == text;
    } else {
      assert (space + text)[0] == space[0] && (space + text)[1..] == space[1..] + text;
      WhitespaceIsInert(START, space[0]);
      LeadingWhitespaceIsInert(space[1..], text, delimiters);
    }
  }

  lemma {:induction false} TrailingWhitespaceIsInert(text: string, space: string)
    requires AllWhitespace(space) && ClosedText(text + space)
    ensures ClosedText(text)
    decreases |space|
  {
    hide IsWhitespace, Observed, Scanned;
    if space == "" {
      assert text + space == text;
    } else {
      var init, last := space[..|space| - 1], space[|space| - 1];
      assert text + space == (text + init) + [last];
      ScannedConcat(START, text + init, [last]);
      ScannedOne(Scanned(START, text + init), last);
      ScannedIsProper(START, text + init);
      WhitespaceIsInert(Scanned(START, text + init), last);
      TrailingWhitespaceIsInert(text, init);
    }
  }

  lemma ScannedOne(s: Scan, ch: char)
    ensures Scanned(s, [ch]) == Observed(s, ch)
  {
    assert Scanned(Observed(s, ch), [ch][1..]) == Observed(s, ch);
  }

  lemma TrimDecomposes(s: string) returns (left: string, right: string)
    ensures s == left + Trim(s) + right && AllWhitespace(left) && AllWhitespace(right)
  {
    hide IsWhitespace, AllWhitespace;
    right := EndDecomposes(s);
    left := StartDecomposes(TrimEnd(s));
    assert left + TrimStart(TrimEnd(s)) + right == s;
  }

  lemma EndDecomposes(s: string) returns (right: string)
    ensures s == TrimEnd(s) + right && AllWhitespace(right)
  {
    hide IsWhitespace;
    var n := |TrimEnd(s)|;
    right := s[n..];
    assert forall k :: 0 <= k < |right| ==> right[k] == s[n + k];
  }

  lemma StartDecomposes(s: string) returns (left: string)
    ensures s == left + TrimStart(s) && AllWhitespace(left)
  {
    hide IsWhitespace;
    var n := |s| - |TrimStart(s)|;
    left := s[..n];
    assert forall k :: 0 <= k < n ==> left[k] == s[k];
  }

  /** A part is whole, trimmed, and closed if its piece is. */
  lemma PartOfPiece(piece: string, delimiters: set<char>)
    requires Whole(piece, delimiters) && Trim(piece) != ""
    ensures TrimmedText(Trim(piece)) && Whole(Trim(piece), delimiters)
    ensures ClosedText(piece) ==> ClosedText(Trim(piece))
  {
    hide Trim, Uncut, Scanned, Observed, IsWhitespace;
    var left, right := TrimDecomposes(piece);
    var part := Trim(piece);
    assert piece == left + (part + right);
    LeadingWhitespaceIsInert(left, part + right, delimiters);
    UncutConcat(START, part, right, delimiters);
    if ClosedText(piece) {
      TrailingWhitespaceIsInert(part, right);
    }
  }

  /** Pieces are whole, and all but the last are closed. */
  ghost predicate IsPieceList(s: Scan, pieces: seq<string>, delimiters: set<char>)
    requires pieces != []
  {
    && Uncut(s, pieces[0], delimiters)
    && (|pieces| > 1 ==> Scanned(s, pieces[0]) == START)
    && (forall i :: 1 <= i < |pieces| ==> Whole(pieces[i], delimiters))
    && (forall i :: 1 <= i < |pieces| - 1 ==> ClosedText(pieces[i]))
  }

  lemma TopLevelIsStart(s: Scan)
    requires Proper(s) && AtTopLevel(s)
    ensures s == START
  {
  }

  lemma {:induction false} PiecesAreWhole(s: Scan, text: string, delimiters: set<char>)
    requires Proper(s) && Neutral(delimiters)
    ensures IsPieceList(s, Pieces(s, text, delimiters), delimiters)
    decreases |text|
  {
    hide Observed;
    if text == "" {
      return;
    }
    hide Uncut, Scanned;
    var next := Observed(s, text[0]);
    var rest := Pieces(next, text[1..], delimiters);
    ObservedIsProper(s, text[0]);
    PiecesAreWhole(next, text[1..], delimiters);
    if SplitsAt(s, text[0], delimiters) {
      TopLevelIsStart(s);
      assert next == START;
      CutInFront(rest, delimiters);
    } else {
      CharInFront(s, text[0], rest, delimiters);
    }
  }

  lemma CutInFront(rest: seq<string>, delimiters: set<char>)
    requires rest != [] && IsPieceList(START, rest, delimiters)
    ensures IsPieceList(START, [""] + rest, delimiters)
  {
    assert Uncut(START, "", delimiters) && Scanned(START, "") == START;
    hide Uncut, Scanned;
    var pieces := [""] + rest;
    assert forall i :: 1 <= i < |pieces| ==> pieces[i] == rest[i - 1];
  }

  lemma CharInFront(s: Scan, ch: char, rest: seq<string>, delimiters: set<char>)
    requires rest != [] && !SplitsAt(s, ch, delimiters) && IsPieceList(Observed(s, ch), rest, delimiters)
    ensures IsPieceList(s, PrependFirst([ch], rest), delimiters)
  {
    hide Observed, SplitsAt;
    var first := [ch] + rest[0];
    assert first[0] == ch && first[1..] == rest[0];
    assert Uncut(s, first, delimiters) && Scanned(s, first) == Scanned(Observed(s, ch), rest[0]);
    hide Uncut, Scanned;
    var pieces := PrependFirst([ch], rest);
    assert forall i :: 1 <= i < |pieces| ==> pieces[i] == rest[i];
  }

  lemma {:induction false} PartsArePartList(pieces: seq<string>, delimiters: set<char>)
    requires forall i :: 0 <= i < |pieces| ==> Whole(pieces[i], delimiters)
    requires forall i :: 0 <= i < |pieces| - 1 ==> ClosedText(pieces[i])
    ensures IsPartList(Parts(pieces), delimiters)
  {
    hide Trim, Uncut, Scanned, TrimmedText;
    if pieces != [] {
      PartsArePartList(pieces[1..], delimiters);
      if Trim(pieces[0]) != "" {
        PartOfPiece(pieces[0], delimiters);
        assert |Parts(pieces[1..])| > 0 ==> |pieces| > 1;
      }
    }
  }

  /** What splitting yields is a list of whole, trimmed texts, all but the last of them closed. */
  lemma SplitYieldsPartList(text: string, delimiters: set<char>)
    requires Neutral(delimiters)
    ensures IsPartList(SplitParts(text, delimiters), delimiters)
  {
    hide Pieces, Parts, Uncut, Scanned;
    PiecesAreWhole(START, text, delimiters);
    PartsArePartList(Pieces(START, text, delimiters), delimiters);
  }

  // Joining and splitting again

  lemma {:induction false} WholeBefore(s: Scan, text: string, rest: string, delimiters: set<char>)
    requires Uncut(s, text, delimiters)
    ensures Pieces(s, text + rest, delimiters) == PrependFirst(text, Pieces(Scanned(s, text), rest, delimiters))
    decreases |text|
  {
    hide Observed, SplitsAt;
    if text == "" {
      assert text + rest == rest;
      PrependNothing(Pieces(s, rest, delimiters));
      return;
    }
    var all := text + rest;
    assert all[0] == text[0] && all[1..] == text[1..] + rest;
    WholeBefore(Observed(s, text[0]), text[1..], rest, delimiters);
    PrependTwice([text[0]], text[1..], Pieces(Scanned(s, text), rest, delimiters));
    assert [text[0]] + text[1..] == text;
  }

  lemma TrimAfterSpace(ch: char, text: string)
    requires IsWhitespace(ch)
    ensures Trim([ch] + text) == Trim(text)
  {
    var e := TrimEnd(text);
    TrimEndAfter(ch, text);
    assert TrimEnd([ch]) == "" by { assert [ch][..0] == ""; }
    hide TrimEnd, IsWhitespace;
    assert ([ch] + e)[0] == ch && ([ch] + e)[1..] == e;
  }

  lemma {:induction false} TrimEndAfter(ch: char, text: string)
    ensures TrimEnd(text) != "" ==> TrimEnd([ch] + text) == [ch] + TrimEnd(text)
    ensures TrimEnd(text) == "" ==> TrimEnd([ch] + text) == TrimEnd([ch])
  {
    var all := [ch] + text;
    if text == "" {
      assert all == [ch];
    } else if IsWhitespace(text[|text| - 1]) {
      assert all[..|all| - 1] == [ch] + text[..|text| - 1];
      TrimEndAfter(ch, text[..|text| - 1]);
    }
  }

  lemma {:induction false} TrimOfPadded(part: string, space: string)
    requires TrimmedText(part) && AllWhitespace(space)
    ensures Trim(part + space) == part
  {
    hide Trim, IsWhitespace;
    assert "" + part == part;
    TrimPadded("", part, space);
  }

  lemma {:induction false} SpaceInFront(space: string, text: string, delimiters: set<char>)
    requires AllWhitespace(space) && Neutral(delimiters)
    ensures SplitParts(space + text, delimiters) == SplitParts(text, delimiters)
  {
    hide IsWhitespace, Observed, Trim;
    if space == "" {
      assert space + text == text;
      return;
    }
    SpaceInFront(space[1..], text, delimiters);
    var ch, tail := space[0], space[1..] + text;
    assert (space + text)[0] == ch && (space + text)[1..] == tail;
    WhitespaceIsInert(START, ch);
    var rest := Pieces(START, tail, delimiters);
    if ch in delimiters {
      assert ([""] + rest)[1..] == rest;
      BlankIsNoPart();
    } else {
      TrimAfterSpace(ch, rest[0]);
      assert PrependFirst([ch], rest)[1..] == rest[1..];
    }
  }

  lemma BlankIsNoPart()
    ensures Trim("") == ""
  {
  }

  lemma {:induction false} PadSplits(left: string, d: char, tail: string, delimiters: set<char>)
    requires AllWhitespace(left) && Neutral(delimiters) && d in delimiters
    ensures var pieces := Pieces(START, left + [d] + tail, delimiters);
            AllWhitespace(pieces[0]) && Parts(pieces[1..]) == SplitParts(tail, delimiters)
  {
    hide IsWhitespace, Observed, Trim;
    var text := left + [d] + tail;
    assert Observed(START, d) == START;
    if left == "" {
      assert text[0] == d && text[1..] == tail;
      assert ([""] + Pieces(START, tail, delimiters))[1..] == Pieces(START, tail, delimiters);
      return;
    }
    assert text[0] == left[0] && text[1..] == left[1..] + [d] + tail;
    WhitespaceIsInert(START, left[0]);
    PadSplits(left[1..], d, tail, delimiters);
    var rest := Pieces(START, text[1..], delimiters);
    if left[0] in delimiters {
      assert ([""] + rest)[1..] == rest;
      SpaceIsNoPart(rest[0]);
    } else {
      assert PrependFirst([left[0]], rest)[1..] == rest[1..];
    }
  }

  lemma SpaceIsNoPart(space: string)
    requires AllWhitespace(space)
    ensures Trim(space) == ""
  {
    var left, right := TrimDecomposes(space);
    assert forall c :: c in Trim(space) ==> c in space;
  }

  /** A part, a padded delimiter and a text split into the part and what the text splits into. */
  lemma PartInFront(part: string, left: string, d: char, right: string, text: string, delimiters: set<char>)
    requires TrimmedText(part) && Whole(part, delimiters) && ClosedText(part)
    requires AllWhitespace(left) && AllWhitespace(right) && Neutral(delimiters) && d in delimiters
    ensures SplitParts(part + (left + [d] + right) + text, delimiters) == [part] + SplitParts(text, delimiters)
  {
    hide Trim, Uncut, Scanned, Pieces, IsWhitespace, Observed;
    var tail := right + text;
    var rest := left + [d] + tail;
    assert part + (left + [d] + right) + text == part + rest;
    WholeBefore(START, part, rest, delimiters);
    PadSplits(left, d, tail, delimiters);
    SpaceInFront(right, text, delimiters);
    var pieces := Pieces(START, rest, delimiters);
    TrimOfPadded(part, pieces[0]);
    assert PrependFirst(part, pieces)[1..] == pieces[1..];
  }

  /** Any such list, joined by a padded delimiter, is split into itself again. */
  lemma {:induction false} SplitOfJoinedParts(parts: seq<string>, left: string, d: char, right: string, delimiters: set<char>)
    requires IsPartList(parts, delimiters)
    requires AllWhitespace(left) && AllWhitespace(right) && Neutral(delimiters) && d in delimiters
    ensures SplitParts(Join(parts, left + [d] + right), delimiters) == parts
  {
    hide Trim, Uncut, Scanned, Pieces, Parts, Neutral, AllWhitespace, TrimmedText;
    if parts == [] {
      NothingSplits(delimiters);
    } else if |parts| == 1 {
      OnePartSplits(parts[0], delimiters);
    } else {
      SplitOfJoinedParts(parts[1..], left, d, right, delimiters);
      PartInFront(parts[0], left, d, right, Join(parts[1..], left + [d] + right), delimiters);
    }
  }

  lemma NothingSplits(delimiters: set<char>)
    ensures SplitParts("", delimiters) == []
  {
    BlankIsNoPart();
    assert Parts([""][1..]) == [];
  }

  lemma OnePartSplits(part: string, delimiters: set<char>)
    requires TrimmedText(part) && Whole(part, delimiters)
    ensures SplitParts(part, delimiters) == [part]
  {
    WholeBefore(START, part, "", delimiters);
    TrimUntouched(part);
    hide Trim, Uncut, Scanned;
    assert part + "" == part;
    assert PrependFirst(part, [""]) == [part];
    assert Parts([part][1..]) == [];
  }

  /** `sub` is left of `all` when some entries are dropped, the order kept. */
  ghost predicate IsSublist(sub: seq<string>, all: seq<string>) {
    if sub == [] then true
    else if all == [] then false
    else IsSublist(sub, all[1..]) || (sub[0] == all[0] && IsSublist(sub[1..], all[1..]))
  }

  lemma {:induction false} SublistMembers(sub: seq<string>, all: seq<string>)
    requires IsSublist(sub, all)
    ensures |sub| <= |all| && forall x :: x in sub ==> x in all
  {
    if sub != [] {
      if IsSublist(sub, all[1..]) {
        SublistMembers(sub, all[1..]);
      } else {
        SublistMembers(sub[1..], all[1..]);
        assert sub == [sub[0]] + sub[1..];
      }
    }
  }

  lemma {:induction false} SublistIsPartList(sub: seq<string>, all: seq<string>, delimiters: set<char>)
    requires IsSublist(sub, all) && IsPartList(all, delimiters)
    ensures IsPartList(sub, delimiters)
    decreases |all|
  {
    hide TrimmedText, Uncut, Scanned;
    if sub != [] {
      assert IsPartList(all[1..], delimiters);
      if IsSublist(sub, all[1..]) {
        SublistIsPartList(sub, all[1..], delimiters);
      } else {
        SublistIsPartList(sub[1..], all[1..], delimiters);
        SublistMembers(sub[1..], all[1..]);
      }
    }
  }

  /** Keeping any of the parts of a text, in order, joining them by a padded delimiter and splitting the
      result gives back exactly those parts. */
  lemma KeptPartsSplitAgain(text: string, sub: seq<string>, left: string, d: char, right: string, delimiters: set<char>)
    requires Neutral(delimiters) && d in delimiters && AllWhitespace(left) && AllWhitespace(right)
    requires IsSublist(sub, SplitParts(text, delimiters))
    ensures SplitParts(Join(sub, left + [d] + right), delimiters) == sub
  {
    SplitYieldsPartList(text, delimiters);
    SublistIsPartList(sub, SplitParts(text, delimiters), delimiters);
    SplitOfJoinedParts(sub, left, d, right, delimiters);
  }

  // The filters built on it

  function Filtered(parts: seq<string>, keep: string -> bool): seq<string> {
    if parts == [] then []
    else (if keep(parts[0]) then [parts[0]] else []) + Filtered(parts[1..], keep)
  }

  /** The text left when only the parts to keep are kept: `filter_client_request_ts` joins arms by " | ",
      `filter_experimental_fields_in_ts_file` joins fields by ", ". */
  function FilteredText(text: string, delimiters: set<char>, joiner: string, keep: string -> bool): string {
    Join(Filtered(SplitParts(text, delimiters), keep), joiner)
  }

  lemma {:induction false} FilteredIsSublist(parts: seq<string>, keep: string -> bool)
    ensures IsSublist(Filtered(parts, keep), parts)
  {
    if parts != [] {
      FilteredIsSublist(parts[1..], keep);
      var rest := Filtered(parts[1..], keep);
      assert [] + rest == rest && ([parts[0]] + rest)[1..] == rest;
    }
  }

  lemma {:induction false} FilteredTwice(parts: seq<string>, keep: string -> bool)
    ensures Filtered(Filtered(parts, keep), keep) == Filtered(parts, keep)
  {
    if parts != [] {
      FilteredTwice(parts[1..], keep);
      var rest := Filtered(parts[1..], keep);
      assert [] + rest == rest && ([parts[0]] + rest)[1..] == rest;
    }
  }

  /** The filters drop exactly the parts they are meant to, and a second run changes nothing. */
  lemma FilterIsExactAndStable(text: string, delimiters: set<char>, left: string, d: char, right: string, keep: string -> bool)
    requires Neutral(delimiters) && d in delimiters && AllWhitespace(left) && AllWhitespace(right)
    ensures var joiner := left + [d] + right;
            var once := FilteredText(text, delimiters, joiner, keep);
            && SplitParts(once, delimiters) == Filtered(SplitParts(text, delimiters), keep)
            && FilteredText(once, delimiters, joiner, keep) == once
  {
    var kept := Filtered(SplitParts(text, delimiters), keep);
    FilteredIsSublist(SplitParts(text, delimiters), keep);
    KeptPartsSplitAgain(text, kept, left, d, right, delimiters);
    FilteredTwice(SplitParts(text, delimiters), keep);
  }

  /** So for the two filters in use: `filter_client_request_ts` on the arms of a union type, and
      `filter_experimental_fields_in_ts_file` on the fields of an object type, whose semicolons it turns
      into commas. */
  lemma UsedFiltersAreExactAndStable(text: string, keep: string -> bool)
    ensures var once := FilteredText(text, {'|'}, " | ", keep);
            && SplitParts(once, {'|'}) == Filtered(SplitParts(text, {'|'}), keep)
            && FilteredText(once, {'|'}, " | ", keep) == once
    ensures var once := FilteredText(text, {',', ';'}, ", ", keep);
            && SplitParts(once, {',', ';'}) == Filtered(SplitParts(text, {',', ';'}), keep)
            && FilteredText(once, {',', ';'}, ", ", keep) == once
  {
    UsedDelimitersAreNeutral();
    assert AllWhitespace(" ") && AllWhitespace("");
    hide *;
    assert " " + ['|'] + " " == " | " && "" + [','] + " " == ", ";
    FilterIsExactAndStable(text, {'|'}, " ", '|', " ", keep);
    FilterIsExactAndStable(text, {',', ';'}, "", ',', " ", keep);
  }

  /** The delimiters in use are neutral. */
  lemma UsedDelimitersAreNeutral()
    ensures Neutral({'|'}) && Neutral({','}) && Neutral({',', ';'})
  {
  }

  /** Whatever parts of the text are kept, joining them by `d`, padded or not, loses none. */
  ghost predicate KeepsParts(text: string, d: char, delimiters: set<char>) {
    forall sub, left, right ::
      IsSublist(sub, SplitParts(text, delimiters)) && AllWhitespace(left) && AllWhitespace(right) ==>
        SplitParts(Join(sub, left + [d] + right), delimiters) == sub
  }

  /** That delimiters are neutral is exactly what it takes. */
  lemma PartsKeptIffNeutral(delimiters: set<char>)
    ensures Neutral(delimiters) <==> forall text, d :: d in delimiters ==> KeepsParts(text, d, delimiters)
  {
    if Neutral(delimiters) {
      forall text, d | d in delimiters ensures KeepsParts(text, d, delimiters) {
        forall sub, left, right
          | IsSublist(sub, SplitParts(text, delimiters)) && AllWhitespace(left) && AllWhitespace(right)
          ensures SplitParts(Join(sub, left + [d] + right), delimiters) == sub
        {
          KeptPartsSplitAgain(text, sub, left, d, right, delimiters);
        }
      }
    } else {
      var d :| d in delimiters && Observed(START, d) != START;
      DelimiterThatOpens(d, delimiters);
      var sub := [[d]];
      assert IsSublist(sub, SplitParts([d, d], delimiters));
      assert AllWhitespace("") && Join(sub, "" + [d] + "") == [d];
      assert !KeepsParts([d, d], d, delimiters);
    }
  }

  /** A quote or an opening bracket as delimiter is, behind itself, a part; and alone it is none. */
  lemma DelimiterThatOpens(d: char, delimiters: set<char>)
    requires d in delimiters && Observed(START, d) != START
    ensures SplitParts([d, d], delimiters) == [[d]]
    ensures SplitParts([d], delimiters) == []
  {
    assert !AtTopLevel(Observed(START, d)) && !IsWhitespace(d);
    assert Trim([d]) == [d] by { TrimUntouched([d]); }
    hide Parts, Trim, Observed, AtTopLevel, IsWhitespace;
    assert [d, d][1..] == [d] && [d][1..] == "" && [d] + "" == [d];
    assert PrependFirst([d], [""]) == [[d]];
    assert Pieces(Observed(START, d), [d], delimiters) == [[d]];
    assert [""] + [[d]] == ["", [d]] && [""] + [""] == ["", ""];
    assert AtTopLevel(START) by { StartIsTopLevel(); }
    assert Pieces(START, [d], delimiters) == ["", ""];
    BlankIsNoPart();
    PartsOfTwo("", [d]);
    PartsOfTwo("", "");
  }

  lemma StartIsTopLevel()
    ensures AtTopLevel(START)
  {
  }

  lemma PartsOfTwo(a: string, b: string)
    ensures Parts([a, b]) == PartOf(a) + PartOf(b)
  {
    hide Trim;
    assert [a, b][1..] == [b] && [b][1..] == [];
    assert Parts([b]) == PartOf(b);
  }
}
