/** What the scanner counts, and that splitting loses nothing but delimiters and whitespace. */
module TopLevelScan {
  import opened Results
  import opened Text
  import opened TopLevelSplit

  // Brackets

  function Count(text: string, ch: char): nat {
    if text == "" then 0 else (if text[|text| - 1] == ch then 1 else 0) + Count(text[..|text| - 1], ch)
  }

  predicate NoQuotes(text: string) {
    '\"' !in text && '\'' !in text
  }

  /** In every beginning of the text, each kind of bracket is opened as often as it is closed, or oftener. */
  ghost predicate ClosesWhatIsOpen(text: string) {
    forall k :: 0 <= k <= |text| ==> NothingStray(text[..k])
  }

  predicate NothingStray(text: string) {
    && Count(text, '}') <= Count(text, '{') && Count(text, ']') <= Count(text, '[')
    && Count(text, ')') <= Count(text, '(') && Count(text, '>') <= Count(text, '<')
  }

  lemma {:induction false} ScannedSnoc(s: Scan, text: string, ch: char)
    ensures Scanned(s, text + [ch]) == Observed(Scanned(s, text), ch)
    decreases |text|
  {
    hide Observed;
    if text == "" {
      assert text + [ch] == [ch] && [ch][1..] == "";
    } else {
      assert (text + [ch])[0] == text[0] && (text + [ch])[1..] == text[1..] + [ch];
      ScannedSnoc(Observed(s, text[0]), text[1..], ch);
    }
  }

  /** Outside strings, the depth of each kind of bracket is the number of those opened less the number of
      those closed: brackets of all four kinds nest. */
  lemma {:induction false} DepthIsBalance(text: string)
    requires NoQuotes(text) && ClosesWhatIsOpen(text)
    ensures NothingStray(text)
    ensures Scanned(START, text)
            == Scan(Count(text, '{') - Count(text, '}'), Count(text, '[') - Count(text, ']'),
                    Count(text, '(') - Count(text, ')'), Count(text, '<') - Count(text, '>'), None, false)
  {
    assert text[..|text|] == text;
    if text != "" {
      var init, last := text[..|text| - 1], text[|text| - 1];
      assert text == init + [last];
      assert last in text;
      forall k | 0 <= k <= |init| ensures NothingStray(init[..k]) {
        assert init[..k] == text[..k];
      }
      DepthIsBalance(init);
      hide Scanned, ClosesWhatIsOpen;
      ScannedSnoc(START, init, last);
      CountSnoc(init, last);
    }
  }

  lemma CountSnoc(text: string, last: char)
    ensures forall ch :: Count(text + [last], ch) == Count(text, ch) + if last == ch then 1 else 0
  {
    assert (text + [last])[..|text|] == text;
  }

  /** A bracket that closes nothing is passed over. */
  lemma StrayBracketIsIgnored(s: Scan)
    requires s.stringDelim.None?
    ensures s.brace == 0 ==> Observed(s, '}') == s
    ensures s.bracket == 0 ==> Observed(s, ']') == s
    ensures s.paren == 0 ==> Observed(s, ')') == s
    ensures s.angle == 0 ==> Observed(s, '>') == s
  {
  }

  // Strings

  /** A piece of a string: a character that means itself, or one with a backslash in front. */
  datatype StringPart = Plain(ch: char) | Escaped(ch: char)

  function StringText(parts: seq<StringPart>): string {
    if parts == [] then ""
    else (match parts[0] case Plain(ch) => [ch] case Escaped(ch) => ['\\', ch]) + StringText(parts[1..])
  }

  /** Nothing plain ends the string or escapes. */
  predicate IsStringOf(quote: char, parts: seq<StringPart>) {
    forall p | p in parts :: p.Plain? ==> p.ch != quote && p.ch != '\\'
  }

  /** A whole string in either kind of quotes leaves the scanner where it was, whatever brackets, escaped
      quotes and quotes of the other kind are in it; and no delimiter in it splits. */
  lemma StringIsSkipped(s: Scan, quote: char, parts: seq<StringPart>, delimiters: set<char>)
    requires s.stringDelim.None? && !s.escape && (quote == '\"' || quote == '\'') && IsStringOf(quote, parts)
    ensures Scanned(s, [quote] + StringText(parts) + [quote]) == s
    ensures Uncut(Observed(s, quote), StringText(parts) + [quote], delimiters)
  {
    var inside := s.(stringDelim := Some(quote));
    assert Observed(s, quote) == inside && Observed(inside, quote) == s;
    InsideString(inside, quote, parts, delimiters);
    var body := StringText(parts);
    assert [quote] + body + [quote] == [quote] + (body + [quote]);
    ScannedConcat(s, [quote], body + [quote]);
    ScannedConcat(inside, body, [quote]);
    ScannedOne(s, quote);
    ScannedOne(inside, quote);
    UncutConcat(inside, body, [quote], delimiters);
    assert [quote][1..] == "";
  }

  lemma ScannedOne(s: Scan, ch: char)
    ensures Scanned(s, [ch]) == Observed(s, ch)
  {
    hide Observed;
    assert [ch][1..] == "";
  }

  lemma {:induction false} InsideString(s: Scan, quote: char, parts: seq<StringPart>, delimiters: set<char>)
    requires s.stringDelim == Some(quote) && !s.escape && IsStringOf(quote, parts)
    ensures Scanned(s, StringText(parts)) == s
    ensures Uncut(s, StringText(parts), delimiters)
    decreases |parts|
  {
    if parts == [] {
      return;
    }
    assert parts[0] in parts && forall p :: p in parts[1..] ==> p in parts;
    InsideString(s, quote, parts[1..], delimiters);
    var rest := StringText(parts[1..]);
    match parts[0] {
      case Plain(ch) =>
        assert StringText(parts) == [ch] + rest;
        assert ([ch] + rest)[1..] == rest;
      case Escaped(ch) =>
        var escaping := s.(escape := true);
        assert StringText(parts) == ['\\'] + ([ch] + rest) by { assert ['\\', ch] + rest == ['\\'] + ([ch] + rest); }
        assert (['\\'] + ([ch] + rest))[1..] == [ch] + rest && ([ch] + rest)[1..] == rest;
        assert Observed(s, '\\') == escaping && Observed(escaping, ch) == s;
        assert Uncut(escaping, [ch] + rest, delimiters);
    }
  }

  // Nothing is lost

  /** The pieces with the delimiters back between them. */
  function Interleaved(pieces: seq<string>, between: string): string
    requires |pieces| == |between| + 1
  {
    if between == "" then pieces[0] else pieces[0] + [between[0]] + Interleaved(pieces[1..], between[1..])
  }

  /** The pieces are all of the text but the delimiters it is split at. */
  lemma {:induction false} PiecesRebuildText(s: Scan, text: string, delimiters: set<char>) returns (between: string)
    ensures |Pieces(s, text, delimiters)| == |between| + 1
    ensures forall ch :: ch in between ==> ch in delimiters
    ensures Interleaved(Pieces(s, text, delimiters), between) == text
    decreases |text|
  {
    hide Observed, AtTopLevel;
    if text == "" {
      return "";
    }
    var ch, rest := text[0], Pieces(Observed(s, text[0]), text[1..], delimiters);
    var more := PiecesRebuildText(Observed(s, ch), text[1..], delimiters);
    if SplitsAt(s, ch, delimiters) {
      between := [ch] + more;
      SplitPiece(ch, rest, more);
    } else {
      between := more;
      LongerPiece(ch, rest, more);
    }
    assert text == [ch] + text[1..];
  }

  lemma SplitPiece(ch: char, pieces: seq<string>, between: string)
    requires |pieces| == |between| + 1
    ensures Interleaved([""] + pieces, [ch] + between) == [ch] + Interleaved(pieces, between)
  {
    assert ([""] + pieces)[1..] == pieces && ([ch] + between)[1..] == between && "" + [ch] == [ch];
  }

  lemma LongerPiece(ch: char, pieces: seq<string>, between: string)
    requires |pieces| == |between| + 1
    ensures Interleaved(PrependFirst([ch], pieces), between) == [ch] + Interleaved(pieces, between)
  {
    var longer := PrependFirst([ch], pieces);
    assert longer[0] == [ch] + pieces[0] && longer[1..] == pieces[1..];
    if between != "" {
      var rest := Interleaved(pieces[1..], between[1..]);
      assert Interleaved(longer, between) == longer[0] + [between[0]] + rest;
      assert Interleaved(pieces, between) == pieces[0] + [between[0]] + rest;
      hide *;
      Regrouped(ch, pieces[0], between[0], rest);
    }
  }

  lemma Regrouped(ch: char, piece: string, d: char, rest: string)
    ensures [ch] + piece + [d] + rest == [ch] + (piece + [d] + rest)
  {
  }

  /** The parts are the pieces without the whitespace around them, the blank ones left out: piece by piece,
      in their order. */
  lemma {:induction false} PartsOfConcat(a: seq<string>, b: seq<string>)
    ensures Parts(a + b) == Parts(a) + Parts(b)
  {
    hide Trim;
    if a == [] {
      assert a + b == b;
    } else {
      assert (a + b)[0] == a[0] && (a + b)[1..] == a[1..] + b;
      PartsOfConcat(a[1..], b);
    }
  }

  lemma PartsOfPiece(front: string, part: string, back: string)
    requires IsTrimmed(front + part + back, front, part, back)
    ensures Parts([front + part + back]) == if part == "" then [] else [part]
  {
    var piece := front + part + back;
    assert Trim(piece) == part by {
      if part != "" {
        TrimPadded(front, part, back);
      } else {
        var l, r := TrimIs(piece);
        NothingButWhitespace(piece, l, Trim(piece), r);
      }
    }
    hide Trim;
    assert [piece][1..] == [];
  }

  lemma NothingButWhitespace(s: string, l: string, t: string, r: string)
    requires s == l + t + r && (forall c :: c in s ==> IsWhitespace(c)) && (t == "" || !IsWhitespace(t[0]))
    ensures t == ""
  {
    hide IsWhitespace;
    FirstIsIn(l, t, r);
  }

  lemma FirstIsIn(l: string, t: string, r: string)
    ensures t == "" || t[0] in l + t + r
  {
    assert t != "" ==> (l + t + r)[|l|] == t[0];
  }
}
