/** The four-tier fuzzy search that places a chunk's lines in a file. */
module SeekSequence {
  import opened Results
  import opened Text

  /** The tiers, strictest first. */
  datatype Tier = Exact | Rstrip | Trimmed | Normalised

  function Rank(t: Tier): nat {
    match t
    case Exact => 0
    case Rstrip => 1
    case Trimmed => 2
    case Normalised => 3
  }

  function AsciiPunctuation(c: char): char {
    if '\U{2010}' <= c <= '\U{2015}' || c == '\U{2212}' then '-'
    else if '\U{2018}' <= c <= '\U{201B}' then '\''
    else if '\U{201C}' <= c <= '\U{201F}' then '\"'
    else if c == '\U{A0}' || '\U{2002}' <= c <= '\U{200A}' || c == '\U{202F}' || c == '\U{205F}'
         || c == '\U{3000}' then ' '
    else c
  }

  function Normalise(s: string): string {
    var t := Trim(s);
    seq(|t|, i requires 0 <= i < |t| => AsciiPunctuation(t[i]))
  }

  /** What a tier compares of a line. */
  function Key(t: Tier, line: string): string {
    match t
    case Exact => line
    case Rstrip => TrimEnd(line)
    case Trimmed => Trim(line)
    case Normalised => Normalise(line)
  }

  /** Characters that look the same: dashes, single quotes, double quotes and spaces of all kinds. */
  predicate LooksLike(c: char, d: char) {
    || c == d
    || (IsDash(c) && IsDash(d)) || (IsSingleQuote(c) && IsSingleQuote(d))
    || (IsDoubleQuote(c) && IsDoubleQuote(d)) || (IsSpace(c) && IsSpace(d))
  }

  predicate IsDash(c: char) {
    c in {'-', '\U{2010}', '\U{2011}', '\U{2012}', '\U{2013}', '\U{2014}', '\U{2015}', '\U{2212}'}
  }

  predicate IsSingleQuote(c: char) {
    c in {'\'', '\U{2018}', '\U{2019}', '\U{201A}', '\U{201B}'}
  }

  predicate IsDoubleQuote(c: char) {
    c in {'\"', '\U{201C}', '\U{201D}', '\U{201E}', '\U{201F}'}
  }

  predicate IsSpace(c: char) {
    c in {' ', '\U{A0}', '\U{2002}', '\U{2003}', '\U{2004}', '\U{2005}', '\U{2006}', '\U{2007}', '\U{2008}',
          '\U{2009}', '\U{200A}', '\U{202F}', '\U{205F}', '\U{3000}'}
  }

  /** Exactly those are taken for each other. */
  lemma SameCharacterIff(c: char, d: char)
    ensures AsciiPunctuation(c) == AsciiPunctuation(d) <==> LooksLike(c, d)
  {
  }

  /** What two lines have in common when they match at a tier: all; all but whitespace at the end; all but
      whitespace at both ends; and the same with characters that look alike. */
  lemma MatchingLines(t: Tier, a: string, b: string)
    ensures Key(t, a) == Key(t, b)
            <==> match t
                 case Exact => a == b
                 case Rstrip => TrimEnd(a) == TrimEnd(b)
                 case Trimmed => Trim(a) == Trim(b)
                 case Normalised =>
                   |Trim(a)| == |Trim(b)| && forall i :: 0 <= i < |Trim(a)| ==> LooksLike(Trim(a)[i], Trim(b)[i])
  {
    hide Trim, TrimEnd, AsciiPunctuation, LooksLike;
    if t.Normalised? {
      var x, y := Trim(a), Trim(b);
      if |x| == |y| {
        forall i | 0 <= i < |x| ensures Normalise(a)[i] == Normalise(b)[i] <==> LooksLike(x[i], y[i]) {
          SameCharacterIff(x[i], y[i]);
        }
      }
    }
  }

  /** `pattern` sits at index `i` of `lines`, compared at tier `t`. */
  ghost predicate MatchesAt(t: Tier, lines: seq<string>, pattern: seq<string>, i: int) {
    && 0 <= i <= |lines| - |pattern|
    && forall k :: 0 <= k < |pattern| ==> Key(t, lines[i + k]) == Key(t, pattern[k])
  }

  /** Where the search begins. With `eof` set the only candidate is the end of the file. */
  function SearchStart(lines: seq<string>, pattern: seq<string>, start: nat, eof: bool): nat {
    if eof && |lines| >= |pattern| then |lines| - |pattern| else start
  }

  /** No index from `from` on matches at tier `t`. */
  ghost predicate NoMatch(t: Tier, lines: seq<string>, pattern: seq<string>, from: nat) {
    forall i :: from <= i ==> !MatchesAt(t, lines, pattern, i)
  }

  /** `i` is the leftmost match at the strictest tier that has one. */
  ghost predicate BestMatch(t: Tier, lines: seq<string>, pattern: seq<string>, from: nat, i: nat) {
    && from <= i
    && MatchesAt(t, lines, pattern, i)
    && (forall j :: from <= j < i ==> !MatchesAt(t, lines, pattern, j))
    && (forall stricter: Tier :: Rank(stricter) < Rank(t) ==> NoMatch(stricter, lines, pattern, from))
  }

  /** The specification of the search. */
  ghost predicate Sought(lines: seq<string>, pattern: seq<string>, start: nat, eof: bool, r: Option<nat>) {
    if pattern == [] then r == Some(start)
    else
      var from := SearchStart(lines, pattern, start, eof);
      match r
      case Some(i) => exists t :: BestMatch(t, lines, pattern, from, i)
      case None => NoMatch(Normalised, lines, pattern, from)
  }

  // Each tier forgives everything the stricter ones forgive

  lemma TiersWiden(t: Tier, u: Tier, a: string, b: string)
    requires Rank(t) <= Rank(u) && Key(t, a) == Key(t, b)
    ensures Key(u, a) == Key(u, b)
  {
    assert Rank(t) <= 1 <= Rank(u) ==> TrimEnd(a) == TrimEnd(b);
    assert Rank(t) <= 2 <= Rank(u) ==> Trim(a) == Trim(b);
  }

  lemma MatchWidens(t: Tier, u: Tier, lines: seq<string>, pattern: seq<string>, i: int)
    requires Rank(t) <= Rank(u) && MatchesAt(t, lines, pattern, i)
    ensures MatchesAt(u, lines, pattern, i)
  {
    hide Key;
    forall k | 0 <= k < |pattern| ensures Key(u, lines[i + k]) == Key(u, pattern[k]) {
      TiersWiden(t, u, lines[i + k], pattern[k]);
    }
  }

  lemma NoMatchNarrows(t: Tier, u: Tier, lines: seq<string>, pattern: seq<string>, from: nat)
    requires Rank(t) <= Rank(u) && NoMatch(u, lines, pattern, from)
    ensures NoMatch(t, lines, pattern, from)
  {
    hide Key;
    forall i | from <= i ensures !MatchesAt(t, lines, pattern, i) {
      if MatchesAt(t, lines, pattern, i) {
        MatchWidens(t, u, lines, pattern, i);
      }
    }
  }

  /** Two best matches are the same match. */
  lemma BestMatchIsUnique(lines: seq<string>, pattern: seq<string>, from: nat, t: Tier, i: nat, u: Tier, j: nat)
    requires BestMatch(t, lines, pattern, from, i) && BestMatch(u, lines, pattern, from, j)
    ensures i == j
  {
    hide Key;
    assert t != u ==> NoMatch(t, lines, pattern, from) || NoMatch(u, lines, pattern, from);
  }

  lemma BestMatchIsAMatch(lines: seq<string>, pattern: seq<string>, from: nat, t: Tier, i: nat)
    requires BestMatch(t, lines, pattern, from, i)
    ensures MatchesAt(Normalised, lines, pattern, i)
  {
    hide Key;
    MatchWidens(t, Normalised, lines, pattern, i);
  }

  /** The specification pins the answer down: two results that meet it are the same. */
  lemma SoughtIsUnique(lines: seq<string>, pattern: seq<string>, start: nat, eof: bool,
                       r: Option<nat>, q: Option<nat>)
    requires Sought(lines, pattern, start, eof, r) && Sought(lines, pattern, start, eof, q)
    ensures r == q
  {
    hide Key;
    var from := SearchStart(lines, pattern, start, eof);
    if pattern != [] && r.Some? {
      var t :| BestMatch(t, lines, pattern, from, r.value);
      BestMatchIsAMatch(lines, pattern, from, t, r.value);
      if q.Some? {
        var u :| BestMatch(u, lines, pattern, from, q.value);
        BestMatchIsUnique(lines, pattern, from, t, r.value, u, q.value);
      }
    } else if pattern != [] && q.Some? {
      var u :| BestMatch(u, lines, pattern, from, q.value);
      BestMatchIsAMatch(lines, pattern, from, u, q.value);
    }
  }

  /** A result is found exactly when some index in range matches at the most forgiving tier. */
  lemma SoughtSomeIff(lines: seq<string>, pattern: seq<string>, start: nat, eof: bool, r: Option<nat>)
    requires pattern != [] && Sought(lines, pattern, start, eof, r)
    ensures r.Some? <==>
            exists i :: SearchStart(lines, pattern, start, eof) <= i && MatchesAt(Normalised, lines, pattern, i)
  {
    hide Key;
    var from := SearchStart(lines, pattern, start, eof);
    if r.Some? {
      var t :| BestMatch(t, lines, pattern, from, r.value);
      BestMatchIsAMatch(lines, pattern, from, t, r.value);
    }
  }

  /** With `eof` set, a non-empty pattern is found at the end of the file or not at all:
      there is no second search from `start`. */
  lemma EofHasNoFallback(lines: seq<string>, pattern: seq<string>, start: nat, r: Option<nat>)
    requires pattern != [] && Sought(lines, pattern, start, true, r)
    ensures r == if MatchesAt(Normalised, lines, pattern, |lines| - |pattern|)
                 then Some(|lines| - |pattern|) else None
  {
    hide Key;
    var from := SearchStart(lines, pattern, start, true);
    if r.Some? {
      var t :| BestMatch(t, lines, pattern, from, r.value);
      BestMatchIsAMatch(lines, pattern, from, t, r.value);
    }
  }

  // The answer as a function of the inputs

  /** The first index from `from` on that matches at tier `t`. */
  ghost function Leftmost(t: Tier, lines: seq<string>, pattern: seq<string>, from: nat): (r: Option<nat>)
    ensures match r
            case Some(i) => from <= i && MatchesAt(t, lines, pattern, i)
                            && forall j :: from <= j < i ==> !MatchesAt(t, lines, pattern, j)
            case None => NoMatch(t, lines, pattern, from)
    decreases |lines| - from
  {
    hide Key;
    if from > |lines| then None
    else if MatchesAt(t, lines, pattern, from) then Some(from)
    else Leftmost(t, lines, pattern, from + 1)
  }

  ghost function Seek(lines: seq<string>, pattern: seq<string>, start: nat, eof: bool): (r: Option<nat>)
    ensures Sought(lines, pattern, start, eof, r)
  {
    hide Key;
    if pattern == [] then Some(start)
    else
      var from := SearchStart(lines, pattern, start, eof);
      var exact := Leftmost(Exact, lines, pattern, from);
      var rstrip := Leftmost(Rstrip, lines, pattern, from);
      var trimmed := Leftmost(Trimmed, lines, pattern, from);
      var normalised := Leftmost(Normalised, lines, pattern, from);
      if exact.Some? then assert BestMatch(Exact, lines, pattern, from, exact.value); exact
      else if rstrip.Some? then assert BestMatch(Rstrip, lines, pattern, from, rstrip.value); rstrip
      else if trimmed.Some? then assert BestMatch(Trimmed, lines, pattern, from, trimmed.value); trimmed
      else if normalised.Some? then
        assert BestMatch(Normalised, lines, pattern, from, normalised.value); normalised
      else None
  }

  /** The leftmost exact match wins over every fuzzy match, even one further left. */
  lemma ExactMatchWins(lines: seq<string>, pattern: seq<string>, start: nat, eof: bool, i: nat)
    requires pattern != [] && SearchStart(lines, pattern, start, eof) <= i
    requires MatchesAt(Exact, lines, pattern, i)
    requires forall j :: SearchStart(lines, pattern, start, eof) <= j < i ==> !MatchesAt(Exact, lines, pattern, j)
    ensures Seek(lines, pattern, start, eof) == Some(i)
  {
    hide Key;
    assert BestMatch(Exact, lines, pattern, SearchStart(lines, pattern, start, eof), i);
    SoughtIsUnique(lines, pattern, start, eof, Some(i), Seek(lines, pattern, start, eof));
  }

  /** What the comment on the search promises for end-of-file chunks: the end of the file first, and from
      `start` on if they are not there. */
  ghost function Documented(lines: seq<string>, pattern: seq<string>, start: nat): Option<nat> {
    var atEnd := Seek(lines, pattern, start, true);
    if atEnd.Some? then atEnd else Seek(lines, pattern, start, false)
  }

  /** The code keeps that promise if and only if the pattern is at the end of the file, or nowhere from
      `start` on. */
  lemma DocumentedIff(lines: seq<string>, pattern: seq<string>, start: nat)
    requires pattern != []
    ensures Seek(lines, pattern, start, true) == Documented(lines, pattern, start)
            <==> MatchesAt(Normalised, lines, pattern, |lines| - |pattern|) || NoMatch(Normalised, lines, pattern, start)
  {
    hide Seek, MatchesAt;
    EofHasNoFallback(lines, pattern, start, Seek(lines, pattern, start, true));
    SoughtSomeIff(lines, pattern, start, false, Seek(lines, pattern, start, false));
  }

  /** An input on which it does not: "b" stands on line 0, and is not looked for there. */
  lemma PromisedFallbackIsMissing()
    ensures Seek(["b", "a"], ["b"], 0, true) == None
    ensures Documented(["b", "a"], ["b"], 0) == Some(0)
  {
    var lines, pattern := ["b", "a"], ["b"];
    LettersDiffer();
    hide Seek, Normalise, TrimEnd, Trim, IsWhitespace;
    assert Key(Normalised, lines[1 + 0]) != Key(Normalised, pattern[0]);
    assert !MatchesAt(Normalised, lines, pattern, 1);
    EofHasNoFallback(lines, pattern, 0, Seek(lines, pattern, 0, true));
    ExactMatchWins(lines, pattern, 0, false, 0);
  }

  lemma CharactersDiffer(c: char, d: char)
    requires !IsWhitespace(c) && !IsWhitespace(d) && !LooksLike(c, d)
    ensures Key(Normalised, [c]) != Key(Normalised, [d])
  {
    hide *;
    TrimUntouched([c]);
    TrimUntouched([d]);
    MatchingLines(Normalised, [c], [d]);
  }

  lemma LettersDiffer()
    ensures Key(Normalised, "a") != Key(Normalised, "b")
  {
    assert !IsWhitespace('a') && !IsWhitespace('b') && !LooksLike('a', 'b');
    hide *;
    CharactersDiffer('a', 'b');
  }

  /** All later modules need of a successful search: where the match can lie. */
  lemma SeekBounds(lines: seq<string>, pattern: seq<string>, start: nat, eof: bool)
    requires Seek(lines, pattern, start, eof).Some?
    ensures var i := Seek(lines, pattern, start, eof).value;
            if pattern == [] then i == start
            else i + |pattern| <= |lines| && if eof then i + |pattern| == |lines| else start <= i
  {
    hide Key;
    var r := Seek(lines, pattern, start, eof);
    if pattern != [] {
      var from := SearchStart(lines, pattern, start, eof);
      var t :| BestMatch(t, lines, pattern, from, r.value);
    }
  }

  /** One pass of the search, over the indices `from..=|lines| - |pattern|`. */
  method SearchTier(t: Tier, lines: seq<string>, pattern: seq<string>, from: nat) returns (r: Option<nat>)
    requires 0 < |pattern| <= |lines|
    ensures match r
            case Some(i) => from <= i && MatchesAt(t, lines, pattern, i)
                            && forall j :: from <= j < i ==> !MatchesAt(t, lines, pattern, j)
            case None => NoMatch(t, lines, pattern, from)
  {
    hide Key;
    var i := from;
    while i <= |lines| - |pattern|
      invariant from <= i
      invariant forall j :: from <= j < i ==> !MatchesAt(t, lines, pattern, j)
      decreases |lines| - i
    {
      var ok := true;
      var k := 0;
      while k < |pattern|
        invariant 0 <= k <= |pattern|
        invariant ok
        invariant forall m :: 0 <= m < k ==> Key(t, lines[i + m]) == Key(t, pattern[m])
      {
        if Key(t, lines[i + k]) != Key(t, pattern[k]) {
          ok := false;
          break;
        }
        k := k + 1;
      }
      if ok {
        return Some(i);
      }
      i := i + 1;
    }
    return None;
  }

  /** `seek_sequence` */
  method SeekSequence(lines: seq<string>, pattern: seq<string>, start: nat, eof: bool) returns (r: Option<nat>)
    ensures r == Seek(lines, pattern, start, eof)
  {
    hide Key;
    if pattern == [] {
      return Some(start);
    }
    if |pattern| > |lines| {
      return None;
    }
    var from := SearchStart(lines, pattern, start, eof);
    r := SearchTier(Exact, lines, pattern, from);
    if r.Some? {
      assert BestMatch(Exact, lines, pattern, from, r.value);
      return;
    }
    r := SearchTier(Rstrip, lines, pattern, from);
    if r.Some? {
      assert BestMatch(Rstrip, lines, pattern, from, r.value);
      return;
    }
    r := SearchTier(Trimmed, lines, pattern, from);
    if r.Some? {
      assert BestMatch(Trimmed, lines, pattern, from, r.value);
      return;
    }
    r := SearchTier(Normalised, lines, pattern, from);
    if r.Some? {
      assert BestMatch(Normalised, lines, pattern, from, r.value);
    }
  }
}
