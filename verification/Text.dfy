/** The string operations of Rust's standard library that the patch engine relies on. */
module Text {

  /** Rust's `char::is_whitespace`: the Unicode White_Space property. */
  predicate IsWhitespace(c: char) {
    || '\U{9}' <= c <= '\U{D}'
    || c == ' '
    || c == '\U{85}'
    || c == '\U{A0}'
    || c == '\U{1680}'
    || '\U{2000}' <= c <= '\U{200A}'
    || c == '\U{2028}' || c == '\U{2029}' || c == '\U{202F}' || c == '\U{205F}' || c == '\U{3000}'
  }

  /** `str::trim_end` */
  function TrimEnd(s: string): (r: string)
    ensures r <= s
    ensures r != "" ==> !IsWhitespace(r[|r| - 1])
    ensures forall k :: |r| <= k < |s| ==> IsWhitespace(s[k])
  {
    if s != "" && IsWhitespace(s[|s| - 1]) then TrimEnd(s[..|s| - 1]) else s
  }

  /** `str::trim_start` */
  function TrimStart(s: string): (r: string)
    ensures |r| <= |s| && r == s[|s| - |r|..]
    ensures r != "" ==> !IsWhitespace(r[0])
    ensures forall k :: 0 <= k < |s| - |r| ==> IsWhitespace(s[k])
  {
    if s != "" && IsWhitespace(s[0]) then TrimStart(s[1..]) else s
  }

  /** `str::trim` */
  function Trim(s: string): (r: string)
    ensures r != "" ==> !IsWhitespace(r[0]) && !IsWhitespace(r[|r| - 1])
  {
    TrimStart(TrimEnd(s))
  }

  /** `s.strip_suffix('\r').unwrap_or(s)` */
  function StripCr(s: string): (r: string)
    ensures s == r || s == r + "\r"
  {
    if EndsInCr(s) then s[..|s| - 1] else s
  }

  predicate EndsInCr(s: string) {
    s != "" && s[|s| - 1] == '\r'
  }

  function StripAllCr(lines: seq<string>): (r: seq<string>)
    ensures |r| == |lines|
    ensures forall i :: 0 <= i < |lines| ==> r[i] == StripCr(lines[i])
  {
    seq(|lines|, i requires 0 <= i < |lines| => StripCr(lines[i]))
  }

  predicate LastIsEmpty(lines: seq<string>) {
    lines != [] && lines[|lines| - 1] == ""
  }

  predicate NoNewline(s: string) {
    '\n' !in s
  }

  ghost predicate NoNewlines(lines: seq<string>) {
    forall i :: 0 <= i < |lines| ==> NoNewline(lines[i])
  }

  /** `s.split('\n')` */
  function Split(s: string): (r: seq<string>)
    ensures r != []
  {
    if s == "" then [""]
    else if s[0] == '\n' then [""] + Split(s[1..])
    else
      var rest := Split(s[1..]);
      [[s[0]] + rest[0]] + rest[1..]
  }

  /** `lines.join(sep)` */
  function Join(lines: seq<string>, sep: string): string {
    if lines == [] then ""
    else if |lines| == 1 then lines[0]
    else lines[0] + sep + Join(lines[1..], sep)
  }

  /** `s.lines()`: a newline ends a line and takes one carriage return with it; an
      unterminated last line is kept as it stands. */
  function Lines(s: string): seq<string> {
    LinesOfParts(Split(s))
  }

  function LinesOfParts(parts: seq<string>): seq<string>
    requires parts != []
  {
    var last := parts[|parts| - 1];
    StripAllCr(parts[..|parts| - 1]) + if last == "" then [] else [last]
  }

  // What the functions above mean

  /** The characters of that property, one by one. */
  lemma WhitespaceIs(c: char)
    ensures IsWhitespace(c)
            <==> c in {'\U{9}', '\U{A}', '\U{B}', '\U{C}', '\U{D}', '\U{20}', '\U{85}', '\U{A0}', '\U{1680}',
                       '\U{2000}', '\U{2001}', '\U{2002}', '\U{2003}', '\U{2004}', '\U{2005}', '\U{2006}',
                       '\U{2007}', '\U{2008}', '\U{2009}', '\U{200A}', '\U{2028}', '\U{2029}', '\U{202F}',
                       '\U{205F}', '\U{3000}'}
  {
  }

  /** Only whitespace is taken off, and all there is. */
  predicate IsTrimmed(s: string, front: string, r: string, back: string) {
    && s == front + r + back
    && (forall c | c in front :: IsWhitespace(c)) && (forall c | c in back :: IsWhitespace(c))
    && (r == "" || (!IsWhitespace(r[0]) && !IsWhitespace(r[|r| - 1])))
  }

  lemma TrimIs(s: string) returns (front: string, back: string)
    ensures IsTrimmed(s, front, Trim(s), back)
  {
    var t := TrimEnd(s);
    var b := TrimEndIs(s);
    back := b;
    front := TrimStartIs(t);
    assert Trim(s) == TrimStart(t);
    hide *;
    ConcatIs(front, Trim(s), t, back);
  }

  lemma ConcatIs(front: string, r: string, t: string, back: string)
    requires t == front + r
    ensures t + back == front + r + back
  {
  }

  lemma TrimStartIs(s: string) returns (front: string)
    ensures s == front + TrimStart(s) && forall c | c in front :: IsWhitespace(c)
  {
    hide TrimStart, IsWhitespace;
    var r := TrimStart(s);
    front := s[..|s| - |r|];
    forall c | c in front ensures IsWhitespace(c) {
      var k :| 0 <= k < |front| && front[k] == c;
      assert s[k] == c;
    }
  }

  lemma TrimEndIs(s: string) returns (back: string)
    ensures s == TrimEnd(s) + back && forall c | c in back :: IsWhitespace(c)
    ensures TrimEnd(s) == "" || !IsWhitespace(TrimEnd(s)[|TrimEnd(s)| - 1])
  {
    hide TrimEnd, IsWhitespace;
    var r := TrimEnd(s);
    back := s[|r|..];
    forall c | c in back ensures IsWhitespace(c) {
      var k :| 0 <= k < |back| && back[k] == c;
      assert s[|r| + k] == c;
    }
    PrefixAndRest(r, s);
  }

  lemma PrefixAndRest(front: string, text: string)
    requires front <= text
    ensures text == front + text[|front|..]
  {
  }

  /** One carriage return goes, if there is one at the end. */
  lemma StripCrIs(s: string)
    ensures StripCr(s + "\r") == s
    ensures s == "" || s[|s| - 1] != '\r' ==> StripCr(s) == s
  {
    assert (s + "\r")[..|s|] == s;
  }

  /** The lines of a text of terminated lines and what comes after them. */
  lemma LinesOfTerminated(lines: seq<string>, last: string)
    requires NoNewlines(lines) && NoNewline(last)
    ensures Lines(Terminated(lines, "\n") + last) == StripAllCr(lines) + if last == "" then [] else [last]
  {
    SplitOfTerminatedAnd(lines, last);
    assert (lines + [last])[..|lines|] == lines;
  }

  lemma {:induction false} SplitOfTerminatedAnd(lines: seq<string>, last: string)
    requires NoNewlines(lines) && NoNewline(last)
    ensures Split(Terminated(lines, "\n") + last) == lines + [last]
  {
    if lines == [] {
      assert Terminated(lines, "\n") + last == last;
      SplitOneLine(last);
    } else {
      var rest := Terminated(lines[1..], "\n") + last;
      assert Terminated(lines, "\n") + last == lines[0] + "\n" + rest;
      SplitAfterLine(lines[0], rest);
      SplitOfTerminatedAnd(lines[1..], last);
      assert lines == [lines[0]] + lines[1..];
    }
  }

  // Facts about trimming

  lemma TrimUntouched(s: string)
    requires s != "" && !IsWhitespace(s[0]) && !IsWhitespace(s[|s| - 1])
    ensures Trim(s) == s
  {
    assert TrimEnd(s) == s;
  }

  lemma {:induction false} TrimEndPadded(s: string, right: string)
    requires s != "" && !IsWhitespace(s[|s| - 1])
    requires forall c :: c in right ==> IsWhitespace(c)
    ensures TrimEnd(s + right) == s
  {
    if right == "" {
      assert s + right == s;
    } else {
      var all := s + right;
      assert all[|all| - 1] == right[|right| - 1];
      assert all[..|all| - 1] == s + right[..|right| - 1];
      TrimEndPadded(s, right[..|right| - 1]);
    }
  }

  lemma {:induction false} TrimStartPadded(left: string, s: string)
    requires s != "" && !IsWhitespace(s[0])
    requires forall c :: c in left ==> IsWhitespace(c)
    ensures TrimStart(left + s) == s
  {
    if left == "" {
      assert left + s == s;
    } else {
      assert (left + s)[1..] == left[1..] + s;
      TrimStartPadded(left[1..], s);
    }
  }

  /** Whitespace at both ends is exactly what `Trim` drops. */
  lemma TrimPadded(left: string, s: string, right: string)
    requires s != "" && !IsWhitespace(s[0]) && !IsWhitespace(s[|s| - 1])
    requires forall c :: c in left ==> IsWhitespace(c)
    requires forall c :: c in right ==> IsWhitespace(c)
    ensures Trim(left + s + right) == s
  {
    TrimEndPadded(left + s, right);
    TrimStartPadded(left, s);
  }

  // Facts about splitting and joining

  lemma {:induction false} SplitAfterLine(line: string, rest: string)
    requires NoNewline(line)
    ensures Split(line + "\n" + rest) == [line] + Split(rest)
  {
    var s := line + "\n" + rest;
    if line == "" {
      assert s[1..] == rest;
    } else {
      assert s[0] == line[0];
      assert s[1..] == line[1..] + "\n" + rest;
      assert NoNewline(line[1..]);
      SplitAfterLine(line[1..], rest);
      var tail := [line[1..]] + Split(rest);
      assert tail[1..] == Split(rest);
      assert [line[0]] + line[1..] == line;
    }
  }

  lemma {:induction false} SplitOneLine(line: string)
    requires NoNewline(line)
    ensures Split(line) == [line]
  {
    if line != "" {
      assert line[0] in line;
      assert NoNewline(line[1..]);
      SplitOneLine(line[1..]);
      assert [line[0]] + line[1..] == line;
    }
  }

  /** Splitting undoes joining for newline-free lines. */
  lemma {:induction false} SplitOfJoin(lines: seq<string>)
    requires lines != [] && NoNewlines(lines)
    ensures Split(Join(lines, "\n")) == lines
  {
    if |lines| == 1 {
      SplitOneLine(lines[0]);
    } else {
      SplitAfterLine(lines[0], Join(lines[1..], "\n"));
      SplitOfJoin(lines[1..]);
    }
  }

  /** Joining undoes splitting, and the pieces hold no newline. */
  lemma {:induction false} JoinOfSplit(s: string)
    ensures Join(Split(s), "\n") == s
    ensures NoNewlines(Split(s))
  {
    if s != "" {
      JoinOfSplit(s[1..]);
      var rest := Split(s[1..]);
      if s[0] == '\n' {
        assert Split(s)[1..] == rest;
      } else {
        var first := [s[0]] + rest[0];
        if |rest| > 1 {
          assert Split(s)[1..] == rest[1..];
          assert Join(rest, "\n") == rest[0] + "\n" + Join(rest[1..], "\n");
          assert s == [s[0]] + s[1..];
        }
      }
    }
  }

  lemma {:induction false} JoinSnoc(lines: seq<string>, last: string, sep: string)
    requires lines != []
    ensures Join(lines + [last], sep) == Join(lines, sep) + sep + last
  {
    var all := lines + [last];
    assert all[1..] == lines[1..] + [last];
    if |lines| == 1 {
      assert all[1..] == [last];
    } else {
      JoinSnoc(lines[1..], last, sep);
    }
  }

  lemma StripAllCrNoop(lines: seq<string>)
    requires forall i :: 0 <= i < |lines| ==> !EndsInCr(lines[i])
    ensures StripAllCr(lines) == lines
  {
    assert forall i :: 0 <= i < |lines| ==> StripAllCr(lines)[i] == lines[i];
  }

  lemma LinesOfCleanParts(lines: seq<string>)
    requires lines != [] && lines[|lines| - 1] != ""
    requires forall i :: 0 <= i < |lines| - 1 ==> !EndsInCr(lines[i])
    ensures LinesOfParts(lines) == lines
  {
    StripAllCrNoop(lines[..|lines| - 1]);
  }

  /** What `lines()` reads back from a joined text whose lines carry no terminator of their own. */
  lemma LinesOfJoin(lines: seq<string>)
    requires lines != [] && NoNewlines(lines)
    requires lines[|lines| - 1] != ""
    requires forall i :: 0 <= i < |lines| - 1 ==> !EndsInCr(lines[i])
    ensures Lines(Join(lines, "\n")) == lines
  {
    SplitOfJoin(lines);
    LinesOfCleanParts(lines);
  }

  // Terminated lines

  /** Each line followed by the terminator. */
  function Terminated(lines: seq<string>, joiner: string): string {
    if lines == [] then "" else lines[0] + joiner + Terminated(lines[1..], joiner)
  }

  lemma {:induction false} JoinWithFinalBlank(lines: seq<string>, joiner: string)
    ensures Join(lines + [""], joiner) == Terminated(lines, joiner)
  {
    if lines == [] {
      assert lines + [""] == [""];
    } else {
      assert (lines + [""])[1..] == lines[1..] + [""];
      JoinWithFinalBlank(lines[1..], joiner);
    }
  }

  lemma {:induction false} TerminatedSnoc(lines: seq<string>, last: string, joiner: string)
    ensures Terminated(lines + [last], joiner) == Terminated(lines, joiner) + last + joiner
  {
    if lines == [] {
      assert (lines + [last])[1..] == [];
    } else {
      assert (lines + [last])[1..] == lines[1..] + [last];
      TerminatedSnoc(lines[1..], last, joiner);
    }
  }


  predicate EndsWith(s: string, suffix: string) {
    |suffix| <= |s| && s[|s| - |suffix|..] == suffix
  }

  lemma TerminatedEnds(lines: seq<string>, joiner: string)
    ensures Terminated(lines, joiner) == "" || EndsWith(Terminated(lines, joiner), joiner)
  {
    if lines != [] {
      var init, last := lines[..|lines| - 1], lines[|lines| - 1];
      assert lines == init + [last];
      TerminatedSnoc(init, last, joiner);
    }
  }

  lemma UnterminatedEnd(front: string, last: string)
    requires last != "" && NoNewline(last)
    ensures !EndsWith(front + last, "\n")
  {
    var s := front + last;
    assert s[|s| - 1..][0] == last[|last| - 1];
    assert last[|last| - 1] in last;
  }

  /** A text that ends with a newline is its split pieces, each terminated by it. */
  lemma SplitOfTerminated(contents: string)
    requires EndsWith(contents, "\n")
    ensures var parts := Split(contents);
            && parts[|parts| - 1] == ""
            && contents == Terminated(parts[..|parts| - 1], "\n")
            && NoNewlines(parts[..|parts| - 1])
  {
    var parts := Split(contents);
    JoinOfSplit(contents);
    var init, last := parts[..|parts| - 1], parts[|parts| - 1];
    assert parts == init + [last];
    if init != [] {
      JoinSnoc(init, last, "\n");
    }
    if last != "" {
      UnterminatedEnd(if init == [] then "" else Join(init, "\n") + "\n", last);
    }
    JoinWithFinalBlank(init, "\n");
  }
}
