/** Applying replacements to the lines of a file, in place and back to front. */
module Splicing {
  import opened Replacements

  /** `Vec::remove` */
  function Remove(lines: seq<string>, i: nat): seq<string>
    requires i < |lines|
  {
    lines[..i] + lines[i + 1..]
  }

  /** `Vec::insert` */
  function Insert(lines: seq<string>, i: nat, line: string): seq<string>
    requires i <= |lines|
  {
    lines[..i] + [line] + lines[i..]
  }

  function Min(a: nat, b: nat): nat {
    if a <= b then a else b
  }

  /** The effect of one replacement; a region reaching past the end is cut short. */
  function ApplyOne(lines: seq<string>, r: Replacement): seq<string>
    requires r.start <= |lines|
  {
    lines[..r.start] + r.newLines + lines[Min(r.End(), |lines|)..]
  }

  /** Line by line: what was in front of the region, the new lines, and what was behind it, be that nothing. */
  lemma ApplyOneAt(lines: seq<string>, r: Replacement, k: nat)
    requires r.start <= |lines|
    ensures var out, behind := ApplyOne(lines, r), if r.End() <= |lines| then |lines| - r.End() else 0;
            && |out| == r.start + |r.newLines| + behind
            && (k < r.start ==> out[k] == lines[k])
            && (k < |r.newLines| ==> out[r.start + k] == r.newLines[k])
            && (k < behind ==> out[r.start + |r.newLines| + k] == lines[r.End() + k])
  {
  }

  ghost predicate StartsWithin(rs: seq<Replacement>, n: nat) {
    forall r :: r in rs ==> r.start <= n
  }

  /** All replacements, the last one first. Regions may overlap: what is left is still long
      enough for every replacement yet to come. */
  function ApplyBackwards(lines: seq<string>, rs: seq<Replacement>): (out: seq<string>)
    requires SortedByStart(rs) && StartsWithin(rs, |lines|)
    ensures rs == [] ==> out == lines
    ensures rs != [] ==> rs[0].start <= |out| && out[..rs[0].start] == lines[..rs[0].start]
  {
    if rs == [] then lines
    else
      var rest := ApplyBackwards(lines, rs[1..]);
      ApplyOne(rest, rs[0])
  }

  /** The list runs left to right through lines `from..n`: each region ends before the next begins. */
  predicate InOrder(rs: seq<Replacement>, from: nat, n: nat) {
    rs == [] || (from <= rs[0].start && rs[0].End() <= n && InOrder(rs[1..], rs[0].End(), n))
  }

  lemma {:induction false} DisjointIsInOrder(rs: seq<Replacement>, from: nat, n: nat)
    requires Disjoint(rs) && InFile(rs, n)
    requires rs != [] ==> from <= rs[0].start
    ensures InOrder(rs, from, n)
  {
    if rs != [] {
      assert rs[0] in rs && (forall r :: r in rs[1..] ==> r in rs);
      DisjointIsInOrder(rs[1..], rs[0].End(), n);
    }
  }

  /** The one-pass, left-to-right reading of a disjoint list: copy up to the next region, put its
      new lines, go on behind it. */
  function Splice(lines: seq<string>, rs: seq<Replacement>, from: nat): seq<string>
    requires from <= |lines| && InOrder(rs, from, |lines|)
  {
    if rs == [] then lines[from..]
    else
      lines[from..rs[0].start] + rs[0].newLines + Splice(lines, rs[1..], rs[0].End())
  }

  /** The lines once `removed` of them have been removed at `start`. */
  function AfterRemoving(before: seq<string>, start: nat, removed: nat): seq<string>
    requires start <= |before|
  {
    before[..start] + before[Min(start + removed, |before|)..]
  }

  lemma RemoveStep(before: seq<string>, start: nat, removed: nat)
    requires start <= |before|
    ensures var lines := AfterRemoving(before, start, removed);
            (if start < |lines| then Remove(lines, start) else lines) == AfterRemoving(before, start, removed + 1)
  {
    var lines := AfterRemoving(before, start, removed);
    if start < |lines| {
      assert before[start + removed..][1..] == before[start + removed + 1..];
      assert lines[start + 1..] == before[start + removed + 1..];
    }
  }

  /** The lines once `offset` of the new ones have been inserted behind `front`. */
  function AfterInserting(front: seq<string>, segment: seq<string>, offset: nat, back: seq<string>): seq<string>
    requires offset <= |segment|
  {
    front + segment[..offset] + back
  }

  lemma InsertStep(front: seq<string>, segment: seq<string>, offset: nat, back: seq<string>)
    requires offset < |segment|
    ensures var lines := AfterInserting(front, segment, offset, back);
            && |front| + offset <= |lines|
            && Insert(lines, |front| + offset, segment[offset]) == AfterInserting(front, segment, offset + 1, back)
  {
    var lines := AfterInserting(front, segment, offset, back);
    assert lines[..|front| + offset] == front + segment[..offset];
    assert lines[|front| + offset..] == back;
    assert segment[..offset + 1] == segment[..offset] + [segment[offset]];
  }

  lemma RemovedThenInserted(before: seq<string>, r: Replacement)
    requires r.start <= |before|
    ensures var front, back := before[..r.start], before[Min(r.End(), |before|)..];
            && AfterRemoving(before, r.start, 0) == before
            && AfterRemoving(before, r.start, r.oldLen) == AfterInserting(front, r.newLines, 0, back)
            && AfterInserting(front, r.newLines, |r.newLines|, back) == ApplyOne(before, r)
  {
    var front := before[..r.start];
    assert front + r.newLines[..0] == front;
    assert r.newLines[..|r.newLines|] == r.newLines;
  }

  /** The body of the loop of `apply_replacements`: remove the old lines one by one, then insert
      the new ones one by one. */
  method ReplaceRegion(before: seq<string>, r: Replacement) returns (lines: seq<string>)
    requires r.start <= |before|
    ensures lines == ApplyOne(before, r)
  {
    hide AfterRemoving, AfterInserting, ApplyOne, Remove, Insert;
    RemovedThenInserted(before, r);
    lines := before;
    var removed := 0;
    while removed < r.oldLen
      invariant 0 <= removed <= r.oldLen
      invariant lines == AfterRemoving(before, r.start, removed)
    {
      RemoveStep(before, r.start, removed);
      if r.start < |lines| {
        lines := Remove(lines, r.start);
      }
      removed := removed + 1;
    }
    ghost var front, back := before[..r.start], before[Min(r.End(), |before|)..];
    var offset := 0;
    while offset < |r.newLines|
      invariant 0 <= offset <= |r.newLines|
      invariant lines == AfterInserting(front, r.newLines, offset, back)
    {
      InsertStep(front, r.newLines, offset, back);
      lines := Insert(lines, r.start + offset, r.newLines[offset]);
      offset := offset + 1;
    }
  }

  /** `apply_replacements`. The list may be any that is sorted by start. */
  method ApplyReplacements(original: seq<string>, rs: seq<Replacement>) returns (lines: seq<string>)
    requires SortedByStart(rs) && StartsWithin(rs, |original|)
    ensures lines == ApplyBackwards(original, rs)
  {
    hide ApplyOne;
    lines := original;
    var n := |rs|;
    while n > 0
      invariant 0 <= n <= |rs|
      invariant lines == ApplyBackwards(original, rs[n..])
    {
      n := n - 1;
      assert rs[n..][0] == rs[n] && rs[n..][1..] == rs[n + 1..];
      lines := ReplaceRegion(lines, rs[n]);
    }
    assert rs[0..] == rs;
  }

  lemma SortedTail(rs: seq<Replacement>, n: nat)
    requires rs != [] && SortedByStart(rs) && StartsWithin(rs, n)
    ensures SortedByStart(rs[1..]) && StartsWithin(rs[1..], n) && rs[0].start <= n
  {
    assert rs[0] in rs && (forall r :: r in rs[1..] ==> r in rs);
  }

  /** Back to front in place is the same as left to right in one pass. */
  lemma {:induction false} BackwardsIsSplice(lines: seq<string>, rs: seq<Replacement>, from: nat)
    requires SortedByStart(rs) && StartsWithin(rs, |lines|)
    requires from <= |lines| && InOrder(rs, from, |lines|)
    ensures ApplyBackwards(lines, rs) == lines[..from] + Splice(lines, rs, from)
  {
    hide SortedByStart, StartsWithin, ApplyOne;
    if rs != [] {
      var r := rs[0];
      SortedTail(rs, |lines|);
      BackwardsIsSplice(lines, rs[1..], r.End());
      var rest := Splice(lines, rs[1..], r.End());
      ApplyOneBefore(lines, r, rest);
      assert Splice(lines, rs, from) == lines[from..r.start] + r.newLines + rest;
      hide Splice, InOrder;
      assert lines[..r.start] == lines[..from] + lines[from..r.start];
    }
  }

  lemma ApplyOneBefore(lines: seq<string>, r: Replacement, rest: seq<string>)
    requires r.End() <= |lines|
    ensures ApplyOne(lines[..r.End()] + rest, r) == lines[..r.start] + r.newLines + rest
  {
    var out := lines[..r.End()] + rest;
    assert out[..r.start] == lines[..r.start];
    assert out[r.End()..] == rest;
  }

  // What the splice keeps and where it puts it

  function NetGrowth(rs: seq<Replacement>): int {
    if rs == [] then 0 else |rs[0].newLines| - rs[0].oldLen + NetGrowth(rs[1..])
  }

  lemma {:induction false} SpliceLength(lines: seq<string>, rs: seq<Replacement>, from: nat)
    requires from <= |lines| && InOrder(rs, from, |lines|)
    ensures |Splice(lines, rs, from)| == |lines| - from + NetGrowth(rs)
  {
    if rs != [] {
      SpliceLength(lines, rs[1..], rs[0].End());
    }
  }

  predicate Untouched(rs: seq<Replacement>, i: nat) {
    forall r :: r in rs ==> i < r.start || r.End() <= i
  }

  /** By how much the regions in front of line `i` move it. */
  function Shift(rs: seq<Replacement>, i: nat): int {
    if rs == [] || i < rs[0].start then 0
    else |rs[0].newLines| - rs[0].oldLen + Shift(rs[1..], i)
  }

  /** A line outside every region survives, moved by the growth of the regions before it. */
  lemma {:induction false} UntouchedLineSurvives(lines: seq<string>, rs: seq<Replacement>, from: nat, i: nat)
    requires from <= i < |lines| && InOrder(rs, from, |lines|)
    requires Untouched(rs, i)
    ensures 0 <= i - from + Shift(rs, i) < |Splice(lines, rs, from)|
    ensures Splice(lines, rs, from)[i - from + Shift(rs, i)] == lines[i]
  {
    if rs != [] {
      var r := rs[0];
      var kept, rest := lines[from..r.start], Splice(lines, rs[1..], r.End());
      assert Splice(lines, rs, from) == kept + r.newLines + rest;
      assert r in rs && Untouched(rs[1..], i);
      assert i < r.start || r.End() <= i;
      hide Splice, Untouched;
      if i < r.start {
        IndexOfPrefix(kept, r.newLines, rest, i - from);
      } else {
        UntouchedLineSurvives(lines, rs[1..], r.End(), i);
        IndexOfSuffix(kept + r.newLines, rest, i - r.End() + Shift(rs[1..], i));
      }
    }
  }

  lemma IndexOfPrefix(front: seq<string>, middle: seq<string>, back: seq<string>, i: nat)
    requires i < |front|
    ensures i < |front + middle + back| && (front + middle + back)[i] == front[i]
  {
  }

  lemma IndexOfSuffix(front: seq<string>, back: seq<string>, i: nat)
    requires i < |back|
    ensures (front + back)[|front| + i] == back[i]
  {
  }

  /** Where the new lines of the `k`-th replacement start in the splice. */
  function Position(rs: seq<Replacement>, from: nat, k: nat): int
    requires k < |rs|
  {
    rs[0].start - from + if k == 0 then 0 else |rs[0].newLines| + Position(rs[1..], rs[0].End(), k - 1)
  }

  /** That is where its region was, moved by the growth of the regions before it. */
  lemma {:induction false} PositionIsShiftedStart(rs: seq<Replacement>, from: nat, k: nat)
    requires k < |rs|
    ensures Position(rs, from, k) == rs[k].start - from + NetGrowth(rs[..k])
  {
    if k > 0 {
      PositionIsShiftedStart(rs[1..], rs[0].End(), k - 1);
      NetGrowthOfPrefix(rs, k);
    }
  }

  /** The new lines of every replacement are in the splice, whole and in place. */
  lemma {:induction false} NewLinesArePlaced(lines: seq<string>, rs: seq<Replacement>, from: nat, k: nat)
    requires from <= |lines| && InOrder(rs, from, |lines|) && k < |rs|
    ensures var at := Position(rs, from, k);
            && 0 <= at <= at + |rs[k].newLines| <= |Splice(lines, rs, from)|
            && Splice(lines, rs, from)[at..at + |rs[k].newLines|] == rs[k].newLines
  {
    var kept := lines[from..rs[0].start];
    var rest := Splice(lines, rs[1..], rs[0].End());
    assert Splice(lines, rs, from) == kept + rs[0].newLines + rest;
    hide Splice;
    if k == 0 {
      SliceOfMiddle(kept, rs[0].newLines, rest);
    } else {
      NewLinesArePlaced(lines, rs[1..], rs[0].End(), k - 1);
      var at := Position(rs[1..], rs[0].End(), k - 1);
      SliceOfSuffix(kept + rs[0].newLines, rest, at, at + |rs[k].newLines|);
    }
  }

  lemma NetGrowthOfPrefix(rs: seq<Replacement>, k: nat)
    requires 0 < k <= |rs|
    ensures NetGrowth(rs[..k]) == |rs[0].newLines| - rs[0].oldLen + NetGrowth(rs[1..][..k - 1])
  {
    assert rs[..k][1..] == rs[1..][..k - 1];
  }

  lemma SliceOfMiddle(front: seq<string>, middle: seq<string>, back: seq<string>)
    ensures (front + middle + back)[|front|..|front| + |middle|] == middle
  {
  }

  lemma SliceOfSuffix(front: seq<string>, back: seq<string>, i: nat, j: nat)
    requires i <= j <= |back|
    ensures (front + back)[|front| + i..|front| + j] == back[i..j]
  {
  }

  /** A replacement whose new lines are the old ones does nothing, so overlaps do not matter. */
  lemma {:induction false} NoopReplacements(lines: seq<string>, rs: seq<Replacement>)
    requires SortedByStart(rs) && InFile(rs, |lines|)
    requires forall r :: r in rs ==> r.newLines == lines[r.start..r.End()]
    ensures ApplyBackwards(lines, rs) == lines
  {
    hide SortedByStart;
    if rs != [] {
      assert rs[0] in rs;
      SortedTail(rs, |lines|);
      NoopReplacements(lines, rs[1..]);
      var r := rs[0];
      assert lines[..r.start] + lines[r.start..r.End()] + lines[r.End()..] == lines;
    }
  }
}
