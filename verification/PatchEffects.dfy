/** What applying a patch leaves in each file, and what is announced beforehand, told file by file and down
    to the text of the lines. */
module PatchEffects {
  import opened Results
  import opened Patch
  import opened Replacements
  import opened Splicing
  import opened Contents
  import opened PatchFiles

  /** Where a hunk's file ends up. */
  function Target(cwd: string, hunk: Hunk): string {
    if hunk.UpdateFile? && hunk.movePath.Some? then Resolve(cwd, hunk.movePath.value) else Resolve(cwd, hunk.path)
  }

  /** A path is taken as it is if it starts at the root, else below the working directory. */
  lemma ResolveIsBelow(cwd: string, path: string)
    ensures path != "" && path[0] == '/' ==> Resolve(cwd, path) == path
    ensures cwd != "" && cwd[|cwd| - 1] != '/' && (path == "" || path[0] != '/') ==>
              Resolve(cwd, path) == cwd + ['/'] + path
    ensures cwd != "" && cwd[|cwd| - 1] == '/' && (path == "" || path[0] != '/') ==> Resolve(cwd, path) == cwd + path
    ensures path == "" || path[0] != '/' ==> Resolve("", path) == path
  {
    assert "/" <= path <==> path != "" && path[0] == '/';
    assert "" + path == path;
  }

  /** The text in the file at `q`, if there is one. */
  function TextAt(files: Files, q: string): Option<string> {
    if q in files then Some(files[q]) else None
  }

  /** From `before` to `after`: an added file has its contents, a deleted one was there and is gone, an
      updated one has the patched text, at its new path if it moves, and then nothing is left at the old
      one. All other files are as they were. */
  ghost predicate Effect(before: Files, cwd: string, hunk: Hunk, after: Files) {
    var path, target := Resolve(cwd, hunk.path), Target(cwd, hunk);
    && (match hunk
        case AddFile(_, contents) => TextAt(after, path) == Some(contents)
        case DeleteFile(_) => TextAt(before, path).Some? && TextAt(after, path).None?
        case UpdateFile(_, movePath, chunks) =>
          && TextAt(before, path).Some?
          && NewContents(before[path], chunks).Ok?
          && (movePath.Some? ==> TextAt(after, path).None?)
          && (movePath.None? || target != path ==>
                TextAt(after, target) == Some(NewContents(before[path], chunks).value)))
    && forall q :: q != path && q != target ==> TextAt(after, q) == TextAt(before, q)
  }

  lemma EffectIsUnique(before: Files, cwd: string, hunk: Hunk, a: Files, b: Files)
    requires Effect(before, cwd, hunk, a) && Effect(before, cwd, hunk, b)
    ensures a == b
  {
    hide NewContents, Resolve;
    forall q ensures (q in a <==> q in b) && (q in a ==> a[q] == b[q]) {
      assert TextAt(a, q) == TextAt(b, q);
    }
  }

  /** A hunk that is applied has exactly that effect. */
  lemma AppliedIffEffect(files: Files, cwd: string, hunk: Hunk, after: Files)
    ensures ApplyHunk(files, cwd, hunk) == Ok(after) <==> Effect(files, cwd, hunk, after)
  {
    hide NewContents, Resolve;
    if Effect(files, cwd, hunk, after) {
      var now := ApplyHunk(files, cwd, hunk).value;
      assert Effect(files, cwd, hunk, now);
      EffectIsUnique(files, cwd, hunk, after, now);
    }
  }

  /** It fails exactly if there is no file to delete or update, or a chunk has no place in it. */
  lemma FailsIff(files: Files, cwd: string, hunk: Hunk, e: FileError)
    ensures var path := Resolve(cwd, hunk.path);
            ApplyHunk(files, cwd, hunk) == Err(e)
            <==> match hunk
                 case AddFile(_, _) => false
                 case DeleteFile(_) => path !in files && e == CannotDelete(path)
                 case UpdateFile(_, _, chunks) =>
                   || (path !in files && e == CannotRead(path))
                   || (path in files && NewContents(files[path], chunks).Err?
                       && e == CannotUpdate(path, NewContents(files[path], chunks).error))
  {
    hide NewContents, Resolve;
  }

  // What is announced

  /** The announcement for one hunk: the contents to be added, those to be deleted, or the patched text
      and the new path. */
  ghost predicate Announced(files: Files, cwd: string, hunk: Hunk, change: Change) {
    var path := Resolve(cwd, hunk.path);
    match hunk
    case AddFile(_, contents) => change == Add(contents)
    case DeleteFile(_) => path in files && change == Delete(files[path])
    case UpdateFile(_, movePath, chunks) =>
      && path in files && change.Update?
      && NewContents(files[path], chunks) == Ok(change.newContent)
      && change.movePath == if movePath.Some? then Some(Target(cwd, hunk)) else None
  }

  lemma AnnouncedIff(files: Files, cwd: string, hunk: Hunk, change: Change)
    ensures ChangeOf(files, cwd, hunk) == Ok(change) <==> Announced(files, cwd, hunk, change)
  {
    hide NewContents, Resolve;
  }

  /** There is nothing to announce exactly if there is no file to read, or a chunk has no place in it. */
  lemma AnnouncementFailsIff(files: Files, cwd: string, hunk: Hunk, e: FileError)
    ensures var path := Resolve(cwd, hunk.path);
            ChangeOf(files, cwd, hunk) == Err(e)
            <==> || (!hunk.AddFile? && path !in files && e == CannotRead(path))
                 || (hunk.UpdateFile? && path in files && NewContents(files[path], hunk.chunks).Err?
                     && e == CannotUpdate(path, NewContents(files[path], hunk.chunks).error))
  {
    hide NewContents, Resolve;
  }

  /** The last of the hunks for the file at `p`. */
  ghost predicate IsLastFor(cwd: string, hunks: seq<Hunk>, p: string, i: int) {
    && 0 <= i < |hunks| && Resolve(cwd, hunks[i].path) == p
    && forall j :: i < j < |hunks| ==> Resolve(cwd, hunks[j].path) != p
  }

  ghost predicate IsFor(cwd: string, hunks: seq<Hunk>, p: string) {
    exists i :: IsLastFor(cwd, hunks, p, i)
  }

  /** An announcement covers every hunk's own path, with the change of the last hunk for it, all against
      the files as they are. */
  lemma {:induction false} AnnouncementCovers(files: Files, cwd: string, hunks: seq<Hunk>, changes: Changes, p: string)
    requires Announce(files, cwd, hunks, changes).Ok?
    ensures var r := Announce(files, cwd, hunks, changes).value;
            if IsFor(cwd, hunks, p)
            then p in r && exists i :: IsLastFor(cwd, hunks, p, i) && Announced(files, cwd, hunks[i], r[p])
            else p in r <==> p in changes
    ensures var r := Announce(files, cwd, hunks, changes).value;
            !IsFor(cwd, hunks, p) && p in changes ==> r[p] == changes[p]
    decreases |hunks|
  {
    hide ChangeOf, Resolve, Announced;
    if hunks == [] {
      return;
    }
    var path, change := Resolve(cwd, hunks[0].path), ChangeOf(files, cwd, hunks[0]).value;
    var more := changes[path := change];
    AnnouncementCovers(files, cwd, hunks[1..], more, p);
    AnnouncedIff(files, cwd, hunks[0], change);
    LastForTail(cwd, hunks, p);
    var r := Announce(files, cwd, hunks, changes).value;
    assert r == Announce(files, cwd, hunks[1..], more).value;
    if IsFor(cwd, hunks[1..], p) {
      var i :| IsLastFor(cwd, hunks[1..], p, i) && Announced(files, cwd, hunks[1..][i], r[p]);
      assert IsLastFor(cwd, hunks, p, i + 1) && hunks[i + 1] == hunks[1..][i];
    } else if path == p {
      assert IsLastFor(cwd, hunks, p, 0);
    }
  }

  lemma LastForTail(cwd: string, hunks: seq<Hunk>, p: string)
    requires hunks != []
    ensures forall i :: 0 <= i ==> (IsLastFor(cwd, hunks[1..], p, i) <==> IsLastFor(cwd, hunks, p, i + 1))
    ensures !IsFor(cwd, hunks[1..], p) && Resolve(cwd, hunks[0].path) == p ==> IsLastFor(cwd, hunks, p, 0)
    ensures IsFor(cwd, hunks, p) <==> IsFor(cwd, hunks[1..], p) || Resolve(cwd, hunks[0].path) == p
  {
    hide Resolve;
    assert forall j :: 0 <= j < |hunks| - 1 ==> hunks[1..][j] == hunks[j + 1];
    if IsFor(cwd, hunks[1..], p) {
      var i :| IsLastFor(cwd, hunks[1..], p, i);
      assert IsLastFor(cwd, hunks, p, i + 1);
    } else if Resolve(cwd, hunks[0].path) == p {
      NoneForTail(cwd, hunks[1..], p, 0);
      assert IsLastFor(cwd, hunks, p, 0);
    }
    if IsFor(cwd, hunks, p) {
      var i :| IsLastFor(cwd, hunks, p, i);
      assert i > 0 ==> IsLastFor(cwd, hunks[1..], p, i - 1);
    }
  }

  /** A path that has no last hunk has none. */
  lemma NoneForTail(cwd: string, hunks: seq<Hunk>, p: string, k: nat)
    requires !IsFor(cwd, hunks, p)
    ensures forall j :: k <= j < |hunks| ==> Resolve(cwd, hunks[j].path) != p
    decreases |hunks| - k
  {
    hide Resolve;
    if k < |hunks| {
      NoneForTail(cwd, hunks, p, k + 1);
      assert !IsLastFor(cwd, hunks, p, k);
    }
  }

  /** An announcement fails with the first hunk for which there is nothing to announce. */
  lemma {:induction false} AnnouncementFails(files: Files, cwd: string, hunks: seq<Hunk>, changes: Changes) returns (k: nat)
    requires Announce(files, cwd, hunks, changes).Err?
    ensures k < |hunks| && ChangeOf(files, cwd, hunks[k]) == Err(Announce(files, cwd, hunks, changes).error)
    ensures forall i :: 0 <= i < k ==> ChangeOf(files, cwd, hunks[i]).Ok?
    decreases |hunks|
  {
    hide ChangeOf, Resolve;
    if ChangeOf(files, cwd, hunks[0]).Err? {
      return 0;
    }
    var n := AnnouncementFails(files, cwd, hunks[1..],
                               changes[Resolve(cwd, hunks[0].path) := ChangeOf(files, cwd, hunks[0]).value]);
    k := n + 1;
    assert forall i :: 0 < i <= n + 1 ==> hunks[i] == hunks[1..][i - 1];
  }

  // Whole runs

  /** The files between one hunk and the next. */
  ghost predicate IsCourse(states: seq<Files>, cwd: string, hunks: seq<Hunk>) {
    && |states| == |hunks| + 1
    && forall i :: 0 <= i < |hunks| ==> Effect(states[i], cwd, hunks[i], states[i + 1])
  }

  /** Hunks are applied one after the other, each to what the ones before have left. */
  lemma {:induction false} RunHasCourse(files: Files, cwd: string, hunks: seq<Hunk>) returns (states: seq<Files>)
    requires ApplyAll(files, cwd, hunks).error.None?
    ensures IsCourse(states, cwd, hunks)
    ensures states[0] == files && states[|hunks|] == ApplyAll(files, cwd, hunks).files
    decreases |hunks|
  {
    hide ApplyHunk, Effect;
    if hunks == [] {
      return [files];
    }
    var next := ApplyHunk(files, cwd, hunks[0]).value;
    AppliedIffEffect(files, cwd, hunks[0], next);
    var more := RunHasCourse(next, cwd, hunks[1..]);
    states := [files] + more;
    forall i | 0 <= i < |hunks| ensures Effect(states[i], cwd, hunks[i], states[i + 1]) {
      if i > 0 {
        assert hunks[i] == hunks[1..][i - 1] && states[i] == more[i - 1] && states[i + 1] == more[i];
      }
    }
  }

  /** The hunk for the `i`-th path, and none other, shows there in the end. */
  ghost predicate Shows(files: Files, cwd: string, hunk: Hunk, after: Files) {
    var path, target := Resolve(cwd, hunk.path), Target(cwd, hunk);
    match hunk
    case AddFile(_, contents) => TextAt(after, path) == Some(contents)
    case DeleteFile(_) => TextAt(after, path).None?
    case UpdateFile(_, movePath, chunks) =>
      && path in files && NewContents(files[path], chunks).Ok?
      && TextAt(after, target) == Some(NewContents(files[path], chunks).value)
      && (movePath.Some? ==> TextAt(after, path).None?)
  }

  lemma {:induction false} NamedByHunk(cwd: string, hunks: seq<Hunk>, i: nat)
    requires i < |hunks|
    ensures forall q :: q in Named(cwd, hunks[i]) ==> q in AllNamed(cwd, hunks)
  {
    hide Named;
    if i > 0 {
      NamedByHunk(cwd, hunks[1..], i - 1);
      assert hunks[1..][i - 1] == hunks[i];
    }
  }

  /** When the paths a patch names are pairwise distinct: a patch that is applied leaves each hunk's file
      with the text the hunk gives to it, read against the files as they were, and every file it does
      not name as it was. */
  lemma {:induction false} DistinctRunShows(files: Files, cwd: string, hunks: seq<Hunk>)
    requires Distinct(AllNamed(cwd, hunks)) && ApplyAll(files, cwd, hunks).error.None?
    ensures var after := ApplyAll(files, cwd, hunks).files;
            && (forall i :: 0 <= i < |hunks| ==> Shows(files, cwd, hunks[i], after))
            && (forall q :: q !in AllNamed(cwd, hunks) ==> TextAt(after, q) == TextAt(files, q))
    decreases |hunks|
  {
    hide ApplyHunk, Effect, Shows, Resolve, Named, Distinct;
    if hunks == [] {
      return;
    }
    var next, rest := ApplyHunk(files, cwd, hunks[0]).value, hunks[1..];
    AppliedIffEffect(files, cwd, hunks[0], next);
    DistinctParts(Named(cwd, hunks[0]), AllNamed(cwd, rest));
    DistinctRunShows(next, cwd, rest);
    var after := ApplyAll(files, cwd, hunks).files;
    EffectElsewhere(files, cwd, hunks[0], next);
    EffectShows(files, cwd, hunks[0], next, after, AllNamed(cwd, rest));
    forall i | 0 <= i < |hunks| ensures Shows(files, cwd, hunks[i], after) {
      if i > 0 {
        assert hunks[i] == rest[i - 1];
        NamedByHunk(cwd, rest, i - 1);
        OwnPathIsNamed(cwd, hunks[i]);
        ShowsFromBefore(files, next, cwd, hunks[i], after);
      }
    }
  }

  lemma OwnPathIsNamed(cwd: string, hunk: Hunk)
    ensures Resolve(cwd, hunk.path) in Named(cwd, hunk)
  {
    hide Resolve;
    assert Named(cwd, hunk)[0] == Resolve(cwd, hunk.path);
  }

  lemma DistinctParts(a: seq<string>, b: seq<string>)
    requires Distinct(a + b)
    ensures Distinct(a) && Distinct(b) && forall q :: q in a ==> q !in b
  {
    var all := a + b;
    assert forall i :: 0 <= i < |a| ==> all[i] == a[i];
    assert forall i :: 0 <= i < |b| ==> all[|a| + i] == b[i];
  }

  lemma EffectElsewhere(files: Files, cwd: string, hunk: Hunk, next: Files)
    requires Effect(files, cwd, hunk, next)
    ensures forall q :: q !in Named(cwd, hunk) ==> TextAt(next, q) == TextAt(files, q)
  {
    hide NewContents, Resolve;
    var named := Named(cwd, hunk);
    assert named[0] == Resolve(cwd, hunk.path);
    assert hunk.UpdateFile? && hunk.movePath.Some? ==> named[1] == Target(cwd, hunk);
  }

  lemma EffectShows(files: Files, cwd: string, hunk: Hunk, next: Files, after: Files, others: seq<string>)
    requires Effect(files, cwd, hunk, next) && Distinct(Named(cwd, hunk))
    requires forall q :: q in Named(cwd, hunk) ==> q !in others
    requires forall q :: q !in others ==> TextAt(after, q) == TextAt(next, q)
    ensures Shows(files, cwd, hunk, after)
  {
    hide NewContents, Resolve;
    var named := Named(cwd, hunk);
    assert named[0] == Resolve(cwd, hunk.path);
    assert hunk.UpdateFile? && hunk.movePath.Some? ==> named[1] == Target(cwd, hunk) != named[0];
  }

  lemma ShowsFromBefore(files: Files, next: Files, cwd: string, hunk: Hunk, after: Files)
    requires Shows(next, cwd, hunk, after)
    requires TextAt(next, Resolve(cwd, hunk.path)) == TextAt(files, Resolve(cwd, hunk.path))
    ensures Shows(files, cwd, hunk, after)
  {
    hide NewContents, Resolve;
  }

  // Down to the lines

  /** An update that is applied writes the splice of the file's lines, unless regions clash. */
  lemma UpdateWritesSplice(files: Files, cwd: string, path: string, movePath: Option<string>, chunks: seq<Chunk>)
    requires Resolve(cwd, path) in files
    requires var lines := FileLines(files[Resolve(cwd, path)]);
             && Plan(lines, chunks, 0).Ok?
             && !AdditionMeetsRegion(lines, chunks, Plan(lines, chunks, 0).value)
             && !EofMeetsRegion(lines, chunks, Plan(lines, chunks, 0).value)
    requires movePath.Some? ==> Resolve(cwd, movePath.value) != Resolve(cwd, path)
    ensures var hunk, text := UpdateFile(path, movePath, chunks), files[Resolve(cwd, path)];
            var rs := SortByStart(Plan(FileLines(text), chunks, 0).value);
            && InOrder(rs, 0, |FileLines(text)|)
            && ApplyHunk(files, cwd, hunk).Ok?
            && TextAt(ApplyHunk(files, cwd, hunk).value, Target(cwd, hunk))
               == Some(Render(Splice(FileLines(text), rs, 0), Detect(text)))
  {
    hide NewContents, Resolve, Plan, SortByStart, Splice, Render, AdditionMeetsRegion, EofMeetsRegion, FileLines, Detect, InOrder;
    OrdinaryPatchSplices(files[Resolve(cwd, path)], chunks);
  }
}
