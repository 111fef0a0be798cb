/** Hunks against a file system: what verification announces and what application does. */
module PatchFiles {
  import opened Results
  import opened Patch
  import opened Replacements
  import opened Contents

  /** The texts of the files there are, by resolved path. */
  type Files = map<string, string>

  datatype FileError =
    | NoHunks
    | CannotRead(path: string)
    | CannotDelete(path: string)
    | CannotUpdate(path: string, error: ReplaceError)

  /** `Path::join` */
  function Resolve(cwd: string, path: string): string {
    if "/" <= path then path
    else if cwd == "" || cwd[|cwd| - 1] == '/' then cwd + path
    else cwd + "/" + path
  }

  class FileSystem {
    var files: Files

    constructor (initial: Files)
      ensures files == initial
    {
      files := initial;
    }

    method ReadToString(path: string) returns (r: Result<string, FileError>)
      ensures r == if path in files then Ok(files[path]) else Err(CannotRead(path))
    {
      if path in files { return Ok(files[path]); }
      return Err(CannotRead(path));
    }

    method Write(path: string, contents: string)
      modifies this
      ensures files == old(files)[path := contents]
    {
      files := files[path := contents];
    }

    method RemoveFile(path: string) returns (r: Result<(), FileError>)
      modifies this
      ensures files == old(files) - {path}
      ensures r == if path in old(files) then Ok(()) else Err(CannotDelete(path))
    {
      if path !in files {
        assert files == files - {path};
        return Err(CannotDelete(path));
      }
      files := files - {path};
      return Ok(());
    }
  }

  // What a hunk does

  ghost function Updated(files: Files, path: string, chunks: seq<Chunk>): Result<string, FileError> {
    if path !in files then Err(CannotRead(path))
    else
      match NewContents(files[path], chunks)
      case Ok(text) => Ok(text)
      case Err(e) => Err(CannotUpdate(path, e))
  }

  ghost function ApplyHunk(files: Files, cwd: string, hunk: Hunk): Result<Files, FileError> {
    var path := Resolve(cwd, hunk.path);
    match hunk
    case AddFile(_, contents) => Ok(files[path := contents])
    case DeleteFile(_) => if path in files then Ok(files - {path}) else Err(CannotDelete(path))
    case UpdateFile(_, movePath, chunks) =>
      match Updated(files, path, chunks)
      case Err(e) => Err(e)
      case Ok(text) =>
        match movePath
        case None => Ok(files[path := text])
        case Some(dest) => Ok(files[Resolve(cwd, dest) := text] - {path})
  }

  /** Where a run of hunks ends: the files then, and the error that stopped it, if any. */
  datatype Run = Run(files: Files, error: Option<FileError>)

  ghost function ApplyAll(files: Files, cwd: string, hunks: seq<Hunk>): Run
    decreases |hunks|
  {
    if hunks == [] then Run(files, None)
    else
      match ApplyHunk(files, cwd, hunks[0])
      case Err(e) => Run(files, Some(e))
      case Ok(next) => ApplyAll(next, cwd, hunks[1..])
  }

  /** A patch as a whole: one without hunks is refused. */
  ghost function ApplyPatch(files: Files, cwd: string, hunks: seq<Hunk>): Run {
    if hunks == [] then Run(files, Some(NoHunks)) else ApplyAll(files, cwd, hunks)
  }

  datatype Affected = Affected(added: seq<string>, modified: seq<string>, deleted: seq<string>)

  /** The path a hunk is listed under in the summary. */
  function ListHunk(a: Affected, hunk: Hunk): Affected {
    match hunk
    case AddFile(path, _) => a.(added := a.added + [path])
    case DeleteFile(path) => a.(deleted := a.deleted + [path])
    case UpdateFile(path, movePath, _) =>
      a.(modified := a.modified + [if movePath.Some? then movePath.value else path])
  }

  function ListHunks(a: Affected, hunks: seq<Hunk>): Affected
    decreases |hunks|
  {
    if hunks == [] then a else ListHunks(ListHunk(a, hunks[0]), hunks[1..])
  }

  /** `derive_new_contents_from_chunks` */
  method DeriveNewContentsOf(fs: FileSystem, path: string, chunks: seq<Chunk>) returns (r: Result<string, FileError>)
    ensures r == Updated(fs.files, path, chunks)
  {
    hide NewContents;
    var original := fs.ReadToString(path);
    if original.Err? {
      return Err(original.error);
    }
    var derived := DeriveNewContents(original.value, chunks);
    match derived
    case Ok(text) => return Ok(text);
    case Err(e) => return Err(CannotUpdate(path, e));
  }

  /** The body of the loop of `apply_hunks_to_files` */
  method ApplyHunkToFiles(fs: FileSystem, cwd: string, hunk: Hunk) returns (r: Result<(), FileError>)
    modifies fs
    ensures match ApplyHunk(old(fs.files), cwd, hunk)
            case Ok(files) => r == Ok(()) && fs.files == files
            case Err(e) => r == Err(e) && fs.files == old(fs.files)
  {
    hide Updated;
    var path := Resolve(cwd, hunk.path);
    match hunk {
      case AddFile(_, contents) =>
        fs.Write(path, contents);
        return Ok(());
      case DeleteFile(_) =>
        assert path !in fs.files ==> fs.files - {path} == fs.files;
        r := fs.RemoveFile(path);
      case UpdateFile(_, movePath, chunks) =>
        var text := DeriveNewContentsOf(fs, path, chunks);
        if text.Err? {
          return Err(text.error);
        }
        UpdatedMeansPresent(fs.files, path, chunks);
        if movePath.Some? {
          fs.Write(Resolve(cwd, movePath.value), text.value);
          r := fs.RemoveFile(path);
        } else {
          fs.Write(path, text.value);
          return Ok(());
        }
    }
  }

  lemma UpdatedMeansPresent(files: Files, path: string, chunks: seq<Chunk>)
    requires Updated(files, path, chunks).Ok?
    ensures path in files
  {
  }

  /** `apply_hunks_to_files`. A failing hunk ends the run; what earlier hunks did stays done. */
  method ApplyHunksToFiles(fs: FileSystem, cwd: string, hunks: seq<Hunk>) returns (r: Result<Affected, FileError>)
    modifies fs
    ensures var run := ApplyPatch(old(fs.files), cwd, hunks);
            && fs.files == run.files
            && r == match run.error
                    case None => Ok(ListHunks(Affected([], [], []), hunks))
                    case Some(e) => Err(e)
  {
    hide ApplyHunk;
    if hunks == [] {
      return Err(NoHunks);
    }
    var affected := Affected([], [], []);
    assert hunks[0..] == hunks;
    for i := 0 to |hunks|
      invariant ApplyAll(old(fs.files), cwd, hunks) == ApplyAll(fs.files, cwd, hunks[i..])
      invariant ListHunks(Affected([], [], []), hunks) == ListHunks(affected, hunks[i..])
    {
      assert hunks[i..][0] == hunks[i] && hunks[i..][1..] == hunks[i + 1..];
      var done := ApplyHunkToFiles(fs, cwd, hunks[i]);
      if done.Err? {
        return Err(done.error);
      }
      affected := ListHunk(affected, hunks[i]);
    }
    return Ok(affected);
  }

  // What verification announces

  datatype Change =
    | Add(content: string)
    | Delete(content: string)
    | Update(movePath: Option<string>, newContent: string)

  type Changes = map<string, Change>

  ghost function ChangeOf(files: Files, cwd: string, hunk: Hunk): Result<Change, FileError> {
    var path := Resolve(cwd, hunk.path);
    match hunk
    case AddFile(_, contents) => Ok(Add(contents))
    case DeleteFile(_) => if path in files then Ok(Delete(files[path])) else Err(CannotRead(path))
    case UpdateFile(_, movePath, chunks) =>
      match Updated(files, path, chunks)
      case Err(e) => Err(e)
      case Ok(text) =>
        Ok(Update(match movePath case None => None case Some(dest) => Some(Resolve(cwd, dest)), text))
  }

  ghost function Announce(files: Files, cwd: string, hunks: seq<Hunk>, changes: Changes): Result<Changes, FileError>
    decreases |hunks|
  {
    if hunks == [] then Ok(changes)
    else
      match ChangeOf(files, cwd, hunks[0])
      case Err(e) => Err(e)
      case Ok(change) => Announce(files, cwd, hunks[1..], changes[Resolve(cwd, hunks[0].path) := change])
  }

  /** The hunk loop of `maybe_parse_apply_patch_verified`: every hunk is checked against the files as
      they are before any of them is applied. */
  method VerifyHunks(fs: FileSystem, cwd: string, hunks: seq<Hunk>) returns (r: Result<Changes, FileError>)
    ensures r == Announce(fs.files, cwd, hunks, map[])
  {
    hide Updated;
    var changes: Changes := map[];
    assert hunks[0..] == hunks;
    for i := 0 to |hunks|
      invariant Announce(fs.files, cwd, hunks, map[]) == Announce(fs.files, cwd, hunks[i..], changes)
    {
      assert hunks[i..][0] == hunks[i] && hunks[i..][1..] == hunks[i + 1..];
      var path := Resolve(cwd, hunks[i].path);
      match hunks[i] {
        case AddFile(_, contents) =>
          changes := changes[path := Add(contents)];
        case DeleteFile(_) =>
          var content := fs.ReadToString(path);
          if content.Err? {
            return Err(content.error);
          }
          changes := changes[path := Delete(content.value)];
        case UpdateFile(_, movePath, chunks) =>
          var text := DeriveNewContentsOf(fs, path, chunks);
          if text.Err? {
            return Err(text.error);
          }
          var dest := match movePath case None => None case Some(d) => Some(Resolve(cwd, d));
          changes := changes[path := Update(dest, text.value)];
      }
    }
    return Ok(changes);
  }

  // The two agree when no path is named twice

  /** The paths a hunk names: its own, and where it moves to. */
  function Named(cwd: string, hunk: Hunk): seq<string> {
    [Resolve(cwd, hunk.path)]
    + if hunk.UpdateFile? && hunk.movePath.Some? then [Resolve(cwd, hunk.movePath.value)] else []
  }

  function AllNamed(cwd: string, hunks: seq<Hunk>): seq<string> {
    if hunks == [] then [] else Named(cwd, hunks[0]) + AllNamed(cwd, hunks[1..])
  }

  ghost predicate Distinct(paths: seq<string>) {
    forall i, j :: 0 <= i < j < |paths| ==> paths[i] != paths[j]
  }

  /** A change leaves `text` at `q`. */
  ghost predicate Leaves(change: Change, p: string, q: string, text: string) {
    match change
    case Add(content) => q == p && text == content
    case Delete(_) => false
    case Update(None, content) => q == p && text == content
    case Update(Some(dest), content) => q == dest && text == content
  }

  /** A change takes the file at its own path away. */
  predicate TakesAway(change: Change) {
    change.Delete? || (change.Update? && change.movePath.Some?)
  }

  ghost predicate Touches(changes: Changes, q: string) {
    q in changes || exists p :: p in changes && changes[p].Update? && changes[p].movePath == Some(q)
  }

  /** `after` is `before` updated by exactly these changes. */
  ghost predicate UpdatedBy(before: Files, changes: Changes, after: Files) {
    && (forall p, q, text :: p in changes && Leaves(changes[p], p, q, text) ==> q in after && after[q] == text)
    && (forall p :: p in changes && TakesAway(changes[p]) ==> p !in after)
    && (forall q :: !Touches(changes, q) ==> SameAt(before, after, q))
  }

  predicate SameAt(a: Files, b: Files, q: string) {
    if q in a then q in b && b[q] == a[q] else q !in b
  }

  /** On the paths a hunk names, `now` is still as it was `before`. */
  ghost predicate Untouched(changes: Changes, paths: seq<string>) {
    forall q :: q in paths ==> !Touches(changes, q)
  }

  lemma SameOutcome(before: Files, now: Files, changes: Changes, cwd: string, hunk: Hunk)
    requires UpdatedBy(before, changes, now) && Untouched(changes, Named(cwd, hunk))
    ensures ChangeOf(before, cwd, hunk).Ok? <==> ApplyHunk(now, cwd, hunk).Ok?
  {
    hide NewContents;
    var path := Resolve(cwd, hunk.path);
    assert path == Named(cwd, hunk)[0];
    assert SameAt(before, now, path);
  }

  lemma TouchesAfter(changes: Changes, path: string, change: Change, q: string)
    requires path !in changes
    ensures Touches(changes[path := change], q)
            <==> Touches(changes, q) || q == path || (change.Update? && change.movePath == Some(q))
  {
    var more := changes[path := change];
    assert forall p :: p in changes ==> p in more && more[p] == changes[p];
    assert path in more && more[path] == change;
  }

  lemma OneMoreUpdate(before: Files, now: Files, changes: Changes, cwd: string, hunk: Hunk)
    requires UpdatedBy(before, changes, now)
    requires Untouched(changes, Named(cwd, hunk)) && Distinct(Named(cwd, hunk))
    requires ChangeOf(before, cwd, hunk).Ok? && ApplyHunk(now, cwd, hunk).Ok?
    ensures UpdatedBy(before, changes[Resolve(cwd, hunk.path) := ChangeOf(before, cwd, hunk).value],
                      ApplyHunk(now, cwd, hunk).value)
  {
    hide NewContents;
    var path, change := Resolve(cwd, hunk.path), ChangeOf(before, cwd, hunk).value;
    var more, after := changes[path := change], ApplyHunk(now, cwd, hunk).value;
    assert path == Named(cwd, hunk)[0] && !Touches(changes, path);
    assert SameAt(before, now, path);
    if change.Update? && change.movePath.Some? {
      assert change.movePath.value == Named(cwd, hunk)[1] != Named(cwd, hunk)[0];
      assert !Touches(changes, change.movePath.value);
    }
    forall p, q, text | p in more && Leaves(more[p], p, q, text) ensures q in after && after[q] == text {
      if p != path {
        assert Touches(changes, q);
        assert q in now && now[q] == text;
      }
    }
    forall p | p in more && TakesAway(more[p]) ensures p !in after {
      if p != path {
        assert Touches(changes, p);
        assert p !in now;
      }
    }
    forall q | !Touches(more, q) ensures SameAt(before, after, q) {
      TouchesAfter(changes, path, change, q);
      assert SameAt(before, now, q);
    }
  }

  lemma UntouchedAfter(changes: Changes, before: Files, cwd: string, hunk: Hunk, paths: seq<string>)
    requires Untouched(changes, Named(cwd, hunk) + paths) && Distinct(Named(cwd, hunk) + paths)
    requires ChangeOf(before, cwd, hunk).Ok?
    ensures Untouched(changes, Named(cwd, hunk)) && Distinct(Named(cwd, hunk)) && Distinct(paths)
    ensures Untouched(changes[Resolve(cwd, hunk.path) := ChangeOf(before, cwd, hunk).value], paths)
  {
    hide NewContents, Touches;
    var named, path, change := Named(cwd, hunk), Resolve(cwd, hunk.path), ChangeOf(before, cwd, hunk).value;
    var all := named + paths;
    forall q | q in named ensures !Touches(changes, q) {
      assert q in all;
    }
    assert forall i :: 0 <= i < |named| ==> all[i] == named[i];
    assert forall i :: 0 <= i < |paths| ==> all[|named| + i] == paths[i];
    assert path == named[0];
    assert path !in changes by { PresentIsTouched(changes, path); }
    forall q | q in paths ensures !Touches(changes[path := change], q) {
      var i :| 0 <= i < |paths| && paths[i] == q;
      assert q in all && all[0] != all[|named| + i];
      assert |named| > 1 ==> all[1] != all[|named| + i];
      TouchesAfter(changes, path, change, q);
    }
  }

  lemma PresentIsTouched(changes: Changes, path: string)
    ensures path in changes ==> Touches(changes, path)
  {
  }

  /** From any point of a run on. */
  lemma {:induction false} RunFollowsAnnouncement(before: Files, now: Files, changes: Changes, cwd: string, hunks: seq<Hunk>)
    requires UpdatedBy(before, changes, now)
    requires Untouched(changes, AllNamed(cwd, hunks)) && Distinct(AllNamed(cwd, hunks))
    ensures Announce(before, cwd, hunks, changes).Ok? <==> ApplyAll(now, cwd, hunks).error.None?
    ensures Announce(before, cwd, hunks, changes).Ok? ==>
              UpdatedBy(before, Announce(before, cwd, hunks, changes).value, ApplyAll(now, cwd, hunks).files)
    decreases |hunks|
  {
    hide ChangeOf, ApplyHunk, UpdatedBy, Untouched, Distinct, Named, Resolve;
    if hunks != [] {
      var hunk, rest := hunks[0], AllNamed(cwd, hunks[1..]);
      NamedFirst(changes, cwd, hunk, rest);
      SameOutcome(before, now, changes, cwd, hunk);
      if ChangeOf(before, cwd, hunk).Ok? {
        UntouchedAfter(changes, before, cwd, hunk, rest);
        OneMoreUpdate(before, now, changes, cwd, hunk);
        RunFollowsAnnouncement(before, ApplyHunk(now, cwd, hunk).value,
                               changes[Resolve(cwd, hunk.path) := ChangeOf(before, cwd, hunk).value], cwd, hunks[1..]);
      }
    }
  }

  lemma NamedFirst(changes: Changes, cwd: string, hunk: Hunk, rest: seq<string>)
    requires Untouched(changes, Named(cwd, hunk) + rest)
    ensures Untouched(changes, Named(cwd, hunk))
  {
    assert forall q :: q in Named(cwd, hunk) ==> q in Named(cwd, hunk) + rest;
  }

  /** When the paths a patch names are pairwise distinct, it applies if and only if it verifies and has a
      hunk at all, and then the files are the old ones updated by exactly the announced changes. A patch
      without hunks verifies, announcing nothing, and is refused. */
  lemma AppliedAsAnnounced(files: Files, cwd: string, hunks: seq<Hunk>)
    requires Distinct(AllNamed(cwd, hunks))
    ensures ApplyPatch(files, cwd, hunks).error.None? <==> Announce(files, cwd, hunks, map[]).Ok? && hunks != []
    ensures Announce(files, cwd, hunks, map[]).Ok? ==>
              UpdatedBy(files, Announce(files, cwd, hunks, map[]).value, ApplyPatch(files, cwd, hunks).files)
  {
    RunFollowsAnnouncement(files, files, map[], cwd, hunks);
  }

  /** That is the one case in which verification and application disagree: every patch without hunks. */
  lemma EmptyPatchVerifiesAndIsRefused(files: Files, cwd: string)
    ensures Announce(files, cwd, [], map[]) == Ok(map[])
    ensures ApplyPatch(files, cwd, []) == Run(files, Some(NoHunks))
  {
  }

  /** The announced changes leave no choice: two results that are updated by them are the same. */
  lemma UpdatedByIsUnique(before: Files, changes: Changes, a: Files, b: Files)
    requires UpdatedBy(before, changes, a) && UpdatedBy(before, changes, b)
    ensures a == b
  {
    forall q ensures (q in a <==> q in b) && (q in a ==> a[q] == b[q]) {
      if !Touches(changes, q) {
        assert SameAt(before, a, q) && SameAt(before, b, q);
      } else if q in changes {
        assert TakesAway(changes[q]) || Leaves(changes[q], q, q, TextOf(changes[q]));
      } else {
        var p :| p in changes && changes[p].Update? && changes[p].movePath == Some(q);
        assert Leaves(changes[p], p, q, changes[p].newContent);
      }
    }
  }

  function TextOf(change: Change): string {
    match change
    case Add(content) => content
    case Delete(content) => content
    case Update(_, content) => content
  }

  /** Without distinctness they differ: a file moved onto itself is announced as updated and is
      deleted instead. */
  lemma MoveOntoItselfDeletes(files: Files, cwd: string, path: string, dest: string, chunks: seq<Chunk>)
    requires Resolve(cwd, dest) == Resolve(cwd, path)
    requires Updated(files, Resolve(cwd, path), chunks).Ok?
    ensures var hunk := UpdateFile(path, Some(dest), chunks);
            && ApplyHunk(files, cwd, hunk) == Ok(files - {Resolve(cwd, path)})
            && ChangeOf(files, cwd, hunk)
               == Ok(Update(Some(Resolve(cwd, path)), Updated(files, Resolve(cwd, path), chunks).value))
  {
    hide Updated, Resolve;
    var p := Resolve(cwd, path);
    var text := Updated(files, p, chunks).value;
    assert files[p := text] - {p} == files - {p};
  }

  /** One hunk that verifies is applied as announced if and only if it does not move a file onto itself. */
  lemma OneHunkAsAnnouncedIff(files: Files, cwd: string, hunk: Hunk)
    requires ChangeOf(files, cwd, hunk).Ok? && ApplyHunk(files, cwd, hunk).Ok?
    ensures UpdatedBy(files, map[Resolve(cwd, hunk.path) := ChangeOf(files, cwd, hunk).value],
                      ApplyHunk(files, cwd, hunk).value)
            <==> Distinct(Named(cwd, hunk))
  {
    hide NewContents, Resolve;
    var path, change := Resolve(cwd, hunk.path), ChangeOf(files, cwd, hunk).value;
    if Distinct(Named(cwd, hunk)) {
      assert UpdatedBy(files, map[], files);
      OneMoreUpdate(files, files, map[], cwd, hunk);
      assert map[][path := change] == map[path := change];
    } else {
      assert change == Update(Some(path), change.newContent);
      assert Leaves(change, path, path, change.newContent);
    }
  }

  /** A failing run stops at a hunk that cannot be applied, with exactly the earlier ones applied. */
  lemma {:induction false} FailureKeepsEarlierHunks(files: Files, cwd: string, hunks: seq<Hunk>) returns (k: nat)
    requires ApplyAll(files, cwd, hunks).error.Some?
    ensures k < |hunks|
    ensures ApplyAll(files, cwd, hunks[..k]) == Run(ApplyAll(files, cwd, hunks).files, None)
    ensures ApplyHunk(ApplyAll(files, cwd, hunks).files, cwd, hunks[k]) == Err(ApplyAll(files, cwd, hunks).error.value)
    decreases |hunks|
  {
    hide ApplyHunk;
    if ApplyHunk(files, cwd, hunks[0]).Err? {
      k := 0;
    } else {
      var n := FailureKeepsEarlierHunks(ApplyHunk(files, cwd, hunks[0]).value, cwd, hunks[1..]);
      k := n + 1;
      assert hunks[..k][0] == hunks[0] && hunks[..k][1..] == hunks[1..][..n];
    }
  }

  datatype Kind = Adds | Deletes | Updates

  function KindOf(hunk: Hunk): Kind {
    match hunk
    case AddFile(_, _) => Adds
    case DeleteFile(_) => Deletes
    case UpdateFile(_, _, _) => Updates
  }

  /** The path a hunk's file has afterwards, or had if it is deleted. */
  function ListedPath(hunk: Hunk): string {
    if hunk.UpdateFile? && hunk.movePath.Some? then hunk.movePath.value else hunk.path
  }

  function PathsOf(kind: Kind, hunks: seq<Hunk>): seq<string> {
    if hunks == [] then []
    else (if KindOf(hunks[0]) == kind then [ListedPath(hunks[0])] else []) + PathsOf(kind, hunks[1..])
  }

  /** Every hunk is listed once, in order, under its kind. */
  lemma {:induction false} SummaryListsEveryHunk(a: Affected, hunks: seq<Hunk>)
    ensures ListHunks(a, hunks) == Affected(a.added + PathsOf(Adds, hunks), a.modified + PathsOf(Updates, hunks),
                                            a.deleted + PathsOf(Deletes, hunks))
    decreases |hunks|
  {
    if hunks == [] {
      assert a.added + [] == a.added && a.modified + [] == a.modified && a.deleted + [] == a.deleted;
    } else {
      var next := ListHunk(a, hunks[0]);
      SummaryListsEveryHunk(next, hunks[1..]);
      OneMoreListed(a.added, next.added, Adds, hunks);
      OneMoreListed(a.modified, next.modified, Updates, hunks);
      OneMoreListed(a.deleted, next.deleted, Deletes, hunks);
    }
  }

  lemma OneMoreListed(before: seq<string>, after: seq<string>, kind: Kind, hunks: seq<Hunk>)
    requires hunks != []
    requires after == if KindOf(hunks[0]) == kind then before + [ListedPath(hunks[0])] else before
    ensures after + PathsOf(kind, hunks[1..]) == before + PathsOf(kind, hunks)
  {
    hide KindOf, ListedPath;
  }
}
