/** Execution (`rename_files`): every source is first renamed to a staging
    name (`"__temp_rename_" + name`, same directory), then every staging name
    to its target. The first rename that fails stops the run; nothing is
    rolled back. */
module Execution {
  import opened Paths

  /** The bytes of a file. */
  type Content = seq<bv8>

  /** The regular files of the directories involved, by path. */
  type Files = map<Path, Content>

  /** One element of `temp_renames`. */
  datatype TempRename = TempRename(source: Path, temp: Path, target: Path)

  /** Which loop of `rename_files` raised. */
  datatype Pass = Stage | Commit

  /** What `rename_files` does: return the number of second-pass renames, or
      re-raise the error of the rename at `index` of the plan in `pass`. */
  datatype Outcome = Renamed(count: nat) | Raised(pass: Pass, index: nat)

  /** `Path.rename` succeeds when the source exists and the operating system
      does not refuse this rename (permission denied or another OS error). */
  predicate CanMove(files: Files, denied: set<(Path, Path)>, src: Path, dst: Path) {
    src in files && (src, dst) !in denied
  }

  /** POSIX `rename`: the content leaves `src` and silently replaces whatever
      `dst` held; every other path keeps its content. */
  function Move(files: Files, src: Path, dst: Path): (r: Files)
    requires src in files
    ensures dst in r && r[dst] == files[src]
    ensures src != dst ==> src !in r
    ensures forall x :: x != src && x != dst ==> (x in r <==> x in files) && (x in r ==> r[x] == files[x])
  {
    (files - {src})[dst := files[src]]
  }

  /** The state of the files after a pass, the number of renames done, and
      whether the pass stopped on a failure. */
  datatype Run = Run(files: Files, done: nat, failed: bool)

  /** One loop of `rename_files`: the renames in order, up to the first one
      that fails. */
  function Apply(files: Files, denied: set<(Path, Path)>, moves: seq<(Path, Path)>): (r: Run)
    ensures r.done <= |moves|
    ensures r.failed <==> r.done < |moves|
  {
    if moves == [] then Run(files, 0, false)
    else
      var before := Apply(files, denied, moves[..|moves| - 1]);
      var (src, dst) := moves[|moves| - 1];
      if before.failed then before
      else if CanMove(before.files, denied, src, dst) then Run(Move(before.files, src, dst), before.done + 1, false)
      else Run(before.files, before.done, true)
  }

  /** The renames of the first loop: each source to its staging name. */
  function StageMoves(renames: seq<(Path, Path)>): seq<(Path, Path)> {
    seq(|renames|, i requires 0 <= i < |renames| => (renames[i].0, TempPath(renames[i].0)))
  }

  /** The renames of the second loop: each staging name to its target. */
  function CommitMoves(renames: seq<(Path, Path)>): seq<(Path, Path)> {
    seq(|renames|, i requires 0 <= i < |renames| => (TempPath(renames[i].0), renames[i].1))
  }

  /** `rename_files` as a function of the files before the call: the outcome
      and the files after it. */
  function Execute(files: Files, denied: set<(Path, Path)>, renames: seq<(Path, Path)>): (Outcome, Files) {
    var staged := Apply(files, denied, StageMoves(renames));
    if staged.failed then (Raised(Stage, staged.done), staged.files)
    else
      var committed := Apply(staged.files, denied, CommitMoves(renames));
      if committed.failed then (Raised(Commit, committed.done), committed.files)
      else (Renamed(committed.done), committed.files)
  }

  /** The file system as `rename_files` uses it. */
  class Folder {
    var files: Files
    /** The renames the operating system refuses. */
    const denied: set<(Path, Path)>

    constructor (files: Files, denied: set<(Path, Path)>)
      ensures this.files == files && this.denied == denied
    {
      this.files := files;
      this.denied := denied;
    }

    /** `Path.rename`; `ok` is false where Python raises. */
    method Rename(src: Path, dst: Path) returns (ok: bool)
      modifies this
      ensures ok == CanMove(old(files), denied, src, dst)
      ensures files == if ok then Move(old(files), src, dst) else old(files)
    {
      ok := CanMove(files, denied, src, dst);
      if ok {
        files := Move(files, src, dst);
      }
    }
  }

  /** Once a pass has failed, the later renames are not attempted. */
  lemma {:induction false} ApplyStops(files: Files, denied: set<(Path, Path)>, moves: seq<(Path, Path)>, j: nat)
    requires j <= |moves| && Apply(files, denied, moves[..j]).failed
    ensures Apply(files, denied, moves) == Apply(files, denied, moves[..j])
    decreases |moves| - j
  {
    if j < |moves| {
      var longer := moves[..j + 1];
      assert longer[..|longer| - 1] == moves[..j];
      ApplyStops(files, denied, moves, j + 1);
    } else {
      assert moves[..j] == moves;
    }
  }

  /** A pass that has done its first `i` renames goes on with rename `i`. */
  lemma ApplyExtend(files: Files, denied: set<(Path, Path)>, moves: seq<(Path, Path)>, i: nat, now: Files)
    requires i < |moves| && Apply(files, denied, moves[..i]) == Run(now, i, false)
    ensures Apply(files, denied, moves[..i + 1]) ==
              if CanMove(now, denied, moves[i].0, moves[i].1)
              then Run(Move(now, moves[i].0, moves[i].1), i + 1, false)
              else Run(now, i, true)
  {
    assert moves[..i + 1][..i] == moves[..i];
  }

  /** The first loop of `rename_files`: each pair with the staging name of
      its source. */
  method TempRenames(renames: seq<(Path, Path)>) returns (tempRenames: seq<TempRename>)
    ensures |tempRenames| == |renames|
    ensures forall j :: 0 <= j < |renames| ==>
              tempRenames[j] == TempRename(renames[j].0, TempPath(renames[j].0), renames[j].1)
  {
    tempRenames := [];
    for i := 0 to |renames|
      invariant |tempRenames| == i
      invariant forall j :: 0 <= j < i ==>
                  tempRenames[j] == TempRename(renames[j].0, TempPath(renames[j].0), renames[j].1)
    {
      var (oldPath, newPath) := renames[i];
      var tempPath := TempPath(oldPath);
      tempRenames := tempRenames + [TempRename(oldPath, tempPath, newPath)];
    }
  }

  /** `rename_files`. */
  method RenameFiles(folder: Folder, renames: seq<(Path, Path)>) returns (outcome: Outcome)
    modifies folder
    ensures (outcome, folder.files) == Execute(old(folder.files), folder.denied, renames)
  {
    var tempRenames := TempRenames(renames);

    ghost var start := folder.files;
    ghost var stageMoves := StageMoves(renames);
    for i := 0 to |tempRenames|
      invariant Apply(start, folder.denied, stageMoves[..i]) == Run(folder.files, i, false)
    {
      ApplyExtend(start, folder.denied, stageMoves, i, folder.files);
      var ok := folder.Rename(tempRenames[i].source, tempRenames[i].temp);
      if !ok {
        ApplyStops(start, folder.denied, stageMoves, i + 1);
        return Raised(Stage, i);
      }
    }
    assert stageMoves[..|renames|] == stageMoves;

    ghost var staged := folder.files;
    ghost var commitMoves := CommitMoves(renames);
    var renamedCount := 0;
    for i := 0 to |tempRenames|
      invariant renamedCount == i
      invariant Apply(staged, folder.denied, commitMoves[..i]) == Run(folder.files, i, false)
    {
      ApplyExtend(staged, folder.denied, commitMoves, i, folder.files);
      var ok := folder.Rename(tempRenames[i].temp, tempRenames[i].target);
      if !ok {
        ApplyStops(staged, folder.denied, commitMoves, i + 1);
        return Raised(Commit, i);
      }
      renamedCount := renamedCount + 1;
    }
    assert commitMoves[..|renames|] == commitMoves;
    return Renamed(renamedCount);
  }
}
