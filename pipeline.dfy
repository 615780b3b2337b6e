/** The three steps chained as the command chains them: the plan built from
    the images of one directory meets every condition the two-phase rename
    relies on, provided the staging name of every image is free; a run in
    which no rename is refused then numbers every image in creation order
    and leaves every other file alone. An occupied staging name is
    overwritten. */
module Pipeline {
  import opened Paths
  import opened Discovery
  import opened Naming
  import opened Execution
  import opened ExecutionSafety

  /** The paths of `find_images`, in its order. */
  function ImagePaths(listing: seq<Entry>): (r: seq<Path>)
    ensures |r| == |FindImages(listing)|
    ensures forall i :: 0 <= i < |r| ==> r[i] == FindImages(listing)[i].path
  {
    var images := FindImages(listing);
    seq(|images|, i requires 0 <= i < |images| => images[i].path)
  }

  /** `generate_new_names(find_images(folder))`. */
  function Plan(listing: seq<Entry>): seq<(Path, Path)> {
    NewNames(ImagePaths(listing))
  }

  /** `name` starts with the staging prefix. */
  predicate IsStagingName(name: string) {
    |TempPrefix| <= |name| && name[..|TempPrefix|] == TempPrefix
  }

  /** `listing` is what iterating `dir` yields while `files` holds the regular
      files: every entry is in `dir`, no path is listed twice, the listed
      regular files are exactly the files of `dir`. */
  ghost predicate Listing(dir: string, listing: seq<Entry>, files: Files) {
    && (forall i :: 0 <= i < |listing| ==> listing[i].path.dir == dir)
    && (forall i, j :: 0 <= i < j < |listing| ==> listing[i].path != listing[j].path)
    && (forall i :: 0 <= i < |listing| && listing[i].isFile ==> listing[i].path in files)
    && (forall x :: x in files && x.dir == dir ==>
          exists i :: 0 <= i < |listing| && listing[i].path == x && listing[i].isFile)
  }

  /** What `rename_files` relies on without checking it: no image's staging
      name is taken. Leftovers of an aborted run are allowed, since their own
      staging names are longer still. */
  ghost predicate StagingFree(listing: seq<Entry>, files: Files) {
    forall i :: 0 <= i < |FindImages(listing)| ==> TempPath(FindImages(listing)[i].path) !in files
  }

  /** A directory holding no file with the staging prefix has every staging
      name free. */
  lemma NoStagingFiles(dir: string, listing: seq<Entry>, files: Files)
    requires Listing(dir, listing, files)
    requires forall x :: x in files && x.dir == dir ==> !IsStagingName(x.name)
    ensures StagingFree(listing, files)
  {
    ImagesInFolder(dir, listing, files);
    forall i | 0 <= i < |FindImages(listing)| ensures TempPath(FindImages(listing)[i].path) !in files {
      var t := TempPath(FindImages(listing)[i].path);
      assert t.dir == dir;
      assert t.name[..|TempPrefix|] == TempPrefix;
    }
  }

  /** An entry listed once at most. */
  lemma {:induction false} ListedOnce(listing: seq<Entry>, e: Entry)
    requires forall i, j :: 0 <= i < j < |listing| ==> listing[i].path != listing[j].path
    ensures multiset(listing)[e] <= 1
  {
    if listing != [] {
      var rest := listing[1..];
      assert listing == [listing[0]] + rest;
      ListedOnce(rest, e);
      if listing[0] == e {
        forall k | 0 <= k < |rest| ensures rest[k] != e {
          assert rest[k] == listing[k + 1];
        }
        assert e !in multiset(rest);
      }
    }
  }

  /** An element found at two positions occurs at least twice. */
  lemma Twice(s: seq<Entry>, i: nat, j: nat)
    requires i < j < |s| && s[i] == s[j]
    ensures multiset(s)[s[i]] >= 2
  {
    assert s == s[..j] + s[j..];
    assert s[i] == s[..j][i];
    assert s[j] == s[j..][0];
  }

  /** The images are distinct files of `dir`, each present in `files`. */
  lemma ImagesInFolder(dir: string, listing: seq<Entry>, files: Files)
    requires Listing(dir, listing, files)
    ensures forall i :: 0 <= i < |FindImages(listing)| ==>
              FindImages(listing)[i].path in files && FindImages(listing)[i].path.dir == dir
    ensures forall i, j :: 0 <= i < j < |FindImages(listing)| ==>
              FindImages(listing)[i].path != FindImages(listing)[j].path
  {
    FindImagesSpec(listing);
    var images := FindImages(listing);
    forall i | 0 <= i < |images|
      ensures images[i] in listing && images[i].path in files && images[i].path.dir == dir
    {
      assert images[i] in multiset(images);
    }
    forall i, j | 0 <= i < j < |images| ensures images[i].path != images[j].path {
      if images[i].path == images[j].path {
        var a :| 0 <= a < |listing| && listing[a] == images[i];
        var b :| 0 <= b < |listing| && listing[b] == images[j];
        assert a == b;
        Twice(images, i, j);
        ListedOnce(listing, images[i]);
      }
    }
  }

  /** A file of `dir` with an image name is one of the images. */
  lemma ImageFileIsFound(dir: string, listing: seq<Entry>, files: Files, x: Path)
    requires Listing(dir, listing, files)
    requires x in files && x.dir == dir && IsImageName(x.name)
    ensures exists i :: 0 <= i < |FindImages(listing)| && FindImages(listing)[i].path == x
  {
    var k :| 0 <= k < |listing| && listing[k].path == x && listing[k].isFile;
    var e := listing[k];
    FindImagesSpec(listing);
    assert e in multiset(listing);
    assert e in multiset(FindImages(listing));
    var i :| 0 <= i < |FindImages(listing)| && FindImages(listing)[i] == e;
  }

  /** A target name is an image name. */
  lemma TargetIsImageName(position: nat, source: Path)
    requires IsImageName(source.name)
    ensures IsImageName(TargetName(position, source).name)
  {
    TargetNameFacts(position, source);
    LowerFacts(Suffix(source.name));
  }

  /** A target name starts with a digit, so no staging name is a target. */
  lemma TempIsNoTarget(p: Path, position: nat, source: Path)
    ensures TempPath(p) != TargetName(position, source)
  {
    var name := TargetName(position, source).name;
    assert IsDigit(name[0]) by {
      assert name[0] == Padded(position)[0];
    }
    assert TempPath(p).name[0] == '_';
  }

  /** Pair `i` of the plan moves the `i`-th image to the name numbered
      `i + 1`. */
  lemma PlanAt(listing: seq<Entry>, i: nat)
    requires i < |FindImages(listing)|
    ensures |Plan(listing)| == |FindImages(listing)|
    ensures Plan(listing)[i] == (FindImages(listing)[i].path, TargetName(i + 1, FindImages(listing)[i].path))
  {
  }

  /** Every source of the plan has an image name. */
  lemma PlanSourceIsImage(listing: seq<Entry>, i: nat)
    requires i < |FindImages(listing)|
    ensures IsImageName(Plan(listing)[i].0.name)
  {
    FindImagesSpec(listing);
    PlanAt(listing, i);
  }

  /** Every source of the plan is a file, and its staging name is not. */
  lemma PlanSourceAt(dir: string, listing: seq<Entry>, files: Files, i: nat)
    requires Listing(dir, listing, files) && StagingFree(listing, files)
    requires i < |FindImages(listing)|
    ensures Plan(listing)[i].0 in files
    ensures TempPath(Plan(listing)[i].0) !in files
  {
    ImagesInFolder(dir, listing, files);
    PlanAt(listing, i);
  }

  /** No two pairs of the plan share a source. */
  lemma PlanSourcesDistinct(dir: string, listing: seq<Entry>, files: Files)
    requires Listing(dir, listing, files)
    ensures forall i, j :: 0 <= i < j < |Plan(listing)| ==> Plan(listing)[i].0 != Plan(listing)[j].0
  {
    ImagesInFolder(dir, listing, files);
    forall i, j | 0 <= i < j < |Plan(listing)| ensures Plan(listing)[i].0 != Plan(listing)[j].0 {
      PlanAt(listing, i);
      PlanAt(listing, j);
    }
  }

  /** No two pairs of the plan share a target. */
  lemma PlanTargetsDistinct(listing: seq<Entry>)
    ensures forall i, j :: 0 <= i < j < |Plan(listing)| ==> Plan(listing)[i].1 != Plan(listing)[j].1
  {
    NewNamesDistinct(ImagePaths(listing));
  }

  /** A target that is already a file of `dir` is one of the images, hence
      itself a source of the plan. */
  lemma PlanTargetIsSource(dir: string, listing: seq<Entry>, files: Files, i: nat)
    requires Listing(dir, listing, files)
    requires i < |FindImages(listing)| && Plan(listing)[i].1 in files
    ensures Plan(listing)[i].1 in Sources(Plan(listing))
  {
    var images := FindImages(listing);
    var rs := Plan(listing);
    ImagesInFolder(dir, listing, files);
    PlanAt(listing, i);
    PlanSourceIsImage(listing, i);
    TargetIsImageName(i + 1, images[i].path);
    ImageFileIsFound(dir, listing, files, rs[i].1);
    var k :| 0 <= k < |images| && images[k].path == rs[i].1;
    PlanAt(listing, k);
  }

  /** The plan of a directory meets the conditions of ExecuteSucceeds and
      NoDataLoss: sources present and distinct, targets distinct, staging
      names free and no target, and no target a file outside the plan. */
  lemma PlanIsSafe(dir: string, listing: seq<Entry>, files: Files)
    requires Listing(dir, listing, files) && StagingFree(listing, files)
    ensures SafePlan(files, Plan(listing))
    ensures NoOverwrite(files, Plan(listing))
  {
    var rs := Plan(listing);
    PlanSourcesDistinct(dir, listing, files);
    PlanTargetsDistinct(listing);
    forall i | 0 <= i < |rs| ensures rs[i].0 in files && TempPath(rs[i].0) !in files {
      PlanSourceAt(dir, listing, files, i);
    }
    forall i, j | 0 <= i < |rs| && 0 <= j < |rs| ensures TempPath(rs[i].0) != rs[j].1 {
      PlanAt(listing, j);
      TempIsNoTarget(rs[i].0, j + 1, FindImages(listing)[j].path);
    }
    forall i | 0 <= i < |rs| && rs[i].1 in files ensures rs[i].1 in Sources(rs) {
      PlanTargetIsSource(dir, listing, files, i);
    }
  }

  /** `rename_files(generate_new_names(find_images(folder)))` with no rename
      refused: it returns the number of images, the image `i`-th oldest is at
      the name numbered `i + 1` with its content, no image is left under its
      old name unless another image took that name, and every other file
      keeps its name and content. */
  lemma RenamePhotos(dir: string, listing: seq<Entry>, files: Files, denied: set<(Path, Path)>)
    requires Listing(dir, listing, files) && StagingFree(listing, files)
    requires forall i :: 0 <= i < |Plan(listing)| ==>
               !StageDenied(denied, Plan(listing), i) && !CommitDenied(denied, Plan(listing), i)
    ensures Execute(files, denied, Plan(listing)).0 == Renamed(|FindImages(listing)|)
    ensures var after := Execute(files, denied, Plan(listing)).1;
      forall i :: 0 <= i < |FindImages(listing)| ==>
        var source := FindImages(listing)[i].path;
        source in files && TargetName(i + 1, source) in after &&
        after[TargetName(i + 1, source)] == files[source]
    ensures var after := Execute(files, denied, Plan(listing)).1;
      forall x :: x in files && x !in Sources(Plan(listing)) ==> x in after && after[x] == files[x]
    ensures var after := Execute(files, denied, Plan(listing)).1;
      forall x :: x in Sources(Plan(listing)) && x !in Targets(Plan(listing)) ==> x !in after
  {
    var rs := Plan(listing);
    PlanIsSafe(dir, listing, files);
    ExecuteSucceeds(files, denied, rs);
    assert rs[..|rs|] == rs;
    NoDataLoss(files, denied, rs);
    var after := Execute(files, denied, rs).1;
    var images := FindImages(listing);
    ImagesInFolder(dir, listing, files);
    forall i | 0 <= i < |images|
      ensures images[i].path in files && TargetName(i + 1, images[i].path) in after
      ensures after[TargetName(i + 1, images[i].path)] == files[images[i].path]
    {
      PlanAt(listing, i);
      DestinationOfSource(rs, i);
    }
    forall x | x in files && x !in Sources(rs) ensures x in after && after[x] == files[x] {
      DestinationOfOther(rs, x);
    }
  }
}
