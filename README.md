# snapsequence: sequential photo renaming, modelled in Dafny

`rename_photos.py` renames the photos of one folder to `01.jpg`, `02.heic`, ...
in order of creation, in three steps:

1. **Discovery** (`find_images`) keeps the regular files whose lowercased
   suffix is one of `.jpg`, `.jpeg`, `.png`, `.heic`. It sorts them by creation
   date with Python's stable `sorted`.
2. **Plan** (`generate_new_names`) pairs the image at 1-based position `i`
   with the name `f"{i:02d}"` followed by its lowercased suffix, in the same
   folder.
3. **Execution** (`rename_files`) renames every source to
   `"__temp_rename_" + name`, then every staging name to its target. It
   returns the number of second-pass renames. The first rename that fails
   re-raises, with no rollback.

The model:

- `paths.dfy` (module `Paths`): a path is a directory and a name. It defines
  pathlib's `suffix`, ASCII `str.lower`, and the staging name.
- `discovery.dfy` (`Discovery`): the filter and the stable sort, as pure
  functions. The creation date is an integer key carried by each entry.
- `naming.dfy` (`Naming`): the zero-padded decimal rendering, its read-back,
  and the plan, both as a function and as the loop of `generate_new_names`.
- `execution.dfy` (`Execution`): the folder is a class whose `files` field
  maps paths to contents, and `Rename` is POSIX `rename`. `RenameFiles` is the
  imperative `rename_files`. Its loops are proved equal to the functional
  `Execute`.
- `safety.dfy` (`ExecutionSafety`): what `Execute` guarantees.
  - The success case.
  - The state left by a failure in either pass.
  - No data loss: every content lands at its `Destination`, and `Origin` is
    its inverse.
  - The swap example.
- `pipeline.dfy` (`Pipeline`): the three steps chained as `main` chains them.
  The plan of a folder meets every condition `Execute` needs, provided the
  staging name of every image is free. Leftovers of an aborted run are
  allowed. A staging name that is taken is silently overwritten.

A failing rename is modelled by a set `denied` of (source, destination) pairs
that the operating system refuses. A rename also fails when its source is
missing.

## Model

| member | source | states |
|---|---|---|
| Paths.RFind | rename_photos.py:31 | the index of the last occurrence of a character, or -1; nothing after it matches |
| Paths.Suffix | rename_photos.py:31 | pathlib's suffix: empty, or a dot-led tail of the name with no other dot, starting after the first character and not at the last |
| Paths.SuffixEmpty | rename_photos.py:31 | a name has no suffix exactly when it has no dot after its first character or ends in a dot |
| Paths.SuffixOfConcat | rename_photos.py:31 | a non-empty stem followed by a dot-led extension with no other dot has that extension as its suffix |
| Paths.SuffixOfDotFile | rename_photos.py:31 | a name whose only dot is its first character (`.heic`) has no suffix |
| Paths.Lower | rename_photos.py:31 | lowercasing keeps the length and lowercases each character |
| Paths.LowerFacts | rename_photos.py:40 | lowercasing leaves no capital, keeps dots where they were, and is idempotent |
| Paths.TempPathInjective | rename_photos.py:72 | two sources share a staging name exactly when they are the same path |
| Paths.TempPath | rename_photos.py:72 | the staging path `parent / ("__temp_rename_" + name)`; specified by `Paths.TempPathInjective` and `Pipeline.TempIsNoTarget` |
| Discovery.IsImageName | rename_photos.py:11-31 | the lowercased suffix is one of the four recognised extensions; specified by `Discovery.IsImageNameOf` and the examples below |
| Discovery.IsImage | rename_photos.py:31 | a regular file with an image name; specified through `Discovery.ImagesFacts` |
| Discovery.Images | rename_photos.py:29-32 | the list comprehension; specified by `Discovery.ImagesFacts` |
| Discovery.SortByCreation | rename_photos.py:33 | `sorted(..., key=get_creation_date)`; specified by `Discovery.SortFacts` |
| Discovery.FindImages | rename_photos.py:27-33 | `find_images`; specified by `Discovery.FindImagesSpec` |
| Discovery.ImagesFacts | rename_photos.py:29-32 | the comprehension keeps each image entry as often as it is listed, drops every other entry, and keeps listing order within every key |
| Discovery.SortFacts | rename_photos.py:33 | the sort returns a permutation of its input, ordered by key, with equal-key entries in input order (stability) |
| Discovery.InsertStable | rename_photos.py:33 | inserting into a sorted sequence puts the new entry before every entry with the same key |
| Discovery.FindImagesSpec | rename_photos.py:27-33 | `find_images` returns only image files, exactly the listed image files with their multiplicity, oldest first, equal keys in listing order |
| Discovery.IsImageNameOf | rename_photos.py:11-31 | `stem + ext` is an image name exactly when the lowercased `ext` is a recognised suffix |
| Discovery.ExtensionExamples | rename_photos.py:11 | `.HEIC`, `.Heic`, `.JPG`, `.jpeg`, `.PNG` are recognised after lowercasing; `.txt`, `.json`, `.py`, `.md` are not |
| Discovery.DoubleSuffixExample | rename_photos.py:31 | `photo.heic.txt` is no image: only the last dot counts |
| Discovery.DotFileExample | rename_photos.py:31 | the dot file `.heic` is no image |
| Discovery.ImagesOfImages | rename_photos.py:29-32 | a listing of image files only is kept whole and in order |
| Discovery.SortExample | test_rename_photos.py:362-390 | keys 11, 12, 10 in listing order come out as 10, 11, 12 |
| Naming.Decimal | rename_photos.py:40 | the decimal rendering is a non-empty string of digits that starts with `0` only for 0 |
| Naming.Padded | rename_photos.py:40 | `{i:02d}` is a string of at least two digits |
| Naming.DecimalValue | rename_photos.py:40 | reading back the decimal rendering gives the number |
| Naming.PaddedValue | rename_photos.py:40 | reading back the padded rendering gives the number |
| Naming.PaddedInjective | rename_photos.py:40 | two numbers have the same padded rendering exactly when they are equal |
| Naming.PaddedWidth | rename_photos.py:40 | the rendering has exactly two digits exactly when the number is below 100 (a minimum width, no truncation) |
| Naming.PaddedExamples | rename_photos.py:40 | 1 gives `01`, 9 gives `09`, 10 gives `10`, 14 gives `14`, 100 gives `100` |
| Naming.DigitPrefix | rename_photos.py:40 | the longest prefix made of digits: all digits, followed by a non-digit or the end |
| Naming.TargetNameFacts | rename_photos.py:40-41 | the target stays in the source's folder, its leading number is the position, and its suffix is the source's suffix lowercased |
| Naming.TargetName | rename_photos.py:40-41 | the new path of the image at a 1-based position; specified by `Naming.TargetNameFacts` and `Naming.TargetNamesDistinct` |
| Naming.NewNames | rename_photos.py:36-43 | `generate_new_names` as a function; specified by `Naming.NewNamesSpec` and `Naming.NewNamesDistinct` |
| Naming.GenerateNewNames | rename_photos.py:36-43 | the loop returns exactly the plan `NewNames` |
| Naming.NewNamesSpec | rename_photos.py:38-43 | one pair per image, in image order (empty for no image); pair i has source `images[i]` and a target in the same folder, numbered i + 1, with the lowercased suffix |
| Naming.NewNameAt | rename_photos.py:39-42 | the same facts for one pair |
| Naming.TargetNamesDistinct | rename_photos.py:39-41 | distinct positions give distinct targets, whatever the sources |
| Naming.NewNamesDistinct | rename_photos.py:39-42 | no two pairs of a plan share a target |
| Naming.TargetNameHeicExample | rename_photos.py:40-41 | `photo.HEIC` at position 1 becomes `01.heic` in the same folder |
| Naming.TargetNameJpgExample | rename_photos.py:40-41 | a `.jpg` at position 14 becomes `14.jpg` |
| Execution.CanMove | rename_photos.py:78-84 | when `Path.rename` succeeds; `Execution.Folder.Rename` succeeds exactly then |
| Execution.StageMoves | rename_photos.py:76 | the renames of the first loop; stepped through by `ExecutionSafety.StagingRun` |
| Execution.CommitMoves | rename_photos.py:88 | the renames of the second loop; stepped through by `ExecutionSafety.CommitRun` |
| Execution.Execute | rename_photos.py:67-99 | `rename_files` on values; `Execution.RenameFiles` is proved equal to it, and the `ExecutionSafety` lemmas state what it guarantees |
| Execution.Move | rename_photos.py:78 | POSIX rename: the content moves to the destination, silently replacing what was there; the source is gone; nothing else changes |
| Execution.Apply | rename_photos.py:76-84 | a pass does a number of renames no larger than the number of moves, and stops early exactly when a rename fails |
| Execution.Folder.Rename | rename_photos.py:78 | succeeds exactly when the source exists and the rename is not refused; then the files are moved, otherwise unchanged |
| Execution.ApplyStops | rename_photos.py:79-84 | once a rename has failed, no later rename is attempted |
| Execution.ApplyExtend | rename_photos.py:76-78 | a pass that has done its first i renames goes on with rename i |
| Execution.TempRenames | rename_photos.py:70-73 | one (source, staging name, target) triple per pair, in order, with staging name `__temp_rename_` + source name in the source's folder |
| Execution.RenameFiles | rename_photos.py:67-99 | the outcome and the new files are those of `Execute` on the old files: both passes in order, stopping at the first failure, returning the second-pass count |
| ExecutionSafety.StageStep | rename_photos.py:76-78 | one staging rename extends the staged prefix by one and changes nothing else |
| ExecutionSafety.CommitStep | rename_photos.py:88-91 | one commit rename extends the committed prefix by one and changes nothing else |
| ExecutionSafety.StagedIsCommittedNone | rename_photos.py:86-88 | when every source is staged, the second pass starts from a state where none is committed |
| ExecutionSafety.StagingRun | rename_photos.py:76-84 | with no refusal among the first k staging renames, the first k sources are at their staging names and nothing else changed |
| ExecutionSafety.CommitRun | rename_photos.py:86-97 | with no refusal among the first k commit renames, the first k contents are at their targets and the rest at their staging names |
| ExecutionSafety.ExecuteSucceeds | rename_photos.py:67-99 | with no refusal, `rename_files` returns `len(renames)` and every source's content is at its target; sources that are no target are gone; files outside the plan are unchanged |
| ExecutionSafety.EmptyPlan | test_rename_photos.py:282-286 | an empty plan returns 0 and changes nothing |
| ExecutionSafety.ExecuteStageFailure | rename_photos.py:76-84 | a refusal at staging rename k re-raises at k, with sources 0..k-1 at their staging names and everything else untouched |
| ExecutionSafety.ExecuteCommitFailure | rename_photos.py:86-97 | a refusal at commit rename k re-raises at k, with contents 0..k-1 at their targets and the rest at their staging names |
| ExecutionSafety.DestinationOfSource | rename_photos.py:67-99 | a source's content is meant to end at its own target |
| ExecutionSafety.DestinationOfOther | rename_photos.py:67-99 | a path that is no source keeps its content where it is |
| ExecutionSafety.OriginOfTarget | rename_photos.py:67-99 | the content at a target comes from that pair's source |
| ExecutionSafety.OriginOfOther | rename_photos.py:67-99 | the content at a path that is no target was already there |
| ExecutionSafety.CommittedContents | rename_photos.py:86-99 | after a complete commit every file's content is at its destination |
| ExecutionSafety.DestinationInjective | rename_photos.py:67-99 | distinct files have distinct destinations, so no two contents land on one name |
| ExecutionSafety.LeftInPlace | rename_photos.py:86-99 | a file present after a complete commit that is no target was not in the plan, was there before and holds the same content |
| ExecutionSafety.CommittedOnto | rename_photos.py:86-99 | every file present after a complete commit holds the content its origin held before, and its origin's destination is that file |
| ExecutionSafety.OriginOfDestination | rename_photos.py:67-99 | on the files present before the run, `Origin` undoes `Destination` |
| ExecutionSafety.NoDataLoss | test_rename_photos.py:257-271 | after a successful run, every file's content is at its destination; destinations are distinct; every file present is the destination of its origin |
| ExecutionSafety.SwapPlanSafe | test_rename_photos.py:257-266 | the swap plan, beside any third file that is no staging name of the two, has present and distinct sources, distinct targets and free staging names |
| ExecutionSafety.SwapFiles | test_rename_photos.py:257-271 | after the swap `01.heic` and `02.heic` have traded contents and a third file is as it was |
| ExecutionSafety.SwapExample | test_rename_photos.py:257-271 | the swap returns 2, exchanges the two contents and leaves the third file alone, whatever the names' lengths |
| ExecutionSafety.OccupiedStagingName | rename_photos.py:70-78 | a file already at a staging name is replaced by the staging rename; the run still succeeds and that file's content is gone |
| Pipeline.Plan | rename_photos.py:132-140 | `generate_new_names(find_images(folder))`; specified by `Pipeline.PlanAt` and `Pipeline.PlanIsSafe` |
| Pipeline.Listing | rename_photos.py:30 | what `folder.iterdir()` yields: paths in the folder, each once, the regular files exactly the files of the folder; used by `Pipeline.ImagesInFolder` |
| Pipeline.StagingFree | rename_photos.py:72 | no image's staging name is taken; implied by `Pipeline.NoStagingFiles` |
| Pipeline.NoStagingFiles | rename_photos.py:70-73 | a folder with no file carrying the staging prefix has every image's staging name free |
| Pipeline.ImagePaths | rename_photos.py:132-140 | the paths handed from `find_images` to `generate_new_names`, one per image, in order |
| Pipeline.ListedOnce | rename_photos.py:30 | an entry of a listing without repeated paths occurs at most once |
| Pipeline.ImagesInFolder | rename_photos.py:27-33 | the images are files of the folder, with distinct paths |
| Pipeline.ImageFileIsFound | rename_photos.py:29-32 | every file of the folder with an image name is one of the images |
| Pipeline.TargetIsImageName | rename_photos.py:40 | every target name is itself an image name |
| Pipeline.TempIsNoTarget | rename_photos.py:72 | no staging name is a target, since a target starts with a digit |
| Pipeline.PlanAt | rename_photos.py:39-42 | pair i of the plan of a folder moves the i-th oldest image to the name numbered i + 1 |
| Pipeline.PlanSourceIsImage | rename_photos.py:31 | every source of the plan has an image name |
| Pipeline.PlanSourceAt | rename_photos.py:72 | every source of the plan is a file, and, when the images' staging names are free, so is its own |
| Pipeline.PlanSourcesDistinct | rename_photos.py:27-33 | no two pairs of the plan share a source |
| Pipeline.PlanTargetsDistinct | rename_photos.py:39-42 | no two pairs of the plan share a target |
| Pipeline.PlanTargetIsSource | rename_photos.py:27-43 | a target that is already a file of the folder is an image, and so itself a source of the plan |
| Pipeline.PlanIsSafe | rename_photos.py:131-149 | the plan of a folder whose images' staging names are free meets every condition of `ExecuteSucceeds` and `NoDataLoss`, leftovers of an aborted run included |
| Pipeline.RenamePhotos | test_rename_photos.py:349-360 | with the images' staging names free and no refusal, the chained steps return the number of images; the i-th oldest image's content is at the name numbered i + 1; other files are unchanged; old names that became no target are gone |

## Left out

- `get_creation_date` reads file-system metadata and depends on the platform. It is replaced by an integer key carried by each entry. Timestamps are never converted to `datetime`.
- `preview_renames` and `confirm_action` print to and read from the console. `Pipeline.RenamePhotos` assumes the user confirms.
- `main` is left out: argument parsing, the existence and directory checks, the empty-folder and no-image messages, and the exit codes. Its chaining of the three steps is modelled by `Pipeline.Plan`.
- The printed error messages and the distinction between `PermissionError` and other `OSError`s are left out. A failure is "the rename at index k of pass 1 or 2 raised", reported as `Raised(pass, k)`.
- Why the operating system refuses a rename is not modelled. It is a given set of refused (source, destination) pairs, plus the missing-source case.
- A target that names a subdirectory is not modelled: directories are not in the `files` map, and there POSIX `rename` raises instead of replacing. This case is covered only through the refused set.
- Paths.Lower: lowercases ASCII letters only. Python's `str.lower` also lowercases other Unicode letters, which cannot occur in a recognised suffix.
- Paths.Suffix: follows the suffix rule of pathlib before Python 3.14 (a trailing dot gives no suffix).
- The file system is one case-sensitive namespace of (directory, name) paths. Case-insensitive file systems are not modelled.
- Concurrency is not modelled: the folder is assumed not to change while the program runs.
- `Pipeline.PlanIsSafe` and `Pipeline.RenamePhotos` assume that the staging name of every image is free (`Pipeline.StagingFree`), because `rename_files` never checks it; what happens otherwise is shown by `ExecutionSafety.OccupiedStagingName`. `Pipeline.Listing` assumes that the listing names each path once.
