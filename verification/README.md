# Smart image renaming, modelled in Dafny

The tool walks a folder tree and gives image files names of the form
`<artist>_<project>_<NN><ext>`. This project models its three core
functions from `smart_rename_images02.py`:

- `detect_artist_from_path` finds the artist. It splits the folder's path on
  the separator and returns the first part, from the root end, that is a
  known artist folder name.
- `rename_images_in_folder` works on one folder:
  - It keeps the files whose lower-cased name ends with one of seven image
    extensions, sorts them, and numbers them by position from 1.
  - It leaves alone every file that already starts with
    `<artist>_<project>_<digit>`.
  - It moves every other image to `<artist>_<project>_<NN><ext>`. If that name
    already exists it adds one `_<8-hex-digit id>` before the extension.
  - It counts the renames that succeed.
- `process_directory_structure` walks the tree below a root folder, down to
  an optional depth bound. It runs the folder renamer on every sub-folder
  whose name does not start with a dot, and adds up the counts. The root's
  own files are never renamed.

## How the model is put together

| module | file | models |
|---|---|---|
| `Maybe` | maybe.dfy | Python's `None` as `Option` |
| `Text` | text.dfy | ASCII lower-casing, `{i:02d}`, digit runs and their values |
| `Paths` | paths.dfy | `str.split(sep)`, `os.path.basename`, `os.path.join`, `os.path.splitext` |
| `Ordering` | ordering.dfy | Python's string order and `sorted` on a set of distinct names |
| `Artist` | artist.dfy | `detect_artist_from_path` and the `... or default_artist` fallback |
| `Folders` | folders.dfy | the folder tree, hidden names, the 8-hex-digit id, the environment |
| `Naming` | naming.dfy | the image filter, the skip pattern, the planned and suffixed names |
| `Rename` | rename.dfy | `rename_images_in_folder` |
| `Walk` | walk.dfy | `process_directory_structure` |
| `Scenarios` | scenarios.dfy | two worked folders run through the whole renamer |

Main modelling choices:

- **Folders.** A folder is `Dir(readable, files, subdirs)`. Its regular files
  are a set of names. Its sub-folders are a sequence of named entries in
  listing order.
  - `readable == false` stands for a listing that fails with
    `FileNotFoundError` or `PermissionError`.
  - `WellFormed` requires that names are non-empty and contain no separator,
    that sub-folder names are distinct, and that no name is both a file and a
    sub-folder.
- **Environment.** The file system's side is a value `Env` with two parts:
  - `renameOk(folder, old, new)` decides whether `os.rename` succeeds.
  - `freshId(folder, old)` is the first eight characters of the `uuid4`
    string, so eight lower-case hex digits.
  - Renaming a file onto the name of a sub-folder always fails, as the
    operating system refuses it.
  - A rename that succeeds removes the old name and adds the new one. This
    silently replaces an existing file of that name.
- **The loop.** The per-folder loop is a right fold, `Rename.Loop`. It threads
  the folder's current set of names, so the existence test at line 91 sees
  the renames made earlier in the same loop. It records one `Step` per image:
  skipped, or renamed to a target with flags for "collided" and "took
  effect".
- **Live test versus listing.** See "Numbering and the existence test"
  below.
- **The walk.** `Walk.Walk` returns the tree afterwards, the total, and the
  sequence of renamer calls made. Each call is recorded with the folder's
  names below the root and its count. The properties about the walk are
  stated against independent definitions: `Eligible` says which folders
  should be processed, `Accounted` says what each call should return, and
  `WalkTree`/`ProcessedTree` say what each folder holds afterwards.

### Numbering and the existence test

Two facts about the loop are easy to get wrong, so the model proves both.

**A skipped image still uses up its position.** The images are numbered with
`enumerate(image_files, 1)` (line 74), and the skip at lines 76-78 happens
inside that loop. So every image, skipped or not, takes a position.
`Scenarios.RenameTaken` shows the consequence:

- The folder holds `X_Y_02.jpg`, `a.jpg` and `b.jpg`.
- `X_Y_02.jpg` sorts first and is skipped, but it takes number 1.
- `a.jpg` is at position 2, so its planned name is `X_Y_02.jpg`. That name
  is taken, so it gets the identifier.
- `b.jpg` becomes `X_Y_03.jpg`, and nothing is named `X_Y_01.jpg`.

**The live existence test agrees with the listing.** The test at line 91 looks
at the folder as the loop has changed it so far. `Rename.LoopFollowsPlan`
proves it always gives the same answer as a test against the folder's
original listing. Names the loop has produced carry smaller numbers than
any later planned name, and the names it moved away never matched the
pattern.

### Edge cases the model keeps

- **Leading dots.** `os.path.splitext` ignores leading dots, so an image
  called `.jpg` has no extension. It is renamed to `<artist>_<project>_<NN>`
  with no extension (`Paths.Ext`).
- **Empty artist.** An empty string detected as the artist, or given as the
  default, counts as missing, because of `or` and `if not artist_name`
  (`Artist.ResolveArtist`).
- **Numbers of 100 and above** get three or more digits (`Text.Pad2`).
- **One suffix attempt only.** The suffixed name is not checked again, so a
  suffixed name that already exists is overwritten (`Rename.Apply`).

## Model

| member | source | states |
|---|---|---|
| Artist.FirstKnown | smart_rename_images02.py:18-21 | Nothing is found exactly when no segment is a known artist. Otherwise the result is the segment at some position where it is known, and no earlier segment is known. |
| Artist.DetectArtist | smart_rename_images02.py:17-21 | No artist is detected exactly when no part of the path split on the separator is a known artist. A detected artist is a known artist, and it is the first part of the path, from the root end, that is known. |
| Artist.ResolveArtist | smart_rename_images02.py:44-47 | A resolved artist is never empty. There is none exactly when the detected artist and the default are each missing or empty. A non-empty detected artist wins over the default; otherwise the default is used. |
| Paths.Split | smart_rename_images02.py:17 | Splitting yields at least one part, and no part contains the separator. |
| Paths.SplitRoundTrip | smart_rename_images02.py:17 | Joining the parts of a path with the separator gives the path back. |
| Paths.UnsplitRoundTrip | smart_rename_images02.py:17 | Splitting parts that were joined with the separator gives back the same parts. |
| Paths.Basename | smart_rename_images02.py:41 | The base name has no separator. It ends the path, and it is either the whole path or preceded by a separator. |
| Paths.BasenameOfJoin | smart_rename_images02.py:40-41 | A folder reached by joining an entry name onto a path has that entry name as its project name. |
| Paths.JoinPath | smart_rename_images02.py:87-88 | The joined path starts with the folder path and ends with the name, with exactly one separator between them when the folder path is not empty. A folder path that already ends in the separator is followed directly by the name. |
| Paths.Ext | smart_rename_images02.py:81 | The extension ends the name. It is empty, or a dot followed by no further dot. It is empty exactly when every dot of the name has only dots before it, so `.jpg` and `..jpg` have none. |
| Paths.ExtOfAppend | smart_rename_images02.py:81 | A dot-extension appended to a stem that is not all dots is found again as the extension. |
| Text.Lower | smart_rename_images02.py:60 | Lower-casing keeps the length and leaves no upper-case ASCII letter. Each upper-case letter becomes the same letter in lower case, and every other character is kept. |
| Text.LowerIdempotent | smart_rename_images02.py:60 | Lower-casing an already lower-cased name changes nothing. |
| Text.Pad2 | smart_rename_images02.py:84 | `{i:02d}` gives at least two digits, exactly two below 100, no leading zero from 10 on, and reads back as `i`. |
| Text.DecimalRoundTrip | smart_rename_images02.py:84 | Reading back the decimal digits of a number gives the number. |
| Text.LeadingDigits | smart_rename_images02.py:76 | The result is the longest run of digits at the start of the text. |
| Text.LeadingDigitsOf | smart_rename_images02.py:76 | Digits followed by text that does not start with a digit give back exactly those digits. |
| Ordering.Below | smart_rename_images02.py:63 | A name comes before every name it is a prefix of. A name that comes first has an empty name or a first character no greater than the other's. |
| Ordering.BelowLexicographic | smart_rename_images02.py:63 | The name order is Python's string order: `a` comes first exactly when it is a prefix of `b`, or has the smaller character at the first position where they differ. |
| Ordering.BelowTotal | smart_rename_images02.py:63 | Any two names are ordered one way or the other. |
| Ordering.BelowAntisymmetric | smart_rename_images02.py:63 | Two names each ordered before the other are equal. |
| Ordering.BelowTransitive | smart_rename_images02.py:63 | The name order is transitive. |
| Ordering.SortedNames | smart_rename_images02.py:63 | The sorted list is strictly ascending and holds exactly the names of the set, each once. |
| Ordering.AscendingUnique | smart_rename_images02.py:63 | Two ascending lists holding the same names are equal. So an image's number depends only on which names the folder holds, not on the listing order. |
| Naming.IsImage | smart_rename_images02.py:60 | An image name ends in a dot followed by three or four characters. `Naming.ImageSuffix` and `Naming.ImageOf` give the two directions of the filter. |
| Naming.ImageSuffix | smart_rename_images02.py:60 | Every image's name ends in a tail that lower-cases to one of the seven extensions, so a name such as `.txt` is never an image. This is the converse of `Naming.ImageOf`. |
| Naming.ImageOf | smart_rename_images02.py:60 | A name ending in one of the seven extensions, in any mix of case, is an image. |
| Naming.AlreadyNamed | smart_rename_images02.py:76 | The skip test holds exactly when some prefix of the name is `<artist>_<project>_` followed by one or more digits, as `re.match` with `\d+` requires. |
| Naming.Candidate | smart_rename_images02.py:84 | The planned name passes the skip test and ends with the image's extension. |
| Naming.Suffixed | smart_rename_images02.py:94 | The name with the identifier passes the skip test and ends with the extension. It is longer than the planned name by the identifier and one underscore, so it is never the planned name. |
| Naming.NumberIn | smart_rename_images02.py:76 | A number can be read out of a name exactly when the name matches the skip pattern `<artist>_<project>_\d`. |
| Naming.CandidateNumber | smart_rename_images02.py:84 | The planned name for position `i` matches the skip pattern and carries the number `i`. |
| Naming.SuffixedNumber | smart_rename_images02.py:94 | The name with the identifier also matches the skip pattern and carries `i`. |
| Naming.NumberAfterPrefix | smart_rename_images02.py:76 | A name made of the prefix, a run of digits and then a non-digit or nothing carries exactly the value of those digits. |
| Naming.SuffixedDiffers | smart_rename_images02.py:91-94 | The name with the identifier is never the planned name it replaces. |
| Naming.PlannedNamesKeepExt | smart_rename_images02.py:81-94 | Both new names split back into the extension they were built with, case kept. |
| Naming.ImageExt | smart_rename_images02.py:60-81 | An image's extension is empty or lower-cases to one of the seven image extensions. |
| Naming.DotSuffixExt | smart_rename_images02.py:60-81 | When the lower-cased name ends with a dot-extension, `splitext` finds that extension in its original case, or none when only dots precede it. |
| Rename.Apply | smart_rename_images02.py:100-101 | After a rename that took effect the new name is present, the old one is gone unless it is the new one, and every other name is unchanged. A step that did not rename leaves the names as they were. |
| Rename.Loop | smart_rename_images02.py:74-103 | The loop makes one step per image. Its count is the number of steps whose rename took effect, so it never exceeds the number of images. |
| Rename.Attempt | smart_rename_images02.py:74-101 | The loop body records a step for the image and position it was given, and skips the image exactly when it matches the skip pattern. |
| Rename.AttemptShape | smart_rename_images02.py:76-94 | An image the loop body renames did not match the skip pattern. Its new name matches the pattern and carries the image's position. |
| Rename.AttemptPlanned | smart_rename_images02.py:84-100 | When the current names agree with the listing from number `i` on, the loop body does exactly what the plan against the listing says. |
| Rename.AgreesAfter | smart_rename_images02.py:91-101 | After the step at position `i`, the current names still agree with the listing from number `i + 1` on. |
| Rename.LoopFollowsPlan | smart_rename_images02.py:74-100 | The loop, whose existence test sees its own earlier renames, takes exactly the steps of the plan made against the original listing. This covers the skip decision, the collision test, the new name and whether it took effect. |
| Rename.PlanStepsAt | smart_rename_images02.py:74-100 | The `k`-th planned step is the loop body for the `k`-th image at position `i + k`, judged against the listing. |
| Rename.LoopFiles | smart_rename_images02.py:98-103 | The names afterwards are the starting names, less those moved away from, plus those moved to. Names moved away from never match the skip pattern; names moved to always do. |
| Rename.LoopNames | smart_rename_images02.py:74 | The `k`-th step is about the `k`-th image. |
| Rename.LoopAllSkipped | smart_rename_images02.py:76-78 | When every image already matches the pattern, nothing changes and nothing is counted. |
| Rename.PlannedNumber | smart_rename_images02.py:84-94 | A renamed step's new name carries the step's position as its number. |
| Rename.ImagesOf | smart_rename_images02.py:59-63 | The image list is strictly ascending and holds exactly the folder's files with an image extension. |
| Rename.JobForSeparatorFree | smart_rename_images02.py:39-47 | When neither the default artist nor a given project name contains the separator, the job's artist and project do not contain it either. A detected artist is a path segment, and the folder's base name has no separator. |
| Rename.JobFor | smart_rename_images02.py:39-47 | A folder is processed exactly when an artist resolves, and under that artist. A given project name is used as it is; without one the project is the folder's base name. |
| Rename.RenameImages | smart_rename_images02.py:23-105 | The folder's sub-folders and readability are untouched. With no artist, or an unreadable folder, nothing changes and 0 is returned. The count is the number of successful renames, at most the number of images. |
| Rename.RenameFollowsPlan | smart_rename_images02.py:59-100 | Images are taken in ascending order and numbered from 1, skipped ones included. Each is skipped exactly when it matches the pattern; otherwise it goes to its planned name, or to the identifier variant when the listing holds the planned name. |
| Rename.StepPlanned | smart_rename_images02.py:59-100 | Any step of a folder run belongs to a folder with an artist. It is the loop body for the `k`-th image at position `k + 1`, judged against the listing. |
| Rename.StepNumber | smart_rename_images02.py:74-94 | The new name of the `k`-th image of a folder run carries the number `k + 1`. |
| Rename.MovedFromImages | smart_rename_images02.py:59-100 | Every name a run moved away from was an image file of the folder. |
| Rename.RunFiles | smart_rename_images02.py:97-103 | A run leaves the folder holding its files, less those moved away from, plus those moved to, and every name moved to matches the skip pattern. |
| Rename.RenameTouchesOnlyImages | smart_rename_images02.py:59-103 | Files that are not images keep their names. Every vanished name is an image that was renamed. Every new name matches the skip pattern. |
| Rename.RenamedNamesDistinct | smart_rename_images02.py:84-94 | No two images of one folder are given the same new name. |
| Rename.PlannedCollision | smart_rename_images02.py:84-95 | A step collides exactly when its planned name `<artist>_<project>_<NN><ext>` is taken by a file or sub-folder. An uncollided step moves the image to the planned name. A collided one moves it to `<artist>_<project>_<NN>_<id><ext>` with the identifier drawn for that image, which differs from the planned name. A non-empty extension is kept. |
| Rename.CollisionAvoided | smart_rename_images02.py:84-95 | For a whole folder: the k-th image is moved to its planned name, numbered k + 1, when that name was free in the listing. When the name was taken, the image receives the identifier drawn for it, between the number and the extension. The name used then differs from the planned one, and the image keeps its extension. |
| Rename.ImagesAfterRun | smart_rename_images02.py:74-103 | After a run, an image that does not match the pattern is one whose rename failed. |
| Rename.RerunRetriesOnlyFailures | smart_rename_images02.py:74-103 | A second run on the result tries to rename only images whose rename failed the first time. |
| Rename.RerunRenamesNothing | smart_rename_images02.py:74-78 | When every rename of a run took effect, a second run renames nothing and changes nothing. |
| Walk.TooDeep | smart_rename_images02.py:122 | Without a bound no depth is too deep. With a bound, exactly the depths beyond it are too deep, so a negative bound stops even the first level. |
| Folders.Hidden | smart_rename_images02.py:136 | A name is hidden exactly when its first character is a dot, so `.` and `..` are hidden. |
| Walk.Walk | smart_rename_images02.py:121-153 | Past the depth bound, or in an unreadable folder, the walk does nothing and returns 0. Its count is the sum of the recorded calls. Sub-folders keep their names and order, and hidden ones are untouched. |
| Walk.WalkEntries | smart_rename_images02.py:132-148 | The loop's count is the sum of the recorded calls. Entries keep their names and order, and hidden ones are untouched. |
| Walk.ProcessDirectoryStructure | smart_rename_images02.py:107-153 | The root's own files are never renamed. The total is the sum of the calls made. A negative depth bound processes nothing. |
| Walk.EntriesVisited | smart_rename_images02.py:132-148 | The loop over a listing processes a folder exactly when it lies below a non-hidden listed entry and is eligible from there. |
| Walk.WalkVisited | smart_rename_images02.py:121-148 | A walk processes exactly the eligible folders: at most `maxDepth - depth + 1` levels down, behind no hidden name, and reachable through listable folders. |
| Walk.ProcessedExactly | smart_rename_images02.py:107-153 | From the root, the folders processed are exactly the eligible ones. The root itself is never among them. |
| Walk.ProcessedWithinBound | smart_rename_images02.py:121-137 | Every processed folder is one to `maxDepth + 1` levels below the root and behind no hidden name. With a bound of 0, only the root's own sub-folders are processed. |
| Walk.WalkAccounted | smart_rename_images02.py:139-148 | Each recorded call is the renamer run on the folder it names, at the path the walk built for it. |
| Walk.EntriesAccounted | smart_rename_images02.py:132-148 | The same, for the loop over a listing. |
| Walk.ProcessedAccounted | smart_rename_images02.py:139-153 | Every call recorded from the root is the renamer on the folder it names. With `Total`, the result is the sum of what those calls renamed. |
| Walk.WalkOnce | smart_rename_images02.py:132-148 | No folder is processed twice by a walk. |
| Walk.EntriesOnce | smart_rename_images02.py:132-148 | No folder is processed twice by the loop over a listing. Every call lies below a listed entry. |
| Walk.ProcessedOnce | smart_rename_images02.py:132-148 | From the root, no folder is processed twice. |
| Walk.EntriesTree | smart_rename_images02.py:132-148 | After the loop, a hidden sub-folder is as it was. Any other sub-folder holds the files the renamer left it and the sub-folders its own walk left it. |
| Walk.WalkTree | smart_rename_images02.py:121-148 | Every folder below is still there. An eligible one holds the files the renamer left it; any other holds the files it had. |
| Walk.ProcessedTree | smart_rename_images02.py:107-153 | After the whole run, every folder, the root included, is still there. Eligible folders hold what the renamer left them; all others hold their files unchanged. |
| Scenarios.JobOfXY | smart_rename_images02.py:40-47 | The folder `X/Y`, with `X` a known artist, is processed under artist `X` and project `Y`. |
| Scenarios.ImagesOfXY | smart_rename_images02.py:59-63 | `b.png`, `a.jpg`, `c.PNG` and `notes.txt` give the images `a.jpg`, `b.png`, `c.PNG` in that order. |
| Scenarios.RenameXY | smart_rename_images02.py:59-105 | With every rename succeeding, the images become `X_Y_01.jpg`, `X_Y_02.png` and `X_Y_03.PNG`, and the notes stay. Three files are renamed. |
| Scenarios.RenameTaken | smart_rename_images02.py:74-100 | With `X_Y_02.jpg` already present, it is skipped but takes number 1. `a.jpg` collides and gets the identifier variant of number 2, and `b.jpg` becomes `X_Y_03.jpg`. Two files are renamed. |

## Left out

- **The front end.** The interactive `__main__` block and `load_artist_list`
  are console input and a stub returning an empty list. The walk takes their
  results as a `Config` value.
- **Logging.** The `print` calls produce no result and are not modelled.
- **Randomness.** `uuid.uuid4()` is replaced by the `freshId` part of the
  environment. Any eight lower-case hex digits are allowed.
- **Operating-system calls.** `os.listdir`, `os.path.isfile`,
  `os.path.isdir`, `os.path.exists` and `os.rename` are replaced by the folder
  tree and the `renameOk` part of the environment.
  - Listing errors become `readable == false`.
  - The model assumes the file system does not change while the tool runs,
    apart from its own renames.
- Rename.Attempt: assumes the artist and project names contain no `/`. With
  such a name, `os.path.join` at line 88 points into a sub-folder (or, with a
  leading `/`, elsewhere). The existence test at line 91 and the rename at
  line 100 then act there, while the model tests and adds the name in the
  folder itself. `Rename.JobForSeparatorFree` shows only a default artist, or a
  project name given by a direct caller, can bring such a name in.
- Rename.RenameImages: `subdirs == d.subdirs` holds only under the same
  assumption. With a default artist such as `a/b`, the program would move
  files into sub-folder `a`.
- **Case-insensitive file systems.** A folder's names are a set of exact
  strings, as on a case-sensitive file system. On a case-insensitive one,
  `os.path.exists` (line 91) and `os.rename` (line 100) treat names that
  differ only in case as the same name. The model does not cover that.
- **Other kinds of entries.** Symbolic links, devices, and names that are
  neither a file nor a folder are not modelled. This hides one behaviour of
  the program:
  - `os.path.isdir` at line 139 follows symbolic links, so a link to an
    ancestor folder is walked again under a new path.
  - There the folder gets a new project name, its base name at line 41, so
    images the first visit already renamed are renamed again.
  - A finite `Dir` tree cannot hold such a cycle.
- **Other listing errors.** Errors that the code does not catch, such as
  `NotADirectoryError`, are not modelled.
- **Unicode case and digits.** Lower-casing is ASCII only. `\d` is taken as
  the ASCII digits. Python's `str.lower` and `\d` also cover other scripts.
- **Separator.** The path separator is fixed to `/`. `os.path.sep` on other
  platforms is not modelled.
- **Regex engine.** `re.match` with `re.escape` is replaced by the predicate
  it stands for: the literal prefix `<artist>_<project>_` followed by a digit.
- **Order of the file listing.** The order `os.listdir` returns files in is
  not modelled. The images are sorted, and `Ordering.AscendingUnique` shows
  the listing order cannot matter.
- **Missing versus empty default.** `default_artist=None` and
  `default_artist=""` both mean "no default"; the model keeps them as `None`
  and `Some("")`, which behave alike.
- **Walk order.** The walk visits sub-folders in listing order. The model
  proves which folders are processed and what they hold afterwards. It does
  not prove that the result is independent of that order.
