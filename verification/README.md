# tiles-merger in Dafny

A model of `MapMerger`, the one class of tiles-merger. `MapMerger` stitches
together the map tiles of base images laid out in a mosaic six images wide.
Each base image directory `root/<image>/` holds `<zoom>/<column>/<row>.png`
tiles. The deterministic core under the thread pool and the `Runtime.exec`
calls is modelled as pure functions over a snapshot of that directory tree:

- **The sweep** (`sweep.dfy`).
  - `runMerge` visits the images 1 to 35 that are not multiples of 6.
  - For each, `run` submits the image's horizontal merges (partner `n + 1`) and vertical merges (partner `n + 6`).
  - It pushes the image on `fourWayStack` when `n`, `n + 1`, `n + 6` and `n + 7` all exist.
  - `main` then submits `fourWayMerge` for every pushed image.
  - `runMerge` is also written as the Java nested loops (`RunMerge`), with their loop invariants.
- **The boundary tile matcher** (`matcher.dfy`, `ordering.dfy`, `tilepaths.dfy`, `snapshot.dfy`).
  - `pathComparator` and `getLastEntry`.
  - `horizontalMerge`: the last two columns by number, and every row file whose eastern counterpart exists.
  - `verticalMerge`: in each column, the row file that is last in the lexicographic `Path` order, when its southern counterpart exists.
  - `fourWayMerge`: the last row file of the numerically last column, when the three other corners exist.
  - Partner paths are computed with a faithful Java `String.replace` (`javastring.dfy`). Like the source, it replaces every occurrence.
  - Coordinates are read back through `removeBaseDir` and `split("[/\\.]")`.
- **The command builder and recipes** (`commands.dfy`, `recipes.dfy`).
  - Every `create*Path` and `construct*Command`, as strings.
  - The exact command lines of the three `exe.execute` lambdas, in order.
  - The argument vectors `Runtime.exec` makes of those lines, via a `StringTokenizer` model.
  - Which files each command line writes and removes, assuming every `convert` succeeds (`Recipes.Step`).
    - Under that assumption, a pairwise merge removes every scratch file it names and leaves only the merged tile.
    - A four-way merge does so exactly when its tile's column is none of `b + 1`, `b + 6`, `b + 7`.
  - Which directories the command lines write into. A four-way merge whose tile's column is numbered `b`, `b + 1`, `b + 6` or `b + 7` has a `convert` write into `root/tmp/<z>/tmp/`, a directory the merger never creates (`Recipes.FourWayTmpWrites`).

An exception in the source (`get(-1)` on an empty listing, `split[k]` out of
range, `Files.list` of a missing directory) is a `Failure` in a `Result`.
The first one ends the run, as the uncaught `RuntimeException` does.

Behaviour of the code that is easy to miss:

- Multiples of 6 are never visited (`MapMerger.java:134`), so no vertical merge `6 -> 12` ever happens.
- `main` has no barrier between the pairwise phase and the four-way phase. Every four-way task is only submitted after every pairwise one (`Sweep.FourWayLast`).
- `verticalMerge` picks the greatest row file in the lexicographic order, not the numeric one. `"10.png"` sorts before `"9.png"` (`Ordering.TenBeforeNine`).
- `fourWayMerge` does not look the corner tiles up by position. It retargets the north-western tile's path to images `b + 1`, `b + 6` and `b + 7` (`Matcher.FourWayCorner`).
- `String.replace` rewrites every `/<w>/` segment. A tile whose column directory is named like its image therefore has its column renamed as well (`TilePaths.RetargetTile`, `TilePaths.RetargetKeepsCoordinates`).
- For the same reason, the command lines of a four-way merge whose tile column is numbered `b + 1`, `b + 6` or `b + 7` trim that corner into a file the later commands never name and never remove (`Recipes.FourWayCleansUp`). That file, and for column `b` every scratch file, lies in `root/tmp/<z>/tmp/` (`Recipes.FourWayTmpWrites`). `createOutputDir` is only ever called with a numeric column (`MapMerger.java:270`, `:329`), and `runFourWayMerge` creates no directory. Unless that directory exists already, the `convert` fails and `execute` ends the program through `System.exit(1)` (`MapMerger.java:464-467`). The model does not follow that failure (see "Left out").

## Model

| member | source | states |
|---|---|---|
| Decimal.Digits | src/de/davidschuld/mapmerge/MapMerger.java:384-386 | `String.valueOf(n)` is a digit string without a leading zero, one character long exactly below 10 |
| Decimal.ParseDigits | src/de/davidschuld/mapmerge/MapMerger.java:191-194 | `Integer.parseInt` of `String.valueOf(n)` gives `n` back |
| Decimal.DigitsInjective | src/de/davidschuld/mapmerge/MapMerger.java:384-386 | distinct image numbers have distinct directory names |
| JavaString.ReplaceAbsent | src/de/davidschuld/mapmerge/MapMerger.java:380-382 | `String.replace` of a target that does not occur leaves the string unchanged |
| JavaString.ReplaceAtFirst | src/de/davidschuld/mapmerge/MapMerger.java:156-161 | `replace` copies everything before the first occurrence, substitutes it, and continues after it |
| JavaString.ReplaceOnlyOccurrence | src/de/davidschuld/mapmerge/MapMerger.java:251-252 | when the target occurs once, exactly that occurrence is replaced and nothing else changes |
| JavaString.LastIndexOf | src/de/davidschuld/mapmerge/MapMerger.java:192 | `lastIndexOf(c)` is -1 or an index holding `c`, with no `c` after it |
| JavaString.FieldsAtSep | src/de/davidschuld/mapmerge/MapMerger.java:265 | a separator character splits the fields of its two sides apart |
| JavaString.SplitPath | src/de/davidschuld/mapmerge/MapMerger.java:265 | `split("[/\\.]")`: no piece holds a `/` or `.`, a string without one splits into itself alone, and a split that found one never ends in an empty piece |
| JavaString.SplitPathAtSep | src/de/davidschuld/mapmerge/MapMerger.java:265 | a non-empty separator-free piece followed by `/` or `.` and a non-empty rest splits into that piece followed by the split of the rest |
| JavaString.TokenizeJoin | src/de/davidschuld/mapmerge/MapMerger.java:456 | two pieces of a command line joined at a blank give the arguments of each piece in turn |
| JavaString.TokenizeWord | src/de/davidschuld/mapmerge/MapMerger.java:456 | a blank-free string is passed as one argument |
| JavaString.LexTransitive | src/de/davidschuld/mapmerge/MapMerger.java:305 | the natural string order used by `Collections.sort(fileList)` is transitive |
| JavaString.LexTotal | src/de/davidschuld/mapmerge/MapMerger.java:305 | any two distinct paths are ordered one way or the other |
| Ordering.Insert | src/de/davidschuld/mapmerge/MapMerger.java:183 | one insertion step of the sort keeps the listing sorted and is a permutation plus the new entry |
| Ordering.SortBy | src/de/davidschuld/mapmerge/MapMerger.java:183 | `Collections.sort(list, pathComparator())` yields a sorted permutation of the listing |
| Ordering.SortDistinct | src/de/davidschuld/mapmerge/MapMerger.java:228 | sorting a listing with distinct names keeps the names distinct |
| Ordering.LastEntryIsGreatest | src/de/davidschuld/mapmerge/MapMerger.java:179-187 | `getLastEntry` fails exactly on an empty listing and otherwise returns an entry no other entry exceeds |
| Ordering.LastEntryUnique | src/de/davidschuld/mapmerge/MapMerger.java:179-187 | with distinct names, `getLastEntry` returns the one entry of greatest number |
| Ordering.LastTwoChosen | src/de/davidschuld/mapmerge/MapMerger.java:228-234 | a column is scanned exactly when fewer than two columns have greater numbers; `min(2, n)` columns are scanned |
| Ordering.TopTwoAbove | src/de/davidschuld/mapmerge/MapMerger.java:231-234 | in the sorted listing, an entry has two above it exactly when it is not among the last two |
| Ordering.LexGreatest | src/de/davidschuld/mapmerge/MapMerger.java:305-307 | the last element after `Collections.sort(fileList)` is in the listing and no path of it is greater |
| Ordering.LexGreatestUnique | src/de/davidschuld/mapmerge/MapMerger.java:305-307 | the path picked is determined by the set of paths, whatever the listing order |
| Ordering.DigitsLexOrder | src/de/davidschuld/mapmerge/MapMerger.java:305 | names with as many digits compare lexicographically as their numbers do |
| Ordering.RowPathOrder | src/de/davidschuld/mapmerge/MapMerger.java:305 | the row files of one column compare as their file names do |
| Ordering.TenBeforeNine | src/de/davidschuld/mapmerge/MapMerger.java:305 | `"10.png"` sorts before `"9.png"`, so the lexicographic pick is not the numeric one |
| TilePaths.LastSegment | src/de/davidschuld/mapmerge/MapMerger.java:192 | `substring(lastIndexOf("/") + 1)` is a suffix of the path that holds no `/` and, unless it is the whole path, follows a `/` |
| TilePaths.PathKeyOfName | src/de/davidschuld/mapmerge/MapMerger.java:191-194 | the comparator key of a directory or a row file named by `n` is `n` |
| TilePaths.CompareColumnDirs | src/de/davidschuld/mapmerge/MapMerger.java:189-197 | `pathComparator` compares column directories by number, `x1 - x2` |
| TilePaths.CompareTiles | src/de/davidschuld/mapmerge/MapMerger.java:189-197 | `pathComparator` compares the row files of a column by number |
| TilePaths.NineBeforeTen | src/de/davidschuld/mapmerge/MapMerger.java:189-197 | column "9" sorts before column "10" under `pathComparator` |
| TilePaths.RetargetTilePath | src/de/davidschuld/mapmerge/MapMerger.java:156-161 | replacing `/w/` in a tile path switches the image, and also the column exactly when the column is named `w`; zoom and row are kept |
| TilePaths.RetargetKeepsCoordinates | src/de/davidschuld/mapmerge/MapMerger.java:251-252 | the partner path is the same tile of the partner image exactly when the column is not named like the image |
| TilePaths.RetargetTile | src/de/davidschuld/mapmerge/MapMerger.java:308-309 | retargeting tile `(w, z, x, y)` to image `e` names tile `(e, z, x', y)`, `x'` the retargeted column |
| TilePaths.RemoveBaseDirOfTile | src/de/davidschuld/mapmerge/MapMerger.java:380-382 | `removeBaseDir` of a tile path leaves `image/zoom/column/row.png` |
| TilePaths.SplitTilePath | src/de/davidschuld/mapmerge/MapMerger.java:265-268 | the split yields image, zoom, column, row and "png", so `split[1..3]` are zoom, column and row |
| TilePaths.TilePathInjective | src/de/davidschuld/mapmerge/MapMerger.java:485-493 | distinct tiles have distinct paths |
| Snapshot.ExistsTile | src/de/davidschuld/mapmerge/MapMerger.java:254 | `Files.exists` of a tile path holds exactly when the tree holds that tile |
| Matcher.ForEachOutcome | src/de/davidschuld/mapmerge/MapMerger.java:224 | a `forEach` succeeds exactly when every entry does, and then submits exactly the tasks of its entries |
| Matcher.ForEachMembers | src/de/davidschuld/mapmerge/MapMerger.java:284-286 | when every entry submits exactly what a rule says, the `forEach` submits exactly what the rule says for some entry |
| Matcher.HorizontalTileOutcome | src/de/davidschuld/mapmerge/MapMerger.java:249-258 | a western row file yields a task exactly when its retargeted eastern path exists, and never fails |
| Matcher.HorizontalZoomOutcome | src/de/davidschuld/mapmerge/MapMerger.java:224-238 | a zoom level fails exactly when it has no column, and otherwise submits the tasks of its last two columns |
| Matcher.ScannedColumns | src/de/davidschuld/mapmerge/MapMerger.java:228-234 | the columns scanned are exactly those with fewer than two columns of greater number |
| Matcher.HorizontalMergeMatches | src/de/davidschuld/mapmerge/MapMerger.java:213-240 | `horizontalMerge(w)` does nothing unless `w` and `w + 1` exist; it fails exactly when a zoom level has no column; otherwise it submits exactly the tasks of the scanned rows whose eastern counterpart exists |
| Matcher.NorthernTile | src/de/davidschuld/mapmerge/MapMerger.java:305-307 | the northern tile of a non-empty column is the row last by file name |
| Matcher.LastByNameUnique | src/de/davidschuld/mapmerge/MapMerger.java:305-307 | at most one row of a column is last by file name |
| Matcher.VerticalColumnMembers | src/de/davidschuld/mapmerge/MapMerger.java:299-320 | a column fails exactly when it is empty, and otherwise submits at most one task, for its row last by name, exactly when the southern counterpart exists |
| Matcher.VerticalMergeMatches | src/de/davidschuld/mapmerge/MapMerger.java:275-320 | `verticalMerge(n)` does nothing unless `n` and `n + 6` exist; it fails exactly when a column is empty; otherwise it submits exactly the matching tasks |
| Matcher.FourWayZoomOutcome | src/de/davidschuld/mapmerge/MapMerger.java:154-171 | a zoom level fails exactly when it has no column or its last column is empty, and otherwise decides through its last tile |
| Matcher.FourWayCorner | src/de/davidschuld/mapmerge/MapMerger.java:156-161 | each corner is the retargeted north-western path, and it exists exactly when the retargeted tile is in the tree |
| Matcher.FourWayZoomMembers | src/de/davidschuld/mapmerge/MapMerger.java:154-171 | a zoom level submits at most one task: the one through its numerically last tile, when all four corners exist |
| Matcher.FourWayMergeMatches | src/de/davidschuld/mapmerge/MapMerger.java:145-177 | `fourWayMerge(b)` fails exactly when `b` is missing or a zoom level has no column or an empty last column; otherwise it submits exactly the matching tasks, at most one per zoom level, skipping only zoom levels with a missing corner |
| Commands.PathArguments | src/de/davidschuld/mapmerge/MapMerger.java:485-493 | the trailing blank of `createTmpImagePath` and `createFullImagePath` adds no argument: each path is one argument |
| Commands.OneSidedTrimArgv | src/de/davidschuld/mapmerge/MapMerger.java:513-520 | a one-sided trim reads the row file of the image and writes the scratch file of the direction |
| Commands.SimpleTrimArgv | src/de/davidschuld/mapmerge/MapMerger.java:495-501 | a four-way trim reads its corner and writes the moved, suffixed path |
| Commands.ChopArgv | src/de/davidschuld/mapmerge/MapMerger.java:503-511 | a chop command reads and writes the same file |
| Commands.AppendVArgv | src/de/davidschuld/mapmerge/MapMerger.java:530-532 | `-append` reads its two inputs in order and writes its output |
| Commands.AppendHArgv | src/de/davidschuld/mapmerge/MapMerger.java:542-544 | `+append` reads its two inputs in order and writes its output |
| Commands.RemoveArgv | src/de/davidschuld/mapmerge/MapMerger.java:356-357 | `"rm " + path` removes exactly that one file |
| Recipes.RunWrites | src/de/davidschuld/mapmerge/MapMerger.java:346-355 | a run of conversions adds exactly their outputs to the files made |
| Recipes.RunRemovals | src/de/davidschuld/mapmerge/MapMerger.java:444-449 | removing distinct files made earlier takes exactly them away |
| Recipes.HorizontalArgv | src/de/davidschuld/mapmerge/MapMerger.java:361-378 | a horizontal task runs exactly 7 commands: trim, trim, chop, chop, `+append`, rm, rm, with these arguments |
| Recipes.VerticalArgv | src/de/davidschuld/mapmerge/MapMerger.java:343-359 | a vertical task runs exactly 7 commands: trim, trim, chop, chop, `-append`, rm, rm, with these arguments |
| Recipes.HorizontalCleansUp | src/de/davidschuld/mapmerge/MapMerger.java:361-378 | with every `convert` succeeding, the command lines of a horizontal task remove both scratch files they made and leave exactly the merged tile |
| Recipes.VerticalCleansUp | src/de/davidschuld/mapmerge/MapMerger.java:343-359 | with every `convert` succeeding, the command lines of a vertical task remove both scratch files they made and leave exactly the merged tile |
| Recipes.ScratchNames | src/de/davidschuld/mapmerge/MapMerger.java:414-416 | `getImagePath` names the north-western tile moved to `tmp` with the suffix before ".png", as one argument |
| Recipes.FourWayArgv | src/de/davidschuld/mapmerge/MapMerger.java:412-451 | a four-way task runs exactly 19 commands: 4 trims, 4 horizontal chops, 2 `+append`, 2 vertical chops, 1 `-append`, 6 rm |
| Recipes.TrimLeft | src/de/davidschuld/mapmerge/MapMerger.java:421-430 | the trim output of corner `b + d` is one of the names the later commands use exactly when `d = 0` or the tile's column is not `b + d` |
| Recipes.FourWayArgsCleanUp | src/de/davidschuld/mapmerge/MapMerger.java:418-450 | with every `convert` succeeding, the four-way commands remove every scratch file they made and leave only the result exactly when the tile's column is none of `b + 1`, `b + 6`, `b + 7` |
| Recipes.FourWayCleansUp | src/de/davidschuld/mapmerge/MapMerger.java:412-451 | the same for the command lines of the task `fourWayMerge` submits |
| Recipes.FourWayArgsTmpWrites | src/de/davidschuld/mapmerge/MapMerger.java:413-450 | some `convert` of a four-way merge writes into `root/tmp/<z>/tmp/` exactly when the tile's column is `b`, `b + 1`, `b + 6` or `b + 7` |
| Recipes.FourWayTmpWrites | src/de/davidschuld/mapmerge/MapMerger.java:412-451 | the same for the command lines of the task `fourWayMerge` submits |
| Sweep.AnchorsMembers | src/de/davidschuld/mapmerge/MapMerger.java:132-141 | `runMerge` visits exactly the images 1 to 35 that are not multiples of 6, each once, in ascending order |
| Sweep.RunMerge | src/de/davidschuld/mapmerge/MapMerger.java:125-143 | the nested loops of `runMerge` call `run` on exactly those images in that order, stopping at the first exception |
| Sweep.RunRow | src/de/davidschuld/mapmerge/MapMerger.java:134-138 | the inner loop runs the images up to the next multiple of 6 and stops there or at an exception |
| Sweep.ExistsImage | src/de/davidschuld/mapmerge/MapMerger.java:105-108 | `Files.exists` of an image directory holds exactly when the image is in the tree |
| Sweep.ImageOutcome | src/de/davidschuld/mapmerge/MapMerger.java:98-112 | `run(baseDir, n)` throws exactly as the tree says, submits exactly the due pairwise tasks, and pushes `n` exactly when `n`, `n + 1`, `n + 6` and `n + 7` exist |
| Sweep.SweepSucceeds | src/de/davidschuld/mapmerge/MapMerger.java:132-141 | a sweep fails exactly when one of its runs does |
| Sweep.SweepTasks | src/de/davidschuld/mapmerge/MapMerger.java:132-141 | a sweep that succeeds submits exactly the tasks of its runs |
| Sweep.SweepStack | src/de/davidschuld/mapmerge/MapMerger.java:105-110 | a sweep pushes exactly the visited images whose four images exist |
| Sweep.SweepAscending | src/de/davidschuld/mapmerge/MapMerger.java:109 | the stack a sweep leaves is ascending |
| Sweep.SweepOutcome | src/de/davidschuld/mapmerge/MapMerger.java:125-143 | the whole sweep fails exactly when a visited image throws, and otherwise submits exactly the due pairwise tasks and pushes exactly the images with four neighbours, in ascending order |
| Sweep.PairwiseOutcome | src/de/davidschuld/mapmerge/MapMerger.java:70-74 | the same for the pairwise phase of `main`, with one image or all of them |
| Sweep.FourWayPhaseOutcome | src/de/davidschuld/mapmerge/MapMerger.java:76 | the four-way phase fails exactly when a pushed image has a stuck zoom level, and otherwise submits exactly the matching four-way tasks |
| Sweep.MergeOutcome | src/de/davidschuld/mapmerge/MapMerger.java:49-87 | `main` fails exactly when a visited image throws or a pushed image has a stuck zoom level; otherwise it submits exactly the due pairwise tasks and the four-way tasks of the visited images with four neighbours |
| Sweep.FourWayLast | src/de/davidschuld/mapmerge/MapMerger.java:70-76 | every four-way task is submitted after every horizontal and vertical task |

## Left out

- Process execution: `execute`, `logProcess`, `System.exit`. A command is its string and the argument vector `Runtime.exec` makes of it. What `convert` does to pixels is not modelled; `Recipes.Step` only tracks which files a command writes or removes.
- The thread pool and `waitUntilFinished`. A task is recorded when it is submitted, in submission order. Concurrent execution, the pool size and the polling are not modelled.
- Filesystem access: `Files.list`, `Files.exists`, `newDirectoryStream`, `createOutputDir` and `mkdirs`. The tree is a snapshot given as data, with listing order as data. Directories other than numbered ones, and files other than numbered `.png` row files, are not part of the snapshot.
- The command-line parsing of `main`: `-debug`, parsing of the optional image number, and negative numbers. The optional image is an `Option<nat>`.
- Console output, `logDebug` and the elapsed-time report.
- Tasks submitted before an exception aborts the run are not tracked; the model reports only the `Failure`.
- Recipes.Step: every `convert` succeeds and writes its output; only an `rm` of a file the sequence did not make fails. The model ignores a `convert` that fails because its input is missing or its output directory does not exist, and it ignores `System.exit(1)`, which ends the whole program. That happens for the four-way merges `Recipes.FourWayTmpWrites` describes, unless `root/tmp/<z>/tmp/` exists already. It also happens for a horizontal task found through a column named like the western image: its coordinates come from the eastern path (`MapMerger.java:256`), so its western trim reads `root/<w>/<z>/<w + 1>/<y>.png`, which need not exist. The vertical case is the same: column `n` of northern image `n` is matched through `root/<n + 6>/<z>/<n + 6>/<y>.png`, its coordinates come from the northern path (`MapMerger.java:312`), and its southern trim reads `root/<n + 6>/<z>/<n>/<y>.png`, which need not exist either. `Recipes.HorizontalCleansUp`, `Recipes.VerticalCleansUp`, `Recipes.FourWayArgsCleanUp` and `Recipes.FourWayCleansUp` therefore describe what the command lines would do if every conversion succeeded.
- TilePaths.ComparePaths: `x1 - x2` is computed on unbounded integers. The 32-bit overflow for names above 2^31 is not modelled, and signed names are not modelled.
- TilePaths.PlainRoot: the path lemmas assume a non-empty root without digits, blanks or ".png", given as an argument with at most one trailing separator. With such characters `String.replace` and the tokenizer can match inside the root, which the model does not characterise. The argument "/" gives the empty root: `removeBaseDir` then deletes every "/" of a tile path, `split[2]` throws (`MapMerger.java:265-268`, `:324-327`), and the merge rethrows it as a `RuntimeException`. An argument ending in two or more separators, such as "/data//", is kept as is in `baseDir` (`MapMerger.java:99`, `:119`), while listed paths are normalised. `removeBaseDir` then strips nothing and the coordinates read back are wrong. The model covers neither case.
- Matcher.HorizontalMergeMatches: states which tasks are submitted, not how often each one is.
