# 2PicMerge core, modelled in Dafny

2PicMerge (`main.py`) is a desktop tool that merges photos two at a time.
It scans a source folder for `.jpg`, `.jpeg` and `.png` files that are in
neither `processed/` nor `result/`. It sorts them by capture time, read
from EXIF with a fallback to the modification time. A pair is then merged
in one of two ways:

- manual mode: the user picks two thumbnails;
- batch mode: consecutive sorted files are paired.

A merge scales both images to a common height (side by side) or a common
width (stacked). It saves the composite as `result/<stem1>_<stem2>.jpg`
and moves both sources into `processed/`.

This project models the non-GUI core of that program:

| module | what it models |
|---|---|
| `Geometry` | `merge_images`: the scaled sizes, the canvas and the paste offsets, with `int(w*h/H)` as floor division |
| `FileNames` | the case-insensitive extension filter, `os.path.splitext(name)[0]` and the output name |
| `Scanning` | the eligible-file list comprehension, in listing order |
| `Sorting` | `list.sort`, by capture time or by name, as a stable insertion sort |
| `Pairing` | the pairing loop of `generate_preview` |
| `CaptureTime` | the value `get_capture_time` resolves |
| `Lifecycle` | the merge, save, move, move sequence shared by both modes, over a value that stands for the three folders |
| `Selector` | class `ImageSelector`, the main window's state: the cache, the image list and the selection of at most two images |
| `Batch` | class `BatchDialog` and the batch run as a function |

Capture times are integers on one clock. The parts of the environment the
program only observes are parameters:

- what `Image.open`, `_getexif` and `os.path.getmtime` report per file name, a `FileInfo`;
- `strptime`, a partial function `parse`;
- whether a save or a move fails, a `Faults` value per commit.

Behaviours of the code that the model keeps:

- A commit is not atomic. A failure after the save leaves the composite in `result/`. A failure between the two moves leaves the first source in `processed/` and the second still in the source folder.
- The output name is not injective. `a_b.jpg + c.jpg` and `a.jpg + b_c.jpg` both write `a_b_c.jpg`, and the second save silently overwrites the first.
- A source file that has the same name as a file in `result/` is never offered by the scan. This includes a composite saved under that name.
- `generate_preview` with fewer than two files returns before it resets `pairs_to_process`, so an earlier plan survives.
- `get_capture_time` probes `DateTimeOriginal`, `CreateDate` and `DateTimeDigitized`, in that order. PIL names EXIF tags by the EXIF standard and has no tag called `CreateDate`, so that probe never matches through PIL. The model keeps the three probes, and `DigitizedTimeFallback` states the effective fallback.
- A pair whose scaled image would have a zero side, such as a very thin strip, makes PIL's `resize` raise. The pair then fails like any other failed merge.
- `select_image` merges as soon as two images are held and then clears the selection. So between calls at most one image is held, and the "third image clears the pair" branch can only be reached through a state the UI never leaves behind.

## Model

| member | source | states |
|---|---|---|
| Geometry.Scale | main.py:25-26 | the scaled length is `floor(len*target/along)`; it never exceeds `len` when `target <= along` and equals it when `target == along` |
| Geometry.Merge | main.py:18-41 | horizontal: canvas height is the smaller height, both images take it, widths are scaled in proportion (floored), the canvas width is their sum and the second image is pasted at `(w1, 0)`; vertical is the same with the axes exchanged |
| Geometry.MergeNeverUpscales | main.py:22-35 | neither image is ever enlarged in either dimension |
| Geometry.MergeKeepsSmallerImage | main.py:24-26 | the image whose matched side is the smaller one keeps its exact size |
| Geometry.MergeSameSize | main.py:18-41 | two `w x h` images give a `2w x h` or a `w x 2h` canvas with no rescaling |
| Geometry.MergeDuality | main.py:22-39 | the vertical merge is the horizontal merge of the transposed images, transposed |
| Geometry.FloorScaledUnique | main.py:25 | the floored scaled length is determined by its defining inequality |
| Geometry.FloorScaledZero | main.py:25-26 | a scaled side truncates to zero exactly when the exact proportional length is below one |
| Geometry.MergeResizable | main.py:22-35 | both scaled images keep positive sides exactly when `w * h >= H` for each image (width `w`, height `H`, common height `h`), and dually when stacking |
| Geometry.ThinStripIsNotResizable | main.py:25 | a 1 x 1000 strip beside a 100 x 10 image is scaled to width 0, which `resize` rejects |
| FileNames.ImageNameBySuffix | main.py:451-457 | a name passes the filter exactly when its last characters, lower-cased, spell `.jpg`, `.jpeg` or `.png` |
| FileNames.ImageNameIgnoresCase | main.py:177-180 | `.JPG`, `.Jpeg` and `.PNG` names pass |
| FileNames.LastDot | main.py:284 | the index of the last `.`, or -1 when there is none |
| FileNames.Stem | main.py:284-285 | the stem is a prefix of the name; it is either the whole name or stops at the last dot, with something other than dots before that dot |
| FileNames.StemKeepsNameWithoutExtension | main.py:560-561 | a name with no dot, or with only a leading dot, is its own stem |
| FileNames.StemDropsImageExtension | main.py:284-285 | a name ending in an allowed extension loses exactly that extension |
| FileNames.StemOfShortName | main.py:284-285 | `x + e`, with `e` a one-dot extension and `x` not starting with a dot, has stem `x` |
| FileNames.OutputName | main.py:284-286 | the output name ends in `.jpg` and itself passes the image-name filter |
| FileNames.OutputNameSplits | main.py:560-562 | splitting the output name again gives `stem1 + "_" + stem2` |
| FileNames.OutputNameCollides | main.py:284-287 | two different pairs can have the same output name |
| FileNames.OutputNameIgnoresExtensions | main.py:560-562 | for any one-dot extensions, the input extensions play no part in the output name |
| Lists.Without | main.py:535 | the filter removes exactly the entries equal to the name and never lengthens the list |
| Lists.WithoutAbsent | main.py:535 | deselecting a name that is not held changes nothing |
| Lists.WithoutPresent | main.py:535 | deselecting a held name from a list without duplicates shortens it by one |
| Scanning.Scan | main.py:455-460 | a name is offered exactly when it is in the listing, passes the extension filter, and is in neither `processed/` nor `result/` |
| Scanning.ScanConcat | main.py:455-460 | the comprehension keeps listing order |
| Scanning.ScanIdempotent | main.py:177-183 | rescanning an already scanned list changes nothing |
| Scanning.ScanNoDup | main.py:177-183 | a listing without duplicates scans to a list without duplicates |
| Sorting.LexLeTotal | main.py:188 | string order is total |
| Sorting.LexLeTransitive | main.py:188 | string order is transitive |
| Sorting.LexLeAntisymmetric | main.py:188 | string order is antisymmetric |
| Sorting.TiedByNameIsEqual | main.py:188 | under name order, two names tie only when they are equal |
| Sorting.Insert | main.py:463 | insertion adds exactly one occurrence of the element |
| Sorting.Sort | main.py:185-188 | the sorted list is a permutation of the input |
| Sorting.SortSorted | main.py:185-188 | the sorted list is ordered by the chosen key |
| Sorting.SortStable | main.py:463 | names with equal keys keep their input order (the sort is stable) |
| Sorting.SortNoDup | main.py:463 | sorting keeps a list free of duplicates |
| Pairing.PairsShape | main.py:203-205 | there are `n div 2` pairs and pair `i` is `(files[2i], files[2i+1])` |
| Pairing.PairsCover | main.py:204-205 | the pairs use the files in order, all but an odd last one |
| Pairing.OddLastUnpaired | main.py:204 | with distinct names, an odd last file is in no pair |
| Pairing.PairsDisjoint | main.py:204-205 | with distinct names, no file is in two pairs |
| Pairing.MakePairs | main.py:203-205 | the loop builds exactly `Pairs(files)`, pair `k` being files `2k` and `2k+1` |
| CaptureTime.FirstParsed | main.py:419-427 | none exactly when no field is present and parsable; otherwise the value of the first such field in priority order |
| CaptureTime.ResolveSpec | main.py:402-434 | the modification time when the image cannot be opened or no field is usable; otherwise the first usable field's parsed time |
| CaptureTime.OriginalTimeWins | main.py:419 | a parsable `DateTimeOriginal` decides, whatever the other fields hold |
| CaptureTime.DigitizedTimeFallback | main.py:419-427 | with `DateTimeOriginal` unusable and no `CreateDate` field, a usable `DateTimeDigitized` gives the time |
| CaptureTime.UnparsableFieldSkipped | main.py:422-427 | a field that does not parse is skipped and the next one is used |
| Lifecycle.MoveToProcessed | main.py:293 | the moved name leaves the source folder and is in `processed/`; nothing else changes |
| Lifecycle.Commit | main.py:289-297 | committed exactly when both names are present and distinct, both images decode and scale to positive sizes, and no step fails; a merge failure changes nothing; after a successful save the composite is in `result/` under the output name, overwriting; a failed first move leaves the sources; a failed second move has moved only the first |
| Lifecycle.CommitFrame | main.py:289-297 | names other than the pair's stay where they were |
| Lifecycle.CommitRetiresPair | main.py:289-297 | after a commit the next scan offers what it offered before, minus the two sources and the output name |
| Lifecycle.SavedOutputNeverScanned | main.py:455-460 | once saved, the output name is never offered by a scan |
| Selector.ImageSelector.constructor | main.py:308-317 | no folder, no images, no selection, an empty cache, horizontal direction |
| Selector.ImageSelector.ChooseFolder | main.py:371-386 | a cancelled dialog changes nothing; otherwise the folders are replaced, the selection is cleared and the list is reloaded; the direction is kept |
| Selector.ImageSelector.SetDirection | main.py:341-345 | the manual direction is the chosen one |
| Selector.ImageSelector.GetCaptureTime | main.py:402-434 | the result is the resolved capture time; a cached name reads no metadata and leaves the cache as it is; an uncached name is read once and cached |
| Selector.ImageSelector.CacheTimes | main.py:463 | after the key pass every listed name is cached, with its resolved time |
| Selector.ImageSelector.LoadImages | main.py:439-466 | the selection is cleared; the cache holds exactly the scanned names with their resolved times; the image list is the scan sorted by those times |
| Selector.ImageSelector.SelectImage | main.py:522-531 | a held pair is first cleared; a second image merges the pair in order and then clears and reloads; a first image is just held, with folders, cache and list unchanged; at most one image is held afterwards |
| Selector.ImageSelector.DeselectImage | main.py:533-537 | every entry with that name is removed |
| Selector.ImageSelector.ClearSelection | main.py:544-548 | the selection is empty |
| Selector.ImageSelector.MergeSelected | main.py:556-586 | the folders become the commit of the held pair in order, whatever the outcome; the selection is cleared and the list is reloaded |
| Selector.ImageSelector.OpenPreview | main.py:498-517 | a held image can only be deselected, and nothing else changes; an unheld image that is accepted has the effect of `select_image`, merging with a held one or becoming the only one held; a dismissed one changes nothing; no name is ever held twice |
| Selector.WithoutNoDup | main.py:535 | deselecting keeps the selection free of duplicates |
| Batch.RunBatch | main.py:280-297 | one outcome per pair |
| Batch.CountCommitted | main.py:295 | the count is at most the number of pairs, and equals it exactly when every pair was committed |
| Batch.RunBatchFrame | main.py:280-297 | names that no pair mentions stay in the source folder, or stay out of it |
| Batch.BatchPairsIndependent | main.py:280-297 | with distinct names present at the start, pair `i` is committed exactly when both its images decode and scale to positive sizes and none of its own steps fails; earlier failures do not affect it |
| Batch.PlannedPairsAreDisjoint | main.py:175-205 | the planned pairs of a listing without duplicates share no name and come from the source folder |
| Batch.ExifTimeSortsFirst | main.py:185-205 | a file with an earlier EXIF time sorts before one dated by modification time, and the two form one pair in that order |
| Batch.OutputNameExample | main.py:284-286 | the pair `(b.jpg, a.jpg)` is saved as `b_a.jpg` |
| Batch.BatchDialog.constructor | main.py:122-173 | sort by capture time, horizontal, no planned pairs |
| Batch.BatchDialog.Configure | main.py:138-155 | the sort and direction options are the chosen ones |
| Batch.BatchDialog.GetSortedFiles | main.py:175-190 | the scan sorted by capture time (every file's time then cached) or by name (the cache untouched) |
| Batch.BatchDialog.GeneratePreview | main.py:192-205 | with fewer than two files the plan is kept; otherwise it becomes the pairs of the sorted files; by time, every planned file is cached, by name the cache is untouched; the cache only grows |
| Batch.BatchDialog.CommitAll | main.py:278-297 | the folders are the batch run over the plan, and the count is the number of pairs committed |
| Batch.BatchDialog.StartBatch | main.py:272-301 | nothing happens without a plan; otherwise the plan is committed, the count is returned and the main window is reloaded; its direction and folder choice are kept |

## Left out

- The GUI: widgets, thumbnails, the selection counter, message boxes and focus handling. `open_batch_dialog`'s "choose a folder first" guard (main.py:391-397) is a dialog around the model.
- Pixel data. `resize`, `paste` and `save` are reduced to the sizes and offsets they use, and the JPEG encoding is not modelled.
- The in-memory preview of the first three pairs (main.py:207-266). Its geometry is the same as `Geometry.Merge`, and it changes no state.
- `ImagePreviewDialog` (main.py:47-115) is reduced to how it was closed, `PreviewAction`.
- Creating `processed/` and `result/` (main.py:379-384). The folders are a value that already has all three parts.
- Floating point: `int(w*h/H)` is modelled as floor division, which it equals while `w*h` stays below 2^53.
- Case folding: only ASCII letters are lower-cased. No other character lower-cases into `.jpg`, `.jpeg` or `.png`, so the extension test gives the same answer.
- Directory separators: names are single path components, as `os.listdir` returns them.
- The date format and the EXIF tag-id to name mapping are abstracted into `parse` and a map from field names to values.
- An exception from `os.path.getmtime` on a file that vanished escapes `get_capture_time`. The model always has a modification time.
- `Image.open` on a zero-sized image: dimensions are positive in the model.
- Geometry.Merge: the result is the layout of the composite, not the composite's pixels.
- Selector.ImageSelector.ChooseFolder: what the library reports per file name, `info`, is fixed for the object's lifetime, so a name in a newly chosen folder reports the same `FileInfo` as that name in the old one. The cache is cleared on every reload, so no contract depends on this.
- Why a save or a move fails (disk errors, permissions, a destination that already exists on some platforms) is not modelled. Failures arrive as `Faults`, one flag per step.
