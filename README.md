# Bounding-box annotator: verified model of the editor core and the server's text and path helpers

This project models the core of a small image annotation tool. A browser page (`static/app.js`) lets a user draw boxes over an image. A Flask server (`main.py`) lists the images and stores the boxes as YOLO text files.

What is modelled:

- **Box transform** (`geometry.dfy`, module `Geometry`). A box is stored as a centre and a size, each a fraction of the unrotated image.
  - `NormalizedToDisplayRect` maps a box to a top-left canvas rectangle under one of four view rotations.
  - `DisplayRectToNormalized` maps a rectangle back and rounds each field to four decimals.
  - Arithmetic is exact, over `real`. The natural and canvas sizes are parameters (a `Surface`).
  - The inverse is proved exact before rounding. After rounding it is within 0.00005 per field, and exact for stored boxes already on the 1/10000 grid.
- **Editor state machine** (`editor.dfy` with `history.dfy`, class `Editor.AnnotationEditor`).
  - It holds the box list, the selection, the undo and redo stacks, the view state (rotation, zoom, pan) and the gesture state.
  - Each handler is a method with `modifies this`. It keeps the invariant `Valid()`: selection >= -1, at most 100 snapshots across both stacks, zoom within [0.5, 3].
  - Pure parts are functions with their own lemmas: the drag rectangle, the first-hit test, the splice, the wheel clamp and the bounded push.
- **Image listing** (`imagefiles.dfy`, module `ImageFiles`): the case-insensitive suffix test, the walk loop and an insertion sort. The sort is proved to give the one sorted arrangement.
- **Path helpers** (`paths.dfy`, module `Paths`):
  - `posixpath.join`, `basename` and `splitext`;
  - the annotation file name shared by save and load;
  - the `startswith` guard.
- **Rotate route** (`rotate.dfy`, module `Rotate`): the direction→angle map and where the image library's quarter turns move each pixel.
- **YOLO text format** (`yolo.dfy`, module `YoloFormat`): the writing loop, line splitting, `str.split()` tokens, the reading loop and a round-trip theorem. Number text is abstract: a `NumberText` value holds the show and read functions.

Shared datatypes (`Option`, `Result`, `Box`, `Point`) are in `types.dfy`. The ASCII string helpers are in `strings.dfy`.

Some behaviour of the source that the model keeps as it is:

- **Drawing at rotation 0.** An 800x600 image on a 400x300 canvas draws the box (0.5, 0.5, 0.25, 0.2) at (150, 120) with size 100x60: the top edge is (300 - 120/2) * 0.5 = 120 (app.js:126). `Geometry.ExampleUnrotated` states these values.
- **Rotate success handlers** (app.js:330-334, 346-350) reset rotation and zoom and keep the pan (`RotatedOnServer`).
- **Undo and redo keep the selection.** Afterwards the selected index can lie past the end of the list. A later delete of that index removes nothing, as `splice` does, and no box is painted as selected (`HighlightedAtMostOne`).
- **`loadImage` with an empty image list** (app.js:225) sets the status text, clears the image source and returns, changing nothing the model holds.
- **The keydown handler** tests for undo before redo (app.js:373-376), so Ctrl+Shift+Z undoes. `KeyDown` keeps that order; the intended order is `KeyCommandCorrected` (see Findings).

## Model

| member | source | states |
|---|---|---|
| `Strings.Lower` | main.py:14 | ASCII lower-casing keeps the length and lower-cases each character on its own |
| `Strings.LowerIdempotent` | main.py:14 | lower-casing twice is lower-casing once |
| `Geometry.NormalizedToDisplayRect` | static/app.js:102-104 | no rectangle exactly when the natural width or height is 0 |
| `Geometry.DisplayRectPlacement` | static/app.js:105-129 | every box is `Placed` on a decoded image: the rectangle's size is the box's fractional size times the canvas size, width and height exchanged at 90 and 270 degrees, and its centre is the box's fractional centre turned by the rotation, times the canvas size |
| `Geometry.SwapScales` | static/app.js:114-124 | at 90/270 the scale factors are canvasWidth/naturalHeight and canvasHeight/naturalWidth; at 0/180 canvasWidth/naturalWidth and canvasHeight/naturalHeight |
| `Geometry.QuarterTurnsCompose` | static/app.js:114-124 | the four rotation cases form the quarter-turn group: 90+90 is 180, 90+270 and four quarter turns are the identity |
| `Geometry.ExampleUnrotated` | static/app.js:102-130 | 800x600 image, 400x300 canvas, rotation 0: box (0.5,0.5,0.25,0.2) is drawn at (150,120) with size 100x60 |
| `Geometry.ExampleQuarterTurn` | static/app.js:102-130 | the same box at 90 degrees on a 300x400 canvas is drawn at (120,150) with size 60x100 |
| `Geometry.UnroundedNormalized` | static/app.js:132-149 | the inverse before rounding gives nothing exactly when the natural size is 0 |
| `Geometry.ScaleRoundTrip` | static/app.js:141-144 | dividing the rectangle's centre and size by the scale undoes the scaling |
| `Geometry.RotateRoundTrip` | static/app.js:145-149 | each inverse rotation branch undoes the forward branch of the same rotation |
| `Geometry.PixelsRoundTrip` | static/app.js:151 | dividing by the natural size undoes the multiplication by it |
| `Geometry.UnroundedRoundTrip` | static/app.js:132-151 | for every rotation and positive sizes, the unrounded inverse of a box's rectangle is exactly the box |
| `Geometry.Round` | static/app.js:154 | the rounded value lies on the 1/10000 grid and within half a step of the input (halves round up) |
| `Geometry.RoundOnGrid` | static/app.js:154 | rounding leaves a value already on the grid unchanged |
| `Geometry.RoundIdempotent` | static/app.js:154 | rounding twice is rounding once |
| `Geometry.DisplayRectToNormalized` | static/app.js:132-152 | gives nothing exactly when the natural size is 0 |
| `Geometry.RoundedRoundTrip` | static/app.js:132-154 | after rounding, every field of the recovered box is within 0.00005 of the box drawn |
| `Geometry.StoredBoxRoundTrip` | static/app.js:132-154 | a box whose fields have at most four decimals is recovered exactly |
| `History.BoundedPush` | static/app.js:205 | the new snapshot is on top, and a stack within capacity grows by one up to at most 100 |
| `History.BoundedPushDropsOldest` | static/app.js:205 | below the new snapshot are the most recent older ones, the oldest dropped first |
| `History.PushAllKeepsMostRecent` | static/app.js:205 | after any run of pushes onto a stack within capacity, the stack is `MostRecent` of everything pushed: exactly the most recent snapshots, oldest first, at most 100 |
| `History.HundredFiftyPushes` | static/app.js:205 | 150 pushes onto an empty stack keep the last 100 |
| `Editor.DragRect` | static/app.js:179-184 | the drag rectangle has non-negative size and spans exactly from one position to the other on each axis, so its corner is the componentwise minimum |
| `Editor.FirstHit` | static/app.js:188-193 | the result is the first index in list order whose rectangle contains the point, with closed bounds, or -1 when none does |
| `Editor.RemoveAt` | static/app.js:366 | `splice(i, 1)` removes exactly element i, keeps the others in order, and removes nothing when i is past the end |
| `Editor.WheelZoom` | static/app.js:386-393 | the new zoom is within [0.5, 3]; a scroll down never zooms in, a scroll up never zooms out; inside the bounds it is zoom times 0.9 or 1.1 |
| `Editor.DrawnBoxes` | static/app.js:57-77 | one painted entry per box, in list order, once the image is decoded, and none before |
| `Editor.HighlightedAtMostOne` | static/app.js:60-77 | at most one box is painted as selected: exactly the selected one when the image is decoded and the index is within the list, none when the selection is -1 or past the end |
| `Editor.AnnotationEditor.constructor` | static/app.js:10-23 | the initial state: no boxes, no selection, empty stacks, rotation 0, zoom 1, pan 0/0 |
| `Editor.AnnotationEditor.PushUndo` | static/app.js:205 | the box list is pushed onto the bounded undo stack, the redo stack is emptied, the rest is unchanged, and at most 100 snapshots remain across both stacks |
| `Editor.AnnotationEditor.Undo` | static/app.js:206 | no-op on an empty undo stack; otherwise the top snapshot becomes the list and the old list goes onto the redo stack; the total of both stacks is preserved |
| `Editor.AnnotationEditor.Redo` | static/app.js:207 | the mirror image of undo, also preserving the total of both stacks |
| `Editor.AnnotationEditor.DeleteSelected` | static/app.js:363-371 | acts only with a selection >= 0: history recorded, exactly that box removed, the others kept in order, selection -1 |
| `Editor.AnnotationEditor.PressDraw` | static/app.js:156-162 | a left press on a shown image starts a drag at the press position; anything else changes nothing |
| `Editor.AnnotationEditor.ReleaseDraw` | static/app.js:177-203 | a small drag leaves list and history unchanged and selects the first hit or -1; a larger one pushes history, appends exactly one box at the end (the inverse transform of the drag rectangle, with the chosen class), keeps the others and clears the selection |
| `Editor.AnnotationEditor.Wheel` | static/app.js:386-393 | the zoom becomes the clamped wheel zoom and nothing else changes |
| `Editor.AnnotationEditor.PressPan` | static/app.js:408-415 | a right press starts a pan and stores the pointer's offset from the current pan |
| `Editor.AnnotationEditor.MovePan` | static/app.js:416-425 | while panning, the pan follows the pointer minus the stored offset |
| `Editor.AnnotationEditor.ReleasePan` | static/app.js:426-428 | any release ends the pan |
| `Editor.AnnotationEditor.LoadImage` | static/app.js:224-237 | with images, the list and both stacks are emptied, and rotation 0, zoom 1 and pan 0/0 are restored |
| `Editor.AnnotationEditor.AnnotationsLoaded` | static/app.js:242-249 | the response's boxes replace the list (an empty list when the response has none), a request that throws leaves the list, and the selection is cleared either way |
| `Editor.AnnotationEditor.RotatedOnServer` | static/app.js:330-334 | rotation and zoom are reset, and the pan and the edit state are kept |
| `Editor.AnnotationEditor.KeyDown` | static/app.js:372-383 | the key's command is the as-written dispatch (Ctrl+Z and Ctrl+Shift+Z undo, Ctrl+Y redoes, Delete/Backspace delete, arrows and a/d navigate); undo, redo and delete change the edit state exactly as the undo, redo and delete handlers do, including their no-op cases, and any other key leaves it alone |
| `Editor.UndoThenRedo` | static/app.js:206-207 | undo followed by redo restores the box list and both stacks exactly |
| `Editor.DeleteThenUndo` | static/app.js:363-371 | with any selection >= 0, even one past the end, deleting and then undoing restores the list |
| `Editor.PanDrag` | static/app.js:408-425 | a right drag moves the pan by exactly the pointer's displacement |
| `Editor.ShiftZUndoes` | static/app.js:373-376 | as written, `KeyCommand` (the keydown tests) matches Ctrl+Shift+Z with the undo test first and undoes |
| `Editor.KeyCommandCorrectedMeaning` | static/app.js:373-376 | with `KeyCommandCorrected` (the redo test first), Ctrl+Shift+Z redoes and every other key press keeps its `KeyCommand` meaning |
| `ImageFiles.ImageFileMeaning` | main.py:13-14 | `IsImageFile` (`is_image_file`) holds exactly when the lower-cased name ends with .jpg, .jpeg, .png, .bmp or .gif |
| `ImageFiles.ImageFileIgnoresCase` | main.py:14 | a name and its lower-cased form are classified alike |
| `ImageFiles.ImagesInMembership` | main.py:20-23 | a path is collected from a directory exactly when it joins the directory with one of its image file names |
| `ImageFiles.CandidatesMembership` | main.py:19-23 | a path is collected from the walk exactly when some directory of the walk has an image file joining to it |
| `ImageFiles.SortPaths` | main.py:24 | the result is sorted in Python's string order and is a permutation of the input |
| `ImageFiles.SortedIsUnique` | main.py:24 | two sorted permutations of the same paths are equal, so the sort's result is determined |
| `ImageFiles.ListImages` | main.py:17-25 | the result is sorted and holds exactly the collected image paths, each as often as collected |
| `Paths.Basename` | main.py:30 | `Basename` (`os.path.basename`) is the longest suffix without '/' |
| `Paths.BasenameOfJoin` | main.py:98 | `JoinPath` (`os.path.join`) keeps the base name of the joined part |
| `Paths.SplitExtMeaning` | main.py:30 | `SplitExt` (`os.path.splitext`): root + extension is the name; the extension is empty or one dot with no further dot, after a root that is not all dots |
| `Paths.AnnotationFileName` | main.py:30 | `AnnotationFileName` (`splitext(basename(p))[0] + '.txt'`) ends in .txt and has no directory part |
| `Paths.SaveAndLoadAgree` | main.py:148 | for a relative path in normal form, load, from the relative path, derives the same file name as save derives from the resolved image path |
| `Paths.SubdirectoriesCollide` | main.py:148 | the same file name in two directories maps to one annotation file |
| `Paths.StemOfSimpleName` | main.py:30 | for stem.ext with a stem that is not all dots, the annotation file is stem.txt |
| `Paths.ExtensionsCollide` | main.py:30 | two images differing only in their extension share an annotation file |
| `Paths.LeadingDotIsNoExtension` | main.py:30 | a name whose only dot leads it keeps its whole name as stem |
| `Paths.GuardAcceptsSibling` | main.py:80 | as written, `PathGuard` (the `startswith` test) accepts /data/img-private/a.jpg for the source directory /data/img |
| `Paths.GuardGap` | main.py:99 | beyond component containment, the guard accepts exactly the paths that continue the directory's last name with a character other than '/' |
| `Paths.InsideImpliesGuard` | main.py:175 | what component containment accepts, the guard accepts too |
| `Paths.IsInsideMeaning` | main.py:80 | the intended component test `IsInside` holds exactly of the directory and of paths extending it after a '/' |
| `Paths.JoinStaysInside` | main.py:79-80 | joining a relative path in normal form (no ".." to climb out) to the directory passes both `IsInside` and `PathGuard` |
| `Paths.NotNormalised` | main.py:79 | the finding's relative path `../img-private/a.jpg` and a path with a trailing '/' are not in the normal form that `os.path.abspath` leaves unchanged |
| `Rotate.DirectionsReversed` | main.py:171-180 | as written, `RotateAngle` maps 'left' to 270, which turns the image clockwise, and 'right' to 90, counter-clockwise; every other direction is refused |
| `Rotate.QuarterTurns` | main.py:181 | `LibraryRotate` (`rotate(angle, expand=True)`) at angle 90 is one counter-clockwise quarter turn; at 270 it is one clockwise quarter turn |
| `Rotate.CorrectedDirections` | main.py:171 | with `RotateAngleCorrected`, 'left' turns counter-clockwise, 'right' clockwise, and every other direction is refused |
| `Rotate.LeftThenRightRestores` | main.py:180 | with the corrected angles, turning left then right puts every pixel back |
| `YoloFormat.SerializeAppend` | main.py:33-34 | writing one more box appends exactly its line |
| `YoloFormat.SaveYoloAnnotation` | main.py:28-34 | the loop writes the lines of the boxes, in list order |
| `YoloFormat.SerializedLines` | main.py:33-34 | `Serialize` writes one `LineText` per box, in order, the fields joined by single spaces |
| `YoloFormat.TokensAreWords` | main.py:155 | every token of `Tokens` (`str.split()`) is non-empty and holds no whitespace |
| `YoloFormat.LinesCons` | main.py:154 | `Lines` (iterating a file's lines): a line followed by a break reads as that line, then the lines of the rest |
| `YoloFormat.LineTokens` | main.py:34 | a written line splits into exactly its five written fields |
| `YoloFormat.LoadAnnotations` | main.py:140-162 | the reading loop gives the boxes of the kept lines in order, the read error of the first bad line, or no boxes when there is no file |
| `YoloFormat.ParseLinesMeaning` | main.py:154-159 | `ParseLines`, applying `ParseLine` to each line, succeeds exactly when every line with at least 5 tokens reads; it then gives one box per such line, in order, from its first five tokens; the only error is the read error |
| `YoloFormat.ShortLineSkipped` | main.py:156 | a line with fewer than five tokens is skipped |
| `YoloFormat.BadTokenFailsLoad` | main.py:157-161 | a kept line whose class or coordinate does not read fails the whole load |
| `YoloFormat.RoundTrip` | main.py:34 | writing boxes and reading the file back gives the same boxes in the same order, when every number's text reads back as itself |

## Left out

- `toImageCoords` (app.js:80-100) is not modelled. It uses floating-point sine and cosine. The pointer handlers receive positions already in canvas pixels.
- Painting is not modelled: `drawBoxes` canvas calls, the mouse-move preview, CSS transforms, `resizeCanvas`, the pan sliders and status text. `drawBoxes` appears only as the list of rectangles painted and which one is highlighted (`DrawnBoxes`).
- Network and asynchronous work is left out: `fetch`, navigation, autosave, project save/load and the `annotationsMap` write after a delete (it throws after the state change). `AnnotationsLoaded` takes the loaded list as a parameter.
- `parseInt` of the class field is not modelled. `ReleaseDraw` takes the class as an integer parameter.
- Geometry.DisplayRectToNormalized: requires a non-zero canvas size. The source divides by it, and the result (NaN or Infinity) has no counterpart in `real`. A canvas that receives pointer events has a non-zero size.
- Geometry.UnroundedNormalized: requires a non-zero canvas size, for the same reason.
- Editor.AnnotationEditor.ReleaseDraw: requires a non-zero canvas size, for the same reason.
- Numbers are exact reals, not IEEE doubles. Floating-point rounding error is not modelled.
- Flask routing, request parsing, error responses, file reads and writes, and JSON project files are left out.
- `os.walk` is given as a sequence of (directory, file names) steps. `os.path.abspath` normalisation is not modelled: the directories are taken as already absolute and normalised.
- Paths.JoinStaysInside: states containment of the joined string only for a relative path in normal form (`Normalised`), which `abspath` (main.py:79, 98, 174) leaves unchanged. A relative path with ".." is resolved by `abspath` before the guard sees it, and that resolution is not modelled.
- Paths.SaveAndLoadAgree: holds only for a relative path in normal form. Save names the file after the resolved path and load after the relative path as given, so for `a.jpg/` save writes `a.txt` while load looks for `.txt`.
- The image library's rotation is modelled only by where a pixel goes under quarter turns. Resampling and saving are not modelled.
- Python's text formatting and parsing of numbers is an abstract `NumberText`. The round trip assumes each written number is a non-empty word without whitespace that reads back to itself.
- Lower-casing and whitespace cover ASCII only. Python's `lower()` and `split()` also act on other Unicode characters.
- Line breaks are split at each '\n' and '\r'. A "\r\n" pair thus yields an extra empty line, which the parser skips, so the boxes read are the same.

## Findings

| source | as written | input that shows it | evidently intended | confidence | as-written member | corrected member |
|---|---|---|---|---|---|---|
| static/app.js:373-376 | the undo test `(ctrl or meta) and key is z` comes before the redo test, whose second alternative is `shift and key is z` | Ctrl+Shift+Z undoes instead of redoing | Ctrl+Shift+Z redoes, Ctrl+Z undoes | not executed | `Editor.ShiftZUndoes` | `Editor.KeyCommandCorrectedMeaning` |
| main.py:80 | the resolved image path must start with the source directory as a string | source `/data/img`, relpath `../img-private/a.jpg` resolves to `/data/img-private/a.jpg`, which passes | the path lies in the source directory or below it (a '/' follows the prefix) | not executed | `Paths.GuardAcceptsSibling` | `Paths.IsInsideMeaning` |
| main.py:180 | 'left' maps to angle 270 and 'right' to 90, but the image library counts angles counter-clockwise | direction 'left' turns the image clockwise | 'left' maps to 90 (counter-clockwise) and 'right' to 270 | not executed | `Rotate.DirectionsReversed` | `Rotate.CorrectedDirections` |
