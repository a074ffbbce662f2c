# Image cropper and resizers: a Dafny model

This project models the logic of three small desktop image tools:

- **The square cropper** (`image_cropper.py`). The window remembers the image it opened. A mouse press sets an anchor. Dragging redraws a square outline from that anchor. Releasing the button freezes the square as the selection. "Save Crop" asks whether to resize and for a size limit in KB. It then encodes JPEG at quality 95, 90, … until the encoding fits the limit or quality reaches 10 (the *ceiling search*), and asks where to save.
- **The resizer** (`image_resizer.py`). It asks for a width and height, where -1 keeps the original, and for a minimum and maximum size in KB. A worker moves quality down by 5 when the encoding is too large and up by 5 when it is too small. It stops when the size is in range or quality is at most 10 (the *range search*).
- **The batch resizer** (`batch_image_resizer.py`). It walks a folder and sorts every file:
  - files to skip: not an image by name, unreadable, or no matching target size;
  - files to resize: an image whose size is within 100 pixels, on both axes, of one of eight standard screen sizes (the first match in table order wins).

  After confirmation, it resizes every planned file, counts the successes and collects one error line per failure. It shows at most ten error lines.

The modules are:

- `Common` (`Common.dfy`): shared values, Python truthiness, dialog answers and the quality constants.
- `Cropper` (`Cropper.dfy`): the selection geometry, the ceiling search, and the `ImageCropper` class, whose fields are updated in place by the event handlers as in the source.
- `Resizer` (`Resizer.dfy`): the dimension rule, the save guard, the range search and the worker.
- `BatchResizer` (`Batch.dfy`): the classifier, the extension test, the scan and the apply step.

The following are parameters of the model rather than calls into libraries:

- Dialog answers: the empty string for a cancelled file dialog, `None` for a cancelled integer prompt.
- The JPEG encoder: a total function from quality, or from width, height and quality, to a byte count.
- The folder walk: a sequence of directories with their files.
- Opening an image file: an outcome that is either a size or an exception message.
- Resizing and saving one file: an outcome that is either success or an exception message.

The range search has no iteration cap in the source, so the model runs it with explicit fuel. Its lemmas show three things:

- A settled result is stable under more fuel.
- The loop really can run forever: there is an encoder that oscillates between 95 and 90, and one that makes quality climb without bound.
- When no encoding is below the minimum, the search agrees exactly with the ceiling search.

The loop has no iteration cap and no "could not satisfy the limits" outcome. The model follows the code: its `StillSearching`/`Searching` results only mark where the fuel ran out, not an outcome of the tool.

## Model

| member | source | states |
|---|---|---|
| Cropper.SquareTo | image_cropper.py:94-104 | the outline is anchored at the press point and is square; its side is the smaller of the two pointer offsets; its far corner lies between anchor and pointer on each axis |
| Cropper.SquareIsLargest | image_cropper.py:95-104 | no larger square anchored at the press point and grown toward the pointer stays within the anchor–pointer box |
| Cropper.SelectionNotNormalised | image_cropper.py:114-126 | dragging strictly up and to the left gives a selection whose far corner lies strictly above and to the left of its anchor: x2 < x1 and y2 < y1 |
| Cropper.OnlyDownRightDragCrops | image_cropper.py:114-151 | for a press on the canvas and a far corner with non-negative coordinates, the crop of the frozen square is empty exactly when the pointer was not strictly below and to the right of the press point (a drag up or left, or a click) or the press point lies at or beyond the image's right or bottom edge |
| Cropper.NegativeCornerCountsFromEnd | image_cropper.py:110-151 | a release left of the canvas gives the square (50,50)–(-10,110); on a 100×100 image its negative x counts from the right edge, so the crop keeps 40 columns and 50 rows and is not empty |
| Cropper.CeilingQualityIsHighest | image_cropper.py:163-177 | the ceiling search keeps a multiple of 5 between 10 and the start; it fits the byte limit unless it is 10; every higher quality tried exceeded the limit |
| Cropper.CeilingChoiceUnique | image_cropper.py:163-177 | any quality with those properties is the one the search returns, so they characterise it |
| Cropper.CeilingSearch | image_cropper.py:163-177 | the loop returns the specified ceiling quality, with its bounds and fit, after at most 18 encodings |
| Cropper.ImageCropper.constructor | image_cropper.py:14-20 | a new window has no image, no anchor, no selection and no outline |
| Cropper.ImageCropper.OpenImage | image_cropper.py:44-53 | a cancelled dialog changes nothing; a file that fails to decode clears the image but keeps the selection; a decoded image is stored and the selection is reset |
| Cropper.ImageCropper.ShowImage | image_cropper.py:55-59 | showing an image clears the selection, the outline and the anchor |
| Cropper.ImageCropper.Press | image_cropper.py:79-86 | the anchor becomes the press point; the frozen selection and the drawn outline are dropped |
| Cropper.ImageCropper.Drag | image_cropper.py:88-108 | with a truthy anchor the outline becomes the square toward the pointer; otherwise (no anchor, or an anchor coordinate of 0) nothing changes |
| Cropper.ImageCropper.Release | image_cropper.py:110-126 | with an anchor, the square toward the pointer is frozen and its far corner kept as the end point; without one, only the raw end point is stored and the handler fails |
| Cropper.ImageCropper.SaveCrop | image_cropper.py:128-180 | saving needs a selection and a non-blank image; a cancelled size prompt, or a cancelled or zero dimension when resizing, stops it; an empty crop makes the worker raise before encoding; otherwise it exports at the ceiling quality for limit KB × 1024 and writes only when the save-as answer is non-empty |
| Cropper.ZeroAnchorScenario | image_cropper.py:88-126 | from an anchor at x = 0, dragging draws nothing, yet releasing freezes the square (0,10)–(5,15) |
| Cropper.UpLeftSelectionScenario | image_cropper.py:110-161 | pressing at (15,15) and releasing at (5,5) over a loaded image freezes a selection whose save raises on the empty crop |
| Cropper.MarginSelectionScenario | image_cropper.py:68-161 | pressing at (150,10) beside a 100×100 image and releasing at (160,20) freezes a selection whose save raises on the empty crop |
| Cropper.OffCanvasReleaseScenario | image_cropper.py:110-180 | pressing at (50,50) on a 100×100 image and releasing at (-10,110) freezes a selection that is exported, and written to the chosen path |
| Resizer.PromptAnswerGivesDimension | image_resizer.py:76-95 | for any answer the prompt allows (-1 and up) and an image of positive size, the resolved dimension is positive exactly when the answer is not 0, and equals the image's own exactly when the answer is -1 or that size |
| Resizer.PlanSave | image_resizer.py:71-86 | nothing happens without a non-blank image; a cancelled size prompt aborts the handler; otherwise the worker gets the dimensions unchanged and the limits as exact multiples of 1024 of the KB answers |
| Resizer.LimitsFollowAnswers | image_resizer.py:80-83 | with answers of at least 1 KB, both byte limits are at least 1024 and ordered as the answers are |
| Resizer.NextQuality | image_resizer.py:115 | quality goes down by 5 exactly when the size is over the maximum, and up by 5 otherwise |
| Resizer.RangeRunSound | image_resizer.py:102-115 | quality stays a multiple of 5, at least 10; a settled search reports the encoder's size at its quality, which is in range unless the quality is 10 |
| Resizer.RangeRunFuelMonotone | image_resizer.py:104-115 | once the search settles, more iterations give the same result, so it is the unbounded loop's exit |
| Resizer.RangeRunOscillates | image_resizer.py:104-115 | with the default 3–60 KB limits and an encoder that jumps from 2 KB to 70 KB between qualities 90 and 95, the loop never exits |
| Resizer.GapSizeMonotone | image_resizer.py:104-115 | that oscillating encoder never gets smaller as quality rises, so the oscillation needs no unrealistic encoder |
| Resizer.RangeRunClimbs | image_resizer.py:104-115 | for every encoder whose sizes are all below the minimum (and not over the maximum), quality rises by 5 per iteration without bound and the loop never exits |
| Resizer.RangeRunIsCeilingWhenNeverBelow | image_resizer.py:104-115 | when no encoding is below the minimum, the range search settles exactly where the cropper's ceiling search does, within 18 iterations from 95 |
| Resizer.RangeSearch | image_resizer.py:101-115 | the loop's result is the specified search; the qualities it tried start at 95, each follows the previous one by the step rule, and all but a settling last one failed the exit test |
| Resizer.ProcessImage | image_resizer.py:88-121 | a cancelled dimension, or one that resolves below 1 (an answer of 0), makes the resize raise; otherwise it resizes to the resolved dimensions and finishes with the range search's quality and size, writing only when the save-as answer is non-empty |
| BatchResizer.FirstMatchFrom | batch_image_resizer.py:39-43 | returns the first index from k on whose entry is within tolerance, or the table length when none is |
| BatchResizer.Classify | batch_image_resizer.py:39-43 | a target is a table entry within 100 pixels on both axes and the first such entry; there is no target exactly when no entry is within tolerance |
| BatchResizer.ClassifyFindsFirstMatch | batch_image_resizer.py:39-43 | whenever entry i is the first entry within tolerance, the classifier returns it |
| BatchResizer.FirstEntryShadowsLaterOnes | batch_image_resizer.py:7-14 | the exact sizes 1290×2796 and 1284×2778 are mapped to 1320×2868, because the first match wins |
| BatchResizer.ExactSizeKept | batch_image_resizer.py:7-14 | 1242×2688 keeps its own size as the target |
| BatchResizer.FarSizeUnmatched | batch_image_resizer.py:39-43 | 500×500 has no target |
| BatchResizer.LowerFoldsCase | batch_image_resizer.py:54 | lower-casing leaves no upper-case letter, is idempotent, and keeps a name that has no upper-case letter unchanged |
| BatchResizer.ImageNameIgnoresCase | batch_image_resizer.py:54 | the extension test gives the same answer for a name and its lower-cased form |
| BatchResizer.ImageNameExamples | batch_image_resizer.py:54 | upper- and mixed-case .jpg/.jpeg/.png names and a bare ".png" pass; .txt, a name "jpg" without dot, and "photo.jpg.bak" do not |
| BatchResizer.PartitionCount | batch_image_resizer.py:51-65 | the two lists together have exactly one entry per visited file |
| BatchResizer.EveryVisitListed | batch_image_resizer.py:51-65 | no visited file is lost: each file's verdict is in the list it names, the planned resize in the resize list and the skip with its reason in the skip list |
| BatchResizer.ResizeListAppend | batch_image_resizer.py:51-65 | scanning files one run after another gives the concatenated resize list, so visiting order is kept |
| BatchResizer.SkipListAppend | batch_image_resizer.py:51-65 | the same for the skip list |
| BatchResizer.ResizeListSound | batch_image_resizer.py:54-59 | every planned resize comes from a visited file with an image name that opened with that size; its target is the classifier's answer, a table entry within tolerance |
| BatchResizer.SkipListSound | batch_image_resizer.py:54-65 | every skipped entry comes from a visited file that explains its reason: not an image name; an image name that failed to open with that message; or an image whose size has no target |
| BatchResizer.PreviewFolder | batch_image_resizer.py:45-68 | the nested scan loops produce exactly the specified resize and skip lists of the walk, in order |
| BatchResizer.ExampleVisits | batch_image_resizer.py:51-53 | the walk joins each directory and file name into the file's path |
| BatchResizer.MatchingPngIsResized | batch_image_resizer.py:54-59 | a PNG of exactly 1242×2688 is planned for resizing to that size |
| BatchResizer.UnmatchedJpegIsSkipped | batch_image_resizer.py:58-61 | a 500×500 JPEG is skipped with its size as the reason |
| BatchResizer.CorruptJpegIsUnreadable | batch_image_resizer.py:62-63 | a JPEG that fails to open is skipped as unreadable with the exception message |
| BatchResizer.ScanExample | batch_image_resizer.py:45-65 | a folder holding those three files yields one file to resize and two to skip, in visiting order |
| BatchResizer.ApplyAccountsForEveryEntry | batch_image_resizer.py:106-116 | the resized count plus the number of error lines equals the number of planned files |
| BatchResizer.ApplyAppend | batch_image_resizer.py:109-116 | a failure does not stop the batch: counts and error lines of a concatenation are those of its parts, in order |
| BatchResizer.ProcessFolder | batch_image_resizer.py:103-116 | the loop returns the specified success count and "path: message" error lines, and together they account for every entry |
| BatchResizer.NoErrorsIffAllSaved | batch_image_resizer.py:106-121 | a batch has no error lines exactly when every planned entry was saved |
| BatchResizer.ErrorLinesSound | batch_image_resizer.py:109-116 | every error line is "path: message" for a planned entry whose resize raised that message |
| BatchResizer.SummaryReflectsBatch | batch_image_resizer.py:118-125 | the batch reports success exactly when every entry was saved; otherwise successes and failures add up to the list, and each of the 1 to 10 lines shown names a failed entry and its message |

## Left out

- The Tkinter windows, buttons, labels, canvas items and the loading text (`show_loading`) are not modelled. The drawn outline is modelled as the square it shows.
- Threads are not modelled: each worker runs to completion when started.
- Dialogs are parameters of the operations that ask them; their bounds (`minvalue`) are not enforced by the model.
- `cv2.imread`, PIL, JPEG encoding and `Image.resize` are modelled only through their outcomes: a decoded image or none, a byte count per quality, and success or an exception message.
- The encoder is a pure function, so encoding twice at one quality gives one size. The final save at the kept quality is represented by the chosen path.
- The display scaling (`scale_ratio`, float division and `int()` truncation) is left out. The crop is judged on the display-space selection against the image's width and height, as with a scale ratio of 1. Slicing is modelled as numpy does it for a step of 1: a negative bound counts from the end, both bounds clamp to the axis, and the crop is empty when an axis's end does not lie past its start.
- The cropper's resize to the requested width and height is not modelled beyond the guard. Neither is the colour conversion.
- Resizer.RangeRun: evaluates the unbounded loop for a given number of iterations only. Termination of the source loop is not claimed, because it does not hold (see RangeRunOscillates).
- Resizer.RangeSearch: runs the unbounded loop for a given number of iterations. It therefore cannot promise the loop's exit when the source does not exit.
- Resizer.ProcessImage: runs the search with the same fuel, for the same reason. A dimension below 1 is modelled as raising in the resize, like a cancelled one.
- `os.walk` is an input sequence of directories. Its traversal order, symbolic links and errors are not modelled.
- `os.path.join` is modelled for POSIX paths.
- `str.lower` is modelled as ASCII case folding. Non-ASCII characters whose Unicode lower-case form contains an ASCII letter are left as they are: the Kelvin sign (to `k`) and the dotted capital I (to `i` and a combining dot). Neither letter occurs in `.jpg`, `.jpeg` or `.png`, so the extension test gives the same answer as with full Unicode folding.
- BatchResizer.SkipReason keeps the reasons as values, not as the preview's strings: "Not an image", "Unreadable: …", or the size tuple.
- The preview dialog (`show_preview_dialog`) is not modelled: its text rendering, and the confirm and cancel buttons. Confirming passes the resize list to `ProcessFolder`.
- Cropper.ImageCropper.SaveCrop: a crop that becomes empty only through the scaling truncation is not modelled as raising, because the scaling is left out. Its exported result reports only the search and the chosen path. The message boxes are not modelled. The source shows its "Failed to save … within the specified size constraints" error exactly when the save dialog is cancelled (`savedTo == None`), because the size loop itself always exits.
