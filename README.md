# Watermarkable, modelled in Dafny

Watermarkable is a small desktop application. It stamps a PNG watermark onto every photo of
a folder. A *profile* names the watermark file, its width as a percentage of the photo's
width, and a margin in pixels. The user picks a profile and a folder, then one of five
positions (`Bas Droite`, `Bas Gauche`, `Haut Droite`, `Haut Gauche`, `Centre`). The
application then:

- previews the first photo of the folder, or
- processes the whole folder into the sub-folder `Avec WaterMark`, writing each file with
  `_wm` inserted before its extension and showing the progress as `k/N Photos traitées`.

The model covers the logic of the application, `Watermarkable.py`:

- **Geometry.dfy**: how the watermark is sized and where it is placed:
  - `int()` truncation of the width and the height;
  - the `pos_map` dictionary and the five-way switch it stands for;
  - the two copies of this computation, one in `_apply_single` and one inline in
    `run_apply`, including how each treats an unknown position (`.get` versus `[]`).
- **FileNames.dfy**: which files count and what their outputs are called:
  - the case-insensitive `SUPPORTED_EXT` filter;
  - the batch list, and the preview's `for … else` search for the first candidate;
  - `os.path.splitext`, the output names, and `os.path.join`.
- **Status.dfy**: the decimal rendering of counts and the status label's texts.
- **Profiles.dfy**: profiles and `ask_params`, with its cancel paths.
- **Batch.dfy**: what a batch run computes, as functions of the file list:
  - the files that succeed and the files that fail;
  - the status texts, in order;
  - the paths written.
- **App.dfy**: the application object as a class with its fields (profiles, the selected
  name, the current profile, the folder, the position, the status label, the last output
  folder). Its methods are `load_profile`, `new_profile`, `edit_profile`,
  `delete_profile`, `update_preview`, `start` and `run_apply`. The loop of `run_apply` is
  proved against the functions of Batch.dfy. It is split into `ProcessAll` (the `for` loop)
  and `TryFile` (the per-file `try` block).

Pillow, Tkinter and the file system are outside the model. The preview and a run receive
three functions:

- `loadWm`, applied to the profile's watermark file, which gives the decoded watermark's
  size, or None when opening it raises;
- `load`, which gives the size of a decoded, re-oriented photo, or None when opening it
  raises;
- `render`, which says whether the resize, paste, composite and save steps go through.

The directory listing is an input sequence, and dialog answers are inputs too.

Three behaviours of the code that the model keeps as written:

- `int()` truncates the width and the height; it does not round. `WatermarkWidth` and
  `WatermarkHeight` truncate, and the 1000×800 example gives 200×80 at (790, 710) either way.
- `del self.profiles[name]` raises KeyError on a missing key. The selector only ever shows
  a known name or nothing; `Valid()` states this as the class invariant and so rules that
  case out.
- A cancelled margin dialog stores None (`Profile.margin` is an `Option`), so every file of
  a batch with that profile fails with TypeError (`NothingWithoutMarginOrWidth`).

## Model

| member | source | states |
|---|---|---|
| Geometry.PositionOf | Watermarkable.py:203-207 | a string is one of the five pos_map keys exactly when it names a position, and naming that position gives the string back |
| Geometry.LabelRoundTrip | Watermarkable.py:77-80 | each selectable position's label is a pos_map key and reads back as that position |
| Geometry.TruncDiv | Watermarkable.py:229 | `int()` of a true quotient with a positive divisor: the quotient truncated toward zero, with the remainder bounds for both signs |
| Geometry.WatermarkWidth | Watermarkable.py:199 | the width is the truncated `srcW·pct/100`: it is at most the photo width for pct ≤ 100, at least 1 for pct ≥ 5 on a photo at least 20 wide, and never positive for a negative pct |
| Geometry.WatermarkHeight | Watermarkable.py:200 | the height keeps the watermark's aspect ratio, anchored on the width and truncated; it is ZeroDivisionError exactly when the watermark has width 0 |
| Geometry.Origin | Watermarkable.py:203-207 | each corner leaves exactly the margin to its two edges; the centre leaves gaps that differ by at most one pixel in each axis (floor division); nothing is clamped |
| Geometry.PosMap | Watermarkable.py:231-235 | the dictionary has exactly the five labels as keys and maps each to the origin of its position |
| Geometry.BatchPlacement | Watermarkable.py:229-236 | the batch computation succeeds exactly when the watermark has width, the margin is set and the label is known; otherwise it raises ZeroDivisionError, TypeError or KeyError, in that order; on success it holds the truncated size and the origin of the named position |
| Geometry.SinglePlacement | Watermarkable.py:199-208 | the preview computation raises ZeroDivisionError for a watermark of width 0 and TypeError without a margin, and otherwise holds the truncated size; it has an origin exactly when the label is known, and then it is the origin of the named position |
| Geometry.CodePathsAgree | Watermarkable.py:196-208 | the preview computation and the batch computation give the same size, origin and error for every selectable label; for an unknown label the preview gets no origin where the batch raises KeyError (line 236) |
| Geometry.InsideWhenFits | Watermarkable.py:203-207 | with a non-negative margin and room for watermark plus margin, every position keeps the watermark inside the photo |
| Geometry.Unclamped | Watermarkable.py:231-233 | the right-hand positions go to a negative abscissa, and the bottom ones to a negative ordinate, exactly when watermark plus margin exceeds the photo |
| Geometry.BottomRightExample | Watermarkable.py:229-236 | a 1000×800 photo with a 500×200 watermark at 20 % and margin 10, bottom right, gives a 200×80 watermark at (790, 710) |
| FileNames.Lower | Watermarkable.py:178 | lower-casing keeps the length and maps each character through the ASCII lower-case mapping |
| FileNames.EndsWithAnyExists | Watermarkable.py:178 | `endswith` with a tuple holds exactly when one suffix of the tuple matches |
| FileNames.IsSupportedMeans | Watermarkable.py:178 | a name is a candidate exactly when its lower-cased form ends with one of the five supported extensions |
| FileNames.SupportedIgnoresCase | Watermarkable.py:178 | two names that lower-case alike are both candidates or both not |
| FileNames.UnsupportedByLastChar | Watermarkable.py:31 | every supported extension ends in g, f or p, so a name ending in any other letter, in either case, is rejected |
| FileNames.UpperJpgSupported | Watermarkable.py:178 | an upper-case `.JPG` name is a candidate |
| FileNames.PngSupported | Watermarkable.py:178 | a `.png` name is a candidate |
| FileNames.MixedTiffSupported | Watermarkable.py:178 | a mixed-case `.Tiff` name is a candidate |
| FileNames.ExampleNamesClassified | Watermarkable.py:31 | upper-case and mixed-case photo extensions are accepted; `.txt` and `.mov` are rejected |
| FileNames.Candidates | Watermarkable.py:218 | the batch list is never longer than the listing |
| FileNames.CandidatesMembers | Watermarkable.py:218 | a name is in the batch list exactly when it is in the listing and passes the filter |
| FileNames.CandidatesAppend | Watermarkable.py:218 | filtering commutes with concatenation, so the kept names stay in listing order |
| FileNames.CandidatesIdempotent | Watermarkable.py:218 | filtering the batch list again changes nothing |
| FileNames.CandidatesInterleaved | Watermarkable.py:218 | rejected names drop out from between accepted names, and the accepted ones keep their order |
| FileNames.CandidatesExample | Watermarkable.py:218 | a listing of three photos in mixed case and two other files yields the three photos, in order |
| FileNames.FirstCandidate | Watermarkable.py:177-182 | the search finds nothing exactly when the batch list is empty; otherwise it finds the batch list's first name, which passes the filter while the names before it do not |
| FileNames.SplitExt | Watermarkable.py:238 | `splitext` cuts the path into two parts that concatenate back to it; the extension is empty, or is one dot followed by neither a dot nor a separator, with a non-dot character before it in the last component |
| FileNames.SplitExtOfParts | Watermarkable.py:238 | a stem with a non-dot character in its last component, followed by a single-dot extension, splits back into exactly that stem and extension |
| FileNames.SplitAtLastDot | Watermarkable.py:238 | a bare name with a non-dot character before its last dot splits at that dot |
| FileNames.SplitExtExamples | Watermarkable.py:238 | `photo`, `.png` and `..png` have no extension; `a.tar.gz` splits into `a.tar` and `.gz` |
| FileNames.OutputNameSplits | Watermarkable.py:238 | splitting an output name gives the source stem with `_wm` appended and the source extension, for every source name |
| FileNames.OutputNameStemAndExt | Watermarkable.py:238 | for a bare name with a non-dot character before its last dot, the output name is the stem, then `_wm`, then the extension: it begins with the original stem and ends with the original extension |
| FileNames.OutputNameRoundTrip | Watermarkable.py:238 | the source name can be recovered from its output name |
| FileNames.OutputNameInjective | Watermarkable.py:238 | distinct source names never share an output name |
| FileNames.OutputNameBare | Watermarkable.py:238 | the output name of a name without a separator has none either |
| FileNames.DotFileLosesExtension | Watermarkable.py:238 | a file named `.png` passes the filter, but its output `.png_wm` has no extension |
| FileNames.JoinShape | Watermarkable.py:228-238 | the joined path ends with the name; an absolute name replaces the folder and a relative one is appended to it, so each output path ends with its output name and lies inside the output folder |
| FileNames.JoinInjective | Watermarkable.py:238 | in one folder, distinct relative names give distinct paths |
| Status.NatToString | Watermarkable.py:239 | a count renders as a non-empty string of decimal digits, with no leading zero except for 0 itself |
| Status.NatToStringRoundTrip | Watermarkable.py:239 | reading the digits back gives the count |
| Status.NatToStringInjective | Watermarkable.py:239 | distinct counts render differently |
| Status.StatusDeterminesCount | Watermarkable.py:219-242 | for a given total, the progress text `count/N Photos traitées` and the final text `Terminé: count/N` each determine the count, and no progress text equals a final text |
| Profiles.AskParams | Watermarkable.py:148-155 | no profile exactly when the file dialog is cancelled; TypeError exactly when a file is chosen but the percentage dialog is cancelled; otherwise a profile holding exactly the answers, within the dialog bounds |
| Batch.OutputDirShape | Watermarkable.py:223 | the output folder lies inside the chosen folder and ends with `Avec WaterMark` |
| Batch.FileSucceedsMeans | Watermarkable.py:227-239 | a file goes through exactly when its photo opens, the batch placement computation succeeds on its size and the Pillow steps go through |
| Batch.Succeeded | Watermarkable.py:225-239 | 0 ≤ count ≤ number of files |
| Batch.FailedFiles | Watermarkable.py:240-241 | the files that raise are never more than the files given |
| Batch.SucceededMembers | Watermarkable.py:226-239 | a file is counted exactly when it is among the files and its processing does not raise |
| Batch.SuccessesPlusFailures | Watermarkable.py:226-241 | every file is either counted or logged as failed, never both: successes plus failures is the number of files |
| Batch.SucceededAppend | Watermarkable.py:226-241 | a failing file does not stop the loop: the successes over two lists joined are the successes of each, in order |
| Batch.NothingWithoutMarginOrWidth | Watermarkable.py:229-236 | with no margin, or a watermark of width 0, every file raises and none is written |
| Batch.Progression | Watermarkable.py:239 | one status text per success |
| Batch.ProgressionCounts | Watermarkable.py:239 | after the k-th success the label reads k/total |
| Batch.RunStep | Watermarkable.py:226-239 | one more file adds itself to the successes, and its output path to the written paths, exactly when it does not raise |
| Batch.Outputs | Watermarkable.py:238 | one written path per processed file |
| Batch.OutputsAt | Watermarkable.py:238 | the k-th written path is the output folder joined with the k-th success's output name |
| Batch.SucceededDistinct | Watermarkable.py:226-239 | the successes of distinct names are distinct |
| Batch.OutputsDistinct | Watermarkable.py:238 | distinct bare names are written to distinct paths |
| Batch.NamesDifferAfterJoin | Watermarkable.py:238 | two distinct bare names get distinct output paths in one folder |
| Batch.DistinctOutputs | Watermarkable.py:238-239 | no two files of a listing are written to the same path, so no output overwrites another |
| App.WatermarkApp.constructor | Watermarkable.py:40-43 | start-up with the loaded collection, nothing selected, no current profile, `Bas Droite` and `En attente...` |
| App.WatermarkApp.LoadProfile | Watermarkable.py:157-161 | a known selected name becomes current; an unknown one changes nothing |
| App.WatermarkApp.Select | Watermarkable.py:61 | picking a known name makes it the selection and its profile current |
| App.WatermarkApp.NewProfile | Watermarkable.py:117-127 | an empty or taken name, a cancelled file dialog or a raising dialog leaves everything unchanged; a complete answer adds exactly that key with exactly the answers, selects it and makes it current |
| App.WatermarkApp.EditProfile | Watermarkable.py:129-136 | only a known selected name is edited; a complete answer replaces only that key's value, keeps the key set and makes the new value current |
| App.WatermarkApp.DeleteProfile | Watermarkable.py:138-146 | with a selected name and a confirmation, exactly that key is removed, the selector is cleared and there is no current profile; otherwise nothing changes |
| App.WatermarkApp.UpdatePreview | Watermarkable.py:169-194 | without a folder, a profile and an existing folder, or without a candidate, the canvas stays clear; otherwise the first candidate is shown when it and the profile's watermark file open, the preview computation succeeds and rendering goes through, and an error is shown otherwise |
| App.WatermarkApp.RunApply | Watermarkable.py:222-242 | the output folder is recorded; an unopenable watermark ends the run before the loop; otherwise count is the number of successes, the written paths are theirs in order, the label went through 1/N … count/N and ends on the final text |
| App.WatermarkApp.ProcessAll | Watermarkable.py:226-241 | the loop counts the successes, writes their outputs in order and sets one progress text per success; afterwards the label shows the last count/N, or its old text when nothing succeeded |
| App.WatermarkApp.TryFile | Watermarkable.py:227-241 | one file either succeeds (count up by one, output written, label shows the new count) or raises and changes nothing |
| App.WatermarkApp.Start | Watermarkable.py:214-220 | without a folder, a profile and an existing folder nothing happens; otherwise the label reads 0/N for the N candidates and then shows the run's texts |

## Left out

- Pillow: opening, decoding, EXIF orientation, RGBA conversion, LANCZOS resizing, pasting, compositing and saving are foreign code. A run receives them as the functions `load` and `render`, and the watermark's decoded size as an input.
- Tkinter: the window, widgets, dialogs, canvas drawing and event loop are UI. Dialog answers, the listing and the `os.path.isdir` result are inputs.
- The preview thumbnail: scaling to the canvas and centring it on the canvas are display only.
- Profile persistence: `load_profiles` and `save_profiles` are file I/O. The collection is an in-memory map, and the constructor receives it already loaded.
- A profile read from a JSON file with missing keys or keys of other types is not modelled, because the map holds well-formed profiles only.
- The temporary file of the preview, `os.makedirs`, `os.listdir`, `os.unlink` and logging are I/O.
- Threading: `start` runs `run_apply` on a daemon thread, and `RunApply` is called synchronously instead; races on the status label are not modelled.
- The scale is a float in the source, `pct/100.0`, multiplied by the width in floating point. The model uses the exact integer percentage. IEEE rounding could, in rare cases, make the truncated width one less than the exact value.
- Geometry.WatermarkWidth: does not model floating-point rounding of `img.width * scale`, because the model uses the exact rational value.
- Paths are POSIX paths, with `posixpath.join` and `posixpath.splitext` semantics; Windows drive letters and backslashes are not modelled.
- FileNames.Lower: maps only the ASCII letters, because Unicode case mapping is not modelled.
- The open-output button: `NORMAL` is not among the imported names, so the final line of `run_apply` raises NameError right after the final status text is set; the button state and `open_output` (`os.startfile`) are not modelled.
- The `prev` argument of `ask_params` only pre-fills the dialogs; the model takes the answers as given, so any answer is covered. Pre-filling goes through `int(prev['scale']*100)`, which can give one point less than the stored percentage (0.29 gives 28), so accepting the pre-filled value can lower the scale; this is not modelled.
- `select_folder` is a folder dialog; the folder field is set directly.
- The refresh of the preview that `load_profile` and `delete_profile` trigger at their end is not chained: `UpdatePreview` is its own method, and its result only affects the display.
- The history of status texts (`statusTrace`) is a ghost field, there only to state the order of the texts; the source keeps only the latest text.
