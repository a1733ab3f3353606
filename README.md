# BabyBrowser atlas loading, modelled in Dafny

This project models the logic class of the BabyBrowser 3D Slicer module,
`BabyBrowserLogic`, in `BabyBrowser/BabyBrowser.py`. It covers three pieces:

- **Configuration** (the constructor). The atlas directory is fixed. The
  developmental atlas path is derived from it. There are two volume types
  (`""` and `"_stdev"`), ten time points, and an empty volume dictionary.
- **`loadAtlas`**. For each volume type (outer loop) and time point (inner
  loop) it loads `atlas_<timePoint><volumeType>_rigidtoyear1-2.nii.gz` from
  `<atlasPath>/atlases_rigidregistered`. It stores each volume under the key
  `(volumeType, timePoint)` and stops with an error at the first file that does
  not load.
- **`loadDevelopmentalAtlas`**. It reads a 4D NIfTI-1 file whose data type must
  be float32 (code 16). It skips `vox_offset` bytes and reads the rest as
  float32 samples. It views them as `(frames, slices, rows, columns)` and copies
  frame by frame into a new voxel-major image `(slices, rows, columns, frames)`,
  so that each frame becomes one component of every voxel. The result carries
  the frame count, the name `DevelopmentalAtlas` and the frame-label attribute
  `str(timePoints)[1:-1]`.

Modules:

- `MixedRadix`: flat index arithmetic `q * d + r`.
- `GridCounts`: occurrence counts of a grid read row by row or column by column.
- `Layout`: the two memory layouts, the repack as a specification function with
  its inverse, and the in-place frame-to-component copy over an array.
- `Nifti`: header record, payload, float32 words and the reshape check.
- `FrameLabels`: CPython's string `repr`, the label string, and a parser that
  inverts it.
- `Paths`: `os.path.join` and the atlas file-name format.
- `AtlasLoading`: the loop order of the keys and the dictionary a load produces.
- `BabyBrowser`: the `BabyBrowserLogic` class.

Sample values are only copied, never computed on, so they have an opaque type `T`.

The image library, the file system and float decoding are parameters:

- `readHeader` gives the header the NIfTI reader parses from a path.
- `readFile` gives a file's bytes.
- `decode` turns four bytes into a sample.
- `load` loads one atlas volume or fails.

The code makes none of the following checks, and neither does the model:

- There is no check that the number of labels matches the number of frames.
  The labels are always the ten configured time points.
- Zero extents are accepted by the header check and the payload reshape. A zero frame count still fails later in the program, at the image reshape (see "## Left out").
- A payload with too few *or* too many whole samples fails the reshape. There
  is no separate truncated-file error.
- A header dimension or byte offset is never checked against the file size
  before the read.
- The atlas root, time points and volume types are hard-coded, not taken from
  the caller. The constructor argument is overwritten at line 157 and never
  used.

## Model

| member | source | states |
|---|---|---|
| Layout.SizeIsProduct | BabyBrowser/BabyBrowser.py:213-221 | the payload view `(frames, slices, rows, columns)` and the image `(columns x rows x slices, frames components)` have the same number of elements |
| Layout.FrameMajorIndex | BabyBrowser/BabyBrowser.py:213-214 | the C-order index of `[f, s, r, c]` in the payload is sample `VoxelIndex(s, r, c)` of frame `f` |
| Layout.VoxelMajorIndexInjective | BabyBrowser/BabyBrowser.py:216-221 | every in-range `[s, r, c, f]` of the image view `(slices, rows, columns, frames)` has an index below the image size, and two positions share an index only if they are the same position |
| Layout.RepackedAt | BabyBrowser/BabyBrowser.py:224-225 | component `f` of voxel `v` of the repacked image is sample `v` of frame `f` |
| Layout.RepackedIndex | BabyBrowser/BabyBrowser.py:224-225 | `output[s, r, c, f] == input[f, s, r, c]` for every in-range index |
| Layout.UnpackedAt | BabyBrowser/BabyBrowser.py:224-225 | reading component `f` of voxel `v` back gives sample `v` of frame `f` |
| Layout.UnpackRepacked | BabyBrowser/BabyBrowser.py:224-225 | unpacking the repacked image gives the payload back, so no sample is lost, duplicated or moved to another frame |
| Layout.RepackUnpacked | BabyBrowser/BabyBrowser.py:216-225 | every voxel-major image is the repack of exactly one payload, so the repack is a bijection |
| Layout.RepackedIsPermutation | BabyBrowser/BabyBrowser.py:224-225 | the repacked image is a permutation of the payload (equal multisets) |
| Layout.TwoFrames | BabyBrowser/BabyBrowser.py:224-225 | with two frames of four voxels, the image interleaves them: voxel `v` holds sample `v` of frame 0 and then sample `v` of frame 1 |
| Layout.TwoFrameExample | BabyBrowser/BabyBrowser.py:224-225 | two frames `1 2 3 4` and `5 6 7 8` of a 1 x 2 x 2 volume repack to `1 5 2 6 3 7 4 8` |
| Layout.CopyFrame | BabyBrowser/BabyBrowser.py:225 | one iteration writes frame `f` into component `f` of every voxel and leaves every other component unchanged |
| Layout.CopyFramesToComponents | BabyBrowser/BabyBrowser.py:224-225 | after the frame loop the image is the repack of the payload, whatever it held before; loop invariant: components below `f` hold their frames and the rest are untouched |
| Nifti.Payload | BabyBrowser/BabyBrowser.py:209-210 | the payload is the file after its first `vox_offset` bytes; a negative offset or one past the end leaves nothing |
| Nifti.Words | BabyBrowser/BabyBrowser.py:211 | the payload yields `bytes / 4` whole float32 words (floor) |
| Nifti.WordAt | BabyBrowser/BabyBrowser.py:211 | word `k` is payload bytes `4k .. 4k+3` |
| Nifti.WordsConcat | BabyBrowser/BabyBrowser.py:211 | the words put back together are the payload minus fewer than four trailing bytes |
| Nifti.Samples | BabyBrowser/BabyBrowser.py:209-211 | one sample per whole word of the payload |
| Nifti.SampleBytes | BabyBrowser/BabyBrowser.py:209-211 | sample `k` is decoded from file bytes `vox_offset + 4k .. vox_offset + 4k + 3` |
| Nifti.ShapeOfSize | BabyBrowser/BabyBrowser.py:204-214 | the reshape of the payload to `(dim[4], dim[3], dim[2], dim[1])` takes exactly `dim[1] * dim[2] * dim[3] * dim[4]` samples |
| Nifti.ReadFrameMajor | BabyBrowser/BabyBrowser.py:199-214 | a successful read has exactly `frames * slices * rows * columns` samples |
| Nifti.UnsupportedTypeIgnoresFile | BabyBrowser/BabyBrowser.py:199-201 | a data type other than 16 fails with that code whatever the file holds: the payload is never looked at |
| Nifti.ReadSucceedsIff | BabyBrowser/BabyBrowser.py:199-214 | reading succeeds if and only if the type is 16, no extent is negative, and the payload holds exactly `frames * slices * rows * columns` whole float32 words |
| Nifti.ReadFrameMajorSamples | BabyBrowser/BabyBrowser.py:204-214 | on success the shape is the header's, and sample `k` is the `k`-th float32 word after `vox_offset` |
| FrameLabels.FrameLabelString | BabyBrowser/BabyBrowser.py:242 | `str(names)[1:-1]` is the list text without its brackets: the `repr`s of the names joined by ", " |
| FrameLabels.ReprPlain | BabyBrowser/BabyBrowser.py:242 | a name without quotes, backslashes or control characters is shown as `'name'` |
| FrameLabels.FrameLabelsOfPlainNames | BabyBrowser/BabyBrowser.py:242 | for such names the attribute is the single-quoted names joined by ", " |
| FrameLabels.ParseRepr | BabyBrowser/BabyBrowser.py:242 | the name is read back from any text that starts with its `repr` |
| FrameLabels.LabelsRoundTrip | BabyBrowser/BabyBrowser.py:242 | parsing the attribute gives back the list of names, so the attribute determines the labels and their order |
| Paths.JoinPath | BabyBrowser/BabyBrowser.py:176-180 | `os.path.join` ends with its second argument, starts with the first when the second is relative, and is the second when that is absolute |
| Paths.AtlasStemOfFileName | BabyBrowser/BabyBrowser.py:179 | the text between `atlas_` and `_rigidtoyear1-2.nii.gz` is time point followed by volume type |
| Paths.AtlasFileNameEqual | BabyBrowser/BabyBrowser.py:179 | two atlas file names are equal if and only if time point + volume type are equal |
| AtlasLoading.Row | BabyBrowser/BabyBrowser.py:178 | the inner loop visits `(volumeType, timePoints[k])` for each `k` in order |
| AtlasLoading.AtlasKeysLength | BabyBrowser/BabyBrowser.py:177-178 | the nested loops visit `volume types x time points` keys |
| AtlasLoading.AtlasKeysMembers | BabyBrowser/BabyBrowser.py:177-178 | a key is visited if and only if its volume type and time point are configured |
| AtlasLoading.AtlasKeysDistinct | BabyBrowser/BabyBrowser.py:177-178 | distinct volume types and time points give distinct keys |
| AtlasLoading.Step | BabyBrowser/BabyBrowser.py:182-185 | an iteration succeeds if and only if no earlier one failed and the file loads |
| AtlasLoading.LoadKeysCompletes | BabyBrowser/BabyBrowser.py:182-185 | loading completes if and only if every key's file loads |
| AtlasLoading.LoadKeysEntries | BabyBrowser/BabyBrowser.py:185 | after a complete load the dictionary has the old keys plus one entry per visited key, holding that key's volume; other entries are unchanged |
| AtlasLoading.LoadKeysFirstFailure | BabyBrowser/BabyBrowser.py:183-184 | a failed load names a key whose file does not load; all earlier keys loaded, and the dictionary is what loading those earlier keys gives |
| BabyBrowser.FailedPrefix | BabyBrowser/BabyBrowser.py:183-184 | after the exception no later key is visited |
| AtlasLoading.VolumePathUnderRegistered | BabyBrowser/BabyBrowser.py:176-180 | for an atlas directory without a trailing `/`, the file for `(volumeType, timePoint)` is `<atlasPath>/atlases_rigidregistered/atlas_<timePoint><volumeType>_rigidtoyear1-2.nii.gz` |
| BabyBrowser.ConfiguredKeys | BabyBrowser/BabyBrowser.py:160-171 | the configured volume types and time points give 20 distinct keys |
| BabyBrowser.ConfiguredLoadFillsDictionary | BabyBrowser/BabyBrowser.py:172-185 | when every file loads, a new instance ends with exactly 20 entries, one per configured pair |
| BabyBrowser.ConfiguredFrameLabels | BabyBrowser/BabyBrowser.py:242 | the attribute for the configured time points is `'week0-1', 'quarter0_excludingweek0', ...`: single-quoted names joined by ", " |
| BabyBrowser.BabyBrowserLogic.constructor | BabyBrowser/BabyBrowser.py:153-172 | the argument is ignored; fixed atlas path, developmental path joined from it, the two volume types, the ten time points, empty dictionary |
| BabyBrowser.BabyBrowserLogic.LoadAtlas | BabyBrowser/BabyBrowser.py:175-185 | the dictionary becomes the load of all keys in loop order from the old one; the error, if any, names the path of the first file that did not load |
| BabyBrowser.BabyBrowserLogic.LoadTimePoints | BabyBrowser/BabyBrowser.py:178-185 | the inner loop for one volume type: loads and stores each time point's file, or stops at the first failure and returns its path |
| BabyBrowser.BabyBrowserLogic.LoadDevelopmentalAtlas | BabyBrowser/BabyBrowser.py:199-242 | fails exactly when the header/payload read fails, with the same error; otherwise it returns a new image equal to the repack of the payload, with dimensions `columns, rows, slices`, `frames` components, `frames` frames, the name `DevelopmentalAtlas` and the frame-label string of the time points |

## Left out

- The widget, its buttons and selectors (lines 39-136), the test class, `delayDisplay` and the `print` calls. These are user-interface side effects.
- Header parsing by the NIfTI reader. The header is a record (`datatype`, `dim[1..4]`, `vox_offset`, the last as the integer the reader returns) given by `readHeader`. A reader that fails on a missing file is not modelled.
- Opening the file. `readFile` is total, so an I/O error on `open` is not modelled.
- IEEE float32 decoding and byte order. `decode` maps each 4-byte word to an opaque sample.
- numpy's inference of a single `-1` extent in `reshape`. The model treats any negative extent as a reshape failure.
- The multivolume and display nodes, reference counting and scene insertion (lines 228-243). The model returns a `MultiVolume` record with the image, dimensions, component count, frame count, name and label attribute.
- BabyBrowser.BabyBrowserLogic.LoadDevelopmentalAtlas: a header with `dim[4] = 0` and a non-empty volume succeeds in the model, with a 0-component image. In the program, `AllocateScalars` at line 218 gets 0 components, which the image library raises to 1, so the reshape at line 221 fails. The image library's allocation rules are not modelled.
- The image library's buffer starts uninitialised. The model's `new` array is default-initialised. The copy's contract holds whatever the buffer held.
- BabyBrowser.BabyBrowserLogic.LoadAtlas: `loadVolume` is modelled as a function of the path (`load`). Two loads of the same file give the same result, and node identity is not modelled.
- BabyBrowser.BabyBrowserLogic.LoadTimePoints: the inner loop of `loadAtlas` is a method of its own. The source has both loops in one method, and the behaviour is the same.
- FrameLabels.EscapeChar: treats every character from U+00A0 up as printable. CPython's `repr` escapes the non-printable ones: U+00A0 itself is written `\xa0`, U+00AD is written `\xad`, and others use `\u` or `\U`. The model escapes only characters below U+00A0 (control characters and U+007F to U+009F), which covers the configured ASCII time points. Quote choice is modelled exactly.
- Paths.JoinPath: only the two-argument POSIX form used here is modelled.
