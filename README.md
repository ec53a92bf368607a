# Audio trimmer and dependency layout of UnityToolSet, in Dafny

This project models the two sequential cores of two Unity editor windows. The rest of those windows is user interface.

**The audio trimmer** (`AudioTrimmer.cs`) cuts the silence off both ends of a clip and saves the result as a 16-bit PCM WAV file.
- `TrimClip` scans forward for the first sample whose magnitude reaches the threshold. It then scans backward for the last such sample, and copies the samples from the first to the last, inclusive, into a new clip.
- `Save` writes the file in three steps:
  1. `CreateEmpty` writes a 44-byte zero placeholder.
  2. `ConvertAndWrite` appends every sample as `(short)(s * 32767)` in two little-endian bytes.
  3. `WriteHeader` seeks back to 0 and overwrites the placeholder with the canonical RIFF/WAVE header. This is a PCM `fmt ` chunk and a `data` chunk, as laid out in chapter 3 of the Multimedia Programming Interface and Data Specifications 1.0.
- `GetTrimmedName` and `GetFullPath` build the paths of the trimmed copy.

**The dependency viewer** (`DependencyViewer.cs`) lays out an asset's dependency graph. `SetPosition` is a depth-first walk:
- It takes every path out of a pending set the first time it meets it.
- It gives the path column `depth` and row `GetIndex(depth)`, then bumps that column's counter with `SetIndex`.
- It walks the path's direct dependencies one column further.

`DrawDependency` resets the pending set and the counter list before the walk.

The modules are:
- `LittleEndian`: `BitConverter` bytes and their decoding.
- `ArrayCopy`: `Array.Copy` and `CopyTo`.
- `SilenceTrim`: the scans and the copy.
- `WavWriter`:
  - quantisation and the payload;
  - an in-memory `FileStream` class, a byte sequence plus a write position;
  - the three writers, the header and `Save`.
- `WavReader`: a header parser. It is the independent partner against which the written bytes are checked.
- `AssetPaths`: the `System.IO.Path` operations on '/' paths, and the two path helpers.
- `DependencyLayout`: the walk as functions over a `Layout` value, its invariant, and a `DependencyViewer` class whose methods are proved equal to those functions.

The model follows the code and three points are worth knowing.
- **Silent clip.** For a silent, non-empty clip the scans end at `i = n` and `j = -1`. Allocating the copy then fails with length `-n`. The model returns `NegativeLength(-n)` for this case.
- **Data size.** The header's data size is `samples * channels * 2`, while the payload holds two bytes per sample. For a non-empty clip whose declared size fits in 32 bits, the two agree exactly when the clip is mono; `WavReader.DataSizeMatchesPayloadIffMono` proves this. For an empty clip both are 0 whatever the channel count (`WavReader.EmptyClipFile`).
- **Trailing dot.** `GetTrimmedName` can lose the `_trimmed` marker when the file name ends in a dot and has another dot before it: "a.b." becomes "a.b_trimmed", whose name without extension is "a". `AssetPaths.TrailingDotCounterexample` exhibits this. A trailing dot that is the only dot is harmless: "a." becomes "a_trimmed".

## Model

| member | source | states |
|---|---|---|
| LittleEndian.ToBytes | Assets/Scripts/AudioTrimmer.cs:299 | `BitConverter.GetBytes`: exactly `width` bytes, least significant first, two's complement for negative values |
| LittleEndian.FromBytes | Assets/Scripts/AudioTrimmer.cs:364-365 | reading bytes back as an unsigned little-endian number gives a value below 256^width |
| LittleEndian.FromBytes16 | Assets/Scripts/AudioTrimmer.cs:297-299 | two bytes read back as a C# short lie in [-32768, 32767] |
| LittleEndian.FromToBytes | Assets/Scripts/AudioTrimmer.cs:364-402 | decoding the written bytes gives the value modulo 256^width (what a 4- or 2-byte field keeps) |
| LittleEndian.ToFromBytes | Assets/Scripts/AudioTrimmer.cs:299 | encoding decoded bytes gives the same bytes back |
| LittleEndian.ToBytesMod | Assets/Scripts/AudioTrimmer.cs:388-392 | only the value modulo 256^width is written, so a product that wraps around in 32 bits writes the same bytes as the exact product |
| LittleEndian.ToBytesPrefix | Assets/Scripts/AudioTrimmer.cs:364-365 | the first 4 bytes of the 8-byte `long` encoding are the 4-byte encoding (writing 4 of `GetBytes(Length - 8)`) |
| LittleEndian.Bytes16RoundTrip | Assets/Scripts/AudioTrimmer.cs:297-299 | a short written as two bytes reads back as the same short |
| LittleEndian.FitsRoundTrip | Assets/Scripts/AudioTrimmer.cs:373-396 | a value that fits in the field width reads back exactly |
| ArrayCopy.Copy | Assets/Scripts/AudioTrimmer.cs:344 | `Array.Copy`: the destination range holds the source range, and every other destination cell is unchanged |
| SilenceTrim.Abs | Assets/Scripts/AudioTrimmer.cs:328 | `Mathf.Abs`: non-negative and equal to the sample or its negation |
| SilenceTrim.Loud | Assets/Scripts/AudioTrimmer.cs:328 | the inclusive `>=` test of both scans: a sample counts when it or its negation reaches the threshold |
| SilenceTrim.FirstLoud | Assets/Scripts/AudioTrimmer.cs:325-332 | the forward scan's index: every sample before it is quiet, and the sample at it (if any) reaches the threshold |
| SilenceTrim.LastLoud | Assets/Scripts/AudioTrimmer.cs:334-341 | the backward scan's index: every sample after it is quiet, and the sample at it (if not -1) reaches the threshold |
| SilenceTrim.ScansMeetIffAudible | Assets/Scripts/AudioTrimmer.cs:325-341 | `i <= j` exactly when some sample is loud; for a silent buffer `i = n` and `j = -1` |
| SilenceTrim.KeptBoundaries | Assets/Scripts/AudioTrimmer.cs:325-344 | the kept samples start and end with a loud sample, have length `j - i + 1` when some sample is loud, and are empty otherwise |
| SilenceTrim.DropLeadingIsSuffix | Assets/Scripts/AudioTrimmer.cs:325-332 | the forward scan agrees with dropping quiet samples from the front one at a time |
| SilenceTrim.DropTrailingIsPrefix | Assets/Scripts/AudioTrimmer.cs:334-341 | the backward scan agrees with dropping quiet samples from the back one at a time |
| SilenceTrim.KeptIsStripped | Assets/Scripts/AudioTrimmer.cs:325-344 | trimming equals stripping the quiet samples from both ends |
| SilenceTrim.KeptIdempotent | Assets/Scripts/AudioTrimmer.cs:319-351 | trimming an already trimmed buffer changes nothing |
| SilenceTrim.ScanOutcome | Assets/Scripts/AudioTrimmer.cs:343 | the length `j - i + 1` is non-negative exactly when some sample is loud or the buffer is empty; it is then the kept samples' length, and `-n` otherwise |
| SilenceTrim.TrimOf | Assets/Scripts/AudioTrimmer.cs:343-347 | the outcome for a readable clip: a clip, with the same name, channels and rate and no more samples, exactly when some sample is loud or there are none; otherwise the failure for length `-n` |
| SilenceTrim.TrimOfScans | Assets/Scripts/AudioTrimmer.cs:343-347 | the trimming outcome in terms of the two scan indices: the slice `i..j` inclusive, or the failure for a negative length |
| SilenceTrim.ScanForward | Assets/Scripts/AudioTrimmer.cs:325-332 | the forward loop with `break` returns the first index whose magnitude is `>=` the threshold, or `n` |
| SilenceTrim.ScanBackward | Assets/Scripts/AudioTrimmer.cs:334-341 | the backward loop with `break` returns the last index whose magnitude is `>=` the threshold, or -1 |
| SilenceTrim.CopyRange | Assets/Scripts/AudioTrimmer.cs:343-344 | a fresh buffer of the requested length holding the source slice; the source is left unchanged |
| SilenceTrim.TrimClip | Assets/Scripts/AudioTrimmer.cs:319-351 | uses threshold = slider / 100. Returns no clip when the data cannot be read, the clip with only its kept samples (same name, channels, rate), or the negative-length failure of a silent non-empty clip |
| WavWriter.Truncate | Assets/Scripts/AudioTrimmer.cs:297 | the C# cast truncates toward zero: the result is within one of the real, on the side of zero |
| WavWriter.Quantise | Assets/Scripts/AudioTrimmer.cs:293-297 | `(short)(s * 32767)` for `s` in [-1, 1] lies in [-32767, 32767] and is `s * 32767` truncated toward zero |
| WavWriter.QuantiseEndpoints | Assets/Scripts/AudioTrimmer.cs:293-297 | 1.0 becomes 32767, -1.0 becomes -32767, and 0.0 becomes 0 |
| WavWriter.QuantiseOdd | Assets/Scripts/AudioTrimmer.cs:297 | negating a sample negates its quantised value |
| WavWriter.QuantiseMonotone | Assets/Scripts/AudioTrimmer.cs:297 | quantisation preserves order |
| WavWriter.QuantiseAll | Assets/Scripts/AudioTrimmer.cs:286-297 | `intData`: one quantised value per sample, in order |
| WavWriter.Payload | Assets/Scripts/AudioTrimmer.cs:289 | the payload has exactly `2 * n` bytes |
| WavWriter.PayloadAt | Assets/Scripts/AudioTrimmer.cs:295-301 | bytes `2k` and `2k+1` of the payload are the low and high bytes of the k-th quantised sample |
| WavWriter.DecodePayload | Assets/Scripts/AudioTrimmer.cs:289-301 | reading the payload two bytes at a time gives half as many values as bytes |
| WavWriter.PayloadRoundTrip | Assets/Scripts/AudioTrimmer.cs:286-301 | decoding the payload gives back exactly the quantised samples, in input order |
| WavWriter.Overwrite | Assets/Scripts/AudioTrimmer.cs:303 | writing at a position of a stream keeps the length unless the data runs past the end |
| WavWriter.OverwriteAtEnd | Assets/Scripts/AudioTrimmer.cs:303 | writing at the end of a stream appends |
| WavWriter.FileStream.constructor | Assets/Scripts/AudioTrimmer.cs:308 | a file opened with `FileMode.Create` is empty, positioned at 0 |
| WavWriter.FileStream.WriteByte | Assets/Scripts/AudioTrimmer.cs:313 | one byte is written at the position, which advances by one |
| WavWriter.FileStream.Write | Assets/Scripts/AudioTrimmer.cs:303 | the first `count` bytes of the buffer are written at the position, which advances by `count` |
| WavWriter.FileStream.Seek | Assets/Scripts/AudioTrimmer.cs:359 | seeking moves the position and changes no byte |
| WavWriter.FileStream.Length | Assets/Scripts/AudioTrimmer.cs:364 | `fileStream.Length` is the number of bytes in the file |
| WavWriter.WriteOver | Assets/Scripts/AudioTrimmer.cs:361-402 | each header write extends the rewritten prefix and keeps the old bytes after the position |
| WavWriter.CreateEmpty | Assets/Scripts/AudioTrimmer.cs:306-317 | the new file holds exactly 44 zero bytes and is positioned after them |
| WavWriter.Convert | Assets/Scripts/AudioTrimmer.cs:282-301 | the conversion loop fills `intData` and `bytesData` in place and yields exactly the payload |
| WavWriter.ConvertAndWrite | Assets/Scripts/AudioTrimmer.cs:280-304 | the payload is written at the position, which advances by `2n` |
| WavWriter.HeaderBytes | Assets/Scripts/AudioTrimmer.cs:361-402 | the header is exactly 44 bytes: 4+4+4+4+4+2+2+4+4+2+2+4+4 |
| WavWriter.WriteRiffChunk | Assets/Scripts/AudioTrimmer.cs:361-368 | "RIFF", the low 4 bytes of file length - 8, and "WAVE" replace the first 12 bytes |
| WavWriter.WriteFormatHead | Assets/Scripts/AudioTrimmer.cs:370-383 | "fmt ", 16, format 1 and the low 16 bits of the channel count follow |
| WavWriter.WriteFormatRates | Assets/Scripts/AudioTrimmer.cs:385-396 | the rate, the byte rate `hz * channels * 2`, the block alignment `(ushort)(channels * 2)` and 16 bits per sample follow |
| WavWriter.WriteDataChunkHead | Assets/Scripts/AudioTrimmer.cs:398-402 | "data" and `samples * channels * 2` follow |
| WavWriter.WriteHeader | Assets/Scripts/AudioTrimmer.cs:353-403 | after seeking to 0, the first 44 bytes become the header for the stream's length and the rest of the stream is unchanged |
| WavWriter.WavFile | Assets/Scripts/AudioTrimmer.cs:253-272 | the saved file is `44 + 2n` bytes long |
| WavWriter.Save | Assets/Scripts/AudioTrimmer.cs:253-272 | placeholder, then payload, then header overwrite leave exactly the header followed by the payload |
| WavWriter.SaveLayout | Assets/Scripts/AudioTrimmer.cs:253-272 | the 44-byte placeholder with the payload appended, its first 44 bytes replaced by the header for its length, is exactly the saved file |
| WavReader.HeaderFields | Assets/Scripts/AudioTrimmer.cs:361-402 | every header field sits at its offset (0, 4, 8, 12, 16, 20, 22, 24, 28, 32, 34, 36, 40), whatever follows the header |
| WavReader.Read4 | Assets/Scripts/AudioTrimmer.cs:364-402 | a 4-byte field reads back as the low 32 bits of its value |
| WavReader.Read2 | Assets/Scripts/AudioTrimmer.cs:379-396 | a 2-byte field reads back as the low 16 bits of its value |
| WavReader.HeaderRoundTrip | Assets/Scripts/AudioTrimmer.cs:353-403 | parsing any header the writer produces finds the four tags and gives back every field modulo its width |
| WavReader.WavFileLayout | Assets/Scripts/AudioTrimmer.cs:280-304 | the bytes from offset 44 on are exactly the payload |
| WavReader.WavFileHeader | Assets/Scripts/AudioTrimmer.cs:353-403 | the saved file's header parses with chunk size `(36 + 2n) mod 2^32`, format size 16, format 1, 16 bits per sample |
| WavReader.MonoIff | Assets/Scripts/AudioTrimmer.cs:401 | `n * channels * 2 = 2n` exactly when channels = 1, for n > 0 |
| WavReader.DataSizeMatchesPayloadIffMono | Assets/Scripts/AudioTrimmer.cs:401-402 | the declared data size equals the payload's length exactly when the clip is mono |
| WavReader.EmptyClipFile | Assets/Scripts/AudioTrimmer.cs:253-272 | an empty clip gives a bare 44-byte header with chunk size 36 and data size 0 |
| AssetPaths.FileName | Assets/Scripts/AudioTrimmer.cs:178-179 | `Path.GetFileName`: a separator-free suffix of the path |
| AssetPaths.LastIndexOf | Assets/Scripts/AudioTrimmer.cs:178-180 | the last occurrence of a character, or -1 |
| AssetPaths.DirectoryName | Assets/Scripts/AudioTrimmer.cs:178 | `Path.GetDirectoryName` is null exactly for "" and "/" |
| AssetPaths.DirectoryNameIsPrefix | Assets/Scripts/AudioTrimmer.cs:178 | the directory name is a proper prefix of the path, and a path with no separator, such as "a", has the directory name "" |
| AssetPaths.FileNameWithoutExtension | Assets/Scripts/AudioTrimmer.cs:179 | `Path.GetFileNameWithoutExtension` is no longer than the file name |
| AssetPaths.Extension | Assets/Scripts/AudioTrimmer.cs:180 | `Path.GetExtension` is "" or starts with a dot and has at least one more character |
| AssetPaths.NameSplits | Assets/Scripts/AudioTrimmer.cs:179-180 | the file name is the name without extension followed by the extension; a lone trailing dot belongs to neither |
| AssetPaths.ExtensionShape | Assets/Scripts/AudioTrimmer.cs:180 | a non-empty extension holds no dot after its first character and no separator |
| AssetPaths.Combine | Assets/Scripts/AudioTrimmer.cs:171-183 | `Path.Combine` returns the first path when the second is empty, the second when the first is empty, and the second when it is rooted |
| AssetPaths.CombineEnds | Assets/Scripts/AudioTrimmer.cs:171-183 | the combined path ends with the second path and, when the second is relative and neither is empty, starts with the first |
| AssetPaths.GetTrimmedName | Assets/Scripts/AudioTrimmer.cs:176-183 | throws (a null directory) exactly when `Path.GetDirectoryName` returns null |
| AssetPaths.TrimmedNamePlaced | Assets/Scripts/AudioTrimmer.cs:178-182 | for a path without doubled separators, the trimmed path's file name is the new name and its directory name is that of the old path |
| AssetPaths.GetFullPath | Assets/Scripts/AudioTrimmer.cs:171-174 | throws (`Remove(0, 7)` out of range) exactly when the asset path is shorter than 7 characters |
| AssetPaths.PlaceName | Assets/Scripts/AudioTrimmer.cs:181 | `Path.Combine` of a directory and a separator-free name gives a path whose file name is that name and whose directory is that directory |
| AssetPaths.SuffixStem | Assets/Scripts/AudioTrimmer.cs:179-181 | inserting `_trimmed` between the name without extension and the extension moves it into the new name without extension and keeps the extension |
| AssetPaths.TrimmedNameParts | Assets/Scripts/AudioTrimmer.cs:176-183 | the trimmed name keeps the directory and the extension and appends `_trimmed` to the name without extension |
| AssetPaths.TrimmedNameIsRecognised | Assets/Scripts/AudioTrimmer.cs:51 | the trimmed name's name without extension ends with `_trimmed`, as `OnDestroy` checks |
| AssetPaths.TrailingDotCounterexample | Assets/Scripts/AudioTrimmer.cs:176-183 | "a.b." becomes "a.b_trimmed", whose name without extension is "a" |
| AssetPaths.TrimmedNameFails | Assets/Scripts/AudioTrimmer.cs:178-181 | `GetTrimmedName` throws exactly for the empty path and the root, whose directory name is null |
| AssetPaths.FullPathJoins | Assets/Scripts/AudioTrimmer.cs:171-174 | `GetFullPath` throws exactly for a path shorter than 7 characters; otherwise it joins the data directory and the path without "Assets/" |
| DependencyLayout.GrowThenBump | Assets/Scripts/DependencyViewer.cs:299-320 | `GetIndex` then `SetIndex` at the same depth grows the list by at most one and leaves the counter one above the row handed out; other counters are unchanged |
| DependencyLayout.BumpChangesOneCounter | Assets/Scripts/DependencyViewer.cs:310-320 | `SetIndex` grows the list by at most one element and changes only the counter at `depth` |
| DependencyLayout.Deps | Assets/Scripts/DependencyViewer.cs:176-177 | `GetDependencies(path, false)` with the null check: no dependencies for a path the graph lacks, and the graph's list otherwise |
| DependencyLayout.Step | Assets/Scripts/DependencyViewer.cs:167-174 | one placement: the path leaves the pending set, and the counter list grows only when `depth` is a new column |
| DependencyLayout.Place | Assets/Scripts/DependencyViewer.cs:160-186 | the walk only shrinks the pending set and never shortens the counter list; its recursion terminates because the pending set shrinks before every recursive call |
| DependencyLayout.PlaceAll | Assets/Scripts/DependencyViewer.cs:176-185 | the loop over the dependencies, in list order at `depth + 1`, keeps the same two facts |
| DependencyLayout.FreshLayoutSound | Assets/Scripts/DependencyViewer.cs:141-142 | the reset state (all dependencies pending, empty counter list) satisfies the layout invariant |
| DependencyLayout.StepSound | Assets/Scripts/DependencyViewer.cs:167-174 | one placement keeps the invariant and every earlier cell: the new cell is the next free row of its column |
| DependencyLayout.PlaceSound | Assets/Scripts/DependencyViewer.cs:160-186 | `SetPosition` keeps the invariant and never moves a placed path. It places exactly the paths it takes out of the pending set |
| DependencyLayout.PlaceAllSound | Assets/Scripts/DependencyViewer.cs:176-185 | the loop over the dependencies does the same |
| DependencyLayout.PlaceIgnoresSettled | Assets/Scripts/DependencyViewer.cs:162-170 | `SetPosition` on an empty pending set or a path not in it changes nothing |
| DependencyLayout.PlaceRecordsCell | Assets/Scripts/DependencyViewer.cs:167-174 | a pending path is removed for good and gets column `depth` and the row the counter held before the increment |
| DependencyLayout.PlaceAllSettles | Assets/Scripts/DependencyViewer.cs:179-184 | after the loop none of the dependencies is pending |
| DependencyLayout.PlaceSettles | Assets/Scripts/DependencyViewer.cs:167 | after `SetPosition(path, …)` the path is not pending |
| DependencyLayout.PlaceClosed | Assets/Scripts/DependencyViewer.cs:160-186 | when `SetPosition` returns, no direct dependency of a path it placed is still pending |
| DependencyLayout.PlaceAllClosed | Assets/Scripts/DependencyViewer.cs:176-185 | the same holds for the loop over the dependencies |
| DependencyLayout.Walk | Assets/Scripts/DependencyViewer.cs:141-154 | the walk from the root over the reset state leaves pending only dependencies other than the root |
| DependencyLayout.WalkSound | Assets/Scripts/DependencyViewer.cs:141-154 | the layout from the root is sound (see below), places exactly the removed dependencies, and puts the root at column 0, row 0. Each direct dependency of a placed path is placed too or was never a dependency |
| DependencyLayout.Blank | Assets/Scripts/DependencyViewer.cs:135 | `string.IsNullOrWhiteSpace` on a non-null string: the empty string is blank, and a blank string starts and ends with white space |
| DependencyLayout.TryGet | Assets/Scripts/DependencyViewer.cs:182 | `TryGetValue` yields a node exactly when the path is in the map |
| DependencyLayout.DependencyViewer.constructor | Assets/Scripts/DependencyViewer.cs:38-47 | a window starts with nothing pending, placed or drawn |
| DependencyLayout.DependencyViewer.GetIndex | Assets/Scripts/DependencyViewer.cs:299-308 | at `depth == Count` it appends 0 and returns 0; otherwise it returns `s_Positions[depth]` and changes nothing |
| DependencyLayout.DependencyViewer.SetIndex | Assets/Scripts/DependencyViewer.cs:310-320 | at `depth == Count` it appends 1; otherwise it increments `s_Positions[depth]` |
| DependencyLayout.DependencyViewer.SetPosition | Assets/Scripts/DependencyViewer.cs:160-186 | the recursive method with its loop leaves exactly the state the functional walk describes. `depth <= Count` holds at every `GetIndex`/`SetIndex`, and the node is dereferenced only after a successful removal, when it cannot be null |
| DependencyLayout.DependencyViewer.DrawDependency | Assets/Scripts/DependencyViewer.cs:133-158 | skips, changing nothing, when drawn or the root is blank; when the root has no node, leaves the graph undrawn with the pending set reset to the dependencies and empty counters and cells; otherwise resets the state and lays out from the root at depth 0 |

"Sound" means:
- a path is pending or placed, never both;
- in every column the rows `0 .. s_Positions[d] - 1` are each taken by exactly one path, and no other row is.

So `s_Positions[d]` is the number of paths placed at depth `d`.

## Left out

- Unity's `AudioClip`, `GetData`, `SetData` and `Create` are replaced by the `Clip` value: a sample sequence with channels and rate. `GetData`'s success is a parameter of `TrimClip`. The sample count is the sequence's length, the array length both `TrimClip` and `ConvertAndWrite` use.
- Samples are reals. The single-precision rounding of `s * 32767` and of the threshold division is not modelled.
- WavWriter.Quantise: requires the sample to be in [-1, 1], because the unchecked cast of an out-of-range float to `short` is unspecified.
- Host I/O is left out:
  - file creation and `File.Exists`/`File.Delete`;
  - the early return and the exception handler of `Save`;
  - `Debug.Log` and `AssetDatabase.Refresh`.

  The file is an in-memory byte sequence with a position. Writing never fails, and the stream is never read back.
- `FileStream.Seek` past the end is not modelled: the model only seeks to offset 0.
- The four header tags are byte constants, the UTF-8 bytes of the ASCII strings "RIFF", "WAVE", "fmt " and "data". `Encoding.UTF8.GetBytes` is not modelled.
- AssetPaths: only the '/' separator is modelled. Windows separators, drive roots, the collapsing of repeated separators by `Path.GetDirectoryName` and invalid-character checks are left out.
- AssetPaths.TrimmedNameParts: requires a path without doubled separators whose file name does not end in a dot, or whose trailing dot is its only dot. File names ending in a dot with another dot before it are not covered: there the result depends on the characters between the last two dots, and `TrailingDotCounterexample` shows one that loses the marker.
- AssetPaths.TrimmedNameIsRecognised: same restriction as `TrimmedNameParts`. Some excluded names keep the marker ("x_trimmed.b.") and some lose it ("a.b."), so no single statement covers them.
- `Application.dataPath` is a parameter of `GetFullPath`.
- `AssetDatabase.GetDependencies(path, false)` is a given map from path to its direct dependencies. A path the map lacks has none. The recursive dependency set of the root is a parameter of `DrawDependency`.
- DrawNode, Connect, ClearGraph and all GraphView node, port and edge construction are left out. A node is reduced to its path, registered in the node map for every pending path.
- Node positions are integer (column, row) cells kept in a map from path, not pixel rectangles stored in node objects. The aliasing of node objects is therefore not modelled.
- DependencyLayout.IsWhiteSpace: covers the ASCII white-space characters only, not every Unicode space `char.IsWhiteSpace` accepts.
- The rest of both windows is left out: OnGUI, the toggles and slider, DrawClip, PlayClip (a reflection call into Unity), drag and drop, the object picker, OnDestroy's asset deletion and the file deletion when the threshold changes.
