# iOS media converter — a Dafny model of its conversion core

The converter turns iPhone media into widely readable files: HEIC/HEIF
photos become PNG through Pillow and pillow-heif, and MOV/M4V videos become
H.264/AAC MP4 through an external `ffmpeg`. The same `IOSConverter` logic
ships twice, once in the command-line program (`ios_converter_cli.py`) and
once behind the Tkinter window (`ios_converter.py`). The copies differ in
where they look for ffmpeg, in the timeouts, in how they report failures,
and in what their loops do.

This project models that logic and proves what it does:

- routing by the lower-cased last suffix, and the names of the output files;
- the first-match ffmpeg search;
- the fixed ffmpeg argument vector, and how each way a run can end becomes
  an output path or an exception;
- the transparency decision for PNG output;
- the directory scan, the counting loop of `main`, and the window's
  `batch_convert`.

Pillow, the file system and `subprocess.run` are outside the model. They
become oracle values that each operation takes as a parameter:

- what decoding and saving an image yields;
- which paths exist;
- how each ffmpeg command ends;
- whether creating a directory fails;
- the directory tree.

Modules:

- `Wrappers`: Option and Result.
- `Text`: the Python `str` operations the code uses: `strip`,
  `split('\n')`, `lower`, `join`.
- `PurePath`: `pathlib` names, parents, `/`, `suffix`, `stem`,
  `with_suffix`, and `str()` on Windows.
- `Media`: everything both copies share. This covers:
  - the extension lists and routing;
  - the image converter;
  - the ffmpeg command;
  - process outcomes.
- `Discovery`: the first-match search machinery.
- `FileTree`: `os.walk` and `iterdir` over a directory tree value.
- `ConverterCli`: the command-line copy.
- `ConverterGui`: the window's copy.
- `Copies`: how the two copies relate.

The two copies differ in ways the model keeps:

- In the window's batch, a missing video with no ffmpeg installed is
  recorded with the "FFmpeg is not installed" message, not as a missing
  file. The window never checks that an input exists.
- The window's ffmpeg calls have no timeout.
- The window reports the whole of ffmpeg's stderr, not its last line.

## Model

| member | source | states |
|---|---|---|
| Text.Strip | ios_converter_cli.py:303 | `str.strip()`: the result is the input with its leading and trailing whitespace removed, and it is empty exactly when the input is all whitespace |
| Text.Split | ios_converter_cli.py:303 | `split('\n')` yields at least one piece, and no piece contains the separator |
| Text.JoinSplit | ios_converter_cli.py:303 | joining the pieces of `s.split(sep)` with `sep` gives back `s`, so splitting loses no character |
| Text.JoinWithSnoc | ios_converter_cli.py:359-364 | `sep.join(parts + [x])` is `sep.join(parts) + sep + x` for a non-empty list |
| Text.Trimmed | ios_converter_cli.py:303 | when the text is not all whitespace, the part between its leading and trailing whitespace is non-empty and starts and ends with a non-space |
| Text.RFind | ios_converter_cli.py:343 | the index of the last occurrence of a character, or -1 when it does not occur |
| Text.LastLine | ios_converter_cli.py:303 | the last line is a final line of the text: a suffix that contains no newline and is preceded by a newline when it is not the whole text |
| Text.LastLineUnique | ios_converter_cli.py:303 | a text has only one final line, so any suffix with those properties is the last line |
| Text.LastLineSnoc | ios_converter_cli.py:303 | adding a character other than a newline to a text adds it to the text's last line |
| Text.SplitSnoc | ios_converter_cli.py:303 | adding a character other than the separator to a text adds it to the last piece of its split |
| Text.LastLineIsLastPiece | ios_converter_cli.py:303 | `s.split('\n')[-1]` is the last line of `s` |
| Text.Lower | ios_converter_cli.py:343 | `lower()` keeps the length and lower-cases each character on its own |
| PurePath.Child | ios_converter_cli.py:354 | `dir / name` has that name and that parent |
| PurePath.RenderEnds | ios_converter_cli.py:280-288 | `str(p)` starts with the path's anchor and ends with its name |
| PurePath.RenderChild | ios_converter_cli.py:113-116 | `str(p / name)` is `str(p)`, a backslash and `name`, or the anchor followed by `name` when `p` has no parts |
| PurePath.NameSuffix | ios_converter_cli.py:343 | `suffix` is empty, or it is a dot followed by at least one character and no further dot |
| PurePath.NameStem | ios_converter_cli.py:354 | `stem + suffix` is the name, and a non-empty name has a non-empty stem |
| PurePath.NoSuffixExactly | ios_converter_cli.py:343 | a name has no suffix exactly when it has no dot, ends with a dot, or its only dot is the leading one |
| PurePath.AppendedSuffix | ios_converter_cli.py:354-357 | appending a proper suffix to a non-empty stem gives back that suffix and that stem |
| PurePath.WithSuffix | ios_converter_cli.py:199-200 | `with_suffix` fails exactly on an empty name; otherwise it keeps the parent and stem and sets the suffix |
| Media.KindOf | ios_converter_cli.py:343-358 | a path is routed exactly when its lower-cased suffix is one of the four supported extensions, and a routed path has a non-empty stem |
| Media.SupportedSpelling | ios_converter_cli.py:343 | any spelling that lower-cases to a supported extension is a proper suffix |
| Media.RoutingIgnoresCase | tests/test_converter.py:195-229 | a stem plus any letter case of `.heic`/`.heif` routes to images, and of `.mov`/`.m4v` to video, keeping the stem |
| Media.HiddenFileUnsupported | ios_converter_cli.py:343 | a hidden file named like `.heic` has no suffix and is never converted |
| Media.OutputFor | ios_converter_cli.py:198-203 | the given output path is used as is; otherwise the input gets the new suffix in its own directory, which fails only on an empty name |
| Media.PngMode | ios_converter_cli.py:209-222 | the image keeps its mode exactly when it is RGBA or LA, or is P with a `transparency` key; otherwise it becomes RGB |
| Media.ConvertHeicToPng | ios_converter_cli.py:190-225 | Pillow is checked before pillow-heif; once both are present, an empty name raises ValueError, and Pillow's error from decoding or from saving escapes unchanged; success happens exactly when both are present, the output is known, decoding succeeds and the save succeeds; the saved mode and the output path are as decided |
| Media.FfmpegCommand | ios_converter_cli.py:278-289 | the vector has 17 arguments, starting with the executable, `-i` and the input, and ending with `-y` and the output |
| Media.ParseFfmpegCommand | ios_converter.py:110-121 | a vector parses back exactly when it was built by FfmpegCommand, and it parses to the executable and paths it was built from |
| Media.Route | ios_converter_cli.py:352-358 | images go to `<dir>/<stem>.png`, videos to `<dir>/<stem>.mp4`, anything else to no conversion |
| Media.TargetNamed | ios_converter_cli.py:354-357 | `dir / (stem + ext)` lies in `dir`, with that stem and that suffix |
| Discovery.Judge | ios_converter_cli.py:113-145 | a file candidate is found exactly when its path exists; the search-path candidate is found, as `ffmpeg`, exactly when `ffmpeg -version` exits 0, and only an OS error other than a missing program or a timeout escapes as an exception, with its message |
| Discovery.FirstStep | ios_converter_cli.py:111-158 | the first candidate decides the search unless it misses, and then the rest decide |
| Discovery.FoundIsFirstHit | ios_converter_cli.py:111-158 | the search returns a path exactly when some candidate finds it and every earlier candidate misses |
| Discovery.NoneIffAllMiss | ios_converter_cli.py:158 | the search returns None exactly when every candidate misses |
| Discovery.SkipMisses | ios_converter_cli.py:111-156 | candidates that all miss can be skipped without changing the result |
| Discovery.FileProbes | ios_converter_cli.py:148-156 | the installation paths become file candidates, one for one and in order |
| Discovery.FindInstalled | ios_converter_cli.py:147-158 | the loop over the three installation paths returns the first that exists, or None |
| FileTree.Walk | ios_converter_cli.py:393 | `os.walk` is top-down: it visits the root first, with the root's own files, and every later visit lies strictly below the root |
| FileTree.Descend | ios_converter_cli.py:393 | the walks of the sub-directories from one entry on visit only directories strictly below the root |
| FileTree.BelowTransitive | ios_converter_cli.py:393 | a directory strictly below one strictly below the root is strictly below the root |
| FileTree.FileNames | ios_converter_cli.py:393 | `os.walk` reports as files exactly the entries that are not directories |
| FileTree.BelowCases | ios_converter_cli.py:393 | a file lies below a directory exactly when it is one of the directory's own files or lies below one of its sub-directories |
| ConverterCli.FindFfmpeg | ios_converter_cli.py:92-158 | the result is the first-match search, in priority order, over: the bundled copies when frozen; the development copy; `ffmpeg` on the search path; the three installation paths |
| ConverterCli.BundledCopyWins | ios_converter_cli.py:111-116 | a frozen bundle's extracted `ffmpeg.exe` is chosen over every other copy |
| ConverterCli.FfmpegDiagnostic | ios_converter_cli.py:303 | the diagnostic is "Unknown error" for empty stderr, otherwise the last piece of stripped stderr split at newlines; it has no newline, and it is not blank unless stderr is all whitespace |
| ConverterCli.ConvertMovToMp4 | ios_converter_cli.py:261-312 | a missing ffmpeg raises the install message before anything else; an empty name raises ValueError; success happens exactly when the run of the fixed command exits 0, and it returns the output path; a nonzero exit raises "FFmpeg error: " and the diagnostic, a timeout the timeout message, a missing program "FFmpeg not found at: " and the path, and any other OS error propagates |
| ConverterCli.TimeoutIsDistinct | ios_converter_cli.py:301-309 | the timeout message is produced exactly when the run times out |
| ConverterCli.JoinVideoExtensions | ios_converter_cli.py:359-364 | the video extensions joined with `, ` read `.mov, .m4v` |
| ConverterCli.JoinLastThreeExtensions | ios_converter_cli.py:359-364 | the last three supported extensions joined with `, ` read `.heif, .mov, .m4v` |
| ConverterCli.JoinSupportedExtensions | ios_converter_cli.py:359-364 | the supported extensions joined with `, ` read `.heic, .heif, .mov, .m4v` |
| ConverterCli.UnsupportedMessageText | ios_converter_cli.py:359-364 | the unsupported-format message names the suffix and lists `.heic, .heif, .mov, .m4v` |
| ConverterCli.Perform | ios_converter_cli.py:352-364 | no conversion raises the unsupported-format ValueError; an image goes to the image converter and a video to the video converter, each with the routed target as its output, and their result is returned; success returns the routed target |
| ConverterCli.ConvertFile | ios_converter_cli.py:342-364 | a given output directory, and only that, is passed to mkdir before routing; a failure to create it is raised before any conversion; otherwise routing into that directory, or the input's own, decides, the result is that of performing the routed conversion, and success returns the target |
| ConverterCli.NameMatches | ios_converter_cli.py:394-396 | the inner loop keeps only wanted files |
| ConverterCli.NameMatchesFinds | ios_converter_cli.py:394-396 | a path is kept exactly when it is wanted and names one of the listed files |
| ConverterCli.MatchesWanted | ios_converter_cli.py:392-396 | the recursive scan keeps only wanted files |
| ConverterCli.MatchesAppend | ios_converter_cli.py:393-396 | scanning two runs of `os.walk` results one after the other gives the two results concatenated |
| ConverterCli.ShallowMatches | ios_converter_cli.py:398-401 | the non-recursive scan keeps only wanted files |
| ConverterCli.ScanDirectory | ios_converter_cli.py:387-403 | the result is the walk's matches when recursive and the listing's files otherwise, and every file in it is wanted |
| ConverterCli.ScanWalk | ios_converter_cli.py:393-396 | the outer loop collects the matches of every visit, in walk order |
| ConverterCli.ScanNames | ios_converter_cli.py:394-396 | the inner loop collects the wanted names of one visit, in order |
| ConverterCli.ScanListing | ios_converter_cli.py:399-401 | the loop over `iterdir` collects the wanted regular files, in order |
| ConverterCli.DeepScanFinds | ios_converter_cli.py:392-396 | the recursive scan finds exactly the wanted files at any depth below the directory |
| ConverterCli.DescendFinds | ios_converter_cli.py:392-396 | the walks of the sub-directories from one entry on find exactly the wanted files below those sub-directories |
| ConverterCli.ListedInPrefix | ios_converter_cli.py:398-401 | a file is among the first n listed files of the first n entries exactly when it is among the first n listed files of the whole listing |
| ConverterCli.ListedStep | ios_converter_cli.py:398-401 | a file is listed among the first n+1 entries exactly when it is listed among the first n or is entry n |
| ConverterCli.ShallowScanFinds | ios_converter_cli.py:398-401 | the non-recursive scan finds exactly the wanted files that are the directory's own entries |
| ConverterCli.ShallowWithinDeep | tests/test_converter.py:149-161 | every file the non-recursive scan finds, the recursive scan finds too |
| ConverterCli.EmptyDirectoryScan | tests/test_converter.py:178-185 | an empty directory scans to an empty list, recursive or not |
| ConverterCli.MissingFilesFail | ios_converter_cli.py:587-591 | no more files convert than exist |
| ConverterCli.Tally | ios_converter_cli.py:583-602 | every file counts once, as a success or a failure; the successes are the existing files whose conversion returns; conversions are attempted on exactly the existing files, in order |
| ConverterGui.FindFfmpeg | ios_converter.py:38-60 | the result is the first-match search over `ffmpeg` on the search path, then the three installation paths |
| ConverterGui.ConvertHeicToPng | ios_converter.py:62-91 | the result is the shared image decision; "Converting" is sent once the dependencies are present and the output is known, and "Completed" follows exactly on success |
| ConverterGui.ConvertMovToMp4 | ios_converter.py:93-133 | a missing ffmpeg raises before any message; an empty name raises ValueError before any message; success happens exactly when the untimed run exits 0; a nonzero exit raises "Conversion failed: FFmpeg error: " and the whole stderr, and a run that could not start raises "Conversion failed: " and the error's text |
| ConverterGui.ConvertFile | ios_converter.py:135-152 | no directory is created; an unsupported suffix raises "Unsupported format: <ext>" and sends no message; an image's result and messages are those of the window's image converter, and a video's those of its video converter, with the routed target as output; success returns the routed target |
| ConverterGui.AnnouncedKeepsProtocol | ios_converter.py:76-91 | a converter's messages are at most "Converting" then "Completed", with "Completed" only on success |
| ConverterGui.ConvertFileProtocol | ios_converter.py:135-152 | for every input, `convert_file`'s messages follow that protocol |
| ConverterGui.EntryOf | ios_converter.py:158-164 | an entry records its input, and it is a success with the output exactly when the conversion returned; otherwise it holds `str(e)` |
| ConverterGui.Entries | ios_converter.py:154-165 | the list has one entry per input, and entry i depends on input i alone |
| ConverterGui.BatchStep | ios_converter.py:156-164 | one more input adds exactly its entry and its messages |
| ConverterGui.BatchConvert | ios_converter.py:154-165 | the loop returns the entries of every input in order, and the callback receives each item's messages in order, with "Failed" after each error |
| ConverterGui.EntriesWithoutFfmpeg | ios_converter.py:95-97 | without ffmpeg, a video input is recorded with the missing-ffmpeg message whether or not it exists, and an unsupported input with its suffix alone |
| ConverterGui.CompletionIffConverted | ios_converter.py:160-164 | under the protocol, an input's messages include a check-mark completion exactly when its entry is a success |
| ConverterGui.BatchCompletionIffConverted | ios_converter.py:154-165 | in a batch of the window's conversions, an item reports completion exactly when its entry is a success |
| Copies.UnfrozenSearchesAgree | ios_converter.py:38-60 | run as a plain script without the development copy, and with `ffmpeg -version` finishing within the command line's 10 seconds, the command line finds the same ffmpeg as the window |
| Copies.SingleLineDiagnostic | ios_converter_cli.py:303 | a clean single line of stderr is reported unchanged |
| Copies.CliNonzeroExit | ios_converter_cli.py:301-304 | a nonzero exit with a clean one-line stderr raises "FFmpeg error: " followed by that line |
| Copies.NonzeroExitReports | ios_converter.py:123-128 | on the same nonzero exit, the window's error is the command line's error behind "Conversion failed: " |

## Left out

- The Tkinter window `ConverterGUI`, its worker thread and `root.after`
  marshalling are left out. They are user interface and concurrency.
- The window's `_convert_files` tally is left out. It mirrors the
  command-line loop, which Tally models.
- The window's converters are modelled with a callback always present. With
  no callback, the messages are simply not sent.
- argparse, `check_dependencies`, and the printing in `main` and in the
  command-line converters (ios_converter_cli.py:204, 224, 275, 311) are left
  out. They are console reporting. The import-time Pillow and pillow-heif flags are
  the Deps parameter.
- `get_default_output_dir` is left out. It depends on the clock and creates
  a directory.
- build_exe.py is left out. It is a packaging script.
- PurePath.NameSuffix follows the `suffix` rule of CPython 3.12's
  `pathlib`: a name has a suffix when its last dot is at an index i with
  0 < i < len(name) - 1. Older and newer versions differ on names ending in
  a dot.
- PurePath.Render does not check that path components are non-empty.
- Parsing path strings into components is left out. Paths are given as
  values: an anchor and its parts.
- `str()` on a path is written with Windows separators. Every path the scan
  returns is modelled as a path value, not as the string that
  `os.path.join` or `str(item)` builds.
- Text.Lower: lower-cases ASCII letters only. Python's Unicode lower-casing
  is not modelled. It gives the same answer for membership in the four
  ASCII extensions, except for characters that lower-case to more than one
  character.
- Media.EmptyNameMessage is not the exact text pathlib raises for an empty
  name. Only the fact that a ValueError is raised is modelled.
- Pillow's decoding, colour conversion and PNG writing are left out. So are
  ffmpeg's encoding and the file system's contents. Each is an oracle value
  passed in.
- Each conversion sees the world as it is when the batch or loop starts.
  Files written by an earlier conversion do not change later ones.
- Symbolic links, and `os.walk` and `iterdir` errors, are left out. The
  order of a listing is the order of the tree value given.
- `Path.exists()` and `os.path.exists()` are one membership test on the
  rendered path.

