# svg2png converter core in Dafny

This project models the core of `SVGToPNGConverter`, a batch tool that walks
an input directory tree, picks out the SVG files, and renders each one to
PNG files of several square sizes. The PNGs go into an output tree that
mirrors the input tree. A PNG is re-rendered only when it is missing or not
strictly newer than its SVG. Six counters record the run: files scanned,
SVG files found, files converted, non-SVG files skipped, errors, and PNG
files created.

The model is imperative, as the program is:

- `Converter.Stats` is the statistics dictionary, a class with six fields.
- `Converter.SvgToPngConverter` holds the configuration, the statistics and
  a ghost log of every rasterizer call.
- Its methods `FindSvgFiles` and `ConvertFiles` are loops with invariants.
  `ConvertFiles`'s nested loops are split into `ConvertAll` (over files),
  `ConvertFile` (one file, with its exception handler) and `ConvertSizes`
  (over sizes).

Each method is proved against a specification. `FindSvgFiles` follows
`Discovery.SvgPaths` and `Discovery.SkippedCount`. `CheckSizes` states its
result through `Sizes.InRange`. The conversion methods follow `SizesTally`,
`FileTally` and `FilesTally` in `Accounting`. Lemmas prove what those
functions promise.

The world around the converter is made of parameters:

- The directory walk is a sequence of `Entry(root, name)` in visit order.
- The file system is a snapshot from path to modification time; a path is
  present exactly when the file exists.
- Whether the input directory exists is a flag.
- The rasterizer is an oracle `(svg, png, size) -> bool` that answers
  whether the PNG was written.

Paths are sequences of components, so joining paths is concatenation and
`relative_to` strips a prefix.

Modules:

- `Text`: ASCII lower-casing, character search, and decimal rendering and
  parsing of sizes.
- `Naming`: the SVG test, the pathlib stem, PNG names and output paths.
- `Staleness`: the up-to-date test.
- `Sizes`: the default sizes and the command-line range check.
- `Discovery`: the file scan as functions.
- `Accounting`: the per-size and per-file bookkeeping as functions, and
  lemmas about them.
- `Converter`: the classes and `RunMain`.

## Model

| member | source | states |
|---|---|---|
| Sizes.DefaultSizes | conv.py:22 | A missing or empty size list becomes [1024, 256, 128]; any other list is kept as given; the result is never empty |
| Sizes.DefaultSizesInRange | conv.py:167-177 | Every default size passes the command-line range check |
| Converter.Stats.constructor | conv.py:26-33 | All six counters start at zero |
| Converter.SvgToPngConverter.constructor | conv.py:18-33 | Keeps both directories, sets the sizes to the defaulted list (never empty), gives a fresh statistics object with six zero counters, and starts with no rasterizer calls |
| Naming.IsSvgName | conv.py:70 | A file name is an SVG when its lower-cased form ends in `.svg`; `IsSvgNameChars` restates this character by character |
| Naming.IsSvgNameChars | conv.py:70 | A name is an SVG exactly when it ends in a dot followed by s, v and g, each in either case |
| Naming.Stem | conv.py:100 | The stem is a prefix of the file name |
| Naming.SvgStem | conv.py:100 | The stem of `x.svg` is `x`; the name `.svg` alone is its own stem (pathlib treats a leading dot as part of the name) |
| Naming.SvgStemIgnoresExtensionCase | conv.py:70-100 | Two SVG names that differ only in the case of the extension get the same stem, so they share output paths |
| Naming.RelativeTo | conv.py:98 | Succeeds exactly when the input root is a prefix of the path, and the root followed by the result is the path |
| Text.NatDecimalDigits | conv.py:107 | The decimal form of a size is all digits, with no leading zero unless the number is zero |
| Text.NatDecimalRoundTrip | conv.py:107 | Reading back the decimal form of a natural number gives the number |
| Text.IntDecimalChars | conv.py:107 | The decimal form of any integer is digits, optionally after a leading minus sign |
| Text.IntDecimalRoundTrip | conv.py:107 | Parsing the decimal form of any integer (negative included) gives the integer |
| Naming.DecimalHasNoSeparators | conv.py:107 | The decimal form of a size contains no `_`, `x` or `.`, so it cannot be confused with the name's separators |
| Naming.ParseDimensionsRoundTrip | conv.py:107 | The `NxN` part of a PNG name reads back as the size |
| Naming.ParseStemAndSizeRoundTrip | conv.py:107 | A PNG name without `.png` splits at its last underscore back into the stem and the size |
| Naming.PngFileName | conv.py:107 | The PNG file name is the stem, `_`, the size, `x`, the size and `.png`; `PngFileNameRoundTrip` and `PngFileNameInjective` show the name gives back the stem and the size |
| Naming.PngFileNameRoundTrip | conv.py:107 | Parsing a PNG file name gives back the stem and the size it was made from |
| Naming.PngFileNameInjective | conv.py:107 | Different (stem, size) pairs never get the same PNG file name |
| Naming.OutputPath | conv.py:108 | The PNG path is the output root, then the relative directory, then the PNG file name; `OutputPathLayout` and `OutputPathInjective` characterise it |
| Naming.OutputPathLayout | conv.py:107-108 | The PNG path is rooted at the output directory, continues with the source's relative directory, and ends in a name that starts with `stem_` and ends in `.png` |
| Naming.SizeOnlyChangesSuffix | conv.py:106-108 | The sizes of one file write to the same directory under the same `stem_` prefix, and two sizes share a path exactly when they are equal |
| Naming.OutputPathInjective | conv.py:98-108 | Under one output root, the PNG path determines the relative directory, the stem and the size |
| Discovery.SvgPaths | conv.py:62-77 | The SVG paths the scan returns never outnumber the files it visits |
| Discovery.DiscoveryComplete | conv.py:65-75 | Every visited file is counted exactly once, as an SVG or as skipped |
| Discovery.SvgPathsAppend | conv.py:65-71 | The scan of two walks in sequence is the scan of the first followed by the scan of the second, so the visit order is kept |
| Discovery.SvgPathsMembership | conv.py:65-71 | A path is returned exactly when some visited file has an SVG name and that full path |
| Discovery.DiscoveredUnderRoot | conv.py:65-71 | When every walked directory lies under the input root, so does every returned path |
| Converter.SvgToPngConverter.FindSvgFiles | conv.py:62-77 | Returns the SVG paths in walk order. Adds the number of files to `total_files`, the number of SVGs to `svg_files` and the rest to `skipped`, keeping the scan counters consistent and leaving the conversion counters alone |
| Staleness.Decide | conv.py:112 | A (file, size) pair is skipped exactly when the PNG exists and is strictly newer than the SVG. It is converted exactly when the PNG is missing, or the SVG exists and is not older than the PNG. It fails (the SVG's `stat` raises) exactly when the PNG exists and the SVG does not |
| Accounting.JobFor | conv.py:98-101 | For a path under the input root, gives the job for that same SVG; gives none (`relative_to` raises) exactly when the path is not under the input root |
| Accounting.DiscoveredJob | conv.py:98-108 | A file found under the input root gets, for each size, the PNG path that mirrors its directory under the output root and uses its stem |
| Accounting.DiscoveredJobsExist | conv.py:65-98 | When the walk stays under the input root, `relative_to` never raises for a discovered file |
| Accounting.Successes | conv.py:118-119 | Successful rasterizer calls never outnumber the calls made |
| Accounting.SuccessesAppend | conv.py:118-119 | The successes of two call sequences in a row add up |
| Accounting.SizeStep | conv.py:107-123 | One pass of the size loop: a `stat` failure ends the loop, an up-to-date PNG changes nothing, otherwise the rasterizer is called and its answer adds to `png_files_created` and `file_converted` or to `file_errors`; `SizesTallyStep` connects it to the loop |
| Accounting.SizesTally | conv.py:106-123 | The size loop over the configured sizes in order, stopping at the first exception; `SizesTallyAccounting`, `SizesTallyAborts` and `SizesTallyCalls` characterise it |
| Accounting.SizesTallyStep | conv.py:106-123 | One more size extends the size loop by one step, unless an exception already ended it |
| Accounting.SizesTallyAbortSticky | conv.py:112-132 | Once an exception has left the size loop, later sizes change nothing |
| Accounting.SizesTallyAccounting | conv.py:103-123 | Each call of the size loop succeeds or fails. Successes are what `png_files_created` gains, failures are `file_errors`, and `file_converted` holds exactly when some call succeeded |
| Accounting.SizesTallyAborts | conv.py:112 | The size loop is left by an exception exactly when some size finds the PNG present and the SVG missing |
| Accounting.SizesTallyCalls | conv.py:106-118 | Every rasterizer call is for this SVG, a configured size and its PNG, and was asked for by the staleness test. Unless the loop aborted, every (size, PNG) pair that the test sends to conversion is called |
| Accounting.ForcedReconversion | conv.py:106-118 | When no output is up to date in the snapshot and every test can be decided, every entry of the size list gets its own rasterizer call, in the configured order (a repeated size is called again; see Left out) |
| Accounting.AllSizesSkipped | conv.py:112-114 | When every output of a file is up to date its size loop makes no call and changes nothing |
| Accounting.FileTally | conv.py:97-132 | One file's `try`: no counters but one error when `relative_to` raises, one error and the earlier successes when `stat` raises, otherwise the size loop followed by the `converted` and `errors` tests; `FileTallyOutcome` characterises it |
| Accounting.FileTallyOutcome | conv.py:103-132 | A file counts as converted at most once, exactly when it did not abort and some size succeeded. It counts as an error at most once, exactly when it aborted or every size was tried and failed. It never counts as both, and `png_files_created` gains its successful calls, including those before an abort |
| Accounting.SkippedAndFailedCountsNeither | conv.py:125-128 | A file whose sizes were partly skipped and otherwise all failed counts neither as converted nor as an error |
| Accounting.FilesTally | conv.py:96-132 | The file loop: the sum of the files' tallies in discovery order; `FilesTallyBounds` and `FilesTallyAppend` characterise it |
| Accounting.FilesTallyStep | conv.py:96-132 | One more file extends the run by that file's own tally |
| Accounting.FilesTallyBounds | conv.py:96-132 | `converted` plus `errors` never exceeds the number of files, and `png_files_created` is the number of successful rasterizer calls |
| Accounting.FilesTallyAppend | conv.py:96-132 | Files are handled independently: the counters of a run over two file lists in a row are the sums of the two runs |
| Accounting.UpToDateFileDoesNothing | conv.py:106-128 | A file whose outputs are all up to date adds nothing to any counter and makes no call |
| Accounting.UpToDateRunDoesNothing | conv.py:96-132 | A second run over up-to-date outputs makes no rasterizer call and leaves `converted`, `errors` and `png_files_created` unchanged |
| Converter.SvgToPngConverter.ConvertSizes | conv.py:103-123 | The size loop of one file returns `file_converted`, `file_errors` and whether it was left by an exception, as the size-loop specification gives them. It adds that specification's successes to `png_files_created` and its calls to the log |
| Converter.SvgToPngConverter.ConvertFile | conv.py:97-132 | One file, with its exception handler, adds exactly that file's tally to `converted`, `errors`, `png_files_created` and the call log |
| Converter.SvgToPngConverter.ConvertAll | conv.py:96-132 | The file loop adds the run's tally over all discovered files, in order |
| Converter.SvgToPngConverter.ConvertFiles | conv.py:79-132 | A missing input directory raises and changes nothing. Otherwise the scan counters gain the scan's counts and the conversion counters gain the tally of the discovered files. With no SVG files the conversion counters and the call log are unchanged |
| Sizes.CheckSizes | conv.py:174-177 | Reports no size exactly when every size lies in [1, 4096]; otherwise reports the first size outside that range |
| Converter.RunMain | conv.py:172-196 | Exits with 1 exactly when a size is out of range or the input directory is missing, and builds no converter for a bad size. On exit 0 the converter holds the defaulted sizes, scan counters counted from zero that classify every file, and conversion counters equal to the tally of the discovered files |

## Left out

- Logging, `setup_logging`, `print_summary` and the run timer: they only report, and none of them changes a counter.
- Argument parsing and the log level: `RunMain` takes the parsed directories and sizes.
- The import guard at the top of the module (exit when cairosvg is missing): it runs before any converter exists.
- cairosvg's rendering: the rasterizer is an oracle, so which SVGs render is a parameter. `convert_svg_to_png` catches every rendering exception and reports failure, and the oracle's `false` stands for that.
- Directory creation, both for the output root and for each PNG's parent: it is assumed to succeed. A failure would raise; it would count as one error for the file, or end the run when it happens for the output root.
- The file system is a snapshot taken before the run, so a PNG written during the run is not seen by later up-to-date tests. The program sees it, and usually skips a second write to the same path because the PNG just written is newer than its SVG. The model renders it again and counts it again. This happens in three cases:
  - a size given twice, such as `--sizes 128 128`, which the range check accepts: the program creates one PNG for the pair, the model two;
  - two sources whose names differ only in the case of the extension, as `a.svg` and `a.SVG` in one directory (`Naming.SvgStemIgnoresExtensionCase`);
  - the names `.svg` and `.svg.svg` in one directory, which both have the stem `.svg`.
- Modification times are integers rather than floating-point seconds.
- Lower-casing covers ASCII only, which is what the `.svg` comparison depends on. The full Unicode case mapping is not modelled.
- Path normalisation (`.` components, redundant separators, symbolic links) is not modelled. Paths are component sequences, and `relative_to` is a prefix test.
- The directory walk is given. Its traversal order and its silent skipping of unreadable directories are whatever the `Entry` sequence contains.
- The existence of the input directory is a flag, not read from the snapshot.
- Exceptions other than a failing `relative_to` and the SVG's failing `stat` are not modelled; permission errors while stat'ing the PNG are one example.
- Accounting.ForcedReconversion: counts one call per entry of the size list, not one per distinct PNG, because of the snapshot above.
- Accounting.UpToDateRunDoesNothing: requires at least one size. With an empty list every file would count as an error, because it would have as many failures as sizes; the constructor's defaulting rules that case out.
- Call log: the rasterizer calls are recorded in the ghost field `calls`, which the program does not have. Only the contracts use it.
