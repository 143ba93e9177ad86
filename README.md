# SAGA algorithm adapter, modelled in Dafny

`SagaAlgorithm.py` wraps one SAGA GIS module as a QGIS Processing algorithm. A plain-text
description file declares the algorithm: its name, the SAGA command name, the group, hardcoded
arguments, parameters, and an optional extent. To run the algorithm, the adapter does three things.
It converts raster inputs that SAGA cannot read into `.sgrd` grids, and it keeps a cache of
those conversions for the whole session. It builds one SAGA command line from the parameter
values. It writes matrix tables and `.prj` sidecar files, and it maps the outputs into the result
dictionary. Before a run, `checkParameterValues` rejects multiband rasters and rasters on
different grids.

The project has these modules:

- `Text` (`text.dfy`): the Python string operations the adapter uses, written on `seq<char>`.
  They are `str.strip`, `lower`, `split`, `join`, `replace`, `startswith`/`endswith`, slicing,
  `os.path.basename`, `os.path.splitext` and `str(int)`. `Text` also has the character filter
  of lines 117 and 362.
- `Types` (`types.dfy`): parameter definitions, Python values, layers, grids, verdicts, the
  exceptions a run can raise (as `Error`), and `Framework`. `Framework` is a record of opaque
  functions, one for each QGIS call the adapter makes.
- `Declaration` (`declaration.dfy`): reading the description file.
- `Export` (`export.dfy`): converting the inputs, and the two export maps.
- `Command` (`command.dfy`): the command line, matrix tables, extent flags, destinations,
  the `RGB Composite` follow-up, the `.prj` sidecars and the result.
- `Validation` (`validation.dfy`): the pre-flight check.
- `Algorithm` (`algorithm.dfy`): the object itself. `SagaAlgorithm` is a class whose fields are
  the declared characteristics, `exportedLayers` and the definitions' `value` attributes.
  `ExportSession` is a class holding the module-global `sessionExportedLayers`. Every loop of
  the modelled code is a loop in a method, and a list comprehension is a recursive function.
  The methods belong to these classes, or are the module-level methods
  `Algorithm.WriteMatrixTable`, `Algorithm.RgbFollowUps`, `Algorithm.WriteProjections` and
  `Command.MapResults`. Each method's `ensures` ties its result and its new state to a
  specification function of the modules above. The properties are proved as lemmas about those
  functions.

A raised exception is modelled as an `Err(Error)` result, not as a precondition. That is how
the model can show which inputs make the code as written fail. A run that fails still changes
state: the session cache, `exportedLayers` and the `value` attributes keep what they held when
the exception was raised, so `Process` returns that state alongside the error.

### Behaviour kept as written

These defects are modelled as the code behaves, each with a lemma that shows it:

- `exportRasterLayer` files its result in `exportedLayers` under the source path (lines 352 and
  366). The `.sdat` and `.sgrd` branches file nothing. The builder looks the entry up under the
  parameter name (line 221). So a raster input whose path is not its parameter's name raises
  `KeyError` (`Command.RasterInputLookupFails`). The lookup is modelled as an error result, not
  a precondition: with a precondition, every raster input would be excluded.
- Line 185 calls `exportRasterLayer` without its `context` argument. A raster multi-layer element
  that is neither `.sdat` nor `.sgrd` therefore raises `TypeError`
  (`Export.RasterListExportRaises`, `Export.RasterListSucceedsOnNative`).
- Line 182 reads `param.value` instead of `layerfile`. The rewrite of an `.sdat` element
  therefore uses whatever `value` the definition object last held. That is the list joined by
  ';' once an earlier element has set it at line 188, or else the previous run's value. With
  neither, the rewrite fails (`Export.RasterListDataFile`). These attributes live on the
  definitions, so they outlast a run.
- In the multi-layer branch of the builder (lines 222-226), a list entry in `exportedLayers`
  raises `TypeError` during the replace loop. Otherwise the flag name is the entry's characters
  joined by `;`, not the parameter name. The branch succeeds only with a single path filed
  under the parameter's own name (`Command.MultipleLayersFlag`, and
  `Algorithm.RunMultipleLayers` for a whole run). The vector export files a list of paths
  under that name, so, given distinct parameter names, a vector multi-layer input fails.
- String parameters are caught by the branch at line 261 and resolved with `parameterAsFile`.
  The branch at line 263 only ever handles field parameters (`Command.StringResolvedAsFile`).
- `checkParameterValues` indexes `parameters` directly at lines 379 and 382. An absent raster
  input or raster multi-layer input raises `KeyError` once the check reaches it
  (`Validation.MissingRasterRaises`). A string value of a raster multi-layer input is iterated
  one character at a time at line 384 (`Validation.StringFilesAreChars`).

## Model

| member | source | states |
|---|---|---|
| Text.KeepValid | SagaAlgorithm.py:115-117 | the filtered name is no longer than the input, and each of its characters is in `[A-Za-z0-9:]` and comes from the input |
| Text.KeepValidAppend | SagaAlgorithm.py:361-362 | filtering a concatenation filters each part and concatenates, so the kept characters stay in input order |
| Text.KeepValidCounts | SagaAlgorithm.py:361-362 | each valid character occurs as often in the result as in the input; invalid characters never occur |
| Text.KeepValidIdentity | SagaAlgorithm.py:361-362 | a name made only of valid characters passes through unchanged |
| Text.Basename | SagaAlgorithm.py:360 | the base name is all the text after the last '/': it contains no '/', is a suffix of the path, and is the whole path or follows a '/' |
| Text.SplitExtParts | SagaAlgorithm.py:303 | the stem and the extension put back together give the path; the extension is empty or a dot followed by text with no dot or '/'; and there is an extension exactly when the base name has a dot after some character that is not a dot, so the extension starts at the last dot and leading dots stay in the stem |
| Declaration.AlgorithmName | SagaAlgorithm.py:114-117 | the algorithm name holds only `[a-z0-9:]`: valid characters and no capitals |
| Declaration.CommandNameOfHeader | SagaAlgorithm.py:101-109 | with a vertical bar, the SAGA name is the text between the first bar and the next one (or the end); without a bar, it is the whole first line |
| Declaration.ParseName | SagaAlgorithm.py:100-117 | the name is the decorated part before the first vertical bar, lower-cased and filtered, and holds only valid non-capital characters |
| Declaration.ParseHardcoded | SagaAlgorithm.py:122-125 | the hardcoded strings are the texts after the `Hardcoded` prefix and its bar, of the directive lines, in file order |
| Declaration.ParseAllowUnmatching | SagaAlgorithm.py:128-129 | mismatched grids are allowed exactly when some directive line reads as `AllowUnmatching` |
| Declaration.ParseParams | SagaAlgorithm.py:123-138 | the definitions are, in file order, `getParameterFromString(line)` for each parameter line and one `OUTPUT_EXTENT` extent definition for each `Extent` line |
| Declaration.ParseExtent | SagaAlgorithm.py:123-138 | the extent names are unset exactly when no directive line is an `Extent` line, and otherwise are the names of the last `Extent` line |
| Declaration.TwoExtentLines | SagaAlgorithm.py:130-134 | two `Extent` lines add two extent definitions and the second line's names replace the first's |
| Declaration.ParseStopsAtBlank | SagaAlgorithm.py:122-138 | nothing after the first blank directive line affects the result |
| Declaration.DirectiveLinesAgree | SagaAlgorithm.py:122-123 | two files that agree up to a blank line give the same directive lines |
| Export.SafeBaseName | SagaAlgorithm.py:361-364 | the base name is never empty and holds only valid characters; when the input has a valid character, it is exactly the filtered input |
| Export.SafeBaseNameFallback | SagaAlgorithm.py:363-364 | a name with no valid character becomes `layer` |
| Export.CacheHit | SagaAlgorithm.py:349-353 | no command is returned exactly when the session cache holds the source and its file exists; the cached path is then filed for the run and the cache is unchanged |
| Export.FreshExport | SagaAlgorithm.py:354-368 | on a miss or a stale entry, the session cache maps the source to the `<sanitised>.sgrd` temporary destination, its other keys keep their files, and the `io_gdal` command is returned |
| Export.FreshExportRecorded | SagaAlgorithm.py:358-366 | on a miss, `exportedLayers` files the same fresh destination under the source and keeps every other entry |
| Export.StaleEntryReexported | SagaAlgorithm.py:351-355 | a cached path whose file is gone yields a new export command |
| Export.SecondExportReuses | SagaAlgorithm.py:349-368 | once the converted file exists, a second request for the same source gives no command and reuses the path |
| Export.NativeRasterUntouched | SagaAlgorithm.py:155 | a raster value ending `sgrd` changes nothing and emits no command |
| Export.DataFileRewritten | SagaAlgorithm.py:153-154 | a raster value ending `sdat` becomes the same prefix with `sgrd`, and nothing else in the state changes |
| Export.UnsuppliedSkipped | SagaAlgorithm.py:151-152 | an absent or None input changes nothing |
| Export.RasterListExportRaises | SagaAlgorithm.py:180-185 | in a list of paths, the first element that is neither `.sdat` nor `.sgrd` raises the missing-argument error, once the loop reaches it |
| Export.RasterListSucceedsOnNative | SagaAlgorithm.py:180-188 | the raster list loop gets through only when every element is a path ending `sdat` or `sgrd` |
| Export.RasterListDataFile | SagaAlgorithm.py:181-188 | in `.sgrd` paths with one `.sdat` path at any position, that element becomes the `value` attribute cut by four characters plus `sgrd`: the previous run's attribute, or the list joined by ';' once an earlier element set it; without either, the loop raises; the joined list is all the loop leaves behind |
| Export.CommandsOnlyGrow | SagaAlgorithm.py:149-207 | the export loop only appends to the command list |
| Export.ParamCommandsGrow | SagaAlgorithm.py:150-158 | one definition adds at most one command and keeps the earlier ones |
| Export.ExportFromKeepsKeys | SagaAlgorithm.py:142-207 | every key the export loop files in `exportedLayers` is listed in the dict's insertion order |
| Command.MatrixTableDefined | SagaAlgorithm.py:236-238 | the table can be written exactly when the number of values is a multiple of three |
| Command.MatrixRoundTrip | SagaAlgorithm.py:233-239 | for cells without tabs or newlines, reading the table back gives the headers, then the values in rows of three |
| Command.MatrixExample | SagaAlgorithm.py:234-238 | headers A, B, C with six values give `A\tB\tC\n1\t2\t3\n4\t5\t6\n` |
| Command.ExtentOffset | SagaAlgorithm.py:241-256 | the four flags use the declared names in order with xmin+h, ymin-h, xmax+h, ymax-h for h = cellsize/2; the box keeps its size; cell size 0 leaves the corners unchanged |
| Command.UnsuppliedAddsNothing | SagaAlgorithm.py:213-217 | absent, None and destination parameters add nothing |
| Command.StringResolvedAsFile | SagaAlgorithm.py:261-264 | a supplied string parameter gives ` -NAME "<parameterAsFile>"` because the branch at line 261 catches it; a field parameter gives ` -NAME "<parameterAsString>"` |
| Command.MultipleLayersFlag | SagaAlgorithm.py:222-226 | the multi-layer branch succeeds only with a single path under the parameter's name, and the flag is then that path's characters joined by ';' |
| Command.CommandShape | SagaAlgorithm.py:210-275 | the command starts with `group "cmdname" hardcoded...`, ends with one ` -NAME "file"` per destination in definition order, and the output files are keyed by exactly the destination names |
| Command.AppendDestinationsText | SagaAlgorithm.py:266-275 | the destination loop appends exactly the ` -NAME "file"` flags of the destinations, in definition order |
| Command.AppendDestinationsKeys | SagaAlgorithm.py:268-274 | the destination loop adds one output file for each destination name and no other key |
| Command.RasterInputNotRecorded | SagaAlgorithm.py:150-158 | the export step of a raster input whose path is not its parameter's name succeeds and files nothing under that name |
| Command.RasterFragmentMissing | SagaAlgorithm.py:219-221 | a raster input without an entry under its name raises `KeyError` in the builder |
| Command.RasterInputLookupFails | SagaAlgorithm.py:150-158 | a raster input whose path is not its parameter's name passes the export step but leaves no entry under the name, so the builder raises `KeyError` |
| Command.RgbCommandsBound | SagaAlgorithm.py:279-287 | only `RGB Composite` gets follow-ups, and at most one per definition |
| Command.RgbCommandsFromDestinations | SagaAlgorithm.py:281-287 | each follow-up is the `io_grid_image` command of some raster destination |
| Command.PrjWrites | SagaAlgorithm.py:301-305 | with a crs, each layer output gets a sidecar at its path minus the extension plus `.prj`, holding the crs; without one, no sidecar is written |
| Command.MapResults | SagaAlgorithm.py:307-311 | the result maps exactly the declared outputs that have an output file, each to that file |
| Validation.CheckAccepts | SagaAlgorithm.py:370-398 | when every definition's files can be looked up, the check passes to the base class exactly when no resolved raster has more than one band and, unless mismatches are allowed, all resolved rasters share one grid |
| Validation.ScanDefsFlat | SagaAlgorithm.py:376-384 | checking definition by definition is the same as checking the flat list of their files |
| Validation.ScanFilesPasses | SagaAlgorithm.py:384-397 | the file scan runs to the end exactly when the files pass, from any grid already seen |
| Validation.MultibandNamesLayer | SagaAlgorithm.py:388-390 | a multiband rejection names a resolved layer that has more than one band |
| Validation.AllowedNeverMismatch | SagaAlgorithm.py:391-397 | with `AllowUnmatching`, the check never rejects for mismatched grids |
| Validation.MissingRasterRaises | SagaAlgorithm.py:376-382 | the check raises `KeyError` for an absent raster input or raster multi-layer input, once the definitions before it have been scanned without a rejection |
| Validation.StringFilesAreChars | SagaAlgorithm.py:380-385 | a string value of a raster multi-layer input yields one file per character, each the one-character string |
| Algorithm.RunCommands | SagaAlgorithm.py:141-290 | without an `editCommands` hook, SAGA gets the export commands, then the main command (which starts with the header), then only `RGB Composite`'s follow-ups |
| Algorithm.RunMultipleLayers | SagaAlgorithm.py:173-226 | a run that gets through the builder has a single path filed under the own name of each supplied multi-layer input, so a vector multi-layer input fails the run |
| Algorithm.RunResultKeys | SagaAlgorithm.py:266-311 | the result maps exactly the declared outputs that are destinations, each to the framework's output file for it |
| Algorithm.DestinationFiles | SagaAlgorithm.py:268-274 | each output file is the framework's file for its destination |
| Algorithm.WriteProjections | SagaAlgorithm.py:301-305 | the sidecar writes are those of `PrjWrites` |
| Algorithm.WriteMatrixTable | SagaAlgorithm.py:234-239 | the stride-three loop writes exactly `Command.MatrixTable`'s text, and stops where an incomplete row raises |
| Algorithm.RgbFollowUps | SagaAlgorithm.py:279-287 | the follow-ups are `Command.RgbCommands`' |
| Algorithm.ExportSession.constructor | SagaAlgorithm.py:60 | the session cache starts empty |
| Algorithm.SagaAlgorithm.constructor | SagaAlgorithm.py:66-76 | a new object holds the parsed description file, no exported layers and no `value` attributes |
| Algorithm.SagaAlgorithm.DefineCharacteristicsFromFile | SagaAlgorithm.py:98-138 | the header lines set the name, command name and group, and the directive loop up to the first blank line appends to what the object holds; the export state is unchanged |
| Algorithm.SagaAlgorithm.ReadHeader | SagaAlgorithm.py:100-120 | the first two lines set the name, the SAGA command name and the group as `Declaration.WithHeader` says, and nothing else |
| Algorithm.SagaAlgorithm.ReadDirectiveLines | SagaAlgorithm.py:122-138 | the directive loop applies each line up to the first blank one, as `Declaration.ApplyAll` over `Declaration.DirectiveLines` says |
| Algorithm.SagaAlgorithm.ApplyDirective | SagaAlgorithm.py:124-137 | one directive line updates the characteristics as `Declaration.Apply` says |
| Algorithm.SagaAlgorithm.ExportRasterLayer | SagaAlgorithm.py:347-368 | both maps and the returned command end up as `Export.ExportRaster` gives them; the characteristics are unchanged |
| Algorithm.SagaAlgorithm.ConvertRasterInput | SagaAlgorithm.py:153-158 | a raster path is renamed, kept or exported as `Export.ExportRasterInput` says |
| Algorithm.SagaAlgorithm.ExportRasterList | SagaAlgorithm.py:180-188 | the element loop ends in the state and exception of `Export.ExportRasterElems` |
| Algorithm.SagaAlgorithm.RasterListPass | SagaAlgorithm.py:181-188 | one element: a non-string, an unrenamable `.sdat`, a non-grid path or an unjoinable list raises as `Export.ExportRasterElems` does; otherwise the `value` attribute becomes the joined list and the loop goes on from the next element |
| Algorithm.SagaAlgorithm.ExportVectorList | SagaAlgorithm.py:190-207 | the element loop ends in the state and exception of `Export.ExportVectorElems` |
| Algorithm.SagaAlgorithm.ExportParameter | SagaAlgorithm.py:149-207 | one definition's export ends in the state and exception of `Export.ExportParam` |
| Algorithm.SagaAlgorithm.ExportInputs | SagaAlgorithm.py:141-207 | the export loop starts from an empty `exportedLayers` and stops at the first exception, as `Export.ExportFrom` says |
| Algorithm.SagaAlgorithm.GetOutputCellsize | SagaAlgorithm.py:334-345 | the cell size is the `USER_SIZE` value when such a definition exists and is a key of the parameters, else 0 |
| Algorithm.SagaAlgorithm.ReplaceExported | SagaAlgorithm.py:224-225 | each key of `exportedLayers` is replaced in insertion order, as `Command.ReplaceKeys` says |
| Algorithm.SagaAlgorithm.ExtentArguments | SagaAlgorithm.py:241-256 | the extent flags are `Command.ExtentFlags` of the offset corners, or an error when fewer than four names were declared |
| Algorithm.SagaAlgorithm.ParameterArguments | SagaAlgorithm.py:213-264 | one parameter's arguments and table file are `Command.Fragment`'s |
| Algorithm.SagaAlgorithm.BuildCommandLine | SagaAlgorithm.py:209-275 | the command, tables, layer outputs and output files are `Command.BuildCommand`'s |
| Algorithm.SagaAlgorithm.ProcessAlgorithm | SagaAlgorithm.py:140-311 | the result, `exportedLayers`, the session cache and the `value` attributes end up as `Algorithm.Process` gives them, on success and on failure |
| Algorithm.SagaAlgorithm.CheckParameterValues | SagaAlgorithm.py:370-398 | the verdict or exception is `Validation.Check`'s |

## Left out

- QGIS framework calls are opaque functions in `Types.Framework`: `parameterAs*`,
  `parameterAsCompatibleSourceLayerPath`, `mapLayerFromString`, `generateTempFilename`,
  `getTempFilename`, `getCompatibleFileName` and `sourceCrs().toWkt()`. The base class's
  `checkParameterValues` is there as its verdict.
- `os.path.exists` is a set of existing paths given to each call. Writing the matrix and `.prj`
  files is modelled by the texts written (`FileWrite`), not as I/O. When a matrix has an
  incomplete row, the source has already written the header to the file before it raises. The
  model records no write for that table.
- A failed run records no file writes: `Algorithm.Process` returns the error without the
  `FileWrite`s made so far. The source has by then already written the table of every matrix
  parameter that comes before the one that raises (lines 234-239), for instance before the
  `KeyError` of a later raster input at line 221.
- `Framework.asMatrix` gives a list of strings, so the `TypeError` that line 238 raises when a
  matrix value holds a non-string cell (a list such as `[1, 2, 3]`) is not modelled; nor is
  the partial table written before it.
- Running SAGA is left out: the batch job file, `executeSaga`, `feedback`, the message log and
  `ProcessingConfig` (lines 291-299). These are process and log plumbing.
- `preProcessInputs` (lines 313-322) imports an extension module by name. It is left out, so
  runs are modelled with no such hook. `editCommands` (lines 324-332) is the `editCommands`
  function of `Framework`.
- `tr`, `decoratedGroupName` and the display name are left out because they only affect text
  shown to the user. `decoratedAlgorithmName` and `getParameterFromString` are functions given
  to the parser. A parameter line becomes whatever definition that function returns.
- `str(float)` at lines 256 and 258 is the `realText` function of `Framework`. The offset
  arithmetic is done on `real`, not on IEEE doubles.
- The message texts of `checkParameterValues` are not modelled: a rejection carries a `Reason`
  (the layer name for a multiband layer) instead of translated text.
- `Text.Lower` lower-cases ASCII capitals and two non-ASCII letters whose lower case contains
  an ASCII letter: U+0130 becomes "i" followed by U+0307, and U+212A becomes "k". Python's full
  Unicode lower-casing of other letters is not modelled, because the filter after it keeps only
  ASCII anyway.
- Paths are POSIX paths: `Basename` and `StemPath` split at '/' only.
- Line 154 writes the rewritten path into the caller's `parameters` dictionary. The model
  returns the changed dictionary from the export step instead, and the caller's copy is not
  modelled.
- Line 381 reads `param.datatype`. The model reads it as the multi-layer parameter's layer type.
- A vector list element's crs and compatible path are resolved by the framework from the element
  itself. `deepcopy(parameters)` at line 190 only feeds those framework calls, so it is not
  modelled.
- `crs` is a local of `processAlgorithm`, assigned at lines 165 and 196. As written, line 163 or
  194 raises `UnboundLocalError` at the first vector input, and line 301 raises it on every run
  that gets that far, so `processAlgorithm` never returns a result. The model starts `crs` as
  `None` instead: the first vector input sets it, later ones leave it alone, and line 301 writes
  sidecars only when it was set. No lemma shows the as-written failure.
- `generateTempFilename` is `tempName` in `Framework`, a function of the base name alone. So in
  the model two sources with the same sanitised name get the same temporary file, while QGIS
  makes a new file on each call. No proved property depends on this.
- Values are a small Python value type (None, string, list, other). A value of another type in
  a place that needs a string raises the corresponding error. Python's exact exception class is
  kept only as the `Error` constructor.
- `createInstance`, `initAlgorithm`, `name`, `displayName`, `group` and `shortHelpString`
  (lines 78-96) are accessors and framework registration, and are left out.
- Command.RgbCommandsFromDestinations: states that each follow-up belongs to some raster
  destination, and `Command.RgbCommandsBound` that there are none for other commands. The count
  and order of follow-ups are stated only through `Algorithm.RgbFollowUps`, which equals
  `Command.RgbCommands`.
