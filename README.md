# workbox-rspack-plugin, modelled in Dafny

This project models the bookkeeping and string logic of the two service-worker plugins of
workbox-rspack-plugin, and proves properties of that model.

`InjectManifest` works like this:
- It takes the compiler's `mode` and derives a default `swDest` from `swSrc`.
- It validates its options and relativises `swDest` against the output directory.
- It records `swDest` in the module registry of generated asset names.
- It warns when the same instance's `addAssets` runs again.
- It appends an exclude rule that rejects every registered name.
- It checks that the injection point occurs exactly once in the service worker.
- It optionally turns the double quotes of the serialised manifest into single ones.
- It puts the manifest where the injection point was.

`GenerateSW` does the same repeat check, with an exact test on `Error` objects. It works on a
validated copy of its options. It merges the chunks named in `importScriptsViaChunks` into
`excludeChunks` and `importScripts`. It emits the bundled files and records each of their names in
its own registry, which is separate from the InjectManifest one.

The shared helpers are:
- `getScriptFilesForChunks`: the ordered, de-duplicated ".js" URLs of named chunks, plus warnings.
- `extractMessage`: strips the host's box rule, then does a lazy capture after "⚠ Error: ".
- `relativeToOutputPath`: relativises an absolute `swDest` and passes any other one through.

Layout:
- `wrappers.dfy`: `Option` and `Outcome`.
- `text.dfy`: the runtime string operations used, each as a function with its laws. These are
  `indexOf`, the global match count, `replaceAll`, `split` and `join`.
- `paths.dfy`: POSIX path resolution, normalisation, relativisation, `extname` and
  `parse().name`, plus `relativeToOutputPath`.
- `host.dfy`: the compilation object as a class. It has its options, chunks and warnings, the
  asset map and the file dependencies.
- `extract_message.dfy`, `script_files.dfy`, `injection.dfy` and `exclude.dfy`: the helpers.
- `inject_manifest.dfy` and `generate_sw.dfy`: the plugin classes. Each has its own
  `GeneratedAssetNames` registry class.

Parameters stand in for the world outside the code:
- The working directory that pathe's `resolve` falls back to is `Compilation.cwd`.
- Reading an entry of `compilation.warnings` back is `Compilation.render`, a function from the
  message of a pushed `Error` to what the plugins see.
- Library calls are function-valued fields of a `Dependencies` value. These are the validators,
  the manifest extractor with the serialiser, `getSourcemapAssetName`,
  `replaceAndUpdateSourceMap`, `populateSWTemplate` with `bundle`, and `resolveWebpackURL`.

JavaScript details kept explicit:
- A non-null assertion on an absent value fails with `TypeError`.
- An empty `importScriptsViaChunks` array still counts as present.
- An empty injection point matches once at every position.
- `extractMessage` returns `undefined` for an empty capture.

## Model

| member | source | states |
|---|---|---|
| Text.IndexOf | src/inject-manifest.ts:319 | the result is the leftmost occurrence at or after the start; `None` exactly when there is none |
| Text.CountMatches | src/inject-manifest.ts:269-270 | an empty pattern matches length+1 times; a non-empty one matches zero times exactly when it does not occur |
| Text.TwoOccurrencesCountTwice | src/inject-manifest.ts:269-275 | two non-overlapping occurrences give at least two matches |
| Text.UniqueOccurrenceCountsOnce | src/inject-manifest.ts:269-275 | a pattern occurring at one position only is matched once |
| Text.CountOnceLocates | src/inject-manifest.ts:269-275 | one match means a leftmost occurrence with no occurrence starting after its end |
| Text.ReplaceAll | src/lib/extract-message.ts:2 | definition of `replaceAll` with a literal pattern: one left-to-right scan, each occurrence met replaced, the scan resuming after it (properties: the four `ReplaceAll…` lemmas) |
| Text.ReplaceAllNoOccurrence | src/lib/extract-message.ts:2 | text without the pattern is unchanged by `replaceAll` |
| Text.ReplaceAllSkipsPrefix | src/lib/extract-message.ts:2 | a prefix free of the pattern's first character passes through `replaceAll` unchanged |
| Text.ReplaceAllAtFront | src/lib/extract-message.ts:2 | an occurrence at the front is replaced and the scan resumes after it |
| Text.ReplaceAllByNothingKeepsChars | src/lib/extract-message.ts:2 | deleting occurrences introduces no new character |
| Text.Split | src/lib/relative-to-output-path.ts:15-17 | `split` on one character: at least one piece, and no piece holds the separator |
| Text.Join | src/lib/get-script-files-for-chunks.ts:36 | definition of `join`: the pieces with the separator between them (properties: `JoinSplit`, `SplitJoin`) |
| Text.JoinSplit | src/lib/relative-to-output-path.ts:15-17 | joining the pieces of a split with the separator gives the text back |
| Text.SplitJoin | src/lib/relative-to-output-path.ts:15-17 | splitting a join of separator-free pieces gives the pieces back |
| Paths.Resolve | src/lib/relative-to-output-path.ts:15 | definition of pathe's `resolve` of one path: an absolute path stands alone, a relative one follows the working directory, and the segments are normalised below the root (properties: `ResolvesToItself`, `ResolveAbsolute`, `ResolveJoined`) |
| Paths.Normalize | src/lib/relative-to-output-path.ts:15 | definition of pathe's `normalize`: it keeps absoluteness, a trailing '/' and a leading "//", and writes an empty result as "/", "./" or "." (property: `ResolvesToItself`) |
| Paths.Relative | src/lib/relative-to-output-path.ts:16 | definition of pathe's `relative`: one ".." per segment of `from` past the shared prefix, then the rest of `to` (properties: `RelativeBelow`, `RelativisedResolvesBack`) |
| Paths.ResolvesToItself | src/lib/relative-to-output-path.ts:15 | `resolve(p) == normalize(p)` holds exactly when `p` is absolute and either resolves to the root, or neither ends in '/' nor starts with "//" |
| Paths.RelativeToOutputPath | src/lib/relative-to-output-path.ts:13-21 | a relative `swDest` is returned unchanged; an absolute one is made relative to the output directory, unless it ends in '/' or starts with "//" (and is not the root once resolved), in which case it is returned unchanged |
| Paths.SwDestBelowOutputPath | test/node/v5/inject-manifest.test.ts:984-1026 | a `swDest` inside the output directory becomes its path below that directory |
| Paths.RelativisedResolvesBack | src/lib/relative-to-output-path.ts:15-17 | resolving the result against the output directory gives the segments of `swDest` |
| Paths.JoinedResultResolvesToSwDest | src/lib/relative-to-output-path.ts:15-17 | concatenating an output directory other than the root, '/' and the result, and resolving that, gives the normalised `swDest` back |
| Paths.CommonFrom | src/lib/relative-to-output-path.ts:16 | the length of the shared segment prefix from an index on: the segments agree below it and differ at it, unless one path ends there |
| Paths.RelativeSegmentsLeadThere | src/lib/relative-to-output-path.ts:15-17 | on segments, following the relative path from `from` leads to `to` |
| Paths.FoldRelative | src/lib/relative-to-output-path.ts:15-17 | one ".." per segment of `f`, then the segments of `t`, leads from `c + f` to `c + t` |
| Paths.ExtnameIsJs | src/lib/get-script-files-for-chunks.ts:18 | the extension is ".js" exactly for names ending in ".js" after a character that is not a line terminator |
| Paths.Extname | src/lib/get-script-files-for-chunks.ts:18 | definition of pathe's `extname`: from the last '.' to the end, when some non-line-terminator precedes it and a non-empty '/'-free text follows; "" otherwise (property: `ExtnameIsJs`) |
| Paths.Stem | src/inject-manifest.ts:76 | definition of pathe's `parse(p).name`: the last non-empty segment without its extension (property: `StemOfFile`) |
| Paths.StemOfFile | src/inject-manifest.ts:76 | the parsed name of `dir/stem.ext` is `stem` |
| Host.Compilation.PushWarning | src/lib/get-script-files-for-chunks.ts:23-28 | one entry, the host's reading of the new `Error`, is appended to the warnings |
| Host.Compilation.PushWarnings | src/inject-manifest.ts:283 | the host's readings of the extractor's warnings are appended, in order |
| Host.RenderAll | src/lib/get-script-files-for-chunks.ts:23-38 | one warning per message, in order, as the host shows it |
| Host.RenderAllSnoc | src/lib/get-script-files-for-chunks.ts:23-38 | pushing one more message appends exactly its reading |
| Host.CountWhere | src/inject-manifest.ts:241-250 | the number of warnings a test holds of; at most their number, and zero exactly when it holds of none |
| Host.CountWhereSnoc | src/inject-manifest.ts:241-250 | one more warning adds one to the count exactly when the test holds of it |
| Host.Compilation.EmitAsset | src/generate-sw.ts:171-174 | the asset is set to the given source and `minimized` flag |
| Host.Compilation.UpdateAsset | src/inject-manifest.ts:317-321 | the asset's source is replaced and its info kept |
| Host.Compilation.AddFileDependency | src/inject-manifest.ts:263-264 | the path is added to the file dependencies |
| ExtractMessage.Clean | src/lib/extract-message.ts:2 | definition: every continuation marker removed in one `replaceAll` pass (properties: `CleanIsOnePass`, `CleanRendered`) |
| ExtractMessage.Extract | src/lib/extract-message.ts:1-8 | definition: the first capture of the cleaned message, and `undefined` when there is none or it is empty (properties: `ExtractIsFirstCapture`, `ExtractedMessageShape`, `ExtractRendered`) |
| ExtractMessage.CaptureEnd | src/lib/extract-message.ts:2 | the lazy end of a capture: the first terminator at or after the start, with no line terminator before it |
| ExtractMessage.MatchFrom | src/lib/extract-message.ts:2 | a match is the capture of the leftmost header that a terminator follows on the same line; `None` when no header is followed so |
| ExtractMessage.ExtractIsFirstCapture | src/lib/extract-message.ts:1-8 | a defined result is the shortest capture at the leftmost matching header; `undefined` exactly when there is no match or the capture is empty |
| ExtractMessage.ExtractedMessageShape | src/lib/extract-message.ts:2-4 | a defined result is non-empty, on one line, and framed by header and terminator in the cleaned message |
| ExtractMessage.NoWarningSignNoMessage | src/lib/extract-message.ts:2-7 | a message without the warning sign gives `undefined` |
| ExtractMessage.CleanIsOnePass | src/lib/extract-message.ts:2 | removing the box rule is one pass: a rule formed by the removal survives |
| ExtractMessage.CleanRendered | src/lib/extract-message.ts:2 | cleaning a boxed warning removes exactly the box rule after the message |
| ExtractMessage.ExtractRendered | src/lib/extract-message.ts:1-8 | a one-line message without four spaces before "at" is recovered from its boxed rendering |
| Injection.CheckInjectionPoint | src/inject-manifest.ts:269-281 | passes exactly when the injection point is matched once; otherwise fails with one of the two messages |
| Injection.MissingMarker | src/inject-manifest.ts:272-274 | an absent injection point fails with "Can't find …" |
| Injection.RepeatedMarker | src/inject-manifest.ts:275-281 | two non-overlapping occurrences fail with "Multiple instances …" |
| Injection.UniqueMarker | src/inject-manifest.ts:269-281 | an injection point at exactly one position passes |
| Injection.EmptyMarker | src/inject-manifest.ts:269-275 | an empty injection point passes only in an empty source |
| Injection.NormalizeQuotes | src/inject-manifest.ts:295 | same length; each double quote becomes a single quote and every other character stays |
| Injection.NormalizeQuotesIdempotent | src/inject-manifest.ts:295 | no double quote remains, and normalising twice equals normalising once |
| Injection.NormalizeQuotesWithoutQuotes | src/inject-manifest.ts:295 | text without double quotes is unchanged |
| Injection.ManifestString | src/inject-manifest.ts:285-296 | length preserved; quotes normalised when `compileSrc` and not (`eval-cheap-source-map` and `minimize`), otherwise verbatim |
| Injection.ReplaceFirst | src/inject-manifest.ts:319 | definition of the corrected replace: the first occurrence of the marker replaced by the manifest taken literally (property: `InjectSplices`) |
| Injection.InjectSplices | src/inject-manifest.ts:314-321 | after a passing check the new text is the text before the first marker, the manifest, then the text after it; no marker begins after it; length changes by the difference |
| Injection.ReplaceFirstExpanding | src/inject-manifest.ts:319 | definition of `replace(string, string)` as written: the first occurrence replaced by the manifest with its `$` patterns expanded (properties: `ExpandingAgreesWithoutDollar`, `DollarInManifestCounterexample`) |
| Injection.Substitution | src/inject-manifest.ts:319 | definition of the runtime's substitution for a string pattern: "$$" gives "$", "$&" the match, "$`" the text before and "$'" the text after; any other character stays (property: `SubstitutionWithoutDollar`) |
| Injection.SubstitutionWithoutDollar | src/inject-manifest.ts:319 | a replacement text without `$` is inserted as it is |
| Injection.ExpandingAgreesWithoutDollar | src/inject-manifest.ts:319 | without `$` in the manifest the runtime's replace and the literal one agree |
| Injection.DollarInManifestCounterexample | src/inject-manifest.ts:319 | a manifest containing "$&" gets the injection point put back in its place |
| Exclude.GeneratedRuleExcludesRegistered | src/inject-manifest.ts:257-260 | the appended rule excludes exactly the registered names, on top of the user's rules |
| Exclude.RepeatedRuleHarmless | src/inject-manifest.ts:255-260 | appending the rule again on a later call excludes nothing more |
| Exclude.ExclusionGrowsWithRegistry | src/inject-manifest.ts:24 | a grown registry excludes at least what it excluded before |
| InjectManifestPlugin.GeneratedAssetNames.constructor | src/inject-manifest.ts:24 | the registry starts empty |
| InjectManifestPlugin.GeneratedAssetNames.Add | src/inject-manifest.ts:202 | the name is added and nothing is removed |
| InjectManifestPlugin.WithDefaults | src/inject-manifest.ts:69-80 | the user's `mode` and `swDest` win; otherwise the compiler's mode and the parsed name of `swSrc` plus ".js"; all other options unchanged |
| InjectManifestPlugin.InjectManifest.constructor | src/inject-manifest.ts:59-62 | keeps the options, `alreadyCalled` false |
| InjectManifestPlugin.InjectManifest.PropagateWebpackConfig | src/inject-manifest.ts:69-80 | the options become their merge with the compiler's defaults |
| InjectManifestPlugin.InjectManifest.HandleMake | src/inject-manifest.ts:189-222 | a thrown `Error` from validation becomes the configuration error with nothing changed; otherwise `swDest` is relativised and registered, and the ignored-plugins warning is pushed exactly when `compileSrc` is off and plugins were given |
| InjectManifestPlugin.InjectManifest.AddAssets | src/inject-manifest.ts:229-322 | `alreadyCalled` ends true; the repeat warning is pushed only on a repeated call when none is recognised; the exclude list gains the rule; `swSrc` becomes a file dependency; marker errors change no asset and no registry; after the marker check the extractor's warnings are pushed in order, and its rejection fails with nothing further changed; otherwise the service worker gets the literal splice, or the source-map pair; the registry only grows |
| InjectManifestPlugin.AfterRepeatCheck | src/inject-manifest.ts:241-250 | definition: the repeat warning is pushed unless some warning's message, read through `extractMessage`, is it (properties: `RepeatWarningOnce`, `PlainRenderRepeats`) |
| InjectManifestPlugin.RepeatCount | src/inject-manifest.ts:241-250 | counts the recognised repeat warnings; zero exactly when none is recognised |
| InjectManifestPlugin.RepeatWarningOnce | test/node/v5/inject-manifest.test.ts:1469-1563 | when the host's layout is recognised, a repeated call leaves exactly one repeat warning, and a second instance adds none |
| InjectManifestPlugin.PlainRenderRepeats | src/inject-manifest.ts:241-250 | a host that shows the bare message defeats the test, so every repeated call adds a copy |
| InjectManifestPlugin.BoxedRenderRoundTrips | src/inject-manifest.ts:239-247 | the boxed warning layout makes `extractMessage` give the repeat warning back |
| InjectManifestPlugin.RepeatWarningIsPlain | src/inject-manifest.ts:232-237 | the repeat warning is one line, with no warning sign and no two spaces in a row |
| InjectManifestPlugin.TypeScriptSourceGivesScript | test/node/v5/inject-manifest.test.ts:1442-1464 | a `dir/stem.ts` `swSrc` with no `swDest` gives `stem.js` |
| ScriptFiles.FindChunkFrom | src/lib/get-script-files-for-chunks.ts:14 | the first chunk from the start whose names include the name; `None` when none does |
| ScriptFiles.AddChunkScripts | src/lib/get-script-files-for-chunks.ts:16-21 | the set after adding a chunk's script URLs equals the de-duplicated list with those URLs appended |
| ScriptFiles.AddName | src/lib/get-script-files-for-chunks.ts:13-29 | one turn of the loop over names: the set becomes the de-duplicated candidates of one more name, and the warnings gain the unmatched-name warning exactly when that name has no chunk |
| ScriptFiles.GetScriptFilesForChunks | src/lib/get-script-files-for-chunks.ts:5-42 | returns the de-duplicated candidates; appends one warning per unmatched name, then the "no assets" warning when nothing was found |
| ScriptFiles.Candidates | src/lib/get-script-files-for-chunks.ts:13-21 | definition: name after name, the script URLs of the first chunk carrying the name (properties: `CandidatesMembers`, `ScriptFilesExactly`) |
| ScriptFiles.Dedup | src/lib/get-script-files-for-chunks.ts:11-41 | definition of `Array.from` of an insertion-ordered `Set` filled in order (properties: `DedupMembers`, `DedupNoDuplicates`, `DedupFirstOrder`) |
| ScriptFiles.DedupMembers | src/lib/get-script-files-for-chunks.ts:41 | the array holds exactly the values added to the set |
| ScriptFiles.DedupNoDuplicates | src/lib/get-script-files-for-chunks.ts:41 | no value appears twice |
| ScriptFiles.DedupFirstOrder | src/lib/get-script-files-for-chunks.ts:41 | values appear in the order of their first addition |
| ScriptFiles.ChunkScriptsMembers | src/lib/get-script-files-for-chunks.ts:16-21 | a chunk contributes exactly the URLs of its ".js" files |
| ScriptFiles.CandidatesMembers | src/lib/get-script-files-for-chunks.ts:13-21 | a URL is a candidate exactly when some name's chunk contributes it |
| ScriptFiles.ScriptFilesExactly | src/lib/get-script-files-for-chunks.ts:13-21 | a URL is returned exactly when it comes from a ".js" file of the first chunk carrying one of the names |
| ScriptFiles.UnmatchedMembers | src/lib/get-script-files-for-chunks.ts:22-29 | the warned names are exactly the given names that no chunk carries |
| ScriptFiles.NoAssetsWarningExactly | src/lib/get-script-files-for-chunks.ts:32-39 | the closing warning is pushed exactly when no named chunk contributes a script |
| ScriptFiles.SourceMapIsNotScript | test/node/v5/generate-sw.test.ts:139-140 | a source map of a script is never taken for a script |
| ScriptFiles.ScriptByName | src/lib/get-script-files-for-chunks.ts:18 | a name ending in ".js" after a printable character is a script |
| GenerateSWPlugin.GeneratedAssetNames.constructor | src/generate-sw.ts:15 | the registry starts empty |
| GenerateSWPlugin.GeneratedAssetNames.Add | src/generate-sw.ts:176 | the name is added and nothing is removed |
| GenerateSWPlugin.WithDefaults | src/generate-sw.ts:38-48 | the user's `mode` and `sourcemap` win; otherwise the compiler's mode and whether it has a devtool; other options unchanged |
| GenerateSWPlugin.GenerateSW.constructor | src/generate-sw.ts:28-31 | keeps the options, `alreadyCalled` false |
| GenerateSWPlugin.GenerateSW.Default | src/generate-sw.ts:28 | options default to `{}`, `alreadyCalled` false |
| GenerateSWPlugin.GenerateSW.PropagateWebpackConfig | src/generate-sw.ts:38-48 | the options become their merge with the compiler's defaults |
| GenerateSWPlugin.GenerateSW.EmitFiles | src/generate-sw.ts:170-177 | the assets are those after emitting each file in order; the registry gains exactly the file names |
| GenerateSWPlugin.GenerateSW.NoteCall | src/generate-sw.ts:104-122 | `alreadyCalled` ends true; the repeat warning is pushed on a repeated call unless an equal `Error` is there |
| GenerateSWPlugin.GenerateSW.AddAssets | src/generate-sw.ts:102-177 | the stored options never change; the merge's warnings are pushed, then the extractor's; validation errors, missing `exclude`, an extractor rejection, a template failure, missing `swDest` and bundling failures change no asset and no registry; on success every bundled file is emitted with `minimized` set to whether mode is production, and registered |
| GenerateSWPlugin.AfterRepeatCheck | src/generate-sw.ts:104-122 | definition: on a repeated call the repeat warning is pushed unless an `Error` with exactly that message is there (properties: `RepeatWarningPerBuild`, `RepeatWarningRecognised`, `RepeatWarningNotAnError`) |
| GenerateSWPlugin.MergeChunks | src/generate-sw.ts:144-154 | definition: `excludeChunks` and `importScripts` become the old array or [] followed by the chunk names and the script URLs (property: `MergedScripts`) |
| GenerateSWPlugin.WithChunkScripts | src/generate-sw.ts:144-154 | definition: the merge, with the URLs `getScriptFilesForChunks` finds, when `importScriptsViaChunks` is present; otherwise the options unchanged (properties: `MergedScripts`, `EmptyChunkListStillMerged`) |
| GenerateSWPlugin.EmitAll | src/generate-sw.ts:170-177 | definition: the assets after emitting the files in order (property: `EmitAllEffect`) |
| GenerateSWPlugin.RepeatCount | src/generate-sw.ts:113-119 | counts the repeat warnings; zero exactly when there is none |
| GenerateSWPlugin.RepeatWarningPerBuild | test/node/v5/generate-sw.test.ts:1073-1115 | for any host: on a compilation without a repeat warning, the first build adds no warning and each later build adds exactly the repeat warning |
| GenerateSWPlugin.RepeatWarningRecognised | src/generate-sw.ts:113-119 | with a host that gives an `Error` back, a repeated build leaves exactly one repeat warning, and repeating the check adds none |
| GenerateSWPlugin.RepeatWarningNotAnError | src/generate-sw.ts:113-119 | a host that does not give back an `Error` gets a copy on every check |
| GenerateSWPlugin.MergedScripts | src/generate-sw.ts:144-154 | `excludeChunks` is the old list or [] followed by the names; `importScripts` is the old list or [] followed by exactly the resolved URLs; without `importScriptsViaChunks` nothing changes |
| GenerateSWPlugin.EmptyChunkListStillMerged | src/generate-sw.ts:144-154 | an empty `importScriptsViaChunks` still makes `excludeChunks` present and pushes the "no assets" warning |
| GenerateSWPlugin.EmitAllEffect | src/generate-sw.ts:170-177 | every emitted name is an asset with the requested `minimized` flag; the last file of a name wins; other assets stay |

## Left out

- Plugin wiring: `apply`, the hook registration, the promise plumbing, and the `.catch` that moves a
  rejection into `compilation.errors`. A rejection is the `Fail` outcome of the modelled method.
- InjectManifestPlugin.InjectManifest.HandleMake: does not model the child compilation
  (`performChildCompilation`) or `addSrcToAssets`. One is the bundler's child-compiler API and the
  other reads the file system. The model stops after registering `swDest` and pushing the warning.
- InjectManifestPlugin.InjectManifest.AddAssets: when there is no source map, the service worker
  gets the literal splice `Injection.ReplaceFirst`. The code as written (`Injection.ReplaceFirstExpanding`)
  expands `$` patterns in the manifest. The two agree whenever the manifest has no `$`
  (`Injection.ExpandingAgreesWithoutDollar`). The difference is the finding below.
- Library internals are parameters with no contract beyond being functions of their inputs. They
  are:
  - the option validators;
  - `getManifestEntriesFromCompilation` with the stable serialiser. Its warnings and its rejection
    are modelled (`Host.Extraction`); its filtering, sorting and `size` are not;
  - `getSourcemapAssetName`;
  - `replaceAndUpdateSourceMap`, including its JSON parsing and source-map rewriting;
  - `populateSWTemplate` and `bundle`, each of which may fail;
  - `resolveWebpackURL`.
- An extractor rejection is modelled as pushing none of the extractor's warnings; whether the
  library pushes some before rejecting is library behaviour outside this model.
- The logger and `prettyBytes`. They only produce output.
- The `.flat()` over `compilation.warnings` in the InjectManifest repeat test. Warnings are a flat
  sequence here.
- How the host shows a pushed `Error` is a parameter (`Compilation.render`). The layouts compared
  are the bare message and rspack's boxed one.
- InjectManifestPlugin.RepeatWarningOnce: holds only for a host whose layout `extractMessage`
  recognises (`RoundTrips`). The code does not state which host that is.
- Paths: Windows drive letters (`C:`) and backslashes are not modelled. pathe treats both
  specially, in `isAbsolute`, `normalize` and `resolve`. Paths are '/'-separated strings here.
  The leading "//" that pathe's `normalize` keeps is modelled.
- Paths.Resolve: the working directory is taken to be absolute, as a process's is. Every
  resolved path therefore starts with '/'.
- Strings are sequences of characters. Surrogate pairs and normalisation are not modelled, and
  none of the text involved needs them.
- `Object.assign` with an option explicitly set to `undefined`: such an option is treated as
  absent, whereas JavaScript would let the `undefined` win.
- `output.path` undefined and `getStats().toJson()` without `chunks` are not modelled.
  `chunk.names` and `chunk.files` that are undefined are empty sequences.
- GenerateSWPlugin.GenerateSW.AddAssets: treats the validated copy as independent of the stored
  options. Whether the validator shares the stored `exclude` array is library behaviour outside
  this model.
- The `files` loop of GenerateSW copies the contents through a `Buffer`. That copy is the identity
  here.

## Findings

| source | as written | input that shows it | evidently intended | confidence | as-written member | corrected member |
|---|---|---|---|---|---|---|
| src/inject-manifest.ts:319 | the manifest replaces the injection point through a string-pattern `replace`, which expands `$$`, `$&`, `` $` `` and `$'` in the manifest text | service worker `x=self.__WB_MANIFEST;` whose manifest is `['$&']` (a precache URL containing "$&") becomes `x=['self.__WB_MANIFEST'];` | the manifest text inserted literally, as happens whenever it contains no `$` | not executed | Injection.ReplaceFirstExpanding | Injection.ReplaceFirst |

`Injection.DollarInManifestCounterexample` exhibits the difference. `Injection.InjectSplices` proves
the intended splice for the literal `Injection.ReplaceFirst`, and `AddAssets` uses that one.
`Injection.ExpandingAgreesWithoutDollar` shows that the two agree whenever the manifest has no `$`.
