/** The `GenerateSW` plugin: it defaults its configuration from the
    compiler, warns when it runs again, works on a validated copy of its
    options, turns the chunks named in `importScriptsViaChunks` into
    `importScripts`, and emits the files of the generated service worker,
    registering each of their names. */
module GenerateSWPlugin {
  import opened Wrappers
  import opened Paths
  import opened Host
  import opened Exclude
  import opened ScriptFiles

  /** `_generatedAssetNames` of the GenerateSW module, distinct from the
      InjectManifest one: the names of the files any GenerateSW instance
      emitted.  It only grows. */
  class GeneratedAssetNames {
    var names: set<string>

    constructor ()
      ensures names == {}
    {
      names := {};
    }

    /** `_generatedAssetNames.add(name)`. */
    method Add(name: string)
      modifies this
      ensures names == old(names) + {name}
    {
      names := names + {name};
    }
  }

  /** The options of the plugin that the model follows; `None` is an absent option. */
  datatype SWConfig = SWConfig(
    mode: Option<string>,
    sourcemap: Option<bool>,
    swDest: Option<string>,
    exclude: Option<seq<ExcludeRule>>,
    excludeChunks: Option<seq<string>>,
    importScripts: Option<seq<string>>,
    importScriptsViaChunks: Option<seq<string>>)

  /** The options object `{}`. */
  const EmptyConfig := SWConfig(None, None, None, None, None, None, None)

  /** What `validateWebpackGenerateSWOptions` does: return a validated copy
      with its defaults, throw an `Error`, or throw something else. */
  datatype Validation = Validated(config: SWConfig) | Rejected(message: string) | ThrewNonError

  /** Why a call of the plugin rejects. */
  datatype Thrown = PluginError(message: string) | TypeError | LibraryError

  /** A file of the bundled service worker. */
  datatype File = File(name: string, contents: string)

  /** The library calls the plugin makes, as functions of what they are given:
      the options validator; the manifest extractor, over the compilation's
      assets, the options and the registry, giving the warnings it pushes and
      the sorted entries, or a rejection; `populateSWTemplate`, over the options
      and the entries, giving the unbundled code or `None` when it throws;
      `bundle`, over the options, that code and the final `swDest`, giving the
      files or `None` when it throws; and `resolveWebpackURL`. */
  datatype Dependencies = Dependencies(
    validate: SWConfig -> Validation,
    manifest: (map<string, Asset>, SWConfig, set<string>) -> Extraction<seq<string>>,
    populate: (SWConfig, seq<string>) -> Option<string>,
    bundle: (SWConfig, string, string) -> Option<seq<File>>,
    url: (string, string) -> string)

  const RepeatWarning: string :=
    "GenerateSW has been called multiple times, perhaps due to running webpack in --watch mode. " +
    "The precache manifest generated after the first call may be inaccurate! " +
    "Please see https://github.com/GoogleChrome/workbox/issues/1790 for more information."

  const ConfigErrorPrefix: string := "Please check your GenerateSW plugin configuration:\n"

  /** A warning that is an `Error` whose message is exactly the repeat warning. */
  predicate IsRepeatWarning(w: Warning) {
    w.isError && w.message == Some(RepeatWarning)
  }

  predicate HasRepeatWarning(warnings: seq<Warning>) {
    exists i :: 0 <= i < |warnings| && IsRepeatWarning(warnings[i])
  }

  /** The warnings after the check of a call: the repeat warning is added on a
      repeated call unless the compilation has one already. */
  function AfterRepeatCheck(alreadyCalled: bool, warnings: seq<Warning>, render: string -> Warning): seq<Warning> {
    if alreadyCalled && !HasRepeatWarning(warnings) then warnings + [render(RepeatWarning)] else warnings
  }

  /** The options once the compiler's are merged in: the user's `mode` and
      `sourcemap` win; otherwise `mode` is the compiler's and `sourcemap`
      whether the compiler has a `devtool`. */
  function WithDefaults(config: SWConfig, compilerMode: Option<string>, devtool: Option<string>): (r: SWConfig)
    ensures r.mode == if config.mode.Some? then config.mode else compilerMode
    ensures r.sourcemap == if config.sourcemap.Some? then config.sourcemap else Some(Truthy(devtool))
    ensures r.(mode := config.mode, sourcemap := config.sourcemap) == config
  {
    config.(mode := if config.mode.Some? then config.mode else compilerMode,
            sourcemap := if config.sourcemap.Some? then config.sourcemap else Some(Truthy(devtool)))
  }

  /** The copy `addAssets` works on: the validated options, or `{}` when the
      validator threw something that is not an `Error`. */
  function ValidatedCopy(v: Validation): SWConfig
    requires !v.Rejected?
  {
    if v.Validated? then v.config else EmptyConfig
  }

  /** `excludeChunks` and `importScripts` once the chunks named in
      `importScriptsViaChunks` are merged in; an array, even an empty one,
      counts as present.  `scripts` are the URLs found for those chunks. */
  function MergeChunks(config: SWConfig, scripts: seq<string>): (r: SWConfig)
    requires config.importScriptsViaChunks.Some?
  {
    config.(excludeChunks := Some(config.excludeChunks.GetOr([]) + config.importScriptsViaChunks.value),
            importScripts := Some(config.importScripts.GetOr([]) + scripts))
  }

  /** The copy once `importScriptsViaChunks`, if present, is merged in, for
      the given chunks, public path and URL resolution. */
  function WithChunkScripts(config: SWConfig, chunks: seq<Chunk>, publicPath: string,
                            url: (string, string) -> string): SWConfig
  {
    if config.importScriptsViaChunks.Some?
    then MergeChunks(config, Dedup(Candidates(chunks, config.importScriptsViaChunks.value, publicPath, url)))
    else config
  }

  /** The messages of the warnings the merge pushes. */
  function ChunkScriptMessages(config: SWConfig, chunks: seq<Chunk>, publicPath: string,
                               url: (string, string) -> string): seq<string>
  {
    if config.importScriptsViaChunks.Some?
    then Messages(chunks, config.importScriptsViaChunks.value, publicPath, url)
    else []
  }

  /** The assets after emitting the files one after the other. */
  function EmitAll(assets: map<string, Asset>, files: seq<File>, minimized: bool): map<string, Asset>
    decreases |files|
  {
    if files == [] then assets
    else
      var last := files[|files| - 1];
      EmitAll(assets, files[..|files| - 1], minimized)[last.name := Asset(last.contents, minimized)]
  }

  /** The names of the files. */
  function Names(files: seq<File>): set<string> {
    set f | f in files :: f.name
  }

  class GenerateSW {
    var config: SWConfig
    var alreadyCalled: bool
    /** The module's registry, shared by every instance. */
    const registry: GeneratedAssetNames

    constructor (config: SWConfig, registry: GeneratedAssetNames)
      ensures this.config == config && !alreadyCalled && this.registry == registry
    {
      this.config := config;
      this.alreadyCalled := false;
      this.registry := registry;
    }

    /** `new GenerateSW()`: the options default to `{}`. */
    constructor Default(registry: GeneratedAssetNames)
      ensures config == EmptyConfig && !alreadyCalled && this.registry == registry
    {
      this.config := EmptyConfig;
      this.alreadyCalled := false;
      this.registry := registry;
    }

    /** `propagateWebpackConfig(compiler)`, given the compiler's `mode` and `devtool`. */
    method PropagateWebpackConfig(compilerMode: Option<string>, devtool: Option<string>)
      modifies this`config
      ensures config == WithDefaults(old(config), compilerMode, devtool)
    {
      config := WithDefaults(config, compilerMode, devtool);
    }

    /** The loop that emits the bundled files and registers their names. */
    method EmitFiles(compilation: Compilation, files: seq<File>, minimized: bool)
      modifies compilation`assets, registry
      ensures compilation.assets == EmitAll(old(compilation.assets), files, minimized)
      ensures registry.names == old(registry.names) + Names(files)
    {
      var n := 0;
      while n < |files|
        invariant 0 <= n <= |files|
        invariant compilation.assets == EmitAll(old(compilation.assets), files[..n], minimized)
        invariant registry.names == old(registry.names) + Names(files[..n])
      {
        assert files[..n + 1][..n] == files[..n];
        assert Names(files[..n + 1]) == Names(files[..n]) + {files[n].name} by {
          assert files[..n + 1] == files[..n] + [files[n]];
        }
        compilation.EmitAsset(files[n].name, files[n].contents, minimized);
        registry.Add(files[n].name);
        n := n + 1;
      }
      assert files[..n] == files;
    }

    /** The check for a repeated call at the start of `addAssets`. */
    method NoteCall(compilation: Compilation)
      modifies this`alreadyCalled, compilation`warnings
      ensures alreadyCalled
      ensures compilation.warnings == AfterRepeatCheck(old(alreadyCalled), old(compilation.warnings), compilation.render)
    {
      if alreadyCalled {
        if !HasRepeatWarning(compilation.warnings) {
          compilation.PushWarning(RepeatWarning);
        }
      } else {
        alreadyCalled := true;
      }
    }

    /** `addAssets(compilation)`. */
    method AddAssets(compilation: Compilation, deps: Dependencies) returns (outcome: Outcome<Thrown>)
      modifies this`alreadyCalled, registry, compilation`warnings, compilation`assets
      ensures alreadyCalled && config == old(config)
      ensures old(registry.names) <= registry.names
      ensures outcome.Fail? ==> compilation.assets == old(compilation.assets) && registry.names == old(registry.names)
      ensures var w := AfterRepeatCheck(old(alreadyCalled), old(compilation.warnings), compilation.render);
        var v := deps.validate(old(config));
        if v.Rejected? then
          outcome == Fail(PluginError(ConfigErrorPrefix + v.message)) && compilation.warnings == w
        else if ValidatedCopy(v).exclude.None? then
          outcome == Fail(TypeError) && compilation.warnings == w
        else
          var c0 := ValidatedCopy(v).(exclude := Some(ValidatedCopy(v).exclude.value + [GeneratedAsset]));
          var pp := compilation.options.publicPath;
          var c := WithChunkScripts(c0, compilation.chunks, pp, deps.url);
          var w1 := w + RenderAll(compilation.render, ChunkScriptMessages(c0, compilation.chunks, pp, deps.url));
          var extraction := deps.manifest(old(compilation.assets), c, old(registry.names));
          if extraction.ExtractionFailed? then outcome == Fail(LibraryError) && compilation.warnings == w1
          else
            compilation.warnings == w1 + RenderAll(compilation.render, extraction.warnings) &&
            var code := deps.populate(c, extraction.entries);
            if code.None? then outcome == Fail(LibraryError)
            else if c.swDest.None? then outcome == Fail(TypeError)
            else
              var swDest := RelativeToOutputPath(compilation.cwd, compilation.options.outputPath, c.swDest.value);
              var files := deps.bundle(c, code.value, swDest);
              if files.None? then outcome == Fail(LibraryError)
              else
                outcome == Pass &&
                compilation.assets == EmitAll(old(compilation.assets), files.value, c.mode == Some("production")) &&
                registry.names == old(registry.names) + Names(files.value)
    {
      NoteCall(compilation);
      ghost var w := compilation.warnings;
      var v := deps.validate(config);
      if v.Rejected? {
        return Fail(PluginError(ConfigErrorPrefix + v.message));
      }
      var c := ValidatedCopy(v);
      if c.exclude.None? {
        return Fail(TypeError);
      }
      c := c.(exclude := Some(c.exclude.value + [GeneratedAsset]));
      ghost var c0 := c;
      if c.importScriptsViaChunks.Some? {
        var scripts := GetScriptFilesForChunks(compilation, c.importScriptsViaChunks.value, deps.url);
        c := MergeChunks(c, scripts);
      } else {
        assert compilation.warnings == w + RenderAll(compilation.render, []);
      }
      assert c == WithChunkScripts(c0, compilation.chunks, compilation.options.publicPath, deps.url);
      var extraction := deps.manifest(compilation.assets, c, registry.names);
      if extraction.ExtractionFailed? {
        return Fail(LibraryError);
      }
      compilation.PushWarnings(extraction.warnings);
      var code := deps.populate(c, extraction.entries);
      if code.None? {
        return Fail(LibraryError);
      }
      if c.swDest.None? {
        return Fail(TypeError);
      }
      var swDest := RelativeToOutputPath(compilation.cwd, compilation.options.outputPath, c.swDest.value);
      var files := deps.bundle(c, code.value, swDest);
      if files.None? {
        return Fail(LibraryError);
      }
      EmitFiles(compilation, files.value, c.mode == Some("production"));
      return Pass;
    }
  }

  // ------------------------------------------------------------- properties

  /** The number of repeat warnings among the warnings; its contract is the
      specification the lemmas below use.  The InjectManifest module counts
      with its own notion of a repeat warning. */
  function RepeatCount(warnings: seq<Warning>): (r: nat)
    ensures r <= |warnings|
    ensures r == 0 <==> !HasRepeatWarning(warnings)
  {
    CountWhere(IsRepeatWarning, warnings)
  }


  /** Whatever the host makes of an `Error`, the first build adds no warning
      and every later build adds exactly the repeat warning to a compilation
      that has none yet. */
  lemma RepeatWarningPerBuild(warnings: seq<Warning>, render: string -> Warning)
    requires !HasRepeatWarning(warnings)
    ensures AfterRepeatCheck(false, warnings, render) == warnings
    ensures AfterRepeatCheck(true, warnings, render) == warnings + [render(RepeatWarning)]
  {
  }

  /** With a host that gives an `Error` back as such, a repeated build leaves
      exactly one repeat warning, and a second check on the same compilation
      adds nothing. */
  lemma RepeatWarningRecognised(warnings: seq<Warning>, render: string -> Warning)
    requires render(RepeatWarning) == Warning(true, Some(RepeatWarning))
    requires !HasRepeatWarning(warnings)
    ensures RepeatCount(AfterRepeatCheck(true, warnings, render)) == 1
    ensures AfterRepeatCheck(true, AfterRepeatCheck(true, warnings, render), render) ==
            AfterRepeatCheck(true, warnings, render)
  {
    CountWhereSnoc(IsRepeatWarning, warnings, render(RepeatWarning));
  }

  /** The exact test recognises only an `Error` object: a host that gives the
      warning back as something else gets a copy from every check. */
  lemma RepeatWarningNotAnError(warnings: seq<Warning>, render: string -> Warning)
    requires !render(RepeatWarning).isError && !HasRepeatWarning(warnings)
    ensures AfterRepeatCheck(true, AfterRepeatCheck(true, warnings, render), render) ==
            warnings + [render(RepeatWarning), render(RepeatWarning)]
  {
    var w := AfterRepeatCheck(true, warnings, render);
    forall i | 0 <= i < |w| ensures !IsRepeatWarning(w[i]) {
      if i < |warnings| {
        assert w[i] == warnings[i];
      }
    }
  }

  /** The merge keeps the existing entries in front and appends the new ones:
      the chunk names to `excludeChunks` and the URLs of their scripts to
      `importScripts`; without `importScriptsViaChunks` nothing changes. */
  lemma MergedScripts(config: SWConfig, chunks: seq<Chunk>, publicPath: string,
                      url: (string, string) -> string, x: string)
    ensures config.importScriptsViaChunks.None? ==>
      WithChunkScripts(config, chunks, publicPath, url) == config &&
      ChunkScriptMessages(config, chunks, publicPath, url) == []
    ensures config.importScriptsViaChunks.Some? ==>
      var names := config.importScriptsViaChunks.value;
      var r := WithChunkScripts(config, chunks, publicPath, url);
      r.excludeChunks.Some? && r.importScripts.Some? &&
      r.excludeChunks.value == config.excludeChunks.GetOr([]) + names &&
      (exists added ::
        (r.importScripts.value == config.importScripts.GetOr([]) + added &&
         (x in added <==> exists k, i ::
            (0 <= k < |names| && FindChunk(chunks, names[k]) == Some(i) &&
             x in ChunkScripts(chunks[i].files, publicPath, url)))))
  {
    if config.importScriptsViaChunks.Some? {
      var names := config.importScriptsViaChunks.value;
      ScriptFilesExactly(chunks, names, publicPath, url, x);
      var added := Dedup(Candidates(chunks, names, publicPath, url));
      assert WithChunkScripts(config, chunks, publicPath, url).importScripts.value ==
        config.importScripts.GetOr([]) + added;
    }
  }

  /** An empty `importScriptsViaChunks` is still an array, so it is merged:
      `excludeChunks` becomes present and the "no assets" warning is pushed. */
  lemma EmptyChunkListStillMerged(config: SWConfig, chunks: seq<Chunk>, publicPath: string,
                                  url: (string, string) -> string)
    requires config.importScriptsViaChunks == Some([])
    ensures WithChunkScripts(config, chunks, publicPath, url).excludeChunks == Some(config.excludeChunks.GetOr([]))
    ensures ChunkScriptMessages(config, chunks, publicPath, url) == [NoAssetsMessage([])]
  {
    assert config.excludeChunks.GetOr([]) + [] == config.excludeChunks.GetOr([]);
    assert Unmatched(chunks, []) == [];
    assert Candidates(chunks, [], publicPath, url) == [];
  }

  /** Every emitted file is an asset marked `minimized` as asked; a name that
      occurs twice keeps the contents of its last file; other assets stay. */
  lemma EmitAllEffect(assets: map<string, Asset>, files: seq<File>, minimized: bool)
    ensures forall f :: f in files ==>
      (f.name in EmitAll(assets, files, minimized) &&
       EmitAll(assets, files, minimized)[f.name].minimized == minimized)
    ensures forall name :: name !in Names(files) ==>
      (name in EmitAll(assets, files, minimized) <==> name in assets) &&
      (name in assets ==> EmitAll(assets, files, minimized)[name] == assets[name])
    ensures files != [] ==>
      EmitAll(assets, files, minimized)[files[|files| - 1].name].source == files[|files| - 1].contents
  {
    EmitAllMarks(assets, files, minimized);
    EmitAllKeeps(assets, files, minimized);
  }

  /** Every emitted file is present and marked as asked. */
  lemma {:induction false} EmitAllMarks(assets: map<string, Asset>, files: seq<File>, minimized: bool)
    ensures forall f :: f in files ==>
      (f.name in EmitAll(assets, files, minimized) &&
       EmitAll(assets, files, minimized)[f.name].minimized == minimized)
    decreases |files|
  {
    if files != [] {
      var init, last := files[..|files| - 1], files[|files| - 1];
      EmitAllMarks(assets, init, minimized);
      assert files == init + [last];
    }
  }

  /** Assets of other names are left as they were. */
  lemma {:induction false} EmitAllKeeps(assets: map<string, Asset>, files: seq<File>, minimized: bool)
    ensures forall name :: name !in Names(files) ==>
      (name in EmitAll(assets, files, minimized) <==> name in assets) &&
      (name in assets ==> EmitAll(assets, files, minimized)[name] == assets[name])
    decreases |files|
  {
    if files != [] {
      var init, last := files[..|files| - 1], files[|files| - 1];
      EmitAllKeeps(assets, init, minimized);
      assert Names(files) == Names(init) + {last.name};
    }
  }

}
