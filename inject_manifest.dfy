/** The `InjectManifest` plugin: it defaults its configuration from the
    compiler, registers the name of the service worker it writes, warns when
    it runs again, and puts the precache manifest where the injection point is
    in the service worker's text. */
module InjectManifestPlugin {
  import opened Wrappers
  import opened Text
  import opened Paths
  import opened Host
  import opened Injection
  import ExtractMessage
  import opened Exclude

  /** `_generatedAssetNames` of the InjectManifest module: the names of the
      assets written by any InjectManifest instance.  It only grows. */
  class GeneratedAssetNames {
    var names: set<string>

    constructor ()
      ensures names == {}
    {
      names := {};
    }

    /** `_generatedAssetNames.add(name)`. */
    method Add(name: string)
      modifies this
      ensures names == old(names) + {name}
    {
      names := names + {name};
    }
  }

  /** The options of the plugin that the model follows; `None` is an absent
      option.  `webpackCompilationPlugins` is the length of the array, `None`
      when the option is not an array. */
  datatype InjectConfig = InjectConfig(
    swSrc: string,
    swDest: Option<string>,
    mode: Option<string>,
    injectionPoint: Option<string>,
    compileSrc: Option<bool>,
    webpackCompilationPlugins: Option<nat>,
    exclude: Option<seq<ExcludeRule>>)

  /** What `validateWebpackInjectManifestOptions` does: return the validated
      options with their defaults, throw an `Error`, or throw something else. */
  datatype Validation = Validated(config: InjectConfig) | Rejected(message: string) | ThrewNonError

  /** Why a call of the plugin rejects: an `Error` of its own, a `TypeError`
      from reading through an absent value, or a failure inside a library. */
  datatype Thrown = PluginError(message: string) | TypeError | LibraryError

  /** The library calls the plugin makes, as functions of what they are given:
      the options validator; the manifest extractor followed by the stable
      serialiser, over the compilation's assets, the exclude list and the
      registry, giving the warnings the extractor pushes and the serialised
      manifest, or a rejection; `getSourcemapAssetName` of the text and `swDest`; and
      `replaceAndUpdateSourceMap` of `swDest`, the map's text, the source, the
      manifest and the injection point, giving the new source and map or
      `None` when it throws. */
  datatype Dependencies = Dependencies(
    validate: InjectConfig -> Validation,
    manifest: (map<string, Asset>, seq<ExcludeRule>, set<string>) -> Extraction<string>,
    sourcemapAssetName: (string, string) -> Option<string>,
    replaceAndUpdateSourceMap: (string, string, string, string, string) -> Option<(string, string)>)

  const RepeatWarning: string :=
    "InjectManifest " + "has been called " + "multiple times, " + "perhaps due to " +
    "running webpack " + "in --watch " + "mode. The " + "precache " +
    "manifest " + "generated after " + "the first call " + "may be " +
    "inaccurate! " + "Please see " + "https://" + "github.com/" +
    "GoogleChrome/" + "workbox/issues/" + "1790 for more " + "information."

  const ConfigErrorPrefix: string := "Please check your InjectManifest plugin configuration:\n"

  const IgnoredPluginsWarning: string :=
    "compileSrc is false, so the webpackCompilationPlugins option will be ignored."

  /** A warning whose message, once the host's layout is taken off, is the repeat warning. */
  predicate IsRepeatWarning(w: Warning) {
    w.message.Some? && ExtractMessage.Extract(w.message.value) == Some(RepeatWarning)
  }

  /** Some warning of the compilation is recognised as the repeat warning. */
  predicate HasRepeatWarning(warnings: seq<Warning>) {
    exists i :: 0 <= i < |warnings| && IsRepeatWarning(warnings[i])
  }

  /** The warnings after a repeated call's check: the repeat warning is added
      unless one is recognised already. */
  function AfterRepeatCheck(warnings: seq<Warning>, render: string -> Warning): seq<Warning> {
    if HasRepeatWarning(warnings) then warnings else warnings + [render(RepeatWarning)]
  }

  /** The options once the compiler's are merged in: the user's `mode` and
      `swDest` win; otherwise `mode` is the compiler's and `swDest` is the
      parsed name of `swSrc` with ".js" appended. */
  function WithDefaults(config: InjectConfig, compilerMode: Option<string>): (r: InjectConfig)
    ensures r.mode == if config.mode.Some? then config.mode else compilerMode
    ensures r.swDest == if config.swDest.Some? then config.swDest else Some(Stem(config.swSrc) + ".js")
    ensures r.(mode := config.mode, swDest := config.swDest) == config
  {
    config.(mode := if config.mode.Some? then config.mode else compilerMode,
            swDest := if config.swDest.Some? then config.swDest else Some(Stem(config.swSrc) + ".js"))
  }

  /** The options after validation: the validated ones, or the old ones when
      the validator threw something that is not an `Error`. */
  function AfterValidation(config: InjectConfig, v: Validation): InjectConfig {
    if v.Validated? then v.config else config
  }

  /** Whether the `webpackCompilationPlugins` warning is due. */
  predicate PluginsIgnored(config: InjectConfig) {
    config.compileSrc != Some(true) && config.webpackCompilationPlugins.Some? &&
    config.webpackCompilationPlugins.value > 0
  }

  /** The options name an existing service worker asset and an injection
      point, so `addAssets` reads through no absent value. */
  predicate Ready(config: InjectConfig, assets: map<string, Asset>) {
    config.exclude.Some? && config.swDest.Some? && config.swDest.value in assets &&
    config.injectionPoint.Some?
  }

  class InjectManifest {
    var config: InjectConfig
    var alreadyCalled: bool
    /** The module's registry, shared by every instance. */
    const registry: GeneratedAssetNames

    constructor (config: InjectConfig, registry: GeneratedAssetNames)
      ensures this.config == config && !alreadyCalled && this.registry == registry
    {
      this.config := config;
      this.alreadyCalled := false;
      this.registry := registry;
    }

    /** `propagateWebpackConfig(compiler)`, given the compiler's `mode`. */
    method PropagateWebpackConfig(compilerMode: Option<string>)
      modifies this`config
      ensures config == WithDefaults(old(config), compilerMode)
    {
      config := WithDefaults(config, compilerMode);
    }

    /** The part of `handleMake` before the service worker is compiled or read:
        validation, the final `swDest` and its registration, and the warning
        for compilation plugins that will not be used. */
    method HandleMake(compilation: Compilation, deps: Dependencies) returns (outcome: Outcome<Thrown>)
      modifies this`config, registry, compilation`warnings
      ensures old(registry.names) <= registry.names
      ensures deps.validate(old(config)).Rejected? ==>
        outcome == Fail(PluginError(ConfigErrorPrefix + deps.validate(old(config)).message)) &&
        config == old(config) && registry.names == old(registry.names) &&
        compilation.warnings == old(compilation.warnings)
      ensures !deps.validate(old(config)).Rejected? ==>
        var c := AfterValidation(old(config), deps.validate(old(config)));
        if c.swDest.None? then
          outcome == Fail(TypeError) && config == c && registry.names == old(registry.names) &&
          compilation.warnings == old(compilation.warnings)
        else
          var swDest := RelativeToOutputPath(compilation.cwd, compilation.options.outputPath, c.swDest.value);
          outcome == Pass && config == c.(swDest := Some(swDest)) &&
          registry.names == old(registry.names) + {swDest} &&
          compilation.warnings == old(compilation.warnings) +
            (if PluginsIgnored(c) then [compilation.render(IgnoredPluginsWarning)] else [])
    {
      var v := deps.validate(config);
      if v.Rejected? {
        return Fail(PluginError(ConfigErrorPrefix + v.message));
      }
      config := AfterValidation(config, v);
      if config.swDest.None? {
        return Fail(TypeError);
      }
      var swDest := RelativeToOutputPath(compilation.cwd, compilation.options.outputPath, config.swDest.value);
      config := config.(swDest := Some(swDest));
      registry.Add(swDest);
      if PluginsIgnored(config) {
        compilation.PushWarning(IgnoredPluginsWarning);
      }
      return Pass;
    }

    /** `addAssets(compilation)`: the repeat warning, the exclude rule, the
        file dependency, the check of the injection point, the extractor's
        warnings, and the new text of the service worker (and of its source
        map, when it has one). */
    method AddAssets(compilation: Compilation, deps: Dependencies) returns (outcome: Outcome<Thrown>)
      modifies this`alreadyCalled, this`config, registry
      modifies compilation`warnings, compilation`assets, compilation`fileDependencies
      ensures alreadyCalled
      ensures !Ready(old(config), old(compilation.assets)) ==>
        compilation.warnings ==
          if old(alreadyCalled) then AfterRepeatCheck(old(compilation.warnings), compilation.render)
          else old(compilation.warnings)
      ensures old(registry.names) <= registry.names
      ensures outcome.Fail? && outcome != Fail(TypeError) && outcome != Fail(LibraryError) ==>
        registry.names == old(registry.names) && compilation.assets == old(compilation.assets)
      ensures old(config).exclude.None? ==>
        outcome == Fail(TypeError) && config == old(config) && registry.names == old(registry.names) &&
        compilation.assets == old(compilation.assets) &&
        compilation.fileDependencies == old(compilation.fileDependencies)
      ensures old(config).exclude.Some? ==>
        config == old(config).(exclude := Some(old(config).exclude.value + [GeneratedAsset])) &&
        compilation.fileDependencies ==
          old(compilation.fileDependencies) + {Resolve(compilation.cwd, old(config).swSrc)}
      ensures old(config).exclude.Some? && !Ready(old(config), old(compilation.assets)) ==>
        outcome == Fail(TypeError) && registry.names == old(registry.names) &&
        compilation.assets == old(compilation.assets)
      ensures Ready(old(config), old(compilation.assets)) ==>
        var w := if old(alreadyCalled) then AfterRepeatCheck(old(compilation.warnings), compilation.render)
                 else old(compilation.warnings);
        var swDest, ip := old(config).swDest.value, old(config).injectionPoint.value;
        var text := old(compilation.assets)[swDest].source;
        var extraction := deps.manifest(old(compilation.assets), config.exclude.value, old(registry.names));
        if CheckInjectionPoint(text, ip).Fail? then
          outcome == Fail(PluginError(CheckInjectionPoint(text, ip).error)) && compilation.warnings == w &&
          registry.names == old(registry.names) && compilation.assets == old(compilation.assets)
        else if extraction.ExtractionFailed? then
          outcome == Fail(LibraryError) && compilation.warnings == w &&
          registry.names == old(registry.names) && compilation.assets == old(compilation.assets)
        else
          var manifest := ManifestString(extraction.entries, old(config).compileSrc,
                                         compilation.options.devtool, compilation.options.minimize);
          var sm := deps.sourcemapAssetName(text, swDest);
          compilation.warnings == w + RenderAll(compilation.render, extraction.warnings) &&
          if Truthy(sm) then
            registry.names == old(registry.names) + {sm.value} &&
            if sm.value !in old(compilation.assets) then
              outcome == Fail(TypeError) && compilation.assets == old(compilation.assets)
            else
              var replaced := deps.replaceAndUpdateSourceMap(
                swDest, old(compilation.assets)[sm.value].source, text, manifest, ip);
              if replaced.None? then
                outcome == Fail(LibraryError) && compilation.assets == old(compilation.assets)
              else
                var a := old(compilation.assets)[sm.value := Asset(replaced.value.1, old(compilation.assets)[sm.value].minimized)];
                outcome == Pass && compilation.assets == a[swDest := Asset(replaced.value.0, a[swDest].minimized)]
          else
            outcome == Pass && registry.names == old(registry.names) &&
            compilation.assets == old(compilation.assets)[swDest :=
              Asset(ReplaceFirst(text, ip, manifest), old(compilation.assets)[swDest].minimized)]
    {
      if alreadyCalled {
        if !HasRepeatWarning(compilation.warnings) {
          compilation.PushWarning(RepeatWarning);
        }
      } else {
        alreadyCalled := true;
      }
      if config.exclude.None? {
        return Fail(TypeError);
      }
      // The copy is shallow, so the rule lands in this instance's own list.
      config := config.(exclude := Some(config.exclude.value + [GeneratedAsset]));
      compilation.AddFileDependency(Resolve(compilation.cwd, config.swSrc));
      if !Ready(config, compilation.assets) {
        return Fail(TypeError);
      }
      var swDest, ip := config.swDest.value, config.injectionPoint.value;
      var text := compilation.assets[swDest].source;
      var check := CheckInjectionPoint(text, ip);
      if check.Fail? {
        return Fail(PluginError(check.error));
      }
      var extraction := deps.manifest(compilation.assets, config.exclude.value, registry.names);
      if extraction.ExtractionFailed? {
        return Fail(LibraryError);
      }
      compilation.PushWarnings(extraction.warnings);
      var manifest := ManifestString(extraction.entries,
        config.compileSrc, compilation.options.devtool, compilation.options.minimize);
      var sm := deps.sourcemapAssetName(text, swDest);
      if Truthy(sm) {
        registry.Add(sm.value);
        if sm.value !in compilation.assets {
          return Fail(TypeError);
        }
        var replaced := deps.replaceAndUpdateSourceMap(swDest, compilation.assets[sm.value].source, text, manifest, ip);
        if replaced.None? {
          return Fail(LibraryError);
        }
        compilation.UpdateAsset(sm.value, replaced.value.1);
        compilation.UpdateAsset(swDest, replaced.value.0);
      } else {
        compilation.UpdateAsset(swDest, ReplaceFirst(text, ip, manifest));
      }
      return Pass;
    }
  }

  // ------------------------------------------------------------- properties

  /** The number of warnings recognised as the repeat warning; its contract is
      the specification the lemmas below use.  The GenerateSW module counts
      with its own, exact, notion of a repeat warning. */
  function RepeatCount(warnings: seq<Warning>): (r: nat)
    ensures r <= |warnings|
    ensures r == 0 <==> !HasRepeatWarning(warnings)
  {
    CountWhere(IsRepeatWarning, warnings)
  }

  /** The host presents the repeat warning so that `extractMessage` gives it back. */
  predicate RoundTrips(render: string -> Warning) {
    IsRepeatWarning(render(RepeatWarning))
  }

  /** Given such a host, a repeated call leaves the compilation with exactly one
      recognised repeat warning if it had at most one, and a second instance
      running on the same compilation adds nothing more. */
  lemma RepeatWarningOnce(warnings: seq<Warning>, render: string -> Warning)
    requires RoundTrips(render) && RepeatCount(warnings) <= 1
    ensures RepeatCount(AfterRepeatCheck(warnings, render)) == 1
    ensures AfterRepeatCheck(AfterRepeatCheck(warnings, render), render) == AfterRepeatCheck(warnings, render)
  {
    CountWhereSnoc(IsRepeatWarning, warnings, render(RepeatWarning));
  }

  /** A host that leaves the message as it is defeats the check: a message
      without the warning sign is never recognised, so every repeated call
      adds another copy. */
  lemma PlainRenderRepeats(warnings: seq<Warning>, render: string -> Warning)
    requires render(RepeatWarning) == Warning(true, Some(RepeatWarning))
    requires !HasRepeatWarning(warnings)
    ensures AfterRepeatCheck(warnings, render) == warnings + [Warning(true, Some(RepeatWarning))]
    ensures !HasRepeatWarning(AfterRepeatCheck(warnings, render))
  {
    RepeatWarningIsPlain();
    ExtractMessage.NoWarningSignNoMessage(RepeatWarning);
    var w := AfterRepeatCheck(warnings, render);
    forall i | 0 <= i < |w| ensures !IsRepeatWarning(w[i]) {
      if i < |warnings| {
        assert w[i] == warnings[i];
      }
    }
  }

  /** A host that presents an `Error` in the boxed layout (the warning sign,
      "Error: ", the message, the box rule and the stack trace) lets the check
      recognise the repeat warning. */
  lemma BoxedRenderRoundTrips(render: string -> Warning, stack: string)
    requires render(RepeatWarning) == Warning(true, Some(ExtractMessage.Rendered(RepeatWarning, stack)))
    ensures RoundTrips(render)
  {
    RepeatWarningIsPlain();
    PlainHasNoTerminator(RepeatWarning);
    ExtractMessage.ExtractRendered(RepeatWarning, stack);
  }

  /** One line of text without the warning sign and without two spaces in a row. */
  predicate Plain(s: string) {
    (forall k :: 0 <= k < |s| ==> !IsLineTerminator(s[k]) && s[k] != '\U{26A0}') &&
    (forall k :: 0 <= k < |s| - 1 ==> !(s[k] == ' ' && s[k + 1] == ' '))
  }

  /** Two plain texts that do not meet in two spaces make a plain text. */
  lemma PlainConcat(a: string, b: string)
    requires Plain(a) && Plain(b) && a != [] && b != [] && !(a[|a| - 1] == ' ' && b[0] == ' ')
    ensures Plain(a + b) && (a + b)[|a + b| - 1] == b[|b| - 1]
  {
    var s := a + b;
    forall k | 0 <= k < |s| - 1 ensures !(s[k] == ' ' && s[k + 1] == ' ') {
      if k < |a| - 1 {
        assert s[k] == a[k] && s[k + 1] == a[k + 1];
      } else if k == |a| - 1 {
        assert s[k] == a[|a| - 1] && s[k + 1] == b[0];
      } else {
        assert s[k] == b[k - |a|] && s[k + 1] == b[k + 1 - |a|];
      }
    }
  }

  /** The repeat warning is one line, has no warning sign and no run of two spaces. */
  lemma RepeatWarningIsPlain()
    ensures Plain(RepeatWarning)
  {
    PiecesArePlain1();
    PiecesArePlain2();
    PiecesArePlain3();
    PiecesArePlain4();
    PiecesArePlain5();
    var a := "InjectManifest ";
    PlainConcat(a, "has been called ");
    a := a + "has been called ";
    PlainConcat(a, "multiple times, ");
    a := a + "multiple times, ";
    PlainConcat(a, "perhaps due to ");
    a := a + "perhaps due to ";
    PlainConcat(a, "running webpack ");
    a := a + "running webpack ";
    PlainConcat(a, "in --watch ");
    a := a + "in --watch ";
    PlainConcat(a, "mode. The ");
    a := a + "mode. The ";
    PlainConcat(a, "precache ");
    a := a + "precache ";
    PlainConcat(a, "manifest ");
    a := a + "manifest ";
    PlainConcat(a, "generated after ");
    a := a + "generated after ";
    PlainConcat(a, "the first call ");
    a := a + "the first call ";
    PlainConcat(a, "may be ");
    a := a + "may be ";
    PlainConcat(a, "inaccurate! ");
    a := a + "inaccurate! ";
    PlainConcat(a, "Please see ");
    a := a + "Please see ";
    PlainConcat(a, "https://");
    a := a + "https://";
    PlainConcat(a, "github.com/");
    a := a + "github.com/";
    PlainConcat(a, "GoogleChrome/");
    a := a + "GoogleChrome/";
    PlainConcat(a, "workbox/issues/");
    a := a + "workbox/issues/";
    PlainConcat(a, "1790 for more ");
    a := a + "1790 for more ";
    PlainConcat(a, "information.");
    a := a + "information.";
    assert a == RepeatWarning;
  }

  /** The pieces of the repeat warning, four at a time. */
  lemma PiecesArePlain1()
    ensures Plain("InjectManifest ")
    ensures Plain("has been called ")
    ensures Plain("multiple times, ")
    ensures Plain("perhaps due to ")
  {
  }

  lemma PiecesArePlain2()
    ensures Plain("running webpack ")
    ensures Plain("in --watch ")
    ensures Plain("mode. The ")
    ensures Plain("precache ")
  {
  }

  lemma PiecesArePlain3()
    ensures Plain("manifest ")
    ensures Plain("generated after ")
    ensures Plain("the first call ")
    ensures Plain("may be ")
  {
  }

  lemma PiecesArePlain4()
    ensures Plain("inaccurate! ")
    ensures Plain("Please see ")
    ensures Plain("https://")
    ensures Plain("github.com/")
  {
  }

  lemma PiecesArePlain5()
    ensures Plain("GoogleChrome/")
    ensures Plain("workbox/issues/")
    ensures Plain("1790 for more ")
    ensures Plain("information.")
  {
  }

  /** A plain text holds no occurrence of the four spaces before "at". */
  lemma PlainHasNoTerminator(w: string)
    requires Plain(w)
    ensures forall k :: !OccursAt(w, ExtractMessage.Terminator, k)
  {
    forall k ensures !OccursAt(w, ExtractMessage.Terminator, k) {
      if 0 <= k && k + 6 <= |w| {
        assert w[k..k + 6][0] == w[k] && w[k..k + 6][1] == w[k + 1];
      }
    }
  }

  /** A TypeScript `swSrc` without an explicit `swDest` yields a ".js" `swDest`
      named after it. */
  lemma TypeScriptSourceGivesScript(config: InjectConfig, compilerMode: Option<string>, dir: string, stem: string)
    requires config.swDest.None? && config.swSrc == dir + "/" + stem + ".ts"
    requires stem != "" && '.' !in stem && '/' !in stem && !IsLineTerminator(stem[|stem| - 1])
    ensures WithDefaults(config, compilerMode).swDest == Some(stem + ".js")
  {
    assert dir + "/" + stem + "." + "ts" == config.swSrc;
    StemOfFile(dir, stem, "ts");
  }
}
