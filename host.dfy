/** The parts of the bundler's compilation object the plugins read and change:
    its options, the chunks of its statistics, the list of warnings, the map of
    assets and the set of file dependencies. */
module Host {
  import opened Wrappers

  /** One entry of `compilation.warnings` as code reading it back sees it:
      whether it is an `Error` instance, and its `message` when that is a string. */
  datatype Warning = Warning(isError: bool, message: Option<string>)

  /** An asset: its source text and whether its info marks it as minimized. */
  datatype Asset = Asset(source: string, minimized: bool)

  /** A chunk of the compilation's statistics, with its names and its files. */
  datatype Chunk = Chunk(names: seq<string>, files: seq<string>)

  /** The bundler options the plugins read: `mode`, `devtool` (None for an
      absent or `false` value), `optimization.minimize`, `output.path` and
      `output.publicPath`. */
  datatype Options = Options(
    mode: Option<string>,
    devtool: Option<string>,
    minimize: Option<bool>,
    outputPath: string,
    publicPath: string)

  /** What the manifest extractor (`getManifestEntriesFromCompilation`) gives
      back: the messages of the warnings it pushes onto the compilation,
      together with the entries; or a rejection. */
  datatype Extraction<T> = Extracted(warnings: seq<string>, entries: T) | ExtractionFailed

  /** The entries a host presents for errors pushed with these messages; the
      contract, entry by entry, is its specification. */
  function RenderAll(render: string -> Warning, messages: seq<string>): (r: seq<Warning>)
    ensures |r| == |messages|
    ensures forall i :: 0 <= i < |messages| ==> r[i] == render(messages[i])
  {
    seq(|messages|, i requires 0 <= i < |messages| => render(messages[i]))
  }

  /** Rendering one more message appends one more entry. */
  lemma RenderAllSnoc(render: string -> Warning, messages: seq<string>, m: string)
    ensures RenderAll(render, messages + [m]) == RenderAll(render, messages) + [render(m)]
  {
  }

  /** The number of warnings that `p` holds of; zero exactly when it holds of none. */
  function CountWhere(p: Warning -> bool, warnings: seq<Warning>): (r: nat)
    ensures r <= |warnings|
    ensures r == 0 <==> forall i :: 0 <= i < |warnings| ==> !p(warnings[i])
    decreases |warnings|
  {
    if warnings == [] then 0
    else
      var init := warnings[..|warnings| - 1];
      assert forall i :: 0 <= i < |init| ==> init[i] == warnings[i];
      CountWhere(p, init) + (if p(warnings[|warnings| - 1]) then 1 else 0)
  }

  /** One more warning adds one to the count exactly when `p` holds of it. */
  lemma CountWhereSnoc(p: Warning -> bool, warnings: seq<Warning>, w: Warning)
    ensures CountWhere(p, warnings + [w]) == CountWhere(p, warnings) + (if p(w) then 1 else 0)
  {
    assert (warnings + [w])[..|warnings|] == warnings;
  }

  /** JavaScript truthiness of an optional string. */
  predicate Truthy(s: Option<string>) {
    s.Some? && s.value != ""
  }

  class Compilation {
    const options: Options
    const chunks: seq<Chunk>
    /** The working directory of the process, against which paths resolve. */
    const cwd: string
    /** What reading `compilation.warnings` back yields for an entry pushed as
        `new Error(m)`; the bundler may present the message in its own layout. */
    const render: string -> Warning
    var warnings: seq<Warning>
    var assets: map<string, Asset>
    var fileDependencies: set<string>

    constructor (options: Options, chunks: seq<Chunk>, cwd: string, render: string -> Warning,
                 warnings: seq<Warning>, assets: map<string, Asset>)
      ensures this.options == options && this.chunks == chunks && this.cwd == cwd
      ensures this.render == render && this.warnings == warnings && this.assets == assets
      ensures fileDependencies == {}
    {
      this.options := options;
      this.chunks := chunks;
      this.cwd := cwd;
      this.render := render;
      this.warnings := warnings;
      this.assets := assets;
      this.fileDependencies := {};
    }

    /** `compilation.warnings.push(new Error(m))`. */
    method PushWarning(m: string)
      modifies this`warnings
      ensures warnings == old(warnings) + [render(m)]
    {
      warnings := warnings + [render(m)];
    }

    /** One `compilation.warnings.push(new Error(m))` per message, in order. */
    method PushWarnings(ms: seq<string>)
      modifies this`warnings
      ensures warnings == old(warnings) + RenderAll(render, ms)
    {
      warnings := warnings + RenderAll(render, ms);
    }

    /** `compilation.emitAsset(name, source, { minimized })`. */
    method EmitAsset(name: string, source: string, minimized: bool)
      modifies this`assets
      ensures assets == old(assets)[name := Asset(source, minimized)]
    {
      assets := assets[name := Asset(source, minimized)];
    }

    /** `compilation.updateAsset(name, source, {})`: new text, same info. */
    method UpdateAsset(name: string, source: string)
      requires name in assets
      modifies this`assets
      ensures assets == old(assets)[name := Asset(source, old(assets)[name].minimized)]
    {
      assets := assets[name := Asset(source, assets[name].minimized)];
    }

    /** `compilation.fileDependencies.add(p)`. */
    method AddFileDependency(p: string)
      modifies this`fileDependencies
      ensures fileDependencies == old(fileDependencies) + {p}
    {
      fileDependencies := fileDependencies + {p};
    }
  }
}
