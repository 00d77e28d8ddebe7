/** `getScriptFilesForChunks`: the URLs of the JavaScript files of the chunks
    named in `importScriptsViaChunks`, without repetition and in the order they
    were first met, with a warning for every name no chunk carries and one more
    when no file was found at all. */
module ScriptFiles {
  import opened Wrappers
  import opened Text
  import opened Paths
  import opened Host

  /** Where `chunks.find((chunk) => chunk.names.includes(name))` finds the
      chunk, searching from index `from`. */
  function FindChunkFrom(chunks: seq<Chunk>, name: string, from: nat): (r: Option<nat>)
    ensures r.Some? ==> from <= r.value < |chunks| && name in chunks[r.value].names
    ensures r.Some? ==> forall k :: from <= k < r.value ==> name !in chunks[k].names
    ensures r.None? ==> forall k :: from <= k < |chunks| ==> name !in chunks[k].names
    decreases |chunks| - from
  {
    if from >= |chunks| then None
    else if name in chunks[from].names then Some(from)
    else FindChunkFrom(chunks, name, from + 1)
  }

  /** The first chunk that carries `name`, by its index. */
  function FindChunk(chunks: seq<Chunk>, name: string): Option<nat> {
    FindChunkFrom(chunks, name, 0)
  }

  /** A file whose final extension is exactly ".js". */
  predicate IsScript(file: string) {
    Extname(file) == ".js"
  }

  /** The URLs of the script files among `files`, in order. */
  function ChunkScripts(files: seq<string>, publicPath: string, url: (string, string) -> string): seq<string>
    decreases |files|
  {
    if files == [] then []
    else
      var last := files[|files| - 1];
      ChunkScripts(files[..|files| - 1], publicPath, url) + (if IsScript(last) then [url(publicPath, last)] else [])
  }

  /** The URLs of the script files of the chunk carrying `name`, if any. */
  function Contribution(chunks: seq<Chunk>, name: string, publicPath: string,
                        url: (string, string) -> string): seq<string>
  {
    match FindChunk(chunks, name)
    case None => []
    case Some(i) => ChunkScripts(chunks[i].files, publicPath, url)
  }

  /** The URLs of the script files each name contributes, name after name. */
  function Candidates(chunks: seq<Chunk>, names: seq<string>, publicPath: string,
                      url: (string, string) -> string): seq<string>
    decreases |names|
  {
    if names == [] then []
    else
      Candidates(chunks, names[..|names| - 1], publicPath, url) +
      Contribution(chunks, names[|names| - 1], publicPath, url)
  }

  /** `set.add(x)` on a set kept in insertion order. */
  function Insert(r: seq<string>, x: string): seq<string> {
    if x in r then r else r + [x]
  }

  /** `Array.from` of a set filled with `xs` in order. */
  function Dedup(xs: seq<string>): seq<string>
    decreases |xs|
  {
    if xs == [] then [] else Insert(Dedup(xs[..|xs| - 1]), xs[|xs| - 1])
  }

  /** The names no chunk carries, in order. */
  function Unmatched(chunks: seq<Chunk>, names: seq<string>): seq<string>
    decreases |names|
  {
    if names == [] then []
    else
      Unmatched(chunks, names[..|names| - 1]) +
      (if FindChunk(chunks, names[|names| - 1]).None? then [names[|names| - 1]] else [])
  }

  function UnmatchedMessage(name: string): string {
    name + " was provided to importScriptsViaChunks, but didn't match any named chunks."
  }

  function NoAssetsMessage(names: seq<string>): string {
    "There were no assets matching importScriptsViaChunks: [" + Join(names, " ") + "]."
  }

  function UnmatchedMessages(unmatched: seq<string>): seq<string> {
    seq(|unmatched|, i requires 0 <= i < |unmatched| => UnmatchedMessage(unmatched[i]))
  }

  /** The messages of the warnings `getScriptFilesForChunks` pushes, in order. */
  function Messages(chunks: seq<Chunk>, names: seq<string>, publicPath: string,
                    url: (string, string) -> string): seq<string>
  {
    UnmatchedMessages(Unmatched(chunks, names)) +
    (if Dedup(Candidates(chunks, names, publicPath, url)) == [] then [NoAssetsMessage(names)] else [])
  }

  /** The inner loop: adds the script files of one chunk to the set. */
  method AddChunkScripts(scripts: seq<string>, files: seq<string>, publicPath: string,
                         url: (string, string) -> string, ghost before: seq<string>)
    returns (r: seq<string>)
    requires scripts == Dedup(before)
    ensures r == Dedup(before + ChunkScripts(files, publicPath, url))
  {
    r := scripts;
    var m := 0;
    assert before + ChunkScripts(files[..0], publicPath, url) == before;
    while m < |files|
      invariant 0 <= m <= |files|
      invariant r == Dedup(before + ChunkScripts(files[..m], publicPath, url))
    {
      FileStep(before, files, m, publicPath, url);
      if IsScript(files[m]) {
        var u := url(publicPath, files[m]);
        if u !in r {
          r := r + [u];
        }
      }
      m := m + 1;
    }
    assert files[..m] == files;
  }

  /** `getScriptFilesForChunks(compilation, names)`. */
  method GetScriptFilesForChunks(compilation: Compilation, names: seq<string>, url: (string, string) -> string)
    returns (scripts: seq<string>)
    modifies compilation`warnings
    ensures scripts == Dedup(Candidates(compilation.chunks, names, compilation.options.publicPath, url))
    ensures compilation.warnings == old(compilation.warnings) +
      RenderAll(compilation.render, Messages(compilation.chunks, names, compilation.options.publicPath, url))
  {
    var chunks, publicPath := compilation.chunks, compilation.options.publicPath;
    scripts := [];
    var n := 0;
    while n < |names|
      invariant 0 <= n <= |names|
      invariant scripts == Dedup(Candidates(chunks, names[..n], publicPath, url))
      invariant compilation.warnings == old(compilation.warnings) +
        RenderAll(compilation.render, UnmatchedMessages(Unmatched(chunks, names[..n])))
    {
      scripts := AddName(compilation, scripts, names, n, url, old(compilation.warnings));
      n := n + 1;
    }
    assert names[..n] == names;
    ghost var unmatched := UnmatchedMessages(Unmatched(chunks, names));
    if |scripts| == 0 {
      compilation.PushWarning(NoAssetsMessage(names));
      RenderAllSnoc(compilation.render, unmatched, NoAssetsMessage(names));
      assert Messages(chunks, names, publicPath, url) == unmatched + [NoAssetsMessage(names)];
    } else {
      assert Messages(chunks, names, publicPath, url) == unmatched + [];
    }
  }

  /** One turn of the outer loop: the scripts of the chunk carrying `names[n]`
      join the set, or the warning for an unmatched name is pushed after the
      warnings of the names before it. */
  method AddName(compilation: Compilation, scripts: seq<string>, names: seq<string>, n: nat,
                 url: (string, string) -> string, ghost start: seq<Warning>)
    returns (r: seq<string>)
    requires n < |names|
    requires scripts == Dedup(Candidates(compilation.chunks, names[..n], compilation.options.publicPath, url))
    requires compilation.warnings ==
      start + RenderAll(compilation.render, UnmatchedMessages(Unmatched(compilation.chunks, names[..n])))
    modifies compilation`warnings
    ensures r == Dedup(Candidates(compilation.chunks, names[..n + 1], compilation.options.publicPath, url))
    ensures compilation.warnings ==
      start + RenderAll(compilation.render, UnmatchedMessages(Unmatched(compilation.chunks, names[..n + 1])))
  {
    var chunks, publicPath := compilation.chunks, compilation.options.publicPath;
    NameStep(chunks, names, n, publicPath, url);
    WarningsStep(chunks, names, n, compilation.render);
    var found := FindChunk(chunks, names[n]);
    ghost var before := Candidates(chunks, names[..n], publicPath, url);
    if found.Some? {
      r := AddChunkScripts(scripts, chunks[found.value].files, publicPath, url, before);
    } else {
      assert before + Contribution(chunks, names[n], publicPath, url) == before;
      r := scripts;
      compilation.PushWarning(UnmatchedMessage(names[n]));
    }
  }

  // ------------------------------------------------------- one step at a time

  lemma DedupStep(xs: seq<string>, x: string)
    ensures Dedup(xs + [x]) == Insert(Dedup(xs), x)
  {
    assert (xs + [x])[..|xs|] == xs;
  }

  lemma ChunkScriptsStep(files: seq<string>, m: nat, publicPath: string, url: (string, string) -> string)
    requires m < |files|
    ensures ChunkScripts(files[..m + 1], publicPath, url) == ChunkScripts(files[..m], publicPath, url) +
      (if IsScript(files[m]) then [url(publicPath, files[m])] else [])
  {
    assert files[..m + 1][..m] == files[..m];
  }

  /** Taking one more file of a chunk adds its URL to the set when it is a script. */
  lemma FileStep(before: seq<string>, files: seq<string>, m: nat, publicPath: string,
                 url: (string, string) -> string)
    requires m < |files|
    ensures Dedup(before + ChunkScripts(files[..m + 1], publicPath, url)) ==
      if IsScript(files[m]) then Insert(Dedup(before + ChunkScripts(files[..m], publicPath, url)), url(publicPath, files[m]))
      else Dedup(before + ChunkScripts(files[..m], publicPath, url))
  {
    ChunkScriptsStep(files, m, publicPath, url);
    var prefix := before + ChunkScripts(files[..m], publicPath, url);
    if IsScript(files[m]) {
      var u := url(publicPath, files[m]);
      assert before + ChunkScripts(files[..m + 1], publicPath, url) == prefix + [u];
      DedupStep(prefix, u);
    } else {
      assert before + ChunkScripts(files[..m + 1], publicPath, url) == prefix;
    }
  }

  /** Taking one more name adds the warning for it exactly when no chunk carries it. */
  lemma WarningsStep(chunks: seq<Chunk>, names: seq<string>, n: nat, render: string -> Warning)
    requires n < |names|
    ensures RenderAll(render, UnmatchedMessages(Unmatched(chunks, names[..n + 1]))) ==
      RenderAll(render, UnmatchedMessages(Unmatched(chunks, names[..n]))) +
      if FindChunk(chunks, names[n]).None? then [render(UnmatchedMessage(names[n]))] else []
  {
    NameStep(chunks, names, n, "", (p, f) => f);
    if FindChunk(chunks, names[n]).None? {
      RenderAllSnoc(render, UnmatchedMessages(Unmatched(chunks, names[..n])), UnmatchedMessage(names[n]));
    }
  }

  /** Taking one more name extends the candidates, the unmatched names and their messages. */
  lemma NameStep(chunks: seq<Chunk>, names: seq<string>, n: nat, publicPath: string, url: (string, string) -> string)
    requires n < |names|
    ensures Candidates(chunks, names[..n + 1], publicPath, url) ==
      Candidates(chunks, names[..n], publicPath, url) + Contribution(chunks, names[n], publicPath, url)
    ensures FindChunk(chunks, names[n]).Some? ==> Unmatched(chunks, names[..n + 1]) == Unmatched(chunks, names[..n])
    ensures FindChunk(chunks, names[n]).None? ==>
      UnmatchedMessages(Unmatched(chunks, names[..n + 1])) ==
      UnmatchedMessages(Unmatched(chunks, names[..n])) + [UnmatchedMessage(names[n])]
  {
    assert names[..n + 1][..n] == names[..n];
  }


  // ------------------------------------------------------------- properties

  /** The position of the first `x` in `xs`. */
  function FirstIndex(xs: seq<string>, x: string): (r: nat)
    requires x in xs
    ensures r < |xs| && xs[r] == x && x !in xs[..r]
  {
    if xs[0] == x then 0 else 1 + FirstIndex(xs[1..], x)
  }

  /** The set holds exactly the values added to it. */
  lemma {:induction false} DedupMembers(xs: seq<string>)
    ensures forall x :: x in Dedup(xs) <==> x in xs
    decreases |xs|
  {
    if xs != [] {
      var init := xs[..|xs| - 1];
      DedupMembers(init);
      assert xs == init + [xs[|xs| - 1]];
    }
  }

  /** No value is listed twice. */
  lemma {:induction false} DedupNoDuplicates(xs: seq<string>)
    ensures forall i, j :: 0 <= i < j < |Dedup(xs)| ==> Dedup(xs)[i] != Dedup(xs)[j]
    decreases |xs|
  {
    if xs != [] {
      DedupNoDuplicates(xs[..|xs| - 1]);
    }
  }

  /** Values are listed in the order of their first addition. */
  lemma {:induction false} DedupFirstOrder(xs: seq<string>)
    ensures forall x :: x in Dedup(xs) ==> x in xs
    ensures forall i, j :: 0 <= i < j < |Dedup(xs)| ==>
      FirstIndex(xs, Dedup(xs)[i]) < FirstIndex(xs, Dedup(xs)[j])
    decreases |xs|
  {
    DedupMembers(xs);
    assert forall k :: 0 <= k < |Dedup(xs)| ==> Dedup(xs)[k] in xs;
    if xs != [] {
      var init, x := xs[..|xs| - 1], xs[|xs| - 1];
      assert xs == init + [x];
      DedupMembers(init);
      DedupFirstOrder(init);
      var r := Dedup(init);
      var d := Dedup(xs);
      assert d == Insert(r, x);
      forall i, j | 0 <= i < j < |d|
        ensures FirstIndex(xs, d[i]) < FirstIndex(xs, d[j])
      {
        InsertKeepsOrder(init, x, i, j);
      }
    }
  }

  /** Adding `x` to the set of `init` keeps the order of first additions, for
      one pair of positions. */
  lemma InsertKeepsOrder(init: seq<string>, x: string, i: nat, j: nat)
    requires forall y :: y in Dedup(init) <==> y in init
    requires forall i, j :: 0 <= i < j < |Dedup(init)| ==>
      FirstIndex(init, Dedup(init)[i]) < FirstIndex(init, Dedup(init)[j])
    requires i < j < |Insert(Dedup(init), x)|
    ensures FirstIndex(init + [x], Insert(Dedup(init), x)[i]) < FirstIndex(init + [x], Insert(Dedup(init), x)[j])
  {
    var r, d, xs := Dedup(init), Insert(Dedup(init), x), init + [x];
    FirstIndexOfPrefix(init, x, d[i]);
    if j < |r| {
      FirstIndexOfPrefix(init, x, d[j]);
      assert FirstIndex(init, r[i]) < FirstIndex(init, r[j]);
    } else {
      assert d[j] == x && x !in init;
      assert xs[..|init|] == init;
      FirstIndexUnique(xs, x, |init|);
    }
  }

  lemma FirstIndexOfPrefix(init: seq<string>, x: string, y: string)
    requires y in init
    ensures FirstIndex(init + [x], y) == FirstIndex(init, y)
  {
    var i := FirstIndex(init, y);
    var xs := init + [x];
    assert xs[..i] == init[..i];
    FirstIndexUnique(xs, y, i);
  }

  /** A position holding `x` with no `x` before it is the first position of `x`. */
  lemma {:induction false} FirstIndexUnique(xs: seq<string>, x: string, i: nat)
    requires i < |xs| && xs[i] == x && x !in xs[..i]
    ensures FirstIndex(xs, x) == i
    decreases i
  {
    if i > 0 {
      assert xs[0] == xs[..i][0];
      assert xs[1..][..i - 1] == xs[..i][1..];
      FirstIndexUnique(xs[1..], x, i - 1);
    }
  }

  /** A chunk's script URLs are the URLs of exactly its ".js" files. */
  lemma {:induction false} ChunkScriptsMembers(files: seq<string>, publicPath: string, url: (string, string) -> string)
    ensures forall x :: x in ChunkScripts(files, publicPath, url) <==>
      exists f :: f in files && IsScript(f) && x == url(publicPath, f)
    decreases |files|
  {
    if files != [] {
      var init, last := files[..|files| - 1], files[|files| - 1];
      ChunkScriptsMembers(init, publicPath, url);
      assert files == init + [last];
    }
  }

  /** The scripts found are those that the chunks of the named entries contribute. */
  lemma {:induction false} CandidatesMembers(chunks: seq<Chunk>, names: seq<string>, publicPath: string,
                                             url: (string, string) -> string)
    ensures forall x :: x in Candidates(chunks, names, publicPath, url) <==>
      exists k :: 0 <= k < |names| && x in Contribution(chunks, names[k], publicPath, url)
    decreases |names|
  {
    if names != [] {
      var init := names[..|names| - 1];
      CandidatesMembers(chunks, init, publicPath, url);
      forall k | 0 <= k < |init| ensures init[k] == names[k] { }
    }
  }

  /** What `getScriptFilesForChunks` returns: every ".js" file of a chunk that
      is the first to carry one of the names, as a URL, once. */
  lemma ScriptFilesExactly(chunks: seq<Chunk>, names: seq<string>, publicPath: string,
                           url: (string, string) -> string, x: string)
    ensures x in Dedup(Candidates(chunks, names, publicPath, url)) <==>
      exists k, i :: 0 <= k < |names| && FindChunk(chunks, names[k]) == Some(i) &&
        x in ChunkScripts(chunks[i].files, publicPath, url)
  {
    DedupMembers(Candidates(chunks, names, publicPath, url));
    CandidatesMembers(chunks, names, publicPath, url);
  }

  /** The unmatched names are exactly the given names that no chunk carries. */
  lemma {:induction false} UnmatchedMembers(chunks: seq<Chunk>, names: seq<string>)
    ensures forall name :: name in Unmatched(chunks, names) <==>
      name in names && forall c :: c in chunks ==> name !in c.names
    decreases |names|
  {
    if names != [] {
      var init, last := names[..|names| - 1], names[|names| - 1];
      UnmatchedMembers(chunks, init);
      assert names == init + [last];
      var found := FindChunk(chunks, last);
      if found.Some? {
        assert chunks[found.value] in chunks;
      }
    }
  }

  /** The closing warning is pushed exactly when no named chunk contributes a script. */
  lemma {:induction false} NoAssetsWarningExactly(chunks: seq<Chunk>, names: seq<string>, publicPath: string,
                                                  url: (string, string) -> string)
    ensures Messages(chunks, names, publicPath, url) ==
      UnmatchedMessages(Unmatched(chunks, names)) +
      (if forall k :: 0 <= k < |names| ==> Contribution(chunks, names[k], publicPath, url) == []
       then [NoAssetsMessage(names)] else [])
  {
    var c := Candidates(chunks, names, publicPath, url);
    DedupMembers(c);
    CandidatesMembers(chunks, names, publicPath, url);
    if forall k :: 0 <= k < |names| ==> Contribution(chunks, names[k], publicPath, url) == [] {
      CandidatesEmpty(chunks, names, publicPath, url);
    } else {
      var k :| 0 <= k < |names| && Contribution(chunks, names[k], publicPath, url) != [];
      var x := Contribution(chunks, names[k], publicPath, url)[0];
      assert x in c;
      assert x in Dedup(c);
    }
  }

  /** Names that contribute nothing give no candidates. */
  lemma {:induction false} CandidatesEmpty(chunks: seq<Chunk>, names: seq<string>, publicPath: string,
                                           url: (string, string) -> string)
    requires forall k :: 0 <= k < |names| ==> Contribution(chunks, names[k], publicPath, url) == []
    ensures Candidates(chunks, names, publicPath, url) == []
    decreases |names|
  {
    if names != [] {
      var init := names[..|names| - 1];
      assert forall k :: 0 <= k < |init| ==> init[k] == names[k];
      CandidatesEmpty(chunks, init, publicPath, url);
    }
  }

  /** A source map of a script is never taken for a script. */
  lemma SourceMapIsNotScript(file: string)
    ensures !IsScript(file + ".map")
  {
    ExtnameIsJs(file + ".map");
  }

  /** A file named with a ".js" extension after a printable character is a script. */
  lemma ScriptByName(stem: string)
    requires stem != [] && !IsLineTerminator(stem[|stem| - 1])
    ensures IsScript(stem + ".js")
  {
    var f := stem + ".js";
    assert f[|f| - 3..] == ".js";
    assert f[|f| - 4] == stem[|stem| - 1];
    ExtnameIsJs(f);
  }
}
