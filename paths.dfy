/** The POSIX path functions of the `pathe` library that the plugins call:
    `normalize`, `resolve`, `relative`, `extname`, `basename` and the `name`
    part of `parse`, and on top of them `relativeToOutputPath`.  A path is a
    string; its segments are the pieces between '/' characters.  The process's
    working directory, which `resolve` falls back on and which is always
    absolute, is the parameter `cwd`. */
module Paths {
  import opened Wrappers
  import opened Text

  /** `isAbsolute(p)`: a '/' not followed by another '/', or two '/' not
      followed by '.'; so "//.x" is relative. */
  predicate IsAbsolute(p: string) {
    |p| > 0 && p[0] == '/' && !(|p| >= 3 && p[1] == '/' && p[2] == '.')
  }

  /** A path starting with two '/', which `normalize` keeps as a prefix. */
  predicate IsDoubleSlash(p: string) {
    |p| >= 2 && p[0] == '/' && p[1] == '/'
  }

  /** A segment that survives normalisation unchanged. */
  predicate IsName(seg: string) {
    seg != "" && seg != "." && seg != ".." && '/' !in seg
  }

  predicate AllNames(segs: seq<string>) {
    forall i :: 0 <= i < |segs| ==> IsName(segs[i])
  }

  /** Segments that contain no '/' and are not empty. */
  predicate AllPieces(segs: seq<string>) {
    forall i :: 0 <= i < |segs| ==> segs[i] != "" && '/' !in segs[i]
  }

  /** `n` copies of "..". */
  function Dots(n: nat): (r: seq<string>)
    ensures |r| == n && forall i :: 0 <= i < n ==> r[i] == ".."
  {
    seq(n, _ => "..")
  }

  /** The absolute path whose segments are `segs`. */
  function Absolute(segs: seq<string>): string {
    "/" + Join(segs, "/")
  }

  /** One segment of `normalizeString`: "" and "." vanish, ".." drops the last
      name kept so far, and when there is none it is kept only when the path
      may climb above its start (a relative path); any other segment is kept. */
  function Step(acc: seq<string>, seg: string, aboveRoot: bool): seq<string> {
    if seg == "" || seg == "." then acc
    else if seg == ".." then
      if acc != [] && acc[|acc| - 1] != ".." then acc[..|acc| - 1]
      else if aboveRoot then acc + [".."]
      else acc
    else acc + [seg]
  }

  /** `normalizeString`, segment by segment from the left, continuing from `acc`. */
  function Fold(acc: seq<string>, segs: seq<string>, aboveRoot: bool): seq<string>
    decreases |segs|
  {
    if segs == [] then acc else Fold(Step(acc, segs[0], aboveRoot), segs[1..], aboveRoot)
  }

  /** The segments of `resolve(p)`: an absolute `p` stands alone, a relative one
      is appended to the working directory; the result is normalised without
      climbing above the root. */
  function ResolvedSegments(cwd: string, p: string): seq<string> {
    Fold([], if IsAbsolute(p) then Split(p, '/') else Split(cwd, '/') + Split(p, '/'), false)
  }

  /** `resolve(p)`. */
  function Resolve(cwd: string, p: string): string {
    Absolute(ResolvedSegments(cwd, p))
  }

  /** `normalize(p)`: keeps the path absolute or relative, keeps a trailing '/',
      writes an empty result as "/", "./" or ".", and keeps a leading "//"
      (as "//./" in front of a relative result). */
  function Normalize(p: string): string {
    if p == "" then "."
    else
      var abs := IsAbsolute(p);
      var trailing := p[|p| - 1] == '/';
      var body := Join(Fold([], Split(p, '/'), !abs), "/");
      if body == "" then (if abs then "/" else if trailing then "./" else ".")
      else
        var b := body + (if trailing then "/" else "");
        if IsDoubleSlash(p) then (if abs then "//" else "//./") + b
        else (if abs then "/" else "") + b
  }

  /** How many leading segments, from index `k` on, two paths have in common
      once they agree below `k`. */
  function CommonFrom(f: seq<string>, t: seq<string>, k: nat): (n: nat)
    requires k <= |f| && k <= |t|
    ensures k <= n <= |f| && n <= |t|
    ensures forall i :: k <= i < n ==> f[i] == t[i]
    ensures n == |f| || n == |t| || f[n] != t[n]
    decreases |f| - k
  {
    if k < |f| && k < |t| && f[k] == t[k] then CommonFrom(f, t, k + 1) else k
  }

  /** Drops the leading segments two paths have in common. */
  function StripCommon(f: seq<string>, t: seq<string>): (r: (seq<string>, seq<string>))
    ensures exists c :: f == c + r.0 && t == c + r.1
    ensures r.0 == [] || r.1 == [] || r.0[0] != r.1[0]
  {
    var n := CommonFrom(f, t, 0);
    assert f[..n] == t[..n];
    assert f == f[..n] + f[n..] && t == t[..n] + t[n..];
    (f[n..], t[n..])
  }

  /** `relative(from, to)`: one ".." for every segment of `from` past the part
      both share, then the rest of `to`. */
  function Relative(cwd: string, from: string, to: string): string {
    var (f, t) := StripCommon(ResolvedSegments(cwd, from), ResolvedSegments(cwd, to));
    Join(Dots(|f|) + t, "/")
  }

  /** `relativeToOutputPath`: a path that resolves to its own normal form is
      made relative to the output directory; any other path is returned as it
      is.  The test passes exactly for an absolute path that is the root once
      resolved, or that neither ends in '/' nor starts with "//". */
  function RelativeToOutputPath(cwd: string, outputPath: string, swDest: string): (r: string)
    ensures !IsAbsolute(swDest) ==> r == swDest
    ensures IsAbsolute(swDest) && ResolvedSegments(cwd, swDest) == [] ==> r == Relative(cwd, outputPath, swDest)
    ensures IsAbsolute(swDest) && ResolvedSegments(cwd, swDest) != [] ==>
      r == if swDest[|swDest| - 1] != '/' && !IsDoubleSlash(swDest) then Relative(cwd, outputPath, swDest)
           else swDest
  {
    ResolvesToItself(cwd, swDest);
    if Resolve(cwd, swDest) == Normalize(swDest) then Relative(cwd, outputPath, swDest)
    else swDest
  }

  // ---------------------------------------------------------------- lemmas

  /** `Fold` over two lists is `Fold` over the second from where the first ends. */
  lemma {:induction false} FoldConcat(acc: seq<string>, a: seq<string>, b: seq<string>, aboveRoot: bool)
    ensures Fold(acc, a + b, aboveRoot) == Fold(Fold(acc, a, aboveRoot), b, aboveRoot)
    decreases |a|
  {
    if a != [] {
      assert (a + b)[0] == a[0] && (a + b)[1..] == a[1..] + b;
      FoldConcat(Step(acc, a[0], aboveRoot), a[1..], b, aboveRoot);
    } else {
      assert a + b == b;
    }
  }

  /** Names are appended as they are. */
  lemma {:induction false} FoldNames(acc: seq<string>, segs: seq<string>, aboveRoot: bool)
    requires AllNames(segs)
    ensures Fold(acc, segs, aboveRoot) == acc + segs
    decreases |segs|
  {
    if segs != [] {
      FoldNames(acc + [segs[0]], segs[1..], aboveRoot);
      assert acc + [segs[0]] + segs[1..] == acc + segs;
    }
  }

  /** `k` ".." segments drop the last `k` names. */
  lemma {:induction false} FoldDots(c: seq<string>, f: seq<string>, aboveRoot: bool)
    requires AllNames(f)
    ensures Fold(c + f, Dots(|f|), aboveRoot) == c
    decreases |f|
  {
    if f != [] {
      var last := |f| - 1;
      assert (c + f)[..|c + f| - 1] == c + f[..last];
      assert Dots(|f|)[1..] == Dots(last);
      FoldDots(c, f[..last], aboveRoot);
    } else {
      assert c + f == c;
    }
  }

  /** Without climbing above the root, normalisation keeps only names. */
  lemma {:induction false} FoldKeepsNames(acc: seq<string>, segs: seq<string>)
    requires AllNames(acc)
    requires forall i :: 0 <= i < |segs| ==> '/' !in segs[i]
    ensures AllNames(Fold(acc, segs, false))
    decreases |segs|
  {
    if segs != [] {
      FoldKeepsNames(Step(acc, segs[0], false), segs[1..]);
    }
  }

  /** Normalisation in either mode keeps only non-empty segments without '/'. */
  lemma {:induction false} FoldKeepsPieces(acc: seq<string>, segs: seq<string>, aboveRoot: bool)
    requires AllPieces(acc)
    requires forall i :: 0 <= i < |segs| ==> '/' !in segs[i]
    ensures AllPieces(Fold(acc, segs, aboveRoot))
    decreases |segs|
  {
    if segs != [] {
      FoldKeepsPieces(Step(acc, segs[0], aboveRoot), segs[1..], aboveRoot);
    }
  }

  /** The pieces of a split path contain no '/'. */
  lemma SplitPieces(p: string)
    ensures forall i :: 0 <= i < |Split(p, '/')| ==> '/' !in Split(p, '/')[i]
  {
  }

  lemma ResolvedSegmentsAreNames(cwd: string, p: string)
    ensures AllNames(ResolvedSegments(cwd, p))
  {
    var segs := if IsAbsolute(p) then Split(p, '/') else Split(cwd, '/') + Split(p, '/');
    SplitPieces(p);
    SplitPieces(cwd);
    FoldKeepsNames([], segs);
  }
  /** Joined pieces: empty only when there are none, and neither starting nor
      ending with '/' otherwise. */
  lemma {:induction false} JoinPieces(parts: seq<string>)
    requires AllPieces(parts)
    ensures Join(parts, "/") == "" <==> parts == []
    ensures parts != [] ==> Join(parts, "/")[0] != '/'
    ensures parts != [] ==> Join(parts, "/")[|Join(parts, "/")| - 1] != '/'
    decreases |parts|
  {
    if |parts| > 1 {
      JoinPieces(parts[1..]);
      var rest := Join(parts[1..], "/");
      assert Join(parts, "/") == parts[0] + "/" + rest;
      assert Join(parts, "/")[0] == parts[0][0];
      assert Join(parts, "/")[|Join(parts, "/")| - 1] == rest[|rest| - 1];
    } else if |parts| == 1 {
      assert parts[0][0] in parts[0];
      assert parts[0][|parts[0]| - 1] in parts[0];
    }
  }

  /** The test `resolve(p) === normalize(p)` holds exactly for an absolute path
      that resolves to the root, or that neither ends in '/' nor starts with "//". */
  lemma ResolvesToItself(cwd: string, p: string)
    ensures Resolve(cwd, p) == Normalize(p) <==>
      IsAbsolute(p) &&
      (ResolvedSegments(cwd, p) == [] || (p[|p| - 1] != '/' && !IsDoubleSlash(p)))
  {
    ResolvedSegmentsAreNames(cwd, p);
    var r := Resolve(cwd, p);
    JoinPieces(ResolvedSegments(cwd, p));
    assert r[0] == '/';
    if p != [] {
      var abs := IsAbsolute(p);
      var segs := Fold([], Split(p, '/'), !abs);
      var body := Join(segs, "/");
      SplitPieces(p);
      FoldKeepsPieces([], Split(p, '/'), !abs);
      JoinPieces(segs);
      if abs {
        assert segs == ResolvedSegments(cwd, p);
        assert r == "/" + body;
        if segs != [] && (p[|p| - 1] == '/' || IsDoubleSlash(p)) {
          assert |Normalize(p)| >= |r| + 1;
        }
      } else if body == "" {
        assert Normalize(p)[0] == '.';
      } else if IsDoubleSlash(p) {
        var n := Normalize(p);
        assert n[1] == '/' && |n| >= 4;
        if ResolvedSegments(cwd, p) != [] {
          assert r[1] == Join(ResolvedSegments(cwd, p), "/")[0];
        }
      } else {
        assert Normalize(p)[0] == body[0];
      }
    }
  }

  /** The absolute path of some names resolves to those names. */
  lemma ResolveAbsolute(cwd: string, segs: seq<string>)
    requires AllNames(segs)
    ensures ResolvedSegments(cwd, Absolute(segs)) == segs
  {
    var p := Absolute(segs);
    assert p == [] + ['/'] + Join(segs, "/");
    SplitAtSeparator([], Join(segs, "/"), '/');
    if segs == [] {
      assert Split(p, '/') == [[], []];
      assert Fold([], [[], []], false) == Fold([], [[]], false) == Fold([], [], false);
    } else {
      SplitJoin(segs, '/');
      assert Split(p, '/') == [[]] + segs;
      assert ([[]] + segs)[1..] == segs;
      FoldNames([], segs, false);
    }
  }

  /** Removing a shared prefix leaves the part past it. */
  lemma {:induction false} StripPrefix(c: seq<string>, rest: seq<string>)
    ensures StripCommon(c, c + rest) == ([], rest)
    decreases |c|
  {
    if c != [] {
      assert (c + rest)[0] == c[0];
      assert (c + rest)[1..] == c[1..] + rest;
      StripPrefix(c[1..], rest);
    } else {
      assert c + rest == rest;
    }
  }

  /** An absolute path of names ending in a name passes the absoluteness test. */
  lemma AbsoluteNamesPassTest(cwd: string, segs: seq<string>)
    requires AllNames(segs)
    ensures Resolve(cwd, Absolute(segs)) == Normalize(Absolute(segs))
  {
    var p := Absolute(segs);
    ResolveAbsolute(cwd, segs);
    JoinPieces(segs);
    if segs != [] {
      assert p[|p| - 1] == Join(segs, "/")[|Join(segs, "/")| - 1];
    }
    ResolvesToItself(cwd, p);
  }

  /** A `swDest` below the output directory comes out as its path below it; for
      a single name, that name. */
  lemma SwDestBelowOutputPath(cwd: string, out: seq<string>, rest: seq<string>)
    requires AllNames(out) && AllNames(rest) && rest != []
    ensures RelativeToOutputPath(cwd, Absolute(out), Absolute(out + rest)) == Join(rest, "/")
  {
    assert AllNames(out + rest) by {
      forall i | 0 <= i < |out + rest| ensures IsName((out + rest)[i]) {
        if i >= |out| { assert (out + rest)[i] == rest[i - |out|]; }
      }
    }
    AbsoluteNamesPassTest(cwd, out + rest);
    RelativeBelow(cwd, out, rest);
  }

  lemma RelativeBelow(cwd: string, out: seq<string>, rest: seq<string>)
    requires AllNames(out) && AllNames(out + rest)
    ensures Relative(cwd, Absolute(out), Absolute(out + rest)) == Join(rest, "/")
  {
    ResolveAbsolute(cwd, out);
    ResolveAbsolute(cwd, out + rest);
    StripPrefix(out, rest);
    assert Dots(0) + rest == rest;
  }

  /** Resolving the result against the resolved output directory gives back the
      resolved `swDest`, whenever `swDest` was relativised. */
  lemma RelativisedResolvesBack(cwd: string, outputPath: string, swDest: string)
    requires Resolve(cwd, swDest) == Normalize(swDest)
    ensures Fold(ResolvedSegments(cwd, outputPath),
                 Split(RelativeToOutputPath(cwd, outputPath, swDest), '/'), false)
            == ResolvedSegments(cwd, swDest)
  {
    var o := ResolvedSegments(cwd, outputPath);
    var d := ResolvedSegments(cwd, swDest);
    ResolvedSegmentsAreNames(cwd, outputPath);
    ResolvedSegmentsAreNames(cwd, swDest);
    assert RelativeToOutputPath(cwd, outputPath, swDest) == Relative(cwd, outputPath, swDest);
    var (f, t) := StripCommon(o, d);
    assert Relative(cwd, outputPath, swDest) == Join(Dots(|f|) + t, "/");
    RelativeSegmentsLeadThere(o, d);
  }

  /** On segments: from names `o`, the relative path to names `d` leads to `d`. */
  lemma RelativeSegmentsLeadThere(o: seq<string>, d: seq<string>)
    requires AllNames(o) && AllNames(d)
    ensures var (f, t) := StripCommon(o, d);
            Fold(o, Split(Join(Dots(|f|) + t, "/"), '/'), false) == d
  {
    var (f, t) := StripCommon(o, d);
    var c :| o == c + f && d == c + t;
    assert AllNames(f) by {
      forall i | 0 <= i < |f| ensures IsName(f[i]) { assert f[i] == o[|c| + i]; }
    }
    assert AllNames(t) by {
      forall i | 0 <= i < |t| ensures IsName(t[i]) { assert t[i] == d[|c| + i]; }
    }
    FoldRelative(c, f, t);
  }

  /** Climbing out of `f` and descending into `t`, written as one relative
      path, leads from `c + f` to `c + t`. */
  lemma FoldRelative(c: seq<string>, f: seq<string>, t: seq<string>)
    requires AllNames(f) && AllNames(t)
    ensures Fold(c + f, Split(Join(Dots(|f|) + t, "/"), '/'), false) == c + t
  {
    var parts := Dots(|f|) + t;
    FoldDots(c, f, false);
    FoldNames(c, t, false);
    if parts == [] {
      assert Split(Join(parts, "/"), '/') == [[]];
      assert c + f == c + t;
    } else {
      assert forall i :: 0 <= i < |parts| ==> '/' !in parts[i] by {
        forall i | 0 <= i < |parts| ensures '/' !in parts[i] {
          if i >= |f| { assert parts[i] == t[i - |f|]; }
        }
      }
      SplitJoin(parts, '/');
      FoldConcat(c + f, Dots(|f|), t, false);
    }
  }

  /** Resolving `base + "/" + r` continues from the resolved `base`. */
  lemma ResolveJoined(cwd: string, base: string, r: string)
    requires base != "" && base != "/"
    ensures ResolvedSegments(cwd, base + "/" + r)
         == Fold(ResolvedSegments(cwd, base), Split(r, '/'), false)
  {
    var joined := base + "/" + r;
    SplitAtSeparator(base, r, '/');
    assert IsAbsolute(joined) == IsAbsolute(base) by {
      assert joined[0] == base[0];
      if |base| >= 2 { assert joined[1] == base[1]; }
      if |base| >= 3 { assert joined[2] == base[2]; }
      if |base| == 2 { assert joined[2] == '/'; }
    }
    if IsAbsolute(base) {
      FoldConcat([], Split(base, '/'), Split(r, '/'), false);
    } else {
      assert Split(cwd, '/') + Split(joined, '/')
          == (Split(cwd, '/') + Split(base, '/')) + Split(r, '/');
      FoldConcat([], Split(cwd, '/') + Split(base, '/'), Split(r, '/'), false);
    }
  }

  /** The same, on strings: for a non-empty output path, resolving the output
      path other than the root joined with the result is the normal form of
      `swDest`.  (For the root, "/" + "/" + r starts with "//" and a result
      starting with '.' would read as relative.) */
  lemma JoinedResultResolvesToSwDest(cwd: string, outputPath: string, swDest: string)
    requires Resolve(cwd, swDest) == Normalize(swDest) && outputPath != "" && outputPath != "/"
    ensures Resolve(cwd, outputPath + "/" + RelativeToOutputPath(cwd, outputPath, swDest))
            == Normalize(swDest)
  {
    RelativisedResolvesBack(cwd, outputPath, swDest);
    ResolveJoined(cwd, outputPath, RelativeToOutputPath(cwd, outputPath, swDest));
  }
  // ------------------------------------------------ extname, basename, parse

  /** The position of the last `c` in `s`. */
  function LastIndexOf(s: string, c: char): (r: Option<nat>)
    ensures r.Some? ==> r.value < |s| && s[r.value] == c && c !in s[r.value + 1..]
    ensures r.None? ==> c !in s
  {
    if s == [] then None
    else if s[|s| - 1] == c then Some(|s| - 1)
    else
      var r := LastIndexOf(s[..|s| - 1], c);
      assert s == s[..|s| - 1] + [s[|s| - 1]];
      r
  }

  /** `extname(p)`: the text matched by `/.(\.[^./]+)$/` — from the last '.'
      to the end, when at least one character that is not a line terminator
      comes before that '.' and at least one character, none of them '/', comes
      after it — and "" when the expression does not match. */
  function Extname(p: string): string {
    match LastIndexOf(p, '.')
    case None => ""
    case Some(j) =>
      if 1 <= j && !IsLineTerminator(p[j - 1]) && j + 1 < |p| && '/' !in p[j + 1..]
      then p[j..] else ""
  }

  /** The last non-empty piece, or "" when there is none. */
  function LastNonEmpty(pieces: seq<string>): string
    decreases |pieces|
  {
    if pieces == [] then ""
    else if pieces[|pieces| - 1] != "" then pieces[|pieces| - 1]
    else LastNonEmpty(pieces[..|pieces| - 1])
  }

  /** `basename(p)`: the last non-empty segment. */
  function Basename(p: string): string {
    LastNonEmpty(Split(p, '/'))
  }

  /** `parse(p).name`: the base name without its extension. */
  function Stem(p: string): string {
    var base := Basename(p);
    base[..|base| - |Extname(base)|]
  }

  /** `extname(f) === '.js'` holds exactly for a name ending in ".js" with a
      character other than a line terminator before it; so "x.js.map" fails. */
  lemma ExtnameIsJs(f: string)
    ensures Extname(f) == ".js" <==> |f| >= 4 && EndsWith(f, ".js") && !IsLineTerminator(f[|f| - 4])
  {
    if |f| >= 4 && EndsWith(f, ".js") {
      var j := |f| - 3;
      assert f[j..] == ".js";
      assert f[j + 1..] == "js";
      assert f == f[..j + 1] + "js";
      LastIndexPast(f[..j + 1], "js", '.');
    }
    match LastIndexOf(f, '.')
    case None =>
    case Some(j) =>
      if Extname(f) == ".js" {
        assert |f[j..]| == 3;
        assert f[|f| - 3..] == f[j..];
      }
  }

  /** A `swSrc` of the form `dir/stem.ext` has `stem` as its parsed name, so the
      default `swDest`, that name with ".js" appended, swaps the extension. */
  lemma StemOfFile(dir: string, stem: string, ext: string)
    requires stem != "" && '.' !in stem && '/' !in stem && !IsLineTerminator(stem[|stem| - 1])
    requires ext != "" && '.' !in ext && '/' !in ext
    ensures Stem(dir + "/" + stem + "." + ext) == stem
    ensures Stem(stem + "." + ext) == stem
  {
    var base := stem + "." + ext;
    assert '/' !in base by {
      forall k | 0 <= k < |base| ensures base[k] != '/' {
        if k < |stem| { assert base[k] == stem[k]; }
        else if k > |stem| { assert base[k] == ext[k - |stem| - 1]; }
      }
    }
    SplitWithoutSeparator(base, '/');
    SplitAtSeparator(dir, base, '/');
    assert dir + "/" + stem + "." + ext == dir + ['/'] + base;
    var pieces := Split(dir, '/') + [base];
    assert pieces[|pieces| - 1] == base;
    assert Basename(base) == base;
    assert Basename(dir + "/" + stem + "." + ext) == base;
    BaseExtname(stem, ext);
  }

  lemma BaseExtname(stem: string, ext: string)
    requires stem != "" && '.' !in stem && '/' !in stem && !IsLineTerminator(stem[|stem| - 1])
    requires ext != "" && '.' !in ext && '/' !in ext
    ensures Extname(stem + "." + ext) == "." + ext
  {
    var base := stem + "." + ext;
    var j := |stem|;
    assert base[j + 1..] == ext;
    assert base[j..] == "." + ext;
    assert base[j - 1] == stem[j - 1];
    assert LastIndexOf(base, '.') == Some(j) by {
      LastIndexPast(stem + ".", ext, '.');
      assert (stem + ".")[|stem|] == '.';
    }
  }

  /** A tail free of `c` is skipped by the search from the right. */
  lemma {:induction false} LastIndexPast(x: string, y: string, c: char)
    requires c !in y && x != [] && x[|x| - 1] == c
    ensures LastIndexOf(x + y, c) == Some(|x| - 1)
    decreases |y|
  {
    if y != [] {
      var s := x + y;
      assert s[..|s| - 1] == x + y[..|y| - 1];
      assert s[|s| - 1] == y[|y| - 1];
      LastIndexPast(x, y[..|y| - 1], c);
    } else {
      assert x + y == x;
    }
  }
}
