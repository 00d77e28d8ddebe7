/** String operations of the JavaScript runtime that the plugins rely on:
    `indexOf`, a global `match` of a literal, `replace` / `replaceAll` with a
    literal pattern, `split` on one character and `join`.  Strings are
    sequences of UTF-16 code units, modelled as `seq<char>`. */
module Text {
  import opened Wrappers

  /** `pat` occurs in `s` starting at index `i`. */
  predicate OccursAt(s: string, pat: string, i: int) {
    0 <= i && i + |pat| <= |s| && s[i..i + |pat|] == pat
  }

  /** The characters a regular expression's `.` does not match without the `s` flag. */
  predicate IsLineTerminator(c: char) {
    c == '\n' || c == '\r' || c == '\U{2028}' || c == '\U{2029}'
  }

  predicate EndsWith(s: string, suffix: string) {
    |suffix| <= |s| && s[|s| - |suffix|..] == suffix
  }

  /** The leftmost occurrence of `pat` in `s` at or after `from`
      (`s.indexOf(pat, from)`, with `None` for -1). */
  function IndexOf(s: string, pat: string, from: nat): (r: Option<nat>)
    ensures r.Some? ==> from <= r.value && OccursAt(s, pat, r.value)
    ensures r.Some? ==> forall k :: from <= k < r.value ==> !OccursAt(s, pat, k)
    ensures r.None? ==> forall k :: from <= k ==> !OccursAt(s, pat, k)
    decreases |s| - from
  {
    if |s| < from + |pat| then None
    else if s[from..from + |pat|] == pat then Some(from)
    else IndexOf(s, pat, from + 1)
  }

  /** An occurrence with no earlier one at or after `from` is what `IndexOf` finds. */
  lemma IndexOfIsLeftmost(s: string, pat: string, from: nat, i: nat)
    requires from <= i && OccursAt(s, pat, i)
    requires forall k :: from <= k < i ==> !OccursAt(s, pat, k)
    ensures IndexOf(s, pat, from) == Some(i)
  {
  }

  /** The number of matches a global search for the literal `pat` collects when it
      starts at `from`: after each match the search resumes at the end of that
      match, so the matches never overlap. */
  function CountFrom(s: string, pat: string, from: nat): nat
    requires pat != []
    decreases |s| - from
  {
    match IndexOf(s, pat, from)
    case None => 0
    case Some(i) => 1 + CountFrom(s, pat, i + |pat|)
  }

  /** The length of `s.match(new RegExp(escapeRegExp(pat), 'g'))`, 0 standing for
      `null`.  The empty pattern matches once at every position, |s| + 1 times. */
  function CountMatches(s: string, pat: string): (r: nat)
    ensures pat == [] ==> r == |s| + 1
    ensures pat != [] ==> (r == 0 <==> forall k :: !OccursAt(s, pat, k))
  {
    if pat == [] then |s| + 1 else CountFrom(s, pat, 0)
  }

  /** Two occurrences that do not overlap give at least two matches. */
  lemma {:induction false} TwoOccurrencesCountTwice(s: string, pat: string, i: nat, j: nat)
    requires pat != []
    requires OccursAt(s, pat, i) && OccursAt(s, pat, j) && i + |pat| <= j
    ensures CountMatches(s, pat) >= 2
  {
    var first := IndexOf(s, pat, 0).value;
    assert first <= i;
    var second := IndexOf(s, pat, first + |pat|).value;
    assert CountFrom(s, pat, first + |pat|) == 1 + CountFrom(s, pat, second + |pat|);
  }

  /** A pattern that occurs at exactly one position is matched exactly once. */
  lemma {:induction false} UniqueOccurrenceCountsOnce(s: string, pat: string, i: nat)
    requires pat != [] && OccursAt(s, pat, i)
    requires forall k :: OccursAt(s, pat, k) ==> k == i
    ensures CountMatches(s, pat) == 1
  {
    IndexOfIsLeftmost(s, pat, 0, i);
    assert IndexOf(s, pat, i + |pat|) == None;
    assert CountFrom(s, pat, 0) == 1 + CountFrom(s, pat, i + |pat|);
  }

  /** When there is exactly one match, it is the leftmost occurrence and no
      occurrence begins at or after its end. */
  lemma {:induction false} CountOnceLocates(s: string, pat: string)
    requires pat != [] && CountMatches(s, pat) == 1
    ensures IndexOf(s, pat, 0).Some?
    ensures forall k :: IndexOf(s, pat, 0).value + |pat| <= k ==> !OccursAt(s, pat, k)
  {
    var i := IndexOf(s, pat, 0).value;
    assert CountFrom(s, pat, 0) == 1 + CountFrom(s, pat, i + |pat|);
    assert IndexOf(s, pat, i + |pat|) == None;
  }

  /** `s.replaceAll(pat, repl)` for a non-empty literal `pat` and a replacement
      without `$`: the text is scanned left to right, every occurrence met is
      replaced and the scan resumes after it, so occurrences never overlap and
      the result is not searched again. */
  function ReplaceAll(s: string, pat: string, repl: string): string
    requires pat != []
    decreases |s|
  {
    if |s| < |pat| then s
    else if s[..|pat|] == pat then repl + ReplaceAll(s[|pat|..], pat, repl)
    else [s[0]] + ReplaceAll(s[1..], pat, repl)
  }

  /** Text without any occurrence of the pattern is left unchanged. */
  lemma {:induction false} ReplaceAllNoOccurrence(s: string, pat: string, repl: string)
    requires pat != []
    requires forall k :: !OccursAt(s, pat, k)
    ensures ReplaceAll(s, pat, repl) == s
    decreases |s|
  {
    if |s| >= |pat| {
      assert !OccursAt(s, pat, 0);
      forall k ensures !OccursAt(s[1..], pat, k) {
        if 0 <= k && k + |pat| <= |s[1..]| {
          assert !OccursAt(s, pat, k + 1);
          assert s[1..][k..k + |pat|] == s[k + 1..k + 1 + |pat|];
        }
      }
      ReplaceAllNoOccurrence(s[1..], pat, repl);
      assert s == [s[0]] + s[1..];
    }
  }

  /** A leading part that cannot start an occurrence passes through unchanged. */
  lemma {:induction false} ReplaceAllSkipsPrefix(x: string, y: string, pat: string, repl: string)
    requires pat != [] && pat[0] !in x
    ensures ReplaceAll(x + y, pat, repl) == x + ReplaceAll(y, pat, repl)
    decreases |x|
  {
    if x != [] {
      var s := x + y;
      if |s| >= |pat| {
        assert s[..|pat|][0] == x[0];
      }
      assert s[1..] == x[1..] + y;
      ReplaceAllSkipsPrefix(x[1..], y, pat, repl);
      assert [x[0]] + x[1..] == x;
    } else {
      assert x + y == y;
    }
  }

  /** An occurrence at the front is replaced and the scan resumes after it. */
  lemma ReplaceAllAtFront(y: string, pat: string, repl: string)
    requires pat != []
    ensures ReplaceAll(pat + y, pat, repl) == repl + ReplaceAll(y, pat, repl)
  {
    assert (pat + y)[..|pat|] == pat;
    assert (pat + y)[|pat|..] == y;
  }

  /** Deleting every occurrence introduces no new character. */
  lemma {:induction false} ReplaceAllByNothingKeepsChars(s: string, pat: string, c: char)
    requires pat != [] && c !in s
    ensures c !in ReplaceAll(s, pat, [])
    decreases |s|
  {
    if |s| >= |pat| {
      if s[..|pat|] == pat {
        assert c !in s[|pat|..];
        ReplaceAllByNothingKeepsChars(s[|pat|..], pat, c);
      } else {
        assert c !in s[1..];
        ReplaceAllByNothingKeepsChars(s[1..], pat, c);
      }
    }
  }

  /** `s.split(sep)` for a one-character separator: the pieces between the
      separators, at least one, none containing the separator. */
  function Split(s: string, sep: char): (r: seq<string>)
    ensures |r| >= 1
    ensures forall i :: 0 <= i < |r| ==> sep !in r[i]
    decreases |s|
  {
    if s == [] then [[]]
    else if s[0] == sep then [[]] + Split(s[1..], sep)
    else
      var rest := Split(s[1..], sep);
      [[s[0]] + rest[0]] + rest[1..]
  }

  /** `parts.join(sep)`. */
  function Join(parts: seq<string>, sep: string): string
    decreases |parts|
  {
    if parts == [] then ""
    else if |parts| == 1 then parts[0]
    else parts[0] + sep + Join(parts[1..], sep)
  }

  /** A separator splits the text into the pieces of either side. */
  lemma {:induction false} SplitAtSeparator(x: string, y: string, sep: char)
    ensures Split(x + [sep] + y, sep) == Split(x, sep) + Split(y, sep)
    decreases |x|
  {
    var s := x + [sep] + y;
    if x == [] {
      assert s[1..] == y;
    } else {
      assert s[0] == x[0];
      assert s[1..] == x[1..] + [sep] + y;
      SplitAtSeparator(x[1..], y, sep);
    }
  }

  /** Text without the separator is a single piece. */
  lemma {:induction false} SplitWithoutSeparator(s: string, sep: char)
    requires sep !in s
    ensures Split(s, sep) == [s]
    decreases |s|
  {
    if s != [] {
      assert sep !in s[1..];
      SplitWithoutSeparator(s[1..], sep);
      assert [s[0]] + s[1..] == s;
    }
  }

  /** Splitting and joining again is the identity. */
  lemma {:induction false} JoinSplit(s: string, sep: char)
    ensures Join(Split(s, sep), [sep]) == s
    decreases |s|
  {
    if s != [] {
      var rest := Split(s[1..], sep);
      JoinSplit(s[1..], sep);
      if s[0] == sep {
        assert s == [sep] + s[1..];
      } else if |rest| == 1 {
        assert s == [s[0]] + s[1..];
      } else {
        assert rest == [rest[0]] + rest[1..];
        assert Join(rest, [sep]) == rest[0] + [sep] + Join(rest[1..], [sep]);
        assert s == [s[0]] + s[1..];
      }
    }
  }

  /** Joining pieces free of the separator and splitting again gives the pieces back. */
  lemma {:induction false} SplitJoin(parts: seq<string>, sep: char)
    requires parts != []
    requires forall i :: 0 <= i < |parts| ==> sep !in parts[i]
    ensures Split(Join(parts, [sep]), sep) == parts
    decreases |parts|
  {
    SplitWithoutSeparator(parts[0], sep);
    if |parts| > 1 {
      SplitJoin(parts[1..], sep);
      SplitAtSeparator(parts[0], Join(parts[1..], [sep]), sep);
    }
  }
}
