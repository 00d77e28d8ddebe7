/** The string work of `InjectManifest.addAssets`: checking that the
    injection point occurs once in the service worker's text, turning the
    double quotes of the serialised manifest into single ones, and putting the
    manifest where the injection point was. */
module Injection {
  import opened Wrappers
  import opened Text

  /** The error thrown when the injection point does not occur. */
  function CantFindMessage(injectionPoint: string): string {
    "Can't find " + injectionPoint + " in your SW source."
  }

  /** The error thrown when the injection point occurs more than once. */
  function MultipleMessage(injectionPoint: string): string {
    "Multiple instances of " + injectionPoint + " were found in your SW source. " +
    "Include it only once. For more info, see https://github.com/GoogleChrome/workbox/issues/2681"
  }

  /** The check on the number of matches of the global search for the injection point. */
  function CheckInjectionPoint(source: string, injectionPoint: string): (r: Outcome<string>)
    ensures r == Pass <==> CountMatches(source, injectionPoint) == 1
    ensures r.Fail? ==> r.error == CantFindMessage(injectionPoint) || r.error == MultipleMessage(injectionPoint)
  {
    var n := CountMatches(source, injectionPoint);
    if n == 0 then Fail(CantFindMessage(injectionPoint))
    else if n != 1 then Fail(MultipleMessage(injectionPoint))
    else Pass
  }

  /** A marker that does not occur is reported as missing. */
  lemma MissingMarker(source: string, injectionPoint: string)
    requires injectionPoint != [] && forall k :: !OccursAt(source, injectionPoint, k)
    ensures CheckInjectionPoint(source, injectionPoint) == Fail(CantFindMessage(injectionPoint))
  {
  }

  /** Two occurrences that do not overlap are reported as multiple instances. */
  lemma RepeatedMarker(source: string, injectionPoint: string, i: nat, j: nat)
    requires injectionPoint != []
    requires OccursAt(source, injectionPoint, i) && OccursAt(source, injectionPoint, j)
    requires i + |injectionPoint| <= j
    ensures CheckInjectionPoint(source, injectionPoint) == Fail(MultipleMessage(injectionPoint))
  {
    TwoOccurrencesCountTwice(source, injectionPoint, i, j);
  }

  /** A marker at exactly one position passes the check. */
  lemma UniqueMarker(source: string, injectionPoint: string, i: nat)
    requires injectionPoint != [] && OccursAt(source, injectionPoint, i)
    requires forall k :: OccursAt(source, injectionPoint, k) ==> k == i
    ensures CheckInjectionPoint(source, injectionPoint) == Pass
  {
    UniqueOccurrenceCountsOnce(source, injectionPoint, i);
  }

  /** An empty injection point matches at every position, so it passes only in
      an empty source. */
  lemma EmptyMarker(source: string)
    ensures CheckInjectionPoint(source, "") == Pass <==> source == ""
  {
  }

  /** `manifestString.replace(/"/g, "'")`; the contract, character by
      character, is its specification. */
  function NormalizeQuotes(s: string): (r: string)
    ensures |r| == |s|
    ensures forall i :: 0 <= i < |s| ==> r[i] == (if s[i] == '"' then '\'' else s[i])
  {
    seq(|s|, i requires 0 <= i < |s| => if s[i] == '"' then '\'' else s[i])
  }

  /** After normalisation no double quote is left, and normalising again changes nothing. */
  lemma NormalizeQuotesIdempotent(s: string)
    ensures '"' !in NormalizeQuotes(s)
    ensures NormalizeQuotes(NormalizeQuotes(s)) == NormalizeQuotes(s)
  {
  }

  /** Text without double quotes is left as it is. */
  lemma NormalizeQuotesWithoutQuotes(s: string)
    requires '"' !in s
    ensures NormalizeQuotes(s) == s
  {
  }

  /** Whether the quotes of the manifest are normalised: only for a compiled
      source, and not for an `eval-cheap-source-map` build that is minimized. */
  predicate QuotesNormalized(compileSrc: Option<bool>, devtool: Option<string>, minimize: Option<bool>) {
    compileSrc == Some(true) && !(devtool == Some("eval-cheap-source-map") && minimize == Some(true))
  }

  /** The manifest text that is put into the service worker. */
  function ManifestString(stringified: string, compileSrc: Option<bool>, devtool: Option<string>,
                          minimize: Option<bool>): (r: string)
    ensures |r| == |stringified|
    ensures QuotesNormalized(compileSrc, devtool, minimize) ==> '"' !in r
    ensures !QuotesNormalized(compileSrc, devtool, minimize) ==> r == stringified
  {
    if QuotesNormalized(compileSrc, devtool, minimize) then NormalizeQuotes(stringified) else stringified
  }

  /** `source.replace(marker, text)` with the text taken literally: the first
      occurrence of the marker, if any, is replaced. */
  function ReplaceFirst(source: string, marker: string, text: string): string {
    match IndexOf(source, marker, 0)
    case None => source
    case Some(i) => source[..i] + text + source[i + |marker|..]
  }

  /** Once the check has passed, the new text is the text before the first
      marker, then the manifest, then the text after the marker, and no marker
      begins after that one: nothing else changes, and the length changes by the
      difference of the two lengths. */
  lemma InjectSplices(source: string, marker: string, manifest: string)
    requires marker != [] && CheckInjectionPoint(source, marker) == Pass
    ensures exists i ::
      (OccursAt(source, marker, i) &&
       ReplaceFirst(source, marker, manifest) == source[..i] + manifest + source[i + |marker|..] &&
       (forall k :: 0 <= k < i ==> !OccursAt(source, marker, k)) &&
       (forall k :: i + |marker| <= k ==> !OccursAt(source, marker, k)))
    ensures |ReplaceFirst(source, marker, manifest)| == |source| - |marker| + |manifest|
  {
    CountOnceLocates(source, marker);
    var i := IndexOf(source, marker, 0).value;
    var r := source[..i] + manifest + source[i + |marker|..];
    assert ReplaceFirst(source, marker, manifest) == r;
    assert |r| == i + |manifest| + (|source| - i - |marker|);
  }

  /** `source.replace(marker, text)` as the runtime performs it: the
      replacement text is not taken literally but scanned for `$` patterns. */
  function ReplaceFirstExpanding(source: string, marker: string, text: string): string {
    match IndexOf(source, marker, 0)
    case None => source
    case Some(i) =>
      source[..i] + Substitution(text, marker, source[..i], source[i + |marker|..]) + source[i + |marker|..]
  }

  /** The replacement text with its `$` patterns expanded, for a string
      pattern (no capture groups): "$$" gives "$", "$&" the match, "$`" the
      text before it, "$'" the text after it; any other `$` stays as it is. */
  function Substitution(text: string, matched: string, before: string, after: string): string
    decreases |text|
  {
    if |text| >= 2 && text[0] == '$' && text[1] in {'$', '&', '`', '\''} then
      (if text[1] == '$' then "$"
       else if text[1] == '&' then matched
       else if text[1] == '`' then before
       else after) + Substitution(text[2..], matched, before, after)
    else if text == [] then []
    else [text[0]] + Substitution(text[1..], matched, before, after)
  }

  /** Without `$` in the replacement text the two readings agree. */
  lemma {:induction false} SubstitutionWithoutDollar(text: string, matched: string, before: string, after: string)
    requires '$' !in text
    ensures Substitution(text, matched, before, after) == text
    decreases |text|
  {
    if text != [] {
      SubstitutionWithoutDollar(text[1..], matched, before, after);
      assert text == [text[0]] + text[1..];
    }
  }

  /** A manifest without `$` is put in literally by the runtime as well. */
  lemma ExpandingAgreesWithoutDollar(source: string, marker: string, manifest: string)
    requires '$' !in manifest
    ensures ReplaceFirstExpanding(source, marker, manifest) == ReplaceFirst(source, marker, manifest)
  {
    match IndexOf(source, marker, 0)
    case None =>
    case Some(i) =>
      SubstitutionWithoutDollar(manifest, marker, source[..i], source[i + |marker|..]);
  }

  /** The default injection point in a small service worker. */
  const ExampleSource := "x=self.__WB_MANIFEST;"
  const DefaultInjectionPoint := "self.__WB_MANIFEST"

  lemma ExampleMarkerAtTwo()
    ensures IndexOf(ExampleSource, DefaultInjectionPoint, 0) == Some(2)
  {
    var s, m := ExampleSource, DefaultInjectionPoint;
    assert s[0..|m|][0] != m[0];
    assert s[1..1 + |m|][0] != m[0];
    assert s[2..2 + |m|] == m;
    IndexOfIsLeftmost(s, m, 0, 2);
  }

  /** "$&" in the replacement text stands for the matched marker. */
  lemma AmpersandPattern(matched: string, before: string, after: string)
    ensures Substitution("['$&']", matched, before, after) == "['" + matched + "']"
  {
    var t := "['$&']";
    assert t[1..] == "'$&']" && t[1..][1..] == "$&']";
    assert "$&']"[2..] == "']";
    assert "']"[1..] == "]" && "]"[1..] == "";
    assert Substitution("']", matched, before, after) == "']";
    assert Substitution("$&']", matched, before, after) == matched + "']";
    assert Substitution("'$&']", matched, before, after) == "'" + matched + "']";
  }

  /** A precache URL that contains "$&" brings the injection point back into
      the service worker in its own place, where the literal reading puts the
      URL itself. */
  lemma DollarInManifestCounterexample()
    ensures ReplaceFirstExpanding(ExampleSource, DefaultInjectionPoint, "['$&']")
         == "x=" + "['" + DefaultInjectionPoint + "']" + ";"
    ensures ReplaceFirst(ExampleSource, DefaultInjectionPoint, "['$&']") == "x=" + "['$&']" + ";"
  {
    var s, m := ExampleSource, DefaultInjectionPoint;
    ExampleMarkerAtTwo();
    ExampleAround();
    AmpersandPattern(m, "x=", ";");
  }

  lemma ExampleAround()
    ensures ExampleSource[..2] == "x="
    ensures ExampleSource[2 + |DefaultInjectionPoint|..] == ";"
  {
  }
}
