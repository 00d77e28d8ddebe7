/** `extractMessage`: recovers the message of an `Error` from the text the
    bundler renders for a warning.  The rendered text breaks long warnings
    with a continuation marker, which is deleted first; the message is then
    the shortest text after "⚠ Error: " that is followed, on the same line, by
    four spaces and "at" (the start of the stack trace). */
module ExtractMessage {
  import opened Wrappers
  import opened Text

  /** A line break followed by the box-drawing continuation of a rendered warning. */
  const Separator: string := "\n  \U{2502} "
  /** The text the regular expression requires before the capture. */
  const Header: string := "\U{26A0} Error: "
  /** The text the regular expression requires after the capture. */
  const Terminator: string := "    at"

  /** The message with every continuation marker removed in one pass. */
  function Clean(message: string): string {
    ReplaceAll(message, Separator, "")
  }

  /** The regular expression matches at `i` with its capture ending at `e`:
      the header at `i`, then text without line terminators, then the
      terminator at `e`. */
  ghost predicate IsCapture(s: string, i: int, e: int) {
    0 <= i && OccursAt(s, Header, i) && i + |Header| <= e && OccursAt(s, Terminator, e) &&
    forall k :: i + |Header| <= k < e ==> !IsLineTerminator(s[k])
  }

  /** The capture the regular expression returns: the leftmost start that
      matches at all, and there the shortest capture (`.*?` is lazy). */
  ghost predicate IsFirstCapture(s: string, i: int, e: int) {
    IsCapture(s, i, e) &&
    (forall e' :: IsCapture(s, i, e') ==> e <= e') &&
    (forall i', e' :: i' < i ==> !IsCapture(s, i', e'))
  }

  /** The lazy scan for the end of the capture, from position `e` onwards. */
  function CaptureEnd(s: string, e: nat): (r: Option<nat>)
    ensures r.Some? ==> e <= r.value && OccursAt(s, Terminator, r.value)
    ensures r.Some? ==> forall k :: e <= k < r.value ==> !IsLineTerminator(s[k]) && !OccursAt(s, Terminator, k)
    ensures r.None? ==> forall v :: e <= v && OccursAt(s, Terminator, v) ==>
      exists k :: e <= k < v && IsLineTerminator(s[k])
    decreases |s| - e
  {
    if OccursAt(s, Terminator, e) then Some(e)
    else if e < |s| && !IsLineTerminator(s[e]) then CaptureEnd(s, e + 1)
    else None
  }

  /** The leftmost match at or after `from`, as its capture. */
  function MatchFrom(s: string, from: nat): (r: Option<string>)
    ensures r.Some? ==>
      exists i, e ::
        from <= i && IsCapture(s, i, e) && r.value == s[i + |Header|..e] &&
        (forall e' :: IsCapture(s, i, e') ==> e <= e') &&
        (forall i', e' :: from <= i' < i ==> !IsCapture(s, i', e'))
    ensures r.None? ==> forall i, e :: from <= i ==> !IsCapture(s, i, e)
    decreases |s| - from
  {
    if |s| < from + |Header| then
      assert forall i, e :: from <= i ==> !IsCapture(s, i, e);
      None
    else
      var end := CaptureEnd(s, from + |Header|);
      if OccursAt(s, Header, from) && end.Some? then
        assert forall e' :: IsCapture(s, from, e') ==> end.value <= e';
        assert IsCapture(s, from, end.value);
        Some(s[from + |Header|..end.value])
      else
        assert forall e :: !IsCapture(s, from, e);
        MatchFrom(s, from + 1)
  }

  /** `extractMessage(message)`: the capture, or `None` when there is no match
      or the capture is empty (an empty string is falsy). */
  function Extract(message: string): Option<string> {
    match MatchFrom(Clean(message), 0)
    case Some(c) => if c != "" then Some(c) else None
    case None => None
  }

  // ---------------------------------------------------------------- lemmas

  /** What `Extract` returns: the non-empty first capture of the cleaned
      message; `None` exactly when the expression does not match or its first
      capture is empty. */
  lemma ExtractIsFirstCapture(message: string)
    ensures Extract(message).Some? ==> exists i, e ::
      IsFirstCapture(Clean(message), i, e) && i + |Header| < e &&
      Extract(message).value == Clean(message)[i + |Header|..e]
    ensures Extract(message).None? <==>
      (forall i, e :: !IsCapture(Clean(message), i, e)) ||
      (exists i, e :: IsFirstCapture(Clean(message), i, e) && e == i + |Header|)
  {
    var s := Clean(message);
    match MatchFrom(s, 0)
    case None =>
      assert forall i, e :: !IsFirstCapture(s, i, e);
    case Some(c) =>
      var i, e :| 0 <= i && IsCapture(s, i, e) && c == s[i + |Header|..e] &&
        (forall e' :: IsCapture(s, i, e') ==> e <= e') &&
        (forall i', e' :: 0 <= i' < i ==> !IsCapture(s, i', e'));
      assert IsFirstCapture(s, i, e);
      forall i0, e0 | IsFirstCapture(s, i0, e0) ensures i0 == i && e0 == e {
        FirstCaptureUnique(s, i, e, i0, e0);
      }
      assert |c| == e - (i + |Header|);
  }

  /** The regular expression has at most one first capture. */
  lemma FirstCaptureUnique(s: string, i: int, e: int, i0: int, e0: int)
    requires IsFirstCapture(s, i, e) && IsFirstCapture(s, i0, e0)
    ensures i0 == i && e0 == e
  {
    assert IsCapture(s, i, e) && IsCapture(s, i0, e0);
  }

  /** A returned message is non-empty, lies on one line, and appears in the
      cleaned text between the header and the terminator. */
  lemma ExtractedMessageShape(message: string)
    requires Extract(message).Some?
    ensures Extract(message).value != ""
    ensures forall k :: 0 <= k < |Extract(message).value| ==> !IsLineTerminator(Extract(message).value[k])
    ensures exists i :: OccursAt(Clean(message), Header + Extract(message).value + Terminator, i)
  {
    ExtractIsFirstCapture(message);
    var s := Clean(message);
    var i, e :| IsFirstCapture(s, i, e) && i + |Header| < e && Extract(message).value == s[i + |Header|..e];
    CaptureShape(s, i, e, Extract(message).value);
  }

  /** A capture is a line of the text, framed by the header and the terminator. */
  lemma CaptureShape(s: string, i: int, e: int, c: string)
    requires IsCapture(s, i, e) && c == s[i + |Header|..e]
    ensures forall k :: 0 <= k < |c| ==> !IsLineTerminator(c[k])
    ensures OccursAt(s, Header + c + Terminator, i)
  {
    forall k | 0 <= k < |c| ensures !IsLineTerminator(c[k]) {
      assert c[k] == s[i + |Header| + k];
    }
    assert s[i..i + |Header|] == Header;
    assert s[e..e + |Terminator|] == Terminator;
    assert s[i..i + |Header + c + Terminator|] == s[i..i + |Header|] + s[i + |Header|..e] + s[e..e + |Terminator|];
  }

  /** Text without the warning sign (for example a plain `Error` message) yields `None`. */
  lemma NoWarningSignNoMessage(message: string)
    requires '\U{26A0}' !in message
    ensures Extract(message) == None
  {
    ReplaceAllByNothingKeepsChars(message, Separator, '\U{26A0}');
    var s := Clean(message);
    forall i | 0 <= i && i + |Header| <= |s| ensures !OccursAt(s, Header, i) {
      assert s[i..i + |Header|][0] == s[i];
    }
  }

  /** The markers are removed in a single pass: deleting a marker can join two
      pieces into a new marker, and that one stays. */
  lemma CleanIsOnePass()
    ensures Clean("\n  \n  \U{2502} \U{2502} ") == Separator
  {
    var s := "\n  \n  \U{2502} \U{2502} ";
    assert s[..5][3] != Separator[3];
    assert s[1..][..5][0] != Separator[0];
    assert s[2..][..5][0] != Separator[0];
    assert s[1..][1..] == s[2..] && s[2..][1..] == s[3..];
    assert s[3..][..5] == Separator;
    var t := s[3..];
    assert t[5..] == "\U{2502} ";
    assert Clean(t[5..]) == t[5..];
    assert Clean(t) == "" + Clean(t[|Separator|..]);
    assert Clean(s[2..]) == [s[2]] + Clean(s[3..]);
    assert Clean(s[1..]) == [s[1]] + Clean(s[2..]);
    assert Clean(s) == [s[0]] + Clean(s[1..]);
  }

  /** How the bundler renders a warning made from `new Error(msg)`: the header
      indented by two spaces, the message, and the stack trace on a
      continuation line. */
  function Rendered(msg: string, stack: string): string {
    "  " + Header + msg + Separator + Terminator + stack
  }

  /** Cleaning a rendered warning joins the message and the stack trace. */
  lemma CleanRendered(msg: string, stack: string)
    requires '\n' !in msg
    ensures Clean(Rendered(msg, stack)) == "  " + Header + msg + Terminator + Clean(stack)
  {
    var x := "  " + Header + msg;
    assert '\n' !in "  " + Header;
    assert '\n' !in x;
    var y := Terminator + stack;
    var z := ReplaceAll(stack, Separator, "");
    assert Rendered(msg, stack) == x + (Separator + y);
    ReplaceAllSkipsPrefix(x, Separator + y, Separator, "");
    ReplaceAllAtFront(y, Separator, "");
    ReplaceAllSkipsPrefix(Terminator, stack, Separator, "");
    assert ReplaceAll(Separator + y, Separator, "") == Terminator + z;
    assert x + (Terminator + z) == "  " + Header + msg + Terminator + z;
  }

  /** A message on one line that does not contain the terminator is recovered
      from its rendered form. */
  lemma ExtractRendered(msg: string, stack: string)
    requires msg != ""
    requires forall k :: 0 <= k < |msg| ==> !IsLineTerminator(msg[k])
    requires forall k :: !OccursAt(msg, Terminator, k)
    ensures Extract(Rendered(msg, stack)) == Some(msg)
  {
    assert '\n' !in msg by {
      forall k | 0 <= k < |msg| ensures msg[k] != '\n' { assert !IsLineTerminator(msg[k]); }
    }
    CleanRendered(msg, stack);
    MatchCleaned(msg, Clean(stack));
  }

  lemma MatchCleaned(msg: string, rest: string)
    requires forall k :: 0 <= k < |msg| ==> !IsLineTerminator(msg[k])
    requires forall k :: !OccursAt(msg, Terminator, k)
    ensures MatchFrom("  " + Header + msg + Terminator + rest, 0) == Some(msg)
  {
    var s := "  " + Header + msg + Terminator + rest;
    var start := 2 + |Header|;
    var v := start + |msg|;
    assert s[start..v] == msg;
    assert s[v..v + |Terminator|] == Terminator;
    CaptureEndOfMessage(msg, s, start);
    assert !OccursAt(s, Header, 0) by { assert s[0] != Header[0]; }
    assert !OccursAt(s, Header, 1) by { assert s[1] != Header[0]; }
    assert OccursAt(s, Header, 2) by { assert s[2..start] == Header; }
    assert MatchFrom(s, 2) == Some(s[start..v]);
  }

  /** The lazy scan stops right after a message that contains no line
      terminator and no terminator. */
  lemma CaptureEndOfMessage(msg: string, s: string, start: nat)
    requires start + |msg| + |Terminator| <= |s|
    requires s[start..start + |msg|] == msg && s[start + |msg|..start + |msg| + |Terminator|] == Terminator
    requires forall k :: 0 <= k < |msg| ==> !IsLineTerminator(msg[k])
    requires forall j :: !OccursAt(msg, Terminator, j)
    ensures CaptureEnd(s, start) == Some(start + |msg|)
  {
    var v := start + |msg|;
    assert OccursAt(s, Terminator, v);
    forall k | start <= k < v ensures !IsLineTerminator(s[k]) && !OccursAt(s, Terminator, k) {
      assert s[k] == msg[k - start];
      NoTerminatorBefore(msg, s, start, k);
    }
  }

  /** The terminator cannot begin inside `msg` in `... + msg + "    at" + ...`:
      either it would lie wholly inside `msg`, or its final 't' would fall on
      one of the spaces or the 'a' that follow `msg`. */
  lemma NoTerminatorBefore(msg: string, s: string, start: nat, k: nat)
    requires start <= k < start + |msg| && start + |msg| + |Terminator| <= |s|
    requires s[start..start + |msg|] == msg && s[start + |msg|..start + |msg| + |Terminator|] == Terminator
    requires forall j :: !OccursAt(msg, Terminator, j)
    ensures !OccursAt(s, Terminator, k)
  {
    var v := start + |msg|;
    if k + |Terminator| <= v {
      var here, there := s[k..k + |Terminator|], msg[k - start..k - start + |Terminator|];
      forall j | 0 <= j < |Terminator| ensures here[j] == there[j] {
        assert msg[k - start + j] == s[start..start + |msg|][k - start + j];
      }
      assert !OccursAt(msg, Terminator, k - start);
    } else {
      assert s[k + 5] == Terminator[k + 5 - v];
      assert s[k + 5] != Terminator[5];
    }
  }
}
