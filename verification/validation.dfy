/**
 * Value checks shared by the export path and the settings validator:
 * HTTP(S) URLs, hex colours and the well-formedness of text runs.
 */
module Validation {
  import opened Wrappers
  import opened Types

  // ---------------------------------------------------------------------------
  // URLs
  // ---------------------------------------------------------------------------

  /**
   * The platform URL parser: the `protocol` of `new URL(value)`, or `None`
   * when the constructor throws. URL parsing itself is the runtime's.
   */
  type UrlProtocolOf = string -> Option<string>

  /** `isValidHttpUrl`: a non-empty string whose parsed scheme is `http:` or `https:`. */
  function IsValidHttpUrl(value: string, protocolOf: UrlProtocolOf): (valid: bool)
    ensures value == "" ==> !valid
    ensures valid <==> value != "" && (protocolOf(value) == Some("http:") || protocolOf(value) == Some("https:"))
  {
    if value == "" then false
    else
      match protocolOf(value)
      case None => false
      case Some(protocol) => protocol == "http:" || protocol == "https:"
  }

  // ---------------------------------------------------------------------------
  // Hex colours: /^#([0-9a-fA-F]{3}|[0-9a-fA-F]{6})$/
  // ---------------------------------------------------------------------------

  predicate IsHexDigit(c: char)
  {
    '0' <= c <= '9' || 'a' <= c <= 'f' || 'A' <= c <= 'F'
  }

  /** The regular expression's tail: exactly `n` hex digits, then the end of the input. */
  predicate HexDigitsThenEnd(s: string, n: nat)
  {
    if n == 0 then s == [] else s != [] && IsHexDigit(s[0]) && HexDigitsThenEnd(s[1..], n - 1)
  }

  /** The colour literal spelled out: `#` and then three or six hex digits, nothing else. */
  predicate IsHexColorLiteral(s: string)
  {
    (|s| == 4 || |s| == 7) && s[0] == '#' && forall i :: 1 <= i < |s| ==> IsHexDigit(s[i])
  }

  lemma {:induction false} HexDigitsThenEndIff(s: string, n: nat)
    ensures HexDigitsThenEnd(s, n) <==> |s| == n && forall i :: 0 <= i < |s| ==> IsHexDigit(s[i])
  {
    if n > 0 && s != [] {
      HexDigitsThenEndIff(s[1..], n - 1);
      assert forall i :: 1 <= i < |s| ==> s[i] == s[1..][i - 1];
    }
  }

  /**
   * `isValidHexColor`: a missing colour (`null`/`undefined`) counts as valid;
   * a string is valid iff it is `#` followed by exactly 3 or exactly 6 hex digits.
   */
  function IsValidHexColor(value: Option<string>): (valid: bool)
    ensures value.None? ==> valid
    ensures value.Some? ==> (valid <==> IsHexColorLiteral(value.value))
  {
    match value
    case None => true
    case Some(s) =>
      if s != [] then
        HexDigitsThenEndIff(s[1..], 3);
        HexDigitsThenEndIff(s[1..], 6);
        assert forall i :: 1 <= i < |s| ==> s[i] == s[1..][i - 1];
        s[0] == '#' && (HexDigitsThenEnd(s[1..], 3) || HexDigitsThenEnd(s[1..], 6))
      else false
  }

  lemma HexColorExamples()
    ensures IsValidHexColor(Some("#fff")) && IsValidHexColor(Some("#A1b2C3"))
    ensures !IsValidHexColor(Some("#ffff")) && !IsValidHexColor(Some("fff")) && !IsValidHexColor(Some("#ggg"))
    ensures IsValidHexColor(None)
  {
    assert !IsHexDigit('g');
  }

  // ---------------------------------------------------------------------------
  // Text runs
  // ---------------------------------------------------------------------------

  /**
   * The run invariant: every run lies in `[0, |text|]` and is non-empty, and
   * runs are sorted and non-overlapping (each starts at or after the previous end).
   */
  predicate RunsWellFormed(text: string, runs: seq<TextRun>)
  {
    && (forall i :: 0 <= i < |runs| ==> 0 <= runs[i].start < runs[i].end <= |text|)
    && (forall i :: 0 < i < |runs| ==> runs[i - 1].end <= runs[i].start)
  }

  /** `areTextRunsValid`: one pass that remembers the previous run's end. */
  method AreTextRunsValid(text: string, runs: seq<TextRun>) returns (valid: bool)
    ensures valid <==> RunsWellFormed(text, runs)
  {
    var length := |text|;
    var lastEnd := 0;
    for i := 0 to |runs|
      invariant RunsWellFormed(text, runs[..i])
      invariant lastEnd == if i == 0 then 0 else runs[i - 1].end
    {
      var run := runs[i];
      if run.start < 0 || run.end > length || run.end <= run.start {
        return false;
      }
      if run.start < lastEnd {
        return false;
      }
      lastEnd := run.end;
      assert runs[..i + 1][..i] == runs[..i];
    }
    assert runs[..|runs|] == runs;
    return true;
  }

  /** An empty run list is valid for any text; adjacent runs pass and overlapping runs fail. */
  lemma RunExamples(text: string)
    ensures RunsWellFormed(text, [])
    ensures RunsWellFormed("Hello", [TextRun(0, 2, false, None), TextRun(2, 5, true, None)])
    ensures !RunsWellFormed("Hello", [TextRun(0, 3, false, None), TextRun(2, 5, true, None)])
  {
    var bad := [TextRun(0, 3, false, None), TextRun(2, 5, true, None)];
    assert bad[0].end > bad[1].start;
  }
}
