/** The two text cleaners of the parsing engine: `_clean_extracted_text`, which normalises every
    extracted field, and `_clean_agent_response`, which removes tracking metadata from the raw
    agent response before segmentation. */
module Cleaning {
  import opened Text

  predicate IsNewline(c: char) { c == '\n' }

  predicate NoNewline(s: string) {
    forall i :: 0 <= i < |s| ==> s[i] != '\n'
  }

  /** Every whitespace character is a plain space and no two whitespace characters are adjacent. */
  predicate SingleSpaced(s: string) {
    (forall i :: 0 <= i < |s| && IsSpace(s[i]) ==> s[i] == ' ') &&
    (forall i :: 0 <= i < |s| - 1 ==> !(IsSpace(s[i]) && IsSpace(s[i + 1])))
  }

  /** The shape of every cleaned field: single-spaced, nothing to strip. */
  predicate Normalized(s: string) {
    Stripped(s) && SingleSpaced(s)
  }

  /** `re.sub(r'\s+', ' ', s)`: every maximal whitespace run becomes one space. */
  function CollapseWhitespace(s: string): (r: string)
    ensures |r| <= |s|
    ensures |r| > 0 <==> |s| > 0
    ensures |r| > 0 ==> (IsSpace(r[0]) <==> IsSpace(s[0]))
    ensures SingleSpaced(r)
    decreases |s|
  {
    if s == [] then []
    else if IsSpace(s[0]) then " " + CollapseWhitespace(s[SkipWhile(s, 0, IsSpace)..])
    else [s[0]] + CollapseWhitespace(s[1..])
  }

  /** `re.sub(r'\n\n+', '\n\n', s)`. */
  function CollapseNewlineRuns(s: string): string
    decreases |s|
  {
    if |s| >= 2 && s[0] == '\n' && s[1] == '\n' then "\n\n" + CollapseNewlineRuns(s[SkipWhile(s, 0, IsNewline)..])
    else if s == [] then []
    else [s[0]] + CollapseNewlineRuns(s[1..])
  }

  lemma {:induction false} CollapseNewlineRunsWithoutNewlines(s: string)
    requires NoNewline(s)
    ensures CollapseNewlineRuns(s) == s
    decreases |s|
  {
    if s != [] {
      CollapseNewlineRunsWithoutNewlines(s[1..]);
      assert [s[0]] + s[1..] == s;
    }
  }

  lemma SingleSpacedHasNoNewline(s: string)
    requires SingleSpaced(s)
    ensures NoNewline(s)
  {
    forall i | 0 <= i < |s| ensures s[i] != '\n' {
      if s[i] == '\n' { assert IsSpace(s[i]); }
    }
  }

  lemma SingleSpacedSlice(s: string, a: nat, b: nat)
    requires SingleSpaced(s) && a <= b <= |s|
    ensures SingleSpaced(s[a..b])
  {
    var t := s[a..b];
    forall i | 0 <= i < |t| - 1 ensures !(IsSpace(t[i]) && IsSpace(t[i + 1])) {
      assert t[i] == s[a + i] && t[i + 1] == s[a + i + 1];
    }
  }

  lemma StripOfSingleSpaced(s: string)
    requires SingleSpaced(s)
    ensures Normalized(Strip(s)) && NoNewline(Strip(s))
  {
    var r := Strip(s);
    SingleSpacedSlice(s, StripStart(s), StripStart(s) + |r|);
    SingleSpacedHasNoNewline(r);
  }

  /** `_clean_extracted_text`: empty for empty input, otherwise whitespace runs collapsed to one
      space and the ends stripped. */
  function CleanExtractedText(text: string): (r: string)
    ensures text == [] ==> r == []
    ensures Normalized(r) && NoNewline(r)
    ensures |r| <= |text|
  {
    if text == [] then []
    else
      var collapsed := CollapseWhitespace(text);
      SingleSpacedHasNoNewline(collapsed);
      CollapseNewlineRunsWithoutNewlines(collapsed);
      StripOfSingleSpaced(collapsed);
      Strip(CollapseNewlineRuns(collapsed))
  }

  /** The second substitution (`\n\n+` to a blank line) never fires: the first one has already
      turned every newline into a space, so cleaning is collapsing and stripping. */
  lemma CleanIsCollapseThenStrip(text: string)
    ensures CleanExtractedText(text) == Strip(CollapseWhitespace(text))
  {
    if text != [] {
      var collapsed := CollapseWhitespace(text);
      SingleSpacedHasNoNewline(collapsed);
      CollapseNewlineRunsWithoutNewlines(collapsed);
    }
  }

  lemma {:induction false} CollapseOfSingleSpaced(s: string)
    requires SingleSpaced(s)
    ensures CollapseWhitespace(s) == s
    decreases |s|
  {
    if s != [] {
      SingleSpacedSlice(s, 1, |s|);
      CollapseOfSingleSpaced(s[1..]);
      if IsSpace(s[0]) {
        assert |s| > 1 ==> !IsSpace(s[1]);
        assert SkipWhile(s, 0, IsSpace) == 1;
      }
      assert [s[0]] + s[1..] == s;
    }
  }

  /** A normalised text is a fixed point of cleaning. */
  lemma CleanFixesNormalized(s: string)
    requires Normalized(s)
    ensures CleanExtractedText(s) == s
  {
    CleanIsCollapseThenStrip(s);
    CollapseOfSingleSpaced(s);
    StripOfStripped(s);
  }

  /** Cleaning twice equals cleaning once. */
  lemma CleanIdempotent(text: string)
    ensures CleanExtractedText(CleanExtractedText(text)) == CleanExtractedText(text)
  {
    CleanFixesNormalized(CleanExtractedText(text));
  }

  // ---------------------------------------------------------------- agent response

  /** The identifier class `[a-zA-Z0-9\-_]`. */
  predicate IsIdChar(c: char) { IsLetter(c) || IsDigit(c) || c == '-' || c == '_' }

  /** A match of `marker[:\s]*[a-zA-Z0-9\-_]+` (case-insensitive) at the head of `s`, as its
      length. The two classes are disjoint, so the greedy reading is the only one. */
  function MarkerLength(s: string, marker: string): (r: Option<nat>)
    ensures r.Some? ==> |marker| < r.value <= |s|
    ensures r.Some? ==> ContainsAt(Lower(s), marker, 0)
  {
    if |marker| > |s| || Lower(s[..|marker|]) != marker then None
    else
      LowerSlice(s, 0, |marker|);
      var j := SkipWhile(s, |marker|, IsColonOrSpace);
      var k := SkipWhile(s, j, IsIdChar);
      if k == j then None else Some(k)
  }

  /** `re.sub(marker + r'[:\s]*[a-zA-Z0-9\-_]+', '', s, flags=re.IGNORECASE)`. */
  function RemoveMarkers(s: string, marker: string): (r: string)
    ensures |r| <= |s|
    decreases |s|
  {
    if s == [] then []
    else match MarkerLength(s, marker)
      case Some(k) => RemoveMarkers(s[k..], marker)
      case None => [s[0]] + RemoveMarkers(s[1..], marker)
  }

  lemma {:induction false} RemoveMarkersAbsent(s: string, marker: string)
    requires !Contains(Lower(s), marker)
    ensures RemoveMarkers(s, marker) == s
    decreases |s|
  {
    if s != [] {
      assert !ContainsAt(Lower(s), marker, 0);
      if Contains(Lower(s[1..]), marker) {
        var i :| 0 <= i <= |s[1..]| - |marker| && ContainsAt(Lower(s[1..]), marker, i);
        LowerSlice(s, 1, |s|);
        assert Lower(s)[i + 1..i + 1 + |marker|] == Lower(s[1..])[i..i + |marker|];
        assert ContainsAt(Lower(s), marker, i + 1);
        assert false;
      }
      RemoveMarkersAbsent(s[1..], marker);
      assert [s[0]] + s[1..] == s;
    }
  }

  /** `_clean_agent_response`: empty for empty input, otherwise the conversation and request
      identifiers removed and the ends stripped. */
  function CleanAgentResponse(text: string): (r: string)
    ensures text == [] ==> r == []
    ensures Stripped(r) && |r| <= |text|
  {
    if text == [] then []
    else Strip(RemoveMarkers(RemoveMarkers(text, "conversation_id"), "request_id"))
  }

  /** A response without any tracking marker is only stripped. */
  lemma CleanAgentResponseWithoutMarkers(text: string)
    requires !Contains(Lower(text), "conversation_id") && !Contains(Lower(text), "request_id")
    ensures CleanAgentResponse(text) == Strip(text)
  {
    RemoveMarkersAbsent(text, "conversation_id");
    RemoveMarkersAbsent(text, "request_id");
  }
}
