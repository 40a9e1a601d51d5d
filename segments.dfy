/** Segmentation of a cleaned agent response into candidate sections, shared by the
    vulnerability and the gas parsers: the cascade of numbered-section patterns (the first
    pattern with any match decides, the others are not consulted) and the keyword-paragraph
    fallback used when that cascade yields nothing. */
module Segments {
  import opened Text
  import opened Cascade
  import opened Heuristics

  /** One `(number, title, content)` tuple of a numbered-section `re.findall`; the number is
      only printed, so the model keeps the title and the content. */
  datatype Match = Match(title: string, content: string)

  /** A numbered-section pattern: the tuples `re.findall` returns for a text. */
  type Segmenter = string -> seq<Match>

  /** `f"{title.strip()}\n{content.strip()}"`. */
  function SectionText(m: Match): string {
    Strip(m.title) + "\n" + Strip(m.content)
  }

  /** The content of a match is long enough for the section to be kept. */
  predicate Substantial(m: Match, threshold: nat) {
    |Strip(m.content)| > threshold
  }

  /** The sections kept from the matches of one pattern, in match order. */
  function KeptSections(ms: seq<Match>, threshold: nat): (r: seq<string>)
    ensures |r| <= |ms|
    decreases |ms|
  {
    if ms == [] then []
    else
      var last := ms[|ms| - 1];
      KeptSections(ms[..|ms| - 1], threshold) + (if Substantial(last, threshold) then [SectionText(last)] else [])
  }

  lemma KeptSectionsStep(ms: seq<Match>, i: nat, threshold: nat)
    requires i < |ms|
    ensures KeptSections(ms[..i + 1], threshold) ==
      KeptSections(ms[..i], threshold) + (if Substantial(ms[i], threshold) then [SectionText(ms[i])] else [])
  {
    assert ms[..i + 1][..i] == ms[..i];
  }

  /** The results of all patterns on `text`, in pattern order. */
  function Applied(patterns: seq<Segmenter>, text: string): (r: seq<seq<Match>>)
    ensures |r| == |patterns| && forall i :: 0 <= i < |patterns| ==> r[i] == patterns[i](text)
  {
    seq(|patterns|, i requires 0 <= i < |patterns| => patterns[i](text))
  }

  /** The matches of the first pattern that matches at all, or none. */
  function FirstMatches(patterns: seq<Segmenter>, text: string): seq<Match> {
    match FirstAccepted(Applied(patterns, text), (ms: seq<Match>) => ms != [])
    case None => []
    case Some(ms) => ms
  }

  /** The loop over the numbered patterns: the first pattern with matches contributes its
      substantial matches and ends the loop, even when none of them is substantial. */
  method NumberedSections(patterns: seq<Segmenter>, text: string, threshold: nat) returns (sections: seq<string>)
    ensures sections == KeptSections(FirstMatches(patterns, text), threshold)
  {
    sections := [];
    var p := 0;
    while p < |patterns|
      invariant 0 <= p <= |patterns|
      invariant forall j :: 0 <= j < p ==> patterns[j](text) == []
    {
      var found := patterns[p](text);
      if found != [] {
        var i := 0;
        while i < |found|
          invariant 0 <= i <= |found|
          invariant sections == KeptSections(found[..i], threshold)
        {
          KeptSectionsStep(found, i, threshold);
          var m := found[i];
          if |Strip(m.content)| > threshold {
            sections := sections + [SectionText(m)];
          }
          i := i + 1;
        }
        assert found[..|found|] == found;
        FirstMatchesAt(patterns, text, p);
        return;
      }
      p := p + 1;
    }
    FirstMatchesNone(patterns, text);
  }

  lemma FirstMatchesAt(patterns: seq<Segmenter>, text: string, p: nat)
    requires p < |patterns| && patterns[p](text) != []
    requires forall j :: 0 <= j < p ==> patterns[j](text) == []
    ensures FirstMatches(patterns, text) == patterns[p](text)
  {
    var cs := Applied(patterns, text);
    var ok := (ms: seq<Match>) => ms != [];
    assert cs == cs[..p] + cs[p..];
    FirstAcceptedSkipsRefused(cs[..p], cs[p..], ok);
    assert cs[p..][0] == cs[p];
  }

  lemma FirstMatchesNone(patterns: seq<Segmenter>, text: string)
    requires forall j :: 0 <= j < |patterns| ==> patterns[j](text) == []
    ensures FirstMatches(patterns, text) == []
  {
    var cs := Applied(patterns, text);
    assert forall j :: 0 <= j < |cs| ==> cs[j] == [];
  }

  /** Patterns after the first one that matches are never consulted. */
  lemma FirstMatchesIgnoresLater(patterns: seq<Segmenter>, more: seq<Segmenter>, text: string)
    requires FirstMatches(patterns, text) != []
    ensures FirstMatches(patterns + more, text) == FirstMatches(patterns, text)
  {
    var ok := (ms: seq<Match>) => ms != [];
    assert Applied(patterns + more, text) == Applied(patterns, text) + Applied(more, text);
    FirstAcceptedPrefix(Applied(patterns, text), Applied(more, text), ok);
  }

  /** A kept section is a substantial match's section text, and the matches keep their order. */
  lemma {:induction false} KeptSectionsAreSubstantial(ms: seq<Match>, threshold: nat, k: nat)
    requires k < |KeptSections(ms, threshold)|
    ensures exists i :: (0 <= i < |ms| && Substantial(ms[i], threshold) &&
      KeptSections(ms, threshold)[k] == SectionText(ms[i]))
    decreases |ms|
  {
    var init := ms[..|ms| - 1];
    var last := ms[|ms| - 1];
    if k < |KeptSections(init, threshold)| {
      KeptSectionsAreSubstantial(init, threshold, k);
      var i :| 0 <= i < |init| && Substantial(init[i], threshold) &&
        KeptSections(init, threshold)[k] == SectionText(init[i]);
      assert ms[i] == init[i];
    } else {
      assert Substantial(last, threshold);
    }
  }

  /** Every substantial match is kept. */
  lemma {:induction false} SubstantialIsKept(ms: seq<Match>, threshold: nat, i: nat)
    requires i < |ms| && Substantial(ms[i], threshold)
    ensures exists k :: 0 <= k < |KeptSections(ms, threshold)| && KeptSections(ms, threshold)[k] == SectionText(ms[i])
    decreases |ms|
  {
    var init := ms[..|ms| - 1];
    if i < |init| {
      SubstantialIsKept(init, threshold, i);
      var k :| 0 <= k < |KeptSections(init, threshold)| && KeptSections(init, threshold)[k] == SectionText(init[i]);
      assert KeptSections(ms, threshold)[k] == KeptSections(init, threshold)[k];
    } else {
      var r := KeptSections(ms, threshold);
      assert r[|r| - 1] == SectionText(ms[i]);
    }
  }

  /** Stripping text that ends in a non-empty stripped part keeps that part whole. */
  lemma StripKeepsTail(pre: string, b: string)
    requires b != [] && Stripped(b)
    ensures |Strip(pre + b)| >= |b|
  {
    var x := pre + b;
    var a := StripStart(x);
    var n := |Strip(x)|;
    assert x[|pre|] == b[0];
    assert x[|x| - 1] == b[|b| - 1];
    assert a <= |pre|;
    assert a + n == |x|;
  }

  /** A kept section is at least as long as the content it was kept for, so the parsers'
      check that skips sections below the threshold never fires on one of them. */
  lemma SectionTextLong(m: Match, threshold: nat)
    requires Substantial(m, threshold)
    ensures |Strip(SectionText(m))| > threshold
  {
    assert SectionText(m) == (Strip(m.title) + "\n") + Strip(m.content);
    StripKeepsTail(Strip(m.title) + "\n", Strip(m.content));
  }

  lemma KeptSectionsLong(ms: seq<Match>, threshold: nat)
    ensures forall k :: 0 <= k < |KeptSections(ms, threshold)| ==> |Strip(KeptSections(ms, threshold)[k])| > threshold
  {
    forall k | 0 <= k < |KeptSections(ms, threshold)|
      ensures |Strip(KeptSections(ms, threshold)[k])| > threshold
    {
      KeptSectionsAreSubstantial(ms, threshold, k);
      var i :| 0 <= i < |ms| && Substantial(ms[i], threshold) && KeptSections(ms, threshold)[k] == SectionText(ms[i]);
      SectionTextLong(ms[i], threshold);
    }
  }

  /** A segmenter whose contents are never longer than the text they come from, as for every
      `re.findall` capture. */
  predicate Bounded(patterns: seq<Segmenter>, text: string) {
    forall p, i :: 0 <= p < |patterns| && 0 <= i < |patterns[p](text)| ==> |patterns[p](text)[i].content| <= |text|
  }

  /** No section is kept from a text no longer than the threshold. */
  lemma ShortTextHasNoNumberedSections(patterns: seq<Segmenter>, text: string, threshold: nat)
    requires Bounded(patterns, text) && |text| <= threshold
    ensures KeptSections(FirstMatches(patterns, text), threshold) == []
  {
    var ms := FirstMatches(patterns, text);
    var cs := Applied(patterns, text);
    var ok := (ms: seq<Match>) => ms != [];
    if ms != [] {
      var k := FirstIndex(cs, ok).value;
      assert ms == patterns[k](text);
      if KeptSections(ms, threshold) != [] {
        KeptSectionsAreSubstantial(ms, threshold, 0);
      }
    }
  }

  // ---------------------------------------------------------------- keyword paragraphs

  /** A stripped paragraph worth parsing: long enough, on topic, and not echoed instructions. */
  predicate KeepParagraph(para: string, minLength: nat, keywords: seq<string>) {
    |para| > minLength && ContainsAny(Lower(para), keywords) && !IsTemplateText(para)
  }

  /** The stripped pieces worth parsing, in order. */
  function KeptParagraphs(pieces: seq<string>, minLength: nat, keywords: seq<string>): (r: seq<string>)
    ensures |r| <= |pieces|
    decreases |pieces|
  {
    if pieces == [] then []
    else
      var para := Strip(pieces[|pieces| - 1]);
      KeptParagraphs(pieces[..|pieces| - 1], minLength, keywords) +
        (if KeepParagraph(para, minLength, keywords) then [para] else [])
  }

  lemma KeptParagraphsStep(pieces: seq<string>, i: nat, minLength: nat, keywords: seq<string>)
    requires i < |pieces|
    ensures KeptParagraphs(pieces[..i + 1], minLength, keywords) ==
      KeptParagraphs(pieces[..i], minLength, keywords) +
        (if KeepParagraph(Strip(pieces[i]), minLength, keywords) then [Strip(pieces[i])] else [])
  {
    assert pieces[..i + 1][..i] == pieces[..i];
  }

  /** The keyword-based extraction loop over the pieces of a split. */
  method KeywordSections(pieces: seq<string>, minLength: nat, keywords: seq<string>) returns (sections: seq<string>)
    ensures sections == KeptParagraphs(pieces, minLength, keywords)
  {
    sections := [];
    var i := 0;
    while i < |pieces|
      invariant 0 <= i <= |pieces|
      invariant sections == KeptParagraphs(pieces[..i], minLength, keywords)
    {
      KeptParagraphsStep(pieces, i, minLength, keywords);
      var para := Strip(pieces[i]);
      if KeepParagraph(para, minLength, keywords) {
        sections := sections + [para];
      }
      i := i + 1;
    }
    assert pieces[..|pieces|] == pieces;
  }

  /** Every kept paragraph passes the test, and is one of the pieces stripped. */
  lemma {:induction false} KeptParagraphsPass(pieces: seq<string>, minLength: nat, keywords: seq<string>, k: nat)
    requires k < |KeptParagraphs(pieces, minLength, keywords)|
    ensures KeepParagraph(KeptParagraphs(pieces, minLength, keywords)[k], minLength, keywords)
    ensures exists i :: 0 <= i < |pieces| && KeptParagraphs(pieces, minLength, keywords)[k] == Strip(pieces[i])
    decreases |pieces|
  {
    var init := pieces[..|pieces| - 1];
    if k < |KeptParagraphs(init, minLength, keywords)| {
      KeptParagraphsPass(init, minLength, keywords, k);
      var i :| 0 <= i < |init| && KeptParagraphs(init, minLength, keywords)[k] == Strip(init[i]);
      assert pieces[i] == init[i];
    }
  }

  /** Pieces no longer than the threshold yield nothing. */
  lemma {:induction false} ShortPiecesKeepNothing(pieces: seq<string>, minLength: nat, keywords: seq<string>)
    requires forall i :: 0 <= i < |pieces| ==> |pieces[i]| <= minLength
    ensures KeptParagraphs(pieces, minLength, keywords) == []
    decreases |pieces|
  {
    if pieces != [] {
      ShortPiecesKeepNothing(pieces[..|pieces| - 1], minLength, keywords);
    }
  }
}
