/** `_extract_gas_optimizations`: segmenting a cleaned response into optimisation sections,
    extracting and validating one record per section, and the keyword-driven fallback records
    (`_create_fallback_gas_optimizations` and its two helpers) used when nothing validates. */
module GasParse {
  import opened Text
  import opened Cascade
  import opened Cleaning
  import opened Heuristics
  import opened Scanners
  import opened CodeBlocks
  import opened Segments
  import opened Security
  import opened Gas

  // ---------------------------------------------------------------- segmentation

  /** The lookahead `(?=\d+\.)`: a run of digits followed by a full stop. */
  predicate StartsNumbered(t: string) {
    match DigitsEnd(t, 0)
    case None => false
    case Some(d) => d < |t| && t[d] == '.'
  }

  predicate NotStar(c: char) { c != '*' }

  const BOLD_HEADER_WORDS: seq<string> := ["optimization", "gas", "save", "reduce", "efficient"]

  /** The lookahead `(?=\*\*[^*]*(?:optimization|gas|save|reduce|efficient))`, which the split
      applies without IGNORECASE: one of the words inside the run of non-stars after `**`. */
  predicate StartsBoldGasHeader(t: string) {
    ContainsAt(t, "**", 0) && ContainsAny(t[2..SkipWhile(t, 2, NotStar)], BOLD_HEADER_WORDS)
  }

  /** The splits of the paragraph fallback, in the order the parser tries them. */
  function SplitTexts(text: string): seq<seq<string>> {
    [Paragraphs(text), SplitBeforeLines(text, StartsNumbered), SplitBeforeLines(text, StartsBoldGasHeader)]
  }

  /** The first split that yields more than one piece, or the last split when none does. */
  function ChosenSplit(splits: seq<seq<string>>): (r: seq<string>)
    requires |splits| >= 1
    ensures (exists k :: 0 <= k < |splits| && r == splits[k])
    ensures |splits[0]| > 1 ==> r == splits[0]
    ensures |r| <= 1 ==> r == splits[|splits| - 1] && forall k :: 0 <= k < |splits| ==> |splits[k]| <= 1
    decreases |splits|
  {
    if |splits[0]| > 1 || |splits| == 1 then splits[0]
    else
      var rest := ChosenSplit(splits[1..]);
      assert exists k :: 0 <= k < |splits| && rest == splits[k] by {
        var k :| 0 <= k < |splits[1..]| && rest == splits[1..][k];
        assert splits[1..][k] == splits[k + 1];
      }
      assert |rest| <= 1 ==> forall k :: 0 <= k < |splits| ==> |splits[k]| <= 1 by {
        if |rest| <= 1 {
          forall k | 0 <= k < |splits| ensures |splits[k]| <= 1 {
            if k > 0 {
              assert splits[1..][k - 1] == splits[k];
            }
          }
        }
      }
      rest
  }

  /** The loop over the split patterns, which stops at the first split into several pieces. */
  method SplitParagraphs(splits: seq<seq<string>>) returns (pieces: seq<string>)
    requires |splits| >= 1
    ensures pieces == ChosenSplit(splits)
  {
    var i := 0;
    pieces := splits[0];
    while i < |splits|
      invariant 0 <= i <= |splits|
      invariant i < |splits| ==> ChosenSplit(splits[i..]) == ChosenSplit(splits)
      invariant i == |splits| ==> pieces == ChosenSplit(splits)
      decreases |splits| - i
    {
      assert splits[i..][0] == splits[i];
      pieces := splits[i];
      if |pieces| > 1 || i == |splits| - 1 {
        return;
      }
      assert splits[i..][1..] == splits[i + 1..];
      i := i + 1;
    }
  }

  /** No piece of the chosen split is longer than the text. */
  lemma SplitPiecesBounded(text: string)
    ensures forall i :: 0 <= i < |ChosenSplit(SplitTexts(text))| ==> |ChosenSplit(SplitTexts(text))[i]| <= |text|
  {
    ParagraphsBounded(text);
    SplitBeforeLinesBounded(text, StartsNumbered);
    SplitBeforeLinesBounded(text, StartsBoldGasHeader);
  }

  /** The keywords one of which a paragraph section has to contain. */
  const GAS_SECTION_KEYWORDS: seq<string> := [
    "gas", "optimization", "optimize", "efficient", "cheaper", "save", "reduce",
    "packing", "storage", "memory", "external", "public", "loop",
    "increment", "constant", "immutable", "error", "require", "assembly",
    "uint256", "uint", "bytes32", "mapping", "struct", "array",
    "expensive", "cost", "consumption", "usage"
  ]

  /** The candidate sections of a cleaned response: the numbered sections with more than 30
      characters of content, or when there are none the keyword paragraphs of the chosen
      split. */
  function GasSections(pats: GasPatterns, text: string): seq<string> {
    var numbered := KeptSections(FirstMatches(pats.numbered, text), 30);
    if numbered != [] then numbered else KeptParagraphs(ChosenSplit(SplitTexts(text)), 50, GAS_SECTION_KEYWORDS)
  }

  /** The segmentation part of `_extract_gas_optimizations`. */
  method GatherGasSections(pats: GasPatterns, text: string) returns (sections: seq<string>)
    ensures sections == GasSections(pats, text)
  {
    sections := NumberedSections(pats.numbered, text, 30);
    if sections == [] {
      var pieces := SplitParagraphs(SplitTexts(text));
      sections := KeywordSections(pieces, 50, GAS_SECTION_KEYWORDS);
    }
  }

  /** Every candidate section has more than 30 characters once stripped. */
  lemma GasSectionsAreLong(pats: GasPatterns, text: string, k: nat)
    requires k < |GasSections(pats, text)|
    ensures |Strip(GasSections(pats, text)[k])| > 30
  {
    var numbered := KeptSections(FirstMatches(pats.numbered, text), 30);
    if numbered != [] {
      KeptSectionsLong(FirstMatches(pats.numbered, text), 30);
    } else {
      KeptParagraphsPass(ChosenSplit(SplitTexts(text)), 50, GAS_SECTION_KEYWORDS, k);
      StripOfStripped(GasSections(pats, text)[k]);
    }
  }

  // ---------------------------------------------------------------- one section

  /** What one section contributes: its record when, stripped, the section has at least 40
      characters and the record passes the gas validator. */
  function OptimizationFor(pats: GasPatterns, section: string): Option<GasOptimization> {
    var s := Strip(section);
    if |s| < 40 then None
    else
      var info := OptimizationInfo(pats, s);
      if IsValidGasOptimization(info.description, info.optimizationType) then Some(info) else None
  }

  /** The body of the parser's section loop. */
  method SectionOptimization(pats: GasPatterns, section: string) returns (found: Option<GasOptimization>)
    ensures found == OptimizationFor(pats, section)
  {
    var s := Strip(section);
    if |s| < 40 {
      return None;
    }
    var info := ExtractGasOptimizationInfo(pats, s);
    if IsValidGasOptimization(info.description, info.optimizationType) {
      found := Some(info);
    } else {
      found := None;
    }
  }

  /** The section loop of `_extract_gas_optimizations`. */
  method CollectOptimizations(pats: GasPatterns, sections: seq<string>) returns (optimizations: seq<GasOptimization>)
    ensures optimizations == Collected(sections, (s: string) => OptimizationFor(pats, s))
  {
    var find := (s: string) => OptimizationFor(pats, s);
    optimizations := [];
    var i := 0;
    while i < |sections|
      invariant 0 <= i <= |sections|
      invariant optimizations == Collected(sections[..i], find)
    {
      CollectedStep(sections, find, i);
      var found := SectionOptimization(pats, sections[i]);
      if found.Some? {
        optimizations := optimizations + [found.value];
      }
      i := i + 1;
    }
    assert sections[..|sections|] == sections;
  }

  /** A record the validator accepted: extracted from the stripped section, of at least 40
      characters, with a description of at least 20 characters that names a gas keyword and
      is no template. */
  lemma FoundOptimization(pats: GasPatterns, section: string, o: GasOptimization)
    requires OptimizationFor(pats, section) == Some(o)
    ensures |Strip(section)| >= 40 && o == OptimizationInfo(pats, Strip(section))
    ensures var desc := Lower(o.description);
      |desc| >= 20 && ContainsAny(desc, GAS_KEYWORDS) && !IsTemplateText(desc)
  {
    var s := Strip(section);
    TypeGateNeverRejects(pats, s, o.description);
  }

  // ---------------------------------------------------------------- fallback records

  /** One entry of the fallback table. */
  datatype Hint = Hint(keywords: seq<string>, optimizationType: string, description: string, savings: string)

  const OPTIMIZATION_HINTS: seq<Hint> := [
    Hint(["storage", "pack", "slot"], "Storage Packing Optimization",
      "Pack storage variables to reduce storage slots and save gas on state operations.", "20000"),
    Hint(["external", "public", "function"], "Function Visibility Optimization",
      "Use external instead of public for functions to save gas on function calls.", "500"),
    Hint(["loop", "++i", "i++", "increment"], "Loop Optimization",
      "Use ++i instead of i++ in loops to save gas on increment operations.", "1000"),
    Hint(["constant", "immutable", "variable"], "Variable Declaration Optimization",
      "Use constant or immutable for unchanging values to save gas.", "2000"),
    Hint(["require", "error", "revert", "string"], "Custom Error Optimization",
      "Replace require statements with custom errors to reduce gas costs.", "1500"),
    Hint(["memory", "storage", "cache"], "Memory Optimization",
      "Cache storage reads in memory to avoid redundant SLOAD operations.", "800")
  ]

  /** A code candidate whose stripped, lower-cased text names a keyword. */
  predicate CodeMentions(c: string, keywords: seq<string>) {
    ContainsAny(Lower(Strip(c)), keywords)
  }

  /** A line that names a keyword and has more than ten characters once stripped. */
  predicate LineMentions(line: string, keywords: seq<string>) {
    ContainsAny(Lower(line), keywords) && |Strip(line)| > 10
  }

  /** `_extract_relevant_code_snippet`: the first code block naming a keyword, stripped and
      cut to 200 characters; else the first such line, stripped and cut to 100; else "". */
  function RelevantSnippet(text: string, keywords: seq<string>): (r: string)
    ensures |r| <= 200
  {
    match FirstAccepted(GasCodeCandidates(text), (c: string) => CodeMentions(c, keywords))
    case Some(c) => Take(Strip(c), 200)
    case None =>
      match FirstAccepted(Lines(text), (l: string) => LineMentions(l, keywords))
      case Some(l) => Take(Strip(l), 100)
      case None => ""
  }

  /** A non-empty snippet is a prefix of a stripped code block or line that names a keyword. */
  lemma RelevantSnippetMentions(text: string, keywords: seq<string>)
    ensures var r := RelevantSnippet(text, keywords);
      r == [] ||
      (exists c :: c in GasCodeCandidates(text) && CodeMentions(c, keywords) && r == Take(Strip(c), 200)) ||
      (exists l :: l in Lines(text) && LineMentions(l, keywords) && r == Take(Strip(l), 100))
  {
    var cands := GasCodeCandidates(text);
    var codeOk := (c: string) => CodeMentions(c, keywords);
    match FirstIndex(cands, codeOk)
    case Some(k) =>
      assert cands[k] in cands;
    case None =>
      var lineOk := (l: string) => LineMentions(l, keywords);
      match FirstIndex(Lines(text), lineOk)
      case Some(k) =>
        assert Lines(text)[k] in Lines(text);
      case None =>
  }

  const GENERIC_OPTIMIZED_EXAMPLE := "// Optimized version of the code"

  /** `_generate_optimized_example`: a fixed example chosen by the words of the type. */
  function OptimizedExample(optimizationType: string): string {
    var t := Lower(optimizationType);
    if Contains(t, "storage") then
      "contract Example {\n    address public owner;\n    bool public paused;  // Packed with owner\n    uint256 public value;\n}"
    else if Contains(t, "external") then
      "function getData() external view returns (uint256) {\n    return value;\n}"
    else if Contains(t, "loop") then
      "for (uint256 i = 0; i < length; ++i) {\n    // Process item\n}"
    else if Contains(t, "constant") then
      "uint256 public constant MAX_SUPPLY = 1000000;"
    else if Contains(t, "error") then
      "error InsufficientBalance();\nif (balance < amount) revert InsufficientBalance();"
    else if Contains(t, "memory") then
      "uint256 cachedValue = storageValue;\n// Use cachedValue instead of storageValue"
    else GENERIC_OPTIMIZED_EXAMPLE
  }

  /** A type that names none of the six words gets the generic example; the visibility and
      variable-declaration hints are two such types. */
  lemma GenericExampleWithoutWords(optimizationType: string)
    requires var t := Lower(optimizationType);
      !Contains(t, "storage") && !Contains(t, "external") && !Contains(t, "loop") &&
      !Contains(t, "constant") && !Contains(t, "error") && !Contains(t, "memory")
    ensures OptimizedExample(optimizationType) == GENERIC_OPTIMIZED_EXAMPLE
  {
  }

  const ORIGINAL_PREFIX := "// Original code (example):\n"
  const OPTIMIZED_PREFIX := "// Optimized code (example):\n"
  const PLACEHOLDER_CONTRACT := "contract Example { uint256 public value; }"

  /** The record built from a hint: its type, description and savings, medium difficulty, the
      relevant snippet (or a placeholder contract) as the original and the type's example as
      the optimised code. */
  function FallbackRecord(text: string, hint: Hint): GasOptimization {
    var snippet := RelevantSnippet(text, hint.keywords);
    GasOptimization(
      hint.optimizationType, hint.description, hint.savings, Difficulty.Medium,
      ORIGINAL_PREFIX + (if snippet != [] then snippet else PLACEHOLDER_CONTRACT),
      OPTIMIZED_PREFIX + OptimizedExample(hint.optimizationType))
  }

  /** The record a hint yields when one of its keywords occurs in the lower-cased text. */
  function FallbackFor(text: string, hint: Hint): Option<GasOptimization> {
    if ContainsAny(Lower(text), hint.keywords) then Some(FallbackRecord(text, hint)) else None
  }

  /** The first three records the hints `hints` yield, in table order. */
  function FallbackFrom(text: string, hints: seq<Hint>): seq<GasOptimization> {
    Take(Collected(hints, (h: Hint) => FallbackFor(text, h)), 3)
  }

  /** `_create_fallback_gas_optimizations`, as a function of the text. */
  function FallbackOptimizations(text: string): seq<GasOptimization> {
    FallbackFrom(text, OPTIMIZATION_HINTS)
  }

  /** The loop of `_create_fallback_gas_optimizations` over a hint table. */
  method CreateFallbackFrom(text: string, hints: seq<Hint>) returns (optimizations: seq<GasOptimization>)
    ensures optimizations == FallbackFrom(text, hints)
  {
    var find := (h: Hint) => FallbackFor(text, h);
    var all: seq<GasOptimization> := [];
    var i := 0;
    while i < |hints|
      invariant 0 <= i <= |hints|
      invariant all == Collected(hints[..i], find)
    {
      CollectedStep(hints, find, i);
      var hint := hints[i];
      if ContainsAny(Lower(text), hint.keywords) {
        var snippet := RelevantSnippet(text, hint.keywords);
        var original := ORIGINAL_PREFIX + (if snippet != [] then snippet else PLACEHOLDER_CONTRACT);
        all := all + [GasOptimization(
          hint.optimizationType, hint.description, hint.savings, Difficulty.Medium,
          original, OPTIMIZED_PREFIX + OptimizedExample(hint.optimizationType))];
      }
      i := i + 1;
    }
    assert hints[..|hints|] == hints;
    optimizations := Take(all, 3);
  }

  /** `_create_fallback_gas_optimizations`. */
  method CreateFallbackOptimizations(text: string) returns (optimizations: seq<GasOptimization>)
    ensures optimizations == FallbackOptimizations(text)
  {
    optimizations := CreateFallbackFrom(text, OPTIMIZATION_HINTS);
  }

  /** At most three fallback records; each comes from a hint one of whose keywords occurs in
      the lower-cased text, carries the hint's type, description and savings, has medium
      difficulty, and its code sides start with the example headers. */
  lemma FallbackRecordsFromHints(text: string, hints: seq<Hint>, k: nat)
    requires k < |FallbackFrom(text, hints)|
    ensures |FallbackFrom(text, hints)| <= 3
    ensures var o := FallbackFrom(text, hints)[k];
      exists i :: 0 <= i < |hints| &&
        ContainsAny(Lower(text), hints[i].keywords) &&
        o.optimizationType == hints[i].optimizationType &&
        o.description == hints[i].description &&
        o.estimatedGasSavings == hints[i].savings &&
        o.implementationDifficulty == Difficulty.Medium &&
        ORIGINAL_PREFIX <= o.originalCode && OPTIMIZED_PREFIX <= o.optimizedCode
  {
    var find := (h: Hint) => FallbackFor(text, h);
    var all := Collected(hints, find);
    assert FallbackFrom(text, hints)[k] == all[k];
    CollectedFrom(hints, find, k);
    var i :| 0 <= i < |hints| && find(hints[i]) == Some(all[k]);
    FallbackForHint(text, hints[i], all[k]);
  }

  lemma FallbackForHint(text: string, hint: Hint, o: GasOptimization)
    requires FallbackFor(text, hint) == Some(o)
    ensures ContainsAny(Lower(text), hint.keywords)
    ensures o.optimizationType == hint.optimizationType && o.description == hint.description &&
      o.estimatedGasSavings == hint.savings && o.implementationDifficulty == Difficulty.Medium
    ensures ORIGINAL_PREFIX <= o.originalCode && OPTIMIZED_PREFIX <= o.optimizedCode
  {
  }

  /** A text naming a keyword of the first hint gets that hint's record first. */
  lemma FirstHintComesFirst(text: string, hints: seq<Hint>)
    requires hints != [] && ContainsAny(Lower(text), hints[0].keywords)
    ensures FallbackFrom(text, hints) != []
    ensures FallbackFrom(text, hints)[0] == FallbackRecord(text, hints[0])
  {
    var find := (h: Hint) => FallbackFor(text, h);
    CollectedHead(hints, find);
  }

  /** While fewer than three earlier hints have yielded a record, a hint whose keyword occurs
      adds its record right after theirs: the fallback records keep the table's order. */
  lemma FallbackInHintOrder(text: string, hints: seq<Hint>, i: nat)
    requires i < |hints| && ContainsAny(Lower(text), hints[i].keywords)
    requires |FallbackFrom(text, hints[..i])| < 3
    ensures var n := |FallbackFrom(text, hints[..i])|;
      n < |FallbackFrom(text, hints)| &&
      FallbackFrom(text, hints)[..n] == FallbackFrom(text, hints[..i]) &&
      FallbackFrom(text, hints)[n] == FallbackRecord(text, hints[i])
  {
    var find := (h: Hint) => FallbackFor(text, h);
    var before := Collected(hints[..i], find);
    CollectedSplit(hints, find, i);
    TakeAfter(before, find(hints[i]).value, Collected(hints[i + 1..], find), 3);
  }

  /** Taking `n` elements keeps an element that `n` reaches, and whatever comes before it. */
  lemma TakeAfter<T>(before: seq<T>, x: T, after: seq<T>, n: nat)
    requires |before| < n
    ensures var t := Take(before + [x] + after, n);
      |before| < |t| && t[..|before|] == Take(before, n) && t[|before|] == x
  {
    var t := Take(before + [x] + after, n);
    assert t[..|before|] == (before + [x] + after)[..|before|] == before;
  }

  /** A text naming storage, packing or slots gets the storage-packing record first. */
  lemma StorageHintComesFirst(text: string)
    requires ContainsAny(Lower(text), ["storage", "pack", "slot"])
    ensures FallbackOptimizations(text) != []
    ensures FallbackOptimizations(text)[0].optimizationType == "Storage Packing Optimization"
    ensures FallbackOptimizations(text)[0].estimatedGasSavings == "20000"
  {
    var h := OPTIMIZATION_HINTS[0];
    assert h.keywords == ["storage", "pack", "slot"];
    FirstHintComesFirst(text, OPTIMIZATION_HINTS);
  }

  /** When `find` yields a record for the first element, that record heads the collection. */
  lemma {:induction false} CollectedHead<S, T>(xs: seq<S>, find: S -> Option<T>)
    requires xs != [] && find(xs[0]).Some?
    ensures Collected(xs, find) != [] && Collected(xs, find)[0] == find(xs[0]).value
    decreases |xs|
  {
    if |xs| > 1 {
      CollectedHead(xs[..|xs| - 1], find);
      assert xs[..|xs| - 1][0] == xs[0];
    } else {
      assert xs[..0] == [];
    }
  }

  // ---------------------------------------------------------------- the whole response

  /** What the section loop yields for a cleaned response. */
  function ValidatedOptimizations(pats: GasPatterns, text: string): seq<GasOptimization> {
    Collected(GasSections(pats, text), (s: string) => OptimizationFor(pats, s))
  }

  /** `_extract_gas_optimizations`, as a function of the raw response: the validated records,
      or the fallback records when there are none and the cleaned text is longer than 100. */
  function GasOptimizations(pats: GasPatterns, response: string): seq<GasOptimization> {
    var text := CleanAgentResponse(response);
    var found := ValidatedOptimizations(pats, text);
    if found == [] && |text| > 100 then FallbackOptimizations(text) else found
  }

  /** `_extract_gas_optimizations`. */
  method ExtractGasOptimizations(pats: GasPatterns, response: string) returns (optimizations: seq<GasOptimization>)
    ensures optimizations == GasOptimizations(pats, response)
  {
    var text := CleanAgentResponse(response);
    var sections := GatherGasSections(pats, text);
    optimizations := CollectOptimizations(pats, sections);
    if |optimizations| == 0 && |text| > 100 {
      var fallback := CreateFallbackOptimizations(text);
      optimizations := optimizations + fallback;
    }
  }

  /** Each record is either what a candidate section yields (its record extracted from the
      stripped section and accepted by the validator, as `FoundOptimization` states), or, when
      no section yields one and the cleaned text has more than 100 characters, a fallback
      record. */
  lemma OptimizationsValidatedOrFallback(pats: GasPatterns, response: string, k: nat)
    requires k < |GasOptimizations(pats, response)|
    ensures var text := CleanAgentResponse(response);
      var sections := GasSections(pats, text);
      (ValidatedOptimizations(pats, text) != [] &&
       exists i :: 0 <= i < |sections| && OptimizationFor(pats, sections[i]) == Some(GasOptimizations(pats, response)[k])) ||
      (ValidatedOptimizations(pats, text) == [] && |text| > 100 &&
       GasOptimizations(pats, response)[k] == FallbackOptimizations(text)[k])
  {
    var text := CleanAgentResponse(response);
    var found := ValidatedOptimizations(pats, text);
    if found != [] {
      CollectedFrom(GasSections(pats, text), (s: string) => OptimizationFor(pats, s), k);
    }
  }

  /** A cleaned text of at most 30 characters has no candidate section. */
  lemma ShortTextHasNoGasSections(pats: GasPatterns, text: string)
    requires |text| <= 30
    requires Bounded(pats.numbered, text)
    ensures GasSections(pats, text) == []
  {
    ShortTextHasNoNumberedSections(pats.numbered, text, 30);
    var pieces := ChosenSplit(SplitTexts(text));
    SplitPiecesBounded(text);
    assert forall i :: 0 <= i < |pieces| ==> |pieces[i]| <= |text|;
    ShortPiecesKeepNothing(pieces, 50, GAS_SECTION_KEYWORDS);
  }

  /** A response of at most 30 characters yields no record: no section is long enough and
      the fallback needs more than 100 characters. */
  lemma ShortResponseHasNoOptimizations(pats: GasPatterns, response: string)
    requires |response| <= 30
    requires Bounded(pats.numbered, CleanAgentResponse(response))
    ensures GasOptimizations(pats, response) == []
  {
    ShortTextHasNoGasSections(pats, CleanAgentResponse(response));
  }
}
