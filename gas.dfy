/** The field extractors of the gas-optimisation parser (`_extract_gas_optimization_info` and
    the helpers it calls): optimisation type, description, estimated savings, implementation
    difficulty and the original/optimised code pair. */
module Gas {
  import opened Text
  import opened Cascade
  import opened Cleaning
  import opened Heuristics
  import opened Scanners
  import opened CodeBlocks
  import opened Segments
  import opened Security

  datatype Difficulty = Easy | Medium | Hard

  /** The string the parser stores for a difficulty. */
  function DifficultyName(d: Difficulty): string {
    match d
    case Easy => "easy"
    case Medium => "medium"
    case Hard => "hard"
  }

  /** One gas-optimisation record, with the keys of the dictionary the parser builds. */
  datatype GasOptimization = GasOptimization(
    optimizationType: string,
    description: string,
    estimatedGasSavings: string,
    implementationDifficulty: Difficulty,
    originalCode: string,
    optimizedCode: string)

  /** The regular expressions the model takes as given: the four numbered-section patterns and
      the second to fourth optimisation-type patterns (their first capture group). */
  datatype GasPatterns = GasPatterns(
    numbered: seq<Segmenter>,
    boldType: string -> Option<string>,
    headerType: string -> Option<string>,
    numberedType: string -> Option<string>)

  // ---------------------------------------------------------------- optimisation type

  /** The alternatives of `(?:optimization\s+type|type|category)`. */
  const OPTIMIZATION_TYPE_LABELS: seq<seq<string>> := [["optimization", "type"], ["type"], ["category"]]

  /** The four type patterns, in order. */
  function OptimizationTypeCandidates(pats: GasPatterns, section: string): seq<Option<string>> {
    [Find(section, LineAfter(OPTIMIZATION_TYPE_LABELS)), pats.boldType(section),
     pats.headerType(section), pats.numberedType(section)]
  }

  /** The name map of `_extract_optimization_type`, in dictionary order; every pattern is
      `a.*b` searched without DOTALL in the lower-cased section. */
  const OPTIMIZATION_RULES: seq<NameRule> := [
    NameRule([SameLine("storage", "pack")], "Storage Packing Optimization"),
    NameRule([SameLine("memory", "cach")], "Memory Caching Optimization"),
    NameRule([SameLine("loop", "optim")], "Loop Optimization"),
    NameRule([SameLine("external", "public")], "External vs Public Optimization"),
    NameRule([SameLine("public", "external")], "Function Visibility Optimization"),
    NameRule([SameLine("custom", "error")], "Custom Error Optimization"),
    NameRule([SameLine("require", "revert")], "Error Handling Optimization"),
    NameRule([SameLine("++i", "i++")], "Increment Optimization"),
    NameRule([SameLine("i++", "++i")], "Pre-increment Optimization"),
    NameRule([SameLine("constant", "immutable")], "Variable Declaration Optimization"),
    NameRule([SameLine("immutable", "constant")], "State Variable Optimization"),
    NameRule([SameLine("uint256", "uint")], "Type Optimization"),
    NameRule([SameLine("bytes32", "string")], "Data Type Optimization"),
    NameRule([SameLine("mapping", "array")], "Data Structure Optimization"),
    NameRule([SameLine("assembly", "inline")], "Assembly Optimization"),
    NameRule([SameLine("gas", "limit")], "Gas Limit Optimization"),
    NameRule([SameLine("storage", "read")], "Storage Access Optimization"),
    NameRule([SameLine("storage", "write")], "Storage Write Optimization"),
    NameRule([SameLine("function", "visibility")], "Function Visibility Optimization"),
    NameRule([SameLine("struct", "pack")], "Struct Packing Optimization"),
    NameRule([SameLine("array", "length")], "Array Length Optimization"),
    NameRule([SameLine("zero", "value")], "Zero Value Optimization")
  ]

  /** The first-line keyword groups, in the order of the `if`/`elif` chain. The source first
      checks that one of the seven words occurs; that guard is the union of the groups. */
  const FIRST_LINE_RULES: seq<(seq<string>, string)> := [
    (["storage"], "Storage Optimization"),
    (["memory"], "Memory Optimization"),
    (["loop"], "Loop Optimization"),
    (["external", "public"], "Function Visibility Optimization"),
    (["constant", "immutable"], "Variable Declaration Optimization")
  ]

  const DEFAULT_OPTIMIZATION_TYPE := "Gas Optimization"

  /** No group has a word in `line`. */
  predicate NoGroup(line: string, groups: seq<(seq<string>, string)>) {
    forall k :: 0 <= k < |groups| ==> !ContainsAny(line, groups[k].0)
  }

  /** `name` is the name of a group with a word in `line`, and no group before it has one. */
  predicate FirstGroupIs(line: string, groups: seq<(seq<string>, string)>, name: string) {
    exists k :: 0 <= k < |groups| && ContainsAny(line, groups[k].0) && name == groups[k].1 &&
      forall j :: 0 <= j < k ==> !ContainsAny(line, groups[j].0)
  }

  /** The name for the first keyword group that occurs in the lower-cased first line. */
  function FirstLineType(section: string): (r: Option<string>)
    ensures r.None? <==> NoGroup(Lower(Lines(section)[0]), FIRST_LINE_RULES)
    ensures r.Some? ==> FirstGroupIs(Lower(Lines(section)[0]), FIRST_LINE_RULES, r.value)
  {
    var firstLine := Lower(Lines(section)[0]);
    match FirstAccepted(FIRST_LINE_RULES, (g: (seq<string>, string)) => ContainsAny(firstLine, g.0))
    case Some(g) => Some(g.1)
    case None => None
  }

  /** `_extract_optimization_type`: an explicit type of 4 to 79 characters, else a name-map
      entry, else a first-line keyword group, else the generic type. */
  function OptimizationType(pats: GasPatterns, section: string): string {
    match ExplicitType(OptimizationTypeCandidates(pats, section), 80)
    case Some(t) => t
    case None =>
      match FirstRuleName(section, OPTIMIZATION_RULES)
      case Some(n) => n
      case None =>
        match FirstLineType(section)
        case Some(n) => n
        case None => DEFAULT_OPTIMIZATION_TYPE
  }

  /** The stages in their order of priority: the first acceptable explicit type; failing every
      pattern, the name of the first map entry that applies; failing every entry too, the name of
      the first keyword group on the first line; and the generic type only when all three fail. */
  lemma OptimizationTypeCases(pats: GasPatterns, section: string)
    ensures var c := OptimizationTypeCandidates(pats, section);
      var t := OptimizationType(pats, section);
      var s := Lower(section);
      var first := Lower(Lines(section)[0]);
      FirstAcceptedIs(c, 80, t) ||
      (NoneAccepted(c, 80) && FirstFiringIs(s, OPTIMIZATION_RULES, t)) ||
      (NoneAccepted(c, 80) && NoneFires(s, OPTIMIZATION_RULES) && FirstGroupIs(first, FIRST_LINE_RULES, t)) ||
      (NoneAccepted(c, 80) && NoneFires(s, OPTIMIZATION_RULES) && NoGroup(first, FIRST_LINE_RULES) &&
       t == DEFAULT_OPTIMIZATION_TYPE)
  {
  }

  /** Every name the extractor can produce has more than three characters. */
  lemma OptimizationTypeIsLong(pats: GasPatterns, section: string)
    ensures |OptimizationType(pats, section)| > 3
  {
    assert forall k :: 0 <= k < |OPTIMIZATION_RULES| ==> |OPTIMIZATION_RULES[k].name| > 3;
    assert forall k :: 0 <= k < |FIRST_LINE_RULES| ==> |FIRST_LINE_RULES[k].1| > 3;
    OptimizationTypeCases(pats, section);
  }

  /** The type gate of the gas validator never rejects an extracted type, so an extracted
      record is accepted exactly when its description passes. */
  lemma TypeGateNeverRejects(pats: GasPatterns, section: string, description: string)
    ensures IsValidGasOptimization(description, OptimizationType(pats, section)) <==>
      (var desc := Lower(description);
       |desc| >= 20 && ContainsAny(desc, GAS_KEYWORDS) && !IsTemplateText(desc))
  {
    OptimizationTypeIsLong(pats, section);
  }

  // ---------------------------------------------------------------- description

  /** The three description patterns, in order. */
  const DESCRIPTION_PATTERNS: seq<Pattern> := [
    Field([["description"], ["summary"], ["issue"], ["inefficiency"], ["problem"]]),
    BlockAfterLine([["current", "code"], ["original", "code"], ["before"]]),
    KeywordLine(["gas", "inefficient", "optimize", "reduce", "save", "expensive", "cost"])
  ]

  /** A cleaned capture that can stand as the description. */
  predicate AcceptedDescription(d: string) {
    |d| > 20 && !IsTemplateText(d)
  }

  /** A pattern capture whose cleaned text is accepted. */
  predicate UsableCapture(c: Option<string>) {
    c.Some? && AcceptedDescription(CleanExtractedText(Strip(c.value)))
  }

  function DescriptionCaptures(section: string): seq<Option<string>> {
    [Find(section, DESCRIPTION_PATTERNS[0]), Find(section, DESCRIPTION_PATTERNS[1]),
     Find(section, DESCRIPTION_PATTERNS[2])]
  }

  /** The cleaned capture of the first pattern whose cleaned capture is accepted. */
  function PatternDescription(section: string): (r: Option<string>)
    ensures r.Some? ==> AcceptedDescription(r.value) && Normalized(r.value) && NoNewline(r.value)
    ensures r.None? <==> forall k :: 0 <= k < 3 ==> !UsableCapture(DescriptionCaptures(section)[k])
  {
    match FirstAccepted(DescriptionCaptures(section), UsableCapture)
    case Some(c) => Some(CleanExtractedText(Strip(c.value)))
    case None => None
  }

  /** The words one of which a fallback sentence has to contain. */
  const SENTENCE_WORDS: seq<string> := [
    "gas", "inefficient", "optimize", "reduce", "save", "expensive",
    "cost", "efficient", "cheaper", "packing", "storage", "memory",
    "external", "public", "loop", "constant", "immutable"
  ]

  /** A stripped sentence the sentence fallback picks. */
  predicate GasSentence(t: string) {
    |t| > 15 && ContainsAny(Lower(t), SENTENCE_WORDS) && !IsTemplateText(t)
  }

  const LINE_WORDS: seq<string> := ["gas", "optimization", "efficient", "save", "reduce"]

  /** A line whose stripped text the last-resort fallback uses. */
  predicate GasLine(line: string) {
    var t := Strip(line);
    |t| > 20 && ContainsAny(Lower(t), LINE_WORDS) && !IsTemplateText(t)
  }

  const DEFAULT_OPTIMIZATION_DESCRIPTION := "Gas optimization opportunity identified in smart contract"

  /** The sentences the sentence fallback joins: among the first six sentences, it stops after
      the sentence that brings the space-joined text past 80 characters. */
  function DescriptionSentences(section: string): seq<string> {
    PickedSentences(Take(Sentences(section), 6), [], GasSentence, 80)
  }

  /** `_extract_optimization_description`, as a function of the section. */
  function OptimizationDescription(section: string): string {
    match PatternDescription(section)
    case Some(d) => d
    case None =>
      var picked := DescriptionSentences(section);
      if picked != [] then CleanExtractedText(Join(". ", picked) + ".")
      else
        match FirstAccepted(Lines(section), GasLine)
        case Some(l) => CleanExtractedText(Strip(l))
        case None => DEFAULT_OPTIMIZATION_DESCRIPTION
  }

  /** `_extract_optimization_description`. */
  method ExtractOptimizationDescription(section: string) returns (description: string)
    ensures description == OptimizationDescription(section)
  {
    var fromPattern := PatternDescription(section);
    if fromPattern.Some? {
      return fromPattern.value;
    }
    var picked := PickSentences(Take(Sentences(section), 6), GasSentence, 80);
    if picked != [] {
      return CleanExtractedText(Join(". ", picked) + ".");
    }
    var line := FirstAccepted(Lines(section), GasLine);
    if line.Some? {
      description := CleanExtractedText(Strip(line.value));
    } else {
      description := DEFAULT_OPTIMIZATION_DESCRIPTION;
    }
  }

  /** The description is the generic text or cleaned text: single-spaced, stripped, one line. */
  lemma OptimizationDescriptionIsClean(section: string)
    ensures var d := OptimizationDescription(section);
      d == DEFAULT_OPTIMIZATION_DESCRIPTION || (Normalized(d) && NoNewline(d))
  {
  }

  /** A usable pattern capture decides the description, whatever the sentences say. */
  lemma PatternDescriptionWins(section: string, k: nat)
    requires k < 3 && UsableCapture(DescriptionCaptures(section)[k])
    ensures OptimizationDescription(section) == PatternDescription(section).value
    ensures AcceptedDescription(OptimizationDescription(section))
  {
  }

  /** Every sentence the fallback joins passes the sentence test and is one of the first six
      sentences of the section, stripped. */
  lemma DescriptionSentencesPass(section: string)
    ensures var ss := Take(Sentences(section), 6);
      |ss| <= 6 && ss == Sentences(section)[..|ss|] &&
      forall k :: 0 <= k < |DescriptionSentences(section)| ==>
        GasSentence(DescriptionSentences(section)[k]) &&
        exists i :: 0 <= i < |ss| && DescriptionSentences(section)[k] == Strip(ss[i])
  {
    var ss := Take(Sentences(section), 6);
    var r := DescriptionSentences(section);
    PickedPass(ss, [], GasSentence, 80);
    PickedFromInput(ss, [], GasSentence, 80);
    assert forall k :: 0 <= k < |r| ==> GasSentence(r[k]);
    assert forall k :: 0 <= k < |r| ==> exists i :: 0 <= i < |ss| && r[k] == Strip(ss[i]);
  }

  // ---------------------------------------------------------------- gas savings

  /** A savings pattern `(?:alts)<gap>(\d+)<tail>`. */
  datatype NumberPattern = NumberPattern(alts: seq<seq<string>>, gap: Gap, tail: Tail)

  /** The eight savings patterns, in order. An optional prefix such as `(?:estimated\s+)?` or
      the optional `s` of `savings?` becomes one alternative with it and one without, the
      longer first, as the greedy regex tries them. */
  const SAVINGS_PATTERNS: seq<NumberPattern> := [
    NumberPattern([["estimated", "gas", "savings"], ["estimated", "gas", "saving"], ["gas", "savings"], ["gas", "saving"]], ColonOrSpace, NoTail),
    NumberPattern([["saves"], ["save"], ["reduction"]], ColonOrSpace, ThenGas),
    NumberPattern([[]], NoGap, ThenGasSaved),
    NumberPattern([[]], NoGap, ThenGasPer),
    NumberPattern([["saves", "approximately"], ["save", "approximately"]], Spaces, ThenGas),
    NumberPattern([["estimated", "savings"], ["estimated", "saving"]], ColonOrSpace, NoTail),
    NumberPattern([["gas"]], ColonOrSpace, ThenUnits),
    NumberPattern([[]], NoGap, ThenUnitsPer)
  ]

  /** `int(re.search(p, section, re.IGNORECASE).group(1))`. The digits are read from the
      lower-cased text, which holds the same digits as the section. */
  function NumberFound(section: string, p: NumberPattern): Option<nat> {
    var s := Lower(section);
    var pat := Number(p.alts, p.gap, p.tail);
    match SearchPos(s, pat, 0)
    case None => None
    case Some(q) =>
      match NumberAt(s, q, p.alts, p.gap, p.tail)
      case None => None
      case Some(sp) => Some(DigitsValue(s[sp.lo..sp.hi]))
  }

  /** The number a savings pattern yields when it is in (0, 1000000). */
  predicate Plausible(n: Option<nat>) {
    n.Some? && 0 < n.value < 1000000
  }

  /** The first plausible number the patterns `ps` yield, in order. */
  function FirstPlausible(section: string, ps: seq<NumberPattern>): (r: Option<nat>)
    ensures r.Some? ==> 0 < r.value < 1000000
    ensures r.Some? ==> exists k :: 0 <= k < |ps| && NumberFound(section, ps[k]) == r
    ensures r.None? ==> forall k :: 0 <= k < |ps| ==> !Plausible(NumberFound(section, ps[k]))
    decreases |ps|
  {
    if ps == [] then None
    else
      var n := NumberFound(section, ps[0]);
      if Plausible(n) then n
      else
        var rest := FirstPlausible(section, ps[1..]);
        PlausibleTail(section, ps, rest);
        rest
  }

  /** What the search over the later patterns finds, seen from the whole list. */
  lemma PlausibleTail(section: string, ps: seq<NumberPattern>, rest: Option<nat>)
    requires ps != []
    requires rest.Some? ==> exists k :: 0 <= k < |ps[1..]| && NumberFound(section, ps[1..][k]) == rest
    requires rest.None? ==> forall k :: 0 <= k < |ps[1..]| ==> !Plausible(NumberFound(section, ps[1..][k]))
    ensures rest.Some? ==> exists k :: 1 <= k < |ps| && NumberFound(section, ps[k]) == rest
    ensures rest.None? ==> forall k :: 1 <= k < |ps| ==> !Plausible(NumberFound(section, ps[k]))
  {
    if rest.Some? {
      var k :| 0 <= k < |ps[1..]| && NumberFound(section, ps[1..][k]) == rest;
      assert ps[1..][k] == ps[k + 1];
    } else {
      forall k | 1 <= k < |ps| ensures !Plausible(NumberFound(section, ps[k])) {
        assert ps[1..][k - 1] == ps[k];
      }
    }
  }

  /** The two numbers of range pattern `k` (0: `a-b gas`, 1: `a to b gas`, 2: `between a and
      b gas`), read from the lower-cased text. */
  function RangeFound(section: string, k: nat): Option<(nat, nat)> {
    var s := Lower(section);
    match RangeSearch(s, k, 0)
    case None => None
    case Some((a, b)) => Some((DigitsValue(s[a.lo..a.hi]), DigitsValue(s[b.lo..b.hi])))
  }

  /** A range is used only when its lower bound is below its upper bound. */
  predicate ValidRange(r: Option<(nat, nat)>) {
    r.Some? && r.value.0 < r.value.1
  }

  /** The upper bound of the first valid range among the range patterns `ks`, in order. */
  function FirstRange(section: string, ks: seq<nat>): (r: Option<nat>)
    ensures r.Some? ==>
      exists k :: 0 <= k < |ks| && ValidRange(RangeFound(section, ks[k])) &&
        r.value == RangeFound(section, ks[k]).value.1
    ensures r.None? ==> forall k :: 0 <= k < |ks| ==> !ValidRange(RangeFound(section, ks[k]))
    decreases |ks|
  {
    if ks == [] then None
    else
      var found := RangeFound(section, ks[0]);
      if ValidRange(found) then Some(found.value.1)
      else
        var rest := FirstRange(section, ks[1..]);
        RangeTail(section, ks, rest);
        rest
  }

  /** What the search over the later range patterns finds, seen from the whole list. */
  lemma RangeTail(section: string, ks: seq<nat>, rest: Option<nat>)
    requires ks != []
    requires rest.Some? ==>
      exists k :: 0 <= k < |ks[1..]| && ValidRange(RangeFound(section, ks[1..][k])) &&
        rest.value == RangeFound(section, ks[1..][k]).value.1
    requires rest.None? ==> forall k :: 0 <= k < |ks[1..]| ==> !ValidRange(RangeFound(section, ks[1..][k]))
    ensures rest.Some? ==>
      exists k :: 1 <= k < |ks| && ValidRange(RangeFound(section, ks[k])) &&
        rest.value == RangeFound(section, ks[k]).value.1
    ensures rest.None? ==> forall k :: 1 <= k < |ks| ==> !ValidRange(RangeFound(section, ks[k]))
  {
    if rest.Some? {
      var k :| 0 <= k < |ks[1..]| && ValidRange(RangeFound(section, ks[1..][k])) &&
        rest.value == RangeFound(section, ks[1..][k]).value.1;
      assert ks[1..][k] == ks[k + 1];
    } else {
      forall k | 1 <= k < |ks| ensures !ValidRange(RangeFound(section, ks[k])) {
        assert ks[1..][k - 1] == ks[k];
      }
    }
  }

  const RANGE_PATTERNS: seq<nat> := [0, 1, 2]

  /** The estimates used when no pattern yields a number. */
  function DefaultSavings(section: string): string {
    var s := Lower(section);
    if Contains(s, "storage") && Contains(s, "pack") then "20000"
    else if Contains(s, "loop") then "1500"
    else if Contains(s, "external") then "500"
    else "1000"
  }

  /** The savings cascade over the number patterns `ps` and the range patterns `ks`. */
  function SavingsFrom(section: string, ps: seq<NumberPattern>, ks: seq<nat>): string {
    match FirstPlausible(section, ps)
    case Some(n) => NatToString(n)
    case None =>
      match FirstRange(section, ks)
      case Some(u) => NatToString(u)
      case None => DefaultSavings(section)
  }

  /** `_extract_gas_savings`, as a function of the section. */
  function GasSavings(section: string): string {
    SavingsFrom(section, SAVINGS_PATTERNS, RANGE_PATTERNS)
  }

  /** The loop over the savings patterns. */
  method ExplicitSavings(section: string, ps: seq<NumberPattern>) returns (found: Option<nat>)
    ensures found == FirstPlausible(section, ps)
  {
    var i := 0;
    while i < |ps|
      invariant 0 <= i <= |ps|
      invariant FirstPlausible(section, ps[i..]) == FirstPlausible(section, ps)
    {
      assert ps[i..][1..] == ps[i + 1..];
      var n := NumberFound(section, ps[i]);
      if n.Some? && 0 < n.value < 1000000 {
        return n;
      }
      i := i + 1;
    }
    return None;
  }

  /** The loop over the range patterns. */
  method RangeSavings(section: string, ks: seq<nat>) returns (upper: Option<nat>)
    ensures upper == FirstRange(section, ks)
  {
    var i := 0;
    while i < |ks|
      invariant 0 <= i <= |ks|
      invariant FirstRange(section, ks[i..]) == FirstRange(section, ks)
    {
      assert ks[i..][1..] == ks[i + 1..];
      var found := RangeFound(section, ks[i]);
      if found.Some? && found.value.0 < found.value.1 {
        return Some(found.value.1);
      }
      i := i + 1;
    }
    return None;
  }

  /** `_extract_gas_savings`. */
  method ExtractGasSavings(section: string) returns (savings: string)
    ensures savings == GasSavings(section)
  {
    var explicit := ExplicitSavings(section, SAVINGS_PATTERNS);
    if explicit.Some? {
      return NatToString(explicit.value);
    }
    var upper := RangeSavings(section, RANGE_PATTERNS);
    if upper.Some? {
      return NatToString(upper.value);
    }
    savings := DefaultSavings(section);
  }

  /** The estimate is always the decimal numeral of a positive number: a plausible number
      from one of the number patterns, the upper bound of a valid range from one of the range
      patterns, or one of the four defaults. */
  lemma SavingsCases(section: string, ps: seq<NumberPattern>, ks: seq<nat>)
    ensures var r := SavingsFrom(section, ps, ks);
      (exists n :: 0 < n < 1000000 && r == NatToString(n) &&
         exists k :: 0 <= k < |ps| && NumberFound(section, ps[k]) == Some(n)) ||
      (exists k :: 0 <= k < |ks| && ValidRange(RangeFound(section, ks[k])) &&
         r == NatToString(RangeFound(section, ks[k]).value.1)) ||
      r in {"20000", "1500", "500", "1000"}
  {
    match FirstPlausible(section, ps)
    case Some(n) =>
    case None =>
  }

  /** An explicit number outside (0, 1000000) is passed over: the next pattern decides. */
  lemma ImplausibleNumberSkipped(section: string, ps: seq<NumberPattern>)
    requires ps != [] && !Plausible(NumberFound(section, ps[0]))
    ensures FirstPlausible(section, ps) == FirstPlausible(section, ps[1..])
  {
  }

  /** A plausible number from the first savings pattern is the estimate. */
  lemma FirstPatternNumberWins(section: string, n: nat)
    requires NumberFound(section, SAVINGS_PATTERNS[0]) == Some(n) && 0 < n < 1000000
    ensures GasSavings(section) == NatToString(n)
  {
  }

  // ---------------------------------------------------------------- implementation difficulty

  const DIFFICULTY_LABELS: seq<seq<string>> := [["implementation", "difficulty"], ["difficulty"]]
  const EFFORT_LABELS: seq<seq<string>> := [["complexity"], ["effort"]]

  /** The difficulty a declared word names once stripped and lower-cased. */
  function DifficultyNamed(word: string): (r: Option<Difficulty>)
    ensures r.Some? ==> DifficultyName(r.value) == Lower(Strip(word))
    ensures r.None? ==> Lower(Strip(word)) !in {"easy", "medium", "hard"}
  {
    var w := Lower(Strip(word));
    if w == "easy" then Some(Easy) else if w == "medium" then Some(Difficulty.Medium)
    else if w == "hard" then Some(Hard) else None
  }

  /** The two explicit difficulty patterns, in order. */
  function DifficultyCandidates(section: string): seq<Option<string>> {
    [Find(section, WordAfter(DIFFICULTY_LABELS)), Find(section, WordAfter(EFFORT_LABELS))]
  }

  predicate NamesDifficulty(c: Option<string>) {
    c.Some? && DifficultyNamed(c.value).Some?
  }

  const EASY_WORDS: seq<string> := ["simple", "straightforward", "easy", "trivial"]
  const HARD_WORDS: seq<string> := ["complex", "difficult", "risky", "careful", "breaking"]

  function InferredDifficulty(section: string): Difficulty {
    var s := Lower(section);
    if ContainsAny(s, EASY_WORDS) then Easy
    else if ContainsAny(s, HARD_WORDS) then Hard
    else Difficulty.Medium
  }

  /** `_extract_implementation_difficulty`. */
  function ImplementationDifficulty(section: string): Difficulty {
    match FirstAccepted(DifficultyCandidates(section), NamesDifficulty)
    case Some(c) => DifficultyNamed(c.value).value
    case None => InferredDifficulty(section)
  }

  /** A declared difficulty wins over every keyword in the text. */
  lemma DeclaredDifficultyWins(section: string, word: string, d: Difficulty)
    requires Find(section, WordAfter(DIFFICULTY_LABELS)) == Some(word)
    requires Lower(Strip(word)) == DifficultyName(d)
    ensures ImplementationDifficulty(section) == d
  {
    var cs := DifficultyCandidates(section);
    assert cs[0] == Some(word);
    assert NamesDifficulty(cs[0]);
    assert FirstIndex(cs, NamesDifficulty) == Some(0);
  }

  /** Without a declaration, the easy words are checked before the hard words, and a section
      with neither is rated medium. */
  lemma InferredDifficultyUsed(section: string)
    requires !NamesDifficulty(DifficultyCandidates(section)[0]) && !NamesDifficulty(DifficultyCandidates(section)[1])
    ensures ImplementationDifficulty(section) == InferredDifficulty(section)
    ensures ContainsAny(Lower(section), EASY_WORDS) ==> ImplementationDifficulty(section) == Easy
    ensures !ContainsAny(Lower(section), EASY_WORDS) && ContainsAny(Lower(section), HARD_WORDS) ==>
      ImplementationDifficulty(section) == Hard
    ensures !ContainsAny(Lower(section), EASY_WORDS) && !ContainsAny(Lower(section), HARD_WORDS) ==>
      ImplementationDifficulty(section) == Difficulty.Medium
  {
    var cs := DifficultyCandidates(section);
    assert forall j :: 0 <= j < |cs| ==> !NamesDifficulty(cs[j]);
  }

  // ---------------------------------------------------------------- code examples

  /** A stripped block that counts as a code example. */
  predicate IsCodeBlock(b: string) {
    |b| > 20 && LooksLikeSolidityCode(b)
  }

  /** The stripped candidates that pass `ok`, in order. The extractor passes `IsCodeBlock`. */
  function StrippedPassing(cands: seq<string>, ok: string -> bool): (r: seq<string>)
    ensures |r| <= |cands|
    decreases |cands|
  {
    if cands == [] then []
    else
      var b := Strip(cands[|cands| - 1]);
      StrippedPassing(cands[..|cands| - 1], ok) + (if ok(b) then [b] else [])
  }

  lemma StrippedPassingStep(cands: seq<string>, ok: string -> bool, i: nat)
    requires i < |cands|
    ensures StrippedPassing(cands[..i + 1], ok) ==
      StrippedPassing(cands[..i], ok) + (if ok(Strip(cands[i])) then [Strip(cands[i])] else [])
  {
    assert cands[..i + 1][..i] == cands[..i];
  }

  /** Every kept block passes the test and is one of the candidates, stripped. */
  lemma {:induction false} StrippedPassingPass(cands: seq<string>, ok: string -> bool, k: nat)
    requires k < |StrippedPassing(cands, ok)|
    ensures ok(StrippedPassing(cands, ok)[k])
    ensures exists i :: 0 <= i < |cands| && StrippedPassing(cands, ok)[k] == Strip(cands[i])
    decreases |cands|
  {
    var init := cands[..|cands| - 1];
    if k < |StrippedPassing(init, ok)| {
      StrippedPassingPass(init, ok, k);
      var i :| 0 <= i < |init| && StrippedPassing(init, ok)[k] == Strip(init[i]);
      assert cands[i] == init[i];
    }
  }

  /** What is kept from the first `j` candidates begins what is kept from all of them. */
  lemma {:induction false} StrippedPassingPrefix(cands: seq<string>, ok: string -> bool, j: nat)
    requires j <= |cands|
    ensures StrippedPassing(cands[..j], ok) <= StrippedPassing(cands, ok)
    decreases |cands|
  {
    if j == |cands| {
      assert cands[..j] == cands;
    } else {
      var init := cands[..|cands| - 1];
      assert init[..j] == cands[..j];
      StrippedPassingPrefix(init, ok, j);
    }
  }

  /** Every candidate that passes once stripped is kept, in candidate order: right after the
      blocks kept from the candidates before it. */
  lemma StrippedPassingComplete(cands: seq<string>, ok: string -> bool, i: nat)
    requires i < |cands| && ok(Strip(cands[i]))
    ensures var n := |StrippedPassing(cands[..i], ok)|;
      n < |StrippedPassing(cands, ok)| &&
      StrippedPassing(cands, ok)[..n] == StrippedPassing(cands[..i], ok) &&
      StrippedPassing(cands, ok)[n] == Strip(cands[i])
  {
    StrippedPassingStep(cands, ok, i);
    StrippedPassingPrefix(cands, ok, i + 1);
  }

  /** The block-collecting loops of `_extract_code_examples` (fenced blocks, then inline code). */
  method CollectCodeBlocks(cands: seq<string>, ok: string -> bool) returns (blocks: seq<string>)
    ensures blocks == StrippedPassing(cands, ok)
  {
    blocks := [];
    var i := 0;
    while i < |cands|
      invariant 0 <= i <= |cands|
      invariant blocks == StrippedPassing(cands[..i], ok)
    {
      StrippedPassingStep(cands, ok, i);
      var b := Strip(cands[i]);
      if ok(b) {
        blocks := blocks + [b];
      }
      i := i + 1;
    }
    assert cands[..|cands|] == cands;
  }

  const DEFAULT_ORIGINAL_CODE :=
    "// Original inefficient code:\ncontract Example {\n    uint256 public value;\n    function setValue(uint256 _value) public {\n        value = _value;\n    }\n}"
  const DEFAULT_OPTIMIZED_CODE :=
    "// Optimized code:\ncontract Example {\n    uint256 public value;\n    function setValue(uint256 _value) external {\n        value = _value;\n    }\n}"

  const BEFORE_WORDS: seq<string> := ["before", "current", "inefficient", "original"]

  /** `_generate_code_examples`: a section that speaks of the code before the change has its
      block as the original, otherwise the block is the optimised version. */
  function GeneratedCodeExamples(code: string, section: string): (string, string) {
    if ContainsAny(Lower(section), BEFORE_WORDS) then (code, GenerateRealisticOptimization(code))
    else (GenerateRealisticOriginal(code), code)
  }

  /** The pair chosen from the kept blocks: the first two, or one block and its generated
      counterpart, or the fixed examples. */
  function ExamplesFrom(blocks: seq<string>, section: string): (string, string) {
    if |blocks| >= 2 then (blocks[0], blocks[1])
    else if |blocks| == 1 then GeneratedCodeExamples(blocks[0], section)
    else (DEFAULT_ORIGINAL_CODE, DEFAULT_OPTIMIZED_CODE)
  }

  /** `_extract_code_examples`, as a function of the section. */
  function CodeExamples(section: string): (string, string) {
    ExamplesFrom(StrippedPassing(GasCodeCandidates(section), IsCodeBlock), section)
  }

  /** `_extract_code_examples`. */
  method ExtractCodeExamples(section: string) returns (original: string, optimized: string)
    ensures (original, optimized) == CodeExamples(section)
  {
    var blocks := CollectCodeBlocks(GasCodeCandidates(section), IsCodeBlock);
    if |blocks| >= 2 {
      original, optimized := blocks[0], blocks[1];
    } else if |blocks| == 1 {
      var pair := GeneratedCodeExamples(blocks[0], section);
      original, optimized := pair.0, pair.1;
    } else {
      original, optimized := DEFAULT_ORIGINAL_CODE, DEFAULT_OPTIMIZED_CODE;
    }
  }

  /** Both code examples are non-empty whenever the code test refuses the empty block (as
      `IsCodeBlock` does); with two or more kept blocks both sides are blocks that pass the
      code test; with one, that block is one of the two sides. */
  lemma ExamplesFromCases(cands: seq<string>, ok: string -> bool, section: string)
    requires forall b :: ok(b) ==> b != []
    ensures var pair := ExamplesFrom(StrippedPassing(cands, ok), section);
      pair.0 != [] && pair.1 != []
    ensures var blocks := StrippedPassing(cands, ok);
      |blocks| >= 2 ==>
        (ExamplesFrom(blocks, section) == (blocks[0], blocks[1]) &&
         ok(ExamplesFrom(blocks, section).0) && ok(ExamplesFrom(blocks, section).1))
    ensures var blocks := StrippedPassing(cands, ok);
      blocks == [] ==> ExamplesFrom(blocks, section) == (DEFAULT_ORIGINAL_CODE, DEFAULT_OPTIMIZED_CODE)
    ensures var blocks := StrippedPassing(cands, ok);
      |blocks| == 1 ==> (ExamplesFrom(blocks, section).0 == blocks[0] || ExamplesFrom(blocks, section).1 == blocks[0])
  {
    var blocks := StrippedPassing(cands, ok);
    if |blocks| >= 1 {
      StrippedPassingPass(cands, ok, 0);
    }
    if |blocks| >= 2 {
      StrippedPassingPass(cands, ok, 1);
    }
    if |blocks| == 1 {
      assert ok(blocks[0]);
    }
  }

  /** With one block in a section that speaks of the original code, the block is the original
      and the optimised side is its rewrite. */
  lemma OneBlockIsOriginal(section: string)
    requires var blocks := StrippedPassing(GasCodeCandidates(section), IsCodeBlock); |blocks| == 1
    requires ContainsAny(Lower(section), BEFORE_WORDS)
    ensures var b := StrippedPassing(GasCodeCandidates(section), IsCodeBlock)[0];
      CodeExamples(section) == (b, GenerateRealisticOptimization(b))
  {
  }

  // ---------------------------------------------------------------- one section

  /** `_extract_gas_optimization_info`, as a function of the section. */
  function OptimizationInfo(pats: GasPatterns, section: string): GasOptimization {
    var code := CodeExamples(section);
    GasOptimization(
      OptimizationType(pats, section), OptimizationDescription(section), GasSavings(section),
      ImplementationDifficulty(section), code.0, code.1)
  }

  /** `_extract_gas_optimization_info`. */
  method ExtractGasOptimizationInfo(pats: GasPatterns, section: string) returns (info: GasOptimization)
    ensures info == OptimizationInfo(pats, section)
  {
    var description := ExtractOptimizationDescription(section);
    var savings := ExtractGasSavings(section);
    var original, optimized := ExtractCodeExamples(section);
    info := GasOptimization(
      OptimizationType(pats, section), description, savings,
      ImplementationDifficulty(section), original, optimized);
  }
}
