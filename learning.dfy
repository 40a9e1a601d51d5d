/** The learning-enhanced agent instructions: each base instruction text, extended with what
    earlier audits recorded (the most common vulnerabilities, false-positive patterns, gas
    patterns and the average saving) when there is any learning data. */
module Learning {
  import opened Text

  /** The values of the learning dictionary the two builders look at. */
  datatype Value =
    | NoneValue                    // Python's None
    | Text(s: string)
    | Number(n: int)
    | Items(xs: seq<string>)       // a list of strings

  type LearningData = map<string, Value>

  /** Python truthiness. */
  predicate Truthy(v: Value) {
    match v
    case NoneValue => false
    case Text(s) => s != []
    case Number(n) => n != 0
    case Items(xs) => xs != []
  }

  /** `data.get(key, default)`. */
  function GetOr(data: LearningData, key: string, default: Value): (r: Value)
    ensures key in data ==> r == data[key]
    ensures key !in data ==> r == default
  {
    if key in data then data[key] else default
  }

  /** What a `for` loop over the value visits: the list's items, or the characters of a string. */
  function Entries(v: Value): (r: seq<string>)
    requires !v.Number?
    ensures v.Items? ==> r == v.xs
    ensures v.Text? ==> |r| == |v.s| && forall i :: 0 <= i < |r| ==> r[i] == [v.s[i]]
    ensures v.NoneValue? ==> r == []
  {
    match v
    case NoneValue => []
    case Text(s) => seq(|s|, i requires 0 <= i < |s| => [s[i]])
    case Items(xs) => xs
  }

  /** For a value that is not a number, the truth test guarding a loop passes exactly when the
      loop has something to visit. */
  lemma TruthyIffEntries(v: Value)
    requires !v.Number?
    ensures Truthy(v) <==> Entries(v) != []
  {
    if v.Text? && v.s != [] {
      assert Entries(v)[0] == [v.s[0]];
    }
  }

  /** An integer in decimal, with a minus sign when negative. */
  function IntToString(n: int): (r: string)
    ensures r != []
  {
    if n < 0 then "-" + NatToString(-n) else NatToString(n)
  }

  /** A non-negative number is written in digits that read back as the number; a negative one
      is its magnitude after a minus sign. */
  lemma IntToStringReadsBack(n: int)
    ensures n >= 0 ==> AllDigits(IntToString(n)) && DigitsValue(IntToString(n)) == n
    ensures n < 0 ==>
      IntToString(n)[0] == '-' && AllDigits(IntToString(n)[1..]) && DigitsValue(IntToString(n)[1..]) == -n
  {
    if n >= 0 {
      DigitsValueOfNatToString(n);
    } else {
      assert IntToString(n)[1..] == NatToString(-n);
      DigitsValueOfNatToString(-n);
    }
  }

  /** A string item in list syntax. */
  function Quoted(x: string): string {
    "'" + x + "'"
  }

  /** `f"{v}"`. */
  function Display(v: Value): string {
    match v
    case NoneValue => "None"
    case Text(s) => s
    case Number(n) => IntToString(n)
    case Items(xs) => "[" + Join(", ", seq(|xs|, i requires 0 <= i < |xs| => Quoted(xs[i]))) + "]"
  }

  // ---------------------------------------------------------------- item lines

  /** The line `f"- {item}\n"`. */
  function ItemLine(x: string): string {
    "- " + x + "\n"
  }

  /** One line per item. */
  function ItemLines(xs: seq<string>): string {
    if xs == [] then "" else ItemLines(xs[..|xs| - 1]) + ItemLine(xs[|xs| - 1])
  }

  /** The lines of two lists of items are the lines of the first followed by those of the second. */
  lemma {:induction false} ItemLinesAppend(a: seq<string>, b: seq<string>)
    ensures ItemLines(a + b) == ItemLines(a) + ItemLines(b)
    decreases |b|
  {
    if b == [] {
      assert a + b == a;
    } else {
      var b' := b[..|b| - 1];
      assert (a + b)[..|a + b| - 1] == a + b';
      ItemLinesAppend(a, b');
    }
  }

  /** Each item adds its own length plus three characters. */
  lemma {:induction false} ItemLinesLength(xs: seq<string>)
    ensures |ItemLines(xs)| >= 3 * |xs|
    ensures xs == [] <==> ItemLines(xs) == []
  {
    if xs != [] {
      ItemLinesLength(xs[..|xs| - 1]);
    }
  }

  /** The `for item in items: text += f"- {item}\n"` loops. */
  method AppendItems(text: string, items: seq<string>) returns (r: string)
    ensures r == text + ItemLines(items)
  {
    r := text;
    var i := 0;
    while i < |items|
      invariant 0 <= i <= |items|
      invariant r == text + ItemLines(items[..i])
    {
      assert items[..i + 1][..i] == items[..i];
      r := r + ItemLine(items[i]);
      i := i + 1;
    }
    assert items[..|items|] == items;
  }

  // ---------------------------------------------------------------- the shape of both builders

  /** The base text alone when there is no learning data; otherwise the base text, the
      insights header and the two insight parts. */
  function Enhanced(base: string, header: string, data: LearningData, first: string, second: string): string {
    if data == map[] then base else base + header + first + second
  }

  /** The base text always comes first; with a non-empty header it is the whole result exactly
      when there is no learning data, and otherwise the header follows it. */
  lemma EnhancedBaseFirst(base: string, header: string, data: LearningData, first: string, second: string)
    requires header != []
    ensures base <= Enhanced(base, header, data, first, second)
    ensures Enhanced(base, header, data, first, second) == base <==> data == map[]
    ensures data != map[] ==> base + header <= Enhanced(base, header, data, first, second)
  {
    if data != map[] {
      assert Enhanced(base, header, data, first, second) == base + header + (first + second);
    }
  }

  // ---------------------------------------------------------------- security instructions

  const SECURITY_BASE: string :=
    "You are Zera, an elite smart contract security auditor. Your mission is to identify ALL vulnerabilities in Solidity code.\n" +
    "\n" +
    "    Focus areas:\n" +
    "    - Reentrancy (direct, cross-function, read-only)\n" +
    "    - Access control bypasses\n" +
    "    - Integer overflow/underflow (pre-0.8.x)\n" +
    "    - Unchecked external calls\n" +
    "    - Storage collisions in proxies\n" +
    "    - tx.origin vs msg.sender misuse\n" +
    "    - Timestamp manipulation\n" +
    "    - Front-running vulnerabilities\n" +
    "    - Flash loan attack surfaces\n" +
    "    - DoS vectors (gas limit, revert bombing)\n" +
    "    - Logic bugs in modifiers\n" +
    "    - Uninitialized storage pointers\n" +
    "    - Delegate call misuse\n" +
    "    - Hidden assembly backdoors\n" +
    "    \n" +
    "    Rate severity: CRITICAL, HIGH, MEDIUM, LOW, INFORMATIONAL\n" +
    "    Always explain attack scenarios and provide exploit examples."

  const SECURITY_HEADER: string := "\n\n\U{F0}\U{178}\U{A7}\U{A0} LEARNING INSIGHTS:\n"

  const COMMON_VULNERABILITIES := "common_vulnerabilities"
  const FALSE_POSITIVE_PATTERNS := "false_positive_patterns"
  const SIMILAR_CONTRACTS_ANALYZED := "similar_contracts_analyzed"

  /** A list key whose value is truthy can be sliced and iterated: a truthy number would make
      the builder raise. */
  predicate Iterable(data: LearningData, key: string) {
    Truthy(GetOr(data, key, NoneValue)) ==> !GetOr(data, key, NoneValue).Number?
  }

  /** The top five common vulnerabilities, after the count of similar contracts. */
  function VulnerabilityInsights(data: LearningData): string
    requires Iterable(data, COMMON_VULNERABILITIES)
  {
    var v := GetOr(data, COMMON_VULNERABILITIES, NoneValue);
    if Truthy(v) then VulnerabilityIntro(data) + ItemLines(Take(Entries(v), 5)) else ""
  }

  /** The line that introduces the common vulnerabilities. */
  function VulnerabilityIntro(data: LearningData): string {
    "Based on " + Display(GetOr(data, SIMILAR_CONTRACTS_ANALYZED, Number(0))) +
    " similar contracts analyzed, pay special attention to:\n"
  }

  const FALSE_POSITIVE_INTRO := "\nAvoid these patterns that are often false positives:\n"

  /** The top three false-positive patterns. */
  function FalsePositiveInsights(data: LearningData): string
    requires Iterable(data, FALSE_POSITIVE_PATTERNS)
  {
    var v := GetOr(data, FALSE_POSITIVE_PATTERNS, NoneValue);
    if Truthy(v) then FALSE_POSITIVE_INTRO + ItemLines(Take(Entries(v), 3)) else ""
  }

  /** `get_enhanced_security_instructions`, as a function of the learning data. */
  function SecurityInstructions(data: LearningData): string
    requires Iterable(data, COMMON_VULNERABILITIES) && Iterable(data, FALSE_POSITIVE_PATTERNS)
  {
    Enhanced(SECURITY_BASE, SECURITY_HEADER, data, VulnerabilityInsights(data), FalsePositiveInsights(data))
  }

  /** The body of `get_enhanced_security_instructions`, for any base text and header. */
  method BuildSecurityInstructions(base: string, header: string, data: LearningData) returns (instructions: string)
    requires Iterable(data, COMMON_VULNERABILITIES) && Iterable(data, FALSE_POSITIVE_PATTERNS)
    ensures instructions == Enhanced(base, header, data, VulnerabilityInsights(data), FalsePositiveInsights(data))
  {
    if data == map[] {
      return base;
    }
    instructions := base + header;
    var common := GetOr(data, COMMON_VULNERABILITIES, NoneValue);
    if Truthy(common) {
      var before := instructions;
      instructions := AppendItems(instructions + VulnerabilityIntro(data), Take(Entries(common), 5));
      Associative(before, VulnerabilityIntro(data), ItemLines(Take(Entries(common), 5)));
    }
    assert instructions == base + header + VulnerabilityInsights(data);
    var falsePositives := GetOr(data, FALSE_POSITIVE_PATTERNS, NoneValue);
    if Truthy(falsePositives) {
      var before := instructions;
      instructions := AppendItems(instructions + FALSE_POSITIVE_INTRO, Take(Entries(falsePositives), 3));
      Associative(before, FALSE_POSITIVE_INTRO, ItemLines(Take(Entries(falsePositives), 3)));
    }
  }

  /** `get_enhanced_security_instructions`. */
  method EnhancedSecurityInstructions(data: LearningData) returns (instructions: string)
    requires Iterable(data, COMMON_VULNERABILITIES) && Iterable(data, FALSE_POSITIVE_PATTERNS)
    ensures instructions == SecurityInstructions(data)
  {
    instructions := BuildSecurityInstructions(SECURITY_BASE, SECURITY_HEADER, data);
  }

  /** Without truthy lists, the learning data adds no insight after the header. */
  lemma NoSecurityInsightsWithoutLists(data: LearningData)
    requires !Truthy(GetOr(data, COMMON_VULNERABILITIES, NoneValue))
    requires !Truthy(GetOr(data, FALSE_POSITIVE_PATTERNS, NoneValue))
    ensures VulnerabilityInsights(data) + FalsePositiveInsights(data) == ""
  {
  }

  /** Vulnerabilities after the fifth never reach the instructions. */
  lemma OnlyTopFiveVulnerabilities(data: LearningData, top: seq<string>, more: seq<string>)
    requires |top| >= 5
    requires Iterable(data, FALSE_POSITIVE_PATTERNS)
    ensures var d := data[COMMON_VULNERABILITIES := Items(top)];
      var d' := data[COMMON_VULNERABILITIES := Items(top + more)];
      Iterable(d, FALSE_POSITIVE_PATTERNS) && Iterable(d', FALSE_POSITIVE_PATTERNS) &&
      VulnerabilityInsights(d') == VulnerabilityInsights(d) &&
      FalsePositiveInsights(d') == FalsePositiveInsights(d)
  {
    assert (top + more)[..5] == top[..5];
  }

  /** False-positive patterns after the third never reach the instructions. */
  lemma OnlyTopThreeFalsePositives(data: LearningData, top: seq<string>, more: seq<string>)
    requires |top| >= 3
    requires Iterable(data, COMMON_VULNERABILITIES)
    ensures var d := data[FALSE_POSITIVE_PATTERNS := Items(top)];
      var d' := data[FALSE_POSITIVE_PATTERNS := Items(top + more)];
      Iterable(d, COMMON_VULNERABILITIES) && Iterable(d', COMMON_VULNERABILITIES) &&
      VulnerabilityInsights(d') == VulnerabilityInsights(d) &&
      FalsePositiveInsights(d') == FalsePositiveInsights(d)
  {
    assert (top + more)[..3] == top[..3];
  }

  /** The item lines list every item on a line of its own, in order: the lines of the items
      before it, then its own line, then the lines of the items after it. */
  lemma ItemLineOf(xs: seq<string>, k: nat)
    requires k < |xs|
    ensures ItemLines(xs) == ItemLines(xs[..k]) + ItemLine(xs[k]) + ItemLines(xs[k + 1..])
  {
    var before, x, after := xs[..k], xs[k], xs[k + 1..];
    var init := xs[..k + 1];
    assert init[..k] == before;
    assert ItemLines(init) == ItemLines(before) + ItemLine(x);
    assert xs == init + after;
    ItemLinesAppend(init, after);
  }

  // ---------------------------------------------------------------- gas instructions

  const GAS_BASE: string :=
    "You are a gas optimization expert. Analyze Solidity code for gas inefficiencies.\n" +
    "\n" +
    "    Focus areas:\n" +
    "    - Storage slot packing (group uint256 with smaller types)\n" +
    "    - Use immutable/constant for unchanging values\n" +
    "    - Avoid redundant storage reads (cache in memory)\n" +
    "    - Use custom errors instead of require strings\n" +
    "    - Prefer ++i over i++ in loops\n" +
    "    - Use unchecked blocks when overflow impossible\n" +
    "    - Minimize external calls in loops\n" +
    "    - Use events for cheap data storage\n" +
    "    - Optimize function visibility\n" +
    "    - Pack structs efficiently\n" +
    "    - Use assembly for gas-critical operations\n" +
    "    \n" +
    "    Provide gas savings estimates and refactored code examples."

  const GAS_HEADER: string := "\n\n\U{E2}\U{161}\U{A1} LEARNING INSIGHTS:\n"

  const GAS_OPTIMIZATION_PATTERNS := "gas_optimization_patterns"
  const AVERAGE_GAS_SAVINGS := "average_gas_savings"

  /** The top five gas patterns. */
  function GasPatternInsights(data: LearningData): string
    requires Iterable(data, GAS_OPTIMIZATION_PATTERNS)
  {
    var v := GetOr(data, GAS_OPTIMIZATION_PATTERNS, NoneValue);
    if Truthy(v) then GAS_PATTERN_INTRO + ItemLines(Take(Entries(v), 5)) else ""
  }

  const GAS_PATTERN_INTRO := "Based on previous optimizations, prioritize these high-impact patterns:\n"

  /** The savings target. */
  function SavingsTarget(data: LearningData): string {
    var v := GetOr(data, AVERAGE_GAS_SAVINGS, NoneValue);
    if Truthy(v) then
      "\nTarget gas savings: Aim for optimizations that save at least " + Display(v) + " gas units.\n"
    else ""
  }

  /** `get_enhanced_gas_instructions`, as a function of the learning data. */
  function GasInstructions(data: LearningData): string
    requires Iterable(data, GAS_OPTIMIZATION_PATTERNS)
  {
    Enhanced(GAS_BASE, GAS_HEADER, data, GasPatternInsights(data), SavingsTarget(data))
  }

  /** The body of `get_enhanced_gas_instructions`, for any base text and header. */
  method BuildGasInstructions(base: string, header: string, data: LearningData) returns (instructions: string)
    requires Iterable(data, GAS_OPTIMIZATION_PATTERNS)
    ensures instructions == Enhanced(base, header, data, GasPatternInsights(data), SavingsTarget(data))
  {
    if data == map[] {
      return base;
    }
    instructions := base + header;
    var patterns := GetOr(data, GAS_OPTIMIZATION_PATTERNS, NoneValue);
    if Truthy(patterns) {
      var before := instructions;
      instructions := AppendItems(instructions + GAS_PATTERN_INTRO, Take(Entries(patterns), 5));
      Associative(before, GAS_PATTERN_INTRO, ItemLines(Take(Entries(patterns), 5)));
    }
    assert instructions == base + header + GasPatternInsights(data);
    var average := GetOr(data, AVERAGE_GAS_SAVINGS, NoneValue);
    if Truthy(average) {
      instructions := instructions + SavingsTarget(data);
    }
  }

  /** `get_enhanced_gas_instructions`. */
  method EnhancedGasInstructions(data: LearningData) returns (instructions: string)
    requires Iterable(data, GAS_OPTIMIZATION_PATTERNS)
    ensures instructions == GasInstructions(data)
  {
    instructions := BuildGasInstructions(GAS_BASE, GAS_HEADER, data);
  }

  /** A non-zero numeric average yields the target line with the number in decimal. */
  lemma SavingsTargetOfNumber(data: LearningData, n: int)
    requires GetOr(data, AVERAGE_GAS_SAVINGS, NoneValue) == Number(n) && n != 0
    ensures SavingsTarget(data) ==
      "\nTarget gas savings: Aim for optimizations that save at least " + IntToString(n) + " gas units.\n"
  {
  }

  /** Gas patterns after the fifth never reach the instructions. */
  lemma OnlyTopFiveGasPatterns(data: LearningData, top: seq<string>, more: seq<string>)
    requires |top| >= 5
    ensures var d := data[GAS_OPTIMIZATION_PATTERNS := Items(top)];
      var d' := data[GAS_OPTIMIZATION_PATTERNS := Items(top + more)];
      Iterable(d, GAS_OPTIMIZATION_PATTERNS) && Iterable(d', GAS_OPTIMIZATION_PATTERNS) &&
      GasPatternInsights(d') == GasPatternInsights(d) && SavingsTarget(d') == SavingsTarget(d)
  {
    assert (top + more)[..5] == top[..5];
  }
}
