/** Content heuristics of the parsing engine: template detection (`_is_template_text`), the
    Solidity-code detector (`_looks_like_solidity_code`) and the two record validators
    (`_is_valid_security_vulnerability`, `_is_valid_gas_optimization`). */
module Heuristics {
  import opened Text

  // ---------------------------------------------------------------- template text

  const TEMPLATE_PHRASES: seq<string> := [
    "provide", "include", "example", "template", "guidelines", "instructions", "format",
    "structure", "should contain", "must include", "for each vulnerability found"
  ]

  /** Instructional wording echoed back from the prompt rather than a real finding. */
  predicate IsTemplateText(text: string) {
    ContainsAny(Lower(text), TEMPLATE_PHRASES)
  }

  lemma LowerChar2(c: char)
    ensures LowerChar(LowerChar(c)) == LowerChar(c)
  {
  }

  lemma LowerIdempotent(s: string)
    ensures Lower(Lower(s)) == Lower(s)
  {
    forall i | 0 <= i < |s| ensures Lower(Lower(s))[i] == Lower(s)[i] {
      LowerChar2(s[i]);
    }
  }

  /** Template detection ignores case. */
  lemma TemplateIgnoresCase(text: string)
    ensures IsTemplateText(Lower(text)) == IsTemplateText(text)
  {
    LowerIdempotent(text);
  }

  /** Template wording anywhere in a text makes the whole text template text. */
  lemma TemplateInContext(a: string, t: string, b: string)
    requires IsTemplateText(t)
    ensures IsTemplateText(a + t + b)
  {
    LowerConcat(a + t, b);
    LowerConcat(a, t);
    ContainsAnyInConcat(Lower(a), Lower(t), Lower(b), TEMPLATE_PHRASES);
  }

  predicate NoUpper(s: string) {
    forall i :: 0 <= i < |s| ==> !('A' <= s[i] <= 'Z')
  }

  lemma LowerOfNoUpper(s: string)
    requires NoUpper(s)
    ensures Lower(s) == s
  {
  }

  /** Any of the template phrases, whatever surrounds it, marks a text as template text. */
  lemma TemplatePhraseMarks(a: string, k: nat, b: string)
    requires k < |TEMPLATE_PHRASES|
    ensures IsTemplateText(a + TEMPLATE_PHRASES[k] + b)
  {
    var w := TEMPLATE_PHRASES[k];
    assert NoUpper(w);
    LowerOfNoUpper(w);
    assert ContainsAt(Lower(w), w, 0);
    TemplateInContext(a, w, b);
  }

  // ---------------------------------------------------------------- Solidity detector

  /** One of the twelve Solidity indicators: a whole keyword, or `\buint\d*\b`. */
  datatype Indicator = Keyword(word: string) | UintType

  const SOLIDITY_INDICATORS: seq<Indicator> := [
    Keyword("function"), Keyword("contract"), Keyword("mapping"), UintType,
    Keyword("address"), Keyword("bool"), Keyword("public"), Keyword("private"),
    Keyword("external"), Keyword("internal"), Keyword("require"), Keyword("revert")
  ]

  /** `\buint\d*\b` matches at `i`: the digits are taken greedily, and since a digit is a word
      character, backing off never yields a boundary, so only the maximal run counts. */
  predicate UintAt(s: string, i: int) {
    ContainsAt(s, "uint", i) && (i == 0 || !IsWordChar(s[i - 1])) &&
    var e := SkipWhile(s, i + 4, IsDigit);
    e == |s| || !IsWordChar(s[e])
  }

  predicate HasUint(s: string) {
    exists i :: 0 <= i <= |s| - 4 && UintAt(s, i)
  }

  predicate IndicatorMatches(s: string, ind: Indicator) {
    match ind
    case Keyword(w) => HasWord(s, w)
    case UintType => HasUint(s)
  }

  /** How many of `inds` match `s`. */
  function IndicatorCount(s: string, inds: seq<Indicator>): (n: nat)
    ensures n <= |inds|
    decreases |inds|
  {
    if inds == [] then 0
    else (if IndicatorMatches(s, inds[0]) then 1 else 0) + IndicatorCount(s, inds[1..])
  }

  /** At least ten characters, and at least two indicators match case-insensitively. */
  predicate LooksLikeSolidityCode(text: string) {
    |text| >= 10 && IndicatorCount(Lower(text), SOLIDITY_INDICATORS) >= 2
  }

  predicate TwoMatch(s: string, inds: seq<Indicator>) {
    exists i, j :: 0 <= i < j < |inds| && IndicatorMatches(s, inds[i]) && IndicatorMatches(s, inds[j])
  }

  predicate OneMatches(s: string, inds: seq<Indicator>) {
    exists i :: 0 <= i < |inds| && IndicatorMatches(s, inds[i])
  }

  lemma {:induction false} CountPositive(s: string, inds: seq<Indicator>)
    ensures IndicatorCount(s, inds) >= 1 <==> OneMatches(s, inds)
    decreases |inds|
  {
    if inds != [] {
      CountPositive(s, inds[1..]);
      if OneMatches(s, inds[1..]) {
        var i :| 0 <= i < |inds[1..]| && IndicatorMatches(s, inds[1..][i]);
        assert IndicatorMatches(s, inds[i + 1]);
      }
      if OneMatches(s, inds) && !IndicatorMatches(s, inds[0]) {
        var i :| 0 <= i < |inds| && IndicatorMatches(s, inds[i]);
        assert i > 0 && inds[1..][i - 1] == inds[i];
      }
    }
  }

  lemma {:induction false} CountAtLeastTwo(s: string, inds: seq<Indicator>)
    ensures IndicatorCount(s, inds) >= 2 <==> TwoMatch(s, inds)
    decreases |inds|
  {
    if inds != [] {
      var tail := inds[1..];
      CountAtLeastTwo(s, tail);
      CountPositive(s, tail);
      if TwoMatch(s, tail) {
        var i, j :| 0 <= i < j < |tail| && IndicatorMatches(s, tail[i]) && IndicatorMatches(s, tail[j]);
        assert inds[i + 1] == tail[i] && inds[j + 1] == tail[j];
      }
      if IndicatorMatches(s, inds[0]) && OneMatches(s, tail) {
        var j :| 0 <= j < |tail| && IndicatorMatches(s, tail[j]);
        assert inds[j + 1] == tail[j];
      }
      if TwoMatch(s, inds) {
        var i, j :| 0 <= i < j < |inds| && IndicatorMatches(s, inds[i]) && IndicatorMatches(s, inds[j]);
        assert tail[j - 1] == inds[j];
        if i > 0 {
          assert tail[i - 1] == inds[i];
          assert TwoMatch(s, tail);
        } else {
          assert OneMatches(s, tail);
        }
      }
    }
  }

  /** Code-likeness means: ten characters or more, and two different indicators present. */
  lemma LooksLikeSolidityCodeMeans(text: string)
    ensures LooksLikeSolidityCode(text) <==> |text| >= 10 && TwoMatch(Lower(text), SOLIDITY_INDICATORS)
  {
    CountAtLeastTwo(Lower(text), SOLIDITY_INDICATORS);
  }

  lemma {:induction false} SkipWhileExtend(s: string, b: string, j: nat, p: char -> bool)
    requires j <= |s|
    requires SkipWhile(s, j, p) < |s| || b == [] || !p(b[0])
    ensures SkipWhile(s + b, j, p) == SkipWhile(s, j, p)
    decreases |s| - j
  {
    if j < |s| && p(s[j]) {
      SkipWhileExtend(s, b, j + 1, p);
    }
  }

  lemma WordExtends(s: string, b: string, w: string)
    requires HasWord(s, w)
    requires b == [] || !IsWordChar(b[0])
    ensures HasWord(s + b, w)
  {
    var t := s + b;
    var i :| 0 <= i <= |s| - |w| && WordAt(s, w, i);
    assert t[i..i + |w|] == s[i..i + |w|];
    assert WordAt(t, w, i);
  }

  lemma UintExtends(s: string, b: string)
    requires HasUint(s)
    requires b == [] || !IsWordChar(b[0])
    ensures HasUint(s + b)
  {
    var t := s + b;
    var i :| 0 <= i <= |s| - 4 && UintAt(s, i);
    assert t[i..i + 4] == s[i..i + 4];
    SkipWhileExtend(s, b, i + 4, IsDigit);
    assert UintAt(t, i);
  }

  lemma IndicatorExtends(s: string, b: string, ind: Indicator)
    requires IndicatorMatches(s, ind)
    requires b == [] || !IsWordChar(b[0])
    ensures IndicatorMatches(s + b, ind)
  {
    match ind
    case Keyword(w) => WordExtends(s, b, w);
    case UintType => UintExtends(s, b);
  }

  /** Text that looks like code still does after more text is appended behind a separator,
      as when a snippet is followed by its explanation. */
  lemma LooksLikeSolidityCodeExtends(text: string, more: string)
    requires LooksLikeSolidityCode(text)
    requires more == [] || !IsWordChar(more[0])
    ensures LooksLikeSolidityCode(text + more)
  {
    var s := Lower(text);
    LooksLikeSolidityCodeMeans(text);
    LooksLikeSolidityCodeMeans(text + more);
    LowerConcat(text, more);
    var i, j :| 0 <= i < j < |SOLIDITY_INDICATORS| &&
      IndicatorMatches(s, SOLIDITY_INDICATORS[i]) && IndicatorMatches(s, SOLIDITY_INDICATORS[j]);
    IndicatorExtends(s, Lower(more), SOLIDITY_INDICATORS[i]);
    IndicatorExtends(s, Lower(more), SOLIDITY_INDICATORS[j]);
  }

  // ---------------------------------------------------------------- validators

  const SECURITY_KEYWORDS: seq<string> := [
    "vulnerability", "security", "attack", "exploit", "risk", "unsafe",
    "malicious", "reentrancy", "overflow", "underflow", "access control"
  ]

  const GAS_KEYWORDS: seq<string> := [
    "gas", "optimization", "optimize", "efficient", "cheaper", "save",
    "reduce", "packing", "storage", "memory", "external",
    "public", "loop", "increment", "constant", "immutable",
    "cost", "expensive", "consumption", "usage", "assembly",
    "uint256", "uint", "bytes32", "mapping", "struct", "array",
    "call", "function", "visibility", "error", "require"
  ]

  /** `_is_valid_security_vulnerability` on a record's description. */
  predicate IsValidSecurityVulnerability(description: string) {
    var desc := Lower(description);
    |desc| >= 30 && ContainsAny(desc, SECURITY_KEYWORDS) && !IsTemplateText(desc)
  }

  /** The type gate of `_is_valid_gas_optimization`: it rejects only a type that is shorter
      than three characters and names neither gas nor optimization. */
  predicate AcceptableGasType(optimizationType: string) {
    var t := Lower(optimizationType);
    Contains(t, "gas") || Contains(t, "optimization") || |t| >= 3
  }

  /** `_is_valid_gas_optimization` on a record's description and type. */
  predicate IsValidGasOptimization(description: string, optimizationType: string) {
    var desc := Lower(description);
    |desc| >= 20 && ContainsAny(desc, GAS_KEYWORDS) && AcceptableGasType(optimizationType) &&
    !IsTemplateText(desc)
  }

  /** Neither validator accepts a description that contains template wording. */
  lemma ValidatorsRejectTemplates(description: string, optimizationType: string)
    requires IsTemplateText(description)
    ensures !IsValidSecurityVulnerability(description)
    ensures !IsValidGasOptimization(description, optimizationType)
  {
    TemplateIgnoresCase(description);
  }

  /** A security keyword appears in every accepted vulnerability, whatever its case. */
  lemma ValidSecurityHasKeyword(description: string)
    requires IsValidSecurityVulnerability(description)
    ensures |description| >= 30 && !IsTemplateText(description)
    ensures exists k :: 0 <= k < |SECURITY_KEYWORDS| && Contains(Lower(description), SECURITY_KEYWORDS[k])
  {
    TemplateIgnoresCase(description);
  }
}
