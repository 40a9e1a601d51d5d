/** The vulnerability parser: `_parse_security_findings` and the extractors it applies to every
    section (`_extract_vulnerability_info` and the six field extractors behind it). */
module Security {
  import opened Text
  import opened Cascade
  import opened Cleaning
  import opened Heuristics
  import opened Scanners
  import opened CodeBlocks
  import opened Segments

  // ---------------------------------------------------------------- records

  datatype Severity = Critical | High | Medium | Low | Informational

  function SeverityName(s: Severity): string {
    match s
    case Critical => "CRITICAL"
    case High => "HIGH"
    case Medium => "MEDIUM"
    case Low => "LOW"
    case Informational => "INFORMATIONAL"
  }

  /** The severity whose name is `u`, if any. */
  function SeverityNamed(u: string): (r: Option<Severity>)
    ensures r.Some? ==> SeverityName(r.value) == u
    ensures r.None? ==> forall s: Severity :: SeverityName(s) != u
  {
    if u == "CRITICAL" then Some(Critical)
    else if u == "HIGH" then Some(High)
    else if u == "MEDIUM" then Some(Medium)
    else if u == "LOW" then Some(Low)
    else if u == "INFORMATIONAL" then Some(Informational)
    else None
  }

  /** The severity named by `word.strip().upper()`, if it names one. */
  function SeverityOfWord(word: string): (r: Option<Severity>)
    ensures r.Some? ==> SeverityName(r.value) == Upper(Strip(word))
    ensures r.None? ==> forall s: Severity :: SeverityName(s) != Upper(Strip(word))
  {
    SeverityNamed(Upper(Strip(word)))
  }

  /** A severity written in any letter case is read back as itself. */
  lemma SeverityOfWordReadsName(s: Severity, word: string)
    requires Upper(Strip(word)) == SeverityName(s)
    ensures SeverityOfWord(word) == Some(s)
  {
    var r := SeverityNamed(SeverityName(s));
    assert r.Some? && SeverityName(r.value) == SeverityName(s);
  }

  /** One entry of the parser's result list. */
  datatype SecurityFinding = SecurityFinding(
    vulnerabilityType: string,
    severity: Severity,
    description: string,
    attackScenario: string,
    remediation: string,
    codeSnippet: string,
    location: string)

  /** The regular expressions the model takes as given: the three numbered-section patterns
      and the second and third vulnerability-type patterns (their first capture group). */
  datatype SecurityPatterns = SecurityPatterns(
    numbered: seq<Segmenter>,
    boldType: string -> Option<string>,
    keywordLineType: string -> Option<string>)

  // ---------------------------------------------------------------- vulnerability type

  /** The leading class `[*\s\-#\d\.]` and the trailing class `[*\s\-#]` of the type clean-up. */
  predicate IsLeadingMark(c: char) { c == '*' || IsSpace(c) || c == '-' || c == '#' || IsDigit(c) || c == '.' }

  predicate IsTrailingMark(c: char) { c == '*' || IsSpace(c) || c == '-' || c == '#' }

  /** `t[a..b]` is what is left once the longest leading run of marks, `t[..a]`, and then the
      longest trailing run of marks after it, `t[b..]`, are removed. */
  predicate TrimmedAt(t: string, a: nat, b: nat) {
    a <= b <= |t| &&
    (forall i :: 0 <= i < a ==> IsLeadingMark(t[i])) && (a == |t| || !IsLeadingMark(t[a])) &&
    (forall i :: b <= i < |t| ==> IsTrailingMark(t[i])) && (b == a || !IsTrailingMark(t[b - 1]))
  }

  /** `re.sub(r'^[*\s\-#\d\.]+|[*\s\-#]+$', '', t)` on a stripped `t`: the leading run and the
      trailing run are removed (the text ends in no newline, so `$` is its end). The trailing
      class lies inside the leading one, so when the runs overlap nothing is left. */
  function TrimMarks(t: string): (r: string)
    ensures exists a: nat, b: nat :: TrimmedAt(t, a, b) && r == t[a..b]
    ensures r == [] || Contains(t, r)
    ensures r != [] ==> !IsLeadingMark(r[0]) && !IsTrailingMark(r[|r| - 1])
  {
    var a := SkipWhile(t, 0, IsLeadingMark);
    var b := SkipBackWhile(t, 0, |t|, IsTrailingMark);
    if a < b then
      assert TrimmedAt(t, a, b);
      assert ContainsAt(t, t[a..b], a);
      assert t[a..b][0] == t[a] && t[a..b][b - a - 1] == t[b - 1];
      t[a..b]
    else
      assert TrimmedAt(t, a, a) && t[a..a] == [];
      []
  }

  /** There is one way to cut the marks off, so the cut `TrimMarks` makes is the only one. */
  lemma TrimmedAtUnique(t: string, a: nat, b: nat, a': nat, b': nat)
    requires TrimmedAt(t, a, b) && TrimmedAt(t, a', b')
    ensures a == a' && b == b'
  {
  }

  /** Text without marks at its ends is left alone. */
  lemma TrimMarksOfPlain(t: string)
    requires t != [] && !IsLeadingMark(t[0]) && !IsTrailingMark(t[|t| - 1])
    ensures TrimMarks(t) == t
  {
    assert TrimmedAt(t, 0, |t|);
    var a: nat, b: nat :| TrimmedAt(t, a, b) && TrimMarks(t) == t[a..b];
    TrimmedAtUnique(t, a, b, 0, |t|);
    assert t[0..|t|] == t;
  }

  /** Cleaning the marks off twice is cleaning them off once. */
  lemma TrimMarksIdempotent(t: string)
    ensures TrimMarks(TrimMarks(t)) == TrimMarks(t)
  {
    var r := TrimMarks(t);
    if r == [] {
      assert TrimmedAt(r, 0, 0) && r[0..0] == [];
      var a: nat, b: nat :| TrimmedAt(r, a, b) && TrimMarks(r) == r[a..b];
      TrimmedAtUnique(r, a, b, 0, 0);
    } else {
      TrimMarksOfPlain(r);
    }
  }

  /** `.strip()` followed by the mark clean-up. */
  function CleanTypeText(raw: string): string {
    TrimMarks(Strip(raw))
  }

  /** A candidate whose cleaned text has an acceptable length. */
  predicate AcceptedType(c: Option<string>, maxLength: nat) {
    c.Some? && 3 < |CleanTypeText(c.value)| < maxLength
  }

  /** No candidate is accepted. */
  predicate NoneAccepted(cs: seq<Option<string>>, maxLength: nat) {
    forall k :: 0 <= k < |cs| ==> !AcceptedType(cs[k], maxLength)
  }

  /** `t` is the cleaned text of an accepted candidate, and every candidate before it was refused. */
  predicate FirstAcceptedIs(cs: seq<Option<string>>, maxLength: nat, t: string) {
    exists k :: 0 <= k < |cs| && AcceptedType(cs[k], maxLength) && t == CleanTypeText(cs[k].value) &&
      forall j :: 0 <= j < k ==> !AcceptedType(cs[j], maxLength)
  }

  /** The cleaned text of the first candidate whose cleaned text has an acceptable length. */
  function ExplicitType(candidates: seq<Option<string>>, maxLength: nat): (r: Option<string>)
    ensures r.Some? ==> 3 < |r.value| < maxLength
    ensures r.None? <==> NoneAccepted(candidates, maxLength)
    ensures r.Some? ==> FirstAcceptedIs(candidates, maxLength, r.value)
  {
    match FirstAccepted(candidates, (c: Option<string>) => AcceptedType(c, maxLength))
    case None => None
    case Some(c) => Some(CleanTypeText(c.value))
  }

  /** The alternatives of `(?:vulnerability\s+type|type|category)`. */
  const TYPE_LABELS: seq<seq<string>> := [["vulnerability", "type"], ["type"], ["category"]]

  /** The three type patterns, in order. */
  function TypeCandidates(pats: SecurityPatterns, section: string): seq<Option<string>> {
    [Find(section, LineAfter(TYPE_LABELS)), pats.boldType(section), pats.keywordLineType(section)]
  }

  /** How a keyword pattern of the name maps is recognised in the lower-cased text. */
  datatype Cue =
    | Word(w: string)                   // a literal
    | Phrase(ws: seq<string>)           // w1\s+w2
    | SameLine(a: string, b: string)    // a.*b without DOTALL
    | OneGap(a: string, b: string)      // a.?b without DOTALL

  predicate GapAt(s: string, a: string, b: string, i: int) {
    ContainsAt(s, a, i) &&
    (ContainsAt(s, b, i + |a|) || (i + |a| < |s| && s[i + |a|] != '\n' && ContainsAt(s, b, i + |a| + 1)))
  }

  predicate CueIn(s: string, c: Cue) {
    match c
    case Word(w) => Contains(s, w)
    case Phrase(ws) => ContainsPhrase(s, ws)
    case SameLine(a, b) => OnSameLine(s, a, b)
    case OneGap(a, b) => exists i :: 0 <= i <= |s| && GapAt(s, a, b, i)
  }

  /** One entry of a name map: the alternatives of its pattern and the name it gives. */
  datatype NameRule = NameRule(cues: seq<Cue>, name: string)

  predicate RuleFires(s: string, rule: NameRule) {
    exists k :: 0 <= k < |rule.cues| && CueIn(s, rule.cues[k])
  }

  /** No rule applies to `s`. */
  predicate NoneFires(s: string, rules: seq<NameRule>) {
    forall k :: 0 <= k < |rules| ==> !RuleFires(s, rules[k])
  }

  /** `name` is the name of a rule that applies to `s`, and no rule before it applies. */
  predicate FirstFiringIs(s: string, rules: seq<NameRule>, name: string) {
    exists k :: 0 <= k < |rules| && RuleFires(s, rules[k]) && name == rules[k].name &&
      forall j :: 0 <= j < k ==> !RuleFires(s, rules[j])
  }

  /** The name of the first rule whose pattern occurs in the lower-cased `text`. */
  function FirstRuleName(text: string, rules: seq<NameRule>): (r: Option<string>)
    ensures r.None? <==> NoneFires(Lower(text), rules)
    ensures r.Some? ==> FirstFiringIs(Lower(text), rules, r.value)
  {
    var s := Lower(text);
    match FirstAccepted(rules, (rule: NameRule) => RuleFires(s, rule))
    case None => None
    case Some(rule) => Some(rule.name)
  }

  const VULNERABILITY_RULES: seq<NameRule> := [
    NameRule([Word("reentrancy"), Word("reentranci")], "Reentrancy Vulnerability"),
    NameRule([Phrase(["integer", "overflow"])], "Integer Overflow"),
    NameRule([Phrase(["integer", "underflow"])], "Integer Underflow"),
    NameRule([Phrase(["access", "control"])], "Access Control Vulnerability"),
    NameRule([SameLine("unchecked", "call")], "Unchecked External Call"),
    NameRule([Word("tx.origin")], "tx.origin Authentication Bypass"),
    NameRule([SameLine("timestamp", "depend")], "Timestamp Dependency"),
    NameRule([OneGap("front", "running")], "Front-running Vulnerability"),
    NameRule([Phrase(["flash", "loan"])], "Flash Loan Attack"),
    NameRule([Word("dos"), SameLine("denial", "service")], "Denial of Service")
  ]

  const DEFAULT_VULNERABILITY_TYPE := "Security Vulnerability"

  /** `_extract_vulnerability_type`: an explicit type of 4 to 99 characters, else the name of the
      first keyword rule that applies, else the generic type. */
  function VulnerabilityType(pats: SecurityPatterns, section: string): string {
    match ExplicitType(TypeCandidates(pats, section), 100)
    case Some(t) => t
    case None =>
      match FirstRuleName(section, VULNERABILITY_RULES)
      case Some(n) => n
      case None => DEFAULT_VULNERABILITY_TYPE
  }

  /** The stages in their order of priority: the first acceptable explicit type; failing every
      pattern, the name of the first rule that applies; and the generic type only when both fail. */
  lemma VulnerabilityTypeCases(pats: SecurityPatterns, section: string)
    ensures var c := TypeCandidates(pats, section);
      var t := VulnerabilityType(pats, section);
      var s := Lower(section);
      FirstAcceptedIs(c, 100, t) ||
      (NoneAccepted(c, 100) && FirstFiringIs(s, VULNERABILITY_RULES, t)) ||
      (NoneAccepted(c, 100) && NoneFires(s, VULNERABILITY_RULES) && t == DEFAULT_VULNERABILITY_TYPE)
  {
  }

  // ---------------------------------------------------------------- severity

  const SEVERITY_LABEL: seq<seq<string>> := [["severity"]]

  /** The two explicit severity patterns, in order. */
  function SeverityCandidates(section: string): seq<Option<string>> {
    [Find(section, WordAfter(SEVERITY_LABEL)), Find(section, BoldSeverityWord)]
  }

  predicate NamesSeverity(c: Option<string>) {
    c.Some? && SeverityOfWord(c.value).Some?
  }

  /** The keyword groups of the severity inference, in order. */
  const SEVERITY_CUES: seq<(seq<string>, Severity)> := [
    (["critical", "lose funds", "total loss", "drain"], Critical),
    (["high risk", "significant", "major impact"], High),
    (["medium", "moderate", "limited impact"], Medium),
    (["low risk", "minor", "informational"], Low)
  ]

  /** The severity of the first keyword group that occurs, else MEDIUM. */
  function InferredSeverity(section: string): Severity {
    var s := Lower(section);
    match FirstAccepted(SEVERITY_CUES, (g: (seq<string>, Severity)) => ContainsAny(s, g.0))
    case Some(g) => g.1
    case None => Medium
  }

  /** `_extract_severity`. */
  function ExtractSeverity(section: string): Severity {
    match FirstAccepted(SeverityCandidates(section), NamesSeverity)
    case Some(c) => SeverityOfWord(c.value).value
    case None => InferredSeverity(section)
  }

  /** A declared severity wins over every keyword in the text. */
  lemma DeclaredSeverityWins(section: string, word: string, s: Severity)
    requires Find(section, WordAfter(SEVERITY_LABEL)) == Some(word)
    requires Upper(Strip(word)) == SeverityName(s)
    ensures ExtractSeverity(section) == s
  {
    var cs := SeverityCandidates(section);
    assert cs[0] == Some(word);
    SeverityOfWordReadsName(s, word);
    assert NamesSeverity(cs[0]);
    assert FirstIndex(cs, NamesSeverity) == Some(0);
  }

  /** Without a declaration, the first keyword group that occurs decides. */
  lemma InferredSeverityUsed(section: string)
    requires !NamesSeverity(SeverityCandidates(section)[0]) && !NamesSeverity(SeverityCandidates(section)[1])
    ensures ExtractSeverity(section) == InferredSeverity(section)
  {
    var cs := SeverityCandidates(section);
    assert forall j :: 0 <= j < |cs| ==> !NamesSeverity(cs[j]);
  }

  /** The critical keywords take precedence over every other group. */
  lemma CriticalKeywordsFirst(section: string)
    requires ContainsAny(Lower(section), SEVERITY_CUES[0].0)
    ensures InferredSeverity(section) == Critical
  {
  }

  /** A text with none of the keywords is rated MEDIUM. */
  lemma NoKeywordMeansMedium(section: string)
    requires forall k :: 0 <= k < |SEVERITY_CUES| ==> !ContainsAny(Lower(section), SEVERITY_CUES[k].0)
    ensures InferredSeverity(section) == Medium
  {
  }

  // ---------------------------------------------------------------- labelled fields

  /** A labelled field whose stripped text is longer than `minLength`, cleaned. */
  function LabelledText(section: string, labels: seq<seq<string>>, minLength: nat): (r: Option<string>)
    ensures r.Some? ==> Normalized(r.value) && NoNewline(r.value) && |r.value| <= |section|
  {
    match Find(section, Field(labels))
    case None => None
    case Some(f) => if |Strip(f)| > minLength then Some(CleanExtractedText(Strip(f))) else None
  }

  lemma LabelledTextIsCleanedField(section: string, labels: seq<seq<string>>, minLength: nat)
    requires LabelledText(section, labels, minLength).Some?
    ensures Find(section, Field(labels)).Some?
    ensures |Strip(Find(section, Field(labels)).value)| > minLength
    ensures LabelledText(section, labels, minLength).value == CleanExtractedText(Find(section, Field(labels)).value)
  {
    var f := Find(section, Field(labels)).value;
    CleanOfStrip(f);
  }

  /** Cleaning strips anyway, so stripping first changes nothing. */
  lemma CleanOfStrip(t: string)
    ensures CleanExtractedText(Strip(t)) == CleanExtractedText(t)
  {
    CleanIsCollapseThenStrip(t);
    CleanIsCollapseThenStrip(Strip(t));
    CollapseOfStrip(t);
  }

  lemma CollapseOfStrip(t: string)
    ensures Strip(CollapseWhitespace(Strip(t))) == Strip(CollapseWhitespace(t))
  {
    var a := StripStart(t);
    var m := Strip(t);
    SlicesJoin(t, a, a + |m|);
    CollapseAroundSpaces(t[..a], m, t[a + |m|..]);
  }

  /** Whitespace around a stripped core collapses to at most one space on each side. */
  lemma CollapseAroundSpaces(pre: string, m: string, post: string)
    requires forall i :: 0 <= i < |pre| ==> IsSpace(pre[i])
    requires forall i :: 0 <= i < |post| ==> IsSpace(post[i])
    requires Stripped(m)
    ensures Strip(CollapseWhitespace(pre + m + post)) == Strip(CollapseWhitespace(m))
  {
    if m == [] {
      CollapseOfSpaces(pre, m, post);
    } else {
      CollapseAroundCore(pre, m, post);
    }
  }

  lemma CollapseOfSpaces(pre: string, m: string, post: string)
    requires forall i :: 0 <= i < |pre| ==> IsSpace(pre[i])
    requires forall i :: 0 <= i < |post| ==> IsSpace(post[i])
    requires m == []
    ensures Strip(CollapseWhitespace(pre + m + post)) == []
  {
    var w := pre + post;
    assert pre + m + post == w + [];
    assert forall i :: 0 <= i < |w| ==> IsSpace(w[i]) by {
      forall i | 0 <= i < |w|
        ensures IsSpace(w[i])
      {
        if i < |pre| { assert w[i] == pre[i]; } else { assert w[i] == post[i - |pre|]; }
      }
    }
    CollapseSpacesThen(w, []);
    var c := CollapseWhitespace(w + []);
    assert c == [] || c == " ";
    assert forall i :: 0 <= i < |c| ==> IsSpace(c[i]);
    StripDropsEnds(c, [], []);
    assert c + [] + [] == c;
  }

  lemma CollapseAroundCore(pre: string, m: string, post: string)
    requires forall i :: 0 <= i < |pre| ==> IsSpace(pre[i])
    requires forall i :: 0 <= i < |post| ==> IsSpace(post[i])
    requires m != [] && !IsSpace(m[0]) && !IsSpace(m[|m| - 1])
    ensures Strip(CollapseWhitespace(pre + m + post)) == Strip(CollapseWhitespace(m))
  {
    var c := CollapseWhitespace(m);
    var r := CollapseWhitespace(m + post);
    var p: string := if pre == [] then [] else " ";
    var q: string := if post == [] then [] else " ";
    Associative(pre, m, post);
    CollapseSpacesThen(pre, m + post);
    assert CollapseWhitespace(pre + m + post) == p + r;
    CollapseThenSpaces(m, post);
    assert r == c + q;
    Associative(p, c, q);
    StripDropsEnds(p, c, q);
  }

  /** A sequence is its three slices put together. */
  lemma SlicesJoin<T>(t: seq<T>, a: nat, b: nat)
    requires a <= b <= |t|
    ensures t == t[..a] + t[a..b] + t[b..]
  {
  }

  lemma CollapseSpacesThen(pre: string, rest: string)
    requires forall i :: 0 <= i < |pre| ==> IsSpace(pre[i])
    requires rest == [] || !IsSpace(rest[0])
    ensures CollapseWhitespace(pre + rest) == (if pre == [] then [] else " ") + CollapseWhitespace(rest)
  {
    if pre != [] {
      var x := pre + rest;
      var k := SkipWhile(x, 0, IsSpace);
      SkipWhileRun(x, 0, |pre|);
      assert x[|pre|..] == rest;
    } else {
      assert pre + rest == rest;
    }
  }

  lemma {:induction false} SkipWhileRun(x: string, j: nat, n: nat)
    requires j <= n <= |x|
    requires forall i :: j <= i < n ==> IsSpace(x[i])
    requires n == |x| || !IsSpace(x[n])
    ensures SkipWhile(x, j, IsSpace) == n
    decreases n - j
  {
    if j < n {
      SkipWhileRun(x, j + 1, n);
    }
  }

  lemma {:induction false} CollapseThenSpaces(m: string, post: string)
    requires forall i :: 0 <= i < |post| ==> IsSpace(post[i])
    requires m == [] || !IsSpace(m[|m| - 1])
    ensures CollapseWhitespace(m + post) == CollapseWhitespace(m) + (if post == [] then [] else " ")
    decreases |m|
  {
    var tail: string := if post == [] then [] else " ";
    if m == [] {
      CollapseOfSpaceRun(post);
      assert m + post == post;
    } else if IsSpace(m[0]) {
      var k := SkipWhile(m, 0, IsSpace);
      assert k < |m|;
      assert m[k..][|m[k..]| - 1] == m[|m| - 1];
      CollapseThenSpaces(m[k..], post);
      CollapseLeadingRun(m, post, k);
      SharedHead(CollapseWhitespace(m + post), CollapseWhitespace(m), " ",
        CollapseWhitespace(m[k..] + post), CollapseWhitespace(m[k..]), tail);
    } else {
      assert m[1..] == [] || m[1..][|m[1..]| - 1] == m[|m| - 1];
      CollapseThenSpaces(m[1..], post);
      CollapseLeadingChar(m, post);
      SharedHead(CollapseWhitespace(m + post), CollapseWhitespace(m), [m[0]],
        CollapseWhitespace(m[1..] + post), CollapseWhitespace(m[1..]), tail);
    }
  }

  lemma SharedHead<T>(x: seq<T>, y: seq<T>, h: seq<T>, xr: seq<T>, yr: seq<T>, tail: seq<T>)
    requires x == h + xr && y == h + yr && xr == yr + tail
    ensures x == y + tail
  {
    Associative(h, yr, tail);
  }

  lemma CollapseLeadingChar(m: string, post: string)
    requires m != [] && !IsSpace(m[0])
    ensures CollapseWhitespace(m + post) == [m[0]] + CollapseWhitespace(m[1..] + post)
    ensures CollapseWhitespace(m) == [m[0]] + CollapseWhitespace(m[1..])
  {
    assert (m + post)[0] == m[0];
    assert (m + post)[1..] == m[1..] + post;
  }

  lemma CollapseOfSpaceRun(post: string)
    requires forall i :: 0 <= i < |post| ==> IsSpace(post[i])
    ensures CollapseWhitespace(post) == (if post == [] then [] else " ")
  {
    if post != [] {
      SkipWhileRun(post, 0, |post|);
      assert post[|post|..] == [];
    }
  }

  lemma CollapseLeadingRun(m: string, post: string, k: nat)
    requires m != [] && IsSpace(m[0]) && k == SkipWhile(m, 0, IsSpace) && k < |m|
    ensures CollapseWhitespace(m + post) == " " + CollapseWhitespace(m[k..] + post)
    ensures CollapseWhitespace(m) == " " + CollapseWhitespace(m[k..])
  {
    var x := m + post;
    SkipWhileRun(x, 0, k);
    assert x[k..] == m[k..] + post;
  }

  lemma StripDropsEnds(pre: string, c: string, post: string)
    requires forall i :: 0 <= i < |pre| ==> IsSpace(pre[i])
    requires forall i :: 0 <= i < |post| ==> IsSpace(post[i])
    ensures Strip(pre + c + post) == Strip(c)
  {
    var x := pre + c + post;
    var r := Strip(c);
    var a := StripStart(c);
    StripOfCore(x, |pre| + a, r);
  }

  /** A text made of whitespace, a stripped core and whitespace strips to that core. */
  lemma StripOfCore(x: string, a: nat, r: string)
    requires a + |r| <= |x| && x[a..a + |r|] == r && Stripped(r)
    requires forall i :: 0 <= i < a ==> IsSpace(x[i])
    requires forall i :: a + |r| <= i < |x| ==> IsSpace(x[i])
    ensures Strip(x) == r
  {
    if r != [] {
      assert x[a] == r[0] && x[a + |r| - 1] == r[|r| - 1];
      SkipWhileRun(x, 0, a);
      SkipBackRun(x, a, a + |r|, |x|);
    } else {
      SkipWhileRun(x, 0, |x|);
    }
  }

  lemma {:induction false} SkipBackRun(x: string, lo: nat, n: nat, hi: nat)
    requires lo < n <= hi <= |x|
    requires forall i :: n <= i < hi ==> IsSpace(x[i])
    requires !IsSpace(x[n - 1])
    ensures SkipBackWhile(x, lo, hi, IsSpace) == n
    decreases hi - n
  {
    if n < hi {
      SkipBackRun(x, lo, n, hi - 1);
    }
  }


  // ---------------------------------------------------------------- description

  const DESCRIPTION_LABELS: seq<seq<string>> := [["description"], ["summary"], ["issue"], ["problem"]]
  const DESCRIPTION_WORDS: seq<string> := ["vulnerability", "allows", "enables", "causes", "risk"]
  const DEFAULT_DESCRIPTION := "Security vulnerability identified in smart contract code"

  /** A paragraph that can stand as the description. */
  predicate DescriptiveParagraph(para: string) {
    var p := Strip(para);
    |p| > 80 && ContainsAny(Lower(p), DESCRIPTION_WORDS) && !IsTemplateText(p)
  }

  /** `_extract_description`: the labelled field when it is long enough, else the first
      descriptive paragraph, cleaned, else the generic description. */
  function ExtractDescription(section: string): (r: string)
    ensures r == DEFAULT_DESCRIPTION || (Normalized(r) && |r| <= |section|)
  {
    match LabelledText(section, DESCRIPTION_LABELS, 40)
    case Some(d) => d
    case None =>
      match FirstAccepted(Paragraphs(section), DescriptiveParagraph)
      case Some(p) =>
        ParagraphsBounded(section);
        assert |p| <= |section| by {
          var k := FirstIndex(Paragraphs(section), DescriptiveParagraph).value;
          assert Paragraphs(section)[k] == p;
        }
        CleanExtractedText(Strip(p))
      case None => DEFAULT_DESCRIPTION
  }

  // ---------------------------------------------------------------- attack scenario

  const ATTACK_LABELS: seq<seq<string>> := [["attack", "scenario"], ["scenario"], ["exploit", "path"]]
  const ATTACK_WORDS: seq<string> := ["attacker", "exploit", "malicious", "can call", "manipulate"]
  const DEFAULT_ATTACK_SCENARIO := "Attacker can exploit this vulnerability to compromise contract security"

  /** A stripped sentence that describes an attack. */
  predicate AttackSentence(t: string) {
    |t| > 30 && ContainsAny(Lower(t), ATTACK_WORDS) && !IsTemplateText(t)
  }

  /** The sentences the collecting loop picks from `ss`, after having picked `acc`: it stops
      right after the sentence that brings the space-joined text past `limit` characters. The
      sentence test is a parameter; the parser passes `AttackSentence`. */
  function PickedSentences(ss: seq<string>, acc: seq<string>, ok: string -> bool, limit: nat): seq<string>
    decreases |ss|
  {
    if ss == [] then acc
    else
      var t := Strip(ss[0]);
      if ok(t) then
        if |Join(" ", acc + [t])| > limit then acc + [t] else PickedSentences(ss[1..], acc + [t], ok, limit)
      else PickedSentences(ss[1..], acc, ok, limit)
  }

  /** The sentence-collecting loop of `_extract_attack_scenario` (test `AttackSentence`, limit
      200) and of `_extract_optimization_description` (its own test, limit 80). */
  method PickSentences(sentences: seq<string>, ok: string -> bool, limit: nat) returns (picked: seq<string>)
    ensures picked == PickedSentences(sentences, [], ok, limit)
  {
    picked := [];
    var i := 0;
    while i < |sentences|
      invariant 0 <= i <= |sentences|
      invariant PickedSentences(sentences[i..], picked, ok, limit) == PickedSentences(sentences, [], ok, limit)
    {
      assert sentences[i..][1..] == sentences[i + 1..];
      var t := Strip(sentences[i]);
      if ok(t) {
        picked := picked + [t];
        if |Join(" ", picked)| > limit {
          return;
        }
      }
      i := i + 1;
    }
  }

  /** The loop only ever adds to what it has picked. */
  lemma {:induction false} PickedExtends(ss: seq<string>, acc: seq<string>, ok: string -> bool, limit: nat)
    ensures acc <= PickedSentences(ss, acc, ok, limit)
    decreases |ss|
  {
    if ss != [] {
      var t := Strip(ss[0]);
      if ok(t) && |Join(" ", acc + [t])| > limit {
      } else if ok(t) {
        PickedExtends(ss[1..], acc + [t], ok, limit);
      } else {
        PickedExtends(ss[1..], acc, ok, limit);
      }
    }
  }

  /** Whatever the loop picks passes the sentence test. */
  lemma {:induction false} PickedPass(ss: seq<string>, acc: seq<string>, ok: string -> bool, limit: nat)
    requires forall k :: 0 <= k < |acc| ==> ok(acc[k])
    ensures forall k :: 0 <= k < |PickedSentences(ss, acc, ok, limit)| ==> ok(PickedSentences(ss, acc, ok, limit)[k])
    decreases |ss|
  {
    if ss != [] {
      var t := Strip(ss[0]);
      if ok(t) && |Join(" ", acc + [t])| > limit {
      } else if ok(t) {
        PickedPass(ss[1..], acc + [t], ok, limit);
      } else {
        PickedPass(ss[1..], acc, ok, limit);
      }
    }
  }

  /** Every sentence the loop adds is a stripped sentence of the input. */
  lemma {:induction false} PickedFromInput(ss: seq<string>, acc: seq<string>, ok: string -> bool, limit: nat)
    ensures forall k :: |acc| <= k < |PickedSentences(ss, acc, ok, limit)| ==>
      exists i :: 0 <= i < |ss| && PickedSentences(ss, acc, ok, limit)[k] == Strip(ss[i])
    decreases |ss|
  {
    if ss != [] {
      var t := Strip(ss[0]);
      var r := PickedSentences(ss, acc, ok, limit);
      if !(ok(t) && |Join(" ", acc + [t])| > limit) {
        var next := if ok(t) then acc + [t] else acc;
        assert r == PickedSentences(ss[1..], next, ok, limit);
        PickedExtends(ss[1..], next, ok, limit);
        PickedFromInput(ss[1..], next, ok, limit);
        forall k | |acc| <= k < |r| ensures exists i :: 0 <= i < |ss| && r[k] == Strip(ss[i]) {
          if k < |next| {
            assert r[k] == next[k] == Strip(ss[0]);
          } else {
            var i :| 0 <= i < |ss[1..]| && r[k] == Strip(ss[1..][i]);
            assert ss[1..][i] == ss[i + 1];
          }
        }
      } else {
        assert r == acc + [t];
        forall k | |acc| <= k < |r| ensures exists i :: 0 <= i < |ss| && r[k] == Strip(ss[i]) {
          assert r[k] == Strip(ss[0]);
        }
      }
    } else {
      assert PickedSentences(ss, acc, ok, limit) == acc;
    }
  }

  /** Every sentence of the scenario describes an attack and comes from the section. */
  lemma PickedAreAttackSentences(ss: seq<string>)
    ensures forall k :: 0 <= k < |PickedSentences(ss, [], AttackSentence, 200)| ==>
      AttackSentence(PickedSentences(ss, [], AttackSentence, 200)[k])
    ensures forall k :: 0 <= k < |PickedSentences(ss, [], AttackSentence, 200)| ==>
      exists i :: 0 <= i < |ss| && PickedSentences(ss, [], AttackSentence, 200)[k] == Strip(ss[i])
  {
    var r := PickedSentences(ss, [], AttackSentence, 200);
    PickedPass(ss, [], AttackSentence, 200);
    assert forall k :: 0 <= k < |r| ==> AttackSentence(r[k]);
    PickedFromInput(ss, [], AttackSentence, 200);
    assert forall k :: 0 <= k < |r| ==> exists i :: 0 <= i < |ss| && r[k] == Strip(ss[i]);
  }

  /** The loop stops as soon as the picked sentences pass `limit` characters: all but the last one
      picked fit in `limit` characters. */
  lemma {:induction false} PickedStopsPastLimit(ss: seq<string>, acc: seq<string>, ok: string -> bool, limit: nat)
    requires |Join(" ", acc)| <= limit
    ensures var r := PickedSentences(ss, acc, ok, limit);
      r == acc || (|r| > |acc| && |Join(" ", r[..|r| - 1])| <= limit)
    decreases |ss|
  {
    if ss != [] {
      var t := Strip(ss[0]);
      if ok(t) {
        if |Join(" ", acc + [t])| > limit {
          assert (acc + [t])[..|acc|] == acc;
        } else {
          PickedStopsPastLimit(ss[1..], acc + [t], ok, limit);
        }
      } else {
        PickedStopsPastLimit(ss[1..], acc, ok, limit);
      }
    }
  }

  /** `_extract_attack_scenario`, as a function of the section. */
  function AttackScenario(section: string): string {
    match LabelledText(section, ATTACK_LABELS, 30)
    case Some(a) => a
    case None =>
      var picked := PickedSentences(Sentences(section), [], AttackSentence, 200);
      if picked != [] then CleanExtractedText(Join(". ", picked) + ".") else DEFAULT_ATTACK_SCENARIO
  }

  /** `_extract_attack_scenario`. */
  method ExtractAttackScenario(section: string) returns (scenario: string)
    ensures scenario == AttackScenario(section)
  {
    var labelled := LabelledText(section, ATTACK_LABELS, 30);
    if labelled.Some? {
      return labelled.value;
    }
    var picked := PickSentences(Sentences(section), AttackSentence, 200);
    if picked != [] {
      scenario := CleanExtractedText(Join(". ", picked) + ".");
    } else {
      scenario := DEFAULT_ATTACK_SCENARIO;
    }
  }

  /** With no sentence passing the test, the loop picks nothing. */
  lemma {:induction false} PickedNoneWhenNonePass(ss: seq<string>, acc: seq<string>, ok: string -> bool, limit: nat)
    requires forall i :: 0 <= i < |ss| ==> !ok(Strip(ss[i]))
    ensures PickedSentences(ss, acc, ok, limit) == acc
    decreases |ss|
  {
    if ss != [] {
      assert !ok(Strip(ss[0]));
      assert forall i :: 0 <= i < |ss[1..]| ==> ss[1..][i] == ss[i + 1];
      PickedNoneWhenNonePass(ss[1..], acc, ok, limit);
    }
  }

  /** The scenario is a cleaned single-line text or the generic one. */
  lemma AttackScenarioShape(section: string)
    ensures var r := AttackScenario(section);
      r == DEFAULT_ATTACK_SCENARIO || (Normalized(r) && NoNewline(r))
  {
  }

  /** A labelled field of more than 30 characters wins, cleaned. */
  lemma AttackScenarioLabelledWins(section: string)
    requires Find(section, Field(ATTACK_LABELS)).Some?
    requires |Strip(Find(section, Field(ATTACK_LABELS)).value)| > 30
    ensures AttackScenario(section) == CleanExtractedText(Find(section, Field(ATTACK_LABELS)).value)
  {
    LabelledTextIsCleanedField(section, ATTACK_LABELS, 30);
  }

  /** Without such a field, a section none of whose sentences describes an attack gets the
      generic scenario. */
  lemma AttackScenarioDefault(section: string)
    requires LabelledText(section, ATTACK_LABELS, 30).None?
    requires forall i :: 0 <= i < |Sentences(section)| ==> !AttackSentence(Strip(Sentences(section)[i]))
    ensures AttackScenario(section) == DEFAULT_ATTACK_SCENARIO
  {
    PickedNoneWhenNonePass(Sentences(section), [], AttackSentence, 200);
  }

  // ---------------------------------------------------------------- remediation

  const REMEDIATION_LABELS: seq<seq<string>> := [["remediation"], ["fix"], ["solution"], ["mitigation"]]
  const DEFAULT_REMEDIATION := "Implement security best practices to address this vulnerability"

  /** `_extract_remediation`. */
  function ExtractRemediation(section: string): (r: string)
    ensures r == DEFAULT_REMEDIATION || (Normalized(r) && |r| <= |section|)
  {
    match LabelledText(section, REMEDIATION_LABELS, 30)
    case Some(m) => m
    case None => DEFAULT_REMEDIATION
  }

  // ---------------------------------------------------------------- vulnerable code

  /** The snippet left by the replacing loop after `cands`: a candidate whose normalised text
      passes `isCode` replaces the current snippet only when it is strictly longer. The
      normalisation and the code test are parameters; the parser passes `Strip` and
      `LooksLikeSolidityCode`. */
  function LongestCode(cands: seq<string>, isCode: string -> bool, norm: string -> string): string
    decreases |cands|
  {
    if cands == [] then ""
    else
      var prev := LongestCode(cands[..|cands| - 1], isCode, norm);
      var code := norm(cands[|cands| - 1]);
      if isCode(code) && |code| > |prev| then code else prev
  }

  lemma LongestCodeStep(cands: seq<string>, isCode: string -> bool, norm: string -> string, i: nat)
    requires i < |cands|
    ensures LongestCode(cands[..i + 1], isCode, norm) ==
      var prev := LongestCode(cands[..i], isCode, norm);
      var code := norm(cands[i]);
      if isCode(code) && |code| > |prev| then code else prev
  {
    assert cands[..i + 1][..i] == cands[..i];
  }

  /** The snippet loop of `_extract_vulnerable_code`, for the code test `isCode`. */
  method LongestSnippet(cands: seq<string>, isCode: string -> bool) returns (snippet: string)
    ensures snippet == LongestCode(cands, isCode, Strip)
  {
    snippet := "";
    var i := 0;
    while i < |cands|
      invariant 0 <= i <= |cands|
      invariant snippet == LongestCode(cands[..i], isCode, Strip)
    {
      LongestCodeStep(cands, isCode, Strip, i);
      var code := Strip(cands[i]);
      if isCode(code) && |code| > |snippet| {
        snippet := code;
      }
      i := i + 1;
    }
    assert cands[..|cands|] == cands;
  }

  /** The snippet is empty or the first of the longest qualifying candidates, and no
      qualifying candidate is longer. */
  lemma {:induction false} LongestCodeIsFirstLongest(cands: seq<string>, isCode: string -> bool, norm: string -> string)
    requires forall c :: isCode(c) ==> c != []
    ensures var r := LongestCode(cands, isCode, norm);
      (r == [] && forall i :: 0 <= i < |cands| ==> !isCode(norm(cands[i]))) ||
      (exists i :: 0 <= i < |cands| && isCode(norm(cands[i])) && r == norm(cands[i]) &&
         forall j :: 0 <= j < i ==> !(isCode(norm(cands[j])) && |norm(cands[j])| >= |r|))
    ensures forall i :: 0 <= i < |cands| && isCode(norm(cands[i])) ==>
      |norm(cands[i])| <= |LongestCode(cands, isCode, norm)|
    decreases |cands|
  {
    if cands != [] {
      var n := |cands| - 1;
      var init := cands[..n];
      LongestCodeIsFirstLongest(init, isCode, norm);
      var prev := LongestCode(init, isCode, norm);
      var code := norm(cands[n]);
      var r := LongestCode(cands, isCode, norm);
      assert forall i :: 0 <= i < n ==> cands[i] == init[i];
      if isCode(code) && |code| > |prev| {
        assert r == code;
      } else if prev == [] {
        assert r == prev;
        assert !isCode(code);
      } else {
        assert r == prev;
        var i :| 0 <= i < n && isCode(norm(init[i])) && prev == norm(init[i]) &&
          forall j :: 0 <= j < i ==> !(isCode(norm(init[j])) && |norm(init[j])| >= |prev|);
        assert cands[i] == init[i];
      }
    }
  }

  /** For the parser's tests: code-like text is at least ten characters long, so the kept
      snippet is the first of the longest code-like stripped candidates, or empty when there
      is none. */
  lemma SnippetIsFirstLongest(cands: seq<string>)
    ensures var r := LongestCode(cands, LooksLikeSolidityCode, Strip);
      (r == [] && forall i :: 0 <= i < |cands| ==> !LooksLikeSolidityCode(Strip(cands[i]))) ||
      (exists i :: 0 <= i < |cands| && LooksLikeSolidityCode(Strip(cands[i])) && r == Strip(cands[i]) &&
         forall j :: 0 <= j < i ==> !(LooksLikeSolidityCode(Strip(cands[j])) && |Strip(cands[j])| >= |r|))
    ensures forall i :: 0 <= i < |cands| && LooksLikeSolidityCode(Strip(cands[i])) ==>
      |Strip(cands[i])| <= |LongestCode(cands, LooksLikeSolidityCode, Strip)|
  {
    LongestCodeIsFirstLongest(cands, LooksLikeSolidityCode, Strip);
  }

  /** `_extract_vulnerable_code`'s location search: a line number or range, else a function
      or method name, else empty. */
  function Location(section: string): (r: string)
    ensures |r| <= |section|
  {
    match Find(section, LineNumber)
    case Some(l) => l
    case None =>
      match Find(section, Identifier)
      case Some(f) => f
      case None => ""
  }

  /** `_extract_vulnerable_code`, as a function of the section. */
  function VulnerableCode(section: string): (string, string) {
    (LongestCode(SecurityCodeCandidates(section), LooksLikeSolidityCode, Strip), Location(section))
  }

  method ExtractVulnerableCode(section: string) returns (snippet: string, location: string)
    ensures (snippet, location) == VulnerableCode(section)
  {
    snippet := LongestSnippet(SecurityCodeCandidates(section), LooksLikeSolidityCode);
    location := Location(section);
  }

  // ---------------------------------------------------------------- one section

  /** `_extract_vulnerability_info`, as a function of the section. */
  function VulnerabilityInfo(pats: SecurityPatterns, section: string): SecurityFinding {
    var code := VulnerableCode(section);
    SecurityFinding(
      VulnerabilityType(pats, section), ExtractSeverity(section), ExtractDescription(section),
      AttackScenario(section), ExtractRemediation(section), code.0, code.1)
  }

  method ExtractVulnerabilityInfo(pats: SecurityPatterns, section: string) returns (info: SecurityFinding)
    ensures info == VulnerabilityInfo(pats, section)
  {
    var scenario := ExtractAttackScenario(section);
    var snippet, location := ExtractVulnerableCode(section);
    info := SecurityFinding(
      VulnerabilityType(pats, section), ExtractSeverity(section), ExtractDescription(section),
      scenario, ExtractRemediation(section), snippet, location);
  }

  // ---------------------------------------------------------------- the whole response

  /** The security keywords of the paragraph fallback. */
  const SECTION_KEYWORDS: seq<string> := [
    "reentrancy", "access control", "integer overflow", "underflow",
    "unchecked call", "tx.origin", "timestamp", "front running",
    "dos attack", "denial of service", "delegatecall", "proxy",
    "flash loan", "oracle manipulation", "storage collision",
    "uninitialized", "privilege escalation", "authorization",
    "authentication", "input validation", "state manipulation"
  ]

  /** The candidate sections of a cleaned response: the numbered sections with more than 100
      characters of content, or when there are none the keyword paragraphs. */
  function SecuritySections(pats: SecurityPatterns, text: string): seq<string> {
    var numbered := KeptSections(FirstMatches(pats.numbered, text), 100);
    if numbered != [] then numbered else KeptParagraphs(Paragraphs(text), 100, SECTION_KEYWORDS)
  }

  /** What one section contributes: its record when, stripped, the section has at least 100
      characters and the record's description passes the validator. */
  function FindingFor(pats: SecurityPatterns, section: string): Option<SecurityFinding> {
    var s := Strip(section);
    if |s| < 100 then None
    else
      var info := VulnerabilityInfo(pats, s);
      if IsValidSecurityVulnerability(info.description) then Some(info) else None
  }

  /** The body of the parser's section loop. */
  method SectionFinding(pats: SecurityPatterns, section: string) returns (found: Option<SecurityFinding>)
    ensures found == FindingFor(pats, section)
  {
    var s := Strip(section);
    if |s| < 100 {
      return None;
    }
    var info := ExtractVulnerabilityInfo(pats, s);
    if IsValidSecurityVulnerability(info.description) {
      found := Some(info);
    } else {
      found := None;
    }
  }

  /** The records `find` yields for `sections`, in section order. */
  function Collected<S, T>(sections: seq<S>, find: S -> Option<T>): (r: seq<T>)
    ensures |r| <= |sections|
    decreases |sections|
  {
    if sections == [] then []
    else
      var last := find(sections[|sections| - 1]);
      Collected(sections[..|sections| - 1], find) + (if last.Some? then [last.value] else [])
  }

  lemma CollectedStep<S, T>(sections: seq<S>, find: S -> Option<T>, i: nat)
    requires i < |sections|
    ensures Collected(sections[..i + 1], find) == Collected(sections[..i], find) +
      (if find(sections[i]).Some? then [find(sections[i]).value] else [])
  {
    assert sections[..i + 1][..i] == sections[..i];
  }

  /** Collecting over two runs of sections is collecting over each, one after the other. */
  lemma {:induction false} CollectedAppend<S, T>(a: seq<S>, b: seq<S>, find: S -> Option<T>)
    ensures Collected(a + b, find) == Collected(a, find) + Collected(b, find)
    decreases |b|
  {
    if b == [] {
      assert a + b == a;
    } else {
      var init := b[..|b| - 1];
      assert (a + b)[..|a + b| - 1] == a + init;
      assert (a + b)[|a + b| - 1] == b[|b| - 1];
      CollectedAppend(a, init, find);
    }
  }

  /** The record `find` yields for section `i` is in the collection, after the records of the
      sections before it and before those of the sections after it. */
  lemma CollectedSplit<S, T>(sections: seq<S>, find: S -> Option<T>, i: nat)
    requires i < |sections| && find(sections[i]).Some?
    ensures Collected(sections, find) ==
      Collected(sections[..i], find) + [find(sections[i]).value] + Collected(sections[i + 1..], find)
  {
    assert sections == sections[..i] + [sections[i]] + sections[i + 1..];
    CollectedAppend(sections[..i] + [sections[i]], sections[i + 1..], find);
    CollectedAppend(sections[..i], [sections[i]], find);
    assert [sections[i]][..0] == [];
  }

  /** Every collected record is what `find` yields for one of the sections. */
  lemma {:induction false} CollectedFrom<S, T>(sections: seq<S>, find: S -> Option<T>, k: nat)
    requires k < |Collected(sections, find)|
    ensures exists i :: 0 <= i < |sections| && find(sections[i]) == Some(Collected(sections, find)[k])
    decreases |sections|
  {
    var init := sections[..|sections| - 1];
    if k < |Collected(init, find)| {
      CollectedFrom(init, find, k);
      var i :| 0 <= i < |init| && find(init[i]) == Some(Collected(init, find)[k]);
      assert sections[i] == init[i];
    }
  }

  /** Sections for which `find` yields nothing contribute nothing. */
  lemma {:induction false} CollectedNothing<S, T>(sections: seq<S>, find: S -> Option<T>)
    requires forall i :: 0 <= i < |sections| ==> find(sections[i]).None?
    ensures Collected(sections, find) == []
    decreases |sections|
  {
    if sections != [] {
      CollectedNothing(sections[..|sections| - 1], find);
    }
  }

  /** `_parse_security_findings`, as a function of the raw response. */
  function SecurityFindings(pats: SecurityPatterns, response: string): seq<SecurityFinding> {
    Collected(SecuritySections(pats, CleanAgentResponse(response)), (s: string) => FindingFor(pats, s))
  }

  /** The segmentation part of `_parse_security_findings`. */
  method GatherSecuritySections(pats: SecurityPatterns, text: string) returns (sections: seq<string>)
    ensures sections == SecuritySections(pats, text)
  {
    sections := NumberedSections(pats.numbered, text, 100);
    if sections == [] {
      sections := KeywordSections(Paragraphs(text), 100, SECTION_KEYWORDS);
    }
  }

  /** The section loop of `_parse_security_findings`. */
  method CollectFindings(pats: SecurityPatterns, sections: seq<string>) returns (findings: seq<SecurityFinding>)
    ensures findings == Collected(sections, (s: string) => FindingFor(pats, s))
  {
    var find := (s: string) => FindingFor(pats, s);
    findings := [];
    var i := 0;
    while i < |sections|
      invariant 0 <= i <= |sections|
      invariant findings == Collected(sections[..i], find)
    {
      CollectedStep(sections, find, i);
      var found := SectionFinding(pats, sections[i]);
      if found.Some? {
        findings := findings + [found.value];
      }
      i := i + 1;
    }
    assert sections[..|sections|] == sections;
  }

  /** `_parse_security_findings`. */
  method ParseSecurityFindings(pats: SecurityPatterns, response: string) returns (findings: seq<SecurityFinding>)
    ensures findings == SecurityFindings(pats, response)
  {
    var text := CleanAgentResponse(response);
    var sections := GatherSecuritySections(pats, text);
    findings := CollectFindings(pats, sections);
  }

  // ---------------------------------------------------------------- properties of the parser

  /** Every finding passed the validator and was extracted from one of the sections, stripped. */
  lemma FindingsAreValidated(pats: SecurityPatterns, response: string, k: nat)
    requires k < |SecurityFindings(pats, response)|
    ensures IsValidSecurityVulnerability(SecurityFindings(pats, response)[k].description)
    ensures var sections := SecuritySections(pats, CleanAgentResponse(response));
      exists i :: 0 <= i < |sections| && |Strip(sections[i])| >= 100 &&
        SecurityFindings(pats, response)[k] == VulnerabilityInfo(pats, Strip(sections[i]))
  {
    var sections := SecuritySections(pats, CleanAgentResponse(response));
    var find := (s: string) => FindingFor(pats, s);
    CollectedFrom(sections, find, k);
    var i :| 0 <= i < |sections| && find(sections[i]) == Some(SecurityFindings(pats, response)[k]);
    FoundFinding(pats, sections[i], SecurityFindings(pats, response)[k]);
  }

  lemma FoundFinding(pats: SecurityPatterns, section: string, f: SecurityFinding)
    requires FindingFor(pats, section) == Some(f)
    ensures |Strip(section)| >= 100 && f == VulnerabilityInfo(pats, Strip(section))
    ensures IsValidSecurityVulnerability(f.description)
  {
  }

  /** Every candidate section already has more than 100 characters, so the parser's length
      check never skips one. */
  lemma SectionsAreLong(pats: SecurityPatterns, text: string, k: nat)
    requires k < |SecuritySections(pats, text)|
    ensures |Strip(SecuritySections(pats, text)[k])| > 100
  {
    var numbered := KeptSections(FirstMatches(pats.numbered, text), 100);
    if numbered != [] {
      KeptSectionsLong(FirstMatches(pats.numbered, text), 100);
    } else {
      KeptParagraphsPass(Paragraphs(text), 100, SECTION_KEYWORDS, k);
      StripOfStripped(SecuritySections(pats, text)[k]);
    }
  }

  /** A response of at most 100 characters yields no finding. */
  lemma ShortResponseHasNoFindings(pats: SecurityPatterns, response: string)
    requires |response| <= 100
    requires Bounded(pats.numbered, CleanAgentResponse(response))
    ensures SecurityFindings(pats, response) == []
  {
    var text := CleanAgentResponse(response);
    ShortTextHasNoNumberedSections(pats.numbered, text, 100);
    ParagraphsBounded(text);
    ShortPiecesKeepNothing(Paragraphs(text), 100, SECTION_KEYWORDS);
    CollectedNothing(SecuritySections(pats, text), (s: string) => FindingFor(pats, s));
  }

  /** Patterns after the first numbered pattern that yields a section are never consulted. */
  lemma LaterNumberedPatternsIgnored(pats: SecurityPatterns, more: seq<Segmenter>, text: string)
    requires KeptSections(FirstMatches(pats.numbered, text), 100) != []
    ensures SecuritySections(pats.(numbered := pats.numbered + more), text) == SecuritySections(pats, text)
  {
    FirstMatchesIgnoresLater(pats.numbered, more, text);
  }
}
