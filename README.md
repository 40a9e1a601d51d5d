# Smart-contract audit response parsing, modelled in Dafny

The audit orchestrator sends a Solidity contract to two language-model agents. One is a
security auditor, the other a gas-optimisation expert. Each answers in free-form prose, usually
Markdown. The orchestrator turns that prose into typed records:

- **security findings:** type, severity, description, attack scenario, remediation, code and
  location;
- **gas optimisations:** type, description, estimated savings, difficulty, and original and
  optimised code.

It also computes an overall risk score from the findings. A learning engine extends the two
agents' base instructions with what earlier audits recorded.

This project models that engine and proves properties of the model. The modules follow the
response-parsing engine's structure:

| module | file | what it holds |
|---|---|---|
| `Text` | text.dfy | ASCII lower-casing, `strip`, substring and word search, `split` on a character, on sentence ends, on blank lines and before marked lines, `join`, decimal numbers |
| `Cascade` | cascade.dfy | "first candidate that is accepted": the shape of every try-this-then-that cascade |
| `Heuristics` | heuristics.dfy | the template-text test, the Solidity-code test and the two validators |
| `Cleaning` | cleaning.dfy | whitespace clean-up of extracted text and metadata removal from responses |
| `Scanners` | scanners.dfy | hand-written scanners for the fixed `re.search` patterns of the field extractors |
| `CodeBlocks` | codeblocks.dfy | fenced and inline code `findall`, and the `public`→`external` and `i++`→`++i` rewrites |
| `Segments` | segments.dfy | the numbered-section cascade and the keyword-paragraph fallback, as loops |
| `Security` | security.dfy | the field extractors and the parser for security findings |
| `Gas` | gas.dfy | the field extractors for one gas optimisation |
| `GasParse` | gasparse.dfy | section splitting, the gas parser and the fallback records |
| `Risk` | risk.dfy | the overall risk score |
| `Learning` | learning.dfy | the two learning-enhanced instruction builders |

## How the model treats each kind of Python construct

- **Strings and case.** Python strings become `string`. `.lower()`, `re.IGNORECASE` and `\d`
  act on ASCII only. `\s` and `strip()` treat as whitespace the ASCII characters Python counts
  as space: the space, `\t`, `\n`, `\v`, `\f`, `\r` and the separators `\x1c` to `\x1f`.
- **Regular expressions.**
  - The segmentation `findall` patterns are parameters of type `Segmenter`, a function from text
    to matches. These are the three numbered security patterns and the four numbered gas
    patterns.
  - Five type patterns are parameters returning `Option<string>`: the bold and keyword-line
    patterns of the vulnerability type, and the bold, heading and numbered patterns of the
    optimisation type. The labelled `type:` pattern of each is a scanner.
  - Every other pattern is a scanner written out on the lower-cased text, with captures cut from
    the original text at the same positions. These cover label fields, savings numbers and
    ranges, line numbers and identifiers, code fences and inline code.
- **Loops.** Each loop that appends to a list is a `method` with a `while` loop. It is proved
  equal to a recursive specification function, and the lemmas about that function state what
  the source promises. This applies to:
  - `sections`, `findings` and `optimizations`;
  - the longest snippet;
  - the attack sentences and description sentences;
  - the code blocks;
  - the fallback hints;
  - the instruction builders' `+=` loops.
- **Cascades.** The expression-only cascades are functions: early-return cascades, severity,
  difficulty, the rewrites and the risk score.

## Model

| member | source | states |
|---|---|---|
| Text.LowerConcat | workflow_orchestrator.py:1076 | lower-casing a concatenation lower-cases each part |
| Heuristics.LowerIdempotent | workflow_orchestrator.py:1076 | lower-casing twice is lower-casing once |
| Text.Strip | workflow_orchestrator.py:454 | the result is stripped, is a slice of the input, and only whitespace was cut on either side |
| Text.SplitOnCharJoin | workflow_orchestrator.py:866 | joining the pieces of `split('\n')` with the separator gives the text back |
| Text.SplitOnCharPieces | workflow_orchestrator.py:919 | no piece of `split('\n')` contains the separator |
| Text.ParagraphsBounded | workflow_orchestrator.py:442 | every piece of the blank-line split is no longer than the text |
| Text.NatToStringInjective | workflow_orchestrator.py:948 | `str(n)` of two numbers is equal only when the numbers are |
| Text.DigitsValueOfNatToString | workflow_orchestrator.py:946-948 | `int(str(n)) == n`: the decimal form reads back as the number |
| Cascade.FirstAccepted | workflow_orchestrator.py:524-530 | the result is absent exactly when no candidate is accepted; when present it is the first accepted candidate: every earlier one was refused |
| Cascade.FirstAcceptedSkipsRefused | workflow_orchestrator.py:524-530 | refused candidates in front of the others never change the outcome |
| Cascade.FirstAcceptedPrefix | workflow_orchestrator.py:524-530 | once an accepted candidate exists, candidates appended later are never reached |
| Heuristics.TemplateIgnoresCase | workflow_orchestrator.py:1067-1077 | the template test gives the same answer on the lower-cased text |
| Heuristics.TemplateInContext | workflow_orchestrator.py:1067-1077 | text around template text is still template text |
| Heuristics.TemplatePhraseMarks | workflow_orchestrator.py:1069-1077 | any text containing one of the eleven template phrases is template text |
| Heuristics.CountAtLeastTwo | workflow_orchestrator.py:1053-1054 | the indicator count is at least two exactly when two different indicators match |
| Heuristics.LooksLikeSolidityCodeMeans | workflow_orchestrator.py:1042-1054 | code-like exactly when at least 10 characters long and two of the twelve indicators match |
| Heuristics.LooksLikeSolidityCodeExtends | workflow_orchestrator.py:1042-1054 | code-like text stays code-like when followed by text that starts with a non-word character |
| Heuristics.ValidatorsRejectTemplates | workflow_orchestrator.py:1094-1130 | both validators reject every template description |
| Cleaning.CleanExtractedText | workflow_orchestrator.py:1056-1065 | empty input gives empty output; the output has no newline, no leading or trailing space and no two spaces in a row, and is no longer than the input |
| Cleaning.CleanIsCollapseThenStrip | workflow_orchestrator.py:1061-1065 | the clean-up is "collapse each whitespace run to one space, then strip" (the `\n\n+` rule has nothing left to do) |
| Cleaning.CleanIdempotent | workflow_orchestrator.py:1056-1065 | cleaning twice equals cleaning once |
| Cleaning.CleanFixesNormalized | workflow_orchestrator.py:1056-1065 | already-clean text is left unchanged |
| Cleaning.RemoveMarkersAbsent | workflow_orchestrator.py:1141-1142 | text without the metadata marker is left unchanged by its removal |
| Cleaning.CleanAgentResponse | workflow_orchestrator.py:1135-1144 | empty input gives empty output; the output is stripped and no longer than the input |
| Cleaning.CleanAgentResponseWithoutMarkers | workflow_orchestrator.py:1135-1144 | a response with neither `conversation_id` nor `request_id` is only stripped |
| Scanners.SearchPos | workflow_orchestrator.py:525 | `re.search` semantics: the leftmost position where the pattern matches, and none before it |
| Scanners.FieldStop | workflow_orchestrator.py:584 | the lazy field ends at the first line that starts with `**`, or at the end |
| Scanners.FieldHasNoBoldLine | workflow_orchestrator.py:584 | a captured field never contains a line that starts with `**` |
| Scanners.NumberAt | workflow_orchestrator.py:932-941 | a savings capture is a non-empty run of digits |
| Scanners.RangeSearch | workflow_orchestrator.py:951-958 | a range has two digit captures, and none is found only when no position matches |
| CodeBlocks.FencedBlocks | workflow_orchestrator.py:1001-1002 | no captured fenced block contains a fence |
| CodeBlocks.StrictFencedBlocks | workflow_orchestrator.py:653-654 | no captured block of `[^`]+?` contains a backtick |
| CodeBlocks.InlineBlocks | workflow_orchestrator.py:1003 | every inline capture has the minimum length and holds no backtick or newline |
| CodeBlocks.GenerateRealisticOptimization | workflow_orchestrator.py:1146-1157 | the generated optimised code is never empty |
| CodeBlocks.GenerateRealisticOriginal | workflow_orchestrator.py:1159-1170 | the generated original code is never empty |
| CodeBlocks.OptimizationOfOptimalCode | workflow_orchestrator.py:1146-1157 | code with no `public` word and no `i++` is returned unchanged after the fixed comment |
| CodeBlocks.OriginalOfPlainCode | workflow_orchestrator.py:1159-1170 | code with no `external` word and no `++i` is returned unchanged after the fixed comment |
| CodeBlocks.PublicRewriteRemovesPublic | workflow_orchestrator.py:1154 | after `\bpublic\b` → `external` no `public` word is left anywhere in the code |
| Segments.NumberedSections | workflow_orchestrator.py:428-437 | the loop keeps, in order, the sections of the first pattern with any match whose stripped body is longer than the threshold |
| Segments.FirstMatchesAt | workflow_orchestrator.py:428-437 | the first pattern with a match is the one used |
| Segments.FirstMatchesIgnoresLater | workflow_orchestrator.py:437 | patterns after the first one that matches never change the sections |
| Segments.FirstMatchesNone | workflow_orchestrator.py:428-437 | when no pattern matches there are no numbered sections |
| Segments.KeptSectionsAreSubstantial | workflow_orchestrator.py:432-435 | every kept section is `title.strip() + "\n" + content.strip()` of a match whose content is long enough |
| Segments.SubstantialIsKept | workflow_orchestrator.py:432-435 | every match whose content is long enough is kept |
| Segments.KeptSectionsLong | workflow_orchestrator.py:434-435 | every kept section is longer than the threshold once stripped |
| Segments.ShortTextHasNoNumberedSections | workflow_orchestrator.py:428-437 | a text no longer than the threshold yields no numbered section when matches lie inside the text |
| Segments.KeywordSections | workflow_orchestrator.py:453-458 | the loop keeps, in order, the stripped paragraphs that are long enough, name a keyword and are not template text |
| Segments.KeptParagraphsPass | workflow_orchestrator.py:453-458 | every kept paragraph passes the three conditions and is a stripped input paragraph |
| Segments.ShortPiecesKeepNothing | workflow_orchestrator.py:455 | short paragraphs keep nothing |
| Security.SeverityOfWord | workflow_orchestrator.py:563-565 | a severity is read exactly when the upper-cased word names one of the five |
| Security.SeverityOfWordReadsName | workflow_orchestrator.py:563-565 | each of the five names is read back as its severity |
| Security.DeclaredSeverityWins | workflow_orchestrator.py:555-565 | a `severity:` label naming a severity decides the severity |
| Security.InferredSeverityUsed | workflow_orchestrator.py:567-578 | without a valid label the keyword cascade decides |
| Security.CriticalKeywordsFirst | workflow_orchestrator.py:569-570 | a critical keyword gives CRITICAL whatever else the section says |
| Security.NoKeywordMeansMedium | workflow_orchestrator.py:578 | no keyword at all gives MEDIUM |
| Security.TrimMarks | workflow_orchestrator.py:528 | the result is the capture without its longest leading run of `[*\s\-#\d\.]` and then its longest trailing run of `[*\s\-#]`; it starts and ends with no mark |
| Security.TrimmedAtUnique | workflow_orchestrator.py:528 | there is only one such cut, so the trimmed type is determined by the capture |
| Security.TrimMarksOfPlain | workflow_orchestrator.py:528 | a type with no marks at either end is not changed |
| Security.TrimMarksIdempotent | workflow_orchestrator.py:528 | trimming an already trimmed type changes nothing |
| Security.ExplicitType | workflow_orchestrator.py:524-530 | an explicit type is found exactly when a capture is between 4 and 99 characters once trimmed, and it is the first such capture, trimmed |
| Security.FirstRuleName | workflow_orchestrator.py:546-548 | a named type is found exactly when one of the patterns fires, and it is the name of the first pattern in the table that fires |
| Security.VulnerabilityTypeCases | workflow_orchestrator.py:515-550 | in priority order: the first accepted explicit capture; only when no capture is accepted, the first firing pattern's name; only when no pattern fires either, "Security Vulnerability" |
| Security.LabelledTextIsCleanedField | workflow_orchestrator.py:587-592 | a labelled text is the cleaned capture of the label field, whose stripped length passed the threshold |
| Security.ExtractDescription | workflow_orchestrator.py:580-603 | the description is the fixed default, or clean text no longer than the section |
| Security.PickSentences | workflow_orchestrator.py:619-628 | the sentence loop equals the recursive definition of picked sentences |
| Security.PickedPass | workflow_orchestrator.py:623-626 | every picked sentence passes the sentence test |
| Security.PickedFromInput | workflow_orchestrator.py:619-626 | every picked sentence is a stripped input sentence |
| Security.PickedAreAttackSentences | workflow_orchestrator.py:619-628 | the attack sentences pass the attack test and come from the section |
| Security.PickedStopsPastLimit | workflow_orchestrator.py:627-628 | picking stops right after the joined sentences pass the limit: without the last pick they are within it |
| Security.ExtractAttackScenario | workflow_orchestrator.py:605-633 | the early-return method computes `AttackScenario`, whose cases the next three lemmas state |
| Security.AttackScenarioShape | workflow_orchestrator.py:605-633 | the scenario is the generic one, or clean single-line text |
| Security.AttackScenarioLabelledWins | workflow_orchestrator.py:611-616 | a labelled field of more than 30 characters once stripped is the scenario, cleaned, whatever the sentences say |
| Security.AttackScenarioDefault | workflow_orchestrator.py:618-633 | without such a field, a section none of whose sentences is an attack sentence gets the generic scenario |
| Security.PickedNoneWhenNonePass | workflow_orchestrator.py:619-626 | when no stripped sentence passes the test, the loop picks nothing |
| Security.ExtractRemediation | workflow_orchestrator.py:635-648 | the remediation is the fixed default, or clean text no longer than the section |
| Security.LongestSnippet | workflow_orchestrator.py:658-665 | the snippet loop equals the longest-code fold over the candidates |
| Security.SnippetIsFirstLongest | workflow_orchestrator.py:659-665 | the snippet is empty when no candidate is code; otherwise it is the first code candidate of greatest length, and no code candidate is longer |
| Security.ExtractVulnerableCode | workflow_orchestrator.py:650-680 | the snippet and location are those of the specification |
| Security.ExtractVulnerabilityInfo | workflow_orchestrator.py:496-514 | the record's fields are the outputs of the six extractors |
| Security.SectionFinding | workflow_orchestrator.py:466-479 | a section yields a finding only when at least 100 characters once stripped and validated |
| Security.CollectedFrom | workflow_orchestrator.py:464-479 | every collected record comes from some section |
| Security.CollectedNothing | workflow_orchestrator.py:464-481 | when no section yields a record the list is empty |
| Security.CollectedAppend | workflow_orchestrator.py:464-479 | the records of two runs of sections are those of the first run, then those of the second |
| Security.CollectedSplit | workflow_orchestrator.py:464-479 | a section that yields a record has it in the list, after the records of the sections before it and before those of the sections after it |
| Security.GatherSecuritySections | workflow_orchestrator.py:418-460 | the numbered cascade, else the keyword paragraphs |
| Security.CollectFindings | workflow_orchestrator.py:464-482 | the loop keeps, in order, what each section yields |
| Security.ParseSecurityFindings | workflow_orchestrator.py:408-494 | the parser equals clean, segment and collect |
| Security.FindingsAreValidated | workflow_orchestrator.py:464-479 | every finding passed the validator and is the record of a section that was at least 100 characters once stripped |
| Security.FoundFinding | workflow_orchestrator.py:466-479 | a section's finding is the record of the stripped section, and it passed the validator |
| Security.SectionsAreLong | workflow_orchestrator.py:434-458 | every candidate section is longer than 100 characters once stripped |
| Security.ShortResponseHasNoFindings | workflow_orchestrator.py:408-494 | a response of at most 100 characters yields no finding |
| Security.LaterNumberedPatternsIgnored | workflow_orchestrator.py:428-437 | once a numbered pattern yields a kept section, added later patterns never change the sections |
| Gas.FirstLineType | workflow_orchestrator.py:866-878 | the first-line type is the name of the first group in the `elif` order whose words occur in the lower-cased first line, and is absent when no group's words do |
| Gas.OptimizationTypeCases | workflow_orchestrator.py:816-879 | in priority order: the first accepted explicit capture; failing every capture, the first firing pattern's name; failing every pattern, the first first-line group's name; only when all fail, "Gas Optimization" |
| Gas.OptimizationTypeIsLong | workflow_orchestrator.py:816-879 | every optimisation type is longer than three characters |
| Gas.TypeGateNeverRejects | workflow_orchestrator.py:1100-1133 | for an extracted type the gas validator accepts exactly when the description has 20 characters, a gas keyword and no template text |
| Gas.PatternDescription | workflow_orchestrator.py:884-896 | a pattern description is clean, over 20 characters and not template text; it is absent exactly when no capture is usable |
| Gas.ExtractOptimizationDescription | workflow_orchestrator.py:881-927 | the method equals the pattern, sentence, line and default cascade |
| Gas.OptimizationDescriptionIsClean | workflow_orchestrator.py:881-927 | the description is the default or clean single-line text |
| Gas.PatternDescriptionWins | workflow_orchestrator.py:890-896 | a usable pattern capture decides the description |
| Gas.DescriptionSentencesPass | workflow_orchestrator.py:899-913 | only the first six sentences are looked at; each picked one passes the test and is one of them, stripped |
| Gas.FirstPlausible | workflow_orchestrator.py:943-948 | an explicit saving lies in (0, 1000000) and is what one pattern found; none is given when no pattern finds such a number |
| Gas.FirstRange | workflow_orchestrator.py:957-962 | a range saving is the upper bound of a range whose lower bound is smaller; none when no range is valid |
| Gas.ExplicitSavings | workflow_orchestrator.py:943-948 | the pattern loop equals the first plausible number |
| Gas.RangeSavings | workflow_orchestrator.py:957-962 | the range loop equals the first valid range's upper bound |
| Gas.ExtractGasSavings | workflow_orchestrator.py:929-973 | the method equals the explicit, range, then default cascade |
| Gas.SavingsCases | workflow_orchestrator.py:929-973 | the saving is a plausible number found by a pattern, or a valid range's upper bound, or one of "20000", "1500", "500", "1000" |
| Gas.ImplausibleNumberSkipped | workflow_orchestrator.py:946-948 | a number outside the range passes the turn to the next pattern |
| Gas.FirstPatternNumberWins | workflow_orchestrator.py:933-948 | a plausible number after "gas savings" decides the saving |
| Gas.DifficultyNamed | workflow_orchestrator.py:985-987 | a difficulty is read exactly when the lower-cased word is easy, medium or hard |
| Gas.DeclaredDifficultyWins | workflow_orchestrator.py:977-987 | a difficulty label naming a difficulty decides it |
| Gas.InferredDifficultyUsed | workflow_orchestrator.py:989-996 | without a valid label: easy words give easy, else hard words give hard, else medium |
| Gas.StrippedPassingPass | workflow_orchestrator.py:1009-1012 | every kept block is code-like and is a stripped candidate |
| Gas.StrippedPassingPrefix | workflow_orchestrator.py:1006-1012 | the blocks kept from the first candidates begin the blocks kept from all of them |
| Gas.StrippedPassingComplete | workflow_orchestrator.py:1007-1012 | every candidate that is code-like once stripped is kept, right after the blocks kept from the candidates before it |
| Gas.CollectCodeBlocks | workflow_orchestrator.py:1006-1012 | the loop keeps, in order, the stripped candidates that pass |
| Gas.ExtractCodeExamples | workflow_orchestrator.py:998-1023 | the method equals the specification of the pair |
| Gas.ExamplesFromCases | workflow_orchestrator.py:1014-1023 | two or more blocks give the first two; one block is one side; none gives the fixed pair; neither side is ever empty |
| Gas.OneBlockIsOriginal | workflow_orchestrator.py:1025-1039 | in a section that speaks of the original code, a lone block is the original and the other side is its rewrite |
| Gas.ExtractGasOptimizationInfo | workflow_orchestrator.py:799-814 | the record's fields are the outputs of the five extractors |
| GasParse.ChosenSplit | workflow_orchestrator.py:734-737 | the first split with more than one piece is used; if none has more than one, the last split is used |
| GasParse.SplitParagraphs | workflow_orchestrator.py:734-737 | the split loop equals the chosen split |
| GasParse.SplitPiecesBounded | workflow_orchestrator.py:728-737 | every piece of the chosen split is no longer than the text |
| GasParse.GatherGasSections | workflow_orchestrator.py:690-753 | the numbered cascade over bodies longer than 30, else the keyword paragraphs over 50 characters |
| GasParse.GasSectionsAreLong | workflow_orchestrator.py:718-752 | every candidate section is longer than 30 characters once stripped |
| GasParse.SectionOptimization | workflow_orchestrator.py:757-770 | a section yields a record only when at least 40 characters once stripped and validated |
| GasParse.CollectOptimizations | workflow_orchestrator.py:757-780 | the loop keeps, in order, what each section yields |
| GasParse.FoundOptimization | workflow_orchestrator.py:757-770 | a section's record is that of the stripped section; its description has 20 characters, a gas keyword and no template text |
| GasParse.RelevantSnippet | workflow_orchestrator.py:1237-1258 | the snippet has at most 200 characters |
| GasParse.RelevantSnippetMentions | workflow_orchestrator.py:1245-1258 | the snippet is empty, or a code block that names a keyword (cut to 200), or a line that names one (cut to 100) |
| GasParse.GenericExampleWithoutWords | workflow_orchestrator.py:1260-1275 | a type naming none of the six words gets the generic example |
| GasParse.CreateFallbackFrom | workflow_orchestrator.py:1216-1235 | the hint loop equals the first three records of the hints that fire |
| GasParse.CreateFallbackOptimizations | workflow_orchestrator.py:1172-1235 | the fallback equals that loop over the six-entry hint table |
| GasParse.FallbackRecordsFromHints | workflow_orchestrator.py:1218-1235 | at most three records; each comes from a hint named in the text and has its type, description and savings, medium difficulty and the two example headers |
| GasParse.FallbackForHint | workflow_orchestrator.py:1219-1230 | a hint's record carries the hint's fields and fires only when a keyword occurs |
| GasParse.FallbackInHintOrder | workflow_orchestrator.py:1216-1235 | while fewer than three earlier hints have fired, a firing hint's record comes right after theirs: the records keep the table order |
| GasParse.FirstHintComesFirst | workflow_orchestrator.py:1218-1232 | the table order is kept: a firing first hint gives the first record |
| GasParse.StorageHintComesFirst | workflow_orchestrator.py:1178-1183 | a text naming storage, packing or slots gets the storage-packing record, saving 20000, first |
| GasParse.ExtractGasOptimizations | workflow_orchestrator.py:682-797 | the parser equals clean, segment, collect, then fall back |
| GasParse.OptimizationsValidatedOrFallback | workflow_orchestrator.py:757-788 | every record is what a section yields or, only when no section yields one and the text is over 100 characters, a fallback record |
| GasParse.ShortTextHasNoGasSections | workflow_orchestrator.py:690-753 | a text of at most 30 characters has no candidate section |
| GasParse.ShortResponseHasNoOptimizations | workflow_orchestrator.py:682-797 | a response of at most 30 characters yields no optimisation, not even a fallback |
| Risk.CountSeverity | workflow_orchestrator.py:342-344 | a severity count never exceeds the number of findings |
| Risk.RiskScore | workflow_orchestrator.py:346 | the score never exceeds 10 |
| Risk.CountsAreWeights | workflow_orchestrator.py:342-346 | `3·critical + 2·high + medium` is the per-finding sum of weights 3, 2, 1, 0, 0 |
| Risk.RiskScoreIsCappedWeightSum | workflow_orchestrator.py:346 | the score is the weight sum capped at 10 |
| Risk.RiskScoreMonotone | workflow_orchestrator.py:342-346 | adding a finding never lowers the score |
| Risk.MinorFindingsDoNotCount | workflow_orchestrator.py:342-346 | a low or informational finding leaves the score unchanged |
| Risk.RiskScoreZero | workflow_orchestrator.py:342-346 | the score is zero exactly when no finding is critical, high or medium |
| Risk.FourCriticalsReachCap | workflow_orchestrator.py:346 | four critical findings reach the cap |
| Learning.TruthyIffEntries | learning_engine.py:258-261 | for a list, a string or None, the `if` test passes exactly when the `for` loop has something to visit |
| Learning.IntToStringReadsBack | learning_engine.py:259 | `f"{n}"` of an integer reads back as the integer, with a minus sign when negative |
| Learning.ItemLinesAppend | learning_engine.py:260-261 | the lines of two lists are the lines of the first, then those of the second |
| Learning.ItemLinesLength | learning_engine.py:260-261 | each item adds at least three characters; no lines exactly when no items |
| Learning.ItemLineOf | learning_engine.py:260-261 | the k-th item's line sits between the lines of the items before and after it |
| Learning.AppendItems | learning_engine.py:260-261 | the `+=` loop appends one "- item\n" line per item, in order |
| Learning.EnhancedBaseFirst | learning_engine.py:253-256 | the base text is always a prefix; the result is the base exactly when the data is empty; otherwise the base and header are a prefix |
| Learning.BuildSecurityInstructions | learning_engine.py:253-268 | the builder equals base, header, then the two insight parts |
| Learning.EnhancedSecurityInstructions | learning_engine.py:230-268 | the security builder on its own base text and header |
| Learning.NoSecurityInsightsWithoutLists | learning_engine.py:258-266 | with neither list present and truthy, nothing follows the header |
| Learning.OnlyTopFiveVulnerabilities | learning_engine.py:260 | vulnerabilities after the fifth never change the instructions |
| Learning.OnlyTopThreeFalsePositives | learning_engine.py:265 | false-positive patterns after the third never change the instructions |
| Learning.BuildGasInstructions | learning_engine.py:289-302 | the builder equals base, header, the patterns, then the savings target |
| Learning.EnhancedGasInstructions | learning_engine.py:270-302 | the gas builder on its own base text and header |
| Learning.SavingsTargetOfNumber | learning_engine.py:299-300 | a non-zero average saving is written into the target line in decimal |
| Learning.OnlyTopFiveGasPatterns | learning_engine.py:296 | gas patterns after the fifth never change the instructions |

## Left out

- **Print diagnostics.** The `print` calls and `traceback.print_exc` are not modelled. They do
  not change any result.
- **Exception handlers.** The `try`/`except` branches at workflow_orchestrator.py:483-485,
  490-494, 776-780 and 793-797 are not modelled. Every modelled extractor is total, so no
  exception can arise in the model.
  - One exception is lost this way. From Python 3.11, `int()` refuses a digit string of more
    than 4300 digits with `ValueError`. The savings conversions at workflow_orchestrator.py:946
    and :960 can meet such a string. The handler at 776-780 then skips that section, while the
    model reads the number and keeps the section.
- **Twelve regular expressions.** The numbered segmentation patterns (422-426, 694-703) and
  the bold, keyword-line, heading and numbered type patterns (520-521, 821-823) are parameters,
  not scanners. `LaterNumberedPatternsIgnored`, `FirstMatchesAt` and the `Bounded` preconditions
  say what the model assumes of the segmentation patterns.
  - The security patterns end at `$` under MULTILINE; the gas patterns end at `\Z`. This
    difference lives inside those parameters.
- **Unicode.** Only ASCII characters are lower-cased and treated as whitespace or digits.
- **The context around the engine.** These are left out because they are network, database,
  clock or UI plumbing:
  - the asynchronous pipelines, `run_full_audit`'s control flow and the agent calls with retry;
  - the learning engine's database methods;
  - `_hash_contract` and the session id;
  - the Streamlit application and agent construction.

  The risk score is modelled on the list of findings that `run_full_audit` passes it.
- **Learning values.** `Learning.Display` writes a list as Python does only for items that need
  no escaping. Floats and booleans in the learning data are not modelled: `average_gas_savings`
  is an integer, a string, a list or None.
- Learning.EnhancedSecurityInstructions: requires that neither list key holds a truthy number,
  because Python raises `TypeError` when it slices one. The error path is not modelled.
- Learning.EnhancedGasInstructions: requires that `gas_optimization_patterns` does not hold a
  truthy number, for the same reason.
- **Insight headers.** Both headers are taken as the source file writes them: each emoji is
  stored as its Latin-1 misreading, character by character.
- Security.Location: only its length bound is stated. The line/identifier cascade is not tied
  to the scanners' matches by a lemma.
- Security.ExtractDescription: the contract states the shape of the result (default text, or
  clean text). The choice between the labelled field and the first descriptive paragraph is not
  stated.
- Security.ExtractRemediation: the contract states the shape of the result (default text, or
  clean text), not that the labelled field is used whenever it is long enough.
- GasParse.RelevantSnippet: the contract says the snippet is some matching block or line, not
  that it is the first one.
- GasParse.GenericExampleWithoutWords: specific example types are not enumerated. With the
  fallback table's names, "Function Visibility Optimization" and "Variable Declaration
  Optimization" contain none of the six words either. So by this lemma both fallback records get
  the generic example rather than the visibility or constant one. A lemma about those two
  concrete names is not part of the model.
- CodeBlocks.GenerateRealisticOptimization and CodeBlocks.GenerateRealisticOriginal: only their
  non-emptiness is stated. Their rewrites are characterised by `PublicRewriteRemovesPublic`,
  `OptimizationOfOptimalCode` and `OriginalOfPlainCode`, not fully.
- Scanners.NumberAt and Scanners.RangeSearch: they state the shape of a capture (digit runs).
  They do not state that the match is the one the full regular expression would find.
