# A verified model of the emergency-department CPT code extractor

The system reads the free text of an emergency-department note and proposes
CPT procedure codes for it. The extractor `EDCPTExtractor` holds a table of
code definitions. Each definition has a description, a procedure category,
keywords and regular-expression patterns. An extraction runs these steps:

1. normalise the note (`_clean_text`);
2. score every table entry against it (`_calculate_confidence`): the share
   of keywords found, weighted 0.6, plus the share of patterns that match,
   weighted 0.4, capped at 1;
3. keep the entries scored above 0.3, in table order, and sort them by
   confidence, highest first;
4. apply three business rules (`_apply_business_rules`):
   - keep the single most confident E&M (evaluation and management) code;
   - keep the other codes only above 0.5;
   - keep one code per group, where a group is a category plus the first
     three characters of the code;
5. sort again.

`extract_with_details` adds a report: the rounded codes, a complexity
analysis of the raw note, the highest confidence and advisory
recommendations.

The project has these modules:

- `Text`, `Model`: character classes, substring search, the category
  enumeration, the `CPTCode` record, the table entry and the grouping key.
- `Normalizer`: the note normaliser.
- `Scoring`: the confidence formula.
- `Ranking`: the sort, stable like Python's `list.sort`.
- `Rules`: the business rules.
- `Reporting`: word count, complexity analysis, recommendations and the
  report.
- `Extraction`: the whole extraction as a function of table and note, plus
  the `Extractor` class.

The class's methods follow the source's loops. Each is proved to compute the
matching function:
- `CalculateConfidence` computes `Confidence`.
- `KeepBestPerGroup` computes `Deduplicate`.
- `ExtractCptCodes` computes `ExtractCodes`.
- `ExtractWithDetails` computes `DetailsOf`.

The lemmas then state what those functions guarantee.

The comment above the collapse in `_clean_text` says "Remove extra
whitespace". The code, however, blanks disallowed characters only after that
collapse has run. So `x! y` cleans to `x  y`, with two spaces
(`Normalizer.CleanExclamation`). Cleaning that text again removes one of
them, so the normaliser is not idempotent
(`Normalizer.CleanTextNotIdempotent`). The model follows the code. What does
hold is that cleaning keeps the words of the note once it is lower-cased and
its disallowed characters are blanked (`Reporting.WordsOfCleanText`).

## Model

| member | source | states |
|---|---|---|
| Text.LowerChar | testing.py:549 | `str.lower()` on one ASCII character: a capital becomes the lower-case letter at the same place in the alphabet; any other character is unchanged; the result is not upper case and keeps whether the character is whitespace or a word character |
| Text.Lower | testing.py:549 | `text.lower()`: `LowerChar` applied to each character; its properties are stated by `Text.LowerChar` |
| Normalizer.CleanText | testing.py:546-557 | the normaliser as the source composes it: lower-case, collapse whitespace, blank disallowed characters, strip; its properties are stated by `Normalizer.CleanTextShape`, `Normalizer.CleanTextKeepsContent` and `Reporting.WordsOfCleanText` |
| Normalizer.CollapseWhitespace | testing.py:552 | `re.sub(r'\s+', ' ', text)`: each maximal run of whitespace becomes one space; its properties are stated by `Normalizer.CollapseWhitespaceShape`, `Normalizer.VisibleCollapse` and `Reporting.JoinWordsOfCollapse` |
| Normalizer.ReplaceDisallowed | testing.py:555 | `re.sub(r'[^\w\s\-\.\,\:\;\(\)\/]', ' ', text)`: each disallowed character becomes a space and every other character is kept; its properties are stated by `Normalizer.ReplaceMakesCleanChars` and `Normalizer.VisibleReplace` |
| Normalizer.Strip | testing.py:557 | `text.strip()`: `rstrip` after `lstrip`; its properties are stated by `Normalizer.TrimStart`, `Normalizer.TrimEnd` and `Normalizer.VisibleStrip` |
| Normalizer.TrimStart | testing.py:557 | `lstrip`: the result is a suffix of the input starting with a non-space; everything dropped is whitespace |
| Normalizer.TrimEnd | testing.py:557 | `rstrip`: the result is a prefix of the input ending with a non-space; everything dropped is whitespace |
| Normalizer.CollapseWhitespaceShape | testing.py:552 | after `re.sub(r'\s+', ' ', ...)` no two whitespace characters are adjacent, and the only whitespace character is `' '` |
| Normalizer.CollapseFromInput | testing.py:552 | the collapse brings in no character other than `' '` |
| Normalizer.CollapseKeepsNoUpper | testing.py:549-552 | a text with no capitals still has none after the collapse, and its only whitespace is `' '` |
| Normalizer.ReplaceMakesCleanChars | testing.py:555 | after the replacement every character is a word character, a space or one of `- . , : ; ( ) /` |
| Normalizer.StripKeepsCleanChars | testing.py:557 | stripping keeps those character properties |
| Normalizer.CleanTextShape | testing.py:546-557 | the cleaned note has no capitals, only allowed characters, `' '` as its only whitespace, and no whitespace at either end |
| Normalizer.VisibleCollapse | testing.py:552 | the collapse keeps the non-whitespace allowed characters and their order |
| Normalizer.VisibleReplace | testing.py:555 | the replacement keeps the non-whitespace allowed characters and their order |
| Normalizer.VisibleStrip | testing.py:557 | stripping keeps the non-whitespace characters and their order |
| Normalizer.CleanTextKeepsContent | testing.py:546-557 | the cleaned note holds exactly the allowed non-whitespace characters of the lower-cased note, in order |
| Normalizer.CleanExclamation | testing.py:552-555 | a disallowed character beside a space leaves two spaces: `x! y` cleans to `x  y` |
| Normalizer.CleanDoubleSpace | testing.py:552-557 | `x  y` cleans to `x y` |
| Normalizer.CleanTextNotIdempotent | testing.py:546-557 | cleaning a cleaned text can change it again |
| Normalizer.CleanTextEmpty | testing.py:546-557 | the empty note cleans to the empty text |
| Model.Prefix3 | testing.py:605 | `code[:3]`: a prefix of the code, three characters long, or the whole code when it is shorter |
| Model.GroupKey | testing.py:605 | `f"{code.category}_{code.code[:3]}"`: the category's text, an underscore and the code's first three characters; that it separates groups is stated by `Model.GroupKeyInjective` |
| Model.GroupKeyInjective | testing.py:605 | two codes have the same group key exactly when they have the same category and the same first three characters |
| Model.Filter | testing.py:590 | a list comprehension with a condition: the kept elements are exactly those of the input that satisfy it |
| Scoring.Confidence | testing.py:559-583 | `_calculate_confidence` on one table entry, as the score of its keyword and pattern counts; its properties are stated by `Scoring.ConfidenceMonotone`, `Scoring.ConfidenceWithoutHits` and the `Score` lemmas |
| Scoring.KeywordHits | testing.py:564-567 | the keyword count never exceeds the number of keywords |
| Scoring.PatternHits | testing.py:574-577 | the pattern count never exceeds the number of compiled patterns |
| Scoring.Score | testing.py:561-583 | the confidence always lies in [0, 1] |
| Scoring.ScoreNoHits | testing.py:569-583 | no keyword and no pattern hit gives 0 |
| Scoring.ScoreAllHits | testing.py:569-583 | all hits give 1 with both lists non-empty, 0.6 with keywords only, 0.4 with patterns only, 0 with neither |
| Scoring.ScoreUncapped | testing.py:569-583 | within the list lengths the confidence is exactly 0.6 times the keyword share plus 0.4 times the pattern share, leaving out an empty list's term |
| Scoring.ScoreMonotone | testing.py:565-581 | raising either hit count never lowers the confidence |
| Scoring.PatternsAloneOverInclusion | testing.py:579-581 | without keyword hits, a code passes the 0.3 inclusion threshold only when more than three quarters of its patterns match |
| Scoring.KeywordsAloneOverProcedureFloor | testing.py:569-571 | without pattern hits, a code passes the 0.5 procedure threshold only when more than five sixths of its keywords are found |
| Scoring.KeywordHitsMonotone | testing.py:565-567 | a note that contains another finds at least as many keywords |
| Scoring.PatternHitsMonotone | testing.py:574-577 | when every pattern that matched still matches, the pattern count does not drop |
| Scoring.ConfidenceMonotone | testing.py:559-583 | under those two conditions the confidence does not drop |
| Scoring.ConfidenceWithoutHits | testing.py:559-583 | a definition with no hit scores 0 |
| Rules.Refined | testing.py:587-598 | Rules 1 and 2: the first most confident E&M code, then the non-E&M codes above 0.5 in input order; its properties are stated by `Rules.RefinedMembers` and `Rules.RefinedSingleEvaluation` |
| Rules.Record | testing.py:605-607 | one pass of the Rule 3 loop: a new key is appended with the code, a strictly more confident code replaces the stored one, otherwise nothing changes; its effect is stated by `Rules.RecordFirstSeen` and the `Scan` lemmas |
| Rules.Deduplicate | testing.py:600-609 | `list(seen_categories.values())` after the loop; its properties are stated by `Rules.DeduplicateKeysDistinct` and `Rules.ScanOrder` |
| Rules.BusinessRules | testing.py:585-612 | `_apply_business_rules`: Rules 1–3, then the sort; its properties are stated by the `BusinessRules` lemmas |
| Ranking.Insert | testing.py:539 | one insertion step of the sort keeps the multiset of codes, plus the new one |
| Ranking.InsertSorted | testing.py:539 | inserting into a list sorted highest first keeps it sorted |
| Ranking.SortDesc | testing.py:539 | `sort(key=confidence, reverse=True)`: a permutation of the input, sorted by non-increasing confidence |
| Ranking.SortDescStable | testing.py:539 | the sort is stable: codes of equal confidence keep their relative order |
| Ranking.SortDescMembers | testing.py:539 | the sort keeps the length and the set of codes |
| Rules.FirstMax | testing.py:593 | `max(em_codes, key=confidence)` is an element of the list with the highest confidence |
| Rules.FirstMaxIsFirst | testing.py:593 | it is the first element that reaches the maximum |
| Rules.Scan | testing.py:601-607 | the dictionary the loop builds lists each key once, lists exactly the keys it stores, and stores under each key a code of that key |
| Rules.ScanListsKeys | testing.py:601-607 | the dictionary's keys are exactly the group keys of the scanned codes |
| Rules.RecordFirstSeen | testing.py:604-607 | one pass of the loop keeps the keys listed in the order of their first occurrence |
| Rules.ScanFirstSeen | testing.py:601-607 | after the loop the keys are listed in the order of their first occurrence in the scanned list |
| Rules.ScanOrder | testing.py:601-609 | the dictionary lists each group key of the scanned list exactly once, and no others, in the order of the key's first occurrence |
| Rules.RefinedMembers | testing.py:587-598 | after Rules 1 and 2 a code is kept exactly when it is the first most confident E&M code or an input non-E&M code above 0.5 |
| Rules.RefinedSingleEvaluation | testing.py:589-594 | every E&M code kept by Rule 1 is that first maximum |
| Rules.ScanFromInput | testing.py:604-607 | every code the dictionary stores comes from the list it scanned |
| Rules.ScanCovers | testing.py:604-607 | every scanned code's key is in the dictionary, with a stored code at least as confident |
| Rules.ScanFirstBest | testing.py:606-607 | only a strictly higher confidence replaces a stored code, so ties keep the earliest code |
| Rules.DeduplicateKeysDistinct | testing.py:601-609 | the dictionary's values have pairwise distinct keys |
| Rules.BusinessRulesFromInput | testing.py:585-612 | every code the rules return was in their input |
| Rules.BusinessRulesFromRefined | testing.py:587-609 | every returned code survived Rules 1 and 2 |
| Rules.BusinessRulesGroupsDistinct | testing.py:601-610 | no two returned codes share category and first three characters |
| Rules.BusinessRulesProcedureFloor | testing.py:596-598 | every returned non-E&M code has confidence above 0.5 |
| Rules.BusinessRulesCover | testing.py:600-609 | for every code that passed Rules 1 and 2, the result holds a code of the same group with at least its confidence |
| Rules.BusinessRulesEvaluationIsTop | testing.py:589-594 | a returned E&M code is the first most confident E&M input code |
| Rules.BusinessRulesSingleEvaluation | testing.py:589-594 | the result holds at most one E&M code |
| Rules.BusinessRulesKeepsEvaluation | testing.py:589-610 | when the input holds an E&M code, the first most confident one is returned |
| Rules.BusinessRulesEarliestOnTies | testing.py:604-607 | a returned code comes no later than any code of its group that is at least as confident |
| Rules.BusinessRulesOrder | testing.py:609-610 | the result is sorted highest first; codes of equal confidence keep the dictionary's insertion order |
| Reporting.Words | testing.py:644 | `text.split()`: the maximal runs of non-whitespace characters, in order; its properties are stated by `Reporting.WordsAreWords`, `Reporting.WordsOfJoin` and `Reporting.JoinWordsOfCollapse` |
| Reporting.TakeWord | testing.py:644 | the first word is a whitespace-free prefix, ending at whitespace or at the end of the text |
| Reporting.WordsAreWords | testing.py:644 | `str.split()` yields only non-empty whitespace-free words |
| Reporting.WordsOfJoin | testing.py:644 | splitting words joined by single spaces gives the words back |
| Reporting.WordsAppend | testing.py:644 | splitting a text at a whitespace character splits its words there |
| Reporting.WordsOfStrip | testing.py:644 | stripping a text does not change its words |
| Reporting.JoinWordsOfCollapse | testing.py:552-557 | the collapse, stripped, is the text's words joined by single spaces |
| Reporting.WordsReplaceCollapse | testing.py:552-555 | blanking disallowed characters before or after the collapse gives the same words |
| Reporting.WordsOfCleanText | testing.py:546-557 | the cleaned note has the words of the lower-cased note with its disallowed characters blanked |
| Reporting.ComplexityScore | testing.py:647-652 | the number of the seven indicators that occur in the lower-cased note; its properties are stated by `Reporting.ComplexityScoreProperties` |
| Reporting.EstimatedComplexity | testing.py:657 | the label for an indicator count; its properties are stated by `Reporting.EstimatedComplexityLevels` |
| Reporting.AnalyzeNoteComplexity | testing.py:642-658 | the word count, the indicator count and the label of the raw note; the word count is stated by `Reporting.AnalyzeNoteComplexityCounts` |
| Reporting.GenerateRecommendations | testing.py:660-676 | the four conditional messages in the source's order; their properties are stated by `Reporting.RecommendationsExact` and `Reporting.RecommendationsOrdered` |
| Reporting.CountPresent | testing.py:652 | the number of indicators present never exceeds the number of indicators |
| Reporting.CountPresentRange | testing.py:652 | the count is 0 exactly when no indicator occurs, and full exactly when all occur |
| Reporting.CountPresentMonotone | testing.py:652 | a note that contains another counts at least as many indicators |
| Reporting.ComplexityScoreProperties | testing.py:647-652 | the indicator count lies in 0..7, is 0 exactly when no indicator occurs in the lower-cased note, and does not drop for a note that contains the text |
| Reporting.EstimatedComplexityLevels | testing.py:657 | the label is High exactly at count ≥ 3, Moderate at 1–2, Low at 0, and never falls as the count rises |
| Reporting.AnalyzeNoteComplexityCounts | testing.py:644-656 | the word count of words joined by spaces is the number of words |
| Reporting.RecommendationsExact | testing.py:660-676 | each of the four messages appears exactly under its condition (no codes; two or more indicators and no 99284/99285; no E&M code; a code below 0.6), and there are at most four |
| Reporting.RecommendationsOrdered | testing.py:660-676 | every message is one of the four, and they come in the source's order, so each appears at most once |
| Reporting.RecommendationsWithoutCodes | testing.py:662-676 | with no codes the messages are the no-codes one, then the high-complexity one when two or more indicators occur, then the no-E&M one |
| Reporting.Round3 | testing.py:632 | `round(x, 3)`: a multiple of 0.001 within 0.0005 of the confidence |
| Reporting.ReportedCodes | testing.py:627-635 | one report entry per code, in order |
| Reporting.HighestConfidence | testing.py:638 | 0 for no codes; otherwise the confidence of some code, at least that of every code |
| Reporting.DetailsOf | testing.py:621-640 | the report as a function of the extracted codes and the raw note; its properties are stated by `Reporting.DetailsOfCodes` and `Extraction.ExtractionReport` |
| Reporting.DetailsOfCodes | testing.py:626-637 | the report lists each code with its code, description and category and a rounded confidence, and its total is the number of codes |
| Extraction.CompileTable | testing.py:506-509 | `_compile_patterns` as a function on the table; its properties are stated by `Extraction.CompileTableProperties` |
| Extraction.CompileTableProperties | testing.py:506-509 | compilation keeps every entry's code, description, category, keywords and patterns; stores one compiled pattern per pattern with the same matches; and is idempotent |
| Extraction.Candidates | testing.py:525-536 | the scored table entries above 0.3, in table order; its properties are stated by `Extraction.CandidatesAreFiltered` and `Extraction.CandidatesMembers` |
| Extraction.ExtractCodes | testing.py:511-544 | `extract_cpt_codes` as a function of table and note; its properties are stated by the `ExtractCodes` lemmas |
| Extraction.CandidatesAreFiltered | testing.py:525-536 | the candidate loop gives exactly the scored table entries above 0.3, in table order |
| Extraction.CandidatesMembers | testing.py:527-536 | a record is a candidate exactly when it is a table entry with its code, description and category, scored above 0.3 |
| Extraction.ExtractCodesFromTable | testing.py:511-544 | every extracted code is a table entry scored against the cleaned note, with confidence in (0.3, 1], and above 0.5 unless it is an E&M code |
| Extraction.ExtractCodesShape | testing.py:539-544 | the extracted codes are sorted highest first, hold at most one E&M code, and no two of them share a group |
| Extraction.ExtractCodesOfBlankNote | testing.py:511-544 | a note that cleans to nothing yields no codes, when no keyword is empty and no pattern matches the empty text |
| Extraction.HighestOfSorted | testing.py:638 | for a sorted list the highest confidence is that of the first code |
| Extraction.ExtractionReport | testing.py:614-676 | the report's highest confidence is the first code's; the no-codes message appears exactly when nothing was extracted; with a table without E&M entries the no-E&M message always appears |
| Extraction.Extractor.constructor | testing.py:23-504 | `__init__` stores the table with its patterns compiled |
| Extraction.Extractor.CompilePatterns | testing.py:506-509 | every entry gets its compiled patterns, and nothing else in the table changes |
| Extraction.Extractor.CalculateConfidence | testing.py:559-583 | the two counting loops compute the confidence formula |
| Extraction.Extractor.ApplyBusinessRules | testing.py:585-612 | Rules 1–3 and the final sort compute the business rules |
| Extraction.Extractor.KeepBestPerGroup | testing.py:600-609 | the loop over `seen_categories` returns the dictionary's values, in insertion order, which is the order of first occurrence (`Rules.ScanOrder`) |
| Extraction.Extractor.ExtractCptCodes | testing.py:511-544 | cleaning, the scoring loop, the sort and the rules compute the extraction |
| Extraction.Extractor.ExtractWithDetails | testing.py:614-640 | the report is built from the extracted codes and the analysis of the raw note |

## Left out

- The regular-expression engine (`re.compile`, `pattern.search`) is a parameter of the extractor: a predicate on pattern text and note text. The model proves nothing about which pattern matches which note.
- Character classes are ASCII only. `str.lower()` maps only `A`–`Z`. `\s` has Python's ASCII whitespace set. `\w` is letters, digits and `_`. A non-ASCII character is treated as disallowed. Unicode case mapping and Unicode classes are left out.
- Confidence is an exact rational, not an IEEE double. A comparison with 0.3, 0.5 or 0.6 can therefore differ at the exact boundary, where the source's rounded quotient falls on the other side.
- Scoring.PatternsAloneOverInclusion: holds for exact rationals only. In doubles, three of four patterns give `0.75 * 0.4 == 0.30000000000000004`, which is above 0.3, so the source includes such a code while the model does not. 14 of the 74 shipped entries have four patterns.
- Reporting.Round3: states only the bound and the grid of `round(x, 3)`. It rounds halves to even on the exact value, while Python rounds the binary double.
- The clinical contents of the code table are not part of this model. The table is the constructor's argument. That the shipped table has no E&M entry appears only as the premise of `Extraction.ExtractionReport`.
- The absence of duplicate codes in the table follows in the source from the dictionary. Here it is not assumed.
- `_compile_patterns` mutates each definition's dictionary, which the table shares by reference. Here definitions are immutable values and the table field is reassigned, so aliasing of definitions is not modelled.
- A definition without compiled patterns reads the same as one whose `compiled_patterns` key is missing (`.get('compiled_patterns', [])`). Both are an empty `compiled` list.
- The `text` parameter of `_apply_business_rules` is accepted and ignored, as in the source.
- The report's `category` is the enumeration member, not its `.value` string. The six strings are distinct, so nothing is lost. `highest_confidence` for no codes is 0 as a real, not the integer `0`.
- The demo function `test_extractor`, its printed output and the unused `json` import are left out.
