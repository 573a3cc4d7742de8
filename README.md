# HCC condition extraction — a verified model

This project models the deterministic text pipeline of the HCC extractor. It
turns a clinical progress note into condition records flagged as relevant to
Hierarchical Condition Categories (HCC).

- **Section locators** find the Assessment / Plan text of a note:
  - `extract_assessment_plan` in `utils/regex/regex_utils.py`;
  - the last-occurrence variant in `test2.py` and `utils/extras/test2.py`;
  - the line scan of `run_hcc_extractor_v0`;
  - the note loader's `parse_note_sections` and `extract_assessment_plan`;
  - the app's `extract_assessment_plan_section`.
- **Block splitters** cut that text into numbered condition entries:
  - `extract_each_plan`, a partition of lines at their start lines;
  - the note loader's three patterns, where the one with the most blocks wins;
  - the single-block fallback of `note_processor`.
- **Code matchers** find ICD-10-shaped codes:
  - the first-match matcher of `utils/extras/test2.py`;
  - the per-line scanners of `test1.py` and `utils/relevantHCCcodes.py`;
  - the code-format validator and the text branch of `ConditionOutputParser.parse`.
- **Normalisation and HCC validation.** `normalize_code` removes dots and
  upper-cases. The lookup set holds two forms of every table code, and each
  condition is tested against both forms. The table codes come from
  `load_hcc_codes` and `convert_txt_to_json`, which get their rows and lines as
  input.
- **Condition post-processing.** `extract_conditions_with_regex` has two
  pattern tiers and a last-resort tier. It works with the fallback rule of
  `condition_extractor`.
- **`merge_conditions`**, the keyed reducer of the agent state.

There is one Dafny module per source file, plus five shared modules:

- `Text`: Python string semantics, covering `split`, `splitlines`, `strip`,
  `lstrip`, `join`, `in`, `replace` of one character, ASCII `upper` and
  `str(int)`. White space is Python's `str.isspace` set.
- `Lists`: maps, filters and first/last searches over sequences.
- `Wrappers`: `Option`, a raised-or-returned `Outcome`, and an argument that is
  or is not a string, for the source's `isinstance` guards.
- `Records`: the condition records.
- `CodeShapes`: the two ICD-10 code shapes that several files share.

## How the source's operations are modelled

- **Pure functions.** Code that only computes is written as Dafny functions,
  with lemmas beside them.
- **Loops.** Each loop that updates variables is a method with a `while` loop.
  Its postcondition ties the result to a specification function, and the
  source's promises are then proved about that function.
- **`note_processor`.** It updates the note in place, so the note is a class,
  `NoteProcessing.ProgressNote`.
- **Regular expressions.** Each pattern is written out as a matcher that
  follows Python's backtracking rules: greedy and lazy repetition, the
  leftmost start, and `$` without `MULTILINE`. The doc comment of each matcher
  explains how it reads the pattern.
- **Patterns taken as parameters.** Three patterns have nested,
  backtracking-heavy groups: `extraction.py`:99 and :102, and
  `extract_conditions.py`:33. Their match lists are parameters, and the
  post-processing around them is verified.
- **The language model.** Its answer is an input value, so every branch the
  answer feeds is modelled.

### Edge cases of the code

- **`extract_each_plan` on a text with no numbered line** returns no blocks
  (`RegexUtils.EachPlanCount`).
- **The `N)` marker of `extract_each_plan`** never matches. Its `)`
  alternative needs leading white space, which the earlier `lstrip` has
  removed (`RegexUtils.PlanStartOfStrippedLine`).
- **The heading search in `regex_utils.extract_assessment_plan`** looks for
  the literal "Assessment / Plan" followed by a blank line, with case
  respected.
- **The fallback heading** differs between files. In `run_hcc_extractor_v0`
  it is the first line that holds "Assessment" together with "Plan" or "/".
  In the regex utilities it is a line holding "Assessment / Plan" itself.
- **`regex_utils.match_icd10_codes`** fails for every string (see Findings).
  The working first-match function is the one in `utils/extras/test2.py`.
- **The lookup table** is a set of codes. Validation copies the code (not
  normalised), the name and the data of each condition unchanged, and sets
  only `is_hcc`.
- **Both forms of every code** go into the lookup set: the normalised one and
  the upper-cased one, even when the two are equal.

## Model

| member | source | states |
|---|---|---|
| Codes.NormalizeCode | packages/workflows/hcc_extractor/v0/__init__.py:13-15 | the normalised code holds no '.' and is as long as the code with its dots removed |
| Codes.UpperKeepsDot | packages/workflows/hcc_extractor/v0/__init__.py:15 | upper-casing neither creates nor removes a '.' |
| Codes.RemoveDotUpperCommute | packages/workflows/hcc_extractor/v0/__init__.py:15 | removing the dots and upper-casing commute |
| Codes.NormalizeIdempotent | packages/workflows/hcc_extractor/v0/__init__.py:13-15 | normalising a normalised code changes nothing |
| Codes.NormalizeDotFree | packages/workflows/hcc_extractor/v0/__init__.py:15 | a code without '.' normalises to its upper-case form |
| Codes.NormalizeViaUpper | packages/workflows/hcc_extractor/v0/__init__.py:15 | two codes equal after upper-casing are equal after normalising |
| Codes.NormalizeExample | packages/workflows/hcc_extractor/v0/__init__.py:13-15 | "K21.9" and "k219" both normalise to "K219" |
| Codes.RemoveDotExample | packages/workflows/hcc_extractor/v0/__init__.py:15 | removing '.' from "K21.9" gives "K219" |
| Codes.BuildLookupSet | packages/workflows/hcc_extractor/v0/__init__.py:39-45 | the loop of `add` calls builds exactly the set of both forms (normalised and upper-cased) of every loaded code: each form is in it, and every member is one of them |
| Codes.LookupSetSnoc | packages/workflows/hcc_extractor/v0/__init__.py:40-45 | one more loaded code adds exactly its normalised and its upper-cased form |
| Codes.LookupSetMembers | packages/workflows/hcc_extractor/v0/__init__.py:39-45 | the set holds both forms of every loaded code and nothing else |
| Codes.IsHccIffSameNormalForm | packages/workflows/hcc_extractor/v0/__init__.py:83-85 | the two-form membership test holds exactly when the code's normal form equals the normal form of some loaded code |
| Codes.EmptyTableNoHcc | packages/workflows/hcc_extractor/v0/agent/nodes/condition/validation.py:158-167 | with no loaded codes no code passes the two-form test |
| Codes.UpperIdempotent | packages/workflows/hcc_extractor/v0/__init__.py:15 | upper-casing twice is upper-casing once |
| Codes.UpperAppend | packages/workflows/hcc_extractor/v0/__init__.py:15 | upper-casing is done character by character |
| Codes.HeadDotUpper | packages/workflows/hcc_extractor/v0/__init__.py:15 | for one character, removing '.' and upper-casing commute |
| Codes.NormalizedSnoc | packages/workflows/hcc_extractor/v0/__init__.py:40-44 | one more code adds exactly its normal form to the set of normal forms |
| Codes.UpperSnoc | packages/workflows/hcc_extractor/v0/__init__.py:40-45 | one more code adds exactly its upper-case form to the set of upper-case forms |
| HccExtractorV0.HeaderIndex | packages/workflows/hcc_extractor/v0/__init__.py:66-67 | the index found is the first line holding "Assessment" together with "Plan" or "/"; none is found only when no line does |
| HccExtractorV0.FindSection | packages/workflows/hcc_extractor/v0/__init__.py:62-69 | the search loop with its `break` returns the lines after the first header line joined with "\n", or nothing |
| HccExtractorV0.SectionRoundTrip | packages/workflows/hcc_extractor/v0/__init__.py:65-68 | a non-empty section split at "\n" gives back exactly the lines after the first header line |
| HccExtractorV0.NoHeaderNoSection | packages/workflows/hcc_extractor/v0/__init__.py:64-72 | a note with no header line gives no section |
| HccExtractorV0.RunHccExtractorV0 | packages/workflows/hcc_extractor/v0/__init__.py:56-203 | with the fallback switched on and a non-empty section, the result is the regex conditions validated against the lookup set; otherwise the agent's result; after an agent failure, the inline pattern-only extraction validated, or [] when no section was found |
| HccExtractorV0.ValidateConditions | packages/workflows/hcc_extractor/v0/__init__.py:76-94 | the validation loop yields one validated record per condition, in order |
| HccExtractorV0.ValidatedWithMeaning | packages/workflows/hcc_extractor/v0/__init__.py:77-94 | each record copies code, name and data unchanged, and is flagged exactly when the normal form of its code is that of some loaded code |
| Validation.ValidateAll | packages/workflows/hcc_extractor/v0/agent/nodes/condition/validation.py:175-198 | one validated record per raw condition, in order, each the condition validated against the set |
| Validation.ConditionValidator | packages/workflows/hcc_extractor/v0/agent/nodes/condition/validation.py:131-198 | empty input gives []; otherwise one record per condition with code, name and data copied; a non-empty pre-built set is used as given, else each flag holds exactly when the code's normal form is that of some loaded code |
| Validation.NoCodesNoHcc | packages/workflows/hcc_extractor/v0/agent/nodes/condition/validation.py:158-186 | with no codes and no pre-built set, no condition is flagged |
| LoadHccCodes.CodeColumn | packages/workflows/hcc_extractor/v0/utils/load_hcc_codes.py:162-167 | the column is the first header name when a header exists and lacks 'ICD-10-CM Codes', and 'ICD-10-CM Codes' otherwise; with a header it is always one of its names |
| LoadHccCodes.LoadHccCodesFrom | packages/workflows/hcc_extractor/v0/utils/load_hcc_codes.py:150-179 | the loop over the rows returns exactly the codes the file gives: [] for a missing or unreadable file, else the collected codes or [] once a row raises |
| LoadHccCodes.RaisedStaysRaised | packages/workflows/hcc_extractor/v0/utils/load_hcc_codes.py:170-179 | a row that raises ends the read with [] whatever rows follow |
| LoadHccCodes.RowsCodesMeaning | packages/workflows/hcc_extractor/v0/utils/load_hcc_codes.py:170-179 | the read fails exactly when some row raises; otherwise it yields the stripped non-empty cells of the code column, in row order |
| LoadHccCodes.LoadedCodesMeaning | packages/workflows/hcc_extractor/v0/utils/load_hcc_codes.py:150-179 | a missing or unreadable file gives []; a raising row gives [], discarding what was collected; otherwise the stripped non-empty code cells in row order |
| LoadHccCodes.LoadedCodesStripped | packages/workflows/hcc_extractor/v0/utils/load_hcc_codes.py:171-175 | every loaded code is non-empty and equal to its own strip |
| CsvDict.LineEntry | utils/convertCSVtoDictionary.py:14-23 | a line gives an entry exactly when its stripped text holds a ','; the description of an entry holds no '"' |
| CsvDict.ConvertLines | utils/convertCSVtoDictionary.py:12-23 | the line loop builds exactly the dictionary of the entries, later lines overwriting earlier ones |
| CsvDict.CollectFromLast | utils/convertCSVtoDictionary.py:12-23 | every stored value is that of the last line giving the key |
| CsvDict.CollectKeys | utils/convertCSVtoDictionary.py:20-23 | every line with two fields or more puts its key in the dictionary |
| CsvDict.CollectValues | utils/convertCSVtoDictionary.py:20-23 | every stored value comes from some line's entry for that key |
| CsvDict.ConvertedMeaning | utils/convertCSVtoDictionary.py:12-23 | each key maps to the description of the last line with that key; every line with two fields or more puts its key in; no stored description holds '"' |
| RegexUtils.PrimaryPlan | utils/regex/regex_utils.py:22-29 | no plan exactly when "Assessment / Plan\n\n" never occurs; a plan is the text from the end of the first occurrence to the first later "\n\nReturn to Office" or the end of the text |
| RegexUtils.PrimaryPlanRoundTrip | utils/regex/regex_utils.py:22-29 | the text is something, then the opening literal, then the plan, then either nothing or text starting with "\n\nReturn to Office" |
| RegexUtils.FirstHeadingLine | utils/regex/regex_utils.py:36-39 | the index is that of the first line holding "Assessment / Plan"; none only when no line holds it |
| RegexUtils.FindHeadingLine | utils/regex/regex_utils.py:33-39 | the search loop with its `break` finds the first line holding "Assessment / Plan" |
| RegexUtils.ExtractAssessmentPlan | utils/regex/regex_utils.py:3-59 | the method returns what the specification function gives for every input, strings and non-strings |
| RegexUtils.AssessmentPlanPrimary | utils/regex/regex_utils.py:25-29 | when the opening literal occurs the result is the span the pattern matches |
| RegexUtils.AssessmentPlanFallback | utils/regex/regex_utils.py:31-55 | otherwise the result is the lines after the first heading line joined with "\n", and splitting it gives back exactly those lines |
| RegexUtils.FirstHeadingAt | utils/regex/regex_utils.py:36-39 | a heading line with none before it is the one the loop stops at |
| RegexUtils.AssessmentPlanErrors | utils/regex/regex_utils.py:16-59 | a non-string, a missing heading line and a heading on the last line each give their "Error occurred: " string |
| RegexUtils.ErrorStringsArePrefixed | utils/regex/regex_utils.py:57-59 | every error string begins "Error occurred: " |
| RegexUtils.CollectStarts | utils/regex/regex_utils.py:73-77 | the loop collects the indices of exactly the lines that open an entry, in order |
| RegexUtils.CutBlocks | utils/regex/regex_utils.py:80-88 | the loop cuts one entry per start index, from it to the next start or the end |
| RegexUtils.ExtractEachPlan | utils/regex/regex_utils.py:61-90 | the method returns the specification's entries for every text |
| RegexUtils.LStripShape | utils/regex/regex_utils.py:64 | a left-stripped line starts with no whitespace and still holds no line boundary |
| RegexUtils.StrippedLines | utils/regex/regex_utils.py:64 | every line after line 64 is left-stripped |
| RegexUtils.PlanLinesMeaning | utils/regex/regex_utils.py:64-71 | the splitter's lines are the left-stripped non-blank lines of the text, each left-stripped and non-blank |
| RegexUtils.PlanStartOfStrippedLine | utils/regex/regex_utils.py:74-77 | a stripped line opens an entry exactly when it is digits, '.', then a whitespace character: the ')' alternative cannot fire |
| RegexUtils.BlockShape | utils/regex/regex_utils.py:80-88 | entry k split at "\n" is its run of lines, which opens with a start line and holds no other |
| RegexUtils.EachPlanBlock | utils/regex/regex_utils.py:61-90 | each entry is a run of left-stripped non-blank lines that opens with, and holds only one, start line |
| RegexUtils.EachPlanCount | utils/regex/regex_utils.py:75-88 | there are as many entries as start lines, and none exactly when no line opens an entry |
| RegexUtils.JoinBlocksFrom | utils/regex/regex_utils.py:80-88 | the entries from k on, joined with "\n", are the lines from start k on, joined |
| RegexUtils.EachPlanJoin | utils/regex/regex_utils.py:80-88 | the joined entries reproduce the normalised text from the first start line |
| RegexUtils.EachPlanOfEmpty | utils/regex/regex_utils.py:61-90 | the empty text has no entries |
| RegexUtils.PlanLinesOfPlanLines | utils/regex/regex_utils.py:64-71 | normalising text already made of plan lines gives the same lines |
| RegexUtils.BlocksFromFirstStart | utils/regex/regex_utils.py:80-88 | lines before the first start line do not change the entries |
| RegexUtils.EachPlanIdempotent | utils/regex/regex_utils.py:61-90 | splitting the joined entries again gives the same entries |
| RegexUtils.MatchIcd10CodesAsWrittenFails | utils/regex/regex_utils.py:105-112 | the function as written raises for every input: TypeError for a non-string and UnboundLocalError for any string |
| RegexUtils.MatchIcd10CodesMeaning | utils/regex/regex_utils.py:105-114 | the corrected function raises exactly for a non-string or a text without a match; otherwise it returns the non-empty list of matches, each an ICD-10-shaped code occurring in the text, the first being the leftmost |
| RegexUtils.MatchIcd10CodesExample | utils/regex/regex_utils.py:108-110 | on the COPD entry the corrected function returns "J44.9" first |
| RegexUtils.SpanRoundTrip | utils/regex/regex_utils.py:22-28 | the text after the opening literal up to the closing one is a plan the text holds |
| RegexUtils.RejoinSuffix | utils/regex/regex_utils.py:32-39 | lines without a line break, joined from k on and split again, come back |
| RegexUtils.BlockEnd | utils/regex/regex_utils.py:71-90 | entry k ends at the next start or after the last line |
| RegexUtils.FilterAfterResplit | utils/regex/regex_utils.py:64-67 | dropping blank lines after a join and re-split at line boundaries drops the same lines as before |
| RegexUtils.FilteredArePlanLines | utils/regex/regex_utils.py:67 | the non-blank stripped lines are plan lines |
| RegexUtils.ResplitPlanLines | utils/regex/regex_utils.py:67-71 | plan lines come back from joining and `splitlines()` |
| RegexUtils.BlockResplit | utils/regex/regex_utils.py:71-90 | an entry joined with "\n" splits back into its lines |
| RegexUtils.BlockOpensOnce | utils/regex/regex_utils.py:71-90 | within an entry only its first line opens an entry |
| RegexUtils.BlockOfPlanLines | utils/regex/regex_utils.py:71-90 | the same, for any plan lines |
| RegexUtils.StartsOfRest | utils/regex/regex_utils.py:71-90 | the entry starts of the lines from the first start on are the starts shifted down |
| RegexUtils.BlocksShift | utils/regex/regex_utils.py:71-90 | dropping the lines before the first start leaves the entries as they were |
| RegexUtils.BlockShift | utils/regex/regex_utils.py:71-90 | the same for one entry |
| Icd10.TailEnd | utils/extras/test2.py:52 | the greedy `[0-9A-TV-Z]{0,4}` takes at most four tail characters and stops only at the limit, the end or a non-tail character |
| Icd10.CodeAt | utils/extras/test2.py:52 | a match starting at i is 3 to 8 characters of ICD-10 shape; none starts there exactly when the first three characters do not fit |
| Icd10.FindAllCodes | utils/extras/test2.py:56 | every element of `findall` is an ICD-10-shaped code that occurs in the text |
| Icd10.FirstMatchFrom | utils/extras/test2.py:56 | the position found is the leftmost at or after i where a match starts; none only when no match starts |
| Icd10.FindAllFirst | utils/extras/test2.py:56-58 | `findall` is empty exactly when no match starts, and its first element is the match at the leftmost start |
| Icd10.MatchIcd10CodeMeaning | utils/extras/test2.py:49-60 | a non-string raises TypeError and a string never raises; the code returned is the leftmost match, ICD-10-shaped and 3 to 8 long; None only when no match starts anywhere |
| Icd10.FirstCodeMeaning | utils/extras/test2.py:56-58 | the first element of `findall`, if any, is the leftmost match, ICD-10-shaped and 3 to 8 long |
| Icd10.LeftmostAt | utils/extras/test2.py:52-58 | a match at j with no match before it is the leftmost match |
| Icd10.CopdExample | tests/utils/regex/test_regex_utils.py:23-26 | on the last lines of the COPD entry the code is "J44.9": "O2-" in "SPO2" is no match |
| Icd10.DiabetesExample | utils/extras/test2.py:62-70 | on the last lines of the diabetes entry the code is "E11.65" |
| Icd10.CopdMatchAt | tests/utils/regex/constants.py:52-55 | in the last lines of the COPD entry a code of five characters starts at index 9 |
| Icd10.CopdNoEarlierMatch | tests/utils/regex/constants.py:52-55 | no match starts before index 9 there: the "O2-" of "SPO2" does not fit the third-character class |
| Icd10.CopdCode | tests/utils/regex/constants.py:55 | those five characters are "J44.9" |
| Icd10.DiabetesMatchAt | utils/extras/test2.py:67-68 | in the last lines of the diabetes entry a code of six characters starts at index 5 |
| Icd10.DiabetesNoEarlierMatch | utils/extras/test2.py:67 | no match starts before it |
| Icd10.DiabetesCode | utils/extras/test2.py:68 | those six characters are "E11.65" |
| Test2.LastHeadingLine | test2.py:20-23 | the index kept is that of the last line holding "Assessment / Plan"; none only when no line holds it |
| Test2.LastHeadingAt | test2.py:21-23 | a heading line with none after it is the one the loop keeps |
| Test2.FindLastHeadingLine | test2.py:20-23 | the loop without `break` keeps the index of the last heading line |
| Test2.ExtractAssessmentPlan | test2.py:8-30 | the method returns, or raises, what the specification function gives |
| Test2.PrimaryRuleShared | test2.py:9-17 | when the opening literal occurs the result is the primary rule's span, the same as the regex helper's |
| Test2.FallbackRaises | test2.py:19-24 | with no heading line the fallback raises TypeError (None + 1), and only then |
| Test2.FallbackLast | test2.py:19-30 | otherwise the result is the lines after the last heading line joined with "\n": splitting it gives back those lines, and a heading on the last line gives "" |
| Test2.FallbackValue | test2.py:24-28 | the value returned is the lines after the kept index joined with "\n" |
| Test2.AgreesWithFirstHeading | test2.py:19-30 | with a single heading line, not the last, the result is the regex helper's |
| RelevantCodes.LettersEnd | utils/relevantHCCcodes.py:25 | the run of ASCII letters for `[A-Za-z]+` ends at the first non-letter |
| RelevantCodes.LabelCodeEnd | utils/relevantHCCcodes.py:25-35 | a match of `^\s*[A-Za-z]+\d+(\.\d+)?:` at the line start ends at a ':' after white space, letters, digits and, when a '.' follows them, more digits |
| RelevantCodes.ExtractCodes | utils/relevantHCCcodes.py:21-44 | the loop returns what the specification function gives |
| RelevantCodes.ExtractCodesMeaning | utils/relevantHCCcodes.py:21-44 | the error string exactly when no line starts with a code label; every code is letters then digits, the code of such a line, and every such line gives its code |
| RelevantCodes.ScanLabels | utils/relevantHCCcodes.py:34-44 | the same, for a list of lines |
| RelevantCodes.LabelShaped | utils/relevantHCCcodes.py:25 | a matching line splits into white space, letters, digits, and an optional '.' with digits, then ':' |
| RelevantCodes.CodeLineMeaning | utils/relevantHCCcodes.py:35-39 | the cleaned match of a line is its letters and digits followed by the digits after the '.', with the white space, '.' and ':' dropped |
| RelevantCodes.LineCodeShape | utils/relevantHCCcodes.py:25 | that code is letters followed by digits |
| RelevantCodes.CleanOfShaped | utils/relevantHCCcodes.py:37-39 | cleaning the match of a split line gives its letters, digits and fractional digits |
| RelevantCodes.PartsOfShaped | utils/relevantHCCcodes.py:25 | the match is white space, a letters-digits word, an optional '.', the fractional digits and ':', none of the pieces holding ':' or '.' |
| RelevantCodes.CodeShape | utils/relevantHCCcodes.py:25 | the code has no white space at either end and is letters then digits |
| RelevantCodes.ShapeOf | utils/relevantHCCcodes.py:25 | letters, then digits, then more digits is a letters-then-digits code |
| RelevantCodes.CleanOfParts | utils/relevantHCCcodes.py:37-39 | removing ':' and '.' and stripping takes the word and the fractional digits out of the match |
| RelevantCodes.StripOfIndentedPair | utils/relevantHCCcodes.py:39 | `strip()` removes the white space in front of two joined pieces |
| RelevantCodes.NoColon | utils/relevantHCCcodes.py:37 | pieces with no ':' have none when joined |
| RelevantCodes.DropDot | utils/relevantHCCcodes.py:38 | removing '.' drops the separator and nothing else |
| RelevantCodes.LettersEndAt | utils/relevantHCCcodes.py:25 | the run of letters ends where the letters stop |
| RelevantCodes.DigitsAt | utils/relevantHCCcodes.py:25 | a run of digits found in the line is made of digit characters |
| RelevantCodes.PlainLabel | utils/relevantHCCcodes.py:25-39 | a line that starts `<letter><digits>:` gives its code unchanged |
| RelevantCodes.DottedLabel | utils/relevantHCCcodes.py:25-39 | a line that starts `<letter><digits>.<digits>:` gives the code without its '.' |
| RelevantCodes.FibromyalgiaLine | utils/relevantHCCcodes.py:11-39 | "M79.7: Fibromyalgia" gives "M797" |
| RelevantCodes.HypertensionLine | utils/relevantHCCcodes.py:17-39 | "I10: Essential (primary) hypertension" gives "I10" |
| RelevantCodes.WordBeforeCodeRejected | utils/relevantHCCcodes.py:18-35 | "Essential E10: (primary) hypertension" does not match: the pattern is anchored at the line start |
| RelevantCodes.NumberedHeadingRejected | utils/relevantHCCcodes.py:12-35 | "        2.        Hypertension -" does not match |
| RelevantCodes.Text1Codes | utils/relevantHCCcodes.py:4-44 | `extract_codes(text1)` returns exactly ["M797", "I10"]: of the fifteen lines of `text1` only the two that open with a code label match |
| RelevantCodes.ExtractOfFifteen | utils/relevantHCCcodes.py:29-44 | fifteen break-free lines of which only the eighth and the fourteenth match give those two cleaned matches |
| RelevantCodes.ExtractOfTwoHits | utils/relevantHCCcodes.py:29-44 | break-free lines of which exactly two match give the cleaned matches of those two, in order |
| RelevantCodes.WordFirst | utils/relevantHCCcodes.py:25-35 | a line opening with a word that no digit follows does not match |
| RelevantCodes.NoLetterFirst | utils/relevantHCCcodes.py:25-35 | an empty line, or one opening with neither white space nor a letter, does not match |
| Test1.CodeSearch | test1.py:20-32 | the leftmost match of `[A-Z]\d+\.?(\d+)?` searched anywhere in the line, which is a letter, digits and an optional '.' with more digits |
| Test1.ExtractCode | test1.py:12-43 | the loop returns what the specification function gives |
| Test1.CodeSearchMeaning | test1.py:32 | the search finds nothing exactly when no index starts a match, and otherwise it finds the match at the first index where one starts |
| Test1.CleanLooseCode | test1.py:36-38 | a matched code loses only its '.' in cleaning and comes out as an upper-case letter and digits |
| Test1.LooseCodeNoColon | test1.py:36 | a match holds no ':', so removing ':' does nothing to it |
| Test1.DottedCodeDigits | test1.py:37 | dropping the '.' of a dotted code leaves a letter and digits |
| Test1.UpperDigitsThenDigits | test1.py:20 | a letter and digits followed by more digits is a letter and digits |
| Test1.ExtractCodeMeaning | test1.py:12-43 | the error string exactly when no line holds a match; otherwise every code is a letter and digits, the match of some line with its '.' dropped |
| Test1.ScanCodes | test1.py:30-43 | the same, for a list of lines |
| Test1.SpoLineCode | test1.py:7-38 | "SPO2-98%" gives "O2": the search finds the 'O' of "SPO2" |
| Test1.CopdLineCode | test1.py:8-38 | "J44.9: Chronic" gives "J44.9", cleaned to "J449" |
| Test1.CopdLineSearch | test1.py:8-32 | the search in "J44.9: Chronic" finds "J44.9" |
| Test1.CopdClean | test1.py:36-38 | "J44.9" is cleaned to "J449" |
| Test1.PlaceholderLineCode | test1.py:9-38 | "X79XXXA" gives "X79" |
| Test1.EmptyLineCode | test1.py:13-32 | an empty line has no match |
| Test1.SplitOfFive | test1.py:6-13 | the sample text splits into an empty line, its three lines and an empty line |
| Test1.JoinOfFive | test1.py:6-10 | joining those five lines gives the sample text back |
| Test1.SampleCodes | test1.py:6-45 | `extract_code` of the sample returns ["O2", "J449", "X79"] |
| Test1.SampleLinesUnbroken | test1.py:7-9 | none of the three sample lines holds a line break |
| Test1.ExtractOfThree | test1.py:12-43 | a text of three lines between empty ones, each with a match, gives the three cleaned matches in order |
| Test1.ScanOfThree | test1.py:30-38 | the scan of those five lines is the three cleaned matches |
| Test1.ScanOfFive | test1.py:30-38 | the scan of five lines of which the middle three match |
| LineScan.ScanHit | test1.py:33-38 | a line with a match appends its cleaned match |
| LineScan.ScanMiss | test1.py:32-33 | a line without a match adds nothing |
| LineScan.ScanMisses | test1.py:32-33 | a run of lines without a match adds nothing |
| LineScan.ScanOfTwoHits | utils/relevantHCCcodes.py:33-39 | lines of which exactly two match scan to those two cleaned matches, in order |
| Extraction.PunctEnd | packages/workflows/hcc_extractor/v0/agent/nodes/condition/extraction.py:121 | the run of `[\).\s-]` characters ends at the first other character |
| Extraction.RemoveOrdinal | packages/workflows/hcc_extractor/v0/agent/nodes/condition/extraction.py:121 | `re.sub(r"^\d+[\).\s-]+", "", line)` keeps a suffix of the line |
| Extraction.RemoveOrdinalNoDigit | packages/workflows/hcc_extractor/v0/agent/nodes/condition/extraction.py:121 | a line that does not start with a digit is left alone |
| Extraction.RemoveOrdinalPrefix | packages/workflows/hcc_extractor/v0/agent/nodes/condition/extraction.py:121 | an ordinal prefix of digits and punctuation is removed, and exactly it |
| Extraction.PunctEndAt | packages/workflows/hcc_extractor/v0/agent/nodes/condition/extraction.py:121 | the punctuation run ends where the punctuation stops |
| Extraction.CleanedFree | packages/workflows/hcc_extractor/v0/agent/nodes/condition/extraction.py:121 | a character absent from a line is absent from its cleaned form |
| Extraction.KeptLinesFrom | packages/workflows/hcc_extractor/v0/agent/nodes/condition/extraction.py:117-123 | every kept line is non-empty and stripped, the cleaned form of a block line holding neither the name nor the code |
| Extraction.KeptLinesHas | packages/workflows/hcc_extractor/v0/agent/nodes/condition/extraction.py:118-123 | every block line holding neither the name nor the code whose cleaned form is non-empty is kept |
| Extraction.KeptLinesFree | packages/workflows/hcc_extractor/v0/agent/nodes/condition/extraction.py:117-123 | kept lines taken from lines without a character are without it |
| Extraction.EmptyNameKeepsNothing | packages/workflows/hcc_extractor/v0/agent/nodes/condition/extraction.py:119 | an empty name occurs in every line, so no line is kept |
| Extraction.CollectDataLines | packages/workflows/hcc_extractor/v0/agent/nodes/condition/extraction.py:117-123 | the loop keeps exactly the lines the specification function keeps |
| Extraction.JoinNonEmpty | packages/workflows/hcc_extractor/v0/agent/nodes/condition/extraction.py:125 | a join whose first piece is non-empty is non-empty |
| Extraction.ConditionDataRoundTrip | packages/workflows/hcc_extractor/v0/agent/nodes/condition/extraction.py:116-129 | the condition data is never empty: it is the generic message when no line is kept, and otherwise splitting it at "\n" gives back the kept lines |
| Extraction.ConditionOf | packages/workflows/hcc_extractor/v0/agent/nodes/condition/extraction.py:111-135 | the loop body returns the condition of the specification function |
| Extraction.MatchConditions | packages/workflows/hcc_extractor/v0/agent/nodes/condition/extraction.py:111-135 | the loop over the matches returns one condition per match, in order |
| Extraction.LineStart | packages/workflows/hcc_extractor/v0/agent/nodes/condition/extraction.py:145-146 | the start of the line holding j: no "\n" between it and j, and a "\n" just before it |
| Extraction.LineStop | packages/workflows/hcc_extractor/v0/agent/nodes/condition/extraction.py:145-146 | the first "\n" at or after j, or the end |
| Extraction.LineWithCode | packages/workflows/hcc_extractor/v0/agent/nodes/condition/extraction.py:145-149 | the line search gives a line without "\n" that holds the code, and fails only when the text does not hold the code |
| Extraction.LineAround | packages/workflows/hcc_extractor/v0/agent/nodes/condition/extraction.py:145-149 | the line around an occurrence of the code holds all of it |
| Extraction.NameStop | packages/workflows/hcc_extractor/v0/agent/nodes/condition/extraction.py:151 | the group `[^-\n]+` reaches up to the first '-' or "\n" |
| Extraction.SeparatorEnd | packages/workflows/hcc_extractor/v0/agent/nodes/condition/extraction.py:151 | the separator `\s*[-]*\s*` ends at or after the name |
| Extraction.NameSearch | packages/workflows/hcc_extractor/v0/agent/nodes/condition/extraction.py:151-152 | the name search returns the leftmost start at which the group can be followed by the separator and the code; the group holds no '-' or "\n"; none only when no start works |
| Extraction.SliceWithout | packages/workflows/hcc_extractor/v0/agent/nodes/condition/extraction.py:151 | a slice whose characters differ from c does not hold c |
| Extraction.LastResortName | packages/workflows/hcc_extractor/v0/agent/nodes/condition/extraction.py:150-158 | a found name holds no '-' or line break and is stripped; otherwise the name is "Condition with code " and the code |
| Extraction.DottedCodeNoNewline | packages/workflows/hcc_extractor/v0/agent/nodes/condition/extraction.py:140 | a dotted code holds no line break |
| Extraction.TextCodes | packages/workflows/hcc_extractor/v0/agent/nodes/condition/extraction.py:140-141 | the codes found are dotted codes that occur in the text, none with a line break |
| Extraction.LastResortOnePerCode | packages/workflows/hcc_extractor/v0/agent/nodes/condition/extraction.py:143-165 | one condition per code found, in order, with that code and the data "Extracted from assessment plan" |
| Extraction.LastResort | packages/workflows/hcc_extractor/v0/agent/nodes/condition/extraction.py:138-165 | the loop returns the last-resort conditions of the codes found in the text |
| Extraction.LastResortStep | packages/workflows/hcc_extractor/v0/agent/nodes/condition/extraction.py:143-165 | one turn of the loop keeps its invariant |
| Extraction.LastResortUnfold | packages/workflows/hcc_extractor/v0/agent/nodes/condition/extraction.py:143-165 | the conditions of the remaining codes are the next code's condition followed by the rest |
| Extraction.Found | packages/workflows/hcc_extractor/v0/agent/nodes/condition/extraction.py:148-165 | a code whose line is found adds one condition, otherwise none |
| Extraction.ExtractConditionsWithRegex | packages/workflows/hcc_extractor/v0/agent/nodes/condition/extraction.py:86-167 | the method returns what the specification function gives |
| Extraction.PatternTierShape | packages/workflows/hcc_extractor/v0/agent/nodes/condition/extraction.py:104-135 | when a pattern matches, there is one condition per match, with the stripped code and name and non-empty data |
| Extraction.PatternTierFromText | packages/workflows/hcc_extractor/v0/agent/nodes/condition/extraction.py:98-135 | for matches shaped as patterns 1 and 2 produce them (group 1 a piece of the text opening with digits, group 2 a non-empty run without '-' or newline, group 3 a dotted code inside group 1), each pattern condition's code is its match's code, a dotted code occurring in the text, and its name occurs in the text and holds neither '-' nor a newline |
| Extraction.LastResortTierShape | packages/workflows/hcc_extractor/v0/agent/nodes/condition/extraction.py:137-165 | when neither pattern matches, there is one condition per dotted code of the text, with that code and the data "Extracted from assessment plan" |
| Extraction.ConditionExtractor | packages/workflows/hcc_extractor/v0/agent/nodes/condition/extraction.py:16-84 | no blocks give no conditions; the language model's conditions when there are any; otherwise the regex fallback on the assessment plan |
| States.Codes | packages/workflows/hcc_extractor/v0/agent/schemas/states.py:49-66 | the codes of a list of records, one per record, in order |
| States.IndexOf | packages/workflows/hcc_extractor/v0/agent/schemas/states.py:54 | the place of a code among the dictionary's keys, its first; none only when the code is not a key |
| States.MergeConditions | packages/workflows/hcc_extractor/v0/agent/schemas/states.py:34-66 | the loop returns the merged list of the specification function |
| States.DedupMembers | packages/workflows/hcc_extractor/v0/agent/schemas/states.py:49 | the keys by first appearance are exactly the codes seen, no more of them than records |
| States.DedupUnique | packages/workflows/hcc_extractor/v0/agent/schemas/states.py:49 | no key appears twice |
| States.PutCodes | packages/workflows/hcc_extractor/v0/agent/schemas/states.py:49-63 | storing a record keeps its key where it is, or appends a new key; an update by a new condition leaves the keys as storing does |
| States.BuildDictCodes | packages/workflows/hcc_extractor/v0/agent/schemas/states.py:49 | the keys of the dictionary comprehension are the codes of `existing` by first appearance |
| States.MergeAllCodes | packages/workflows/hcc_extractor/v0/agent/schemas/states.py:52-63 | the loop appends the codes not yet seen, by first appearance |
| States.DedupAppend | packages/workflows/hcc_extractor/v0/agent/schemas/states.py:49-63 | the keys of a list and then more codes are the first list's keys followed by the unseen codes |
| States.DedupSnoc | packages/workflows/hcc_extractor/v0/agent/schemas/states.py:49 | one more code is kept exactly when it has not been seen |
| States.MergedCodes | packages/workflows/hcc_extractor/v0/agent/schemas/states.py:34-66 | the merged list's codes are those of both lists by first appearance, each once, exactly the codes of either list, and no more records than the two lists hold |
| States.PutUnique | packages/workflows/hcc_extractor/v0/agent/schemas/states.py:49-63 | storing or merging a record keeps the keys unique |
| States.LastDuplicateWins | packages/workflows/hcc_extractor/v0/agent/schemas/states.py:49 | among records of `existing` with one code the last is the one stored |
| States.BuildDictUnique | packages/workflows/hcc_extractor/v0/agent/schemas/states.py:49 | the dictionary's keys are unique |
| States.MergeAllKnown | packages/workflows/hcc_extractor/v0/agent/schemas/states.py:52-60 | a stored record keeps its place and code; its empty name and data are filled from the first new record with its code that has them |
| States.FillFromStep | packages/workflows/hcc_extractor/v0/agent/schemas/states.py:52-60 | one new record moves the filling one step along the list |
| States.KnownCodeKept | packages/workflows/hcc_extractor/v0/agent/schemas/states.py:49-60 | in the merged list, each record of `existing` keeps its code and flag, its name and data if non-empty, and otherwise takes the first non-empty ones the new conditions give for its code |
| States.NewCodeEnters | packages/workflows/hcc_extractor/v0/agent/schemas/states.py:61-63 | a new condition whose code is unseen enters the list, filled from the later new conditions with its code |
| NoteLoader.HeadRunEnd | packages/framework/document_loaders/note_loader/__init__.py:37 | the run of `[A-Za-z\/\s]` ends at the first other character |
| NoteLoader.HeaderLineIff | packages/framework/document_loaders/note_loader/__init__.py:37-48 | a line is a header exactly when a non-empty run of letters, '/' and white space is followed by '-' or ':' and then only white space |
| NoteLoader.FirstAlternativeNeverFires | packages/framework/document_loaders/note_loader/__init__.py:37-48 | the alternative `^([A-Za-z\/\s]+)$\n` needs a "\n", which no split line holds, so it never matches |
| NoteLoader.BarePlanHeadingIsContent | packages/framework/document_loaders/note_loader/__init__.py:37-48 | a bare "Assessment / Plan" line has no '-' or ':' and is content, not a header |
| NoteLoader.NoSeparatorNoHeader | packages/framework/document_loaders/note_loader/__init__.py:37-48 | a line with neither '-' nor ':' is never a header |
| NoteLoader.Segments | packages/framework/document_loaders/note_loader/__init__.py:42-59 | the loop always has an open section |
| NoteLoader.NoteSegments | packages/framework/document_loaders/note_loader/__init__.py:42-59 | the same, with the note's header test and naming |
| NoteLoader.SegmentsStep | packages/framework/document_loaders/note_loader/__init__.py:46-59 | a header line opens a new empty section with its name; another line is appended to the open section |
| NoteLoader.KeywordEnd | packages/framework/document_loaders/note_loader/__init__.py:68 | a keyword found at j ends after j |
| NoteLoader.LongBranchShadowed | packages/framework/document_loaders/note_loader/__init__.py:68 | wherever "assessment & plan" occurs, the earlier alternative "assessment" matches first |
| NoteLoader.HeuristicPlan | packages/framework/document_loaders/note_loader/__init__.py:68-71 | the heuristic finds nothing exactly when no keyword occurs; otherwise it is the stripped text after the keyword up to the first blank line or the end, at the leftmost keyword |
| NoteLoader.HeuristicNoBlankLine | packages/framework/document_loaders/note_loader/__init__.py:68-71 | the heuristic section never holds "\n\n" |
| NoteLoader.CloseView | packages/framework/document_loaders/note_loader/__init__.py:49-63 | closing the open section gives the dictionary of the sections so far |
| NoteLoader.LoopStep | packages/framework/document_loaders/note_loader/__init__.py:46-59 | one turn of the loop moves the state along the sections |
| NoteLoader.TakeLine | packages/framework/document_loaders/note_loader/__init__.py:46-59 | the loop body on one line: a header stores the content and opens a named section, another line is appended |
| NoteLoader.NoteStep | packages/framework/document_loaders/note_loader/__init__.py:46-59 | the same with the note's header test and naming |
| NoteLoader.ParseNoteSections | packages/framework/document_loaders/note_loader/__init__.py:26-73 | the method returns what the specification function gives |
| NoteLoader.RecordSections | packages/framework/document_loaders/note_loader/__init__.py:42-63 | the loop returns the dictionary of the note's sections |
| NoteLoader.PartitionHeader | packages/framework/document_loaders/note_loader/__init__.py:48-55 | a header line starts a new section at its index |
| NoteLoader.PartitionContent | packages/framework/document_loaders/note_loader/__init__.py:57-59 | a content line is appended to the last section |
| NoteLoader.PartitionContentHeader | packages/framework/document_loaders/note_loader/__init__.py:43-59 | the same while no header has been seen, in the "Header" section |
| NoteLoader.PartitionContentLater | packages/framework/document_loaders/note_loader/__init__.py:57-59 | the same after a header |
| NoteLoader.GrowLast | packages/framework/document_loaders/note_loader/__init__.py:59 | appending to the last section keeps the others |
| NoteLoader.LastSectionGrown | packages/framework/document_loaders/note_loader/__init__.py:57-59 | the partition holds after appending to the last section |
| NoteLoader.SegmentsSpan | packages/framework/document_loaders/note_loader/__init__.py:40-59 | the sections partition the lines at the header lines: each header line opens one section holding the lines up to the next header |
| NoteLoader.RecordKeys | packages/framework/document_loaders/note_loader/__init__.py:49-63 | a name is a key exactly when some section with it has content |
| NoteLoader.RecordValue | packages/framework/document_loaders/note_loader/__init__.py:51-63 | the value of a name is the stripped join of its last section with content |
| NoteLoader.LoadProgressNoteMeaning | packages/framework/document_loaders/note_loader/__init__.py:8-71 | the raw content is kept; the plan is the last "Assessment / Plan" section with content; without one, the heuristic result when no "Assessment" section has content, and "" otherwise |
| NoteLoader.FirstPresent | packages/framework/document_loaders/note_loader/__init__.py:86-88 | the first of the five plan names that is a key; none only when none is |
| NoteLoader.ExtractAssessmentPlan | packages/framework/document_loaders/note_loader/__init__.py:75-91 | the loop with its early return gives what the specification function gives |
| NoteLoader.AssessmentPlanOfMeaning | packages/framework/document_loaders/note_loader/__init__.py:75-91 | "" when none of the five names is a key, and otherwise the value of the first that is |
| NoteLoader.LookupAgreesWithLoader | packages/framework/document_loaders/note_loader/__init__.py:75-91 | when "Assessment / Plan" is a key, the lookup and the loader agree on the plan |
| NoteLoader.SeparatorEnd | packages/framework/document_loaders/note_loader/__init__.py:106-112 | the marker of a numbered entry ('.', ')' or `\s*-`) ends after the digits |
| NoteLoader.MarkerEnd | packages/framework/document_loaders/note_loader/__init__.py:106-112 | an entry starts with a digit after the leading white space |
| NoteLoader.BlockEndFrom | packages/framework/document_loaders/note_loader/__init__.py:106-112 | the lazy `.*?` stops at the first place where the next entry or the end follows |
| NoteLoader.GroupStartAt | packages/framework/document_loaders/note_loader/__init__.py:106-112 | a group is found at `p` exactly when `^` (at the text start) or a newline at `p` opens a line that continues with `\s*`, digits and the marker; the group then starts at the first digit after the leading white space |
| NoteLoader.NumberedBlocks | packages/framework/document_loaders/note_loader/__init__.py:106-117 | every block `re.findall` returns for a numbered pattern is non-empty, starts with a digit, and is the text of one entry opening a line at or after the search start: from its first digit to the first later place where a newline opens the next entry or the text ends |
| NoteLoader.DigitHeadedCons | packages/framework/document_loaders/note_loader/__init__.py:115-117 | a digit-headed block in front of digit-headed blocks keeps them all digit-headed |
| NoteLoader.ContinuationEnd | packages/framework/document_loaders/note_loader/__init__.py:130 | the continuation lines end at or after the code line |
| NoteLoader.LineCodeUpper | packages/framework/document_loaders/note_loader/__init__.py:130 | a line holding a code holds an upper-case letter |
| NoteLoader.IcdGroupStartAt | packages/framework/document_loaders/note_loader/__init__.py:130 | a group found by the ICD pattern starts a line that holds a code |
| NoteLoader.IcdBlocks | packages/framework/document_loaders/note_loader/__init__.py:130-131 | every block the ICD pattern finds holds an upper-case letter |
| NoteLoader.UpperCons | packages/framework/document_loaders/note_loader/__init__.py:130-131 | a block with an upper-case letter in front of such blocks keeps them all so |
| NoteLoader.MostBlocksWins | packages/framework/document_loaders/note_loader/__init__.py:119-125 | the kept list is at least as long as each of the three, the first on ties, the second only when longer than the first |
| NoteLoader.ConditionBlocksClean | packages/framework/document_loaders/note_loader/__init__.py:133-134 | every block returned is non-empty and its own `strip()` |
| NoteLoader.ConditionBlocksSource | packages/framework/document_loaders/note_loader/__init__.py:114-134 | when a numbered pattern finds blocks, the longest list is returned stripped; the ICD pattern is used only when all three find none |
| NoteLoader.IcdFallbackKeepsAll | packages/framework/document_loaders/note_loader/__init__.py:130-134 | no block of the ICD pattern is dropped for being blank |
| NoteLoader.TwoEntriesEnds | packages/framework/document_loaders/note_loader/__init__.py:106 | in "1. a\n2. b" the first entry ends before the "\n" and the second at the end |
| NoteLoader.TwoEntriesExample | packages/framework/document_loaders/note_loader/__init__.py:106-115 | "1. a\n2. b" gives the blocks "1. a" and "2. b" |
| NoteLoader.TwoEntriesFirst | packages/framework/document_loaders/note_loader/__init__.py:106-115 | the first block of that text is "1. a" |
| NoteLoader.TwoEntriesSecond | packages/framework/document_loaders/note_loader/__init__.py:106-115 | the second block of that text is "2. b" |
| NoteLoader.TwoEntriesSlices | packages/framework/document_loaders/note_loader/__init__.py:106 | the slices of that text are its two entries |
| NoteLoader.EmptyFirstEntryEnd | packages/framework/document_loaders/note_loader/__init__.py:106 | in "1.\n2. b" the lazy `.*?` cannot stop before "\n2.", since `\s*` after "1." takes that "\n" |
| NoteLoader.EmptyFirstEntryExample | packages/framework/document_loaders/note_loader/__init__.py:106-115 | "1.\n2. b" gives a single block holding both entries |
| NoteProcessing.ProgressNote.constructor | packages/workflows/hcc_extractor/v0/agent/nodes/note/processing.py:104-106 | a note holds its raw content, plan and blocks |
| NoteProcessing.NoteProcessor | packages/workflows/hcc_extractor/v0/agent/nodes/note/processing.py:91-155 | the same note object comes back with its raw content unchanged and its plan and blocks those of the specification function |
| NoteProcessing.LoadedPlanNeedsNoModel | packages/workflows/hcc_extractor/v0/agent/nodes/note/processing.py:108-139 | a loaded plan is kept, counts as present and the model's answer does not matter; the blocks are never empty |
| NoteProcessing.BlockFallbackChain | packages/workflows/hcc_extractor/v0/agent/nodes/note/processing.py:108-141 | with a plan present the blocks are the splitter's when it finds some, else the model's when it was asked and gave some, else the plan alone; without a plan there are no blocks |
| NoteProcessing.SplitterBlocksClean | packages/workflows/hcc_extractor/v0/agent/nodes/note/processing.py:127-131 | the blocks the splitter contributes are non-empty and stripped |
| AppExtract.LabelRunEnd | apps/hcc_extractor_app/methods/extract_conditions.py:19 | the run of `[A-Za-z\s]*` ends at the first other character |
| AppExtract.SectionEndFrom | apps/hcc_extractor_app/methods/extract_conditions.py:19-26 | the lazy `(.*?)` stops at the first place where the end or a "\n", white space, a capitalised label and ':' follow |
| AppExtract.HeadingTail | apps/hcc_extractor_app/methods/extract_conditions.py:19-26 | after the heading, `\s*(?::\|$)` ends past a ':' or at the very end |
| AppExtract.HeadingEnd | apps/hcc_extractor_app/methods/extract_conditions.py:19-26 | a heading found at j ends after j |
| AppExtract.TierSection | apps/hcc_extractor_app/methods/extract_conditions.py:19-30 | a tier finds nothing exactly when no heading occurs; otherwise its result is the stripped span after the leftmost heading up to its first section end |
| AppExtract.ConcatEmpty | apps/hcc_extractor_app/methods/extract_conditions.py:38-42 | the joined matches are empty exactly when every match is empty |
| AppExtract.ExtractAssessmentPlanSection | apps/hcc_extractor_app/methods/extract_conditions.py:8-45 | the method returns what the specification function gives |
| AppExtract.AssessmentPlanSectionMeaning | apps/hcc_extractor_app/methods/extract_conditions.py:8-45 | the first tier wins; then the second; then the stripped join of the numbered matches when it is non-empty; None exactly when all three fail; a result is always stripped |
| AppExtract.NumberedTierMeaning | apps/hcc_extractor_app/methods/extract_conditions.py:32-45 | when neither heading matches and every match text is a piece of the note holding `\d+\.` and '-', None comes back exactly when there are no matches; otherwise the section is the stripped join of the matches and is never empty |
| AppExtract.SectionStopsAtLabel | apps/hcc_extractor_app/methods/extract_conditions.py:19-26 | the section found holds no label line start before its end |
| AppExtract.SlashExampleHeading | apps/hcc_extractor_app/methods/extract_conditions.py:19 | in "Assessment & Plan: DM" the heading ends after the ':' |
| AppExtract.SlashExampleWords | apps/hcc_extractor_app/methods/extract_conditions.py:19 | the heading words sit where the pattern reads them, case ignored |
| AppExtract.SlashExampleSpaces | apps/hcc_extractor_app/methods/extract_conditions.py:19 | the white space and the ':' sit where the pattern reads them |
| AppExtract.SlashExampleEnd | apps/hcc_extractor_app/methods/extract_conditions.py:19 | the section of the example runs to the end |
| AppExtract.SlashExampleStrip | apps/hcc_extractor_app/methods/extract_conditions.py:23 | the section stripped is "DM" |
| AppExtract.SlashExampleSection | apps/hcc_extractor_app/methods/extract_conditions.py:19-23 | "Assessment & Plan: DM" gives "DM" |
| AppExtract.ConditionBlocksMeaning | apps/hcc_extractor_app/methods/extract_conditions.py:47-62 | one block per numbered match, none dropped; the k-th block is the stripped text of an "N." entry that opens a line, running from its first digit to where the next `\n\s*N.` starts or the text ends; each block is non-empty, stripped and starts with the digit its match starts with |
| AppExtract.AgreesWithLoader | apps/hcc_extractor_app/methods/extract_conditions.py:58-62 | when the period-numbered pattern finds the most blocks, the app's splitter and the note loader's agree |
| OutputParser.ValidateCodeFormatMeaning | packages/framework/output_parsers/condition_output_parser.py:17-23 | the validator accepts exactly a code of `[A-Z]\d+\.?\d*`, optionally followed by one "\n" (which `$` allows), and returns it unchanged; otherwise it raises ValueError naming the value |
| OutputParser.LooseCodeOfPrefix | packages/framework/output_parsers/condition_output_parser.py:21 | a code followed by a "\n" reads as the same code |
| OutputParser.CodeKeyEnd | packages/framework/output_parsers/condition_output_parser.py:63 | a code key found at j ends after j |
| OutputParser.CodeMatchAt | packages/framework/output_parsers/condition_output_parser.py:63-68 | a code found after a key starts after j and is a code of the loose shape |
| OutputParser.TextCodes | packages/framework/output_parsers/condition_output_parser.py:63-68 | every code `re.findall` returns has the loose shape and occurs in the text |
| OutputParser.CodesCons | packages/framework/output_parsers/condition_output_parser.py:68 | a code occurring in the text in front of such codes keeps them all so |
| OutputParser.NameKeyEnd | packages/framework/output_parsers/condition_output_parser.py:64 | a name key found at j ends after j |
| OutputParser.DataKeyEnd | packages/framework/output_parsers/condition_output_parser.py:65 | a data key found at j ends after j |
| OutputParser.ParagraphEnd | packages/framework/output_parsers/condition_output_parser.py:65 | the paragraph ends at or after its start |
| OutputParser.LineValue | packages/framework/output_parsers/condition_output_parser.py:64-75 | the value after a name key is absent exactly when no non-newline character follows |
| OutputParser.ParagraphValue | packages/framework/output_parsers/condition_output_parser.py:65-76 | the value after a data key is absent exactly when no non-newline character follows |
| OutputParser.NameMatch | packages/framework/output_parsers/condition_output_parser.py:64-75 | the name search finds nothing exactly when no key starts a match; otherwise it is the value at the leftmost key |
| OutputParser.DataMatch | packages/framework/output_parsers/condition_output_parser.py:65-76 | the data search finds nothing exactly when no key starts a match; otherwise it is the value at the leftmost key |
| OutputParser.Entries | packages/framework/output_parsers/condition_output_parser.py:71-82 | one entry per code, the i-th built from the i-th code |
| OutputParser.ParseText | packages/framework/output_parsers/condition_output_parser.py:60-84 | the loop returns what the specification function gives |
| OutputParser.TextConditionsMeaning | packages/framework/output_parsers/condition_output_parser.py:60-84 | one condition per code found, in order; each code passes the validator; every condition takes the first name match, or "Condition i+1", and the first data match, or "" |
| OutputParser.JsonSpan | packages/framework/output_parsers/condition_output_parser.py:46 | `\[.*\]` with DOTALL spans from the first '[' to the last ']'; none when no '[' comes before a ']' |
| OutputParser.CheckFrom | packages/framework/output_parsers/condition_output_parser.py:50-53 | the validation loop passes iff every item holds the three keys; it raises TypeError iff a number, null or boolean item comes before any incomplete item, and ValueError iff an incomplete non-scalar item comes first |
| OutputParser.ParseMeaning | packages/framework/output_parsers/condition_output_parser.py:33-84 | the decoded list is returned exactly when the span decodes to a list whose items all hold the three keys; TypeError escapes exactly when a scalar item comes before any incomplete one; otherwise the text entries |
| OutputParser.NumberItemRaises | packages/framework/output_parsers/condition_output_parser.py:46-56 | "see [1]", whose span decodes to `[1]`, makes `parse` raise TypeError |
| OutputParser.NoBracketNoJson | packages/framework/output_parsers/condition_output_parser.py:46-47 | a text without '[' never reaches the decoder |
| CodeShapes.DottedCodeAt | packages/workflows/hcc_extractor/v0/agent/nodes/condition/extraction.py:140 | a match of `[A-Z]\d+\.\d+` at i is at least four characters and starts with an upper-case letter |
| CodeShapes.DottedCodeSlice | packages/workflows/hcc_extractor/v0/agent/nodes/condition/extraction.py:140-141 | a dotted code matched inside a text is a dotted code on its own |
| CodeShapes.DottedCodes | packages/workflows/hcc_extractor/v0/agent/nodes/condition/extraction.py:140-141 | every element of `re.findall` for the dotted-code pattern is a dotted code that occurs in the text |
| CodeShapes.NoCodesWithoutUpper | packages/workflows/hcc_extractor/v0/agent/nodes/condition/extraction.py:140-141 | a text with no upper-case letter yields no codes |
| CodeShapes.LooseCodeAt | test1.py:20 | a match of `[A-Z]\d+\.?(\d+)?` at i is at least an upper-case letter and a digit |
| CodeShapes.LooseCodeSlice | test1.py:20-32 | a code matched inside a text is a code of that shape on its own |
| CodeShapes.DottedIsLoose | packages/workflows/hcc_extractor/v0/agent/nodes/condition/extraction.py:140 | every dotted code has the looser shape too |
| LineScan.ScanStep | utils/relevantHCCcodes.py:34-39 | one line more appends that line's cleaned match when it has one, and nothing otherwise |
| LineScan.ScanMeaning | utils/relevantHCCcodes.py:34-44 | the error string comes back exactly when no line matches; every code is the cleaned match of some line, and every matching line's cleaned match is among the codes |
| LineScan.CleanDotted | utils/relevantHCCcodes.py:37-39 | cleaning a match with one '.' and no ':' or white space joins the two sides of the '.' |
| LineScan.StripOfTrimmed | utils/relevantHCCcodes.py:39 | `strip()` leaves a string with no white space at either end as it is |
| LineScan.StripOfIndented | utils/relevantHCCcodes.py:39 | `strip()` removes exactly the white space in front of such a string |
| Text.RemoveChar | packages/workflows/hcc_extractor/v0/__init__.py:15 | `replace(c, "")` leaves no c, never lengthens, and leaves a string without c as it is |
| Text.RemoveCharAppend | packages/workflows/hcc_extractor/v0/__init__.py:15 | removing a character distributes over joined strings |
| Text.StripEmptyIffBlank | utils/regex/regex_utils.py:67 | `strip()` gives "" exactly for blank input |
| Text.StripProperties | utils/regex/regex_utils.py:67 | the result of `strip()` has no white space at either end, and stripping again changes nothing |
| Text.Split | utils/regex/regex_utils.py:32 | `split(sep)` always gives at least one piece |
| Text.JoinSplit | utils/regex/regex_utils.py:32-39 | joining the pieces of a split with the separator gives the string back |
| Text.SplitJoin | utils/regex/regex_utils.py:32-39 | splitting a join of pieces without the separator gives the pieces back |
| Text.SplitCount | utils/regex/regex_utils.py:32 | `split(sep)` gives two or more pieces exactly when the separator occurs |
| Text.SplitOfFree | utils/regex/regex_utils.py:32 | a string without the separator splits into itself alone |
| Text.SplitLines | utils/regex/regex_utils.py:64 | no piece of `splitlines()` holds a line boundary |
| Text.SplitLinesJoin | utils/regex/regex_utils.py:64-71 | `splitlines()` of pieces joined with "\n" gives them back, but for an empty last piece |
| Text.FindFrom | packages/workflows/hcc_extractor/v0/__init__.py:66-67 | `find` gives the first index at or after `from` where the substring occurs; none only when it occurs nowhere there |
| Text.ContainsIff | packages/workflows/hcc_extractor/v0/__init__.py:66-67 | the `in` test on strings holds exactly when the substring occurs |
| Text.NatToString | packages/framework/output_parsers/condition_output_parser.py:75 | the decimal form of a number is non-empty and all digits |

## Left out

- The language model, the agent graph and its invocation are not modelled: `call_llm`, the prompt templates and the LangGraph wiring. Their results are inputs: `Extraction.LlmResult`, `NoteProcessing.ProcessedNote`, and the agent outcome of `HccExtractorV0.RunHccExtractorV0`.
- Logging, `print` and the `USE_FALLBACK_EXTRACTION` environment read are not modelled. The flag is a boolean parameter.
- File and directory I/O is not modelled:
  - `csv.DictReader` and `Path.exists` in `load_hcc_codes`: the header, the rows and the file's presence are inputs;
  - the file reading and `json.dump` of `convert_txt_to_json`: its lines are an input;
  - the module-level reads of `utils/relevantHCCcodes.py`, `test2.py` and `utils/extras/test2.py`.
- `is_icd10_an_hcc` and `check_key_in_json` only read a JSON file. `is_icd10_an_hcc` also uses `json` without importing it, and its test calls it with the wrong number of arguments.
- `find_numbered_lines` calls an `extract_code` that its file does not define, so it is broken code.
- `json.loads` is not modelled. `OutputParser.Parse` takes a decoder as a parameter, which gives either "malformed" or the decoded list. Each item is kept only as far as the `in` test sees it: the keys of an object, the strings of an array, the value of a string, or a scalar (number, `null`, boolean). The values inside a returned item are not modelled.
- `ConditionPydanticParser` and the Pydantic schemas are library behaviour. The schemas appear only as Dafny datatypes.
- The matching of the patterns at `extraction.py`:99 and :102 and `extract_conditions.py`:33 is not modelled. Their match lists are parameters. What each pattern guarantees of a single match is stated as a predicate (`Extraction.MatchShape`, `AppExtract.NumberedMatch`) and required by `Extraction.PatternTierFromText` and `AppExtract.NumberedTierMeaning`. That the lists hold every match, in order and without overlap, is not stated.
- Upper-casing, `\d` and `[A-Za-z]` are ASCII only. `re.IGNORECASE` is modelled as ASCII case folding, so Unicode case mapping is not modelled.
- States.MergeConditions: works on values, so it does not model that `merge_conditions` updates record objects shared with the caller's list.
- Non-string arguments are modelled only where the source checks them with `isinstance` (the two ICD-10 matchers and `regex_utils.extract_assessment_plan`). Elsewhere, arguments are strings.
- The DictReader `restkey` for over-long rows is not modelled. Cells are modelled by their column's value only.
- Test example split into 7 entries: the test expects `constants.plan_section` to split into the 7 entries of `constants.list_of_sections`, and that example is not reproduced, because the literal is too long for the proof. `RegexUtils.EachPlanIdempotent` and `RegexUtils.EachPlanBlock` state the general property.
- Test example excerpts: `Icd10.CopdExample` and `Icd10.DiabetesExample` state the expected codes on the closing lines of the test's entries, not on the whole entries.
- `progress_note_parser.py` asserts: the asserts at `tests/framework/tools/text_processing/progress_note_parser.py`:73-87 do not hold against the code, because a bare "Assessment / Plan" line is not a header there. The model follows the code (`NoteLoader.BarePlanHeadingIsContent`).
- `tests/workflows/hcc_extractor.py` needs the running agent and is not modelled.
- Entry points, retries, time-outs and the template helpers are plumbing and are not modelled: `main.py`, the app, `pipeline.py`, `with_retries.py`, `create_with_retry.py`, `create_with_partial.py` and `parse_and_convert.py`.
- Commented-out earlier versions of functions are not live code and are not modelled.

## Findings

| source | as written | input that shows it | evidently intended | confidence | as-written member | corrected member |
|---|---|---|---|---|---|---|
| utils/regex/regex_utils.py:105-112 | `if matches:` reads `matches` before anything assigns it, so every string argument raises UnboundLocalError | any string, for example the COPD entry "SPO2-98%\nJ44.9: COPD" | `matches = re.findall(pattern, text)` first, then raise TypeError only when the list is empty, otherwise return it | not executed | RegexUtils.MatchIcd10CodesAsWrittenFails | RegexUtils.MatchIcd10CodesMeaning |
