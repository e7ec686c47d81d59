# Bar_qa exam pipeline, modelled in Dafny

Bar_qa turns a scanned multiple-choice exam into one record per question.
`split_pdf.py` cuts the exam PDF into one file per question. Two viewers then read the
question files:

- the PDF-text viewer, `study_app.py`;
- the OCR viewer, `study_app_ocr.py`.

Each viewer does three things with the page text:

- normalises it;
- splits it at the first `Explanation:` into question and explanation;
- extracts the four choices `A.` .. `D.` and the question stem.

The OCR viewer also works out the correct answer. It takes the one label that the
explanation never cites as a wrong "(Choice …)". It keeps that answer, the user's
choices and the per-user progress in small answer files.

This project models that core and proves what it guarantees. The modules follow the
source:

| module | file | models |
|---|---|---|
| `Text` | text.dfy | ASCII character classes; `str.strip`, `re.sub(r'\s+', ' ', …)`, `str.split`/`join`, the first-marker split, `str.replace(p, "")` |
| `Rewrite` | rewrite.dfy | the single `re.sub` passes of the normalisers, as left-to-right scanners with Python's leftmost, non-overlapping semantics |
| `Normalize` | normalize.dfy | `clean_extracted_text`, `clean_ocr_text` |
| `Splitter` | splitter.dfy | both `parse_question_and_explanation` |
| `Cleanup` | cleanup.dfy | the final choice cleanup loops of both extractors |
| `LineScan` | linescan.dfy | the line-scan loops of `extract_choices_ocr` and `extract_choices_from_raw_text` |
| `Tiered` | tiered.dfy | the three-tier `extract_choices` |
| `Stem` | stem.dfy | `clean_question_text`, `clean_question_text_ocr`, the stem loop of `get_cached_question_data` |
| `Inference` | inference.dfy | `find_correct_answer` |
| `Store` | store.dfy | the answer store, the status rules, `update_user_answer`, the sidebar tally, `get_user_answers_file` |
| `Session` | session.dfy | `get_cached_question_data`, including the rule that a stored answer beats an inferred one |
| `Segmenter` | segmenter.dfy | `has_multiple_choice_options` and `split_pdf_by_questions` |

The loops of the source are methods with loop invariants. Most methods are proved equal
to a specification function, and the properties are proved about that function. A few
are specified directly by what they promise:

- `Segmenter.FindQuestionStarts`, by the properties of the start pages it returns;
- the state-changing members `Store.AnswerStore.StoreCorrectAnswer`,
  `Store.AnswerStore.StoreUserChoice`, `Store.UserProgress.UpdateUserAnswer` and
  `Session.QuestionCache.GetCachedQuestionData`, by the new state in terms of the old.

The places that update state are classes:

- the answers file: `Store.AnswerStore`;
- a user's progress file: `Store.UserProgress`;
- the question cache: `Session.QuestionCache`.

## Model

| member | source | states |
|---|---|---|
| Text.Strip | study_app.py:48 | `str.strip()`: the result is trimmed, and it is the slice of the input left when the leading and trailing whitespace is removed |
| Text.Collapse | study_app.py:58 | `re.sub(r'\s+', ' ', s)`: single spaces are the only whitespace left, the result is no longer than the input, and it is empty exactly when the input is |
| Text.CollapseRemoveWs | study_app.py:193 | collapsing whitespace keeps every non-whitespace character in order |
| Text.CollapseWellSpaced | study_app_ocr.py:305 | collapsing a text that is already single-spaced changes nothing |
| Text.Split | study_app.py:74 | `s.split(c)` gives at least one piece, and no piece holds `c` |
| Text.JoinSplit | study_app.py:74 | joining the pieces of `s.split(c)` with `c` gives `s` back |
| Text.Before | study_app.py:47-48 | `s.split(pat)[0]` is a prefix of `s` that holds no `pat` |
| Text.BeforeAfterRoundTrip | study_app.py:47-49 | the text is the part before the first marker, then the marker, then the rest; without a marker the first part is the whole text |
| Text.BeforeIdempotent | study_app_ocr.py:239 | splitting the first part again changes nothing |
| Text.StripNoOccurrence | study_app.py:48 | stripping a text without the marker cannot create one |
| Text.RemoveAll | study_app.py:145 | `str.replace(p, "")` never lengthens the text and brings in no character |
| Text.RemoveAllAbsent | study_app.py:144-145 | a text without the pattern is returned unchanged |
| Text.RemoveAllShrinks | study_app.py:144-145 | a text holding the pattern loses at least the pattern's length |
| Text.FindContains | study_app.py:144 | the first-occurrence search succeeds exactly when the pattern occurs |
| Text.RemoveAllUpTo | study_app.py:145 | the text before the first occurrence is kept as it is |
| Text.RemoveAllFirst | study_app.py:145 | the result is the text before the first occurrence, then the removal applied to what follows that occurrence; with `Text.RemoveAllAbsent` this fixes the result on every input |
| Rewrite.MatchAt | study_app.py:164 | a space-inserting rule matches with its cut strictly inside the match, between two non-whitespace characters |
| Rewrite.Pass | study_app.py:164-207 | one `re.sub(r'(X)(Y)', r'\1 \2', s)`: never shortens the text and keeps its first character |
| Rewrite.PassRemoveWs | study_app.py:164-207 | a space-inserting pass keeps every non-whitespace character in order |
| Rewrite.PassFree | study_app.py:164-207 | a space-inserting pass creates no adjacent pair that was not there, including two adjacent whitespace characters |
| Rewrite.PassOnlySpaces | study_app.py:164-207 | a pass over a text whose only whitespace is spaces keeps it so |
| Rewrite.PassChars | study_app.py:164-207 | a pass brings in no character except the space |
| Rewrite.LowerUpperPassSeparates | study_app.py:164 | afterwards no lower-case letter is directly followed by an upper-case one |
| Rewrite.PunctUpperPassSeparates | study_app.py:167 | afterwards no `.`, `!` or `?` is directly followed by an upper-case letter |
| Rewrite.PassAllPreserves | study_app.py:170-190 | a chain of passes keeps every adjacency freedom, the spaces-only property and the non-whitespace characters |
| Rewrite.BarToI | study_app_ocr.py:158 | every `\|` becomes `I` and nothing else changes |
| Rewrite.ZeroBeforeLetter | study_app_ocr.py:159 | only a `0` can change, and only into `O` |
| Rewrite.ZeroAfterLetter | study_app_ocr.py:160 | only a `0` can change, and only into `o` |
| Rewrite.RnToM | study_app_ocr.py:161 | no `rn` remains; the result is no longer and brings in only `m` |
| Rewrite.OneBetweenLower | study_app_ocr.py:162 | only a `1` can change, and only into `l` |
| Rewrite.OneToLKeepsRnFree | study_app_ocr.py:161-162 | the `1`→`l` repair cannot bring back an `rn` |
| Rewrite.PageMarkerShape | study_app_ocr.py:155 | a marker found at the start is `--- Page `, one or more digits, then ` ---` |
| Rewrite.MarkerSpan | study_app_ocr.py:181 | a match covers the marker; with `[^\n]*\n?` it also covers the rest of the line, which holds no newline |
| Rewrite.RemovePageMarkers | study_app_ocr.py:155 | deleting `--- Page N ---` markers never lengthens the text and brings in no character |
| Rewrite.RemovePageMarkersUpTo | study_app_ocr.py:155 | the text before the first marker is kept as it is |
| Rewrite.RemovePageMarkersFirst | study_app_ocr.py:155 | the result is the text before the first marker, then the removal applied to what follows that marker's match |
| Rewrite.RemovePageMarkersNone | study_app_ocr.py:155 | a text without a marker is unchanged |
| Rewrite.FoldBlankLinesNoNewline | study_app_ocr.py:166 | the blank-line fold is a no-op on a text without newlines |
| Rewrite.CapNewlinesNoNewline | study_app.py:152 | the newline cap is a no-op on a text without newlines |
| Rewrite.JoinBrokenLinesNoNewline | study_app.py:210 | the broken-line join is a no-op on a text without newlines |
| Normalize.CleanExtractedText | study_app.py:158-212 | empty input comes back unchanged; otherwise the output is trimmed and single-spaced with no newline, keeps every non-whitespace character in order, and separates lower→upper and `[.!?]`→upper boundaries |
| Normalize.NewlineJoinIsNoOp | study_app.py:193-210 | the newline join after the whitespace collapse never fires |
| Normalize.CleanOcrText | study_app_ocr.py:149-171 | empty input comes back unchanged; otherwise the output is trimmed and single-spaced with no newline, and holds no `\|`, no `rn` and no `[.!?]` directly before an upper-case letter |
| Splitter.SplitAtMarker | study_app.py:47-49 | both parts are stripped and the question part never holds the marker; without a marker the question is the whole stripped text and the explanation is the placeholder |
| Splitter.FirstMarker | study_app.py:47 | a marker after marker-free text is the first: the split gives that text and everything after the marker |
| Splitter.SplitAtSingleMarker | study_app.py:47-49 | with exactly one marker, the parts are the stripped texts on either side of it |
| Splitter.SplitAtTwoMarkers | study_app.py:47-49 | with two or more markers, the explanation is `parts[1]`: the stripped text between the first and the second marker |
| Splitter.ParseQuestionAndExplanation | study_app.py:41-51 | no parts for a missing or empty text; otherwise the split at the first marker, so the question part holds no marker |
| Splitter.SplitWellSpaced | study_app_ocr.py:143-145 | splitting a single-spaced text gives single-spaced, one-line parts |
| Splitter.ParseQuestionAndExplanationOcr | study_app_ocr.py:134-147 | no parts for a missing or empty text; otherwise both parts are single-spaced and newline-free |
| Splitter.OcrParseIsParseOfCleaned | study_app_ocr.py:140-145 | the OCR parse is the plain split of the cleaned text |
| Cleanup.DropTrailingLabel | study_app.py:114 | removes only a label at the very end together with the whitespace around it; otherwise the value is just stripped |
| Cleanup.DropFromFirstLabel | study_app_ocr.py:224 | on a one-line choice the result is trimmed, no longer than the input, holds no label and only characters of the input; without a label it is the stripped value |
| Cleanup.CleanedChoices | study_app.py:111-117 | keys only shrink, empty values stay, every other survivor is trimmed and at least 3 long, and a value of at least 3 after tidying is kept |
| Cleanup.CleanLetter | study_app.py:112-117 | one loop step: tidy one choice, and delete it when shorter than 3 |
| Cleanup.FinalCleanup | study_app.py:111-117 | the cleanup loop computes exactly the cleaned choices |
| Cleanup.FirstLabelCleanupIdempotent | study_app_ocr.py:221-227 | running the OCR cleanup a second time changes nothing |
| LineScan.ChoiceHead | study_app_ocr.py:254 | `^([A-D])\.\s*(.*)` matches exactly the lines that start with a label; the rest does not start with whitespace |
| LineScan.FlushChoice | study_app_ocr.py:257-260 | the open choice is recorded when its joined text is longer than 3 |
| LineScan.ScanLine | study_app_ocr.py:248-269 | one loop iteration equals the scanner's step function |
| LineScan.ScanChoiceLines | study_app_ocr.py:248-275 | the loop plus the final flush compute the scan's choices |
| LineScan.ScanChoicesWellFormed | study_app_ocr.py:248-275 | keys are labels; texts are trimmed, one line and longer than 3 |
| LineScan.NoHeadsBeforeFirstChoice | study_app_ocr.py:265 | lines before the first labelled line change nothing |
| LineScan.ContinuationLines | study_app_ocr.py:265-269 | with a choice open, non-label lines are appended to it, blank lines skipped |
| LineScan.FinalBlock | study_app_ocr.py:271-275 | the last labelled block is recorded last, when its text is longer than 3 |
| LineScan.SingleChoiceBlock | study_app_ocr.py:248-275 | a preamble followed by one labelled block gives exactly that block's choice |
| LineScan.OneLineAtMostOneChoice | study_app_ocr.py:248-275 | a single line records at most one choice |
| LineScan.RepeatedLabelOverwrites | study_app_ocr.py:257-260 | a later block with the same label replaces the earlier text |
| LineScan.RawTextChoices | study_app_ocr.py:231-277 | nothing for a missing or empty text; otherwise well-formed choices |
| LineScan.ExtractChoicesFromRawText | study_app_ocr.py:231-277 | the method computes the raw-text choices |
| LineScan.RawChoicesIgnoreExplanation | study_app_ocr.py:239 | only the text before the first `Explanation:` is scanned |
| LineScan.OcrChoices | study_app_ocr.py:173-229 | at most one entry; its key is a label and its text is trimmed, at least 3 long and holds no `[A-D].` |
| LineScan.ScanOfOneLine | study_app_ocr.py:184 | a newline-free text is one line, so at most one well-formed choice |
| LineScan.CleanedAtMostOne | study_app_ocr.py:221-227 | the cleanup of at most one choice leaves at most one |
| LineScan.ExtractChoicesOcr | study_app_ocr.py:173-229 | the method computes the OCR choices |
| Tiered.LabelAheadFrom | study_app.py:63 | the lazy group stops at the first place where the lookahead `(?=\s*[A-D]\.\s*\|$)` holds |
| Tiered.Tier1MatchAt | study_app.py:63 | a tier-1 match starts at a label, its text holds no `A`–`D`, and the lookahead holds at its end |
| Tiered.Tier1Matches | study_app.py:63-64 | every `findall` match has a label letter and a text without `A`–`D` |
| Tiered.Tier1 | study_app.py:62-69 | the tier-1 loop computes the tier-1 choices |
| Tiered.Tier1ChoicesLabelled | study_app.py:66-69 | tier-1 choices have label keys and trimmed, non-empty texts without `A`–`D`; there are some only when at least 3 matches were found |
| Tiered.ContinuationEnd | study_app.py:88 | the look-ahead stops at the first blank line or label line |
| Tiered.Tier2Line | study_app.py:84-90 | the `while j` loop computes the choice line's text |
| Tiered.Tier2TextIsJoin | study_app.py:84-90 | a choice's text is its first line's text and the continuation lines, stripped and joined with single spaces, up to a blank or label line |
| Tiered.Tier2 | study_app.py:72-94 | the tier-2 loop computes the tier-2 choices |
| Tiered.Tier2ChoicesLabelled | study_app.py:92-93 | tier-2 choices have label keys and non-empty texts |
| Tiered.Tier3MatchAt | study_app.py:101-102 | a tier-3 match starts at its own label; its text holds neither its letter nor any label, and only characters of the text |
| Tiered.Tier3Search | study_app.py:102 | the leftmost tier-3 match, with the same guarantees |
| Tiered.Tier3CutIsNoOp | study_app.py:104-107 | the cut at line 106 never removes anything, so a choice is the stripped match when longer than 3 |
| Tiered.Tier3 | study_app.py:97-108 | the tier-3 loop computes the tier-3 choices |
| Tiered.Tier3ChoicesShaped | study_app.py:100-108 | tier-3 choices have label keys and trimmed texts longer than 3, without their own letter and without any label |
| Tiered.Selected | study_app.py:66-108 | the result is one of the three tiers: tier 1 when it has at least 3 choices, else tier 2 when it has at least 3, else tier 3, so a result with fewer than 3 is tier 3's; keys are labels and texts non-empty |
| Tiered.ExtractedChoices | study_app.py:53-119 | keys are labels; texts are trimmed and at least 3 long |
| Tiered.Tier1CleanupOnlyFilters | study_app.py:110-117 | on tier-1 choices the final cleanup only drops texts shorter than 3 |
| Tiered.Tier3SurvivesCleanup | study_app.py:110-117 | the final cleanup leaves tier-3 choices unchanged |
| Tiered.ExtractChoices | study_app.py:53-119 | the method computes the extracted choices |
| Stem.StemLines | study_app_ocr.py:335-341 | stem lines are non-empty, trimmed and do not start a choice |
| Stem.FirstChoiceLine | study_app_ocr.py:339 | the first line that starts a choice, if any |
| Stem.StemIsNonBlankPrefix | study_app_ocr.py:335-341 | the stem is the non-blank stripped lines before the first choice line |
| Stem.StemStopsAtFirstChoice | study_app_ocr.py:339-340 | nothing after the first choice line reaches the stem |
| Stem.CollectStemLines | study_app_ocr.py:333-341 | the loop with its `break` computes the stem lines |
| Stem.JoinStem | study_app_ocr.py:343-344 | the joined stem is trimmed and single-spaced; no lines give `""` |
| Stem.FinalQuestion | study_app_ocr.py:331-344 | the display stem is trimmed and single-spaced |
| Stem.OcrQuestionStem | study_app_ocr.py:279-308 | the OCR stem is trimmed and single-spaced |
| Stem.CleanQuestionTextOcr | study_app_ocr.py:279-308 | the method computes the OCR stem |
| Stem.OcrStemIsWholeLine | study_app_ocr.py:281-299 | the cleaned OCR text is one line, so the stem is that line, or nothing when it starts a choice |
| Stem.KeptLines | study_app.py:130-134 | kept lines are trimmed and none starts a choice |
| Stem.KeptLinesDropEveryChoiceLine | study_app.py:130-134 | a choice line drops only itself; the lines after it are still kept |
| Stem.FilterChoiceLines | study_app.py:128-134 | the loop computes the kept lines |
| Stem.RemoveChoiceTexts | study_app.py:140-145 | removing choice texts never lengthens the text and brings in no character |
| Stem.RemoveChoiceTextsAbsent | study_app.py:144 | a text holding none of the choice texts is unchanged |
| Stem.RemoveChoiceTextsFirst | study_app.py:141-145 | a letter whose text occurs has every occurrence removed before the other letters are handled; `Text.RemoveAllFirst` then gives the text before the first occurrence unchanged |
| Stem.RemoveChoiceTextsSkip | study_app.py:141-144 | a letter without a text, with an empty text, or whose text does not occur changes nothing |
| Stem.RemoveFirstChoiceShrinks | study_app.py:141-145 | the text for `A`, when it occurs, goes with at least its own length |
| Stem.WipeMatch | study_app.py:148 | a match starts at a label after a word boundary, runs to the next label or the end, and holds no `.`; when the label and boundary are there and no match is found, a `.` lies before the next label |
| Stem.Wipe | study_app.py:148 | deleting labelled runs never lengthens the text and brings in no character |
| Stem.WipeUpTo | study_app.py:148 | characters where no labelled run matches are kept as they are |
| Stem.WipeFirst | study_app.py:148 | the text before the first labelled run stays, that run goes, and the removal goes on after it |
| Stem.WipeNoLabel | study_app.py:148 | a text without a label is left alone |
| Stem.QuestionStem | study_app.py:121-156 | the stem of the PDF-text viewer is trimmed and single-spaced |
| Stem.CleanQuestionText | study_app.py:121-156 | the method computes that stem |
| Stem.QuestionStemOfPlainText | study_app.py:121-156 | a question with no choice line, label or choice text comes back as its cleaned text |
| Inference.MatchAt | study_app_ocr.py:391 | a match fits in the text, and its captures are characters of the matched span |
| Inference.FindAllComplete | study_app_ocr.py:391 | `findall` returns every match, because a match cannot start inside another one |
| Inference.FindAllSound | study_app_ocr.py:391 | `findall` returns only matches |
| Inference.LabelsInAllIff | study_app_ocr.py:392-401 | a letter is added exactly when it is an upper-case label captured by some match |
| Inference.CitedByIff | study_app_ocr.py:390-401 | a letter is cited exactly when some pattern matches somewhere capturing it |
| Inference.UncitedMembers | study_app_ocr.py:404 | the complement holds exactly the labels no pattern cites |
| Inference.CorrectAnswer | study_app_ocr.py:370-410 | None for a missing or empty explanation; an answer only when the uncited set is exactly that letter, and always then |
| Inference.AddCaptures | study_app_ocr.py:395-397 | the inner loop adds exactly the labels among the captures |
| Inference.FindCorrectAnswer | study_app_ocr.py:370-410 | the nested loops compute the correct answer |
| Inference.CorrectAnswerIsUncitedLabel | study_app_ocr.py:403-410 | the answer is a letter exactly when it is an uncited label and every other label is cited |
| Inference.MatchWhenAllAccept | study_app_ocr.py:391 | a span that fits the pattern is matched, and its letters are captured |
| Inference.ExampleTwoCitations | study_app_ocr.py:381-382 | "(Choice A) is wrong. (Choice B & C) are wrong." gives D |
| Inference.ExampleOneCitation | study_app_ocr.py:381 | "(Choice A)" alone gives no answer |
| Inference.ExampleLowerCaseIgnored | study_app_ocr.py:396 | a lower-case capture under IGNORECASE is not a label, so "(Choice A, B, & C) (Choice d)" gives D |
| Store.Classify | study_app_ocr.py:82-94 | needs an answer unless both fields are set; otherwise correct exactly when they are equal, wrong exactly when they differ |
| Store.ClassifyForUser | study_app_ocr.py:491-506 | needs an answer exactly when there is no record or no choice; correct exactly when the choice equals the recorded correct answer |
| Store.ClassificationsAgree | study_app_ocr.py:82-94 | once both fields are set, the two status rules agree |
| Store.ClassificationsDisagreeWithoutAnswer | study_app_ocr.py:501-506 | a choice without a correct answer needs an answer in the answers file but is wrong in the user view |
| Store.AnswerStore.StoreCorrectAnswer | study_app_ocr.py:61-67 | creates the record if absent and sets only its correct answer; every other question and field is unchanged |
| Store.AnswerStore.StoreUserChoice | study_app_ocr.py:69-75 | creates the record if absent and sets only its choice; every other question and field is unchanged |
| Store.UserProgress.UpdateUserAnswer | study_app_ocr.py:508-523 | nothing without a progress file; otherwise the choice is always set and the correct answer only when a truthy one is given |
| Store.CountStatus | study_app_ocr.py:662-669 | a count never exceeds the number of questions |
| Store.TalliesSumToTotal | study_app_ocr.py:662-669 | the three tallies sum to the number of questions |
| Store.Tally | study_app_ocr.py:662-669 | the loop counts each status, and the counts sum to the total |
| Store.Sanitize | study_app_ocr.py:417 | same length; every character of the result is allowed; a character is kept exactly when it is allowed, and a disallowed one becomes `_` |
| Store.UserAnswersFile | study_app_ocr.py:412-418 | no file exactly when the name is empty |
| Store.UserAnswersFileShape | study_app_ocr.py:412-418 | prefix, sanitised name, suffix; only allowed characters; sanitising twice changes nothing |
| Session.Inferred | study_app_ocr.py:351 | an inferred answer is a single label |
| Session.ResolveCorrectAnswer | study_app_ocr.py:347-351 | a truthy stored answer is used, otherwise the inferred one; any answer is the stored one or a single label `A`–`D` |
| Session.StoredAnswerIsKept | study_app_ocr.py:347-354 | a stored answer is never replaced, and nothing is written back |
| Session.Entry | study_app_ocr.py:326-364 | a fresh entry keeps the raw text, has well-formed choices and a trimmed, single-spaced stem |
| Session.QuestionCache.GetCachedQuestionData | study_app_ocr.py:310-368 | a cached question comes back unchanged; a missing text gives nothing; otherwise the new entry is cached, and the answers file changes only when no answer was stored and one was inferred |
| Segmenter.SearchMarker | split_pdf.py:18-21 | `re.search(r'\bL\.\s', s)` succeeds exactly when such a marker occurs |
| Segmenter.HasMultipleChoiceOptions | split_pdf.py:8-23 | true exactly when all four markers occur, in any order |
| Segmenter.FindQuestionStarts | split_pdf.py:41-53 | the starts are strictly increasing pages of the document; a page is a start exactly when its text was read and shows all four markers |
| Segmenter.BlockBounds | split_pdf.py:58-63 | every block is non-empty and inside the document; each starts right after the one before; the last ends on the last page |
| Segmenter.BlocksPartitionPages | split_pdf.py:43-63 | a page is in some block exactly when it lies between the first start and the last page, and then in only one |
| Segmenter.NatToStringRoundTrip | split_pdf.py:77 | the decimal number in a file name reads back as the number |
| Segmenter.QuestionFileNamesDistinct | split_pdf.py:77 | different questions get different file names |
| Segmenter.PageRange | split_pdf.py:70 | `range(start, end + 1)` as a list of pages |
| Segmenter.CollectPages | split_pdf.py:70-74 | the page loop adds exactly the block's pages, in order |
| Segmenter.WriteFiles | split_pdf.py:58-77 | one file per start, named `question_{i+1}.pdf` and holding its block's pages; read in order, the files hold every page from the first start to the last page |
| Segmenter.SplitPdfByQuestions | split_pdf.py:25-89 | the starts are exactly the start pages, in order; one file per start, opening on its start page; the files cover the first start to the last page, once each and in order |

## Left out

- The Streamlit user interface: `main` of both viewers, navigation, rendering, `user_management_section`, `create_pdf_viewer_options` and every `st.*` call.
- OCR and PDF reading and writing: pytesseract, pdf2image, the PDF reader and writer, and the poppler check.
  - A page's text is a parameter, or `None` when extracting it raised. The OCR result of a question file is a parameter of `GetCachedQuestionData`.
  - Writing a question file is modelled as the list of page numbers it receives.
  - A failed `add_page` or a failed file write is not modelled.
- JSON loading and saving of the answer files.
  - The in-memory map stands for the file, and a save is not modelled.
  - Records are keyed by the question number rather than the string `Question_n`.
  - A JSON `null` and a missing field are both `None`.
  - Fields other than the correct answer and the choice are not modelled.
- `get_pdf_files`, with its glob and sort, and the directory creation in split_pdf.py.
- The accuracy percentage and the progress fractions, which are floating-point display values.
- The user-management summary counts, which are display only.
- Python's Unicode `\s`, `\w` and case folding. Character classes are ASCII, and IGNORECASE folds only ASCII letters.
- Store.UserProgress.UpdateUserAnswer: the `st.session_state` file name is a field of the object, and loading the file before the update is not modelled.
- Session.QuestionCache.GetCachedQuestionData: the cache entry holds the parsed parts, choices, stem and answer. The tuple the source returns is that entry's fields.
- Tiered.Tier3Text: models `re.sub(r'[A-D]\..*$', '', text)` on newline-free text, where `$` is the end of the text. The tier works on the whitespace-collapsed text, so it never holds a newline.
- Stem.OcrQuestionStem: the `choices` argument of `clean_question_text_ocr` is ignored by the source, so the model does not take it.
- test.py, which only prints page text.
