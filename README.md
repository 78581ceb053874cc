# Topic analysis pipeline: a Dafny model

This project models the core of a batch tool that asks a language model to
classify recorded empathy-chat conversations. It also models a companion
clean-up script. The model covers:

- **Corpus helpers** (`topic_analysis/file_processor.py`):
  - the file filter of the corpus walk;
  - the extraction of the system prompt and the user/assistant dialogue from a chat log;
  - the text rendering of a dialogue for the prompt;
  - the progress record.
- **LLM client** (`topic_analysis/llm_client.py`):
  - the JSON locator, a brace-depth scan over the model's reply;
  - the three-tier parse cascade: strict decode, quote normalisation, field-by-field recovery of the four Chinese-keyed fields;
  - the bounded retry loop around the HTTP call.
- **Batch driver** (`topic_analysis/main.py`):
  - the work list;
  - per-file bookkeeping of results, processed paths and counters;
  - a save whenever the processed list reaches a multiple of ten, plus the final save;
  - the pacing pause between files.
- **Clean-up script** (`process_json.py`): cuts each `system` message down to its user-information block and its common-information block, and reports whether the file changed.

The JSON decoder, the markdown-fence strip, the tier-2 quote replacement, the
HTTP send, file reading, the prompt template and `str()` of non-string JSON
values are collaborators the core does not implement. They are fields of
`Types.Oracles`, and every property is stated for all of their behaviours.

Modules, one per source file, plus shared vocabulary:

| module | file | models |
|---|---|---|
| `Wrappers` | wrappers.dfy | `Option` |
| `Text` | text.dfy | `isspace`/`\s`, `strip`, `find`, `startswith`/`endswith`, `in`, `join`, `re.sub(r'\s+', ' ', …)`, `sorted` |
| `Types` | types.dfy | decoded JSON values, chat messages, replies, the collaborators |
| `Locator` | locator.dfy | `LLMClient._extract_json_object` |
| `Repair` | repair.dfy | `LLMClient._safe_parse_json` |
| `LlmClient` | llm_client.dfy | `LLMClient.call_llm` |
| `FileProcessor` | file_processor.dfy | `find_all_json_files`, `extract_conversation_data`, `format_conversation_for_llm`, `save_progress` |
| `Driver` | driver.dfy | `main()` |
| `ProcessJson` | process_json.dfy | `extract_required_sections`, `process_json_file` |

The source's loops are modelled as methods with loops: the scan, the attempt
loop, the walk, the extraction, the rendering, the batch loop and the in-place
rewrite. Each method is proved equal to a specification function, and the
lemmas state the properties of those functions.

Where the code and its design description disagree, the model follows the code:

- `call_llm` skips the pause after a reply that has no `choices`. That path
  reaches neither of the two sleeps in the `try` block.
- The mid-run save falls when the processed list, loaded entries included,
  reaches a multiple of ten. It is not every tenth success of the run.
- A value that tier 1 or tier 2 decodes need not be a dict. A falsy value
  (`null`, `0`, `false`, `""`, `[]`, `{}`) is rejected by the truth test at
  llm_client.py:213 before any field is looked at. For a truthy value the
  field check uses Python's `in`:
  - key membership for a dict;
  - element membership for a list;
  - substring for a string.
  For a truthy number or `true` the check raises a `TypeError`, which costs
  the attempt and its pause.
- Inside `call_llm` the text handed to `_safe_parse_json` is always one the
  strict decoder accepted, so tiers 2 and 3 are never reached from there
  (`LlmClient.LocatedTextParsesAtTierOne`). What the model proves about those
  tiers is about `_safe_parse_json` on its own.

## Model

| member | source | states |
|---|---|---|
| `Text.FindChar` | topic_analysis/llm_client.py:33 | the index `find` reports holds the character and none occurs before it; None exactly when the character is absent |
| `Text.FindFromSkipsNone` | process_json.py:11-12 | a forward search passes over no occurrence: none before its answer, none at all when it fails |
| `Text.FindFromFindsFirst` | topic_analysis/llm_client.py:117 | the first occurrence at or after the start is the one reported |
| `Text.StripDropsOnlySpaces` | topic_analysis/llm_client.py:26 | `strip()` keeps a contiguous slice and what it drops on either side is whitespace |
| `Text.StripEmptyIffAllSpace` | topic_analysis/llm_client.py:26-30 | the stripped text is empty exactly when the text is all whitespace |
| `Text.StripNoop` | process_json.py:25 | a text with no whitespace at either end is its own `strip()` |
| `Text.CollapseSpaces` | topic_analysis/llm_client.py:139 | `re.sub(r'\s+', ' ', …)` leaves no two adjacent whitespace characters, only blanks as whitespace, and starts with whitespace only if the text does |
| `Text.CollapseAppend` | topic_analysis/llm_client.py:139 | texts that meet without whitespace on both sides of the seam collapse separately |
| `Text.CollapseAroundRun` | topic_analysis/llm_client.py:139 | any whitespace run between two texts that do not end and start with whitespace becomes one blank |
| `Text.CollapseKeepsNonSpaces` | topic_analysis/llm_client.py:139 | collapsing keeps every non-whitespace character, in order |
| `Text.NormalizeSpaces` | topic_analysis/llm_client.py:139 | the memory clean-up is the `strip()` of the collapsed text, so `StripDropsOnlySpaces` applies to it; it has no surrounding whitespace and no whitespace run |
| `Text.NormalizeKeepsNonSpaces` | topic_analysis/llm_client.py:139 | the cleaned memory keeps every non-whitespace character, in order |
| `Text.NormalizeTrimmed` | topic_analysis/llm_client.py:139 | for a text with no whitespace at either end, the `strip()` after collapsing changes nothing |
| `Text.Strip` | topic_analysis/llm_client.py:26 | `strip()` leaves no whitespace at either end |
| `Text.Join` | topic_analysis/file_processor.py:102 | `"\n".join` starts with the first part and ends with the last |
| `Text.SortStrings` | topic_analysis/file_processor.py:19 | `sorted` gives an ordered permutation of its input |
| `Text.LexLeTotal` | topic_analysis/file_processor.py:19 | string order is total, so sorting is defined for every list of paths |
| `Locator.Step` | topic_analysis/llm_client.py:46-64 | only an unescaped `"` toggles the string flag; the depth changes only on `{` or `}` outside strings |
| `Locator.StepEffects` | topic_analysis/llm_client.py:46-64 | an escaped character only clears the escape flag; a backslash arms it; a brace outside strings moves the depth by one |
| `Locator.Locate` | topic_analysis/llm_client.py:23-35 | None when the cleaned text is empty or has no `{`; any result decodes |
| `Locator.LocateFrom` | topic_analysis/llm_client.py:42-86 | the answer from the first `{` on, when there is one, is accepted by the decoder |
| `Locator.FirstAccepted` | topic_analysis/llm_client.py:42-74 | an accepted end is a `}` and the slice up to it decodes |
| `Locator.FirstAcceptedIsFirst` | topic_analysis/llm_client.py:63-74 | the accepted end is a depth-zero candidate and every earlier candidate failed to decode; with no result every candidate failed |
| `Locator.LocateIsPrefixFromFirstBrace` | topic_analysis/llm_client.py:33-80 | any result is a slice of the cleaned text starting at its first `{` |
| `Locator.LocateReturnsFirstDecodingCandidate` | topic_analysis/llm_client.py:63-71 | the first depth-zero candidate that decodes is exactly the result; failing candidates do not stop the scan |
| `Locator.LocateFallsBackToRemainder` | topic_analysis/llm_client.py:77-86 | when no candidate decodes, the stripped remainder from the first `{` is returned if it decodes, else None |
| `Locator.RemainderIsStripped` | topic_analysis/llm_client.py:78 | the `strip()` of the fallback remainder changes nothing |
| `Locator.ScanCandidates` | topic_analysis/llm_client.py:42-74 | the scanning loop with its depth, string and escape state stops at exactly the candidate end `FirstAccepted` defines, or reports none |
| `Locator.ExtractJsonObject` | topic_analysis/llm_client.py:17-86 | cleaning, the first `{`, the scan and the fallback together return exactly `Locate` |
| `Locator.InsideRun` | topic_analysis/llm_client.py:46-64 | inside a string, characters other than `"` and `\` change nothing and close no candidate, braces included |
| `Locator.QuotedValueScan` | topic_analysis/llm_client.py:46-65 | for `{"k":"v"}` with no quote or backslash in `k` or `v`, no brace inside the strings is a candidate; the scan accepts the final `}` |
| `Locator.BracesInStringsIgnored` | topic_analysis/llm_client.py:42-71 | `{"k":"v"}` is located whole for every such key and value, `{"k":"}"}` among them |
| `Repair.EscapedEnd` | topic_analysis/llm_client.py:135 | the memory pattern's closing quote ends a run of non-quote, non-backslash characters and escape pairs |
| `Repair.EscapedEndIsOnlyEnd` | topic_analysis/llm_client.py:135 | that closing quote is unique: any quote ending such a run is the one found |
| `Repair.ValueStart` | topic_analysis/llm_client.py:117 | a value can only start after the quoted key, within the text |
| `Repair.ValueStartMeaning` | topic_analysis/llm_client.py:117 | between the quoted key and the value lie exactly a whitespace run, `:` and a whitespace run |
| `Repair.ValueStartReads` | topic_analysis/llm_client.py:117 | conversely, the quoted key, whitespace, `:` and whitespace put the value start right after them |
| `Repair.MatchAtMeaning` | topic_analysis/llm_client.py:117-135 | a match has the quoted key, `\s*:\s*`, the opener and the closer in place; a quoted or bracketed group holds no closer, the memory group is an escaped run |
| `Repair.Search` | topic_analysis/llm_client.py:117-135 | `re.search`: the leftmost position where the pattern matches, and none before it |
| `Repair.SearchFindsFirst` | topic_analysis/llm_client.py:117 | the first matching position is the one the search returns |
| `Repair.FirstKeyNoMatch` | topic_analysis/llm_client.py:117 | before the first occurrence of the quoted key the pattern matches nowhere |
| `Repair.SearchReadsFieldAt` | topic_analysis/llm_client.py:117-137 | a field laid out as `"key": <open>v<close>` where the pattern matches nowhere earlier is the match, with `v` as its group |
| `Repair.SearchReadsField` | topic_analysis/llm_client.py:117-137 | in particular such a field after quote-free text is read back as `v` |
| `Repair.ItemsHaveNoQuote` | topic_analysis/llm_client.py:126 | the tags found by `re.findall(r'"([^"]*)"', …)` contain no `"` |
| `Repair.QuotedItemsOfList` | topic_analysis/llm_client.py:124-127 | the tags of a list written as quoted, separated items are exactly those items |
| `Repair.StringValues` | topic_analysis/llm_client.py:127 | the tag list holds each tag as a string, in order |
| `Repair.Record` | topic_analysis/llm_client.py:114-145 | the recovered dict has exactly the four keys, and each holds the value given for it: the two texts, the normalised memory, the tags as strings in order |
| `Repair.Recover` | topic_analysis/llm_client.py:113-150 | a record exactly when all four searches match; it is well formed and every quoted key occurs in the text |
| `Repair.RecoverTakesGroups` | topic_analysis/llm_client.py:117-140 | each field holds its pattern's captured group: category and description verbatim, memory normalised, tags the quoted items of the list group |
| `Repair.RecoverReadsFields` | topic_analysis/llm_client.py:114-145 | a text with the four fields laid out, each where its pattern has not matched earlier, in any order and with any text around them, recovers exactly those values, the memory normalised |
| `Repair.SearchNeedsKey` | topic_analysis/llm_client.py:117 | a pattern only matches where its quoted key occurs |
| `Repair.QuotedGroupHasNoQuote` | topic_analysis/llm_client.py:117-130 | the category and the description contain no `"` |
| `Repair.RecoverNeedsEveryKey` | topic_analysis/llm_client.py:143-145 | a text missing any quoted key recovers nothing, so no field is synthesised |
| `Repair.SafeParse` | topic_analysis/llm_client.py:88-150 | empty input gives None; a strict decode is returned as is; else a quote-normalised decode is returned as is; any other result is a well-formed recovered record |
| `Repair.SafeParseFallsToRecovery` | topic_analysis/llm_client.py:102-150 | when both decodes fail the result is the recovery, a well-formed record when present |
| `LlmClient.HasRequired` | topic_analysis/llm_client.py:215-216 | for a dict it is key membership of the four fields; it raises exactly for numbers, booleans and `null` |
| `LlmClient.JudgeMeaning` | topic_analysis/llm_client.py:188-242 | a reply without `choices` is exactly the rejection without a pause; an accepted value came from content, is truthy and has every field |
| `LlmClient.JudgeReply` | topic_analysis/llm_client.py:188-230 | the body of one attempt gives the verdict `Judge` defines |
| `LlmClient.Attempt` | topic_analysis/llm_client.py:177-242 | one attempt gives its verdict; an accepted one ends the call with its request, a rejected one records its request and pause and leaves the rest to the next attempts |
| `LlmClient.CallLlm` | topic_analysis/llm_client.py:175-244 | the attempt loop returns the result and emits the requests and pauses of `Call` |
| `LlmClient.RejectedStep` | topic_analysis/llm_client.py:203-242 | a rejected attempt sends, pauses if asked and not last, and leaves the result to the next attempts |
| `LlmClient.NoChoicesMovesOnWithoutPause` | topic_analysis/llm_client.py:188 | a reply without `choices` costs an attempt and is followed directly by the next request |
| `LlmClient.AttemptsBudget` | topic_analysis/llm_client.py:175 | at most one request per remaining attempt |
| `LlmClient.CallBudget` | topic_analysis/llm_client.py:175 | at most `max_retries` requests, none when it is not positive |
| `LlmClient.AttemptsNoneIffAllRejected` | topic_analysis/llm_client.py:175-244 | None exactly when every remaining attempt is rejected |
| `LlmClient.CallNoneIffAllRejected` | topic_analysis/llm_client.py:244 | the call returns None exactly when every attempt is rejected |
| `LlmClient.AttemptsReturnFirstAccepted` | topic_analysis/llm_client.py:216-217 | the first accepted attempt's value is returned after exactly its requests |
| `LlmClient.CallReturnsFirstAccepted` | topic_analysis/llm_client.py:216-217 | early return at the first accepted attempt, after `k + 1` requests |
| `LlmClient.AttemptsResultIsAccepted` | topic_analysis/llm_client.py:217 | a returned value is the accepted value of one of the attempts |
| `LlmClient.CallResultHasRequired` | topic_analysis/llm_client.py:213-217 | whatever the call returns is truthy and has every required field |
| `LlmClient.AttemptsStartWithRequest` | topic_analysis/llm_client.py:177 | every attempt begins with its request |
| `LlmClient.AttemptsPauseBetween` | topic_analysis/llm_client.py:205-241 | each pause directly follows the request of an attempt before the last; the events never end in a pause |
| `LlmClient.CallPausesBetween` | topic_analysis/llm_client.py:205-242 | a call never pauses after its last attempt |
| `LlmClient.FailuresThenSuccess` | topic_analysis/llm_client.py:175-242 | failures that pause, then an accepted last attempt: a request and a pause each, then the final request and its value |
| `LlmClient.CallFailuresThenSuccess` | topic_analysis/llm_client.py:232-236 | transport errors on every attempt but the last, which succeeds: alternating requests and pauses, then the value |
| `LlmClient.RecoveredRecordIsAccepted` | topic_analysis/llm_client.py:213-216 | a record recovered by tier 3 (llm_client.py:144-145) always passes the field check |
| `LlmClient.LocatedTextParsesAtTierOne` | topic_analysis/llm_client.py:201-211 | the text the locator hands on is parsed by the strict decode, so the cascade stops at its first tier |
| `FileProcessor.FindAllJsonFiles` | topic_analysis/file_processor.py:6-19 | the walk with the filter, then sorted, is the sorted list of kept paths |
| `FileProcessor.KeptInMembership` | topic_analysis/file_processor.py:13-17 | a path is among a directory's kept files exactly when one of its files passes the filter and joins to it |
| `FileProcessor.CandidatesMembership` | topic_analysis/file_processor.py:12-17 | a path is kept exactly when it joins a walked directory containing `empathy` with a name ending in `.json` but not `_analysis.json` |
| `FileProcessor.SortedResultMembership` | topic_analysis/file_processor.py:13-19 | the same membership holds for the sorted output |
| `FileProcessor.ExtractConversationData` | topic_analysis/file_processor.py:21-57 | an unreadable file or a non-list gives None; otherwise the loop yields the last system content and the dialogue |
| `FileProcessor.ConversationOf` | topic_analysis/file_processor.py:21-57 | no conversation exactly for an unreadable file or one that is not a list |
| `FileProcessor.LastSystemWins` | topic_analysis/file_processor.py:42-43 | the content of the last `system` message is the system prompt |
| `FileProcessor.NoSystemMeansEmpty` | topic_analysis/file_processor.py:32 | with no `system` message the system prompt is "" |
| `FileProcessor.DialogueAppend` | topic_analysis/file_processor.py:35-48 | the dialogue keeps log order |
| `FileProcessor.DialogueMembership` | topic_analysis/file_processor.py:36-48 | a message is in the dialogue exactly when it is a dict of the log with role `user` or `assistant` |
| `FileProcessor.Capitalize` | topic_analysis/file_processor.py:100 | first character upper case, the rest lower case, length kept |
| `FileProcessor.RenderMessage` | topic_analysis/file_processor.py:67-100 | one message gives the lines its role calls for, as `MessageLines` defines |
| `FileProcessor.MessageLines` | topic_analysis/file_processor.py:69-100 | each message gives at most two lines, exactly one unless it is a user message that decodes to a dict |
| `FileProcessor.AssistantLine` | topic_analysis/file_processor.py:69-79 | an assistant line is `[Assistant]: ` followed by a slice of the content |
| `FileProcessor.FormatConversation` | topic_analysis/file_processor.py:59-102 | the loop's lines, joined with newlines, are the rendering of each message in order |
| `FileProcessor.DialogueLinesAppend` | topic_analysis/file_processor.py:65-102 | lines follow message order |
| `FileProcessor.AssistantTagDropped` | topic_analysis/file_processor.py:71-75 | `[tag]rest` becomes `[Assistant]: ` plus the stripped rest |
| `FileProcessor.AssistantUntaggedVerbatim` | topic_analysis/file_processor.py:76-79 | without a leading `[` or any `]` the content is kept verbatim |
| `FileProcessor.StructuredWithoutKeysIsSilent` | topic_analysis/file_processor.py:84-94 | a user dict with neither key contributes no line |
| `FileProcessor.UnstructuredUserIsRaw` | topic_analysis/file_processor.py:95-98 | a user message that is not a JSON dict is one raw `[User]: ` line |
| `FileProcessor.StructuredUserLinesMeaning` | topic_analysis/file_processor.py:84-98 | the input line comes first, exactly when its key is present; one more line exactly for a truthy background that is not a blank string: `[Background]: ` for a string, the raw `[User]: ` line for anything else |
| `FileProcessor.BackgroundLineIffNonBlank` | topic_analysis/file_processor.py:91-94 | a `[Background]: ` line appears exactly when the background is a string that is not blank |
| `FileProcessor.MakeProgress` | topic_analysis/file_processor.py:110-113 | the progress record's `count` is the length of its `processed_files` |
| `Driver.BaseNameIsTail` | topic_analysis/main.py:100 | `os.path.basename` is a slash-free tail of the path that follows a `/` or is the whole path |
| `Driver.PyPrefix` | topic_analysis/main.py:54 | `s[:n]` is a prefix of length `min(n, len)`, or `len + n` floored at 0 for a negative `n` |
| `Driver.RemainingFiles` | topic_analysis/main.py:50 | the comprehension's loop yields the unprocessed files |
| `Driver.UnprocessedMembership` | topic_analysis/main.py:50 | a file is on the list exactly when it is in the corpus and not in the loaded progress |
| `Driver.UnprocessedAppend` | topic_analysis/main.py:50 | the list keeps corpus order |
| `Driver.UnprocessedNoRepeats` | topic_analysis/main.py:50-71 | without repeated corpus paths each file is attempted at most once |
| `Driver.WorkListMembership` | topic_analysis/main.py:50-54 | work files are unprocessed corpus files; outside test mode all of them, in test mode the first `TEST_FILE_COUNT` |
| `Driver.ProcessFile` | topic_analysis/main.py:75-97 | extraction, rendering, prompt and call give the file's outcome |
| `Driver.AnalysedHasRequired` | topic_analysis/main.py:95-97 | an analysed file's value has every required field |
| `Driver.OutcomeOf` | topic_analysis/main.py:75-97 | extraction fails exactly for an unreadable or non-list log; an analysis is truthy |
| `Driver.RecordOutcome` | topic_analysis/main.py:75-132 | the bookkeeping after one file is exactly one `Step`: counters, lists, the save at a multiple of ten and the pause |
| `Driver.Step` | topic_analysis/main.py:77-132 | one success for an analysis, one failure otherwise; a pause unless extraction failed or the file is last |
| `Driver.HandleFile` | topic_analysis/main.py:71-132 | one pass of the loop moves the run one file on without changing where it ends |
| `Driver.RunBatch` | topic_analysis/main.py:50-136 | the driver's lists, counters, saves and pauses are those of `Batch` |
| `Driver.RunCounts` | topic_analysis/main.py:71-120 | each file adds one success or one failure |
| `Driver.RunProcessed` | topic_analysis/main.py:99-105 | the processed list grows by exactly the analysed files, in work-list order |
| `Driver.RunResults` | topic_analysis/main.py:99-105 | the results keep what they held and grow in step with the processed list |
| `Driver.AnalysedEntry` | topic_analysis/main.py:99-105 | a success appends its base-name entry and its full path |
| `Driver.StepSaveLengths` | topic_analysis/main.py:113-116 | a step saves exactly when the processed list reaches a multiple of ten |
| `Driver.StepPrefixes` | topic_analysis/main.py:113-116 | a step keeps every save a snapshot of both lists |
| `Driver.RunSaveLengths` | topic_analysis/main.py:113-116 | the loop saves once at each multiple of ten the processed list reaches |
| `Driver.RunPrefixes` | topic_analysis/main.py:113-116 | every save holds both lists as they were when it was taken |
| `Driver.RunPauses` | topic_analysis/main.py:77-132 | a pause follows each non-last file whose extraction did not fail |
| `Driver.EmptyWorkListSavesNothing` | topic_analysis/main.py:59-61 | an empty work list returns with no save and the loaded lists untouched |
| `Driver.BatchBookkeeping` | topic_analysis/main.py:68-120 | success plus failure is the work list's length; the processed list is the loaded one then the analysed files in order |
| `Driver.BatchSaves` | topic_analysis/main.py:113-136 | saves at each multiple of ten passed, then a final save of the final lists |
| `Driver.BatchPauses` | topic_analysis/main.py:131-132 | a pause after file `x` exactly when it is not last and its extraction did not fail |
| `Driver.ResumeSkipsAnalysed` | topic_analysis/main.py:42-50 | a run resumed from this run's progress reprocesses no analysed file |
| `ProcessJson.BlockAt` | process_json.py:11-12 | a match ends after the header |
| `ProcessJson.SearchBlock` | process_json.py:14-15 | `re.search`: the leftmost matching position, none before it |
| `ProcessJson.BlockShape` | process_json.py:11-12 | a block is the header, whitespace, `{`, text without `}`, and `}` |
| `ProcessJson.FindBlock` | process_json.py:11-15 | None exactly when no position matches; a found block starts with its header and ends with `}` |
| `ProcessJson.FindBlockOfLayout` | process_json.py:11-15 | a block written after `#`-free text is found, cut at its first `}` |
| `ProcessJson.ExtractRequiredSections` | process_json.py:17-25 | the result has no whitespace at either end, and is "" when neither block is found |
| `ProcessJson.SectionsInOrder` | process_json.py:17-25 | the result is the user block, a newline, the common block, in that order, either one left out when missing |
| `ProcessJson.RewriteAllPointwise` | process_json.py:43-51 | only system messages change, each to its extracted sections; length and order kept |
| `ProcessJson.RewriteChangesIff` | process_json.py:49-51 | the log changes exactly when some system message's content changes |
| `ProcessJson.RewriteSystemMessages` | process_json.py:42-51 | the loop rewrites the array in place and reports whether a content changed |
| `ProcessJson.ProcessJsonFile` | process_json.py:27-61 | a non-list returns False without writing; otherwise True, with the rewritten list written, exactly when a message changed |

`LlmClient.Judge` (llm_client.py:188-230), `LlmClient.Attempts`
(llm_client.py:175-244), `Driver.Run` (main.py:71-132), `Driver.BatchWith`
(main.py:59-136) and `FileProcessor.StructuredUserLines`
(file_processor.py:84-98) are specification functions without contracts of
their own. What they mean is stated by the lemmas above: `JudgeMeaning`, the
`Attempts…` lemmas, the `Run…` lemmas, the `Batch…` lemmas and
`StructuredUserLinesMeaning`.

## Left out

- The JSON decoder (`json.loads`, `json.load`) and encoder (`json.dump`) are oracles. Numbers keep an integer only, since the core looks only at their truth value.
- The markdown-fence strip (llm_client.py:23-25) is the oracle `stripFences`.
- The tier-2 quote replacement (llm_client.py:104-105) is the oracle `requote`. In this copy of the source the typographic quotes are flattened: line 104 replaces `"` by itself. Line 105 parses as one call whose first argument is the triple-quoted text between its two `'''`. Nothing is proved about the replacement.
- The HTTP request, its headers, payload, status check and timeout are the oracle `send`, which gives, per attempt, an exception, a body without `choices`, or the text of the first choice.
- Sleeps are recorded as events (`LlmClient`) or as the positions after which the driver paused (`Driver`). Clocks, elapsed time and the ETA, which is float arithmetic (main.py:122-128), are left out.
- `print`, the traceback and every other diagnostic are left out. The printouts at main.py:108-109 can themselves raise:
  - `.get` on an analysis that is a list or a string;
  - `join` on tags that are not strings.
  Such an exception would end the run. The model does not capture this.
- File system work is left out: `os.walk` becomes a parameter, `open` and `makedirs` are left out, the timestamped file names are left out, and reading a log goes through the oracle `readFile`. The loaded progress and results are parameters. `load_progress` and `load_existing_results` are not part of this model.
- Message fields are strings; a missing `role` or `content` reads as "". Non-string values of these fields, and the exceptions they raise (for example `re.search` on non-text content in process_json.py), are left out. Keys of a message other than `role` and `content` are not modelled.
- `FileProcessor.Capitalize` handles ASCII letters only; Python's full Unicode case mapping is left out.
- `FileProcessor.JoinPath` follows POSIX `os.path.join` for a bare file name; Windows separators are left out.
- `str()` of a non-string JSON value in the prompt is the oracle `show`.
- The `main()` of process_json.py (directory walk, counts, prints) is left out; only `extract_required_sections` and `process_json_file` are modelled.
