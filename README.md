# Claude log summarizer, modelled in Dafny

The system is an Obsidian plugin that turns a day's Claude conversation log
into a work summary, together with a few Python scripts that shrink such
logs. This project models its deterministic core and proves what that core
promises:

- **Summarisation driver** (`services/GlmApiService.ts`, module `GlmApi`):
  - at or under a length threshold, the log goes to the LLM in one request;
  - above it, the log is cut into fixed-size chunks;
  - each chunk goes through a retry loop in order, with a one-second pause
    between chunks;
  - the partial summaries are then dropped, passed through or merged by one
    more request.
  
  The network is a scripted oracle: request number n receives
  `script(n)`. Waits and requests are recorded as a list of events, so
  counts, order and pacing can be stated exactly.
- **Reply normaliser** (`cleanXmlTags`, module `ResponseNormalizer`): code
  fences are removed, `<summary>` is unwrapped, the tag table turns
  `<tag>…</tag>` into headings and bullet lists, leftover tags are
  stripped, blank-line runs are collapsed and the text is trimmed.
- **Daily note** (`services/DailyNoteService.ts`, module `DailyNote`): the
  dated summary section is built and inserted under the target heading,
  and the existence check finds it in the next day's note.
- **Content gate** (`services/LogReaderService.ts`, module `LogReader`):
  `#` lines are blanked and the rest is trimmed and measured.
- **Log compression scripts**, each a pipeline of string and line
  transformations:
  - `refactor-log-aggressive.py` (module `RefactorAggressive`);
  - `refactor-log.py` (module `RefactorLog`);
  - `refactor-log-final.py` (module `RefactorFinal`);
  - `refactor-all-large.py` (module `RefactorAllLarge`). This script repeats
    the four passes of `refactor-log-final.py` line for line. The model
    defines them once in `RefactorFinal`, and `RefactorAllLarge.ProcessFile`
    is proved to compute exactly `RefactorFinal.FinalRefactor`.

Shared text machinery lives in `Strings`:
- JavaScript and Python whitespace, with `trim`/`strip`;
- `split`/`join` and their round trips;
- substring search.

The regular expressions the scripts share live in `LogText`:
- the fenced code-block pattern as `re.sub` scans it;
- `re.split` on `## ` header lines;
- whitespace squeezing.

Code that updates variables in a loop is modelled as a method with a loop.
Each such method is proved equal to a specification function, and the
properties are proved about that function. Where a loop body is long, it is
a helper method called from the loop (`MergeAt`, `DedupAt`, `FormatAt`,
`TruncateAt`). Each helper's contract states how one iteration advances the
specification.

## Model

| member | source | states |
|---|---|---|
| GlmApi.FormatApiError | services/GlmApiService.ts:243-250 | the error text starts with the error's message, or the fixed text when the message is missing or empty; it is exactly that text when there is no response, and contains the serialised response when there is one |
| GlmApi.SecondsText | services/GlmApiService.ts:224 | `timeout / 1000` prints as the whole seconds in decimal; when the division is not exact they are followed by a point and the shortest fraction, one to three digits with no trailing zero, whose value is the milliseconds left over |
| GlmApi.DropTrailingZeros | services/GlmApiService.ts:224 | the result is a prefix of its input, everything cut off is `0`, and the result does not end in `0` |
| GlmApi.DropTrailingZerosValue | services/GlmApiService.ts:224 | dropping k trailing zeros from a digit string leaves digits whose value times 10^k is the value of the input |
| GlmApi.FractionOfPad3 | services/GlmApiService.ts:224 | for 1 to 999 milliseconds left over, the three-digit form with its trailing zeros dropped is the shortest fraction for them |
| GlmApi.Extract | services/GlmApiService.ts:184-206 | every result is well formed (a success has a summary, a failure an error); a success's summary is trimmed, has no run of three line breaks and no tag left; a reply without choices fails with the malformed-reply error; a timed-out request fails with the timeout message |
| GlmApi.CallApi | services/GlmApiService.ts:160-217 | a timed-out request fails with the timeout text, a body without choices fails as invalid, and a success carries a trimmed summary |
| GlmApi.ExtractBody | services/GlmApiService.ts:187-200 | with a first choice, the text is the first non-empty of `content` and `reasoning_content`, trimmed; it succeeds exactly when that text is not blank, with the normalised text; a whitespace-only `content` hides `reasoning_content` and fails as empty |
| GlmApi.MergeResult | services/GlmApiService.ts:142-154 | the same as `callApi` with the merge request's own two error texts: a body without choices fails as an invalid merge reply |
| GlmApi.ExtractionFailuresAreFinal | services/GlmApiService.ts:99 | a failure made by reading the reply itself (empty or malformed) never contains `429`, so the retry loop never retries it |
| GlmApi.Backoff | services/GlmApiService.ts:104 | from attempt 1 on, the backoff is at least 10 seconds and a whole multiple of 10 seconds |
| GlmApi.BackoffDoubles | services/GlmApiService.ts:104 | each backoff is twice the one before, starting 10 s, 20 s, 40 s |
| GlmApi.FirstUsable | services/GlmApiService.ts:95-101 | the replies before the returned index are all rate limited, and the reply at it is not (when there is one) |
| GlmApi.Retry | services/GlmApiService.ts:94-110 | the retry loop never returns a rate-limited result; it produces no event exactly when no attempt is left |
| GlmApi.RetryResult | services/GlmApiService.ts:94-110 | the retry loop returns the first reply that is not rate limited, or the rate-limit exhaustion error when every attempt was rate limited |
| GlmApi.RetryStep | services/GlmApiService.ts:95-107 | each event of the retry loop is a request for the same content or a backoff wait of at least 10 seconds |
| GlmApi.RetryTrace | services/GlmApiService.ts:95-107 | the loop's events alternate request and backoff; they end with the request of the usable attempt, or with a backoff after the last rate-limited one |
| GlmApi.RetrySentCount | services/GlmApiService.ts:95-107 | the loop sends one request per attempt made: up to and including the first usable one, otherwise all of them |
| GlmApi.RetrySendsAtMostMax | services/GlmApiService.ts:94-95 | the loop sends at most `maxRetries` requests, and at least one when `maxRetries` is at least 1 |
| GlmApi.CallApiWithRetry | services/GlmApiService.ts:94-110 | the `for` loop with its early return gives the result and events of the retry specification |
| GlmApi.Chunks | services/GlmApiService.ts:44-47 | there are no chunks exactly when the log is empty |
| GlmApi.ChunksConcat | services/GlmApiService.ts:45-47 | the chunks concatenate back to the log |
| GlmApi.ChunkSizes | services/GlmApiService.ts:45-47 | no chunk is empty or longer than the chunk size; every chunk but the last has exactly that size |
| GlmApi.ChunkCount | services/GlmApiService.ts:45-47 | there are as many chunks as the log length divided by the chunk size, rounded up |
| GlmApi.SplitChunks | services/GlmApiService.ts:41-47 | the slicing loop produces the chunks of the specification |
| GlmApi.Outcomes | services/GlmApiService.ts:55-68 | there is one outcome per chunk |
| GlmApi.PartialsAppend | services/GlmApiService.ts:58-62 | one more chunk adds its summary to the partials exactly when it succeeded with a non-empty summary |
| GlmApi.DispatchStep | services/GlmApiService.ts:55-68 | one more chunk through the retry loop extends the outcomes, the partials, the paced events and the request count by that chunk's part |
| GlmApi.Pacing | services/GlmApiService.ts:65-67 | between chunks there is nothing or exactly one one-second wait |
| GlmApi.DispatchChunks | services/GlmApiService.ts:52-68 | the per-chunk loop gives the outcomes, partials, paced events and request count of the specification |
| GlmApi.OutcomeOfChunk | services/GlmApiService.ts:55-57 | chunk k goes through the retry loop with its own content, answered from the request that follows the earlier chunks' requests |
| GlmApi.RetryEvents | services/GlmApiService.ts:95-107 | a retry loop's events are requests for its content and backoff waits, never the one-second pacing wait |
| GlmApi.ChunkEvents | services/GlmApiService.ts:55-68 | the events of chunk k are requests for chunk k and backoff waits |
| GlmApi.PacingCount | services/GlmApiService.ts:64-67 | for n outcomes whose own events hold no one-second wait, the paced trace holds exactly n - 1 of them: between consecutive chunks and never after the last |
| GlmApi.PacingOfChunks | services/GlmApiService.ts:55-67 | for the chunks as dispatched, n chunks give exactly n - 1 one-second waits |
| GlmApi.PartialsAreKeptSummaries | services/GlmApiService.ts:58-62 | there are no more partials than chunks, none is empty, and there are none exactly when no chunk succeeded with a summary |
| GlmApi.LabelledParts | services/GlmApiService.ts:125 | each partial is put after its 1-based part label, in order |
| GlmApi.MergePrompt | services/GlmApiService.ts:116-127 | the merge prompt opens with the fixed instructions and ends with the fixed closing line |
| GlmApi.MergePromptHasEveryPart | services/GlmApiService.ts:116-127 | every partial appears in the merge prompt right after its part label |
| GlmApi.Summary | services/GlmApiService.ts:14-82 | the result and events of `generateSummary`, `generateChunkedSummary` included; RequestsAreBounded and ChunkedTermination state what it guarantees |
| GlmApi.RequestsAreBounded | services/GlmApiService.ts:14-21 | a log at or under the threshold is sent whole in exactly one request that is never retried; above it, no request carries more than the threshold's worth of the log |
| GlmApi.ChunkedTermination | services/GlmApiService.ts:70-81 | no partial gives the all-failed error; one partial is returned unchanged with no merge request; two or more make exactly one merge request, the last event, and its reply decides the result |
| GlmApi.NoMergeInChunks | services/GlmApiService.ts:55-68 | the per-chunk phase never sends a merge request |
| GlmApi.GenerateSummary | services/GlmApiService.ts:14-35 | the threshold test followed by the direct call or the chunked run gives the result and events of the specification |
| ResponseNormalizer.RemoveXmlFences | services/GlmApiService.ts:257 | removing the `xml` code fences never lengthens the text, and a text with no such fence is kept exactly |
| ResponseNormalizer.XmlFenceRemoved | services/GlmApiService.ts:257 | the first `xml` fence (any case) is deleted together with the whitespace after it, and the text before it is kept |
| ResponseNormalizer.RemoveFences | services/GlmApiService.ts:257 | removing the remaining fences never lengthens the text, and a text with no three backquotes is kept exactly |
| ResponseNormalizer.HasFenceIsContains | services/GlmApiService.ts:257 | a fence starts somewhere in the text exactly when the text contains three backquotes |
| ResponseNormalizer.FenceRemoved | services/GlmApiService.ts:257 | the first fence is deleted together with the whitespace after it, and the text before it is kept |
| ResponseNormalizer.RemoveFencesLeavesNoFence | services/GlmApiService.ts:257 | after the second fence pass no three backquotes are left |
| ResponseNormalizer.UnwrapSummary | services/GlmApiService.ts:260-263 | a text lacking `<summary>` or `</summary>` is kept; otherwise the result is the text itself or an inner text holding no `</summary>` |
| ResponseNormalizer.SummaryUnwrapped | services/GlmApiService.ts:260-263 | with a first `<summary>` and the first `</summary>` after it, the text becomes exactly what lies between the two (the lazy match) |
| ResponseNormalizer.BulletsMarkNonBlankLines | services/GlmApiService.ts:300-306 | the k-th bullet line is the k-th non-blank inner line, trimmed, with `- ` put before it unless it already starts with a dash; blank lines are dropped |
| ResponseNormalizer.Render | services/GlmApiService.ts:295-308 | a mapping without a heading gives exactly the inner text trimmed; one with a heading gives a text starting with the heading and a line break |
| ResponseNormalizer.RenderedLines | services/GlmApiService.ts:300-307 | with a heading the lines of the rendering are the heading followed by the bullet lines of the trimmed inner text (what BulletsMarkNonBlankLines states of them); with no bullet line it is the heading and a bare line break |
| ResponseNormalizer.MatchSpan | services/GlmApiService.ts:294 | a match lies inside the text, with the closing tag after the opening one |
| ResponseNormalizer.ReplaceMatchesAbsent | services/GlmApiService.ts:294-308 | a text without the opening tag is left unchanged |
| ResponseNormalizer.ReplaceMatchesFirst | services/GlmApiService.ts:294-308 | the first complete `<tag>…</tag>` match is replaced by its rendering (the lazy match ends at the first closing tag); the text before it is kept and the replacement goes on after the closing tag |
| ResponseNormalizer.ReplaceTagFirstOccurrence | services/GlmApiService.ts:266-308 | the same, for every tag of the table, with its heading or inline rendering |
| ResponseNormalizer.StripTags | services/GlmApiService.ts:312 | removing leftover tags adds no character, and a text with no `<[^>]+>` match is kept exactly |
| ResponseNormalizer.StripTagsKeepsText | services/GlmApiService.ts:312 | text without `<` before the rest is kept as it is |
| ResponseNormalizer.StripTagsDropsTag | services/GlmApiService.ts:312 | a `<…>` with no `>` inside is deleted whole |
| ResponseNormalizer.TagFreeHasNoTag | services/GlmApiService.ts:312 | a text in the tag-free form has nothing for the pass to strip |
| ResponseNormalizer.TagFreeHasNoMatch | services/GlmApiService.ts:312 | a text in the tag-free form has no `<[^>]+>` match |
| ResponseNormalizer.StripTagsIsTagFree | services/GlmApiService.ts:312 | after the pass no `<[^>]+>` tag is left |
| ResponseNormalizer.CollapseNewlines | services/GlmApiService.ts:315 | collapsing blank lines adds no character, and a text without three line feeds in a row is kept exactly |
| ResponseNormalizer.CollapseKeepsLine | services/GlmApiService.ts:315 | text without line feeds before the rest is kept as it is |
| ResponseNormalizer.CollapseRun | services/GlmApiService.ts:315 | a whole run of three or more line feeds becomes exactly two |
| ResponseNormalizer.CollapseShortRun | services/GlmApiService.ts:315 | a whole run of one or two line feeds is kept |
| ResponseNormalizer.CollapseHasNoTriple | services/GlmApiService.ts:315 | after collapsing, no three line feeds follow one another |
| ResponseNormalizer.CollapseKeepsTagFree | services/GlmApiService.ts:312-315 | collapsing line feeds does not bring a tag back |
| ResponseNormalizer.CleanXml | services/GlmApiService.ts:255-318 | the normaliser's steps in the order of `cleanXmlTags`; CleanXmlIsCanonical and PlainReplyIsTrimmed state what it guarantees |
| ResponseNormalizer.CleanXmlIsCanonical | services/GlmApiService.ts:255-318 | the normalised reply is trimmed, has no run of three line feeds and no `<…>` tag |
| ResponseNormalizer.PlainReplyIsTrimmed | services/GlmApiService.ts:255-318 | a reply with no fence, no tag and no three line feeds in a row comes out as itself, trimmed |
| ResponseNormalizer.CleanXmlTags | services/GlmApiService.ts:255-318 | the loop over the tag table computes the normaliser's specification and its result has the guarantees above |
| ResponseNormalizer.ApplyMappings | services/GlmApiService.ts:292-309 | the loop over the tag table applies each mapping's replacement in table order |
| DailyNote.BuildSummarySection | services/DailyNoteService.ts:85-87 | the section is a line break, the dated summary heading, a blank line, the summary and a final line break, in that order and nothing else |
| DailyNote.FindHeading | services/DailyNoteService.ts:93-98 | the result is the first position at which a whole line equals the target heading, and none means no line equals it |
| DailyNote.HeadingLineIsFound | services/DailyNoteService.ts:98-99 | whenever a heading line exists the search finds one no later, so `test` and `replace` agree |
| DailyNote.InsertSummary | services/DailyNoteService.ts:92-106 | the new note always contains the section |
| DailyNote.AppendSection | services/DailyNoteService.ts:105 | the note is kept as a prefix, followed by a blank line, the heading and the section |
| DailyNote.InsertAt | services/DailyNoteService.ts:99 | the section is spliced in at the end of the matched line, with the text around it unchanged |
| DailyNote.InsertUnderHeading | services/DailyNoteService.ts:98-99 | with a heading line present, the section goes right after the first such line; taking it out gives the note back |
| DailyNote.InsertIntoBlankNote | services/DailyNoteService.ts:102-104 | without a heading line, a blank note becomes exactly heading plus section |
| DailyNote.InsertAfterNote | services/DailyNoteService.ts:105 | without a heading line, any other note is kept whole, followed by a blank line, the heading and the section |
| DailyNote.HeadingSurvivesInsert | services/DailyNoteService.ts:86-105 | after an insertion of a section that starts with a line break (every built section does), the heading is still a line of the note, so the next insertion goes under the same heading |
| DailyNote.WriteSummary | services/DailyNoteService.ts:37-55 | only the note dated the day after the log is written (created empty when missing); it receives the log day's section; every other note is unchanged |
| DailyNote.IsSummaryExists | services/DailyNoteService.ts:17-34 | the check looks in the note dated the day after the log for the dated summary heading; SummaryExistsAfterWrite shows that writing the summary makes it succeed |
| DailyNote.SummaryExistsAfterWrite | services/DailyNoteService.ts:17-55 | after writing a day's summary, the existence check for that day succeeds: both look at the next day's note |
| LogReader.FirstBreak | services/LogReaderService.ts:49 | the index is the first line terminator, or the length when there is none |
| LogReader.ClearHashLines | services/LogReaderService.ts:49 | emptying `#` lines never lengthens the text |
| LogReader.ClearHashLinesByLine | services/LogReaderService.ts:49 | the result has as many lines as the input; a line beginning with `#` is emptied and every other line is kept exactly |
| LogReader.ClearHashLinesKeepsBreaks | services/LogReaderService.ts:49 | the line terminators are all kept, in order |
| LogReader.IsValidContent | services/LogReaderService.ts:48-51 | content shorter than the minimum is never valid, since clearing and trimming only shorten it |
| LogReader.InvalidContentReason | services/LogReaderService.ts:56-59 | the reason is the fixed prefix, the measured length in decimal and the closing parenthesis, and nothing else |
| LogReader.ReasonNamesTheLength | services/LogReaderService.ts:49-59 | the number the reason shows reads back as the measured length, and the content is valid exactly when that number is at least 50 |
| LogReader.SurroundingSpaceNeverCounts | services/LogReaderService.ts:48-51 | what is measured is the cleared text with only whitespace cut from both ends, and it neither starts nor ends with whitespace |
| LogReader.OnlyHeadingsIsInvalid | services/LogReaderService.ts:48-51 | a log made only of `#` lines and blank lines measures zero and is never valid |
| LogText.WordEnd | refactor-log-aggressive.py:30 | greedy `\w*` stops at the first non-word character: everything before it is a word character |
| LogText.CodeBlockAt | refactor-log-aggressive.py:30-31 | a match starts with a fence, a tag of word characters and a line break, and its lazy body ends at the first closing fence; there is no match where the fence and tag are followed by a line break but no closing fence follows |
| LogText.LazyBody | refactor-log-aggressive.py:30 | a matched body holds no fence |
| LogText.CodeBlocks | refactor-log-aggressive.py:31 | the matches `re.sub` visits lie within the text, in order |
| LogText.RewriteKeepsText | refactor-log-aggressive.py:15-31 | a rewrite that gives every visited block back unchanged leaves the whole text unchanged |
| LogText.LangHasNoBreak | refactor-log-aggressive.py:16 | a matched language tag holds no line break |
| LogText.BlocksAreMatches | refactor-log-aggressive.py:31 | every block the scan visits is a match of the pattern at its own position |
| LogText.FirstHeader | refactor-log-aggressive.py:121 | the leftmost `## ` header line at or after a position, or none when there is no such line |
| LogText.Pieces | refactor-log-aggressive.py:121 | `re.split` with a captured group returns an odd number of pieces |
| LogText.PiecesConcat | refactor-log-aggressive.py:121 | joining the pieces back gives the text: nothing is lost or moved |
| LogText.PiecesAlternate | refactor-log-aggressive.py:121 | odd-numbered pieces are whole header lines; later even-numbered pieces are empty or start with a line break |
| LogText.SqueezeSpace | refactor-log-aggressive.py:135 | each run of whitespace becomes one space: the text with its whitespace removed is unchanged, no whitespace other than single spaces is left, no two spaces follow one another, the result starts with a space exactly when the input starts with whitespace, and an empty text stays empty |
| LogText.SqueezeRunBetween | refactor-log-aggressive.py:135 | a whitespace run between two words becomes exactly one space, and the text on each side is squeezed on its own, so "a b" and "ab" get different keys |
| LogText.SqueezeSplit | refactor-log-aggressive.py:135 | text that ends in a non-space is squeezed independently of what follows it |
| LogText.SqueezeRun | refactor-log-aggressive.py:135 | a whole whitespace run at the front becomes one space |
| LogText.Normalized | refactor-log-aggressive.py:135 | the comparison key is at most 500 characters |
| LogText.NormalizedEmpty | refactor-log-aggressive.py:135 | only a whitespace-only body has an empty key |
| RefactorAggressive.ShortenCodeBlock | refactor-log-aggressive.py:15-28 | a block whose body splits into at most 20 lines is given back as matched; a longer one becomes the opening fence with its tag, the first 10 lines, a blank line, the count of the lines between (lines minus 15), a blank line, the last 5 lines and the closing fence |
| RefactorAggressive.JoinLongBlock | refactor-log-aggressive.py:24-28 | the line-by-line form joins to the f-string the callback returns |
| RefactorAggressive.LongBlockSplits | refactor-log-aggressive.py:24-28 | no line of a shortened block holds a line break, so the line-by-line view is exact |
| RefactorAggressive.TruncatedCode | refactor-log-aggressive.py:13-31 | every matched code block is replaced by its shortening; ShortenedBlockLines and ShortCodeBlocksUnchanged state what that does to the log |
| RefactorAggressive.ShortenedBlockLines | refactor-log-aggressive.py:13-31 | for every matched block the line-level statement of the shortening holds |
| RefactorAggressive.ShortCodeBlocksUnchanged | refactor-log-aggressive.py:13-31 | a log whose code blocks all have at most 20 lines is left exactly as it was |
| RefactorAggressive.KeptRowsStep | refactor-log-aggressive.py:39-49 | one-step unfolding used to prove the loop of `limit_table_rows`: one line of the scan: a table row is kept as rows 1 to 10 of its run, becomes the omission row as the 11th, and is dropped after; any other line is kept and resets the count |
| RefactorAggressive.TruncateLongOutputs | refactor-log-aggressive.py:33-51 | the loop over lines gives the kept lines of the specification, joined |
| RefactorAggressive.RowRun | refactor-log-aggressive.py:39-46 | a run of table rows contributes its rows up to the tenth of the run and then one omission row, and the count goes on after it |
| RefactorAggressive.TableRunKept | refactor-log-aggressive.py:39-49 | a run of table rows followed by another line keeps at most its first 10 rows, one omission row if it was longer, then the line, and the count starts again |
| RefactorAggressive.NonTableLinesKept | refactor-log-aggressive.py:47-49 | every line that is not a table row is kept, in order, and only omission rows are added |
| RefactorAggressive.NoTableRowsUnchanged | refactor-log-aggressive.py:39-49 | a text without table rows passes unchanged |
| RefactorAggressive.CompressResponseBlock | refactor-log-aggressive.py:107-117 | a block of at most 50 lines is kept; a longer one becomes its first 30 lines, one line stating how many were left out (exactly the lines dropped) and its last 10 |
| RefactorAggressive.CompressedStep | refactor-log-aggressive.py:77-98 | one-step unfolding used to prove the loop of `compress_claude_responses`: one line of the scan: a `**Claude**:` line closes any open response and opens a new one; inside a response a user turn or `## ` header closes it and is kept; other lines are gathered inside a response and copied outside one |
| RefactorAggressive.CompressClaudeResponses | refactor-log-aggressive.py:69-105 | the loop with its final flush gives the compressed lines of the specification, joined |
| RefactorAggressive.CompressedLinesBound | refactor-log-aggressive.py:69-117 | compression never adds lines |
| RefactorAggressive.ShortLogUnchanged | refactor-log-aggressive.py:69-117 | a log of at most 50 lines is never shortened |
| RefactorAggressive.OutsideResponsesCopied | refactor-log-aggressive.py:97-98 | lines outside any response are copied one for one |
| RefactorAggressive.InsideResponseGathered | refactor-log-aggressive.py:95-96 | lines inside an open response are gathered, not emitted |
| RefactorAggressive.ResponseCompressedAsBlock | refactor-log-aggressive.py:77-98 | a response runs from its `**Claude**:` line up to the next user turn or header; it is compressed as one block, the line that ends it is kept, and the lines before it are copied unchanged |
| RefactorAggressive.EndIsNotStart | refactor-log-aggressive.py:78-88 | a user turn or header line never opens a response |
| RefactorAggressive.DedupKept | refactor-log-aggressive.py:138-145 | one-step unfolding used to prove the loop of `deduplicate_similar_sections`: a header whose body key is new, or at most 200 characters, is output with its body |
| RefactorAggressive.DedupReplaced | refactor-log-aggressive.py:138-141 | one-step unfolding used to prove the loop of `deduplicate_similar_sections`: a header whose long body key was seen is output with the note naming the recorded position instead of its body |
| RefactorAggressive.DedupOther | refactor-log-aggressive.py:148-150 | one-step unfolding used to prove the loop of `deduplicate_similar_sections`: a piece that does not start with `## ` is output as it is |
| RefactorAggressive.DeduplicateSimilarSections | refactor-log-aggressive.py:119-152 | the `while` loop over the pieces gives the specification's output, joined; what that output is part by part is stated by DedupedShape |
| RefactorAggressive.NotReplaced | refactor-log-aggressive.py:138-145 | without repeated long bodies, a header's body is never replaced |
| RefactorAggressive.NoRepeatKeepsPieces | refactor-log-aggressive.py:119-152 | without repeated long bodies, the output parts join to the text the pieces join to |
| RefactorAggressive.DistinctSectionsUnchanged | refactor-log-aggressive.py:119-152 | when no long body repeats an earlier one the text comes back whole |
| RefactorAggressive.ReadPartsArePieces | refactor-log-aggressive.py:130-150 | the parts the scan reads (each header with the body it takes, other pieces alone) are the pieces themselves, with one empty body added only when the last piece is a header |
| RefactorAggressive.BodiesFollowHeaders | refactor-log-aggressive.py:130-132 | every part the scan reads as a body comes right after the `## ` header that takes it, and the first part is never a body |
| RefactorAggressive.FirstBody | refactor-log-aggressive.py:138-145 | the position found is a body with the given key, or the end when there is none |
| RefactorAggressive.FirstBodyIsFirst | refactor-log-aggressive.py:138-145 | no body before the one found has the key: the first occurrence is the one recorded |
| RefactorAggressive.DedupMatches | refactor-log-aggressive.py:130-150 | from any point of the scan, with the seen keys recorded at the header of their first body, every output part is the reference part |
| RefactorAggressive.DedupedShape | refactor-log-aggressive.py:119-152 | the output list has one part per part read; every header and other piece is kept in order; a body becomes `(Similar to section at line n)` exactly when its key is longer than 200 characters and an earlier body has the same key, with n the output position of the first such body's header; every other body is kept |
| RefactorAggressive.AggressiveRefactor | refactor-log-aggressive.py:169-180 | the four steps applied in `main`'s order |
| RefactorAggressive.PlainLogUnchanged | refactor-log-aggressive.py:169-180 | a log with no code block, no table row, no `**Claude**:` line and no repeated long section body passes all four steps unchanged |
| RefactorFinal.ShortenBlock | refactor-log-final.py:14-26 | a block whose stripped body has at most 5 lines is given back as matched; a longer one becomes, line by line, the opening fence with its tag, the first 3 stripped lines, a line giving the total number of stripped lines, and the closing fence |
| RefactorFinal.JoinShortBlock | refactor-log-final.py:23-26 | the line-by-line form joins to the f-string the callback returns |
| RefactorFinal.ShortBlockSplits | refactor-log-final.py:23-26 | no line of a shortened block holds a line break, so the line-by-line view is exact |
| RefactorFinal.TruncatedBlocks | refactor-log-final.py:12-29 | every matched code block is replaced by its shortening; LongBlockShortened and ShortBlocksUnchanged state what that does to the log |
| RefactorFinal.LongBlockShortened | refactor-log-final.py:12-29 | every long block of the log comes out as its fence and tag, 3 lines, the total and the closing fence |
| RefactorFinal.ShortBlocksUnchanged | refactor-log-final.py:12-29 | a log whose code blocks all have at most 5 stripped lines is left exactly as it was |
| RefactorFinal.MergedLines | refactor-log-final.py:66-88 | the output has exactly one line per input line |
| RefactorFinal.MergedStep | refactor-log-final.py:71-86 | one-step unfolding used to prove the loop: one line of the scan: a `/dev` header of the current project becomes the rule; one of another project is kept and becomes current; any other `## ` header is kept and clears the project; other lines are kept and leave it |
| RefactorFinal.MergeConsecutiveSameProject | refactor-log-final.py:64-88 | the loop over lines gives the merged text of the specification |
| RefactorFinal.MergedLineByLine | refactor-log-final.py:66-88 | line i of the output is the rule exactly when line i is a `/dev` header whose project equals that of the last `## ` header before it, and is line i unchanged otherwise |
| RefactorFinal.MergeKeepsDistinct | refactor-log-final.py:71-86 | with no `/dev` header repeating the open project, every line is kept |
| RefactorFinal.DistinctProjectsUnchanged | refactor-log-final.py:64-88 | a log without repeated project headers comes out of the merge as it went in |
| RefactorFinal.CutPoint | refactor-log-final.py:48-52 | a long body is cut after more than 1500 and at most 3000 characters: at the last paragraph break starting within the first 3000 characters when it lies after character 1500, and at 3000 otherwise |
| RefactorFinal.TruncatedBody | refactor-log-final.py:44-56 | a body of at most 3000 characters is unchanged; a longer one is its text up to the cut followed by a note giving the number of characters left out, which with the kept ones make up the body |
| RefactorFinal.TruncatedFrom | refactor-log-final.py:37-60 | the loop appends exactly one part per piece |
| RefactorFinal.TruncateAt | refactor-log-final.py:38-60 | one step of the loop: a header with the body after it truncated, a header at the end alone, or any other piece as it is |
| RefactorFinal.TruncateLongSections | refactor-log-final.py:31-62 | the `while` loop over the pieces gives the truncated text of the specification |
| RefactorFinal.ShortSectionsUnchanged | refactor-log-final.py:31-62 | a log none of whose pieces is longer than 3000 characters comes out unchanged |
| RefactorFinal.SectionsTruncated | refactor-log-final.py:33-60 | piece by piece, for a log that does not open with a bare `## ` line: the text before the first header and every header line are kept, and every section body is truncated |
| RefactorFinal.FirstPieceNotHeader | refactor-log-final.py:33-40 | the text before the first header never starts with `## ` unless the log opens with a bare `## ` line |
| RefactorFinal.BareFirstLineShiftsPairs | refactor-log-final.py:33-60 | for a log opening with a bare `## ` line and having a header later, the first piece starts with `## `, the header is passed through the body truncation, and the body after it is kept uncut |
| RefactorFinal.EmptySectionAt | refactor-log-final.py:93 | a match is a header line, one or more line breaks, and a next line starting with `## `; there is none exactly when no run of line breaks after the header line reaches a `## ` |
| RefactorFinal.DropEmptySections | refactor-log-final.py:93 | deleting empty sections never lengthens the text |
| RefactorFinal.NoEmptySectionKept | refactor-log-final.py:93 | a log in which no header is followed by blank lines and another header loses nothing |
| RefactorFinal.RuleRun | refactor-log-final.py:95 | the greedy rule run is non-empty exactly when a rule starts there, and lies inside the text |
| RefactorFinal.CollapseRules | refactor-log-final.py:95 | collapsing rule runs never lengthens the text |
| RefactorFinal.RulesCollapse | refactor-log-final.py:95 | k rules in a row, not followed by another, come out as one |
| RefactorFinal.SingleRulesKept | refactor-log-final.py:95 | a log with no two rules back to back keeps all its rules |
| RefactorFinal.RemoveEmptySections | refactor-log-final.py:90-96 | removing empty sections and doubled rules never lengthens the text |
| RefactorFinal.NothingToRemove | refactor-log-final.py:90-96 | a log with no empty section and no two rules back to back is left as it is |
| RefactorFinal.RefactorTalkLog | refactor-log-final.py:102-124 | `main`'s four passes in order (code blocks, projects, long sections, empty sections), with the sizes before and after |
| RefactorFinal.PlainLogUnchanged | refactor-log-final.py:108-121 | a log that none of the four passes has anything to do to comes out unchanged |
| RefactorAllLarge.ProcessFile | refactor-all-large.py:9-107 | the script's four passes (lines 9-82, the same definitions as `refactor-log-final.py`, shared with `RefactorFinal` rather than repeated) composed in the order code, merge, truncate, remove-empty give exactly what `refactor-log-final.py` gives for the same text, with the sizes before and after |
| RefactorLog.ParseSections | refactor-log.py:12-46 | the loop over lines with its open section gives the sections of the parsing specification |
| RefactorLog.NextHeader | refactor-log.py:21-36 | the index is the first `## ` line at or after a position, or the end |
| RefactorLog.SectionsAt | refactor-log.py:21-44 | from a header on there is one section per header line, in increasing line order, each carrying its own header line |
| RefactorLog.SectionsAtSkipNoHeader | refactor-log.py:21-44 | no `## ` line is skipped: none lies between two consecutive sections or after the last one |
| RefactorLog.ParseOpen | refactor-log.py:25-36 | an open section takes the lines up to the next header, joined and stripped, and the scan goes on from that header |
| RefactorLog.ParseBeforeFirst | refactor-log.py:35 | lines before the first header are discarded |
| RefactorLog.ParsedSections | refactor-log.py:12-46 | the loop's sections are exactly one per `## ` line, in order, each with the following lines joined and stripped |
| RefactorLog.ParsedHeadersAreLines | refactor-log.py:12-46 | every parsed header is a single line |
| RefactorLog.DevMatch | refactor-log.py:51 | `^## /dev\s+(.+)$` matches exactly when the header starts with `## /dev` followed by whitespace and at least one more character; the group stripped is the rest of the header stripped |
| RefactorLog.GetProjectName | refactor-log.py:48-55 | a matching header gives its name after `## /dev`, stripped; any other header is returned as it is |
| RefactorLog.SameProjectAsFinal | refactor-log.py:48-55 | for a `## /dev ` header with a name, this script's project name equals the one `refactor-log-final.py` uses |
| RefactorLog.MergeStep | refactor-log.py:77-97 | one-step unfolding used to prove the loop: a section that does not continue the run closes it, and the loop then goes on as from scratch |
| RefactorLog.MergeAt | refactor-log.py:67-97 | one section of the loop: what it emits, followed by the rest of the loop from the new state, is the rest of the loop from the old state |
| RefactorLog.MergeSections | refactor-log.py:57-106 | the loop with its early return and final flush gives the entries of the merge specification |
| RefactorLog.RunContinues | refactor-log.py:73-76 | every section inside a run is a `/dev` section of the run's project |
| RefactorLog.RunStops | refactor-log.py:73-87 | a run stops only at a section that is not a `/dev` section of its project |
| RefactorLog.TextsBetween | refactor-log.py:75-76 | a run keeps only non-empty texts |
| RefactorLog.Merged | refactor-log.py:57-106 | every merged entry has non-empty content |
| RefactorLog.MergeInRun | refactor-log.py:73-87 | inside a run the loop gathers the texts of the run's sections and emits one entry under the run's first header, with the texts joined by the rule, where the run ends |
| RefactorLog.MergeStart | refactor-log.py:67-106 | from a fresh state the loop gives the merged entries: a `/dev` run as one entry under its first header, any other section as its own entry when it has text |
| RefactorLog.MergedOpens | refactor-log.py:85-87 | a `/dev` section opens a run under its own header with its own text |
| RefactorLog.MergeSingle | refactor-log.py:89-97 | a section that is not `/dev` is emitted on its own when it has text, and the state is reset |
| RefactorLog.SectionsMerged | refactor-log.py:57-106 | the loop's output is the merged entries, and every one has non-empty content |
| RefactorLog.Origins | refactor-log.py:67-104 | the entries' source sections are positions in the input |
| RefactorLog.MergedHead | refactor-log.py:67-104 | the first entry from a position, if any, carries the header of the section there, and the rest come from later sections |
| RefactorLog.MergedInOrder | refactor-log.py:67-104 | there is one source section per entry; each entry carries its source section's header; the sources strictly increase, so entries appear in input order |
| RefactorLog.Deduped | refactor-log.py:115-125 | the loop never keeps more paragraphs than it reads |
| RefactorLog.DedupedFromParas | refactor-log.py:115-125 | every kept paragraph is one of the input paragraphs |
| RefactorLog.DeduplicateContent | refactor-log.py:108-127 | the loop over paragraphs, with its set of seen keys, gives the deduplicated text of the specification |
| RefactorLog.DedupAt | refactor-log.py:115-125 | one paragraph of the loop keeps the kept paragraphs and the seen keys equal to those of the specification |
| RefactorLog.SeenStep | refactor-log.py:117-125 | a paragraph is kept exactly when it is short, a heading, or its stripped text was not seen; only long paragraphs add their key |
| RefactorLog.DedupedNoRepeats | refactor-log.py:115-125 | no two kept long paragraphs have the same stripped text |
| RefactorLog.DedupedCovers | refactor-log.py:115-125 | nothing is lost without trace: every paragraph is kept, or is a long one whose stripped text a kept long paragraph has |
| RefactorLog.DedupedKeepsKeys | refactor-log.py:115-125 | the same, for all paragraphs at once |
| RefactorLog.DistinctParagraphsKept | refactor-log.py:115-125 | without a repeated long paragraph every paragraph is kept, in order |
| RefactorLog.DistinctTextUnchanged | refactor-log.py:108-127 | a text without a repeated long paragraph comes back unchanged |
| RefactorLog.WriteEntry | refactor-log.py:137-143 | an entry is written as its header, a blank line, its deduplicated text and a blank line |
| RefactorLog.FormatAt | refactor-log.py:133-143 | one entry of the loop: an entry without text is skipped, any other adds its four lines |
| RefactorLog.FormatOutput | refactor-log.py:129-145 | the output is the date header, a blank line and the lines of every entry with text, joined by line breaks |
| RefactorLog.FormatLength | refactor-log.py:133-143 | entries that all have text give four lines each |
| RefactorLog.FormattedAt | refactor-log.py:133-143 | entry k of entries that all have text is written at lines 4k to 4k+3 |
| RefactorLog.FirstLine | refactor-log.py:165 | the first piece of the split is the text up to its first line break, or all of it |
| RefactorLog.DateHeader | refactor-log.py:164-166 | a log starting with `# ` gives its first line, which is a single line starting with `# `; any other log gives `# Log` |
| RefactorLog.RefactorLogFile | refactor-log.py:158-179 | `main`'s steps in order (date header, parse, merge, format) give the rewritten log, with the sizes before and after |
| RefactorLog.RefactoredLayout | refactor-log.py:129-179 | after the date header and a blank line, each merged entry is written, in the order of the sections it starts from, as that section's header, a blank line, its deduplicated text and a blank line |

## Left out

- Transport: the race between `requestUrl` and the timeout timer (services/GlmApiService.ts:222-238) is not modelled. Each request's outcome comes from the scripted oracle: a body, a timeout or a thrown error. The timeout and the chunk threshold are parameters, because constants.ts does not define them.
- Real sleeping in `delay`: waits are recorded as events, not slept.
- `console` logging: not modelled.
- `FormatApiError`: the error's `response` is taken as already serialised, because `JSON.stringify` is not modelled.
- `buildUserPrompt` (constants.ts): not modelled. A summarising request is identified by the chunk it carries.
- Vault I/O is not modelled: `getDailyNoteFile`, `createDailyNote` and the file reads and writes of `writeSummary`. `writeSummary` is modelled on a map from paths to note texts.
- `readLogFile` and `getDailyNotePattern`: not modelled.
- Dates: `moment` formatting and day arithmetic are a parameter `dayName: int -> string` over day numbers.
- main.ts, settings.ts and modals/DateInputModal.ts (plugin wiring, commands, UI) are not part of this model.
- The Python `main` functions are modelled only as the order of their steps and the two sizes they report. Not modelled: file reads and writes, backups, paths, and the printed percentages and megabytes.
- The percentage computation in every `main` divides by the original size, so an empty input file would raise `ZeroDivisionError`. This reporting is not modelled.
- `remove_freetalk_fluff` (refactor-log-aggressive.py:53-67): not modelled, because `main` never calls it.
- `max_chars` of `truncate_long_outputs`: never used by the code, so not modelled.
- `skip_until_next_section` of `merge_consecutive_same_project`: never read by the code, so not modelled.
- Python `hash()` is modelled as equality of the hashed strings, in `deduplicate_similar_sections` and `deduplicate_content`. Hash collisions, which would make two different texts count as equal, are not modelled.
- Character classes: `\w` is modelled as ASCII letters, digits and `_`, which is narrower than Python's Unicode `\w`. `\s`, `trim` and `strip` use their full whitespace sets.
- Lengths count Dafny characters. JavaScript counts UTF-16 code units and Python counts code points, so the two differ on text outside the Basic Multilingual Plane.
- `deduplicate_similar_sections` writes "Similar to section at line N". N is the index of the earlier header in the output list, not a line number. The model keeps that index.
- ResponseNormalizer.CleanXmlTags: its result is not idempotent, and no idempotence is claimed. Fence removal runs before tag stripping, so "``<x>`" becomes "```" after one pass, and a second pass then deletes those backquotes.
- RefactorAggressive.DistinctSectionsUnchanged: its condition (no long body repeating an earlier key) is sufficient for an unchanged text, not necessary.
- RefactorFinal.SectionsTruncated is stated only for logs that do not open with a bare `## ` line. On such a log, `re.split` returns a first piece starting with `## `. The loop then takes that piece as a header and the real header after it as a body. The loop itself (TruncatedFrom, TruncateLongSections) models this case as written, and BareFirstLineShiftsPairs states what it then does.
- RefactorFinal.SingleRulesKept: it states only one direction, that a log without two rules back to back keeps its rules. The collapsed text is not claimed to be free of doubled rules.
- RefactorFinal.TruncatedBody: no "never longer" claim is made, because truncation can lengthen a body. A 3001-character body without a paragraph break keeps 3000 characters and gains the omission note. The same holds for the block shortening of both `truncate_code_blocks` variants.
- RefactorLog.GetProjectName requires a single-line header, as every header `parse_sections` produces is (ParsedHeadersAreLines). For that reason, RefactorLog.DevProject treats a header holding a line break as not `/dev`; no parsed header reaches that case.
- RefactorLog.SameProjectAsFinal covers only headers with a name after `## /dev `. For the bare header `## /dev `, `refactor-log.py` uses the whole header as the project, while `refactor-log-final.py` uses the empty string. The model keeps both behaviours as written.
