# Deep-Research-Comparator: a verified model of its streaming core

Deep-Research-Comparator is an arena for research agents. Two (or three) agents answer the
same question side by side, and users vote on them. This project models the parts that carry
an answer from an agent to the screen, and proves properties of that model:

- **The action protocol of the baseline agent** (`action_protocol.dfy`, module `ActionProtocol`):
  - `postprocess_response`, the validator that keeps one tagged directive (`<search>`,
    `<answer>`, `<plan>`, `<scripts>`, `<summary>`) out of a free-form model reply and puts it
    in canonical form;
  - `parse_action`, the parser that splits the canonical form back into kind and content;
  - `_compose_final_output`, the final-answer extraction;
  - `remove_markdown_blocks`, the code-fence stripper.
- **The baseline agent's loop** (`agent.dfy`, module `Agent`, class `LLMAgent`):
  - the format-checking retry loop around the model (`query_gemini`);
  - the counter state machine that executes a directive (`execute_response`);
  - the prompt builder with its reminders and its compaction hint (`_update_input`);
  - the bounded turn loop that streams the accumulated steps and then the final report
    (`run_llm_loop`).
- **The producer normalisers**, which turn each backend's native events into progress frames:
  - Perplexity (`perplexity.dfy`): `<think>` routing, blank lines turned into step separators,
    citations forwarded only when they change, and a closing frame on every path;
  - gpt-researcher (`gpt_researcher.dfy`): the fold over `logs`/`report`/`error` messages.
- **The stream aggregator of the arena backend** (`aggregator.dfy`):
  - the `data:` line filter;
  - the per-agent worker that relabels frames and always ends with a sentinel;
  - the merge loop that upserts both workers' payloads into one state and yields snapshots,
    heartbeats and a closing frame;
  - the request validation.
- **The outlink rewrite of the retriever** (`outlinks.dfy`): `match_outlinks_to_doc`.
- **The browser side**:
  - the two stream readers, `streamResponse` and `streamAgentsResponse` (`client_stream.dfy`):
    line buffering across chunks, and the folding of each data line into every agent's
    last-known state;
  - the chat message's citation processing (`citations.dfy`): `%[n]%` unwrapping, URL dedup
    and marker renumbering;
  - the intermediate-step display (`intermediate_display.dfy`): step split, three-step
    preview, last-step flag. The preview is modelled as the UTF-16 code units that
    JavaScript's `length` and `slice` count, so a character beyond U+FFFF counts twice and
    the clip may cut a surrogate pair in two.

`strings.dfy` holds Python's and JavaScript's string built-ins as used by the source:
`strip`/`trim`, `find`, `rfind`, `count`, `replace`, `split`, `join` and decimal
conversion. `json.dfy` holds decoded JSON values with each language's truthiness, and
`wrappers.dfy` holds `Option` and `Result`.

Where the code is imperative (loops updating variables, the agent object updating its
counters), the model is a method with loop invariants. Each such method is proved equal to a
specification function, and the properties are proved about that function. The model and the
search engine are oracles: the model maps the number of the call to its reply. The asyncio
queue of the aggregator is the sequence of events the merge loop sees, with explicit timeouts.

Places where the code does something other than a plain reading of its design:

- The final report of `run_llm_loop` is composed from the *last* validated action, whatever
  its kind. It is not composed specifically from an answer directive.
- A summary whose content holds `</answer>` but no `<answer>` makes `_compose_final_output`
  raise an index error.
- The merge loop's closing frame forces agent A complete twice and never forces agent B.
  `Aggregator.WorkersClose` proves that B is complete there anyway, whenever both workers
  run to their sentinel.
- Sentinel snapshots carry the key `final`; data and closing snapshots carry `is_final`. The
  browser reads `final`, so it sees `is_final` only on the second sentinel's snapshot.
- The Perplexity closing frame is flagged `is_complete`, not `complete`.
- Reading back the steps the agent writes gives the steps only when the first separator
  after each step is the one written after it. A step that merely does not hold the
  separator is not enough: `IntermediateDisplay.SeparatorOverlap` shows a step ending in
  `|||---` being cut in two.

## Model

| member | source | states |
|---|---|---|
| ActionProtocol.ActionsComplete | backend/Simple_DeepResearch_server/main.py:73 | every action kind is in ACTIONS, so the validator visits each |
| ActionProtocol.KindOf | backend/Simple_DeepResearch_server/main.py:331-359 | the dispatch finds the kind whose name is given, and fails only for a name no kind has |
| ActionProtocol.KindOfName | backend/Simple_DeepResearch_server/main.py:331-359 | every kind is dispatched on its own name |
| ActionProtocol.Directive | backend/Simple_DeepResearch_server/main.py:252-308 | the content of an accepted directive is trimmed |
| ActionProtocol.CountAllTags | backend/Simple_DeepResearch_server/main.py:260-267 | the first loop records, for every action, the number of its opening and closing tags |
| ActionProtocol.CollectValidActions | backend/Simple_DeepResearch_server/main.py:270-283 | the second loop gives up exactly when some kind's tags are unpaired or repeated; otherwise it collects the kinds whose tags occur once, in ACTIONS order |
| ActionProtocol.PostprocessResponse | backend/Simple_DeepResearch_server/main.py:252-308 | the validator returns the canonical directive of the reply, or None |
| ActionProtocol.OnceKindsMembers | backend/Simple_DeepResearch_server/main.py:280-282 | a kind is collected exactly when its opening tag occurs once |
| ActionProtocol.DirectiveCounts | backend/Simple_DeepResearch_server/main.py:260-267 | a reply with one directive and no other `<` has one opening and one closing tag of its kind and none of any other |
| ActionProtocol.ValidateDirective | backend/Simple_DeepResearch_server/main.py:252-308 | a reply with one directive of any kind and no other `<` is accepted and rewritten to `<k>content</k>` with the content trimmed |
| ActionProtocol.AllPairedIff | backend/Simple_DeepResearch_server/main.py:270-278 | the pairing check passes exactly when every kind has as many closing tags as opening ones, and at most one |
| ActionProtocol.OnceKindsSingle | backend/Simple_DeepResearch_server/main.py:280-286 | when only one kind's opening tag occurs once, it is the only candidate |
| ActionProtocol.ValidateOfSingleKind | backend/Simple_DeepResearch_server/main.py:284-294 | with one pair of tags of a single non-summary kind, the validator returns the first match's trimmed content in canonical form |
| ActionProtocol.ValidateSingleDirective | backend/Simple_DeepResearch_server/main.py:260-294 | a single non-summary directive with no other `<` is accepted in canonical form with trimmed content |
| ActionProtocol.ValidateSummaryDirective | backend/Simple_DeepResearch_server/main.py:295-306 | a single summary directive with no other `<` is accepted in canonical form with trimmed content |
| ActionProtocol.ValidateRejectsUnpaired | backend/Simple_DeepResearch_server/main.py:270-278 | without `<summary>`, a kind whose tags are unpaired or repeated makes the reply invalid |
| ActionProtocol.ValidateRejectsTwo | backend/Simple_DeepResearch_server/main.py:284-286 | without `<summary>`, two different directives make the reply invalid |
| ActionProtocol.ValidateRejectsNone | backend/Simple_DeepResearch_server/main.py:270-286 | without `<summary>`, a reply in which no kind's opening tag occurs exactly once, such as one with no directive tag at all, is invalid |
| ActionProtocol.ValidatedHasOneKind | backend/Simple_DeepResearch_server/main.py:270-294 | without `<summary>`, an accepted reply holds its kind's opening and closing tags once each and no tag of any other kind |
| ActionProtocol.ValidateRejectsCloseBeforeOpen | backend/Simple_DeepResearch_server/main.py:288-308 | a directive whose closing tag comes before its opening tag is missed by the non-greedy match, and the reply is invalid |
| ActionProtocol.ValidateOfMiss | backend/Simple_DeepResearch_server/main.py:288-308 | when the only candidate's pattern does not match, the validator falls through to None |
| ActionProtocol.SummaryShortCircuits | backend/Simple_DeepResearch_server/main.py:295-306 | once `<summary>` occurs the other tags are not checked: the reply is accepted exactly when `</summary>` occurs, as a summary with trimmed content |
| ActionProtocol.SummaryContent | backend/Simple_DeepResearch_server/main.py:296-306 | with the first `<summary>` at `i` and the last `</summary>` at `j`, the reply is accepted as a summary whose content is the text from `i` plus the tag's length to `j`, trimmed |
| ActionProtocol.SummaryCloseBeforeOpen | backend/Simple_DeepResearch_server/main.py:296-306 | a last `</summary>` before the end of the first `<summary>` gives an empty summary |
| ActionProtocol.ValidatedContentTagFree | backend/Simple_DeepResearch_server/main.py:288-294 | the content kept for a non-summary directive holds neither of its tags |
| ActionProtocol.ParseOfWrap | backend/Simple_DeepResearch_server/main.py:363-388 | `parse_action` inverts the canonical form: it returns the kind's name and the trimmed content, whatever the content holds |
| ActionProtocol.ParseOfTagged | backend/Simple_DeepResearch_server/main.py:363-388 | on an opening tag, any content and a closing tag, the parser returns the tag's name and the trimmed content |
| ActionProtocol.ValidatedIsCanonical | backend/Simple_DeepResearch_server/main.py:363-388 | what the validator returns is parsed back to its own kind and content, and the dispatch recognises that kind |
| ActionProtocol.WrapInjective | backend/Simple_DeepResearch_server/main.py:294 | the canonical form determines kind and content |
| ActionProtocol.Before | backend/Simple_DeepResearch_server/main.py:428 | `split(sep)[0]`: the whole string when `sep` does not occur; otherwise the text before the first `sep`, which follows it and occurs nowhere earlier |
| ActionProtocol.ComposeOfAnswer | backend/Simple_DeepResearch_server/main.py:426-430 | on a canonical answer whose content holds neither answer tag, the final output is that content |
| ActionProtocol.ComposeOfValidatedAnswer | backend/Simple_DeepResearch_server/main.py:426-430 | a validated answer's final output is exactly its content |
| ActionProtocol.StripFenceLine | backend/Simple_DeepResearch_server/main.py:439-442 | the line is the result preceded by ```` ``` ```` exactly when the line starts with it, and followed by ``` `` ``` exactly when the rest ends with it; a line with no backquote is unchanged |
| ActionProtocol.RemoveMarkdownBlocksLines | backend/Simple_DeepResearch_server/main.py:439-442 | the fence stripper keeps the line structure: each output line is the input line with its fence marks removed |
| Agent.LastPartTextIsLast | backend/Simple_DeepResearch_server/main.py:220-226 | the text read from a reply is that of a part of the right kind with no later non-empty part of that kind, and "" exactly when there is none |
| Agent.ExtractParts | backend/Simple_DeepResearch_server/main.py:220-226 | the loop over the parts keeps the last non-empty thought and the last non-empty answer text |
| Agent.AttemptsCalls | backend/Simple_DeepResearch_server/main.py:202-244 | one model call per attempt, at most `max_try_time`; it raises only after the last attempt is refused, and falls through only when the last call failed |
| Agent.AttemptsAccepted | backend/Simple_DeepResearch_server/main.py:233-250 | an accepted directive is the validator's verdict on the last reply's text, and the thought comes from the same reply |
| Agent.AttemptsPrompt | backend/Simple_DeepResearch_server/main.py:235-244 | the prompt gains one format reminder per refused reply, and nothing else |
| Agent.RetryLoop | backend/Simple_DeepResearch_server/main.py:202-250 | the retry loop computes the specified outcome and call count, and on success the context length of the prompt plus the reply with its thought |
| Agent.ReplayCounts | backend/Simple_DeepResearch_server/main.py:331-357 | from fresh counters: the searches, scripts and summaries are counted, the consecutive searches are those since the last plan, scripts or summary, and the summary history is the last summary |
| Agent.ReplayTotals | backend/Simple_DeepResearch_server/main.py:333-355 | the total counters count the directives of their kind |
| Agent.ReplayRun | backend/Simple_DeepResearch_server/main.py:333-354 | the consecutive-search counter counts the searches since the last plan, scripts or summary |
| Agent.ReplaySummary | backend/Simple_DeepResearch_server/main.py:352-356 | the summary history is the content of the last summary |
| Agent.ReplayKeepsRunBound | backend/Simple_DeepResearch_server/main.py:331-357 | the consecutive searches never exceed the searches, and each directive adds at most one to the totals |
| Agent.SearchObservationNames | backend/Simple_DeepResearch_server/main.py:337-346 | a search observation names the query after its header and ends with the stripped first URL |
| Agent.ValidatedExecutes | backend/Simple_DeepResearch_server/main.py:320-330 | a validated directive parses and dispatches, and searches only for a non-empty search query |
| Agent.EventsAt | backend/Simple_DeepResearch_server/main.py:164-172 | the i-th intermediate event carries every step so far, each followed by the separator |
| Agent.EventsGrow | backend/Simple_DeepResearch_server/main.py:164-172 | each intermediate event extends the previous one by one step and the separator |
| Agent.AcceptedAction | backend/Simple_DeepResearch_server/main.py:111-112 | what the validator accepted parses back to the directive, and an answer composes to its content |
| Agent.LLMAgent.constructor | backend/Simple_DeepResearch_server/main.py:82-98 | a new agent has zero counters, no steps, no context lengths and an empty summary history |
| Agent.LLMAgent.QueryGemini | backend/Simple_DeepResearch_server/main.py:194-250 | the retry loop with `postprocess_response` as validator; a context length is appended exactly on success |
| Agent.LLMAgent.ExecuteResponse | backend/Simple_DeepResearch_server/main.py:310-361 | a parse error, a failed search or an unknown kind raises and leaves the counters unchanged; otherwise the counters take the directive's transition and the turn result is returned |
| Agent.LLMAgent.Dispatch | backend/Simple_DeepResearch_server/main.py:331-359 | the per-kind counter updates and turn result, and the error for an unknown kind |
| Agent.LLMAgent.UpdateInputExtends | backend/Simple_DeepResearch_server/main.py:404-412 | without a summary the next prompt extends the previous prompt and this turn's context; after one it restarts from the question's prompt and the summarised turns |
| Agent.LLMAgent.CompactionHint | backend/Simple_DeepResearch_server/main.py:420-422 | the summary reminder is appended exactly when the prompt exceeds 40000 characters |
| Agent.LLMAgent.NotesOnlyWhen | backend/Simple_DeepResearch_server/main.py:414-418 | the search and turns reminders appear exactly past their thresholds |
| Agent.LLMAgent.SummaryRestarts | backend/Simple_DeepResearch_server/main.py:404-409 | after a summary the next prompt does not depend on the previous prompt or reply |
| Agent.LLMAgent.ActOnReply | backend/Simple_DeepResearch_server/main.py:111-124 | a turn that does not raise acts on an accepted, parsed directive: the action parses to that directive's kind name and content, the thought is the thought part of the accepted reply, the result is what executing the directive gives (a search observing its first URL), it is done exactly for an answer, and the directive's counter transition is applied |
| Agent.LLMAgent.TakeTurn | backend/Simple_DeepResearch_server/main.py:105-180 | one turn counts itself; when it does not raise, its result is what executing the directive gives, the reply handed to the next prompt is `<think>` + the reply's thought part + `</think>` + a blank line + the action, and its step is the step text for the turn's number, that thought, the kind's name, the content (fence-stripped for scripts and summary) and the observation; the step and the separator are appended to the steps text and the next prompt is built from the result |
| Agent.LLMAgent.RunTurns | backend/Simple_DeepResearch_server/main.py:104-184 | at most `max_turns` turns; only the last directive may be an answer; the run stops early only on an answer or an abort; each result is what executing its directive gives, and each step is the step text for its turn's number, its reply's thought, its directive and its result; counters, steps text and events follow the directives |
| Agent.LLMAgent.RecordedTurn | backend/Simple_DeepResearch_server/main.py:105-180 | one turn extends the run's history by one entry each (accepted reply, directive, result, thought, step) and keeps it consistent: the step is its turn's step text, the counters replay the directives, the steps text accumulates the steps and one more intermediate event carries it |
| Agent.LLMAgent.RunLlmLoop | backend/Simple_DeepResearch_server/main.py:100-192 | a finished run yields the intermediate events and then one final event whose report is composed from the last validated action; it crashes only when there is no action or the composition raises; each step is the step text of its turn |
| Strings.Trim | frontend/src/components/IntermediateDisplay.tsx:26 | `trim()`: the result is a slice of the input with no whitespace at either end |
| Strings.TrimDropsSpace | frontend/src/components/IntermediateDisplay.tsx:26 | only whitespace is removed around the trimmed slice |
| Strings.JoinSplit | frontend/src/components/IntermediateDisplay.tsx:25 | splitting at the separator loses nothing: the pieces joined by it give back the text |
| Strings.RFindLast | backend/Simple_DeepResearch_server/main.py:299 | `rfind` finds the last occurrence, and nothing only when there is none |
| Strings.FindFromFirst | backend/Simple_DeepResearch_server/main.py:297 | `find` finds the first occurrence, and nothing only when there is none |
| Aggregator.StreamingProducer | backend/app/app.py:135-157 | the producer yields the decoded non-empty `data:` lines, then one error frame when the stream failed |
| Aggregator.FramesAppend | backend/app/app.py:145-153 | the line filter works line by line |
| Aggregator.FramesBounded | backend/app/app.py:145-153 | no line yields more than one frame |
| Aggregator.FramedLine | backend/app/app.py:146-151 | a `data: ` line yields what its text decodes to |
| Aggregator.KeyInjective | backend/app/app.py:215-222 | distinct fields are forwarded under distinct labelled keys |
| Aggregator.AgentTaskWorker | backend/app/app.py:180-234 | the worker enqueues the specified items |
| Aggregator.BuildPayload | backend/app/app.py:215-222 | the forwarded payload is the specified field copy |
| Aggregator.RelayPayloads | backend/app/app.py:207-224 | every relayed item carries the worker's label and a payload |
| Aggregator.WorkerEndsWithSentinel | backend/app/app.py:193-234 | on every path the worker labels its items and enqueues exactly one sentinel, last |
| Aggregator.WorkerSentinels | backend/app/app.py:193-234 | the worker's only sentinel is its own |
| Aggregator.RelayStopsAt | backend/app/app.py:210-227 | nothing after the first error, completed or malformed frame is relayed |
| Aggregator.ForwardFields | backend/app/app.py:215-222 | a tracked field is forwarded exactly when it is present and not null, with its value |
| Aggregator.ForwardOnly | backend/app/app.py:215-222 | nothing but the four tracked fields is forwarded |
| Aggregator.ApplyChunk | backend/app/app.py:322-348 | the field-by-field upsert is the specified merge |
| Aggregator.GenerateAgentResponses | backend/app/app.py:266-364 | the merge loop yields the opening frame, then the specified frames |
| Aggregator.AbsorbFields | backend/app/app.py:322-348 | the upsert changes only the fields the payload names; a final report without an explicit flag ends the intermediate phase; completion is never touched |
| Aggregator.UpsertIdempotent | backend/app/app.py:322-348 | applying a payload twice is applying it once |
| Aggregator.FinalPayloadIgnored | backend/app/app.py:229-232 | the error payloads keyed `<agent>_final` leave the combined state unchanged |
| Aggregator.TimeoutsTransparent | backend/app/app.py:296-303 | a timeout only adds a heartbeat |
| Aggregator.ClosesAfterSentinels | backend/app/app.py:295-364 | the loop closes exactly when the awaited sentinels arrive; the closing frame is last and has agent A complete |
| Aggregator.SentinelsInterleave | backend/app/app.py:281-298 | the merge sees exactly the two workers' sentinels, whatever the interleaving |
| Aggregator.TwoSentinels | backend/app/app.py:281-320 | two workers ending with one sentinel each give the loop two sentinels, one of them B's |
| Aggregator.WorkersClose | backend/app/app.py:266-364 | whatever the interleaving and the timeouts, the last frame is the closing one, with both agents complete |
| Aggregator.ValidateRequest | backend/app/app.py:160-261 | a body that is not an object fails; the 400 refuses exactly a selection lacking either agent; a selected value that is truthy but not a string fails with the uncaught `uuid.UUID` error (HTTP 500); an accepted request carries its question (or the default) and the non-empty ids the database gives for both UUID strings; the 404 lists exactly the agents not found |
| Aggregator.NumberSelectionRaises | backend/app/app.py:160-166 | a non-zero number selected for agent A makes the endpoint fail with the uncaught error, whatever the database holds and whatever agent B is |
| Aggregator.SelectionRefused | backend/app/app.py:247-248 | the 400 refuses exactly a missing, non-object or incomplete selection |
| Perplexity.Consume | backend/perplexity_server/main.py:137-194 | a chunk either continues with an update frame or ends the loop with an error frame |
| Perplexity.PerplexityProducer | backend/perplexity_server/main.py:126-208 | the generator yields the specified frames |
| Perplexity.ConsumeChunk | backend/perplexity_server/main.py:137-194 | the loop body is the specified chunk step |
| Perplexity.RouteChunk | backend/perplexity_server/main.py:146-175 | the routing branches are the specified routing |
| Perplexity.RouteOutside | backend/perplexity_server/main.py:173-175 | outside a block, a chunk with no `<think>` goes whole to the final text |
| Perplexity.RouteInside | backend/perplexity_server/main.py:147-156 | inside a block, the chunk up to the first `</think>` goes to the intermediate text and the rest to the final text, closing the block |
| Perplexity.RouteOpening | backend/perplexity_server/main.py:157-172 | an opening chunk sends its prefix to the final text and splits the rest again at `</think>` |
| Perplexity.TidyNoBlank | backend/perplexity_server/main.py:177-179 | after each chunk the intermediate text holds no blank line |
| Perplexity.ChunkFrame | backend/perplexity_server/main.py:177-194 | the chunk's frame reports the block state and is incomplete; it carries citations exactly when they changed |
| Perplexity.EndsWithClosing | backend/perplexity_server/main.py:136-208 | the generator ends with exactly one closing frame, with at most one error frame right before it |
| Perplexity.ClosingEncoded | backend/perplexity_server/main.py:200-208 | only the closing frame is flagged `is_complete`, with the block closed and all citations; no frame carries `complete` |
| GptResearcher.GptResearcherProducer | backend/gpt_researcher_server/main.py:60-100 | the message loop yields the specified frames |
| GptResearcher.ReadMessage | backend/gpt_researcher_server/main.py:61-90 | the loop body is the specified message step |
| GptResearcher.ReadLogs | backend/gpt_researcher_server/main.py:71-75 | a `logs` message starts reasoning and appends its stripped output and a blank line, unless that is empty |
| GptResearcher.ReadReport | backend/gpt_researcher_server/main.py:76-79 | a `report` message ends reasoning and appends its unstripped output |
| GptResearcher.ReadOther | backend/gpt_researcher_server/main.py:66-90 | a message of any other type changes nothing |
| GptResearcher.ReadGrows | backend/gpt_researcher_server/main.py:71-79 | the thinking log and report only grow |
| GptResearcher.ResearchAbove | backend/gpt_researcher_server/main.py:60-100 | every later snapshot extends the current log and report |
| GptResearcher.SnapshotsGrow | backend/gpt_researcher_server/main.py:60-100 | each snapshot has every earlier one's log and report as prefixes |
| GptResearcher.ResearchEnds | backend/gpt_researcher_server/main.py:60-105 | the producer ends with the complete, non-reasoning closing snapshot, or with the crash error; earlier snapshots are incomplete |
| GptResearcher.SnapshotNotForwarded | backend/gpt_researcher_server/main.py:85-90 | as written, the relaying worker forwards nothing from a snapshot |
| GptResearcher.NormalisedForwarded | backend/gpt_researcher_server/main.py:85-100 | with the normalised keys, the worker forwards the log, the report and the reasoning flag |
| Outlinks.MatchOutlinksToDoc | backend/Simple_DeepResearch_server/retrieval.py:203-223 | the rewritten text with the header and unmatched links appended, the number unmatched and the number of outlinks |
| Outlinks.LinkedFirstOccurrence | backend/Simple_DeepResearch_server/retrieval.py:208-214 | a found anchor has its first occurrence, and only that, replaced by the link; an absent anchor changes nothing |
| Outlinks.EmptyAnchorLeads | backend/Simple_DeepResearch_server/retrieval.py:208-214 | an empty anchor puts its link in front of the text |
| Outlinks.UnmatchedInOrder | backend/Simple_DeepResearch_server/retrieval.py:215-217 | the unmatched links are links of the outlinks, in order, at most one per outlink |
| Outlinks.MatchAllGrows | backend/Simple_DeepResearch_server/retrieval.py:206-217 | each match lengthens the text, which is unchanged exactly when nothing matched |
| Outlinks.EndsWithUnmatched | backend/Simple_DeepResearch_server/retrieval.py:218-221 | the result always ends with the header and the unmatched links |
| ClientStream.ReadLines | frontend/src/utils/streaming.ts:87-103 | the read loop handles exactly the newline-terminated lines of all chunks in order, keeping the unterminated rest in the buffer |
| ClientStream.HandleLines | frontend/src/utils/streaming.ts:103-208 | the inner loop continues the run over one read's complete lines |
| ClientStream.PendingIsTail | frontend/src/utils/streaming.ts:99-101 | the buffer is the text after the last newline, and the complete lines joined back make the rest |
| ClientStream.TailIgnored | frontend/src/utils/streaming.ts:87-101 | text with no newline adds no line to handle |
| ClientStream.SkippedLines | frontend/src/utils/streaming.ts:103-110 | blank, undecodable and `null` lines change nothing |
| ClientStream.ErrorLine | frontend/src/utils/streaming.ts:111-120 | an error line hands on a final error chunk and keeps the state |
| ClientStream.HeartbeatLine | frontend/src/utils/streaming.ts:122-125 | a heartbeat does nothing |
| ClientStream.DataLineEmits | frontend/src/utils/streaming.ts:127-202 | a data line emits a snapshot of the new state exactly when no report raises; `is_final` is the line's `final` |
| ClientStream.DataLineSteps | frontend/src/utils/streaming.ts:137-145 | an agent's steps change only by a non-null value under its own name |
| ClientStream.DataLineReports | frontend/src/utils/streaming.ts:147-153 | a string report replaces the agent's content with its fence removed, up to the first report that raises |
| ClientStream.DataLineCitations | frontend/src/utils/streaming.ts:155-164 | an array replaces the citations by one record per element; anything else keeps them |
| ClientStream.DataLineMetadata | frontend/src/utils/streaming.ts:128-135 | truthy metadata replaces passages, types and the agents entry by its non-null values |
| ClientStream.StripFenced | frontend/src/utils/streaming.ts:149 | the fence strip removes a markdown fence |
| ClientStream.StripUnfenced | frontend/src/utils/streaming.ts:149 | an unfenced report is kept, and the strip never lengthens |
| ClientStream.Stream | frontend/src/utils/streaming.ts:55-69 | an error status emits the connect error and throws; no body throws; otherwise the lines are processed |
| ClientStream.StreamResponse | frontend/src/utils/streaming.ts:41-210 | the two-agent reader |
| ClientStream.StreamAgentsResponse | frontend/src/utils/streamingAgents.ts:50-253 | the three-agent reader |
| ChatCitations.FindUrl | frontend/src/components/ChatMessage.tsx:44 | `findIndex`: the first position with the URL, or -1 when there is none |
| ChatCitations.DedupCitations | frontend/src/components/ChatMessage.tsx:39-51 | the loop builds the specified reduced list and map |
| ChatCitations.DedupDistinct | frontend/src/components/ChatMessage.tsx:43-51 | no URL is kept twice |
| ChatCitations.DedupNumbering | frontend/src/components/ChatMessage.tsx:43-51 | every original position is mapped to the position of its URL in the reduced list |
| ChatCitations.DedupFirstOccurrences | frontend/src/components/ChatMessage.tsx:43-51 | the reduced list is the first citation for each URL, in order |
| ChatCitations.DedupShorter | frontend/src/components/ChatMessage.tsx:43-51 | there are never more entries than citations |
| ChatCitations.UnwrapOne | frontend/src/components/ChatMessage.tsx:37 | `%[n]%` becomes `[n]` |
| ChatCitations.UnmarkedKept | frontend/src/components/ChatMessage.tsx:37-62 | text without markers is kept by both rewrites |
| ChatCitations.RenumberMapped | frontend/src/components/ChatMessage.tsx:55-62 | a mapped marker is renumbered once |
| ChatCitations.RenumberUnmapped | frontend/src/components/ChatMessage.tsx:55-62 | an unmapped marker is kept |
| ChatCitations.PrepareMessage | frontend/src/components/ChatMessage.tsx:31-71 | a user or empty message is shown as is; otherwise the text is unwrapped, and renumbered against the reduced list when there are citations |
| IntermediateDisplay.TrimmedSteps | frontend/src/components/IntermediateDisplay.tsx:24-27 | the steps are trimmed and non-empty, and there are no more of them than pieces |
| IntermediateDisplay.StepsClean | frontend/src/components/IntermediateDisplay.tsx:24-27 | no step is empty, untrimmed or holds the separator |
| IntermediateDisplay.TrimmedStepsOfClean | frontend/src/components/IntermediateDisplay.tsx:24-27 | clean steps come through the split unchanged |
| IntermediateDisplay.AccumulateJoins | backend/Simple_DeepResearch_server/main.py:164 | the agent's text is its steps joined by the separator, with an empty last piece |
| IntermediateDisplay.StepsOfAccumulated | frontend/src/components/IntermediateDisplay.tsx:24-27 | the display reads back the steps the agent wrote, when the first separator after each step is the one written after it |
| IntermediateDisplay.SeparatorOverlap | frontend/src/components/IntermediateDisplay.tsx:24-27 | a step ending in `|||---` holds no separator yet comes back cut in two |
| IntermediateDisplay.LastThree | frontend/src/components/IntermediateDisplay.tsx:36 | `slice(-3)`: the last three steps, or all of them |
| IntermediateDisplay.CharUnits | frontend/src/components/IntermediateDisplay.tsx:38 | a JavaScript string holds a character below U+10000 as one code unit and any other as a surrogate pair |
| IntermediateDisplay.Utf16Length | frontend/src/components/IntermediateDisplay.tsx:38 | `length` is between the number of characters and twice that |
| IntermediateDisplay.Utf16Append | frontend/src/components/IntermediateDisplay.tsx:37-38 | the code units of joined text are the code units of its pieces, in order |
| IntermediateDisplay.ClipKeepsEnd | frontend/src/components/IntermediateDisplay.tsx:38 | clipping gives at most 203 UTF-16 code units, is empty only for an empty text, and keeps the last 200 code units of the text's end |
| IntermediateDisplay.PreviewShape | frontend/src/components/IntermediateDisplay.tsx:31-39 | the preview is empty exactly when there are no steps, is at most 203 UTF-16 code units long, and ends with the latest step's last 200 code units |
| IntermediateDisplay.PreviewOfBmp | frontend/src/components/IntermediateDisplay.tsx:38 | for text without characters beyond U+FFFF, the clip counts characters: at most 200 are kept after the ellipsis |
| IntermediateDisplay.SupplementaryCountsTwice | frontend/src/components/IntermediateDisplay.tsx:38 | a character beyond U+FFFF is two code units, so it counts twice towards the limit |
| IntermediateDisplay.PreviewOfRecent | frontend/src/components/IntermediateDisplay.tsx:36 | only the last three steps matter to the preview |
| IntermediateDisplay.LastStepFlags | frontend/src/components/IntermediateDisplay.tsx:67 | at most one step is flagged, the last one, and only while the agent is intermediate |
| IntermediateDisplay.Render | frontend/src/components/IntermediateDisplay.tsx:18-39 | nothing is rendered exactly for an empty text; the preview is empty exactly when there are no steps |

## Left out

- I/O, HTTP routes, databases, authentication, rankings and votes: outside the streaming core.
- The Gemini model and the ClueWeb search are oracles given as parameters. A search that raises
  is `None`. Perplexity's own client is not part of this model; its chunks are the input.
- `exit()` after an exception inside a turn of `run_llm_loop` is modelled as an abort outcome
  of the loop. The process ending is not modelled.
- asyncio is not modelled: tasks, the queue, `wait_for` and cancellation. The merge loop reads
  a pre-interleaved sequence of queue items and timeouts. When that sequence runs out before
  both sentinels, the model stops, where the real loop would keep waiting.
- Aggregator.WorkersClose: holds for citation values that are lists, objects or strings. The
  merge loop's logging calls `len` on a forwarded citation value, which raises on a number or
  a boolean; the model does not capture that crash.
- `fix_markdown`, the JSON decoders and the texts of exceptions are parameters. Perplexity's
  Markdown clean-up is not modelled.
- The gpt-researcher research task and its end-of-task `None` are not modelled. The model's
  input is the messages sent before it.
- `TextDecoder` chunk boundaries inside a multi-byte character are not modelled. The body is a
  sequence of already-decoded strings.
- `strip()` and `trim()` remove the six ASCII whitespace characters. Other Unicode whitespace
  is not modelled.
- JSON numbers are integers. Floating point is left out.
- An outlink is modelled by its URL and anchor text only. The other four fields of the tuple
  are unused by the rewrite.
- The `onChunk` callback is modelled as the sequence of chunks handed on. Console logging is
  left out.
- The 404 detail text of the request validation is modelled as the list of missing labels.
  The database lookup is a parameter from UUID string to agent id. It also covers a malformed
  UUID string: the `ValueError` that `get_agent_id_from_uuid` catches.
- React state, rendering and the collapse toggle are not modelled. The display is modelled
  as the values it renders.

## Findings

| source | as written | input that shows it | evidently intended | confidence | as-written member | corrected member |
|---|---|---|---|---|---|---|
| backend/gpt_researcher_server/main.py:85-100 | snapshots carry `think`, `final` and `is_reasoning`, but the relaying worker (backend/app/app.py:215-222) forwards only `intermediate_steps`, `final_report`, `is_intermediate` and `citations` | any gpt-researcher snapshot: the worker relays an empty payload, so the arena never shows this agent's log or report | the producer emits the normalised keys every other producer uses, so its log, report and reasoning flag reach the browser | high; not executed | GptResearcher.SnapshotNotForwarded | GptResearcher.NormalisedForwarded |
