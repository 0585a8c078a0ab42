# A model of the guardrails filter, with proofs

The service stands between clients and language-model providers. On the way out it replaces sensitive
values by placeholders such as `<EMAIL_1>`; on the way back it restores them, also inside responses that
arrive token by token as server-sent events. The modules below model that path from end to end, and the
parts of the service it rests on: rule scanning, the two static analyses of rule regexes, duplicate-key
collapse of request bodies, the audit listing, the rule snapshot protocol and the check-digit validators.

Texts are byte strings, one `char` per byte. In the regex modules (`RegexTree`, `KeywordFilter`,
`MatchLength`, `DriftPattern`) a `char` is one rune; where both meet, a function value reads bytes as runes.
Code that updates state in place is a class or a loop proved against a function of the inputs or of the old
state; what that function guarantees is then proved as lemmas. Library calls (RE2 search, JSON parsing,
Unicode tables) are parameters, constrained only by what is used of them. Iteration over maps and the finishing
order of goroutines are free choices of the model.

## The parts

- **Masking** (`Placeholder`, `Masking`, `MaskUseCase`, `RoundTrip`): minting, reserved literals, one placeholder
  per original, and the round trip through the exact pass.
- **Demasking** (`AngleRewrite`, `PlaceholderScan`, `DriftPass`, `Utf8`, `Demasking`, `DemaskLimits`, `LongForms`,
  `Factory`, `DriftForms`, `BuiltDemasker`): both passes as one rewriting of tokens `<...>`, the streaming buffer, and
  exactly when the demasker the factory builds may stream. `BuiltDemasker.MaskedStreamsBack` joins masking, factory,
  patterns and streaming.
- **JSON contexts** (`JsonEscape`, `JsonCommute`, `JsonClose`): escaped originals, and detecting where a streamed
  object closes.
- **Streams** (`Framing`, `EventFrame`, `FieldStreams`, `Reception`; `Messages`, `Responses`, `ChatMerge`, `ChatArrivals`,
  `ChatCompletions`, `ChatDeltas` and the `...Stream` modules; `Sequencing`): three processors as state machines. Each processor keeps its history of
  inputs and output as ghost state; the `Relay` methods feed a body in any chunks and state what the client gets.
- **Scanning** (`Ordering`, `Fanout`, `SensitiveScan`, `SensitiveRules`, `RegexTree`, `KeywordFilter`, `MatchLength`,
  `DriftPattern`, `DriftRules`).
- **Requests** (`DupKeys`, `NonFinite`), **audit** (`AuditIndex`, `AuditPages`, `AuditCursor`, `AuditLog`),
  **rules** (`RuleRegistry`, `RuleReload`, `RuleAdmin`) and **check digits** (`Checksums`).

## What turned out not to hold

Each of these is proved with its exact condition.

- A demasker streams as it demasks in one shot, for all texts and cuts, only if no original is part of a form it
  recognises and no form is more than one byte longer than the held-back tail: a restored `12` can complete
  `<ID_12>`, or its drift form, and be restored a second time. The condition is exact without drift rules
  (`DemaskLimits.StreamsExactlyWhenApart`), and with them whenever each original has a drift form
  (`DemaskLimits.StreamsExactlyWhenInert`), as it has when the compiled rules read the minted placeholders as
  themselves (`BuiltDemasker.BuiltStreamsExactly`). Card numbers, long keys and originals with a character no
  placeholder holds always meet it (`BuiltDemasker.DigitsAreInert`, `LongIsInert`, `TellingIsInert`).
- The compiled length bound is too small for types with a letter whose case variant takes more bytes, such as `k`
  (the Kelvin sign) and `s` (the long s) (`DriftRules.BoundExact`, `MatchLength.LiteralBoundExact`). Streaming is still
  right on every text in which no form with such a letter stands (`BuiltDemasker.FitsWithoutExotic`), so the stream
  theorems ask only for that.
- A type (other than underscores alone) that starts with an underscore, has inner runs of more than three of them
  or ends in more than two does not have its own canonical placeholders accepted by its drift pattern, and neither has any index from 10^9 on
  (`DriftPattern.CanonicalAccepted`).
- Text that arrives after `[DONE]` or a terminal event and is not flushed afterwards stays in the demasker for good
  (`ChatStream.DeliversExactlyWhenFound`, `MessagesStream.LosesExactlyTheTailAfterDone`,
  `ResponsesStream.LosesExactlyTheTailAfterEnd`).
- The chat processor drops text whose frame it cannot build from the state merged so far. A field receives all its
  text if and only if every call with text to let go finds its choice or tool call
  (`ChatStream.DeliversExactlyWhenFound`). Content and reasoning always do; tool calls do unless the first delta of a
  choice repeats an index with the function only in a later entry (`ChatMerge.ToolFoundExactly`,
  `ChatStream.RepeatedEntryLosesText`); a tool call numbered -1 is found when fed and missed when flushed
  (`ChatStream.NumberedAsLegacyDelivers`). Nor is the ID or type in such a later entry ever merged
  (`ChatArrivals.AllEntriesMerged`).
- A call of the demasker holds back no more than the tail and three bytes, except on text without a byte that may begin a
  character before the tail, which it holds back whole (`Demasking.StepHolds`).
- Following Redis cursors loses records behind a full batch of equal timestamps
  (`AuditPages.CompleteExactlyWhenTiesFit`). A comment in the code accepts this.
- A cursor for a blank request ID does not decode (`AuditCursor.CursorRoundTrip`), and the in-memory audit log never
  evicts a record with a blank ID and may then grow past its cap (`AuditLog.CapKeptExactly`).
- The rule-creation handler's comment says a lingering disabled flag is never hidden; it is hidden when neither
  clearing nor reading it back works (`RuleAdmin.Admin.Create`).
- A placeholder spelled with JSON escapes in a string body is restored by decoding first and not by the
  JSON-context pass (`JsonCommute.PassCommutesWithDecoding`). An empty original, which masking never mints for, could
  join two halves of a surrogate pair (`JsonCommute.EmptyOriginalJoinsSurrogates`).
- A rebuilt event frame is not read back as it was if its data is blank, is `[DONE]`, holds a newline or ends in a
  carriage return (`EventFrame.BuiltFrameReadsBack`).

## Model

| member | source | states |
|---|---|---|
| Placeholder.FormatInjective | pkg/guardrails/regex/placeholderfmt/placeholder.go:6-8 | different types or indexes never print the same placeholder, although types hold underscores and digits |
| Placeholder.OccurrenceIsLiteral | internal/usecases/guardrails/mask/masker.go:36-50 | the non-overlapping search for literals finds every token of placeholder shape that occurs anywhere in a text |
| Masking.ReservedPlaceholders | internal/usecases/guardrails/mask/masker.go:36-50 | collects the literals of all texts; skipping texts without `<` loses none |
| Masking.Masker.NextPlaceholder | internal/usecases/guardrails/mask/masker.go:135-145 | terminates with the first counter value whose placeholder is not reserved; other types' counters stay |
| Masking.Masker.PlaceholderForOriginal | internal/usecases/guardrails/mask/masker.go:125-133 | keeps the bijection of originals and unreserved placeholders; a known original keeps its placeholder |
| Masking.Masker.Record | internal/usecases/guardrails/mask/masker.go:75-92 | the replacement list stays the record, each original once, and the rule is noted |
| Masking.Masker.MaskText | internal/usecases/guardrails/mask/masker.go:62-100 | exactly the named matches that overlap no earlier one are replaced by recorded placeholders; all text between them stays |
| Masking.ResolvedAllKept | internal/usecases/guardrails/mask/masker.go:71-77 | of resolved, named matches none is skipped, so no matched byte is left in the output |
| RoundTrip.CopiedIsClean | internal/usecases/guardrails/mask/masker.go:36-50 | what masking copies holds none of the minted placeholders |
| RoundTrip.ExactPassRestores | internal/guardrails/demask/demasker.go:87-96 | the exact pass over a masked text gives the source back, for any texts and word types |
| MaskUseCase.ScanWorkers | internal/usecases/guardrails/mask/handle.go:179-202 | the worker count, forced or by the size of the texts |
| MaskUseCase.ScanTexts | internal/usecases/guardrails/mask/handle.go:126-170 | with any number of workers finishing in any order the slots equal a sequential pass when no scan fails, and the first failure is the same otherwise |
| MaskUseCase.Handle | internal/usecases/guardrails/mask/handle.go:26-101 | the lowest failing text is reported; otherwise every text is masked exactly, the rules noted are those of the masked matches, nothing is returned exactly when nothing was masked, and with word types every masked text is restorable |
| MaskUseCase.OneShotRestores | internal/guardrails/demask/demasker.go:98-139 | the drift pass changes nothing more in a restored source without drift forms |
| AngleRewrite.TwoPasses | internal/guardrails/demask/demasker.go:29-44 | the exact pass followed by the drift pass is one pass that prefers the exact one |
| AngleRewrite.Absorb | internal/guardrails/demask/demasker.go:29-44 | text already restored may be scanned again together with what follows it |
| AngleRewrite.RewriteIsClean | internal/guardrails/demask/demasker.go:29-44 | nothing recognisable is left after a pass |
| AngleRewrite.CutSafePrefix | internal/guardrails/demask/demasker.go:46-58 | emitting all but a held-back tail of the longest token's length changes nothing, whatever follows |
| Utf8.SafePrefixEnd | internal/guardrails/demask/demasker.go:64-85 | the loop back over continuation bytes finds the cut |
| Utf8.CutIsBoundary | internal/guardrails/demask/demasker.go:64-85 | on the beginning of any valid text the cut splits no encoded character |
| Utf8.CutLeaves | internal/guardrails/demask/demasker.go:64-85 | on any text the cut leaves behind it the bytes asked for and at most three more if and only if some byte before them may begin a character (or the text is that short) |
| PlaceholderScan.ResolveConflicts | pkg/guardrails/regex/scanners/placeholder/scan.go:169-198 | the sweep computes the greedy choice over matches sorted by start, length and rule |
| PlaceholderScan.ResolveSound | pkg/guardrails/regex/scanners/placeholder/scan.go:169-198 | kept matches are disjoint, and each dropped one overlaps a kept one that beats it |
| DriftPass.ScanRules | pkg/guardrails/regex/scanners/placeholder/scan.go:41-119 | sequential and parallel scans give the same resolved matches |
| DriftPass.ApplyTextReplacements | internal/guardrails/demask/demasker.go:141-166 | sorts the replacements and splices them left to right, dropping those that overlap |
| DriftPass.ApplyPlaceholderRegex | internal/guardrails/demask/demasker.go:103-139 | scanning, resolving and splicing is one left-to-right rewriting of tokens by the rule with the least ID that accepts them |
| Demasking.ReplaceIsRewrite | internal/guardrails/demask/demasker.go:87-96 | the replacer, which tries its arguments in order at each position, is a rewriting of tokens |
| Demasking.Demasker.DemaskChunk | internal/guardrails/demask/demasker.go:25-62 | emits and holds back what the step function says; a failed scan hands back the whole exact-passed buffer and clears it |
| Demasking.StepIsSafe | internal/guardrails/demask/demasker.go:46-58 | emitted text plus demasked rest is the demasking of everything, whatever follows |
| Demasking.StepHolds | internal/guardrails/demask/demasker.go:46-62 | an unflushed call loses nothing and holds back at most the tail and three bytes, if and only if the text is that short or some byte before its tail may begin a character |
| Demasking.TailHeld | internal/guardrails/demask/demasker.go:46-62 | so at every point of a stream whose text since the last flush is the beginning of valid UTF-8 no more than that is held back |
| Demasking.DeliveredAndHeld | internal/guardrails/demask/demasker.go:25-62 | what was delivered and what is held back are together the segments and the open text, each restored in one shot |
| Demasking.FlushedStream | internal/guardrails/demask/demasker.go:25-62 | a stream with flushes inside emits each flushed segment demasked in one shot |
| Demasking.ChunkIndependence | internal/guardrails/demask/demasker.go:25-62 | for every fragmentation the outputs join to the one-shot result |
| Demasking.StreamPiecesValid | internal/guardrails/demask/demasker.go:46-85 | on valid UTF-8 every emitted piece is valid UTF-8 |
| DemaskLimits.UnbrokenRestored | internal/guardrails/demask/demasker.go:46-50 | flush points that split no placeholder are harmless |
| DemaskLimits.StreamsExactlyWhenApart | internal/guardrails/demask/demasker.go:25-62 | without drift rules, streams equal one-shot demasking for all texts and cuts if and only if no original is part of a placeholder and each placeholder is within reach |
| DemaskLimits.StreamsExactlyWhenInert | internal/guardrails/demask/demasker.go:25-62 | with drift rules, if and only if no original is part of a recognised form and each form is within reach |
| DemaskLimits.OverlongBreaks | internal/guardrails/demask/demasker.go:46-58 | a form out of reach is torn by some cut, for every set of bracket-free originals |
| LongForms.StaysClean | internal/guardrails/demask/demasker.go:29-44 | a pass brings about no token that was not there, also together with later text |
| LongForms.ChunkIndependenceWhereFits | internal/guardrails/demask/demasker.go:25-62 | chunk independence on every text without a form out of reach, with no condition on the types |
| LongForms.ClosedWhereFits | internal/guardrails/demask/demasker.go:25-62 | a flushed field delivers its segments, and its whole text in one shot if no flush split a placeholder |
| LongForms.DeliversAllButTail | internal/guardrails/demask/demasker.go:25-62 | at every point of a stream, flushed or not, all that was fed has been delivered restored, but a tail of bounded length |
| LongForms.FlushedIntact | internal/guardrails/demask/demasker.go:46-50 | a field none of whose flushes falls inside a placeholder is cut into segments that may be restored apart |
| Factory.BuildLookupIndex | internal/guardrails/demask/factory.go:96-124 | the lookup maps and replacer arguments agree, blanks and repetitions skipped, and the bound is the longest placeholder |
| BuiltDemasker.MaxPlaceholderLen | pkg/guardrails/regex/registry/registry.go:140-152 | the largest compiled bound of the given rules |
| BuiltDemasker.BuiltIsSteady | internal/guardrails/demask/factory.go:64-92 | the built demasker rescans restored text harmlessly if and only if no original holds a bracket or is part of a recognised form |
| BuiltDemasker.BuiltStreamsExactly | internal/guardrails/demask/factory.go:64-92 | a built demasker whose rules read the minted placeholders as themselves streams as in one shot if and only if its originals are inert and its forms within reach |
| BuiltDemasker.CompiledForms | pkg/guardrails/regex/registry/registry.go:418-452 | every minted placeholder read as itself has a drift form of its own |
| BuiltDemasker.OwnWhenFirst | pkg/guardrails/regex/scanners/placeholder/scan.go:121-198 | a regular type in index range reads its placeholders as themselves unless a rule with a smaller ID accepts them |
| BuiltDemasker.TellingIsInert | internal/guardrails/demask/demasker.go:103-139 | an original with an ASCII character no form holds is part of no form |
| BuiltDemasker.LongIsInert | internal/guardrails/demask/demasker.go:103-139 | neither is an ASCII original longer than the held-back tail |
| BuiltDemasker.DigitsAreInert | internal/guardrails/demask/demasker.go:103-139 | nor one with ten digits in a row, for types without digits |
| BuiltDemasker.EscapedTelling | internal/guardrails/demask/factory.go:129-139 | JSON escaping keeps an original telling |
| BuiltDemasker.FitsWithoutExotic | internal/guardrails/demask/factory.go:70-71 | only drift forms with a byte outside ASCII can be longer than the held-back tail, for every word type |
| BuiltDemasker.BuiltIsStreamable | internal/guardrails/demask/factory.go:70-71 | if no type has a longer case variant the tail covers every form, and every text fits |
| BuiltDemasker.MaskedStreamsBack | internal/guardrails/demask/demasker.go:25-62 | every text masked by the service, cut up in any way and streamed through the demasker built for it, comes back, if no original is part of a recognised form and the text holds no drift form of a minted placeholder |
| JsonEscape.UnescapeEscape | internal/guardrails/demask/factory.go:129-139 | escaping then decoding a valid text gives it back inside any body |
| JsonCommute.RawPassCommutes | internal/guardrails/demask/demasker.go:87-96 | for every valid string body without escaped placeholders and all originals, decoding the JSON-context pass equals decoding first and substituting verbatim |
| JsonCommute.PassCommutesWithDecoding | internal/guardrails/demask/demasker.go:87-96 | the two agree if and only if no placeholder in the body is spelled with escapes, unless an original and its placeholder begin alike to the end of one of them |
| JsonCommute.EmptyOriginalJoinsSurrogates | internal/guardrails/demask/demasker.go:87-96 | a body on which an empty original makes the two differ |
| JsonClose.CloseTracker.Feed | internal/sseproc/common/json_depth.go:27-60 | state and answer depend only on the text fed |
| JsonClose.RunAppend | internal/sseproc/common/json_depth.go:27-60 | the state after two fragments is the state after their concatenation |
| JsonClose.ObjectCloseDetected | internal/sseproc/common/json_depth.go:27-60 | for every printed JSON object in any fragmentation the answer is yes for exactly the fragment with the final brace |
| Framing.SplitFrames | internal/sseproc/common/frame.go:19-34 | the loop computes the frames and the tail |
| Framing.SeparatorIsFrameEnd | internal/sseproc/common/frame.go:36-44 | comparing the two separator searches finds the earliest end of a frame |
| Framing.FirstBlankLine | internal/sseproc/common/frame.go:36-44 | that end is the first position behind a blank line, be its lines ended by LF or by CRLF |
| Framing.SplitLossless | internal/sseproc/common/frame.go:19-34 | no byte is lost, frames are minimal, the tail holds no complete frame |
| Framing.SplitStable | internal/sseproc/common/frame.go:19-34 | later bytes change no earlier frame |
| Framing.PrepareFrames | internal/sseproc/chatcompletions/processor.go:111-126 | a chunk completes frames, the tail is carried, and at the end of the stream an incomplete frame counts |
| Framing.SessionFrames | internal/sseproc/chatcompletions/processor.go:111-126 | for every chunking, the processors see the frames of the whole byte stream |
| EventFrame.ClassifyFrame | internal/sseproc/common/eventframe.go:56-110 | the line loop computes the classification |
| EventFrame.ClassifiedByLines | internal/sseproc/common/eventframe.go:56-108 | for any lines: `[DONE]` if a data line says so, otherwise the last event name with all data lines as one text, with or without a space after the colon; nothing of interest without any |
| EventFrame.BuiltFrameReadsBack | internal/sseproc/common/eventframe.go:123-132 | name and data of a built frame are recovered if and only if both are rests of one line and the data is neither blank nor `[DONE]` |
| EventFrame.BuiltFrameIsOneFrame | internal/sseproc/common/eventframe.go:123-132 | a built frame reaches the client as one frame |
| FieldStreams.FieldDemaskers.DemaskChunk | internal/sseproc/messages/processor.go:408-421 | each field has its own demasker, created on first use; a call touches no other field |
| FieldStreams.LosesNothingExactlyWhenFlushed | internal/sseproc/messages/processor.go:365-403 | whatever the placeholders are, a field loses nothing if and only if no text follows its last flush |
| Messages.Processor.HandleDelta | internal/sseproc/messages/processor.go:192-268 | a delta feeds the demasker of its block and field, tool input flushed when its object closes |
| Messages.Processor.HandleStop | internal/sseproc/messages/processor.go:273-284 | the block's fields are flushed, then the frame is forwarded |
| Messages.Processor.FlushAllBlocks | internal/sseproc/messages/processor.go:392-403 | every field of every block is flushed, whatever order the blocks are visited in |
| Messages.Processor.ProcessChunk | internal/sseproc/messages/processor.go:97-134 | one call handles the frames its bytes complete, keeps the rest, and hands over exactly its output |
| MessagesStream.DeltasAreFed | internal/sseproc/messages/processor.go:197-268 | each of the three fields of a block is fed exactly the fragments of its deltas, read off the events, whose block's latest start is absent or not of a redacted type |
| MessagesStream.UntouchedForwarded | internal/sseproc/messages/processor.go:159-246 | the frames that pass through are those whose events carry no such fragment |
| MessagesStream.FlushedAtEnds | internal/sseproc/messages/processor.go:248-284 | a field is flushed only at its block's stop, at `[DONE]` or the end without one, and where a tool input's object closes |
| MessagesStream.StreamConserved | internal/sseproc/messages/processor.go:192-268 | at the end of every stream without deltas after `[DONE]` the client has, per field, the one-shot demasking of its deltas, if no placeholder lies across one of those points |
| MessagesStream.LosesExactlyTheTailAfterDone | internal/sseproc/messages/processor.go:151-157 | exactly when a field loses text |
| MessagesStream.DeltaAfterDoneIsLost | internal/sseproc/messages/processor.go:151-157 | a delta right after the `[DONE]` is held back for good |
| MessagesStream.FlushBeforeEnd | internal/sseproc/messages/processor.go:365-389 | when a block stop, `[DONE]` or the end is written, the demaskers it covers are empty and their text precedes it |
| MessagesStream.ToolInputIsOneSegment | internal/sseproc/messages/processor.go:228-262 | however a tool input object is cut, it is flushed exactly when complete |
| MessagesStream.HistoryAccounted | internal/sseproc/messages/processor.go:192-325 | in every run each written frame is a flushed one of a field the input ends, the input's delta patched, or the input's own bytes |
| MessagesStream.Relay | internal/sseproc/messages/processor.go:97-134 | for any chunking of a body the client gets each field restored and after each event all of it but a bounded tail, every other frame in order, stop and `[DONE]` frames after the text they end, and no frame that does not belong to an input |
| Sequencing.StrictlyIncreasing | internal/sseproc/responses/processor.go:197-208 | outgoing numbers strictly increase, whatever upstream sends |
| Sequencing.NeverBelowUpstream | internal/sseproc/responses/processor.go:197-208 | no frame is numbered below its upstream number |
| Sequencing.CounterBounds | internal/sseproc/responses/processor.go:473-508 | for strictly increasing upstream numbers the last number lies between upstream's and that plus the synthetic frames |
| Sequencing.ShiftedBySynthetics | internal/sseproc/responses/processor.go:197-241 | then a frame keeps its number until the first synthetic frame and later exceeds it by at most the synthetic frames so far |
| Responses.Processor.NextOutSeq | internal/sseproc/responses/processor.go:197-208 | the next number is upstream's or one more than the last, whichever is larger |
| Responses.Processor.FlushKey | internal/sseproc/responses/processor.go:512-536 | what a key held back is sent in a synthetic frame, which is always numbered; a field that held nothing writes none |
| Responses.Processor.HandleDelta | internal/sseproc/responses/processor.go:266-310 | a delta feeds its key, arguments flushed when their object closes; the one frame it may write is the delta patched, under the delta's own sequence number |
| Responses.Processor.HandleFieldDone | internal/sseproc/responses/processor.go:331-347 | the key is flushed before the rewritten done event |
| Responses.Processor.HandleTerminal | internal/sseproc/responses/processor.go:407-416 | all keys are flushed before the terminal event, rewritten as `ResponsesStream.RepeatedAreRestored` says |
| Responses.Processor.ProcessChunk | internal/sseproc/responses/processor.go:106-137 | one call handles the frames its bytes complete and hands over exactly its output |
| ResponsesStream.DeltasAreFed | internal/sseproc/responses/processor.go:266-310 | each field is fed exactly the fragments of its delta events |
| ResponsesStream.FlushedAtEnds | internal/sseproc/responses/processor.go:286-416 | a field is flushed only at its done event, at terminal events, `[DONE]` or the end without them, and where its arguments' object closes |
| ResponsesStream.StreamConserved | internal/sseproc/responses/processor.go:266-310 | at the end of every stream without deltas after a terminal event the client has, per field, the one-shot demasking of its deltas, if no placeholder lies across one of those points |
| ResponsesStream.LosesExactlyTheTailAfterEnd | internal/sseproc/responses/processor.go:407-416 | exactly when a field loses text |
| ResponsesStream.FlushBeforeEnd | internal/sseproc/responses/processor.go:331-413 | done and terminal events come after all text of the keys they cover, whose demaskers are empty |
| ResponsesStream.RepeatedAreRestored | internal/sseproc/responses/processor.go:331-455 | each whole text a done, part, item or terminal event repeats is sent restored in one shot; arguments so if valid JSON is left, otherwise leaf by leaf, and unchanged when neither works |
| ResponsesStream.RepeatsWhatWasDelivered | internal/sseproc/responses/processor.go:331-455 | when such an event repeats the text streamed for a field that has ended, what it sends is what the client has received for that field |
| ResponsesStream.DoneRepeatsTheDeltas | internal/sseproc/responses/processor.go:331-416 | the field's own done event and a terminal event always end it |
| ResponsesStream.NumbersIncrease | internal/sseproc/responses/processor.go:197-241 | the numbers of all written frames strictly increase in every run, whatever upstream sent |
| ResponsesStream.NumbersShift | internal/sseproc/responses/processor.go:210-241 | an input's own frame is numbered exactly when the input is, never below the input's number, and above it by at most the frames inserted before it when upstream numbers its events increasingly; an inserted frame is always numbered |
| ResponsesStream.HistoryAccounted | internal/sseproc/responses/processor.go:266-416 | in every run each written frame is an inserted one with flushed text or the own frame of one input, in the order of the inputs, and is numbered from that input |
| ResponsesStream.Relay | internal/sseproc/responses/processor.go:106-137 | for any chunking of a body: fields restored and delivered after each event but for a bounded tail, other frames in order, their repeated texts restored, and after the text they end, every frame accounted to an input and numbered from its number, numbers increasing |
| ChatMerge.Aggregator.MergeOne | internal/sseproc/chatcompletions/aggregator.go:130-176 | in-place merging of a choice's deltas gives the merged choices |
| ChatArrivals.MergedTells | internal/sseproc/chatcompletions/aggregator.go:130-193 | after any deltas in arrival order: a choice has the first role, the last finish reason and the first non-blank name of its function call, each tool call the first non-blank ID, type and name among its entries |
| ChatArrivals.AllEntriesMerged | internal/sseproc/chatcompletions/aggregator.go:132-168 | no entry of a tool call is passed over if and only if the choice's first delta has at most one for it |
| ChatMerge.Aggregator.AppendToolArguments | internal/sseproc/chatcompletions/aggregator.go:28-45 | close detection per choice and tool call |
| ChatMerge.MergeAllKeeps | internal/sseproc/chatcompletions/aggregator.go:65-71 | what an emitted frame looks up stays present after any later merge |
| ChatMerge.MergeAllBrings | internal/sseproc/chatcompletions/aggregator.go:130-174 | after merging a chunk its choices are found, their function calls, and the tool calls of well-behaved deltas |
| ChatMerge.ToolFoundExactly | internal/sseproc/chatcompletions/aggregator.go:130-174 | a fed tool call is found if and only if its choice was known or the first entry for it has its function |
| Reception.ReachedIsHeard | internal/sseproc/chatcompletions/processor.go:411-477 | if every call with text to let go finds its frame the client receives the whole stream |
| Reception.HearsStreamExactlyWhenReached | internal/sseproc/chatcompletions/processor.go:411-477 | and for all placeholders only then |
| Reception.HearsAllExactlyWhen | internal/sseproc/chatcompletions/processor.go:411-477 | all fed text arrives exactly when moreover none follows the last flush |
| ChatCompletions.Processor.FlushWholeChoice | internal/sseproc/chatcompletions/processor.go:472-478 | text, tool-call and function-call fields of a choice are flushed |
| ChatCompletions.Processor.FlushChoices | internal/sseproc/chatcompletions/processor.go:750-761 | every choice with a demasker is flushed, in any order |
| ChatCompletions.Processor.ProcessChoice | internal/sseproc/chatcompletions/processor.go:288-332 | the deltas of a choice feed its fields, the first content starts it, a finish reason flushes it |
| ChatCompletions.Processor.HandleMetadataFrame | internal/sseproc/chatcompletions/processor.go:261-279 | a finishing chunk's choices are flushed before the frame is written |
| ChatCompletions.Processor.HandleChunk | internal/sseproc/chatcompletions/processor.go:180-245 | a chunk is merged, feeds its fields and forwards its announcements as the specification of acts says |
| ChatCompletions.Processor.ProcessChunk | internal/sseproc/chatcompletions/processor.go:94-126 | one call handles the frames its bytes complete and hands over exactly its output |
| ChatDeltas.ActsCarryDeltas | internal/sseproc/chatcompletions/processor.go:180-245 | the acts of a run feed each field exactly the text its chunks carry for it |
| ChatDeltas.FlushedAtPoint | internal/sseproc/chatcompletions/processor.go:261-332 | a field is flushed only where a finish reason, `[DONE]` or the end covers it, where a choice's content starts and ends its reasoning, and behind the close of an arguments object |
| ChatDeltas.ReasoningBeforeContent | internal/sseproc/chatcompletions/processor.go:288-313 | no reasoning of a choice is held back when its first content is fed |
| ChatStream.StreamConserved | internal/sseproc/chatcompletions/processor.go:180-245 | at the end of every stream without data after `[DONE]` the client has, per choice and field whose calls are found, the one-shot demasking of its deltas, if no placeholder lies across a flush point |
| ChatStream.DeliversExactlyWhenFound | internal/sseproc/chatcompletions/processor.go:411-477 | over every run a field delivers all it was fed if and only if each call with text to let go finds its choice or call, feeds and flushes by their own routes, and no text is left after the `[DONE]` |
| ChatStream.ReachesWhenFedFound | internal/sseproc/chatcompletions/processor.go:411-477 | except for tool calls numbered -1, that is exactly when the field is found whenever it is fed |
| ChatStream.WellBehavedReaches | internal/sseproc/chatcompletions/aggregator.go:65-71 | content and reasoning are always found, and all calls of an upstream whose deltas bring the function first |
| ChatStream.RepeatedEntryLosesText | internal/sseproc/chatcompletions/processor.go:519-580 | a first delta with the function in a repeated entry only: the client receives nothing of the arguments |
| ChatStream.NumberedAsLegacyDelivers | internal/sseproc/chatcompletions/processor.go:608-747 | in a choice without legacy function calls, a tool call numbered -1 delivers all its text if and only if each delta of it finds its function and none of its text is open when the choice is flushed or at the end |
| ChatStream.NumberedAsLegacyLosesTail | internal/sseproc/chatcompletions/processor.go:608-747 | in a stream with one delta for it, that is exactly when its arguments close in that delta |
| ChatStream.FlushBeforeEnd | internal/sseproc/chatcompletions/processor.go:261-278 | a finish reason, `[DONE]` and the end come after all text of the found fields they cover, whose demaskers are empty |
| ChatStream.FramesOfChunk | internal/sseproc/chatcompletions/processor.go:180-279 | a chunk that carries nothing goes through as it came; of another, exactly the tool entries without arguments and, last, its usage and finish reasons without the deltas |
| ChatStream.FinalIsLast | internal/sseproc/chatcompletions/processor.go:180-279 | the frame that closes a chunk is the last written for it |
| ChatStream.HistoryAccounted | internal/sseproc/chatcompletions/processor.go:411-719 | in every run each text frame tells the first role given to its choice, the first non-blank name of its function call, or the first non-blank ID, type and name among the entries for its tool call, of all chunks up to the one it is written for |
| ChatStream.Relay | internal/sseproc/chatcompletions/processor.go:94-126 | for any chunking of a body: of every field the text whose frames are found, restored, after each chunk all but a bounded tail; other frames in order, closing frames after the text they close, text frames telling what has arrived |
| Ordering.SortIgnoresOrder | pkg/guardrails/regex/scanners/sensitive/scan.go:263-280 | sorting forgets the arrival order when the key tells elements apart |
| Fanout.BucketRules | pkg/guardrails/regex/scanners/sensitive/scan.go:168-179 | dealing rules out loses no match |
| Fanout.ScanParallel | pkg/guardrails/regex/scanners/sensitive/scan.go:121-166 | any number of workers in any order finds the matches of the sequential scan |
| SensitiveScan.Coalesce | pkg/guardrails/regex/scanners/sensitive/scan.go:308-326 | the loop picks the preferred match of a run |
| SensitiveScan.ResolveConflicts | pkg/guardrails/regex/scanners/sensitive/scan.go:263-306 | sorting and sweeping computes the merged spans |
| SensitiveScan.ResolveMerges | pkg/guardrails/regex/scanners/sensitive/scan.go:263-306 | merged spans are sorted, disjoint, carry their slices and cover exactly the bytes the matches cover |
| SensitiveScan.ResolveAttributes | pkg/guardrails/regex/scanners/sensitive/scan.go:308-338 | each merged span is labelled by the longest match in it, of equally long ones by the first, then by rule ID |
| SensitiveScan.ResolveIgnoresOrder | pkg/guardrails/regex/scanners/sensitive/scan.go:263-306 | the result does not depend on which scan found what first |
| SensitiveRules.ScanRule | pkg/guardrails/regex/scanners/sensitive/scan.go:181-260 | the loop collects what one rule reports of its engine matches |
| SensitiveRules.ReportsExactly | pkg/guardrails/regex/scanners/sensitive/scan.go:181-260 | it reports exactly, of each engine match, the first listed group that took part with a non-empty span, or the whole match when none is listed, if long enough and valid, with the rule's labels |
| SensitiveRules.ScanCoversExactly | pkg/guardrails/regex/scanners/sensitive/scan.go:36-86 | a scan singles out exactly the bytes in such a part of a match of some rule |
| SensitiveRules.KeyTellsMatches | pkg/guardrails/regex/scanners/sensitive/scan.go:263-280 | the sort key determines the match in every scan |
| SensitiveRules.FilterByKeywords | pkg/guardrails/regex/scanners/sensitive/scan.go:88-119 | the loop, which lowers the text once when first needed, keeps the rules with a keyword in the text |
| SensitiveRules.FilteredExactly | pkg/guardrails/regex/scanners/sensitive/scan.go:88-119 | those are the rules without keywords and the ones with a keyword standing in the lowered text |
| SensitiveRules.CompiledIsFilterable | pkg/guardrails/regex/registry/registry.go:266-289 | rules compiled with prefilter keywords match only texts that hold one |
| SensitiveRules.FilterKeepsMatches | pkg/guardrails/regex/scanners/sensitive/scan.go:88-119 | dropped rules would have found nothing |
| SensitiveRules.ScanRules | pkg/guardrails/regex/scanners/sensitive/scan.go:36-86 | pre-filter on or off, any number of workers: the same matches for every text |
| KeywordFilter.FoldSafeForToLower | pkg/guardrails/regex/registry/registry.go:362-375 | the walk around each fold orbit decides whether all case variants lower alike |
| KeywordFilter.GuaranteeSound | pkg/guardrails/regex/registry/registry.go:291-355 | when the tree guarantees a keyword, every string of its language holds one after lower-casing |
| KeywordFilter.FoldTestExact | pkg/guardrails/regex/registry/registry.go:362-375 | the fold test accepts a literal if and only if all its matches hold the lowered literal |
| KeywordFilter.MatchHasKeyword | pkg/guardrails/regex/registry/registry.go:266-289 | a text with a match holds one of the prefilter keywords |
| KeywordFilter.PrefilteredTrees | pkg/guardrails/regex/registry/registry.go:291-355 | a literal taken as written is pre-filtered exactly when each of its matches holds a keyword, a concatenation when a part is, alternatives when all are |
| MatchLength.BoundSound | pkg/guardrails/regex/registry/registry.go:492-565 | the bound read off a tree without longer case variants holds of every match |
| MatchLength.BoundTight | pkg/guardrails/regex/registry/registry.go:492-565 | and some string of the tree has that many bytes, unless a class is empty or a repetition impossible |
| MatchLength.LiteralBoundExact | pkg/guardrails/regex/registry/registry.go:492-565 | the bound of a case-insensitive literal holds if and only if no variant is longer |
| DriftPattern.PatternLanguage | pkg/guardrails/regex/registry/registry.go:418-452 | what the built pattern accepts, both directions |
| DriftPattern.CanonicalAccepted | pkg/guardrails/regex/registry/registry.go:418-452 | exactly which types and indexes have their canonical placeholder accepted, and the index read back |
| DriftRules.AcceptedIsToken | pkg/guardrails/regex/registry/registry.go:418-452 | accepted strings are single tokens, so a rule's matches never overlap |
| DriftRules.CanonicalMapsToItself | pkg/guardrails/regex/scanners/placeholder/scan.go:121-154 | the scan maps a canonical placeholder to itself exactly for regular types and indexes 1 to 10^9 - 1 |
| DriftRules.BoundExact | pkg/guardrails/regex/registry/registry.go:394-416 | the compiled bound covers the pattern's language if and only if no token has a longer case variant |
| DriftRules.RecognisedFits | internal/guardrails/demask/factory.go:70-71 | then every recognised form fits the bound |
| DupKeys.KeySet.Add | pkg/llmutils/dupkeys.go:52-80 | list and map forms, the switch included, are one set |
| DupKeys.HasDuplicateKeys | pkg/llmutils/dupkeys.go:82-104 | early-stopping search decides whether any object repeats a decoded key |
| DupKeys.Collapse | pkg/llmutils/dupkeys.go:107-156 | the in-place merge of members computes the collapsed document |
| DupKeys.CollapseKeepsMeaning | pkg/llmutils/dupkeys.go:107-156 | last-wins meaning is kept at every depth, first-wins agrees with it, no key repeats, a change is reported exactly when one did |
| DupKeys.ReprintedExactly | pkg/llmutils/dupkeys.go:107-156 | a container is printed anew exactly when a key repeats somewhere inside it |
| DupKeys.CollapseIdempotent | pkg/llmutils/dupkeys.go:107-156 | collapsing twice is collapsing once |
| DupKeys.KeysKeepTheirPlaces | pkg/llmutils/dupkeys.go:118-150 | each key stays where, and spelled as, it first stood |
| DupKeys.CollapseDuplicateKeys | pkg/llmutils/dupkeys.go:31-46 | documents that are not strictly valid are left alone; otherwise both readings agree |
| NonFinite.NonFiniteAsNumbers | pkg/llmutils/dupkeys.go:162-216 | the in-place edit of the byte array computes the rewriting |
| NonFinite.LiteralsReplaced | pkg/llmutils/dupkeys.go:162-216 | every whole non-finite literal where a value begins is replaced by a number as section 6 of RFC 8259 has it, of the same length |
| NonFinite.OnlyLiteralsReplaced | pkg/llmutils/dupkeys.go:162-216 | every changed byte belongs to such a literal |
| NonFinite.OnlyLiteralBytesChange | pkg/llmutils/dupkeys.go:162-216 | only bytes of non-finite literals change |
| NonFinite.StringsKept | pkg/llmutils/dupkeys.go:162-216 | strings stay where they are, byte for byte |
| AuditIndex.ListAuditRecords | internal/repository/redis/redis.go:176-314 | the bounded round loop with its seen-set computes the page |
| AuditPages.NextAdvances | internal/repository/redis/redis.go:197-314 | every page's cursor lies behind the last one, so following cursors terminates |
| AuditPages.MatchesExactly | internal/repository/repository.go:122-142 | what a listing matches are exactly the live records that no filter of the query keeps out |
| AuditPages.PageSizes | internal/repository/repository.go:107-117 | fifty records a page at most unless another number is asked for, and never more than five hundred |
| AuditPages.WindowSizes | internal/repository/redis/redis.go:197-314 | a window of the index is one member longer than the page, and a hundred at least |
| AuditPages.WalkIsComplete | internal/repository/redis/redis.go:197-314 | with ties smaller than a batch a walk lists every matching record once and in order |
| AuditPages.CompleteExactlyWhenTiesFit | internal/repository/redis/redis.go:197-314 | walks are complete for all records and filters if and only if no full batch of equal scores has a member behind it |
| AuditPages.OverfullLoses | internal/repository/redis/redis.go:197-314 | a concrete record that is never listed otherwise |
| AuditPages.ListMemory | internal/repository/memory/memory.go:175-222 | collecting in any order, sorting and cutting computes the simple page |
| AuditPages.MemoryPageSizes | internal/repository/memory/memory.go:196-222 | a page of the simple listing is full unless it is the last |
| AuditPages.MemoryWalkIsAll | internal/repository/memory/memory.go:175-222 | following the simple cursors lists everything |
| AuditPages.BackendsAgree | internal/repository/redis/redis.go:176-314 | both backends' walks list the same records in the same order |
| AuditCursor.CursorRoundTrip | internal/repository/cursor.go:14-35 | a cursor decodes to what it encodes if and only if the request ID is not blank |
| AuditCursor.PageCursorSurvives | internal/repository/cursor.go:14-35 | a page's cursor, sent back, names its last record |
| AuditLog.AuditLogStore.PutAuditRecord | internal/repository/memory/memory.go:122-134 | a new record at the cap evicts first; the timestamp is kept in microseconds |
| AuditLog.AuditLogStore.EvictOldest | internal/repository/memory/memory.go:139-151 | the scan over the map in any order removes what it settles on |
| AuditLog.RemovesLeastExactlyWhenNamed | internal/repository/memory/memory.go:139-151 | in every iteration order the record least by timestamp and ID is removed if and only if its ID is not blank |
| AuditLog.CapKeptExactly | internal/repository/memory/memory.go:122-151 | exactly when a store keeps the cap |
| AuditLog.StoredKeepsTheRest | internal/repository/memory/memory.go:122-134 | a stored record reads back, and unless a blank ID is least no other record than the least one is touched |
| RuleRegistry.Registry.Add | pkg/guardrails/regex/registry/registry.go:75-85 | blank (white-space), taken and uncompilable rules are refused; both indexes keep agreeing with a linear scan |
| RuleRegistry.BlankIsWhite | pkg/guardrails/regex/registry/registry.go:227-229 | a rule ID is blank exactly when all its characters are Unicode white space |
| RuleRegistry.Registry.ResolveForDataTypes | pkg/guardrails/regex/registry/registry.go:218-221 | IDs and rules of one snapshot belong together; no rule is dropped between the lookups |
| RuleRegistry.Build | pkg/guardrails/regex/registry/registry.go:63-72 | succeeds exactly for distinct, named, compilable rules, and then holds them in order |
| RuleReload.MergedIs | internal/service/rulesreload/reloader.go:66-92 | a snapshot holds exactly the non-disabled built-ins and the non-shadowing, non-disabled customs |
| RuleReload.Rebuild | internal/service/rulesreload/reloader.go:66-99 | the merge loops and the build give that snapshot or none |
| RuleReload.StepKeepsInv | internal/service/rulesreload/reloader.go:51-100 | every step of every mutation, refresh, read and swap keeps the protocol's invariant |
| RuleReload.SnapshotsNeverGoBack | internal/service/rulesreload/reloader.go:51-100 | in every interleaving the store versions behind successive swaps never go back, rules and disabled set each |
| RuleReload.MutationServed | internal/service/rulesreload/reloader.go:51-100 | a reload that locked after a write publishes a snapshot that includes it, and so does every later one |
| RuleReload.CreatedRuleServed | internal/usecases/rules/create/handle.go:40-58 | a created rule is in every snapshot after its reload until superseded |
| RuleReload.DisabledRuleGone | internal/service/rulesreload/reloader.go:74-92 | a disabled rule is in no snapshot after its reload until enabled |
| RuleAdmin.Admin.Create | internal/usecases/rules/create/handle.go:15-76 | every refusal, in its order, leaves store and snapshot alone; a created rule is stored and served, and the reported state is the served one exactly unless clearing and reading the flag both failed |
| Checksums.LuhnSum | pkg/guardrails/regex/validation/checksums.go:21-36 | doubling one parity from the left is doubling every second digit from the right |
| Checksums.LuhnValid | pkg/guardrails/regex/validation/checksums.go:39-49 | accepts exactly non-empty digit strings whose sum ends in zero |
| Checksums.LuhnCheckDigit | pkg/guardrails/regex/validation/checksums.go:52-68 | the left-to-right loop computes the digit the standard asks for |
| Checksums.CheckDigitIsTheOne | pkg/guardrails/regex/validation/checksums.go:52-68 | for every prefix exactly one digit completes a valid number, the computed one |
| Checksums.OneDigitChanged | pkg/guardrails/regex/validation/checksums.go:39-49 | changing any one digit of a valid number makes it invalid |
| Checksums.NeighboursSwapped | pkg/guardrails/regex/validation/checksums.go:39-49 | swapping neighbours keeps a number valid if and only if they are equal or 0 and 9 |
| Checksums.Mod97DecimalString | pkg/guardrails/regex/validation/checksums.go:11-17 | the running remainder is the decimal value modulo 97 at every length |
| Checksums.IBANMod97 | pkg/guardrails/regex/validation/checksums.go:200-214 | expanding letters and taking the remainder computes the check code |
| Checksums.IBANMod97Valid | pkg/guardrails/regex/validation/checksums.go:217-234 | the loops decide the specified validity, spaces and case ignored |
| Checksums.SpacesIgnored | pkg/guardrails/regex/validation/checksums.go:217-219 | spaces anywhere make no difference |
| Checksums.CaseIgnored | pkg/guardrails/regex/validation/checksums.go:217-234 | and neither does the case of ASCII letters |
| Checksums.LetterValue | pkg/guardrails/regex/validation/checksums.go:200-234 | letters stand for 10 to 35 in order |
| Checksums.PassesExactlyWhenTheCodeAgrees | pkg/guardrails/regex/validation/checksums.go:200-234 | two check digits pass if and only if they agree modulo 97 with the computed ones |
| Checksums.ComputedCodePasses | pkg/guardrails/regex/validation/checksums.go:200-234 | country, computed code and account number pass validation |
| Checksums.OneCharacterChanged | pkg/guardrails/regex/validation/checksums.go:217-234 | no single digit or letter of a valid account number can be mistaken for another |

## Left out

- Demasking.StreamPiecesValid: assumes a held-back tail of at least three bytes, as every minted placeholder has.
- Demasking.TailHeld: assumes a held-back tail of at least three bytes, or none.
- DemaskLimits.StreamsExactlyWhenInert: for views in which each original has a drift form; with rules that read only some of the minted placeholders the condition suffices and is not shown necessary.
- DemaskLimits.OverlongBreaks: for originals without angle brackets, as all streaming results; a bracket in an original can open a form of its own.
- BuiltDemasker.MaskedStreamsBack: for placeholder types of word characters; other types are not found by the literal search and so not reserved.
- RoundTrip.ExactPassRestores: for placeholder types of word characters, as above.
- MessagesStream.StreamConserved: for flush points that split no placeholder and texts without over-long drift forms.
- ResponsesStream.StreamConserved: for flush points that split no placeholder and texts without over-long drift forms.
- ChatStream.StreamConserved: for fields whose calls are found, besides the conditions above.
- Sequencing.ShiftedBySynthetics: for strictly increasing, non-negative upstream numbers.
- JsonCommute.RawPassCommutes: for non-empty originals, see `JsonCommute.EmptyOriginalJoinsSurrogates`.
- JsonCommute.PassCommutesWithDecoding: its converse half is for originals that differ from their placeholder before either ends.
- Masking.Masker.Record: the data types noted beside the rules are left out.
- Masking.Masker.MaskText: the data types noted beside the rules are left out.
- DupKeys.CollapseDuplicateKeys: whether the text is strictly valid JSON is a flag.
- MatchLength.LiteralBoundExact: takes literal runes as written; a parser may store another rune of the fold orbit, of the same length for ASCII letters.
- MatchLength.BoundSound: for trees without longer case variants, as the source's bound is wrong for others.
- FieldStreams.FieldDemaskers.DemaskChunk: the scan never fails; the failing path is `Demasking.Demasker.DemaskChunk`, and the processors' pass-through of its text is not modelled.
- Messages.Processor.HandleDelta: events arrive decoded; JSON parsing and the failures of in-place JSON edits are not modelled.
- Responses.Processor.HandleDelta: events arrive decoded, and item IDs on synthetic frames are left out.
- Responses.Processor.HandleTerminal: whole arguments are restored by raw substitution when that leaves valid JSON; the leaf-by-leaf fallback is a function value.
- ChatCompletions.Processor.HandleChunk: chunks arrive decoded; model name, creation time and usage counts of frames are left out, and so is that a merged choice may share a pointer with its chunk.
- AuditCursor.CursorRoundTrip: the base64 wrapping, a bijection, is left out.
- AuditIndex.ListAuditRecords: the live records are fixed during a walk; expiry, the index trimming and the pipeline errors of the client are left out.
- AuditLog.AuditLogStore.PutAuditRecord: expiry times and the janitor are left out.
- RuleAdmin.Admin.Create: without concurrent callers; the interleavings are `RuleReload`.
- RuleReload.StepKeepsInv: store versions are abstract snapshots; a write that fails is no step.
- KeywordFilter.GuaranteeSound: the tree is taken as parsed; the simplification before the walk is left out, so counted repetitions stay nodes.
- MaskUseCase.Handle: takes the scan as a function of the text; resolving the rules of a request and the durations are left out, and so are the data types noted.
- DriftPattern.CanonicalAccepted: types arrive without surrounding white space, as the source trims them.
- Checksums.IBANMod97Valid: letters are ASCII; the Unicode tables for other letters are left out.
- SNILS, INN and OGRN checksums, shapes of e-mail addresses, cards and IP addresses, entropy: one-branch or table facts.
- Capture of masked response texts for the audit log, which reads the same outputs.
- Settings, rule updates and deletion handlers, generated code, HTTP, gRPC, configuration, tracing, the Postgres backend and state encryption.
