# Verified model of the inference server's token, session and task logic

The server runs a language model for WebSocket clients. This project models the part of it
that turns sampled tokens into labelled client events, and the session and task bookkeeping
around that, and proves what the code guarantees. `dafny verify dfyconfig.toml` checks it.

| file | models |
|---|---|
| `Options.dfy` | values that may be missing |
| `Bytes.dfy` | byte strings |
| `Utf8.dfy` | the UTF-8 cleaner applied to every sampled piece, and valid UTF-8 |
| `TagScanner.dfy` | the six tags, a whole-text reference scanner and the ideal tag stripper |
| `ThoughtFilter.dfy` | the streaming tag filter, as an object with its loops and a callback that may throw |
| `LlamaLogger.dfy` | the reassembler of llama.cpp log fragments and its read-and-clear flag |
| `SharedLog.dfy` | that log under several workers, who write to it and read its flag |
| `Session.dfy` | `generate`: truncation, batch, decode loop, exits, state |
| `InferenceTask.dfy` | one task: generation, cleaning and filtering composed |
| `TaskRun.dfy` | the generation of a task between two calls of its callback |
| `WorkerPool.dfy` | the task queue and N workers, as atomic steps |
| `Service.dfy` | the service object and its worker loop, proved to take exactly those steps |
| `ClientAuth.dfy` | the authentication cache with its 15-minute limit |
| `SessionManager.dfy` | the session store: two maps that index each other |
| `SessionHandler.dfy` | the request handlers with their guards |
| `Gateway.dfy` | whole runs of connections, authentications and session requests |

Objects that the source updates in place are classes whose methods are proved against a
function on values; the results are lemmas about those functions.

**Foreign parts.** The sampler, end-of-generation test, token texts, decode faults, aborts by
other threads, llama.cpp's log output and what other workers do to the shared log are arbitrary
functions of a `World`. Decoding is
assumed to fail once a position reaches the context capacity, which is what bounds a
generation. The database answer, the clock and the drawn session id are arguments of each
call; the clock, in nanoseconds, is assumed not to go back. Lower-casing is that of the "C"
locale. A callback may go on, stop or throw. The token callback of a task serialises its text
as JSON (src/server/RequestContext.h:37-38); the JSON library is assumed to throw at exactly
the texts that are not UTF-8 by RFC 3629, which is what its strict default promises. The other
callbacks of a task return normally.

**Findings.** Where the code and its documentation or intent differ, the model follows the code.

- The filter compares a tag with its whole buffer, so a tag is consumed only if its last byte
  is the last byte of a token. `StreamIsScan` is exact for every tokenisation; `StreamIsIdeal`
  gives the exact condition for the ideal behaviour and `ChunkingMatters` a family of counterexamples.
- The cleaner is there "to prevent JSON serialization errors" (src/utils/StringUtils.h:8), but it
  checks the shape of section 3 of RFC 3629 and not its range limits: what it returns is valid
  exactly if every complete sequence of the input encodes a scalar value
  (`ValidExactlyWhenInRange`, inputs in `RangeLimitsAreNotChecked`). So one such piece ends its
  task in "Internal server error" (`InternalErrorExactly`) and leaves the session in the
  generating state (`ProcessTask`); no text that is not valid UTF-8 is ever sent (`EveryTextIsUtf8`).
- `shutdown` is documented to wait for all pending tasks
  (src/server/services/InferenceService.h:68). It waits for all that were popped
  (`RestingPoolIsDone`), and so for all pending ones exactly if none was queued when the flag was
  cleared, or one and a worker was already past its test (`ShutdownWaitsExactly`, with a run that
  leaves a task behind in `ShutdownLeavesATask`).
- Clients are told to wait for `end` before they switch models (README.md:419), but `end` is
  sent before the counter that guards the switch is decremented (`EndIsSentBeforeTheDecrement`).
- A generation whose `max_tokens` is not positive, or exceeds the room in the cache and one more,
  ends in an exception unless something else stops it first (`FailsExactlyWhenUnstopped`); any
  other limit is safe (`SafeExactlyWithinRoom`).
- A callback that throws leaves the session in the generating state (`Generate`), so that the
  watchdog (src/server/WsServer.cpp:78-110), which is not part of this model, later reports a timeout.
- llama.cpp's log and its slot flag are one for the process (src/logging/LlamaLogger.cpp:11-18),
  which has four workers (src/server/WsServer.cpp:23). Whether a failed decode becomes
  `MemoryFullException` is about the failing generation itself, whatever the others do, exactly
  if no other thread uses the log and it is clear at the start, that is, no report is unread and
  the pending text can be no part of one (`OwnAnswerExactly`, `Generate`). With two, each can throw
  the other's exception (`ExceptionsCross`). Even alone, a stale report is taken for its own
  (`StaleReportIsRead`), and one whose line is not finished is missed (`UnfinishedReportIsMissed`).

## Model

| member | source | states |
|---|---|---|
| TagScanner.PrefixFree | src/utils/ThoughtFilter.h:54-57 | no tag is a beginning of another tag |
| TagScanner.FoldedExactly | src/utils/ThoughtFilter.h:54-69 | case folding takes a text to a tag exactly if each byte is that of the tag's character or of its capital letter; the tags are the six texts |
| TagScanner.TagAtExactly | src/utils/ThoughtFilter.h:65-98 | a tag occurs at the front of a text exactly if the text begins with its bytes in any mix of letter cases |
| TagScanner.PartialThenTag | src/utils/ThoughtFilter.h:92-145 | a tag that occurs at the front of a text whose held part is a partial tag ends beyond the held part |
| TagScanner.ScanHeld | src/utils/ThoughtFilter.h:100-104 | a held partial tag is scanned alike whichever of its bytes ended tokens |
| TagScanner.ScanIsStrip | src/utils/ThoughtFilter.h:71-152 | where every tag occurrence ends a token, the marked scanner is the ideal stripper |
| TagScanner.ScanEmitsMore | src/utils/ThoughtFilter.h:98-149 | the marked scanner never emits less than the ideal one, and as much only if every tag occurrence ends a token |
| ThoughtFilter.ProcessScans | src/utils/ThoughtFilter.h:71-152 | one pass over the buffer spells a stretch of the reference scan of the buffer and any continuation |
| ThoughtFilter.FeedScans | src/utils/ThoughtFilter.h:31-37 | feeding any tokens on top of any held buffer spells the reference scan, up to what stays held |
| ThoughtFilter.StreamIsScan | src/utils/ThoughtFilter.h:31-152 | for every tokenisation, feed then flush spells exactly the whole-text scan that consumes a tag just when its last byte ends a token |
| ThoughtFilter.StreamIsIdeal | src/utils/ThoughtFilter.h:71-152 | the stream is that of the ideal tag stripper if and only if every tag occurrence ends at the end of a token |
| ThoughtFilter.LabelsExactly | src/utils/ThoughtFilter.h:59-63 | over any tokens and the flush, a text is labelled `tool_call` exactly if the last tool tag consumed before it is an opening one, otherwise `thought` exactly if the last think or thought tag is, otherwise `content`; said of the consumed bytes themselves |
| ThoughtFilter.ChunkingIsIrrelevant | src/utils/ThoughtFilter.h:71-152 | two tokenisations of one text whose tag occurrences all end tokens give the same labelled stream |
| ThoughtFilter.BytewiseIsIdeal | src/utils/ThoughtFilter.h:71-152 | fed one byte per token, the filter strips every tag of every text |
| ThoughtFilter.NoTagsNoChange | src/utils/ThoughtFilter.h:76-81 | a text without a tag occurrence passes unchanged as content under every tokenisation |
| ThoughtFilter.ChunkingMatters | src/utils/ThoughtFilter.h:98-103 | for every tag and following byte: one token emits both literally, two tokens consume the tag and relabel the byte |
| ThoughtFilter.NothingIsLost | src/utils/ThoughtFilter.h:31-152 | emitted texts, consumed tags and buffer interleave back to the bytes fed; consumed runs are tags; the buffer is empty or a partial tag of at most 11 bytes |
| ThoughtFilter.EmittedIsWellFormed | src/utils/ThoughtFilter.h:83-87 | well-formed tokens give only non-empty, structurally well-formed texts, because cuts lie beside ASCII bytes |
| ThoughtFilter.EmittedIsUtf8 | src/utils/ThoughtFilter.h:71-152 | every emitted text is valid UTF-8 if and only if every token is: a range error is neither cut apart, consumed nor held back |
| ThoughtFilter.TryTags | src/utils/ThoughtFilter.h:96-105 | one tag loop matches if the buffer is in its list, holds only if it properly begins a tag of the list, and otherwise does neither |
| ThoughtFilter.Filter.MatchTag | src/utils/ThoughtFilter.h:92-145 | the four loops match exactly the tags in any letter case, hold exactly the partial tags, and set or clear the one flag of the matched tag |
| ThoughtFilter.Filter.ProcessBuffer | src/utils/ThoughtFilter.h:71-152 | the loop leaves the buffer, mode and callback calls of the pass specification, and stops at the first call that throws |
| ThoughtFilter.Filter.Feed | src/utils/ThoughtFilter.h:31-37 | keeps the object where its tokens lead; the held buffer has at most 11 bytes; an empty token changes nothing; if the callback throws, exactly the events before that call were delivered |
| ThoughtFilter.Filter.Flush | src/utils/ThoughtFilter.h:40-45 | after the flush the callback calls spell the reference scan of everything fed |
| Utf8.SanitizeUtf8 | src/utils/StringUtils.h:9-61 | the greedy loop keeps, in order, exactly the bytes that lie inside some complete sequence of the input |
| Utf8.SequenceSurvives | src/utils/StringUtils.h:22-54 | a complete sequence survives whole and ends where no sequence straddles, since sequences never overlap |
| Utf8.SanitizedIsWellFormed | src/utils/StringUtils.h:9-61 | every cleaned text is a concatenation of complete sequences |
| Utf8.FixedPointsAreWellFormed | src/utils/StringUtils.h:9-61 | cleaning changes a text if and only if it is not such a concatenation |
| Utf8.SanitizeIdempotent | src/utils/StringUtils.h:9-61 | cleaning twice is cleaning once |
| Utf8.SanitizeDistributes | src/utils/StringUtils.h:9-61 | cleaning two parts separately gives the cleaned whole if and only if no complete sequence straddles the cut |
| Utf8.SanitizeKeepsEncodings | src/utils/StringUtils.h:16-54 | the concatenated RFC 3629 encodings of any scalar values pass unchanged |
| Utf8.GrammarIsEncoding | src/utils/StringUtils.h:16-54 | the range grammar of RFC 3629 section 4 accepts exactly the concatenated encodings of section 3 |
| Utf8.ValidExactlyWhenInRange | src/utils/StringUtils.h:8-61 | the cleaned text is valid UTF-8 if and only if every complete sequence of the input encodes a scalar value |
| Utf8.RangeLimitsAreNotChecked | src/utils/StringUtils.h:22-54 | an overlong form, an encoded surrogate and a sequence led by F5 pass unchanged although no list of scalar values is encoded so |
| LlamaLogger.StreamIsBatch | src/logging/LlamaLogger.cpp:67-92 | for any fragments, the flushed groups with their levels are those of the batch splitter and the buffer is its unfinished message |
| LlamaLogger.RunConserves | src/logging/LlamaLogger.cpp:74-91 | raw groups and buffer concatenate to all the text that came in |
| LlamaLogger.StrippingKeeps | src/logging/LlamaLogger.cpp:60-65 | stripping neither hides nor creates a phrase that ends in a visible character |
| LlamaLogger.StripTrailing | src/logging/LlamaLogger.cpp:60-65 | the loop removes exactly the trailing newlines, carriage returns and blanks |
| LlamaLogger.Logger.FlushLogBuffer | src/logging/LlamaLogger.cpp:24-58 | a group that is not blank adds one line with the severity of its level, and information is raised only for the three important phrases; the flag is set exactly if the raw group has the phrase |
| LlamaLogger.Logger.LogCallback | src/logging/LlamaLogger.cpp:67-92 | a continuation extends the buffer, anything else first logs it and then replaces it with its own level, and a newline at the end logs the result; the object stays where its fragments lead; a null text changes nothing |
| LlamaLogger.LevelIsLatest | src/logging/LlamaLogger.cpp:74-84 | over any fragments, what is in the buffer will be logged under the level of the latest fragment that is not a continuation |
| LlamaLogger.Logger.WasMemorySlotError | src/logging/LlamaLogger.cpp:20-22 | returns whether a group flushed since the last read contains the phrase, and clears the flag; what was heard stays |
| LlamaLogger.LinesAreBatchLines | src/logging/LlamaLogger.cpp:24-92 | everything logged, the flag and the buffer are what the batch splitter finds in the fragments |
| LlamaLogger.ReadSees | src/logging/LlamaLogger.cpp:18-34 | a read sees a report exactly if one was unread before the last fragments, which never hide it, or those complete a message that has the phrase, pending text included |
| LlamaLogger.OwnReports | src/logging/LlamaLogger.cpp:18-92 | when the pending text has neither the phrase nor a suffix that begins it, a read after some fragments, and no others, is true if and only if an earlier report is unread or these fragments report themselves |
| LlamaLogger.ClearExactly | src/logging/LlamaLogger.cpp:18-92 | a read tells of any later fragments whether they report if and only if no report is unread and the pending text is such |
| LlamaLogger.StaleReportIsRead | src/logging/LlamaLogger.cpp:20-34 | for fragments that report nothing there is an earlier log after which a read takes its report for theirs |
| LlamaLogger.UnfinishedReportIsMissed | src/logging/LlamaLogger.cpp:82-91 | a fragment that has the phrase but does not end its line, continuing any message or starting one, leaves it pending, and a read returns what it would have returned before |
| SharedLog.Play | src/logging/LlamaLogger.cpp:11-92 | under any writes and reads of any workers, the object is in the specified state and gives each read the specified answer |
| SharedLog.OwnAnswerExactly | src/logging/LlamaLogger.cpp:11-34 | each of `n` workers is told whether it has reported itself, whatever the others write and read meanwhile, if and only if there is none, or one and the log is clear at the start |
| SharedLog.AskerIsToldOfAnother | src/logging/LlamaLogger.cpp:18-34 | in any state of the log, a worker that asks after another's report is told of one, though it made none |
| SharedLog.ReporterIsToldOfNone | src/logging/LlamaLogger.cpp:18-34 | the worker that made the report and asks second is told of none |
| Session.Truncate | src/core/Session.cpp:150-163 | keeps the last tokens of the prompt, at most the capacity less one, and all of them if they fit |
| Session.IterationsAreUnique | src/core/Session.cpp:223-268 | the loop stops at the only iteration at which it can first stop |
| Session.TokensAreBounded | src/core/Session.cpp:223-268 | at most `n_ctx - P + 1` tokens, at most `max_tokens` if positive, at most `j` after an abort before iteration `j`; none of them ends the generation |
| Session.TokensAreLeast | src/core/Session.cpp:223-268 | the number of tokens is the least at which something ends the generation: `max_tokens` if positive, the room and one, an abort or an end token after them, or the callback's reply to the last one or a fault of its decode |
| Session.ExitIsOfLastToken | src/core/Session.cpp:242-267 | it ends in the callback's exception exactly if the callback threw at the last token, and in a failed decode exactly if the callback went on, the limit was not reached, and the last token found no room or a fault; else it returns |
| Session.LimitIsMet | src/core/Session.cpp:242-245 | a positive limit within the room that nothing undercuts is met exactly, and the generation returns |
| Session.PositionsAreDense | src/core/Session.cpp:195-258 | cache slot `i` holds position `i`: the prompt, then each generated token at its own position only; logits are asked for from the last prompt token on |
| Session.FailsExactlyWhenUnstopped | src/core/Session.cpp:223-268 | without faults, a generation ends in a decode failure if and only if `max_tokens` is no limit or above `n_ctx - P + 1` and no abort, end token or callback stops it in the first `n_ctx - P + 1` iterations; it then fills the cache and yields exactly that many tokens |
| Session.SafeExactlyWithinRoom | src/core/Session.cpp:223-268 | no fault-free generation of a prompt fails if and only if `0 < max_tokens <= n_ctx - P + 1` |
| Session.LlamaBatch.Load | src/core/Session.cpp:196-208 | the batch holds the prompt at positions 0..P-1, logits only for the last |
| Session.Session.Iterate | src/core/Session.cpp:224-267 | one turn of the loop goes on exactly when no test stops it, and otherwise takes the exit of the first test that does, with its effects on cache, log and callback |
| Session.Session.DecodeLoop | src/core/Session.cpp:219-268 | terminates at the specified iteration with the specified token count, cache, log and callback calls |
| Session.Session.Fail | src/core/Session.cpp:210-217 | the state becomes ERROR, the exception says memory full exactly if an unread report is in the log, and the flag is cleared |
| Session.ExceptionsCross | src/core/Session.cpp:260-266 | two generations whose decodes fail throw each other's exception when the one that did not report reads first |
| Session.Session.Generate | src/core/Session.cpp:127-280 | result, state, cache, the exact callback calls and the log afterwards for every exit, whatever other workers do to the log: IDLE on return, ERROR on its own exceptions, GENERATING only if the callback threw; a failed decode reads and clears the flag and no other exit does; for a sole user of a clear log the exception says memory full exactly if its own decodes reported it |
| Session.Session.Abort | src/core/Session.cpp:50-52 | sets the flag |
| InferenceTask.CompletedSpellsScan | src/server/services/InferenceService.cpp:145-168 | the token events of a completed task spell the reference scan of the pieces, each cleaned on its own |
| InferenceTask.CrashedSpellsPrefix | src/server/services/InferenceService.cpp:170-189 | those of a task whose generation failed spell a beginning of that scan that lacks at most 11 bytes |
| InferenceTask.RefusedSpellsPrefix | src/server/services/InferenceService.cpp:180-189 | those of a task whose token callback threw spell a beginning of that scan |
| InferenceTask.TextsAreUtf8Exactly | src/server/services/InferenceService.cpp:145-159 | all texts made of some pieces are valid UTF-8 if and only if every complete sequence of every piece encodes a scalar value |
| InferenceTask.ThrowsAtThePiece | src/server/services/InferenceService.cpp:152-156 | the callback throws while filtering exactly the first piece that is not valid UTF-8 when cleaned, never later and never at the flush |
| InferenceTask.ThrowsExactly | src/server/services/InferenceService.cpp:152-156 | a task's generation ends in the callback's exception if and only if some sampled piece is invalid when cleaned, and that is the last one |
| InferenceTask.TraceIsUtf8 | src/server/services/InferenceService.cpp:145-189 | every text sent is non-empty, valid UTF-8, on every ending |
| InferenceTask.TraceEndsOnce | src/server/services/InferenceService.cpp:85-192 | a trace is token events and then exactly one terminal event, the last |
| InferenceTask.TraceTells | src/server/services/InferenceService.cpp:85-189 | the last event is a completion with the number of pieces exactly for a finished task, else an error with the literal text of its exception, of the missing session or of the internal error |
| InferenceTask.OnPiece | src/server/services/InferenceService.cpp:152-156 | cleans and feeds one piece; throws exactly if the cleaned piece is not valid UTF-8, with the events before that call delivered |
| InferenceTask.FilterPieces | src/server/services/InferenceService.cpp:152-156 | does so with every piece in order until one throws |
| InferenceTask.ProcessTask | src/server/services/InferenceService.cpp:85-192 | the events of a task are the trace of the pieces that `generate` produced and of how it ended, on the missing-session, success, failure and internal-error paths, each with its terminal event and text and the session state it leaves; the kind of failure is what the shared log says after all that happened to it |
| TaskRun.Resume | src/core/Session.cpp:223-268 | the tests between two calls of the callback, in source order, decide whether the next piece, the return or which failure comes next |
| TaskRun.RanIsGenerate | src/core/Session.cpp:223-268 | a generation taken piece by piece hands out certain pieces and ends in a certain way if and only if `generate` as a whole does |
| TaskRun.RanToTheLeast | src/core/Session.cpp:223-268 | a task's generation hands out the texts of the sampled tokens in order, up to the least number at which its limit, the room, an abort, an end token, an invalid text or a fault ends it, and ends accordingly |
| WorkerPool.StepKeepsInv | src/server/services/InferenceService.cpp:28-192 | every atomic step keeps the order, lock, holder, counter, generation and event invariants |
| WorkerPool.TasksAreConserved | src/server/services/InferenceService.cpp:28-83 | over every run, popped tasks then the queue are the tasks in enqueue order, and each is queued, held by exactly one worker, or finished |
| WorkerPool.CounterIsExact | src/server/services/InferenceService.cpp:142-191 | the counter is the number of workers between begin and end, so from 0 to N, and 0 if and only if there is none |
| WorkerPool.EventsOfEachTask | src/server/services/InferenceService.cpp:85-192 | a finished task got its whole trace with one terminal event at the end, which for a completed one carries the number of its pieces; a held one got none yet; an unpopped one got nothing |
| WorkerPool.EndOfEachTask | src/server/services/InferenceService.cpp:85-189 | over every run, a finished task's client was told last, and once, how it ended: the completion with its number of pieces, or the error text of its own exception |
| WorkerPool.GenerationOfEachTask | src/server/services/InferenceService.cpp:85-189 | over every run, a finished task whose session was there asked for its own limit, unless a profile replaced the default, its pieces are exactly those `generate` hands out for it, and its ending is the exit of `generate`; none if the generation could not start |
| WorkerPool.LimitsOfEachTask | src/core/Session.cpp:223-268 | over every run, a finished task has at most `max_tokens` pieces if that is positive, and at most `n_ctx - P + 1`; without faults it failed if and only if its limit is not positive or above that bound and nothing else stopped it, so a limit within the bound never fails |
| WorkerPool.PiecesOfEachTask | src/core/Session.cpp:223-268 | over every run, a finished task's pieces are the texts sampled for it up to the least number at which something ends its generation, so a limit that nothing undercuts is met exactly |
| WorkerPool.ClientsReadTheScan | src/server/services/InferenceService.cpp:144-189 | over every run, the client of a completed task reads the reference scan of its cleaned pieces, that of a failed one a beginning lacking at most 11 bytes, that of one with an internal error a beginning |
| WorkerPool.EveryTextIsUtf8 | src/server/services/InferenceService.cpp:144-189 | over every run, every text sent so far is non-empty and the encoding of some scalar values |
| WorkerPool.InternalErrorExactly | src/server/services/InferenceService.cpp:151-189 | over every run, a finished task got "Internal server error" if and only if some piece sampled for it has a sequence that encodes no scalar value |
| WorkerPool.FinishedIsFinal | src/server/services/InferenceService.cpp:81-192 | no callback of a task is called after it is finished, however the run goes on |
| WorkerPool.ShutdownKeepsTheQueue | src/server/services/InferenceService.cpp:36-78 | after shutdown one task is popped if a worker held the mutex past its test and has released it, and none otherwise; the rest stay queued in order without events |
| WorkerPool.RestingPoolIsDone | src/server/services/InferenceService.cpp:43-83 | when every worker waits or has left, the finished tasks are exactly the popped ones, the counter is zero and the mutex is free |
| WorkerPool.ShutdownWaitsExactly | src/server/services/InferenceService.cpp:36-83 | once all workers have left, every task enqueued at shutdown is finished if and only if the queue was empty then, or held one task and a worker was past its test |
| WorkerPool.ShutdownLeavesATask | src/server/services/InferenceService.cpp:36-78 | a run of enqueue, shutdown and leaving ends with all workers gone and the task still queued |
| WorkerPool.EndIsSentBeforeTheDecrement | src/server/services/InferenceService.cpp:166-191 | a run exists after which every task has its terminal event and the counter is not zero |
| Service.StepsAreActions | src/server/services/InferenceService.cpp:28-192 | in every state that keeps the invariants, the steps the machine can take are exactly those that some action of the code is |
| Service.SchedulesAreRuns | src/server/services/InferenceService.cpp:28-192 | the states the service object reaches by schedules are exactly those the machine reaches by runs |
| Service.InferenceService.EnqueueTask | src/server/services/InferenceService.cpp:28-34 | pushes the task if the mutex is free and otherwise changes nothing |
| Service.InferenceService.StopRunning | src/server/services/InferenceService.cpp:36-41 | clears the flag and says whether it was set |
| Service.InferenceService.WorkerLoop | src/server/services/InferenceService.cpp:69-75 | the tests of flag, mutex and queue make the worker leave, take the mutex or wait, each exactly when the machine says |
| Service.InferenceService.PopTask | src/server/services/InferenceService.cpp:77-79 | a worker past both tests pops the front of a queue that is never empty there |
| Service.InferenceService.StartTask | src/server/services/InferenceService.cpp:85-149 | a missing session is reported; otherwise the counter goes up, a fresh filter is set up, and the limit is the task's own unless that is -1 and its mode has a profile |
| Service.InferenceService.HandPiece | src/server/services/InferenceService.cpp:152-156 | cleans and filters one piece: the new token events are sent, or those before the callback throws and the internal error |
| Service.InferenceService.Generate | src/server/services/InferenceService.cpp:151-189 | what the generation does next, a piece, the return or an exception, is the step of the machine; an exception is reported once with its text, and is about memory exactly if the flag that was read says so |
| Service.InferenceService.Serve | src/server/services/InferenceService.cpp:28-192 | after any schedule of clients, owner and workers the object is in the state the machine reaches, with its invariants |
| Service.InferenceService.GetActiveGenerations | src/server/services/InferenceService.cpp:52-54 | returns the number of workers between begin and end |
| ClientAuth.FreshIsUnderTtl | src/server/ClientAuth.cpp:57-59 | whole minutes, truncated, are fewer than 15 exactly when less than 15 minutes have passed |
| ClientAuth.CacheReflectsAfter | src/server/ClientAuth.cpp:54-145 | the cache keeps holding the latest acceptance of each client and nothing else |
| ClientAuth.GrantedExactly | src/server/ClientAuth.cpp:107-149 | an answer grants exactly with status 200, a readable body without `error`, and `authorized` absent or true; the number is that of `config` if present, else of the top level, else 1 |
| ClientAuth.LastGrantExactly | src/server/ClientAuth.cpp:139 | a client's latest grant is the one after which it was granted nothing |
| ClientAuth.ClientAuth.Authenticate | src/server/ClientAuth.cpp:50-163 | succeeds exactly if the latest acceptance of the client was of this key within 15 minutes or the database accepts now, said of the fields of its answer; a new acceptance is stored with this key, the granted number and the later time, and nothing else changes the cache |
| ClientAuth.ClientAuth.ClientExists | src/server/ClientAuth.cpp:183-186 | true exactly if the client was ever accepted |
| ClientAuth.ClientAuth.GetClientConfig | src/server/ClientAuth.cpp:172-181 | the latest grant, or the defaults |
| SessionManager.CreateKeepsAgreement | src/core/SessionManager.cpp:66-87 | creation keeps the two indexes in agreement and adds one to the owner's count only |
| SessionManager.CloseKeepsAgreement | src/core/SessionManager.cpp:113-143 | closing keeps agreement and takes one from the owner's count only |
| SessionManager.CloseClientKeepsAgreement | src/core/SessionManager.cpp:165-187 | closing a client keeps agreement and removes exactly its sessions |
| SessionManager.TotalIsSum | src/core/SessionManager.cpp:211-224 | the number of sessions is the sum of the clients' counts |
| SessionManager.SessionManager.CreateSession | src/core/SessionManager.cpp:43-101 | succeeds exactly if the client was accepted, is under its latest limit and a model and context are there; then one entry of this client and model is new and the client is within that limit; else nothing changes |
| SessionManager.SessionManager.CloseSession | src/core/SessionManager.cpp:113-143 | removes the session from both maps; false exactly if it is unknown |
| SessionManager.SessionManager.SetSessionContext | src/core/SessionManager.cpp:145-153 | changes the context of that session only |
| SessionManager.SessionManager.AbortSession | src/core/SessionManager.cpp:155-163 | marks that session only; false exactly if it is unknown |
| SessionManager.SessionManager.CloseClientSessions | src/core/SessionManager.cpp:165-187 | the loop removes exactly the client's sessions |
| SessionManager.SessionManager.CloseAllSessions | src/core/SessionManager.cpp:189-199 | empties both maps |
| SessionManager.SessionManager.GetClientSessionCount | src/core/SessionManager.cpp:211-219 | returns the number of live sessions the client owns |
| SessionManager.SessionManager.GetTotalSessionCount | src/core/SessionManager.cpp:221-224 | returns the sum of the clients' counts |
| SessionHandler.Handler.HandleCreate | src/server/handlers/SessionHandler.h:32-62 | each case has its answer: a socket that is not authenticated, a client with as many sessions as its latest grant allows, or a new session; the store changes only as the answer says |
| SessionHandler.Handler.HandleClose | src/server/handlers/SessionHandler.h:69-100 | closes only a session the socket's client owns; each other case has its answer and changes nothing |
| SessionHandler.Handler.HandleSetContext | src/server/handlers/SessionHandler.h:107-154 | changes only the context of a session the socket's client owns; each other case has its answer and changes nothing |
| Gateway.LogInKeepsInv | src/server/handlers/AuthHandler.h:27-74 | authentication keeps the cache, limit and socket invariants |
| Gateway.StoreIsSound | src/core/SessionManager.cpp:43-224 | over every run the indexes agree, the total is the sum of the counts, and no client exceeds the largest limit it was ever granted |
| Gateway.CreateRespectsLatestGrant | src/core/SessionManager.cpp:52-63 | a successful create leaves the client within its latest grant |
| Gateway.AuthenticationIsRecent | src/server/ClientAuth.cpp:50-186 | over every run, an authentication succeeds exactly on an acceptance in this call or one of this key within 15 minutes, and a client exists exactly if it was ever accepted |
| Gateway.LoginExactly | src/server/WsServer.cpp:130-168 | over every run, credentials presented for a socket that has not authenticated make it the client's exactly if the database accepts now or its latest acceptance of the client was of this key within 15 minutes; no other socket changes; without credentials nothing does |
| Gateway.SocketsWereAccepted | src/server/WsServer.cpp:130-168 | a socket that acts for a client does so because the database accepted that client earlier in the run |
| Gateway.SocketsWereLoggedIn | src/server/handlers/AuthHandler.h:27-74 | a socket that acts for a client was logged in by a step of the run that presented that client and a key accepted in that call or within 15 minutes before |
| Gateway.OthersCannotTouch | src/server/handlers/SessionHandler.h:32-154 | over every run, steps that are not requests of a client never take, add or change the context of its sessions |
| Gateway.RequestsTouchOneSession | src/server/handlers/SessionHandler.h:32-154 | a request touches only the session it names: a created one is the client's with the live model, a stored context is the one sent, every other session stays as it is |
| Gateway.RequestsAreAnswered | src/server/handlers/SessionHandler.h:32-154 | which answer each request gets: an owner's close and context succeed, a create succeeds exactly within the latest grant with a model and a context, and every refusal has its code |
| Gateway.ServerStepsExactly | src/core/SessionManager.cpp:155-199 | an abort marks that session and nothing else; a disconnect takes that socket; closing a client or all takes exactly those sessions |
| Gateway.CloseRemoves | src/server/handlers/SessionHandler.h:84-99 | after a successful close the id is in no map and no list, and the owner has one session fewer |
| Gateway.StrangersTouchNothing | src/server/handlers/SessionHandler.h:35-39 | a request on a socket that is not authenticated changes nothing and is refused |

## Left out

- InferenceTask.ProcessTask: the pieces are filtered after they are collected; `generate` is told beforehand at which piece the callback throws, and the filter is proved to throw at that piece. `Service.InferenceService.HandPiece` filters each piece at once.
- InferenceTask.ProcessTask: exceptions of the completion callback, and of the token callback for other reasons than its text.
- Session.Session.Generate: one generation at a time on a session; the source lets two workers generate on one session at once.
- Session.Session.Generate: a context of capacity 0, sequence ids, the batch limit `n_batch` and the timing metrics are not modelled.
- Session.LlamaContext.Decode: stands for llama.cpp, which is not part of this model; it stores a batch or refuses all of it.
- WorkerPool.ShutdownKeepsTheQueue: safety only; that `shutdown` returns is not claimed, since it signals without the mutex and a worker may miss the wake-up.
- WorkerPool.LimitsOfEachTask: the worlds of two tasks are independent, so two workers that generate on one session at once, and share its cache and abort flag, are not covered.
- WorkerPool.GenerationOfEachTask: which of the two exceptions a failed decode becomes is open, as the shared log decides it (`SharedLog.OwnAnswerExactly`).
- WorkerPool: `lastMetrics_` and its mutex; two workers that finish together may store and report in different orders.
- WorkerPool: sleeping on the condition variable is not a state of its own; a waiting worker is `Idle`.
- SessionManager.SessionManager.CreateSession: the random id and its retry loop are replaced by an arbitrary unused id.
- Gateway.OthersCannotTouch: speaks of presence, owner, model and context; `abort` has no ownership test and sets a flag on any session.
- The profile table, prompt concatenation, parameter parsing, model loading and unloading, metrics, the watchdog's timing and the network.
- `priority` and `description` of a client's configuration, and the `extra` part of a context.
