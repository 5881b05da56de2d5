# AGOS Proxy: a verified model of routing, failover and streaming

AGOS Proxy resolves a route to an ordered list of upstreams, tries them with failover and re-renders the answer that
wins, usually as a stream of server-sent events. This project models that logic in Dafny and proves what it keeps, over
all inputs and all runs. `dafny verify dfyconfig.toml` checks everything.

The modules follow the program:

| files | subject |
|---|---|
| `Sse`, `SseFields` | the incremental frame parser, what a frame's lines are read as, payload classification and the wire form |
| `Pump`, `Streaming` | what a client of a stream receives as one fold over the frames of the whole body; the probe, its hand-off, the pump and the attempt loop, proved to compute that fold however the network cuts the bytes |
| `Attempts`, `StreamRows` | what every failed attempt is logged and acted on as, and what every run logs, read off the upstream's own answer |
| `Responses`, `ResponsesStream`, `NativeStream`, `OpenAiDecode` | the Responses renderer, its driver, the non-streamed rendering and the decoding of tool calls |
| `Routing`, `Access`, `NestedFlags`, `Ordering`, `Selection`, `Strategies`, `Resolution` | expansion of a possibly cyclic route graph, who may use what, the flags of nested entries, cooldown, the four strategies, resolution |
| `Health`, `InBandCodes`, `ImageRefusals`, `Failover`, `HealthMachine` | entry setters, failure classification, in-band errors and what their codes do, buffered failover, probes, and runs that interleave them |
| `RateLimit`, `ResponseCache` | two stores that delete eagerly, against ones that never delete |
| `Fnv`, `PromptCache`, `Marking`, `PrefixKey` | the in-place marking of request bodies, where its markers are, and the 64-bit prefix key |
| `Translator`, `Content`, `Pictures`, `Delay` | multimodal content between surfaces, retry hints |
| `Base`, `Domain`, `Json` | shared values, the routing entities, JSON as a datatype |

Code that changes things step by step is a class or a method with loops, proved against a function of its inputs; what
the program promises is then proved about that function. Many proofs use `hide` to keep definitions they do not need out
of the solver's sight.

## Assumptions

- Steps are atomic: no operator or second request changes an entry between its selection and the write that follows.
- `parse` (JSON reader), `decode` (a provider's stream decoder), `imageRejection` (recogniser of image refusals), `show`
  (JSON writer), `encode` (UTF-8), `lossy` (decoding of a chunk to text) and `tokens` (usage reader of a whole response)
  are parameters: every result holds for all of them.
- An upstream body is a finite list of chunks followed by a clean end, an idle gap or a transport error; a client either
  stays or accepts a number of items and then goes away.
- The limiter and the cache are called in time order. Prices, weights and the numbers of a duration are reals.

## Where the code differs from what is written about it

- `src/server/handlers.rs:1046-1049` says that bookkeeping events render nothing and must not consume the assistant
  role. The first event decoded takes the role, whatever it says: `Pump.OpeningTakesRole` shows it on the opening of an
  Anthropic stream, and `Pump.RoleGoesFirst` says that a run keeps the promise exactly when its first decoded event, if
  there is one, has something to say.
- A leading `[DONE]` is refused as an empty stream or committed depending on where the network cut the bytes:
  `Streaming.LeadingDone` gives the exact condition, `Streaming.LeadingDoneDependsOnChunking` a family of examples.
  `Streaming.ChunkingInvisible` and `Streaming.LoopChunkingInvisible` say that chunking leaves no other trace.
- A payload with a line end is not re-split when it is framed anew; `Sse.WireRoundTrip` says exactly which payloads
  survive, `Pump.ClientReads` which streams of them, and `Pump.SecondLineLost` shows a frame of two data lines losing one.
- Resolution never copies a route's prompt-cache policy into its targets: they all carry the default
  (`Resolution.ResolutionKeepsEveryone`), which is the route's own exactly when that is the default
  (`Resolution.PolicyReachesTargetsIff`, with an example in `Resolution.OffIsLost`).
- A weightless first target leads when the random draw is exactly zero (`Selection.ZeroWeightLeads`,
  `Selection.ZeroWeightCanLead`).
- The cycle check of the expansion never decides whether a route is refused, only which error is reported: the depth cap
  alone refuses the same routes (`Routing.ExpandsWithoutCycleCheck`).
- `src/domain/model.rs:280` calls the flags of nested entries advisory and recomputed. The expansion filters on them as
  stored, and a new nested entry is stored with all of them off (`src/storage/mod.rs:1508`), so a request that needs
  anything never passes one (`NestedFlags.FreshNestedUnused`, with an example in `NestedFlags.FreshNestedHidesTools`).
  `NestedFlags.FlagsAreAdvisoryIff` says exactly when the stored flags make no difference.
- `src/router/mod.rs:546-547` says that an image refusal clears an entry's vision and nothing else, on both surfaces, and
  `docs/failover.md` that it makes the entry Unhealthy. What it does depends on the status: it clears vision exactly when
  the message is unmarked and the status is in 400..499 and not 429 (`Health.ClearsVisionIff`,
  `Health.RefusalOnlyBlindsIff`). With status 400 it does (`Health.ImageRefusalKeepsHealth`); with status 429 it makes the
  entry Degraded (`Health.LimitedRefusalDegrades`). An in-band refusal without a numeric code is reported as a 502 and
  makes the entry Unhealthy with its vision kept, in the probe (`ImageRefusals.UncodedRefusalInProbe`) and in the pump
  (`ImageRefusals.UncodedRefusalInPump`); `ImageRefusals.InBandRefusalOnlyBlindsIff` gives the exact condition over code
  and message.
- `docs/failover.md` says that a 429 makes an entry Unhealthy. It makes it Degraded and, for a buffered request, parks it
  (`Health.RateLimitDegrades`); the streaming path never parks. `Health.MadeUnhealthyIff` says which failures do make an
  entry Unhealthy. The same document's table says Degraded entries are not probed; the code probes them, as the document's
  own diagram has it.
- A 429 whose message has a mask or skip marker changes no status, yet it still parks the entry: `Health.OnlyParksIff`
  gives the exact condition, `Health.MarkedLimitOnlyParks` an example.
- The code of an in-band error is cut to 32 signed bits before the failure is logged and classified, so a long code can be
  acted on as a rate limit (`InBandCodes.LongCodeActsAsRateLimit`). `InBandCodes.ActedOnAsSentIff` says exactly when the
  cut changes nothing that is done.
- `src/adapter/outbound/prompt_cache.rs:64-66` says that unrelated prompts hash apart. The parts of the prefix are joined
  without a separator, so text can move from one part to the next without a trace (`PrefixKey.BoundaryLost`);
  `PrefixKey.AlwaysSharedIff` says exactly which bodies share a key under every encoding: those with the same joined text
  and those with a blank one. All others share one only by a collision of the hash (`PrefixKey.SharedKeyIff`).
- Pruning the limiter with an age below its window would admit a request it should refuse
  (`RateLimit.ShortPruneForgets`). A cache clock that goes back can lose a fresh response
  (`ResponseCache.ClockMustNotGoBack`); `ResponseCache.AnswersIdeallyIff` says exactly when it does.
- Token counts are unsigned when read and signed when logged: from 2^63 on they are logged negative
  (`Pump.LoggedAsReportedIff`, `Pump.HugeCountLoggedNegative`).

## Model

| member | source | states |
|---|---|---|
| Sse.FindFrameEnd | src/server/sse.rs:80-96 | the scan finds a frame end exactly when some line end is followed by an empty line, LF or CRLF, and finds the first |
| Sse.NoFrameEnd | src/server/sse.rs:80-96 | no frame end from a position on if and only if no blank line from there on |
| Sse.CutAppend | src/server/sse.rs:46-59 | cutting a prefix first and feeding the rest to what is left gives the raw frames and leftover of the whole |
| Sse.CutConserves | src/server/sse.rs:46-59 | raw frames with their one-byte terminators, followed by the leftover, are exactly the bytes fed |
| Sse.CutUnique | src/server/sse.rs:46-96 | the cut is the only one that conserves the bytes, ends every piece at its first blank line and leaves none in the rest |
| Sse.ParseFrame | src/server/sse.rs:99-119 | one raw frame becomes its joined data lines and last event name, or nothing without a data line |
| Sse.SseParser.Feed | src/server/sse.rs:46-59 | a call returns the frames that buffer and chunk complete together, and keeps the rest |
| Sse.SseParser.Finish | src/server/sse.rs:63-69 | an unterminated last frame is flushed and the buffer emptied |
| Sse.FeedAppend | src/server/sse.rs:46-59 | parsed frames and leftover do not depend on one cut |
| Sse.AnyChunking | src/server/sse.rs:46-59 | any sequence of feeds yields the frames and leftover of one feed of the concatenation |
| Sse.WireRoundTrip | src/server/sse.rs:27-29 | re-parsing a framed payload gives it back, alone, if and only if it has no line end and no trailing carriage return |
| Sse.ErrorReads | src/server/sse.rs:143-166 | an in-band error is read with its code, if a 64-bit number, and its message, if a text |
| Sse.OtherReads | src/server/sse.rs:143-166 | a payload is an in-band error if and only if it is an object with an `error`, which need not be an object |
| SseFields.FrameReads | src/server/sse.rs:99-119 | a frame of any plain lines, with either line end, is read as one frame: all data lines in order with a line end between any two, the last event name, one space behind the colon dropped |
| SseFields.LastFrameReads | src/server/sse.rs:63-69 | without the empty line the frame is not complete, and is read all the same when the stream ends |
| Pump.HandleAllAppend | src/server/handlers.rs:931-1061 | handling frames in two batches is handling them in one |
| Pump.OneRow | src/server/handlers.rs:1062-1092 | a run with a connected client logs exactly one row, failed if and only if it ended in-band, idle or in transport, else with the first value reported for each count, as a signed 64-bit number |
| Pump.LoggedAsReportedIff | src/server/handlers.rs:1086-1088 | a count is logged as reported if and only if it is below 2^63, and otherwise negative |
| Pump.HugeCountLoggedNegative | src/server/handlers.rs:1086-1088 | 2^63 tokens are logged as -2^63 |
| Pump.PassthroughBytes | src/server/handlers.rs:994-1025 | the bytes sent are the payloads up to and including the first sentinel or error, in order, one send each |
| Pump.TrimmedRoundTrip | src/server/sse.rs:27-29 | a trimmed payload survives framing if and only if it is one line |
| Pump.ClientReads | src/server/sse.rs:27-29 | a client that parses payloads framed anew reads exactly those payloads, in order, if and only if each is a single line |
| Pump.SecondLineLost | src/server/sse.rs:27-29 | an upstream frame with data lines `a` and `b` is read by the client as `a` alone |
| Pump.ChunkSays | src/server/sse.rs:224-282 | a rendered chunk carries the event's text, tool-call fragments and finish reason; no chunk only if there was nothing to say |
| Pump.ChunkHolds | src/server/sse.rs:224-282 | field by field: role, text and finish reason of a chunk, and each fragment at its place with its own index, id, name and arguments |
| Pump.TranslationSaysAll | src/server/handlers.rs:1026-1060 | a translated stream says exactly what the frames up to the one that ends it say, in order |
| Pump.RunShape | src/server/handlers.rs:955-1092 | sentinel, error or fault at most once and last; the first completion chunk and no other carries the role |
| Pump.RoleGoesFirst | src/server/handlers.rs:1026-1050 | over every translated run with a connected client the first decoded event takes the role; no chunk goes out that says nothing if and only if that event, if there is one, says something |
| Pump.OpeningTakesRole | src/server/handlers.rs:1026-1050 | on a count-only opening followed by text the role goes out on an empty chunk and the text follows without it |
| Pump.DisconnectPrefix | src/server/handlers.rs:955-1061 | a client that leaves after n items received exactly the first n items of the whole run |
| Streaming.Body.Next | src/server/handlers.rs:769-787 | the next chunk, or how the body ends |
| Streaming.RemainingStep | src/server/handlers.rs:843-847 | feeding a chunk moves frames from the body to the queue and loses, repeats or reorders none |
| Streaming.ReadMore | src/server/handlers.rs:832-848 | awaiting a chunk and feeding or flushing the parser keeps the frames still to come |
| Streaming.ProbeStream | src/server/handlers.rs:793-851 | the probe's verdict; when it commits, queue, buffer and unread chunks hold exactly the frames of the whole body |
| Streaming.ProbeVerdict | src/server/handlers.rs:793-851 | for every chunking the verdict is read off the whole body's frames, except exactly when a leading sentinel stands alone |
| Streaming.LeadingDoneDependsOnChunking | src/server/handlers.rs:805-820 | the same bytes, cut in two ways, are refused and committed |
| Streaming.NextFrame | src/server/handlers.rs:962-992 | takes the next frame of those still to come, or says truly that there is none |
| Streaming.Deliver | src/server/handlers.rs:994-1060 | the handling of one frame, sends, counters and end included |
| Streaming.FailStreamAttempt | src/server/handlers.rs:855-882 | logs one failed row and acts on the entry; never on its cooldown |
| Streaming.PumpStream | src/server/handlers.rs:931-1092 | from the probe's half-read state, what is received, logged and done to the entry are one fold over the frames that were still to come |
| Streaming.TryUpstream | src/server/handlers.rs:530-690 | one attempt: its outcome, what the client sees, the rows logged and the failures acted on |
| Streaming.HandleStreaming | src/server/handlers.rs:461-723 | targets are tried in order up to the first that works; failures show the client nothing and are acted on as they happen; else a 502 without a byte of stream |
| Streaming.ChunkingInvisible | src/server/handlers.rs:793-1061 | two chunkings of the same bytes give the same outcome if and only if, when the body opens with the sentinel, both or neither leave it alone; then bytes, rows and failures are the same too |
| Streaming.LoopChunkingInvisible | src/server/handlers.rs:461-723 | the attempt loop over lists of upstreams that differ only in their cuts tries the same number, shows the client the same and leaves the same log and entries |
| Streaming.TriedCountUnique | src/server/handlers.rs:461-723 | how many upstreams are tried is determined by the upstreams |
| Streaming.TrialOfWhole | src/server/handlers.rs:793-851 | an attempt's outcome is read off the frames of the whole byte string |
| Streaming.LeadingDone | src/server/handlers.rs:805-820 | a body that opens with the sentinel is refused if and only if a cut leaves the sentinel alone |
| Streaming.OpenAiEndToEnd | src/server/handlers.rs:793-1061 | end to end over any chunking: the client's bytes are the payloads up to the first sentinel or error |
| Streaming.TranslatedEndToEnd | src/server/handlers.rs:793-1061 | end to end over any chunking for Anthropic and Google: the client's chunks say what the body's frames say |
| Attempts.FailedAttempt | src/server/handlers.rs:530-690 | a rejected, unreachable, silent or failing upstream leaves exactly one failed row and one failure, with its own status and message, and shows the client nothing |
| Attempts.OtherAttempt | src/server/handlers.rs:530-690 | an untranslatable request leaves no trace, a whole answer one successful row with its counts; a stream is the run over its frames |
| Attempts.LoopLogsFailures | src/server/handlers.rs:461-723 | every upstream tried that fails has its row and its failure in the log, in order; there are no other failures before the upstream that serves, and none twice |
| Attempts.SoleRejection | src/server/handlers.rs:564-582 | a sole unmarked rejection leaves its entry Degraded with 429 and Unhealthy with 500 |
| StreamRows.FrameReports | src/server/sse.rs:178-221 | the counts of a frame are those at the provider's own named paths, for the provider's own type of frame |
| StreamRows.FirstReports | src/server/handlers.rs:1011-1016 | each count logged is the one of the first frame that reports it |
| StreamRows.RunStopped | src/server/handlers.rs:994-1010 | an in-band error ends a run with its payload, one failed row and one failure, with its code and message; a sentinel with the sentinel and no failure |
| StreamRows.RunReadAll | src/server/handlers.rs:962-992 | a run that reads all frames: how a clean end, an idle gap and a transport error are sent, logged and acted on |
| StreamRows.RunLeft | src/server/handlers.rs:1018-1050 | a client that leaves after n items leaves no row and no failure if and only if there was another piece of content to send; otherwise its run is logged like the whole run |
| Health.Store.SetRouteEntryStatus | src/storage/mod.rs:1566-1574 | sets one entry's status and nothing else |
| Health.Store.SetRouteEntryCooldown | src/storage/mod.rs:1581-1589 | sets one entry's cooldown, never below zero, and nothing else |
| Health.Store.SetRouteEntryVision | src/storage/mod.rs:1326-1353 | sets one entry's vision flag and nothing else |
| Health.ApplyFailureAction | src/router/mod.rs:522-572 | classifies a failure and applies the one matching action |
| Health.RateLimitCooldownSecs | src/router/mod.rs:381-387 | a positive setting is the fallback cooldown, anything else gives 60 |
| Health.AppliedAllEffect | src/server/handlers.rs:855-882 | after any streaming failures, in order and with repeats: the last demotion decides the status, any failure taken as an image refusal ends vision, the cooldown never moves |
| Health.SettledAllEffect | src/router/mod.rs:474-485 | the same for a buffered request whose targets all failed, where the last 429, and only a 429, decides the cooldown |
| Health.MarkedIff | src/router/mod.rs:522-530 | a message counts as marked if and only if one of the three markers stands in it |
| Health.MadeUnhealthyIff | src/router/mod.rs:522-572 | after any streaming or buffered failures an entry is Unhealthy if and only if an unmarked failure with a status outside 400..499 hit it and no unmarked 429 hit it later, or it was so before and no unmarked 429 hit it |
| Health.OnlyParksIff | src/router/mod.rs:474-485 | a buffered 429 always parks, and changes nothing else if and only if its message has a marker or the entry is Degraded |
| Health.ClearsVisionIff | src/router/mod.rs:522-542 | a failure clears vision if and only if its message refuses images and is unmarked and its status is in 400..499 and not 429 |
| Health.RefusalOnlyBlindsIff | src/router/mod.rs:546-572 | an image refusal against an entry with vision costs it its vision and nothing else if and only if it is unmarked and its status is in 400..499 and not 429 |
| Health.ImageRefusalKeepsHealth | src/router/mod.rs:548-566 | an image refusal with status 400 costs a healthy entry its vision flag and nothing else |
| Health.LimitedRefusalDegrades | src/router/mod.rs:522-542 | the same refusal with status 429 makes the entry Degraded and keeps its vision |
| Health.RateLimitDegrades | src/router/mod.rs:474-485 | a plain 429 makes a healthy entry Degraded and, buffered, parks it for a minute |
| Health.MarkedLimitOnlyParks | src/router/mod.rs:474-485 | a 429 with a mask marker parks a healthy entry and leaves it Healthy |
| InBandCodes.KeptCodes | src/server/handlers.rs:640 | the cut keeps a code if and only if it fits 32 signed bits |
| InBandCodes.SameMarks | src/router/mod.rs:522-530 | the wording put in front of an in-band message neither adds nor hides a marker |
| InBandCodes.ActedOnAsSentIff | src/server/handlers.rs:1000-1008 | an in-band error is acted on as its uncut code would be if and only if its message has a marker, its code is in 400..499, or its low 32 bits are not |
| InBandCodes.LongCodeActsAsRateLimit | src/server/handlers.rs:1000-1008 | the code 4294967725 makes its entry Degraded where the uncut code would make it Unhealthy |
| ImageRefusals.InBandRefusalOnlyBlindsIff | src/server/handlers.rs:1000-1008 | an in-band image refusal, in probe or pump, costs an entry its vision and nothing else if and only if its message is unmarked and the low 32 bits of its code are in 400..499 and not 429 |
| ImageRefusals.UncodedRefusalInProbe | src/server/handlers.rs:628-645 | as the first frame of a body, under any chunking, an image refusal without a numeric code makes its entry Unhealthy and keeps its vision |
| ImageRefusals.UncodedRefusalInPump | src/server/handlers.rs:1000-1008 | after any frames of a committed stream it does the same, whatever follows |
| Failover.SettleFailures | src/router/mod.rs:468-485 | acts on every failure once, in order |
| Failover.ExecuteWithFailover | src/router/mod.rs:414-491 | tries a prefix of the targets, each once and in order; the first answer leaves entries untouched; if all fail, their state is the fold of the failures |
| Failover.Remembered | src/router/mod.rs:440-466 | a failed attempt is acted on with its own status, body and retry hint; a transport error and a timeout with none |
| Failover.ParkedAsAsked | src/router/mod.rs:474-485 | after a request that failed everywhere, an entry is parked for the seconds its last 429 asked for, none if negative, and for the configured ones or 60 only without a hint |
| HealthMachine.RunOnce | src/health/mod.rs:95-121 | one cycle moves every entry that needs a probe by its own outcome, and no other |
| HealthMachine.StepLawful | src/health/mod.rs:95-121 | every probe or traffic step: Disabled neither entered nor left, vision never regained, probes move one status by one rank up or down to Unhealthy, traffic never raises the rank, only buffered traffic parks |
| HealthMachine.RunLawful | src/router/mod.rs:522-572 | over every interleaving of steps: Disabled neither entered nor left, vision never regained, nested entries unmoved |
| HealthMachine.RankKept | src/health/mod.rs:223-235 | without a failure of its own an entry's rank never drops |
| HealthMachine.TwoProbesHeal | src/health/mod.rs:223-235 | two successful probes with no failure in between make any direct enabled entry Healthy, whatever else happens |
| Responses.AbsorbProjects | src/adapter/inbound/responses.rs:550-568 | however fragments interleave, each call is built from its own fragments alone |
| Responses.AbsorbRebuilds | src/adapter/inbound/responses.rs:550-568 | any cutting of any calls into fragments, interleaved in any way, is absorbed back into those calls |
| Responses.AbsorbsNewest | src/adapter/inbound/responses.rs:550-568 | each call ends up with the last non-empty id, call id and name sent for it, and its arguments joined in order |
| Responses.CallEventsAscend | src/adapter/inbound/responses.rs:576-606 | finished calls come with strictly increasing output indices |
| Responses.ItemEventsAscend | src/adapter/inbound/responses.rs:576-606 | all finished items of a turn, message included, come with strictly increasing output indices |
| Responses.StreamedItemsAgree | src/adapter/inbound/responses.rs:395-417 | the streamed items equal the non-streamed output if and only if every call has a name |
| Responses.OutputHolds | src/adapter/inbound/responses.rs:395-417 | the non-streamed output: the text, then one item for each call with its own name, arguments, id and call id |
| Responses.ClosingHolds | src/adapter/inbound/responses.rs:576-622 | the closing burst: the text, one item with the same fields for each named call at its call's index, the counts, and nothing else |
| Responses.ResponseIdPrefixed | src/adapter/inbound/responses.rs:435-443 | a response id is the given one behind one `resp_`, or `resp_agos` when none is given |
| ResponsesStream.ResponsesRenderer.Absorb | src/adapter/inbound/responses.rs:550-568 | one fragment updates the call at its index |
| ResponsesStream.ResponsesRenderer.TerminalFrames | src/adapter/inbound/responses.rs:576-622 | the closing burst, and the renderer is finished |
| ResponsesStream.ResponsesRenderer.Render | src/adapter/inbound/responses.rs:626-673 | one event: the new state and what is sent |
| ResponsesStream.ResponsesRenderer.Finish | src/adapter/inbound/responses.rs:675-689 | closes a turn the upstream left open, once |
| NativeStream.LinesAppend | src/server/native.rs:330-345 | complete lines and the partial line do not depend on where the text was cut |
| NativeStream.DecodeLine | src/server/native.rs:394-411 | a line renders the event it decodes to and reports whether that ends the turn |
| NativeStream.DrainLines | src/server/native.rs:339-345 | every complete line is rendered once, in order, and the partial line kept |
| NativeStream.CloseTask | src/server/native.rs:355-369 | the partial line is flushed and the turn closed, each only if it is still open |
| NativeStream.StreamTask | src/server/native.rs:330-369 | over any chunking, what is sent is a fold over the decoded lines of the text the chunks become, each decoded on its own |
| NativeStream.UndamagedText | src/server/native.rs:338 | chunks of valid text become the text of the body, so their cuts do not show |
| NativeStream.StateAfter | src/adapter/inbound/responses.rs:626-673 | text, calls and counts are functions of the events up to the end of the turn |
| NativeStream.SentAfter | src/adapter/inbound/responses.rs:626-673 | everything sent is a function of the events up to the end of the turn |
| NativeStream.CleanRun | src/server/native.rs:330-369 | a clean run sends one opening, the live text, the closing burst, and nothing else |
| NativeStream.CleanRunGrammar | src/adapter/inbound/responses.rs:576-689 | exactly one created, then text deltas, then items with increasing indices, then one completed; the message item holds the text sent live |
| NativeStream.BrokenRunGrammar | src/server/native.rs:348-353 | a run cut off by a transport error has sent what a clean run sends if the turn was over, else the opening and the live text so far, and nothing closes it |
| NativeStream.StreamingAgrees | src/adapter/inbound/responses.rs:395-417 | the items a whole streamed run closes with are the output of the non-streamed rendering |
| NativeStream.FinishedCalls | src/adapter/inbound/responses.rs:473-492 | the finished item of each call holds the name sent in its fragments and their arguments joined in order |
| NativeStream.LineHandsPayload | src/server/native.rs:394-411 | a `data:` line hands exactly its payload to the decoder, unless that is the sentinel |
| NativeStream.OtherLineIgnored | src/server/native.rs:399-402 | a line of any other kind hands over nothing |
| NativeStream.LinesDecoded | src/server/native.rs:330-369 | the lines of a body are decoded in order; what follows the last line end counts only after a clean end |
| NativeStream.NativeTurnId | src/server/native.rs:410 | the first event of a native turn carries the proxy's own id |
| OpenAiDecode.ParsedCallsAreNamed | src/adapter/outbound/openai.rs:96-121 | every call read from any response has a name and one id for both roles |
| OpenAiDecode.CallsRoundTrip | src/adapter/outbound/openai.rs:83-121 | calls are read back exactly if and only if each has a name and one id |
| OpenAiDecode.FragmentsRoundTrip | src/adapter/outbound/openai.rs:128-165 | the fragments of a chunk are read back exactly if and only if each has a 32-bit index, one id and no empty id or name |
| OpenAiDecode.CallReads | src/adapter/outbound/openai.rs:83-121 | the id, name and arguments of a call, member by member; missing and null arguments count as an empty object |
| OpenAiDecode.FragmentReads | src/adapter/outbound/openai.rs:128-165 | a fragment's index, or else its position, cut to 32 bits, and what it says of the call |
| OpenAiDecode.ChoiceByIndex | src/adapter/outbound/openai.rs:96-101 | the first choice is read from a list and from an object with the member `0` alike |
| Routing.ExpandInner | src/router/mod.rs:222-290 | the search over a mutable path stack computes the expansion and restores the stack on success |
| Routing.ExpandsIff | src/router/mod.rs:222-290 | expansion succeeds if and only if no path of the unfolding repeats a route, none exceeds eight routes, and every eligible entry may be used |
| Routing.ExpansionIsLeaves | src/router/mod.rs:222-290 | on success the result is the left-to-right list of leaves, whatever was visited before |
| Routing.LeavesAreReached | src/router/mod.rs:222-290 | the leaves are exactly the eligible direct entries of the routes that walks within the depth reach |
| Routing.LeavesInOrder | src/router/mod.rs:222-290 | the leaves are those at the paths of entry positions that lead to a leaf within the depth, from left to right, each path exactly once |
| Routing.CapImpliesNoCycle | src/router/mod.rs:202 | if no walk exceeds the cap, no walk repeats a route |
| Routing.ExpandsWithoutCycleCheck | src/router/mod.rs:202-236 | expansion succeeds if and only if every walk has at most eight routes and only entries the caller may use |
| Access.ExpandsWhenAllowed | src/router/mod.rs:222-290 | expansion succeeds if and only if every walk has at most eight routes, and every selectable entry on one names a provider that exists and is shared or the caller's, or a route that exists under an owner and is shared or the caller's |
| Access.TargetsAllowed | src/router/mod.rs:252-256 | every target of a successful expansion is on a provider that is shared or the caller's own |
| Access.RoutesAllowed | src/router/mod.rs:266-280 | every route entered below the root is shared or the caller's own |
| Access.OwnEntriesServe | src/router/mod.rs:252-264 | a selectable direct entry of the root on an allowed provider is among the targets |
| Access.RefusalIsTrue | src/router/mod.rs:222-290 | whatever error an expansion reports is true of some walk and entry |
| NestedFlags.FreshNestedUnused | src/router/mod.rs:241-247 | with all flags of nested entries off, a request that needs anything reaches exactly the eligible direct entries of the route it names |
| NestedFlags.FreshNestedHidesTools | src/storage/mod.rs:1500-1512 | a route whose one entry is a fresh reference to a route that serves tools expands to nothing for a request with tools |
| NestedFlags.FlagsAreAdvisoryIff | src/router/mod.rs:241-247 | the leaves are those with the flags of nested entries ignored if and only if no walk reaches a nested entry in rotation that lacks a needed flag and has a leaf below it |
| Ordering.StableSortCorrect | src/router/mod.rs:326-341 | a stable sort keeps every element, orders them and never swaps elements ranked alike |
| Ordering.StableArrangementUnique | src/router/mod.rs:326-341 | two arrangements with the same order and the same ties are equal, so the stable sort is the only one |
| Ordering.RotateArray | src/router/mod.rs:44 | in-place rotation of the target slice |
| Ordering.RotationPermutes | src/router/mod.rs:44 | a rotation loses and adds nothing |
| Selection.WarmFirstNeverStrands | src/router/mod.rs:401-411 | all warm targets in order, or all targets soonest-to-warm first when none is warm; empty only for an empty list |
| Selection.WarmFirstByClock | src/router/mod.rs:401-411 | the result is exactly the targets whose cooldown is over, in order, or, if none is, all of them, those that end sooner first |
| Selection.EconomyOrder | src/router/mod.rs:326-341 | known prices ascending before unknown ones, ties in their order |
| Selection.RoutingState.RotateRoundRobin | src/router/mod.rs:29-46 | the slice is rotated to the stored counter, which moves on by one |
| Selection.RoutingState.ShuffleWeighted | src/router/mod.rs:51-70 | the slice is rotated to the target chosen by weight, or left alone |
| Selection.RoutingState.Choose | src/router/mod.rs:60-68 | the subtraction loop finds the first position at which the weights reach the draw |
| Selection.PickInterval | src/router/mod.rs:51-70 | a positive draw picks a position if and only if it lies in that position's half-open interval, whose length is its weight |
| Selection.ZeroWeightLeads | src/router/mod.rs:51-70 | a weightless target leads if and only if it is first and the draw is zero |
| Selection.ZeroWeightCanLead | src/router/mod.rs:51-70 | a concrete list of weights in which a weightless target leads at draw zero |
| Selection.LeadersRotate | src/router/mod.rs:29-46 | requests to a route are led in strict rotation whatever other routes are requested in between |
| Selection.RoundRobinFair | src/router/mod.rs:29-46 | over any consecutive requests each target leads the floor or the ceiling of its share |
| Strategies.RoundRobinBegins | src/router/mod.rs:322-342 | round robin begins at the route's counter and wraps around |
| Strategies.WeightedBegins | src/router/mod.rs:322-342 | the weighted order begins at the target into whose share of the summed weights the draw falls; without weights nothing moves |
| Strategies.EconomyAscends | src/router/mod.rs:322-342 | economy puts known prices, ascending, before unknown ones, keeps everyone, and keeps the order among equals |
| Resolution.SplitOnce | src/router/mod.rs:187-199 | the model string is split at its first slash |
| Resolution.ResolvesByName | src/router/mod.rs:187-199 | `proxy/route` names the route of that name under the proxy of that name of the caller, and a missing name is reported as what it is |
| Resolution.ResolveTargetsWithStrategy | src/router/mod.rs:300-345 | resolution, its errors included: the warm leaves in the order of the strategy; only round robin moves a counter |
| Resolution.OrderingPermutes | src/router/mod.rs:322-342 | no strategy adds, drops or changes a target |
| Resolution.ResolutionKeepsEveryone | src/router/mod.rs:300-345 | the result holds the warm leaves, or all of them when none is warm, each eligible and with the outer route's identity |
| Resolution.PolicyReachesTargetsIff | src/router/mod.rs:313-315 | the targets carry the policy of the route that was asked for if and only if it has no leaf or that policy is the default |
| Resolution.OffIsLost | src/router/mod.rs:313-315 | a route with the policy off resolves to a target with the default policy |
| RateLimit.RateLimiter.Check | src/server/ratelimit.rs:43-62 | evicts, decides and records for one key; other keys are untouched |
| RateLimit.RateLimiter.Prune | src/server/ratelimit.rs:67-79 | drops old hits and empty windows |
| RateLimit.ForgetsNothing | src/server/ratelimit.rs:43-79 | over any interleaving of checks and prunings the decisions for a key are those of a limiter that keeps everything and sees only that key |
| RateLimit.ShortPruneForgets | src/health/mod.rs:79-85 | the age must be at least the window: every shorter one has a run that shows it |
| RateLimit.NeverOverLimit | src/server/ratelimit.rs:43-62 | no half-open interval of one window's length holds more admitted requests of a key than its limit |
| RateLimit.AdmitsIff | src/server/ratelimit.rs:43-62 | after any run a request is admitted if and only if fewer than the limit were admitted for its key in the last sixty seconds |
| ResponseCache.Cache.Get | src/storage/mod.rs:1863-1884 | deletes what has expired and answers with a fresh row |
| ResponseCache.Cache.Put | src/storage/mod.rs:1887-1909 | stores or replaces one row; nothing for a non-positive lifetime |
| ResponseCache.Cache.Prune | src/storage/mod.rs:1925-1931 | deletes what has expired and counts it |
| ResponseCache.DeletionInvisible | src/storage/mod.rs:1863-1931 | every lookup after any run answers like a map that never deletes |
| ResponseCache.HitWasStored | src/storage/mod.rs:1863-1931 | a hit is the last response stored for that route and hash, and is still fresh |
| ResponseCache.ClockMustNotGoBack | src/storage/mod.rs:1863-1884 | with a clock that goes back a fresh response can be lost |
| ResponseCache.AnswersIdeallyIff | src/storage/mod.rs:1863-1931 | with any clock a lookup answers like a map that never deletes if and only if that map has no answer or no lookup or pruning ran at or past the expiry of the last response since it was stored |
| ResponseCache.ServeBuffered | src/server/handlers.rs:222-276 | a buffered request is served from the cache exactly when an earlier answer is fresh, and stores what it had to compute |
| ResponseCache.AskedAgain | src/server/handlers.rs:222-276 | what a buffered request leaves for later ones, of its own key or any other: a new answer until its lifetime is over, else nothing |
| Fnv.Hash | src/adapter/outbound/prompt_cache.rs:92-96 | the hash loop in wrapping 64-bit arithmetic |
| Fnv.TimesPrimeInjective | src/adapter/outbound/prompt_cache.rs:93-96 | multiplying by the odd prime is injective modulo 2^64 |
| Fnv.StepInjective | src/adapter/outbound/prompt_cache.rs:93-96 | a step keeps different hashes and different bytes apart |
| Fnv.NearStringsHashApart | src/adapter/outbound/prompt_cache.rs:92-96 | byte strings of equal length that differ in one position hash apart |
| Fnv.HexInjective | src/adapter/outbound/prompt_cache.rs:97 | different words print differently |
| Fnv.HexReads | src/adapter/outbound/prompt_cache.rs:97 | a word is printed in the width asked for and read back as it is |
| Fnv.XorBits | src/adapter/outbound/prompt_cache.rs:94 | exclusive or, bit by bit |
| Fnv.PublishedValues | src/adapter/outbound/prompt_cache.rs:92-96 | the published FNV-1a values of the empty text and of the letter a |
| PrefixKey.GatherPrefix | src/adapter/outbound/prompt_cache.rs:67-86 | the prefix gathered part by part |
| PrefixKey.PrefixKeyOf | src/adapter/outbound/prompt_cache.rs:67-98 | the key, or none for a blank prefix |
| PrefixKey.PrefixSays | src/adapter/outbound/prompt_cache.rs:67-115 | the prefix is everything said by system prompt, instructions, first message and first input item, in this order, each as a text or as blocks, and nothing else |
| PrefixKey.ItemSays | src/adapter/outbound/prompt_cache.rs:102-115 | an object says what its text, content and instructions say, in this order |
| PrefixKey.KeyReads | src/adapter/outbound/prompt_cache.rs:97 | a key is `agos-` and the hash of the prefix in sixteen digits |
| PrefixKey.NearPrefixesKeyedApart | src/adapter/outbound/prompt_cache.rs:67-98 | prefixes of equal length that differ in one byte never share a key |
| PrefixKey.KeyFromPrefixParts | src/adapter/outbound/prompt_cache.rs:67-98 | the key depends on system prompt, instructions, first message content and first input item alone |
| PrefixKey.AlwaysSharedIff | src/adapter/outbound/prompt_cache.rs:67-98 | two bodies share a key under every encoding if and only if their joined prefixes are the same text or both blank |
| PrefixKey.BoundaryLost | src/adapter/outbound/prompt_cache.rs:67-86 | moving text from the first message to the system prompt keeps the key, for all texts |
| PrefixKey.ConversationKeepsKey | src/adapter/outbound/prompt_cache.rs:67-98 | later turns of a conversation keep the key of its first message |
| PrefixKey.MarkOpenAi | src/adapter/outbound/prompt_cache.rs:116-128 | adds the key as a hint unless the caller gave one |
| PrefixKey.HintOnlyAdds | src/adapter/outbound/prompt_cache.rs:116-128 | the hint touches no other member, never replaces the caller's own, and is added at most once |
| PrefixKey.Apply | src/adapter/outbound/prompt_cache.rs:47-60 | the policy's edit; a count of zero means an unchanged body, and it is at most two |
| PrefixKey.AppliedIs | src/adapter/outbound/prompt_cache.rs:47-60 | what each policy and kind of provider does: nothing, the hint under its own name, or markers |
| PrefixKey.ApplyIdempotent | src/adapter/outbound/prompt_cache.rs:47-60 | applying any policy twice is applying it once |
| PromptCache.MarkSystem | src/adapter/outbound/prompt_cache.rs:150-170 | opens a text prompt and marks the last block |
| PromptCache.MarkContent | src/adapter/outbound/prompt_cache.rs:178-202 | opens text content and marks the last text block |
| PromptCache.MarkMessages | src/adapter/outbound/prompt_cache.rs:172-203 | marks the last user turn and no other |
| PromptCache.Body.MarkAnthropic | src/adapter/outbound/prompt_cache.rs:143-206 | the in-place edit and its count; a body with any marker anywhere is left alone |
| PromptCache.NoMarkers | src/adapter/outbound/prompt_cache.rs:131-141 | the scan finds a marker if and only if there is one anywhere in the tree |
| PromptCache.MarkersAfter | src/adapter/outbound/prompt_cache.rs:143-206 | the markers afterwards are exactly the offered spots, at most two |
| Marking.MarkedPlaces | src/adapter/outbound/prompt_cache.rs:143-206 | in terms of the JSON alone: a marker is at a path if and only if that is the last system block, or the last text block of the last message of the user |
| Marking.MarkersAre | src/adapter/outbound/prompt_cache.rs:131-141 | the markers found are the paths of the objects with a `cache_control` member |
| Marking.MarkersAreEphemeral | src/adapter/outbound/prompt_cache.rs:143-206 | every marker added is of the type `ephemeral` |
| PromptCache.EraseGivesOpened | src/adapter/outbound/prompt_cache.rs:143-206 | without its markers the body is the original but for opened strings |
| PromptCache.MarkingOnlyAdds | src/adapter/outbound/prompt_cache.rs:143-206 | erasing markers and collapsing the opened strings gives back every original body |
| PromptCache.MarkingIdempotent | src/adapter/outbound/prompt_cache.rs:131-206 | a second application changes nothing |
| Content.DataUrlRoundTrip | src/translator/mod.rs:92-106 | an inline image survives as a data URL (RFC 2397, section 3) if and only if its media type is non-empty and has no comma |
| Content.PlainContentJoins | src/translator/mod.rs:177-190 | content without a picture leaves with all its texts, in order, a line end between any two |
| Pictures.AnthropicPictureReads | src/adapter/inbound/anthropic.rs:76-98 | an Anthropic picture's address or inline data, `image/png` for a missing media type; any other source is dropped |
| Pictures.GoogleInlineReads | src/adapter/inbound/google.rs:61-76 | a Google picture's inline data under either spelling of its members |
| Pictures.GoogleFileReads | src/adapter/inbound/google.rs:77-86 | a Google picture's address under either spelling of its members, or nothing |
| Pictures.PartReads | src/translator/mod.rs:133-170 | a canonical part: its text, or its address, nested or bare |
| Pictures.MediaByExtension | src/translator/mod.rs:110-125 | a link's media type goes by its extension, in either case, before any query or fragment |
| Pictures.TextsLeaveJoined | src/adapter/outbound/google.rs:58-88 | content of texts alone leaves for either upstream as one text: all of them in order, a line end between any two |
| Content.AnthropicElements | src/adapter/inbound/anthropic.rs:39-98 | inbound Anthropic content becomes its canonical parts |
| Content.GoogleElements | src/adapter/inbound/google.rs:45-93 | inbound Google content becomes its canonical parts |
| Content.AnthropicRoundTrip | src/adapter/outbound/anthropic.rs:92-129 | content comes back exactly if and only if it has a picture, texts are non-empty, links are no data URLs and inline media types are plain |
| Content.GoogleRoundTrip | src/adapter/outbound/google.rs:58-88 | with a picture, if and only if links are no data URLs and name the media type their extension suggests and inline media types are plain; without one, if and only if it is one text |
| Content.AnthropicToGoogle | src/adapter/outbound/google.rs:58-88 | what enters by Anthropic leaves for Google with the same texts, addresses, payloads and inline media types if and only if, with a picture, Anthropic would get it back, or, without, it is one text |
| Content.GoogleToAnthropic | src/adapter/outbound/anthropic.rs:92-129 | what enters by Google, whatever media type its links name, leaves for Anthropic with the same texts, addresses, payloads and inline media types if and only if it has a picture, links are no data URLs and inline media types are plain |
| Delay.ParseDelaySecs | src/adapter/outbound/mod.rs:91-123 | trimming and the character loop compute the specified hint |
| Delay.DurationRoundTrip | src/adapter/outbound/mod.rs:91-123 | hours, minutes and seconds, whole or with decimals, printed in any order and number, with any white space around them, are read back in seconds, rounded to the nearest |
| Delay.HintsOnly | src/adapter/outbound/mod.rs:91-123 | nothing but a 64-bit number and such a duration gives a hint |
| Delay.PlainSecondsRoundTrip | src/adapter/outbound/mod.rs:91-123 | plain delta-seconds (section 10.2.3 of RFC 9110), with any white space around them, are read as they are |

## Left out

- HTTP, asynchronous tasks, channels and timeouts: only their outcomes appear.
- The database: tables are maps and sequences; write errors that the code ignores are not modelled.
- The envelope of rendered chunks and events (id, time, model, usage object) and the writing of JSON text.
- Sse.Trim: payloads are bytes and only ASCII blanks are trimmed; the code also trims Unicode white space.
- NativeStream.StreamTask: how decoding a chunk on its own damages a character cut in two is not modelled; `lossy` may do
  anything.
- Forwarding an upstream's whole Responses answer as a stream: its outcome is a parameter, its bytes are not modelled.
- Failover.SettleFailures: does not model the 64-bit overflow of a retry hint times 1000.
- ResponseCache.Cache.Put: does not model the 64-bit overflow of a lifetime times 1000.
- Delay.ParseDelaySecs: adds up exactly, without floating-point rounding or saturation.
- Selection.RoutingState.ShuffleWeighted: the draw is a parameter from zero up to the total weight; that its random
  source is uniform, and that sums of weights round, is not modelled.
- RateLimit.ForgetsNothing: calls come in time order; concurrent calls that read the clock before the lock are not
  modelled.
- The request hash of the response cache, escalation of economy requests, clamping of token limits: single functions
  without state.
- Renderers of the other native surfaces, which keep no state between events.
- Egress masks, authentication, encryption, usage statistics, model listing and the command line.
