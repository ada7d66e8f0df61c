# Verified model of the platform's stateful cores

This project models, in Dafny, the parts of a messaging and calling platform whose correctness does not
show from reading one function, and proves what those parts keep over whole runs. Each file holds one module.

| file | what it models |
|---|---|
| `Bytes`, `OggFormat` | bytes, little-endian fields, and Ogg pages (RFC 3533, section 6) with Opus headers (RFC 7845, section 5) |
| `OggCrc` | the checksum: table construction, the table-driven loop, polynomial division over bits |
| `CallRecorder` (module `Recorder`) | the call recorder: packet buffer, lacing, page assembly in an array, page numbers |
| `OggReader` | the player's page and lacing parser |
| `OggRoundTrip`, `OggPages`, `OggEndToEnd` | recorder against parser, page accounting, and the two classes run together |
| `RtpHandOff` | numbering of one outgoing RTP stream by players and bridges taking turns |
| `WebhookDispatcher` | the concurrency limiter: counter, queue and waiters under interleaved steps |
| `CampaignProtocol`, `CampaignOutcomes` | concurrent recipient jobs of a campaign, one database call a step, both versions of the worker; and what rows and counters say about the events of a run |
| `JsText`, `TemplateEngine`, `TemplateLexing`, `TemplateMeaning` | the template engine: three regular-expression passes against evaluation of a syntax tree |
| `TemplatePatterns`, `TemplateValues`, `TemplateConditions`, `TemplateTexts` | what exactly the patterns match, what paths, values and conditions mean, and short templates written out |
| `Csv`, `CsvFile` | CSV export, the quote-aware line scanner, the naive splitter, and the import loop |
| `WebsocketHub` | the connection index as nested maps against a flat set of clients |
| `PermissionsCache`, `PermissionsFreshness` | the permissions cache against its database, with string keys, call by call, and when its answers go stale |
| `RateLimit` | the fixed window in memory and the counter per bucket in Redis |
| `Assignment` | round-robin and load-balanced assignment |
| `CursorPagination` | cursor pages over an ordered list |
| `IvrFlow`, `IvrMeaning` | the phone menu interpreter on its flow graph, and a call told from the graph and what was heard |

Code that works step by step is a class or a method with loops, proved against a specification function;
the theorems are about those functions, or about all runs of a step relation. What the specification functions
themselves mean is proved as well, in terms of bytes, characters, rows and events and without naming them.
`dafny verify dfyconfig.toml` checks everything.

What is outside becomes a parameter or an event: the clock, the order in which awaited steps resume, answers
of handlers and of the database, the moment a stop flag is seen, `parseFloat`, and which contact a client looks at.

## What the proofs bring out

- A recording survives the round trip for packets up to 1274 bytes and not one byte more: 48 packets of 1275
  bytes need 288 lacing values and the count is one byte (`RoundTripLimit`).
- Both header pages carry page number 0, like the first data page, and a packet count that is a multiple of 48
  leaves no end-of-stream page (`RecordingPages`, `EndIsMarked`). The player never looks at checksums, page
  numbers or flags, so it does not notice.
- A queued webhook counts twice, so the counter reaches 11 while 10 deliveries run, and a steady backlog is
  worked off five at a time, not ten (`ConcurrencyBound`, `BacklogRunsFive`).
- A campaign can stay processing for ever exactly when some job fails before the send step, and a cancellation
  sticks exactly when no job is about to write completed (`CompletionGuaranteed`, `CancelSticksExactly`).
- In-memory rate limiting lets through almost twice the limit in one window length, exactly
  2 * limit - 1 (`RateBound`, `BoundIsReached`).
- Agents without a last assignment are starved where the database sorts missing values last, as PostgreSQL,
  the provider named in the schema, does for ascending order by default (`FairExactlyWhenRanked`).
- For one edit with its invalidation and one lookup whose reads have nothing in between, the cache is stale
  afterwards exactly if the lookup reads before the edit, stores after the invalidation, and the edit changed its
  answer (`OneOverlap`, `AnswerGoesStale`); for one edit with an outage and no lookup, exactly if the outage swallows
  the invalidation of a wrong entry (`OutageLosesInvalidation`). A lookup with an edit between two of its reads can
  answer what the database never said (`TornRead`).
- The player and the bridge disagree about whether a reported number is used up, which leaves a gap of one
  after each player and restarts the numbers after a silent bridge (`HandOffGap`, `PlayerContinuesExactly`).
- The two CSV importers agree on a line exactly when it has no quote in it (`ImportersAgree`).

## Model

| member | source | states |
|---|---|---|
| OggEndToEnd.RecordAndRead | packages/calling/src/recorder/ogg-recorder.ts:49-199 | packets given to `writePacket` one after the other, then `stop`, then `readOpusPackets` on the bytes written: if no packet is longer than 1274 bytes exactly those packets come back, in order; no write fails up to 48 * 2^32 packets |
| OggRoundTrip.RoundTripLimit | packages/calling/src/audio-player.ts:103-159 | the largest packet length for which every recording is read back unchanged is 1274: for a limit the round trip holds of all recordings if and only if the limit is at most 1274 |
| OggRoundTrip.RoundTrip | packages/calling/src/audio-player.ts:103-159 | the sharper per-recording form: whenever no page needs more than 255 lacing values the reader returns exactly the recorded packets, empty ones and multiples of 255 included |
| OggRoundTrip.ReadPageBack | packages/calling/src/recorder/ogg-recorder.ts:134-148 | one page followed by anything is read back with its table, payload and rest if and only if its table has at most 255 entries (byte 26 keeps only the low byte of the count) |
| OggRoundTrip.SmallPacketsFit | packages/calling/src/recorder/ogg-recorder.ts:121-128 | packets of at most 1274 bytes need at most five lacing values each, so a page of 48 needs at most 240 |
| OggRoundTrip.LongPacketsAreLost | packages/calling/src/recorder/ogg-recorder.ts:143 | 48 packets of 1275 bytes are not read back |
| OggRoundTrip.UnlacePackets | packages/calling/src/audio-player.ts:137-155 | cutting a payload by its lacing table undoes lacing and concatenating the packets |
| OggRoundTrip.UnlaceIsLacing | packages/calling/src/audio-player.ts:137-155 | of any table and payload, well-formed or not: the packets cut are the whole payload, and lacing them gives the table back, an unfinished packet at the end counting as one |
| OggRoundTrip.LacingFull | packages/calling/src/recorder/ogg-recorder.ts:121-128 | a packet is laced as 255s as often as they fit, then what is left |
| OggRoundTrip.ReadPageExactly | packages/calling/src/audio-player.ts:110-130 | exactly which bytes the player takes for a page, and as which table, payload and rest |
| OggRoundTrip.ParseHeaders | packages/calling/src/audio-player.ts:132-135 | the two header pages are skipped whatever follows them |
| OggReader.ReadOpusPackets | packages/calling/src/audio-player.ts:103-159 | the page loop returns the packets of the value-level parser on every byte string, well-formed or not |
| OggReader.ReadPageAt | packages/calling/src/audio-player.ts:110-130 | each `break` of the page loop is taken exactly where the value-level reader rejects the bytes |
| OggReader.UnlacePage | packages/calling/src/audio-player.ts:137-155 | the lacing loop of one page, including the unfinished packet at the end of the table |
| Recorder.LacePackets | packages/calling/src/recorder/ogg-recorder.ts:117-132 | the lacing loop yields the segment table and the concatenated payload of the buffered packets |
| Recorder.AssemblePage | packages/calling/src/recorder/ogg-recorder.ts:134-154 | filling the page buffer in place, checksum last, yields the page bytes of the format |
| Recorder.CallRecorder.Init | packages/calling/src/recorder/ogg-recorder.ts:49-76 | a new recording has written the two header pages and satisfies the recorder invariant |
| Recorder.CallRecorder.WritePage | packages/calling/src/recorder/ogg-recorder.ts:78-115 | appends one header page carrying the current page number, which does not advance |
| Recorder.CallRecorder.FlushPage | packages/calling/src/recorder/ogg-recorder.ts:117-162 | appends one data page holding the buffer, advances the granule by 960 a packet, and fails without writing when the page number needs 33 bits |
| Recorder.CallRecorder.WritePacket | packages/calling/src/recorder/ogg-recorder.ts:164-178 | keeps the invariant: headers, full pages of everything but the buffered tail, the tail itself; exactly when it fails; ignored after `stop` |
| Recorder.CallRecorder.Stop | packages/calling/src/recorder/ogg-recorder.ts:180-199 | unless a flush failed, the file is the headers and the data pages of everything given; a second call changes nothing |
| Recorder.CallRecorder.PagesWritten | packages/calling/src/recorder/ogg-recorder.ts:164-178 | the packets given so far are 48 for each page written plus the buffered ones |
| OggPages.RecordingPages | packages/calling/src/recorder/ogg-recorder.ts:117-199 | page accounting by an independent page walker that adds up the bytes of each field: header pages both numbered 0, data pages of 48 packets numbered 0, 1, 2, ..., granule 960 times the packets so far, flags, packets per page, every checksum right |
| OggPages.EndIsMarked | packages/calling/src/recorder/ogg-recorder.ts:180-191 | a stopped recording has a page with the end-of-stream flag if and only if the packet count is not a multiple of 48 |
| OggPages.SealIsUndone | packages/calling/src/recorder/ogg-recorder.ts:152-154 | the number in bytes 22 to 25 of any written page, lowest byte first, is the checksum of the page with those four bytes zero |
| OggPages.FieldsRead | packages/calling/src/recorder/ogg-recorder.ts:134-150 | every byte of a written page outside its checksum: OggS, version 0, flags, granule in eight bytes and page number in four, lowest first, serial number 0, the low byte of the table length, table, payload |
| OggPages.OpusHeaders | packages/calling/src/recorder/ogg-recorder.ts:56-76 | the two header packets, byte by byte |
| OggPages.DamageBreaksSeal | packages/calling/src/recorder/ogg-recorder.ts:105-107 | a page changed only inside a run of at most 32 consecutive bits, outside its checksum, no longer matches its checksum |
| OggCrc.BuildTable | packages/calling/src/recorder/ogg-recorder.ts:10-22 | the table built by shifting holds, for each byte, the remainder of that byte times x^32 |
| OggCrc.OggCrc32 | packages/calling/src/recorder/ogg-recorder.ts:24-30 | the table-driven loop computes the remainder of long division of the message times x^32 by the divisor, bit by bit, for every byte string |
| OggCrc.TableStep | packages/calling/src/recorder/ogg-recorder.ts:27 | one table lookup and shift of eight is eight single shifts with the byte added at the top |
| OggCrc.DivisionIdentity | packages/calling/src/recorder/ogg-recorder.ts:12-30 | the bitwise remainder is one: dividend = quotient * divisor + remainder, coefficients modulo 2, the divisor given by its fifteen exponents |
| OggCrc.PolynomialBits | packages/calling/src/recorder/ogg-recorder.ts:14 | 0x04C11DB7 is that divisor without its leading term |
| OggCrc.MessageBit | packages/calling/src/recorder/ogg-recorder.ts:24-30 | which bit of which byte each coefficient of the message is: highest bit of each byte first |
| OggCrc.OneByteCrc | packages/calling/src/recorder/ogg-recorder.ts:24-30 | the checksum of the single byte 1 is 0x04C11DB7 |
| OggCrc.CodewordDivides | packages/calling/src/recorder/ogg-recorder.ts:24-30 | a message followed by its checksum leaves remainder zero |
| OggCrc.CodewordUnique | packages/calling/src/recorder/ogg-recorder.ts:24-30 | no other 32 bits after the message do |
| OggCrc.BurstChangesCrc | packages/calling/src/recorder/ogg-recorder.ts:24-30 | messages that differ only inside a run of at most 32 bits never share a checksum |
| RtpHandOff.AudioPlayer.PlayFile | packages/calling/src/audio-player.ts:38-60 | each frame is sent once, in order, its number one more and its timestamp 960 more than the one before; the position left is the next free one, also when stopped early |
| RtpHandOff.AudioBridge.Forward | packages/calling/src/audio-bridge.ts:66-109 | exactly what each direction sends, remembers and hands to the recorder: untracked packets pass unchanged, tracked ones are renumbered from the first of the stint when the seeded number is positive, every payload that is not empty is recorded |
| RtpHandOff.TrackedMeans | packages/calling/src/audio-bridge.ts:79-98 | packet by packet what a tracked direction sends: renumbered from the first of the stint plus one and plus 960 when the seeded number is positive, and unchanged otherwise |
| RtpHandOff.PayloadsRecorded | packages/calling/src/audio-bridge.ts:100-102 | what is recorded: every payload that is not empty, in order |
| RtpHandOff.RunSegments | packages/calling/src/audio-bridge.ts:41-117 | players and bridges taking turns, each started from what the one before reported, send one strictly increasing stream |
| RtpHandOff.StreamIncreases | packages/calling/src/audio-bridge.ts:79-98 | for every alternation of segments from a positive position, bridges hearing at least one packet of increasing input, all numbers and timestamps strictly increase over the whole run |
| RtpHandOff.StreamCarriesSounds | packages/calling/src/audio-bridge.ts:41-117 | over any alternation of segments, from any position, the stream carries every frame and every payload once, in order |
| RtpHandOff.BridgeKeepsGaps | packages/calling/src/audio-bridge.ts:86-91 | a bridge keeps every distance of its input in numbers and timestamps, and every payload |
| RtpHandOff.HandOffGap | packages/calling/src/audio-player.ts:29-36 | a hand-off after a player leaves exactly one number unused, after a bridge none |
| RtpHandOff.BridgeContinuesIff | packages/calling/src/audio-bridge.ts:86-97 | a bridge continues the stream whatever it hears if and only if it was seeded with a positive number |
| RtpHandOff.PlayerContinuesExactly | packages/calling/src/audio-bridge.ts:115-117 | a player started from what a bridge reported continues the stream if and only if the bridge heard a packet; otherwise it starts over at 1 |
| WebhookDispatcher.ConcurrencyBound | packages/webhooks/src/dispatcher.ts:111-143 | in every reachable state at most 10 deliveries are in flight, the counter is at most 11, and at most 5 deliveries came through the queue |
| WebhookDispatcher.CounterReachesEleven | packages/webhooks/src/dispatcher.ts:116-121 | a run reaches a counter of 11 with 10 deliveries in flight |
| WebhookDispatcher.ElevenExactly | packages/webhooks/src/dispatcher.ts:116-143 | from every state that satisfies the invariant, a step starts a queued job if and only if it is not a submission and takes the counter from 10 to 11 |
| WebhookDispatcher.BacklogRunsFive | packages/webhooks/src/dispatcher.ts:116-121 | with jobs waiting and all running ones from the queue exactly 5 deliveries are in flight |
| WebhookDispatcher.StepKeepsInv | packages/webhooks/src/dispatcher.ts:111-143 | every step of every interleaving keeps the invariant: counter = frames, queue only while the counter is full, each job in exactly one phase, each caller resolved once, start order |
| WebhookDispatcher.ReachableInv | packages/webhooks/src/dispatcher.ts:111-143 | so every reachable state satisfies it |
| WebhookDispatcher.StartOrder | packages/webhooks/src/dispatcher.ts:111-138 | workers have started in submission order, each once; whoever is queued is next in line; a caller is resolved at most once and only after its delivery settled |
| WebhookDispatcher.HistoryGrows | packages/webhooks/src/dispatcher.ts:116-132 | starts, resolutions and wake-ups are only ever appended; a caller is resolved by the end of a direct delivery or by the resumption of its queued closure, and by no other step |
| WebhookDispatcher.QuietMeansDrained | packages/webhooks/src/dispatcher.ts:134-143 | a counter of zero means no queue, no waiter, every job done and its caller resolved |
| WebhookDispatcher.WaitersServed | packages/webhooks/src/dispatcher.ts:245-258 | no waiter is lost or overtaken by any step, and waiters are woken only when the counter is zero |
| WebhookDispatcher.StepShrinksWork | packages/webhooks/src/dispatcher.ts:124-143 | without new submissions every step shortens what is left to do |
| WebhookDispatcher.NeverStuck | packages/webhooks/src/dispatcher.ts:124-143 | while the counter is not zero some frame can go on, so a run ends only drained |
| WebhookDispatcher.RunsEndDrained | packages/webhooks/src/dispatcher.ts:111-143 | without new submissions every run of steps is finite, and one that cannot go on has delivered every job, resolved every caller once and woken every waiter in order |
| WebhookDispatcher.Dispatcher.Run | packages/webhooks/src/dispatcher.ts:111-143 | the methods below, called in any enabled order on the module variables, perform exactly the runs of the state machine, and keep its invariant |
| WebhookDispatcher.Dispatcher.RunScheduled | packages/webhooks/src/dispatcher.ts:111-122 | the submission step on the module variables |
| WebhookDispatcher.Dispatcher.ScheduleNext | packages/webhooks/src/dispatcher.ts:134-143 | starting a queued job bumps the counter twice, once for each nested frame |
| WebhookDispatcher.Dispatcher.LeaveFrame | packages/webhooks/src/dispatcher.ts:128-131 | the finally block: counter down, then scheduling |
| WebhookDispatcher.Dispatcher.Settle | packages/webhooks/src/dispatcher.ts:124-132 | each kind of frame exit is the corresponding step of the state machine |
| WebhookDispatcher.Dispatcher.NotifyWaiters | packages/webhooks/src/dispatcher.ts:253-258 | all waiters are woken in order |
| WebhookDispatcher.Dispatcher.WaitForWebhooks | packages/webhooks/src/dispatcher.ts:245-251 | returns at once exactly when nothing is active or queued |
| CampaignProtocol.CountersMatchRows | apps/worker/src/workers/recipient.worker.ts:202-244 | conservation in every interleaving, whoever pauses or cancels: sent and failed counters lag the marked rows by exactly the jobs between their two writes, the rows add up, a completed campaign has no pending row |
| CampaignOutcomes.RowsTellTheRun | apps/worker/src/workers/recipient.worker.ts:56-137 | in every reachable state, told from the events: a recipient is marked sent exactly if their message went out and the mark was written, failed exactly if the mark was written after a failed send or a job that gave up; each counter is the number of such recipients already counted |
| CampaignOutcomes.CountersTellTheRun | apps/worker/src/workers/recipient.worker.ts:126-244 | when all jobs are over, the sent counter is the number of messages that went out, the failed counter the number of other recipients not skipped, and exactly the jobs that got to the send step have looked for completion |
| CampaignOutcomes.StepKeepsTold | apps/worker/src/workers/recipient.worker.ts:22-137 | every call of every interleaving keeps rows, counters and phases in step with the events |
| CampaignOutcomes.Decisions | apps/worker/src/workers/recipient.worker.ts:47-50 | in any state: which status makes a job of either version skip, when it goes on to read the campaign, when to complete it, and when the campaign becomes completed |
| CampaignProtocol.StepKeepsInv | apps/worker/src/workers/recipient.worker.ts:126-137 | every database call of every job, and every outside status change, keeps that invariant |
| CampaignProtocol.NobodySkipped | apps/worker/src/workers/recipient.worker.ts:47-50 | without outside interference no job skips, no row stays pending, and the counters end at the number of recipients, for both versions of the worker |
| CampaignProtocol.NoLostCompletion | apps/worker/src/workers/recipient.worker.ts:223-244 | if every job reaches the send step the campaign ends completed, however the separate count, read and update calls interleave |
| CampaignProtocol.CompletionGuaranteed | apps/worker/src/workers/recipient.worker.ts:56-80 | completion is guaranteed in every schedule if and only if no job fails before the send step |
| CampaignProtocol.CancelSticksExactly | apps/worker/src/workers/recipient.worker.ts:229-240 | for any number of recipients and any state: a cancellation stays, in every schedule of the jobs, if and only if no job has already read processing and is about to write completed |
| CampaignProtocol.CancelCanBeLost | apps/worker/src/workers/recipient.worker.ts:229-240 | such a state can be reached, and the cancellation is then overwritten |
| CampaignProtocol.JobsProgress | apps/worker/src/workers/recipient.worker.ts:22-139 | a job can always make its next call, each call brings it nearer its end, and none moves another job |
| CampaignProtocol.Database.FindCampaign | packages/worker/src/campaign-worker.ts:50-65 | reading the campaign decides between failing, skipping and going on; the two versions skip on different statuses |
| CampaignProtocol.Database.Run | apps/worker/src/workers/recipient.worker.ts:22-139 | the calls below, in any enabled order and with status changes from outside in between, perform exactly the runs of the protocol, and keep its invariant |
| CampaignProtocol.Database.FindAccountAndContact | apps/worker/src/workers/recipient.worker.ts:52-80 | no account fails the job early; a missing contact is created and has not opted out; an opted-out contact fails the job early for marketing templates only |
| CampaignProtocol.Database.SendMessage | apps/worker/src/workers/recipient.worker.ts:99-124 | the send outcome decides between sent and a late failure |
| CampaignProtocol.Database.UpdateRecipientStatus | apps/worker/src/workers/recipient.worker.ts:202-212 | one write of the recipient row |
| CampaignProtocol.Database.IncrementCampaignCount | apps/worker/src/workers/recipient.worker.ts:214-221 | one counter goes up; only jobs that reached the send step go on to check completion |
| CampaignProtocol.Database.CountPendingRows | apps/worker/src/workers/recipient.worker.ts:224-228 | the completion check goes on exactly when no row is pending at that moment |
| CampaignProtocol.Database.ReadCampaignStatus | apps/worker/src/workers/recipient.worker.ts:229-233 | and when the campaign still reads processing |
| CampaignProtocol.Database.WriteCompleted | apps/worker/src/workers/recipient.worker.ts:234-240 | the completing write does not look again |
| TemplateMeaning.ProcessTemplateIsEval | packages/shared/src/helpers/template.ts:90-131 | the three rewriting passes over the printed form of a syntax tree, with any white space in its tags that the patterns allow, give what direct evaluation of the tree gives, for all trees in which no if sits directly in an if and no for inside a for, when no text a later pass reads again contains an opening brace |
| TemplateMeaning.ExpandKeepsMeaning | packages/shared/src/helpers/template.ts:108-122 | replacing loops by the text they evaluate to, also inside if branches, keeps the meaning of the tree |
| TemplateMeaning.ResolveKeepsMeaning | packages/shared/src/helpers/template.ts:97-106 | replacing conditionals by their evaluated branch keeps the meaning |
| TemplateMeaning.LoopsPass | packages/shared/src/helpers/template.ts:108-122 | the for pattern on printed text, followed by anything, does exactly what loop expansion does to the tree |
| TemplateMeaning.ConditionalsPass | packages/shared/src/helpers/template.ts:97-106 | the if pattern does exactly what resolving the conditionals does |
| TemplateMeaning.VariablesPass | packages/shared/src/helpers/template.ts:90-95 | the variable pattern on text and variables is evaluation |
| TemplateMeaning.LoopTextIsEval | packages/shared/src/helpers/template.ts:113-120 | the text a loop callback writes is the evaluation of the body for each item in turn |
| TemplateMeaning.BranchIsPrinted | packages/shared/src/helpers/template.ts:99-103 | the branch cut out of the text is the printed branch of the tree, with and without else |
| TemplateMeaning.InsertedTagIsReadAgain | packages/shared/src/helpers/template.ts:97-131 | a tag that arrives as a value inside an if block is itself replaced by the last pass, so the brace condition is needed |
| TemplateTexts.VariableText | packages/shared/src/helpers/template.ts:90-95 | a variable tag by itself becomes the text of the value at its path |
| TemplateTexts.IfText | packages/shared/src/helpers/template.ts:97-106 | an if with two texts becomes the first when its condition holds and the second when it does not |
| TemplateTexts.IfWithoutElseText | packages/shared/src/helpers/template.ts:97-106 | without an else the text stays or goes |
| TemplateTexts.LoopPrintsItems | packages/shared/src/helpers/template.ts:108-122 | a loop over its item prints the first fifty elements of the array, in order, with the text behind each |
| TemplatePatterns.VariablePattern | packages/shared/src/helpers/template.ts:1 | on any text at all: the variable pattern matches exactly a tag with a path and white space around it |
| TemplatePatterns.ForPattern | packages/shared/src/helpers/template.ts:2 | the for pattern matches exactly an opening tag with white space between its words, up to the first closing tag |
| TemplatePatterns.IfPattern | packages/shared/src/helpers/template.ts:3 | the if pattern matches exactly an opening tag with white space after its keyword, up to the first closing tag |
| TemplatePatterns.VariableExactly | packages/shared/src/helpers/template.ts:1 | which texts are variable paths: a name, then fields and indexes, no name starting with a digit |
| TemplatePatterns.DottedExactly | packages/shared/src/helpers/template.ts:2 | which texts are list paths: words joined by dots |
| TemplateLexing.MatchPrintedVar | packages/shared/src/helpers/template.ts:1 | the variable pattern matches a printed variable tag, white space around the name included, in full and nothing beyond it |
| TemplateLexing.MatchPrintedIf | packages/shared/src/helpers/template.ts:3 | the lazy if pattern stops at the first endif and yields condition and body, whatever white space follows the keyword |
| TemplateLexing.MatchPrintedFor | packages/shared/src/helpers/template.ts:2 | the for pattern yields item, list and body of a printed for tag with any white space between its words |
| TemplateLexing.VariableIsNoBlock | packages/shared/src/helpers/template.ts:1-3 | a variable tag, whatever its name, its white space and the text behind it, is matched by neither block pattern |
| TemplateLexing.FindSkipsTag | packages/shared/src/helpers/template.ts:99 | a search for one tag passes over any other printed tag |
| TemplateEngine.GetNestedValue | packages/shared/src/helpers/template.ts:7-39 | the path loops return the value at the path: fields of objects, elements and length of arrays and strings, null where a step is malformed or leads nowhere |
| TemplateValues.NameIsVariable | packages/shared/src/helpers/template.ts:22-38 | a plain name is the variable of the data, or null |
| TemplateValues.DotsDropOut | packages/shared/src/helpers/template.ts:8-20 | the empty path is null, a path of dots alone is the data itself, and a dot at the end changes nothing |
| TemplateValues.NameIsProperty | packages/shared/src/helpers/template.ts:22-29 | a name at the end of a path is that property of the value before it |
| TemplateValues.PropertyIs | packages/shared/src/helpers/template.ts:29 | properties: fields of objects, elements and length of arrays and strings, and nothing else |
| TemplateValues.IndexIsElement | packages/shared/src/helpers/template.ts:30-36 | an index in brackets is that element of an array, and null of anything else or past the end |
| TemplateValues.MalformedIsNull | packages/shared/src/helpers/template.ts:26-27 | a malformed last piece makes the path null |
| TemplateValues.PieceIs | packages/shared/src/helpers/template.ts:26 | names, and names with an index, are read as such |
| TemplateValues.PieceIsNothingElse | packages/shared/src/helpers/template.ts:26 | and no other piece is |
| TemplateValues.PrintedAs | packages/shared/src/helpers/template.ts:41-48 | how each kind of value is printed, lists joined by comma and blank |
| TemplateValues.ComparedAs | packages/shared/src/helpers/template.ts:50-53 | how each kind of value is shown for a comparison, lists joined by comma |
| TemplateEngine.SplitPath | packages/shared/src/helpers/template.ts:9-20 | empty path parts are dropped |
| TemplateEngine.EvaluateCondition | packages/shared/src/helpers/template.ts:62-88 | the operator loop: first operator in the fixed order that occurs anywhere decides |
| TemplateConditions.ConditionMeans | packages/shared/src/helpers/template.ts:62-88 | any condition with an operator: the first of ==, !=, >=, <=, >, < that occurs anywhere cuts it where it first occurs, and asks of the value on the left what it says: equality of the shown text, or order of two numbers; without two numbers > and < fail and >= and <= hold |
| TemplateConditions.PlainConditionMeans | packages/shared/src/helpers/template.ts:64-66 | any condition without one: true for every value but null, false, zero, not-a-number and the empty text |
| TemplateConditions.ComparisonMeans | packages/shared/src/helpers/template.ts:62-88 | name op text as it is written, for all six operators and all sides without operator characters |
| TemplateConditions.CompareMeans | packages/shared/src/helpers/template.ts:50-60 | each operator against real order and textual equality |
| TemplateConditions.QuotesComeOff | packages/shared/src/helpers/template.ts:73-75 | single or double quotes around the right side come off |
| TemplateEngine.ExpandLoop | packages/shared/src/helpers/template.ts:109-121 | the for callback on at most fifty items, item and index bound in each round |
| TemplateValues.LoopItemsAre | packages/shared/src/helpers/template.ts:110-112 | at most the first fifty elements, none unless it is an array |
| TemplateValues.RoundVariables | packages/shared/src/helpers/template.ts:115 | inside a round the item and its index are variables and all others are as outside |
| Csv.ParseCsvLine | apps/web/app/api/import/route.ts:85-108 | the quote-aware loop, with its look-ahead and skip, scans like the recursive specification |
| Csv.RowRoundTrip | apps/web/app/api/export/route.ts:45-48 | parsing an exported row gives its fields trimmed, for every non-empty list of fields, quotes and commas included |
| Csv.RowRoundTripExact | apps/web/app/api/import/route.ts:85-108 | and the fields themselves if and only if none has surrounding white space |
| Csv.RowIs | apps/web/app/api/export/route.ts:45-48 | the exported text: commas between the fields, quotes around those with a comma or a quote in them |
| Csv.LineIsRead | apps/web/app/api/import/route.ts:85-108 | how any line is read, from any point outside quotes: plain text, commas, quoted runs anywhere in a field, an unclosed run, the end |
| Csv.ImportersAgree | apps/worker/src/workers/import.worker.ts:111 | the scanner and the worker's split-and-trim agree on a line if and only if it contains no quote |
| CsvFile.FileRoundTrip | apps/web/app/api/export/route.ts:44-49 | a whole exported table without line breaks is read back line by line as all its rows, trimmed, if and only if it has a row and no row is a single blank field |
| CsvFile.BlankRow | apps/web/app/api/import/route.ts:23 | exactly which rows are lost to the blank-line filter: a single blank field |
| CsvFile.Import.ImportRow | apps/web/app/api/import/route.ts:43-77 | each row is created, updated, skipped or, when a database call throws, an error, by a condition on the row and the store: exactly the counter of that outcome goes up, and the store changes accordingly |
| CsvFile.Import.ImportRows | apps/web/app/api/import/route.ts:36-78 | every counter is exactly the number of rows with that outcome, together they are all rows; errors are the failing rows with a phone number, created the growth of the store, and updated all other rows with a number that got through, or none; the store is the fold of the rows that did not fail |
| CsvFile.ImportDecides | apps/web/app/api/import/route.ts:49-73 | who is in the store afterwards, and which contacts stay as they were |
| CsvFile.LastRowWins | apps/web/app/api/import/route.ts:53-59 | with updates on, a phone number ends up with the name of the last row that has it, whatever was in the store |
| CsvFile.FirstRowWins | apps/web/app/api/import/route.ts:53-73 | without updates, a phone number that was not in the store ends up with the name of the first row that has it |
| CsvFile.ImportTwice | apps/web/app/api/import/route.ts:38-78 | importing the same rows again changes nothing |
| WebsocketHub.Hub.Register | packages/websocket/src/hub.ts:9-36 | adds exactly this client to the flat set the nested maps stand for, none without both ids |
| WebsocketHub.Hub.Unregister | packages/websocket/src/hub.ts:38-66 | removes exactly this client, closes it exactly when it was a member, and leaves no empty map or set behind |
| WebsocketHub.Hub.Broadcast | packages/websocket/src/hub.ts:68-89 | every matching member of the organization is written to once and nobody else; with a user id the contact is not looked at |
| WebsocketHub.Hub.BroadcastToUsers | packages/websocket/src/hub.ts:103-107 | how often each member is written to for any list of ids: as often as the list names them, and once more for each empty id, which stands for the whole organization |
| WebsocketHub.HitsOnce | packages/websocket/src/hub.ts:103-107 | once each when the list names nobody twice and holds no empty id |
| WebsocketHub.Hub.ClientCount | packages/websocket/src/hub.ts:144-152 | the nested sum is the size of the flat set |
| WebsocketHub.OnlineIsMembership | packages/websocket/src/hub.ts:115-120 | a user is online exactly when one of the members is theirs |
| WebsocketHub.Hub.OnlineUserIds | packages/websocket/src/hub.ts:122-132 | lists exactly the users with a member, each once |
| WebsocketHub.IndexIsDetermined | packages/websocket/src/hub.ts:4-66 | two hubs with the same members have the same nested maps |
| WebsocketHub.OneFileChanged | packages/websocket/src/hub.ts:18-61 | changing the one set a client is filed under changes the flat set by that client only |
| PermissionsFreshness.LookupsAreFresh | packages/cache/src/permissions.ts:12-106 | from an empty cache, over every run of edits, expiries, lookups read by read and role invalidations call by call, in every interleaving, a lookup answers what the database says unless an invalidation that concerns it is still owed, or its entry was stored by a lookup that was overtaken by an edit of a row it had already read |
| PermissionsFreshness.WholeLookupsAreFresh | packages/cache/src/permissions.ts:12-106 | when lookups do not overlap anything, only owed invalidations are left as a reason |
| PermissionsFreshness.StepKeepsCoherent | packages/cache/src/permissions.ts:12-106 | every step keeps: each cached entry is what recomputing gives, or owed an invalidation, or stored by an overtaken lookup; what each lookup under way has read so far is still what the database says, or it was overtaken; and whoever a role invalidation under way has passed over or dropped has no bad entry on account of its role |
| PermissionsFreshness.PaidDebtIsCovered | packages/cache/src/permissions.ts:97-105 | the end of a role invalidation leaves the role owed while any entry is bad on its account: its queries and deletions, between which users and memberships may have changed, have reached everyone else |
| PermissionsFreshness.OutageLosesInvalidation | packages/cache/src/permissions.ts:73-81 | after an edit, its invalidation and a reconnection the answer is right if and only if the store was connected, held no entry, or held one that happens to be right |
| PermissionsFreshness.OneOverlap | packages/cache/src/permissions.ts:21-70 | one lookup against one edit and its invalidation, in every order: the cache answers wrongly afterwards if and only if the lookup missed and found something before the edit, stored it after the invalidation, and the edit changed it |
| PermissionsFreshness.AnswerGoesStale | packages/cache/src/permissions.ts:21-70 | that happens: a role loses its permission and the cache goes on granting it |
| PermissionsFreshness.ReadsCompose | packages/cache/src/permissions.ts:21-67 | the reads of a lookup one after the other, with nothing in between, are its reads at once |
| PermissionsFreshness.TornRead | packages/cache/src/permissions.ts:24-67 | an edit between the first and the second read makes a lookup answer and store what the database said neither before nor after the edit |
| PermissionsCache.KeysOfUser | packages/cache/src/permissions.ts:17-19 | the base key and the pattern cover all keys of a user, for every organization, and no key of another user |
| PermissionsCache.KeysDiffer | packages/cache/src/permissions.ts:17-19 | different user and organization pairs have different keys |
| PermissionsCache.KeyText | packages/cache/src/permissions.ts:17-19 | the keys letter by letter, and which keys belong to a user |
| PermissionsCache.MembershipDecides | packages/cache/src/permissions.ts:30-67 | in terms of the rows: a membership with a role gives that role's permissions, or none if the role is gone, whatever the own role is |
| PermissionsCache.OwnRoleDecides | packages/cache/src/permissions.ts:30-67 | without such a membership the own role gives its permissions; none without a role |
| PermissionsCache.NoUserNoPermissions | packages/cache/src/permissions.ts:24-28 | none without the user |
| PermissionsCache.HoldersOfRole | packages/cache/src/permissions.ts:89-101 | whom a role invalidation concerns: who has the role as their own or in some organization |
| PermissionsCache.StagesRecompute | packages/cache/src/permissions.ts:24-67 | the chain of reads finds what the role rule says: the membership role over the own role, and nothing without a user, a role id or a role |
| PermissionsCache.Service.AskCache | packages/cache/src/permissions.ts:21-22 | a hit answers at once; a miss starts a lookup that has read nothing |
| PermissionsCache.Service.FindUser | packages/cache/src/permissions.ts:24-30 | the row of the user, or the lookup ends |
| PermissionsCache.Service.FindMembership | packages/cache/src/permissions.ts:32-44 | the role of the membership goes before the own one; without either the lookup ends |
| PermissionsCache.Service.FindRole | packages/cache/src/permissions.ts:46-67 | what is about to be stored, or the lookup ends when the role is gone |
| PermissionsCache.Service.StoreAnswer | packages/cache/src/permissions.ts:69 | the answer found then is stored now, if the store is connected now |
| PermissionsCache.Service.ReadRows | packages/cache/src/permissions.ts:24-67 | the reads of a miss with nothing in between find exactly what recomputing gives |
| PermissionsCache.Service.GetUserPermissionsCached | packages/cache/src/permissions.ts:12-71 | all calls with nothing in between: the cached answer if there is one and the store is connected, else the recomputed one, stored when there is one and the store is connected |
| PermissionsCache.Service.InvalidateUserPermissionsCache | packages/cache/src/permissions.ts:73-81 | exactly the keys of the user are gone |
| PermissionsCache.Service.FindOwners | packages/cache/src/permissions.ts:89-92 | the first query of a role invalidation: who has the role as their own |
| PermissionsCache.Service.FindMembers | packages/cache/src/permissions.ts:94-101 | the second one: who has it by a membership |
| PermissionsCache.Service.InvalidateOneOf | packages/cache/src/permissions.ts:103-105 | one round of the loop drops the keys of one of them |
| PermissionsCache.Service.InvalidateRolePermissionsCache | packages/cache/src/permissions.ts:83-106 | all calls with nothing in between: exactly the keys of all users holding the role are gone |
| PermissionsCache.Service.DeleteByPattern | packages/cache/src/cache.ts:58-79 | the scan loop removes every key with the prefix, no other, and returns how many |
| RateLimit.RateBound | packages/auth/src/rate-limit.ts:64-80 | any closed interval as long as the window admits at most 2 * max(1, limit) - 1 calls of a key |
| RateLimit.BoundIsReached | packages/auth/src/rate-limit.ts:64-80 | for every limit and window some calls reach that number |
| RateLimit.WindowAdmits | packages/auth/src/rate-limit.ts:68-79 | a window, whatever came before it, admits exactly the calls that fall into it up to max(1, limit), and none after that |
| RateLimit.RemainingIsExact | packages/auth/src/rate-limit.ts:70-79 | `remaining` of an admitted call is the limit less the calls admitted since its window opened; a refused call reads 0 and the limit has been admitted |
| RateLimit.CountIsAdmitted | packages/auth/src/rate-limit.ts:68-79 | the record counts exactly the calls admitted since its window opened |
| RateLimit.MemoryLimiter.InMemoryRateLimit | packages/auth/src/rate-limit.ts:64-80 | one call against the record of its key; records of other keys stay |
| RateLimit.MemoryLimiter.Serve | packages/auth/src/rate-limit.ts:62-80 | over any sequence of calls each key is answered as if it were alone |
| RateLimit.RedisLimiter.RedisRateLimit | packages/auth/src/rate-limit.ts:37-60 | every answer depends on nothing but the number of earlier calls for this key in this bucket: the expiry set by the first call never falls inside the bucket |
| RateLimit.BucketsAre | packages/auth/src/rate-limit.ts:43-45 | buckets are the fewest whole seconds that cover the window, and a moment lies in the bucket between its two multiples of that length |
| RateLimit.CountIsKnown | packages/auth/src/rate-limit.ts:47-51 | a bucket's counter is alive, and right, at every moment of the bucket |
| Assignment.Assigner.AssignRoundRobin | packages/assignment/src/assigner.ts:87-122 | picks an eligible agent whose last assignment sorts first and moves only that agent's time; none exactly when no eligible agent has a row |
| Assignment.Assigner.AssignLoadBalanced | packages/assignment/src/assigner.ts:124-156 | picks the first eligible agent of least load, an agent without a count having none; the first available one when there is no load counter, none only when nobody is eligible |
| Assignment.Assigner.FilterAvailable | packages/assignment/src/assigner.ts:188-209 | returns exactly the members that are not excluded, available and active, by their rows |
| Assignment.AvailableInOrder | packages/assignment/src/assigner.ts:198-208 | in the order of the user table |
| Assignment.EveryoneOnce | packages/assignment/src/assigner.ts:99-118 | from any point on, as many assignments as there are agents reach each agent exactly once |
| Assignment.TurnsRepeat | packages/assignment/src/assigner.ts:99-118 | and in the same order in every turn |
| Assignment.FairExactlyWhenRanked | packages/assignment/src/assigner.ts:104-106 | a turn reaches everyone if and only if no agent lacks a time or missing times sort first |
| Assignment.Starved | packages/assignment/src/assigner.ts:104-106 | where missing times sort last, an agent never assigned before is not picked while another has a time |
| CursorPagination.Walk | packages/db/src/optimized/pagination.ts:27-57 | following the cursor from the start yields the whole list, each row once, in max(1, ceil(n / take)) pages, `hasNext` on all but the last |
| CursorPagination.PageIsSlice | packages/db/src/optimized/pagination.ts:41-57 | each page is its slice of the list, and its cursor leads to the next slice |
| IvrFlow.IvrExecutor.Execute | packages/calling/src/ivr/executor.ts:53-103 | the loop records exactly the trail of the flow graph for what its handlers hear, and reports completion if and only if it did not end at a hangup or an unknown node |
| IvrFlow.IvrExecutor.BuildMaps | packages/calling/src/ivr/executor.ts:20-30 | the edge index is the edge list filtered by source, in order; the node index holds the last node of each id |
| IvrFlow.IvrExecutor.ResolveEdge | packages/calling/src/ivr/executor.ts:36-44 | the scan of the indexed edges returns the first target that fits |
| IvrFlow.TargetIsFirst | packages/calling/src/ivr/executor.ts:36-44 | which is where the first fitting edge of the whole list leads, and none exactly when no edge fits |
| IvrFlow.TrailIsWalk | packages/calling/src/ivr/executor.ts:53-100 | every recorded path is a walk from the start node along first fitting edges through nodes that run |
| IvrMeaning.CallMeans | packages/calling/src/ivr/executor.ts:53-103 | the whole recorded call from the graph and what was heard: start node, in each turn the outcome that goes with what was heard in it, next node by the first edge that says it or a star, and an early end only where the graph ends it |
| IvrMeaning.AnswerMeans | packages/calling/src/ivr/executor.ts:105-277 | which outcome goes with what was heard: 2xx exactly for an ok response, the first accepted key within the retries, digits in some attempt, the first schedule entry of the weekday, the transfer's outcome; and no other |
| IvrMeaning.LeadsExactly | packages/calling/src/ivr/executor.ts:36-44 | the edge followed is the first in the list from the node that says the outcome or a star |
| IvrMeaning.GoesOnExactly | packages/calling/src/ivr/executor.ts:53-88 | a call goes on at the last node of an id unless it is a hangup or of an unknown type |
| IvrFlow.HandlersAnswer | packages/calling/src/ivr/executor.ts:105-277 | for each node, exactly which answers its handler can give: one fixed word for a greeting, the accepted keys or max_retries for a menu, and for a timing node in_hours if and only if some weekday's first entry is enabled and covers a minute of the day, out_of_hours if and only if some weekday's does not cover all of it |
| IvrFlow.ExecuteMenu | packages/calling/src/ivr/executor.ts:128-155 | the retry loop: the first accepted key, or max_retries |
| IvrFlow.ExecuteGather | packages/calling/src/ivr/executor.ts:172-182 | the retry loop: done at the first attempt that collects anything |
| IvrFlow.ExecuteTiming | packages/calling/src/ivr/executor.ts:249-277 | the first entry for today decides, and a disabled one closes |
| IvrFlow.LiveExactly | packages/calling/src/ivr/executor.ts:36-44 | an edge is usable if and only if it is the first to fit some answer its node can give |
| IvrFlow.RevisitsExactlyOnCycles | packages/calling/src/ivr/executor.ts:53-100 | no call runs a node twice, whatever its handlers hear, if and only if the usable edges form no cycle |
| IvrFlow.AcyclicCallsEnd | packages/calling/src/ivr/executor.ts:53-100 | when the usable edges form no cycle every call ends by itself within as many turns as there are nodes |
| IvrFlow.CollectDigits | packages/calling/src/ivr/executor.ts:316-338 | the longest run of digits before the terminator, the maximum or the timeout; at least one digit may be taken even for a maximum below one |

## Left out

- TemplateMeaning.ProcessTemplateIsEval: one direction only; the condition on opening braces is sufficient (closing braces never matter), and `InsertedTagIsReadAgain` shows a whole family where it fails, but a lone opening brace can also be harmless. Text between tags and conditions hold no opening brace either. Trees with an if inside an if other than through a for, or with a for anywhere inside a for, are outside, as lazy matching gives them no tree meaning. Tags are printed with any white space the patterns allow, except that a variable named `if` has at most one white-space character behind it: with two the tag is an if whose condition is white space, and is printed as such a tree.
- TemplateEngine.GetNestedValue: names inherited from a prototype (`constructor`, `map`) read as missing, and the length of a string counts characters, not UTF-16 units. `JSON.stringify` and number formatting of values are an abstract display text; `parseFloat` is a parameter.
- Recorder.CallRecorder.WritePacket: calls are taken one after the other. The bridge does not await it, and overlapping calls could see the buffer before it is cleared. Errors of the write stream, `cleanup` and file names are not modelled.
- CampaignProtocol.StepKeepsInv: database calls succeed and each job is delivered once; retries by the job queue, the absolute overwrites of the statistics worker, and the template components sent are not modelled.
- WebhookDispatcher.StepKeepsInv: workers do not throw (a queued one that did would never resolve its caller). The retry loop, signatures, delivery logs and the webhook cache are not modelled.
- CsvFile.FileRoundTrip: fields hold no line break, because the importer splits into lines before it parses; the mapping of header names to columns and the stripping of non-digits from phone numbers are inputs of the row loop, and the text of its error messages is not kept.
- RtpHandOff.AudioBridge.Forward: numbers are unbounded, as in the code; wrapping to 16 and 32 bits would happen in a writer that is not part of this model. The two directions of a bridge share no fields that the other writes, so each is run by itself. Silence playback sends packets like `PlayFile`.
- PermissionsFreshness.LookupsAreFresh: user ids hold no colon and no glob character, and the store stays connected (`OutageLosesInvalidation` says what happens otherwise). The deletions for one user are one step. Deleting a role, and invalidating a whole organization, are not modelled, nor is the key of a role, which nothing stores or reads.
- PermissionsFreshness.OneOverlap: the reads of the lookup have nothing in between, and neither have the calls of the invalidation; `LookupsAreFresh` covers the other interleavings, and `TornRead` shows what they can do.
- RateLimit.MemoryLimiter.Serve: one limit and one window for all calls of a run; the loop is the model's, standing for a sequence of requests.
- RateLimit.RedisLimiter.RedisRateLimit: the counter and its expiry are written together; a crash between the two is not modelled.
- Assignment.Assigner.AssignRoundRobin: reading the rows and updating the time is one step; two calls at once could pick the same agent. The team cache is an input (the member ids).
- CursorPagination.Walk: `take` is at least 1 (with 0 a page reports more and gives no cursor); the store does not change between pages; a cursor whose row is gone gives an empty page. Offset pagination is plain arithmetic and left out.
- WebsocketHub.Hub.Register: a client is a value with fixed ids, as they are set just before it registers; a socket that authenticated a second time as somebody else would be filed twice.
- WebsocketHub.Hub.Broadcast: delivery is the list of clients written to; socket errors, authentication and the message format are not modelled. `filterOnlineUsers` filters by the same test as `IsUserOnline`.
- IvrFlow.RevisitsExactlyOnCycles: the clock may move by any amount between turns, so timing nodes with disjoint hours that lead to each other count as a cycle, although a call that passes through them at once does not take it.
- IvrFlow.IvrExecutor.Execute: what the outside gives each turn is an input, and the clock may move between turns. Playing audio, sending the HTTP callback, stored variables, parsing of times of day, and the digit listener that stays attached after a timeout are not modelled.
- Encryption, sessions, role tables, schemas, phone masking, slugs, configuration merging, user interface and routing: calls into other code, or members that would only be easy.
