# Verified models of the Onyx tooling

The repository's Python tools benchmark, audit and announce a chat daemon. Several of them
contain an algorithm or a protocol whose correctness is not plain from its code. This
project models those pieces in Dafny and proves what they are for.

* **Fanout benchmark** (`LineFraming.dfy`, `PhasePayload.dfy`, `DeliveryLedgers.dfy`,
  `LedgerHistory.dfy`, `FramedDelivery.dfy`, `PhaseWait.dfy`, `FanoutRun.dfy`, `FanoutProgress.dfy`):
  framing, message identities, the delivery ledger and its whole history told from events, waiting on
  the shared event, and the windowed senders as a step system. Safety is for any lines the network
  hands in; progress is for FIFO channels.
* **Test sharding and its evidence** (`LptBound.dfy`, `TimingProfile.dfy`, `BalancedNames.dfy`,
  `FieldLines.dfy`, `SuiteSummary.dfy`, `SuiteLogs.dfy`): the longest-first scheduler with its
  4/3 − 1/(3m) bound on the durations of the profile, the exact cover, and the printed summary with
  the tool that reads it back.
* **Streams and formats** (`WebSocket.dfy`, `WebSocketFaults.dfy`, `ProbeRows.dfy`, `ProbeTrace.dfy`,
  `AccessRows.dfy`, `Cpio.dfy`, `ChunkSearch.dfy`, `ScramFields.dfy`, `Scram.dfy`, `ScramOrder.dfy`,
  `ScramServer.dfy`): an incremental WebSocket reader (sections 5.2 to 5.5 of RFC 6455), a trace
  automaton, a checkpoint parser, an archive writer, chunked search, and a SCRAM client with the
  server that RFC 5802 describes (sections 3, 5.1 and 7).
* **Announce bot** (`Utf8.dfy`, `Packing.dfy`, `AnnounceText.dfy`, `InventoryCache.dfy`): text
  splitting under a byte budget, the cap loop, and the lock-and-queue cache.

`Options.dfy`, `Splitting.dfy`, `Sorting.dfy`, `Sums.dfy`, `Decimal.dfy`, `Xors.dfy` and
`LittleEndian.dfy` hold what several of them share. `dafny verify dfyconfig.toml` checks everything.

## Conventions

* Loops and objects of the source are methods and classes here, save where "Left out" says
  otherwise; each is proved equal to a specification function, and the lemmas are about that
  function or about runs of it.
* Time stamps, random masks, the UTF-8 check of the WebSocket reader, the cryptographic
  primitives and the lines of the network are parameters.
* Bytes are integers below 256 where arithmetic on them matters and characters otherwise. Text of
  the announce bot is a sequence of code points, encoded as UTF-8.
* A raised exception is a `None`, `Failed` or `Raised` value, and the state after it is stated.

## Where the code differs from what one might expect

* `LineFramer` measures the unfinished line before its LF has arrived. A line of exactly 16384 bytes
  is accepted in one read and raises when a read ends between CR and LF (`CutInsideCrlfRaises`);
  `RaisesExactly` gives the exact condition.
* A run or phase name that contains a colon makes every delivery unidentifiable
  (`RelayedAccepted`, both directions).
* An inventory with a duplicate name is always refused by the exact-cover test
  (`ShardsCoverExactly`, both directions).
* The chunked count of a log marker is right only for markers without a border
  (`ExactMeansBorderFree`); the one in use has none.
* An archive entry named `TRAILER!!!` hides itself and everything after it from a reader
  (`ArchiveReads`, both directions).
* `respond` accepts the three challenge attributes in any order, although RFC 5802 fixes one
  (`EveryOrderIsAccepted`, `ReversedIsAccepted`); `OrderExactly` says which accepted challenges
  keep the order.
* Text that does not fit is sent over the limit only when a single character is wider than the
  limit (`SplitTextFits`, `CompactFits`, both directions).

## Model

| member | source | states |
|---|---|---|
| `LptBound.LongestFirstBound` | tools/parallel_tests.py:176-179 | any list schedule of descending weights has 3·m·load ≤ (4·m−1)·limit on every machine, for every limit that some assignment of the same jobs keeps |
| `LptBound.ListBound` | tools/parallel_tests.py:177-179 | without the ordering, m·load ≤ (2·m−1)·limit still holds |
| `LptBound.HeavyJobsFit` | tools/parallel_tests.py:176-179 | a job heavier than a third of the limit is placed within the limit: the counting argument behind the 4/3 bound |
| `LptBound.AveragingBound` | tools/parallel_tests.py:177-179 | whatever is placed last on the least loaded machine stays within limit + (1 − 1/m) of its own weight |
| `LptBound.LoadsStayLevel` | tools/parallel_tests.py:177-179 | at every step any two machine loads differ by at most the largest weight |
| `LptBound.LoadsConserve` | tools/parallel_tests.py:178-179 | the machine loads together are the weights placed so far |
| `Sorting.SortOrders` | tools/parallel_tests.py:176 | the sort is an ordered permutation of its input for any total order |
| `Sorting.SortForgetsOrder` | tools/parallel_tests.py:176-180 | and the same for every permutation of the input |
| `Sorting.LexMeans` | tools/parallel_tests.py:176 | names are compared at their first difference, and a prefix comes first |
| `TimingProfile.WeightsAreRecorded` | tools/parallel_tests.py:172-179 | for a profile with distinct names, a recorded name weighs its own duration and any other the upper median of the durations, or 1000000 when there are none |
| `TimingProfile.WeighingUnique` | tools/parallel_tests.py:172-179 | no other weighing does that |
| `TimingProfile.FallbackIsMedian` | tools/parallel_tests.py:172-173 | the fallback is a recorded duration with at most ⌊n/2⌋ of the n durations below it and more than ⌊n/2⌋ at or below it |
| `TimingProfile.OrderStatistic` | tools/parallel_tests.py:172-173 | element k of the sorted durations has at most k of them below it and more than k at or below it |
| `BalancedNames.BalancedNames` | tools/parallel_tests.py:171-180 | the loop version returns exactly the shards of the specification for the weights of the profile; `WeightsAreRecorded` says what these are, `ShardsAreThePlan` what the shards are |
| `BalancedNames.ScheduleLoop` | tools/parallel_tests.py:174-179 | bucket and total updates deal the sorted names to the least loaded bucket, ties to the lower index |
| `BalancedNames.FinishLoop` | tools/parallel_tests.py:180 | the non-empty buckets, each sorted |
| `BalancedNames.ChoicesAreGreedy` | tools/parallel_tests.py:177 | every chosen index is a least loaded bucket at that moment |
| `BalancedNames.ShardsPartition` | tools/parallel_tests.py:171-180 | shards are non-empty, sorted, at most `workers` many, and together hold the input names with multiplicity |
| `BalancedNames.ShardsForgetOrder` | tools/parallel_tests.py:176-180 | the result is the same for every permutation of the names |
| `BalancedNames.ShardsNearOptimal` | tools/parallel_tests.py:171-180 | the heaviest shard M and the heaviest group L of any grouping of the same names into `workers` groups satisfy 3·m·M ≤ (4·m−1)·L and m·M ≤ (2·m−1)·L |
| `BalancedNames.PlanNearOptimal` | tools/parallel_tests.py:171-180 | the same two bounds with every load taken from the durations on record: for any weighing in which a recorded name counts with its own duration and any other with the upper median |
| `BalancedNames.ShardsAreThePlan` | tools/parallel_tests.py:176-180 | for every order of the names by falling duration and then by name, and every assignment to the first of the least loaded buckets, the shards are the non-empty buckets of that deal |
| `BalancedNames.FinishInOrder` | tools/parallel_tests.py:180 | every non-empty bucket is one shard, sorted, in the order of the buckets |
| `BalancedNames.BucketsStayLevel` | tools/parallel_tests.py:177-179 | final bucket totals differ by at most the largest weight |
| `BalancedNames.ShardsCoverExactly` | tools/parallel_tests.py:227-229 | the shards pass the disjoint exact-cover test if and only if the inventory has no duplicate |
| `SuiteSummary.CompleteCovers` | tools/parallel_tests.py:227-229 | a complete artifact executed exactly its inventory: per-shard count checks and the exact cover add up |
| `SuiteSummary.CompleteExactly` | tools/parallel_tests.py:292-302 | an artifact is complete if and only if no shard timed out, was interrupted or broke, each has one summary and one execution line, and both say the number of its names |
| `SuiteSummary.TotalsAreSums` | tools/parallel_tests.py:324 | each of the five totals is the sum of its column over the shards that counted |
| `SuiteSummary.ArtifactLineIs` | tools/parallel_tests.py:392-393 | the artifact line written out label by label |
| `SuiteSummary.SuiteLineIs` | tools/parallel_tests.py:394-407 | the suite line written out label by label |
| `FieldLines.MatchOfPrint` | tools/gate_ledger.py:64-66 | a line printed from literals and decimals is matched exactly when no number has more digits than its field allows, and gives the numbers back |
| `FieldLines.MatchExactly` | tools/gate_ledger.py:64-66 | any line matches with given values if and only if it is the literals with digit runs of the allowed lengths and those values |
| `SuiteSummary.ArtifactReads` | tools/parallel_tests.py:392-393 | an artifact line is accepted by the reader exactly when the artifact is complete and its numbers have at most twenty digits, and then carries its counts |
| `SuiteSummary.RowsSum` | tools/parallel_tests.py:394-397 | the suite totals are the column sums of the artifact rows |
| `SuiteSummary.ReadArtifactLoop` | tools/gate_ledger.py:81-90 | the loop with its early returns reads all rows or nothing |
| `SuiteSummary.ReadLog` | tools/gate_ledger.py:69-95 | the log reader returns exactly the evidence of the specification |
| `SuiteSummary.DecidesExactly` | tools/gate_ledger.py:73-95 | on the lines a run prints, the reader gives a result if and only if there is an artifact, every artifact is complete and the numbers of the suite have at most twenty digits; the result is the summed counts |
| `SuiteSummary.LogReadsBack` | tools/gate_ledger.py:69-95 | the same for a whole log with other lines around; total = passed + skipped + failed |
| `SuiteLogs.BelievedExactly` | tools/gate_ledger.py:69-95 | for every log whoever wrote it: there is a given result if and only if the last summary line is the only one about the suite, the artifact lines are numbered from zero and complete, the counts of each add up, and those of the suite are their sums |
| `LineFraming.LineFramer.constructor` | tools/bench_live.py:630-631 | nothing is pending at first |
| `LineFraming.LineFramer.FeedChunk` | tools/bench_live.py:633-641 | lines, pending bytes and both overrun errors of one feed, including what is pending after an error |
| `LineFraming.FramedIsSplit` | tools/bench_live.py:633-641 | lines so far plus pending are the CRLF split of the whole stream |
| `LineFraming.CutsDoNotMatter` | tools/bench_live.py:633-641 | two cuttings of one stream that both pass give the same lines and the same pending bytes |
| `LineFraming.RaisesExactly` | tools/bench_live.py:633-641 | for any reads at all, the framer raises nothing if and only if no read makes the buffer longer than 65536 bytes, and every finished line, and the unfinished line at every cut, has at most 16384 bytes |
| `LineFraming.ReadsNeverOverrun` | tools/bench_live.py:635-640 | reads of at most 32768 bytes, as the client makes them, never make the buffer too long |
| `LineFraming.PendingIsRest` | tools/bench_live.py:633-641 | a raising call keeps what it could not frame: the whole buffer, or the unfinished rest of it |
| `LineFraming.ShortLinesNeverRaise` | tools/bench_live.py:635-640 | streams whose lines stay below 16384 bytes pass however they are cut |
| `LineFraming.CutInsideCrlfRaises` | tools/bench_live.py:638-640 | a line of exactly 16384 bytes passes in one read and raises when the read ends between CR and LF |
| `FramedDelivery.ReadIsHear` | tools/bench_live.py:766-793 | reading chunk by chunk, with every line answered, noted, refused or handed to the ledger as the client does, ends where hearing the lines of the whole stream does |
| `FramedDelivery.DeliveriesReachLedger` | tools/bench_live.py:772-793 | a line that the ledger could count is never answered or refused by the client before it reaches the ledger |
| `FramedDelivery.NumericExactly` | tools/bench_live.py:778-793 | a numeric reply from any server: 400 and above fails except 422, 001 is the welcome, 366 with the channel the join, any other goes to the ledger |
| `FramedDelivery.PingExactly` | tools/bench_live.py:773-777 | a ping is answered with the rest of its line; without one, or when the answer holds a line end or exceeds 510 bytes, it fails |
| `FramedDelivery.ErrorExactly` | tools/bench_live.py:778-781 | an ERROR in any case fails, with or without a source |
| `FramedDelivery.BarrierExactly` | tools/bench_live.py:786-791 | a PONG closes the open barrier it names and no other, and fails for any other marker |
| `FramedDelivery.HearApart` | tools/bench_live.py:766-793 | hearing lines is the run of the ledger over the deliveries among them, and the client's own folding, side by side |
| `FramedDelivery.CutsReachSameLedger` | tools/bench_live.py:766-793 | two cuttings of one stream into non-empty reads within the bounds bring ledger and client to the same state, or fail alike |
| `PhasePayload.PayloadInjective` | tools/bench_live.py:679-680 | distinct (phase, sender, sequence) never share a payload, padding included |
| `PhasePayload.PayloadFields` | tools/bench_live.py:679-680 | splitting a payload at colons gives its own fields back when run and phase hold none |
| `PhasePayload.PayloadSize` | tools/bench_live.py:679-680 | a payload is its identity written out, filled with the letter x to 128 bytes, and longer only when the identity is |
| `PhasePayload.ClaimIsExact` | tools/bench_live.py:708-729 | a line is identified only if its payload is byte for byte the payload of that identity and its nick is that sender |
| `PhasePayload.RelayedAccepted` | tools/bench_live.py:708-729 | a relayed message (tags or none, any user and host) is identified as itself if and only if run and phase names have no colon, the phase is registered ASCII, and sender and sequence are in range |
| `PhasePayload.IdentifyExactly` | tools/bench_live.py:705-729 | for every line: it is identified as a message if and only if, tags aside, it is a PRIVMSG to the channel from that sender with exactly that payload, and the message is expected |
| `PhasePayload.IgnoredExactly` | tools/bench_live.py:705-713 | for every line: it is ignored if and only if its command is not PRIVMSG in any case |
| `PhasePayload.AnyCase` | tools/bench_live.py:712 | the command is recognised in any mixture of cases, and nothing else is |
| `Decimal.PyIntOfDec` | tools/bench_live.py:719 | `int` inverts decimal printing |
| `Decimal.PyIntIsLax` | tools/bench_live.py:719 | for every number `int` alone also accepts a signed, a zero-padded and a blank-led form, none of which is ever printed: the byte comparison is what rejects them |
| `DeliveryLedgers.DeliveryLedger.constructor` | tools/bench_live.py:684-688 | an empty ledger |
| `DeliveryLedgers.DeliveryLedger.Register` | tools/bench_live.py:690-697 | the nested loops add one zero stream per ordered pair; a second registration changes nothing and fails |
| `DeliveryLedgers.DeliveryLedger.Author` | tools/bench_live.py:699-703 | a message is stamped once; reuse fails and changes nothing |
| `DeliveryLedgers.DeliveryLedger.Deliver` | tools/bench_live.py:705-740 | verdict, new ledger and event flag for any line; only an accepted line changes anything |
| `DeliveryLedgers.BenchIsStrict` | tools/bench_live.py:722-725 | identities outside the registered phases, clients and counts are never accepted |
| `DeliveryLedgers.AddPhaseKeeps` | tools/bench_live.py:690-697 | registration keeps the ledger invariant |
| `DeliveryLedgers.AuthoredKeeps` | tools/bench_live.py:699-703 | authoring keeps the ledger invariant |
| `DeliveryLedgers.ReceiveKeeps` | tools/bench_live.py:705-740 | any line, accepted or not, keeps the ledger invariant: counters are exact sums, and only authored messages below `next` were accepted |
| `DeliveryLedgers.AcceptedBytes` | tools/bench_live.py:728-740 | an accepted line carries exactly the payload of the next sequence of its stream |
| `DeliveryLedgers.CompleteMeansAll` | tools/bench_live.py:742-743 | the constant-time `complete` holds if and only if every stream of the phase has reached its count |
| `DeliveryLedgers.StreamsAreExact` | tools/bench_live.py:690-740 | in every run each stream accepted exactly 0..next−1, once each and in order |
| `DeliveryLedgers.SentWasAuthored` | tools/bench_live.py:699-703 | in every run the stamped messages are exactly the authored ones |
| `DeliveryLedgers.AcceptedWasAuthored` | tools/bench_live.py:733-740 | in every run whatever was accepted had been authored |
| `LedgerHistory.RunExactly` | tools/bench_live.py:690-740 | for every sequence of registrations, authorings and lines: nothing is raised if and only if each event is allowed by the events before it, and then counts, streams, stamps, totals and latencies are what the events tell |
| `LedgerHistory.LatenciesAreExact` | tools/bench_live.py:736-740 | the latencies of a phase are, in the order of its accepted deliveries, the time of the delivery minus the time of the event that authored the message |
| `LedgerHistory.StampsAreExact` | tools/bench_live.py:699-703 | every stamp is the time of the event that authored the message |
| `LedgerHistory.StampIsAuthoring` | tools/bench_live.py:699-703 | and there is only one such event |
| `PhaseWait.AsyncEvent.constructor` | tools/bench_live.py:688 | a new event: not set, nobody waiting |
| `PhaseWait.AsyncEvent.Set` | tools/bench_live.py:739 | the value is set and every waiting task is released |
| `PhaseWait.AsyncEvent.Clear` | tools/bench_live.py:826 | the value is cleared, waiting tasks stay |
| `PhaseWait.AsyncEvent.Wait` | tools/bench_live.py:829 | returns at once when the value is set, otherwise the task is parked |
| `PhaseWait.SegmentEnds` | tools/bench_live.py:824-829 | from the head of the loop a task ends through with the event untouched, or parked with the value cleared: the second test never differs from the first, and the wait never returns at once |
| `PhaseWait.WaitLoop` | tools/bench_live.py:824-829 | the loop over all its segments ends at the first moment whose condition holds, and leaves the event as that segment does |
| `PhaseWait.NoLostWakeup` | tools/bench_live.py:824-829 | for any number of tasks and any order of tests, clears, sets and waits, with no suspension between the second test and the wait, every parked task is known to the event and waits for something that is not so |
| `FanoutRun.SenderStepIs` | tools/bench_live.py:893-897 | a sender segment over the event is: with credit author and send with the event untouched, without it sleep on the cleared event |
| `FanoutRun.FinishStepIs` | tools/bench_live.py:898-901 | a finisher segment over the event is: done when complete, otherwise asleep on the cleared event |
| `FanoutRun.NextKeeps` | tools/bench_live.py:824-829 | every step of senders, finisher and arbitrary lines, each wait being a segment of the loop over the shared event, keeps the invariant: window respected, no task parked whose condition holds |
| `FanoutRun.RunsAreSafe` | tools/bench_live.py:893-901 | every reachable state of a credit-controlled phase satisfies that invariant |
| `FanoutRun.CreditExactly` | tools/bench_live.py:745-747 | a sender has credit if and only if it is less than the window ahead of every recipient |
| `FanoutRun.AuthorKeeps` | tools/bench_live.py:893-897 | an authoring step never puts a sender more than the window ahead of its slowest recipient |
| `FanoutRun.AcceptStepKeeps` | tools/bench_live.py:736-740 | an accepted delivery wakes every parked task and leaves none waiting for what has happened |
| `FanoutRun.FinishKeeps` | tools/bench_live.py:898-901 | the finisher is done only when the phase is complete |
| `FanoutRun.OwedIsAccepted` | tools/bench_live.py:730-740 | over FIFO channels the oldest owed message is always the one the ledger accepts next |
| `FanoutRun.ReliableKeeps` | tools/bench_live.py:893-897 | over FIFO channels each channel holds exactly the sequences authored and not yet accepted |
| `FanoutProgress.ReliableRunsAreExact` | tools/bench_live.py:893-901 | both invariants hold in every state of a reliable run |
| `FanoutProgress.NeverStuck` | tools/bench_live.py:893-901 | with a window of at least one, any unfinished reachable state has an enabled delivery, a send that has credit, or the finishing step of a complete phase |
| `FanoutProgress.WorkGoesOn` | tools/bench_live.py:893-901 | with a window of at least one, before the phase is complete a message is in flight or some awake sender has credit |
| `FanoutProgress.RankFalls` | tools/bench_live.py:893-901 | every reliable step lowers a rank built from remaining sends, remaining deliveries and awake tasks |
| `FanoutProgress.ReliableRunsFinish` | tools/bench_live.py:893-901 | every reliable run is bounded by the first rank, and one that cannot go on is done with every stream at its count |
| `FanoutProgress.RelayedRenders` | tools/bench_live.py:897 | lines of the benchmark itself, relayed by the daemon, are such deliveries |
| `WebSocket.Client.constructor` | tools/openbsd_runtime_smoke.py:93-153 | a client with an empty buffer, no fragment and nothing seen |
| `WebSocket.Client.ReadWire` | tools/openbsd_runtime_smoke.py:85-91 | one more chunk in the buffer; an empty chunk is the failure of a closed connection, and no chunk that of an exhausted wait |
| `WebSocket.Client.Recv` | tools/openbsd_runtime_smoke.py:93-153 | result, remaining bytes, fragment and pongs are those of reading the whole stream at once |
| `WebSocket.Client.RecvAll` | tools/openbsd_runtime_smoke.py:93-153 | repeated calls give exactly the messages of the whole stream |
| `WebSocket.Client.Collect` | tools/openbsd_runtime_smoke.py:155-160 | lines seen plus the unfinished line are the split of what was received |
| `WebSocket.Client.CollectAll` | tools/openbsd_runtime_smoke.py:155-160 | the same over all messages together |
| `WebSocket.ArrivesWhole` | tools/openbsd_runtime_smoke.py:85-91 | non-empty chunks arrive as their concatenation |
| `WebSocket.TakeStable` | tools/openbsd_runtime_smoke.py:100-123 | a frame that can be judged is judged the same whatever arrives later |
| `WebSocket.LegalStreamDecodes` | tools/openbsd_runtime_smoke.py:93-153 | a legal stream of fragmented texts with pings between decodes to its texts plus CRLF and one pong per ping with the same payload |
| `WebSocket.ReadLegal` | tools/openbsd_runtime_smoke.py:93-153 | the same through the client for any cutting of the bytes that arrive before the peer closes |
| `WebSocketFaults.FaultStops` | tools/openbsd_runtime_smoke.py:93-153 | frames without fault, then one at fault, then any bytes: the messages before it are returned, the pings before it answered, and reading fails with the error that the fields of the frame fix (close, binary, orphan continuation, text inside a fragment, invalid text, message over 2^20, ping too large to answer) |
| `WebSocketFaults.BadHeadStops` | tools/openbsd_runtime_smoke.py:100-123 | the same for a masked frame and for one that announces more than 2^20 bytes, whatever its opcode and whatever follows |
| `WebSocketFaults.PassingDrains` | tools/openbsd_runtime_smoke.py:93-153 | whatever follows them, frames without fault give their texts and pongs and leave their unfinished message |
| `WebSocketFaults.ReadsExactly` | tools/openbsd_runtime_smoke.py:93-153 | a stream of frames is read to its end if and only if none is at fault |
| `WebSocketFaults.LegalPasses` | tools/openbsd_runtime_smoke.py:93-153 | a legal stream is one without fault |
| `WebSocket.MessagesSplit` | tools/openbsd_runtime_smoke.py:155-160 | closed messages leave no unfinished line, and their lines are the lines of each message |
| `WebSocket.CollectLegal` | tools/openbsd_runtime_smoke.py:155-160 | a fresh client over any cutting of a legal stream sees exactly the lines of its messages |
| `WebSocket.SentFrameReads` | tools/openbsd_runtime_smoke.py:66-75 | a server reads the sent frame back: opcode, payload and whatever follows |
| `WebSocket.SentFrameExactly` | tools/openbsd_runtime_smoke.py:66-75 | a frame is sent if and only if its payload has at most 65535 bytes, in six or eight bytes more than the payload |
| `WebSocket.MaskUndo` | tools/openbsd_runtime_smoke.py:75 | masking twice restores the payload |
| `WebSocket.PongsFit` | tools/openbsd_runtime_smoke.py:147-148 | every pong owed on a legal stream fits the frames the client can send |
| `Xors.XorUndo` | tools/openbsd_runtime_smoke.py:75 | a byte masked twice is itself |
| `Xors.XorIsDifference` | tools/openbsd_runtime_smoke.py:75 | a bit of the masked byte is set exactly where byte and mask differ |
| `ProbeTrace.Observe` | tools/kernel_probe_startup_smoke.py:148-168 | one row updates rings, sockets, ports and probe count, or fails |
| `ProbeTrace.Scan` | tools/kernel_probe_startup_smoke.py:147-168 | the loop is the fold over the rows |
| `ProbeTrace.VerdictIsExact` | tools/kernel_probe_startup_smoke.py:144-170 | the automaton accepts if and only if the trace is clean, stated over descriptor generations |
| `ProbeTrace.ProveCleanup` | tools/kernel_probe_startup_smoke.py:144-170 | accepts exactly when, read off the fields of the rows, no generation is opened twice, each ring is later closed by a close that succeeded, probed at most once and not entered after its probe, every probe hits an open ring, nothing is accepted, enough probes, every expected port bound by a bind that succeeded, and whoever bound one later closed |
| `ProbeTrace.CleanIs` | tools/kernel_probe_startup_smoke.py:144-170 | the clean traces over events are the clean traces over rows |
| `ProbeTrace.IdleRowsAreInvisible` | tools/kernel_probe_startup_smoke.py:163-168 | a close or bind that failed, and any row of no interest, can stand anywhere without changing the verdict |
| `Utf8.TextDecodes` | tools/announce_bot.py:490-491 | the encoding of every text is decoded to it by a plain UTF-8 decoder, lone surrogates as question marks |
| `Packing.WidthIsBytes` | tools/announce_bot.py:490-491 | the width of a character is the number of its encoded bytes |
| `Packing.ByteLenIsBytes` | tools/announce_bot.py:490-491 | the byte count of a text is the length of its encoding |
| `Packing.ByteLenBounds` | tools/announce_bot.py:490-491 | a text has between one and four bytes per character |
| `Packing.GreedyStaysAhead` | tools/announce_bot.py:494-524 | greedy packing never needs more lines than any order-preserving grouping of any prefix |
| `Packing.PackedIsGrouping` | tools/announce_bot.py:500-524 | the packed lines are one such grouping |
| `Packing.PackedIsFewest` | tools/announce_bot.py:500-524 | and none has fewer lines |
| `Packing.PackedFits` | tools/announce_bot.py:500-524 | every packed line is non-empty and within the limit |
| `AnnounceText.CutWord` | tools/announce_bot.py:513-521 | a word too long for a line is cut character by character |
| `AnnounceText.PackWords` | tools/announce_bot.py:498-524 | the loop over words with `cur`, `piece` and `chunks` |
| `AnnounceText.SplitTextLoop` | tools/announce_bot.py:494-524 | the whole function |
| `AnnounceText.SplitTextFits` | tools/announce_bot.py:494-524 | for every text and limit, all chunks fit if and only if every character other than a space does, and then no chunk of a non-empty text is empty |
| `AnnounceText.SplitBytesFit` | tools/announce_bot.py:494-524 | the same on the encoded bytes |
| `AnnounceText.CutIsFewest` | tools/announce_bot.py:513-521 | an over-long word by itself is cut into as few pieces as the limit allows |
| `AnnounceText.FourIsEnough` | tools/announce_bot.py:494-496 | a limit of four bytes or more meets that condition for every text |
| `AnnounceText.SplitTextKeeps` | tools/announce_bot.py:494-524 | for every limit the non-space characters are kept in order |
| `AnnounceText.SplitTextIsFewest` | tools/announce_bot.py:498-524 | when no word exceeds the limit the number of chunks is least among all order-preserving groupings |
| `AnnounceText.CompactLoop` | tools/announce_bot.py:527-548 | the loop version computes the specification |
| `AnnounceText.CompactFits` | tools/announce_bot.py:527-548 | for all lines and limits, every message is non-empty and fits if and only if every character that is not blank fits |
| `AnnounceText.CompactBytesFit` | tools/announce_bot.py:527-548 | the same on the encoded bytes |
| `AnnounceText.CleanIsWords` | tools/announce_bot.py:531 | a cleaned line is its words, in order, with one space between each two |
| `AnnounceText.CompactInOrder` | tools/announce_bot.py:527-548 | the messages are the splits of the cleaned lines, in order, grouped with the grey bar between the parts of a group |
| `AnnounceText.CompactIsFewest` | tools/announce_bot.py:534-548 | the parts of the lines cannot be sent in fewer messages |
| `AnnounceText.ChannelSay` | tools/announce_bot.py:637-643 | the cap loop ends; the result is the stripped text if its encoding has at most 360 bytes, otherwise a start of it with an ellipsis that fits, eight characters short of one that did not; only an empty text is refused |
| `AnnounceText.CapKeepsMost` | tools/announce_bot.py:642-643 | a capped text keeps a start of at least 329 bytes, blanks at its end aside |
| `InventoryCache.StepKeeps` | tools/announce_bot.py:349-387 | every step of any requester or the worker keeps: a key is in exactly one place (queue, requester between lock and put, worker) if it is queued, in none otherwise |
| `InventoryCache.ReachableIsGood` | tools/announce_bot.py:349-387 | so in every reachable state, and the queue never exceeds the number of projects |
| `InventoryCache.NeverStranded` | tools/announce_bot.py:369-387 | from every reachable state some schedule of the pending steps alone brings any queued key to a stored measurement |
| `InventoryCache.WaitShrinks` | tools/announce_bot.py:369-387 | every worker step brings a key in the queue or under measurement closer to its result, and no step of a requester delays it |
| `InventoryCache.EveryRunMeasures` | tools/announce_bot.py:369-387 | in every run, whatever the threads do, such a key is measured before the worker has taken more than twice its place plus its present duties in steps |
| `InventoryCache.WorkerCanStep` | tools/announce_bot.py:369-387 | and while it waits the worker always has a step to take |
| `InventoryCache.RequestQueues` | tools/announce_bot.py:358-363 | after a request its key is queued and, if it is new, in the hands of the asker; nothing else moves |
| `InventoryCache.RefreshAsksForAll` | tools/announce_bot.py:369-378 | whatever the other threads do meanwhile, when a refresh ends every project it began with is queued |
| `InventoryCache.TimeoutRefreshesAll` | tools/announce_bot.py:372-378 | a timeout comes only to an idle worker with an empty queue, and starts a refresh of every project |
| `InventoryCache.FinishStores` | tools/announce_bot.py:379-387 | a measurement is stored under its key, and the key is queued no more |
| `AccessRows.RowReads` | tools/cloak_audit_smoke.py:62-74 | a written row is read back wherever it stands |
| `AccessRows.ReadIsRow` | tools/cloak_audit_smoke.py:62-74 | whatever is read as a row is that row written |
| `AccessRows.TombstoneReads` | tools/cloak_audit_smoke.py:76-82 | a written tombstone is read back wherever it stands |
| `AccessRows.ReadIsTombstone` | tools/cloak_audit_smoke.py:76-82 | whatever is read as a tombstone is that tombstone written |
| `AccessRows.ReadLoop` | tools/cloak_audit_smoke.py:61-82 | the row and tombstone loops are the counted fold |
| `AccessRows.ParseLoop` | tools/cloak_audit_smoke.py:54-84 | the whole parser, each failure included |
| `AccessRows.ParsesExactly` | tools/cloak_audit_smoke.py:54-84 | a buffer parses to a header, rows and tombstones if and only if the header announces them and the body is their encoding |
| `AccessRows.HeaderReads` | tools/cloak_audit_smoke.py:56-57 | a written header is read back, magic and version included |
| `AccessRows.EncodeParses` | tools/cloak_audit_smoke.py:54-84 | whatever fits can be encoded, and parsing gives header, rows and tombstones back |
| `AccessRows.DigestIsNotRead` | tools/cloak_audit_smoke.py:58-83 | changing the trailing 32 bytes changes neither acceptance nor what is parsed |
| `LittleEndian.FromOfTo` | tools/cloak_audit_smoke.py:71 | fixed-width little-endian writing is inverted by reading |
| `LittleEndian.ToOfFrom` | tools/cloak_audit_smoke.py:71 | and reading by writing |
| `LittleEndian.LowByteFirst` | tools/cloak_audit_smoke.py:71 | the low byte comes first |
| `Cpio.Pad4` | qemu-verify/mkcpio.py:6-7 | the padding is below four and reaches a multiple of four |
| `Cpio.FieldIsExact` | qemu-verify/mkcpio.py:22 | a header number is eight lower-case digits wide if and only if it is below 2^32, and reads back |
| `Cpio.MarksAre` | qemu-verify/mkcpio.py:19-29 | magic and trailer name as text |
| `Cpio.PaddingIsZero` | qemu-verify/mkcpio.py:24-26 | between name and contents, and behind the contents, there are only zero bytes |
| `Cpio.EndIsZero` | qemu-verify/mkcpio.py:35-36 | behind the trailer there are fewer than 512 bytes, all zero |
| `Cpio.WriteHeader` | qemu-verify/mkcpio.py:19-22 | magic and all fields in order |
| `Cpio.WriteEntry` | qemu-verify/mkcpio.py:18-26 | one entry: header, name with NUL, padding, contents, padding |
| `Cpio.WriteTrailer` | qemu-verify/mkcpio.py:28-33 | the trailer entry |
| `Cpio.WriteArchive` | qemu-verify/mkcpio.py:10-36 | the file written is the archive of the specification, with inode numbers from one |
| `Cpio.RecordReads` | qemu-verify/mkcpio.py:18-26 | a record at a multiple of four is read there, all thirteen numbers included, whatever stands around it |
| `Cpio.ArchiveLayout` | qemu-verify/mkcpio.py:10-36 | every header is at a multiple of four with its magic, and the length is a multiple of 512 |
| `Cpio.ArchiveReads` | qemu-verify/mkcpio.py:10-36 | a plain newc reader gets through every archive; it returns every entry with its thirteen header numbers (inode from one, mode 33188, one link, sizes), name and contents in order if and only if none is named as the trailer |
| `ChunkSearch.ScanBuffer` | qemu-verify/memscan.py:17-23 | all places of the needle in one buffer, overlapping ones included |
| `ChunkSearch.ChunkAdds` | qemu-verify/memscan.py:16-24 | the places in carry + chunk are exactly those the chunk adds |
| `ChunkSearch.TailCarries` | qemu-verify/memscan.py:24 | the carried bytes are always the end of the stream so far |
| `ChunkSearch.FindAll` | qemu-verify/memscan.py:8-25 | for any cutting every occurrence is reported exactly once, at its true offset, in order |
| `ChunkSearch.CountRestores` | tools/issuer_session_exec_smoke.py:91-108 | the loop counts chunk by chunk; for a border-free marker that is the number of occurrences in the whole stream |
| `ChunkSearch.CountIsPlaces` | tools/issuer_session_exec_smoke.py:107 | non-overlapping counting of a border-free marker misses nothing |
| `ChunkSearch.RestoresAreExact` | tools/issuer_session_exec_smoke.py:106-108 | a border-free marker is counted exactly, however the stream is cut |
| `ChunkSearch.BorderMiscounts` | tools/issuer_session_exec_smoke.py:106-108 | any marker with a border is miscounted on a concrete one-chunk stream |
| `ChunkSearch.ExactMeansBorderFree` | tools/issuer_session_exec_smoke.py:106-108 | counting is right on every stream and cutting if and only if the marker is border-free |
| `ChunkSearch.RestoredIsCounted` | tools/issuer_session_exec_smoke.py:36 | the marker in use is border-free, so its count is exact |
| `ScramFields.ReadFields` | tools/scram_fixture.py:21-30 | the loop with its refusals computes the dictionary of the specification |
| `ScramFields.FieldsOfPrint` | tools/scram_fixture.py:21-30 | a printed list of distinct clean keys and comma-free values reads back as exactly that dictionary |
| `ScramFields.FieldsWerePrinted` | tools/scram_fixture.py:21-30 | whatever is accepted is the printing of what was read |
| `ScramFields.FieldsExactly` | tools/scram_fixture.py:21-30 | messages are accepted if and only if they are such a printing of at most 2048 bytes |
| `Scram.NewClient` | tools/scram_fixture.py:41-51 | a client exists exactly for a known digest, a canonical account and a well-formed nonce |
| `Scram.Client.constructor` | tools/scram_fixture.py:47-51 | first message and its bare part; no signature expected yet |
| `Scram.Client.Respond` | tools/scram_fixture.py:53-77 | succeeds exactly on a fresh client with an acceptable challenge; a refusal changes nothing |
| `Scram.Client.Verify` | tools/scram_fixture.py:79-83 | true exactly when a signature is expected and matches |
| `Scram.HonestChallengeReads` | tools/scram_fixture.py:55-67 | any challenge an honest server can form is understood as its nonce, salt and count |
| `ScramOrder.ChallengeExactly` | tools/scram_fixture.py:55-67 | a challenge is accepted as a given nonce, salt and count if and only if the message is the three attributes in one of their six orders, at most 2048 bytes long, with an extended nonce, a decodable salt and a count within bounds |
| `ScramOrder.AnsweredNonce` | tools/scram_fixture.py:57-59 | the nonce of an answered challenge starts with the client's own and is longer |
| `ScramOrder.OrderExactly` | tools/scram_fixture.py:55-56 | an accepted challenge is in the order of RFC 5802 if and only if it starts with the nonce and its second attribute is the salt |
| `ScramOrder.EveryOrderIsAccepted` | tools/scram_fixture.py:55-67 | each of the six orders of an honest challenge is understood alike, and only the standard one is in order |
| `ScramOrder.ReversedIsAccepted` | tools/scram_fixture.py:55-56 | in particular every honest challenge is accepted with its attributes turned round |
| `Scram.ProofUnmasks` | tools/scram_fixture.py:69-74 | XOR with the client signature recovers the client key from the proof |
| `ScramServer.ArgumentsAre` | tools/scram_fixture.py:43-46 | account and nonce are admissible exactly within these lengths and alphabets |
| `ScramServer.AccountAlphabet` | tools/scram_fixture.py:43 | the account alphabet letter by letter |
| `ScramServer.FirstMessage` | tools/scram_fixture.py:49-50 | the first message as text |
| `ScramServer.FinalMessage` | tools/scram_fixture.py:71 | the final message without its proof as text |
| `ScramServer.TextsAgree` | tools/scram_fixture.py:69-75 | key names and separators are those of the standard |
| `ScramServer.AuthAgrees` | tools/scram_fixture.py:72 | the client's auth message is the one a server forms from the messages it saw |
| `ScramServer.AnswerIsAccepted` | tools/scram_fixture.py:68-77 | whatever challenge was answered, a server with its own keys and auth message, told by RFC 5802 alone, accepts the answer |
| `ScramServer.SignatureAgrees` | tools/scram_fixture.py:75-76 | the expected signature is the one that server computes over the same exchange |
| `Scram.VerifiesExactly` | tools/scram_fixture.py:79-83 | accepted if and only if the message is a single `v` attribute that decodes to the expected signature |
| `ScramServer.SignatureIsAccepted` | tools/scram_fixture.py:75-83 | that server's final message is accepted and the encoding of no other bytes is |
| `Scram.AnswersAtMostOnce` | tools/scram_fixture.py:54-76 | in any sequence of calls at most one challenge is answered |
| `Scram.AcceptedIsServer` | tools/scram_fixture.py:79-83 | in any sequence of calls an accepted final message decodes to the server signature over the one answered exchange |
| `ScramServer.AcceptedIsSigned` | tools/scram_fixture.py:79-83 | and to the signature that server computes for it |

## Left out

- Processes, signals, sockets, SSH, packet filters, temporary directories and file modes: operating-system effects.
- The daemon itself (mesh, sessions, TLS): its source is not part of this model.
- Hash, HMAC, PBKDF2 and base64 internals: functions of which only output lengths, a comma-free alphabet and decode-after-encode are known.
- Cryptographic strength of the SCRAM exchange: nothing is claimed about an attacker without the password.
- Regular-expression extraction of rows from strace output, of counts from test logs and of metrics: the models start from parsed rows, statuses and exact lines.
- `raw.splitlines()` in `parallel_counts`: the model starts from the list of lines.
- Deadlines, pacing, CPU sampling and percentiles of the benchmark: clocks and floating point.
- The burst and idle phases: burst is not credit-controlled, so only the ledger results, which hold for every run of calls, apply to it.
- FramedDelivery.CutsReachSameLedger: compares two cuttings of one stream with no step of another client or task in between, and with the same stamp for the same line.
- FramedDelivery.ReadIsHear: the reading loop is a function on values, since it only joins the framer and the ledger, which are classes; it starts from a given set of open barriers; opening them and cancelling their futures are not modelled.
- Interruption between the second test and the wait of `phase_wait`: nothing suspends there in asyncio, and `NoLostWakeup` and the step system rest on it; pre-emptive threads are modelled only for the inventory cache.
- FanoutRun.NextKeeps: one phase at a time; earlier phases enter through the starting ledger, and a step in which `receive` raises ends the run.
- InventoryCache.StepKeeps: the cache is a state machine on values instead of a class, because several threads share it; one step is one critical section or one queue operation. That the scheduler lets each thread run again is not modelled: `EveryRunMeasures` counts worker steps, and a key still in a requester's hands waits for that thread.
- SuiteSummary.LogReadsBack: no foreign lines with the two prefixes.
- BalancedNames.BalancedNames: one worker or more; with none the source fails on an empty minimum. Durations are natural numbers. The profile is a list of pairs; the source's is a dictionary, so its names are distinct, which `WeightsAreRecorded` and `PlanNearOptimal` ask for.
- Cpio.ArchiveReads: fewer than 2^32 entries, sizes and name lengths, because the eight-digit fields hold no more (`FieldIsExact`). Splitting `arcname=path` arguments and reading the files are not modelled.
- WebSocket.Client.ReadWire: the read deadline is a chunk that does not come; the clock is not modelled.
- WebSocket.ReadLegal: text validity is an assumed predicate on payloads; the HTTP upgrade is not modelled. Reserved bits are carried and ignored as in the source.
- ChunkSearch.CountRestores: only the marker count and its carried tail; the log file, its size limit and the line buffer are not modelled.
- ChunkSearch.FindAll: the needle is non-empty.
- `commit_body_explain`, commands, colours, topics, polling and reconnecting of the announce bot: user interface, and the first cuts by characters.
- `tools/check-client-contract.py`: equality against frozen constants.
- Loading, checking, merging and saving the timing profile of the test runner: the scheduler takes the list of recorded durations as given.
