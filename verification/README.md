# ostk-cache, verified model

ostk-cache is a caching proxy for chat APIs. It rewrites requests so that they
stay small and stay legal, keeps the bytes it sends stable so that the
provider's prefix cache hits, decides per lane how long a cache entry should
live, and rewrites usage numbers in streamed responses. This project models
that logic in Dafny 4.11 and proves what it promises. `dafny verify
dfyconfig.toml` checks everything.

| files | what they model |
|---|---|
| `Json`, `JsonText`, `Messages`, `RequestShapes`, `Decimal`, `Arith`, `Wrappers` | request documents with their exact serialized size, the notions all passes share, and helpers |
| `Repair`, `RepairedMessages`, `Rebuild`, `WarmFreeze`, `KeptProjections`, `FreezeProtocol`, `Pipeline`, `ServedExample` | orphan repair, the rebuild pass, the frozen projection over whole runs, how long it stays, and in any interleaving, the passes together, and a served turn that the soft cap cuts |
| `Ejection`, `EjectedContents`, `Pruning`, `PrunedPrefix`, `SoftCap`, `ReductionNeeded`, `PairRetention`, `OutgoingPrefix` | the three reduction tiers, the reduction as a whole and when it does more, which pairs it lets through and which first messages it leaves alone |
| `CacheControl`, `Frontier` | the orientation block and its TTL, the summaries of dropped history |
| `TokenScan`, `BillingStrip`, `BillingRewrite`, `ReminderStrip`, `CleanedContents` | the two string strippers over one notion of leftmost removal, what a client that rewrites its billing tokens leaves, and what is left of a past message |
| `WritePolicy`, `Replay`, `ReplayTotals`, `LaneProtocol`, `LaneCommits` | the WARM/DEAD lane, the Python replay it must mirror and its totals over many lanes, concurrent requests on shared lanes |
| `Sse`, `UsageTruth`, `UsageExample` | the event stream, the rewriting of one event, and an event that does not survive it |
| `Rotation`, `Dedupe` | the capture directory and the dedupe deque |
| `Calendar`, `Timestamps` | civil-from-days in three copies, printed timestamps |
| `GptLanes` | the loss taxonomy of a captured lane |

State the source changes in place is a class here (`Request`, `MessageList`,
`ProxyState`, `LaneState`, `LaneStore`, `SseUsageRewriter`, `CaptureDir`,
`DedupeCache`, an array of losses); their methods are proved against functions
of the old state, and the results are lemmas about those functions.

## What the code does not keep of what is written about it

- README.md line 174 says the most recent pair is always retained. Under the
  cap in force a pair of a two-sided request goes out exactly when it is the
  first two messages or the last two, or the request fits, or tier A makes it
  fit, or it fits without the prunable pairs before this one
  (`PairRetention.PairRetainedIff`). `PairRetention.MostRecentPairCanGo` is a
  request whose only pair goes under a cap of one MiB.
- A served turn extends the turn before it (`WarmFreeze.WarmTurnExtends`) only
  up to the soft cap, which knows nothing of the frozen prefix. When the first
  body fits, a two-sided conversation with distinct call ids goes out as an
  extension exactly when the second body fits too, or nothing is ejected from
  the first one's messages and either ejections make it fit or no prunable pair
  starts among them (`Pipeline.OutgoingExtendsIff`);
  `ServedExample.ServedAndLost` is a served turn that does not.
- The conversation key fingerprints the first message before the billing token
  is stripped (src/main.rs lines 754-763), so a token in that message hides what
  the turn before stored although the stripped messages agree
  (`WarmFreeze.TokenInFirstMessage`).
- src/write_policy.rs line 191 says `decide` mirrors the replay exactly. As long
  as the replay fits 64 bits (`Replay.BoundedRunsFit`) two things part them, and
  nothing else does (`Replay.RunMirrors`): the proxy clamps cold writes at
  `cold_cap` (`Replay.ColdWritePart`), and it reads the clock in whole seconds
  where the replay has microseconds, which can move a gap across a TTL or a
  median across a tier (`Replay.FractionsPart`).
- A usage rewrite of an event whose line ends are CR LF writes LF after the
  changed line, so the event can lose the delimiter this code recognises
  (`UsageTruth.EventStaysOne` says exactly when, `UsageExample.CrLfEventParts`
  is such an event). Section 9.2.6 of the WHATWG HTML Living Standard still
  ends the event there.
- A capacity of zero makes the dedupe cache hold one entry, not none
  (`Dedupe.ZeroCapacityReports`). A cache answers as an unbounded log would
  exactly while no call repeats a logged key that was crowded out
  (`Dedupe.AnswersAsLogIff`); afterwards it may report a duplicate that the log
  would not (`Dedupe.CrowdedReportsMore`).
- The calendar copies agree exactly from day -784353015833 to day 784351576776
  (`Calendar.CopiesAgree`, `Calendar.CopiesPart`): two of them cut the year to
  32 bits. The copy of src/cycle_digest.rs lines 276-289 and the copy of the
  capture crate compute the same function of the day number, so they share one
  definition here.

## How the model reads the source

- A JSON object is a list of fields and a new field goes to its end; serde_json
  orders keys, which changes neither lookups nor sizes. Numbers are integers or
  opaque float texts. `Json.Size` is the length of the compact text
  (`JsonText.SizeIsLength`).
- Strings are sequences of characters; byte counts use UTF-8 lengths.
- The replay's times are microseconds, the resolution of the datetimes it reads;
  the proxy's are their whole seconds.
- Floating-point factors are exact fractions with a truncated product
  (`WritePolicy.Factor`); products and quotients of two variables are recursive
  functions proved equal to `*` and `/`. Ratio thresholds of the replay are
  reals.
- Widths are written out where they matter: 64-bit saturation in the lane, the
  64-bit wrap of the usage sum, 32-bit years.
- Fingerprints are arbitrary functions; clocks, the text of the orientation
  block, UTF-8 validity, JSON parsing and printing, which directories cannot be
  deleted, and the byte comparison of two captures are parameters.
  `UsageTruth.Faithful` is what the rewriter's results assume of printing:
  a bumped document prints without raw line ends and reads back.
- Names in the capture directory are positions in their lexicographic order.
- The request's number of cache markers is counted by the model itself where
  the source calls another crate.

## Model

| member | source | states |
|---|---|---|
| JsonText.SizeIsLength | src/rebuild.rs:674-676 | the size of a document is the number of bytes of its compact text, in UTF-8 with the escapes of a JSON string |
| JsonText.NumeralReadsBack | src/lib.rs:697-707 | printed numbers read back |
| Repair.RepairPairs | src/rebuild.rs:924-977 | after the repair every tool_result of a user message answers a tool_use of the message directly before it, although dropping emptied messages moves neighbours |
| Repair.RepairConserves | src/rebuild.rs:924-977 | nothing else is lost: the blocks of the input are the blocks left plus exactly the reported orphan tool_results, and their number is what the pass returns |
| Repair.RepairIdempotent | src/rebuild.rs:924-977 | a second repair changes nothing and reports nothing |
| Repair.RepairFixpoint | src/rebuild.rs:924-977 | the repair leaves a list alone exactly when every result pairs up and no user message has an empty content array |
| Repair.RepairPrefix | src/rebuild.rs:924-977 | the repair never looks ahead: the repair of `xs + ys` begins with the repair of `xs` |
| RepairedMessages.RepairedIs | src/rebuild.rs:924-977 | message by message: a user's list of blocks loses exactly the tool_results without the id of a tool_use of the message before, and is dropped when nothing is left; every other message stays |
| Repair.RepairOrphanedToolResults | src/rebuild.rs:924-991 | the in-place pass (collect the ids per position, strip, drop the emptied messages) leaves the repaired list and returns the number of orphans |
| Rebuild.ApplyRebuild | src/rebuild.rs:380-597 | the in-place pass: which skip or rebuild happens, that a skip leaves the request alone, and what an applied rebuild leaves and reports |
| Rebuild.RebuiltFacts | src/rebuild.rs:396-597 | an applied rebuild leaves the synthetic message first, cut at the last real user message, and a list whose results all pair up |
| Rebuild.ComposedFromDropped | src/rebuild.rs:396-597 | a rebuild applies exactly when it is enabled and there is history before the boundary; its text is the offered one of this very boundary, or composed from exactly the messages that go, with the least elision; the report gives their number, their bytes and the text's |
| Rebuild.InFlightVerbatim | src/rebuild.rs:540-560 | the in-flight chain goes out verbatim exactly when it pairs up by itself and holds no empty user message |
| Rebuild.RebuiltPrefix | src/rebuild.rs:540-560 | with the same boundary and the same synthetic text a longer history is rebuilt to an extension of the shorter one's rebuild |
| Rebuild.Compose | src/rebuild.rs:488-515 | optional sections are dropped in their fixed order, as few as meet the byte budget and all of them when none does |
| Rebuild.SectionsGoInOrder | src/rebuild.rs:488-515 | the fixed order is templates, tail, digests |
| Messages.BoundaryIdx | src/rebuild.rs:997-1026 | the cycle boundary is the last user message that is not made of tool_results only |
| RequestShapes.BoundaryIff | src/rebuild.rs:997-1026 | in the request's own field names: the boundary is the last message in the user's role whose content is no non-empty list of tool_results |
| RequestShapes.ResultsPairedIff | src/rebuild.rs:924-977 | the pairing all results speak of is that each tool_result of a user message has the id of a tool_use of the message directly before |
| WarmFreeze.WarmTurnExtends | src/main.rs:855-957 | over every run whose requests for a conversation only grow once the billing tokens are gone, a WARM turn that finds a stored projection is served it exactly when the boundary index equals that of the turn that stored it, and then that turn's outgoing messages are a prefix of this turn's; no injectivity of fingerprints is assumed |
| WarmFreeze.StoreInvariant | src/main.rs:910-957 | in every run a stored projection is the text sent by the last turn that stored for its key, with the boundary it was sent for, through touching, overwriting and eviction |
| WarmFreeze.StoredIsFound | src/main.rs:910-957 | what a turn stores the next turn finds: the sweep never removes a fresh entry |
| KeptProjections.EntryStaysIff | src/main.rs:936-957 | over every run a projection stored or touched by one turn is there for a later one exactly when every storing turn in between left at most 64 conversations or came at most 86400 seconds after |
| KeptProjections.ServedIff | src/main.rs:855-957 | so in a conversation that only grows a WARM turn is served exactly when the boundary index has not moved and no turn in between drove the projection out, and then extends what was sent |
| KeptProjections.OnlyWarmIsServed | src/main.rs:855-871 | only a WARM turn is served, and only the text stored for its own conversation |
| KeptProjections.SameKeyIff | src/main.rs:855-871 | two requests share a projection exactly when their sessions are the same and so are the fingerprints of their first messages |
| WarmFreeze.PreparedPrefix | src/main.rs:773-800 | while the boundary stays, the two strippers turn a longer history, its billing tokens rewritten or not, into an extension of the shorter one's result |
| WarmFreeze.RewrittenRunGrows | src/main.rs:783-791 | a client that gives every billing token of the history a new value before each call still has a conversation that only grows, so the results on runs hold of it |
| WarmFreeze.TokenInFirstMessage | src/main.rs:754-763 | a rewritten token in the first message leaves the same stripped messages and another key: the turn before stored nothing this one is offered |
| BillingRewrite.StripIgnoresValues | src/billing_strip.rs:24-38 | giving every token of a text any other word of the grammar changes nothing of what the strip leaves |
| BillingRewrite.StripIgnoresValuesInTree | src/billing_strip.rs:121-142 | and so for every string of a document |
| WarmFreeze.ProxyState.RewriteMessages | src/main.rs:773-1000 | the handler's message passes in order (billing token, reminders, rebuild or repair, remember, sweep) leave the specified messages and store |
| FreezeProtocol.EveryProjectionWasSent | src/main.rs:855-957 | in every interleaving of turns that look a projection up and store or touch one later, every stored and every offered projection is what some finished turn of its key sent |
| FreezeProtocol.InterleavedTurnExtends | src/main.rs:855-957 | in every interleaving a turn that was offered a projection is served it exactly when its boundary index is that of the finished turn that sent it, and then the outgoing messages of the shorter conversation begin those of the longer one, rewritten billing tokens or not |
| FreezeProtocol.TwoStepsAreOne | src/main.rs:855-957 | with nobody in between, looking up and storing are the one step of `WarmFreeze` |
| Pipeline.PreparedInOrder | src/main.rs:773-812 | what the rebuild starts from: each message loses its billing tokens string by string, then each but the current turn its reminders and what they leave empty |
| Pipeline.SentIs | src/main.rs:855-1000 | what goes out: the prepared messages while the rebuild is disabled, their repair when it declines, else the repair of one synthetic message and everything from the boundary on |
| Pipeline.SentIsPaired | src/rebuild.rs:549-560 | whatever the client sent, what an enabled rebuild sends has no orphaned result |
| Pipeline.OutgoingIsPaired | src/main.rs:1055-1062 | and the soft cap, at any cap, orphans none of them again |
| Pipeline.OutgoingExtends | src/main.rs:1055-1062 | a served turn whose predecessor's body fits leaves the soft cap as an extension of it, over the cap too, whenever the cap takes nothing of the first one's messages |
| Pipeline.OutgoingExtendsIff | src/main.rs:1055-1062 | for a two-sided conversation with distinct call ids, only then: the exact condition at every cap |
| ServedExample.ServedAndLost | src/main.rs:1055-1062 | two turns through the whole handler, the second served the first one's projection, the first body within one MiB: what leaves the soft cap for the second no longer begins with what left it for the first |
| OutgoingPrefix.FirstMessagesKeptIff | src/rebuild.rs:640-777 | the first n messages of a two-sided request with distinct call ids go out verbatim and in place exactly when the request fits, or nothing is ejected from them and either the ejections make it fit or no prunable pair starts among them |
| OutgoingPrefix.TierAFrontIff | src/rebuild.rs:678-733 | tier A leaves the first n messages as they were exactly when it ejects nothing from them |
| OutgoingPrefix.TierBFrontIff | src/rebuild.rs:735-777 | tier B leaves the first n messages of any two-sided request in their places exactly when the request fits or no prunable pair starts among them |
| Ejection.TierAFacts | src/rebuild.rs:678-733 | tier A ejects a prefix of the candidates in descending size, the shortest prefix that fits; every block keeps its kind and id; the body shrinks by exactly the reported original sizes minus the stub sizes |
| Ejection.CandidatesFacts | src/rebuild.rs:684-711 | each tool_result content over the threshold is a candidate once, with its true size, and nothing else is |
| EjectedContents.EjectionOrder | src/rebuild.rs:684-711 | the larger content goes first, of two equal ones the one that comes first in the request |
| EjectedContents.TierAContents | src/rebuild.rs:678-733 | in every message exactly the contents of the ejected candidates are replaced, by their stubs; nothing else of any message changes |
| EjectedContents.StubTells | src/lib.rs:697-707 | a stub is one text block that tells the size it stands for, in bytes or in the nearest tenth of a KiB or MiB |
| Ejection.StubSmaller | src/rebuild.rs:713-728 | a stub is smaller than any content that can be ejected, so an ejection always shrinks the body |
| Ejection.EjectLargeToolResults | src/rebuild.rs:678-733 | the in-place loop ejects exactly those contents and returns their number and original bytes |
| Pruning.TierBPairing | src/rebuild.rs:735-777 | tier B keeps two-sided pairing: every result answers the message before, every call but the last message's is answered in the next |
| Pruning.TierBResults | src/rebuild.rs:735-777 | tier B orphans no result even when calls are unanswered or roles are off |
| Pruning.TierBEnds | src/rebuild.rs:735-777 | message 0 and the last message stay, and messages go two at a time |
| Pruning.NoPairLeft | src/rebuild.rs:735-777 | tier B stops over the cap only when no prunable pair is left |
| PairRetention.TierBShortest | src/rebuild.rs:735-777 | of a two-sided request tier B removes a prefix of the prunable pairs, oldest first, and the shortest one that fits, or all of them |
| PairRetention.TierBRetainsIff | src/rebuild.rs:735-777 | tier B lets a prunable pair through exactly when the request without the prunable pairs before it fits |
| RequestShapes.PrunablePairIff | src/rebuild.rs:744-760 | a pair tier B may take is an assistant message with a tool_use and a user message of tool_results only, neither first nor last |
| Pruning.PruneOldestInflightPairs | src/rebuild.rs:735-777 | the in-place loop leaves the messages those lemmas speak of and returns how many pairs went |
| SoftCap.ReducedPairing | src/rebuild.rs:640-672 | all three tiers together keep two-sided pairing at every cap |
| SoftCap.ReducedResults | src/rebuild.rs:640-672 | all three tiers together orphan no result of any request whose results pair up |
| SoftCap.ReducedEnds | src/rebuild.rs:640-777 | message 0 and the last message survive up to ejected contents |
| SoftCap.ReducedTools | src/rebuild.rs:798-835 | a definition the request had for a tool that a surviving tool_use names is never dropped |
| ReductionNeeded.PairsGoIff | src/rebuild.rs:640-672 | messages go exactly when the body is over a positive cap with every large result stubbed and there is a pair that may go |
| ReductionNeeded.TiersInOrder | src/rebuild.rs:640-672 | the messages that go out are the request's while it fits, else tier A's if the body fits with them, else tier B's of those |
| ReductionNeeded.TierBRounds | src/rebuild.rs:735-777 | of any request, two-sided or not: over the cap tier B does as if the oldest pair that may go had not been there, else nothing |
| ReductionNeeded.ToolsGoIff | src/rebuild.rs:651-672 | tool definitions go exactly when the body with its messages reduced and all of its definitions is over a positive cap: then those with a name no message left calls; the others stay in order |
| ReductionNeeded.OtherFieldsStay | src/rebuild.rs:640-672 | no other field of the request is touched |
| SoftCap.ReducedSize | src/rebuild.rs:640-672 | the serialized body never grows |
| PairRetention.PairRetainedIff | src/rebuild.rs:755-760 | for every cap: a pair of a two-sided request is retained exactly when it is at an end, or the cap is 0, or the request fits, or tier A makes it fit, or it fits without the prunable pairs before this one; README.md line 174 promises the most recent one always |
| PairRetention.AlwaysRetainedIff | src/rebuild.rs:755-760 | whatever the request, a pair is retained under every cap exactly when it is the first two messages or the last two |
| PairRetention.MostRecentPairCanGo | README.md:172-174 | under a cap of one MiB, a request whose only pair, followed by one message, is pruned |
| SoftCap.EnforceSoftCap | src/rebuild.rs:640-672 | the report gives the true sizes and counts; for a positive cap the body either fits or is flagged irreducible, never both |
| CacheControl.OrientationKeepsOrder | src/rebuild.rs:88-149 | from markers in non-increasing TTL order, an asked 5m (clamped) keeps the order always; an asked 1h keeps it exactly when no marker is added or tools and system hold no shorter one |
| CacheControl.OrientedWire | src/rebuild.rs:97-149 | the new marker stands between the system's markers and the messages', and no other marker moves |
| CacheControl.OrientationIs | src/rebuild.rs:97-149 | the append leaves an oriented prompt, or one of another shape, alone; else all the prompt held is still there, in order, before the new block, which has a marker of the asked lifetime while there are fewer than four |
| CacheControl.OrientationKeepsLimit | src/rebuild.rs:98-111 | exactly one marker is added, and only under the limit, so a request within four markers stays within four |
| CacheControl.OrientationIdempotent | src/rebuild.rs:113-147 | a second append finds the block and changes nothing, whatever the two tiers |
| CacheControl.Has1hIsMember | src/rebuild.rs:64-80 | the recursive search finds a one-hour marker exactly when the document holds one |
| CacheControl.AppendKernelOrientation | src/rebuild.rs:97-149 | the in-place append does the specified edit, on an object or on null, and reports whether it did |
| Frontier.InFlightComplete | src/rebuild.rs:1278-1347 | a call is listed as in flight exactly when the dropped history holds no result after it, however deep and whatever the paging cap |
| Frontier.LockListed | src/rebuild.rs:1278-1347 | with distinct call ids a lock is listed exactly when the last successful create, release or break of its name is a create |
| Frontier.ScanReflects | src/rebuild.rs:1143-1259 | the record of a call has the name and input of its last call, the status and size of its last result, and the error text of its last failed result of at most 1500 characters, also when a later one succeeded |
| Frontier.ScanRecords | src/rebuild.rs:1143-1259 | an id is on record exactly when it is called |
| Frontier.BlocksOfSnoc | src/rebuild.rs:1150-1156 | the blocks scanned are those of every message with a list for its content, message after message |
| Frontier.OutputOfText | src/rebuild.rs:1199-1224 | a plain text is its own output; no content, or an empty list, has none |
| Frontier.OutputOfMore | src/rebuild.rs:1199-1224 | each text block adds its bytes and a line, any other block its serialized size only |
| Frontier.UnresolvedInOrder | src/rebuild.rs:1278-1347 | calls in flight come first, monitors next, locks last, calls and monitors in the order of the calls |
| Frontier.MonitorListed | src/rebuild.rs:1292-1306 | a monitor is listed exactly when some call's last result is no error and its name is Monitor, with that call's description |
| Frontier.HeldIsLastTake | src/rebuild.rs:1308-1339 | the held list holds a name exactly when the last act on it takes it |
| Frontier.SummaryIsSuffix | src/rebuild.rs:1245-1259 | the capped summary is a suffix of the uncapped one, whole calls at a time |
| Frontier.SummarizeNativeTools | src/rebuild.rs:1143-1259 | the loop over the order list and the map returns the capped summary |
| Frontier.SummarizeUnresolved | src/rebuild.rs:1278-1347 | the three passes return the in-flight calls, armed monitors and held locks |
| WritePolicy.LaneState.Decide | src/write_policy.rs:198-266 | the method leaves the lane and the decision of the specification, phase by phase, in the source's order |
| WritePolicy.DecidedFacts | src/write_policy.rs:198-266 | after every step c equals s, the TTL is 300 or 3600, at most 8 gaps are held, read plus write is s, and a DEAD write is at most cold_cap for all parameters |
| WritePolicy.DecidedInNumbers | src/write_policy.rs:198-266 | one request in numbers: the prefix it finds, WARM or DEAD against a lifetime of 300 or 3600 seconds, what is read and written, the ring of eight gaps, and the next lifetime by counting among the last five |
| WritePolicy.BoundInductive | src/write_policy.rs:208-246 | with compact at most 1, s at most p_obs plus min_prefix survives growth, proportional shrink and compaction |
| WritePolicy.RunInvariant | src/write_policy.rs:198-266 | the same over every run |
| WritePolicy.ForecastByCounting | src/write_policy.rs:270-287 | the median forecast asks for an hour exactly when at most half of the last five gaps are under five minutes and more than half are within an hour |
| WritePolicy.ScaledIsFloor | src/write_policy.rs:240-246 | the size of a cold projection is the truncated product of prefix and factor |
| WritePolicy.ShrunkIsProportional | src/write_policy.rs:218-224 | the shrunk prefix is the truncated proportion of the two prompts |
| WritePolicy.WarmStretchWrites | src/write_policy.rs:208-255 | over any WARM stretch the writes are the sum of positive prompt growth, and exactly the difference of the prompts when they never shrink |
| WritePolicy.WarmStretchHitRatio | src/write_policy.rs:11-11 | AC-3: when each step grows by at most a ninth of the committed prefix, at least 90% of the stretch is read from the cache |
| Replay.StepMirrors | scripts/replay_cache.py:203-243 | from mirroring lanes one call gives the same class, read, write and tier exactly when truncating the times to seconds changes neither class nor tier and the replay's write is warm or within cold_cap; and then the lanes mirror again although the proxy holds only 8 gaps |
| Replay.RunMirrors | src/write_policy.rs:191-194 | over every run with times in order the proxy, on its whole-second clock, gives the replay's outcomes call by call exactly when truncation changes no class and no tier and every cold write of the replay is within cold_cap (AC-4) |
| Replay.RunMirrorsUnharmed | src/write_policy.rs:191-194 | when truncation moves no gap between two calls across five minutes or an hour, the proxy gives the replay's outcomes exactly when the replay passes AC-4 |
| Replay.WholeSecondsKeepSides | scripts/replay_cache.py:129-131 | calls on whole seconds are such |
| Replay.FractionsPart | scripts/replay_cache.py:227-229 | two calls 299.2 seconds apart whose clocks show 300: the outcomes differ although no cold write is over the cap |
| Replay.ColdWritePart | src/write_policy.rs:240-246 | one prompt of a million tokens: the replay writes 278000 and the proxy the cap of 200000 |
| Replay.BoundedRunsFit | scripts/replay_cache.py:203-243 | with compact at most 1 the replay's unbounded integers stay within 64 bits as soon as the prompts plus min_prefix do |
| ReplayTotals.LanesAreIndependent | scripts/replay_cache.py:214-241 | over the calls of many lanes each lane is replayed as if its own calls were all there are, so the results on one lane hold of each |
| ReplayTotals.TotalsAccount | scripts/replay_cache.py:243-252 | the totals count every call, and reads plus writes add up to what the lanes committed |
| ReplayTotals.TallyStep | scripts/replay_cache.py:245-250 | each call counts once for its model and once for the whole, its write for the lifetime it is made with |
| ReplayTotals.ModelsAddUp | scripts/replay_cache.py:245-253 | the totals of the models add up to the totals |
| ReplayTotals.WarmOrCold | scripts/replay_cache.py:229-238 | every call is warm or one of the cold writes, whose sum is what the other calls write |
| ReplayTotals.ReplayAnthropic | scripts/replay_cache.py:203-255 | the loop with its dictionary of lanes, running totals, totals per model, warm and dead counts and cold writes |
| LaneProtocol.EveryLaneExplained | src/main.rs:77-92 | in every interleaving of snapshot, decide, commit, fail and eviction, every stored lane is what the sequential machine leaves after some of that lane's requests, in the order they looked at the store |
| LaneProtocol.StoredLaneBounded | src/main.rs:434-456 | so the size bound of the sequential machine holds of every stored lane of every interleaving |
| LaneProtocol.TimeMovesForward | src/main.rs:77-92 | between evictions the stored last_ts never decreases |
| LaneProtocol.FailedLeavesNoTrace | src/main.rs:1501-1505 | a request that never commits leaves the store as if it had not been made, in every interleaving |
| LaneProtocol.LaneStore.CommitPolicyLane | src/main.rs:77-92 | commit overwrites unless the stored lane is newer |
| LaneCommits.CommitTakesEffect | src/main.rs:77-92 | in every interleaving a commit leaves a lane at least as recent as the request, the request's own exactly when the lane found was not used later, and touches no other lane |
| LaneCommits.EvictedIff | src/main.rs:446-454 | in every interleaving a sweep leaves a lane, untouched, exactly when at most 64 are stored or it was used at most 86400 seconds before |
| LaneCommits.NoCommitIsLost | src/main.rs:77-92 | whatever other lanes do meanwhile, a lane whose requests come one after the other, none failing and none earlier than the one before, is the sequential machine's after all of them, unless more than 64 lanes are stored and it rests over a day |
| LaneCommits.PinnedHourKeepsWarm | src/main.rs:434-456 | a pinned hour makes the next request of no smaller prompt WARM exactly within 3600 seconds, whatever the forecast |
| LaneProtocol.LaneStore.SnapshotAndDecide | src/main.rs:434-456 | a request decides on a copy; only the sweep touches the store, and a pinned hour raises the candidate's TTL |
| Sse.ChunkingIsInvisible | src/usage_truth.rs:132-150 | two ways of cutting one stream give one output: every complete event rewritten once, in order, and the incomplete tail verbatim |
| Sse.FindDoubleNewline | src/usage_truth.rs:229-236 | the smaller of two first matches is the first position where a delimiter ends |
| Sse.FirstEndStable | src/usage_truth.rs:229-236 | more bytes never move an event boundary that was already there |
| Sse.FirstEndIff | src/usage_truth.rs:229-236 | an event ends after the first two line feeds or the first two pairs of carriage return and line feed, whichever ends first |
| Sse.UnchangedStream | src/usage_truth.rs:132-185 | if no event is changed the output is the input |
| Sse.EventsOfWhole | src/usage_truth.rs:132-150 | if every rewritten event is still one event, the outgoing stream consists of exactly the rewritten events and the same tail |
| UsageTruth.SseUsageRewriter.Transform | src/usage_truth.rs:132-141 | one call emits every complete event of carry and chunk, rewritten, and leaves no complete event in the carry |
| UsageTruth.SseUsageRewriter.Rewrite | src/usage_truth.rs:152-185 | the fast path, the line loop and the changed flag compute the specified event; invalid text and anomalies go out verbatim |
| UsageTruth.LineRewritten | src/usage_truth.rs:162-178 | a payload after `data: ` or `data:` that parses and is bumped is replaced by the print of the bumped document, with its prefix and its line feed; any other line stays |
| UsageTruth.LineWithoutPayload | src/usage_truth.rs:162-178 | a line that does not start with `data:` stays |
| UsageTruth.EventByLine | src/usage_truth.rs:152-185 | an event that mentions `"usage"` and is valid text has each of its lines rewritten, any other event none |
| UsageTruth.Forward | src/main.rs:1452-1490 | the client receives the whole stream rewritten once, however the upstream cut it |
| UsageTruth.BumpIsMonotonicMax | src/usage_truth.rs:187-226 | the reported input becomes the larger of itself and the estimate (in 64 bits; and without a width when the sum fits), and putting the old input count back restores the document |
| UsageTruth.BumpInMessage | src/usage_truth.rs:187-226 | for usage at `/message/usage`: with input, cache-read and cache-creation counts adding up to the estimate or more the document is unchanged, otherwise its input count becomes the estimate less both cache counts |
| UsageTruth.BumpAtTop | src/usage_truth.rs:187-226 | and the same for usage at `/usage` when the message has none |
| UsageTruth.WrapIsRemainder | src/usage_truth.rs:213-224 | the sums of the usage object are taken modulo 2^64 |
| UsageTruth.SeriesOnLine | src/usage_truth.rs:162-185 | two rewriters in series do to a line what one with the larger estimate does |
| UsageTruth.EventStaysOne | src/usage_truth.rs:162-185 | a rewritten event is still exactly one event, by the code's own delimiters, unless its blank line is CR LF and the line before it was bumped |
| UsageTruth.StreamRewrittenOnce | src/usage_truth.rs:132-185 | on a stream without such events a second rewriter with the same estimate changes nothing |
| UsageExample.CrLfEventParts | src/usage_truth.rs:162-178 | under an encoding that meets the assumption on printing, an event with CR LF line ends that is bumped and is no event afterwards |
| Rotation.EstimateAccounts | crates/ostk-cache-core/src/capture.rs:270-290 | at every moment of every run the estimate is the true count plus exactly the drift since the last scan (reused ids and outside deletions count +1, failed bodies -1) |
| Rotation.TidyEstimateIsCount | crates/ostk-cache-core/src/capture.rs:270-290 | with fresh ids, written bodies and nobody else deleting, the estimate is the count and the count is at most max plus slack minus 1 |
| Rotation.CapWithinSlack | crates/ostk-cache-core/src/capture.rs:264-290 | in general the cap is kept within the slack, give or take the drift |
| Rotation.ScansAreRare | crates/ostk-cache-core/src/capture.rs:264-290 | n written Starts scan the tree at most 1 + (n - 1) / slack times |
| Rotation.ScanKeepsGreatest | crates/ostk-cache-core/src/capture.rs:333-380 | a scan keeps the greatest names, as many as the cap allows |
| Rotation.MissingAreOutranked | crates/ostk-cache-core/src/capture.rs:333-380 | over every run, deletions that fail included, an entry is missing only while at least max newer ones are there |
| Rotation.EvictedStaysGone | crates/ostk-cache-core/src/capture.rs:207-232 | late Outbound and Finish messages never bring an evicted entry back |
| Rotation.StartTells | crates/ostk-cache-core/src/capture.rs:183-203 | a Start whose body is written leaves an entry with partial metadata, the rest of it as before, and moves the estimate by one, or to the count when one more may cross the cap by a sixteenth of it |
| Rotation.FailedStartTells | crates/ostk-cache-core/src/capture.rs:183-203 | a Start that fails makes no entry, or one that holds nothing new, and leaves the estimate alone |
| Rotation.OutboundTells | crates/ostk-cache-core/src/capture.rs:204-217 | an Outbound adds the request that went out to its entry and touches no other; without an entry it is counted as dropped |
| Rotation.FinishTells | crates/ostk-cache-core/src/capture.rs:218-255 | a Finish adds the response and, where there is metadata, the status; without an entry it is counted as dropped |
| Rotation.CaptureDir.RotateCaptureDir | crates/ostk-cache-core/src/capture.rs:322-385 | the sort and the deletion loop leave the specified entries and return their true number, deletions that fail included |
| Rotation.CaptureDir.HandleCaptureMsg | crates/ostk-cache-core/src/capture.rs:181-245 | each message moves the directory, the estimate and the drop counter as specified |
| Dedupe.DuplicateIff | crates/ostk-cache-core/src/capture.rs:122-153 | on every run with a monotone clock a call is a duplicate exactly when its key was accepted at most sixty seconds ago with fewer than max(1, capacity) accepted since |
| Dedupe.AcceptedTwice | crates/ostk-cache-core/src/capture.rs:122-153 | two acceptances of one key are more than sixty seconds apart unless as many other, pairwise distinct keys as there is room for were accepted between |
| Dedupe.DequeInvariant | crates/ostk-cache-core/src/capture.rs:122-153 | the deque is bounded, sorted by time and holds no key twice |
| Dedupe.LargerIsSame | crates/ostk-cache-core/src/capture.rs:122-153 | two capacities give the same answers over a run exactly when no call repeats a key that is live in the larger cache's history and crowded out of the smaller |
| Dedupe.AnswersAsLogIff | crates/ostk-cache-core/src/capture.rs:122-153 | the cache answers every call as the unbounded sixty-second log does exactly when no call repeats a logged key after as many other logged calls as there is room for |
| Dedupe.UncrowdedIsSame | crates/ostk-cache-core/src/capture.rs:122-153 | while nothing live is crowded out even the deque is that of any larger capacity |
| Dedupe.DuplicateWasCalled | crates/ostk-cache-core/src/capture.rs:120-122 | a reported duplicate is always an earlier call with that key within the window |
| Dedupe.CrowdedReportsMore | crates/ostk-cache-core/src/capture.rs:122-153 | a run in which a crowded cache reports a duplicate that a larger one would not |
| Dedupe.ZeroCapacityReports | crates/ostk-cache-core/src/capture.rs:122-153 | a cache of capacity zero reports a repeated call |
| Dedupe.DedupeCache.CheckAndRecord | crates/ostk-cache-core/src/capture.rs:122-153 | the loops over the deque compute the specified answer and the specified deque |
| Calendar.CopiesAgree | crates/ostk-cache-core/src/capture.rs:702-714 | the truncating copies agree with the Euclidean one exactly on the days from -784353015833 up to, but not including, 784351576777; month and day always agree |
| Calendar.CopiesPart | src/cycle_digest.rs:276-289 | on day 784351576777 they print the year -2147483648 for 2147483648 |
| Calendar.CivilCounts | src/rewrite_middleware.rs:437-449 | day n is the n-th calendar successor of the first of January 1970 |
| Calendar.CivilSteps | src/rewrite_middleware.rs:437-449 | day n + 1 is the calendar day after day n, also before the epoch |
| Calendar.CivilIsDate | src/rewrite_middleware.rs:437-449 | every day number gives a valid Gregorian date |
| Calendar.CivilRoundTrip | src/rewrite_middleware.rs:437-449 | counting the days of the date gives the day number back |
| Calendar.DatesInOrder | src/rewrite_middleware.rs:437-449 | dates are ordered as their day numbers, so no two days share a date |
| Timestamps.TimestampRoundTrip | src/rewrite_middleware.rs:418-432 | a printed timestamp reads back, in the fixed RFC 3339 shape, to the same second exactly for seconds before 253402300800, the end of the year 9999 |
| Timestamps.TimestampsSort | src/rewrite_middleware.rs:418-432 | before second 253402300800 timestamps sort as texts exactly in time order |
| Timestamps.SortBreaksAt10000 | src/rewrite_middleware.rs:418-432 | that second sorts before the one before it |
| GptLanes.ClassifyDips | scripts/replay_cache.py:493-513 | the one-pass walk with the run list gives every maximal run of evidence-less dips its class and changes no other turn |
| GptLanes.RunClassByNeighbours | scripts/replay_cache.py:493-513 | the class of such a dip: persistent if a neighbour is one too, else transient if the next turn is healthy and opens nothing, else unresolved |
| GptLanes.PendingInRun | scripts/replay_cache.py:493-513 | every evidence-less dip lies in a maximal run, so the classification is total |
| GptLanes.MarkTurns | scripts/replay_cache.py:465-492 | segments, openings, dips and evidence classes; the segment total is the number of opening turns |
| GptLanes.MarkInNumbers | scripts/replay_cache.py:465-492 | openings, dips and segments in the numbers of two consecutive turns |
| GptLanes.ClassInNumbers | scripts/replay_cache.py:465-513 | the class the passes leave for a turn is the one its numbers, the evidence and its two neighbours give |
| GptLanes.CountsAddUp | scripts/replay_cache.py:514-517 | the six loss counts add up to the number of classed turns |
| GptLanes.CountIsMultiplicity | scripts/replay_cache.py:514-517 | each of them is how often the class occurs |
| GptLanes.ClassifyLane | scripts/replay_cache.py:450-518 | the whole classification of one lane |
| TokenScan.DecompositionUnique | src/billing_strip.rs:78-119 | every leftmost, non-overlapping decomposition keeps and cuts what the scan keeps and cuts |
| TokenScan.DecompositionExists | src/billing_strip.rs:78-119 | such a decomposition exists for every string |
| TokenScan.DecompositionBytes | src/system_reminder_strip.rs:89-124 | kept plus removed bytes are the bytes of the input |
| TokenScan.WalkIsByString | src/billing_strip.rs:121-142 | the walk leaves of each string of a document, in order, what the scan leaves of it alone, and counts the tokens of all of them |
| TokenScan.WalkKeepsShape | src/billing_strip.rs:121-142 | it changes string values and nothing else |
| BillingStrip.TokenLenIsGrammar | src/billing_strip.rs:85-108 | the scanner takes exactly a word `cch=`, one or more lowercase hex digits, `;` |
| BillingStrip.StripTokensInStr | src/billing_strip.rs:78-119 | the two-index loop computes the leftmost decomposition |
| BillingStrip.StripVolatileBillingTokens | src/billing_strip.rs:121-142 | the walk does so to every string of a document and returns the number of tokens |
| ReminderStrip.ReminderLenIsGrammar | src/system_reminder_strip.rs:89-124 | a reminder is an open tag, a body without a close tag, the close tag, and one newline exactly when there is one |
| ReminderStrip.StripRemindersInStr | src/system_reminder_strip.rs:89-124 | the cursor loop computes the leftmost decomposition, its blocks and its bytes |
| ReminderStrip.PrunedIsClean | src/system_reminder_strip.rs:160-197 | after pruning no array holds an empty text block and no array was emptied |
| ReminderStrip.CleanedFacts | src/system_reminder_strip.rs:226-257 | the protected turn and every message without reminders are unchanged; every other message keeps its role and ends with no empty text block and no emptied array or string |
| CleanedContents.CleanedIs | src/system_reminder_strip.rs:226-257 | of a past message with reminders only the content changes: a text is what is left of it, or the placeholder; any other content loses its reminders and empty text blocks and nothing else |
| CleanedContents.ProtectedIsCurrent | src/system_reminder_strip.rs:199-224 | the protected turn is the last message the user wrote or, without one, the last in the user's role |
| CleanedContents.PruningAccounts | src/system_reminder_strip.rs:160-197 | array entries before and placeholders put in are entries left and empty text blocks pruned |
| CleanedContents.StatsTell | src/system_reminder_strip.rs:226-257 | each message but the current turn adds to the statistics the reminders it loses, their bytes, the empty text blocks pruned and the placeholders put in |
| ReminderStrip.CleanedBoundary | src/system_reminder_strip.rs:199-224 | the pass never moves the cycle boundary |
| ReminderStrip.CleanedPrefix | src/system_reminder_strip.rs:226-257 | while the boundary stays a longer history is cleaned to an extension |
| ReminderStrip.StripSystemRemindersFromPastTurns | src/system_reminder_strip.rs:226-257 | the in-place pass and its four statistics: blocks and bytes of payload removed, empty text blocks pruned, placeholders put in |

## Left out

- HTTP listening, forwarding, channels, files, logs and ledgers: input and output only.
- src/config.rs and src/provider_policy.rs choose values by precedence; src/bin/stats.rs, src/body_breakdown.rs and the http modules report and delegate. Their choices are parameters here and no result depends on them.
- ostk_files_light, ostk_abi and ostk_page are not part of this model; the file-handle pass is left out of every result about outgoing messages.
- Prose composition of the synthetic context: an arbitrary function of the dropped history and the optional sections.
- Rebuild.ApplyRebuild: reports the dropped turns, sizes, elided sections and boundary; the envelope and summary counters of the report are not modelled.
- WarmFreeze.WarmTurnExtends: speaks of the messages after the rebuild pass and takes a turn as one step on the projection store; FreezeProtocol.InterleavedTurnExtends takes it as two, Pipeline.OutgoingExtendsIff adds the soft cap, and the file-handle pass is part of neither.
- Pipeline.OutgoingExtendsIff: takes the first of the two bodies to fit the cap; what two turns that are both over it have in common is not stated.
- CacheControl.AppendKernelOrientation: requires the body to be an object or null; into an array, a string, a number or a boolean the source cannot index by name and panics.
- CacheControl.OrientationIdempotent: takes the orientation text as a parameter that contains the header the source looks for, as the shipped text does.
- ReplayTotals.ReplayAnthropic: takes the calls sorted by time, as the built-in sort leaves them, and lists the cold writes in their order; the final sort of that list and the cost figures are not modelled.
- GptLanes.ClassifyLane: classifies one lane whose turns are already sorted; the grouping by cache key is not modelled, and lane counts add.
- LaneProtocol.LaneStore.SnapshotAndDecide: the harness's one-hour pin is a flag of the request, and the request's lane is only used for deciding.
- Rotation.CaptureDir.HandleCaptureMsg: a directory entry is its id and the presence of its files; partial deletions and failed late writes are not modelled, and one writer handles the messages in order.
- Rotation.CaptureDir.RotateCaptureDir: shards, legacy flat entries and an unreadable root are not modelled; the root is the set of its entries.
- UsageTruth.StreamRewrittenOnce: assumes that printing is faithful on bumped documents, because JSON text is not modelled.
- The telemetry forecast in src/ttl_forecast.rs: a simpler version of the ring and median proved here.
- The overflow error body, the memory gauge and the session gate of src/usage_truth.rs: one expression each.
