# llama-leash, verified

A Dafny model of the concurrent and the stateful parts of this repository, and proofs of what they are for:
the router's admission scheduler and its affinity policy, the relay between an upstream call and a client,
the ledger reader of the dashboard and its agreement with the router's own figures, the GGUF header reader,
the resumable download, the two configuration merges and the campaign aggregation.

`dafny verify dfyconfig.toml` checks everything.

Each stateful component has two faces. A module of specification functions says what one step does to an
abstract state, and the lemmas over steps and runs are proved there. A module of classes and methods has the
program's own form, its fields, loops and branches, and each method's contract ties the new state to the
specification function.

| area | specification and laws | program |
|---|---|---|
| affinity policy | `AffinitySpec.dfy` | `AffinityPolicy.dfy` |
| admission control | `AdmissionSpec.dfy`, `AdmissionRuns.dfy`, `AdmissionRefinement.dfy`, `AdmissionSystem.dfy` | `AdmissionController.dfy`, `AdmissionCallers.dfy`, `AdmissionConfig.dfy` |
| upstream relay | `RelayProtocol.dfy` | `UpstreamRelay.dfy` |
| token scanner of a stream | `SseScanner.dfy` | `SseScanner.dfy` |
| ledger | `LedgerTail.dfy`, `Aggregates.dfy`, `LedgerFollower.dfy`, `Metrics.dfy` | `LedgerReader.dfy`, `LedgerView.dfy`, `LedgerFollower.dfy`, `Metrics.dfy` |
| GGUF header | `Gguf.dfy` | `GgufReader.dfy` |
| download | `Download.dfy`, `DownloadResume.dfy` | |
| configuration merges | `JsonMerge.dfy`, `RouterConfigMerge.dfy`, `WiringText.dfy`, `OpencodeWiring.dfy` | the same files |
| campaign | `CampaignSpec.dfy` | `CampaignReport.dfy` |

## Where the code does not do what it says

Eight properties that the code or its comments rely on hold only under a condition. The model keeps the code as it
is, and a lemma gives the condition, both ways.

- `dashboard/ledger_view.hpp:212-219` promises that any chunking of the bytes gives the same records. It does if
  and only if every line over the carry ceiling is one that would have been skipped anyway
  (`LedgerTails.ChunkIndependence`).
- The event splitter of `router/router.hpp:333-348` has the same shape and the same kind of exception: it needs
  every event shorter than the limit and what is left over at most one byte longer
  (`SseScanner.ChunkIndependence`; `SseScanner.LongEventLost` is a stream of five bytes).
- `dashboard/ledger_view.hpp:199-204` relies on a new ledger being seen shorter than the old one. For any other
  replacement the view can mix two files, unless nothing was consumed or the new file is too short for a line with
  anything on it (`LedgerFollowers.ReplacementNoticed`, `LedgerFollowers.EveryReplacementNoticed`). Two pairs of
  good files show it: a view with a record of each (`LedgerFollowers.MixedFiles`), and a line made of the start of
  one and the end of the other (`LedgerFollowers.MixedLine`).
- `router/metrics.hpp:15-17` says that a crash loses at most the line being written. The ledger is only ever
  appended to, so the next line written, by the next process too, continues the unfinished one, and both are lost:
  the claim holds if and only if no line is written whole after one that was cut off (`Metrics.OwnLineOnly`).
- `scripts/fetch_models.py:554-558` means to forget the recorded chunks when the part file is created anew, but
  compares a size it has just set, so the records stay. Runs are safe from a disk if and only if it does not
  record chunks without the whole part file or the finished file (`Download.CrashSafety`).
- The program can leave such a disk behind itself. The forced install of `scripts/fetch_models.py:960-972` removes
  the finished file, then the part file, then the state file, and ignores failures; cut off before the last, it
  leaves the records alone, and two restarts later a file of zeros is renamed into place
  (`Download.ForcedCleanupCorrupts`, at one byte). A cleanup in a fixed order is safe under crashes if and only if
  it removes the state file first (`Download.OrderSafeExactly`). One run of a cleanup is safe on every disk if and
  only if it removed nothing or the state file (`Download.HarmlessExactly`), and before a forced install one can
  tell: every run of its cleanup from a given disk is safe if and only if the disk records no chunk
  (`Download.StandsEveryCleanup`; `Download.StandsExactly` for any order). Without a cleanup cut off, no run leaves such
  a disk (`Download.NeverUnsafe`).
- `scripts/conductor_wiring.py:507-525` is not idempotent when the existing document has something other than an
  object in place of a block whose generated form has more than machine keys: the first pass drops the rest of
  the block and the second brings it back (`RouterConfigMerge.RegenerationStable`).
- `scripts/conductor_wiring.py:621-635` means to leave no token of the harness root in any string. None is left if
  and only if the root, set between a start and an end of the token, does not make one
  (`WiringText.TokensGone`); of an absolute path that says that it has no token in it and does not end in the start
  of one, such as a dollar sign (`WiringText.AbsoluteRootFuses`).

Two remarks on code that is right. The queue scan of `hasFreeSlot` (`router/admission.hpp:236-239`) is never the
reason for a refusal in a reachable state: a model with a waiter is at its cap (`AdmissionSpec.InvStep`). And the
order of the arms of a campaign decides only which reason is printed for an excluded stratum
(`CampaignSpec.OrderOfArmsIrrelevant`).

## Model

| member | source | states |
|---|---|---|
| `AffinitySpec.SelectionLaw` | router/affinity.hpp:88-129 | the entry granted has the minimum priority value; nobody older of its class and group is left behind; an untagged one, or any one with the toggle off, is the oldest of its class. Stated on the set of entries, so no order of the vector matters |
| `AffinitySpec.InterchangeablePick` | router/affinity.hpp:107-129 | two bursts without a queued member decide alike and leave the same burst |
| `AffinitySpec.BurstOpensWith` | router/affinity.hpp:115-121 | the burst opened at a grant is exactly the rest of the head's group queued in its class at that moment |
| `AffinitySpec.BurstDrains` | router/affinity.hpp:107-111 | a burst of the lowest class hands out its oldest member and keeps the others |
| `AffinitySpec.BurstBelow` | router/affinity.hpp:116-120 | the ceiling of a burst stays below the ordinals not yet handed out |
| `AffinityPolicies.LowestPriority` | router/affinity.hpp:142-148 | a value some entry has and none is below |
| `AffinityPolicies.HighestArrival` | router/affinity.hpp:150-156 | an ordinal some entry has and none is above |
| `AffinityPolicies.OldestInClass` | router/affinity.hpp:161-173 | an entry of the class with no older one in it |
| `AffinityPolicies.AffinityPolicy.OldestBurstMember` | router/affinity.hpp:175-195 | the oldest queued member of the burst, or none exactly when it has none |
| `AffinityPolicies.AffinityPolicy.StartBurst` | router/affinity.hpp:113-128 | the oldest of the class is taken and the burst is its group's, or none |
| `AffinityPolicies.AffinityPolicy.SelectNext` | router/affinity.hpp:88-129 | picks the entry, and leaves the burst, that the set of entries and the old burst determine; nothing for no entries |
| `AdmissionSpec.InvStep` | router/admission.hpp:133-288 | every step keeps: no model above its cap, every model with a waiter exactly at it, the queue within its limit, in-flight entries positive and within the distinct-model limit even though a grant does not test it, and policies only of models at their cap |
| `AdmissionSpec.InvHoldsInitially` | router/admission.hpp:321-327 | the constructed controller meets the invariant |
| `AdmissionSpec.ParkedMeansFull` | router/admission.hpp:227-242 | in a reachable state a refusal of the free slot means the model is at its cap |
| `AdmissionSpec.AnswersAre` | router/admission.hpp:137-160 | in a reachable state an arrival is admitted if and only if its model is below the cap and has something in flight or leaves room for another model; it waits if and only if its model is at the cap and the queue has room; else it is refused. A waiter has its group, the value its tag names and an ordinal after all others |
| `AdmissionSpec.ReleasesAre` | router/admission.hpp:185-194 | a slot given back goes to a waiter of its model, and no count changes, if and only if there is one; else the count is one lower |
| `AdmissionSpec.GrantKeepsSlots` | router/admission.hpp:185-194 | a release that grants leaves the in-flight table as it was and removes one waiter |
| `AdmissionSpec.SlotsAfterRelease` | router/admission.hpp:187-191 | taking one slot back lowers that model's count by one, if it had one, keeps the table's bounds and touches no other model |
| `AdmissionSpec.PoliciesBounded` | router/admission.hpp:282-287 | the policy table is no larger than the number of models in flight, and so than the distinct-model limit |
| `AdmissionRuns.InvRun` | router/admission.hpp:133-288 | the invariant holds in every state of every run |
| `AdmissionRuns.OvertakingStep` | router/affinity.hpp:88-129 | a grant of a waiter's class to another request strictly shrinks the pair of waiters ahead and members left in the burst, lexicographically; no other event grows it |
| `AdmissionRuns.PotentialStep` | router/admission.hpp:244-288 | the same descent as a number, one lower for each overtaking |
| `AdmissionRuns.BoundedOvertaking` | router/admission.hpp:244-288 | in every run, the grants of its class that come before a waiter are at most (older waiters) times (queue limit + 1) plus the burst under way |
| `AdmissionRuns.BurstOpens` | router/affinity.hpp:115-121 | through the controller, the grant that opens a burst fixes its members |
| `AdmissionRuns.BurstStep` | router/affinity.hpp:103-126 | one event of a run: the burst only shrinks, and a grant to the model goes to its oldest member |
| `AdmissionRuns.BurstContiguity` | router/affinity.hpp:103-126 | until the burst is drained or a higher class waits at a grant, every grant to the model is a member of the burst, in arrival order, whatever arrives meanwhile |
| `AdmissionRefinement.AlikeStep` | router/admission.hpp:266-292 | the simulation step of the next row: same grant, and bursts that differ have no queued member |
| `AdmissionRefinement.DroppingIsUnobservable` | router/admission.hpp:266-292 | a controller that never erases a policy makes the same grants on every run and ends with the same slots and queue |
| `AdmissionRefinement.HeadExists` | router/admission.hpp:217-220 | the head of a (priority, arrival) order exists and is what the policy picks with the toggle off |
| `AdmissionRefinement.PlainQueueRefined` | router/affinity.hpp:97-101 | with contiguous dequeue off every run is a run of a plain (priority, arrival) queue |
| `AdmissionRefinement.GrantObeysSelectionLaw` | router/admission.hpp:244-280 | every grant in a reachable state obeys the selection law on the waiters of its model |
| `AdmissionSystem.SystemInvStep` | router/admission.hpp:133-194 | with callers and slots: in-flight counts are held slots plus granted waiters, and a parked caller is queued exactly when it is not granted |
| `AdmissionSystem.SingleOutcome` | router/admission.hpp:133-179 | over every run from a state of the invariant: it holds at the end, and no outcome already returned is changed |
| `AdmissionSystem.EveryCallEndsOnce` | router/admission.hpp:133-194 | over every run from the start: each call is parked or has returned, never both; a parked one is queued exactly when not granted; a model's in-flight count is its held slots plus its granted waiters and within the cap |
| `AdmissionSystem.CallsAnswered` | router/admission.hpp:133-160 | after every run, which calls are admitted, parked and refused, by what is in flight and queued, and what a parked ticket holds |
| `AdmissionSystem.SlotComesBack` | router/admission.hpp:185-194 | a finished request is a held slot less, and either a waiter of its model is granted or one less is in flight; no other call changes |
| `AdmissionSystem.GrantedNeverTimesOut` | router/admission.hpp:169-178 | a granted caller that wakes, however late, is admitted with the slot it was handed; one still queued leaves the queue and times out, and nothing else changes |
| `AdmissionSystem.SlotHandedOn` | router/admission.hpp:275-280 | conservation when a finished request's slot goes straight to a waiter |
| `AdmissionSystem.OutcomeStep` | router/admission.hpp:172-178 | no action changes an outcome already returned |
| `AdmissionControllers.AdmissionController.constructor` | router/admission.hpp:112-125 | the controller starts in the empty state with the limits of its config |
| `AdmissionControllers.AdmissionController.FreeSlot` | router/admission.hpp:229-242 | true exactly when the cap is positive, the model below it and nothing of it waiting |
| `AdmissionControllers.AdmissionController.Enqueue` | router/admission.hpp:158-160 | the waiter joins the queue under the next ordinal, in key order |
| `AdmissionControllers.AdmissionController.PriorityOf` | router/admission.hpp:297-312 | the named tags give their values; no tag or an unknown one is an interactive request |
| `AdmissionControllers.AdmissionController.Admit` | router/admission.hpp:133-160 | one arrival gets the answer that the counts and the queue call for, and the reply and the new state are those of the machine |
| `AdmissionControllers.AdmissionController.Wake` | router/admission.hpp:163-178 | a set flag admits and changes nothing; otherwise the entry removes itself |
| `AdmissionControllers.AdmissionController.SelectFor` | router/admission.hpp:271-273 | the model's policy, made on first use and then a new object, picks the waiter and advances its own burst only |
| `AdmissionControllers.AdmissionController.GrantNext` | router/admission.hpp:244-288 | the queue, the counts, the policies and the flags after a grant are those of the machine, exactly the granted waiter's flag is raised, and policies not there before are new objects |
| `AdmissionControllers.AdmissionController.ReleaseSlot` | router/admission.hpp:185-194 | one release is one release step of the machine, and policies not there before are new objects |
| `AdmissionControllers.AdmissionController.TakeBack` | router/admission.hpp:187-191 | the model's count goes down by one, if it had one, and nothing else changes |
| `AdmissionControllers.AdmissionController.Choose` | router/admission.hpp:271-276 | the waiter chosen is the one the machine grants, and what is left of the grant is the update of the tables |
| `AdmissionControllers.Enter` | router/admission.hpp:133-194 | each critical section takes the object through one event of the machine, or none when a granted waiter wakes |
| `AdmissionControllers.EnterAll` | router/admission.hpp:133-194 | whatever sections are entered in whatever order, the object goes through the run of exactly their events, with the flags raised and lowered on the way, and ends in its invariant |
| `AdmissionCallers.Callers.Call` | router/admission.hpp:133-160 | a thread's call takes controller and threads through one action of the system, with the answer the controller gave |
| `AdmissionCallers.Callers.Wake` | router/admission.hpp:163-178 | a sleeping thread returns with what the controller decided, as the system's action does |
| `AdmissionCallers.Callers.Finish` | router/admission.hpp:185-194 | a held slot given back is the system's action |
| `AdmissionCallers.Serve` | router/admission.hpp:133-194 | under any schedule of calls, wake-ups and releases over one controller object its threads are in the state of the system's run: each call is parked or was answered once, by what the object returned, and in-flight counts are held slots plus granted waiters, within the cap |
| `AdmissionControllers.RunJoin` | router/admission.hpp:133-194 | a run after a run is a run |
| `AdmissionControllers.InsertByKey` | router/admission.hpp:217-220 | insertion keeps the (priority, ordinal) order and adds one waiter |
| `AdmissionControllers.Project` | router/admission.hpp:255-264 | the entries are the model's waiters, each with the position it came from |
| `AdmissionControllers.GrantInTwoUpdates` | router/admission.hpp:266-287 | asking the policy first and dropping it afterwards is the machine's one-step grant |
| `AdmissionConfig.AdmissionBlock.ClampMaxQueuedToThreadBudget` | router/config.hpp:305-347 | the queue limit becomes the largest that fits the thread budget, or the field at fault is named |
| `AdmissionConfig.ParseAdmission` | router/config.hpp:452-497 | accepted exactly when the three numbers are in range and leave room in the budget, and then with the effective limit |
| `AdmissionConfig.DistinctModelsRideTheMargin` | router/admission.hpp:68-83 | a number of models is within the limit if and only if their slots, cap for each, take at most cap + 7; one model always is |
| `AdmissionConfig.TotalBound` | router/admission.hpp:68-83 | requests in flight over all models are at most cap times the number of models |
| `AdmissionConfig.OneWorkerSpared` | router/config.hpp:280-347 | with any accepted config, in every reachable state, requests in flight and in the queue leave a thread of the pool, which has at most 256 |
| `RelayProtocol.InvStep` | router/router.hpp:999-1166 | every step of either thread keeps fidelity, control, wake-ups and back-pressure |
| `RelayProtocol.FidelityDown` | router/router.hpp:1028-1091 | taking, writing and collecting keep the bytes in order and end cleanly only on a finished, successful upstream |
| `RelayProtocol.HonestDelivery` | router/router.hpp:951-1092 | in every reachable state: written, in hand and pending are, in that order, what was received; a clean end or a buffered answer means a successful upstream and the whole body; a failed or cancelled one ends without the terminating chunk; a truncated body is never relayed |
| `RelayProtocol.WrittenGrowsBy` | router/router.hpp:1046-1091 | what goes to the client is the chunk in hand, or what a failing write got through, and nothing at any other step |
| `RelayProtocol.EndingExactly` | router/router.hpp:951-1092 | over every run, which ending a finished response has: none without a head; a buffered one is relayed whole if and only if the upstream succeeded; a stream is complete, with every byte of the body, if and only if the upstream succeeded and the client did not go away |
| `RelayProtocol.CleanEndPossible` | router/router.hpp:951-1166 | for every answer some run ends cleanly, with the whole body |
| `RelayProtocol.NeverStuck` | router/router.hpp:1030-1034 | some thread can always move on until both are done: the two are never both parked, and no notification is missed |
| `RelayProtocol.EffortStep` | router/router.hpp:999-1166 | a step that is not going to sleep or waking for nothing lowers what is left to do, and no step raises it |
| `RelayProtocol.EveryScheduleEnds` | router/router.hpp:951-1166 | under any schedule, with any number of spurious wake-ups, a run takes at most six steps for each byte of the answer and fifteen more that get either thread somewhere |
| `RelayProtocol.CanEnd` | router/router.hpp:951-1166 | from every state of the invariant, taking the step some thread can take ends the exchange within that effort |
| `RelayProtocol.CanEndAsDue` | router/router.hpp:951-1166 | however far a run got, it can be ended so, with the ending its answer calls for |
| `RelayProtocol.BufferedNeverParks` | router/router.hpp:1133-1141 | while the body is buffered the upstream reader never waits |
| `RelayProtocol.BacklogBounded` | router/router.hpp:1136-1141 | once drained to the mark a stream's backlog never exceeds it by more than the last chunk; before that, the larger of the mark and the backlog at the switch takes the place of the mark |
| `RelayProtocol.LastIsChunk` | router/router.hpp:1128-1132 | the chunk the backlog may exceed the mark by is one the run received |
| `RelayProtocol.ReaderParksExactly` | router/router.hpp:1136-1141 | after a chunk, and again when it wakes, the reader waits exactly while a client still there has more than the mark of a stream pending |
| `RelayProtocol.DownWaitsExactly` | router/router.hpp:951-1044 | the downstream side sleeps exactly while the head, the end or the bytes it waits for are not there, and goes on exactly when they are |
| `UpstreamRelays.UpstreamRelay.PublishHead` | router/router.hpp:1107-1123 | status and headers are published unless the exchange is cancelled, when nothing changes |
| `UpstreamRelays.UpstreamRelay.Append` | router/router.hpp:1128-1132 | bytes are appended in order, or refused when cancelled |
| `UpstreamRelays.UpstreamRelay.Resume` | router/router.hpp:1136-1143 | the reader goes on only to a client still there and, when streaming, drained to the mark; it stops only if cancelled |
| `UpstreamRelays.UpstreamRelay.FinishCall` | router/router.hpp:1150-1163 | verdict, error and end are published together; a head not seen yet is recovered from a successful call only |
| `UpstreamRelays.UpstreamRelay.Take` | router/router.hpp:1036-1044 | everything pending is taken, with whether it was the last, whether the upstream failed and its error |
| `UpstreamRelays.UpstreamRelay.CollectBody` | router/router.hpp:962-966 | the whole pending body, marked truncated unless the upstream succeeded, with its error |
| `UpstreamRelays.UpstreamRelay.SwitchToStreaming` | router/router.hpp:1001-1004 | back-pressure starts |
| `UpstreamRelays.UpstreamRelay.Cancel` | router/router.hpp:278-281 | the upstream side is told to unwind and nothing else changes |
| `UpstreamRelays.EnterReader` | router/router.hpp:1107-1163 | each callback of the upstream reader, run on the object and acted on by what it returns, is the protocol's step |
| `UpstreamRelays.EnterDown` | router/router.hpp:951-1092 | each section of the downstream side, run on the object and acted on by what it returns, is the protocol's step |
| `UpstreamRelays.Exchanged` | router/router.hpp:951-1166 | over any run the object is the record of the protocol's exchange, in its invariant, with the upstream's head once one is published and the call's error once it returned |
| `SseScanner.ScanSplits` | router/router.hpp:336-340 | the events and the partial one, put back together with their delimiters, are the bytes; in each event no delimiter starts before the one that ends it, and none is in the partial |
| `SseScanner.SplitOnce` | router/router.hpp:336-340 | there is one such split only |
| `SseScanner.PartialsFitAre` | router/router.hpp:342-347 | that no partial event before the last byte is over the limit is a condition on the events and what is left |
| `SseScanner.ChunkIndependence` | router/router.hpp:333-348 | the split does not depend on the chunking if and only if every event is shorter than the limit and what is left at most one byte longer |
| `SseScanner.LongEventLost` | router/router.hpp:342-347 | such a stream: three letters and a delimiter under a limit of two, an event of three bytes or an empty one |
| `SseScanner.SomeChunkingDiffers` | router/router.hpp:342-347 | otherwise a chunking that gives a different result |
| `SseScanner.Scanner.Feed` | router/router.hpp:333-348 | one chunk: the events and the buffer are those of the split, the buffer dropped above the limit |
| `SseScanner.Scanner.FindBoundary` | router/router.hpp:337-337 | the first delimiter, or none exactly when there is none |
| `LedgerTails.AlwaysBounded` | dashboard/ledger_view.hpp:259-270 | whatever the bytes and the chunking, no call ends with a carry above the ceiling, and dropping carries nothing |
| `LedgerTails.ScanIsLines` | dashboard/ledger_view.hpp:212-223 | consumed whole, bytes give the records of their lines in order, one skip for each undecodable line, and the remainder |
| `LedgerTails.LinesAre` | dashboard/ledger_view.hpp:212-223 | the lines, each with its newline, and the remainder are the bytes, and no line holds a newline |
| `LedgerTails.LineIs` | dashboard/ledger_view.hpp:289-304 | with or without a carriage return at its end a line of spaces gives nothing, one that decodes its record, any other a skip |
| `LedgerTails.LongLinesAre` | dashboard/ledger_view.hpp:262-270 | the condition below, byte by byte, is the condition on lines |
| `LedgerTails.ChunksAsOne` | dashboard/ledger_view.hpp:231-273 | under the condition any chunking gives the same records, skips and carry |
| `LedgerTails.LongLineLost` | dashboard/ledger_view.hpp:262-270 | otherwise a place to cut that counts one skip more |
| `LedgerTails.SomeChunkingDiffers` | dashboard/ledger_view.hpp:262-270 | and with it a chunking that does not give what the whole gives |
| `LedgerTails.BlankLineCounted` | dashboard/ledger_view.hpp:262-270 | such an input: a blank line of two bytes with a ceiling of one |
| `LedgerTails.ChunkIndependence` | dashboard/ledger_view.hpp:212-219 | every chunking gives the same records, skips and carry as the whole if and only if no line over the ceiling is one that decodes or is blank |
| `LedgerReaders.FindNewline` | dashboard/ledger_view.hpp:235-237 | the first newline, or none exactly when there is none |
| `LedgerReaders.LedgerTail.Consume` | dashboard/ledger_view.hpp:231-273 | the records and the tail after a chunk are the byte-by-byte ones |
| `LedgerReaders.LedgerTail.Admit` | dashboard/ledger_view.hpp:289-304 | a line gives its record, nothing for a blank one, or a skip |
| `LedgerReaders.LedgerTail.Reset` | dashboard/ledger_view.hpp:283-286 | the carried partial is gone, the skip count stays |
| `Aggregates.CountedIsTally` | dashboard/ledger_view.hpp:373-398 | one more record keeps every figure equal to the count or sum over all records |
| `Aggregates.TallyIsUnique` | dashboard/ledger_view.hpp:432-434 | the records determine the figures, status keys included |
| `Aggregates.TallyIsRead` | dashboard/ledger_view.hpp:373-398 | every figure is how many records have the field so, or the sum of the field over them, and each status counts its records |
| `Aggregates.RateIsShare` | dashboard/ledger_view.hpp:443-448 | the rate is the share the conformed verdicts are of all, between 0 and 1, and there is none without a verdict |
| `Aggregates.ShareIsUnique` | router/metrics.hpp:159-167 | the two counters determine the rate |
| `Aggregates.NearestRankIs` | dashboard/ledger_view.hpp:128-136 | the percentile is the least sample that at least that share of the samples does not exceed, and 0 without a sample |
| `Aggregates.SortCounts` | dashboard/ledger_view.hpp:132-132 | sorting keeps how many samples lie up to a value |
| `Aggregates.WaitsAre` | dashboard/ledger_view.hpp:426-440 | the samples are the waits of the records that have one, each as often as records have it |
| `LedgerViews.LedgerView.Record` | dashboard/ledger_view.hpp:373-403 | the figures stay the tally of all records and the window their last ones |
| `LedgerViews.LedgerView.RecordAll` | dashboard/ledger_view.hpp:405-408 | a batch is its records one by one |
| `LedgerViews.LedgerView.Restart` | dashboard/ledger_view.hpp:413-424 | the constructed state again |
| `LedgerViews.LedgerView.Aggregate` | dashboard/ledger_view.hpp:426-460 | the tally of every record since the restart, read off their fields; nearest ranks over the window, which is the last records; the conformed share of the verdicts; and tokens per upstream second over the records that have both halves |
| `LedgerViews.PairsGiveThroughput` | dashboard/ledger_view.hpp:392-457 | the rate times the upstream seconds is the tokens, over the records that have both; there is none without upstream time |
| `Metrics.MetricsLedger.Accumulate` | router/metrics.hpp:175-194 | the counters stay the tally of every request, the waits their list |
| `Metrics.MetricsLedger.Summarize` | router/metrics.hpp:143-170 | the tally of every request, read off their fields, nearest ranks over all waits, and the conformed share of the verdicts |
| `Metrics.RequestsAreRead` | router/metrics.hpp:175-194 | the tally by the fields of the requests themselves: how many have each, and the sums of the tokens |
| `Metrics.RouterAndDashboardAgree` | router/metrics.hpp:143-194 | over the same requests endpoint and dashboard quote the same totals and conformance rate, and the same percentiles while the run fits the window |
| `Metrics.LinesOfFile` | router/metrics.hpp:196-235 | whatever part of each line got written, the lines of the file are those written whole, in order, each behind what was cut off since the last one |
| `Metrics.KeptOfLines` | router/metrics.hpp:196-235 | the records of those lines are the requests written whole on a line of their own, and one bad line for each of the others written whole |
| `Metrics.LedgerReadBack` | dashboard/ledger_view.hpp:212-219 | however its reads cut the file up, the dashboard gets exactly those requests, in order, those skips, and the unfinished end |
| `Metrics.CutOffCostsOne` | router/metrics.hpp:224-235 | of the lines written whole, at most one is lost for each that was cut off, and none if none is cut off |
| `Metrics.OwnLineOnly` | router/metrics.hpp:15-17 | a line cut off costs no other if and only if none is written whole after it |
| `LedgerFollowers.LedgerFollower.PollOnce` | dashboard/main.cpp:100-151 | a poll moves the position, the tail and the view as one follow step; a missing or unreadable file changes no more than a restart does |
| `LedgerFollowers.SyncedRead` | dashboard/main.cpp:133-148 | a short read keeps the view equal to the fold of what was consumed |
| `LedgerFollowers.FollowStep` | dashboard/main.cpp:100-151 | every append, replacement and poll keeps the follower in step with the current file |
| `LedgerFollowers.TailFollow` | dashboard/main.cpp:100-151 | after any run of appends, replacements and polls the view holds the records of the complete lines in the first consumed bytes of the current file, none lost, repeated or from another file |
| `LedgerFollowers.CaughtUp` | dashboard/main.cpp:100-151 | after any run, a poll that reads all there is leaves the records of every complete line of the file |
| `LedgerFollowers.PollAdvances` | dashboard/main.cpp:133-148 | the position moves by what was read, from the start for a file seen shorter |
| `LedgerFollowers.ReplacementNoticed` | dashboard/ledger_view.hpp:199-210 | a view with records shows those of the new file alone if and only if it is seen shorter than what was consumed |
| `LedgerFollowers.EveryReplacementNoticed` | dashboard/ledger_view.hpp:199-210 | any view does, whatever lines decode to, if and only if the new file is seen shorter, or the view has no record and either nothing was consumed or the new file is at most one byte |
| `LedgerFollowers.MixedFiles` | dashboard/ledger_view.hpp:199-210 | any two different lines of one length give a file and a longer replacement of which the view shows one record each |
| `LedgerFollowers.MixedLine` | dashboard/ledger_view.hpp:199-210 | after an unfinished line, a replacement makes the view decode a line that stands in neither file |
| `Gguf.SkipReadAlike` | scripts/fetch_models.py:705-732 | skipping and reading a value fail alike and stop at the same byte |
| `Gguf.NumberOfEncode` | scripts/fetch_models.py:695-699 | little-endian numbers read back |
| `Gguf.ScalarReads` | scripts/fetch_models.py:623-664 | each of the eleven scalar types of the format, printed at its own width under its own code, is read back as its value |
| `Gguf.ValueReads` | scripts/fetch_models.py:725-732 | from any beginning of a printed value: the value and the rest when it is whole, the end of the bytes when it is not |
| `Gguf.PairReads` | scripts/fetch_models.py:765-772 | the same for a key with its value |
| `Gguf.PairsRead` | scripts/fetch_models.py:763-774 | the loop answers for exactly the pairs that are whole in the bytes, flagged exactly when some are not |
| `Gguf.PrefixSound` | scripts/fetch_models.py:735-775 | from any beginning of a printed file of at least 24 bytes the reader gives the metadata of exactly the whole pairs, flagged if and only if some are missing |
| `Gguf.RoundTrip` | scripts/fetch_models.py:735-775 | reading a printed file gives every wanted scalar and text key with its value, the last of each, and no flag, whatever follows |
| `Gguf.MetaIs` | scripts/fetch_models.py:763-772 | the metadata of the two rows above has a key if and only if the key is wanted and a scalar or text pair has it, and then the value of the last such pair |
| `Gguf.WantedKeys` | scripts/fetch_models.py:668-675 | the keys surfaced are six names and every key that ends in .context_length |
| `Gguf.UnsupportedStops` | scripts/fetch_models.py:718-774 | a value of an unknown type, or an array of arrays, ends the reading with the metadata of the pairs before it and the flag |
| `Gguf.RefusedExactly` | scripts/fetch_models.py:745-752 | a file is refused if and only if it is shorter than 24 bytes, does not start with the four letters or has another version than 2 and 3 |
| `GgufReader.Cursor.Take` | scripts/fetch_models.py:683-688 | the next bytes, or the end of the buffer with the position unmoved |
| `GgufReader.Cursor.SkipValue` | scripts/fetch_models.py:705-722 | advances as the specification parser does |
| `GgufReader.Cursor.ReadValue` | scripts/fetch_models.py:725-732 | reads as the specification parser does |
| `GgufReader.Cursor.ReadPair` | scripts/fetch_models.py:765-772 | one turn of the loop reads one pair |
| `GgufReader.ReadGgufHeader` | scripts/fetch_models.py:735-775 | the header the specification parser gives, error cases included |
| `Download.InvStep` | scripts/fetch_models.py:543-617 | every step of every worker, of a forced install and of a removal, and a crash between any two, keeps each recorded chunk true and the finished file the remote's, unless it cuts a cleanup off |
| `Download.AllDoneIsWhole` | scripts/fetch_models.py:561-565 | with every chunk recorded the part file is the remote |
| `Download.CrashSafety` | scripts/fetch_models.py:546-565 | for every remote of the size, all runs with crashes, restarts and cleanups that are not cut off keep the records true and rename nothing but the remote, if and only if the disk does not record chunks without the whole part file or the finished file |
| `Download.UnsafeDisk` | scripts/fetch_models.py:554-558 | from any other disk the first start already makes a record false |
| `Download.NeverUnsafe` | scripts/fetch_models.py:516-617 | a run from a disk that records nothing leaves an unsafe disk, or a false record or file, only by cutting a cleanup off |
| `DownloadResume.CompletedExactly` | scripts/fetch_models.py:616-617 | a run that completes a download leaves the remote, and neither part file nor state file |
| `DownloadResume.NeverFetchedAgain` | scripts/fetch_models.py:546-565 | over any run of crashes and restarts a chunk once recorded stays recorded and is not begun again |
| `DownloadResume.ChunkIs` | scripts/fetch_models.py:586-587 | a chunk's bytes are those from its start to its stop, and the chunks share none |
| `DownloadResume.WritesOwnChunk` | scripts/fetch_models.py:586-595 | a worker writes the remote's bytes and touches no chunk but its own |
| `DownloadResume.CanComplete` | scripts/fetch_models.py:543-617 | from every safe disk a start can be brought to its end by fetching only the chunks not recorded |
| `Download.CleanupRun` | scripts/fetch_models.py:960-972 | the runs of a cleanup, however its removals fare and wherever it is cut off, leave the disk without the files they removed |
| `Download.HarmlessExactly` | scripts/fetch_models.py:960-972 | a run of a cleanup leaves a safe disk whatever safe disk it starts from if and only if the files it removed are none or include the state file |
| `Download.StandsExactly` | scripts/fetch_models.py:960-972 | every run of a cleanup in a given order from a given disk leaves a safe disk if and only if no chunk is recorded, or the whole part file or the finished file is there and not in the order |
| `Download.StandsEveryCleanup` | scripts/fetch_models.py:960-972 | every run of the cleanup of a forced install from a given disk leaves a safe disk if and only if the disk records no chunk |
| `Download.StateFirstExactly` | scripts/fetch_models.py:963-968 | every run of a cleanup whose removals succeed, from every safe disk and cut off anywhere, leaves a safe disk if and only if its order is empty or starts with the state file |
| `Download.StateFirstNeverCutOff` | scripts/fetch_models.py:960-972 | cleanups that start with the state file and remove what they reach are never cut off harmfully, wherever a run crashes |
| `Download.OrderSafeExactly` | scripts/fetch_models.py:960-972 | all runs whose cleanups take a given order are safe, from every disk that records nothing, if and only if the order starts with the state file |
| `Download.ForcedOrderNotSafe` | scripts/fetch_models.py:963-968 | the order of a forced install is not safe |
| `Download.ForcedCleanupCorrupts` | scripts/fetch_models.py:960-978 | the run that shows it, from an empty disk: fetch, forced cleanup cut off after the part file, two restarts, and a zero byte renamed into place for a one |
| `Download.RenamedReachable` | scripts/fetch_models.py:616-617 | a run reaches the crash between the rename and the removal of the state file, with a safe disk that is no longer safe without the finished file |
| `Download.RemovingDestIsUnsafe` | scripts/fetch_models.py:616-617 | the same of every reachable state between the two |
| `JsonMerge.DeepMerge` | scripts/conductor_wiring.py:1314-1323 | the loop computes the recursive merge |
| `JsonMerge.MergeByPath` | scripts/conductor_wiring.py:1314-1323 | path by path: the overlay's value wins, two objects merge, and a value only the target has stays unless the overlay put something else than an object in its way |
| `JsonMerge.OverlayIdempotent` | scripts/conductor_wiring.py:1314-1323 | merging the same overlay twice is merging it once |
| `JsonMerge.TargetIdempotent` | scripts/conductor_wiring.py:1314-1323 | merging onto the same target twice is merging onto it once |
| `RouterConfigMerge.SetPathLookup` | scripts/conductor_wiring.py:1333-1341 | setting a path is seen at it and below it, and nowhere that neither path leads through the other |
| `RouterConfigMerge.SetAllDefined` | scripts/conductor_wiring.py:1326-1330 | the refresh fails exactly when the generated document lacks a machine key |
| `RouterConfigMerge.MergeRouterConfig` | scripts/conductor_wiring.py:507-525 | the loop over the machine keys computes the refreshed document |
| `RouterConfigMerge.MachineKeysRefreshed` | scripts/conductor_wiring.py:156-178 | each of the eight machine keys, and all below it, is the generated document's |
| `RouterConfigMerge.HandEditsSurvive` | scripts/conductor_wiring.py:512-519 | away from the machine keys every hand edit is there unchanged, and the generated value stands where there is none |
| `RouterConfigMerge.TakenAsGenerated` | scripts/conductor_wiring.py:519-520 | a document made anew, or in the place of nothing, of something else than an object or of an empty one, is the generated one |
| `RouterConfigMerge.RegenerationStable` | scripts/conductor_wiring.py:507-525 | regenerating over its own result changes nothing if and only if no block hidden by something other than an object has more than machine keys |
| `RouterConfigMerge.HiddenBlockComesBack` | scripts/conductor_wiring.py:507-525 | such an input: an admission block replaced by a number loses the queue limit in the first pass and has it back after the second |
| `OpencodeWiring.Limit` | scripts/conductor_wiring.py:340-352 | the context is the slot and the output reserve a quarter of it, rounded down |
| `WiringText.TokensGone` | scripts/conductor_wiring.py:621-635 | replacing the token leaves none in any text if and only if the root, between a start and an end of the token, makes none |
| `WiringText.AbsoluteRootFuses` | scripts/conductor_wiring.py:621-635 | a root that starts with a character foreign to the token makes one if and only if it holds one or ends in a start of one |
| `WiringText.ResolvedIsTokenFree` | scripts/conductor_wiring.py:628-635 | at any depth of the document no string keeps the token |
| `WiringText.ReplaceJoins` | scripts/conductor_wiring.py:633-634 | in a text of pieces with the token between them, the pieces stay and the root takes the place of every token |
| `WiringText.Split` | scripts/conductor_wiring.py:633-634 | every text is such a text |
| `WiringText.ResolvedIs` | scripts/conductor_wiring.py:628-635 | resolving keeps all keys, lengths and values that are no strings, and puts the root into every string in that way |
| `WiringText.ReferenceFound` | scripts/conductor_wiring.py:229-229 | a brace-file reference is found wherever it stands, after any text that opens none |
| `WiringText.ReferencesStand` | scripts/conductor_wiring.py:229-229 | and what is found stands in the text |
| `WiringText.ReferencesAre` | scripts/conductor_wiring.py:1344-1361 | the files of a document are those named in some string of it, and the absolute paths under a plugin member |
| `WiringText.VerifyFileReferences` | scripts/conductor_wiring.py:706-719 | the files found missing are exactly the absent ones of those the document names |
| `OpencodeWiring.ApplyConductorWiring` | scripts/conductor_wiring.py:651-704 | the method computes the wired configuration, or the error for a bad slot, a provider that is not an object or files that are missing |
| `OpencodeWiring.RefusedExactly` | scripts/conductor_wiring.py:651-724 | the wiring is refused for a slot that is not positive, a provider block that is neither an object nor empty, and then for exactly the missing files, and for nothing else |
| `OpencodeWiring.WiringTokenFree` | scripts/conductor_wiring.py:621-635 | nothing in the wired configuration keeps the token unless the base or the address had it or the root makes it |
| `OpencodeWiring.AgentsVerbatim` | scripts/conductor_wiring.py:671-685 | each agent of the fragment, its root put in, ends exactly as the fragment has it, every other as the base had it |
| `OpencodeWiring.FragmentAgents` | scripts/conductor_wiring.py:669-685 | the same by the fragment as given: its agents as they are but for the root |
| `OpencodeWiring.ProviderPinned` | scripts/conductor_wiring.py:686-698 | the provider entry points at the router, every model carries the slot's limit, nothing else of the entry changes |
| `OpencodeWiring.ProvidersStay` | scripts/conductor_wiring.py:686-698 | no other provider changes, and the entry keeps its other options and, of each model, all but the limit |
| `OpencodeWiring.OnlyTheseChange` | scripts/conductor_wiring.py:651-704 | outside the agents, the provider block and the update switch the result is the merge, and the switch is off |
| `OpencodeWiring.WiringIdempotent` | scripts/conductor_wiring.py:659-666 | wiring what is wired, with the same fragment, root, pins and files, changes nothing, the check of the files included |
| `CampaignSpec.ScoreCell` | scripts/conductor_bench.py:2198-2223 | passed and the outcome agree; a pass is an exit status of zero that nothing else ended |
| `CampaignSpec.ExclusionIsByStratum` | scripts/conductor_bench.py:3036-3094 | a recorded cell is excluded if and only if some arm of the campaign has a row at its task and repetition that is a harness error or of an ungated session |
| `CampaignSpec.FatesOverRows` | scripts/conductor_bench.py:3135-3181 | over the rows: which cells are missing, excluded, timed out and scored, and that the reason is that of the first arm that has one |
| `CampaignSpec.TotalsOverRows` | scripts/conductor_bench.py:3135-3181 | every column, tokens and wall time included, is the sum over the rows of the cells that count |
| `CampaignSpec.OrderOfArmsIrrelevant` | scripts/conductor_bench.py:3085-3094 | no total and no counted row depends on the order of the arms |
| `CampaignSpec.Conservation` | scripts/conductor_bench.py:3135-3181 | planned is recorded and missing; recorded is scored, timed out and excluded; scored is passed and failed |
| `CampaignSpec.TiersAddUp` | scripts/conductor_bench.py:3126-3181 | whatever is totalled, the tiers' totals add up to the arm's |
| `CampaignReports.StratumReason` | scripts/conductor_bench.py:3088-3094 | the reason of the first arm that has one |
| `CampaignReports.ExcludedStrata` | scripts/conductor_bench.py:3085-3094 | exactly the strata with a reason, each with it |
| `CampaignReports.TallyTask` | scripts/conductor_bench.py:3135-3181 | the loop's counters are the counts over the task's cells, and the gaps are exactly its cells without a row |
| `CampaignReports.FlagRange` | scripts/conductor_bench.py:3183-3194 | the lowest and the highest pass over the repetitions that did not time out, 0 when there is none |
| `CampaignReports.TallyArm` | scripts/conductor_bench.py:3103-3212 | groups, totals and tier rows of an arm are those of its cells |
| `CampaignReports.Aggregate` | scripts/conductor_bench.py:3054-3235 | the report is that of the campaign, arm by arm; every column of it is the sum over the rows, and the missing cells are exactly the planned ones without a row |
| `CampaignReports.ReportOverRows` | scripts/conductor_bench.py:3085-3212 | an arm's columns over all tasks, task by task and tier by tier, are sums over the rows, and the strata those some arm drops |
| `CampaignReports.ArmsConserve` | scripts/conductor_bench.py:3199-3212 | in the report, for each arm, planned is recorded plus its missing cells and recorded is scored, timed out and excluded |
| `CampaignReports.TierRowsAddUp` | scripts/conductor_bench.py:3126-3181 | in every column an arm's tier rows add up to its total |
| `CampaignReports.OutsideNoise` | scripts/conductor_bench.py:3030-3034 | two arms are outside noise on a task if and only if one passed all of at least one scored repetition and the other passed none |
| `CampaignReports.MedianHalves` | scripts/conductor_bench.py:3018-3027 | at least half of the values do not exceed the median and at most half fall below it |
| `CampaignReports.MedianIs` | scripts/conductor_bench.py:3018-3027 | however the values are put in order, the median is the middle one, or half the sum of the two middle ones rounded down, or 0 for none |

## Left out

What the model assumes of code it does not contain:

- Threads, mutexes and condition variables are steps: a critical section is one step, a wait is a step enabled by its predicate, with spurious wake-ups and late notifications as further steps. The deadline of a queued waiter is a step that may come at any time.
- The HTTP library: a refused callback fails the call, and a call that succeeds has delivered the whole answer. Header copying, sockets and framing are not modelled.
- JSON text: decoding a ledger line is an uninterpreted function; writing one is assumed to read back, and a line behind an unfinished one not to decode. Key order and float formatting are not modelled.
- The download server is honest and the remote unchanged; writes at an offset are whole; the state file is replaced atomically and what was written before a crash is still there after it.

What the code does and the model does not:

- `AdmissionSystem.SingleOutcome`: the ordinal counter of `router/admission.hpp:327` is unbounded, so its wrap after 2^64 arrivals is not modelled; `AdmissionSlot` is the action that ends a held slot, and handing it between shared pointers is not modelled.
- `AdmissionControllers.AdmissionController.GrantNext`: the flag inside each waiter is a set of granted waiters, and the loop body is split over smaller methods.
- `RelayProtocol.HonestDelivery`: status lines, headers and the error are fields of the shared record but not part of the exchange; the error text and the token scanner beside the relay are left out.
- `SseScanner.Scanner.Feed`: the payload of an event is not parsed.
- `LedgerViews.LedgerView.Aggregate`: the rates are exact quotients; their rounding in floating point is not modelled. The same holds of `Metrics.MetricsLedger.Summarize`.
- `LedgerFollowers.TailFollow`: status text; a file replaced between the look at its size and the read of it; and the file growing between the two, which only the next poll sees.
- `Gguf.RoundTrip`: keys and texts stay byte sequences and floating-point numbers their bits; the replacement of invalid UTF-8 is not modelled, nor the 96 MiB probe, of which the bytes given are the result.
- `Download.CrashSafety`: on values, not on file descriptors, and one program at a time; durability of the last writes, a failing state write, the progress figures and the path for a file of unknown size are not modelled. A removal of the model's directory (scripts/fetch_models.py:1820) is a cleanup in any order.
- `JsonMerge.DeepMerge`: dictionaries are values, so the copies made against aliasing are not modelled; neither is setting a path in place.
- `OpencodeWiring.ApplyConductorWiring`: whether a reference, stripped and made absolute, is a file is an uninterpreted function, and the missing ones are a set, not a list.
- `CampaignReports.TallyTask`: sub-session and wave counts, the metrics, stop kinds, partial tokens and router errors are not counted: more sums and lists over the same cells, and only easy members.
- `CampaignReports.TallyArm`: the same columns; and outcomes and walls are one list of rows.
- `CampaignReports.Aggregate`: the same columns; a cell is its coordinates rather than their string, and tier rows are kept arm by arm.
- The lanes and affinity panes, the schema observer, the command lines, the report text, the catalog and the presets: presentation, data or case analysis that would add only easy members.
