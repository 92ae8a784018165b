# The agy mirror, verified

This project models how the agy reader turns an unreliable, repeating view of a remote agent into an
append-only conversation, and proves properties of it in Dafny 4.11. `dafny verify dfyconfig.toml`
checks all of it.

| file | what it models |
|---|---|
| `ConnectStream.dfy` | the byte-stream decoder of the agent's update stream and the request envelope |
| `TrajectorySteps.dfy`, `MapperItems.dfy` | a trajectory step and its mapping to conversation items, and what each kind of step says |
| `ToolCallIds.dfy`, `CallPairing.dfy` | the fallback tool-call ids, and which result closes which call |
| `CommittedChannel.dfy`, `ReaderRuns.dfy`, `TurnEdges.dfy` | what the reader commits: items, model changes, usage totals, running/idle/failed edges, and what a whole run posts for each step |
| `LiveDeltas.dfy` | live text and reasoning deltas |
| `InteractionGates.dfy`, `GateLedger.dfy`, `GateHistory.dfy` | handing waiting steps to one bridge at a time, re-scans, withdrawn cards, over all interleavings |
| `ReaderState.dfy` | the reader's state object, its methods and loops, proved against the four files above |
| `InteractionBridge.dfy`, `ElicitationRetry.dfy` | one bridge run, and the long-poll that asks for a verdict |
| `Rotation.dfy` | detecting another root cascade, the backstop's ticks, rebinding over and over |
| `PostDelivery.dfy` | posting with retries, and at-most-once delivery over a whole reader run |
| `DeadLetters.dfy`, `DeadLetterRuns.dfy` | dead-letter entries: appending with rotation, replaying at startup, the account of every entry over any sequence of both |
| `DeadLetterLines.dfy`, `DeadLetterFiles.dfy` | the dead-letter files as text: reading, appending, rewriting, and when the text says what the entries say |
| `DeadLetterDelivery.dfy` | which dead letters a startup posts, and how often an item is committed by its delivery and all its replays together |
| `PaneSearch.dfy`, `PasteEncoding.dfy` | finding agy under a tmux pane, and the bytes pasted into it |

Code that updates state is a method, with the fields and loops it has in the source, proved against a
specification function; the theorems are lemmas about those functions. What the source leaves to the
world (network, clocks, files, the agent, the server, the order in which its asynchronous tasks run) is an
argument that the theorems quantify over.

## Where the code differs from its comments

- The delta trackers are re-anchored on every frame, so a text that shrinks and grows back is posted
  twice in part. The deltas join up to the text at every moment exactly when every frame extends the one
  before it (`InSyncExactlyWhenGrowing`).
- An empty first reasoning text uses up the `started` mark. It is posted exactly when the first text is
  not empty (`StartMarkedOnce`).
- The backstop can land inside a step's emission, which works on a copy of the turn flag. It is harmless
  exactly when no turn was active before the step (`BackstopInsideEmission`). A step can also be emitted
  while the backstop's own post is on its way; that is harmless exactly unless the step opens a turn and
  its running edge arrives first (`BackstopPostDelayed`).
- A verdict can go to an older gate of the same kind, or to a gate of another kind at the same index.
  `VerdictTarget` and `VerdictKind` say exactly when, `VerdictCanGoToOlderGate` and `VerdictCanCrossKinds`
  show that it happens.
- A dead-letter line that is a JSON string is rewritten without its quotes, so an entry that was never
  replayable can turn into a record and be posted at the startup after (`QuotedRecordIsPosted`). A rewritten
  file is read as the entries it was written from exactly if each text among them is one line, not blank,
  and not JSON (`FileRewritePreserves`), and startups keep the account exactly if that holds of every file
  that has something to replay (`ReadAsAccountedExactlyWhenSafe`). It always holds of what the program
  itself has written.
- A stream payload that is not valid text makes the JSON parser raise an error that is not a JSON error.
  It is neither the malformed-frame error nor a clean trailer, and the model gives it an ending of its
  own (`UndecodableText`).

## Model

| member | source | states |
|---|---|---|
| ConnectStream.LengthRoundTrip | codify/antigravity_native_rpc.py:825-826 | reading a packed length gives the length back |
| ConnectStream.LengthBytesRoundTrip | codify/antigravity_native_rpc.py:942 | packing a read length gives the four bytes back |
| ConnectStream.Interpret | codify/antigravity_native_rpc.py:948-977 | a frame yields an update only if both low flag bits are clear and its payload is an object, and leaves the stream open only if both bits are clear and the payload is JSON; how it ends the stream is FramesDecide |
| ConnectStream.DecodeAppend | codify/antigravity_native_rpc.py:936-947 | decoding bytes in two pieces is decoding them at once, left-over bytes included |
| ConnectStream.StreamAgentStateUpdates | codify/antigravity_native_rpc.py:934-977 | however the network cuts the bytes, the updates and the ending are those of the uncut bytes, and for any frames these are the objects in front of the first closing frame and what that frame calls for; an HTTP error status yields nothing |
| ConnectStream.FramesDecide | codify/antigravity_native_rpc.py:829-856 | the first frame that is compressed, a trailer, or not JSON decides: the compressed flag, the trailer's error exactly if it is an object with one, a clean end for any other JSON, malformed or empty trailer, malformed JSON |
| ConnectStream.Framing | codify/antigravity_native_rpc.py:940-947 | every byte string is a list of whole frames and an incomplete tail |
| ConnectStream.FramingUnique | codify/antigravity_native_rpc.py:940-947 | in one way only |
| ConnectStream.DecodesFrames | codify/antigravity_native_rpc.py:937-977 | any frames written one after another are read back in order up to the first that ends the stream |
| ConnectStream.EnvelopesRoundTrip | codify/antigravity_native_rpc.py:812-826 | object payloads enveloped, concatenated and cut anywhere decode to exactly that list, nothing left over |
| PaneSearch.AgyPidInPaneSubtree | codify/antigravity_native_rpc.py:1185-1224 | on any child relation, cyclic or not, an agy pid at minimum distance from the pane if one is within 32 levels, and None exactly when none is |
| PaneSearch.ExpandLevel | codify/antigravity_native_rpc.py:1213-1223 | one level: an agy pid one step farther, or everything newly one step away |
| PaneSearch.NextLevel | codify/antigravity_native_rpc.py:1209-1223 | the frontier at level d is what is at distance exactly d, the visited set what is nearer or there |
| PasteEncoding.PastePayloadBytes | codify/antigravity_native_bridge.py:1071-1095 | no byte below 0x20 but TAB and CR; decoded as UTF-8 with CR as line break the bytes give the message with CRLF and CR folded and other C0 controls dropped |
| PasteEncoding.DecodesOne | codify/antigravity_native_bridge.py:1094 | a strict UTF-8 decoder reads one encoded character back, whatever follows |
| PasteEncoding.TwoReplacesAreOnePass | codify/antigravity_native_bridge.py:1082-1093 | the two replacements and the dropping of controls are one left-to-right pass |
| ToolCallIds.ToolCallIdAllocator.ClaimCallId | codify/antigravity_native_steps.py:121-130 | the new id and the state after it |
| ToolCallIds.ToolCallIdAllocator.MatchOutputId | codify/antigravity_native_steps.py:132-143 | the oldest pending id, or a new orphan id when none is pending |
| ToolCallIds.PairingIsFirstInFirstOut | codify/antigravity_native_steps.py:116-143 | over every history the claimed ids are the matched ones followed by the pending ones, and no id is claimed twice, matched twice, or both claimed and an orphan's |
| TrajectorySteps.Pending | codify/antigravity_native_steps.py:323-383 | a pending interaction exists exactly for a waiting step with a trajectory and a known request |
| TrajectorySteps.IsTurnCloseStep | codify/antigravity_native_reader.py:565-636 | a turn closes exactly on a failed planner step or a completed one that calls no tool |
| TrajectorySteps.FunctionCallEvents | codify/antigravity_native_steps.py:697-773 | the loop over a planner's calls, with the ids it takes from the allocator |
| TrajectorySteps.MapStepToEvents | codify/antigravity_native_steps.py:876-1083 | the items of a step and the allocator after it |
| TrajectorySteps.MapperSilentUntilSettled | codify/antigravity_native_steps.py:995-1048 | for an unsettled step no items, and the allocator is left alone |
| TrajectorySteps.OneOutputPerTerminalResult | codify/antigravity_native_steps.py:1041-1079 | a terminal tool-result step gives exactly one output, under its own id where it has one; no other step gives any |
| TrajectorySteps.RealIdsBypassAllocator | codify/antigravity_native_steps.py:750-756 | with real ids the mapping does not depend on the allocator |
| TrajectorySteps.OrderIndependentWithRealIds | codify/antigravity_native_steps.py:750-802 | with real ids, mapping the same steps in any order gives the same events |
| MapperItems.PlannerSays | codify/antigravity_native_steps.py:995-1039 | a done planner step says its moderated text if there is any, else its own, and then makes one call for each whole entry in order; a failed one says that it failed; any other nothing |
| MapperItems.UserSays | codify/antigravity_native_steps.py:600-627 | a user input says the response, or the items' texts where that is blank, or nothing, in any status |
| MapperItems.JoinedLeftToRight | codify/antigravity_native_steps.py:618-626 | the items' texts that are not empty, from left to right with line breaks between them |
| MapperItems.ResultSays | codify/antigravity_native_steps.py:1041-1083 | a done or failed result step gives one output with its text, or a note that it failed, or none; every other step gives nothing |
| CallPairing.TrajectoryFollows | codify/antigravity_native_steps.py:697-802 | mapping a trajectory without ids is one allocator history: every call claims, every terminal result matches |
| CallPairing.ResultsCloseCallsInOrder | codify/antigravity_native_steps.py:116-143 | in a trajectory without ids no two calls and no two results share an id, and results close calls in the order the calls were made |
| CommittedChannel.SightingCounts | codify/antigravity_native_reader.py:1428-1453 | a sighting changes anything exactly when it is the first settled one of its step |
| CommittedChannel.OneFoldOverFirstSettled | codify/antigravity_native_reader.py:1394-1496 | items, edges, model changes and totals of any list of sightings are one fold over the first settled sighting of each step |
| CommittedChannel.FirstSettledIsNew | codify/antigravity_native_reader.py:1428-1431 | that fold meets each key once, and only settled steps |
| CommittedChannel.ReReadPostsNothing | codify/antigravity_native_reader.py:1144-1150 | a snapshot read again, by either path, posts and counts nothing |
| CommittedChannel.TotalsAreSums | codify/antigravity_native_reader.py:2101-2143 | over any list of steps the totals are the sums over its completed planner steps, and the totals posted never decrease |
| CommittedChannel.RunTotalsAndModels | codify/antigravity_native_reader.py:1428-1496 | after a whole run the totals are the sums over the distinct completed planner steps sighted, and the model changes posted are those between their distinct user turns |
| CommittedChannel.ModelChangesPostedOnce | codify/antigravity_native_reader.py:2146-2188 | a model change is posted exactly where the models that the user turns ask for change |
| CommittedChannel.ItemsPostedOncePerStep | codify/antigravity_native_reader.py:1428-1439 | a step's items are posted once, as mapped for its first settled sighting, and none for a step that never settles |
| ReaderRuns.OneStepOneKey | codify/antigravity_native_reader.py:542-548 | two sightings are of one step exactly if trajectory and index agree, and without an index the execution too |
| ReaderRuns.StepsPostedWhenOver | codify/antigravity_native_reader.py:1428-1496 | over any sightings a step is remembered exactly if one showed it as a user input, done or failed; the first such sighting posts running edge, mapped items, closing edge, model and totals in this order, and nothing else is posted for the step |
| ReaderRuns.PostedTotalsAreSums | codify/antigravity_native_reader.py:2101-2143 | the k-th totals posted are the sums over the first k steps that report usage, under the reporting model's name |
| ReaderRuns.RunPostsSums | codify/antigravity_native_reader.py:2101-2143 | the same over the sightings of a whole run |
| TurnEdges.EveryRunAlternates | codify/antigravity_native_reader.py:1757-1773 | with the backstop between steps, edges strictly alternate from running on, and a turn is active exactly after a running edge |
| TurnEdges.BackstopKeepsEdges | codify/antigravity_native_reader.py:1002-1017 | the backstop leaves no turn active and keeps the alternation |
| TurnEdges.BackstopInsideEmission | codify/antigravity_native_reader.py:1432-1439 | inside an emission that posts anything the backstop keeps the alternation exactly when no turn was active before the step |
| TurnEdges.BackstopInsideActiveTurn | codify/antigravity_native_reader.py:1432-1439 | otherwise there are two closing edges in a row, or the next turn is never announced |
| TurnEdges.BackstopPostDelayed | codify/antigravity_native_reader.py:1002-1017 | a step emitted between the backstop's clearing of the flag and the arrival of its post breaks the alternation exactly when it opens a turn and its running edge arrives first |
| LiveDeltas.InSyncExactlyWhenGrowing | codify/antigravity_native_reader.py:1645-1668 | the deltas always join up to the text exactly when each text extends the one before |
| LiveDeltas.ShrinkingRewriteRepeats | codify/antigravity_native_reader.py:1649-1668 | a text that shrinks and grows back is posted twice in part |
| LiveDeltas.StartMarkedOnce | codify/antigravity_native_reader.py:1708-1729 | at most the first piece is marked as the start, exactly when the first text is not empty |
| LiveDeltas.EmptyFirstTextLosesTheMark | codify/antigravity_native_reader.py:1708-1729 | an empty first text uses the mark up |
| LiveDeltas.PostedIsOwnPieces | codify/antigravity_native_reader.py:1534-1564 | with the frames of many steps interleaved, what is posted for one since it restarted depends on its own texts only |
| LiveDeltas.GrowingStepIsPostedWhole | codify/antigravity_native_reader.py:1645-1668 | a step whose frames grow is posted whole, whatever comes in between |
| LiveDeltas.ReasoningStartMarkedOnce | codify/antigravity_native_reader.py:1702-1729 | in any interleaving at most one reasoning delta of a step carries the start mark, and it is the first |
| LiveDeltas.DeltasExtend | codify/antigravity_native_reader.py:1645-1668 | for arbitrary frames every delta is not empty and takes the forwarded text to the current one |
| InteractionGates.NextKeepsValid | codify/antigravity_native_reader.py:1833-1957 | every action keeps: one unfinished bridge at most, each key handed over once, withdrawn once and only after that |
| InteractionGates.WithdrawnOnOwnSighting | codify/antigravity_native_reader.py:2002-2011 | a card is withdrawn only on a sighting of its key without a pending interaction, and only while out |
| GateLedger.EveryKeyOnce | codify/antigravity_native_reader.py:1833-1901 | the same over every interleaving from the start of a run |
| GateLedger.NoGateStranded | codify/antigravity_native_reader.py:1833-1957 | in every interleaving each gate turned away has a bridge, a callback or a re-scan ahead of it, or was handed over, seen no longer waiting, or waited for a re-scan that failed its last read |
| GateLedger.TasksComeToRest | codify/antigravity_native_reader.py:1870-1957 | bridges, callbacks and re-scans take a bounded number of steps in any run |
| GateLedger.StandingGatesAllHandedOver | codify/antigravity_native_reader.py:1904-1957 | in any interleaving with sightings, tasks and re-scans, as long as answered re-scans show the standing gates not yet handed over and none fails its last read, all of them are handed over once all is quiet, after at most one completion for each gate ever shown and the running one's |
| GateHistory.HandedOverAndWithdrawnExactly | codify/antigravity_native_reader.py:1833-2011 | in every run a gate is handed over exactly if at some moment no bridge ran and a sighting or an answered re-scan showed it waiting in front of every other gate not yet handed over; its card is withdrawn, under the same ids, exactly if a later sighting of its step showed nothing pending |
| Reader.ReaderState.EmitStep | codify/antigravity_native_reader.py:1732-1773 | the posts of one step in order, the turn flag and the allocator after it |
| Reader.ReaderState.MaybeEmitModelChange | codify/antigravity_native_reader.py:2146-2188 | a changed model is posted under its display name, once |
| Reader.ReaderState.MaybeEmitSessionUsage | codify/antigravity_native_reader.py:2068-2143 | usage is added up and the running totals are posted |
| Reader.ReaderState.CloseTurnIfStranded | codify/antigravity_native_reader.py:1002-1017 | the backstop's effect |
| Reader.ReaderState.MaybeHandleInteraction | codify/antigravity_native_reader.py:1833-1901 | a waiting step is handed over unless it already was or a bridge is running |
| Reader.ReaderState.MaybeWithdrawInteraction | codify/antigravity_native_reader.py:1960-2011 | a surfaced step that no longer waits has its card withdrawn |
| Reader.ReaderState.ClearSlot | codify/antigravity_native_reader.py:1870-1897 | the callback frees its own slot only and schedules the re-scan |
| Reader.ReaderState.ResurfacePendingInteraction | codify/antigravity_native_reader.py:1904-1957 | up to three reads; the first answered one is dispatched step by step |
| Reader.ReScanIsARun | codify/antigravity_native_reader.py:1925-1957 | a re-scan is its reads in order, up to the first answered one or the third failed one, as a run of the gates' state machine |
| Reader.SightingsAreARun | codify/antigravity_native_reader.py:1454-1473 | what the reader's loop does to the gates is one sighting action for each sighting but those of a streamed planner still generating |
| Reader.ReaderState.ProcessCommittedStep | codify/antigravity_native_reader.py:1394-1473 | one sighting's effect on the committed events, the gates and the trackers |
| Reader.ReaderState.EmitPartialDelta | codify/antigravity_native_reader.py:1619-1668 | the delta of grown text, and the tracker re-anchored in any case |
| Reader.ReaderState.EmitPartialReasoningDelta | codify/antigravity_native_reader.py:1671-1729 | the same for reasoning, with the start mark |
| Reader.ReaderState.ProcessStreamStep | codify/antigravity_native_reader.py:1499-1564 | a generating planner step gives deltas and nothing else; any other drops its trackers after being committed |
| Reader.ReaderState.RunBody | codify/antigravity_native_reader.py:1026-1066 | stream, then polls once the stream fails: the session is sent one fold over the first settled sighting of each step, and for each step exactly what its first sighting as a user input, done or failed calls for |
| ElicitationRetry.RoomForSleep | codify/antigravity_native_reader.py:241-244 | the budget has room for exactly 2884 sleeps at best |
| ElicitationRetry.BackoffSchedule | codify/antigravity_native_reader.py:2283-2313 | the sleeps are 1, 2, 4, 8, 16 and from then on 30 seconds |
| ElicitationRetry.PostElicitationRequest | codify/antigravity_native_reader.py:2279-2313 | the loop ends after at most 2885 POSTs, with the first final answer or with none when the budget is spent |
| InteractionBridge.FreshestWaiting | codify/antigravity_native_interactions.py:261-299 | a waiting step of the kind, above the bound, with the highest index, if there is one |
| InteractionBridge.WaitingStepAt | codify/antigravity_native_interactions.py:302-328 | the first step waiting at exactly these ids |
| InteractionBridge.BridgeInteraction | codify/antigravity_native_interactions.py:387-505 | one run is exactly the exchange its rounds call for, whatever the agent and the human do |
| InteractionBridge.BridgeIsExchange | codify/antigravity_native_interactions.py:387-505 | a question is answered exactly if its round gave a verdict and the re-read showed the asked ids or a gate of the kind waiting; an answer is followed by a question, about the highest newer gate of the kind, exactly if the step was not registered, there is such a gate, and retries are left |
| InteractionBridge.QuestionsBounded | codify/antigravity_native_interactions.py:387-505 | at most max_retries questions, each verdict sent follows its own question, at most one is accepted, and it ends the run |
| InteractionBridge.VerdictsFromTheirRounds | codify/antigravity_native_interactions.py:393-466 | each verdict sent is the one given in its round, goes to a step that the round's re-read showed waiting, and counts as accepted exactly if the agent took it |
| InteractionBridge.SurfacedStepsIncrease | codify/antigravity_native_interactions.py:468-499 | against an agent that only opens gates above the old ones and reopens none, the steps asked about strictly increase |
| InteractionBridge.VerdictTarget | codify/antigravity_native_interactions.py:416-419 | a verdict goes to the step asked about or above it exactly when that step still waits or one of its kind at least as high does |
| InteractionBridge.VerdictKind | codify/antigravity_native_interactions.py:320-328 | it goes to a gate of another kind exactly when the step asked about now waits on one |
| InteractionBridge.VerdictCanGoToOlderGate | codify/antigravity_native_interactions.py:417-419 | it can go to an older gate |
| InteractionBridge.VerdictCanCrossKinds | codify/antigravity_native_interactions.py:320-328 | for every question there is a step of the other kind that takes its verdict |
| Rotation.DetectRotatedCascade | codify/antigravity_native_reader.py:439-510 | a used root sibling no other was used more recently than, strictly newer than the bound cascade; none exactly when there is no such sibling |
| Rotation.RebindingDetectsNothing | codify/antigravity_native_reader.py:477-510 | rebinding to the detected cascade on the same map detects nothing more |
| Rotation.WatchForRotation | codify/antigravity_native_reader.py:774-875 | signals at the first tick showing a rotation not to be skipped; runs the backstop at the second idle reading of each stretch |
| Rotation.ClosesExactly | codify/antigravity_native_reader.py:830-863 | the backstop runs at a tick exactly if it and the readable one before found the cascade idle and the one before that did not |
| Rotation.RunReaderWithBridge | codify/antigravity_native_reader.py:2773-2826 | each rebinding is what its run first signals, given the binding and the failures so far; it fails exactly if the bound cascade had turns and its session could not be moved; the first run without a signal is the last |
| Rotation.FailedNeverSignalledAgain | codify/antigravity_native_reader.py:2773-2826 | a cascade whose rotation failed is never signalled again |
| Rotation.UnchangedMapRebindsOnce | codify/antigravity_native_reader.py:2773-2826 | one unchanged map causes at most one re-entry |
| PostDelivery.PostSessionEventWithRetry | codify/_native_post_delivery.py:253-299 | an attempt is followed by another exactly after a retryable status, a failure to connect, or any transport failure of an event that is no item, while attempts are left; what is returned; an item is committed at most once |
| PostDelivery.ItemCommittedAtMostOnce | codify/_native_post_delivery.py:135-162 | the attempts made for an item commit it at most once |
| PostDelivery.OthersCanBeCommittedRepeatedly | codify/_native_post_delivery.py:253-281 | an event that is not an item can be committed once per attempt |
| PostDelivery.EachItemCommittedAtMostOnce | codify/antigravity_native_reader.py:659-690 | over a whole reader run with any failures the server holds at most one copy of each item of each settled step, and nothing for a step that never settles |
| DeadLetters.NewestAreKept | codify/_native_post_delivery.py:88-116 | the entries kept are a suffix of the history, each part below the cap plus one line, and at least the cap's worth once anything was dropped |
| DeadLetters.FilesAreOneContent | codify/_native_post_delivery.py:493-535 | the boundary between the files does not matter to what is replayed, retained or counted |
| DeadLetterRuns.StartupWithinBudget | codify/_native_post_delivery.py:503-519 | replayable is attempted plus deferred, and attempts stay within the budget |
| DeadLetterRuns.StartupKeepsAccount | codify/_native_post_delivery.py:519-533 | one startup keeps every entry's account, and what is gone stays as it is |
| DeadLetterRuns.FilesFollowLedger | codify/_native_post_delivery.py:84-118 | through appends, rotations and startups each file holds exactly the entries of its own slots that are still present, in order |
| DeadLetterRuns.EveryRecordAccountedFor | codify/_native_post_delivery.py:354-375 | over any sequence of appends and startups every entry is still there in order, or was delivered and removed once, or was rotated out, the oldest first; frozen entries are unchanged; none is committed twice |
| DeadLetterDelivery.PostedExactly | codify/_native_post_delivery.py:354-375 | a startup posts an entry exactly if there is room in its budget and the entry is a whole, classified record whose failure was not ambiguous and saw no response or a retryable status |
| DeadLetterDelivery.KeptExactly | codify/_native_post_delivery.py:519-533 | a posted entry is gone if it was delivered, else kept with its classification refreshed; any other is kept as it is |
| DeadLetterDelivery.GivenUpIsPosted | codify/codex_native_forwarder.py:6368-6394 | the record of an item that the delivery loop gave up is posted exactly if the last attempt was no ambiguous failure and no response outside the retry set |
| DeadLetterDelivery.UnclassifiedIsNeverPosted | codify/_native_post_delivery.py:364-365 | a record without a classification is never posted |
| DeadLetterDelivery.ItemCommittedOnceInAll | codify/codex_native_forwarder.py:6277-6304 | an item is committed at most once by its delivery loop and all its replays together, over any sequence of appends and startups |
| DeadLetterLines.ReadInTurn | codify/_native_post_delivery.py:388-399 | two texts one below the other are read one after the other |
| DeadLetterLines.RewritePreserves | codify/_native_post_delivery.py:378-421 | an entry written by itself is read as itself exactly if it is a JSON value or a text that is one line, not blank and not JSON |
| DeadLetterLines.FileRewritePreserves | codify/_native_post_delivery.py:378-421 | a rewritten file is read as the entries it was written from exactly if each of them is such an entry |
| DeadLetterFiles.DeadLetterStore.AppendDeadLetter | codify/_native_post_delivery.py:84-118 | the text of the files after an append, rotated at the cap |
| DeadLetterFiles.DeadLetterStore.ReadDeadLetterEntries | codify/_native_post_delivery.py:378-399 | the loop over a file's lines reads the entries of its text |
| DeadLetterFiles.DeadLetterStore.ReplayFile | codify/_native_post_delivery.py:493-535 | one file's entries replayed in order; it counts as changed exactly when what is retained differs |
| DeadLetterFiles.DeadLetterStore.ReplayDeadLetters | codify/_native_post_delivery.py:424-557 | the text of both files after a startup, and the number replayed |
| DeadLetterFiles.DiskFollowsEntries | codify/_native_post_delivery.py:402-421 | from files that a rewrite preserves, the text of the files is read as the entries say after any sequence of appends and startups |
| DeadLetterFiles.EveryRecordOnDiskAccountedFor | codify/_native_post_delivery.py:354-375 | so the account of every entry holds of the text, and only an append to a full file rotates anything out; the empty disk is such a start |
| DeadLetterFiles.ReadAsAccountedExactlyWhenSafe | codify/_native_post_delivery.py:395-418 | from any files, all startups keep the account exactly if each file has nothing to replay or only entries that a rewrite preserves |
| DeadLetterFiles.QuotedRecordIsPosted | codify/_native_post_delivery.py:395-418 | a line that quotes a record is rewritten as that record at one startup and posted at the next |
| DeadLetterFiles.NewestTextIsKept | codify/_native_post_delivery.py:88-116 | with appends alone the files' text is that of a suffix of the drops, each file below the cap plus one line, the backup at the cap or above |

## Left out

- HTTP, TLS, lsof, pgrep, tmux, process listing and file system calls: their outcomes are arguments of the methods that use them.
- JSON text: parsers and printers are functions the theorems quantify over; SHA-256 elicitation ids are the ids they are computed from.
- Reader.ReaderState.RunBody: the re-entry of a stream that ended cleanly, its backoff and the stop predicate, which only decide how many frames and polls there are.
- Reader.ReaderState: the order of deltas, committed posts and withdrawals relative to one another; each is a sequence of its own.
- Reader.ReaderState.CloseTurnIfStranded: clearing the turn flag and posting the idle edge are one step here; what one step emitted in between does to the edges is TurnEdges.BackstopPostDelayed.
- CommittedChannel.EmitUsage: the model catalog is the one the run's single fetch returned, and a failed fetch is the empty one; totals that are zero are posted as zero, where the source omits them.
- TrajectorySteps.MapStepToEvents: the constant fields of an item (agent label, content type, response id prefix) and the stripping of display-only arguments.
- InteractionGates.Next: cancellation at teardown and its four drain passes; a run of the model ends there. A re-scan that dies of an error it does not catch is not modelled either.
- InteractionBridge.BridgeInteraction: the keys typed into the pane after an accepted verdict, which are best effort and change nothing else.
- Rotation.RunReaderWithBridge: the calls that create and transfer a session are one success or failure; activity timestamps are integers.
- DeadLetters.Replayable: classification fields of a JSON type the writer never writes; a crash between a POST and the rewrite.
- DeadLetterDelivery.ItemCommittedOnceInAll: usage events among the dead letters; one of these may be committed again, which sets the same totals.
- DeadLetterFiles.NextDisk: file operations that fail, and text that is not UTF-8 or cannot be written as it.
- PasteEncoding.PastePayloadBytes: texts with lone surrogates, for which the source raises an error.
- Command line, terminal user interface, screen scraping, authentication, launch arguments, best-of-n runs: single-branch plumbing around the mirror.
