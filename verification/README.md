# Desktop core: verified model

The desktop client of the pilot assessment workbench edits models that a sidecar process owns. This project
models the parts of it on which edits and results depend, and proves what they promise.

**Durable editing.** `AutosaveModel` is a state machine of the autosave coordinator together with the canonical
store, the requests on the wire and a backend that checks expected revisions and keeps one receipt per
transaction. Each critical section is one event; deliveries may be lost, late or repeated, and another client may
move the backend at any time. `AutosaveCoordinator` is the object itself, each method proved to act as the machine.
Retry, reload and reapply are taken only with no attempt in flight, as the save banner offers them
(`src/PilotAssessment.Desktop/Controls/SaveConflictBanner.xaml.cs:19-41`); the machine also shows what goes wrong
otherwise. `AutosavePayloads` traces every request to the edit it carries. `CanonicalObjectStore` is the store shared
by all windows, with its write gate per object.

**The wire.** `JsonLineFramer` frames JSON by line feeds under a size bound; the chunked reader is measured against
cutting the whole stream at once, and `JsonLineEndings` covers CR LF. `JsonRpcClient` correlates requests and responses
under cancellation, failed writes, closure and disposal. Its dictionaries are touched one operation at a time, so its
machine has one event per operation, and the results about atomic cancellations are derived from that.
`JsonRpcSettlements` traces how every request ended to the operation that caused it.

**Views that must agree with a recomputation.** `GraphProjection` draws the model graph and `GraphContents` says what is
drawn, in terms of the snapshot; `LayoutOverlay` proves the drag overlay equal to projecting again; `GraphFamilies`
proves the cycle-tolerant search equal to reachability.

**Editable structures.** `JsonSchemaFormModel` is a set of lenses into one parameter tree, over the pointers of
`JsonPointers`; `JsonSchemaFormEntries` goes from the schema and the text typed to the value stored, and
`JsonSchemaFormReopening` proves that saving and reopening a form changes nothing. `CptRows` numbers the rows of a
probability table and `CptGridModel` edits and validates them. `RecipeEdits`, `EvidenceRecipeEditorModel` and
`EvidenceRecipeEdgeEditor` keep a recipe graph closed, and `RecipeEditEffects` says what each edit changes.

**Canonical forms and registers.** `SourceTree` and `ModelIdentity` are the byte streams hashed for release
identity, and `SourceTreeFormat` reads the first one and its manifest by their format; `RunWorkspaceState` is the run
progress register; `NodeWindowPlacement` restores windows.

`Wrappers`, `Octets`, `Texts`, `Json`, `Delimited`, `Sequences`, `Decimal` and `MachineIntegers` are shared
vocabulary; `ModelContracts` holds the records.

Where a promise does not hold on all inputs, the project states exactly when it does and gives an input that breaks
it:

- A message nested deeper than 128 can be written but not read back.
- A response is not harmless when a cancellation falls between the reader's two look-ups, even if the cancellation
  itself is atomic; nor when the cancellation is half done.
- A request that passed its open check before the connection ended is registered afterwards and never settled by it.
- An object assigned to the canonical store while a save of it is in flight is overwritten unseen by that save.
- A definition that shares its source ID with an earlier one misses what lies behind that one, when its dependencies lead
  back to the ID.
- A value that is no object, under a schema property with properties of its own, is replaced when a form is created.
- A hinted control can accept a value that its property's type excludes, and choosing a number stores its text.
- The 32-bit sums in the paste check and in window placement can wrap, and a window centred far out cannot be restored
  twice.
- A NUL inside a hash column makes the model identity ambiguous, whatever the keys; so does leaving out the counts, for
  two rows or more.  A NUL inside a key does among arbitrary lists of rows; keys of query results are identifiers, which
  hold none (`src/pilot_assessment/contracts/common.py:174-178`).

In places more holds than might be expected: restoring a window is idempotent on overlapping displays too, a line feed
inside a field does not blur the model identity, and a saved form reopens as exactly the form that was left.

## Model

| member | source | states |
|---|---|---|
| JsonLineFramer.Framer.ReadMessages | src/PilotAssessment.Desktop.Core/Protocol/JsonLineFramer.cs:50-95 | a reader starts at most once and never after disposal; its messages and point of failure equal those of cutting the whole stream at line feeds, however the reads split it; the frame buffer never exceeds the limit plus one plus one read buffer |
| JsonLineFramer.ReadFrames | src/PilotAssessment.Desktop.Core/Protocol/JsonLineFramer.cs:50-95 | the read loop: for every split of the stream into reads, the same transcript as the whole stream at once |
| JsonLineFramer.ConsumeBuffer | src/PilotAssessment.Desktop.Core/Protocol/JsonLineFramer.cs:65-87 | the loop over one read buffer: what has been yielded and the frame kept continue the whole-stream transcript for any later bytes, or the stream fails there; the kept frame holds no line feed and is within the limit plus one |
| JsonLineFramer.OverlongFrameFails | src/PilotAssessment.Desktop.Core/Protocol/JsonLineFramer.cs:145-153 | a frame beyond the limit plus one can be refused before its end is seen: whatever follows, the whole stream fails there too |
| JsonLineFramer.CutAtLineFeed | src/PilotAssessment.Desktop.Core/Protocol/JsonLineFramer.cs:50-95 | bytes after a line feed never change what was yielded, or how it failed, before it |
| JsonLineFramer.ValidateNoDuplicateMembers | src/PilotAssessment.Desktop.Core/Protocol/JsonLineFramer.cs:199-222 | the set-filling recursion reports the first repeated member name in document order |
| JsonLineFramer.DuplicateCheckIsExact | src/PilotAssessment.Desktop.Core/Protocol/JsonLineFramer.cs:199-222 | nothing is reported exactly when all objects at every depth have distinct names (section 4 of RFC 8259) |
| JsonLineFramer.Framer.Write | src/PilotAssessment.Desktop.Core/Protocol/JsonLineFramer.cs:97-133 | a refused message leaves the output alone; an accepted one appends its text and one line feed |
| JsonLineFramer.ReadBack | src/PilotAssessment.Desktop.Core/Protocol/JsonLineFramer.cs:97-197 | under a text layer that is lawful for the messages sent, they are read back up to the first one nested deeper than 128, which is malformed to the reader |
| JsonLineFramer.SomeCodecIsLawful | src/PilotAssessment.Desktop.Core/Protocol/JsonLineFramer.cs:97-197 | for any messages there is such a text layer, and with unique names and a sufficient limit all of them can be sent |
| JsonLineFramer.RoundTrip | src/PilotAssessment.Desktop.Core/Protocol/JsonLineFramer.cs:97-197 | writing then reading gives the same sequence, if and only if no message is nested deeper than 128 |
| JsonLineFramer.TooDeepIsNotReadBack | src/PilotAssessment.Desktop.Core/Protocol/JsonLineFramer.cs:97-197 | a message of depth 129 is written under any lawful text layer and comes back as malformed |
| JsonLineFramer.WriteThenRead | src/PilotAssessment.Desktop.Core/Protocol/JsonLineFramer.cs:50-133 | a batch written on one framer and delivered in any chunks is read by another as the same batch |
| JsonLineFramer.BothSidesRefuseTheSame | src/PilotAssessment.Desktop.Core/Protocol/JsonLineFramer.cs:97-222 | the duplicate check refuses the same messages when writing and when reading, for the same reason |
| JsonLineEndings.FrameMeansItsText | src/PilotAssessment.Desktop.Core/Protocol/JsonLineFramer.cs:155-197 | a frame is its text with or without one carriage return behind it, and only one is taken; the message is the object the text parses to, with distinct names and within the limit, or the refusal says which of these fails, a repeated name being one |
| JsonLineEndings.LinesAreRead | src/PilotAssessment.Desktop.Core/Protocol/JsonLineFramer.cs:50-95 | lines ended by CR LF or LF, in any mixture, are read as their texts in order up to the first bad one, and what follows them as if they were not there |
| JsonLineEndings.ReadsDeliver | src/PilotAssessment.Desktop.Core/Protocol/JsonLineFramer.cs:65-74 | reads deliver their bytes in order, and an empty read ends the stream |
| JsonLineEndings.EndingsDoNotMatter | src/PilotAssessment.Desktop.Core/Protocol/JsonLineFramer.cs:155-164 | so any two choices of line endings give the same transcript |
| JsonLineEndings.RoundTripUnderAnyEndings | src/PilotAssessment.Desktop.Core/Protocol/JsonLineFramer.cs:97-197 | messages whose lines are ended by CR LF or LF at will are read back as the same sequence, if and only if none is nested deeper than 128 |
| JsonLineEndings.LimitIsOfTheText | src/PilotAssessment.Desktop.Core/Protocol/JsonLineFramer.cs:145-170 | a text of exactly the limit fits with CR LF behind it, one byte more does not |
| JsonRpcClient.ClassifiesExactly | src/PilotAssessment.Desktop.Core/Protocol/JsonRpcClient.cs:213-242 | a message is taken as a response exactly when it says what some server's reply says (section 5 of JSON-RPC 2.0): order and further members make no difference, the identifier must not be blank and the code must fit 32 bits |
| JsonRpcClient.RepliesAreReceived | src/PilotAssessment.Desktop.Core/Protocol/JsonRpcClient.cs:213-242 | a reply is received as it was sent |
| JsonRpcClient.AddressesExactly | src/PilotAssessment.Desktop.Core/Protocol/JsonRpcClient.cs:185-201 | a message answers a request at all exactly when it agrees with a reply in version and identifier |
| JsonRpcClient.NotifiesExactly | src/PilotAssessment.Desktop.Core/Protocol/JsonRpcClient.cs:245-258 | a message is taken as a notification exactly when it agrees with one (section 4.1 of JSON-RPC 2.0) under a name that is not blank |
| JsonRpcClient.HandledExactly | src/PilotAssessment.Desktop.Core/Protocol/JsonRpcClient.cs:176-243 | what one message does, by what it says: a notification nothing, a late response takes its cancellation mark away, an answer completes its own request with what it carries, anything else fails all that is pending and ends the connection |
| JsonRpcClient.StepAccounts | src/PilotAssessment.Desktop.Core/Protocol/JsonRpcClient.cs:84-346 | every single operation keeps the accounts, changes no settlement, and, if it ends the connection, settles everything pending at that moment |
| JsonRpcClient.RunAccounts | src/PilotAssessment.Desktop.Core/Protocol/JsonRpcClient.cs:84-346 | over every interleaving: accounts balance and a settlement is never replaced |
| JsonRpcClient.EveryRequestIsAccountedFor | src/PilotAssessment.Desktop.Core/Protocol/JsonRpcClient.cs:278-346 | the issued identifiers are the disjoint union of pending, half-cancelled and settled; pending and recorded-cancelled never overlap |
| JsonRpcClient.AnswersAreTheirOwn | src/PilotAssessment.Desktop.Core/Protocol/JsonRpcClient.cs:194-323 | over every run: what completes a request is a well-formed response that arrived under its own identifier |
| JsonRpcSettlements.SettledExactly | src/PilotAssessment.Desktop.Core/Protocol/JsonRpcClient.cs:84-346 | over every run, a request ended in a way exactly when some operation was the cause: the completion of the response found for it while pending, a recorded cancellation, a failed write or the end of the stream while pending, a fault or the disposal while pending |
| JsonRpcSettlements.CompletedExactly | src/PilotAssessment.Desktop.Core/Protocol/JsonRpcClient.cs:194-300 | a caller gets an answer exactly when it was in the last message received before some completion, under its identifier, while the request was pending |
| JsonRpcSettlements.CancelledExactly | src/PilotAssessment.Desktop.Core/Protocol/JsonRpcClient.cs:278-285 | a caller sees a cancellation exactly when the run recorded it |
| JsonRpcSettlements.NotReceivedOnlyWhenLost | src/PilotAssessment.Desktop.Core/Protocol/JsonRpcClient.cs:111-163 | a caller sees a missing response only after its write failed or the stream ended |
| JsonRpcSettlements.MarksExactly | src/PilotAssessment.Desktop.Core/Protocol/JsonRpcClient.cs:194-300 | the mark of a cancellation is set when it is recorded and stays until the response it waits for |
| JsonRpcSettlements.EntrantsAreCounted | src/PilotAssessment.Desktop.Core/Protocol/JsonRpcClient.cs:71-88 | over every run, registrations are the entered invocations less those still entering, and identifiers count them |
| JsonRpcClient.EndSettlesUnlessOneIsEntering | src/PilotAssessment.Desktop.Core/Protocol/JsonRpcClient.cs:71-346 | every end of the connection, by closure, fault, bad message or disposal, leaves nothing pending over every run that follows, if and only if no invocation stood between its open check and its registration |
| JsonRpcClient.ClosedStaysDrained | src/PilotAssessment.Desktop.Core/Protocol/JsonRpcClient.cs:151-174 | once closed with nobody entering, no run issues or leaves pending any request |
| JsonRpcClient.OnlyOverlapsFault | src/PilotAssessment.Desktop.Core/Protocol/JsonRpcClient.cs:194-323 | against a lawful server, the read loop is faulted or bound to fault exactly when a cancellation overlapped the handling of its own response |
| JsonRpcClient.LateResponsesFaultExactlyOnOverlap | src/PilotAssessment.Desktop.Core/Protocol/JsonRpcClient.cs:194-323 | so from a fresh client the reader has faulted, or faults at the look-up it is about to make, exactly when there was an overlap |
| JsonRpcClient.UninterruptedNeverOverlaps | src/PilotAssessment.Desktop.Core/Protocol/JsonRpcClient.cs:203-210 | runs that do not interrupt the removal and recording of a cancellation, nor the two look-ups of a response, contain no overlap |
| JsonRpcClient.LateResponsesAreHarmless | src/PilotAssessment.Desktop.Core/Protocol/JsonRpcClient.cs:194-323 | so in all those runs the read loop never faults, wherever cancellations fall |
| JsonRpcClient.CancellationBetweenLookUpsFaults | src/PilotAssessment.Desktop.Core/Protocol/JsonRpcClient.cs:203-211 | making only CancelPending atomic is not enough: a concrete run in which the cancellation falls between the two look-ups faults the connection |
| JsonRpcClient.JsonRpcClient.Register | src/PilotAssessment.Desktop.Core/Protocol/JsonRpcClient.cs:84-89 | issues the next identifier with a fresh pending request |
| JsonRpcClient.JsonRpcClient.Invoke | src/PilotAssessment.Desktop.Core/Protocol/JsonRpcClient.cs:66-106 | refuses in the order of the checks, or registers the next identifier and builds the request message with that identifier, the method and the params (section 4 of JSON-RPC 2.0) |
| JsonRpcClient.JsonRpcClient.CancelPending | src/PilotAssessment.Desktop.Core/Protocol/JsonRpcClient.cs:278-285 | removes, records and settles a pending request as cancelled, or does nothing |
| JsonRpcClient.JsonRpcClient.OnWriteFailed | src/PilotAssessment.Desktop.Core/Protocol/JsonRpcClient.cs:111-120 | a failed write settles the request, if still pending, as not answered |
| JsonRpcClient.JsonRpcClient.FailAllPending | src/PilotAssessment.Desktop.Core/Protocol/JsonRpcClient.cs:325-346 | the sweep over a snapshot settles every pending request and no other |
| JsonRpcClient.JsonRpcClient.HandleMessage | src/PilotAssessment.Desktop.Core/Protocol/JsonRpcClient.cs:176-276 | one inbound message: an answer to a pending request completes that request with the result or error it carries and no other; exactly notifications are raised, with their name and params; the client moves as the machine's steps do, with the accounts balanced |
| JsonRpcClient.JsonRpcClient.OnStreamClosed | src/PilotAssessment.Desktop.Core/Protocol/JsonRpcClient.cs:151-163 | the end of the stream stops new requests and settles the pending ones as not answered |
| JsonRpcClient.JsonRpcClient.Dispose | src/PilotAssessment.Desktop.Core/Protocol/JsonRpcClient.cs:125-134 | disposal stops new requests and fails the pending ones, once |
| IdempotentRequestRetry.ExecuteAsync | src/PilotAssessment.Desktop.Core/Protocol/JsonRpcClient.cs:387-415 | a blank ID or fewer than one attempt is refused; otherwise at most maxAttempts sends, all with the caller's ID, none after cancellation, only lost responses tried again, and each ending is the one the tries say |
| IdempotentRequestRetry.ResendingAppliesOnce | src/PilotAssessment.Desktop.Core/Protocol/JsonRpcClient.cs:387-415 | however many of the resends arrive, a receipt-keeping backend ends where the first one left it |
| AutosaveModel.RunKeeps | src/PilotAssessment.Desktop.Core/State/AutosaveCoordinator.cs:119-433 | every run of edits, attempts, failures, cancellations, retries, reloads and reapplies keeps both invariants |
| AutosaveModel.HistoryIsTheRun | src/PilotAssessment.Desktop.Core/State/AutosaveCoordinator.cs:119-146 | generation counts the queued edits, and the newest is the last of them |
| AutosaveModel.NewestEditIsNeverForgotten | src/PilotAssessment.Desktop.Core/State/AutosaveCoordinator.cs:119-433 | in every reachable state the draft slot is the last queued draft, or empty because that generation was committed or reloaded away or nothing was queued; pending implies a draft, Saved implies none |
| AutosaveModel.EachTransactionOnce | src/PilotAssessment.Desktop.Core/State/AutosaveCoordinator.cs:318-359 | each transaction ID is sent with one payload only and applied at most once, with that payload; published commits are applied and strictly increasing in generation |
| AutosavePayloads.SentIsRebased | src/PilotAssessment.Desktop.Core/State/AutosaveCoordinator.cs:343-359 | in every reachable state, the first request of an attempt carries the queued draft of its generation, rebased on the canonical object then in the store if there is one; nothing is sent when rebasing throws; every later request repeats the first |
| AutosavePayloads.EveryPayloadIsRebased | src/PilotAssessment.Desktop.Core/State/AutosaveCoordinator.cs:343-359 | every request of every run was put together so at one moment of the run |
| AutosavePayloads.PhaseNeverLies | src/PilotAssessment.Desktop.Core/State/AutosaveCoordinator.cs:119-433 | over every run the phase shown offers a retry or a conflict only with that attempt parked, and Saved only with nothing unsaved |
| AutosavePayloads.FailureIsAnnounced | src/PilotAssessment.Desktop.Core/State/AutosaveCoordinator.cs:395-433 | each failure kind is announced as its own phase and parks the attempt in its own slot |
| AutosaveModel.IdleMeansCommitted | src/PilotAssessment.Desktop.Core/State/AutosaveCoordinator.cs:300-335 | with nothing parked, blocked, cancelled or in flight and nothing to take, the newest generation is committed or was reloaded away |
| AutosaveModel.RedeliveryIsIdle | src/PilotAssessment.Desktop.Core/Contracts/ProjectSessionContracts.cs:116-125 | delivering a request again changes no backend that keeps receipts |
| AutosaveModel.RetryReplays | src/PilotAssessment.Desktop.Core/State/AutosaveCoordinator.cs:183-197 | retrying an attempt the backend had already applied replays its receipt, does not move the backend, and publishes the original commit |
| AutosaveModel.RetryAndConflictTogether | src/PilotAssessment.Desktop.Core/State/AutosaveCoordinator.cs:405-428 | a retry that meets a conflict leaves both slots filled |
| AutosaveModel.ReloadDuringSaveResurrects | src/PilotAssessment.Desktop.Core/State/AutosaveCoordinator.cs:199-212 | without the banner's guard, a reload during a save is undone by that save's failure |
| AutosaveModel.ThrowingSubscriberParksACommit | src/PilotAssessment.Desktop.Core/State/AutosaveCoordinator.cs:381-405 | a subscriber that throws at the announcement has a committed attempt parked for retry |
| AutosaveCoordinator.Coordinator.Queue | src/PilotAssessment.Desktop.Core/State/AutosaveCoordinator.cs:119-153 | a new draft takes the slot under the next generation, unless disposed |
| AutosaveCoordinator.Coordinator.Dispose | src/PilotAssessment.Desktop.Core/State/AutosaveCoordinator.cs:238-253 | disposal acts once, and no edit is accepted after it |
| AutosaveCoordinator.Coordinator.Stop | src/PilotAssessment.Desktop.Core/State/AutosaveCoordinator.cs:262-268 | at the end of disposal the phase is Stopped and nothing else changes |
| AutosaveCoordinator.Coordinator.TakeAttempt | src/PilotAssessment.Desktop.Core/State/AutosaveCoordinator.cs:308-323 | an attempt is taken exactly when something is pending and nothing is parked |
| AutosaveCoordinator.Coordinator.PrepareAndSend | src/PilotAssessment.Desktop.Core/State/AutosaveCoordinator.cs:343-359 | an attempt not prepared yet is sent as typed when there is no canonical object and rebased on it otherwise, nothing if that throws; what was sent is kept and sent again |
| AutosaveCoordinator.Coordinator.OnSaved | src/PilotAssessment.Desktop.Core/State/AutosaveCoordinator.cs:361-391 | a response clears the slots and either empties the draft or keeps the newer one, and publishes the commit unless rebasing throws |
| AutosaveCoordinator.Coordinator.OnFailed | src/PilotAssessment.Desktop.Core/State/AutosaveCoordinator.cs:395-433 | the three failure kinds park, conflict or block, each under its own phase, keeping the newest draft |
| AutosaveCoordinator.Coordinator.OnCancelled | src/PilotAssessment.Desktop.Core/State/AutosaveCoordinator.cs:389-392 | a cancelled save keeps the draft and pends nothing |
| AutosaveCoordinator.Coordinator.BeginRetry | src/PilotAssessment.Desktop.Core/State/AutosaveCoordinator.cs:183-197 | a retry takes the parked attempt itself |
| AutosaveCoordinator.Coordinator.ReloadConflict | src/PilotAssessment.Desktop.Core/State/AutosaveCoordinator.cs:199-212 | a reload drops draft and slots |
| AutosaveCoordinator.Coordinator.ReapplyConflict | src/PilotAssessment.Desktop.Core/State/AutosaveCoordinator.cs:214-236 | a reapply pends the newest draft, or the conflicting one, and clears the slots |
| AutosaveCoordinator.Coordinator.Drain | src/PilotAssessment.Desktop.Core/State/AutosaveCoordinator.cs:300-335 | the loop against any script of saves: commits strictly increase and each saves the edit of its own generation; the generation counts the edits of the saves that ran; a drain that ends drained has committed the newest of them, and any other end keeps the newest in the draft slot |
| AutosaveCoordinator.Coordinator.ExecuteAttempt | src/PilotAssessment.Desktop.Core/State/AutosaveCoordinator.cs:337-433 | one attempt, new or retried, with or without newer edits pending or arriving, ends saved, parked or interrupted as its save does, with the slots as its failure says; unless it saved the newest edit, that edit is in the draft slot |
| AutosaveCoordinator.Coordinator.Retry | src/PilotAssessment.Desktop.Core/State/AutosaveCoordinator.cs:183-197 | the parked attempt again and then a drain: the first commit is the retried generation and draft, later ones rise and save the edits of their own generations; the newest edit is saved by the last commit or kept in the draft slot, and a conflict leaves both slots holding the attempt |
| CanonicalObjectStore.KeysAreIndependent | src/PilotAssessment.Desktop.Core/State/CanonicalObjectStore.cs:31-50 | an entry evolves by the events on its own key only |
| CanonicalObjectStore.RunSerializes | src/PilotAssessment.Desktop.Core/State/CanonicalObjectStore.cs:31-50 | every run of one entry keeps its saves serial |
| CanonicalObjectStore.SavesAreSerialized | src/PilotAssessment.Desktop.Core/State/CanonicalObjectStore.cs:31-50 | over every run, each save was handed the latest object of its start and no other save of that key wrote before it did; a save right after a save saw its result |
| CanonicalObjectStore.OnlyAssignmentsAreOverwrittenUnseen | src/PilotAssessment.Desktop.Core/State/CanonicalObjectStore.cs:11-16 | a save overwrites what it did not see exactly when a different object was assigned while it ran |
| CanonicalObjectStore.AssignmentDuringASaveIsLost | src/PilotAssessment.Desktop.Core/State/CanonicalObjectStore.cs:11-16 | and such an assignment, which takes no gate, is lost |
| CanonicalObjectStore.CanonicalObjectStore.Set | src/PilotAssessment.Desktop.Core/State/CanonicalObjectStore.cs:11-16 | assigns without the gate, refusing a blank key |
| CanonicalObjectStore.CanonicalObjectStore.TryGet | src/PilotAssessment.Desktop.Core/State/CanonicalObjectStore.cs:18-29 | a blank key is refused; otherwise the object last written under the key by an assignment or a save, none exactly when there was none |
| CanonicalObjectStore.CanonicalObjectStore.BeginSave | src/PilotAssessment.Desktop.Core/State/CanonicalObjectStore.cs:36-42 | takes the key's gate when it is free and hands out the object last written |
| CanonicalObjectStore.CanonicalObjectStore.EndSave | src/PilotAssessment.Desktop.Core/State/CanonicalObjectStore.cs:42-49 | keeps the result of a save that has one and releases the gate either way |
| ModelNodeDraftRebaser.RebaseIsTheMerge | src/PilotAssessment.Desktop.Core/State/ModelNodeDraftRebaser.cs:7-51 | the rebased node is the only one with the draft's editable fields and the canonical node's other fields |
| ModelNodeDraftRebaser.RebaseAbsorbs | src/PilotAssessment.Desktop.Core/State/ModelNodeDraftRebaser.cs:7-51 | rebasing over several canonical versions is rebasing over the last; a node rebased on itself is unchanged |
| GraphFamilies.ResolveFamiliesInPlace | src/PilotAssessment.Desktop.Core/State/GraphProjection.cs:444-492 | the mutating search ends on every graph, cyclic or not, returns what the recursive definition says, and restores the path set |
| GraphFamilies.SearchFollowsPaths | src/PilotAssessment.Desktop.Core/State/GraphProjection.cs:444-468 | a family is found exactly when a path that avoids the visited sources leads to a source that has it |
| GraphFamilies.IndexFindsFirst | src/PilotAssessment.Desktop.Core/State/GraphProjection.cs:425-442 | the index holds the first definition of each source ID |
| GraphFamilies.FoundExactly | src/PilotAssessment.Desktop.Core/State/GraphProjection.cs:444-468 | from any definition, indexed or not, the search finds its own families and those on dependency paths that do not pass its ID |
| GraphFamilies.FamiliesAreReachable | src/PilotAssessment.Desktop.Core/State/GraphProjection.cs:425-468 | for every raw node and every dependency graph, the families found are those reached if and only if its dependencies do not lead back to its ID, or whatever the definition indexed there reaches is the node's own or lies on a path that does not pass the ID; so always for the first node of its ID |
| GraphFamilies.SharedIdHidesFamilies | src/PilotAssessment.Desktop.Core/State/GraphProjection.cs:425-442 | with a shared source ID the second definition can miss a reached family |
| GraphContents.DirectFamiliesExactly | src/PilotAssessment.Desktop.Core/State/GraphProjection.cs:470-492 | what a definition says of itself: its family, the pilot camera counting as visual, and the family of its modality |
| GraphContents.ProjectsExactly | src/PilotAssessment.Desktop.Core/State/GraphProjection.cs:173-219 | there is a projection exactly when no ID repeats among the overriding layouts, the shown nodes, and the raw nodes |
| GraphContents.NodesAreTheShown | src/PilotAssessment.Desktop.Core/State/GraphProjection.cs:192-324 | the drawn nodes are exactly those the view mode and every filter let through, by ID |
| GraphContents.NodesAreDrawnAs | src/PilotAssessment.Desktop.Core/State/GraphProjection.cs:187-218 | each node is drawn at its overriding or own layout, in the lane of its kind, moved by the least shift that keeps every node within the padding, with the marks of its node |
| GraphContents.EdgesAreDrawn | src/PilotAssessment.Desktop.Core/State/GraphProjection.cs:219-228 | the drawn edges are the edges with both ends drawn, each as often as there, by ID, from parent to child, active exactly with both ends |
| GraphContents.ProvenanceIsDrawn | src/PilotAssessment.Desktop.Core/State/GraphProjection.cs:230-250 | a provenance link joins a family and a raw node exactly when both are drawn and the node reaches the family |
| GraphContents.FamiliesAreDrawn | src/PilotAssessment.Desktop.Core/State/GraphProjection.cs:385-423 | five families in fixed order, where the scheme puts them or below each other, each with the number of its drawn members, unless a layer of nodes is asked for |
| GraphContents.CanvasFits | src/PilotAssessment.Desktop.Core/State/GraphProjection.cs:252-264 | the extents are the least, from the minimum on, that leave the padding beyond every circle |
| LayoutOverlay.ProjectionIsLinked | src/PilotAssessment.Desktop.Core/State/GraphProjection.cs:173-271 | every link of a projection joins nodes and families of that projection, whose IDs do not repeat |
| LayoutOverlay.OverlayReassembles | src/PilotAssessment.Desktop/ViewModels/ModelStudioViewModel.cs:931-994 | overlaying pending layouts is assembling the same graph from the moved nodes and families |
| LayoutOverlay.MovedNodes | src/PilotAssessment.Desktop/ViewModels/ModelStudioViewModel.cs:931-994 | the moved nodes are the reprojected ones if and only if both projections shift by the same offsets, or none is drawn |
| LayoutOverlay.OverlayIsReprojection | src/PilotAssessment.Desktop/ViewModels/ModelStudioViewModel.cs:931-994 | the overlay equals the full projection with the layouts merged in (nodes, edges, families, provenance, extents) if and only if the offsets agree or no node is drawn |
| LayoutOverlay.DragKeepsOffsets | src/PilotAssessment.Desktop.Core/State/GraphProjection.cs:198-205 | layouts below the padding leave unshifted offsets at zero |
| LayoutOverlay.DragWithinPadding | src/PilotAssessment.Desktop/ViewModels/ModelStudioViewModel.cs:609-639 | so such drags on an unshifted graph are drawn exactly as a full projection |
| LayoutOverlay.DropMovesOneNode | src/PilotAssessment.Desktop/ViewModels/ModelStudioViewModel.cs:609-621 | a drop draws the node where it was dropped, up to the radius bound, and moves no other |
| LayoutOverlay.DropMovesOneFamily | src/PilotAssessment.Desktop/ViewModels/ModelStudioViewModel.cs:623-639 | a drop draws the family where it was dropped, up to the radius bound, and moves no other family or node |
| LayoutOverlay.ModelStudioViewModel.Reproject | src/PilotAssessment.Desktop/ViewModels/ModelStudioViewModel.cs:1160-1185 | what is shown is the overlay of the pending layouts |
| LayoutOverlay.ModelStudioViewModel.QueueLayoutUpdate | src/PilotAssessment.Desktop/ViewModels/ModelStudioViewModel.cs:609-621 | queues the node's layout and keeps the shown graph the overlay |
| LayoutOverlay.ModelStudioViewModel.QueueRawInputFamilyLayoutUpdate | src/PilotAssessment.Desktop/ViewModels/ModelStudioViewModel.cs:623-639 | queues the family's layout and keeps the shown graph the overlay |
| JsonPointers.UnescapeEscape | src/PilotAssessment.Desktop.Core/State/JsonSchemaFormModel.cs:409-411 | unescaping inverts escaping and an escaped segment has no slash (section 4 of RFC 6901) |
| JsonPointers.ParsePointer | src/PilotAssessment.Desktop.Core/State/JsonSchemaFormModel.cs:381-411 | a printed path parses back to itself |
| JsonPointers.GetAfterSet | src/PilotAssessment.Desktop.Core/State/JsonSchemaFormModel.cs:381-403 | a written value is read back at its pointer and below |
| JsonPointers.SetFrame | src/PilotAssessment.Desktop.Core/State/JsonSchemaFormModel.cs:381-403 | writing is seen at no pointer that is neither above nor below |
| JsonSchemaFormModel.BuildLevel | src/PilotAssessment.Desktop.Core/State/JsonSchemaFormModel.cs:127-203 | the two loops of one level, recursing into nested levels, build the tree and the fields the definition says |
| JsonSchemaFormModel.BuildWell | src/PilotAssessment.Desktop.Core/State/JsonSchemaFormModel.cs:127-203 | every built field shows the tree's value and the given one, and no path is a prefix of another |
| JsonSchemaFormModel.CreateIsLens | src/PilotAssessment.Desktop.Core/State/JsonSchemaFormModel.cs:52-72 | a new form is a lens: each field shows its location, paths are prefix-free, read-only means unsupported |
| JsonSchemaFormModel.AcceptedValuesFit | src/PilotAssessment.Desktop.Core/State/JsonSchemaFormModel.cs:205-301 | an accepted value satisfies the property's type, enum, minimum and maximum exactly when the control suits the type and a chosen text is itself one of the enumerated values |
| JsonSchemaFormModel.UnhintedValuesFit | src/PilotAssessment.Desktop.Core/State/JsonSchemaFormModel.cs:303-344 | without a hint and with only strings to choose from, whatever is accepted satisfies the schema |
| JsonSchemaFormModel.SliderTakesFractions | src/PilotAssessment.Desktop.Core/State/JsonSchemaFormModel.cs:316-330 | a slider over an integer property accepts a fraction |
| JsonSchemaFormModel.ChosenNumberBecomesText | src/PilotAssessment.Desktop.Core/State/JsonSchemaFormModel.cs:261-266 | choosing one of several numbers stores its text |
| JsonSchemaFormModel.AcceptedExactly | src/PilotAssessment.Desktop.Core/State/JsonSchemaFormModel.cs:205-301 | a text is accepted as a value exactly when it stands for that value in the field's kind and the field's bounds or choices permit it |
| JsonSchemaFormModel.EditHolds | src/PilotAssessment.Desktop.Core/State/JsonSchemaFormModel.cs:74-99 | after an edit the field and the tree hold what the text stands for, or no field there takes the text for any value |
| JsonSchemaFormEntries.HintsDecide | src/PilotAssessment.Desktop.Core/State/JsonSchemaFormModel.cs:303-334 | a hinted control decides the kind of a plain property, except that a selection needs an enumeration |
| JsonSchemaFormEntries.DescribedOffered | src/PilotAssessment.Desktop.Core/State/JsonSchemaFormModel.cs:127-178 | every described property, at any depth, has a field with the kind, bounds, choices, group and requiredness its schema and hint say |
| JsonSchemaFormEntries.NoOtherFields | src/PilotAssessment.Desktop.Core/State/JsonSchemaFormModel.cs:127-203 | every field is that of a described property or of a member that is not described |
| JsonSchemaFormEntries.CreatesExactly | src/PilotAssessment.Desktop.Core/State/JsonSchemaFormModel.cs:127-178 | a form is created exactly when every level's required names are names and every description is a text or replaced by a hint |
| JsonSchemaFormEntries.EntryIsStoredExactly | src/PilotAssessment.Desktop.Core/State/JsonSchemaFormModel.cs:74-105 | after any edits, a text typed into a plain property without a hint is accepted as a value exactly when it spells that value in the schema's type and the value conforms to the schema, and that value is handed back at the property's path |
| JsonSchemaFormModel.EditedTree | src/PilotAssessment.Desktop.Core/State/JsonSchemaFormModel.cs:74-99 | a successful edit is seen at its path and below and nowhere else |
| JsonSchemaFormModel.EditedFields | src/PilotAssessment.Desktop.Core/State/JsonSchemaFormModel.cs:74-99 | an edit changes the value of the one field found by its path, never a read-only one, or nothing |
| JsonSchemaFormModel.EditKeepsLens | src/PilotAssessment.Desktop.Core/State/JsonSchemaFormModel.cs:74-99 | every edit keeps the lens |
| JsonSchemaFormModel.EditsKeepReadOnly | src/PilotAssessment.Desktop.Core/State/JsonSchemaFormModel.cs:74-99 | over any sequence of edits the lens holds, only values change, and read-only fields do not |
| JsonSchemaFormModel.UndeclaredListed | src/PilotAssessment.Desktop.Core/State/JsonSchemaFormModel.cs:180-203 | every present member the schema does not describe is listed read-only |
| JsonSchemaFormModel.UndeclaredSurvives | src/PilotAssessment.Desktop.Core/State/JsonSchemaFormModel.cs:101-105 | whatever is edited, read-only and undeclared values are handed back as given |
| JsonSchemaFormModel.CreationKeepsExactly | src/PilotAssessment.Desktop.Core/State/JsonSchemaFormModel.cs:148-159 | creation keeps the given parameters if and only if every property that is a level of the tree holds an object, at every depth |
| JsonSchemaFormModel.EmptyParametersAreFilled | src/PilotAssessment.Desktop.Core/State/JsonSchemaFormModel.cs:148-159 | a concrete schema for which empty parameters gain a member |
| JsonSchemaFormModel.ContainersBecomeObjects | src/PilotAssessment.Desktop.Core/State/JsonSchemaFormModel.cs:148-159 | a value that is no object, under such a property, is replaced by one |
| JsonSchemaFormReopening.CreatedReopens | src/PilotAssessment.Desktop.Core/State/JsonSchemaFormModel.cs:52-72 | creating a form from a new form's own parameters gives that form |
| JsonSchemaFormReopening.ReopensAsSaved | src/PilotAssessment.Desktop.Core/State/JsonSchemaFormModel.cs:52-105 | whatever is edited, the form created from the parameters handed back is the edited form: the same fields, order, values and tree |
| JsonSchemaFormModel.FormModel.TrySetValue | src/PilotAssessment.Desktop.Core/State/JsonSchemaFormModel.cs:74-99 | one more edit: on success the field and the tree hold what the text stands for; otherwise nothing changes and no field there takes the text; the lens is kept |
| JsonSchemaFormModel.FormModel.Create | src/PilotAssessment.Desktop.Core/State/JsonSchemaFormModel.cs:52-72 | a form over a copy of the parameters, or none when reading the schema throws |
| JsonSchemaFormModel.FormModel.BuildParameters | src/PilotAssessment.Desktop.Core/State/JsonSchemaFormModel.cs:101-105 | hands back the tree after all edits, holding what each field shows, and what was given at every read-only field and undescribed member |
| CptRows.CountRows | src/PilotAssessment.Desktop/ViewModels/BnNodeEditorViewModel.cs:813-817 | the checked fold fails exactly when some prefix product exceeds 32 bits, and otherwise is the product |
| CptRows.EditorFrom | src/PilotAssessment.Desktop/ViewModels/BnNodeEditorViewModel.cs:813-827 | row and cell counts, or overflow |
| CptRows.PrefixProducts | src/PilotAssessment.Desktop/ViewModels/BnNodeEditorViewModel.cs:813-817 | with states on every axis the fold overflows only if the row count does |
| CptRows.ParentAssignment | src/PilotAssessment.Desktop.Core/State/CptGridModel.cs:70-95 | out of range, an axis without states, or the loop's assignment |
| CptRows.AssignmentNamesPositions | src/PilotAssessment.Desktop.Core/State/CptGridModel.cs:87-93 | each parent is assigned the state at its position |
| CptRows.RowRoundTrip | src/PilotAssessment.Desktop.Core/State/CptGridModel.cs:70-95 | every row is the row of its own combination |
| CptRows.CombinationRoundTrip | src/PilotAssessment.Desktop.Core/State/CptGridModel.cs:70-95 | every combination of positions has a row below the row count, whose combination it is |
| CptRows.RowsAreLexicographic | src/PilotAssessment.Desktop.Core/State/CptGridModel.cs:70-95 | row order is lexicographic order of combinations, the last parent fastest |
| CptGridModel.AcceptsExactlyDistributions | src/PilotAssessment.Desktop.Core/State/CptGridModel.cs:159-223 | no diagnostic is raised exactly for full-shape grids whose cells are in range and whose rows sum to one within the tolerance |
| CptGridModel.DiagnosticsPinpoint | src/PilotAssessment.Desktop.Core/State/CptGridModel.cs:183-205 | the cell diagnostics name exactly the missing and out-of-range cells of rows of the right width |
| CptGridModel.RowDiagnosticsAreExact | src/PilotAssessment.Desktop.Core/State/CptGridModel.cs:159-223 | the other diagnostics name exactly a wrong number of rows, the rows of the wrong width, and the finite rows that do not sum to one |
| CptGridModel.NormalizedShares | src/PilotAssessment.Desktop.Core/State/CptGridModel.cs:136-157 | each normalised cell is its share of the row's sum |
| CptGridModel.SumSplits | src/PilotAssessment.Desktop.Core/State/CptGridModel.cs:148 | the sum of a row is that of its parts, however it is cut |
| CptGridModel.ParsesExactly | src/PilotAssessment.Desktop.Core/State/CptGridModel.cs:102-117 | a block is taken exactly when there is a line, every line is read and all have one width of at least one cell; each refusal has its own reason |
| CptGridModel.CreatedCells | src/PilotAssessment.Desktop.Core/State/CptGridModel.cs:243-260 | a new grid has the given probability in each cell that has one and blanks elsewhere, in the editor's shape |
| CptGridModel.UneditedTableIsReturned | src/PilotAssessment.Desktop.Core/State/CptGridModel.cs:225-260 | a complete table opened and sent without an edit goes back as it came |
| CptGridModel.NormalizedPasses | src/PilotAssessment.Desktop.Core/State/CptGridModel.cs:136-157 | a normalised row is a distribution at any tolerance |
| CptGridModel.NormalizingTwice | src/PilotAssessment.Desktop.Core/State/CptGridModel.cs:136-157 | normalising is idempotent |
| CptGridModel.PasteExactly | src/PilotAssessment.Desktop.Core/State/CptGridModel.cs:97-134 | an admitted block replaces exactly its rectangle if and only if the 32-bit sums of the check did not wrap; otherwise the paste fails, and exactly when it leaves the grid unchanged is stated |
| CptGridModel.PasteCells | src/PilotAssessment.Desktop.Core/State/CptGridModel.cs:125-131 | what any paste, finished or not, leaves in each cell |
| CptGridModel.StartAtMaximumWraps | src/PilotAssessment.Desktop.Core/State/CptGridModel.cs:118-133 | on any grid a single cell pasted at the last 32-bit row number passes the check and fails, with the grid as it was |
| CptGridModel.LastRowPasteWraps | src/PilotAssessment.Desktop.Core/State/CptGridModel.cs:118-133 | on a grid of the greatest array length, 58 rows pasted at the last row pass the check, overwrite that row and fail |
| CptGridModel.CptGridModel.constructor | src/PilotAssessment.Desktop.Core/State/CptGridModel.cs:28-32 | the grid starts as the materialised probabilities, blank where there are none |
| CptGridModel.CptGridModel.CreateValues | src/PilotAssessment.Desktop.Core/State/CptGridModel.cs:243-260 | fresh rows of their own, filled as far as the source and the shape go |
| CptGridModel.CptGridModel.SetCell | src/PilotAssessment.Desktop.Core/State/CptGridModel.cs:50-54 | changes one cell, or reports a position outside the grid |
| CptGridModel.CptGridModel.ScaleInPlace | src/PilotAssessment.Desktop.Core/State/CptGridModel.cs:143-156 | divides a row by its sum in place, or leaves it alone when that is impossible |
| CptGridModel.CptGridModel.NormalizeRow | src/PilotAssessment.Desktop.Core/State/CptGridModel.cs:136-157 | replaces one row by its quotients, exactly when all its cells are finite and non-negative with a positive sum |
| CptGridModel.CptGridModel.ApplyRectangularText | src/PilotAssessment.Desktop.Core/State/CptGridModel.cs:97-134 | refuses or pastes, cell by cell, as the paste of rows says |
| CptGridModel.CptGridModel.Validate | src/PilotAssessment.Desktop.Core/State/CptGridModel.cs:159-223 | the loops produce the diagnostics in order, and validity means an acceptable grid |
| CptGridModel.CptGridModel.BuildBackendRows | src/PilotAssessment.Desktop.Core/State/CptGridModel.cs:225-235 | only acceptable grids reach the backend, each cell as the number it holds |
| EvidenceRecipeEditorModel.Pigeonhole | src/PilotAssessment.Desktop.Core/State/EvidenceRecipeEditorModel.cs:203-214 | n candidates all in use need n used identifiers |
| EvidenceRecipeEditorModel.NewId | src/PilotAssessment.Desktop.Core/State/EvidenceRecipeEditorModel.cs:203-214 | the search ends within one more try than there are used identifiers, with the first unused candidate |
| EvidenceRecipeEditorModel.FirstCandidates | src/PilotAssessment.Desktop.Core/State/EvidenceRecipeEditorModel.cs:203-214 | candidates are the prefix, a dot and a decimal number |
| Decimal.NumeralSaysItsNumber | src/PilotAssessment.Desktop.Core/State/EvidenceRecipeEditorModel.cs:203-214 | a numeral has digits only, no leading zero, and says its number in base ten |
| EvidenceRecipeEditorModel.FindsTheNode | src/PilotAssessment.Desktop.Core/State/EvidenceRecipeEditorModel.cs:193-195 | on a closed recipe the look-up finds the node exactly when there is one |
| EvidenceRecipeEditorModel.RefusesExactlyUndeclared | src/PilotAssessment.Desktop.Core/State/EvidenceRecipeEditorModel.cs:114-129 | on a closed recipe connecting goes through exactly when both ports are declared by installed operators |
| EvidenceRecipeEditorModel.EvidenceRecipeEditorModel.ApplyParameters | src/PilotAssessment.Desktop.Core/State/EvidenceRecipeEditorModel.cs:56-69 | replaces one node's parameters and keeps the recipe sound |
| EvidenceRecipeEditorModel.EvidenceRecipeEditorModel.AddOperator | src/PilotAssessment.Desktop.Core/State/EvidenceRecipeEditorModel.cs:71-91 | adds an installed operator under the first unused ID and keeps the recipe sound |
| EvidenceRecipeEditorModel.EvidenceRecipeEditorModel.RemoveOperator | src/PilotAssessment.Desktop.Core/State/EvidenceRecipeEditorModel.cs:93-112 | removes a node with its edges, outputs and scoring and keeps the recipe sound |
| EvidenceRecipeEditorModel.EvidenceRecipeEditorModel.Connect | src/PilotAssessment.Desktop.Core/State/EvidenceRecipeEditorModel.cs:114-142 | refuses for the first reason, or adds the edge under the first unused ID, and keeps the recipe sound |
| EvidenceRecipeEditorModel.EvidenceRecipeEditorModel.RemoveEdge | src/PilotAssessment.Desktop.Core/State/EvidenceRecipeEditorModel.cs:144-157 | removes an existing edge and keeps the recipe sound |
| RecipeEdits.RemoveNodeKeeps | src/PilotAssessment.Desktop.Core/State/EvidenceRecipeEditorModel.cs:93-112 | removing an operator leaves nothing that names it |
| RecipeEditEffects.ParametersAreSet | src/PilotAssessment.Desktop.Core/State/EvidenceRecipeEditorModel.cs:56-69 | the named node takes the given parameters, and nothing else changes |
| RecipeEditEffects.OperatorIsRemoved | src/PilotAssessment.Desktop.Core/State/EvidenceRecipeEditorModel.cs:93-112 | exactly the node, the edges at it, the outputs from it and a scoring that reads it go |
| RecipeEditEffects.EdgeIsRemoved | src/PilotAssessment.Desktop.Core/State/EvidenceRecipeEditorModel.cs:144-157 | exactly the edge goes |
| RecipeEditEffects.InputIsRemoved | src/PilotAssessment.Desktop.Core/State/EvidenceRecipeEdgeEditor.cs:54-96 | exactly the input, its readers, their edges and their outputs go; a scoring that reads them stays without its input |
| RecipeEditEffects.InputIsDrawn | src/PilotAssessment.Desktop.Core/State/EvidenceRecipeEdgeEditor.cs:14-52 | one stream input under the raw source's ID and declared type, and one node that reads it, are added |
| RecipeEditEffects.KeysTellApart | src/PilotAssessment.Desktop.Core/State/EvidenceRecipeEditorModel.cs:216-217 | keys of operators tell ID and version apart when the IDs hold no unit separator |
| RecipeEdits.DropInputKeeps | src/PilotAssessment.Desktop.Core/State/EvidenceRecipeEdgeEditor.cs:54-96 | removing a raw input leaves nothing that names it or its readers |
| RecipeEdits.AddInputKeeps | src/PilotAssessment.Desktop.Core/State/EvidenceRecipeEdgeEditor.cs:14-52 | adding a raw input keeps the recipe closed exactly when its IDs are unused |
| RecipeEdits.RemoveUndoesAdd | src/PilotAssessment.Desktop.Core/State/EvidenceRecipeEditorModel.cs:71-112 | removing a just-added node restores the recipe exactly when its ID was not mentioned |
| RecipeEdits.DropUndoesConnect | src/PilotAssessment.Desktop.Core/State/EvidenceRecipeEditorModel.cs:114-157 | removing a just-added edge restores the recipe exactly when its ID was new |
| RecipeEdits.DropUndoesAddInput | src/PilotAssessment.Desktop.Core/State/EvidenceRecipeEdgeEditor.cs:14-96 | removing a just-added raw input restores the recipe exactly when neither of its IDs was in use |
| EvidenceRecipeEdgeEditor.RemoveRestores | src/PilotAssessment.Desktop.Core/State/EvidenceRecipeEdgeEditor.cs:14-96 | drawing and deleting an extraction edge restores a closed recipe exactly when the GUID was unused |
| EvidenceRecipeEdgeEditor.StepKeepsSound | src/PilotAssessment.Desktop.Core/State/EvidenceRecipeEditorModel.cs:56-157 | each edit keeps a sound recipe sound, a drawn input exactly when its GUID is fresh |
| EvidenceRecipeEdgeEditor.RunsStaySound | src/PilotAssessment.Desktop.Core/State/EvidenceRecipeEditorModel.cs:56-157 | every sequence of edits ends in a sound recipe: unique IDs, no dangling reference, declared ports |
| EvidenceRecipeEdgeEditor.AddingIsUndone | src/PilotAssessment.Desktop.Core/State/EvidenceRecipeEdgeEditor.cs:14-96 | after any adding edit of a sound recipe, its undo restores the recipe |
| SourceTree.SourceBaseline | tools/release/build_portable.py:932-967 | the loop computes the baseline of the sorted tree, or stops at the first collision or over-long field |
| SourceTree.BuildsExactly | tools/release/build_portable.py:941-950 | a baseline exists exactly for trees without case-insensitive collisions whose lengths fit eight bytes |
| SourceTreeFormat.StreamReads | tools/release/build_portable.py:932-967 | a reader of the format (name, zero byte, eight-byte big-endian lengths) gets every path and file of the hashed stream back |
| SourceTreeFormat.EntriesAreTheFiles | tools/release/build_portable.py:934-941 | what is hashed and listed are exactly the files, under their case-folded paths |
| SourceTreeFormat.BaselineSays | tools/release/build_portable.py:932-967 | the baseline lists exactly the files in the order of their folded paths, each with its own hash and size, and the hash of the stream |
| SourceTree.OrderDoesNotMatter | tools/release/build_portable.py:934-935 | every enumeration order gives the same baseline, or none |
| SourceTree.FramesParse | tools/release/build_portable.py:946-950 | equal length-prefixed streams come from equal entries |
| SourceTree.StreamIsCanonical | tools/release/build_portable.py:932-967 | two hashable trees have equal streams if and only if they map the same case-folded paths to the same bytes |
| SourceTree.VerifySourceBaseline | tools/release/verify_portable.py:642-668 | the checks in order, recomputing map and stream over the live tree |
| SourceTreeFormat.ManifestAcceptedExactly | tools/release/verify_portable.py:642-668 | any manifest is accepted exactly when root and algorithm are the known ones, the tree is collision-free and within the lengths, it records the hash of each file and no other path, and the stream's hash is the tree hash or, without one, the aggregate hash |
| SourceTreeFormat.RefusalsInOrder | tools/release/verify_portable.py:642-668 | a wrong root is reported first, and an unsupported algorithm only for matching files |
| SourceTree.VerifierAcceptsExactly | tools/release/verify_portable.py:642-668 | for any hash, the verifier accepts exactly the collision-free trees with the built tree's paths, payloads of the same hash under each and a stream of the same hash |
| SourceTree.AcceptedIsUnchanged | tools/release/verify_portable.py:642-668 | unless two different files under one path share a hash, what is accepted is exactly the built tree |
| SourceTree.VerifierAcceptsTheBuiltTree | tools/release/verify_portable.py:642-668 | an unchanged tree passes in whatever order it is walked, all its files counted |
| ModelIdentity.ModelIdentity | tools/release/system_model_capture.py:84-104 | the loops hash the lines of the nodes, then of the schemes |
| ModelIdentity.StreamOfTwo | tools/release/system_model_capture.py:94-103 | the bytes hashed for one node and one scheme |
| ModelIdentity.IdentityIsInjective | tools/release/system_model_capture.py:94-103 | equal streams come from equal rows when no field holds a NUL; line feeds do no harm |
| ModelIdentity.IdentityDeterminesResults | tools/release/system_model_capture.py:84-104 | among all query results, in key order with identifiers for keys, what is hashed and the two counts determine every object if and only if no hash column holds a NUL; what is hashed alone does if and only if, besides, there is at most one row |
| ModelIdentity.CountsAndStreamDetermine | tools/release/system_model_capture.py:94-104 | among all lists of rows, the stream and the two counts have only these rows as their source if and only if no field holds a NUL |
| ModelIdentity.StreamAloneDetermines | tools/release/system_model_capture.py:94-103 | among all lists of rows, without the counts, it does if and only if there is at most one row and no NUL in it |
| ModelIdentity.NulInAFieldConfuses | tools/release/system_model_capture.py:94-103 | a NUL in any field of any row gives other rows, as many of each kind, with the same stream; a NUL in a hash gives such rows with the same keys in the same order |
| ModelIdentity.TwoLinesMerge | tools/release/system_model_capture.py:94-103 | two rows always have a second reading as one row with NULs in it, under the keys of the rows before |
| NodeWindowPlacement.IntersectionArea | src/PilotAssessment.Desktop.Core/State/NodeWindowKey.cs:112-121 | the 64-bit area product stays below 2^62 |
| NodeWindowPlacement.ClampDimension | src/PilotAssessment.Desktop.Core/State/NodeWindowKey.cs:109-110 | the size is between the smaller of minimum and available, and available; a size in that range is kept |
| NodeWindowPlacement.TargetIndex | src/PilotAssessment.Desktop.Core/State/NodeWindowKey.cs:65-73 | the first display of the stable ordering by intersection, then primary |
| NodeWindowPlacement.CenterInExactly | src/PilotAssessment.Desktop.Core/State/NodeWindowKey.cs:82-96 | a centred window lies in the area exactly when half the slack stays within 32 bits |
| NodeWindowPlacement.ClampToExactly | src/PilotAssessment.Desktop.Core/State/NodeWindowKey.cs:98-107 | clamping succeeds, inside the area, exactly when the far corner it allows is within 32 bits; otherwise Math.Clamp throws |
| NodeWindowPlacement.MovedAsLittleAsPossible | src/PilotAssessment.Desktop.Core/State/NodeWindowKey.cs:98-110 | a clamped window takes the nearest size and the nearest origin that the area allows |
| NodeWindowPlacement.CentredInTheMiddle | src/PilotAssessment.Desktop.Core/State/NodeWindowKey.cs:82-96 | a centred window has margins that differ by one at most, at the nearest size |
| NodeWindowPlacement.LostWindowsAreCentred | src/PilotAssessment.Desktop.Core/State/NodeWindowKey.cs:46-80 | a window out of sight is centred on the primary display in its own size, one never saved or empty in the default size; any other is clamped to the display that shows most of it |
| NodeWindowPlacement.ComesBackExactly | src/PilotAssessment.Desktop.Core/State/NodeWindowKey.cs:46-80 | the result lies inside the chosen work area, at a workable size, exactly when that area keeps the origin within 32 bits |
| NodeWindowPlacement.ComesBackInView | src/PilotAssessment.Desktop.Core/State/NodeWindowKey.cs:46-80 | on displays with 32-bit corners it always does, and fails only without a usable display |
| NodeWindowPlacement.FarDisplayThrows | src/PilotAssessment.Desktop.Core/State/NodeWindowKey.cs:98-107 | a display reaching past the last coordinate makes the restore throw |
| NodeWindowPlacement.SameTarget | src/PilotAssessment.Desktop.Core/State/NodeWindowKey.cs:65-73 | a window restored into view is claimed by the display it was put on |
| NodeWindowPlacement.IdempotentExactly | src/PilotAssessment.Desktop.Core/State/NodeWindowKey.cs:46-107 | restoring a window that was put in view changes nothing if and only if the furthest origin for its size is a 32-bit coordinate, which only a centred window can miss; otherwise the second restore throws |
| NodeWindowPlacement.CentredOnFarDisplayThrowsLater | src/PilotAssessment.Desktop.Core/State/NodeWindowKey.cs:82-107 | a window centred on a far display cannot be restored again |
| NodeWindowPlacement.Idempotent | src/PilotAssessment.Desktop.Core/State/NodeWindowKey.cs:46-80 | on displays with 32-bit corners restoring a restored window changes nothing, overlapping or not |
| RunWorkspaceState.HighestWins | src/PilotAssessment.Desktop.Core/State/RunWorkspaceState.cs:78-98 | whatever the order, repeats and stale or foreign events, the state is that of the first delivery of the highest fresh sequence |
| RunWorkspaceState.EventsAreDisplayed | src/PilotAssessment.Desktop.Core/State/RunWorkspaceState.cs:63-98 | a fresh event is displayed in every field, any other leaves no trace; a restored one brings only units and message |
| RunWorkspaceState.WinnerIsDisplayed | src/PilotAssessment.Desktop.Core/State/RunWorkspaceState.cs:78-98 | so in the end the first delivery of the highest fresh sequence is displayed in every field |
| RunWorkspaceState.DeliveriesConverge | src/PilotAssessment.Desktop.Core/State/RunWorkspaceState.cs:78-98 | two deliveries of the same events converge when equal top sequences carry equal events |
| RunWorkspaceState.DisagreementDiverges | src/PilotAssessment.Desktop.Core/State/RunWorkspaceState.cs:78-98 | and only then |
| RunWorkspaceState.RestoresChangeNothing | src/PilotAssessment.Desktop.Core/State/RunWorkspaceState.cs:63-76 | restores interleaved anywhere with deliveries change nothing once an event is shown |
| RunWorkspaceState.RunWorkspaceState.SetRun | src/PilotAssessment.Desktop.Core/State/RunWorkspaceState.cs:48-56 | a new run resets units and message |
| RunWorkspaceState.RunWorkspaceState.RestoreProgress | src/PilotAssessment.Desktop.Core/State/RunWorkspaceState.cs:63-76 | restores units and message only at the displayed sequence |
| RunWorkspaceState.RunWorkspaceState.TryApply | src/PilotAssessment.Desktop.Core/State/RunWorkspaceState.cs:78-98 | the displayed sequence never falls, and rises exactly when the event is taken |

## Left out

- Tasks, cancellation tokens, timers, debouncing, semaphores and locks: each critical section is one step, in any order.
- JSON text, UTF-8, number formats and SHA-256: parameters, with the laws used stated as requirements of the lemmas that use them.
- A write cut off half-way by cancellation: writes complete or fail.
- Several coordinators in one machine: in AutosaveModel other windows' saves appear as Accept and OtherClient events; the gate they share is CanonicalObjectStore's.
- Floating-point rounding: probabilities and coordinates are reals; NaN and infinities are kept as one value of a table cell.
- Aliasing of mutable JSON trees: values, so the deep copies are identities.
- Hints with a repeated path, and operators with a repeated key, which make the constructors throw: both are given as maps.
- The handlers of notifications, and their exceptions, which are swallowed: HandleMessage returns what is raised.
- Field captions, labels, help texts, units and diagnostic messages.
- The 64-bit request counter's overflow, and the exact order in which a sweep settles requests.
- GraphProjection: search text is a test of strings; trimming and ordinal-ignore-case comparison are not modelled, and the fallback layer of an unknown definition type cannot occur among the three modelled ones.
- AutosaveModel: the retry, reload and reapply commands are taken only with no attempt in flight; the lemma ReloadDuringSaveResurrects shows why.
- CptGridModel.CptGridModel.ApplyRectangularText: takes the non-blank lines and the parser of one line; splitting pasted text into lines and tokens is not modelled.
- CptGridModel.CptGridModel.constructor: a negative row count, on which the source's array allocation throws, is excluded by its type.
- JsonRpcClient.LateResponsesAreHarmless: assumes no disposal and no stream error, which end the read loop by design, and a server that answers only requests written in full.
- SourceTree.VerifierAcceptsExactly: takes case folding to work character by character and to be idempotent.
- JsonSchemaFormReopening.ReopensAsSaved: takes parsed JSON to repeat no member name.
- AutosaveModel: subscribers of the committed and state events do not throw; the lemma ThrowingSubscriberParksACommit shows why.
- BuildUpdatedNode, MissingOperators, CanStart, NodeWindowRegistryState, the undo store and the view layer, which would only add easy members.
- The Python backend, its persistence and the rest of the release tools.
