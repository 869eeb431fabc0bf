# The client state machines of Multica in Dafny

A Dafny model of the client-side state machines and list transformations of `packages/core` and `apps/mobile`.

The hardest part is the protocol of chat drafts and uploads. An upload request outlives the composer that started it;
its outcome races with clears, removals, logout, workspace switches and page loads, and every store action mirrors
memory into storage keys that follow the current workspace. `DraftUploads`, `DraftStorage`, `ChatStore` and
`UploadCoordinator` model the source files, each method proved against a function on values; `DraftProtocol` steps
store, coordinator and requests together in any order and proves what every run keeps; `DraftMirror` adds the
bookkeeping of the coordinator and storage mirroring memory. `DraftPlaces` proves what every reachable state has;
`DraftGap` says exactly when an upload is stored away from home, and what an outcome does to other workspaces;
`DraftDurability` which events take a stored draft out of storage; `DraftDrops` which cleared or dismissed uploads can
come back. `DraftActions` says what each event does in terms of maps, blobs and requests alone, and `DraftSession` wires
the objects and shows that they take those steps.

The other modules: `PendingQueue` (the pending chat queue under late, repeated and reordered events), `TimelineThread`
and `TimelineCoalesce` (threading by breadth-first search over arbitrary parent links, and the merging of runs),
`Mentions` (a scanner paired with an inserter) with `MentionReading` (an independent reader of what is sent),
`BuilderProtocol` (the repair of JSON strings and the stripping of the draft block) with `JsonStrings` (the string
grammar its decoder follows), `ExceptionFuse`, `SeqMerge`, `InboxDedup`, `RecentContexts` with `Recency` and `ViewedIssues`, and
`Reconnect` (the reconnecting web socket client).

Assumptions: ids minted for uploads are fresh and differ from attachment ids (they are a datatype case of their own);
a list set on a slot holds rows of that slot and completed rows of known attachments, as its callers do; a file is
picked into a session slot or the unified new-chat slot, as the store's interface says.

Where the code and its design notes disagree, the model follows the code:

- A workspace switch changes the slug at once and reloads later, in a microtask. Memory in between is that of the old
  workspace, and a write of uploads replaces the whole stored blob of the new one with it. So the uploads it leaves in
  memory are stored under the new workspace's key (`StoredAnewIff`, `LandsElsewhereIff`, `SwitchRaceMisfiles`), and what
  the new workspace had stored is gone for good unless memory or another workspace holds it (`OverwrittenIsGoneIff`,
  `GapWriteErasesIff`, `FailureInGapDestroys`). That an outcome touches no other workspace's drafts holds, in every run,
  up to an exact condition (`OutcomesAreSafe`, `OutcomeTouchesOthersIff`), and so does that a result lands in the
  persisted draft and stays there (`StoredUploadLeavesIff`, `RunStoredIff`). Texts behave the same: setting, appending
  to or clearing one in between replaces all the texts the new workspace had stored (`StoredTextLeavesIff`).
- A cleared or dismissed upload is meant not to reappear. It does exactly when another workspace than the current one
  stores a settled row of it (`DroppedReturnsIff`): one cleared between a switch and its reload comes back with the
  workspace that was left (`OwnedDropReturnsIff`, `ClearInGapReturns`), and one that an earlier such write has stored
  twice comes back even when cleared in its own workspace (`ClearAtHomeReturns`). A logout leaves an upload stored
  exactly where it does not list the workspace (`LogoutLeavesNothingIff`).
- `loadDraftSlots` promises that words and files never come from different new-chat slots. They do when the unified
  slot is in one of the two maps only (`WordsAndFilesAgreeIff`, `WordsOfOneFilesOfAnother`).
- A logout with no current slug, or with one missing from the cached list, leaves that workspace's keys in storage
  while memory is empty (`LogoutMirrorsIff`, `LogoutMissesBareKeys`).
- The migration is said to be idempotent, key presence meaning content. A load that rewrites texts returns empty ones
  stored by other means, and the next load does not (`SecondLoadIsQuiet`, `EmptyTextIsReturnedOnce`).
- A completed chip is meant to be skipped by the suggestion trigger. One whose name has an at sign behind a space
  opens the bar with the cursor in that word (`ChipRetriggersIff`, `SpacedNameRetriggers`).
- The transcript is meant to keep only the prose while a reply streams. The begun opening tag shows until it is
  complete (`OnlyProseShowsIff`, `BegunTagShows`), and pieces of prose around a block that join into an opening tag hide
  what follows (`AllProseShowsIff`, `JoinedTagHides`).
- Connecting while a connection is wanted can leave a socket that survives the disconnect
  (`OneWayOnIffConnectsWhenIdle`, `DoubleConnectOutlivesDisconnect`). It does not always (`DisconnectLeavesIff`,
  `ConnectWhileWaitingLeavesNothing`).

Some results go beyond what the source promises: coalescing is meant for ascending times, and `IdempotentIff` with
`UnorderedIsNotIdempotent` says what happens in any order; threading is meant for unique comment ids, and `WalkEndsIff`
with `DuplicateIdLoops` says when the walk ends for any.

## Model

| member | source | states |
|---|---|---|
| `DraftGap.OutcomesAreSafe` | multica/packages/core/chat/store.ts:545-575 | In every run from any storage of earlier pages, the end of a request changes memory or storage exactly while its slot, in the workspace it was picked in, holds its placeholder and something is reported; and it leaves the stored drafts of every other workspace alone if and only if it does not overwrite them between a switch and its reload |
| `DraftGap.OutcomeTouchesOthersIff` | multica/packages/core/chat/store.ts:545-586 | In every state whose placeholders in flight are at home, as in every reachable one, an outcome changes the stored drafts of a workspace other than its own if and only if its placeholder is held, the slug has been switched and not reloaded, and the outcome leaves a row, or it drops the placeholder and the new workspace does not already store just the other uploads of memory |
| `DraftPlaces.ReachableIsWellPlaced` | multica/packages/core/chat/store.ts:537-682 | In every state of every run from any storage of earlier pages: each minted upload, in memory and in storage, is in the slot it was picked in; each placeholder in flight in memory belongs to a request picked in the workspace memory was loaded from; no minted upload is stored under an empty slug |
| `DraftGap.StoredAnewIff` | multica/packages/core/chat/store.ts:196-210 | From any consistent state, also with uploads stored away from home, an event stores an upload under a workspace that did not store it if and only if the guard of its write holds, that workspace is current, and memory holds the upload and the event keeps it, or the event picks it |
| `DraftGap.LandsElsewhereIff` | multica/packages/core/platform/workspace-storage.ts:34-64 | From any state with every upload in its place, an event of any kind stores an upload under a workspace it was not picked in if and only if the guard of its write holds, the slug has been switched and not reloaded, and the maps in memory hold that upload and the event keeps it, or the event picks it: told from the state before the event |
| `DraftGap.SwitchRaceMisfiles` | multica/packages/core/platform/workspace-storage.ts:41-63 | A run that misfiles an upload, from any storage: switch, reload, pick, switch again, and the response arriving before the second reload |
| `DraftGap.NothingIsMisfiled` | multica/packages/core/chat/store.ts:537-602 | Over every run from any storage of earlier pages in which no event lands an upload away from home, no upload is ever stored outside the workspace it was picked in |
| `DraftGap.StepOwnedIff` | multica/packages/core/chat/store.ts:537-602 | From a state with every upload in its slot of its workspace, in memory and in storage, one event leads to such a state again if and only if it writes no surviving upload between a switch and its reload |
| `DraftGap.RunOwnedIff` | multica/packages/core/chat/store.ts:537-682 | Every upload stays in its slot of its workspace throughout a run, legacy slots being folded on the way, if and only if no event of the run lands one elsewhere, a condition on the state before each event |
| `DraftDurability.WriteErasesIff` | multica/packages/core/chat/store.ts:196-210 | Right after any write of uploads that fires, an upload is nowhere in memory and storage if and only if memory does not hold and keep it and no workspace other than the current one stores it |
| `DraftDurability.OverwrittenIsGoneIff` | multica/packages/core/platform/workspace-storage.ts:41-63 | An upload that the current workspace stores is nowhere any more after an event on uploads, in any consistent state, if and only if its write fires, memory does not hold and keep the upload, and no other workspace stores it |
| `DraftDurability.GapWriteErasesIff` | multica/packages/core/platform/workspace-storage.ts:41-63 | With every upload in its place and the slug switched but not reloaded, an event on uploads leaves an upload of the new workspace, stored there, nowhere in memory and storage if and only if the guard of its write holds |
| `DraftDurability.FailureInGapDestroys` | multica/packages/views/editor/use-coordinated-uploads.ts:447-484 | A run from any storage: complete an upload, switch, reload, pick a file, switch back, and let its error arrive before the reload; the completed upload was stored until then and is in no later memory and no later storage, though no upload was stored away from home |
| `DraftDurability.StoredUploadLeavesIff` | multica/packages/core/chat/store.ts:537-602 | In every state with each upload in the slot it was picked in, also between a switch and its reload, an event takes a completed or failed upload out of the storage of a workspace if and only if its write fires while that workspace is current and memory holds no settled row of the upload that the event keeps, or a logout lists the workspace, or it is deleted |
| `DraftDurability.UploadLeavesHomeIff` | multica/packages/core/drafts/upload-coordinator.ts:8-13 | With every upload in its place, a completed or failed one leaves the storage of its workspace if and only if a write fires there while memory is that of another workspace or drops the settled rows of the upload, or a logout lists the workspace, or it is deleted |
| `DraftDurability.RunStoredIff` | multica/packages/core/drafts/upload-coordinator.ts:8-13 | Over any run from a state with each upload in its slot, a completed or failed upload stays in the storage of a workspace at every moment if and only if no event takes it out, a condition on the state before each event |
| `DraftDurability.OutcomeIsPersisted` | multica/packages/core/drafts/upload-coordinator.ts:8-13 | An outcome that leaves a row lands in the persisted draft of the current workspace as a settled row, whenever its write fires |
| `DraftDurability.InStepIsHeld` | multica/packages/core/chat/store.ts:189-210 | While storage is in step and no reload is pending, with each upload in its slot, memory holds in its slot every settled upload the current workspace stores, so that only dropping it takes it out |
| `DraftDurability.StoredTextLeavesIff` | multica/packages/core/chat/store.ts:89-107 | A stored text of a slot in use today leaves the storage of a workspace if and only if a text write fires while that workspace is current and leaves another text or none for the slot in memory, or a logout lists the workspace, or it is deleted |
| `DraftPlaces.StepKeepsPlaced` | multica/packages/core/chat/store.ts:537-602 | Every event, also between a switch and its reload, keeps each minted upload in the slot it was picked in |
| `DraftProtocol.OutcomeTouchesOnlyItsSlot` | multica/packages/core/chat/store.ts:545-575 | In every consistent state an outcome changes the store exactly when its slot holds its placeholder and something is reported; then only that slot and the current blob of uploads change |
| `DraftProtocol.OutcomeReplacesInPlace` | multica/packages/core/chat/store.ts:549-575 | An outcome that leaves a row replaces its placeholder in place: same length, same order, every other row untouched, the id kept, completed exactly when a response arrived, with the download URL stripped |
| `DraftProtocol.DroppedFailureRemovesOnlyItself` | multica/packages/views/editor/use-coordinated-uploads.ts:447-484 | A failure the composer does not keep removes its placeholder and no other row |
| `DraftProtocol.LostForever` | multica/packages/core/drafts/upload-coordinator.ts:62-105 | An upload lost from memory while in flight stays lost over every later run, an upload gone everywhere stays gone, and its outcome, reported even after an abort, changes nothing whenever it comes |
| `DraftProtocol.InFlightCannotOutliveReset` | multica/packages/core/drafts/cleanup-registry.ts:70-78 | After a logout, a workspace reload or a new page, no request then in flight ever changes the store again, in any continuation |
| `DraftDrops.DroppedNeverReturnsIff` | multica/packages/core/chat/store.ts:576-602 | With each upload in the slot it was picked in, as in every reachable state, what an event takes from its slot is in no memory and no storage of any later run if and only if no workspace other than the current one stores it at that moment |
| `DraftDrops.DroppedIsGoneIff` | multica/packages/core/chat/store.ts:576-602 | With each upload in the slot it was picked in, as in every reachable state, what an event takes from its slot is nowhere in memory and in storage right after it if and only if no workspace other than the current one stores it |
| `DraftDrops.OwnedDropIsGoneIff` | multica/packages/core/chat/store.ts:576-602 | In states with every upload in its slot of its own workspace, what an event takes from its slot is nowhere right after it if and only if memory is that of the current workspace, not one switched away from and not reloaded, or the upload's own workspace stores no row of it |
| `DraftDrops.DroppedReturnsIff` | multica/packages/core/chat/store.ts:576-602 | With each upload in the slot it was picked in and none under an empty slug, as in every reachable state, some later run brings an upload that an event took from its slot back into memory if and only if a workspace other than the current one stores a row of it not in flight |
| `DraftDrops.OwnedDropReturnsIff` | multica/packages/core/chat/store.ts:576-602 | In states with every upload in its slot of its own workspace and none under an empty slug, some later run brings a dropped upload back if and only if it was dropped between a switch and its reload while the workspace that was left stores it as a row not in flight |
| `DraftDrops.CanReturnIff` | multica/packages/core/chat/store.ts:226-268 | In every state with each upload in its slot and none under an empty slug, some later run has an upload in memory if and only if it is there now or some workspace stores a row of it not in flight |
| `DraftDrops.ClearInGapReturns` | multica/packages/core/platform/workspace-storage.ts:41-63 | A run in which a cleared upload comes back, from any storage: pick, complete, switch, clear before the reload, switch back and reload |
| `DraftDrops.ClearAtHomeReturns` | multica/packages/core/platform/workspace-storage.ts:41-63 | A run, from any storage, in which an upload cleared while memory is that of the current workspace comes back: pick, complete, switch, add an attachment to another slot before the reload, switch back, clear; the other workspace stores the upload and a switch to it shows it again |
| `DraftDrops.ClearAndDismissDrop` | multica/packages/core/chat/store.ts:576-602 | Clearing a draft, or dismissing a row, does drop it from its slot |
| `DraftDrops.LogoutLeavesNothingIff` | multica/packages/views/auth/use-logout.ts:31-50 | From any consistent state, a logout leaves an upload nowhere in memory and storage if and only if it lists every workspace that stores it |
| `DraftDrops.LogoutReturnsIff` | multica/packages/views/auth/use-logout.ts:31-50 | With each upload in its slot and none under an empty slug, as in every reachable state, some later run brings an upload back into memory after a logout if and only if a workspace that the logout does not list stores a row of it not in flight |
| `DraftDrops.OwnedLogoutLeavesNothingIff` | multica/packages/views/auth/use-logout.ts:31-50 | In states with every upload in its slot of its own workspace, a logout leaves an upload nowhere if and only if it lists the upload's workspace, or that one stores no row of it |
| `DraftProtocol.MemoryRowsHaveSources` | multica/packages/core/chat/store.ts:513-586 | Every row with a minted id in memory after any event was there before, is the picked placeholder, is the outcome of its own request, or was stored and not in flight |
| `DraftProtocol.StoredRowsHaveSources` | multica/packages/core/chat/store.ts:196-210 | Every stored row after any event was stored before or mirrors a row of memory under the current workspace |
| `DraftProtocol.StepKeepsConsistent` | multica/packages/core/chat/store.ts:537-586 | Every event keeps: a row with a minted id belongs to a known request and is a placeholder while that request is in flight, in memory and in every blob |
| `DraftMirror.StepKeepsTracks` | multica/packages/core/drafts/upload-coordinator.ts:62-126 | Every event keeps the tracked controllers exactly those of the requests in flight and not aborted; after a logout none is left |
| `DraftMirror.ReachableStates` | multica/packages/core/chat/store.ts:470-602 | In every state reachable from any storage, with storage removed only in step with memory, whenever no reload is pending the current keys read back as the maps in memory less empty texts and uploads in flight, and the tracked requests are exactly those that can still be aborted |
| `DraftMirror.RunInStepIff` | multica/packages/core/chat/store.ts:450-602 | From a state in step, storage mirrors memory at every moment of a run with no reload pending if and only if each event of the run that removes storage does so while a reload is pending, or with nothing readable under the current keys, or as a logout listing the current workspace, or as a deletion of another one |
| `DraftMirror.StepKeepsInStep` | multica/packages/core/chat/store.ts:450-602 | From a state where storage mirrors memory or a reload is pending, an event leads to such a state again if and only if a reload was pending, or it removes no storage, or it is a logout or deletion with nothing readable under the current keys, a logout listing the current workspace, or a deletion of another one |
| `DraftMirror.LogoutMirrorsIff` | multica/packages/views/auth/use-logout.ts:40-50 | After a logout storage mirrors the emptied memory exactly when the current workspace was in the cached list or held nothing readable |
| `DraftMirror.LogoutMissesBareKeys` | multica/packages/views/auth/use-logout.ts:40-50 | A text kept while no workspace is active is still stored after a logout, whatever workspaces are listed: storage no longer mirrors memory |
| `DraftMirror.DeleteMirrorsIff` | multica/packages/core/platform/storage-cleanup.ts:32-42 | After the removal of the keys of a workspace storage mirrors memory exactly when it is not the current one or nothing was readable there |
| `DraftMirror.ReachableLoadsAreQuiet` | multica/packages/core/chat/store.ts:226-268 | In every state reachable by actions on slots in use today, with no reload pending, one more load writes nothing and returns the memory less empty texts and uploads in flight, whichever agent is selected |
| `DraftMirror.NextLoadReturnsMemory` | multica/packages/core/chat/store.ts:254-268 | When storage mirrors memory and no legacy slot is in use, the next load writes nothing and returns the memory less empty texts and uploads in flight, whichever agent is selected |
| `DraftMirror.StepKeepsNoLegacy` | multica/packages/core/chat/store.ts:212-247 | Every event on slots in use today keeps memory and the readable texts free of legacy slots |
| `DraftSession.Session.EndRequest` | multica/packages/core/drafts/upload-coordinator.ts:72-104 | The coordinator and store objects, wired as the composer wires them, take exactly the protocol step at the end of a request |
| `DraftActions.AbortedErrorsAreSilent` | multica/packages/core/drafts/upload-coordinator.ts:87-92 | An error of a request whose signal is set, or an abort error, leaves the store exactly as it was |
| `DraftActions.AbortedStaysSilent` | multica/packages/core/drafts/upload-coordinator.ts:87-92 | Over any run, once the signal of a request is set it stays set, and no later error of that request changes the store |
| `DraftActions.LogoutSilencesErrors` | multica/packages/core/drafts/upload-coordinator.ts:117-126 | In every run from any storage of earlier pages, every request in flight at a logout is signalled from then on, and no later error of it changes the store |
| `DraftActions.EndLeaves` | multica/packages/core/drafts/upload-coordinator.ts:98-104 | The end of a request marks it as ended and drops its own tracked controller, no other; the store changes in uploads at most |
| `DraftActions.FailureKeepsFile` | multica/packages/core/chat/store.ts:558-575 | A failure that is kept has the name, size and type of the first row with the id and the message of the error |
| `DraftActions.DeliveryIsKept` | multica/packages/core/chat/store.ts:545-557 | What arrives is kept under the id of its placeholder with the name, size, type and address of the attachment, the download URL stripped |
| `DraftActions.PickLeaves` | multica/packages/views/editor/use-coordinated-uploads.ts:367-416 | A picked file goes last in its slot as an upload in flight with its name, size and type, stored in the current key, and a new request of that slot and the loaded workspace is tracked |
| `DraftActions.DismissLeaves` | multica/packages/views/editor/use-coordinated-uploads.ts:487-500 | A dismissal takes the rows with the id from the slot, in memory and in the current key, and aborts the request exactly if such a row was uploading |
| `DraftActions.SetListLeaves` | multica/packages/core/chat/store.ts:513-520 | The slot holds exactly the list given, or is gone when it is empty; the current key stores the nonempty slots row by row, every other key is unchanged |
| `DraftActions.AttachLeaves` | multica/packages/core/chat/store.ts:521-536 | A completed attachment replaces exactly the rows completed with it, or goes last; without an id nothing changes |
| `DraftActions.ClearLeaves` | multica/packages/core/chat/store.ts:587-602 | A clear deletes the slot from both maps, in memory and in the current keys, and changes nothing when it is in neither |
| `DraftActions.SetTextLeaves` | multica/packages/core/chat/store.ts:496-502 | A text is set at its slot and the current key stores exactly the texts that are not empty |
| `DraftActions.AppendTextLeaves` | multica/packages/core/chat/store.ts:503-512 | A fragment goes behind the text less its end of whitespace and a blank line, or alone when the text is only whitespace |
| `DraftActions.MarkLeaves` | multica/packages/core/chat/store.ts:450-456 | An applied restore is added last, once, in memory and in the current key |
| `DraftActions.ForgetLeaves` | multica/packages/core/chat/store.ts:458-464 | An entry leaves the ledger in memory and in the current key, which goes with the last one |
| `DraftActions.EnqueueLeaves` | multica/packages/core/chat/store.ts:470-482 | A restore goes last in the queue of its session unless its id is there, or it has no id or session; stored with its id, text, session and attachments |
| `DraftActions.DequeueLeaves` | multica/packages/core/chat/store.ts:484-495 | A restore leaves its queue, and an emptied queue its map, in memory and in the current key |
| `DraftActions.ChooseAgentLeaves` | multica/packages/core/chat/store.ts:432-436 | The agent is stored for the current workspace and for no other |
| `DraftActions.SwitchLeaves` | multica/packages/core/platform/workspace-storage.ts:34-64 | A switch changes the slug and leaves a reload pending, and nothing else; an empty slug counts as none |
| `DraftActions.AbortLeaves` | multica/packages/core/drafts/upload-coordinator.ts:108-113 | An abort signals and untracks the one request tracked under the id |
| `DraftActions.LogoutLeaves` | multica/packages/views/auth/use-logout.ts:31-50 | A logout empties all four maps, removes every key of the listed workspaces and no other, and signals exactly the tracked requests |
| `DraftActions.DeleteLeaves` | multica/packages/core/platform/storage-cleanup.ts:32-42 | Deleting a workspace removes its keys and no other |
| `DraftActions.RestartLeaves` | multica/packages/core/chat/store.ts:254-268 | A new page folds and reads the keys of no workspace and forgets every request |
| `DraftActions.ReloadAdopts` | multica/packages/core/chat/store.ts:650-682 | A reload keeps the slots in use today, drops the older ones, and takes the new chat's own value or else that of the older slot of the agent stored for the same workspace, for texts and uploads alike; without a stored agent that of the slot of none |
| `DraftActions.NextReloadAdopts` | multica/packages/core/chat/store.ts:652-662 | Once an agent was chosen in a workspace, over any run that neither removes the keys of the workspace nor chooses another agent there, its next reload adopts the older slot of that agent, for texts and uploads |
| `DraftSession.Session.PickFile` | multica/packages/views/editor/use-coordinated-uploads.ts:367-416 | A file over 100 MB changes nothing; for any other one the objects take the step that records the placeholder and then starts the request |
| `DraftSession.Session.DismissUpload` | multica/packages/views/editor/use-coordinated-uploads.ts:487-500 | For a dismissed row they take the step that aborts its request, while it is uploading, and removes the row |
| `DraftSession.Session.LogOut` | multica/packages/core/drafts/cleanup-registry.ts:70-78 | For a logout they take the step that aborts the tracked requests first, then resets memory, then clears the listed workspaces |
| `ChatStore.WritesKeepMirror` | multica/packages/core/chat/store.ts:89-210 | Writing any one of the four maps through keeps the keys reading back as the maps in memory |
| `ChatStore.ReloadMirrors` | multica/packages/core/chat/store.ts:650-682 | After every reload the keys read back as the maps in memory, whatever the storage held |
| `ChatStore.ChatStore.SettleInputDraftUpload` | multica/packages/core/chat/store.ts:545-557 | Settling replaces the placeholder in memory and in the current key, and does nothing without one |
| `ChatStore.ChatStore.FailInputDraftUpload` | multica/packages/core/chat/store.ts:558-575 | A failure replaces the placeholder by a failed row of the same name, size and type, in memory and in the current key |
| `ChatStore.ChatStore.RemoveInputDraftUpload` | multica/packages/core/chat/store.ts:576-586 | A removal takes the row from memory and from the current key; an emptied slot is deleted |
| `ChatStore.UploadsLeft` | multica/packages/core/chat/store.ts:576-586 | A list less one upload, row by row: the others stay, in their order |
| `ChatStore.ChatStore.AddInputDraftUpload` | multica/packages/core/chat/store.ts:537-544 | A new placeholder goes last in its slot, in memory and in the current key; a known id is ignored |
| `ChatStore.ChatStore.AddInputDraftAttachment` | multica/packages/core/chat/store.ts:521-536 | A completed attachment replaces the row that holds it or goes last; one without an id is ignored |
| `ChatStore.ChatStore.SetInputDraftAttachments` | multica/packages/core/chat/store.ts:513-520 | A list replaces the slot in memory and in the current key; an empty one deletes it |
| `ChatStore.ChatStore.ClearInputDraft` | multica/packages/core/chat/store.ts:587-602 | A clear deletes text and uploads of the slot in memory and in the current keys, and writes nothing when there is neither |
| `ChatStore.ChatStore.SetInputDraft` | multica/packages/core/chat/store.ts:496-502 | A text is set in memory, and in the current key unless empty |
| `ChatStore.ChatStore.AppendToInputDraft` | multica/packages/core/chat/store.ts:503-512 | A fragment is appended after the trimmed text and a blank line, or alone when there is only whitespace |
| `ChatStore.FragmentIsAppended` | multica/packages/core/chat/store.ts:503-512 | The appended text, by any split of the old one into a trimmed part and its end of whitespace |
| `ChatStore.ChatStore.EnqueuePendingSendRestore` | multica/packages/core/chat/store.ts:470-482 | A restore goes last in the queue of its session, in memory and in the current key, once per id |
| `ChatStore.ChatStore.DequeuePendingSendRestore` | multica/packages/core/chat/store.ts:484-495 | A taken restore leaves its queue in memory and in the current key; an emptied queue is deleted |
| `ChatStore.RestoresLeft` | multica/packages/core/chat/store.ts:484-495 | A queue less one restore, row by row: the others stay, in their order |
| `ChatStore.ChatStore.MarkDraftRestoreApplied` | multica/packages/core/chat/store.ts:450-456 | An applied restore is appended to the ledger once, in memory and in the current key |
| `ChatStore.ChatStore.ForgetDraftRestoreApplied` | multica/packages/core/chat/store.ts:458-464 | An entry confirmed gone leaves the ledger in memory and in the current key |
| `ChatStore.IdsLeft` | multica/packages/core/chat/store.ts:458-464 | A ledger less one id, entry by entry: the others stay, in their order |
| `ChatStore.ChatStore.Rehydrate` | multica/packages/core/chat/store.ts:650-682 | A reload replaces all four maps by what the current keys hold, legacy slots folded, and ends the pending state |
| `ChatStore.ChatStore.SetCurrentWorkspace` | multica/packages/core/platform/workspace-storage.ts:34-64 | A change of slug takes effect at once and leaves a reload pending; the same slug is a no-op |
| `ChatStore.ChatStore.ClearRegisteredWorkspaceDrafts` | multica/packages/core/drafts/cleanup-registry.ts:53-64 | The loop over the registered keys removes every draft key of one workspace and nothing else |
| `ChatStore.ChatStore.ResetAllRegisteredDrafts` | multica/packages/core/drafts/cleanup-registry.ts:75-77 | The loop over the registered slices leaves nothing in memory and does not touch storage; the abort before it is in the session's logout |
| `ChatStore.ChatStore.Logout` | multica/packages/views/auth/use-logout.ts:40-50 | Memory reset, then every listed workspace cleared |
| `DraftStorage.SecondLoadIsQuiet` | multica/packages/core/chat/store.ts:222-268 | A second load, whichever agent is selected by then, writes nothing and returns the same uploads; it returns the same texts if and only if the stored blob had no legacy slot, or no empty text among the session texts, the unified one and the one adopted in its place |
| `DraftStorage.EmptyTextIsReturnedOnce` | multica/packages/core/chat/store.ts:222-268 | Stored blobs where it does not: an empty session text beside a legacy slot is returned by the first load and gone in the second |
| `DraftStorage.LoadFoldsLegacySlots` | multica/packages/core/chat/store.ts:226-268 | A load returns no legacy slot and leaves none readable; the unified slot is never overwritten, and is adopted only from the selected agent's slot |
| `DraftStorage.LoadReadsBack` | multica/packages/core/chat/store.ts:254-268 | What a load leaves in storage reads back as what it returned, less empty texts where it rewrote them |
| `DraftStorage.LoadDraftSlots` | multica/packages/core/chat/store.ts:254-268 | The migrating load as a method over the stored blobs, written back only when something was folded |
| `DraftStorage.MigrateLegacyNewChatSlots` | multica/packages/core/chat/store.ts:226-247 | The loop deleting legacy keys from the copied map, and that it reports a change exactly when there was one |
| `DraftStorage.WordsAndFilesAgreeIff` | multica/packages/core/chat/store.ts:249-253 | The words and the files of the new chat come from one slot exactly when the unified slot is in both maps or in neither |
| `DraftStorage.WordsOfOneFilesOfAnother` | multica/packages/core/chat/store.ts:249-253 | Inputs where they do not, although the design says they must never disagree |
| `DraftStorage.UploadsReadBack` | multica/packages/core/chat/store.ts:112-132 | Storing uploads and reading them back gives them less those in flight and less emptied slots |
| `DraftStorage.RestoresReadBack` | multica/packages/core/chat/store.ts:159-194 | Storing restore queues and reading them back gives them less empty ones; a restore without attachments has an empty list then |
| `DraftStorage.AppliedReadBack` | multica/packages/core/chat/store.ts:134-149 | Storing the ledger of applied restores and reading it back gives the same ids |
| `DraftStorage.ReadDraftAttachments` | multica/packages/core/chat/store.ts:112-132 | The loop reading the stored lists, each normalized, empty ones left out |
| `DraftStorage.BlobsAreRead` | multica/packages/core/chat/store.ts:78-182 | Each key reads as nothing when it is missing or malformed, else as exactly its texts, its nonempty readable lists, its ids and its queues |
| `DraftStorage.QueueByRow` | multica/packages/core/chat/store.ts:151-182 | A stored queue, row by row: every restore that is one, with its usable attachments, in order |
| `DraftStorage.LegacyIff` | multica/packages/core/chat/store.ts:226-247 | The older slots are exactly those named by the new chat, a colon and an agent |
| `DraftStorage.PruneEmpty` | multica/packages/core/chat/store.ts:89-100 | The pruning loop shared by the writers |
| `DraftUploads.NormalizeStoredUploads` | multica/packages/core/drafts/draft-upload.ts:120-146 | The normalizing loop: placeholders in flight and damaged rows dropped, bare attachments wrapped, a non-list empty |
| `DraftUploads.StoredReadsBack` | multica/packages/core/drafts/draft-upload.ts:108-146 | Storing a list and normalizing it gives exactly the list less the uploads in flight |
| `DraftUploads.LoadedFromRows` | multica/packages/core/drafts/draft-upload.ts:120-146 | Normalizing returns exactly the stored uploads that are not in flight and the stored bare attachments, wrapped |
| `DraftUploads.LoadedByRow` | multica/packages/core/drafts/draft-upload.ts:120-147 | A load, row by row: stored uploads not in flight and stored attachments wrapped, in the stored order |
| `DraftUploads.AttachmentIsWrapped` | multica/packages/core/drafts/draft-upload.ts:73-87 | A wrapped attachment keeps its name, size, type and address, loses its download URL, and goes by its id or else its URL |
| `DraftUploads.ReloadKeepsWhatSubmits` | multica/packages/core/drafts/draft-upload.ts:58-70 | A reload binds exactly the attachments a submit would have bound, and loses a row exactly when the submit gate was closed |
| `DraftUploads.UploadedAttachments` | multica/packages/core/drafts/draft-upload.ts:58-65 | The loop collecting the completed attachments in order |
| `DraftUploads.BoundByRow` | multica/packages/core/drafts/draft-upload.ts:59-66 | What a submit binds, row by row: every completed attachment, in order, and nothing else |
| `UploadCoordinator.Uploads.StartUpload` | multica/packages/core/drafts/upload-coordinator.ts:62-71 | A new controller replaces the entry of its id |
| `UploadCoordinator.Uploads.FinishUpload` | multica/packages/core/drafts/upload-coordinator.ts:72-104 | At the end of a request nothing is reported exactly for an abort error, or for any other error once its signal is set; else the attachment that arrived, or the failure with its message; only its own entry is dropped |
| `UploadCoordinator.ReportedIff` | multica/packages/core/drafts/upload-coordinator.ts:86-98 | Which responses are reported, and as what: never an abort, always what arrives, any other error unless the request was aborted, with its message or the default one |
| `UploadCoordinator.Uploads.AbortUpload` | multica/packages/core/drafts/upload-coordinator.ts:108-113 | One tracked request is untracked and signalled, every other one left alone |
| `UploadCoordinator.Uploads.AbortAll` | multica/packages/core/drafts/upload-coordinator.ts:119-126 | The loop signals exactly the tracked requests and untracks all of them |
| `UploadCoordinator.RestartSurvivesFirstFinish` | multica/packages/core/drafts/upload-coordinator.ts:97-103 | A request restarted under the same id stays tracked and abortable when the first one ends |
| `PendingQueue.UniqueQueue` | multica/packages/core/chat/pending.ts:14-22 | The loop over the map keeps one observation per task, the best one seen |
| `PendingQueue.BestMeaning` | multica/packages/core/chat/pending.ts:14-22 | Best: the last rich observation if there is one, else the first sparse one |
| `PendingQueue.UniqueFacts` | multica/packages/core/chat/pending.ts:14-26 | The deduplicated queue has distinct ids and exactly the best observation of every task |
| `PendingQueue.ArrivalOrderIsIrrelevant` | multica/packages/core/chat/pending.ts:37-87 | On top of any head and queue, sparse and rich observations of the same tasks in any order and any number give the same queue, one rich and timed observation per task, the queued ones included: the rich ones in (created_at, task_id) order |
| `PendingQueue.DrainInSendOrder` | multica/packages/core/chat/pending.ts:121-141 | After such sends, repeatedly removing the head yields the old head and then every task queued or sent once in (created_at, task_id) order |
| `PendingQueue.DrainFollowsQueue` | multica/packages/core/chat/pending.ts:121-141 | From any well-formed headed state, draining yields the head and then the queue in order |
| `PendingQueue.CompareMeaning` | multica/packages/core/chat/pending.ts:5-12 | Times order tasks when both parse and differ, and otherwise ids do |
| `PendingQueue.SendsRepresent` | multica/packages/core/chat/pending.ts:37-87 | Any run of sends leaves the head alone and the queue representing all observations |
| `PendingQueue.RunKeepsWellFormed` | multica/packages/core/chat/pending.ts:37-155 | Over every run of enqueue, promote, remove and prioritize, queue ids stay distinct and never contain the head |
| `PendingQueue.StepKeepsWellFormed` | multica/packages/core/chat/pending.ts:37-155 | Each single event keeps queue ids distinct and without the head |
| `PendingQueue.QueuedSendAddsOne` | multica/packages/core/chat/pending.ts:83-86 | From a headed state a queued send tracks exactly one more id and changes no field but the queue |
| `PendingQueue.SparseCopyChangesNothing` | multica/packages/core/chat/pending.ts:15-24 | A copy of a queued task without a message, or with an empty one, changes no row; one with a message replaces the known row |
| `PendingQueue.HeadlessEvents` | multica/packages/core/chat/pending.ts:91-144 | Without a head a promotion changes nothing, and a removal or a move to the front leaves the empty state |
| `PendingQueue.HeadlessSends` | multica/packages/core/chat/pending.ts:39-63 | Before the head is known a queued send replaces the hidden queue by itself and leaves no head; an idle one becomes the head with its time, message and content, in front of the queue without it |
| `PendingQueue.OtherSends` | multica/packages/core/chat/pending.ts:64-87 | A send for the head leaves no second copy and keeps a status other than queued; a direct one becomes the head with its time, message and content and an empty queue |
| `PendingQueue.RepeatKeepsHead` | multica/packages/core/chat/pending.ts:64-80 | A repeat of the head keeps a known time and each of message and content that it does not bring itself, so that a sparse event erases nothing |
| `PendingQueue.RemoveDeletesOne` | multica/packages/core/chat/pending.ts:121-141 | From a headed state a removal untracks exactly that id |
| `PendingQueue.RemoveHead` | multica/packages/core/chat/pending.ts:133-140 | When the head goes, the first queued task takes over with its time, message and content and the rest keeps its order; without one nothing is left |
| `PendingQueue.PrioritizePermutes` | multica/packages/core/chat/pending.ts:143-155 | Prioritizing permutes the queue: the named task first, the others in order, the head unchanged |
| `PendingQueue.PromoteSwapsHead` | multica/packages/core/chat/pending.ts:91-119 | Only a queued task is promoted; it keeps its message, content and time, or takes the time of the event when it has none; the rest keeps its order behind the old head, which stays only while queued, with its id and time |
| `PendingQueue.PromoteTracks` | multica/packages/core/chat/pending.ts:89-119 | What promotion tracks afterwards: only an old head that was never queued is dropped |
| `PendingQueue.HeadMessagesStayVisible` | multica/packages/core/chat/pending.ts:157-169 | After any run no message of the head task is hidden |
| `PendingQueue.HiddenExactlyWhileQueued` | multica/packages/core/chat/pending.ts:157-169 | For every queue a message is hidden exactly if the last queue row naming it is of its own task; when no two rows name one message, exactly while its own task is queued |
| `PendingQueue.HideKeepsCount` | multica/packages/core/chat/pending.ts:157-169 | Every message that is not hidden is kept as often as it was there |
| `TimelineThread.BuildTimelineRows` | multica/apps/mobile/lib/timeline-thread.ts:37-87 | For any entries with unique comment ids, cyclic parent links included, the search ends, and each row has its complete thread, breadth first |
| `TimelineThread.StandsAloneIff` | multica/apps/mobile/lib/timeline-thread.ts:38-60 | An entry has a row of its own exactly when it is no comment, names no parent, or no comment of the input has the id of its parent |
| `TimelineThread.RepliesFollowParents` | multica/apps/mobile/lib/timeline-thread.ts:63-88 | An entry is among the replies of a row exactly when it is a comment of the input whose parent is the comment of the row or another of its replies |
| `TimelineThread.TopLevelByEntry` | multica/apps/mobile/lib/timeline-thread.ts:46-60 | The entries with rows, each for itself, in the order of the input |
| `TimelineThread.KidsByEntry` | multica/apps/mobile/lib/timeline-thread.ts:46-60 | The direct replies to a comment, each for itself, in the order of the input |
| `TimelineThread.CollectDescendants` | multica/apps/mobile/lib/timeline-thread.ts:63-80 | One search ends and returns the thread of its root |
| `TimelineThread.Partition` | multica/apps/mobile/lib/timeline-thread.ts:45-61 | The partition into top-level entries and children by parent, both in input order |
| `TimelineThread.ThreadMembers` | multica/apps/mobile/lib/timeline-thread.ts:63-86 | The replies of a row are exactly the entries whose parent chain leads to its comment |
| `TimelineThread.ParentInThread` | multica/apps/mobile/lib/timeline-thread.ts:63-80 | Every reply comes after its own parent |
| `TimelineThread.SiblingsKeepOrder` | multica/apps/mobile/lib/timeline-thread.ts:45-80 | Siblings keep the input order |
| `TimelineThread.TopLevelFacts` | multica/apps/mobile/lib/timeline-thread.ts:45-61 | Rows are exactly the entries that are no reply to a present comment |
| `TimelineThread.IsThreadUnique` | multica/apps/mobile/lib/timeline-thread.ts:63-80 | A thread is determined by the entries and its root |
| `TimelineThread.EmittedCount` | multica/apps/mobile/lib/timeline-thread.ts:37-87 | An entry is shown exactly once if its parent chain reaches a top-level entry, and never otherwise |
| `TimelineThread.EmittedFromInput` | multica/apps/mobile/lib/timeline-thread.ts:37-87 | Nothing is shown that was not in the input |
| `TimelineThread.PermutationIffAcyclic` | multica/apps/mobile/lib/timeline-thread.ts:37-87 | The output is a permutation of the input exactly when no parent chain runs in a circle |
| `TimelineThread.AcyclicReachesTop` | multica/apps/mobile/lib/timeline-thread.ts:37-87 | Without circular parent chains every entry has a top-level ancestor |
| `TimelineThread.DuplicateIdLoops` | multica/apps/mobile/lib/timeline-thread.ts:63-80 | With a duplicate id that is its own parent, the queue never runs empty, after any number of rounds |
| `TimelineThread.WalkEndsIff` | multica/apps/mobile/lib/timeline-thread.ts:63-80 | For any ids, repeated ones included, the walk from a root ends if and only if no chain of replies from it comes back to an id |
| `TimelineCoalesce.CoalesceTimeline` | multica/apps/mobile/lib/timeline-coalesce.ts:29-58 | The loop cuts the input into contiguous blocks and shows each block as its last entry |
| `TimelineCoalesce.MergesIff` | multica/apps/mobile/lib/timeline-coalesce.ts:32-55 | In any input an entry is merged into the one before it exactly when both are activities of one action and actor, never a squad evaluation, and either a finished task or both times parse and are at most two minutes apart; it then replaces it with a count one higher |
| `TimelineCoalesce.BlocksPartition` | multica/apps/mobile/lib/timeline-coalesce.ts:33-56 | The blocks concatenate to the input and are cut exactly between neighbours that do not merge |
| `TimelineCoalesce.OutputsAreBlocks` | multica/apps/mobile/lib/timeline-coalesce.ts:33-56 | Each output is the last entry of its block with the count of the block |
| `TimelineCoalesce.CountsConserved` | multica/apps/mobile/lib/timeline-coalesce.ts:47-50 | The sum of counts afterwards is the sum before, less exactly what merged-over entries had counted beyond one |
| `TimelineCoalesce.RawCountsAddUp` | multica/apps/mobile/lib/timeline-coalesce.ts:47-50 | On raw entries the counts sum to the input length |
| `TimelineCoalesce.CoalescingIsIdempotent` | multica/apps/mobile/lib/timeline-coalesce.ts:29-58 | On ascending times no two neighbours of the output can merge, so a second pass changes nothing |
| `TimelineCoalesce.IdempotentIff` | multica/apps/mobile/lib/timeline-coalesce.ts:29-58 | For input in any order a second pass changes nothing if and only if no block could take the last entry of the block behind it |
| `TimelineCoalesce.UnorderedIsNotIdempotent` | multica/apps/mobile/lib/timeline-coalesce.ts:42-46 | Three entries out of order where a second pass does change the output |
| `TimelineCoalesce.CommentsUntouched` | multica/apps/mobile/lib/timeline-coalesce.ts:33-56 | The comments keep their sequence |
| `TimelineCoalesce.ThreadsUnaffected` | multica/apps/mobile/lib/timeline-thread.ts:40-86 | Comment rows and replies are the same before and after coalescing |
| `Mentions.TokenAtCursor` | multica/apps/mobile/lib/mention-serialize.ts:47-78 | The backward scan finds the token under the cursor exactly when there is one |
| `Mentions.TokenMeaning` | multica/apps/mobile/lib/mention-serialize.ts:47-78 | A token is an at sign at a word start, outside a chip, with no whitespace up to the cursor; at most one position qualifies |
| `Whitespace.SpacesAre` | multica/apps/mobile/lib/mention-serialize.ts:54-78 | The whitespace class, by code point: white space and line terminators of sections 12.2 and 12.3 of ECMA-262 |
| `Mentions.SerializeMentions` | multica/apps/mobile/lib/mention-serialize.ts:122-175 | The marker-pairing scan: the links in order, or the text with every sentinel removed |
| `Mentions.LinkRuns` | multica/apps/mobile/lib/mention-serialize.ts:129-168 | The scanning loop against the split of the text into runs |
| `Mentions.LinkFromMeaning` | multica/apps/mobile/lib/mention-serialize.ts:129-173 | For every text and marker list, the loop succeeds exactly when the run words match, and its pieces are then the stretches of text with every marker linked in order |
| `Mentions.LinkingKeepsText` | multica/apps/mobile/lib/mention-serialize.ts:114-168 | For any text at all, when linking succeeds, the output with each link read as its mention is the text, up to sentinels, and its links are the markers in order |
| `Mentions.NothingIsLost` | multica/apps/mobile/lib/mention-serialize.ts:114-175 | Whatever the text and the markers, what is sent is the text without sentinels, or pieces that read as that text and link every marker once and in order |
| `Mentions.MatchesMeaning` | multica/apps/mobile/lib/mention-serialize.ts:154-170 | Linking succeeds exactly when the words after the sentinels are the marker names, in order and number |
| `Mentions.ScanDoc` | multica/apps/mobile/lib/mention-serialize.ts:134-168 | The scan of a rendered document finds its texts and chips again |
| `Mentions.SerializeDocument` | multica/apps/mobile/lib/mention-serialize.ts:122-175 | A document of sentinel-free texts and chips serializes to its link form exactly when no chip name has whitespace, else to plain text |
| `MentionReading.SentMentionsReadBack` | multica/apps/mobile/lib/mention-serialize.ts:150-175 | When every run has its marker, an independent reader of the sent text finds the type, the id and the label of every marker, in order and nothing else, with an at sign except for issues: for names without a closing bracket, ids without a closing parenthesis and no opening bracket in the text around |
| `MentionReading.SentTextReadsAs` | multica/apps/mobile/lib/mention-serialize.ts:150-175 | In any text at all, for names without brackets, the strict reader finds the markers in order and between them just what the stretches of text read as by themselves |
| `Mentions.ComposeIsDocument` | multica/apps/mobile/lib/mention-serialize.ts:85-106 | Any run of typing and accepting at the end renders such a document with its markers in text order |
| `Mentions.AcceptKeepsAround` | multica/apps/mobile/lib/mention-serialize.ts:85-106 | Accepting with the cursor anywhere replaces just the token in front of it by sentinel, at sign, name and space, with the cursor behind; text before and behind stays |
| `Mentions.ComposedTextSerializes` | multica/apps/mobile/lib/mention-serialize.ts:85-175 | The composed text serializes with every mention linked and all other text unchanged, exactly when no accepted name has whitespace |
| `Mentions.ChipRetriggersIff` | multica/apps/mobile/lib/mention-serialize.ts:47-77 | With the cursor in an inserted chip, whatever its name, a suggestion is triggered if and only if the name has an at sign behind whitespace and the cursor is in that word; never for a name without whitespace |
| `Mentions.SpacedNameRetriggers` | multica/apps/mobile/lib/mention-serialize.ts:63-71 | A display name and a cursor for which the bar opens inside a chip |
| `BuilderProtocol.EscapeJsonStringControlCharacters` | multica/packages/core/agents/builder-protocol.ts:55-93 | The loop over its two flags computes the repaired text |
| `BuilderProtocol.RepairPreservesMeaning` | multica/packages/core/agents/builder-protocol.ts:40-52 | Strict decoding of the repaired text (section 7 of RFC 8259) equals lenient decoding of the original that accepts raw LF, CR and TAB |
| `BuilderProtocol.RepairIdentityIff` | multica/packages/core/agents/builder-protocol.ts:55-93 | Repair changes nothing exactly when no such raw character is inside a string |
| `BuilderProtocol.RepairIsIdempotent` | multica/packages/core/agents/builder-protocol.ts:55-93 | Repairing twice is repairing once |
| `BuilderProtocol.RepairKeepsOutside` | multica/packages/core/agents/builder-protocol.ts:61-65 | Characters outside strings are unchanged |
| `BuilderProtocol.ParseIsLenient` | multica/packages/core/agents/builder-protocol.ts:31-53 | With its retry, the parser accepts exactly what one lenient parse would |
| `BuilderProtocol.BlockIsParsed` | multica/packages/core/agents/builder-protocol.ts:31-53 | The text parsed is exactly that between the first opening tag and the first closing tag behind it, whatever follows; an empty one and a value that is no object give no draft |
| `BuilderProtocol.NoBlockNoDraft` | multica/packages/core/agents/builder-protocol.ts:31-33 | Without a closed block there is no draft |
| `JsonStrings.StringsDecode` | multica/packages/core/agents/builder-protocol.ts:34-52 | A string written in plain characters, two-character escapes and four-digit escapes decodes to exactly their UTF-16 units (section 7 of RFC 8259), raw LF, CR and TAB being let in by lenient decoding only |
| `JsonStrings.OnlyPiecesDecode` | multica/packages/core/agents/builder-protocol.ts:34-52 | Where decoding succeeds inside a string, what follows is its end or such a piece, and nothing else |
| `BuilderProtocol.NoOpeningTagShows` | multica/packages/core/agents/builder-protocol.ts:109-114 | No opening tag is left in what the reader sees |
| `BuilderProtocol.StreamShows` | multica/packages/core/agents/builder-protocol.ts:100-114 | What shows at every moment of streaming prose and one block: what has arrived, trimmed, until the opening tag is complete, a begun tag included, and the trimmed prose from then on |
| `BuilderProtocol.OnlyProseShowsIff` | multica/packages/core/agents/builder-protocol.ts:100-114 | Only prose shows at a moment if and only if the stream is not inside the opening tag |
| `BuilderProtocol.BegunTagShows` | multica/packages/core/agents/builder-protocol.ts:110-112 | A moment at which the begun tag shows |
| `BuilderProtocol.PartsMakeContent` | multica/packages/core/agents/builder-protocol.ts:109-114 | Every content is some prose and blocks followed by a tail without a closed block |
| `BuilderProtocol.ContentHasOneParts` | multica/packages/core/agents/builder-protocol.ts:109-114 | No content is made of prose and blocks in two ways |
| `BuilderProtocol.BlocksShow` | multica/packages/core/agents/builder-protocol.ts:109-114 | What any content shows, by its prose and blocks: the pieces of prose joined, each trimmed at its end, up to the first place where they join into an opening tag or one was left open |
| `BuilderProtocol.AllProseShowsIff` | multica/packages/core/agents/builder-protocol.ts:109-114 | All prose around any number of blocks shows if and only if the joined pieces contain no opening tag |
| `BuilderProtocol.MomentOfBlocks` | multica/packages/core/agents/builder-protocol.ts:100-108 | Every moment of streaming any number of blocks lies inside one block with its prose, behind whole ones, or in the tail |
| `BuilderProtocol.BlocksStreamShows` | multica/packages/core/agents/builder-protocol.ts:100-114 | What shows at every moment inside any block of several: up to the end of its opening tag the joined prose with what has arrived, from then on the joined prose alone |
| `BuilderProtocol.JoinedTagHides` | multica/packages/core/agents/builder-protocol.ts:110-114 | Two pieces of prose around a block that join into an opening tag hide everything behind it |
| `ExceptionFuse.Session.ShouldDropException` | multica/packages/core/analytics/exception-dedupe.ts:40-78 | The guarded read, decision and write on the stored counts |
| `ExceptionFuse.FailuresChangeNothing` | multica/packages/core/analytics/exception-dedupe.ts:40-78 | Storage that fails leaves the blob as it was; unreadable it drops nothing, only unwritable it drops what working storage would |
| `ExceptionFuse.DropsAreEarned` | multica/packages/core/analytics/exception-dedupe.ts:52-77 | With storage failing at any read or write, every drop comes after at least three kept events of that fingerprint |
| `ExceptionFuse.BlobStaysSmall` | multica/packages/core/analytics/exception-dedupe.ts:26-29 | The stored counts never exceed fifty fingerprints |
| `ExceptionFuse.DroppedExactly` | multica/packages/core/analytics/exception-dedupe.ts:40-78 | With reliable storage an event is dropped exactly when its fingerprint is among the first fifty distinct ones and at least three earlier events carried it |
| `ExceptionFuse.AlwaysExact` | multica/packages/core/analytics/exception-dedupe.ts:53-66 | With reliable storage the stored counts are exactly those of the first fifty fingerprints, up to three |
| `SeqMerge.MergeIsSortedUnion` | multica/packages/core/chat/queries.ts:219-228 | The merge is ascending and holds the existing entries and the incoming ones whose number is new: on conflict the existing entry wins |
| `SeqMerge.MergeIsUniqueIff` | multica/packages/core/chat/queries.ts:219-228 | From an ascending list the merge is without repeats exactly when the new numbers are |
| `SeqMerge.MergeCommutes` | multica/packages/core/chat/queries.ts:219-228 | Commutative on agreeing lists |
| `SeqMerge.MergeAssociates` | multica/packages/core/chat/queries.ts:219-228 | Associative on agreeing lists |
| `SeqMerge.MergeKeepsKnown` | multica/packages/core/chat/queries.ts:219-228 | Merging what is known already changes nothing |
| `SeqMerge.InterleavingsConverge` | multica/packages/core/chat/queries.ts:219-228 | Any two interleavings of live events and backfills with the same messages end in the same list |
| `InboxDedup.DeduplicateInboxItems` | multica/apps/mobile/lib/inbox-display.ts:72-108 | The loops over groups compute the deduplicated list |
| `InboxDedup.GroupByKey` | multica/apps/mobile/lib/inbox-display.ts:74-80 | The map of groups, keys in first-seen order, groups in input order |
| `InboxDedup.OneItemPerIssue` | multica/apps/mobile/lib/inbox-display.ts:72-108 | Exactly one item per issue among the non-archived ones, the newest, with the newest comment anchor, sorted newest first |
| `InboxDedup.EachIssueOnce` | multica/apps/mobile/lib/inbox-display.ts:72-108 | No two shown items are of one issue, and every item that is not archived is stood for |
| `InboxDedup.NewestIsShown` | multica/apps/mobile/lib/inbox-display.ts:72-108 | Each shown item is the newest of its issue that is not archived, naming the newest comment of the issue when it names none itself |
| `InboxDedup.SortIsStable` | multica/apps/mobile/lib/inbox-display.ts:72-108 | Items of one time keep their order in the sort, and none is lost or added |
| `InboxDedup.DeduplicationIsIdempotent` | multica/apps/mobile/lib/inbox-display.ts:72-108 | A second pass changes nothing |
| `InboxDedup.OrderIsIrrelevant` | multica/apps/mobile/lib/inbox-display.ts:72-108 | With distinct times the result depends on the set of items only |
| `InboxDedup.BadgeDependsOnSet` | multica/apps/mobile/lib/unread-counts.ts:30-37 | The unread badge then depends on the set of items only, and equals that of the deduplicated list |
| `InboxDedup.UnreadByItem` | multica/apps/mobile/lib/unread-counts.ts:30-37 | The badge counts the shown items one by one: one for an unread item, none for a read one |
| `InboxDedup.BadgeCountsUnread` | multica/apps/mobile/lib/unread-counts.ts:30-37 | The badge is the number of places in the shown list that hold an unread item |
| `RecentContexts.RecentContextStore.RecordVisit` | multica/packages/core/chat/recent-context-store.ts:40-74 | The visited context first, its earlier entry gone, twenty at most; beyond fifty workspaces the oldest is evicted |
| `RecentContexts.RecentContextStore.OldestWorkspace` | multica/packages/core/chat/recent-context-store.ts:64-68 | The reduce finds the first workspace with the oldest last visit |
| `RecentContexts.OldestIsFirst` | multica/packages/core/chat/recent-context-store.ts:64-68 | What the reduce finds was last visited no later than any other workspace, and earlier than each one in front of it |
| `RecentContexts.RecentContextStore.ForgetContext` | multica/packages/core/chat/recent-context-store.ts:75-89 | One context removed, an emptied workspace dropped |
| `RecentContexts.ForgetLeaves` | multica/packages/core/chat/recent-context-store.ts:75-89 | Forgetting takes one context from one list and leaves every other list alone; a workspace goes exactly when emptied |
| `Recency.WithoutByEntry` | multica/packages/core/chat/recent-context-store.ts:75-89 | A list less one key, entry by entry: the others stay, in their order |
| `RecentContexts.PickAllowed` | multica/packages/core/chat/recent-context-store.ts:90-100 | The pruning loop keeps exactly the allowed workspaces, and reports a change if and only if it left one out |
| `RecentContexts.PruneLeaves` | multica/packages/core/chat/recent-context-store.ts:90-100 | Pruning keeps just the allowed workspaces, with their lists |
| `RecentContexts.BucketIsPrefix` | multica/packages/core/chat/recent-context-store.ts:40-74 | Over any history that neither forgets from a workspace nor drops it, its list is the 20-prefix of the unbounded most-recent-first list of distinct contexts |
| `RecentContexts.RunKeepsWellFormed` | multica/packages/core/chat/recent-context-store.ts:40-100 | Over every run at most fifty workspaces and twenty distinct contexts each, none empty |
| `RecentContexts.VisitedWorkspaceSurvives` | multica/packages/core/chat/recent-context-store.ts:62-71 | When no stored visit is later, eviction does not remove the workspace just visited |
| `RecentContexts.JustVisitedIsThere` | multica/packages/core/chat/recent-context-store.ts:40-74 | On a clock that never runs backwards every visit is on top of its list right after it |
| `Recency.BoundedIsPrefix` | multica/packages/core/chat/recent-context-store.ts:44-55 | Cutting at every visit is cutting once at the end: nothing cut off is ever needed again |
| `ViewedIssues.ViewedIssuesStore.Push` | multica/apps/mobile/data/viewed-issues-store.ts:36-41 | The mobile list stays the 10-prefix of the unbounded list of its visits |
| `ViewedIssues.ViewedIssuesStore.Remove` | multica/apps/mobile/data/viewed-issues-store.ts:42-52 | A removal filters one list and no other |
| `Reconnect.OneWayOnIffConnectsWhenIdle` | multica/packages/core/api/ws-client.ts:73-215 | At every moment of a run exactly one armed socket or pending timer exists while wanted and none after a disconnect, if and only if the owner connects only when idle |
| `Reconnect.RunsAreTracked` | multica/packages/core/api/ws-client.ts:148-215 | In every run where the owner connects only when idle, the client's handles are those of the one socket or timer |
| `Reconnect.DoubleConnectOutlivesDisconnect` | multica/packages/core/api/ws-client.ts:198-215 | Two connects in a row leave a socket whose close still schedules a reconnect after the disconnect |
| `Reconnect.DisconnectLeavesIff` | multica/packages/core/api/ws-client.ts:198-215 | In any run at all a disconnect leaves an armed socket or a pending timer behind if and only if a socket that was not the last one opened is still armed, or a timer that was not the last one set is still pending |
| `Reconnect.ConnectWhileWaitingLeavesNothing` | multica/packages/core/api/ws-client.ts:198-215 | Connecting again while only the reconnect timer is pending leaves nothing after the disconnect |
| `Reconnect.CallbacksRunOnRecovery` | multica/packages/core/api/ws-client.ts:182-196 | In any run reconnect callbacks run on an authentication if and only if an earlier authentication, or a close with its handler in place, happened since the last disconnect, and on nothing else |
| `Reconnect.HandledClosesAreRecent` | multica/packages/core/api/ws-client.ts:198-208 | When the owner connects only when idle, those closes are exactly the closes of sockets opened since the last disconnect |
| `Reconnect.OpeningSocketIsCurrent` | multica/packages/core/api/ws-client.ts:91-100 | In any run the socket that opens is the one the auth frame goes to if and only if none was opened after it, so always when the owner connects only when idle |
| `Reconnect.DelayBounds` | multica/packages/core/api/ws-client.ts:163-173 | Every delay lies in 800..30000 ms and within a fifth of the doubled base, for all attempts and jitters |
| `Reconnect.BaseGrows` | multica/packages/core/api/ws-client.ts:164-167 | The base delay never falls and reaches the cap at the fifth attempt |
| `Reconnect.RunDelays` | multica/packages/core/api/ws-client.ts:163-180 | Every delay scheduled in any run at all lies in 800..30000 ms |
| `Reconnect.ClosesBackOff` | multica/packages/core/api/ws-client.ts:148-180 | In any run a close with its handler in place sets one timer, at 1, 2, 4, 8, 16 or 30 seconds by the number of such closes since the last authentication or disconnect, times four to six fifths as the random number says, up to 30 seconds; any other close sets none |
| `Reconnect.WSClient.OnClose` | multica/packages/core/api/ws-client.ts:148-150 | A close of a socket whose handler is in place schedules the reconnect |
| `Reconnect.WSClient.OnOpen` | multica/packages/core/api/ws-client.ts:91-100 | An opening sends the token, or counts as authenticated |
| `Reconnect.OpenSends` | multica/packages/core/api/ws-client.ts:91-100 | An opening sends the token on its own socket exactly when there is one and no cookie authenticates, and counts as authenticated otherwise |
| `Reconnect.WSClient.OnTimer` | multica/packages/core/api/ws-client.ts:179-180 | The timer connects again; its handle stays |
| `Reconnect.WSClient.Shutdown` | multica/packages/core/api/ws-client.ts:198-215 | A disconnect cancels the timer, disarms and closes the socket and resets the rest |
| `Reconnect.DisconnectCloses` | multica/packages/core/api/ws-client.ts:198-215 | A disconnect closes the client's own socket unless it had closed already, removes its handlers and changes no other socket |
| `Reconnect.OwnersWordIsKept` | multica/packages/core/api/ws-client.ts:198-239 | In any run the client holds exactly the callbacks registered since the last disconnect and not taken back, and the token set last |

## Left out

- Text encodings: JSON parsing and printing of storage, URL building, hashing, UUIDs and date parsing are not modelled; stored blobs are typed values with their malformed cases, times are integers, a fingerprint is given.
- Storage keys are pairs of a base key and a workspace suffix, not concatenated strings; object keys that look like integers, or that clash with built-in property names, are not treated specially, and maps have no iteration order unless a list of keys is kept.
- Other browser tabs writing the same storage, and storage writes that throw, except in `ExceptionFuse`.
- Stored blobs with values of other types than the shape checks tell apart, such as a number where a text is expected.
- Attachment fields beyond id, url, file name, size, content type and download URL; they are carried along unread.
- The write-back of a finished upload into the document body and the pasted text given back after a failure: later actions on the text of the same slot, which the protocol allows at any time.
- The offering and consuming of durable draft restores: the composer that offers them is not part of this model.
- A callback of an upload that throws, which the source would report as a failure of the same request.
- Draft stores other than the chat's that register for cleanup, and keys without a workspace.
- `PendingQueue`: task ids are integers with their order in place of `localeCompare`; the runtime's sort is only specified for the consistent orders, so order claims need every time to parse, as stated.
- `Mentions`: positions count characters, not UTF-16 units; stale references and raw text edits of the React hook.
- `BuilderProtocol`: the JSON grammar above the string level is a parameter; strings are decoded to UTF-16 units.
- `ExceptionFuse`: the hash that builds a fingerprint.
- `Reconnect`: message handlers, the frame checks of `onmessage` and logging; the delay is computed over reals, not floating point.
- `RecentContexts`: display fields are one value; the persist middleware and its version migration.
- HTTP clients, schemas, React hooks and components, query caches, runtime health, permissions, image sequences, label tables and locale helpers: plumbing, or easy members that would add no harder claim.
