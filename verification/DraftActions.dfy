/**
 What every event does, told from the maps, blobs and requests alone: which slot or list changes and to what, what is
 stored with it under the current workspace, and that all else stays. An error of an aborted request does nothing,
 and a reload adopts the slot of the agent that its own workspace has selected.
 */
module DraftActions {
  import opened Wrappers
  import opened Whitespace
  import opened DraftUploads
  import opened DraftStorage
  import opened ChatStore
  import opened UploadCoordinator
  import opened DraftProtocol
  import opened DraftMirror

  // ----- writing one map through -----

  /** Only the texts change, in memory and under the current key, which then stores just those that are not empty. */
  ghost predicate WritesTexts(w: World, v: World) {
    var ns := Current(w);
    var texts := v.store.mem.drafts;
    && v == w.(store := w.store.(disk := w.store.disk.(drafts := v.store.disk.drafts), mem := w.store.mem.(drafts := texts)))
    && (forall other :: other != ns ==> SameTexts(w.store.disk, v.store.disk, other))
    && StoresTexts(v.store.disk, ns, texts)
  }

  ghost predicate SameTexts(a: Disk, b: Disk, ns: Namespace) {
    (ns in a.drafts <==> ns in b.drafts) && (ns in a.drafts ==> a.drafts[ns] == b.drafts[ns])
  }

  ghost predicate StoresTexts(disk: Disk, ns: Namespace, texts: map<string, string>) {
    && (ns in disk.drafts <==> exists k :: k in texts && texts[k] != "")
    && (ns in disk.drafts ==>
          && disk.drafts[ns].Parsed?
          && (forall k :: k in disk.drafts[ns].value <==> k in texts && texts[k] != "")
          && (forall k :: k in disk.drafts[ns].value ==> disk.drafts[ns].value[k] == texts[k]))
  }

  /** Only the uploads change in the store, in the same way; the requests may. */
  ghost predicate WritesLists(s: Store, t: Store) {
    var ns := NamespaceOf(s.slug);
    var lists := t.mem.attachments;
    && t == s.(disk := s.disk.(attachments := t.disk.attachments), mem := s.mem.(attachments := lists))
    && (forall other :: other != ns ==> SameBlob(s.disk, t.disk, other))
    && StoresLists(t.disk, ns, lists)
  }

  ghost predicate StoresLists(disk: Disk, ns: Namespace, lists: map<string, seq<DraftUpload>>) {
    && (ns in disk.attachments <==> exists k :: k in lists && lists[k] != [])
    && (ns in disk.attachments ==>
          && disk.attachments[ns].Parsed?
          && (forall k :: k in disk.attachments[ns].value <==> k in lists && lists[k] != [])
          && (forall k :: k in disk.attachments[ns].value ==> IsStoredList(disk.attachments[ns].value[k], lists[k])))
  }

  /** Every row of the list is stored as it is. */
  ghost predicate IsStoredList(stored: StoredList, list: seq<DraftUpload>) {
    stored.Rows? && |stored.rows| == |list| && forall i :: 0 <= i < |list| ==> stored.rows[i] == StoredUpload(list[i])
  }

  lemma TextsAreStored(disk: Disk, ns: Namespace, texts: map<string, string>)
    ensures StoresTexts(WithDrafts(disk, ns, texts), ns, texts)
    ensures forall other :: other != ns ==> SameTexts(disk, WithDrafts(disk, ns, texts), other)
  {
    PrunedMeans(texts);
    hide Pruned;
  }

  lemma PrunedMeans<T>(slots: map<string, seq<T>>)
    ensures forall k :: k in Pruned(slots) <==> k in slots && slots[k] != []
    ensures forall k :: k in Pruned(slots) ==> Pruned(slots)[k] == slots[k]
    ensures Pruned(slots) == map[] <==> forall k :: k in slots ==> slots[k] == []
  {
    if k :| k in slots && slots[k] != [] { assert k in Pruned(slots); }
  }

  lemma ListsAreStored(disk: Disk, ns: Namespace, lists: map<string, seq<DraftUpload>>)
    ensures StoresLists(WithUploads(disk, ns, lists), ns, lists)
    ensures forall other :: other != ns ==> SameBlob(disk, WithUploads(disk, ns, lists), other)
  {
    var kept := Pruned(lists);
    PrunedMeans(lists);
    StoredKeys(kept);
    hide Pruned, StoredUploads, IsStoredList;
    var stored := StoredUploads(kept);
    forall k | k in stored ensures IsStoredList(stored[k], lists[k]) { StoredListIs(kept, k); }
  }

  lemma StoredListIs(lists: map<string, seq<DraftUpload>>, k: string)
    requires k in lists
    ensures k in StoredUploads(lists) && IsStoredList(StoredUploads(lists)[k], lists[k])
  {
    ListIsStored(lists[k]);
    hide IsStoredList, AsStored;
  }

  lemma StoredKeys(lists: map<string, seq<DraftUpload>>)
    ensures StoredUploads(lists).Keys == lists.Keys
  {
  }

  lemma ListIsStored(list: seq<DraftUpload>)
    ensures IsStoredList(Rows(AsStored(list)), list)
  {
  }

  lemma PersistWritesLists(s: Store, next: map<string, seq<DraftUpload>>)
    ensures WritesLists(s, PersistUploads(s, next)) && PersistUploads(s, next).mem.attachments == next
  {
    ListsAreStored(s.disk, NamespaceOf(s.slug), next);
    hide StoresLists, SameBlob;
  }

  // ----- texts -----

  lemma SetTextLeaves(w: World, slot: string, text: string)
    requires |w.uploads.aborted| == |w.requests|
    ensures var v := Step(w, SetText(slot, text));
            WritesTexts(w, v) && v.store.mem.drafts == w.store.mem.drafts[slot := text]
  {
    TextsAreStored(w.store.disk, Current(w), w.store.mem.drafts[slot := text]);
    hide StoresTexts, SameTexts;
  }

  /** The fragment goes behind the text less its end of whitespace and a blank line, or alone. */
  lemma AppendTextLeaves(w: World, slot: string, trimmed: string, space: string, markdown: string)
    requires |w.uploads.aborted| == |w.requests|
    requires if slot in w.store.mem.drafts then w.store.mem.drafts[slot] == trimmed + space else trimmed + space == ""
    requires (trimmed == "" || !IsSpace(trimmed[|trimmed| - 1])) && forall i :: 0 <= i < |space| ==> IsSpace(space[i])
    ensures var v := Step(w, AppendText(slot, markdown));
            && WritesTexts(w, v)
            && v.store.mem.drafts == w.store.mem.drafts[slot := if trimmed == "" then markdown else trimmed + "\n\n" + markdown]
  {
    FragmentIsAppended(trimmed + space, trimmed, space, markdown);
    var text := if trimmed == "" then markdown else trimmed + "\n\n" + markdown;
    TextsAreStored(w.store.disk, Current(w), w.store.mem.drafts[slot := text]);
    hide StoresTexts, SameTexts, Appended;
  }

  // ----- rows -----

  /** Only this slot changes in the maps of uploads: to these rows, or away when there are none. */
  ghost predicate SlotBecomes(before: map<string, seq<DraftUpload>>, after: map<string, seq<DraftUpload>>, slot: string, rows: seq<DraftUpload>) {
    && (forall k :: k != slot ==> (k in after <==> k in before) && (k in before ==> after[k] == before[k]))
    && (slot in after <==> rows != []) && (slot in after ==> after[slot] == rows)
  }

  /** A picked file goes last in its slot as an upload in flight, and its request is tracked under a new controller. */
  lemma PickLeaves(w: World, e: Event)
    requires e.Pick? && Enabled(w, e) && Consistent(w)
    ensures var v, n := Step(w, e), |w.requests|;
            && WritesLists(w.store, v.store)
            && SlotBecomes(w.store.mem.attachments, v.store.mem.attachments, e.slot,
                           RowsOf(w, e.slot) + [Pending(Minted(n), e.filename, e.size, e.contentType, Uploading, None)])
            && v.requests == w.requests + [Request(e.slot, w.loaded, false)] && v.loaded == w.loaded
            && v.uploads.controllers == w.uploads.controllers[Minted(n) := n] && v.uploads.aborted == w.uploads.aborted + [false]
  {
    var rows := RowsOf(w, e.slot);
    NewIsAbsent(w, e.slot);
    PersistWritesLists(w.store, w.store.mem.attachments[e.slot := rows + [Placeholder(|w.requests|, e.filename, e.size, e.contentType)]]);
    hide WritesLists, PersistUploads, Consistent, IsLegacy, HasUpload;
  }

  lemma NewIsAbsent(w: World, slot: string)
    requires Consistent(w)
    ensures !HasUpload(RowsOf(w, slot), Minted(|w.requests|))
  {
    hide Stored;
    var rows := RowsOf(w, slot);
    forall i | 0 <= i < |rows| ensures rows[i].id != Minted(|w.requests|) { assert GoodRow(w, rows[i]); }
  }

  /** A dismissed row leaves its slot; while it was uploading its tracked request is signalled as well. */
  lemma DismissLeaves(w: World, slot: string, id: UploadId)
    requires |w.uploads.aborted| == |w.requests|
    ensures var v := Step(w, Dismiss(slot, id));
            && (if exists u :: u in RowsOf(w, slot) && u.id == id
                then WritesLists(w.store, v.store)
                     && SlotBecomes(w.store.mem.attachments, v.store.mem.attachments, slot, WithoutUpload(RowsOf(w, slot), id))
                else v.store == w.store)
            && v.requests == w.requests && v.loaded == w.loaded
            && v.uploads == if exists u :: u in RowsOf(w, slot) && u.id == id && u.InFlight()
                            then AbortedOne(w.uploads, id) else w.uploads
  {
    HeldMeans(RowsOf(w, slot), id);
    var next := Put(w.store.mem.attachments, slot, WithoutUpload(RowsOf(w, slot), id));
    PersistWritesLists(w.store, next);
    PutBecomes(w.store.mem.attachments, slot, WithoutUpload(RowsOf(w, slot), id));
    hide WritesLists, PersistUploads, AbortedOne, WithoutUpload, HasUpload, SlotBecomes, Put;
  }

  lemma HeldMeans(rows: seq<DraftUpload>, id: UploadId)
    ensures HasUpload(rows, id) <==> exists u :: u in rows && u.id == id
  {
    if u :| u in rows && u.id == id { var i :| 0 <= i < |rows| && rows[i] == u; }
    if i :| 0 <= i < |rows| && rows[i].id == id { assert rows[i] in rows; }
  }

  lemma PutBecomes(before: map<string, seq<DraftUpload>>, slot: string, rows: seq<DraftUpload>)
    ensures SlotBecomes(before, Put(before, slot, rows), slot, rows)
  {
  }

  lemma SetListLeaves(w: World, slot: string, uploads: seq<DraftUpload>)
    requires |w.uploads.aborted| == |w.requests| && Enabled(w, SetList(slot, uploads))
    ensures var v := Step(w, SetList(slot, uploads));
            && WritesLists(w.store, v.store) && v == w.(store := v.store)
            && SlotBecomes(w.store.mem.attachments, v.store.mem.attachments, slot, uploads)
  {
    PersistWritesLists(w.store, Put(w.store.mem.attachments, slot, uploads));
    hide WritesLists, PersistUploads;
  }

  /** An attachment replaces each row that is completed with it, or goes last; one without an id is ignored. */
  lemma AttachLeaves(w: World, slot: string, a: Attachment)
    requires |w.uploads.aborted| == |w.requests|
    ensures var v := Step(w, Attach(slot, a));
            var rows, next, wrapped := RowsOf(w, slot), RowsOf(v, slot), AttachmentToDraftUpload(a);
            && v == w.(store := v.store)
            && (a.id == "" ==> v == w)
            && (a.id != "" ==> WritesLists(w.store, v.store) && SlotBecomes(w.store.mem.attachments, v.store.mem.attachments, slot, next))
            && (a.id != "" && (forall u :: u in rows && u.Uploaded? ==> u.attachment.id != a.id) ==> next == rows + [wrapped])
            && (a.id != "" && (exists u :: u in rows && u.Uploaded? && u.attachment.id == a.id) ==>
                  && |next| == |rows|
                  && forall i :: 0 <= i < |rows| ==>
                       next[i] == if rows[i].Uploaded? && rows[i].attachment.id == a.id then wrapped else rows[i])
  {
    AttachedRows(RowsOf(w, slot), a.id, AttachmentToDraftUpload(a));
    var rows, wrapped := RowsOf(w, slot), AttachmentToDraftUpload(a);
    var next := if HoldsAny(rows, a.id) then ReplaceHolders(rows, a.id, wrapped) else rows + [wrapped];
    PersistWritesLists(w.store, w.store.mem.attachments[slot := next]);
    hide WritesLists, PersistUploads, AttachmentToDraftUpload, HoldsAny, ReplaceHolders;
  }

  lemma AttachedRows(rows: seq<DraftUpload>, id: string, wrapped: DraftUpload)
    ensures HoldsAny(rows, id) <==> exists u :: u in rows && u.Uploaded? && u.attachment.id == id
    ensures var next := ReplaceHolders(rows, id, wrapped);
            && |next| == |rows|
            && forall i :: 0 <= i < |rows| ==>
                 next[i] == if rows[i].Uploaded? && rows[i].attachment.id == id then wrapped else rows[i]
  {
    if u :| u in rows && u.Uploaded? && u.attachment.id == id {
      var i :| 0 <= i < |rows| && rows[i] == u;
      assert Holds(rows[i], id);
    }
    if HoldsAny(rows, id) {
      var i :| 0 <= i < |rows| && Holds(rows[i], id);
      assert rows[i] in rows;
    }
  }

  /** A clear deletes the text and the rows of its slot, in memory and in storage. */
  lemma ClearLeaves(w: World, slot: string)
    requires |w.uploads.aborted| == |w.requests|
    ensures var v := Step(w, Clear(slot));
            var s, t := w.store, v.store;
            && v == w.(store := t)
            && (slot !in s.mem.drafts && slot !in s.mem.attachments ==> v == w)
            && (slot in s.mem.drafts || slot in s.mem.attachments ==>
                  && t.mem == s.mem.(drafts := s.mem.drafts - {slot}, attachments := s.mem.attachments - {slot})
                  && t == s.(mem := t.mem, disk := s.disk.(drafts := t.disk.drafts, attachments := t.disk.attachments))
                  && StoresTexts(t.disk, Current(w), t.mem.drafts) && StoresLists(t.disk, Current(w), t.mem.attachments)
                  && forall ns :: ns != Current(w) ==> SameTexts(s.disk, t.disk, ns) && SameBlob(s.disk, t.disk, ns))
  {
    var s, ns := w.store, Current(w);
    var disk := WithDrafts(s.disk, ns, s.mem.drafts - {slot});
    TextsAreStored(s.disk, ns, s.mem.drafts - {slot});
    ListsAreStored(disk, ns, s.mem.attachments - {slot});
    SameOtherBlobs(s.disk, ns, s.mem.drafts - {slot}, disk, s.mem.attachments - {slot});
    hide StoresTexts, StoresLists, SameTexts, SameBlob, WithDrafts, WithUploads;
  }

  lemma SameOtherBlobs(disk: Disk, ns: Namespace, texts: map<string, string>, disk1: Disk, lists: map<string, seq<DraftUpload>>)
    requires disk1 == WithDrafts(disk, ns, texts)
    ensures var disk2 := WithUploads(disk1, ns, lists);
            && disk2 == disk.(drafts := disk2.drafts, attachments := disk2.attachments) && disk2.drafts == disk1.drafts
            && (StoresTexts(disk1, ns, texts) <==> StoresTexts(disk2, ns, texts))
            && (forall other :: SameTexts(disk, disk2, other) <==> SameTexts(disk, disk1, other))
            && (forall other :: SameBlob(disk, disk2, other) <==> SameBlob(disk1, disk2, other))
  {
  }

  // ----- restores -----

  /** A ledger entry is added once, last. */
  lemma MarkLeaves(w: World, id: string)
    requires |w.uploads.aborted| == |w.requests|
    ensures var v, ns := Step(w, Mark(id)), Current(w);
            if id in w.store.mem.applied then v == w
            else
              && v == w.(store := w.store.(disk := w.store.disk.(applied := v.store.disk.applied),
                                           mem := w.store.mem.(applied := w.store.mem.applied + [id])))
              && (forall other :: other != ns ==> SameLedger(w.store.disk, v.store.disk, other))
              && ns in v.store.disk.applied && StoresLedger(v.store.disk.applied[ns], v.store.mem.applied)
  {
    LedgerIsStored(w.store.disk, Current(w), w.store.mem.applied + [id]);
    hide StoresLedger, SameLedger;
  }

  /** An entry that is there goes from the ledger; without any left nothing is stored. */
  lemma ForgetLeaves(w: World, id: string)
    requires |w.uploads.aborted| == |w.requests|
    ensures var v, ns := Step(w, Forget(id)), Current(w);
            if id !in w.store.mem.applied then v == w
            else
              && v == w.(store := w.store.(disk := w.store.disk.(applied := v.store.disk.applied),
                                           mem := w.store.mem.(applied := WithoutId(w.store.mem.applied, id))))
              && (forall other :: other != ns ==> SameLedger(w.store.disk, v.store.disk, other))
              && (ns in v.store.disk.applied <==> v.store.mem.applied != [])
              && (ns in v.store.disk.applied ==> StoresLedger(v.store.disk.applied[ns], v.store.mem.applied))
  {
    LedgerIsStored(w.store.disk, Current(w), WithoutId(w.store.mem.applied, id));
    hide StoresLedger, SameLedger, WithoutId;
  }

  ghost predicate SameLedger(a: Disk, b: Disk, ns: Namespace) {
    (ns in a.applied <==> ns in b.applied) && (ns in a.applied ==> a.applied[ns] == b.applied[ns])
  }

  ghost predicate StoresLedger(blob: Blob<seq<Option<string>>>, ids: seq<string>) {
    blob.Parsed? && |blob.value| == |ids| && forall i :: 0 <= i < |ids| ==> blob.value[i] == Some(ids[i])
  }

  lemma LedgerIsStored(disk: Disk, ns: Namespace, ids: seq<string>)
    ensures var next := WithApplied(disk, ns, ids);
            && next == disk.(applied := next.applied)
            && (forall other :: other != ns ==> SameLedger(disk, next, other))
            && (ns in next.applied <==> ids != []) && (ns in next.applied ==> StoresLedger(next.applied[ns], ids))
  {
  }

  /** A restore goes last in the queue of its session, once; one without an id or a session is ignored. */
  lemma EnqueueLeaves(w: World, r: SendRestore)
    requires |w.uploads.aborted| == |w.requests|
    ensures var v, s, session := Step(w, Enqueue(r)), w.store, r.sessionId;
            var queue := if session in s.mem.restores then s.mem.restores[session] else [];
            if session == "" || r.id == "" || exists x :: x in queue && x.id == r.id then v == w
            else
              && v == w.(store := s.(disk := s.disk.(restores := v.store.disk.restores),
                                     mem := s.mem.(restores := s.mem.restores[session := queue + [r]])))
              && WritesQueues(s.disk, v.store.disk, Current(w), v.store.mem.restores)
  {
    var s, session := w.store, r.sessionId;
    var queue := if session in s.mem.restores then s.mem.restores[session] else [];
    RestoreMeans(queue, r.id);
    QueuesAreStored(s.disk, Current(w), s.mem.restores[session := queue + [r]]);
    hide WritesQueues, HasRestore;
  }

  /** A restore that is there goes from the queue of its session, and an emptied queue with it. */
  lemma DequeueLeaves(w: World, session: string, id: string)
    requires |w.uploads.aborted| == |w.requests|
    ensures var v, s := Step(w, Dequeue(session, id)), w.store;
            var queue := if session in s.mem.restores then s.mem.restores[session] else [];
            var left := WithoutRestore(queue, id);
            if !exists x :: x in queue && x.id == id then v == w
            else
              && v == w.(store := s.(disk := s.disk.(restores := v.store.disk.restores),
                                     mem := s.mem.(restores := if left == [] then s.mem.restores - {session}
                                                               else s.mem.restores[session := left])))
              && WritesQueues(s.disk, v.store.disk, Current(w), v.store.mem.restores)
  {
    var s := w.store;
    var queue := if session in s.mem.restores then s.mem.restores[session] else [];
    var left := WithoutRestore(queue, id);
    RestoreMeans(queue, id);
    QueuesAreStored(s.disk, Current(w), if left == [] then s.mem.restores - {session} else s.mem.restores[session := left]);
    hide WritesQueues, HasRestore, WithoutRestore;
  }

  lemma RestoreMeans(queue: seq<SendRestore>, id: string)
    ensures HasRestore(queue, id) <==> exists x :: x in queue && x.id == id
  {
    if x :| x in queue && x.id == id { var i :| 0 <= i < |queue| && queue[i] == x; }
    if i :| 0 <= i < |queue| && queue[i].id == id { assert queue[i] in queue; }
  }

  /** Just the queues that are not empty are stored, each restore with its id, text, session and attachments. */
  ghost predicate WritesQueues(before: Disk, after: Disk, ns: Namespace, queues: map<string, seq<SendRestore>>) {
    && (forall other :: other != ns ==>
          (other in before.restores <==> other in after.restores)
          && (other in before.restores ==> before.restores[other] == after.restores[other]))
    && (ns in after.restores <==> exists k :: k in queues && queues[k] != [])
    && (ns in after.restores ==>
          && after.restores[ns].Parsed?
          && (forall k :: k in after.restores[ns].value <==> k in queues && queues[k] != [])
          && (forall k :: k in after.restores[ns].value ==> IsStoredQueue(after.restores[ns].value[k], queues[k])))
  }

  ghost predicate IsStoredQueue(stored: StoredQueue, queue: seq<SendRestore>) {
    stored.Queue? && |stored.rows| == |queue| && forall i :: 0 <= i < |queue| ==> IsStoredRestore(stored.rows[i], queue[i])
  }

  ghost predicate IsStoredRestore(stored: StoredRestore, r: SendRestore) {
    && stored.StoredRestore? && stored.id == r.id && stored.content == r.content && stored.sessionId == r.sessionId
    && (stored.attachments.Some? <==> r.attachments.Some?)
    && (r.attachments.Some? ==>
          && |stored.attachments.value| == |r.attachments.value|
          && forall i :: 0 <= i < |r.attachments.value| ==> stored.attachments.value[i] == Some(r.attachments.value[i]))
  }

  lemma QueuesAreStored(disk: Disk, ns: Namespace, queues: map<string, seq<SendRestore>>)
    ensures WritesQueues(disk, WithRestores(disk, ns, queues), ns, queues)
    ensures WithRestores(disk, ns, queues) == disk.(restores := WithRestores(disk, ns, queues).restores)
  {
    var kept := Pruned(queues);
    PrunedMeans(queues);
    StoredQueueKeys(kept);
    hide Pruned, StoredQueues, IsStoredQueue;
    var stored := StoredQueues(kept);
    forall k | k in stored ensures IsStoredQueue(stored[k], queues[k]) { StoredQueueIs(kept, k); }
  }

  lemma StoredQueueIs(queues: map<string, seq<SendRestore>>, k: string)
    requires k in queues
    ensures k in StoredQueues(queues) && IsStoredQueue(StoredQueues(queues)[k], queues[k])
  {
    QueueIsStored(queues[k]);
    hide IsStoredQueue, AsStoredQueue;
  }

  lemma StoredQueueKeys(queues: map<string, seq<SendRestore>>)
    ensures StoredQueues(queues).Keys == queues.Keys
  {
  }

  lemma QueueIsStored(queue: seq<SendRestore>)
    ensures IsStoredQueue(Queue(AsStoredQueue(queue)), queue)
  {
  }

  // ----- workspaces -----

  /** The agent is stored for the current workspace only. */
  lemma ChooseAgentLeaves(w: World, agent: string)
    requires |w.uploads.aborted| == |w.requests|
    ensures var v := Step(w, ChooseAgent(agent));
            && v == w.(store := w.store.(disk := w.store.disk.(agents := v.store.disk.agents)))
            && Current(w) in v.store.disk.agents && v.store.disk.agents[Current(w)] == agent
            && forall ns :: ns != Current(w) ==>
                 (ns in v.store.disk.agents <==> ns in w.store.disk.agents)
                 && (ns in v.store.disk.agents ==> v.store.disk.agents[ns] == w.store.disk.agents[ns])
  {
  }

  /** A switch changes the slug and nothing else, and leaves a reload pending; to the same slug it does nothing. */
  lemma SwitchLeaves(w: World, slug: Option<string>)
    requires |w.uploads.aborted| == |w.requests|
    ensures Step(w, Switch(slug)) == if slug == w.store.slug then w else w.(store := w.store.(slug := slug, reloadPending := true))
    ensures slug.Some? && slug.value != "" ==> Current(Step(w, Switch(slug))) == slug
    ensures slug.None? || slug.value == "" ==> Current(Step(w, Switch(slug))) == None
  {
  }

  /** An abort touches nothing but the coordinator: a tracked request is signalled, and it alone, and no longer tracked. */
  lemma AbortLeaves(w: World, id: UploadId)
    requires |w.uploads.aborted| == |w.requests|
    ensures var v := Step(w, Abort(id));
            && v == w.(uploads := v.uploads)
            && (id !in w.uploads.controllers ==> v == w)
            && (id in w.uploads.controllers ==>
                  && v.uploads.controllers == w.uploads.controllers - {id} && |v.uploads.aborted| == |w.uploads.aborted|
                  && forall i :: 0 <= i < |w.uploads.aborted| ==>
                       (v.uploads.aborted[i] <==> w.uploads.aborted[i] || i == w.uploads.controllers[id]))
  {
  }

  /** Nothing is stored for this workspace, and its agent is not either. */
  ghost predicate Empty(disk: Disk, ns: Namespace) {
    ns !in disk.drafts && ns !in disk.attachments && ns !in disk.applied && ns !in disk.restores && ns !in disk.agents
  }

  ghost predicate SameKeys(a: Disk, b: Disk, ns: Namespace) {
    && SameTexts(a, b, ns) && SameBlob(a, b, ns) && SameLedger(a, b, ns)
    && (ns in a.restores <==> ns in b.restores) && (ns in a.restores ==> a.restores[ns] == b.restores[ns])
    && (ns in a.agents <==> ns in b.agents) && (ns in a.agents ==> a.agents[ns] == b.agents[ns])
  }

  lemma DeleteLeaves(w: World, doomed: string)
    requires |w.uploads.aborted| == |w.requests|
    ensures var v := Step(w, DeleteWorkspace(doomed));
            && v == w.(store := w.store.(disk := v.store.disk))
            && Empty(v.store.disk, Some(doomed)) && forall ns :: ns != Some(doomed) ==> SameKeys(w.store.disk, v.store.disk, ns)
  {
  }

  lemma {:induction false} ClearedAllIs(disk: Disk, slugs: seq<string>, ns: Namespace)
    ensures ns.Some? && ns.value in slugs ==> Empty(ClearedAll(disk, slugs), ns)
    ensures !(ns.Some? && ns.value in slugs) ==> SameKeys(disk, ClearedAll(disk, slugs), ns)
  {
    if slugs != [] {
      var front, last := slugs[..|slugs| - 1], slugs[|slugs| - 1];
      assert slugs == front + [last];
      ClearedAllIs(disk, front, ns);
    }
  }

  /** A logout empties memory, removes what is stored for the listed workspaces, and signals every tracked request. */
  lemma LogoutLeaves(w: World, slugs: seq<string>)
    requires |w.uploads.aborted| == |w.requests|
    ensures var v := Step(w, Logout(slugs));
            && v == w.(uploads := v.uploads, store := w.store.(disk := v.store.disk, mem := Memory(map[], map[], [], map[])))
            && (forall ns: Namespace :: ns.Some? && ns.value in slugs ==> Empty(v.store.disk, ns))
            && (forall ns: Namespace :: !(ns.Some? && ns.value in slugs) ==> SameKeys(w.store.disk, v.store.disk, ns))
            && v.uploads.controllers == map[] && |v.uploads.aborted| == |w.uploads.aborted|
            && forall i :: 0 <= i < |w.uploads.aborted| ==>
                 (v.uploads.aborted[i] <==> w.uploads.aborted[i] || exists id :: id in w.uploads.controllers && w.uploads.controllers[id] == i)
  {
    forall ns: Namespace
      ensures ns.Some? && ns.value in slugs ==> Empty(ClearedAll(w.store.disk, slugs), ns)
      ensures !(ns.Some? && ns.value in slugs) ==> SameKeys(w.store.disk, ClearedAll(w.store.disk, slugs), ns)
    {
      ClearedAllIs(w.store.disk, slugs, ns);
    }
    hide Empty, SameKeys, ClearedAll;
  }

  // ----- reloads -----

  /**
   The slots of a workspace folded: the older per-agent ones go, and the new chat has its own value, or else that of
   the one slot that is its own.
   */
  ghost predicate Folds<T>(stored: map<string, T>, own: string, next: map<string, T>) {
    && (forall k :: k != "__new__" ==> (k in next <==> k in stored && !("__new__:" <= k)))
    && (forall k :: k != "__new__" && k in next ==> next[k] == stored[k])
    && ("__new__" in next <==> "__new__" in stored || own in stored)
    && ("__new__" in stored ==> next["__new__"] == stored["__new__"])
    && ("__new__" !in stored && own in stored ==> next["__new__"] == stored[own])
  }

  /** The older slot of the agent stored for this workspace, or of no agent. */
  ghost function OwnSlot(disk: Disk, ns: Namespace): string {
    "__new__:" + if ns in disk.agents then disk.agents[ns] else ""
  }

  /** A reload adopts the slot of the agent that the current workspace has stored, for texts and uploads alike. */
  lemma ReloadAdopts(s: Store)
    ensures var ns, t := NamespaceOf(s.slug), Reloaded(s);
            && Folds(DraftsAt(s.disk, ns), OwnSlot(s.disk, ns), t.mem.drafts)
            && Folds(UploadsAt(s.disk, ns), OwnSlot(s.disk, ns), t.mem.attachments)
            && t.mem.applied == AppliedAt(s.disk, ns) && t.mem.restores == RestoresAt(s.disk, ns)
            && t.slug == s.slug && !t.reloadPending && t.disk.agents == s.disk.agents
  {
    var ns := NamespaceOf(s.slug);
    var agent := AgentAt(s.disk, ns);
    MigratedFolds(DraftsAt(s.disk, ns), agent);
    MigratedFolds(UploadsAt(s.disk, ns), agent);
    hide Migrated, UploadsOf, QueuesOf, Somes, Folds, HasLegacy;
  }

  lemma MigratedFolds<T>(stored: map<string, T>, agent: Option<string>)
    ensures Folds(stored, "__new__:" + (if agent.Some? then agent.value else ""), Migrated(stored, agent))
  {
    assert forall k :: IsLegacy(k) <==> "__new__:" <= k;
    MigratedFacts(stored, agent);
    hide Migrated, IsLegacy;
  }

  /** A new page reads the keys of no workspace, with the agent stored there, and forgets every request. */
  lemma RestartLeaves(w: World)
    requires |w.uploads.aborted| == |w.requests|
    ensures var v, disk := Step(w, Restart), w.store.disk;
            && Folds(DraftsAt(disk, None), OwnSlot(disk, None), v.store.mem.drafts)
            && Folds(UploadsAt(disk, None), OwnSlot(disk, None), v.store.mem.attachments)
            && v.store.mem.applied == AppliedAt(disk, None) && v.store.mem.restores == RestoresAt(disk, None)
            && v.store.slug.None? && !v.store.reloadPending && v.loaded.None?
            && v.uploads.controllers == map[] && v.uploads.aborted == w.uploads.aborted
            && |v.requests| == |w.requests|
            && forall r :: 0 <= r < |w.requests| ==>
                 v.requests[r].done && v.requests[r].slot == w.requests[r].slot && v.requests[r].home == w.requests[r].home
  {
    ReloadAdopts(Store(None, false, w.store.disk, EMPTY_MEMORY));
    hide Folds, OwnSlot, Reloaded;
  }

  /** The event removes what is stored for the workspace, or chooses another agent for it. */
  ghost predicate LosesAgent(w: World, e: Event, ns: Namespace, agent: string) {
    || (e.Logout? && ns.Some? && ns.value in e.slugs) || (e.DeleteWorkspace? && ns == Some(e.doomed))
    || (e.ChooseAgent? && Current(w) == ns && e.agent != agent)
  }

  ghost predicate HasAgent(w: World, ns: Namespace, agent: string) {
    ns in w.store.disk.agents && w.store.disk.agents[ns] == agent
  }

  lemma ResetKeepsAgent(w: World, e: Event, ns: Namespace, agent: string)
    requires Enabled(w, e) && |w.uploads.aborted| == |w.requests| && HasAgent(w, ns, agent) && !LosesAgent(w, e, ns, agent) && IsReset(e)
    ensures HasAgent(Step(w, e), ns, agent)
  {
    if e.Logout? {
      LogoutLeaves(w, e.slugs);
      hide Step, Enabled, SameTexts, SameBlob, SameLedger;
    } else if e.DeleteWorkspace? {
      DeleteLeaves(w, e.doomed);
      hide Step, Enabled, SameTexts, SameBlob, SameLedger;
    } else {
      ReloadAdopts(w.store);
      ReloadAdopts(Store(None, false, w.store.disk, EMPTY_MEMORY));
      hide Reloaded, Folds;
    }
  }

  lemma StepKeepsAgent(w: World, e: Event, ns: Namespace, agent: string)
    requires Enabled(w, e) && |w.uploads.aborted| == |w.requests| && HasAgent(w, ns, agent) && !LosesAgent(w, e, ns, agent)
    ensures HasAgent(Step(w, e), ns, agent)
  {
    if IsReset(e) {
      ResetKeepsAgent(w, e, ns, agent);
      hide Step, Enabled;
    } else if e.ChooseAgent? {
      ChooseAgentLeaves(w, e.agent);
      hide Step, Enabled;
    } else {
      StepIsShaped(w, e);
      hide Step, Enabled, WithUploads, WithDrafts, WithApplied, WithRestores;
      ShapedKeepsAgents(w.store, e, Step(w, e).store);
    }
  }

  lemma ShapedKeepsAgents(s: Store, e: Event, t: Store)
    requires Shaped(s, e, t) && !e.ChooseAgent?
    ensures t.disk.agents == s.disk.agents
  {
  }

  /** No event of the run loses the agent. */
  ghost predicate NeverLosesAgent(w: World, events: seq<Event>, ns: Namespace, agent: string)
    requires Consistent(w) && Possible(w, events)
    decreases |events|
  {
    events == []
    || (!LosesAgent(w, events[0], ns, agent)
        && (StepKeepsConsistent(w, events[0]); NeverLosesAgent(Step(w, events[0]), events[1..], ns, agent)))
  }

  lemma {:induction false} RunKeepsAgent(w: World, events: seq<Event>, ns: Namespace, agent: string)
    requires Consistent(w) && Possible(w, events) && HasAgent(w, ns, agent) && NeverLosesAgent(w, events, ns, agent)
    ensures HasAgent(After(w, events), ns, agent)
    decreases |events|
  {
    assert |w.uploads.aborted| == |w.requests|;
    hide Step, Enabled, Consistent, HasAgent, LosesAgent;
    if events != [] {
      StepKeepsConsistent(w, events[0]);
      StepKeepsAgent(w, events[0], ns, agent);
      RunKeepsAgent(Step(w, events[0]), events[1..], ns, agent);
    }
  }

  /**
   Once an agent was chosen in a workspace, and until its keys are removed or another one is chosen there, every reload
   of that workspace adopts the slot of that agent, wherever the user has been in between.
   */
  lemma NextReloadAdopts(w: World, agent: string, events: seq<Event>)
    requires Consistent(w) && |w.uploads.aborted| == |w.requests| && Consistent(Step(w, ChooseAgent(agent)))
    requires var chosen := Step(w, ChooseAgent(agent));
             Possible(chosen, events) && NeverLosesAgent(chosen, events, Current(w), agent)
    requires var v := After(Step(w, ChooseAgent(agent)), events);
             v.store.reloadPending && Current(v) == Current(w) && |v.uploads.aborted| == |v.requests|
    ensures var v := After(Step(w, ChooseAgent(agent)), events);
            && Enabled(v, Reload)
            && Folds(DraftsAt(v.store.disk, Current(w)), "__new__:" + agent, Step(v, Reload).store.mem.drafts)
            && Folds(UploadsAt(v.store.disk, Current(w)), "__new__:" + agent, Step(v, Reload).store.mem.attachments)
  {
    ChooseAgentLeaves(w, agent);
    var chosen := Step(w, ChooseAgent(agent));
    RunKeepsAgent(chosen, events, Current(w), agent);
    var v := After(chosen, events);
    hide After, Possible, Folds, Consistent;
    ReloadStep(v);
    ReloadAdopts(v.store);
    hide Step, Reloaded, Enabled;
  }

  lemma ReloadStep(w: World)
    requires |w.uploads.aborted| == |w.requests| && w.store.reloadPending
    ensures Enabled(w, Reload) && Step(w, Reload).store == Reloaded(w.store)
  {
    hide Reloaded;
  }

  // ----- outcomes -----

  /** The end of a request marks it as ended and drops its tracked controller, its own one only. */
  lemma EndLeaves(w: World, e: Event)
    requires e.End? && Enabled(w, e) && Consistent(w)
    ensures var v, id := Step(w, e), Minted(e.request);
            && v == w.(store := v.store, uploads := v.uploads, requests := v.requests)
            && v.store == w.store.(disk := w.store.disk.(attachments := v.store.disk.attachments),
                                   mem := w.store.mem.(attachments := v.store.mem.attachments))
            && |v.requests| == |w.requests| && v.requests[e.request] == Request(w.requests[e.request].slot, w.requests[e.request].home, true)
            && (forall r :: 0 <= r < |w.requests| && r != e.request ==> v.requests[r] == w.requests[r])
            && v.uploads.aborted == w.uploads.aborted
            && v.uploads.controllers == if id in w.uploads.controllers && w.uploads.controllers[id] == e.request
                                        then w.uploads.controllers - {id} else w.uploads.controllers
  {
    var r := e.request;
    OutcomeHasId(Minted(r), w.uploads.aborted[r], e.response);
    OutcomeIsLocal(w.store, w.requests[r].slot, EndedOutcome(w, r, e.response), e.keepFailed);
    OutcomeStaysPut(w.store, w.requests[r].slot, EndedOutcome(w, r, e.response), e.keepFailed);
    hide Received, OutcomeOf, Stored, SameBlob, HasUpload;
  }

  lemma OutcomeStaysPut(s: Store, slot: string, outcome: Option<Outcome>, keepFailed: bool)
    ensures var t := Received(s, slot, outcome, keepFailed); t.slug == s.slug && t.reloadPending == s.reloadPending
  {
    hide WithUploads;
  }

  /** A failure that is kept has the name, size and type of the first row with the id, and the message of the failure. */
  lemma FailureKeepsFile(w: World, e: Event, k: nat, i: nat)
    requires e.End? && Enabled(w, e) && Consistent(w) && e.keepFailed && !w.uploads.aborted[e.request] && e.response.OtherError?
    requires var rows := RowsOf(w, w.requests[e.request].slot);
             && k <= i < |rows| && rows[k].id == rows[i].id == Minted(e.request)
             && forall j :: 0 <= j < k ==> rows[j].id != Minted(e.request)
    ensures var rows, next := RowsOf(w, w.requests[e.request].slot), RowsOf(Step(w, e), w.requests[e.request].slot);
            && |next| == |rows|
            && next[i] == Pending(Minted(e.request), rows[k].filename, rows[k].size, rows[k].contentType, Failed,
                                  Some(if e.response.message.Some? then e.response.message.value else "Upload failed"))
  {
    FoundIsFirst(RowsOf(w, w.requests[e.request].slot), Minted(e.request), k);
    hide WithUploads, Stored, Finished, FindUpload, IsLegacy;
  }

  /** What arrives is kept as a completed upload under the id of its placeholder, even after an abort. */
  lemma DeliveryIsKept(w: World, e: Event, i: nat)
    requires e.End? && Enabled(w, e) && Consistent(w) && e.response.Delivered?
    requires i < |RowsOf(w, w.requests[e.request].slot)| && RowsOf(w, w.requests[e.request].slot)[i].id == Minted(e.request)
    ensures var next, a := RowsOf(Step(w, e), w.requests[e.request].slot), e.response.attachment;
            && |next| == |RowsOf(w, w.requests[e.request].slot)|
            && next[i].Uploaded? && next[i].id == Minted(e.request) && next[i].filename == a.filename && next[i].size == a.sizeBytes
            && next[i].contentType == (if a.contentType == "" then None else Some(a.contentType))
            && next[i].attachment == a.(downloadUrl := "")
  {
    hide WithUploads, Stored, Finished, IsLegacy;
  }

  /** An error of a request whose signal is set, or one that says so itself, leaves the store as it was. */
  lemma AbortedErrorsAreSilent(w: World, e: Event)
    requires e.End? && Enabled(w, e) && |w.uploads.aborted| == |w.requests|
    requires e.response.AbortError? || (e.response.OtherError? && w.uploads.aborted[e.request])
    ensures Step(w, e).store == w.store
  {
    hide Finished;
  }

  lemma SignalStays(w: World, e: Event, r: nat)
    requires Enabled(w, e) && |w.uploads.aborted| == |w.requests| && r < |w.requests| && w.uploads.aborted[r]
    ensures r < |Step(w, e).uploads.aborted| && Step(w, e).uploads.aborted[r]
  {
    hide AddUpload, RemoveUpload, SetDraft, AppendDraft, SetUploads, AddAttachment, ClearDraft, Received, LoggedOut;
    hide Reloaded, Restarted, Cleared, IsLegacy, MarkApplied, ForgetApplied, EnqueueRestore, DequeueRestore, SelectAgent, SwitchSlug;
  }

  /** Once its signal is set, no later error of a request ever changes the store, whatever happens in between. */
  lemma {:induction false} AbortedStaysSilent(w: World, events: seq<Event>, end: Event)
    requires Consistent(w) && Possible(w, events) && Enabled(After(w, events), end)
    requires end.End? && !end.response.Delivered? && end.request < |w.requests| && w.uploads.aborted[end.request]
    ensures end.request < |After(w, events).uploads.aborted| && After(w, events).uploads.aborted[end.request]
    ensures Step(After(w, events), end).store == After(w, events).store
    decreases |events|
  {
    if events == [] {
      AbortedErrorsAreSilent(w, end);
    } else {
      StepKeepsConsistent(w, events[0]);
      StepIsLater(w, events[0]);
      SignalStays(w, events[0], end.request);
      hide Step, Enabled, Consistent;
      AbortedStaysSilent(Step(w, events[0]), events[1..], end);
    }
  }

  /** A logout signals every request still in flight. */
  lemma LogoutSignals(w: World, slugs: seq<string>, r: nat)
    requires |w.uploads.aborted| == |w.requests| && Tracks(w) && r < |w.requests| && !w.requests[r].done
    ensures var v := Step(w, Logout(slugs));
            |v.uploads.aborted| == |v.requests| && r < |v.requests| && v.uploads.aborted[r] && v.uploads.controllers == map[]
  {
    hide ClearedAll;
    if !w.uploads.aborted[r] {
      assert IsLive(w, Minted(r));
      assert w.uploads.controllers[Minted(r)] == r;
      assert r in w.uploads.controllers.Values;
    }
  }

  lemma NothingTracked(disk: Disk)
    ensures Tracks(Initial(disk))
  {
    hide Restarted;
  }

  /** So in every run from any storage, no error of a request in flight at a logout is ever noticed. */
  lemma LogoutSilencesErrors(disk: Disk, before: seq<Event>, slugs: seq<string>, events: seq<Event>, end: Event)
    requires Foreign(disk) && Consistent(Initial(disk)) && Possible(Initial(disk), before)
    requires var w := After(Initial(disk), before);
             && end.End? && !end.response.Delivered? && end.request < |w.requests| && !w.requests[end.request].done
             && |w.uploads.aborted| == |w.requests|
             && Consistent(Step(w, Logout(slugs))) && Possible(Step(w, Logout(slugs)), events)
             && Enabled(After(Step(w, Logout(slugs)), events), end)
    ensures var v := After(Step(After(Initial(disk), before), Logout(slugs)), events);
            && end.request < |v.uploads.aborted| && v.uploads.aborted[end.request]
            && Step(v, end).store == v.store
  {
    var w := After(Initial(disk), before);
    NothingTracked(disk);
    hide *;
    RunTracks(Initial(disk), before);
    LogoutSignals(w, slugs, end.request);
    AbortedStaysSilent(Step(w, Logout(slugs)), events, end);
  }
}
