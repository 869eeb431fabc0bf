/**
 The store, the coordinator and the requests in flight, stepped together in any order: uploads outlive the composer
 that picked them, and their outcomes race with clears, removals, logout, workspace switches and page loads.
 */
module DraftProtocol {
  import opened Wrappers
  import opened DraftUploads
  import opened DraftStorage
  import opened ChatStore
  import opened UploadCoordinator

  /** One upload: the draft slot and the workspace the file was dropped in, and whether the request has ended. */
  datatype Request = Request(slot: string, home: Namespace, done: bool)

  /** `loaded` is the workspace the maps in memory were read from. The n-th request has the id Minted(n). */
  datatype World = World(store: Store, uploads: Coordinator, requests: seq<Request>, loaded: Namespace)

  datatype Event =
    | Pick(slot: string, filename: string, size: int, contentType: Option<string>)
    | End(request: nat, response: Response, keepFailed: bool)
    | Abort(id: UploadId)
    | Dismiss(slot: string, id: UploadId)
    | SetText(slot: string, text: string)
    | AppendText(slot: string, markdown: string)
    | SetList(slot: string, uploads: seq<DraftUpload>)
    | Attach(slot: string, attachment: Attachment)
    | Clear(slot: string)
    | Mark(restoreId: string)
    | Forget(restoreId: string)
    | Enqueue(restore: SendRestore)
    | Dequeue(session: string, restoreId: string)
    | ChooseAgent(agent: string)
    | Switch(slug: Option<string>)
    | Reload
    | Restart
    | Logout(slugs: seq<string>)
    | DeleteWorkspace(doomed: string)

  function Current(w: World): Namespace {
    NamespaceOf(w.store.slug)
  }

  function RowsOf(w: World, slot: string): seq<DraftUpload> {
    At(w.store.mem.attachments, slot)
  }

  predicate StillUploading(rows: seq<DraftUpload>, id: UploadId) {
    exists u :: u in rows && u.id == id && u.InFlight()
  }

  predicate HoldsPlaceholder(w: World, r: nat)
    requires r < |w.requests|
  {
    HasUpload(RowsOf(w, w.requests[r].slot), Minted(r))
  }

  /**
   A slot is a session id or the unified new-chat slot, never a legacy one. A request ends once. A list set on a slot
   holds only rows of that slot and completed rows of known attachments. A reload runs when one is pending.
   */
  predicate Enabled(w: World, e: Event) {
    match e
    case Pick(slot, _, _, _) => !IsLegacy(slot)
    case End(r, _, _) => r < |w.requests| && !w.requests[r].done
    case SetList(slot, uploads) =>
      forall i :: 0 <= i < |uploads| ==> uploads[i] in RowsOf(w, slot) || (uploads[i].Uploaded? && uploads[i].id.Given?)
    case Reload => w.store.reloadPending
    case _ => true
  }

  function Placeholder(n: nat, filename: string, size: int, contentType: Option<string>): DraftUpload {
    Pending(Minted(n), filename, size, contentType, Uploading, None)
  }

  /** What the composer does with an outcome: a failure is kept as a failed row or dropped. */
  function Received(s: Store, slot: string, outcome: Option<Outcome>, keepFailed: bool): Store {
    match outcome
    case None => s
    case Some(UploadedOutcome(id, a)) => SettleUpload(s, slot, id, a)
    case Some(FailedOutcome(id, error)) =>
      if keepFailed then FailUpload(s, slot, id, Some(error)) else RemoveUpload(s, slot, id)
  }

  function EndedOutcome(w: World, r: nat, response: Response): Option<Outcome>
    requires r < |w.uploads.aborted|
  {
    OutcomeOf(Minted(r), w.uploads.aborted[r], response)
  }

  /** A new page forgets every request. */
  function AllDone(requests: seq<Request>): (all: seq<Request>)
    ensures |all| == |requests| && forall i :: 0 <= i < |all| ==> all[i] == requests[i].(done := true)
  {
    seq(|requests|, i requires 0 <= i < |requests| => requests[i].(done := true))
  }

  ghost function Step(w: World, e: Event): World
    requires Enabled(w, e) && |w.uploads.aborted| == |w.requests|
  {
    match e
    case Pick(slot, filename, size, contentType) =>
      var n := |w.requests|;
      w.(store := AddUpload(w.store, slot, Placeholder(n, filename, size, contentType)),
         uploads := Started(w.uploads, Minted(n)),
         requests := w.requests + [Request(slot, w.loaded, false)])
    case End(r, response, keepFailed) =>
      w.(store := Received(w.store, w.requests[r].slot, EndedOutcome(w, r, response), keepFailed),
         uploads := Finished(w.uploads, Minted(r), r),
         requests := w.requests[r := w.requests[r].(done := true)])
    case Abort(id) => w.(uploads := AbortedOne(w.uploads, id))
    case Dismiss(slot, id) =>
      w.(uploads := if StillUploading(RowsOf(w, slot), id) then AbortedOne(w.uploads, id) else w.uploads,
         store := RemoveUpload(w.store, slot, id))
    case SetText(slot, text) => w.(store := SetDraft(w.store, slot, text))
    case AppendText(slot, markdown) => w.(store := AppendDraft(w.store, slot, markdown))
    case SetList(slot, uploads) => w.(store := SetUploads(w.store, slot, uploads))
    case Attach(slot, a) => w.(store := AddAttachment(w.store, slot, a))
    case Clear(slot) => w.(store := ClearDraft(w.store, slot))
    case Mark(id) => w.(store := MarkApplied(w.store, id))
    case Forget(id) => w.(store := ForgetApplied(w.store, id))
    case Enqueue(restore) => w.(store := EnqueueRestore(w.store, restore))
    case Dequeue(session, id) => w.(store := DequeueRestore(w.store, session, id))
    case ChooseAgent(agent) => w.(store := SelectAgent(w.store, agent))
    case Switch(slug) => w.(store := SwitchSlug(w.store, slug))
    case Reload => w.(store := Reloaded(w.store), loaded := Current(w))
    case Restart => World(Restarted(w.store.disk), Coordinator(map[], w.uploads.aborted), AllDone(w.requests), None)
    case Logout(slugs) => w.(uploads := AbortedAll(w.uploads), store := LoggedOut(w.store, slugs))
    case DeleteWorkspace(slug) => w.(store := w.store.(disk := Cleared(w.store.disk, slug)))
  }

  // ----- where upload rows come from -----

  /** The stored row of an upload, in this workspace's blob at this slot. */
  ghost predicate Stored(disk: Disk, ns: Namespace, slot: string, u: DraftUpload) {
    var lists := ValueAt(disk.attachments, ns, map[]);
    slot in lists && lists[slot].Rows? && StoredUpload(u) in lists[slot].rows
  }

  /** The event may rewrite the stored uploads of the current workspace from memory. */
  ghost predicate WritesUploads(w: World, e: Event) {
    || e.Pick? || e.Dismiss? || e.SetList? || e.Attach? || e.Clear?
    || (e.End? && e.request < |w.requests| && HoldsPlaceholder(w, e.request))
  }

  /** The ways a row with a minted id can be in memory after a step. */
  ghost predicate MemoryRowFrom(w: World, e: Event, slot: string, u: DraftUpload) {
    || (u in RowsOf(w, slot) && !e.Reload? && !e.Restart? && !e.Logout?)
    || (e.Pick? && slot == e.slot && u == Placeholder(|w.requests|, e.filename, e.size, e.contentType))
    || (e.End? && e.request < |w.requests| && slot == w.requests[e.request].slot && HoldsPlaceholder(w, e.request)
        && u.id == Minted(e.request) && !u.InFlight())
    || ((e.Reload? || e.Restart?) && !u.InFlight()
        && IsSaved(w.store.disk, if e.Reload? then Current(w) else None, slot, u))
  }

  /** Stored at the slot, or for the new chat at an older slot of it. */
  ghost predicate IsSaved(disk: Disk, ns: Namespace, slot: string, u: DraftUpload) {
    exists from :: Stored(disk, ns, from, u) && (from == slot || (IsLegacy(from) && slot == DRAFT_NEW_SESSION))
  }

  /** The ways a stored row can be there after a step: from before, or written from memory to the current workspace. */
  ghost predicate StoredRowFrom(w: World, e: Event, ns: Namespace, slot: string, u: DraftUpload)
    requires Enabled(w, e) && |w.uploads.aborted| == |w.requests|
  {
    || Stored(w.store.disk, ns, slot, u)
    || ((WritesUploads(w, e) || e.Reload? || e.Restart?)
        && ns == Current(Step(w, e)) && u in RowsOf(Step(w, e), slot))
  }

  lemma StoredAfterWrite(disk: Disk, ns: Namespace, next: map<string, seq<DraftUpload>>, at: Namespace, slot: string, u: DraftUpload)
    requires Stored(WithUploads(disk, ns, next), at, slot, u)
    ensures if at == ns then u in At(next, slot) else Stored(disk, at, slot, u)
  {
  }

  lemma LoadedRow(disk: Disk, ns: Namespace, agent: Option<string>, slot: string, u: DraftUpload)
    requires u in At(Load(disk, ns, agent).attachments, slot) && u.id.Minted?
    ensures !u.InFlight()
    ensures IsSaved(disk, ns, slot, u)
  {
    hide Normalized, IsLegacy, Migrated, WithUploads, WithDrafts;
    var slots := UploadsAt(disk, ns);
    MigratedFacts(slots, agent);
    var from := if slot == DRAFT_NEW_SESSION then NewChatSource(slots, agent).value else slot;
    assert u in slots[from];
    LoadedFromRows(ValueAt(disk.attachments, ns, map[])[from].rows, u);
    assert Stored(disk, ns, from, u);
  }

  lemma StoredAfterLoad(disk: Disk, ns: Namespace, agent: Option<string>, at: Namespace, slot: string, u: DraftUpload)
    requires Stored(Load(disk, ns, agent).disk, at, slot, u)
    ensures Stored(disk, at, slot, u) || (at == ns && u in At(Load(disk, ns, agent).attachments, slot))
  {
    hide Migrated, UploadsOf, HasLegacy, IsLegacy, Stored, WithUploads;
    var disk1 := if HasLegacy(DraftsAt(disk, ns)) then WithDrafts(disk, ns, Migrated(DraftsAt(disk, ns), agent)) else disk;
    SameUploadsSameRows(disk1, disk, at, slot, u);
    if HasLegacy(UploadsAt(disk, ns)) { StoredAfterWrite(disk1, ns, Migrated(UploadsAt(disk, ns), agent), at, slot, u); }
  }

  lemma SameUploadsSameRows(a: Disk, b: Disk, at: Namespace, slot: string, u: DraftUpload)
    requires a.attachments == b.attachments
    ensures Stored(a, at, slot, u) <==> Stored(b, at, slot, u)
  {
  }

  lemma StoredAfterClear(disk: Disk, doomed: string, at: Namespace, slot: string, u: DraftUpload)
    requires Stored(Cleared(disk, doomed), at, slot, u)
    ensures at != Some(doomed) && Stored(disk, at, slot, u)
  {
  }

  lemma {:induction false} StoredAfterClears(disk: Disk, slugs: seq<string>, at: Namespace, slot: string, u: DraftUpload)
    requires Stored(ClearedAll(disk, slugs), at, slot, u)
    ensures Stored(disk, at, slot, u)
    ensures at.Some? ==> at.value !in slugs
  {
    if slugs != [] {
      var front, last := slugs[..|slugs| - 1], slugs[|slugs| - 1];
      StoredAfterClear(ClearedAll(disk, front), last, at, slot, u);
      StoredAfterClears(disk, front, at, slot, u);
      assert slugs == front + [last];
    }
  }

  lemma OutcomeRows(s: Store, slot: string, outcome: Option<Outcome>, keepFailed: bool, id: UploadId, at: string, u: DraftUpload)
    requires outcome.Some? ==> outcome.value.id == id
    requires u in At(Received(s, slot, outcome, keepFailed).mem.attachments, at)
    ensures u in At(s.mem.attachments, at)
            || (at == slot && HasUpload(At(s.mem.attachments, slot), id) && u.id == id && !u.InFlight())
  {
    hide PersistUploads;
    var rows := At(s.mem.attachments, slot);
    forall next ensures PersistUploads(s, next).mem.attachments == next { PersistRemembers(s); }
    if outcome.Some? && HasUpload(rows, id) && at == slot {
      RowsAfterOutcome(s, slot, outcome.value, keepFailed, u);
    }
  }

  lemma RowsAfterOutcome(s: Store, slot: string, outcome: Outcome, keepFailed: bool, u: DraftUpload)
    requires HasUpload(At(s.mem.attachments, slot), outcome.id)
    requires u in At(Received(s, slot, Some(outcome), keepFailed).mem.attachments, slot)
    ensures u in At(s.mem.attachments, slot) || (u.id == outcome.id && !u.InFlight())
  {
    hide WithUploads;
  }

  ghost predicate IsUploadEvent(e: Event) {
    e.Pick? || e.End? || e.Dismiss? || e.SetList? || e.Attach? || e.Clear?
  }

  ghost predicate IsReset(e: Event) {
    e.Reload? || e.Restart? || e.Logout? || e.DeleteWorkspace?
  }

  /** Texts, restores, the agent, aborts and switches leave the uploads alone. */
  lemma OthersKeepUploads(w: World, e: Event)
    requires Enabled(w, e) && |w.uploads.aborted| == |w.requests| && !IsUploadEvent(e) && !IsReset(e)
    ensures Step(w, e).store.mem.attachments == w.store.mem.attachments
    ensures Step(w, e).store.disk.attachments == w.store.disk.attachments
  {
    if e.Enqueue? || e.Dequeue? {
      hide Pruned, At, AllSome, StoredQueues, HasRestore, WithoutRestore, Put;
    } else if e.Mark? || e.Forget? {
      hide AllSome, WithoutId;
    } else {
      hide AbortedOne, Pruned, Appended, At;
    }
  }

  /** Every row with a minted id in memory comes from one of these places. */
  lemma MemoryRowsHaveSources(w: World, e: Event, slot: string, u: DraftUpload)
    requires Enabled(w, e) && |w.uploads.aborted| == |w.requests|
    requires u in RowsOf(Step(w, e), slot) && u.id.Minted?
    ensures MemoryRowFrom(w, e, slot, u)
  {
    if IsUploadEvent(e) && !e.End? {
      UploadRows(w, e, slot, u);
    } else if e.End? {
      EndRows(w, e, slot, u);
    } else if IsReset(e) {
      ResetMemoryRows(w, e, slot, u);
    } else {
      OthersKeepUploads(w, e);
      hide Step, Enabled;
    }
  }

  lemma EndRows(w: World, e: Event, slot: string, u: DraftUpload)
    requires e.End? && Enabled(w, e) && |w.uploads.aborted| == |w.requests|
    requires u in RowsOf(Step(w, e), slot)
    ensures MemoryRowFrom(w, e, slot, u)
  {
    hide OutcomeOf, Finished, Received;
    var r := e.request;
    OutcomeHasId(Minted(r), w.uploads.aborted[r], e.response);
    OutcomeRows(w.store, w.requests[r].slot, EndedOutcome(w, r, e.response), e.keepFailed, Minted(r), slot, u);
  }

  lemma ResetMemoryRows(w: World, e: Event, slot: string, u: DraftUpload)
    requires Enabled(w, e) && |w.uploads.aborted| == |w.requests| && IsReset(e)
    requires u in RowsOf(Step(w, e), slot) && u.id.Minted?
    ensures MemoryRowFrom(w, e, slot, u)
  {
    hide Load, Stored, IsSaved, IsLegacy, ClearedAll, Cleared, AbortedAll;
    if e.Reload? {
      LoadedRow(w.store.disk, Current(w), AgentAt(w.store.disk, Current(w)), slot, u);
    } else if e.Restart? {
      LoadedRow(w.store.disk, None, AgentAt(w.store.disk, None), slot, u);
    }
  }

  lemma UploadRows(w: World, e: Event, slot: string, u: DraftUpload)
    requires Enabled(w, e) && |w.uploads.aborted| == |w.requests|
    requires e.Pick? || e.Dismiss? || e.SetList? || e.Attach? || e.Clear?
    requires u in RowsOf(Step(w, e), slot) && u.id.Minted?
    ensures u in RowsOf(w, slot) || (e.Pick? && slot == e.slot && u == Placeholder(|w.requests|, e.filename, e.size, e.contentType))
  {
    hide WithUploads, WithDrafts, AbortedOne, Started, IsLegacy;
  }

  lemma OutcomeHasId(id: UploadId, aborted: bool, response: Response)
    ensures var o := OutcomeOf(id, aborted, response); o.Some? ==> o.value.id == id
  {
  }

  /** Every stored row was there before, or mirrors a row in memory under the current workspace. */
  lemma StoredRowsHaveSources(w: World, e: Event, ns: Namespace, slot: string, u: DraftUpload)
    requires Enabled(w, e) && |w.uploads.aborted| == |w.requests|
    requires Stored(Step(w, e).store.disk, ns, slot, u)
    ensures StoredRowFrom(w, e, ns, slot, u)
  {
    if IsReset(e) {
      ResetRowsHaveSources(w, e, ns, slot, u);
    } else {
      OtherWrites(w, e, ns, slot, u);
    }
  }

  lemma ResetRowsHaveSources(w: World, e: Event, ns: Namespace, slot: string, u: DraftUpload)
    requires Enabled(w, e) && |w.uploads.aborted| == |w.requests| && IsReset(e)
    requires Stored(Step(w, e).store.disk, ns, slot, u)
    ensures StoredRowFrom(w, e, ns, slot, u)
  {
    hide WithUploads, WithDrafts, Load, AbortedAll, Stored, IsLegacy, ClearedAll, Cleared;
    var before := w.store.disk;
    match e {
      case Reload => StoredAfterLoad(before, Current(w), AgentAt(before, Current(w)), ns, slot, u);
      case Restart => StoredAfterLoad(before, None, AgentAt(before, None), ns, slot, u);
      case Logout(slugs) => StoredAfterClears(before, slugs, ns, slot, u);
      case DeleteWorkspace(doomed) => StoredAfterClear(before, doomed, ns, slot, u);
    }
  }

  /** What an event that is no reset does to the store: nothing, or one map written through, a clear writing two. */
  ghost predicate Shaped(s: Store, e: Event, t: Store) {
    match e
    case Clear(_) => t == s || t == PersistUploads(PersistDrafts(s, t.mem.drafts), t.mem.attachments)
    case SetText(_, _) => t == PersistDrafts(s, t.mem.drafts)
    case AppendText(_, _) => t == PersistDrafts(s, t.mem.drafts)
    case Mark(_) => t == s || t == PersistApplied(s, t.mem.applied)
    case Forget(_) => t == s || t == PersistApplied(s, t.mem.applied)
    case Enqueue(_) => t == s || t == PersistRestores(s, t.mem.restores)
    case Dequeue(_, _) => t == s || t == PersistRestores(s, t.mem.restores)
    case ChooseAgent(agent) => t == SelectAgent(s, agent)
    case Switch(slug) => t == SwitchSlug(s, slug)
    case _ => t == s || t == PersistUploads(s, t.mem.attachments)
  }

  lemma PersistRemembers(s: Store)
    ensures forall next :: PersistUploads(s, next).mem.attachments == next
    ensures forall next :: PersistDrafts(s, next).mem.drafts == next
    ensures forall next :: PersistApplied(s, next).mem.applied == next
    ensures forall next :: PersistRestores(s, next).mem.restores == next
  {
    hide WithUploads, WithDrafts, WithApplied, WithRestores;
  }

  lemma StepIsShaped(w: World, e: Event)
    requires Enabled(w, e) && |w.uploads.aborted| == |w.requests| && !IsReset(e)
    ensures Shaped(w.store, e, Step(w, e).store)
  {
    if e.Clear? {
      ClearIsShaped(w.store, e.slot);
    } else if IsUploadEvent(e) {
      UploadIsShaped(w, e);
    } else {
      PersistRemembers(w.store);
      hide PersistDrafts, PersistApplied, PersistRestores, SelectAgent, SwitchSlug;
      hide AbortedOne, IsLegacy, At, Appended, HasRestore, WithoutRestore, Put;
    }
  }

  lemma UploadIsShaped(w: World, e: Event)
    requires Enabled(w, e) && |w.uploads.aborted| == |w.requests| && IsUploadEvent(e) && !e.Clear?
    ensures Shaped(w.store, e, Step(w, e).store)
  {
    PersistRemembers(w.store);
    hide PersistUploads, AbortedOne, Started, Finished, IsLegacy, OutcomeOf, At, HasUpload, HoldsAny, Put;
  }

  lemma ClearIsShaped(s: Store, slot: string)
    ensures var t := ClearDraft(s, slot);
            t == s || t == PersistUploads(PersistDrafts(s, t.mem.drafts), t.mem.attachments)
  {
    hide WithUploads, WithDrafts;
  }

  /** The guard of the event's write of uploads holds. */
  ghost predicate WriteFires(w: World, e: Event)
    requires Enabled(w, e) && |w.uploads.aborted| == |w.requests|
  {
    match e
    case Pick(slot, _, _, _) => !HasUpload(RowsOf(w, slot), Minted(|w.requests|))
    case End(r, response, _) => HoldsPlaceholder(w, r) && EndedOutcome(w, r, response).Some?
    case Dismiss(slot, id) => HasUpload(RowsOf(w, slot), id)
    case SetList(_, _) => true
    case Attach(_, a) => a.id != ""
    case Clear(slot) => slot in w.store.mem.drafts || slot in w.store.mem.attachments
    case _ => false
  }

  /** What the write of uploads starts from: a clear has written the texts before. */
  function BaseDisk(w: World, e: Event): Disk {
    if e.Clear? then WithDrafts(w.store.disk, Current(w), w.store.mem.drafts - {e.slot}) else w.store.disk
  }

  lemma WritesOrNothing(w: World, e: Event)
    requires Enabled(w, e) && |w.uploads.aborted| == |w.requests| && IsUploadEvent(e)
    ensures if WriteFires(w, e)
            then Step(w, e).store.disk == WithUploads(BaseDisk(w, e), Current(w), Step(w, e).store.mem.attachments)
            else Step(w, e).store == w.store
  {
    if e.End? {
      OutcomeWrites(w, e);
      hide WithUploads, Finished, IsLegacy, OutcomeOf, At, Received, HasUpload;
    } else if e.Clear? {
      hide WithUploads, WithDrafts;
    } else {
      hide WithUploads, AbortedOne, Started, IsLegacy, HasUpload, At, StillUploading;
    }
  }

  lemma OutcomeWrites(w: World, e: Event)
    requires Enabled(w, e) && |w.uploads.aborted| == |w.requests|
    ensures e.End? ==>
              var r := e.request;
              var s := Received(w.store, w.requests[r].slot, EndedOutcome(w, r, e.response), e.keepFailed);
              if WriteFires(w, e) then s.disk == WithUploads(w.store.disk, Current(w), s.mem.attachments) else s == w.store
  {
    if e.End? { OutcomeHasId(Minted(e.request), w.uploads.aborted[e.request], e.response); }
    hide WithUploads, OutcomeOf;
  }

  lemma OtherWrites(w: World, e: Event, ns: Namespace, slot: string, u: DraftUpload)
    requires Enabled(w, e) && |w.uploads.aborted| == |w.requests|
    requires !IsReset(e)
    requires Stored(Step(w, e).store.disk, ns, slot, u)
    ensures StoredRowFrom(w, e, ns, slot, u)
  {
    var d := Step(w, e).store;
    var s := w.store;
    if IsUploadEvent(e) {
      StepStays(w, e);
      WritesOrNothing(w, e);
      if WriteFires(w, e) { FiringWrites(w, e); }
    } else {
      OthersKeepUploads(w, e);
    }
    hide Step, Stored, WriteFires, WritesUploads, Enabled;
    if IsUploadEvent(e) && WriteFires(w, e) {
      StoredAfterWrite(BaseDisk(w, e), Current(w), d.mem.attachments, ns, slot, u);
      SameUploadsSameRows(BaseDisk(w, e), s.disk, ns, slot, u);
    } else {
      SameUploadsSameRows(d.disk, s.disk, ns, slot, u);
    }
  }

  lemma FiringWrites(w: World, e: Event)
    requires Enabled(w, e) && |w.uploads.aborted| == |w.requests| && WriteFires(w, e)
    ensures WritesUploads(w, e)
  {
  }

  /** Uploads are written without leaving the workspace. */
  lemma StepStays(w: World, e: Event)
    requires Enabled(w, e) && |w.uploads.aborted| == |w.requests| && IsUploadEvent(e)
    ensures Current(Step(w, e)) == Current(w)
  {
    StepIsShaped(w, e);
    var t := Step(w, e).store;
    hide Step, PersistUploads, PersistDrafts;
    UploadsKeepSlug(w.store, t.mem.attachments);
    DraftsKeepSlug(w.store, t.mem.drafts, t.mem.attachments);
  }

  lemma UploadsKeepSlug(s: Store, next: map<string, seq<DraftUpload>>)
    ensures PersistUploads(s, next).slug == s.slug
  {
  }

  lemma DraftsKeepSlug(s: Store, drafts: map<string, string>, next: map<string, seq<DraftUpload>>)
    ensures PersistUploads(PersistDrafts(s, drafts), next).slug == s.slug
  {
  }

  // ----- invariants of one step -----

  /** A row with a minted id belongs to a known request, and is still a placeholder while that is in flight. */
  ghost predicate GoodRow(w: World, u: DraftUpload) {
    u.id.Minted? ==> u.id.n < |w.requests| && (w.requests[u.id.n].done || u.InFlight())
  }

  ghost predicate Consistent(w: World) {
    && |w.uploads.aborted| == |w.requests|
    && (forall slot, u :: u in RowsOf(w, slot) ==> GoodRow(w, u))
    && (forall ns, slot, u :: Stored(w.store.disk, ns, slot, u) ==> GoodRow(w, u))
    && (forall r :: 0 <= r < |w.requests| ==> !IsLegacy(w.requests[r].slot))
    && w.loaded != Some("")
  }

  /** Requests are only added and ended. */
  ghost predicate Later(w: World, v: World) {
    && |w.requests| <= |v.requests|
    && (forall r :: 0 <= r < |w.requests| ==>
          v.requests[r].slot == w.requests[r].slot && v.requests[r].home == w.requests[r].home
          && (w.requests[r].done ==> v.requests[r].done))
  }

  lemma StepIsLater(w: World, e: Event)
    requires Enabled(w, e) && Consistent(w)
    ensures Later(w, Step(w, e))
    ensures |Step(w, e).uploads.aborted| == |Step(w, e).requests|
    ensures e.End? ==> Step(w, e).requests[e.request].done
    ensures e.Pick? ==> |Step(w, e).requests| == |w.requests| + 1
    ensures forall r :: 0 <= r < |Step(w, e).requests| ==> !IsLegacy(Step(w, e).requests[r].slot)
    ensures Step(w, e).loaded != Some("")
  {
    hide WithUploads, WithDrafts, WithApplied, WithRestores, Load, Stored, IsLegacy, Received, ClearedAll, Cleared, Appended;
    hide AddUpload, RemoveUpload, SetDraft, AppendDraft, SetUploads, AddAttachment, ClearDraft, OutcomeOf;
  }

  lemma StepKeepsConsistent(w: World, e: Event)
    requires Enabled(w, e) && Consistent(w)
    ensures Consistent(Step(w, e))
  {
    var v := Step(w, e);
    StepIsLater(w, e);
    hide Step, Stored, IsLegacy, Enabled, WritesUploads;
    forall slot, u | u in RowsOf(v, slot) ensures GoodRow(v, u) { MemoryRowStaysGood(w, e, slot, u); }
    forall ns, slot, u | Stored(v.store.disk, ns, slot, u) ensures GoodRow(v, u) {
      StoredRowsHaveSources(w, e, ns, slot, u);
      if !Stored(w.store.disk, ns, slot, u) { MemoryRowStaysGood(w, e, slot, u); }
    }
  }

  lemma MemoryRowStaysGood(w: World, e: Event, slot: string, u: DraftUpload)
    requires Enabled(w, e) && Consistent(w) && u in RowsOf(Step(w, e), slot)
    ensures GoodRow(Step(w, e), u)
  {
    StepIsLater(w, e);
    hide Step, Stored, IsLegacy, Enabled, WritesUploads, IsSaved, Consistent, MemoryRowFrom;
    if u.id.Minted? {
      MemoryRowsHaveSources(w, e, slot, u);
      SourcedIsGood(w, e, slot, u);
    }
  }

  lemma SourcedIsGood(w: World, e: Event, slot: string, u: DraftUpload)
    requires Enabled(w, e) && Consistent(w) && MemoryRowFrom(w, e, slot, u)
    requires Later(w, Step(w, e))
    requires e.End? ==> Step(w, e).requests[e.request].done
    requires e.Pick? ==> |Step(w, e).requests| == |w.requests| + 1
    ensures GoodRow(Step(w, e), u)
  {
    hide Step, Stored, IsLegacy, Enabled, WritesUploads, IsSaved;
    if u in RowsOf(w, slot) {
      assert GoodRow(w, u);
    } else if e.Reload? || e.Restart? {
      SavedIsGood(w, if e.Reload? then Current(w) else None, slot, u);
    }
  }

  lemma SavedIsGood(w: World, ns: Namespace, slot: string, u: DraftUpload)
    requires Consistent(w) && IsSaved(w.store.disk, ns, slot, u)
    ensures GoodRow(w, u)
  {
    hide Stored, IsLegacy;
  }

  // ----- what was lost or cleared stays so -----

  /** Nowhere in memory nor in storage. */
  ghost predicate Gone(w: World, id: UploadId) {
    && (forall slot, u :: u in RowsOf(w, slot) ==> u.id != id)
    && (forall ns, slot, u :: Stored(w.store.disk, ns, slot, u) ==> u.id != id)
  }

  /** Not in memory, and in storage at most as a placeholder, which no load keeps. */
  ghost predicate Lost(w: World, id: UploadId) {
    && (forall slot, u :: u in RowsOf(w, slot) ==> u.id != id)
    && (forall ns, slot, u :: Stored(w.store.disk, ns, slot, u) && u.id == id ==> u.InFlight())
  }

  lemma LostMemoryStaysLost(w: World, e: Event, r: nat, slot: string, u: DraftUpload)
    requires Enabled(w, e) && Consistent(w) && r < |w.requests| && Lost(w, Minted(r))
    requires u in RowsOf(Step(w, e), slot)
    ensures u.id != Minted(r)
  {
    hide Step, Stored, IsLegacy, Enabled, WritesUploads;
    if u.id == Minted(r) { MemoryRowsHaveSources(w, e, slot, u); }
  }

  lemma StepKeepsLost(w: World, e: Event, r: nat)
    requires Enabled(w, e) && Consistent(w) && r < |w.requests| && Lost(w, Minted(r))
    ensures Lost(Step(w, e), Minted(r))
    ensures Gone(w, Minted(r)) ==> Gone(Step(w, e), Minted(r))
  {
    hide Step, Stored, IsLegacy, Enabled, WritesUploads, MemoryRowFrom;
    var v := Step(w, e);
    forall slot, u | u in RowsOf(v, slot) ensures u.id != Minted(r) { LostMemoryStaysLost(w, e, r, slot, u); }
    forall ns, slot, u | Stored(v.store.disk, ns, slot, u) && u.id == Minted(r)
      ensures Stored(w.store.disk, ns, slot, u)
    {
      StoredRowsHaveSources(w, e, ns, slot, u);
    }
  }

  /** A request in flight with no placeholder in memory is lost. */
  lemma AbsentInFlightIsLost(w: World, r: nat)
    requires Consistent(w) && r < |w.requests| && !w.requests[r].done
    requires forall slot, u :: u in RowsOf(w, slot) ==> u.id != Minted(r)
    ensures Lost(w, Minted(r))
  {
    hide Stored;
  }

  /** So after a logout, a workspace switch or a new page, every request still in flight is. */
  lemma ResetsLoseInFlight(w: World, e: Event, r: nat)
    requires Enabled(w, e) && Consistent(w) && (e.Logout? || e.Reload? || e.Restart?)
    requires r < |w.requests| && !Step(w, e).requests[r].done
    ensures Lost(Step(w, e), Minted(r))
  {
    var v := Step(w, e);
    StepKeepsConsistent(w, e);
    StepIsLater(w, e);
    hide Step, Stored, IsLegacy, Enabled, WritesUploads;
    forall slot, u | u in RowsOf(v, slot) ensures u.id != Minted(r) {
      if u.id.Minted? { ResetRowsHaveEnded(w, e, slot, u); }
    }
    AbsentInFlightIsLost(v, r);
  }

  lemma ResetRowsHaveEnded(w: World, e: Event, slot: string, u: DraftUpload)
    requires Enabled(w, e) && Consistent(w) && (e.Logout? || e.Reload? || e.Restart?)
    requires u in RowsOf(Step(w, e), slot) && u.id.Minted?
    ensures u.id.n < |Step(w, e).requests| && Step(w, e).requests[u.id.n].done
  {
    StepKeepsConsistent(w, e);
    hide Step, Stored, IsLegacy, Enabled, WritesUploads;
    MemoryRowsHaveSources(w, e, slot, u);
    assert GoodRow(Step(w, e), u);
  }

  /** The outcome of a lost request changes nothing in the store. */
  lemma LostOutcomeIsIgnored(w: World, r: nat, response: Response, keepFailed: bool)
    requires Consistent(w) && r < |w.requests| && Lost(w, Minted(r)) && Enabled(w, End(r, response, keepFailed))
    ensures Step(w, End(r, response, keepFailed)).store == w.store
  {
    var slot := w.requests[r].slot;
    hide Stored, WithUploads;
    assert !HasUpload(RowsOf(w, slot), Minted(r));
  }

  // ----- what an outcome does -----

  /** The outcome leaves a row in the draft: a completed upload, or a failure the composer keeps. */
  predicate KeepsRow(w: World, e: Event)
    requires e.End? && e.request < |w.uploads.aborted|
  {
    var o := EndedOutcome(w, e.request, e.response);
    o.Some? && (o.value.UploadedOutcome? || e.keepFailed)
  }

  /**
   An outcome changes the store exactly when its slot in memory still holds its placeholder, and something is
   reported; then it changes only that slot and the stored uploads of the current workspace.
   */
  lemma OutcomeTouchesOnlyItsSlot(w: World, e: Event)
    requires e.End? && Enabled(w, e) && Consistent(w)
    ensures var v := Step(w, e);
            && (v.store != w.store <==> HoldsPlaceholder(w, e.request) && EndedOutcome(w, e.request, e.response).Some?)
            && v.store.mem == w.store.mem.(attachments := v.store.mem.attachments)
            && v.store.disk == w.store.disk.(attachments := v.store.disk.attachments)
            && (forall slot :: slot != w.requests[e.request].slot ==> RowsOf(v, slot) == RowsOf(w, slot))
            && (forall ns :: ns != Current(w) ==> SameBlob(v.store.disk, w.store.disk, ns))
  {
    var r, slot := e.request, w.requests[e.request].slot;
    OutcomeHasId(Minted(r), w.uploads.aborted[r], e.response);
    OutcomeIsLocal(w.store, slot, EndedOutcome(w, r, e.response), e.keepFailed);
    hide Stored, OutcomeOf, Received, Finished;
    if HoldsPlaceholder(w, r) && EndedOutcome(w, r, e.response).Some? {
      forall u | u in RowsOf(w, slot) && u.id == Minted(r) ensures u.InFlight() { assert GoodRow(w, u); }
      OutcomeEndsFlight(w.store, slot, EndedOutcome(w, r, e.response).value, e.keepFailed);
      NoLongerInFlight(RowsOf(w, slot), RowsOf(Step(w, e), slot), Minted(r));
    }
  }

  /** Handling an outcome: nothing without its row, else one slot in memory and one blob in storage. */
  lemma OutcomeIsLocal(s: Store, slot: string, outcome: Option<Outcome>, keepFailed: bool)
    ensures var t := Received(s, slot, outcome, keepFailed);
            && (outcome.None? || !HasUpload(At(s.mem.attachments, slot), outcome.value.id) ==> t == s)
            && t.mem == s.mem.(attachments := t.mem.attachments)
            && t.disk == s.disk.(attachments := t.disk.attachments)
            && (forall at :: at != slot ==> At(t.mem.attachments, at) == At(s.mem.attachments, at))
            && (forall ns :: ns != NamespaceOf(s.slug) ==> SameBlob(t.disk, s.disk, ns))
  {
    WriteIsLocal(s.disk, NamespaceOf(s.slug), Received(s, slot, outcome, keepFailed).mem.attachments);
    hide WithUploads;
  }

  lemma OutcomeEndsFlight(s: Store, slot: string, outcome: Outcome, keepFailed: bool)
    requires HasUpload(At(s.mem.attachments, slot), outcome.id)
    ensures forall u :: u in At(Received(s, slot, Some(outcome), keepFailed).mem.attachments, slot) && u.id == outcome.id ==> !u.InFlight()
  {
    hide WithUploads;
  }

  lemma NoLongerInFlight(rows: seq<DraftUpload>, next: seq<DraftUpload>, id: UploadId)
    requires HasUpload(rows, id)
    requires forall u :: u in rows && u.id == id ==> u.InFlight()
    requires forall u :: u in next && u.id == id ==> !u.InFlight()
    ensures next != rows
  {
    var i :| 0 <= i < |rows| && rows[i].id == id;
    var u := rows[i];
    assert u in rows;
    assert u in next ==> !u.InFlight();
  }

  ghost predicate SameBlob(a: Disk, b: Disk, ns: Namespace) {
    (ns in a.attachments <==> ns in b.attachments) && (ns in a.attachments ==> a.attachments[ns] == b.attachments[ns])
  }

  lemma WriteIsLocal(disk: Disk, ns: Namespace, next: map<string, seq<DraftUpload>>)
    ensures var after := WithUploads(disk, ns, next);
            && after == disk.(attachments := after.attachments)
            && (forall other :: other != ns ==> SameBlob(after, disk, other))
  {
  }

  /** It replaces its placeholder in place: the list keeps its length, its order and every other row. */
  lemma OutcomeReplacesInPlace(w: World, e: Event)
    requires e.End? && Enabled(w, e) && Consistent(w) && KeepsRow(w, e)
    ensures var rows, next := RowsOf(w, w.requests[e.request].slot), RowsOf(Step(w, e), w.requests[e.request].slot);
            && |next| == |rows|
            && (forall i :: 0 <= i < |rows| && rows[i].id != Minted(e.request) ==> next[i] == rows[i])
            && (forall i :: 0 <= i < |rows| && rows[i].id == Minted(e.request) ==>
                  && next[i].id == Minted(e.request)
                  && !next[i].InFlight()
                  && (e.response.Delivered? <==> next[i].Uploaded?)
                  && (e.response.Delivered? ==> next[i].attachment == e.response.attachment.(downloadUrl := "")))
  {
    hide Stored, WithUploads;
  }

  /** A failure the composer does not keep takes its placeholder away, and nothing else. */
  lemma DroppedFailureRemovesOnlyItself(w: World, e: Event, u: DraftUpload)
    requires e.End? && Enabled(w, e) && Consistent(w) && !KeepsRow(w, e)
    requires EndedOutcome(w, e.request, e.response).Some?
    ensures u in RowsOf(Step(w, e), w.requests[e.request].slot)
            <==> u in RowsOf(w, w.requests[e.request].slot) && u.id != Minted(e.request)
  {
    hide Stored, WithUploads;
    var rows := RowsOf(w, w.requests[e.request].slot);
    if u in rows && u.id == Minted(e.request) {
      var i :| 0 <= i < |rows| && rows[i] == u;
      assert HasUpload(rows, Minted(e.request));
    }
  }

  // ----- no upload lands in another workspace -----

  ghost predicate IsOwn(w: World, ns: Namespace, slot: string, u: DraftUpload) {
    u.id.Minted? ==> u.id.n < |w.requests| && w.requests[u.id.n].slot == slot && w.requests[u.id.n].home == ns
  }

  /** Every upload is where it was picked: in its slot of its workspace. */
  ghost predicate Owned(w: World) {
    && (forall slot, u :: u in RowsOf(w, slot) ==> IsOwn(w, w.loaded, slot, u))
    && (forall ns, slot, u :: Stored(w.store.disk, ns, slot, u) ==> IsOwn(w, ns, slot, u))
  }

  /** No upload is written between a switch of the workspace and the reload it causes. */
  ghost predicate Quiet(w: World, e: Event) {
    WritesUploads(w, e) ==> Current(w) == w.loaded
  }

  lemma MemoryRowStaysOwn(w: World, e: Event, slot: string, u: DraftUpload)
    requires Enabled(w, e) && Consistent(w) && Owned(w)
    requires u in RowsOf(Step(w, e), slot)
    ensures IsOwn(Step(w, e), Step(w, e).loaded, slot, u)
  {
    StepIsLater(w, e);
    StepLoads(w, e);
    hide Step, Stored, Enabled, IsLegacy, IsSaved, MemoryRowFrom, Consistent, Owned, WritesUploads;
    if u.id.Minted? {
      MemoryRowsHaveSources(w, e, slot, u);
      SourcedIsOwn(w, e, slot, u);
    }
  }

  lemma SourcedIsOwn(w: World, e: Event, slot: string, u: DraftUpload)
    requires Enabled(w, e) && Consistent(w) && Owned(w) && MemoryRowFrom(w, e, slot, u) && u.id.Minted?
    requires Later(w, Step(w, e))
    requires Step(w, e).loaded == if e.Reload? then Current(w) else if e.Restart? then None else w.loaded
    requires e.Pick? ==> Step(w, e).requests == w.requests + [Request(e.slot, w.loaded, false)]
    ensures IsOwn(Step(w, e), Step(w, e).loaded, slot, u)
  {
    hide Step, Stored, Enabled, IsLegacy, IsSaved;
    if e.Reload? || e.Restart? {
      SavedIsOwn(w, if e.Reload? then Current(w) else None, slot, u);
    } else if u in RowsOf(w, slot) {
      assert IsOwn(w, w.loaded, slot, u);
    } else if e.End? {
      var rows := RowsOf(w, slot);
      var i :| 0 <= i < |rows| && rows[i].id == Minted(e.request);
      assert IsOwn(w, w.loaded, slot, rows[i]);
    }
  }

  lemma SavedIsOwn(w: World, ns: Namespace, slot: string, u: DraftUpload)
    requires Consistent(w) && Owned(w) && IsSaved(w.store.disk, ns, slot, u) && u.id.Minted?
    ensures IsOwn(w, ns, slot, u)
  {
    hide Stored, IsLegacy;
    var from :| Stored(w.store.disk, ns, from, u) && (from == slot || (IsLegacy(from) && slot == DRAFT_NEW_SESSION));
    assert IsOwn(w, ns, from, u);
  }

  lemma StepLoads(w: World, e: Event)
    requires Enabled(w, e) && Consistent(w)
    ensures Step(w, e).loaded == if e.Reload? then Current(w) else if e.Restart? then None else w.loaded
    ensures WritesUploads(w, e) ==> Current(Step(w, e)) == Current(w)
    ensures e.Reload? || e.Restart? ==> Current(Step(w, e)) == Step(w, e).loaded
    ensures e.Pick? ==> Step(w, e).requests == w.requests + [Request(e.slot, w.loaded, false)]
  {
    hide WithUploads, WithDrafts, WithApplied, WithRestores, Load, Stored, IsLegacy, ClearedAll, Cleared, Appended, OutcomeOf;
  }

  lemma StepKeepsOwned(w: World, e: Event)
    requires Enabled(w, e) && Consistent(w) && Owned(w) && Quiet(w, e)
    ensures Owned(Step(w, e))
  {
    assert |w.uploads.aborted| == |w.requests|;
    var v := Step(w, e);
    hide Step, Stored, Enabled, IsLegacy, WritesUploads, Consistent, IsOwn;
    forall slot, u | u in RowsOf(v, slot) ensures IsOwn(v, v.loaded, slot, u) { MemoryRowStaysOwn(w, e, slot, u); }
    forall ns, slot, u | Stored(v.store.disk, ns, slot, u) ensures IsOwn(v, ns, slot, u) { StoredRowStaysOwn(w, e, ns, slot, u); }
  }

  lemma OwnHome(w: World, ns: Namespace, at: string, u: DraftUpload)
    requires Owned(w)
    ensures Stored(w.store.disk, ns, at, u) ==> IsOwn(w, ns, at, u)
  {
    hide Stored;
  }

  lemma StoredRowStaysOwn(w: World, e: Event, ns: Namespace, slot: string, u: DraftUpload)
    requires Enabled(w, e) && Consistent(w) && Owned(w) && Quiet(w, e)
    requires Stored(Step(w, e).store.disk, ns, slot, u)
    ensures IsOwn(Step(w, e), ns, slot, u)
  {
    assert |w.uploads.aborted| == |w.requests|;
    hide *;
    StepIsLater(w, e);
    StoredRowsHaveSources(w, e, ns, slot, u);
    if Stored(w.store.disk, ns, slot, u) {
      OwnHome(w, ns, slot, u);
      OwnStays(w, Step(w, e), ns, slot, u);
    } else {
      MemoryIsThere(w, e);
      NewRowIsInMemory(w, e, ns, slot, u);
      MemoryRowStaysOwn(w, e, slot, u);
    }
  }

  lemma OwnStays(w: World, v: World, ns: Namespace, slot: string, u: DraftUpload)
    requires IsOwn(w, ns, slot, u) && Later(w, v)
    ensures IsOwn(v, ns, slot, u)
  {
  }

  lemma NewRowIsInMemory(w: World, e: Event, ns: Namespace, slot: string, u: DraftUpload)
    requires Enabled(w, e) && |w.uploads.aborted| == |w.requests|
    requires StoredRowFrom(w, e, ns, slot, u) && !Stored(w.store.disk, ns, slot, u)
    ensures ns == Current(Step(w, e)) && u in RowsOf(Step(w, e), slot)
    ensures WritesUploads(w, e) || e.Reload? || e.Restart?
  {
    hide Step, Stored, Enabled, WritesUploads;
  }

  /** When uploads are written or loaded, memory is that of the current workspace. */
  lemma MemoryIsThere(w: World, e: Event)
    requires Enabled(w, e) && Consistent(w) && Quiet(w, e)
    ensures WritesUploads(w, e) || e.Reload? || e.Restart? ==> Current(Step(w, e)) == Step(w, e).loaded
  {
    StepLoads(w, e);
    hide Step, Enabled, WritesUploads, Consistent;
  }

  // ----- runs -----

  ghost function Initial(disk: Disk): World {
    World(Restarted(disk), Coordinator(map[], []), [], None)
  }

  /** Every event of the run can happen when it does. */
  ghost predicate Possible(w: World, events: seq<Event>)
    requires Consistent(w)
    decreases |events|
  {
    events == []
    || (Enabled(w, events[0]) && (StepKeepsConsistent(w, events[0]); Possible(Step(w, events[0]), events[1..])))
  }

  ghost function After(w: World, events: seq<Event>): (v: World)
    requires Consistent(w) && Possible(w, events)
    ensures Consistent(v)
    decreases |events|
  {
    if events == [] then w
    else
      StepKeepsConsistent(w, events[0]);
      After(Step(w, events[0]), events[1..])
  }

  /** Ids are minted fresh: no stored row of an earlier page has one. */
  ghost predicate Foreign(disk: Disk) {
    forall ns, slot, u :: Stored(disk, ns, slot, u) ==> !u.id.Minted?
  }

  lemma InitialIsGood(disk: Disk)
    requires Foreign(disk)
    ensures Consistent(Initial(disk)) && Owned(Initial(disk))
  {
    hide Stored, Load, IsLegacy;
    var w := Initial(disk);
    var agent := AgentAt(disk, None);
    forall slot, u | u in RowsOf(w, slot) ensures !u.id.Minted? { ForeignLoad(disk, agent, slot, u); }
    forall ns, slot, u | Stored(w.store.disk, ns, slot, u) ensures !u.id.Minted? {
      StoredAfterLoad(disk, None, agent, ns, slot, u);
      if !Stored(disk, ns, slot, u) { ForeignLoad(disk, agent, slot, u); }
    }
  }

  lemma ForeignLoad(disk: Disk, agent: Option<string>, slot: string, u: DraftUpload)
    requires Foreign(disk) && u in At(Load(disk, None, agent).attachments, slot)
    ensures !u.id.Minted?
  {
    hide Stored, Load, IsLegacy;
    if u.id.Minted? { LoadedRow(disk, None, agent, slot, u); }
  }

  lemma AfterNothing(w: World)
    requires Consistent(w)
    ensures Possible(w, []) && After(w, []) == w
  {
  }

  lemma AfterOne(w: World, e: Event, rest: seq<Event>)
    requires Consistent(w) && Enabled(w, e) && Consistent(Step(w, e)) && Possible(Step(w, e), rest)
    ensures Possible(w, [e] + rest) && After(w, [e] + rest) == After(Step(w, e), rest)
  {
    hide Step, Enabled, Consistent;
    assert ([e] + rest)[1..] == rest;
  }

  lemma AfterTwo(w: World, a: Event, b: Event)
    requires Consistent(w) && Enabled(w, a)
    requires |Step(w, a).uploads.aborted| == |Step(w, a).requests| && Enabled(Step(w, a), b)
    ensures Possible(w, [a, b]) && After(w, [a, b]) == Step(Step(w, a), b)
  {
    assert |w.uploads.aborted| == |w.requests|;
    hide *;
    StepKeepsConsistent(w, a);
    AfterBoth(w, a, Step(w, a), b);
  }

  lemma AfterBoth(w: World, a: Event, v: World, b: Event)
    requires Consistent(w) && |w.uploads.aborted| == |w.requests| && Enabled(w, a) && v == Step(w, a)
    requires Consistent(v) && |v.uploads.aborted| == |v.requests| && Enabled(v, b)
    ensures Possible(w, [a, b]) && After(w, [a, b]) == Step(v, b)
  {
    hide *;
    StepKeepsConsistent(v, b);
    assert [a] + [b] == [a, b] && [b] + [] == [b];
    AfterNothing(Step(v, b));
    AfterOne(v, b, []);
    AfterOne(w, a, [b]);
  }

  lemma {:induction false} AfterThen(w: World, events: seq<Event>, e: Event)
    requires Consistent(w) && Possible(w, events) && Enabled(After(w, events), e)
    ensures Possible(w, events + [e]) && After(w, events + [e]) == Step(After(w, events), e)
    decreases |events|
  {
    StepKeepsConsistent(After(w, events), e);
    if events == [] {
      AfterNothing(Step(w, e));
      AfterOne(w, e, []);
      assert [e] + [] == [e] && events + [e] == [e];
    } else {
      StepKeepsConsistent(w, events[0]);
      assert events == [events[0]] + events[1..] && [events[0]] + (events[1..] + [e]) == events + [e];
      hide Step, Enabled, Consistent;
      AfterThen(Step(w, events[0]), events[1..], e);
      AfterOne(w, events[0], events[1..] + [e]);
    }
  }

  // ----- whole runs -----

  /** A lost upload stays lost and a gone one gone, whatever happens next, and its outcome changes nothing when it comes. */
  lemma {:induction false} LostForever(w: World, events: seq<Event>, r: nat)
    requires Consistent(w) && Possible(w, events) && r < |w.requests| && Lost(w, Minted(r))
    ensures var v := After(w, events);
            && r < |v.requests|
            && Lost(v, Minted(r))
            && (Gone(w, Minted(r)) ==> Gone(v, Minted(r)))
            && (forall e: Event :: Enabled(v, e) && e.End? && e.request == r ==> Step(v, e).store == v.store)
    decreases |events|
  {
    if events == [] {
      forall e: Event | Enabled(w, e) && e.End? && e.request == r ensures Step(w, e).store == w.store {
        LostOutcomeIsIgnored(w, r, e.response, e.keepFailed);
      }
    } else {
      StepIsLater(w, events[0]);
      StepKeepsConsistent(w, events[0]);
      StepKeepsLost(w, events[0], r);
      hide Step, Enabled, Consistent, Lost, Gone;
      LostForever(Step(w, events[0]), events[1..], r);
    }
  }

  /** After a logout, a reload or a new page, requests still in flight never change the store again. */
  lemma InFlightCannotOutliveReset(w: World, e: Event, events: seq<Event>, r: nat, end: Event)
    requires Enabled(w, e) && Consistent(w) && (e.Logout? || e.Reload? || e.Restart?)
    requires r < |w.requests| && !Step(w, e).requests[r].done
    requires Consistent(Step(w, e)) && Possible(Step(w, e), events)
    requires Enabled(After(Step(w, e), events), end) && end.End? && end.request == r
    ensures Step(After(Step(w, e), events), end).store == After(Step(w, e), events).store
  {
    ResetsLoseInFlight(w, e, r);
    StepIsLater(w, e);
    hide Step, Enabled, Consistent, Stored;
    LostForever(Step(w, e), events, r);
  }
}
