/**
 The chat draft store: maps in memory, written through to the storage keys of the current workspace by every
 action, and reloaded from the keys of the workspace switched to.
 */
module ChatStore {
  import opened Wrappers
  import opened Whitespace
  import opened DraftUploads
  import opened DraftStorage

  datatype Memory = Memory(
    drafts: map<string, string>,
    attachments: map<string, seq<DraftUpload>>,
    applied: seq<string>,
    restores: map<string, seq<SendRestore>>)

  const EMPTY_MEMORY := Memory(map[], map[], [], map[])

  /** `slug` changes at once on a switch; the reload it causes runs later, and is pending until then. */
  datatype Store = Store(slug: Option<string>, reloadPending: bool, disk: Disk, mem: Memory)

  /** The suffix of every key written now: no suffix for a missing or empty slug. */
  function NamespaceOf(slug: Option<string>): Namespace {
    if slug == Some("") then None else slug
  }

  // ----- one slot -----

  function At<T>(slots: map<string, seq<T>>, slot: string): seq<T> {
    if slot in slots then slots[slot] else []
  }

  /** An emptied slot is deleted. */
  function Put<T>(slots: map<string, seq<T>>, slot: string, rows: seq<T>): map<string, seq<T>> {
    if rows != [] then slots[slot := rows] else slots - {slot}
  }

  predicate HasUpload(rows: seq<DraftUpload>, id: UploadId) {
    exists i :: 0 <= i < |rows| && rows[i].id == id
  }

  /** The first row with the id. */
  function FindUpload(rows: seq<DraftUpload>, id: UploadId): (u: DraftUpload)
    requires HasUpload(rows, id)
    ensures u in rows && u.id == id
  {
    if rows[0].id == id then rows[0] else FindUpload(rows[1..], id)
  }

  /** Every row with the id replaced, in place. */
  function ReplaceUpload(rows: seq<DraftUpload>, id: UploadId, u: DraftUpload): (next: seq<DraftUpload>)
    ensures |next| == |rows|
    ensures forall i :: 0 <= i < |rows| ==> next[i] == if rows[i].id == id then u else rows[i]
  {
    seq(|rows|, i requires 0 <= i < |rows| => if rows[i].id == id then u else rows[i])
  }

  function WithoutUpload(rows: seq<DraftUpload>, id: UploadId): (next: seq<DraftUpload>)
    ensures forall u :: u in next <==> u in rows && u.id != id
  {
    if rows == [] then []
    else
      assert rows == [rows[0]] + rows[1..];
      (if rows[0].id == id then [] else [rows[0]]) + WithoutUpload(rows[1..], id)
  }

  /** The row is the completed upload of this attachment. */
  predicate Holds(u: DraftUpload, attachment: string) {
    u.Uploaded? && u.attachment.id == attachment
  }

  predicate HoldsAny(rows: seq<DraftUpload>, attachment: string) {
    exists i :: 0 <= i < |rows| && Holds(rows[i], attachment)
  }

  function ReplaceHolders(rows: seq<DraftUpload>, attachment: string, u: DraftUpload): (next: seq<DraftUpload>)
    ensures |next| == |rows|
    ensures forall i :: 0 <= i < |rows| ==> next[i] == if Holds(rows[i], attachment) then u else rows[i]
  {
    seq(|rows|, i requires 0 <= i < |rows| => if Holds(rows[i], attachment) then u else rows[i])
  }

  function TrimEnd(s: string): string {
    if s == [] then [] else if IsSpace(s[|s| - 1]) then TrimEnd(s[..|s| - 1]) else s
  }

  function Appended(existing: string, markdown: string): string {
    if TrimEnd(existing) != [] then TrimEnd(existing) + "\n\n" + markdown else markdown
  }

  predicate HasRestore(queue: seq<SendRestore>, id: string) {
    exists i :: 0 <= i < |queue| && queue[i].id == id
  }

  function WithoutRestore(queue: seq<SendRestore>, id: string): seq<SendRestore> {
    if queue == [] then []
    else (if queue[0].id == id then [] else [queue[0]]) + WithoutRestore(queue[1..], id)
  }

  function WithoutId(ids: seq<string>, id: string): seq<string> {
    if ids == [] then [] else (if ids[0] == id then [] else [ids[0]]) + WithoutId(ids[1..], id)
  }

  /** A ledger less one id, each entry for itself: in its order. */
  lemma {:induction false} IdsLeft(front: seq<string>, x: string, back: seq<string>, id: string)
    ensures WithoutId(front + [x] + back, id) == WithoutId(front, id) + (if x == id then [] else [x]) + WithoutId(back, id)
    ensures WithoutId([], id) == []
  {
    var all := front + [x] + back;
    if front == [] {
      assert all == [x] + back && all[1..] == back;
    } else {
      assert all[1..] == front[1..] + [x] + back;
      IdsLeft(front[1..], x, back, id);
    }
  }

  lemma RestoresLeftFirst(x: SendRestore, rest: seq<SendRestore>, id: string)
    ensures WithoutRestore([x] + rest, id) == (if x.id == id then [] else [x]) + WithoutRestore(rest, id) && WithoutRestore([], id) == []
  {
    assert ([x] + rest)[1..] == rest;
  }

  /** A queue less one restore, each entry for itself: in its order. */
  lemma {:induction false} RestoresLeft(front: seq<SendRestore>, x: SendRestore, back: seq<SendRestore>, id: string)
    ensures WithoutRestore(front + [x] + back, id) == WithoutRestore(front, id) + (if x.id == id then [] else [x]) + WithoutRestore(back, id)
    ensures WithoutRestore([], id) == []
  {
    hide *;
    RestoresLeftFirst(x, back, id);
    if front == [] {
      assert front + [x] + back == [x] + back;
    } else {
      var y, rest := front[0], front[1..];
      assert front + [x] + back == [y] + (rest + [x] + back) && front == [y] + rest;
      RestoresLeftFirst(y, rest + [x] + back, id);
      RestoresLeftFirst(y, rest, id);
      RestoresLeft(rest, x, back, id);
    }
  }

  lemma UploadsLeftFirst(x: DraftUpload, rest: seq<DraftUpload>, id: UploadId)
    ensures WithoutUpload([x] + rest, id) == (if x.id == id then [] else [x]) + WithoutUpload(rest, id) && WithoutUpload([], id) == []
  {
    assert ([x] + rest)[1..] == rest;
  }

  /** A list less one upload, each row for itself: in its order. */
  lemma {:induction false} UploadsLeft(front: seq<DraftUpload>, x: DraftUpload, back: seq<DraftUpload>, id: UploadId)
    ensures WithoutUpload(front + [x] + back, id) == WithoutUpload(front, id) + (if x.id == id then [] else [x]) + WithoutUpload(back, id)
    ensures WithoutUpload([], id) == []
  {
    hide *;
    UploadsLeftFirst(x, back, id);
    if front == [] {
      assert front + [x] + back == [x] + back;
    } else {
      var y, rest := front[0], front[1..];
      assert front + [x] + back == [y] + (rest + [x] + back) && front == [y] + rest;
      UploadsLeftFirst(y, rest + [x] + back, id);
      UploadsLeftFirst(y, rest, id);
      UploadsLeft(rest, x, back, id);
      Regroup(if y.id == id then [] else [y], WithoutUpload(rest, id), if x.id == id then [] else [x], WithoutUpload(back, id));
    }
  }

  /** The row a failure takes its name, size and type from is the first one with the id. */
  lemma {:induction false} FoundIsFirst(rows: seq<DraftUpload>, id: UploadId, k: nat)
    requires k < |rows| && rows[k].id == id && forall j :: 0 <= j < k ==> rows[j].id != id
    ensures HasUpload(rows, id) && FindUpload(rows, id) == rows[k]
  {
    if k > 0 { FoundIsFirst(rows[1..], id, k - 1); }
  }

  /** A text and its end of whitespace. */
  lemma {:induction false} TrimmedIs(text: string, trimmed: string, space: string)
    requires text == trimmed + space && (trimmed == "" || !IsSpace(trimmed[|trimmed| - 1]))
    requires forall i :: 0 <= i < |space| ==> IsSpace(space[i])
    ensures TrimEnd(text) == trimmed
  {
    if space == "" {
      assert text == trimmed;
    } else {
      assert text[..|text| - 1] == trimmed + space[..|space| - 1];
      TrimmedIs(text[..|text| - 1], trimmed, space[..|space| - 1]);
    }
  }

  /** A fragment goes behind the text less its end of whitespace and a blank line, or alone when there is nothing else. */
  lemma FragmentIsAppended(text: string, trimmed: string, space: string, markdown: string)
    requires text == trimmed + space && (trimmed == "" || !IsSpace(trimmed[|trimmed| - 1]))
    requires forall i :: 0 <= i < |space| ==> IsSpace(space[i])
    ensures Appended(text, markdown) == if trimmed == "" then markdown else trimmed + "\n\n" + markdown
  {
    TrimmedIs(text, trimmed, space);
  }

  // ----- writing one map through to storage -----

  function PersistDrafts(s: Store, next: map<string, string>): Store {
    s.(disk := WithDrafts(s.disk, NamespaceOf(s.slug), next), mem := s.mem.(drafts := next))
  }

  function PersistUploads(s: Store, next: map<string, seq<DraftUpload>>): Store {
    s.(disk := WithUploads(s.disk, NamespaceOf(s.slug), next), mem := s.mem.(attachments := next))
  }

  function PersistApplied(s: Store, next: seq<string>): Store {
    s.(disk := WithApplied(s.disk, NamespaceOf(s.slug), next), mem := s.mem.(applied := next))
  }

  function PersistRestores(s: Store, next: map<string, seq<SendRestore>>): Store {
    s.(disk := WithRestores(s.disk, NamespaceOf(s.slug), next), mem := s.mem.(restores := next))
  }

  // ----- the actions -----

  function MarkApplied(s: Store, id: string): Store {
    if id in s.mem.applied then s else PersistApplied(s, s.mem.applied + [id])
  }

  function ForgetApplied(s: Store, id: string): Store {
    if id !in s.mem.applied then s else PersistApplied(s, WithoutId(s.mem.applied, id))
  }

  function EnqueueRestore(s: Store, r: SendRestore): Store {
    if r.sessionId == "" || r.id == "" || HasRestore(At(s.mem.restores, r.sessionId), r.id) then s
    else PersistRestores(s, s.mem.restores[r.sessionId := At(s.mem.restores, r.sessionId) + [r]])
  }

  function DequeueRestore(s: Store, session: string, id: string): Store {
    if !HasRestore(At(s.mem.restores, session), id) then s
    else PersistRestores(s, Put(s.mem.restores, session, WithoutRestore(At(s.mem.restores, session), id)))
  }

  function SetDraft(s: Store, slot: string, draft: string): Store {
    PersistDrafts(s, s.mem.drafts[slot := draft])
  }

  function AppendDraft(s: Store, slot: string, markdown: string): Store {
    SetDraft(s, slot, Appended(At(s.mem.drafts, slot), markdown))
  }

  function SetUploads(s: Store, slot: string, uploads: seq<DraftUpload>): Store {
    PersistUploads(s, Put(s.mem.attachments, slot, uploads))
  }

  function AddAttachment(s: Store, slot: string, a: Attachment): Store {
    if a.id == "" then s
    else
      var rows, wrapped := At(s.mem.attachments, slot), AttachmentToDraftUpload(a);
      PersistUploads(s, s.mem.attachments[slot :=
        if HoldsAny(rows, a.id) then ReplaceHolders(rows, a.id, wrapped) else rows + [wrapped]])
  }

  function AddUpload(s: Store, slot: string, u: DraftUpload): Store {
    var rows := At(s.mem.attachments, slot);
    if HasUpload(rows, u.id) then s else PersistUploads(s, s.mem.attachments[slot := rows + [u]])
  }

  /** The completed upload keeps the id of its placeholder. */
  function SettledAs(id: UploadId, a: Attachment): DraftUpload {
    AttachmentToDraftUpload(a).(id := id)
  }

  function FailedAs(target: DraftUpload, error: Option<string>): DraftUpload {
    Pending(target.id, target.filename, target.size, target.contentType, Failed, error)
  }

  function SettleUpload(s: Store, slot: string, id: UploadId, a: Attachment): Store {
    var rows := At(s.mem.attachments, slot);
    if !HasUpload(rows, id) then s
    else PersistUploads(s, s.mem.attachments[slot := ReplaceUpload(rows, id, SettledAs(id, a))])
  }

  function FailUpload(s: Store, slot: string, id: UploadId, error: Option<string>): Store {
    var rows := At(s.mem.attachments, slot);
    if !HasUpload(rows, id) then s
    else PersistUploads(s, s.mem.attachments[slot := ReplaceUpload(rows, id, FailedAs(FindUpload(rows, id), error))])
  }

  function RemoveUpload(s: Store, slot: string, id: UploadId): Store {
    var rows := At(s.mem.attachments, slot);
    if !HasUpload(rows, id) then s
    else PersistUploads(s, Put(s.mem.attachments, slot, WithoutUpload(rows, id)))
  }

  function ClearDraft(s: Store, slot: string): Store {
    if slot !in s.mem.drafts && slot !in s.mem.attachments then s
    else PersistUploads(PersistDrafts(s, s.mem.drafts - {slot}), s.mem.attachments - {slot})
  }

  function SelectAgent(s: Store, agent: string): Store {
    s.(disk := s.disk.(agents := s.disk.agents[NamespaceOf(s.slug) := agent]))
  }

  // ----- workspaces, reloads and logout -----

  /** A switch to the slug already current does nothing. */
  function SwitchSlug(s: Store, slug: Option<string>): Store {
    if slug == s.slug then s else s.(slug := slug, reloadPending := true)
  }

  function AgentAt(disk: Disk, ns: Namespace): Option<string> {
    if ns in disk.agents then Some(disk.agents[ns]) else None
  }

  ghost function Reloaded(s: Store): Store {
    var ns := NamespaceOf(s.slug);
    var l := Load(s.disk, ns, AgentAt(s.disk, ns));
    s.(reloadPending := false, disk := l.disk,
       mem := Memory(l.drafts, l.attachments, AppliedAt(l.disk, ns), RestoresAt(l.disk, ns)))
  }

  /** A fresh page: no workspace yet. */
  ghost function Restarted(disk: Disk): Store {
    Reloaded(Store(None, false, disk, EMPTY_MEMORY))
  }

  datatype DraftKey = DraftsKey | AttachmentsKey | AppliedKey | RestoresKey

  function RemoveKey(disk: Disk, key: DraftKey, ns: Namespace): Disk {
    match key
    case DraftsKey => disk.(drafts := disk.drafts - {ns})
    case AttachmentsKey => disk.(attachments := disk.attachments - {ns})
    case AppliedKey => disk.(applied := disk.applied - {ns})
    case RestoresKey => disk.(restores := disk.restores - {ns})
  }

  const ALL_KEYS: set<DraftKey> := {DraftsKey, AttachmentsKey, AppliedKey, RestoresKey}

  /** Everything stored for one workspace slug: the draft keys, and the selected agent among the others. */
  function Cleared(disk: Disk, slug: string): Disk {
    var ns := Some(slug);
    Disk(disk.drafts - {ns}, disk.attachments - {ns}, disk.applied - {ns}, disk.restores - {ns}, disk.agents - {ns})
  }

  function ClearedAll(disk: Disk, slugs: seq<string>): Disk {
    if slugs == [] then disk else Cleared(ClearedAll(disk, slugs[..|slugs| - 1]), slugs[|slugs| - 1])
  }

  function LoggedOut(s: Store, slugs: seq<string>): Store {
    s.(mem := EMPTY_MEMORY, disk := ClearedAll(s.disk, slugs))
  }

  // ----- the store as a class -----

  class ChatStore {
    var slug: Option<string>
    var reloadPending: bool
    var disk: Disk
    var inputDrafts: map<string, string>
    var inputDraftAttachments: map<string, seq<DraftUpload>>
    var appliedDraftRestoreIds: seq<string>
    var pendingSendRestores: map<string, seq<SendRestore>>
    /** The storage keys registered for cleanup. */
    var entries: set<DraftKey>

    ghost function State(): Store
      reads this
    {
      Store(slug, reloadPending, disk,
            Memory(inputDrafts, inputDraftAttachments, appliedDraftRestoreIds, pendingSendRestores))
    }

    ghost predicate Valid()
      reads this
    {
      entries == ALL_KEYS
    }

    /** A page load: the store reads the keys of no workspace, and registers its own for cleanup. */
    constructor (disk: Disk)
      ensures Valid() && State() == Restarted(disk)
    {
      this.slug, this.reloadPending, this.disk := None, false, disk;
      inputDrafts, inputDraftAttachments, appliedDraftRestoreIds, pendingSendRestores := map[], map[], [], map[];
      entries := {};
      new;
      Rehydrate();
      RegisterDraftCleanup(DraftsKey);
      RegisterDraftCleanup(AttachmentsKey);
      RegisterDraftCleanup(AppliedKey);
      RegisterDraftCleanup(RestoresKey);
    }

    method RegisterDraftCleanup(key: DraftKey)
      modifies this`entries
      ensures entries == old(entries) + {key}
    {
      entries := entries + {key};
    }

    method Rehydrate()
      modifies this
      ensures State() == Reloaded(old(State())) && entries == old(entries)
    {
      hide Load, QueuesOf, Somes;
      var ns := NamespaceOf(slug);
      var loaded := LoadDraftSlots(disk, ns, AgentAt(disk, ns));
      disk, inputDrafts, inputDraftAttachments := loaded.disk, loaded.drafts, loaded.attachments;
      appliedDraftRestoreIds := AppliedAt(disk, ns);
      pendingSendRestores := ReadPendingSendRestores(ValueAt(disk.restores, ns, map[]));
      reloadPending := false;
    }

    method SetCurrentWorkspace(next: Option<string>)
      modifies this
      ensures State() == SwitchSlug(old(State()), next) && entries == old(entries)
    {
      if slug == next { return; }
      slug := next;
      if !reloadPending { reloadPending := true; }
    }

    method SetSelectedAgentId(agent: string)
      modifies this`disk
      ensures State() == SelectAgent(old(State()), agent)
    {
      disk := disk.(agents := disk.agents[NamespaceOf(slug) := agent]);
    }

    method MarkDraftRestoreApplied(id: string)
      modifies this`disk, this`appliedDraftRestoreIds
      ensures State() == MarkApplied(old(State()), id)
    {
      if id in appliedDraftRestoreIds { return; }
      var next := appliedDraftRestoreIds + [id];
      disk := WithApplied(disk, NamespaceOf(slug), next);
      appliedDraftRestoreIds := next;
    }

    method ForgetDraftRestoreApplied(id: string)
      modifies this`disk, this`appliedDraftRestoreIds
      ensures State() == ForgetApplied(old(State()), id)
    {
      if id !in appliedDraftRestoreIds { return; }
      var next := WithoutId(appliedDraftRestoreIds, id);
      disk := WithApplied(disk, NamespaceOf(slug), next);
      appliedDraftRestoreIds := next;
    }

    method EnqueuePendingSendRestore(restore: SendRestore)
      modifies this`disk, this`pendingSendRestores
      ensures State() == EnqueueRestore(old(State()), restore)
    {
      if restore.sessionId == "" || restore.id == "" { return; }
      var existing := At(pendingSendRestores, restore.sessionId);
      if HasRestore(existing, restore.id) { return; }
      var next := pendingSendRestores[restore.sessionId := existing + [restore]];
      disk := WritePendingSendRestores(disk, NamespaceOf(slug), next);
      pendingSendRestores := next;
    }

    method DequeuePendingSendRestore(session: string, id: string)
      modifies this`disk, this`pendingSendRestores
      ensures State() == DequeueRestore(old(State()), session, id)
    {
      var existing := At(pendingSendRestores, session);
      if !HasRestore(existing, id) { return; }
      var remaining := WithoutRestore(existing, id);
      var next := if remaining != [] then pendingSendRestores[session := remaining] else pendingSendRestores - {session};
      disk := WritePendingSendRestores(disk, NamespaceOf(slug), next);
      pendingSendRestores := next;
    }

    method SetInputDraft(slot: string, draft: string)
      modifies this`disk, this`inputDrafts
      ensures State() == SetDraft(old(State()), slot, draft)
    {
      var next := inputDrafts[slot := draft];
      disk := WriteDrafts(disk, NamespaceOf(slug), next);
      inputDrafts := next;
    }

    method AppendToInputDraft(slot: string, markdown: string)
      modifies this`disk, this`inputDrafts
      ensures State() == AppendDraft(old(State()), slot, markdown)
    {
      SetInputDraft(slot, Appended(At(inputDrafts, slot), markdown));
    }

    method SetInputDraftAttachments(slot: string, uploads: seq<DraftUpload>)
      modifies this`disk, this`inputDraftAttachments
      ensures State() == SetUploads(old(State()), slot, uploads)
    {
      StoreUploads(if uploads != [] then inputDraftAttachments[slot := uploads] else inputDraftAttachments - {slot});
    }

    /** The write-through every upload action ends with. */
    method StoreUploads(next: map<string, seq<DraftUpload>>)
      modifies this`disk, this`inputDraftAttachments
      ensures State() == PersistUploads(old(State()), next)
    {
      disk := WriteDraftAttachments(disk, NamespaceOf(slug), next);
      inputDraftAttachments := next;
    }

    method AddInputDraftAttachment(slot: string, attachment: Attachment)
      modifies this`disk, this`inputDraftAttachments
      ensures State() == AddAttachment(old(State()), slot, attachment)
    {
      if attachment.id == "" { return; }
      var existing := At(inputDraftAttachments, slot);
      var wrapped := AttachmentToDraftUpload(attachment);
      var nextForKey := if HoldsAny(existing, attachment.id) then ReplaceHolders(existing, attachment.id, wrapped)
                        else existing + [wrapped];
      StoreUploads(inputDraftAttachments[slot := nextForKey]);
    }

    method AddInputDraftUpload(slot: string, upload: DraftUpload)
      modifies this`disk, this`inputDraftAttachments
      ensures State() == AddUpload(old(State()), slot, upload)
    {
      var existing := At(inputDraftAttachments, slot);
      if HasUpload(existing, upload.id) { return; }
      StoreUploads(inputDraftAttachments[slot := existing + [upload]]);
    }

    method SettleInputDraftUpload(slot: string, id: UploadId, attachment: Attachment)
      modifies this`disk, this`inputDraftAttachments
      ensures State() == SettleUpload(old(State()), slot, id, attachment)
    {
      var existing := At(inputDraftAttachments, slot);
      if !HasUpload(existing, id) { return; }
      StoreUploads(inputDraftAttachments[slot := ReplaceUpload(existing, id, SettledAs(id, attachment))]);
    }

    method FailInputDraftUpload(slot: string, id: UploadId, error: Option<string>)
      modifies this`disk, this`inputDraftAttachments
      ensures State() == FailUpload(old(State()), slot, id, error)
    {
      var existing := At(inputDraftAttachments, slot);
      if !HasUpload(existing, id) { return; }
      var target := FindUpload(existing, id);
      var failed := Pending(id, target.filename, target.size, target.contentType, Failed, error);
      StoreUploads(inputDraftAttachments[slot := ReplaceUpload(existing, id, failed)]);
    }

    method RemoveInputDraftUpload(slot: string, id: UploadId)
      modifies this`disk, this`inputDraftAttachments
      ensures State() == RemoveUpload(old(State()), slot, id)
    {
      var existing := At(inputDraftAttachments, slot);
      if !HasUpload(existing, id) { return; }
      var remaining := WithoutUpload(existing, id);
      StoreUploads(if remaining != [] then inputDraftAttachments[slot := remaining] else inputDraftAttachments - {slot});
    }

    method ClearInputDraft(slot: string)
      modifies this`disk, this`inputDrafts, this`inputDraftAttachments
      ensures State() == ClearDraft(old(State()), slot)
    {
      if slot !in inputDrafts && slot !in inputDraftAttachments { return; }
      var nextDrafts := inputDrafts - {slot};
      disk := WriteDrafts(disk, NamespaceOf(slug), nextDrafts);
      inputDrafts := nextDrafts;
      StoreUploads(inputDraftAttachments - {slot});
    }

    /** Each registered key of one workspace removed; with every key registered, all drafts of it are gone. */
    method ClearRegisteredWorkspaceDrafts(slug: string)
      requires Valid()
      modifies this`disk
      ensures disk == Cleared(old(disk), slug).(agents := old(disk).agents)
    {
      var rest := entries;
      while rest != {}
        invariant rest <= entries
        invariant disk == RemovedKeys(old(disk), entries - rest, slug)
      {
        var key :| key in rest;
        RemoveOneMore(old(disk), entries - rest, key, slug);
        disk := RemoveKey(disk, key, Some(slug));
        rest := rest - {key};
      }
      assert entries - rest == ALL_KEYS;
      RemoveAllKeys(old(disk), slug);
    }

    /** The same with the keys that are no drafts, of which the selected agent is modelled. */
    method ClearWorkspaceStorage(slug: string)
      requires Valid()
      modifies this`disk
      ensures disk == Cleared(old(disk), slug)
    {
      disk := disk.(agents := disk.agents - {Some(slug)});
      ClearRegisteredWorkspaceDrafts(slug);
    }

    /** Each registered slice of the memory reset; with every key registered, nothing is left in memory. */
    method ResetAllRegisteredDrafts()
      requires Valid()
      modifies this`inputDrafts, this`inputDraftAttachments, this`appliedDraftRestoreIds, this`pendingSendRestores
      ensures State() == old(State()).(mem := EMPTY_MEMORY)
    {
      var rest := entries;
      while rest != {}
        invariant rest <= entries
        invariant State() == old(State()).(mem := ResetSlices(old(State()).mem, entries - rest))
      {
        var key :| key in rest;
        match key {
          case DraftsKey => inputDrafts := map[];
          case AttachmentsKey => inputDraftAttachments := map[];
          case AppliedKey => appliedDraftRestoreIds := [];
          case RestoresKey => pendingSendRestores := map[];
        }
        rest := rest - {key};
      }
      assert entries - rest == ALL_KEYS;
    }

    method Logout(slugs: seq<string>)
      requires Valid()
      modifies this
      ensures Valid() && State() == LoggedOut(old(State()), slugs)
    {
      ResetAllRegisteredDrafts();
      for n := 0 to |slugs|
        invariant entries == old(entries)
        invariant State() == LoggedOut(old(State()), slugs[..n])
      {
        assert slugs[..n + 1][..n] == slugs[..n];
        ClearWorkspaceStorage(slugs[n]);
      }
      assert slugs[..|slugs|] == slugs;
    }
  }

  /** The storage less these keys of one workspace. */
  function RemovedKeys(disk: Disk, keys: set<DraftKey>, slug: string): Disk {
    var ns := Some(slug);
    disk.(drafts := if DraftsKey in keys then disk.drafts - {ns} else disk.drafts,
          attachments := if AttachmentsKey in keys then disk.attachments - {ns} else disk.attachments,
          applied := if AppliedKey in keys then disk.applied - {ns} else disk.applied,
          restores := if RestoresKey in keys then disk.restores - {ns} else disk.restores)
  }

  function ResetSlices(mem: Memory, keys: set<DraftKey>): Memory {
    Memory(if DraftsKey in keys then map[] else mem.drafts,
           if AttachmentsKey in keys then map[] else mem.attachments,
           if AppliedKey in keys then [] else mem.applied,
           if RestoresKey in keys then map[] else mem.restores)
  }

  lemma RemoveOneMore(disk: Disk, keys: set<DraftKey>, key: DraftKey, slug: string)
    ensures RemoveKey(RemovedKeys(disk, keys, slug), key, Some(slug)) == RemovedKeys(disk, keys + {key}, slug)
  {
  }

  lemma RemoveAllKeys(disk: Disk, slug: string)
    ensures RemovedKeys(disk, ALL_KEYS, slug) == Cleared(disk, slug).(agents := disk.agents)
  {
  }

  // ----- storage mirrors memory -----

  /** Reading the current keys back gives the maps in memory, less empty texts and uploads still in flight. */
  ghost predicate Mirrors(s: Store) {
    var ns := NamespaceOf(s.slug);
    && Pruned(DraftsAt(s.disk, ns)) == Pruned(s.mem.drafts)
    && UploadsAt(s.disk, ns) == SettledSlots(s.mem.attachments)
    && AppliedAt(s.disk, ns) == s.mem.applied
    && RestoresAt(s.disk, ns) == PlainQueues(s.mem.restores)
  }

  lemma PrunedTwice<T>(slots: map<string, seq<T>>)
    ensures Pruned(Pruned(slots)) == Pruned(slots)
  {
  }

  /** Writing any of the four maps through keeps the mirror and stays in the workspace. */
  lemma WritesKeepMirror(s: Store, next: Memory)
    requires Mirrors(s)
    ensures Mirrors(PersistDrafts(s, next.drafts)) && Mirrors(PersistUploads(s, next.attachments))
    ensures Mirrors(PersistApplied(s, next.applied)) && Mirrors(PersistRestores(s, next.restores))
  {
    hide Pruned, SettledSlots, PlainQueues, UploadsOf, QueuesOf, Somes, StoredUploads, StoredQueues;
    var ns := NamespaceOf(s.slug);
    DraftsReadBack(s.disk, ns, next.drafts);
    PrunedTwice(next.drafts);
    UploadsReadBack(s.disk, ns, next.attachments);
    AppliedReadBack(s.disk, ns, next.applied);
    RestoresReadBack(s.disk, ns, next.restores);
  }

  /** After every reload, whatever the storage held. */
  lemma ReloadMirrors(s: Store)
    ensures Mirrors(Reloaded(s))
  {
    hide Migrated, Pruned, SettledSlots, PlainQueues, UploadsOf, QueuesOf, Somes, StoredUploads, HasLegacy;
    var ns := NamespaceOf(s.slug);
    var l := Load(s.disk, ns, AgentAt(s.disk, ns));
    LoadReadsBack(s.disk, ns, AgentAt(s.disk, ns));
    PrunedTwice(l.drafts);
    LoadedSlotsAreSettled(l.disk, ns);
    LoadedQueuesArePlain(l.disk, ns);
  }
}
