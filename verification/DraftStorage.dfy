/**
 The stored form of the chat drafts: one blob per kind and workspace, read and written whole, and the folding of
 the older per-agent new-chat slots into the single one.
 */
module DraftStorage {
  import opened Wrappers
  import opened DraftUploads

  /** The workspace suffix of a storage key; None is the bare key used while no workspace is active. */
  type Namespace = Option<string>

  /** A stored blob: text that does not parse to the expected shape, or its value. */
  datatype Blob<T> = Malformed | Parsed(value: T)

  datatype StoredList = NotAList | Rows(rows: seq<StoredRow>)

  /** A restore with no server copy. */
  datatype SendRestore = SendRestore(id: string, content: string, attachments: Option<seq<Attachment>>, sessionId: string)

  /** Its stored form: an element None of the attachments is one that does not look like an attachment. */
  datatype StoredRestore =
    | StoredRestore(id: string, content: string, attachments: Option<seq<Option<Attachment>>>, sessionId: string)
    | JunkRestore

  datatype StoredQueue = NotAQueue | Queue(rows: seq<StoredRestore>)

  datatype Disk = Disk(
    drafts: map<Namespace, Blob<map<string, string>>>,
    attachments: map<Namespace, Blob<map<string, StoredList>>>,
    applied: map<Namespace, Blob<seq<Option<string>>>>,
    restores: map<Namespace, Blob<map<string, StoredQueue>>>,
    agents: map<Namespace, string>)

  function ValueAt<T>(blobs: map<Namespace, Blob<T>>, ns: Namespace, empty: T): T {
    if ns in blobs && blobs[ns].Parsed? then blobs[ns].value else empty
  }

  // ----- pruning, shared by every writer: an empty text or list is not written -----

  function Pruned<T>(slots: map<string, seq<T>>): map<string, seq<T>> {
    map k | k in slots && slots[k] != [] :: slots[k]
  }

  method PruneEmpty<T>(slots: map<string, seq<T>>) returns (pruned: map<string, seq<T>>)
    ensures pruned == Pruned(slots)
  {
    pruned := map[];
    var rest := slots.Keys;
    while rest != {}
      invariant rest <= slots.Keys
      invariant pruned == map k | k in slots && k !in rest && slots[k] != [] :: slots[k]
    {
      var k :| k in rest;
      if slots[k] != [] { pruned := pruned[k := slots[k]]; }
      rest := rest - {k};
    }
  }

  // ----- texts -----

  function DraftsAt(disk: Disk, ns: Namespace): map<string, string> {
    ValueAt(disk.drafts, ns, map[])
  }

  function WithDrafts(disk: Disk, ns: Namespace, drafts: map<string, string>): Disk {
    disk.(drafts := if Pruned(drafts) == map[] then disk.drafts - {ns} else disk.drafts[ns := Parsed(Pruned(drafts))])
  }

  lemma DraftsReadBack(disk: Disk, ns: Namespace, drafts: map<string, string>)
    ensures DraftsAt(WithDrafts(disk, ns, drafts), ns) == Pruned(drafts)
  {
  }

  /** What a blob stores: nothing when it is missing or does not parse, else exactly its texts and readable lists. */
  lemma BlobsAreRead(disk: Disk, ns: Namespace)
    ensures ns !in disk.drafts || disk.drafts[ns] == Malformed ==> DraftsAt(disk, ns) == map[]
    ensures ns !in disk.attachments || disk.attachments[ns] == Malformed ==> UploadsAt(disk, ns) == map[]
    ensures ns !in disk.applied || disk.applied[ns] == Malformed ==> AppliedAt(disk, ns) == []
    ensures ns !in disk.restores || disk.restores[ns] == Malformed ==> RestoresAt(disk, ns) == map[]
    ensures forall drafts: map<string, string> :: ns in disk.drafts && disk.drafts[ns] == Parsed(drafts) ==> DraftsAt(disk, ns) == drafts
    ensures forall lists: map<string, StoredList>, k: string :: ns in disk.attachments && disk.attachments[ns] == Parsed(lists) ==>
              (k in UploadsAt(disk, ns) <==> k in lists && lists[k] != NotAList && Normalized(lists[k].rows) != [])
              && (k in UploadsAt(disk, ns) ==> UploadsAt(disk, ns)[k] == Normalized(lists[k].rows))
    ensures forall items: seq<Option<string>> :: ns in disk.applied && disk.applied[ns] == Parsed(items) ==> AppliedAt(disk, ns) == Somes(items)
    ensures forall queues: map<string, StoredQueue>, k: string :: ns in disk.restores && disk.restores[ns] == Parsed(queues) ==>
              (k in RestoresAt(disk, ns) <==> k in queues && queues[k] != NotAQueue && QueueOf(queues[k].rows) != [])
              && (k in RestoresAt(disk, ns) ==> RestoresAt(disk, ns)[k] == QueueOf(queues[k].rows))
  {
    hide Normalized, QueueOf;
  }

  // ----- uploads -----

  function UploadsOf(lists: map<string, StoredList>): map<string, seq<DraftUpload>> {
    map k | k in lists && lists[k].Rows? && Normalized(lists[k].rows) != [] :: Normalized(lists[k].rows)
  }

  function UploadsAt(disk: Disk, ns: Namespace): map<string, seq<DraftUpload>> {
    UploadsOf(ValueAt(disk.attachments, ns, map[]))
  }

  method ReadDraftAttachments(lists: map<string, StoredList>) returns (out: map<string, seq<DraftUpload>>)
    ensures out == UploadsOf(lists)
  {
    hide Normalized;
    out := map[];
    var rest := lists.Keys;
    while rest != {}
      invariant rest <= lists.Keys
      invariant out == map k | k in lists && k !in rest && lists[k].Rows? && Normalized(lists[k].rows) != [] :: Normalized(lists[k].rows)
    {
      var k :| k in rest;
      rest := rest - {k};
      if lists[k].NotAList? { continue; }
      var uploads := NormalizeStoredUploads(Some(lists[k].rows));
      if uploads != [] { out := out[k := uploads]; }
    }
  }

  function StoredUploads(slots: map<string, seq<DraftUpload>>): map<string, StoredList> {
    map k | k in slots :: Rows(AsStored(slots[k]))
  }

  function WithUploads(disk: Disk, ns: Namespace, slots: map<string, seq<DraftUpload>>): Disk {
    disk.(attachments :=
      if Pruned(slots) == map[] then disk.attachments - {ns}
      else disk.attachments[ns := Parsed(StoredUploads(Pruned(slots)))])
  }

  /** What a load keeps of the uploads in memory. */
  function SettledSlots(slots: map<string, seq<DraftUpload>>): map<string, seq<DraftUpload>> {
    map k | k in slots && Settled(slots[k]) != [] :: Settled(slots[k])
  }

  lemma UploadsReadBack(disk: Disk, ns: Namespace, slots: map<string, seq<DraftUpload>>)
    ensures UploadsAt(WithUploads(disk, ns, slots), ns) == SettledSlots(slots)
  {
    hide Normalized, Settled, AsStored;
    forall k | k in slots ensures Normalized(AsStored(slots[k])) == Settled(slots[k]) { StoredReadsBack(slots[k]); }
    SettledOfNone();
    var read := UploadsAt(WithUploads(disk, ns, slots), ns);
    forall k ensures k in read <==> k in SettledSlots(slots) {}
  }

  lemma SettledOfNone()
    ensures Settled([]) == []
  {
  }

  /** Loaded uploads have nothing in flight. */
  lemma LoadedSlotsAreSettled(disk: Disk, ns: Namespace)
    ensures SettledSlots(UploadsAt(disk, ns)) == UploadsAt(disk, ns)
  {
    hide Normalized, Settled;
    var slots := UploadsAt(disk, ns);
    var lists := ValueAt(disk.attachments, ns, map[]);
    forall k | k in slots ensures Settled(slots[k]) == slots[k] { LoadedIsSettled(lists[k].rows); }
  }

  // ----- the ledger of applied restores -----

  function Somes<T>(items: seq<Option<T>>): seq<T> {
    if items == [] then []
    else
      var front, last := Somes(items[..|items| - 1]), items[|items| - 1];
      if last.Some? then front + [last.value] else front
  }

  function AllSome<T>(items: seq<T>): (all: seq<Option<T>>)
    ensures |all| == |items| && forall i :: 0 <= i < |items| ==> all[i] == Some(items[i])
  {
    seq(|items|, i requires 0 <= i < |items| => Some(items[i]))
  }

  lemma {:induction false} SomesOfAll<T>(items: seq<T>)
    ensures Somes(AllSome(items)) == items
  {
    if items != [] {
      var n := |items| - 1;
      assert AllSome(items)[..n] == AllSome(items[..n]);
      SomesOfAll(items[..n]);
    }
  }

  function AppliedAt(disk: Disk, ns: Namespace): seq<string> {
    Somes(ValueAt(disk.applied, ns, []))
  }

  function WithApplied(disk: Disk, ns: Namespace, ids: seq<string>): Disk {
    disk.(applied := if ids == [] then disk.applied - {ns} else disk.applied[ns := Parsed(AllSome(ids))])
  }

  lemma AppliedReadBack(disk: Disk, ns: Namespace, ids: seq<string>)
    ensures AppliedAt(WithApplied(disk, ns, ids), ns) == ids
  {
    SomesOfAll(ids);
  }

  /** The usable items of a stored list, each for itself: in their order. */
  lemma {:induction false} SomesByItem<T>(front: seq<Option<T>>, x: Option<T>, back: seq<Option<T>>)
    ensures Somes(front + [x] + back) == Somes(front) + (if x.Some? then [x.value] else []) + Somes(back)
    ensures Somes<T>([]) == []
  {
    var all := front + [x] + back;
    if back == [] {
      assert all == front + [x] && all[..|all| - 1] == front;
    } else {
      var n := |back| - 1;
      assert all[..|all| - 1] == front + [x] + back[..n];
      SomesByItem(front, x, back[..n]);
    }
  }

  // ----- the queues of restores without a server copy -----

  function RestoreOf(r: StoredRestore): SendRestore
    requires r.StoredRestore?
  {
    SendRestore(r.id, r.content, Some(if r.attachments.Some? then Somes(r.attachments.value) else []), r.sessionId)
  }

  function QueueOf(rows: seq<StoredRestore>): seq<SendRestore> {
    if rows == [] then []
    else
      var front, last := QueueOf(rows[..|rows| - 1]), rows[|rows| - 1];
      if last.JunkRestore? then front else front + [RestoreOf(last)]
  }

  /** A stored queue, each row for itself: every restore that is one, with its usable attachments, in order. */
  lemma {:induction false} QueueByRow(front: seq<StoredRestore>, x: StoredRestore, back: seq<StoredRestore>)
    ensures QueueOf(front + [x] + back)
         == QueueOf(front)
            + (match x
               case JunkRestore => []
               case StoredRestore(id, content, None, session) => [SendRestore(id, content, Some([]), session)]
               case StoredRestore(id, content, Some(attachments), session) =>
                 [SendRestore(id, content, Some(Somes(attachments)), session)])
            + QueueOf(back)
    ensures QueueOf([]) == []
  {
    var all := front + [x] + back;
    if back == [] {
      assert all == front + [x] && all[..|all| - 1] == front;
    } else {
      var n := |back| - 1;
      assert all[..|all| - 1] == front + [x] + back[..n];
      QueueByRow(front, x, back[..n]);
      hide Somes;
    }
  }

  function QueuesOf(queues: map<string, StoredQueue>): map<string, seq<SendRestore>> {
    map k | k in queues && queues[k].Queue? && QueueOf(queues[k].rows) != [] :: QueueOf(queues[k].rows)
  }

  function RestoresAt(disk: Disk, ns: Namespace): map<string, seq<SendRestore>> {
    QueuesOf(ValueAt(disk.restores, ns, map[]))
  }

  method ReadPendingSendRestores(queues: map<string, StoredQueue>) returns (out: map<string, seq<SendRestore>>)
    ensures out == QueuesOf(queues)
  {
    hide QueueOf;
    out := map[];
    var rest := queues.Keys;
    while rest != {}
      invariant rest <= queues.Keys
      invariant out == map k | k in queues && k !in rest && queues[k].Queue? && QueueOf(queues[k].rows) != [] :: QueueOf(queues[k].rows)
    {
      var k :| k in rest;
      rest := rest - {k};
      if queues[k].NotAQueue? { continue; }
      var queued := QueueOf(queues[k].rows);
      if queued != [] { out := out[k := queued]; }
    }
  }

  function AsStoredRestore(r: SendRestore): StoredRestore {
    StoredRestore(r.id, r.content, if r.attachments.Some? then Some(AllSome(r.attachments.value)) else None, r.sessionId)
  }

  function AsStoredQueue(queue: seq<SendRestore>): (rows: seq<StoredRestore>)
    ensures |rows| == |queue| && forall i :: 0 <= i < |rows| ==> rows[i] == AsStoredRestore(queue[i])
  {
    seq(|queue|, i requires 0 <= i < |queue| => AsStoredRestore(queue[i]))
  }

  function StoredQueues(queues: map<string, seq<SendRestore>>): map<string, StoredQueue> {
    map k | k in queues :: Queue(AsStoredQueue(queues[k]))
  }

  function WithRestores(disk: Disk, ns: Namespace, queues: map<string, seq<SendRestore>>): Disk {
    disk.(restores :=
      if Pruned(queues) == map[] then disk.restores - {ns}
      else disk.restores[ns := Parsed(StoredQueues(Pruned(queues)))])
  }

  /** A restore without attachments reads back with an empty list of them. */
  function Plain(r: SendRestore): SendRestore {
    r.(attachments := Some(if r.attachments.Some? then r.attachments.value else []))
  }

  function PlainQueue(queue: seq<SendRestore>): (plain: seq<SendRestore>)
    ensures |plain| == |queue| && forall i :: 0 <= i < |queue| ==> plain[i] == Plain(queue[i])
  {
    seq(|queue|, i requires 0 <= i < |queue| => Plain(queue[i]))
  }

  function PlainQueues(queues: map<string, seq<SendRestore>>): map<string, seq<SendRestore>> {
    map k | k in queues && queues[k] != [] :: PlainQueue(queues[k])
  }

  lemma {:induction false} QueueReadsBack(queue: seq<SendRestore>)
    ensures QueueOf(AsStoredQueue(queue)) == PlainQueue(queue)
  {
    if queue != [] {
      var n := |queue| - 1;
      assert AsStoredQueue(queue)[..n] == AsStoredQueue(queue[..n]);
      QueueReadsBack(queue[..n]);
      if queue[n].attachments.Some? { SomesOfAll(queue[n].attachments.value); }
    }
  }

  lemma RestoresReadBack(disk: Disk, ns: Namespace, queues: map<string, seq<SendRestore>>)
    ensures RestoresAt(WithRestores(disk, ns, queues), ns) == PlainQueues(queues)
  {
    hide QueueOf, AsStoredQueue, PlainQueue;
    forall k | k in queues
      ensures QueueOf(AsStoredQueue(queues[k])) == PlainQueue(queues[k]) && |PlainQueue(queues[k])| == |queues[k]|
    {
      QueueReadsBack(queues[k]);
    }
  }

  lemma {:induction false} LoadedQueueIsPlain(rows: seq<StoredRestore>)
    ensures PlainQueue(QueueOf(rows)) == QueueOf(rows)
  {
    if rows != [] { LoadedQueueIsPlain(rows[..|rows| - 1]); }
  }

  lemma LoadedQueuesArePlain(disk: Disk, ns: Namespace)
    ensures PlainQueues(RestoresAt(disk, ns)) == RestoresAt(disk, ns)
  {
    hide QueueOf, PlainQueue;
    var queues := ValueAt(disk.restores, ns, map[]);
    forall k | k in RestoresAt(disk, ns) ensures PlainQueue(RestoresAt(disk, ns)[k]) == RestoresAt(disk, ns)[k] {
      LoadedQueueIsPlain(queues[k].rows);
    }
  }

  // ----- the per-agent slots of earlier builds -----

  const DRAFT_NEW_SESSION := "__new__"
  const LEGACY_NEW_SESSION_PREFIX := "__new__:"

  predicate IsLegacy(slot: string) {
    |LEGACY_NEW_SESSION_PREFIX| <= |slot| && slot[..|LEGACY_NEW_SESSION_PREFIX|] == LEGACY_NEW_SESSION_PREFIX
  }

  function LegacySlot(agent: Option<string>): (slot: string)
    ensures IsLegacy(slot)
  {
    LEGACY_NEW_SESSION_PREFIX + agent.GetOr("")
  }

  /** The older slots are those of the new chat followed by a colon and an agent. */
  lemma LegacyIff(slot: string)
    ensures IsLegacy(slot) <==> exists agent :: slot == "__new__:" + agent
  {
    if IsLegacy(slot) { assert slot == "__new__:" + slot[8..]; }
  }

  ghost predicate HasLegacy<T>(slots: map<string, T>) {
    exists k :: k in slots && IsLegacy(k)
  }

  /** Where the new-chat slot comes from: the unified slot if there is one, else that of the selected agent. */
  function NewChatSource<T>(slots: map<string, T>, agent: Option<string>): Option<string> {
    if DRAFT_NEW_SESSION in slots then Some(DRAFT_NEW_SESSION)
    else if LegacySlot(agent) in slots then Some(LegacySlot(agent))
    else None
  }

  /** The slots less the legacy ones, with the new-chat slot taken from its source. */
  ghost predicate IsMigrated<T>(slots: map<string, T>, agent: Option<string>, next: map<string, T>) {
    && (forall k :: k in next && k != DRAFT_NEW_SESSION <==> k in slots && k != DRAFT_NEW_SESSION && !IsLegacy(k))
    && (forall k :: k in next && k != DRAFT_NEW_SESSION ==> next[k] == slots[k])
    && (DRAFT_NEW_SESSION in next <==> NewChatSource(slots, agent).Some?)
    && (DRAFT_NEW_SESSION in next ==> next[DRAFT_NEW_SESSION] == slots[NewChatSource(slots, agent).value])
  }

  function Migrated<T>(slots: map<string, T>, agent: Option<string>): map<string, T> {
    var next := if DRAFT_NEW_SESSION !in slots && LegacySlot(agent) in slots
                then slots[DRAFT_NEW_SESSION := slots[LegacySlot(agent)]] else slots;
    map k | k in next && !IsLegacy(k) :: next[k]
  }

  lemma MigratedFacts<T>(slots: map<string, T>, agent: Option<string>)
    ensures IsMigrated(slots, agent, Migrated(slots, agent))
    ensures !HasLegacy(Migrated(slots, agent))
    ensures !HasLegacy(slots) ==> Migrated(slots, agent) == slots
  {
    assert !IsLegacy(DRAFT_NEW_SESSION);
  }

  method MigrateLegacyNewChatSlots<T>(slots: map<string, T>, agent: Option<string>)
    returns (next: map<string, T>, changed: bool)
    ensures next == Migrated(slots, agent)
    ensures changed <==> HasLegacy(slots)
  {
    MigratedFacts(slots, agent);
    var legacyKeys := set k | k in slots && IsLegacy(k);
    assert forall k :: k in slots && IsLegacy(k) <==> k in legacyKeys;
    if legacyKeys == {} { return slots, false; }
    ghost var some :| some in legacyKeys;
    next := slots;
    if DRAFT_NEW_SESSION !in next && LegacySlot(agent) in next {
      next := next[DRAFT_NEW_SESSION := next[LegacySlot(agent)]];
    }
    ghost var adopted := next;
    var rest := legacyKeys;
    while rest != {}
      invariant rest <= legacyKeys
      invariant next == map k | k in adopted && (!IsLegacy(k) || k in rest) :: adopted[k]
    {
      var key :| key in rest;
      next := next - {key};
      rest := rest - {key};
    }
    changed := true;
  }

  // ----- loading both maps together -----

  datatype Loaded = Loaded(disk: Disk, drafts: map<string, string>, attachments: map<string, seq<DraftUpload>>)

  ghost function Load(disk: Disk, ns: Namespace, agent: Option<string>): Loaded {
    var drafts, attachments := Migrated(DraftsAt(disk, ns), agent), Migrated(UploadsAt(disk, ns), agent);
    var disk1 := if HasLegacy(DraftsAt(disk, ns)) then WithDrafts(disk, ns, drafts) else disk;
    var disk2 := if HasLegacy(UploadsAt(disk, ns)) then WithUploads(disk1, ns, attachments) else disk1;
    Loaded(disk2, drafts, attachments)
  }

  method LoadDraftSlots(disk: Disk, ns: Namespace, agent: Option<string>) returns (loaded: Loaded)
    ensures loaded == Load(disk, ns, agent)
  {
    var drafts, draftsChanged := MigrateLegacyNewChatSlots(DraftsAt(disk, ns), agent);
    var read := ReadDraftAttachments(ValueAt(disk.attachments, ns, map[]));
    var attachments, attachmentsChanged := MigrateLegacyNewChatSlots(read, agent);
    var next := disk;
    if draftsChanged { next := WriteDrafts(next, ns, drafts); }
    if attachmentsChanged { next := WriteDraftAttachments(next, ns, attachments); }
    loaded := Loaded(next, drafts, attachments);
  }

  method WriteDrafts(disk: Disk, ns: Namespace, drafts: map<string, string>) returns (next: Disk)
    ensures next == WithDrafts(disk, ns, drafts)
  {
    var pruned := PruneEmpty(drafts);
    next := disk.(drafts := if pruned == map[] then disk.drafts - {ns} else disk.drafts[ns := Parsed(pruned)]);
  }

  method WriteDraftAttachments(disk: Disk, ns: Namespace, slots: map<string, seq<DraftUpload>>) returns (next: Disk)
    ensures next == WithUploads(disk, ns, slots)
  {
    var pruned := PruneEmpty(slots);
    next := disk.(attachments :=
      if pruned == map[] then disk.attachments - {ns} else disk.attachments[ns := Parsed(StoredUploads(pruned))]);
  }

  method WritePendingSendRestores(disk: Disk, ns: Namespace, queues: map<string, seq<SendRestore>>) returns (next: Disk)
    ensures next == WithRestores(disk, ns, queues)
  {
    var pruned := PruneEmpty(queues);
    next := disk.(restores :=
      if pruned == map[] then disk.restores - {ns} else disk.restores[ns := Parsed(StoredQueues(pruned))]);
  }

  /** Loading returns no legacy slot, leaves none to be read, and never overwrites the unified slot. */
  lemma LoadFoldsLegacySlots(disk: Disk, ns: Namespace, agent: Option<string>)
    ensures var l := Load(disk, ns, agent);
            && !HasLegacy(l.drafts) && !HasLegacy(l.attachments)
            && !HasLegacy(DraftsAt(l.disk, ns)) && !HasLegacy(UploadsAt(l.disk, ns))
            && IsMigrated(DraftsAt(disk, ns), agent, l.drafts)
            && IsMigrated(UploadsAt(disk, ns), agent, l.attachments)
  {
    hide Migrated, IsMigrated, IsLegacy, UploadsOf;
    MigratedFacts(DraftsAt(disk, ns), agent);
    MigratedFacts(UploadsAt(disk, ns), agent);
    LoadReadsBack(disk, ns, agent);
  }

  /** What a load leaves in storage reads back as what it returned. */
  lemma LoadReadsBack(disk: Disk, ns: Namespace, agent: Option<string>)
    ensures var l := Load(disk, ns, agent);
            && UploadsAt(l.disk, ns) == l.attachments
            && DraftsAt(l.disk, ns) == if HasLegacy(DraftsAt(disk, ns)) then Pruned(l.drafts) else l.drafts
  {
    hide Migrated, IsMigrated, IsLegacy, UploadsOf, Pruned, Settled, HasLegacy;
    var drafts, attachments := Migrated(DraftsAt(disk, ns), agent), Migrated(UploadsAt(disk, ns), agent);
    MigratedFacts(DraftsAt(disk, ns), agent);
    MigratedFacts(UploadsAt(disk, ns), agent);
    DraftsReadBack(disk, ns, drafts);
    UploadsReadBack(disk, ns, attachments);
    var disk1 := if HasLegacy(DraftsAt(disk, ns)) then WithDrafts(disk, ns, drafts) else disk;
    UploadsReadBack(disk1, ns, attachments);
    MigratedStaysSettled(disk, ns, agent);
    assert UploadsAt(disk1, ns) == UploadsAt(disk, ns);
  }

  lemma MigratedStaysSettled(disk: Disk, ns: Namespace, agent: Option<string>)
    ensures SettledSlots(Migrated(UploadsAt(disk, ns), agent)) == Migrated(UploadsAt(disk, ns), agent)
  {
    hide Settled, Normalized, IsLegacy;
    LoadedSlotsAreSettled(disk, ns);
    var slots := UploadsAt(disk, ns);
    forall k | k in slots ensures Settled(slots[k]) == slots[k] != [] { assert k in SettledSlots(slots); }
  }

  /** No empty text among those a load returns: the session texts, the unified one, or the one adopted in its place. */
  ghost predicate NoEmptyTexts(drafts: map<string, string>, agent: Option<string>) {
    && (forall k :: k in drafts && !IsLegacy(k) ==> drafts[k] != "")
    && (DRAFT_NEW_SESSION !in drafts && LegacySlot(agent) in drafts ==> drafts[LegacySlot(agent)] != "")
  }

  lemma PrunedMigratedIff(drafts: map<string, string>, agent: Option<string>)
    ensures Pruned(Migrated(drafts, agent)) == Migrated(drafts, agent) <==> NoEmptyTexts(drafts, agent)
  {
    MigratedFacts(drafts, agent);
    assert !IsLegacy(DRAFT_NEW_SESSION);
    hide IsLegacy, LegacySlot, Migrated;
    var next := Migrated(drafts, agent);
    PrunedIsIff(next);
    if NoEmptyTexts(drafts, agent) {
      forall k | k in next ensures next[k] != "" {}
    } else if k :| k in drafts && !IsLegacy(k) && drafts[k] == "" {
      assert k in next && next[k] == "";
    } else {
      assert DRAFT_NEW_SESSION in next && next[DRAFT_NEW_SESSION] == "";
    }
  }

  lemma PrunedIsIff<T>(slots: map<string, seq<T>>)
    ensures Pruned(slots) == slots <==> forall k :: k in slots ==> slots[k] != []
  {
    if Pruned(slots) == slots {
      forall k | k in slots ensures slots[k] != [] { assert k in Pruned(slots); }
    }
  }

  /**
   A second load, whichever agent is selected by then, writes nothing and returns the same uploads. It returns the
   same texts exactly when the stored blob had no legacy slot or no empty text that a load returns.
   */
  lemma SecondLoadIsQuiet(disk: Disk, ns: Namespace, agent: Option<string>, later: Option<string>)
    ensures var l := Load(disk, ns, agent);
            var again := Load(l.disk, ns, later);
            && again.disk == l.disk
            && again.attachments == l.attachments
            && (again.drafts == l.drafts
                <==> (!HasLegacy(DraftsAt(disk, ns)) || NoEmptyTexts(DraftsAt(disk, ns), agent)))
  {
    hide Migrated, IsMigrated, IsLegacy, UploadsOf, HasLegacy, NoEmptyTexts;
    var l := Load(disk, ns, agent);
    LoadFoldsLegacySlots(disk, ns, agent);
    LoadReadsBack(disk, ns, agent);
    MigratedFacts(DraftsAt(l.disk, ns), later);
    MigratedFacts(UploadsAt(l.disk, ns), later);
    PrunedMigratedIff(DraftsAt(disk, ns), agent);
  }

  /** An empty session text stored beside a legacy slot: returned by the first load, gone in the second. */
  lemma EmptyTextIsReturnedOnce(session: string, words: string, agent: Option<string>)
    requires session != DRAFT_NEW_SESSION && !IsLegacy(session)
    ensures var disk := Disk(map[None := Parsed(map[session := "", LegacySlot(agent) := words])], map[], map[], map[], map[]);
            var l := Load(disk, None, agent);
            && session in l.drafts && l.drafts[session] == ""
            && session !in Load(l.disk, None, agent).drafts
  {
    var stored := map[session := "", LegacySlot(agent) := words];
    var disk := Disk(map[None := Parsed(stored)], map[], map[], map[], map[]);
    var l := Load(disk, None, agent);
    MigratedFacts(stored, agent);
    hide IsLegacy, LegacySlot, Migrated, UploadsOf;
    assert LegacySlot(agent) in stored && IsLegacy(LegacySlot(agent));
    assert session in stored && stored[session] == "";
    LoadReadsBack(disk, None, agent);
    MigratedFacts(DraftsAt(l.disk, None), agent);
    assert session !in DraftsAt(l.disk, None);
  }

  /**
   Texts and uploads of the new chat come from one slot exactly when the unified slot is in both maps or in
   neither: with it in one only, its words meet the files of a legacy slot, or the other way round.
   */
  lemma WordsAndFilesAgreeIff(disk: Disk, ns: Namespace, agent: Option<string>)
    requires NewChatSource(DraftsAt(disk, ns), agent).Some? && NewChatSource(UploadsAt(disk, ns), agent).Some?
    ensures NewChatSource(DraftsAt(disk, ns), agent) == NewChatSource(UploadsAt(disk, ns), agent)
            <==> (DRAFT_NEW_SESSION in DraftsAt(disk, ns) <==> DRAFT_NEW_SESSION in UploadsAt(disk, ns))
  {
    assert !IsLegacy(DRAFT_NEW_SESSION);
  }

  /** Words of the unified slot meeting the files of the selected agent's older slot. */
  lemma WordsOfOneFilesOfAnother(words: string, a: Attachment, agent: Option<string>)
    ensures var disk := Disk(map[None := Parsed(map[DRAFT_NEW_SESSION := words])],
                             map[None := Parsed(map[LegacySlot(agent) := Rows([BareAttachment(a)])])], map[], map[], map[]);
            var l := Load(disk, None, agent);
            && DRAFT_NEW_SESSION in l.drafts && l.drafts[DRAFT_NEW_SESSION] == words
            && DRAFT_NEW_SESSION in l.attachments && l.attachments[DRAFT_NEW_SESSION] == [AttachmentToDraftUpload(a)]
  {
    hide Migrated, WithDrafts, WithUploads, IsLegacy, LegacySlot, AttachmentToDraftUpload, Normalized;
    OneSurvives(a);
    assert LegacySlot(agent) != DRAFT_NEW_SESSION by { LegacyIsNotNew(LegacySlot(agent)); }
    MigratedFacts(map[DRAFT_NEW_SESSION := words], agent);
    MigratedFacts(UploadsOf(map[LegacySlot(agent) := Rows([BareAttachment(a)])]), agent);
  }

  lemma LegacyIsNotNew(slot: string)
    requires IsLegacy(slot)
    ensures slot != DRAFT_NEW_SESSION
  {
  }

  lemma OneSurvives(a: Attachment)
    ensures Normalized([BareAttachment(a)]) == [AttachmentToDraftUpload(a)]
  {
    assert [BareAttachment(a)][..0] == [];
    assert Normalized([]) == [];
  }
}
