/**
 How long a stored draft lasts: exactly which events take a completed upload, or a text, out of the storage of a
 workspace. Between a switch and its reload every write replaces what the new workspace had stored.
 */
module DraftDurability {
  import opened Wrappers
  import opened DraftUploads
  import opened DraftStorage
  import opened ChatStore
  import opened UploadCoordinator
  import opened DraftProtocol
  import opened DraftPlaces
  import opened DraftMirror
  import opened DraftGap

  // ----- what takes a completed upload out of storage -----

  /** A completed or failed row of the upload is in memory, and the event keeps it. */
  ghost predicate KeepsSettled(w: World, e: Event, id: UploadId)
    requires Enabled(w, e) && |w.uploads.aborted| == |w.requests|
  {
    exists slot, u :: u in RowsOf(w, slot) && u.id == id && !u.InFlight() && !Drops(w, e, slot, u)
  }

  /** The event removes everything stored under the workspace. */
  ghost predicate Removes(e: Event, ns: Namespace) {
    (e.Logout? && ns.Some? && ns.value in e.slugs) || (e.DeleteWorkspace? && ns == Some(e.doomed))
  }

  /** The event takes the upload out of this workspace's storage. */
  ghost predicate Takes(w: World, e: Event, ns: Namespace, id: UploadId)
    requires Enabled(w, e) && |w.uploads.aborted| == |w.requests|
  {
    || (WriteFires(w, e) && Current(w) == ns && !KeepsSettled(w, e, id))
    || Removes(e, ns)
  }

  lemma ReplacedMembers(rows: seq<DraftUpload>, id: UploadId, put: DraftUpload, u: DraftUpload)
    requires u.id != id && put.id == id
    ensures u in ReplaceUpload(rows, id, put) <==> u in rows
  {
    var next := ReplaceUpload(rows, id, put);
    if u in next {
      var i :| 0 <= i < |next| && next[i] == u;
      assert rows[i] == u;
    }
    if u in rows {
      var i :| 0 <= i < |rows| && rows[i] == u;
      assert next[i] == u;
    }
  }

  lemma HolderMembers(rows: seq<DraftUpload>, attachment: string, put: DraftUpload, u: DraftUpload)
    requires u.id != put.id
    ensures u in ReplaceHolders(rows, attachment, put) <==> u in rows && !Holds(u, attachment)
    ensures u in rows && Holds(u, attachment) ==> HoldsAny(rows, attachment)
  {
    var next := ReplaceHolders(rows, attachment, put);
    if u in next {
      var i :| 0 <= i < |next| && next[i] == u;
      assert rows[i] == u && !Holds(rows[i], attachment);
    }
    if u in rows {
      var i :| 0 <= i < |rows| && rows[i] == u;
      assert Holds(u, attachment) || next[i] == u;
    }
  }

  /** Of the uploads it does not pick or complete, a firing write keeps just the rows it does not drop. */
  lemma RowAfter(w: World, e: Event, slot: string, u: DraftUpload)
    requires Enabled(w, e) && Consistent(w) && IsUploadEvent(e) && WriteFires(w, e) && u.id.Minted?
    requires e.Pick? ==> u.id != Minted(|w.requests|)
    requires e.End? ==> u.id != Minted(e.request)
    ensures u in RowsOf(Step(w, e), slot) <==> u in RowsOf(w, slot) && !Drops(w, e, slot, u)
  {
    if e.End? {
      EndRowAfter(w, e, slot, u);
      hide Step, Enabled, Consistent, WriteFires, KeepsRow;
    } else if e.Attach? {
      HolderMembers(RowsOf(w, slot), e.attachment.id, AttachmentToDraftUpload(e.attachment), u);
      hide WithUploads;
    } else if e.Clear? {
      hide WithUploads, WithDrafts;
    } else {
      OtherRowAfter(w, e, slot, u);
    }
  }

  lemma OtherRowAfter(w: World, e: Event, slot: string, u: DraftUpload)
    requires Enabled(w, e) && Consistent(w) && WriteFires(w, e) && u.id.Minted?
    requires (e.Pick? && u.id != Minted(|w.requests|)) || e.Dismiss? || e.SetList?
    ensures u in RowsOf(Step(w, e), slot) <==> u in RowsOf(w, slot) && !Drops(w, e, slot, u)
  {
    if e.SetList? && slot == e.slot && u in e.uploads {
      var i :| 0 <= i < |e.uploads| && e.uploads[i] == u;
    }
    hide WithUploads, AbortedOne, Started, IsLegacy, StillUploading;
  }

  lemma EndRowAfter(w: World, e: Event, slot: string, u: DraftUpload)
    requires Enabled(w, e) && Consistent(w) && e.End? && u.id != Minted(e.request)
    ensures u in RowsOf(Step(w, e), slot) <==> u in RowsOf(w, slot)
  {
    var r := e.request;
    var rows := RowsOf(w, slot);
    var o := EndedOutcome(w, r, e.response);
    OutcomeHasId(Minted(r), w.uploads.aborted[r], e.response);
    hide WithUploads, Finished, OutcomeOf;
    if slot == w.requests[r].slot && HasUpload(rows, Minted(r)) && o.Some? && KeepsRow(w, e) {
      var put := if o.value.UploadedOutcome? then SettledAs(Minted(r), o.value.attachment)
                else FailedAs(FindUpload(rows, Minted(r)), Some(o.value.error));
      assert RowsOf(Step(w, e), slot) == ReplaceUpload(rows, Minted(r), put);
      ReplacedMembers(rows, Minted(r), put, u);
    }
  }

  /** What is stored for the current workspace after a firing write is what is in memory. */
  lemma StoredIsMemory(w: World, e: Event, slot: string, u: DraftUpload)
    requires Enabled(w, e) && Consistent(w) && IsUploadEvent(e) && WriteFires(w, e)
    ensures Stored(Step(w, e).store.disk, Current(w), slot, u) <==> u in RowsOf(Step(w, e), slot)
  {
    WritesOrNothing(w, e);
    hide Step, Stored, WriteFires, Enabled, Consistent, WithUploads;
    var next := Step(w, e).store.mem.attachments;
    if Stored(Step(w, e).store.disk, Current(w), slot, u) {
      StoredAfterWrite(BaseDisk(w, e), Current(w), next, Current(w), slot, u);
    }
    if u in RowsOf(Step(w, e), slot) {
      RowIsStored(BaseDisk(w, e), Current(w), next, slot, u);
    }
  }

  lemma WriteLeavesOthers(w: World, e: Event, ns: Namespace, slot: string, u: DraftUpload)
    requires Enabled(w, e) && Consistent(w) && IsUploadEvent(e)
    ensures ns != Current(w) || !WriteFires(w, e) ==>
              (Stored(Step(w, e).store.disk, ns, slot, u) <==> Stored(w.store.disk, ns, slot, u))
  {
    WritesOrNothing(w, e);
    hide Step, Stored, WriteFires, Enabled, Consistent, WithUploads;
    SameUploadsSameRows(BaseDisk(w, e), w.store.disk, ns, slot, u);
    WriteElsewhere(BaseDisk(w, e), Current(w), Step(w, e).store.mem.attachments, ns, slot, u);
  }

  /** A stored row not in flight belongs to a request that has ended. */
  lemma SettledHasEnded(w: World, ns: Namespace, r: nat)
    requires Consistent(w) && r < |w.requests| && SettledUnder(w, ns, Minted(r))
    ensures w.requests[r].done
  {
    hide Stored;
    var slot, u :| Stored(w.store.disk, ns, slot, u) && u.id == Minted(r) && !u.InFlight();
    assert GoodRow(w, u);
  }

  lemma WriteSettles(w: World, e: Event, r: nat)
    requires Enabled(w, e) && Consistent(w) && IsUploadEvent(e) && WriteFires(w, e)
    requires r < |w.requests| && w.requests[r].done
    ensures SettledUnder(Step(w, e), Current(w), Minted(r)) <==> KeepsSettled(w, e, Minted(r))
  {
    assert |w.uploads.aborted| == |w.requests|;
    NotItsOwn(w, e, r);
    hide Step, Enabled, Consistent, WriteFires, Stored, Drops;
    forall slot: string, u: DraftUpload | u.id == Minted(r)
      ensures Stored(Step(w, e).store.disk, Current(w), slot, u) <==> u in RowsOf(w, slot) && !Drops(w, e, slot, u)
    {
      StoredIsMemory(w, e, slot, u);
      RowAfter(w, e, slot, u);
    }
  }

  lemma NotItsOwn(w: World, e: Event, r: nat)
    requires Enabled(w, e) && r < |w.requests| && w.requests[r].done
    ensures e.Pick? ==> r != |w.requests|
    ensures e.End? ==> r != e.request
  {
  }

  lemma WriteElsewhere(disk: Disk, ns: Namespace, next: map<string, seq<DraftUpload>>, at: Namespace, slot: string, u: DraftUpload)
    ensures at != ns ==> (Stored(WithUploads(disk, ns, next), at, slot, u) <==> Stored(disk, at, slot, u))
  {
  }

  lemma LoadKeepsRow(disk: Disk, ns: Namespace, agent: Option<string>, slot: string, u: DraftUpload)
    requires Stored(disk, ns, slot, u) && !u.InFlight() && !IsLegacy(slot)
    ensures u in At(Load(disk, ns, agent).attachments, slot)
  {
    var lists := ValueAt(disk.attachments, ns, map[]);
    LoadedFromRows(lists[slot].rows, u);
    hide Normalized, IsLegacy, Migrated, WithUploads, WithDrafts;
    var slots := UploadsAt(disk, ns);
    assert slot in slots && u in slots[slot];
    MigratedFacts(slots, agent);
  }

  lemma {:induction false} ClearsKeepOthers(disk: Disk, slugs: seq<string>, at: Namespace, slot: string, u: DraftUpload)
    requires Stored(disk, at, slot, u) && (at.Some? ==> at.value !in slugs)
    ensures Stored(ClearedAll(disk, slugs), at, slot, u)
  {
    if slugs != [] {
      var front, last := slugs[..|slugs| - 1], slugs[|slugs| - 1];
      assert slugs == front + [last];
      ClearsKeepOthers(disk, front, at, slot, u);
      ClearKeepsOthers(ClearedAll(disk, front), last, at, slot, u);
    }
  }

  lemma ClearKeepsOthers(disk: Disk, doomed: string, at: Namespace, slot: string, u: DraftUpload)
    requires Stored(disk, at, slot, u) && at != Some(doomed)
    ensures Stored(Cleared(disk, doomed), at, slot, u)
  {
  }

  lemma LoadKeepsStored(disk: Disk, ns: Namespace, agent: Option<string>, at: Namespace, slot: string, u: DraftUpload)
    requires Stored(disk, at, slot, u) && !u.InFlight() && !IsLegacy(slot)
    ensures Stored(Load(disk, ns, agent).disk, at, slot, u)
  {
    if at == ns { LoadKeepsRow(disk, ns, agent, slot, u); }
    hide Migrated, UploadsOf, HasLegacy, IsLegacy, Stored, WithUploads;
    var next := Migrated(UploadsAt(disk, ns), agent);
    var disk1 := if HasLegacy(DraftsAt(disk, ns)) then WithDrafts(disk, ns, Migrated(DraftsAt(disk, ns), agent)) else disk;
    SameUploadsSameRows(disk1, disk, at, slot, u);
    if HasLegacy(UploadsAt(disk, ns)) {
      if at == ns { RowIsStored(disk1, ns, next, slot, u); } else { WriteElsewhere(disk1, ns, next, at, slot, u); }
    }
  }

  /** No event but a firing write and a removal of storage takes a settled row from where it is stored. */
  lemma OtherEventKeeps(w: World, e: Event, ns: Namespace, slot: string, u: DraftUpload)
    requires Enabled(w, e) && |w.uploads.aborted| == |w.requests| && !IsUploadEvent(e)
    requires Stored(w.store.disk, ns, slot, u) && !u.InFlight() && !IsLegacy(slot)
    requires e.Logout? && ns.Some? ==> ns.value !in e.slugs
    requires e.DeleteWorkspace? ==> ns != Some(e.doomed)
    ensures Stored(Step(w, e).store.disk, ns, slot, u)
  {
    if e.Reload? {
      LoadKeepsStored(w.store.disk, Current(w), AgentAt(w.store.disk, Current(w)), ns, slot, u);
    } else if e.Restart? {
      LoadKeepsStored(w.store.disk, None, AgentAt(w.store.disk, None), ns, slot, u);
    } else if e.Logout? {
      ClearsKeepOthers(w.store.disk, e.slugs, ns, slot, u);
    } else if e.DeleteWorkspace? {
      ClearKeepsOthers(w.store.disk, e.doomed, ns, slot, u);
    } else {
      OthersKeepUploads(w, e);
      SameUploadsSameRows(Step(w, e).store.disk, w.store.disk, ns, slot, u);
      hide Step, Enabled;
    }
    hide Stored, Load, ClearedAll, Cleared, AbortedAll;
  }

  /**
   A completed upload leaves the storage of a workspace exactly when a write fires while that workspace is current and
   memory does not hold the upload, or the event drops it; or a logout lists the workspace; or it is deleted.
   */
  lemma StoredUploadLeavesIff(w: World, e: Event, ns: Namespace, r: nat)
    requires Enabled(w, e) && Consistent(w) && Placed(w) && r < |w.requests| && SettledUnder(w, ns, Minted(r))
    ensures !SettledUnder(Step(w, e), ns, Minted(r)) <==> Takes(w, e, ns, Minted(r))
  {
    SettledHasEnded(w, ns, r);
    if IsUploadEvent(e) {
      UploadEventTakes(w, e, ns, r);
    } else {
      OtherEventTakes(w, e, ns, r);
    }
  }

  lemma UploadEventTakes(w: World, e: Event, ns: Namespace, r: nat)
    requires Enabled(w, e) && Consistent(w) && IsUploadEvent(e)
    requires r < |w.requests| && w.requests[r].done && SettledUnder(w, ns, Minted(r))
    ensures !SettledUnder(Step(w, e), ns, Minted(r)) <==> Takes(w, e, ns, Minted(r))
  {
    assert |w.uploads.aborted| == |w.requests|;
    UploadEventsRemoveNothing(e, ns);
    hide Step, Enabled, Consistent, WriteFires, KeepsSettled, SettledUnder, IsUploadEvent, Removes;
    if WriteFires(w, e) && Current(w) == ns {
      WriteSettles(w, e, r);
    } else {
      OtherWriteKeeps(w, e, ns, r);
    }
  }

  lemma UploadEventsRemoveNothing(e: Event, ns: Namespace)
    requires IsUploadEvent(e)
    ensures !Removes(e, ns)
  {
  }

  lemma OtherWriteKeeps(w: World, e: Event, ns: Namespace, r: nat)
    requires Enabled(w, e) && Consistent(w) && IsUploadEvent(e)
    requires SettledUnder(w, ns, Minted(r)) && !(WriteFires(w, e) && Current(w) == ns)
    ensures SettledUnder(Step(w, e), ns, Minted(r))
  {
    hide Step, Enabled, Consistent, Stored, WriteFires;
    var slot, u :| Stored(w.store.disk, ns, slot, u) && u.id == Minted(r) && !u.InFlight();
    WriteLeavesOthers(w, e, ns, slot, u);
  }

  lemma OtherEventTakes(w: World, e: Event, ns: Namespace, r: nat)
    requires Enabled(w, e) && Consistent(w) && Placed(w) && !IsUploadEvent(e)
    requires r < |w.requests| && SettledUnder(w, ns, Minted(r))
    ensures !SettledUnder(Step(w, e), ns, Minted(r)) <==> Takes(w, e, ns, Minted(r))
  {
    NoWriteFires(w, e);
    assert |w.uploads.aborted| == |w.requests| && !IsLegacy(w.requests[r].slot);
    if Removes(e, ns) {
      RemovalTakes(w, e, ns, Minted(r));
    } else {
      hide Step, Enabled, Consistent, Placed, Stored, WriteFires, IsLegacy;
      var slot, u :| Stored(w.store.disk, ns, slot, u) && u.id == Minted(r) && !u.InFlight();
      StoredIsPlaced(w, ns, slot, u);
      OtherEventKeeps(w, e, ns, slot, u);
    }
  }

  lemma NoWriteFires(w: World, e: Event)
    requires Enabled(w, e) && |w.uploads.aborted| == |w.requests| && !IsUploadEvent(e)
    ensures !WriteFires(w, e)
  {
  }

  lemma RemovalTakes(w: World, e: Event, ns: Namespace, id: UploadId)
    requires Enabled(w, e) && |w.uploads.aborted| == |w.requests|
    requires Removes(e, ns)
    ensures !SettledUnder(Step(w, e), ns, id)
  {
    hide Stored, ClearedAll, Cleared, AbortedAll;
    forall slot, u ensures !Stored(Step(w, e).store.disk, ns, slot, u) {
      if Stored(Step(w, e).store.disk, ns, slot, u) {
        if e.Logout? { StoredAfterClears(w.store.disk, e.slugs, ns, slot, u); } else { StoredAfterClear(w.store.disk, e.doomed, ns, slot, u); }
      }
    }
  }

  // ----- in step, and in the gap -----

  /** With storage in step, memory holds every completed upload the current workspace stores: only a drop takes one. */
  lemma InStepIsHeld(w: World, r: nat)
    requires InStep(w) && !w.store.reloadPending && Consistent(w) && Placed(w)
    requires r < |w.requests| && SettledUnder(w, Current(w), Minted(r))
    ensures exists u :: u in RowsOf(w, w.requests[r].slot) && u.id == Minted(r) && !u.InFlight()
  {
    var ns := Current(w);
    var slot, u :| Stored(w.store.disk, ns, slot, u) && u.id == Minted(r) && !u.InFlight();
    StoredIsPlaced(w, ns, slot, u);
    hide Stored, Consistent, Placed;
    StoredIsRead(w.store.disk, ns, slot, u);
    SettledIsThere(w.store.mem.attachments, slot, u);
  }

  lemma StoredIsRead(disk: Disk, ns: Namespace, slot: string, u: DraftUpload)
    requires Stored(disk, ns, slot, u) && !u.InFlight()
    ensures u in At(UploadsAt(disk, ns), slot)
  {
    LoadedFromRows(ValueAt(disk.attachments, ns, map[])[slot].rows, u);
    hide Normalized;
  }

  lemma SettledIsThere(slots: map<string, seq<DraftUpload>>, slot: string, u: DraftUpload)
    requires u in At(SettledSlots(slots), slot)
    ensures u in At(slots, slot)
  {
    SettledMember(slots[slot], u);
    hide Settled;
  }

  lemma {:induction false} SettledMember(uploads: seq<DraftUpload>, u: DraftUpload)
    requires u in Settled(uploads)
    ensures u in uploads
  {
    var front, last := uploads[..|uploads| - 1], uploads[|uploads| - 1];
    if u in Settled(front) { SettledMember(front, u); }
  }

  /**
   Any write replaces the whole blob of the current workspace: right after it an upload is nowhere exactly when memory
   does not hold and keep it and no other workspace stores it.
   */
  lemma WriteErasesIff(w: World, e: Event, id: UploadId)
    requires Enabled(w, e) && Consistent(w) && IsUploadEvent(e) && WriteFires(w, e) && id.Minted?
    ensures Gone(Step(w, e), id) <==> !Survives(w, e, id) && forall ns :: ns != Current(w) ==> !StoredUnder(w, ns, id)
  {
    assert |w.uploads.aborted| == |w.requests|;
    hide Step, Enabled, Consistent, WriteFires, Stored, Survives, StoredUnder, Gone;
    if Survives(w, e, id) { SurvivorIsThere(w, e, id); }
    if ns :| ns != Current(w) && StoredUnder(w, ns, id) { ElsewhereIsThere(w, e, ns, id); }
    if !Survives(w, e, id) && forall ns :: ns != Current(w) ==> !StoredUnder(w, ns, id) { NothingIsThere(w, e, id); }
  }

  lemma SurvivorIsThere(w: World, e: Event, id: UploadId)
    requires Enabled(w, e) && Consistent(w) && IsUploadEvent(e) && id.Minted? && Survives(w, e, id)
    ensures !Gone(Step(w, e), id)
  {
    var slot :| SurvivesIn(w, e, slot, id);
    hide Step, Enabled, Consistent, Stored, SurvivesIn;
    SlotAfter(w, e, slot, id);
  }

  lemma ElsewhereIsThere(w: World, e: Event, ns: Namespace, id: UploadId)
    requires Enabled(w, e) && Consistent(w) && IsUploadEvent(e) && StoredUnder(w, ns, id)
    requires ns != Current(w) || !WriteFires(w, e)
    ensures !Gone(Step(w, e), id)
  {
    hide Step, Enabled, Consistent, WriteFires, Stored;
    var slot, u :| Stored(w.store.disk, ns, slot, u) && u.id == id;
    WriteLeavesOthers(w, e, ns, slot, u);
  }

  lemma NothingIsThere(w: World, e: Event, id: UploadId)
    requires Enabled(w, e) && Consistent(w) && IsUploadEvent(e) && WriteFires(w, e) && id.Minted?
    requires !Survives(w, e, id) && forall ns :: ns != Current(w) ==> !StoredUnder(w, ns, id)
    ensures Gone(Step(w, e), id)
  {
    assert |w.uploads.aborted| == |w.requests|;
    var v := Step(w, e);
    hide Step, Enabled, Consistent, WriteFires, Stored, Survives;
    forall slot, u | u in RowsOf(v, slot) ensures u.id != id {
      if u.id == id { WrittenSurvives(w, e, slot, u); }
    }
    forall ns, slot, u | Stored(v.store.disk, ns, slot, u) ensures u.id != id {
      if ns == Current(w) {
        StoredIsMemory(w, e, slot, u);
      } else {
        WriteLeavesOthers(w, e, ns, slot, u);
        assert !StoredUnder(w, ns, id);
      }
    }
  }

  /**
   An upload that the current workspace stores is nowhere any more after an event on uploads exactly when its write
   fires, memory does not hold and keep the upload, and no other workspace stores it.
   */
  lemma OverwrittenIsGoneIff(w: World, e: Event, id: UploadId)
    requires Enabled(w, e) && Consistent(w) && IsUploadEvent(e) && id.Minted? && StoredUnder(w, Current(w), id)
    ensures Gone(Step(w, e), id)
            <==> && WriteFires(w, e) && !Survives(w, e, id)
                 && forall ns :: ns != Current(w) ==> !StoredUnder(w, ns, id)
  {
    assert |w.uploads.aborted| == |w.requests|;
    hide Step, Enabled, Consistent, WriteFires, Survives, StoredUnder, Gone;
    if WriteFires(w, e) { WriteErasesIff(w, e, id); } else { ElsewhereIsThere(w, e, Current(w), id); }
  }

  /**
   With every upload in its place, a write between a switch and its reload erases each upload of the new workspace:
   memory is that of another one, and nothing else stores it.
   */
  lemma GapWriteErasesIff(w: World, e: Event, r: nat)
    requires Enabled(w, e) && Consistent(w) && Owned(w) && IsUploadEvent(e) && r < |w.requests|
    requires Current(w) != w.loaded && w.requests[r].home == Current(w) && StoredUnder(w, Current(w), Minted(r))
    ensures Gone(Step(w, e), Minted(r)) <==> WriteFires(w, e)
  {
    assert |w.uploads.aborted| == |w.requests|;
    OverwrittenIsGoneIff(w, e, Minted(r));
    GapKeepsNothing(w, e, r);
    hide Step, Enabled, Consistent, Owned, WriteFires, Stored, Gone, Survives;
    forall ns | ns != Current(w) ensures !StoredUnder(w, ns, Minted(r)) {
      forall slot, u | Stored(w.store.disk, ns, slot, u) ensures u.id != Minted(r) { NotStoredThere(w, r, ns, slot, u); }
    }
  }

  lemma GapKeepsNothing(w: World, e: Event, r: nat)
    requires Enabled(w, e) && Consistent(w) && Owned(w) && IsUploadEvent(e) && r < |w.requests|
    requires Current(w) != w.loaded && w.requests[r].home == Current(w)
    ensures !Survives(w, e, Minted(r))
  {
    assert |w.uploads.aborted| == |w.requests|;
    hide Step, Enabled, Consistent, Owned, SurvivesIn;
    forall slot ensures !SurvivesIn(w, e, slot, Minted(r)) {
      SlotAfter(w, e, slot, Minted(r));
      forall u | u in RowsOf(Step(w, e), slot) ensures u.id != Minted(r) { GapMemoryIsForeign(w, e, r, slot, u); }
    }
  }

  lemma GapMemoryIsForeign(w: World, e: Event, r: nat, slot: string, u: DraftUpload)
    requires Enabled(w, e) && Consistent(w) && Owned(w) && IsUploadEvent(e) && r < |w.requests|
    requires Current(w) != w.loaded && w.requests[r].home == Current(w) && u in RowsOf(Step(w, e), slot)
    ensures u.id != Minted(r)
  {
    StepIsLater(w, e);
    StepLoads(w, e);
    hide Step, Enabled, Consistent, Owned;
    MemoryRowStaysOwn(w, e, slot, u);
  }

  lemma NotStoredThere(w: World, r: nat, ns: Namespace, slot: string, u: DraftUpload)
    requires Owned(w) && r < |w.requests| && w.requests[r].home != ns && Stored(w.store.disk, ns, slot, u)
    ensures u.id != Minted(r)
  {
    OwnHome(w, ns, slot, u);
    hide Owned, Stored;
  }

  /** The event drops every completed or failed row that memory holds of the upload in its slot. */
  ghost predicate Discards(w: World, e: Event, r: nat)
    requires Enabled(w, e) && |w.uploads.aborted| == |w.requests| && r < |w.requests|
  {
    forall u :: u in RowsOf(w, w.requests[r].slot) && u.id == Minted(r) && !u.InFlight() ==> Drops(w, e, w.requests[r].slot, u)
  }

  lemma KeptIsHome(w: World, e: Event, r: nat)
    requires Enabled(w, e) && Consistent(w) && Owned(w) && r < |w.requests|
    ensures w.requests[r].home != w.loaded || Discards(w, e, r) <==> !KeepsSettled(w, e, Minted(r))
  {
    var slot := w.requests[r].slot;
    assert |w.uploads.aborted| == |w.requests|;
    assert forall at, u :: u in RowsOf(w, at) ==> IsOwn(w, w.loaded, at, u);
    hide Enabled, Consistent, Owned, Drops;
    if !Discards(w, e, r) {
      var u :| u in RowsOf(w, slot) && u.id == Minted(r) && !u.InFlight() && !Drops(w, e, slot, u);
      assert IsOwn(w, w.loaded, slot, u);
    }
  }

  /**
   With every upload in its place, a completed one leaves the storage of its workspace exactly when a write fires there
   while memory is still that of another workspace, or drops the upload; or a logout lists the workspace; or it is
   deleted.
   */
  lemma UploadLeavesHomeIff(w: World, e: Event, r: nat)
    requires Enabled(w, e) && Consistent(w) && Owned(w) && r < |w.requests|
    requires SettledUnder(w, w.requests[r].home, Minted(r))
    ensures var home := w.requests[r].home;
            !SettledUnder(Step(w, e), home, Minted(r))
            <==> || (WriteFires(w, e) && Current(w) == home && (home != w.loaded || Discards(w, e, r)))
                 || Removes(e, home)
  {
    assert |w.uploads.aborted| == |w.requests|;
    hide Step, Enabled, Consistent, Owned, Placed, WriteFires, KeepsSettled, SettledUnder, Discards;
    OwnedIsPlaced(w);
    StoredUploadLeavesIff(w, e, w.requests[r].home, r);
    KeptIsHome(w, e, r);
  }

  // ----- over runs -----

  ghost predicate AlwaysStored(w: World, events: seq<Event>, ns: Namespace, id: UploadId)
    requires Consistent(w) && Possible(w, events)
    decreases |events|
  {
    && SettledUnder(w, ns, id)
    && (events != [] ==> (StepKeepsConsistent(w, events[0]); AlwaysStored(Step(w, events[0]), events[1..], ns, id)))
  }

  ghost predicate NeverTaken(w: World, events: seq<Event>, ns: Namespace, id: UploadId)
    requires Consistent(w) && Possible(w, events)
    decreases |events|
  {
    events == []
    || (!Takes(w, events[0], ns, id)
        && (StepKeepsConsistent(w, events[0]); NeverTaken(Step(w, events[0]), events[1..], ns, id)))
  }

  /** Over any run a completed upload stays stored throughout exactly if no event of it takes it out. */
  lemma {:induction false} RunStoredIff(w: World, events: seq<Event>, ns: Namespace, r: nat)
    requires Consistent(w) && Possible(w, events) && Placed(w) && r < |w.requests| && SettledUnder(w, ns, Minted(r))
    ensures AlwaysStored(w, events, ns, Minted(r)) <==> NeverTaken(w, events, ns, Minted(r))
    decreases |events|
  {
    if events != [] {
      assert |w.uploads.aborted| == |w.requests|;
      var v := Step(w, events[0]);
      StepIsLater(w, events[0]);
      hide Step, Enabled, Consistent, Placed, SettledUnder, Takes;
      StepKeepsConsistent(w, events[0]);
      StepKeepsPlaced(w, events[0]);
      StoredUploadLeavesIff(w, events[0], ns, r);
      if SettledUnder(v, ns, Minted(r)) {
        RunStoredIff(v, events[1..], ns, r);
      } else {
        NotStoredNow(v, events[1..], ns, Minted(r));
      }
    }
  }

  lemma NotStoredNow(w: World, events: seq<Event>, ns: Namespace, id: UploadId)
    requires Consistent(w) && Possible(w, events) && !SettledUnder(w, ns, id)
    ensures !AlwaysStored(w, events, ns, id)
  {
  }

  // ----- stored texts -----

  /** The workspace stores this text at the slot. */
  ghost predicate TextUnder(w: World, ns: Namespace, slot: string, text: string) {
    slot in DraftsAt(w.store.disk, ns) && DraftsAt(w.store.disk, ns)[slot] == text
  }

  /** The event writes the texts in memory through. */
  ghost predicate TextFires(w: World, e: Event) {
    e.SetText? || e.AppendText? || (e.Clear? && (e.slot in w.store.mem.drafts || e.slot in w.store.mem.attachments))
  }

  /** The text of the slot in memory after such a write. */
  function TextLeft(w: World, e: Event, slot: string): string
    requires e.SetText? || e.AppendText? || e.Clear?
  {
    var text := At(w.store.mem.drafts, slot);
    if slot != e.slot then text
    else if e.SetText? then e.text
    else if e.AppendText? then Appended(text, e.markdown)
    else ""
  }

  ghost predicate TakesText(w: World, e: Event, ns: Namespace, slot: string, text: string) {
    || (TextFires(w, e) && Current(w) == ns && TextLeft(w, e, slot) != text)
    || Removes(e, ns)
  }

  /** A text write stores for the current workspace just the texts in memory, less empty ones. */
  lemma TextWrite(w: World, e: Event)
    requires Enabled(w, e) && |w.uploads.aborted| == |w.requests| && TextFires(w, e)
    ensures Step(w, e).store.disk.drafts == WithDrafts(w.store.disk, Current(w), Step(w, e).store.mem.drafts).drafts
    ensures forall slot :: At(Step(w, e).store.mem.drafts, slot) == TextLeft(w, e, slot)
  {
    if e.Clear? {
      hide WithUploads, Pruned;
      ClearTexts(w.store, e.slot);
    } else {
      hide WithDrafts, Appended;
    }
  }

  lemma ClearTexts(s: Store, slot: string)
    ensures forall next :: PersistUploads(s, next).disk.drafts == s.disk.drafts
  {
    hide WithDrafts;
  }

  lemma StoredTextIs(disk: Disk, ns: Namespace, drafts: map<string, string>, slot: string, text: string)
    requires text != ""
    ensures var read := DraftsAt(WithDrafts(disk, ns, drafts), ns);
            (slot in read && read[slot] == text) <==> At(drafts, slot) == text
  {
    DraftsReadBack(disk, ns, drafts);
    hide WithDrafts;
  }

  lemma DraftsElsewhere(disk: Disk, ns: Namespace, drafts: map<string, string>, at: Namespace)
    ensures at != ns ==> DraftsAt(WithDrafts(disk, ns, drafts), at) == DraftsAt(disk, at)
  {
    hide Pruned;
  }

  lemma SameDraftsSameTexts(a: Disk, b: Disk, ns: Namespace)
    requires a.drafts == b.drafts
    ensures DraftsAt(a, ns) == DraftsAt(b, ns)
  {
  }

  /** Any other event that is no reset leaves every stored text. */
  lemma OthersKeepTexts(w: World, e: Event)
    requires Enabled(w, e) && |w.uploads.aborted| == |w.requests| && !IsReset(e) && !TextFires(w, e)
    ensures Step(w, e).store.disk.drafts == w.store.disk.drafts
  {
    var s, t := w.store, Step(w, e).store;
    if e.Clear? {
      hide WithUploads, WithDrafts;
    } else {
      StepIsShaped(w, e);
      UploadsKeepTexts(s, t.mem.attachments);
      OtherKeepTexts(s, t.mem.applied, t.mem.restores);
      hide Step, Enabled, PersistUploads, PersistDrafts, PersistApplied, PersistRestores;
    }
  }

  lemma LoadKeepsText(disk: Disk, ns: Namespace, agent: Option<string>, slot: string)
    requires slot in DraftsAt(disk, ns) && DraftsAt(disk, ns)[slot] != "" && !IsLegacy(slot)
    ensures var read := DraftsAt(Load(disk, ns, agent).disk, ns); slot in read && read[slot] == DraftsAt(disk, ns)[slot]
  {
    LoadFoldsLegacySlots(disk, ns, agent);
    LoadReadsBack(disk, ns, agent);
    hide Load, IsLegacy, LegacySlot, ValueAt;
  }

  lemma LoadElsewhere(disk: Disk, ns: Namespace, agent: Option<string>, at: Namespace)
    ensures at != ns ==> DraftsAt(Load(disk, ns, agent).disk, at) == DraftsAt(disk, at)
  {
    DraftsElsewhere(disk, ns, Migrated(DraftsAt(disk, ns), agent), at);
    hide Migrated, WithDrafts, HasLegacy;
  }

  lemma ResetKeepsText(w: World, e: Event, ns: Namespace, slot: string, text: string)
    requires Enabled(w, e) && |w.uploads.aborted| == |w.requests| && IsReset(e)
    requires TextUnder(w, ns, slot, text) && text != "" && !IsLegacy(slot)
    ensures !TextUnder(Step(w, e), ns, slot, text)
            <==> Removes(e, ns)
  {
    if e.Logout? || e.DeleteWorkspace? {
      RemovalTakesText(w, e, ns, slot, text);
    } else {
      var at := if e.Reload? then Current(w) else None;
      var agent := AgentAt(w.store.disk, at);
      LoadElsewhere(w.store.disk, at, agent, ns);
      if at == ns { LoadKeepsText(w.store.disk, ns, agent, slot); }
      hide Load, IsLegacy, ValueAt;
    }
  }

  lemma RemovalTakesText(w: World, e: Event, ns: Namespace, slot: string, text: string)
    requires Enabled(w, e) && |w.uploads.aborted| == |w.requests| && (e.Logout? || e.DeleteWorkspace?)
    requires TextUnder(w, ns, slot, text)
    ensures !TextUnder(Step(w, e), ns, slot, text)
            <==> Removes(e, ns)
  {
    RemovalDisk(w, e);
    if e.Logout? { ClearedAllReads(w.store.disk, e.slugs, ns); } else { ClearedReads(w.store.disk, e.doomed, ns); }
    hide Step, Enabled, ClearedAll, Cleared, NothingReadable, ValueAt;
  }

  lemma RemovalDisk(w: World, e: Event)
    requires Enabled(w, e) && |w.uploads.aborted| == |w.requests| && (e.Logout? || e.DeleteWorkspace?)
    ensures Step(w, e).store.disk
         == if e.Logout? then ClearedAll(w.store.disk, e.slugs) else Cleared(w.store.disk, e.doomed)
  {
    hide ClearedAll, Cleared, AbortedAll;
  }

  /**
   The same for texts: a stored text of a session or of the new chat leaves the storage of a workspace exactly when a
   text write fires while that workspace is current and leaves another text, or none, in memory; or a logout lists the
   workspace; or it is deleted. Between a switch and its reload, memory is that of the workspace left.
   */
  lemma StoredTextLeavesIff(w: World, e: Event, ns: Namespace, slot: string, text: string)
    requires Enabled(w, e) && |w.uploads.aborted| == |w.requests|
    requires TextUnder(w, ns, slot, text) && text != "" && !IsLegacy(slot)
    ensures !TextUnder(Step(w, e), ns, slot, text) <==> TakesText(w, e, ns, slot, text)
  {
    if IsReset(e) {
      ResetKeepsText(w, e, ns, slot, text);
      ResetsFireNoText(w, e);
      hide Step, Enabled, TextLeft, TextUnder, IsLegacy;
    } else if TextFires(w, e) {
      FiringTakesText(w, e, ns, slot, text);
    } else {
      OthersKeepTexts(w, e);
      SameDraftsSameTexts(Step(w, e).store.disk, w.store.disk, ns);
      hide Step, Enabled, TextLeft, IsLegacy;
    }
  }

  lemma ResetsFireNoText(w: World, e: Event)
    requires IsReset(e)
    ensures !TextFires(w, e)
  {
  }

  lemma FiringTakesText(w: World, e: Event, ns: Namespace, slot: string, text: string)
    requires Enabled(w, e) && |w.uploads.aborted| == |w.requests| && TextFires(w, e)
    requires TextUnder(w, ns, slot, text) && text != ""
    ensures !TextUnder(Step(w, e), ns, slot, text) <==> Current(w) == ns && TextLeft(w, e, slot) != text
  {
    var v := Step(w, e);
    TextWrite(w, e);
    SameDraftsSameTexts(v.store.disk, WithDrafts(w.store.disk, Current(w), v.store.mem.drafts), ns);
    DraftsElsewhere(w.store.disk, Current(w), v.store.mem.drafts, ns);
    StoredTextIs(w.store.disk, Current(w), v.store.mem.drafts, slot, text);
    hide Step, Enabled, WithDrafts, ValueAt, TextLeft;
  }

  // ----- a failure that destroys another workspace's upload, as a run -----

  /** The first upload was completed in one workspace, and another one is the current and loaded one. */
  ghost predicate Moved(w: World, there: string, slot: string, here: string) {
    && Consistent(w) && Owned(w)
    && w.requests == [Request(slot, Some(there), true)]
    && w.store.slug == Some(here) && w.loaded == Some(here)
    && SettledUnder(w, Some(there), Minted(0))
  }

  /** A second one is being uploaded there, its placeholder in memory. */
  ghost predicate PickedAgain(w: World, there: string, slot: string, here: string, other: string) {
    && Consistent(w) && Owned(w)
    && w.requests == [Request(slot, Some(there), true), Request(other, Some(here), false)]
    && !w.uploads.aborted[1]
    && w.loaded == Some(here)
    && InSlot(w, other, Minted(1)) && SettledUnder(w, Some(there), Minted(0))
  }

  lemma KeptBy(w: World, e: Event, ns: Namespace)
    requires Enabled(w, e) && Consistent(w) && Owned(w) && |w.requests| > 0 && SettledUnder(w, ns, Minted(0))
    requires e.Switch? || e.Reload? || (IsUploadEvent(e) && Current(w) != ns)
    ensures SettledUnder(Step(w, e), ns, Minted(0))
  {
    OwnedIsPlaced(w);
    StoredUploadLeavesIff(w, e, ns, 0);
    hide Step, Enabled, Consistent, Owned, SettledUnder, KeepsSettled, Placed;
  }

  lemma SwitchedWorld(w: World, slug: string)
    requires |w.uploads.aborted| == |w.requests| && slug != "" && w.store.slug != Some(slug)
    ensures Enabled(w, Switch(Some(slug)))
    ensures var v := Step(w, Switch(Some(slug)));
            && v.requests == w.requests && v.uploads == w.uploads && v.loaded == w.loaded && v.store.mem == w.store.mem
            && v.store.slug == Some(slug) && v.store.reloadPending && Enabled(v, Reload)
  {
  }

  lemma ReloadedHere(w: World, slug: string)
    requires Consistent(w) && w.store.slug == Some(slug) && slug != "" && w.store.reloadPending
    ensures var v := Step(w, Reload);
            v.requests == w.requests && v.store.slug == Some(slug) && v.loaded == Some(slug)
  {
    hide Load;
  }

  lemma CompletedMoves(w: World, there: string, slot: string, here: string)
    requires Completed(w, there, slot) && here != there && here != "" && there != ""
    ensures Consistent(w) && Possible(w, [Switch(Some(here)), Reload])
    ensures Moved(After(w, [Switch(Some(here)), Reload]), there, slot, here)
  {
    assert |w.uploads.aborted| == |w.requests|;
    SwitchedWorld(w, here);
    var v := Step(w, Switch(Some(here)));
    hide Step, Enabled, Consistent, Owned, SettledUnder, Quiet, InSlot, Possible, After;
    NoWriteIsQuiet(w, Switch(Some(here)));
    NoWriteIsQuiet(v, Reload);
    StepKeepsConsistent(w, Switch(Some(here)));
    StepKeepsOwned(w, Switch(Some(here)));
    KeptBy(w, Switch(Some(here)), Some(there));
    StepKeepsConsistent(v, Reload);
    StepKeepsOwned(v, Reload);
    KeptBy(v, Reload, Some(there));
    ReloadedHere(v, here);
    AfterTwo(w, Switch(Some(here)), Reload);
  }

  lemma MovedPicks(w: World, there: string, slot: string, here: string, other: string)
    requires Moved(w, there, slot, here) && here != there && here != "" && there != "" && !IsLegacy(other)
    ensures var pick := Pick(other, PICKED_FILE, 1, None);
            && Consistent(w) && Enabled(w, pick) && |w.uploads.aborted| == |w.requests|
            && PickedAgain(Step(w, pick), there, slot, here, other) && Step(w, pick).store.slug == Some(here)
  {
    var pick := Pick(other, PICKED_FILE, 1, None);
    assert |w.uploads.aborted| == |w.requests|;
    PickIsEnabled(w, pick);
    StepUploads(w, pick);
    hide Step, Enabled, Consistent, Owned, SettledUnder, Quiet, InSlot, IsLegacy;
    QuietWhenCurrent(w, pick);
    StepKeepsConsistent(w, pick);
    StepKeepsOwned(w, pick);
    KeptBy(w, pick, Some(there));
    PickedWorld(w, pick);
  }

  lemma PickedSwitchesBack(w: World, there: string, slot: string, here: string, other: string)
    requires PickedAgain(w, there, slot, here, other) && w.store.slug == Some(here)
    requires here != there && here != "" && there != ""
    ensures Consistent(w) && |w.uploads.aborted| == |w.requests| && Enabled(w, Switch(Some(there)))
    ensures var v := Step(w, Switch(Some(there)));
            PickedAgain(v, there, slot, here, other) && Current(v) == Some(there)
  {
    assert |w.uploads.aborted| == |w.requests|;
    SwitchedWorld(w, there);
    hide Step, Enabled, Consistent, Owned, SettledUnder, Quiet;
    NoWriteIsQuiet(w, Switch(Some(there)));
    StepKeepsConsistent(w, Switch(Some(there)));
    StepKeepsOwned(w, Switch(Some(there)));
    KeptBy(w, Switch(Some(there)), Some(there));
  }

  const FAILURE := End(1, OtherError(None), false)

  lemma FailureFires(w: World, there: string, slot: string, here: string, other: string)
    requires PickedAgain(w, there, slot, here, other) && here != there
    ensures Consistent(w) && |w.uploads.aborted| == |w.requests| && Enabled(w, FAILURE) && WriteFires(w, FAILURE)
    ensures forall r: nat :: r < |w.requests| ==> !Survives(w, FAILURE, Minted(r))
  {
    InSlotIsHeld(w, other, Minted(1));
    hide Stored;
    forall r: nat, at, u | r < |w.requests| && u in RowsOf(w, at) && u.id == Minted(r) ensures Drops(w, FAILURE, at, u) {
      assert IsOwn(w, w.loaded, at, u);
    }
  }

  /** The failure misfiles nothing, and takes the other workspace's upload for good. */
  lemma FailureDestroys(w: World, there: string, slot: string, here: string, other: string)
    requires PickedAgain(w, there, slot, here, other) && Current(w) == Some(there) && here != there
    ensures Consistent(w) && |w.uploads.aborted| == |w.requests| && Enabled(w, FAILURE)
    ensures Owned(Step(w, FAILURE)) && Consistent(Step(w, FAILURE)) && Gone(Step(w, FAILURE), Minted(0))
    ensures forall events :: Possible(Step(w, FAILURE), events) ==> Gone(After(Step(w, FAILURE), events), Minted(0))
  {
    FailureFires(w, there, slot, here, other);
    SettledIsStored(w, Some(there), Minted(0));
    EndedWorld(w, FAILURE);
    StepKeepsConsistent(w, FAILURE);
    var v := Step(w, FAILURE);
    hide Step, Enabled, Consistent, Owned, SettledUnder, InSlot, WriteFires, Survives, Gone, Possible, After, StoredUnder;
    GapWriteErasesIff(w, FAILURE, 0);
    StepOwnedIff(w, FAILURE);
    GoneIsLost(v, Minted(0));
    forall events | Possible(v, events) ensures Gone(After(v, events), Minted(0)) { LostForever(v, events, 0); }
  }

  lemma SettledIsStored(w: World, ns: Namespace, id: UploadId)
    requires SettledUnder(w, ns, id)
    ensures StoredUnder(w, ns, id)
  {
    hide Stored;
  }

  lemma GoneIsLost(w: World, id: UploadId)
    requires Gone(w, id)
    ensures Lost(w, id)
  {
    hide Stored;
  }

  ghost function FailureRun(there: string, slot: string, a: Attachment, here: string, other: string): seq<Event> {
    PickRun(there, slot) + [End(0, Delivered(a), true)] + [Switch(Some(here))] + [Reload]
    + [Pick(other, PICKED_FILE, 1, None)] + [Switch(Some(there))]
  }

  /**
   Complete an upload in one workspace, pick a file in another, switch back, and let the error of the second arrive
   before the reload: the first upload was stored until then, and is in no later memory and no later storage.
   */
  lemma FailureInGapDestroys(disk: Disk, a: Attachment, there: string, slot: string, here: string, other: string)
    requires Foreign(disk) && here != there && here != "" && there != "" && !IsLegacy(slot) && !IsLegacy(other)
    ensures var run := FailureRun(there, slot, a, here, other);
            && Consistent(Initial(disk)) && Possible(Initial(disk), run)
            && var w := After(Initial(disk), run);
            && |w.uploads.aborted| == |w.requests| && Enabled(w, FAILURE)
            && SettledUnder(w, Some(there), Minted(0))
            && Owned(Step(w, FAILURE)) && Consistent(Step(w, FAILURE))
            && (forall events :: Possible(Step(w, FAILURE), events) ==> Gone(After(Step(w, FAILURE), events), Minted(0)))
  {
    hide *;
    var w0, end, pick := Initial(disk), End(0, Delivered(a), true), Pick(other, PICKED_FILE, 1, None);
    var run1 := PickRun(there, slot);
    PickRunPicks(disk, there, slot);
    var w1 := After(w0, run1);
    PickCompletes(w1, a, there, slot);
    AfterThen(w0, run1, end);
    var w2 := Step(w1, end);
    CompletedMoves(w2, there, slot, here);
    TwoMore(w0, run1 + [end], Switch(Some(here)), Reload);
    var w3 := After(w2, [Switch(Some(here)), Reload]);
    MovedPicks(w3, there, slot, here, other);
    AfterThen(w0, run1 + [end] + [Switch(Some(here))] + [Reload], pick);
    var w4 := Step(w3, pick);
    PickedSwitchesBack(w4, there, slot, here, other);
    AfterThen(w0, run1 + [end] + [Switch(Some(here))] + [Reload] + [pick], Switch(Some(there)));
    var w5 := Step(w4, Switch(Some(there)));
    FailureRunIs(there, slot, a, here, other);
    FailureDestroys(w5, there, slot, here, other);
    PickedIsStored(w5, there, slot, here, other);
  }

  lemma PickedIsStored(w: World, there: string, slot: string, here: string, other: string)
    requires PickedAgain(w, there, slot, here, other)
    ensures SettledUnder(w, Some(there), Minted(0))
  {
  }

  lemma FailureRunIs(there: string, slot: string, a: Attachment, here: string, other: string)
    ensures FailureRun(there, slot, a, here, other)
         == PickRun(there, slot) + [End(0, Delivered(a), true)] + [Switch(Some(here))] + [Reload]
            + [Pick(other, PICKED_FILE, 1, None)] + [Switch(Some(there))]
  {
  }

  /** Appending two events to a run that can be followed by both. */
  lemma TwoMore(w: World, events: seq<Event>, a: Event, b: Event)
    requires Consistent(w) && Possible(w, events) && Possible(After(w, events), [a, b])
    ensures Possible(w, events + [a] + [b])
    ensures After(w, events + [a] + [b]) == After(After(w, events), [a, b])
  {
    var v := After(w, events);
    TwoAre(v, a, b);
    hide *;
    AfterThen(w, events, a);
    AfterThen(w, events + [a], b);
  }

  lemma TwoAre(v: World, a: Event, b: Event)
    requires Consistent(v) && Possible(v, [a, b])
    ensures Enabled(v, a) && |v.uploads.aborted| == |v.requests|
    ensures Consistent(Step(v, a)) && |Step(v, a).uploads.aborted| == |Step(v, a).requests| && Enabled(Step(v, a), b)
    ensures After(v, [a, b]) == Step(Step(v, a), b)
  {
    PossibleTwo(v, a, b);
    AfterTwo(v, a, b);
    hide Step, Enabled;
  }

  lemma PossibleTwo(v: World, a: Event, b: Event)
    requires Consistent(v) && Possible(v, [a, b])
    ensures Enabled(v, a) && Consistent(Step(v, a)) && Enabled(Step(v, a), b)
  {
    StepKeepsConsistent(v, a);
    assert [a, b][1..] == [b];
    hide Step, Enabled, Consistent;
  }
}
