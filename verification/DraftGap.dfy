/**
 Between a switch of the workspace and the reload it causes, memory still holds the drafts of the workspace that was
 left, and every write goes to the keys of the new one. Exactly when that stores an upload away from home, and when an
 outcome changes what another workspace had stored. DraftDurability says exactly what such a write destroys, and
 DraftDrops which dropped uploads come back.
 */
module DraftGap {
  import opened Wrappers
  import opened DraftUploads
  import opened DraftStorage
  import opened ChatStore
  import opened UploadCoordinator
  import opened DraftProtocol
  import opened DraftPlaces

  // ----- which rows survive a write -----

  ghost predicate InSlot(w: World, slot: string, id: UploadId) {
    exists u :: u in RowsOf(w, slot) && u.id == id
  }

  /** The event takes this row out of its slot. */
  ghost predicate Drops(w: World, e: Event, slot: string, u: DraftUpload)
    requires Enabled(w, e) && |w.uploads.aborted| == |w.requests|
  {
    match e
    case End(r, response, _) =>
      slot == w.requests[r].slot && u.id == Minted(r) && EndedOutcome(w, r, response).Some? && !KeepsRow(w, e)
    case Dismiss(at, id) => slot == at && u.id == id
    case SetList(at, uploads) => slot == at && u !in uploads
    case Attach(at, a) => slot == at && a.id != "" && Holds(u, a.id)
    case Clear(at) => slot == at
    case _ => false
  }

  /** Its slot holds the upload and keeps it, or it is being picked. */
  ghost predicate SurvivesIn(w: World, e: Event, slot: string, id: UploadId)
    requires Enabled(w, e) && |w.uploads.aborted| == |w.requests|
  {
    || (e.Pick? && slot == e.slot && id == Minted(|w.requests|))
    || (exists u :: u in RowsOf(w, slot) && u.id == id && !Drops(w, e, slot, u))
  }

  ghost predicate Survives(w: World, e: Event, id: UploadId)
    requires Enabled(w, e) && |w.uploads.aborted| == |w.requests|
  {
    exists slot :: SurvivesIn(w, e, slot, id)
  }

  lemma ReplacingKeepsIds(rows: seq<DraftUpload>, replaced: UploadId, u: DraftUpload, id: UploadId)
    requires u.id == replaced
    ensures HasUpload(ReplaceUpload(rows, replaced, u), id) <==> HasUpload(rows, id)
  {
    var next := ReplaceUpload(rows, replaced, u);
    forall i | 0 <= i < |rows| ensures next[i].id == rows[i].id {}
  }

  lemma HoldersGo(rows: seq<DraftUpload>, attachment: string, u: DraftUpload, id: UploadId)
    requires u.id != id
    ensures HasUpload(ReplaceHolders(rows, attachment, u), id)
            <==> exists x :: x in rows && x.id == id && !Holds(x, attachment)
  {
    var next := ReplaceHolders(rows, attachment, u);
    if HasUpload(next, id) {
      var i :| 0 <= i < |next| && next[i].id == id;
      assert rows[i] in rows && !Holds(rows[i], attachment);
    }
    if x :| x in rows && x.id == id && !Holds(x, attachment) {
      var i :| 0 <= i < |rows| && rows[i] == x;
      assert next[i].id == id;
    }
  }

  lemma InSlotIsHeld(w: World, slot: string, id: UploadId)
    ensures InSlot(w, slot, id) <==> HasUpload(RowsOf(w, slot), id)
  {
    var rows := RowsOf(w, slot);
    if InSlot(w, slot, id) {
      var u :| u in rows && u.id == id;
      var i :| 0 <= i < |rows| && rows[i] == u;
    }
    if HasUpload(rows, id) {
      var i :| 0 <= i < |rows| && rows[i].id == id;
      assert rows[i] in rows;
    }
  }

  lemma AbsentMeansNone(rows: seq<DraftUpload>, id: UploadId)
    ensures !HasUpload(rows, id) ==> forall u :: u in rows ==> u.id != id
  {
    forall u | u in rows ensures u.id == id ==> HasUpload(rows, id) {
      var i :| 0 <= i < |rows| && rows[i] == u;
    }
  }

  lemma EndSlotAfter(w: World, e: Event, slot: string, id: UploadId)
    requires Enabled(w, e) && Consistent(w) && e.End? && id.Minted?
    ensures InSlot(Step(w, e), slot, id) <==> SurvivesIn(w, e, slot, id)
  {
    hide WithUploads, Finished, IsLegacy, Stored, OutcomeOf;
    var r := e.request;
    var v := Step(w, e);
    var rows := RowsOf(w, slot);
    OutcomeHasId(Minted(r), w.uploads.aborted[r], e.response);
    InSlotIsHeld(w, slot, id);
    InSlotIsHeld(v, slot, id);
    var o := EndedOutcome(w, r, e.response);
    if slot == w.requests[r].slot && HasUpload(rows, Minted(r)) && o.Some? {
      if KeepsRow(w, e) {
        var u := if o.value.UploadedOutcome? then SettledAs(Minted(r), o.value.attachment)
                 else FailedAs(FindUpload(rows, Minted(r)), Some(o.value.error));
        assert RowsOf(v, slot) == ReplaceUpload(rows, Minted(r), u);
        ReplacingKeepsIds(rows, Minted(r), u, id);
      } else {
        assert RowsOf(v, slot) == WithoutUpload(rows, Minted(r));
      }
    } else {
      assert RowsOf(v, slot) == rows;
      AbsentMeansNone(rows, Minted(r));
    }
  }

  lemma AttachSlotAfter(w: World, e: Event, slot: string, id: UploadId)
    requires Enabled(w, e) && Consistent(w) && e.Attach? && id.Minted?
    ensures InSlot(Step(w, e), slot, id) <==> SurvivesIn(w, e, slot, id)
  {
    hide WithUploads, IsLegacy, Stored;
    var rows := RowsOf(w, slot);
    InSlotIsHeld(w, slot, id);
    InSlotIsHeld(Step(w, e), slot, id);
    if slot == e.slot && e.attachment.id != "" {
      HoldersGo(rows, e.attachment.id, AttachmentToDraftUpload(e.attachment), id);
      if !HoldsAny(rows, e.attachment.id) {
        forall u | u in rows ensures !Holds(u, e.attachment.id) {
          var i :| 0 <= i < |rows| && rows[i] == u;
        }
      }
    }
  }

  /** The rows of a slot after a write, told from the state before it. */
  lemma SlotAfter(w: World, e: Event, slot: string, id: UploadId)
    requires Enabled(w, e) && Consistent(w) && IsUploadEvent(e) && id.Minted?
    ensures InSlot(Step(w, e), slot, id) <==> SurvivesIn(w, e, slot, id)
  {
    if e.End? {
      EndSlotAfter(w, e, slot, id);
    } else if e.Attach? {
      AttachSlotAfter(w, e, slot, id);
    } else {
      OtherSlotAfter(w, e, slot, id);
    }
  }

  lemma OtherSlotAfter(w: World, e: Event, slot: string, id: UploadId)
    requires Enabled(w, e) && Consistent(w) && id.Minted? && (e.Pick? || e.Dismiss? || e.SetList? || e.Clear?)
    ensures InSlot(Step(w, e), slot, id) <==> SurvivesIn(w, e, slot, id)
  {
    if e.Pick? {
      PickSlotAfter(w, e, slot, id);
    } else if e.SetList? {
      SetListSlotAfter(w, e, slot, id);
    } else if e.Dismiss? {
      InSlotIsHeld(w, slot, id);
      InSlotIsHeld(Step(w, e), slot, id);
      hide WithUploads, AbortedOne;
    } else {
      ClearSlotAfter(w, e, slot, id);
    }
  }

  lemma PickSlotAfter(w: World, e: Event, slot: string, id: UploadId)
    requires Enabled(w, e) && Consistent(w) && e.Pick?
    ensures InSlot(Step(w, e), slot, id) <==> SurvivesIn(w, e, slot, id)
  {
    InSlotIsHeld(w, slot, id);
    InSlotIsHeld(Step(w, e), slot, id);
    hide WithUploads, Started, IsLegacy;
  }

  lemma SetListSlotAfter(w: World, e: Event, slot: string, id: UploadId)
    requires Enabled(w, e) && Consistent(w) && e.SetList? && id.Minted?
    ensures InSlot(Step(w, e), slot, id) <==> SurvivesIn(w, e, slot, id)
  {
    InSlotIsHeld(w, slot, id);
    InSlotIsHeld(Step(w, e), slot, id);
    if slot == e.slot { SetListKeeps(w, e, id); }
    hide WithUploads, Enabled;
  }

  lemma ClearSlotAfter(w: World, e: Event, slot: string, id: UploadId)
    requires Enabled(w, e) && Consistent(w) && e.Clear?
    ensures InSlot(Step(w, e), slot, id) <==> SurvivesIn(w, e, slot, id)
  {
    hide WithUploads, WithDrafts;
  }

  lemma SetListKeeps(w: World, e: Event, id: UploadId)
    requires e.SetList? && Enabled(w, e) && id.Minted?
    ensures HasUpload(e.uploads, id) <==> exists u :: u in RowsOf(w, e.slot) && u.id == id && u in e.uploads
  {
    if HasUpload(e.uploads, id) {
      var i :| 0 <= i < |e.uploads| && e.uploads[i].id == id;
      assert e.uploads[i] in e.uploads && e.uploads[i] in RowsOf(w, e.slot);
    }
    if u :| u in RowsOf(w, e.slot) && u.id == id && u in e.uploads {
      var i :| 0 <= i < |e.uploads| && e.uploads[i] == u;
    }
  }

  // ----- which write lands in another workspace -----

  /** The upload is stored under a workspace it was not picked in. */
  ghost predicate StoredElsewhere(w: World, r: nat)
    requires r < |w.requests|
  {
    exists ns, slot, u :: Stored(w.store.disk, ns, slot, u) && u.id == Minted(r) && ns != w.requests[r].home
  }

  lemma RowIsStored(disk: Disk, ns: Namespace, next: map<string, seq<DraftUpload>>, slot: string, u: DraftUpload)
    requires u in At(next, slot)
    ensures Stored(WithUploads(disk, ns, next), ns, slot, u)
  {
    assert slot in Pruned(next);
    var i :| 0 <= i < |next[slot]| && next[slot][i] == u;
    assert AsStored(next[slot])[i] == StoredUpload(next[slot][i]);
  }

  /** A row that a firing write leaves in memory is stored under the current workspace. */
  lemma SurvivorIsStored(w: World, e: Event, slot: string, id: UploadId)
    requires Enabled(w, e) && Consistent(w) && IsUploadEvent(e) && WriteFires(w, e)
    requires id.Minted? && InSlot(Step(w, e), slot, id)
    ensures exists u :: u in RowsOf(Step(w, e), slot) && Stored(Step(w, e).store.disk, Current(w), slot, u) && u.id == id
  {
    WritesOrNothing(w, e);
    hide Step, Stored, WriteFires, Consistent, Enabled, WithUploads;
    var v := Step(w, e);
    var u :| u in RowsOf(v, slot) && u.id == id;
    RowIsStored(BaseDisk(w, e), Current(w), v.store.mem.attachments, slot, u);
  }

  /**
   An event lands an upload in another workspace's drafts exactly when the guard of its write holds, the workspace
   has been switched and not reloaded, and the maps in memory hold the upload and keep it, or the event picks it.
   */
  lemma LandsElsewhereIff(w: World, e: Event, r: nat)
    requires Enabled(w, e) && Consistent(w) && Owned(w) && r < |Step(w, e).requests|
    ensures StoredElsewhere(Step(w, e), r)
            <==> WriteFires(w, e) && Current(w) != w.loaded && Survives(w, e, Minted(r))
  {
    if WriteFires(w, e) && Current(w) != w.loaded && Survives(w, e, Minted(r)) {
      WriteMisfiles(w, e, r);
    }
    if StoredElsewhere(Step(w, e), r) {
      MisfiledByWrite(w, e, r);
    }
  }

  lemma WriteMisfiles(w: World, e: Event, r: nat)
    requires Enabled(w, e) && Consistent(w) && Owned(w) && r < |Step(w, e).requests|
    requires WriteFires(w, e) && Current(w) != w.loaded && Survives(w, e, Minted(r))
    ensures StoredElsewhere(Step(w, e), r)
  {
    var v := Step(w, e);
    var slot :| SurvivesIn(w, e, slot, Minted(r));
    WriteIsUpload(w, e);
    StepLoads(w, e);
    hide Step, Stored, WriteFires, Enabled, SurvivesIn, Consistent, Owned;
    SlotAfter(w, e, slot, Minted(r));
    SurvivorIsStored(w, e, slot, Minted(r));
    var u :| u in RowsOf(v, slot) && u.id == Minted(r);
    MemoryRowStaysOwn(w, e, slot, u);
    assert v.requests[r].home == w.loaded;
  }

  lemma WriteIsUpload(w: World, e: Event)
    requires Enabled(w, e) && |w.uploads.aborted| == |w.requests| && WriteFires(w, e)
    ensures IsUploadEvent(e) && !e.Reload? && !e.Restart?
  {
  }

  lemma MisfiledByWrite(w: World, e: Event, r: nat)
    requires Enabled(w, e) && Consistent(w) && Owned(w) && r < |Step(w, e).requests|
    requires StoredElsewhere(Step(w, e), r)
    ensures WriteFires(w, e) && Current(w) != w.loaded && Survives(w, e, Minted(r))
  {
    var v := Step(w, e);
    StepIsLater(w, e);
    StepLoads(w, e);
    var ns, slot, u :| Stored(v.store.disk, ns, slot, u) && u.id == Minted(r) && ns != v.requests[r].home;
    hide Step, Stored, Enabled, IsLegacy, Consistent;
    NewRowWasWritten(w, e, ns, slot, u);
    MemoryRowStaysOwn(w, e, slot, u);
    WrittenSurvives(w, e, slot, u);
  }

  /** A row stored where it was not before: written by an upload event, or by a load. */
  lemma NewRowWasWritten(w: World, e: Event, ns: Namespace, slot: string, u: DraftUpload)
    requires Enabled(w, e) && Consistent(w) && Owned(w) && Later(w, Step(w, e))
    requires Stored(Step(w, e).store.disk, ns, slot, u) && !IsOwn(Step(w, e), ns, slot, u)
    ensures ns == Current(Step(w, e)) && u in RowsOf(Step(w, e), slot)
    ensures e.Reload? || e.Restart? || (IsUploadEvent(e) && WriteFires(w, e))
  {
    StoredRowsHaveSources(w, e, ns, slot, u);
    UploadEventWrites(w, e);
    OwnHome(w, ns, slot, u);
    if Stored(w.store.disk, ns, slot, u) { OwnStays(w, Step(w, e), ns, slot, u); }
    if IsUploadEvent(e) { UnfiredStores(w, e, ns, slot, u); }
    hide Step, Stored, Enabled, WriteFires, Consistent, WritesUploads;
  }

  lemma UnfiredStores(w: World, e: Event, ns: Namespace, slot: string, u: DraftUpload)
    requires Enabled(w, e) && |w.uploads.aborted| == |w.requests| && IsUploadEvent(e)
    ensures !WriteFires(w, e) ==> (Stored(Step(w, e).store.disk, ns, slot, u) <==> Stored(w.store.disk, ns, slot, u))
  {
    WritesOrNothing(w, e);
    hide Step, Stored, WriteFires, WithUploads, Enabled;
  }

  lemma WrittenSurvives(w: World, e: Event, slot: string, u: DraftUpload)
    requires Enabled(w, e) && Consistent(w) && u in RowsOf(Step(w, e), slot) && u.id.Minted?
    ensures IsUploadEvent(e) ==> Survives(w, e, u.id)
  {
    assert |w.uploads.aborted| == |w.requests|;
    hide Step, Enabled, Consistent, SurvivesIn;
    assert InSlot(Step(w, e), slot, u.id);
    if IsUploadEvent(e) { SlotAfter(w, e, slot, u.id); }
  }

  lemma UploadEventWrites(w: World, e: Event)
    ensures WritesUploads(w, e) ==> IsUploadEvent(e)
  {
  }

  /**
   In any state, also with uploads away from home: an event stores an upload in a workspace that did not store it
   exactly when the guard of its write holds, that workspace is current, and memory holds the upload and keeps it, or
   the event picks it.
   */
  lemma StoredAnewIff(w: World, e: Event, ns: Namespace, id: UploadId)
    requires Enabled(w, e) && Consistent(w) && id.Minted? && !StoredUnder(w, ns, id)
    ensures StoredUnder(Step(w, e), ns, id) <==> WriteFires(w, e) && Current(w) == ns && Survives(w, e, id)
  {
    if WriteFires(w, e) && Current(w) == ns && Survives(w, e, id) {
      WriteIsUpload(w, e);
      var slot :| SurvivesIn(w, e, slot, id);
      hide Step, Stored, WriteFires, Enabled, SurvivesIn, Consistent;
      SlotAfter(w, e, slot, id);
      SurvivorIsStored(w, e, slot, id);
    }
    if StoredUnder(Step(w, e), ns, id) {
      hide Step, Stored, WriteFires, Enabled, Survives, Consistent;
      var slot, u :| Stored(Step(w, e).store.disk, ns, slot, u) && u.id == id;
      AnewIsWritten(w, e, ns, slot, u);
    }
  }

  lemma AnewIsWritten(w: World, e: Event, ns: Namespace, slot: string, u: DraftUpload)
    requires Enabled(w, e) && Consistent(w) && u.id.Minted? && !StoredUnder(w, ns, u.id)
    requires Stored(Step(w, e).store.disk, ns, slot, u)
    ensures WriteFires(w, e) && Current(w) == ns && Survives(w, e, u.id)
  {
    assert |w.uploads.aborted| == |w.requests|;
    StepLoads(w, e);
    hide Step, Stored, Enabled, WriteFires, Survives, Consistent, WritesUploads, MemoryRowFrom;
    StoredRowsHaveSources(w, e, ns, slot, u);
    UploadEventWrites(w, e);
    if e.Reload? || e.Restart? {
      LoadsNothingNew(w, e, slot, u);
    } else {
      UnfiredStores(w, e, ns, slot, u);
      WrittenSurvives(w, e, slot, u);
    }
  }

  /** A row that a load puts in memory was stored there. */
  lemma LoadsNothingNew(w: World, e: Event, slot: string, u: DraftUpload)
    requires Enabled(w, e) && Consistent(w) && (e.Reload? || e.Restart?)
    requires u in RowsOf(Step(w, e), slot) && u.id.Minted?
    ensures StoredUnder(w, if e.Reload? then Current(w) else None, u.id)
  {
    hide Step, Stored, Enabled, IsLegacy;
    MemoryRowsHaveSources(w, e, slot, u);
  }

  // ----- runs that keep every upload in its place -----

  /** The event lands this upload in another workspace's drafts. */
  ghost predicate Lands(w: World, e: Event, r: nat)
    requires Enabled(w, e) && |w.uploads.aborted| == |w.requests|
  {
    WriteFires(w, e) && Current(w) != w.loaded && Survives(w, e, Minted(r))
  }

  /** One event keeps every upload in its place exactly if it lands none elsewhere. */
  lemma StepOwnedIff(w: World, e: Event)
    requires Enabled(w, e) && Consistent(w) && Owned(w)
    ensures Owned(Step(w, e)) <==> forall r: nat :: r < |Step(w, e).requests| ==> !Lands(w, e, r)
  {
    assert |w.uploads.aborted| == |w.requests|;
    var v := Step(w, e);
    hide Step, Enabled, Consistent, Owned, Lands, StoredElsewhere;
    if Owned(v) {
      forall r: nat | r < |v.requests| ensures !Lands(w, e, r) {
        OwnedIsNowhereElse(v, r);
        LandsOrNot(w, e, r);
      }
    }
    if forall r: nat :: r < |v.requests| ==> !Lands(w, e, r) {
      StaysOwned(w, e);
    }
  }

  lemma LandsOrNot(w: World, e: Event, r: nat)
    requires Enabled(w, e) && Consistent(w) && Owned(w) && r < |Step(w, e).requests|
    ensures StoredElsewhere(Step(w, e), r) <==> Lands(w, e, r)
  {
    LandsElsewhereIff(w, e, r);
    hide Step, Enabled, Consistent, Owned, StoredElsewhere, Survives, WriteFires;
  }

  lemma OwnedIsNowhereElse(w: World, r: nat)
    requires Owned(w) && r < |w.requests|
    ensures !StoredElsewhere(w, r)
  {
    hide Stored;
    assert forall ns, slot, u :: Stored(w.store.disk, ns, slot, u) ==> IsOwn(w, ns, slot, u);
  }

  lemma StaysOwned(w: World, e: Event)
    requires Enabled(w, e) && Consistent(w) && Owned(w)
    requires forall r: nat :: r < |Step(w, e).requests| ==> !Lands(w, e, r)
    ensures Owned(Step(w, e))
  {
    assert |w.uploads.aborted| == |w.requests|;
    var v := Step(w, e);
    StepIsLater(w, e);
    hide Step, Enabled, Consistent, Lands, IsOwn, Stored;
    forall slot, u | u in RowsOf(v, slot) ensures IsOwn(v, v.loaded, slot, u) { MemoryRowStaysOwn(w, e, slot, u); }
    forall ns, slot, u | Stored(v.store.disk, ns, slot, u) ensures IsOwn(v, ns, slot, u) {
      if !IsOwn(v, ns, slot, u) { StrayRowLands(w, e, ns, slot, u); }
    }
  }

  lemma StrayRowLands(w: World, e: Event, ns: Namespace, slot: string, u: DraftUpload)
    requires Enabled(w, e) && Consistent(w) && Owned(w)
    requires Stored(Step(w, e).store.disk, ns, slot, u) && !IsOwn(Step(w, e), ns, slot, u)
    ensures u.id.Minted? && u.id.n < |Step(w, e).requests| && Lands(w, e, u.id.n)
  {
    StepIsLater(w, e);
    StepLoads(w, e);
    hide Step, Stored, Enabled, Consistent, Owned, WriteFires, Survives;
    NewRowWasWritten(w, e, ns, slot, u);
    MemoryRowStaysOwn(w, e, slot, u);
    if IsUploadEvent(e) {
      StepStays(w, e);
      WrittenSurvives(w, e, slot, u);
    }
  }

  /** At every moment of the run, every upload is in its slot of its workspace. */
  ghost predicate AlwaysOwned(w: World, events: seq<Event>)
    requires Consistent(w) && Possible(w, events)
    decreases |events|
  {
    Owned(w) && (events != [] ==> (StepKeepsConsistent(w, events[0]); AlwaysOwned(Step(w, events[0]), events[1..])))
  }

  /** No event of the run lands an upload in another workspace's drafts. */
  ghost predicate NoneLands(w: World, events: seq<Event>)
    requires Consistent(w) && Possible(w, events)
    decreases |events|
  {
    events == []
    || ((forall r: nat :: r < |Step(w, events[0]).requests| ==> !Lands(w, events[0], r))
        && (StepKeepsConsistent(w, events[0]); NoneLands(Step(w, events[0]), events[1..])))
  }

  /** Every upload stays in its slot of its workspace throughout exactly if no event lands one elsewhere. */
  lemma {:induction false} RunOwnedIff(w: World, events: seq<Event>)
    requires Consistent(w) && Possible(w, events) && Owned(w)
    ensures AlwaysOwned(w, events) <==> NoneLands(w, events)
    decreases |events|
  {
    if events != [] {
      assert |w.uploads.aborted| == |w.requests|;
      hide Step, Enabled, Consistent, Owned, Lands;
      StepKeepsConsistent(w, events[0]);
      StepOwnedIff(w, events[0]);
      if Owned(Step(w, events[0])) {
        RunOwnedIff(Step(w, events[0]), events[1..]);
      } else {
        NotOwnedNow(Step(w, events[0]), events[1..]);
      }
    }
  }

  lemma NotOwnedNow(w: World, events: seq<Event>)
    requires Consistent(w) && Possible(w, events) && !Owned(w)
    ensures !AlwaysOwned(w, events)
  {
  }

  lemma {:induction false} OwnedAfter(w: World, events: seq<Event>)
    requires Consistent(w) && Possible(w, events) && AlwaysOwned(w, events)
    ensures Owned(After(w, events))
    decreases |events|
  {
    if events != [] {
      assert |w.uploads.aborted| == |w.requests|;
      hide Step, Enabled, Consistent, Owned;
      StepKeepsConsistent(w, events[0]);
      OwnedAfter(Step(w, events[0]), events[1..]);
    }
  }

  /** So from any storage of earlier pages, unless an event lands one there, no upload is in another workspace's drafts. */
  lemma NothingIsMisfiled(disk: Disk, events: seq<Event>, r: nat)
    requires Foreign(disk) && Consistent(Initial(disk)) && Possible(Initial(disk), events) && NoneLands(Initial(disk), events)
    requires r < |After(Initial(disk), events).requests|
    ensures !StoredElsewhere(After(Initial(disk), events), r)
  {
    InitialIsGood(disk);
    hide *;
    RunOwnedIff(Initial(disk), events);
    OwnedAfter(Initial(disk), events);
    OwnedIsNowhereElse(After(Initial(disk), events), r);
  }

  // ----- what an outcome does to the other workspaces -----

  /** The uploads in memory after this outcome dropped its placeholder. */
  function LeftInMemory(w: World, r: nat): map<string, seq<DraftUpload>>
    requires r < |w.requests|
  {
    var slot := w.requests[r].slot;
    Put(w.store.mem.attachments, slot, WithoutUpload(RowsOf(w, slot), Minted(r)))
  }

  /** The workspace stores exactly these uploads. */
  ghost predicate StoresJust(disk: Disk, ns: Namespace, slots: map<string, seq<DraftUpload>>) {
    if Pruned(slots) == map[] then ns !in disk.attachments
    else ns in disk.attachments && disk.attachments[ns] == Parsed(StoredUploads(Pruned(slots)))
  }

  /** The outcome overwrites what another workspace stores: its write fires there, and would not leave it as it was. */
  ghost predicate Overwrites(w: World, e: Event)
    requires e.End? && Enabled(w, e) && |w.uploads.aborted| == |w.requests|
  {
    && WriteFires(w, e) && Current(w) != w.loaded
    && (KeepsRow(w, e) || !StoresJust(w.store.disk, Current(w), LeftInMemory(w, e.request)))
  }

  /**
   Wherever the uploads are stored, an outcome touches the stored drafts of another workspace exactly when the workspace has been switched and not reloaded, its slot in memory holds its placeholder, and it leaves a
   row, or it drops it and the new workspace does not store just the other rows already.
   */
  lemma OutcomeTouchesOthersIff(w: World, e: Event)
    requires e.End? && Enabled(w, e) && Consistent(w) && FlightsAreHome(w)
    ensures var home := w.requests[e.request].home;
            (exists ns :: ns != home && !SameBlob(Step(w, e).store.disk, w.store.disk, ns)) <==> Overwrites(w, e)
  {
    var v := Step(w, e);
    OutcomeTouchesOnlyItsSlot(w, e);
    WritesOrNothing(w, e);
    if WriteFires(w, e) {
      FiringIsHome(w, e);
      if KeepsRow(w, e) { KeptOutcomeChangesBlob(w, e); } else { DroppedOutcomeLeaves(w, e); }
      BlobAfterWrite(w.store.disk, Current(w), v.store.mem.attachments);
    }
    hide Step, Enabled, Consistent, FlightsAreHome, WriteFires, KeepsRow, StoresJust, SameBlob, WithUploads, LeftInMemory;
    if WriteFires(w, e) && Current(w) != w.loaded && !SameBlob(v.store.disk, w.store.disk, Current(w)) {
      assert Current(w) != w.requests[e.request].home;
    }
  }

  lemma FiringIsHome(w: World, e: Event)
    requires e.End? && Enabled(w, e) && Consistent(w) && FlightsAreHome(w) && WriteFires(w, e)
    ensures w.requests[e.request].home == w.loaded
  {
    var slot := w.requests[e.request].slot;
    var rows := RowsOf(w, slot);
    var i :| 0 <= i < |rows| && rows[i].id == Minted(e.request);
    hide Stored;
    assert rows[i] in rows && GoodRow(w, rows[i]) && IsHome(w, slot, rows[i]);
  }

  /** A settled row of it is stored there now, and was not while the request was in flight. */
  lemma KeptOutcomeChangesBlob(w: World, e: Event)
    requires e.End? && Enabled(w, e) && Consistent(w) && WriteFires(w, e) && KeepsRow(w, e)
    ensures !SameBlob(Step(w, e).store.disk, w.store.disk, Current(w))
  {
    var r := e.request;
    assert |w.uploads.aborted| == |w.requests|;
    OutcomeIsPersisted(w, e);
    FlightIsUnsettled(w, Current(w), r);
    hide Step, Enabled, Consistent, WriteFires, KeepsRow, Stored, SameBlob;
    var slot, u :| Stored(Step(w, e).store.disk, Current(w), slot, u) && u.id == Minted(r) && !u.InFlight();
    SameBlobSameRows(Step(w, e).store.disk, w.store.disk, Current(w), slot, u);
  }

  /** An outcome that leaves a row does land in the persisted draft, when its write fires, under the current workspace. */
  lemma OutcomeIsPersisted(w: World, e: Event)
    requires e.End? && Enabled(w, e) && Consistent(w) && WriteFires(w, e) && KeepsRow(w, e)
    ensures SettledUnder(Step(w, e), Current(w), Minted(e.request))
  {
    var slot := w.requests[e.request].slot;
    assert |w.uploads.aborted| == |w.requests| && HasUpload(RowsOf(w, slot), Minted(e.request));
    hide Step, Enabled, Consistent, WriteFires, KeepsRow, Stored, HasUpload, InSlot, SettledUnder;
    HeldIsInSlot(w, slot, Minted(e.request));
    SurvivesInSlot(w, e, slot);
    SurvivorIsStored(w, e, slot, Minted(e.request));
    StoredIsSettled(w, e, slot);
  }

  lemma FlightIsUnsettled(w: World, ns: Namespace, r: nat)
    requires Consistent(w) && r < |w.requests| && !w.requests[r].done
    ensures !SettledUnder(w, ns, Minted(r))
  {
    hide Stored;
  }

  lemma HeldIsInSlot(w: World, slot: string, id: UploadId)
    requires HasUpload(RowsOf(w, slot), id)
    ensures InSlot(w, slot, id)
  {
    InSlotIsHeld(w, slot, id);
  }

  lemma SameBlobSameRows(a: Disk, b: Disk, ns: Namespace, slot: string, u: DraftUpload)
    ensures SameBlob(a, b, ns) ==> (Stored(a, ns, slot, u) <==> Stored(b, ns, slot, u))
  {
  }

  lemma DroppedOutcomeLeaves(w: World, e: Event)
    requires e.End? && Enabled(w, e) && Consistent(w) && WriteFires(w, e) && !KeepsRow(w, e)
    ensures Step(w, e).store.mem.attachments == LeftInMemory(w, e.request)
  {
    OutcomeHasId(Minted(e.request), w.uploads.aborted[e.request], e.response);
    hide WithUploads, OutcomeOf, Finished, WithoutUpload;
  }

  lemma BlobAfterWrite(disk: Disk, ns: Namespace, next: map<string, seq<DraftUpload>>)
    ensures SameBlob(WithUploads(disk, ns, next), disk, ns) <==> StoresJust(disk, ns, next)
  {
    hide StoredUploads, Pruned;
  }

  /**
   In every run whatsoever, an outcome changes the store only while its slot holds its placeholder, and the stored
   drafts of another workspace only when it overwrites them in the way just told.
   */
  lemma OutcomesAreSafe(disk: Disk, events: seq<Event>, e: Event)
    requires Foreign(disk) && Consistent(Initial(disk)) && Possible(Initial(disk), events)
    requires e.End? && Enabled(After(Initial(disk), events), e)
    ensures var w := After(Initial(disk), events);
            var v, home := Step(w, e), w.requests[e.request].home;
            && (v.store != w.store <==> HoldsPlaceholder(w, e.request) && EndedOutcome(w, e.request, e.response).Some?)
            && (v.store != w.store ==> w.loaded == home)
            && ((forall ns :: ns != home ==> SameBlob(v.store.disk, w.store.disk, ns)) <==> !Overwrites(w, e))
  {
    ReachableIsWellPlaced(disk, events);
    hide Initial, After, Possible, Step, Enabled, Consistent, Placed, FlightsAreHome, NothingUnnamed, SameBlob, Overwrites;
    OutcomeIsSafe(After(Initial(disk), events), e);
  }

  lemma OutcomeIsSafe(w: World, e: Event)
    requires e.End? && Enabled(w, e) && Consistent(w) && FlightsAreHome(w)
    ensures var v, home := Step(w, e), w.requests[e.request].home;
            && (v.store != w.store <==> HoldsPlaceholder(w, e.request) && EndedOutcome(w, e.request, e.response).Some?)
            && (v.store != w.store ==> w.loaded == home)
            && ((forall ns :: ns != home ==> SameBlob(v.store.disk, w.store.disk, ns)) <==> !Overwrites(w, e))
  {
    OutcomeTouchesOnlyItsSlot(w, e);
    OutcomeTouchesOthersIff(w, e);
    if WriteFires(w, e) { FiringIsHome(w, e); }
    hide Step, Enabled, Consistent, FlightsAreHome, SameBlob, Overwrites;
  }

  // ----- the race as a run -----

  /** A file picked in a workspace, whose placeholder is in memory. */
  ghost predicate Picked(w: World, here: string, slot: string) {
    && Consistent(w) && Owned(w)
    && w.requests == [Request(slot, Some(here), false)]
    && w.store.slug == Some(here) && w.loaded == Some(here)
    && InSlot(w, slot, Minted(0))
  }

  const PICKED_FILE := "f"

  ghost function PickRun(here: string, slot: string): seq<Event> {
    [Switch(Some(here)), Reload, Pick(slot, PICKED_FILE, 1, None)]
  }

  lemma PickRunPicks(disk: Disk, here: string, slot: string)
    requires Foreign(disk) && here != "" && !IsLegacy(slot)
    ensures Consistent(Initial(disk)) && Possible(Initial(disk), PickRun(here, slot))
    ensures Picked(After(Initial(disk), PickRun(here, slot)), here, slot)
  {
    var w0, pick := Initial(disk), Pick(slot, PICKED_FILE, 1, None);
    InitialIsGood(disk);
    InitialIsIdle(disk);
    hide *;
    ReloadedThere(w0, here);
    var w2 := After(w0, [Switch(Some(here)), Reload]);
    PickedThere(w2, here, pick);
    AfterThen(w0, [Switch(Some(here)), Reload], pick);
    PickRunIs(here, slot);
  }

  lemma PickRunIs(here: string, slot: string)
    ensures [Switch(Some(here)), Reload] + [Pick(slot, PICKED_FILE, 1, None)] == PickRun(here, slot)
  {
  }

  /** A workspace entered and loaded, with no request yet. */
  ghost predicate Entered(w: World, here: string) {
    Consistent(w) && Owned(w) && w.requests == [] && w.store.slug == Some(here) && w.loaded == Some(here)
  }

  lemma ReloadedThere(w0: World, here: string)
    requires Consistent(w0) && Owned(w0) && w0.requests == [] && w0.store.slug == None && here != ""
    ensures Possible(w0, [Switch(Some(here)), Reload]) && Entered(After(w0, [Switch(Some(here)), Reload]), here)
  {
    ReloadedWorld(w0, here);
    var w1 := Step(w0, Switch(Some(here)));
    hide Step, Stored, IsLegacy, Consistent, Owned, Quiet, Enabled, Possible, After;
    StepKeepsConsistent(w0, Switch(Some(here)));
    StepKeepsConsistent(w1, Reload);
    NoWriteIsQuiet(w0, Switch(Some(here)));
    NoWriteIsQuiet(w1, Reload);
    StepKeepsOwned(w0, Switch(Some(here)));
    StepKeepsOwned(w1, Reload);
    AfterTwo(w0, Switch(Some(here)), Reload);
  }

  lemma PickedThere(w: World, here: string, pick: Event)
    requires Entered(w, here) && here != "" && pick.Pick? && !IsLegacy(pick.slot)
    ensures Consistent(w) && |w.uploads.aborted| == |w.requests| && Enabled(w, pick)
    ensures Picked(Step(w, pick), here, pick.slot)
  {
    PickIsEnabled(w, pick);
    assert |w.uploads.aborted| == |w.requests|;
    hide Step, Stored, IsLegacy, Consistent, Owned, Quiet, Enabled, InSlot;
    QuietWhenCurrent(w, pick);
    StepKeepsConsistent(w, pick);
    StepKeepsOwned(w, pick);
    PickedWorld(w, pick);
  }

  lemma InitialIsIdle(disk: Disk)
    ensures Initial(disk).requests == [] && Initial(disk).store.slug == None
  {
    hide Load;
  }

  lemma NoWriteIsQuiet(w: World, e: Event)
    requires e.Switch? || e.Reload?
    ensures Quiet(w, e)
  {
  }

  lemma PickIsEnabled(w: World, e: Event)
    requires e.Pick? && !IsLegacy(e.slot)
    ensures Enabled(w, e)
  {
  }

  lemma ReloadedWorld(w: World, here: string)
    requires Consistent(w) && w.requests == [] && w.store.slug == None && here != ""
    ensures Enabled(w, Switch(Some(here))) && |Step(w, Switch(Some(here))).uploads.aborted| == |Step(w, Switch(Some(here))).requests|
    ensures Enabled(Step(w, Switch(Some(here))), Reload)
    ensures var w2 := Step(Step(w, Switch(Some(here))), Reload);
            w2.requests == [] && w2.store.slug == Some(here) && w2.loaded == Some(here)
  {
    hide Load;
  }

  lemma PickedWorld(w: World, e: Event)
    requires Consistent(w) && Enabled(w, e) && e.Pick?
    ensures Step(w, e).requests == w.requests + [Request(e.slot, w.loaded, false)]
    ensures Step(w, e).store.slug == w.store.slug && Step(w, e).loaded == w.loaded
    ensures InSlot(Step(w, e), e.slot, Minted(|w.requests|))
  {
    SlotAfter(w, e, e.slot, Minted(|w.requests|));
    hide WithUploads, IsLegacy;
  }

  /** The race as one run: switch, reload, pick, switch again, and the response before the second reload. */
  lemma SwitchRaceMisfiles(disk: Disk, a: Attachment, here: string, there: string, slot: string)
    requires Foreign(disk) && here != there && here != "" && there != "" && !IsLegacy(slot)
    ensures var run := PickRun(here, slot) + [Switch(Some(there))];
            var e := End(0, Delivered(a), true);
            && Consistent(Initial(disk)) && Possible(Initial(disk), run)
            && Enabled(After(Initial(disk), run), e)
            && StoredElsewhere(Step(After(Initial(disk), run), e), 0)
  {
    hide *;
    PickRunPicks(disk, here, slot);
    var w := After(Initial(disk), PickRun(here, slot));
    PickedThenSwitched(w, a, here, there, slot);
    AfterThen(Initial(disk), PickRun(here, slot), Switch(Some(there)));
  }

  lemma PickedThenSwitched(w: World, a: Attachment, here: string, there: string, slot: string)
    requires Picked(w, here, slot) && here != there && here != "" && there != ""
    ensures Consistent(w) && Enabled(w, Switch(Some(there)))
    ensures var v := Step(w, Switch(Some(there)));
            var e := End(0, Delivered(a), true);
            && |v.uploads.aborted| == |v.requests| && Enabled(v, e)
            && |Step(v, e).requests| > 0 && StoredElsewhere(Step(v, e), 0)
  {
    SwitchedAway(w, there);
    var v := Step(w, Switch(Some(there)));
    hide Step, Consistent, Owned, Stored, InSlot;
    EndFires(v, a);
    EndedWorld(v, End(0, Delivered(a), true));
    LandsElsewhereIff(v, End(0, Delivered(a), true), 0);
  }

  lemma SwitchedAway(w: World, there: string)
    requires Consistent(w) && Owned(w) && there != "" && w.store.slug.Some? && w.store.slug.value != there
    requires Current(w) == w.loaded == w.store.slug
    ensures Enabled(w, Switch(Some(there)))
    ensures var v := Step(w, Switch(Some(there)));
            && Consistent(v) && Owned(v) && v.requests == w.requests && v.loaded == w.loaded && Current(v) != v.loaded
            && v.store.mem == w.store.mem && v.store.disk == w.store.disk
  {
    StepKeepsConsistent(w, Switch(Some(there)));
    StepKeepsOwned(w, Switch(Some(there)));
  }

  lemma EndFires(w: World, a: Attachment)
    requires Consistent(w) && |w.requests| == 1 && !w.requests[0].done && InSlot(w, w.requests[0].slot, Minted(0))
    ensures var e := End(0, Delivered(a), true);
            && Enabled(w, e) && |w.uploads.aborted| == |w.requests|
            && WriteFires(w, e) && KeepsRow(w, e) && Survives(w, e, Minted(0))
  {
    var slot, e := w.requests[0].slot, End(0, Delivered(a), true);
    InSlotIsHeld(w, slot, Minted(0));
    assert KeepsRow(w, e);
    assert SurvivesIn(w, e, slot, Minted(0));
  }

  /** The upload of the request picked, completed and stored under its workspace. */
  ghost predicate Completed(w: World, here: string, slot: string) {
    && Consistent(w) && Owned(w)
    && w.requests == [Request(slot, Some(here), true)]
    && w.store.slug == Some(here) && w.loaded == Some(here)
    && HasSettled(w, slot, Minted(0)) && SettledUnder(w, Some(here), Minted(0))
  }

  /** A completed or failed row of the upload is in memory. */
  ghost predicate HasSettled(w: World, slot: string, id: UploadId) {
    exists u :: u in RowsOf(w, slot) && u.id == id && !u.InFlight()
  }

  lemma PickCompletes(w: World, a: Attachment, here: string, slot: string)
    requires Picked(w, here, slot) && here != ""
    ensures Enabled(w, End(0, Delivered(a), true)) && |w.uploads.aborted| == |w.requests|
    ensures Completed(Step(w, End(0, Delivered(a), true)), here, slot)
  {
    var e := End(0, Delivered(a), true);
    EndFires(w, a);
    hide Step, Stored, IsLegacy, Consistent, Owned, WriteFires, KeepsRow, Survives, Quiet, Enabled, InSlot, HasSettled, SettledUnder;
    QuietWhenCurrent(w, e);
    StepKeepsConsistent(w, e);
    StepKeepsOwned(w, e);
    EndedWorld(w, e);
    CompletedIsStored(w, a, slot);
  }

  lemma QuietWhenCurrent(w: World, e: Event)
    requires Current(w) == w.loaded
    ensures Quiet(w, e)
  {
  }

  /** A completed upload is in its slot, and stored under the current workspace as a row not in flight. */
  lemma CompletedIsStored(w: World, a: Attachment, slot: string)
    requires Consistent(w) && |w.requests| == 1 && !w.requests[0].done && w.requests[0].slot == slot
    requires InSlot(w, slot, Minted(0))
    ensures var e := End(0, Delivered(a), true);
            && Enabled(w, e) && |w.uploads.aborted| == |w.requests|
            && HasSettled(Step(w, e), slot, Minted(0)) && SettledUnder(Step(w, e), Current(w), Minted(0))
  {
    var e := End(0, Delivered(a), true);
    EndFires(w, a);
    hide Step, Stored, Consistent, WriteFires, KeepsRow, Survives, Enabled, InSlot, SettledUnder;
    SurvivesInSlot(w, e, slot);
    SurvivorIsStored(w, e, slot, Minted(0));
    StoredIsSettled(w, e, slot);
  }

  lemma StoredIsSettled(w: World, e: Event, slot: string)
    requires e.End? && Enabled(w, e) && Consistent(w) && KeepsRow(w, e) && slot == w.requests[e.request].slot
    requires exists u :: u in RowsOf(Step(w, e), slot) && Stored(Step(w, e).store.disk, Current(w), slot, u) && u.id == Minted(e.request)
    ensures SettledUnder(Step(w, e), Current(w), Minted(e.request)) && HasSettled(Step(w, e), slot, Minted(e.request))
  {
    OutcomeReplacesInPlace(w, e);
    var rows, next := RowsOf(w, slot), RowsOf(Step(w, e), slot);
    hide Step, Stored, Consistent, KeepsRow, Enabled;
    var u :| u in next && Stored(Step(w, e).store.disk, Current(w), slot, u) && u.id == Minted(e.request);
    var i :| 0 <= i < |next| && next[i] == u;
    if rows[i].id != Minted(e.request) { assert false; }
  }

  lemma SurvivesInSlot(w: World, e: Event, slot: string)
    requires e.End? && Enabled(w, e) && Consistent(w) && KeepsRow(w, e) && InSlot(w, slot, Minted(e.request))
    ensures InSlot(Step(w, e), slot, Minted(e.request))
  {
    SlotAfter(w, e, slot, Minted(e.request));
    hide Step;
    assert SurvivesIn(w, e, slot, Minted(e.request));
  }

  lemma EndedWorld(w: World, e: Event)
    requires e.End? && Enabled(w, e) && Consistent(w)
    ensures Step(w, e).requests == w.requests[e.request := w.requests[e.request].(done := true)]
    ensures Step(w, e).store.slug == w.store.slug && Step(w, e).loaded == w.loaded
  {
    StepStaysPut(w, e);
    hide Received, OutcomeOf, Finished;
  }

  lemma StepStaysPut(w: World, e: Event)
    requires e.End? && Enabled(w, e) && Consistent(w)
    ensures Step(w, e).store.slug == w.store.slug
  {
    hide PersistUploads, Finished, OutcomeOf, At, HasUpload;
    forall next ensures PersistUploads(w.store, next).slug == w.store.slug { UploadsKeepSlug(w.store, next); }
  }
}
