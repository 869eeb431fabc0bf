/**
 What holds in every state of every run, whatever happened before: each upload is in the slot it was picked in, a
 placeholder in flight belongs to the workspace that memory was loaded from, and no upload is under an empty slug.
 */
module DraftPlaces {
  import opened Wrappers
  import opened DraftUploads
  import opened DraftStorage
  import opened ChatStore
  import opened UploadCoordinator
  import opened DraftProtocol

  ghost predicate StoredUnder(w: World, ns: Namespace, id: UploadId) {
    exists slot, u :: Stored(w.store.disk, ns, slot, u) && u.id == id
  }

  /** Stored there as a row that a load keeps. */
  ghost predicate SettledUnder(w: World, ns: Namespace, id: UploadId) {
    exists slot, u :: Stored(w.store.disk, ns, slot, u) && u.id == id && !u.InFlight()
  }

  // ----- every row is in its own slot -----

  ghost predicate IsPlaced(w: World, slot: string, u: DraftUpload) {
    u.id.Minted? ==> u.id.n < |w.requests| && w.requests[u.id.n].slot == slot
  }

  /** Whatever the workspace, every upload is in the slot it was picked in. */
  ghost predicate Placed(w: World) {
    && (forall slot, u :: u in RowsOf(w, slot) ==> IsPlaced(w, slot, u))
    && (forall ns, slot, u :: Stored(w.store.disk, ns, slot, u) ==> IsPlaced(w, slot, u))
  }

  lemma OwnedIsPlaced(w: World)
    requires Owned(w)
    ensures Placed(w)
  {
    hide Stored;
    forall slot, u | u in RowsOf(w, slot) ensures IsPlaced(w, slot, u) { assert IsOwn(w, w.loaded, slot, u); }
    forall ns, slot, u | Stored(w.store.disk, ns, slot, u) ensures IsPlaced(w, slot, u) { assert IsOwn(w, ns, slot, u); }
  }

  /** Every event keeps that, also between a switch and its reload. */
  lemma StepKeepsPlaced(w: World, e: Event)
    requires Enabled(w, e) && Consistent(w) && Placed(w)
    ensures Placed(Step(w, e))
  {
    assert |w.uploads.aborted| == |w.requests|;
    var v := Step(w, e);
    hide Step, Enabled, Consistent, Placed, IsPlaced, Stored;
    forall slot, u | u in RowsOf(v, slot) ensures IsPlaced(v, slot, u) { MemoryRowStaysPlaced(w, e, slot, u); }
    forall ns, slot, u | Stored(v.store.disk, ns, slot, u) ensures IsPlaced(v, slot, u) {
      StoredRowStaysPlaced(w, e, ns, slot, u);
    }
    assert Placed(v) by { PlacedIs(v); }
  }

  lemma PlacedIs(w: World)
    requires forall slot, u :: u in RowsOf(w, slot) ==> IsPlaced(w, slot, u)
    requires forall ns, slot, u :: Stored(w.store.disk, ns, slot, u) ==> IsPlaced(w, slot, u)
    ensures Placed(w)
  {
  }

  lemma StoredIsPlaced(w: World, ns: Namespace, slot: string, u: DraftUpload)
    requires Placed(w) && Stored(w.store.disk, ns, slot, u)
    ensures IsPlaced(w, slot, u)
  {
    hide Stored;
  }

  lemma PlacedStays(w: World, v: World, slot: string, u: DraftUpload)
    requires IsPlaced(w, slot, u) && Later(w, v)
    ensures IsPlaced(v, slot, u)
  {
  }

  lemma StoredRowStaysPlaced(w: World, e: Event, ns: Namespace, slot: string, u: DraftUpload)
    requires Enabled(w, e) && Consistent(w) && Placed(w) && Stored(Step(w, e).store.disk, ns, slot, u)
    ensures IsPlaced(Step(w, e), slot, u)
  {
    assert |w.uploads.aborted| == |w.requests|;
    hide *;
    StepIsLater(w, e);
    StoredRowsHaveSources(w, e, ns, slot, u);
    if Stored(w.store.disk, ns, slot, u) {
      StoredIsPlaced(w, ns, slot, u);
      PlacedStays(w, Step(w, e), slot, u);
    } else {
      NewRowIsInMemory(w, e, ns, slot, u);
      MemoryRowStaysPlaced(w, e, slot, u);
    }
  }

  lemma MemoryRowStaysPlaced(w: World, e: Event, slot: string, u: DraftUpload)
    requires Enabled(w, e) && Consistent(w) && Placed(w) && u in RowsOf(Step(w, e), slot)
    ensures IsPlaced(Step(w, e), slot, u)
  {
    StepIsLater(w, e);
    StepLoads(w, e);
    hide Step, Stored, Enabled, IsLegacy, IsSaved, MemoryRowFrom, Consistent, Placed, WritesUploads;
    if u.id.Minted? {
      MemoryRowsHaveSources(w, e, slot, u);
      SourcedIsPlaced(w, e, slot, u);
    }
  }

  lemma SourcedIsPlaced(w: World, e: Event, slot: string, u: DraftUpload)
    requires Enabled(w, e) && Consistent(w) && Placed(w) && MemoryRowFrom(w, e, slot, u) && u.id.Minted?
    requires Later(w, Step(w, e))
    requires e.Pick? ==> Step(w, e).requests == w.requests + [Request(e.slot, w.loaded, false)]
    ensures IsPlaced(Step(w, e), slot, u)
  {
    hide Step, Stored, Enabled, IsLegacy, IsSaved;
    if e.Reload? || e.Restart? {
      SavedIsPlaced(w, if e.Reload? then Current(w) else None, slot, u);
    } else if u in RowsOf(w, slot) {
      assert IsPlaced(w, slot, u);
    } else if e.End? {
      var rows := RowsOf(w, slot);
      var i :| 0 <= i < |rows| && rows[i].id == Minted(e.request);
      assert IsPlaced(w, slot, rows[i]);
    }
  }

  lemma SavedIsPlaced(w: World, ns: Namespace, slot: string, u: DraftUpload)
    requires Consistent(w) && Placed(w) && IsSaved(w.store.disk, ns, slot, u) && u.id.Minted?
    ensures IsPlaced(w, slot, u)
  {
    hide Stored, IsLegacy;
    var from :| Stored(w.store.disk, ns, from, u) && (from == slot || (IsLegacy(from) && slot == DRAFT_NEW_SESSION));
    assert IsPlaced(w, from, u);
  }

  // ----- every upload in flight is at home -----

  ghost predicate IsHome(w: World, slot: string, u: DraftUpload) {
    u.id.Minted? && u.InFlight() ==>
      u.id.n < |w.requests| && w.requests[u.id.n].slot == slot && w.requests[u.id.n].home == w.loaded
  }

  /** A placeholder in memory is in its own slot of its own workspace: no load keeps one. */
  ghost predicate FlightsAreHome(w: World) {
    forall slot, u :: u in RowsOf(w, slot) ==> IsHome(w, slot, u)
  }

  lemma StepKeepsFlights(w: World, e: Event)
    requires Enabled(w, e) && Consistent(w) && FlightsAreHome(w)
    ensures FlightsAreHome(Step(w, e))
  {
    assert |w.uploads.aborted| == |w.requests|;
    var v := Step(w, e);
    hide Step, Enabled, Consistent, FlightsAreHome, IsHome;
    forall slot, u | u in RowsOf(v, slot) ensures IsHome(v, slot, u) { MemoryRowStaysHome(w, e, slot, u); }
    assert FlightsAreHome(v) by { FlightsAre(v); }
  }

  lemma FlightsAre(w: World)
    requires forall slot, u :: u in RowsOf(w, slot) ==> IsHome(w, slot, u)
    ensures FlightsAreHome(w)
  {
  }

  lemma MemoryRowStaysHome(w: World, e: Event, slot: string, u: DraftUpload)
    requires Enabled(w, e) && Consistent(w) && FlightsAreHome(w) && u in RowsOf(Step(w, e), slot)
    ensures IsHome(Step(w, e), slot, u)
  {
    StepIsLater(w, e);
    StepLoads(w, e);
    hide Step, Stored, Enabled, IsLegacy, IsSaved, MemoryRowFrom, Consistent, FlightsAreHome, WritesUploads;
    if u.id.Minted? && u.InFlight() {
      MemoryRowsHaveSources(w, e, slot, u);
      SourcedIsHome(w, e, slot, u);
    }
  }

  lemma SourcedIsHome(w: World, e: Event, slot: string, u: DraftUpload)
    requires Enabled(w, e) && Consistent(w) && FlightsAreHome(w) && MemoryRowFrom(w, e, slot, u) && u.id.Minted? && u.InFlight()
    requires Later(w, Step(w, e))
    requires Step(w, e).loaded == if e.Reload? then Current(w) else if e.Restart? then None else w.loaded
    requires e.Pick? ==> Step(w, e).requests == w.requests + [Request(e.slot, w.loaded, false)]
    ensures IsHome(Step(w, e), slot, u)
  {
    hide Step, Stored, Enabled, IsLegacy, IsSaved, Consistent;
    if u in RowsOf(w, slot) { assert IsHome(w, slot, u); }
  }

  // ----- nothing is stored under an empty slug -----

  ghost predicate NothingUnnamed(w: World) {
    forall slot, u :: Stored(w.store.disk, Some(""), slot, u) ==> !u.id.Minted?
  }

  lemma StepKeepsUnnamed(w: World, e: Event)
    requires Enabled(w, e) && Consistent(w) && NothingUnnamed(w)
    ensures NothingUnnamed(Step(w, e))
  {
    assert |w.uploads.aborted| == |w.requests|;
    var v := Step(w, e);
    hide Step, Enabled, Consistent, Stored;
    assert Current(v) != Some("");
    forall slot, u | Stored(v.store.disk, Some(""), slot, u) ensures !u.id.Minted? {
      StoredRowsHaveSources(w, e, Some(""), slot, u);
    }
  }

  // ----- over every run -----

  ghost predicate WellPlaced(w: World) {
    Placed(w) && FlightsAreHome(w) && NothingUnnamed(w)
  }

  lemma InitialIsWellPlaced(disk: Disk)
    requires Foreign(disk) && Consistent(Initial(disk))
    ensures WellPlaced(Initial(disk))
  {
    var w := Initial(disk);
    assert w.requests == [];
    hide Stored, Initial;
    forall slot, u | u in RowsOf(w, slot) ensures !u.id.Minted? { assert GoodRow(w, u); }
    forall ns, slot, u | Stored(w.store.disk, ns, slot, u) ensures !u.id.Minted? { assert GoodRow(w, u); }
  }

  lemma {:induction false} RunKeepsWellPlaced(w: World, events: seq<Event>)
    requires Consistent(w) && Possible(w, events) && WellPlaced(w)
    ensures WellPlaced(After(w, events))
    decreases |events|
  {
    assert |w.uploads.aborted| == |w.requests|;
    hide Step, Enabled, Consistent, Placed, FlightsAreHome, NothingUnnamed;
    if events != [] {
      StepKeepsConsistent(w, events[0]);
      StepKeepsPlaced(w, events[0]);
      StepKeepsFlights(w, events[0]);
      StepKeepsUnnamed(w, events[0]);
      RunKeepsWellPlaced(Step(w, events[0]), events[1..]);
    }
  }

  /** In every state of every run from any storage of earlier pages. */
  lemma ReachableIsWellPlaced(disk: Disk, events: seq<Event>)
    requires Foreign(disk) && Consistent(Initial(disk)) && Possible(Initial(disk), events)
    ensures WellPlaced(After(Initial(disk), events))
  {
    hide *;
    InitialIsWellPlaced(disk);
    RunKeepsWellPlaced(Initial(disk), events);
  }
}
