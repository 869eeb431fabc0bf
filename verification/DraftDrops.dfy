/**
 What is dropped from a draft, and when it comes back: a write empties only the blob of the current workspace, so a
 cleared or dismissed upload returns exactly when another workspace stores a settled row of it.
 */
module DraftDrops {
  import opened Wrappers
  import opened DraftUploads
  import opened DraftStorage
  import opened ChatStore
  import opened UploadCoordinator
  import opened DraftProtocol
  import opened DraftPlaces
  import opened DraftGap
  import opened DraftDurability

  /** The event takes the upload out of the slot that holds it. */
  ghost predicate DropsFrom(w: World, e: Event, slot: string, id: UploadId)
    requires Enabled(w, e) && Consistent(w)
  {
    IsUploadEvent(e) && InSlot(w, slot, id) && !InSlot(Step(w, e), slot, id)
  }

  /** A drop is a write that fires, and leaves no row of the upload in memory. */
  lemma DropWrites(w: World, e: Event, r: nat, slot: string)
    requires Enabled(w, e) && Consistent(w) && Placed(w) && r < |w.requests| && DropsFrom(w, e, slot, Minted(r))
    ensures WriteFires(w, e) && !InMemory(Step(w, e), Minted(r))
  {
    var held :| held in RowsOf(w, slot) && held.id == Minted(r);
    assert IsPlaced(w, slot, held);
    WritesOrNothing(w, e);
    StepIsLater(w, e);
    hide Step, Enabled, Consistent, Placed, WriteFires, WithUploads;
    forall at | at != slot ensures !InSlot(Step(w, e), at, Minted(r)) {
      forall u | u in RowsOf(Step(w, e), at) ensures u.id != Minted(r) { MemoryRowStaysPlaced(w, e, at, u); }
    }
  }

  // ----- gone at once -----

  /** An upload that an event takes from its slot is nowhere any more exactly when no other workspace stores it. */
  lemma DroppedIsGoneIff(w: World, e: Event, r: nat, slot: string)
    requires Enabled(w, e) && Consistent(w) && Placed(w) && r < |w.requests| && DropsFrom(w, e, slot, Minted(r))
    ensures Gone(Step(w, e), Minted(r)) <==> forall ns :: ns != Current(w) ==> !StoredUnder(w, ns, Minted(r))
  {
    assert |w.uploads.aborted| == |w.requests|;
    DropWrites(w, e, r, slot);
    DropSurvivesNowhere(w, e, Minted(r));
    hide Step, Enabled, Consistent, WriteFires, Survives, StoredUnder, Gone;
    WriteErasesIff(w, e, Minted(r));
  }

  lemma DropSurvivesNowhere(w: World, e: Event, id: UploadId)
    requires Enabled(w, e) && Consistent(w) && IsUploadEvent(e) && id.Minted? && !InMemory(Step(w, e), id)
    ensures !Survives(w, e, id)
  {
    assert |w.uploads.aborted| == |w.requests|;
    hide Step, Enabled, Consistent, SurvivesIn, InSlot;
    forall slot ensures !SurvivesIn(w, e, slot, id) { SlotAfter(w, e, slot, id); }
  }

  /** With every upload in its place: exactly when memory is that of the current workspace, or the home stores no row. */
  lemma OwnedDropIsGoneIff(w: World, e: Event, r: nat, slot: string)
    requires Enabled(w, e) && Consistent(w) && Owned(w) && r < |w.requests| && DropsFrom(w, e, slot, Minted(r))
    ensures Gone(Step(w, e), Minted(r)) <==> Current(w) == w.loaded || !StoredUnder(w, w.loaded, Minted(r))
  {
    OwnedIsPlaced(w);
    DroppedIsGoneIff(w, e, r, slot);
    OwnedIsStoredHome(w, r, slot);
    hide Step, Enabled, Consistent, Owned, StoredUnder, Gone;
  }

  lemma OwnedIsStoredHome(w: World, r: nat, slot: string)
    requires Owned(w) && r < |w.requests| && InSlot(w, slot, Minted(r))
    ensures w.requests[r].home == w.loaded
    ensures forall ns :: ns != w.loaded ==> !StoredUnder(w, ns, Minted(r)) && !SettledUnder(w, ns, Minted(r))
  {
    var held :| held in RowsOf(w, slot) && held.id == Minted(r);
    assert IsOwn(w, w.loaded, slot, held);
    hide Stored;
    forall ns, at, u | Stored(w.store.disk, ns, at, u) && u.id == Minted(r) ensures ns == w.loaded { OwnHome(w, ns, at, u); }
  }

  // ----- coming back -----

  ghost predicate InMemory(w: World, id: UploadId) {
    exists slot :: InSlot(w, slot, id)
  }

  /** Some continuation brings the upload back into memory. */
  ghost predicate CanReturn(w: World, id: UploadId)
    requires Consistent(w)
  {
    exists events :: Possible(w, events) && InMemory(After(w, events), id)
  }

  /** The run is possible and ends with the upload in the slot. */
  ghost predicate BringsBack(w: World, events: seq<Event>, slot: string, id: UploadId) {
    Consistent(w) && Possible(w, events) && InSlot(After(w, events), slot, id)
  }

  /** Switching back to the workspace that stores a settled row, and the reload, put it in memory again. */
  lemma SwitchBackReturns(w: World, ns: Namespace, slot: string, u: DraftUpload)
    requires Consistent(w) && Current(w) != ns && ns != Some("")
    requires Stored(w.store.disk, ns, slot, u) && !u.InFlight() && !IsLegacy(slot)
    ensures BringsBack(w, [Switch(ns), Reload], slot, u.id)
  {
    SwitchAndReload(w, ns);
    LoadKeepsRow(w.store.disk, ns, AgentAt(w.store.disk, ns), slot, u);
    hide Step, Stored, Enabled, IsLegacy, Consistent, Possible, After, Load;
    AfterTwo(w, Switch(ns), Reload);
    assert u in RowsOf(Step(Step(w, Switch(ns)), Reload), slot);
  }

  lemma SwitchAndReload(w: World, ns: Namespace)
    requires Consistent(w) && Current(w) != ns && ns != Some("")
    ensures Enabled(w, Switch(ns)) && |Step(w, Switch(ns)).uploads.aborted| == |Step(w, Switch(ns)).requests|
    ensures Enabled(Step(w, Switch(ns)), Reload)
    ensures Step(Step(w, Switch(ns)), Reload).store.mem.attachments
         == Load(w.store.disk, ns, AgentAt(w.store.disk, ns)).attachments
  {
    hide Load;
  }

  lemma ReturningIsPossible(w: World, events: seq<Event>, slot: string, id: UploadId)
    requires Consistent(w) && BringsBack(w, events, slot, id)
    ensures CanReturn(w, id)
  {
    assert InMemory(After(w, events), id);
  }

  /** Where the workspace is current already, it is left first. */
  lemma LeaveAndReturn(w: World, ns: Namespace, slot: string, u: DraftUpload)
    requires Consistent(w) && Current(w) == ns
    requires Stored(w.store.disk, ns, slot, u) && !u.InFlight() && !IsLegacy(slot)
    ensures CanReturn(w, u.id)
  {
    var away := Switch(if ns.None? then Some("a") else None);
    SwitchOnly(w, away);
    hide Step, Stored, Enabled, IsLegacy, Consistent, Possible, After, BringsBack, InMemory;
    StepKeepsConsistent(w, away);
    var v := Step(w, away);
    SwitchBackReturns(v, ns, slot, u);
    Prepend(w, away, [Switch(ns), Reload], slot, u.id);
    ReturningIsPossible(w, [away] + [Switch(ns), Reload], slot, u.id);
  }

  lemma SwitchOnly(w: World, e: Event)
    requires |w.uploads.aborted| == |w.requests| && e.Switch? && e.slug != Some("")
    ensures Enabled(w, e) && Step(w, e).store.disk == w.store.disk && Current(Step(w, e)) == e.slug
  {
  }

  lemma Prepend(w: World, e: Event, events: seq<Event>, slot: string, id: UploadId)
    requires Consistent(w) && |w.uploads.aborted| == |w.requests| && Enabled(w, e) && BringsBack(Step(w, e), events, slot, id)
    ensures BringsBack(w, [e] + events, slot, id)
  {
    hide Step, Enabled, Consistent, Possible, After;
    AfterOne(w, e, events);
  }

  /** An upload can come back into memory exactly when it is there, or some workspace stores a settled row of it. */
  lemma CanReturnIff(w: World, r: nat)
    requires Consistent(w) && Placed(w) && NothingUnnamed(w) && r < |w.requests|
    ensures CanReturn(w, Minted(r)) <==> InMemory(w, Minted(r)) || exists ns :: SettledUnder(w, ns, Minted(r))
  {
    if InMemory(w, Minted(r)) {
      AfterNothing(w);
    } else if ns :| SettledUnder(w, ns, Minted(r)) {
      SettledReturns(w, ns, r);
    } else {
      AbsentIsLost(w, r);
      hide Step, Enabled, Consistent, Possible, After, Lost;
      forall events | Possible(w, events) ensures !InMemory(After(w, events), Minted(r)) {
        LostForever(w, events, r);
        LostIsAbsent(After(w, events), Minted(r));
      }
    }
  }

  lemma SettledReturns(w: World, ns: Namespace, r: nat)
    requires Consistent(w) && Placed(w) && NothingUnnamed(w) && r < |w.requests| && SettledUnder(w, ns, Minted(r))
    ensures CanReturn(w, Minted(r))
  {
    assert !IsLegacy(w.requests[r].slot);
    hide Stored, Consistent, Placed, IsLegacy, BringsBack, CanReturn;
    var slot, u :| Stored(w.store.disk, ns, slot, u) && u.id == Minted(r) && !u.InFlight();
    StoredIsPlaced(w, ns, slot, u);
    if Current(w) == ns {
      LeaveAndReturn(w, ns, slot, u);
    } else {
      SwitchBackReturns(w, ns, slot, u);
      ReturningIsPossible(w, [Switch(ns), Reload], slot, u.id);
    }
  }

  lemma AbsentIsLost(w: World, r: nat)
    requires !InMemory(w, Minted(r)) && forall ns :: !SettledUnder(w, ns, Minted(r))
    ensures Lost(w, Minted(r))
  {
    hide Stored;
    forall slot, u | u in RowsOf(w, slot) ensures u.id != Minted(r) { assert !InSlot(w, slot, Minted(r)); }
    forall ns, slot, u | Stored(w.store.disk, ns, slot, u) && u.id == Minted(r) ensures u.InFlight() {
      assert !SettledUnder(w, ns, Minted(r));
    }
  }

  lemma LostIsAbsent(w: World, id: UploadId)
    requires Lost(w, id)
    ensures !InMemory(w, id)
  {
    hide Stored;
  }

  /** Some later run brings back an upload that an event took from its slot exactly when another workspace stores a settled row of it. */
  lemma DroppedReturnsIff(w: World, e: Event, r: nat, slot: string)
    requires Enabled(w, e) && Consistent(w) && Placed(w) && NothingUnnamed(w)
    requires r < |w.requests| && DropsFrom(w, e, slot, Minted(r)) && Consistent(Step(w, e))
    ensures CanReturn(Step(w, e), Minted(r)) <==> exists ns :: ns != Current(w) && SettledUnder(w, ns, Minted(r))
  {
    DropWrites(w, e, r, slot);
    StepIsLater(w, e);
    StepKeepsPlaced(w, e);
    StepKeepsUnnamed(w, e);
    var v := Step(w, e);
    hide Step, Enabled, Consistent, Placed, NothingUnnamed, CanReturn, SettledUnder, WriteFires, InMemory;
    CanReturnIff(v, r);
    forall ns ensures SettledUnder(v, ns, Minted(r)) <==> ns != Current(w) && SettledUnder(w, ns, Minted(r)) {
      SettledAfterDrop(w, e, r, ns);
    }
  }

  lemma SettledAfterDrop(w: World, e: Event, r: nat, ns: Namespace)
    requires Enabled(w, e) && Consistent(w) && IsUploadEvent(e) && WriteFires(w, e) && !InMemory(Step(w, e), Minted(r))
    ensures SettledUnder(Step(w, e), ns, Minted(r)) <==> ns != Current(w) && SettledUnder(w, ns, Minted(r))
  {
    assert |w.uploads.aborted| == |w.requests|;
    var v := Step(w, e);
    hide Step, Enabled, Consistent, WriteFires, Stored, InMemory;
    forall slot: string, u: DraftUpload | u.id == Minted(r)
      ensures Stored(v.store.disk, ns, slot, u) <==> ns != Current(w) && Stored(w.store.disk, ns, slot, u)
    {
      if ns == Current(w) {
        StoredIsMemory(w, e, slot, u);
        AbsentRow(v, slot, u);
      } else {
        WriteLeavesOthers(w, e, ns, slot, u);
      }
    }
  }

  lemma AbsentRow(w: World, slot: string, u: DraftUpload)
    requires !InMemory(w, u.id)
    ensures u !in RowsOf(w, slot)
  {
    assert !InSlot(w, slot, u.id);
  }

  /** With every upload in its place: exactly between a switch and its reload, if the workspace left stores a settled row. */
  lemma OwnedDropReturnsIff(w: World, e: Event, r: nat, slot: string)
    requires Enabled(w, e) && Consistent(w) && Owned(w) && NothingUnnamed(w)
    requires r < |w.requests| && DropsFrom(w, e, slot, Minted(r)) && Consistent(Step(w, e))
    ensures CanReturn(Step(w, e), Minted(r)) <==> Current(w) != w.loaded && SettledUnder(w, w.loaded, Minted(r))
  {
    OwnedIsPlaced(w);
    DroppedReturnsIff(w, e, r, slot);
    OwnedIsStoredHome(w, r, slot);
    hide Step, Enabled, Consistent, Owned, StoredUnder, SettledUnder, CanReturn, NothingUnnamed;
  }

  /** What an event took from its slot is in no memory and no storage of any later run exactly when no other workspace stores it. */
  lemma DroppedNeverReturnsIff(w: World, e: Event, r: nat, slot: string)
    requires Enabled(w, e) && Consistent(w) && Placed(w) && r < |w.requests| && DropsFrom(w, e, slot, Minted(r))
    requires Consistent(Step(w, e))
    ensures (forall events :: Possible(Step(w, e), events) ==> Gone(After(Step(w, e), events), Minted(r)))
            <==> forall ns :: ns != Current(w) ==> !StoredUnder(w, ns, Minted(r))
  {
    DroppedIsGoneIff(w, e, r, slot);
    StepIsLater(w, e);
    var v := Step(w, e);
    hide Step, Enabled, Consistent, StoredUnder, DropsFrom, Placed, Gone, Possible, After;
    GoneForeverIff(v, r);
  }

  lemma GoneForeverIff(w: World, r: nat)
    requires Consistent(w) && r < |w.requests|
    ensures (forall events :: Possible(w, events) ==> Gone(After(w, events), Minted(r))) <==> Gone(w, Minted(r))
  {
    hide Step, Enabled, Consistent, Gone, Possible, After;
    AfterNothing(w);
    if Gone(w, Minted(r)) {
      GoneIsLost(w, Minted(r));
      forall events | Possible(w, events) ensures Gone(After(w, events), Minted(r)) { LostForever(w, events, r); }
    }
  }

  // ----- which events drop -----

  /** A cleared draft, a dismissed row. */
  lemma ClearAndDismissDrop(w: World, e: Event, id: UploadId)
    requires Enabled(w, e) && Consistent(w) && (e.Clear? || (e.Dismiss? && e.id == id))
    ensures !InSlot(Step(w, e), e.slot, id)
  {
    hide WithUploads, WithDrafts, AbortedOne;
    if e.Dismiss? {
      var rows := RowsOf(w, e.slot);
      if !HasUpload(rows, id) {
        forall u | u in rows ensures u.id != id {
          var i :| 0 <= i < |rows| && rows[i] == u;
        }
      }
    }
  }

  // ----- logout -----

  /** A logout leaves an upload nowhere exactly when it lists every workspace that stores it. */
  lemma LogoutLeavesNothingIff(w: World, slugs: seq<string>, id: UploadId)
    requires Consistent(w)
    ensures Gone(Step(w, Logout(slugs)), id) <==> forall ns :: StoredUnder(w, ns, id) ==> ns.Some? && ns.value in slugs
  {
    var v := Step(w, Logout(slugs));
    LogoutWorld(w, slugs);
    GoneIsStoredNowhere(v, id);
    hide Step, Consistent, Stored, ClearedAll, StoredUnder, Gone;
    forall ns ensures StoredUnder(v, ns, id) <==> StoredUnder(w, ns, id) && !(ns.Some? && ns.value in slugs) {
      StoredAfterLogout(w, slugs, ns, id);
    }
  }

  lemma GoneIsStoredNowhere(w: World, id: UploadId)
    requires w.store.mem == EMPTY_MEMORY
    ensures Gone(w, id) <==> forall ns :: !StoredUnder(w, ns, id)
  {
    hide Stored;
    if forall ns :: !StoredUnder(w, ns, id) {
      forall ns, slot, u | Stored(w.store.disk, ns, slot, u) ensures u.id != id { assert !StoredUnder(w, ns, id); }
    }
  }

  lemma LogoutWorld(w: World, slugs: seq<string>)
    requires |w.uploads.aborted| == |w.requests|
    ensures Step(w, Logout(slugs)).store.disk == ClearedAll(w.store.disk, slugs)
    ensures Step(w, Logout(slugs)).store.mem == EMPTY_MEMORY && Step(w, Logout(slugs)).requests == w.requests
  {
    hide ClearedAll, AbortedAll;
  }

  lemma StoredAfterLogout(w: World, slugs: seq<string>, ns: Namespace, id: UploadId)
    requires |w.uploads.aborted| == |w.requests|
    ensures StoredUnder(Step(w, Logout(slugs)), ns, id) <==> StoredUnder(w, ns, id) && !(ns.Some? && ns.value in slugs)
    ensures SettledUnder(Step(w, Logout(slugs)), ns, id) <==> SettledUnder(w, ns, id) && !(ns.Some? && ns.value in slugs)
  {
    LogoutWorld(w, slugs);
    hide Step, Stored, ClearedAll;
    forall slot, u
      ensures Stored(ClearedAll(w.store.disk, slugs), ns, slot, u)
              <==> Stored(w.store.disk, ns, slot, u) && !(ns.Some? && ns.value in slugs)
    {
      if Stored(ClearedAll(w.store.disk, slugs), ns, slot, u) { StoredAfterClears(w.store.disk, slugs, ns, slot, u); }
      if Stored(w.store.disk, ns, slot, u) && !(ns.Some? && ns.value in slugs) {
        ClearsKeepOthers(w.store.disk, slugs, ns, slot, u);
      }
    }
  }

  /** After a logout an upload can come back exactly when a workspace that it does not list stores a settled row of it. */
  lemma LogoutReturnsIff(w: World, slugs: seq<string>, r: nat)
    requires Consistent(w) && Placed(w) && NothingUnnamed(w) && r < |w.requests| && Consistent(Step(w, Logout(slugs)))
    ensures CanReturn(Step(w, Logout(slugs)), Minted(r))
            <==> exists ns :: SettledUnder(w, ns, Minted(r)) && !(ns.Some? && ns.value in slugs)
  {
    var v := Step(w, Logout(slugs));
    LogoutWorld(w, slugs);
    StepKeepsPlaced(w, Logout(slugs));
    StepKeepsUnnamed(w, Logout(slugs));
    assert !InMemory(v, Minted(r));
    hide Step, Enabled, Consistent, Placed, NothingUnnamed, CanReturn, SettledUnder, InMemory, ClearedAll;
    CanReturnIff(v, r);
    forall ns ensures SettledUnder(v, ns, Minted(r)) <==> SettledUnder(w, ns, Minted(r)) && !(ns.Some? && ns.value in slugs) {
      StoredAfterLogout(w, slugs, ns, Minted(r));
    }
  }

  /** With every upload in its place: exactly when it lists the upload's workspace, or that one stores no row of it. */
  lemma OwnedLogoutLeavesNothingIff(w: World, slugs: seq<string>, r: nat)
    requires Consistent(w) && Owned(w) && r < |w.requests|
    ensures Gone(Step(w, Logout(slugs)), Minted(r))
            <==> (w.requests[r].home.Some? && w.requests[r].home.value in slugs) || !StoredUnder(w, w.requests[r].home, Minted(r))
  {
    LogoutLeavesNothingIff(w, slugs, Minted(r));
    hide Step, Consistent, Stored, Gone;
    forall ns | StoredUnder(w, ns, Minted(r)) ensures ns == w.requests[r].home {
      var slot, u :| Stored(w.store.disk, ns, slot, u) && u.id == Minted(r);
      OwnHome(w, ns, slot, u);
    }
  }

  // ----- two cleared uploads that come back, as runs -----

  /** A clear in the gap: the draft leaves memory, and switching back shows the cleared upload in its slot again. */
  lemma ClearInGapReturns(disk: Disk, a: Attachment, here: string, there: string, slot: string)
    requires Foreign(disk) && here != there && here != "" && there != "" && !IsLegacy(slot)
    ensures var run := PickRun(here, slot) + [End(0, Delivered(a), true)] + [Switch(Some(there))] + [Clear(slot)];
            && Consistent(Initial(disk)) && Possible(Initial(disk), run)
            && !InSlot(After(Initial(disk), run), slot, Minted(0))
            && BringsBack(After(Initial(disk), run), [Switch(Some(here)), Reload], slot, Minted(0))
  {
    PickRunPicks(disk, here, slot);
    hide Initial, PickRun, Stored, IsLegacy, Possible, After, Picked, Completed, BringsBack;
    var w0, run := Initial(disk), PickRun(here, slot);
    var end := End(0, Delivered(a), true);
    var picked := After(w0, run);
    PickCompletes(picked, a, here, slot);
    AfterThen(w0, run, end);
    var completed := Step(picked, end);
    ClearedAway(completed, here, there, slot);
    AfterThen(w0, run + [end], Switch(Some(there)));
    AfterThen(w0, run + [end] + [Switch(Some(there))], Clear(slot));
  }

  lemma ClearedAway(w: World, here: string, there: string, slot: string)
    requires Completed(w, here, slot) && here != there && here != "" && there != "" && !IsLegacy(slot)
    ensures Consistent(w) && Enabled(w, Switch(Some(there)))
    ensures var v := Step(w, Switch(Some(there)));
            && Consistent(v) && Enabled(v, Clear(slot))
            && !InSlot(Step(v, Clear(slot)), slot, Minted(0))
            && BringsBack(Step(v, Clear(slot)), [Switch(Some(here)), Reload], slot, Minted(0))
  {
    SwitchedAway(w, there);
    var v := Step(w, Switch(Some(there)));
    hide Stored, IsLegacy, BringsBack, Consistent, Owned, Step;
    assert InSlot(v, slot, Minted(0)) && SettledUnder(v, v.loaded, Minted(0));
    assert Enabled(v, Clear(slot));
    ClearAndDismissDrop(v, Clear(slot), Minted(0));
    StepKeepsConsistent(v, Clear(slot));
    ClearBringsBack(v, Some(here), slot, 0);
  }

  lemma ClearBringsBack(w: World, ns: Namespace, slot: string, r: nat)
    requires Consistent(w) && Placed(w) && r < |w.requests| && InSlot(w, slot, Minted(r)) && !IsLegacy(slot)
    requires Current(w) != ns && ns != Some("") && SettledUnder(w, ns, Minted(r)) && Enabled(w, Clear(slot))
    ensures BringsBack(Step(w, Clear(slot)), [Switch(ns), Reload], slot, Minted(r))
  {
    var e := Clear(slot);
    assert |w.uploads.aborted| == |w.requests|;
    ClearAndDismissDrop(w, e, Minted(r));
    var held :| held in RowsOf(w, slot) && held.id == Minted(r);
    assert IsPlaced(w, slot, held);
    hide Step, Stored, Enabled, IsLegacy, Consistent, Placed, BringsBack;
    StepStays(w, e);
    StepKeepsConsistent(w, e);
    var at, u :| Stored(w.store.disk, ns, at, u) && u.id == Minted(r) && !u.InFlight();
    StoredIsPlaced(w, ns, at, u);
    WriteLeavesOthers(w, e, ns, at, u);
    SwitchBackReturns(Step(w, e), ns, at, u);
  }

  /** The run of a clear with memory that of the current workspace. */
  ghost function ClearRun(here: string, there: string, slot: string, other: string, a: Attachment, b: Attachment): seq<Event> {
    PickRun(here, slot) + [End(0, Delivered(a), true)] + [Switch(Some(there))] + [Attach(other, b)] + [Switch(Some(here))]
  }

  /**
   An attachment added to another slot between a switch and its reload stores the upload in both workspaces. Cleared
   then in its own workspace, with memory that of this workspace, it comes back from the other one.
   */
  lemma ClearAtHomeReturns(disk: Disk, a: Attachment, b: Attachment, here: string, there: string, slot: string, other: string)
    requires Foreign(disk) && here != there && here != "" && there != "" && !IsLegacy(slot) && other != slot && b.id != ""
    ensures var run := ClearRun(here, there, slot, other, a, b);
            && Consistent(Initial(disk)) && Possible(Initial(disk), run)
            && var w := After(Initial(disk), run);
            && Current(w) == w.loaded == Some(here) && |w.uploads.aborted| == |w.requests| && Enabled(w, Clear(slot))
            && InSlot(w, slot, Minted(0)) && !InSlot(Step(w, Clear(slot)), slot, Minted(0))
            && BringsBack(Step(w, Clear(slot)), [Switch(Some(there)), Reload], slot, Minted(0))
  {
    hide *;
    var w0, run, end := Initial(disk), PickRun(here, slot), End(0, Delivered(a), true);
    PickRunPicks(disk, here, slot);
    var picked := After(w0, run);
    PickCompletes(picked, a, here, slot);
    AfterThen(w0, run, end);
    var completed := Step(picked, end);
    CompletedSwitches(completed, here, there, slot);
    AfterThen(w0, run + [end], Switch(Some(there)));
    var away := Step(completed, Switch(Some(there)));
    AttachStoresTwice(away, here, there, slot, other, b);
    AfterThen(w0, run + [end] + [Switch(Some(there))], Attach(other, b));
    var twice := Step(away, Attach(other, b));
    TwiceSwitchesBack(twice, here, there, slot);
    AfterThen(w0, run + [end] + [Switch(Some(there))] + [Attach(other, b)], Switch(Some(here)));
    ClearRunIs(here, there, slot, other, a, b);
    TwiceReturns(Step(twice, Switch(Some(here))), here, there, slot);
  }

  lemma ClearRunIs(here: string, there: string, slot: string, other: string, a: Attachment, b: Attachment)
    ensures ClearRun(here, there, slot, other, a, b)
         == PickRun(here, slot) + [End(0, Delivered(a), true)] + [Switch(Some(there))] + [Attach(other, b)] + [Switch(Some(here))]
  {
  }

  /** The completed upload in memory, with the slug switched. */
  ghost predicate Away(w: World, here: string, there: string, slot: string) {
    && Consistent(w) && Placed(w)
    && w.requests == [Request(slot, Some(here), true)]
    && w.store.slug == Some(there) && w.loaded == Some(here) && HasSettled(w, slot, Minted(0))
  }

  /** Stored under the other workspace as well. */
  ghost predicate Twice(w: World, here: string, there: string, slot: string, slug: string) {
    && Consistent(w) && Placed(w)
    && w.requests == [Request(slot, Some(here), true)]
    && w.store.slug == Some(slug) && w.loaded == Some(here)
    && InSlot(w, slot, Minted(0)) && SettledUnder(w, Some(there), Minted(0))
  }

  lemma CompletedSwitches(w: World, here: string, there: string, slot: string)
    requires Completed(w, here, slot) && here != there && here != "" && there != ""
    ensures Consistent(w) && |w.uploads.aborted| == |w.requests| && Enabled(w, Switch(Some(there)))
    ensures Away(Step(w, Switch(Some(there))), here, there, slot)
  {
    assert |w.uploads.aborted| == |w.requests|;
    SwitchedAway(w, there);
    SwitchedWorld(w, there);
    OwnedIsPlaced(Step(w, Switch(Some(there))));
    hide Step, Enabled, Consistent, Owned, Placed, SettledUnder;
  }

  lemma AttachStoresTwice(w: World, here: string, there: string, slot: string, other: string, b: Attachment)
    requires Away(w, here, there, slot) && here != there && there != "" && other != slot && b.id != ""
    ensures Consistent(w) && |w.uploads.aborted| == |w.requests| && Enabled(w, Attach(other, b))
    ensures Twice(Step(w, Attach(other, b)), here, there, slot, there)
  {
    var e := Attach(other, b);
    assert |w.uploads.aborted| == |w.requests|;
    AttachFires(w, e, slot);
    var held :| held in RowsOf(w, slot) && held.id == Minted(0) && !held.InFlight();
    assert !Drops(w, e, slot, held);
    StepKeepsConsistent(w, e);
    StepKeepsPlaced(w, e);
    hide Step, Enabled, Consistent, Placed, Drops, SettledUnder, WriteFires;
    WriteSettles(w, e, 0);
    RowAfter(w, e, slot, held);
  }

  lemma AttachFires(w: World, e: Event, slot: string)
    requires Consistent(w) && e.Attach? && e.attachment.id != ""
    ensures Enabled(w, e) && |w.uploads.aborted| == |w.requests| && WriteFires(w, e)
    ensures Step(w, e).requests == w.requests && Step(w, e).loaded == w.loaded && Step(w, e).store.slug == w.store.slug
  {
    hide WithUploads, ReplaceHolders, HoldsAny;
  }

  lemma TwiceSwitchesBack(w: World, here: string, there: string, slot: string)
    requires Twice(w, here, there, slot, there) && here != there && here != ""
    ensures Consistent(w) && |w.uploads.aborted| == |w.requests| && Enabled(w, Switch(Some(here)))
    ensures Twice(Step(w, Switch(Some(here))), here, there, slot, here)
  {
    assert |w.uploads.aborted| == |w.requests|;
    SwitchedWorld(w, here);
    StepKeepsConsistent(w, Switch(Some(here)));
    StepKeepsPlaced(w, Switch(Some(here)));
    StoredUploadLeavesIff(w, Switch(Some(here)), Some(there), 0);
    hide Step, Enabled, Consistent, Placed, SettledUnder;
  }

  lemma TwiceReturns(w: World, here: string, there: string, slot: string)
    requires Twice(w, here, there, slot, here) && here != there && here != "" && there != ""
    ensures Consistent(w) && |w.uploads.aborted| == |w.requests| && Enabled(w, Clear(slot))
    ensures Current(w) == w.loaded == Some(here) && InSlot(w, slot, Minted(0))
    ensures !InSlot(Step(w, Clear(slot)), slot, Minted(0))
    ensures BringsBack(Step(w, Clear(slot)), [Switch(Some(there)), Reload], slot, Minted(0))
  {
    assert |w.uploads.aborted| == |w.requests|;
    assert Enabled(w, Clear(slot)) && !IsLegacy(w.requests[0].slot);
    ClearAndDismissDrop(w, Clear(slot), Minted(0));
    hide Step, Enabled, Consistent, Placed, SettledUnder, BringsBack, IsLegacy;
    ClearBringsBack(w, Some(there), slot, 0);
  }
}
