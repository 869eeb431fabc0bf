/** What every run keeps of the coordinator's bookkeeping and of storage mirroring memory. */
module DraftMirror {
  import opened Wrappers
  import opened DraftUploads
  import opened DraftStorage
  import opened ChatStore
  import opened UploadCoordinator
  import opened DraftProtocol

  // ----- the coordinator tracks exactly the requests that can still be aborted -----

  ghost predicate Tracks(w: World) {
    && |w.uploads.aborted| == |w.requests|
    && (forall id :: id in w.uploads.controllers <==> IsLive(w, id))
    && (forall id :: id in w.uploads.controllers && id.Minted? ==> w.uploads.controllers[id] == id.n)
  }

  /** In flight and not aborted. */
  ghost predicate IsLive(w: World, id: UploadId) {
    id.Minted? && id.n < |w.requests| && id.n < |w.uploads.aborted| && !w.requests[id.n].done && !w.uploads.aborted[id.n]
  }

  lemma StepKeepsTracks(w: World, e: Event)
    requires Enabled(w, e) && Tracks(w)
    ensures Tracks(Step(w, e))
    ensures e.Logout? ==> forall id :: !IsLive(Step(w, e), id)
  {
    StepUploads(w, e);
    hide Step, Enabled;
    if e.Logout? {
      AllAborted(w, Step(w, e));
    } else if e.Restart? {
      assert forall id :: !IsLive(Step(w, e), id);
    } else if e.Pick? {
      StartedIsTracked(w, Step(w, e));
    } else if e.End? {
      EndedIsUntracked(w, Step(w, e), e.request);
    } else if Step(w, e).uploads != w.uploads {
      var id :| Step(w, e).uploads == AbortedOne(w.uploads, id);
      AbortedIsUntracked(w, Step(w, e), id);
    } else {
      SameIsTracked(w, Step(w, e));
    }
  }

  lemma SameIsTracked(w: World, v: World)
    requires Tracks(w) && v.uploads == w.uploads && v.requests == w.requests
    ensures Tracks(v)
  {
    forall id ensures IsLive(v, id) <==> IsLive(w, id) {}
  }

  lemma AllAborted(w: World, v: World)
    requires Tracks(w) && v.uploads == AbortedAll(w.uploads) && v.requests == w.requests
    ensures Tracks(v) && forall id :: !IsLive(v, id)
  {
    forall id ensures !IsLive(v, id) {
      if IsLive(w, id) { assert w.uploads.controllers[id] == id.n && id.n in w.uploads.controllers.Values; }
    }
  }

  lemma StartedIsTracked(w: World, v: World)
    requires Tracks(w) && v.uploads == Started(w.uploads, Minted(|w.requests|))
    requires |v.requests| == |w.requests| + 1 && v.requests[..|w.requests|] == w.requests && !v.requests[|w.requests|].done
    ensures Tracks(v)
  {
    forall id ensures IsLive(v, id) <==> IsLive(w, id) || id == Minted(|w.requests|) {
      if id.Minted? && id.n < |w.requests| { assert v.requests[id.n] == w.requests[id.n]; }
    }
  }

  lemma EndedIsUntracked(w: World, v: World, r: nat)
    requires Tracks(w) && r < |w.requests|
    requires v.uploads == Finished(w.uploads, Minted(r), r) && v.requests == w.requests[r := w.requests[r].(done := true)]
    ensures Tracks(v)
  {
    forall id ensures IsLive(v, id) <==> IsLive(w, id) && id != Minted(r) {}
    forall id ensures id in v.uploads.controllers <==> id in w.uploads.controllers && id != Minted(r) {
      assert Minted(r) in w.uploads.controllers ==> w.uploads.controllers[Minted(r)] == r;
    }
  }

  lemma AbortedIsUntracked(w: World, v: World, id: UploadId)
    requires Tracks(w) && v.uploads == AbortedOne(w.uploads, id) && v.requests == w.requests
    ensures Tracks(v)
  {
    if id in w.uploads.controllers {
      assert IsLive(w, id) && w.uploads.controllers[id] == id.n;
    }
    forall other ensures IsLive(v, other) <==> IsLive(w, other) && (id in w.uploads.controllers ==> other != id) {}
  }

  /** What an event does to the coordinator and the requests. */
  lemma StepUploads(w: World, e: Event)
    requires Enabled(w, e) && |w.uploads.aborted| == |w.requests|
    ensures var v := Step(w, e);
            if e.Pick? then
              v.uploads == Started(w.uploads, Minted(|w.requests|)) && v.requests == w.requests + [Request(e.slot, w.loaded, false)]
            else if e.End? then
              v.uploads == Finished(w.uploads, Minted(e.request), e.request)
              && e.request < |w.requests| && v.requests == w.requests[e.request := w.requests[e.request].(done := true)]
            else if e.Restart? then
              v.uploads == Coordinator(map[], w.uploads.aborted) && v.requests == AllDone(w.requests)
            else if e.Logout? then v.uploads == AbortedAll(w.uploads) && v.requests == w.requests
            else
              (v.uploads == w.uploads || exists id :: v.uploads == AbortedOne(w.uploads, id)) && v.requests == w.requests
  {
    hide Received, Load, AddUpload, RemoveUpload, ClearedAll, Cleared, SetDraft, AppendDraft, SetUploads, AddAttachment, ClearDraft;
    hide MarkApplied, ForgetApplied, EnqueueRestore, DequeueRestore, SelectAgent, SwitchSlug, Reloaded, LoggedOut, OutcomeOf, At, IsLegacy;
    hide AbortedOne, AbortedAll, Started, Finished;
  }

  // ----- storage mirrors memory in every reachable state -----

  /** Nothing but empty texts and rows no load keeps. */
  ghost predicate NothingReadable(disk: Disk, ns: Namespace) {
    && Pruned(DraftsAt(disk, ns)) == map[]
    && UploadsAt(disk, ns) == map[]
    && AppliedAt(disk, ns) == []
    && RestoresAt(disk, ns) == map[]
  }

  ghost predicate SameDraftsAt(a: Disk, b: Disk, ns: Namespace) {
    && DraftsAt(a, ns) == DraftsAt(b, ns) && UploadsAt(a, ns) == UploadsAt(b, ns)
    && AppliedAt(a, ns) == AppliedAt(b, ns) && RestoresAt(a, ns) == RestoresAt(b, ns)
  }

  lemma ValueAfterRemoval<T>(blobs: map<Namespace, Blob<T>>, gone: Namespace, ns: Namespace, empty: T)
    ensures ValueAt(blobs - {gone}, ns, empty) == if ns == gone then empty else ValueAt(blobs, ns, empty)
  {
  }

  lemma ClearedReads(disk: Disk, doomed: string, ns: Namespace)
    ensures if ns == Some(doomed)
            then DraftsAt(Cleared(disk, doomed), ns) == map[] && NothingReadable(Cleared(disk, doomed), ns)
            else SameDraftsAt(Cleared(disk, doomed), disk, ns)
  {
    hide UploadsOf, QueuesOf, ValueAt, Somes, Pruned;
    ValueAfterRemoval(disk.drafts, Some(doomed), ns, map[]);
    ValueAfterRemoval(disk.attachments, Some(doomed), ns, map[]);
    ValueAfterRemoval(disk.applied, Some(doomed), ns, []);
    ValueAfterRemoval(disk.restores, Some(doomed), ns, map[]);
    NothingIsRead();
  }

  lemma NothingIsRead()
    ensures UploadsOf(map[]) == map[] && QueuesOf(map[]) == map[]
    ensures Somes<string>([]) == [] && Pruned<char>(map[]) == map[]
  {
  }

  lemma {:induction false} ClearedAllReads(disk: Disk, slugs: seq<string>, ns: Namespace)
    ensures if ns.Some? && ns.value in slugs
            then DraftsAt(ClearedAll(disk, slugs), ns) == map[] && NothingReadable(ClearedAll(disk, slugs), ns)
            else SameDraftsAt(ClearedAll(disk, slugs), disk, ns)
  {
    hide UploadsOf, QueuesOf, Cleared, NothingReadable;
    if slugs != [] {
      var front, last := slugs[..|slugs| - 1], slugs[|slugs| - 1];
      assert slugs == front + [last];
      ClearedAllReads(disk, front, ns);
      ClearedReads(ClearedAll(disk, front), last, ns);
      if ns != Some(last) && ns.Some? && ns.value in front { SameReadsNothing(ClearedAll(disk, front), ClearedAll(disk, slugs), ns); }
    }
  }

  lemma SameReadsNothing(a: Disk, b: Disk, ns: Namespace)
    requires SameDraftsAt(a, b, ns) || SameDraftsAt(b, a, ns)
    ensures NothingReadable(a, ns) <==> NothingReadable(b, ns)
  {
  }

  /** After a logout storage mirrors the emptied memory exactly when the current workspace was cleared or held nothing. */
  lemma LogoutMirrorsIff(s: Store, slugs: seq<string>)
    ensures var ns := NamespaceOf(s.slug);
            Mirrors(LoggedOut(s, slugs)) <==> (ns.Some? && ns.value in slugs) || NothingReadable(s.disk, ns)
  {
    var ns := NamespaceOf(s.slug);
    ClearedAllReads(s.disk, slugs, ns);
    MirrorsEmpty(LoggedOut(s, slugs));
    hide Mirrors, NothingReadable, SameDraftsAt;
    if !(ns.Some? && ns.value in slugs) { SameReadsNothing(ClearedAll(s.disk, slugs), s.disk, ns); }
  }

  lemma MirrorsEmpty(s: Store)
    requires s.mem == EMPTY_MEMORY
    ensures Mirrors(s) <==> NothingReadable(s.disk, NamespaceOf(s.slug))
  {
    assert Pruned<char>(map[]) == map[];
    assert SettledSlots(map[]) == map[];
    assert PlainQueues(map[]) == map[];
  }

  /** After the removal of a workspace's storage, exactly when it is not the current one or nothing was stored there. */
  lemma DeleteMirrorsIff(s: Store, doomed: string)
    requires Mirrors(s)
    ensures var ns := NamespaceOf(s.slug);
            Mirrors(s.(disk := Cleared(s.disk, doomed))) <==> ns != Some(doomed) || NothingReadable(s.disk, ns)
  {
    hide UploadsOf, QueuesOf, Cleared, Pruned, SettledSlots, PlainQueues, Somes;
    ClearedReads(s.disk, doomed, NamespaceOf(s.slug));
  }

  /** Removing storage leaves memory and storage in step. */
  ghost predicate Tidy(w: World, e: Event) {
    match e
    case Logout(slugs) => (Current(w).Some? && Current(w).value in slugs) || NothingReadable(w.store.disk, Current(w))
    case DeleteWorkspace(doomed) => Current(w) != Some(doomed) || NothingReadable(w.store.disk, Current(w))
    case _ => true
  }

  /** Whenever no reload is pending, the keys of the current workspace read back as the maps in memory. */
  ghost predicate InStep(w: World) {
    !w.store.reloadPending ==> Mirrors(w.store) && Current(w) == w.loaded
  }

  lemma StepKeepsInStep(w: World, e: Event)
    requires Enabled(w, e) && Consistent(w) && InStep(w)
    ensures InStep(Step(w, e)) <==> w.store.reloadPending || Tidy(w, e)
  {
    if e.Logout? || e.DeleteWorkspace? {
      RemovalsInStep(w, e);
    } else if e.Reload? || e.Restart? {
      ReloadsInStep(w, e);
    } else {
      StepIsShaped(w, e);
      StepLoads(w, e);
      hide Step, Enabled, Consistent, Stored, Shaped, Mirrors, NothingReadable;
      OthersKeepMirror(w.store, e, Step(w, e).store);
    }
  }

  lemma RemovalsInStep(w: World, e: Event)
    requires Enabled(w, e) && |w.uploads.aborted| == |w.requests| && InStep(w) && (e.Logout? || e.DeleteWorkspace?)
    ensures InStep(Step(w, e)) <==> w.store.reloadPending || Tidy(w, e)
  {
    if e.Logout? { LogoutInStep(w, e.slugs); } else { DeleteInStep(w, e.doomed); }
  }

  lemma LogoutInStep(w: World, slugs: seq<string>)
    requires |w.uploads.aborted| == |w.requests| && InStep(w)
    ensures InStep(Step(w, Logout(slugs))) <==> w.store.reloadPending || Tidy(w, Logout(slugs))
  {
    LogoutMirrorsIff(w.store, slugs);
    hide Mirrors, NothingReadable, ClearedAll, AbortedAll;
  }

  lemma DeleteInStep(w: World, doomed: string)
    requires |w.uploads.aborted| == |w.requests| && InStep(w)
    ensures InStep(Step(w, DeleteWorkspace(doomed))) <==> w.store.reloadPending || Tidy(w, DeleteWorkspace(doomed))
  {
    if !w.store.reloadPending { DeleteMirrorsIff(w.store, doomed); }
    hide Mirrors, NothingReadable, Cleared;
  }

  lemma ReloadsInStep(w: World, e: Event)
    requires Enabled(w, e) && |w.uploads.aborted| == |w.requests| && (e.Reload? || e.Restart?)
    ensures InStep(Step(w, e))
  {
    if e.Reload? { ReloadMirrors(w.store); } else { ReloadMirrors(Store(None, false, w.store.disk, EMPTY_MEMORY)); }
    hide Mirrors, Load;
  }

  /** Every other event keeps the mirror, and leaves no reload pending that was not, unless it switches. */
  lemma OthersKeepMirror(s: Store, e: Event, t: Store)
    requires Shaped(s, e, t)
    ensures s.reloadPending ==> t.reloadPending
    ensures !s.reloadPending && Mirrors(s) && !t.reloadPending ==> Mirrors(t) && t.slug == s.slug
  {
    hide Mirrors, Shaped, SwitchSlug;
    if e.Switch? {
      SwitchIsShaped(s, e, t);
    } else {
      ShapedStays(s, e, t);
      if Mirrors(s) { OneWriteKeepsMirror(s, e, t); }
    }
  }

  lemma SwitchIsShaped(s: Store, e: Event, t: Store)
    requires Shaped(s, e, t) && e.Switch?
    ensures t == s || t.reloadPending
  {
  }

  lemma ShapedStays(s: Store, e: Event, t: Store)
    requires Shaped(s, e, t) && !e.Switch?
    ensures SamePlace(s, t)
  {
    WritesStay(s, t.mem);
    if e.ChooseAgent? { AgentIsNoDraft(s, e.agent); }
    hide PersistDrafts, PersistUploads, PersistApplied, PersistRestores, SelectAgent;
  }

  lemma OneWriteKeepsMirror(s: Store, e: Event, t: Store)
    requires Shaped(s, e, t) && Mirrors(s) && !e.Switch?
    ensures Mirrors(t)
  {
    hide Mirrors, PersistDrafts, PersistUploads, PersistApplied, PersistRestores, SelectAgent;
    if e.ChooseAgent? { AgentIsNoDraft(s, e.agent); }
    WritesKeepMirror(s, t.mem);
    if e.Clear? { WritesKeepMirror(PersistDrafts(s, t.mem.drafts), t.mem); }
  }

  ghost predicate SamePlace(s: Store, t: Store) {
    t.slug == s.slug && t.reloadPending == s.reloadPending
  }

  lemma WritesStay(s: Store, next: Memory)
    ensures SamePlace(s, PersistDrafts(s, next.drafts)) && SamePlace(s, PersistUploads(s, next.attachments))
    ensures SamePlace(s, PersistApplied(s, next.applied)) && SamePlace(s, PersistRestores(s, next.restores))
    ensures SamePlace(s, PersistUploads(PersistDrafts(s, next.drafts), next.attachments))
  {
    hide WithDrafts, WithUploads, WithApplied, WithRestores;
  }

  lemma AgentIsNoDraft(s: Store, agent: string)
    ensures SamePlace(s, SelectAgent(s, agent))
    ensures Mirrors(s) ==> Mirrors(SelectAgent(s, agent))
  {
  }

  // ----- whole runs -----

  /** Storage is only removed in step with memory, or while a reload is pending anyway. */
  ghost predicate AllTidy(w: World, events: seq<Event>)
    requires Consistent(w) && Possible(w, events)
    decreases |events|
  {
    events == []
    || ((w.store.reloadPending || Tidy(w, events[0]))
        && (StepKeepsConsistent(w, events[0]); AllTidy(Step(w, events[0]), events[1..])))
  }

  lemma {:induction false} RunMirrors(w: World, events: seq<Event>)
    requires Consistent(w) && Possible(w, events) && AllTidy(w, events) && InStep(w)
    ensures InStep(After(w, events))
    decreases |events|
  {
    assert |w.uploads.aborted| == |w.requests|;
    hide Step, Enabled, Tidy, Consistent, InStep;
    if events != [] {
      StepKeepsConsistent(w, events[0]);
      StepKeepsInStep(w, events[0]);
      RunMirrors(Step(w, events[0]), events[1..]);
    }
  }

  /** At every moment of the run, storage mirrors memory unless a reload is pending. */
  ghost predicate AlwaysInStep(w: World, events: seq<Event>)
    requires Consistent(w) && Possible(w, events)
    decreases |events|
  {
    InStep(w) && (events != [] ==> (StepKeepsConsistent(w, events[0]); AlwaysInStep(Step(w, events[0]), events[1..])))
  }

  /** Storage stays in step throughout a run exactly if it is only removed in step, or while a reload is pending. */
  lemma {:induction false} RunInStepIff(w: World, events: seq<Event>)
    requires Consistent(w) && Possible(w, events) && InStep(w)
    ensures AlwaysInStep(w, events) <==> AllTidy(w, events)
    decreases |events|
  {
    assert |w.uploads.aborted| == |w.requests|;
    hide Step, Enabled, Tidy, Consistent, InStep;
    if events != [] {
      StepKeepsConsistent(w, events[0]);
      StepKeepsInStep(w, events[0]);
      if InStep(Step(w, events[0])) {
        RunInStepIff(Step(w, events[0]), events[1..]);
      } else {
        OutOfStepNow(Step(w, events[0]), events[1..]);
      }
    }
  }

  lemma OutOfStepNow(w: World, events: seq<Event>)
    requires Consistent(w) && Possible(w, events) && !InStep(w)
    ensures !AlwaysInStep(w, events)
  {
  }

  lemma {:induction false} RunTracks(w: World, events: seq<Event>)
    requires Consistent(w) && Possible(w, events) && Tracks(w)
    ensures Tracks(After(w, events))
    decreases |events|
  {
    assert |w.uploads.aborted| == |w.requests|;
    hide Step, Enabled, Consistent, Tracks;
    if events != [] {
      StepKeepsConsistent(w, events[0]);
      StepKeepsTracks(w, events[0]);
      RunTracks(Step(w, events[0]), events[1..]);
    }
  }

  /**
   In every state reachable from any storage, with storage removed only in step with memory, the keys read back as
   the maps in memory, and the coordinator tracks exactly the requests in flight and not aborted.
   */
  lemma ReachableStates(disk: Disk, events: seq<Event>)
    requires Foreign(disk) && Consistent(Initial(disk)) && Possible(Initial(disk), events) && AllTidy(Initial(disk), events)
    ensures InStep(After(Initial(disk), events)) && Tracks(After(Initial(disk), events))
  {
    ReloadMirrors(Store(None, false, disk, EMPTY_MEMORY));
    assert Tracks(Initial(disk));
    assert InStep(Initial(disk));
    RunMirrors(Initial(disk), events);
    RunTracks(Initial(disk), events);
  }

  /** A text kept while no workspace is active stays under the bare key, whatever workspaces a logout lists. */
  lemma LogoutMissesBareKeys(disk: Disk, slot: string, text: string, slugs: seq<string>)
    requires Foreign(disk) && text != ""
    ensures var run := [SetText(slot, text), Logout(slugs)];
            && Consistent(Initial(disk)) && Possible(Initial(disk), run) && !InStep(After(Initial(disk), run))
  {
    var w := Initial(disk);
    InitialIsGood(disk);
    TextStep(w, slot, text);
    TextIsReadable(w, slot, text);
    var v := Step(w, SetText(slot, text));
    LogoutMirrorsIff(v.store, slugs);
    LogoutStep(v, slugs);
    hide *;
    AfterTwo(w, SetText(slot, text), Logout(slugs));
  }

  lemma TextStep(w: World, slot: string, text: string)
    requires |w.uploads.aborted| == |w.requests|
    ensures Enabled(w, SetText(slot, text))
    ensures var v := Step(w, SetText(slot, text));
            && |v.uploads.aborted| == |v.requests| && Enabled(v, Logout([]))
            && v.store.slug == w.store.slug && v.store.reloadPending == w.store.reloadPending
  {
    hide WithDrafts;
  }

  lemma LogoutStep(v: World, slugs: seq<string>)
    requires |v.uploads.aborted| == |v.requests| && !v.store.reloadPending
    ensures Enabled(v, Logout(slugs))
    ensures InStep(Step(v, Logout(slugs))) ==> Mirrors(LoggedOut(v.store, slugs))
  {
    hide Mirrors, ClearedAll;
  }

  lemma TextIsReadable(w: World, slot: string, text: string)
    requires |w.uploads.aborted| == |w.requests| && text != ""
    ensures !NothingReadable(Step(w, SetText(slot, text)).store.disk, Current(w))
  {
    var drafts := w.store.mem.drafts[slot := text];
    assert slot in Pruned(drafts);
    DraftsReadBack(w.store.disk, Current(w), drafts);
    assert slot in Pruned(DraftsAt(WithDrafts(w.store.disk, Current(w), drafts), Current(w)));
  }

  // ----- what the next load of a reachable state returns -----

  /** The event writes to the slots in use today: sessions and the unified new chat. */
  ghost predicate Modern(e: Event) {
    match e
    case SetText(slot, _) => !IsLegacy(slot)
    case AppendText(slot, _) => !IsLegacy(slot)
    case SetList(slot, _) => !IsLegacy(slot)
    case Attach(slot, _) => !IsLegacy(slot)
    case _ => true
  }

  /** No legacy slot in memory, nor among the texts that a load would read. */
  ghost predicate NoLegacy(w: World) {
    && !HasLegacy(w.store.mem.drafts) && !HasLegacy(w.store.mem.attachments)
    && (!w.store.reloadPending ==> !HasLegacy(DraftsAt(w.store.disk, Current(w))))
  }

  lemma AttachmentKeys(w: World, e: Event, k: string)
    requires Enabled(w, e) && Consistent(w) && !IsReset(e) && k in Step(w, e).store.mem.attachments
    ensures k in w.store.mem.attachments || ((e.Pick? || e.SetList? || e.Attach?) && k == e.slot)
  {
    if IsUploadEvent(e) {
      UploadKeys(w, e, k);
    } else {
      OthersKeepUploads(w, e);
      hide Step, Enabled, Consistent;
    }
  }

  lemma UploadKeys(w: World, e: Event, k: string)
    requires Enabled(w, e) && |w.uploads.aborted| == |w.requests| && IsUploadEvent(e) && k in Step(w, e).store.mem.attachments
    ensures k in w.store.mem.attachments || ((e.Pick? || e.SetList? || e.Attach?) && k == e.slot)
  {
    if e.Clear? {
      hide PersistDrafts, WithUploads;
    } else if e.End? {
      OutcomeKeys(w.store, w.requests[e.request].slot, EndedOutcome(w, e.request, e.response), e.keepFailed, k);
      hide Received, Finished, OutcomeOf;
    } else {
      PersistRemembers(w.store);
      hide PersistUploads, AbortedOne, Started, IsLegacy, ReplaceHolders, WithoutUpload, HasUpload, HoldsAny;
    }
  }

  lemma OutcomeKeys(s: Store, slot: string, outcome: Option<Outcome>, keepFailed: bool, k: string)
    requires k in Received(s, slot, outcome, keepFailed).mem.attachments
    ensures k in s.mem.attachments
  {
    hide WithUploads;
  }

  lemma DraftKeys(w: World, e: Event, k: string)
    requires Enabled(w, e) && Consistent(w) && !IsReset(e) && k in Step(w, e).store.mem.drafts
    ensures k in w.store.mem.drafts || ((e.SetText? || e.AppendText?) && k == e.slot)
  {
    hide WithUploads, WithDrafts, AbortedOne, Started, Finished, IsLegacy, OutcomeOf, Stored, Appended, At;
  }

  lemma StoredTexts(w: World, e: Event)
    requires Enabled(w, e) && Consistent(w) && !IsReset(e)
    ensures Step(w, e).store.disk.drafts == w.store.disk.drafts
            || DraftsAt(Step(w, e).store.disk, Current(w)) == Pruned(Step(w, e).store.mem.drafts)
    ensures !Step(w, e).store.reloadPending ==> !w.store.reloadPending && Current(Step(w, e)) == Current(w)
  {
    StepIsShaped(w, e);
    hide Step, Enabled, Consistent, Shaped;
    TextsAfter(w.store, e, Step(w, e).store);
  }

  lemma TextsAfter(s: Store, e: Event, t: Store)
    requires Shaped(s, e, t)
    ensures var ns := NamespaceOf(s.slug);
            t.disk.drafts == s.disk.drafts || DraftsAt(t.disk, ns) == Pruned(t.mem.drafts)
    ensures !t.reloadPending ==> !s.reloadPending && t.slug == s.slug
  {
    DraftsReadBack(s.disk, NamespaceOf(s.slug), t.mem.drafts);
    UploadsKeepTexts(PersistDrafts(s, t.mem.drafts), t.mem.attachments);
    UploadsKeepTexts(s, t.mem.attachments);
    OtherKeepTexts(s, t.mem.applied, t.mem.restores);
    hide Pruned, PersistUploads, PersistApplied, PersistRestores, ValueAt, WithDrafts;
  }

  ghost predicate KeepsTexts(s: Store, t: Store) {
    t.disk.drafts == s.disk.drafts && t.slug == s.slug && t.reloadPending == s.reloadPending
  }

  lemma UploadsKeepTexts(s: Store, next: map<string, seq<DraftUpload>>)
    ensures KeepsTexts(s, PersistUploads(s, next))
  {
  }

  lemma OtherKeepTexts(s: Store, applied: seq<string>, restores: map<string, seq<SendRestore>>)
    ensures KeepsTexts(s, PersistApplied(s, applied)) && KeepsTexts(s, PersistRestores(s, restores))
  {
  }

  lemma StepKeepsNoLegacy(w: World, e: Event)
    requires Enabled(w, e) && Consistent(w) && NoLegacy(w) && Modern(e)
    ensures NoLegacy(Step(w, e))
  {
    if !IsReset(e) {
      OthersKeepNoLegacy(w, e);
    } else if e.Reload? || e.Restart? {
      ReloadsKeepNoLegacy(w, e);
    } else {
      if e.Logout? { ClearedAllReads(w.store.disk, e.slugs, Current(w)); } else { ClearedReads(w.store.disk, e.doomed, Current(w)); }
      hide NothingReadable, Cleared, ClearedAll, ValueAt, IsLegacy, Stored, AbortedAll;
    }
  }

  lemma ReloadsKeepNoLegacy(w: World, e: Event)
    requires Enabled(w, e) && |w.uploads.aborted| == |w.requests| && (e.Reload? || e.Restart?)
    ensures NoLegacy(Step(w, e))
  {
    if e.Reload? {
      LoadFoldsLegacySlots(w.store.disk, Current(w), AgentAt(w.store.disk, Current(w)));
    } else {
      LoadFoldsLegacySlots(w.store.disk, None, AgentAt(w.store.disk, None));
    }
    hide HasLegacy, Load;
  }

  lemma OthersKeepNoLegacy(w: World, e: Event)
    requires Enabled(w, e) && Consistent(w) && NoLegacy(w) && Modern(e) && !IsReset(e)
    ensures NoLegacy(Step(w, e))
  {
    var v := Step(w, e);
    StoredTexts(w, e);
    hide Step, IsLegacy, Stored;
    forall k | k in v.store.mem.attachments ensures !IsLegacy(k) { AttachmentKeys(w, e, k); }
    forall k | k in v.store.mem.drafts ensures !IsLegacy(k) { DraftKeys(w, e, k); }
  }

  /** A load then writes nothing and returns the memory less empty texts and uploads in flight, whichever agent is selected. */
  lemma NextLoadReturnsMemory(w: World, agent: Option<string>)
    requires InStep(w) && NoLegacy(w) && !w.store.reloadPending
    ensures var l := Load(w.store.disk, Current(w), agent);
            && l.disk == w.store.disk
            && Pruned(l.drafts) == Pruned(w.store.mem.drafts)
            && l.attachments == SettledSlots(w.store.mem.attachments)
  {
    hide IsLegacy, Migrated, WithUploads, WithDrafts, Settled;
    var disk, ns := w.store.disk, Current(w);
    assert !HasLegacy(UploadsAt(disk, ns));
    MigratedFacts(DraftsAt(disk, ns), agent);
    MigratedFacts(UploadsAt(disk, ns), agent);
  }

  lemma {:induction false} RunKeepsNoLegacy(w: World, events: seq<Event>)
    requires Consistent(w) && Possible(w, events) && NoLegacy(w) && forall e :: e in events ==> Modern(e)
    ensures NoLegacy(After(w, events))
    decreases |events|
  {
    assert |w.uploads.aborted| == |w.requests|;
    hide Step, Enabled, Consistent, NoLegacy, Modern;
    if events != [] {
      assert events[0] in events;
      assert forall e :: e in events[1..] ==> e in events;
      StepKeepsConsistent(w, events[0]);
      StepKeepsNoLegacy(w, events[0]);
      RunKeepsNoLegacy(Step(w, events[0]), events[1..]);
    }
  }

  /** So in every reachable state with no reload pending, one more load writes nothing and returns the memory. */
  lemma ReachableLoadsAreQuiet(disk: Disk, events: seq<Event>, agent: Option<string>)
    requires Foreign(disk) && Consistent(Initial(disk)) && Possible(Initial(disk), events) && AllTidy(Initial(disk), events)
    requires forall e :: e in events ==> Modern(e)
    requires !After(Initial(disk), events).store.reloadPending
    ensures var w := After(Initial(disk), events);
            var l := Load(w.store.disk, Current(w), agent);
            && l.disk == w.store.disk
            && Pruned(l.drafts) == Pruned(w.store.mem.drafts)
            && l.attachments == SettledSlots(w.store.mem.attachments)
  {
    ReachableStates(disk, events);
    LoadFoldsLegacySlots(disk, None, AgentAt(disk, None));
    assert NoLegacy(Initial(disk));
    hide *;
    RunKeepsNoLegacy(Initial(disk), events);
    NextLoadReturnsMemory(After(Initial(disk), events), agent);
  }
}
