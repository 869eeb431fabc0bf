/** The running program: the store and the coordinator as objects, wired together the way the composer wires them. */
module DraftSession {
  import opened Wrappers
  import opened DraftUploads
  import opened DraftStorage
  import opened UploadCoordinator
  import opened DraftProtocol
  import S = ChatStore

  const MAX_FILE_SIZE := 100 * 1024 * 1024

  class Session {
    const store: S.ChatStore
    const uploads: Uploads
    var requests: seq<Request>
    /** The controller each request's closure keeps. */
    var flights: seq<AbortController>
    /** The workspace the maps in memory were read from. */
    var loaded: Namespace

    ghost predicate Valid()
      reads this, store, uploads
    {
      && store.Valid() && uploads.Valid()
      && flights == uploads.started && |requests| == |flights|
    }

    ghost function State(): World
      reads this, store, uploads, uploads.started
    {
      World(store.State(), uploads.State(), requests, loaded)
    }

    constructor (disk: Disk)
      ensures Valid() && fresh(store) && fresh(uploads) && State() == Initial(disk)
    {
      store := new S.ChatStore(disk);
      uploads := new Uploads();
      requests, flights, loaded := [], [], None;
    }

    /** A file over the limit enters neither the draft nor the coordinator. */
    method PickFile(slot: string, filename: string, size: int, contentType: Option<string>)
      requires Valid() && Enabled(State(), Pick(slot, filename, size, contentType))
      modifies this, store, uploads
      ensures Valid()
      ensures State() == if size > MAX_FILE_SIZE then old(State()) else Step(old(State()), Pick(slot, filename, size, contentType))
    {
      hide S.AddUpload, Signals, Serials, IsLegacy;
      if size > MAX_FILE_SIZE { return; }
      var id := Minted(|requests|);
      store.AddInputDraftUpload(slot, Pending(id, filename, size, contentType, Uploading, None));
      var controller := uploads.StartUpload(id);
      flights := flights + [controller];
      requests := requests + [Request(slot, loaded, false)];
    }

    method EndRequest(r: nat, response: Response, keepFailed: bool)
      requires Valid() && Enabled(State(), End(r, response, keepFailed))
      modifies this, store, uploads
      ensures Valid() && State() == Step(old(State()), End(r, response, keepFailed))
    {
      hide Received, Signals, Serials, OutcomeOf, Finished, IsLegacy;
      var slot := requests[r].slot;
      var outcome := uploads.FinishUpload(Minted(r), flights[r], response);
      Deliver(slot, outcome, keepFailed);
      requests := requests[r := requests[r].(done := true)];
    }

    /** The composer's handling of an outcome. */
    method Deliver(slot: string, outcome: Option<Outcome>, keepFailed: bool)
      requires store.Valid()
      modifies store
      ensures store.Valid() && store.State() == Received(old(store.State()), slot, outcome, keepFailed)
    {
      hide S.SettleUpload, S.FailUpload, S.RemoveUpload;
      match outcome {
        case None =>
        case Some(UploadedOutcome(id, attachment)) => store.SettleInputDraftUpload(slot, id, attachment);
        case Some(FailedOutcome(id, error)) =>
          if keepFailed {
            store.FailInputDraftUpload(slot, id, Some(error));
          } else {
            store.RemoveInputDraftUpload(slot, id);
          }
      }
    }

    /** Dismissing a row still uploading also aborts its request. */
    method DismissUpload(slot: string, id: UploadId)
      requires Valid()
      modifies this, store, uploads, uploads.controllers.Values
      ensures Valid() && State() == Step(old(State()), Dismiss(slot, id))
    {
      hide S.RemoveUpload, Signals, Serials, AbortedOne, S.At, StillUploading;
      var tracked := S.At(store.inputDraftAttachments, slot);
      if StillUploading(tracked, id) { uploads.AbortUpload(id); }
      store.RemoveInputDraftUpload(slot, id);
    }

    /** Requests are aborted first, then memory is reset, then storage cleared. */
    method LogOut(slugs: seq<string>)
      requires Valid()
      modifies this, store, uploads, uploads.controllers.Values
      ensures Valid() && State() == Step(old(State()), Logout(slugs))
    {
      hide S.LoggedOut, Signals, Serials, AbortedAll;
      uploads.AbortAll();
      store.Logout(slugs);
    }

    method SwitchWorkspace(slug: Option<string>)
      requires Valid()
      modifies store
      ensures Valid() && State() == Step(old(State()), Switch(slug))
    {
      store.SetCurrentWorkspace(slug);
    }

    /** The reload that a switch left pending. */
    method RunPendingReload()
      requires Valid() && Enabled(State(), Reload)
      modifies this`loaded, store
      ensures Valid() && State() == Step(old(State()), Reload)
    {
      hide S.Reloaded;
      loaded := S.NamespaceOf(store.slug);
      store.Rehydrate();
    }

    method ClearInput(slot: string)
      requires Valid()
      modifies store
      ensures Valid() && State() == Step(old(State()), Clear(slot))
    {
      store.ClearInputDraft(slot);
    }
  }
}
