/** The owner of the upload requests: which are tracked, which are aborted, and what each reports when it ends. */
module UploadCoordinator {
  import opened Wrappers
  import opened DraftUploads

  /** `controllers` maps an upload id to its request, requests being numbered as started; `aborted` has their signals. */
  datatype Coordinator = Coordinator(controllers: map<UploadId, nat>, aborted: seq<bool>)

  datatype Response = Delivered(attachment: Attachment) | AbortError | OtherError(message: Option<string>)

  datatype Outcome =
    | UploadedOutcome(id: UploadId, attachment: Attachment)
    | FailedOutcome(id: UploadId, error: string)

  /** A response that arrives is reported even after an abort; an error after an abort is not. */
  function OutcomeOf(id: UploadId, aborted: bool, response: Response): Option<Outcome> {
    match response
    case Delivered(a) => Some(UploadedOutcome(id, a))
    case AbortError => None
    case OtherError(message) => if aborted then None else Some(FailedOutcome(id, message.GetOr("Upload failed")))
  }

  /** Nothing is reported for an abort; whatever arrives is, and so is any other error unless the request was aborted. */
  lemma ReportedIff(id: UploadId, aborted: bool, response: Response)
    ensures var o := OutcomeOf(id, aborted, response);
            && (o == None <==> response == AbortError || (response.OtherError? && aborted))
            && (response.Delivered? ==> o == Some(UploadedOutcome(id, response.attachment)))
            && (response == OtherError(None) && !aborted ==> o == Some(FailedOutcome(id, "Upload failed")))
            && (forall m :: response == OtherError(Some(m)) && !aborted ==> o == Some(FailedOutcome(id, m)))
  {
  }

  function Started(c: Coordinator, id: UploadId): Coordinator {
    Coordinator(c.controllers[id := |c.aborted|], c.aborted + [false])
  }

  function Finished(c: Coordinator, id: UploadId, request: nat): Coordinator {
    if id in c.controllers && c.controllers[id] == request then c.(controllers := c.controllers - {id}) else c
  }

  function AbortedOne(c: Coordinator, id: UploadId): Coordinator {
    if id !in c.controllers then c
    else Coordinator(c.controllers - {id},
                     seq(|c.aborted|, i requires 0 <= i < |c.aborted| => c.aborted[i] || i == c.controllers[id]))
  }

  function AbortedAll(c: Coordinator): Coordinator {
    Coordinator(map[], seq(|c.aborted|, i requires 0 <= i < |c.aborted| => c.aborted[i] || i in c.controllers.Values))
  }

  /** A request restarted under the same id stays tracked, and can be aborted, when the first one ends. */
  lemma RestartSurvivesFirstFinish(c: Coordinator, id: UploadId, n: nat)
    requires n == |c.aborted|
    ensures var twice := Started(Started(c, id), id);
            && Finished(twice, id, n) == twice
            && Finished(twice, id, n + 1).controllers == c.controllers - {id}
            && AbortedOne(Finished(twice, id, n), id).aborted == c.aborted + [false, true]
  {
    var twice := Started(Started(c, id), id);
    assert twice.controllers[id] == n + 1;
    assert twice.controllers - {id} == c.controllers - {id};
  }

  class AbortController {
    var aborted: bool
    ghost const serial: nat

    constructor (ghost serial: nat)
      ensures !aborted && this.serial == serial
    {
      aborted := false;
      this.serial := serial;
    }

    method Abort()
      modifies this
      ensures aborted
    {
      aborted := true;
    }
  }

  ghost function Signals(started: seq<AbortController>): (flags: seq<bool>)
    reads started
    ensures |flags| == |started| && forall i :: 0 <= i < |started| ==> flags[i] == started[i].aborted
  {
    if started == [] then [] else Signals(started[..|started| - 1]) + [started[|started| - 1].aborted]
  }

  ghost function Serials(controllers: map<UploadId, AbortController>): map<UploadId, nat> {
    map id | id in controllers :: controllers[id].serial
  }

  class Uploads {
    var controllers: map<UploadId, AbortController>
    /** Every controller made, in order. */
    ghost var started: seq<AbortController>

    ghost predicate Valid()
      reads this
    {
      && (forall i :: 0 <= i < |started| ==> started[i].serial == i)
      && (forall id :: id in controllers ==> Knows(controllers[id]))
    }

    ghost predicate Knows(controller: AbortController)
      reads this
    {
      controller.serial < |started| && started[controller.serial] == controller
    }

    ghost function State(): Coordinator
      reads this, started
    {
      Coordinator(Serials(controllers), Signals(started))
    }

    constructor ()
      ensures Valid() && started == [] && State() == Coordinator(map[], [])
    {
      controllers := map[];
      started := [];
    }

    method StartUpload(id: UploadId) returns (controller: AbortController)
      requires Valid()
      modifies this
      ensures Valid() && fresh(controller) && started == old(started) + [controller]
      ensures State() == Started(old(State()), id)
    {
      controller := new AbortController(|started|);
      controllers := controllers[id := controller];
      started := started + [controller];
      assert Serials(controllers) == old(Serials(controllers))[id := |old(started)|];
      assert Signals(started) == old(Signals(started)) + [false];
    }

    /** The end of a request: what it reports, and its entry dropped if the entry is still its own. */
    method FinishUpload(id: UploadId, controller: AbortController, response: Response) returns (outcome: Option<Outcome>)
      requires Valid() && Knows(controller)
      modifies this`controllers
      ensures Valid()
      ensures outcome == OutcomeOf(id, old(State()).aborted[controller.serial], response)
      ensures outcome.None? <==> response.AbortError? || (response.OtherError? && old(controller.aborted))
      ensures outcome.Some? && response.Delivered? ==> outcome.value == UploadedOutcome(id, response.attachment)
      ensures outcome.Some? && response.OtherError? ==>
                outcome.value == FailedOutcome(id, if response.message.Some? then response.message.value else "Upload failed")
      ensures State() == Finished(old(State()), id, controller.serial)
    {
      match response {
        case Delivered(a) => outcome := Some(UploadedOutcome(id, a));
        case AbortError => outcome := None;
        case OtherError(message) =>
          if controller.aborted {
            outcome := None;
          } else {
            outcome := Some(FailedOutcome(id, message.GetOr("Upload failed")));
          }
      }
      DropIfOwn(id, controller);
    }

    /** The entry may belong to a later request of the same id by now. */
    method DropIfOwn(id: UploadId, controller: AbortController)
      requires Valid() && Knows(controller)
      modifies this`controllers
      ensures Valid()
      ensures State() == Finished(old(State()), id, controller.serial)
    {
      hide Signals;
      if id in controllers && controllers[id] == controller { controllers := controllers - {id}; }
      assert Serials(controllers) == Finished(old(State()), id, controller.serial).controllers;
    }

    method AbortUpload(id: UploadId)
      requires Valid()
      modifies this, controllers.Values
      ensures Valid() && started == old(started)
      ensures State() == AbortedOne(old(State()), id)
    {
      if id !in controllers { return; }
      var controller := controllers[id];
      controllers := controllers - {id};
      controller.Abort();
      assert Serials(controllers) == old(Serials(controllers)) - {id};
      OneSignalled(old(State()), Signals(started), id);
      hide Signals;
    }

    method AbortAll()
      requires Valid()
      modifies this, controllers.Values
      ensures Valid() && started == old(started)
      ensures State() == AbortedAll(old(State()))
    {
      ghost var before := State();
      if controllers == map[] {
        AbortNothing(before);
        return;
      }
      AbortEach();
      SignalsAborted(before.aborted, Signals(started), before.controllers);
      hide Signals;
      controllers := map[];
      assert Serials(controllers) == map[];
    }

    /** The loop over the tracked controllers. */
    method AbortEach()
      requires Valid()
      modifies controllers.Values
      ensures forall i :: 0 <= i < |started| ==>
        (started[i].aborted <==> old(started[i].aborted) || i in Serials(controllers).Values)
    {
      hide Signals;
      ghost var done: set<nat> := {};
      var rest := controllers.Keys;
      while rest != {}
        invariant rest <= controllers.Keys
        invariant forall id :: id in controllers && id !in rest ==> controllers[id].serial in done
        invariant done <= Serials(controllers).Values
        invariant forall i :: 0 <= i < |started| ==> (started[i].aborted <==> old(started[i].aborted) || i in done)
      {
        var id :| id in rest;
        var controller := controllers[id];
        assert Knows(controller);
        assert Serials(controllers)[id] == controller.serial;
        controller.Abort();
        done := done + {controller.serial};
        rest := rest - {id};
      }
      assert done == Serials(controllers).Values;
    }
  }

  lemma OneSignalled(c: Coordinator, after: seq<bool>, id: UploadId)
    requires id in c.controllers && |after| == |c.aborted|
    requires forall i :: 0 <= i < |after| ==> (after[i] <==> c.aborted[i] || i == c.controllers[id])
    ensures after == AbortedOne(c, id).aborted
  {
  }

  lemma SignalsAborted(before: seq<bool>, after: seq<bool>, controllers: map<UploadId, nat>)
    requires |after| == |before|
    requires forall i :: 0 <= i < |before| ==> (after[i] <==> before[i] || i in controllers.Values)
    ensures after == AbortedAll(Coordinator(controllers, before)).aborted
  {
  }

  lemma AbortNothing(c: Coordinator)
    requires c.controllers == map[]
    ensures AbortedAll(c) == c
  {
    assert AbortedAll(c).aborted == c.aborted;
  }
}
