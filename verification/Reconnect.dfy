/**
 The reconnecting web socket client. Sockets and timers live in the runtime and are known by their handles;
 the client keeps the handle of its last socket and of its last timer, and neither is reset when the socket
 closes by itself or the timer fires.
 */
module Reconnect {
  import opened Wrappers

  const RECONNECT_BASE_DELAY_MS: int := 1000
  const RECONNECT_MAX_DELAY_MS: int := 30000

  datatype SocketState = Connecting | Opened | Closing | Closed

  /** `armed`: the socket's onclose handler is in place. */
  datatype Socket = Socket(state: SocketState, armed: bool)

  datatype Timer = Timer(pending: bool, delay: int)

  datatype Client = Client(
    sockets: seq<Socket>,
    timers: seq<Timer>,
    ws: Option<nat>,
    reconnectTimer: Option<nat>,
    reconnectAttempt: nat,
    hasConnectedBefore: bool,
    cookieAuth: bool,
    token: Option<string>,
    callbacks: set<int>,
    /** Every auth frame sent, with its socket. */
    sent: seq<(nat, string)>,
    /** The callbacks run by each recovered connection. */
    notified: seq<set<int>>)

  datatype Event =
    | SetAuth(token: Option<string>)
    | OnReconnect(callback: int)
    | OffReconnect(callback: int)
    | Connect
    | Open(socket: nat)
    | AuthAck(socket: nat)
    | Close(socket: nat, random: real)
    | Fire(timer: nat)
    | Disconnect

  // ----- the backoff -----

  function Pow2(n: nat): nat {
    if n == 0 then 1 else 2 * Pow2(n - 1)
  }

  function Base(attempt: nat): int {
    var uncapped := RECONNECT_BASE_DELAY_MS * Pow2(attempt);
    if uncapped < RECONNECT_MAX_DELAY_MS then uncapped else RECONNECT_MAX_DELAY_MS
  }

  function Delay(attempt: nat, random: real): int {
    var base := Base(attempt) as real;
    var jitter := base * 0.2 * (random * 2.0 - 1.0);
    var cap := RECONNECT_MAX_DELAY_MS as real;
    ((if base + jitter < cap then base + jitter else cap) + 0.5).Floor
  }

  lemma {:induction false} BaseGrows(attempt: nat)
    ensures RECONNECT_BASE_DELAY_MS <= Base(attempt) <= Base(attempt + 1) <= RECONNECT_MAX_DELAY_MS
    ensures attempt >= 5 <==> Base(attempt) == RECONNECT_MAX_DELAY_MS
  {
    if attempt <= 5 {
      assert Pow2(1) == 2 && Pow2(2) == 4 && Pow2(3) == 8 && Pow2(4) == 16 && Pow2(5) == 32;
    } else {
      BaseGrows(attempt - 1);
    }
  }

  /** Every delay is within a fifth of the doubled base and lies in 800..30000, for all attempts and jitters. */
  lemma DelayBounds(attempt: nat, random: real)
    requires 0.0 <= random < 1.0
    ensures 800 <= Delay(attempt, random) <= 30000
    ensures 5 * Delay(attempt, random) >= 4 * Base(attempt)
    ensures 5 * Delay(attempt, random) <= 6 * Base(attempt)
  {
    BaseGrows(attempt);
    var base := Base(attempt) as real;
    var spread := base * 0.2;
    var swing := random * 2.0 - 1.0;
    assert -1.0 <= swing < 1.0;
    assert -spread <= spread * swing <= spread;
    if attempt < 5 {
      assert Pow2(1) == 2 && Pow2(2) == 4 && Pow2(3) == 8 && Pow2(4) == 16;
    }
  }

  // ----- the steps -----

  /** What the runtime can deliver: opens, acknowledgements and closes of sockets in the right state, pending timers. */
  predicate Enabled(c: Client, e: Event) {
    match e
    case Open(i) => i < |c.sockets| && c.sockets[i].state == Connecting
    case AuthAck(i) => i < |c.sockets| && c.sockets[i].state == Opened
    case Close(i, random) => i < |c.sockets| && c.sockets[i].state != Closed && 0.0 <= random < 1.0
    case Fire(t) => t < |c.timers| && c.timers[t].pending
    case _ => true
  }

  function Connected(c: Client): Client {
    c.(sockets := c.sockets + [Socket(Connecting, true)], ws := Some(|c.sockets|))
  }

  function Recovering(c: Client): bool {
    c.hasConnectedBefore || c.reconnectAttempt > 0
  }

  function Authenticated(c: Client): Client {
    c.(reconnectAttempt := 0,
       notified := if Recovering(c) then c.notified + [c.callbacks] else c.notified,
       hasConnectedBefore := true)
  }

  function Scheduled(c: Client, random: real): Client {
    c.(timers := c.timers + [Timer(true, Delay(c.reconnectAttempt, random))],
       reconnectTimer := Some(|c.timers|),
       reconnectAttempt := c.reconnectAttempt + 1)
  }

  function WithSocket(c: Client, i: nat, s: Socket): Client
    requires i < |c.sockets|
  {
    c.(sockets := c.sockets[i := s])
  }

  function SendsToken(c: Client): bool {
    !c.cookieAuth && c.token.Some? && c.token.value != ""
  }

  function Step(c: Client, e: Event): Client
    requires Enabled(c, e)
  {
    match e
    case SetAuth(token) => c.(token := token)
    case OnReconnect(callback) => c.(callbacks := c.callbacks + {callback})
    case OffReconnect(callback) => c.(callbacks := c.callbacks - {callback})
    case Connect => Connected(c)
    case Open(i) =>
      var live := WithSocket(c, i, c.sockets[i].(state := Opened));
      if !SendsToken(c) then Authenticated(live)
      else if c.ws.None? then live
      else live.(sent := c.sent + [(c.ws.value, c.token.value)])
    case AuthAck(i) => Authenticated(c)
    case Close(i, random) =>
      var closed := WithSocket(c, i, c.sockets[i].(state := Closed));
      if c.sockets[i].armed then Scheduled(closed, random) else closed
    case Fire(t) => Connected(c.(timers := c.timers[t := c.timers[t].(pending := false)]))
    case Disconnect =>
      var stopped :=
        if c.reconnectTimer.Some? && c.reconnectTimer.value < |c.timers|
        then c.(timers := c.timers[c.reconnectTimer.value := c.timers[c.reconnectTimer.value].(pending := false)])
        else c;
      var shut :=
        if c.ws.Some? && c.ws.value < |c.sockets|
        then WithSocket(stopped, c.ws.value, Socket(AfterClose(c.sockets[c.ws.value].state), false))
        else stopped;
      shut.(reconnectTimer := None, ws := None, hasConnectedBefore := false, reconnectAttempt := 0, callbacks := {})
  }

  /** close() on a socket that has closed already does nothing. */
  function AfterClose(state: SocketState): SocketState {
    if state == Closed then Closed else Closing
  }

  // ----- the client as a class -----

  class WSClient {
    var sockets: seq<Socket>
    var timers: seq<Timer>
    var ws: Option<nat>
    var reconnectTimer: Option<nat>
    var reconnectAttempt: nat
    var hasConnectedBefore: bool
    const cookieAuth: bool
    var token: Option<string>
    var onReconnectCallbacks: set<int>
    var sent: seq<(nat, string)>
    var notified: seq<set<int>>

    ghost function State(): Client
      reads this
    {
      Client(sockets, timers, ws, reconnectTimer, reconnectAttempt, hasConnectedBefore, cookieAuth, token,
             onReconnectCallbacks, sent, notified)
    }

    /** The handles were issued by the runtime. */
    ghost predicate Valid()
      reads this
    {
      && (ws.Some? ==> ws.value < |sockets|)
      && (reconnectTimer.Some? ==> reconnectTimer.value < |timers|)
    }

    constructor (cookieAuth: bool)
      ensures Valid() && State() == Initial(cookieAuth)
    {
      this.cookieAuth := cookieAuth;
      sockets, timers, ws, reconnectTimer := [], [], None, None;
      reconnectAttempt, hasConnectedBefore, token := 0, false, None;
      onReconnectCallbacks, sent, notified := {}, [], [];
    }

    method SetAuthToken(token: Option<string>)
      requires Valid()
      modifies this
      ensures Valid() && State() == Step(old(State()), SetAuth(token))
    {
      this.token := token;
    }

    method AddReconnectCallback(callback: int)
      requires Valid()
      modifies this
      ensures Valid() && State() == Step(old(State()), OnReconnect(callback))
    {
      onReconnectCallbacks := onReconnectCallbacks + {callback};
    }

    method RemoveReconnectCallback(callback: int)
      requires Valid()
      modifies this
      ensures Valid() && State() == Step(old(State()), OffReconnect(callback))
    {
      onReconnectCallbacks := onReconnectCallbacks - {callback};
    }

    method Open()
      requires Valid()
      modifies this
      ensures Valid() && State() == Step(old(State()), Connect)
    {
      ws := Some(|sockets|);
      sockets := sockets + [Socket(Connecting, true)];
    }

    method OnOpen(i: nat)
      requires Valid() && Enabled(State(), Event.Open(i))
      modifies this
      ensures Valid() && State() == Step(old(State()), Event.Open(i))
    {
      sockets := sockets[i := sockets[i].(state := Opened)];
      if !cookieAuth && token.Some? && token.value != "" {
        if ws.Some? { sent := sent + [(ws.value, token.value)]; }
        return;
      }
      OnAuthenticated();
    }

    method OnAuthAck(i: nat)
      requires Valid() && Enabled(State(), AuthAck(i))
      modifies this
      ensures Valid() && State() == Step(old(State()), AuthAck(i))
    {
      OnAuthenticated();
    }

    method OnAuthenticated()
      requires Valid()
      modifies this
      ensures Valid() && State() == Authenticated(old(State()))
    {
      var recoveredConnection := hasConnectedBefore || reconnectAttempt > 0;
      reconnectAttempt := 0;
      if recoveredConnection { notified := notified + [onReconnectCallbacks]; }
      hasConnectedBefore := true;
    }

    method OnClose(i: nat, random: real)
      requires Valid() && Enabled(State(), Close(i, random))
      modifies this
      ensures Valid() && State() == Step(old(State()), Close(i, random))
    {
      var armed := sockets[i].armed;
      sockets := sockets[i := sockets[i].(state := Closed)];
      if armed { ScheduleReconnect(random); }
    }

    method ScheduleReconnect(random: real)
      requires Valid()
      modifies this
      ensures Valid() && State() == Scheduled(old(State()), random)
    {
      var delay := Delay(reconnectAttempt, random);
      reconnectAttempt := reconnectAttempt + 1;
      reconnectTimer := Some(|timers|);
      timers := timers + [Timer(true, delay)];
    }

    method OnTimer(t: nat)
      requires Valid() && Enabled(State(), Fire(t))
      modifies this
      ensures Valid() && State() == Step(old(State()), Fire(t))
    {
      timers := timers[t := timers[t].(pending := false)];
      Open();
    }

    method Shutdown()
      requires Valid()
      modifies this
      ensures Valid() && State() == Step(old(State()), Disconnect)
    {
      if reconnectTimer.Some? {
        var t := reconnectTimer.value;
        timers := timers[t := timers[t].(pending := false)];
        reconnectTimer := None;
      }
      if ws.Some? {
        var i := ws.value;
        sockets := sockets[i := Socket(AfterClose(sockets[i].state), false)];
        ws := None;
      }
      hasConnectedBefore := false;
      reconnectAttempt := 0;
      onReconnectCallbacks := {};
    }
  }

  // ----- runs -----

  function Initial(cookieAuth: bool): Client {
    Client([], [], None, None, 0, false, cookieAuth, None, {}, [], [])
  }

  /** The state after a run, or None when the runtime could not have delivered one of its events. */
  function Run(cookieAuth: bool, history: seq<Event>): Option<Client> {
    if history == [] then Some(Initial(cookieAuth))
    else
      var before, e := Run(cookieAuth, history[..|history| - 1]), history[|history| - 1];
      if before.Some? && Enabled(before.value, e) then Some(Step(before.value, e)) else None
  }

  /** The owner's last word was a connect. */
  ghost predicate Wanted(history: seq<Event>) {
    history != []
    && (var e := history[|history| - 1];
        if e == Connect then true else if e == Disconnect then false else Wanted(history[..|history| - 1]))
  }

  /** The owner connects only when idle: at first, or after a disconnect. */
  ghost predicate ConnectsWhenIdle(history: seq<Event>) {
    history == []
    || (ConnectsWhenIdle(history[..|history| - 1])
        && (history[|history| - 1] == Connect ==> !Wanted(history[..|history| - 1])))
  }

  ghost predicate IsArmed(c: Client, i: int) {
    0 <= i < |c.sockets| && c.sockets[i].armed && c.sockets[i].state != Closed
  }

  ghost predicate IsPending(c: Client, t: int) {
    0 <= t < |c.timers| && c.timers[t].pending
  }

  function Armed(c: Client): set<int> {
    set i | 0 <= i < |c.sockets| && c.sockets[i].armed && c.sockets[i].state != Closed
  }

  function Pending(c: Client): set<int> {
    set t | 0 <= t < |c.timers| && c.timers[t].pending
  }

  /** The socket the client will reconnect from, or the timer it will reconnect at: exactly one when wanted, else none. */
  ghost predicate OneWayOn(c: Client, wanted: bool) {
    |Armed(c)| + |Pending(c)| == if wanted then 1 else 0
  }

  /** The same with the handles: the one socket is `ws`, the one timer is `reconnectTimer`. */
  ghost predicate Tracked(c: Client, wanted: bool) {
    && (c.ws.Some? ==> c.ws.value < |c.sockets|)
    && (c.reconnectTimer.Some? ==> c.reconnectTimer.value < |c.timers|)
    && (forall i :: IsArmed(c, i) ==> c.ws == Some(i) && c.sockets[i].state != Closing)
    && (forall t :: IsPending(c, t) ==> c.reconnectTimer == Some(t))
    && (forall i :: 0 <= i < |c.sockets| ==> Settled(c.sockets[i]))
    && (wanted <==> c.ws.Some?)
    && (wanted ==> (IsArmed(c, c.ws.value) <==> !(c.reconnectTimer.Some? && IsPending(c, c.reconnectTimer.value))))
    && (!wanted ==> c.reconnectTimer.None?)
    && (wanted ==> c.sockets[c.ws.value].armed)
  }

  /** A socket whose handlers were removed never opens any more. */
  ghost predicate Settled(s: Socket) {
    !s.armed ==> s.state == Closing || s.state == Closed
  }

  lemma TrackedMeans(c: Client, wanted: bool)
    requires Tracked(c, wanted)
    ensures OneWayOn(c, wanted)
  {
    if !wanted {
      assert forall i :: i in Armed(c) ==> IsArmed(c, i);
      assert forall t :: t in Pending(c) ==> IsPending(c, t);
      assert Armed(c) == {} && Pending(c) == {};
    } else if IsArmed(c, c.ws.value) {
      assert forall i :: i in Armed(c) <==> IsArmed(c, i);
      assert forall t :: t in Pending(c) ==> IsPending(c, t);
      assert Armed(c) == {c.ws.value as int} && Pending(c) == {};
    } else {
      assert forall i :: i in Armed(c) ==> IsArmed(c, i);
      assert forall t :: t in Pending(c) <==> IsPending(c, t);
      assert Armed(c) == {} && Pending(c) == {c.reconnectTimer.value as int};
    }
  }

  lemma ConnectKeepsTracked(c: Client)
    requires Idle(c)
    ensures Tracked(Connected(c), true)
  {
    var d := Connected(c);
    forall i | IsArmed(d, i) ensures i == |c.sockets| {
      assert i < |c.sockets| ==> IsArmed(c, i);
    }
    forall t ensures !IsPending(d, t) { assert IsPending(d, t) ==> IsPending(c, t); }
  }

  /** Nothing armed and nothing pending. */
  ghost predicate Idle(c: Client) {
    && (c.reconnectTimer.Some? ==> c.reconnectTimer.value < |c.timers|)
    && (forall i :: 0 <= i < |c.sockets| ==> Settled(c.sockets[i]))
    && (forall i :: !IsArmed(c, i))
    && (forall t :: !IsPending(c, t))
  }

  lemma FireKeepsTracked(c: Client, t: nat)
    requires Tracked(c, true) && IsPending(c, t)
    ensures Tracked(Step(c, Fire(t)), true)
  {
    var rest := c.(timers := c.timers[t := c.timers[t].(pending := false)]);
    forall i ensures !IsArmed(rest, i) {
      if IsArmed(rest, i) { assert IsArmed(c, i); }
    }
    forall s ensures !IsPending(rest, s) {
      if IsPending(rest, s) { assert IsPending(c, s); }
    }
    ConnectKeepsTracked(rest);
  }

  lemma CloseKeepsTracked(c: Client, i: nat, random: real, wanted: bool)
    requires Tracked(c, wanted) && Enabled(c, Close(i, random))
    ensures Tracked(Step(c, Close(i, random)), wanted)
  {
    hide Delay;
    var d := Step(c, Close(i, random));
    if c.sockets[i].armed { assert IsArmed(c, i); }
    forall j | IsArmed(d, j) ensures IsArmed(c, j) && j != i {}
    forall t | IsPending(d, t) && t < |c.timers| ensures IsPending(c, t) {}
  }

  lemma DisconnectKeepsTracked(c: Client, wanted: bool)
    requires Tracked(c, wanted)
    ensures Tracked(Step(c, Disconnect), false)
  {
    var d := Step(c, Disconnect);
    forall i ensures !IsArmed(d, i) {
      if IsArmed(d, i) { assert IsArmed(c, i); }
    }
    forall t ensures !IsPending(d, t) {
      if IsPending(d, t) { assert IsPending(c, t); }
    }
  }

  /** Opening a socket, an acknowledgement and the setters leave what is armed and what is pending as it was. */
  lemma OthersKeepTracked(c: Client, e: Event, wanted: bool)
    requires Tracked(c, wanted) && Enabled(c, e)
    requires !e.Connect? && !e.Disconnect? && !e.Close? && !e.Fire?
    ensures Tracked(Step(c, e), wanted)
  {
    hide SendsToken;
    var d := Step(c, e);
    assert d.timers == c.timers && |d.sockets| == |c.sockets|;
    forall i ensures IsArmed(d, i) <==> IsArmed(c, i) {}
    forall t ensures IsPending(d, t) <==> IsPending(c, t) {}
  }

  lemma UnwantedIsIdle(c: Client)
    requires Tracked(c, false)
    ensures Idle(c)
  {
  }

  lemma PendingMeansWanted(c: Client, t: nat, wanted: bool)
    requires Tracked(c, wanted) && t < |c.timers| && c.timers[t].pending
    ensures wanted && IsPending(c, t)
  {
    assert IsPending(c, t);
  }

  lemma StepKeepsTracked(c: Client, e: Event, wanted: bool)
    requires Tracked(c, wanted) && Enabled(c, e) && (e == Connect ==> !wanted)
    ensures Tracked(Step(c, e), e == Connect || (wanted && e != Disconnect))
  {
    hide Tracked, Connected, Scheduled, Authenticated;
    match e {
      case Connect =>
        UnwantedIsIdle(c);
        ConnectKeepsTracked(c);
      case Fire(t) =>
        PendingMeansWanted(c, t, wanted);
        FireKeepsTracked(c, t);
      case Close(i, random) => CloseKeepsTracked(c, i, random, wanted);
      case Disconnect => DisconnectKeepsTracked(c, wanted);
      case _ => OthersKeepTracked(c, e, wanted);
    }
  }

  /** In every run where the owner connects only when idle, the client's handles are right throughout. */
  lemma {:induction false} RunsAreTracked(cookieAuth: bool, history: seq<Event>)
    requires Run(cookieAuth, history).Some? && ConnectsWhenIdle(history)
    ensures Tracked(Run(cookieAuth, history).value, Wanted(history))
  {
    if history != [] {
      var front, e := history[..|history| - 1], history[|history| - 1];
      RunsAreTracked(cookieAuth, front);
      StepKeepsTracked(Run(cookieAuth, front).value, e, Wanted(front));
    }
  }

  /** The client's socket is the last one opened, or that one was closed by a disconnect. */
  ghost predicate LastIsCurrent(c: Client) {
    var last := |c.sockets| - 1;
    if c.ws.Some? then c.ws.value == last else last < 0 || c.sockets[last].state == Closing || c.sockets[last].state == Closed
  }

  lemma StepKeepsLast(c: Client, e: Event)
    requires LastIsCurrent(c) && Enabled(c, e)
    ensures LastIsCurrent(Step(c, e))
  {
    hide Delay, SendsToken;
  }

  /** The same for timers, and a client without a handle has nothing to stop at the end of either list. */
  ghost predicate LastIsStopped(c: Client) {
    var socket, timer := |c.sockets| - 1, |c.timers| - 1;
    && (c.ws.None? && socket >= 0 ==> !c.sockets[socket].armed)
    && (if c.reconnectTimer.Some? then c.reconnectTimer.value == timer else timer >= 0 ==> !c.timers[timer].pending)
  }

  lemma StepKeepsStopped(c: Client, e: Event)
    requires LastIsCurrent(c) && LastIsStopped(c) && Enabled(c, e)
    ensures LastIsStopped(Step(c, e))
  {
    if e.Disconnect? {
      DisconnectStops(c);
    } else if e.Open? {
      OpenKeepsStopped(c, e.socket);
    } else {
      hide Delay, SendsToken, AfterClose;
    }
  }

  lemma DisconnectStops(c: Client)
    requires LastIsCurrent(c) && LastIsStopped(c)
    ensures LastIsStopped(Step(c, Disconnect))
  {
    hide Delay, SendsToken, AfterClose;
  }

  lemma OpenKeepsStopped(c: Client, i: nat)
    requires LastIsStopped(c) && Enabled(c, Open(i))
    ensures LastIsStopped(Step(c, Open(i)))
  {
    hide Delay, SendsToken, AfterClose;
  }

  lemma {:induction false} RunKeepsStopped(cookieAuth: bool, history: seq<Event>)
    requires Run(cookieAuth, history).Some?
    ensures LastIsStopped(Run(cookieAuth, history).value)
  {
    hide LastIsCurrent, Step, Enabled;
    if history != [] {
      var front, e := history[..|history| - 1], history[|history| - 1];
      RunKeepsLast(cookieAuth, front);
      RunKeepsStopped(cookieAuth, front);
      hide LastIsStopped;
      StepKeepsStopped(Run(cookieAuth, front).value, e);
    }
  }

  /** A socket that was not the last one opened still reconnects, or a timer that was not the last one set still runs. */
  ghost predicate HasOlderWayOn(c: Client) {
    || (exists i :: IsArmed(c, i) && i < |c.sockets| - 1)
    || (exists t :: IsPending(c, t) && t < |c.timers| - 1)
  }

  /** In any run at all, a disconnect leaves something exactly when an older socket or timer is still alive. */
  lemma DisconnectLeavesIff(cookieAuth: bool, history: seq<Event>)
    requires Run(cookieAuth, history).Some?
    ensures var c := Run(cookieAuth, history).value;
            (Armed(Step(c, Disconnect)) == {} && Pending(Step(c, Disconnect)) == {}) <==> !HasOlderWayOn(c)
  {
    RunKeepsLast(cookieAuth, history);
    RunKeepsStopped(cookieAuth, history);
    DisconnectStopsLast(Run(cookieAuth, history).value);
  }

  lemma DisconnectStopsLast(c: Client)
    requires LastIsCurrent(c) && LastIsStopped(c)
    ensures (Armed(Step(c, Disconnect)) == {} && Pending(Step(c, Disconnect)) == {}) <==> !HasOlderWayOn(c)
  {
    hide Delay, SendsToken;
    var d := Step(c, Disconnect);
    assert forall i :: i in Armed(d) <==> IsArmed(d, i);
    assert forall t :: t in Pending(d) <==> IsPending(d, t);
    forall i ensures IsArmed(d, i) <==> IsArmed(c, i) && i < |c.sockets| - 1 {}
    forall t ensures IsPending(d, t) <==> IsPending(c, t) && t < |c.timers| - 1 {}
  }

  lemma {:induction false} RunKeepsLast(cookieAuth: bool, history: seq<Event>)
    requires Run(cookieAuth, history).Some?
    ensures LastIsCurrent(Run(cookieAuth, history).value)
  {
    hide LastIsCurrent, Step, Enabled;
    if history == [] {
      NothingIsLast(cookieAuth);
    } else {
      var front, e := history[..|history| - 1], history[|history| - 1];
      RunKeepsLast(cookieAuth, front);
      StepKeepsLast(Run(cookieAuth, front).value, e);
    }
  }

  lemma NothingIsLast(cookieAuth: bool)
    ensures LastIsCurrent(Initial(cookieAuth))
  {
  }

  /**
   In any run the socket that opens, and would be sent the auth frame, is the client's own exactly if none was opened
   after it; so it always is when the owner connects only when idle.
   */
  lemma OpeningSocketIsCurrent(cookieAuth: bool, history: seq<Event>, i: nat)
    requires Run(cookieAuth, history).Some?
    requires Enabled(Run(cookieAuth, history).value, Open(i)) || Enabled(Run(cookieAuth, history).value, AuthAck(i))
    ensures var c := Run(cookieAuth, history).value;
            && (c.ws == Some(i) <==> i == |c.sockets| - 1)
            && (ConnectsWhenIdle(history) ==> c.ws == Some(i))
  {
    var c := Run(cookieAuth, history).value;
    hide Run, ConnectsWhenIdle, Tracked, LastIsCurrent, Enabled;
    RunKeepsLast(cookieAuth, history);
    OpeningIsLast(c, i);
    if ConnectsWhenIdle(history) {
      RunsAreTracked(cookieAuth, history);
      OpeningIsTracked(c, Wanted(history), i);
    }
  }

  lemma OpeningIsLast(c: Client, i: nat)
    requires LastIsCurrent(c) && (Enabled(c, Open(i)) || Enabled(c, AuthAck(i)))
    ensures c.ws == Some(i) <==> i == |c.sockets| - 1
  {
  }

  lemma OpeningIsTracked(c: Client, wanted: bool, i: nat)
    requires Tracked(c, wanted) && (Enabled(c, Open(i)) || Enabled(c, AuthAck(i)))
    ensures c.ws == Some(i)
  {
    assert Settled(c.sockets[i]);
    assert IsArmed(c, i);
  }

  /** At every moment of the run: one way on while wanted, none while not. */
  ghost predicate AlwaysOneWayOn(cookieAuth: bool, history: seq<Event>)
    requires Run(cookieAuth, history).Some?
  {
    && OneWayOn(Run(cookieAuth, history).value, Wanted(history))
    && (history != [] ==> AlwaysOneWayOn(cookieAuth, history[..|history| - 1]))
  }

  /** Exactly one armed socket or pending timer until disconnect and none after it: just when connects come when idle. */
  lemma {:induction false} OneWayOnIffConnectsWhenIdle(cookieAuth: bool, history: seq<Event>)
    requires Run(cookieAuth, history).Some?
    ensures AlwaysOneWayOn(cookieAuth, history) <==> ConnectsWhenIdle(history)
  {
    if history == [] {
      TrackedMeans(Initial(cookieAuth), false);
    } else {
      var front, e := history[..|history| - 1], history[|history| - 1];
      OneWayOnIffConnectsWhenIdle(cookieAuth, front);
      if ConnectsWhenIdle(history) {
        RunsAreTracked(cookieAuth, history);
        TrackedMeans(Run(cookieAuth, history).value, Wanted(history));
      } else if ConnectsWhenIdle(front) {
        ConnectAddsOne(Run(cookieAuth, front).value);
      }
    }
  }

  lemma ConnectAddsOne(c: Client)
    ensures |Armed(Connected(c))| + |Pending(Connected(c))| == |Armed(c)| + |Pending(c)| + 1
  {
    var d := Connected(c);
    assert Pending(d) == Pending(c);
    assert Armed(d) == Armed(c) + {|c.sockets| as int};
  }

  /** Every delay ever scheduled, in any run at all. */
  lemma {:induction false} RunDelays(cookieAuth: bool, history: seq<Event>, t: nat)
    requires Run(cookieAuth, history).Some? && t < |Run(cookieAuth, history).value.timers|
    ensures 800 <= Run(cookieAuth, history).value.timers[t].delay <= 30000
  {
    hide Delay, Base;
    if history != [] {
      var front, e := history[..|history| - 1], history[|history| - 1];
      var c := Run(cookieAuth, front).value;
      StepTimers(c, e);
      hide Step, Enabled;
      if t < |c.timers| { RunDelays(cookieAuth, front, t); }
    }
  }

  /** A step changes no delay, and adds at most one, within the bounds. */
  lemma StepTimers(c: Client, e: Event)
    requires Enabled(c, e)
    ensures var timers := Step(c, e).timers;
            && |c.timers| <= |timers|
            && (forall t :: 0 <= t < |c.timers| ==> timers[t].delay == c.timers[t].delay)
            && (forall t :: |c.timers| <= t < |timers| ==> 800 <= timers[t].delay <= 30000)
  {
    if e.Close? { DelayBounds(c.reconnectAttempt, e.random); }
    hide Delay, Base, SendsToken;
  }

  // ----- the backoff over a run -----

  /** How many closes scheduled a reconnect since the last authentication or disconnect. */
  ghost function FailuresInARow(cookieAuth: bool, history: seq<Event>): nat
    requires Run(cookieAuth, history).Some?
  {
    if history == [] then 0
    else
      var front, e := history[..|history| - 1], history[|history| - 1];
      var c := Run(cookieAuth, front).value;
      if e == Disconnect || Authenticates(c, e) then 0
      else FailuresInARow(cookieAuth, front) + if e.Close? && c.sockets[e.socket].armed then 1 else 0
  }

  lemma {:induction false} AttemptsAreFailures(cookieAuth: bool, history: seq<Event>)
    requires Run(cookieAuth, history).Some?
    ensures Run(cookieAuth, history).value.reconnectAttempt == FailuresInARow(cookieAuth, history)
  {
    hide Delay, SendsToken;
    if history != [] {
      AttemptsAreFailures(cookieAuth, history[..|history| - 1]);
    }
  }

  /** What the delay after so many failures would be without jitter: 1, 2, 4, 8, 16 and then 30 seconds. */
  ghost function Unjittered(failures: nat): int {
    match failures
    case 0 => 1000
    case 1 => 2000
    case 2 => 4000
    case 3 => 8000
    case 4 => 16000
    case _ => 30000
  }

  lemma BaseIs(attempt: nat)
    ensures Base(attempt) == Unjittered(attempt)
  {
    BaseGrows(attempt);
    if attempt < 5 {
      assert Pow2(1) == 2 && Pow2(2) == 4 && Pow2(3) == 8 && Pow2(4) == 16;
    }
  }

  /** The nearest integer to a share of four to six fifths of it, as the random number says, up to 30 seconds. */
  ghost predicate IsJittered(delay: int, failures: nat, random: real) {
    var wanted := Unjittered(failures) as real * (0.8 + 0.4 * random);
    var capped := if wanted < 30000.0 then wanted else 30000.0;
    capped - 0.5 < delay as real <= capped + 0.5
  }

  lemma DelayIsJittered(attempt: nat, random: real)
    ensures IsJittered(Delay(attempt, random), attempt, random)
  {
    BaseIs(attempt);
    var base := Base(attempt) as real;
    assert base + base * 0.2 * (random * 2.0 - 1.0) == base * (0.8 + 0.4 * random);
    hide Base, Unjittered;
  }

  /**
   In any run a close with its handler in place sets one timer, with the delay for the number of closes since the last
   authentication or disconnect; any other close sets none.
   */
  lemma ClosesBackOff(cookieAuth: bool, history: seq<Event>, i: nat, random: real)
    requires Run(cookieAuth, history).Some? && Enabled(Run(cookieAuth, history).value, Close(i, random))
    ensures var c := Run(cookieAuth, history).value;
            var d := Step(c, Close(i, random));
            if c.sockets[i].armed then
              && |d.timers| == |c.timers| + 1 && d.timers[..|c.timers|] == c.timers
              && d.timers[|c.timers|].pending && d.reconnectTimer == Some(|c.timers|)
              && IsJittered(d.timers[|c.timers|].delay, FailuresInARow(cookieAuth, history), random)
            else
              d.timers == c.timers && d.reconnectTimer == c.reconnectTimer
  {
    AttemptsAreFailures(cookieAuth, history);
    var c := Run(cookieAuth, history).value;
    CloseSets(c, i, random);
    DelayIsJittered(FailuresInARow(cookieAuth, history), random);
    hide *;
  }

  lemma CloseSets(c: Client, i: nat, random: real)
    requires Enabled(c, Close(i, random)) && 0.0 <= random < 1.0
    ensures var d := Step(c, Close(i, random));
            if c.sockets[i].armed then
              && |d.timers| == |c.timers| + 1 && d.timers[..|c.timers|] == c.timers
              && d.timers[|c.timers|] == Timer(true, Delay(c.reconnectAttempt, random))
              && d.reconnectTimer == Some(|c.timers|)
            else
              d.timers == c.timers && d.reconnectTimer == c.reconnectTimer
  {
    hide Delay;
  }

  // ----- what the owner has said -----

  /** Registered since the last disconnect and not taken back. */
  ghost predicate Registered(history: seq<Event>, callback: int) {
    history != []
    && (var front, e := history[..|history| - 1], history[|history| - 1];
        e == OnReconnect(callback) || (e != OffReconnect(callback) && e != Disconnect && Registered(front, callback)))
  }

  /** The token set last, which no disconnect takes back. */
  ghost function LastToken(history: seq<Event>): Option<string> {
    if history == [] then None
    else if history[|history| - 1].SetAuth? then history[|history| - 1].token
    else LastToken(history[..|history| - 1])
  }

  /** In any run the client holds exactly the callbacks registered since the last disconnect, and the token set last. */
  lemma {:induction false} OwnersWordIsKept(cookieAuth: bool, history: seq<Event>)
    requires Run(cookieAuth, history).Some?
    ensures var c := Run(cookieAuth, history).value;
            && (forall callback :: callback in c.callbacks <==> Registered(history, callback))
            && c.token == LastToken(history) && c.cookieAuth == cookieAuth
  {
    if history != [] {
      var front, e := history[..|history| - 1], history[|history| - 1];
      OwnersWordIsKept(cookieAuth, front);
      StepKeepsWord(Run(cookieAuth, front).value, e);
      hide Step, Enabled;
    }
  }

  lemma StepKeepsWord(c: Client, e: Event)
    requires Enabled(c, e)
    ensures var d := Step(c, e);
            && d.cookieAuth == c.cookieAuth && d.token == (if e.SetAuth? then e.token else c.token)
            && forall callback :: callback in d.callbacks <==>
                 e == OnReconnect(callback) || (e != OffReconnect(callback) && e != Disconnect && callback in c.callbacks)
  {
    hide Delay, SendsToken;
  }

  /** A disconnect closes the client's own socket unless it had closed already, and no other socket changes. */
  lemma DisconnectCloses(c: Client, i: nat)
    requires i < |c.sockets|
    ensures var d := Step(c, Disconnect);
            && |d.sockets| == |c.sockets|
            && (c.ws != Some(i) ==> d.sockets[i] == c.sockets[i])
            && (c.ws == Some(i) ==> !d.sockets[i].armed)
            && (c.ws == Some(i) && c.sockets[i].state == Closed ==> d.sockets[i].state == Closed)
            && (c.ws == Some(i) && c.sockets[i].state != Closed ==> d.sockets[i].state == Closing)
  {
  }

  // ----- what an opening sends -----

  /**
   An opening sends the token on the client's own socket when there is one to send and no cookie does the job, and is not
   authenticated before the acknowledgement; otherwise it counts as authenticated and sends nothing.
   */
  lemma OpenSends(c: Client, i: nat)
    requires Enabled(c, Open(i)) && c.ws == Some(i)
    ensures var d := Step(c, Open(i));
            if !c.cookieAuth && c.token.Some? && c.token.value != "" then
              && d.sent == c.sent + [(i, c.token.value)] && d.notified == c.notified
              && d.reconnectAttempt == c.reconnectAttempt && d.hasConnectedBefore == c.hasConnectedBefore
            else
              d.sent == c.sent && d.reconnectAttempt == 0 && d.hasConnectedBefore
  {
  }

  // ----- who is told about a reconnect -----

  /** How many sockets existed at the last disconnect. */
  function SocketsAtLastDisconnect(cookieAuth: bool, history: seq<Event>): nat {
    if history == [] then 0
    else
      var front := history[..|history| - 1];
      if history[|history| - 1] == Disconnect
      then (if Run(cookieAuth, front).Some? then |Run(cookieAuth, front).value.sockets| else 0)
      else SocketsAtLastDisconnect(cookieAuth, front)
  }

  /** The event authenticates the connection. */
  ghost predicate Authenticates(c: Client, e: Event) {
    e.AuthAck? || (e.Open? && !SendsToken(c))
  }

  /** Since the last disconnect, a connection was authenticated or a socket with its close handler in place closed. */
  ghost predicate HadConnection(cookieAuth: bool, history: seq<Event>)
    requires Run(cookieAuth, history).Some?
  {
    history != []
    && (var front, e := history[..|history| - 1], history[|history| - 1];
        && e != Disconnect
        && (|| Authenticates(Run(cookieAuth, front).value, e)
            || (e.Close? && Run(cookieAuth, front).value.sockets[e.socket].armed)
            || HadConnection(cookieAuth, front)))
  }

  /** The sockets still armed are those opened since then. */
  ghost predicate ArmedSince(c: Client, base: nat) {
    && base <= |c.sockets|
    && (forall i :: base <= i < |c.sockets| ==> c.sockets[i].armed)
    && (forall i :: IsArmed(c, i) ==> i >= base)
  }

  lemma {:induction false} ArmedSinceDisconnect(cookieAuth: bool, history: seq<Event>)
    requires Run(cookieAuth, history).Some? && ConnectsWhenIdle(history)
    ensures ArmedSince(Run(cookieAuth, history).value, SocketsAtLastDisconnect(cookieAuth, history))
  {
    hide Delay, SendsToken;
    if history != [] {
      var front, e := history[..|history| - 1], history[|history| - 1];
      ArmedSinceDisconnect(cookieAuth, front);
      RunsAreTracked(cookieAuth, front);
      StepKeepsTracked(Run(cookieAuth, front).value, e, Wanted(front));
      StepKeepsArmedSince(Run(cookieAuth, front).value, e, Wanted(front), SocketsAtLastDisconnect(cookieAuth, front));
    }
  }

  lemma StepKeepsArmedSince(c: Client, e: Event, wanted: bool, base: nat)
    requires Tracked(c, wanted) && Enabled(c, e) && ArmedSince(c, base)
    ensures e != Disconnect ==> ArmedSince(Step(c, e), base)
    ensures e == Disconnect ==> ArmedSince(Step(c, e), |c.sockets|)
  {
    hide Delay, SendsToken;
    var d := Step(c, e);
    forall i | IsArmed(d, i) && i < |c.sockets| ensures IsArmed(c, i) {}
    if e == Disconnect { DisconnectKeepsTracked(c, wanted); }
  }

  /** When the owner connects only when idle, the closes that count are those of sockets opened since the last disconnect. */
  lemma HandledClosesAreRecent(cookieAuth: bool, history: seq<Event>, i: nat, random: real)
    requires Run(cookieAuth, history).Some? && ConnectsWhenIdle(history)
    requires Enabled(Run(cookieAuth, history).value, Close(i, random))
    ensures Run(cookieAuth, history).value.sockets[i].armed <==> i >= SocketsAtLastDisconnect(cookieAuth, history)
  {
    ArmedSinceDisconnect(cookieAuth, history);
    var c := Run(cookieAuth, history).value;
    assert c.sockets[i].armed ==> IsArmed(c, i);
  }

  lemma {:induction false} RecoveringIff(cookieAuth: bool, history: seq<Event>)
    requires Run(cookieAuth, history).Some?
    ensures Recovering(Run(cookieAuth, history).value) <==> HadConnection(cookieAuth, history)
  {
    if history != [] {
      var front, e := history[..|history| - 1], history[|history| - 1];
      RecoveringIff(cookieAuth, front);
      StepRecovers(Run(cookieAuth, front).value, e);
      hide Step, Enabled, Recovering, Authenticates;
    }
  }

  lemma StepRecovers(c: Client, e: Event)
    requires Enabled(c, e)
    ensures Recovering(Step(c, e))
            <==> e != Disconnect && (Authenticates(c, e) || (e.Close? && c.sockets[e.socket].armed) || Recovering(c))
  {
    hide Delay, SendsToken;
  }

  /**
   In any run an authentication runs the reconnect callbacks exactly when an earlier authentication or handled close
   happened since the last disconnect, and nothing else ever runs them.
   */
  lemma CallbacksRunOnRecovery(cookieAuth: bool, history: seq<Event>, e: Event)
    requires Run(cookieAuth, history).Some? && Enabled(Run(cookieAuth, history).value, e)
    ensures var c := Run(cookieAuth, history).value;
            Step(c, e).notified
            == c.notified + (if Authenticates(c, e) && HadConnection(cookieAuth, history) then [c.callbacks] else [])
  {
    RecoveringIff(cookieAuth, history);
    hide Run;
    StepNotifies(Run(cookieAuth, history).value, e);
  }

  lemma StepNotifies(c: Client, e: Event)
    requires Enabled(c, e)
    ensures Step(c, e).notified == c.notified + (if Authenticates(c, e) && Recovering(c) then [c.callbacks] else [])
  {
    hide Delay, SendsToken;
  }

  lemma RunOneMore(cookieAuth: bool, front: seq<Event>, e: Event, c: Client)
    requires Run(cookieAuth, front) == Some(c) && Enabled(c, e)
    ensures Run(cookieAuth, front + [e]) == Some(Step(c, e))
  {
    assert (front + [e])[..|front|] == front;
  }

  /** Connecting twice leaves the first socket armed through the disconnect, and its close reconnects. */
  lemma DoubleConnectOutlivesDisconnect()
    ensures var history := [Connect, Connect, Disconnect, Close(0, 0.5)];
            && !Wanted(history)
            && Run(true, history).Some?
            && IsPending(Run(true, history).value, 0)
  {
    DoubleConnectIsUnwanted();
    NothingRuns(true);
    DoubleConnectState();
    hide *;
    var c := Initial(true);
    var twice := Connected(Connected(c));
    assert [] + [Connect] == [Connect] && [Connect] + [Connect] == [Connect, Connect];
    assert [Connect, Connect] + [Disconnect] == [Connect, Connect, Disconnect];
    assert [Connect, Connect, Disconnect] + [Close(0, 0.5)] == [Connect, Connect, Disconnect, Close(0, 0.5)];
    RunOneMore(true, [], Connect, c);
    RunOneMore(true, [Connect], Connect, Connected(c));
    RunOneMore(true, [Connect, Connect], Disconnect, twice);
    RunOneMore(true, [Connect, Connect, Disconnect], Close(0, 0.5), Step(twice, Disconnect));
  }

  /** Connecting again while only a reconnect timer is pending leaves nothing: the disconnect stops both. */
  lemma ConnectWhileWaitingLeavesNothing(random: real)
    requires 0.0 <= random < 1.0
    ensures var history := [Connect, Close(0, random), Connect, Disconnect];
            && Run(true, history).Some?
            && Armed(Run(true, history).value) == {} && Pending(Run(true, history).value) == {}
            && !ConnectsWhenIdle(history)
  {
    WaitingIsWanted(random);
    NothingRuns(true);
    WaitingState(random);
    hide *;
    var once := Connected(Initial(true));
    var waiting := Step(once, Close(0, random));
    assert [] + [Connect] == [Connect] && [Connect] + [Close(0, random)] == [Connect, Close(0, random)];
    assert [Connect, Close(0, random)] + [Connect] == [Connect, Close(0, random), Connect];
    assert [Connect, Close(0, random), Connect] + [Disconnect] == [Connect, Close(0, random), Connect, Disconnect];
    RunOneMore(true, [], Connect, Initial(true));
    RunOneMore(true, [Connect], Close(0, random), once);
    RunOneMore(true, [Connect, Close(0, random)], Connect, waiting);
    RunOneMore(true, [Connect, Close(0, random), Connect], Disconnect, Connected(waiting));
  }

  lemma WaitingIsWanted(random: real)
    ensures !ConnectsWhenIdle([Connect, Close(0, random), Connect, Disconnect])
  {
    assert [Connect, Close(0, random), Connect, Disconnect][..3] == [Connect, Close(0, random), Connect];
    assert [Connect, Close(0, random), Connect][..2] == [Connect, Close(0, random)];
    assert [Connect, Close(0, random)][..1] == [Connect];
    assert Wanted([Connect]);
  }

  lemma WaitingState(random: real)
    requires 0.0 <= random < 1.0
    ensures var once := Connected(Initial(true));
            && Enabled(Initial(true), Connect) && Step(Initial(true), Connect) == once
            && Enabled(once, Close(0, random))
            && var waiting := Step(once, Close(0, random));
            && Enabled(waiting, Connect) && Step(waiting, Connect) == Connected(waiting)
            && Enabled(Connected(waiting), Disconnect)
            && Armed(Step(Connected(waiting), Disconnect)) == {} && Pending(Step(Connected(waiting), Disconnect)) == {}
  {
    hide Delay, Base;
    var once := Connected(Initial(true));
    assert once.sockets == [Socket(Connecting, true)];
    var both := Connected(Step(once, Close(0, random)));
    assert both.sockets == [Socket(Closed, true), Socket(Connecting, true)] && |both.timers| == 1;
  }

  lemma NothingRuns(cookieAuth: bool)
    ensures Run(cookieAuth, []) == Some(Initial(cookieAuth))
  {
  }

  lemma DoubleConnectIsUnwanted()
    ensures !Wanted([Connect, Connect, Disconnect, Close(0, 0.5)])
  {
    assert [Connect, Connect, Disconnect, Close(0, 0.5)][..3] == [Connect, Connect, Disconnect];
  }

  lemma DoubleConnectState()
    ensures var once, twice := Connected(Initial(true)), Connected(Connected(Initial(true)));
            && Enabled(Initial(true), Connect) && Step(Initial(true), Connect) == once
            && Enabled(once, Connect) && Step(once, Connect) == twice
            && Enabled(twice, Disconnect)
            && Enabled(Step(twice, Disconnect), Close(0, 0.5))
            && IsPending(Step(Step(twice, Disconnect), Close(0, 0.5)), 0)
  {
    hide Delay, Base;
    var c := Step(Connected(Connected(Initial(true))), Disconnect);
    assert c.sockets[0] == Socket(Connecting, true);
  }
}
