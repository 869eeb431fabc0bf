/**
 The pending chat queue: one head task and the follow-ups queued behind it, updated by send
 responses and lifecycle events that may arrive late, twice and out of order.

 Task ids stand for the id strings under their collation order, so they are integers here.
 `undefined` and `{}` behave alike in every operation and are both `EMPTY`.
 */
module PendingQueue {
  import opened Wrappers

  type TaskId = int

  /** A `created_at` string: empty, not a date, or a date with its epoch milliseconds. */
  datatype Stamp = Blank | Unparseable(text: string) | At(text: string, millis: int)

  datatype Task = Task(
    id: TaskId, status: string, createdAt: Stamp, messageId: Option<string>, content: Option<string>)

  datatype Pending = Pending(
    head: Option<TaskId>, status: Option<string>, createdAt: Option<Stamp>,
    messageId: Option<string>, content: Option<string>,
    supportsQueue: Option<bool>, queued: Option<seq<Task>>)

  const EMPTY := Pending(None, None, None, None, None, None, None)

  /** A send response carries its message; the realtime event for the same task does not. */
  predicate Rich(t: Task) {
    t.messageId.Some? && t.messageId.value != ""
  }

  function Queue(p: Pending): seq<Task> {
    p.queued.GetOr([])
  }

  // ----- ordering -----

  function Compare(l: Task, r: Task): int {
    if l.createdAt.At? && r.createdAt.At? && l.createdAt.millis != r.createdAt.millis
    then l.createdAt.millis - r.createdAt.millis
    else l.id - r.id
  }

  /** (created_at, task_id) order, for tasks whose times parse. */
  predicate Earlier(l: Task, r: Task) {
    && l.createdAt.At? && r.createdAt.At?
    && (l.createdAt.millis < r.createdAt.millis
        || (l.createdAt.millis == r.createdAt.millis && l.id < r.id))
  }

  /** Times decide when both parse and differ; otherwise ids do, as when a time is missing or malformed. */
  lemma CompareMeaning(l: Task, r: Task)
    ensures l.createdAt.At? && r.createdAt.At? && l.createdAt.millis < r.createdAt.millis ==> Compare(l, r) < 0 < Compare(r, l)
    ensures (l.createdAt.At? && r.createdAt.At? ==> l.createdAt.millis == r.createdAt.millis) && l.id < r.id
            ==> Compare(l, r) < 0 < Compare(r, l)
    ensures Compare(l, r) == 0 ==> l.id == r.id
  {
  }

  ghost predicate Ascending(q: seq<Task>) {
    forall i, j :: 0 <= i < j < |q| ==> Earlier(q[i], q[j])
  }

  ghost predicate Timed(q: seq<Task>) {
    forall t :: t in q ==> t.createdAt.At?
  }

  ghost predicate Distinct(q: seq<Task>) {
    forall i, j :: 0 <= i < j < |q| ==> q[i].id != q[j].id
  }

  ghost predicate HasId(q: seq<Task>, id: TaskId) {
    exists t :: t in q && t.id == id
  }

  function Position(t: Task, q: seq<Task>): (k: nat)
    ensures k <= |q|
    ensures forall i :: 0 <= i < k ==> Compare(t, q[i]) >= 0
    ensures k < |q| ==> Compare(t, q[k]) < 0
  {
    if q == [] || Compare(t, q[0]) < 0 then 0 else 1 + Position(t, q[1..])
  }

  function Place(t: Task, s: seq<Task>): (r: seq<Task>)
    ensures |r| == |s| + 1
  {
    var k := Position(t, s);
    s[..k] + [t] + s[k..]
  }

  /** The stable sort of the runtime, as insertion after everything not greater. */
  function Sort(q: seq<Task>): (s: seq<Task>)
    ensures |s| == |q|
  {
    if q == [] then [] else Place(q[|q| - 1], Sort(q[..|q| - 1]))
  }

  lemma PlacePermutes(t: Task, s: seq<Task>)
    ensures multiset(Place(t, s)) == multiset(s) + multiset{t}
  {
    assert s == s[..Position(t, s)] + s[Position(t, s)..];
  }

  lemma PlaceOrders(t: Task, s: seq<Task>)
    requires forall i :: 0 <= i < |s| ==> s[i].id != t.id
    ensures Distinct(s) ==> Distinct(Place(t, s))
    ensures Ascending(s) && Timed(s) && t.createdAt.At? ==> Ascending(Place(t, s))
  {
    var k := Position(t, s);
    if Ascending(s) && Timed(s) && t.createdAt.At? {
      forall i | 0 <= i < |s| ensures if i < k then Earlier(s[i], t) else Earlier(t, s[i]) {
        assert s[i] in s;
        if k < i { assert Earlier(s[k], s[i]); }
      }
      hide Earlier, Position, Compare;
      InsertionAscends(t, s, k);
    }
  }

  lemma InsertionAscends(t: Task, s: seq<Task>, k: nat)
    requires k <= |s| && Ascending(s)
    requires forall i :: 0 <= i < |s| ==> if i < k then Earlier(s[i], t) else Earlier(t, s[i])
    ensures Ascending(s[..k] + [t] + s[k..])
  {
    hide Earlier;
    var r := s[..k] + [t] + s[k..];
    forall i, j | 0 <= i < j < |r| ensures Earlier(r[i], r[j]) {
      if i < k <= j && k < j { assert Earlier(s[i], s[j - 1]); }
    }
  }

  lemma {:induction false} SortPermutes(q: seq<Task>)
    ensures multiset(Sort(q)) == multiset(q)
    ensures forall t :: t in Sort(q) <==> t in q
  {
    if q != [] {
      SortPermutes(q[..|q| - 1]);
      PlacePermutes(q[|q| - 1], Sort(q[..|q| - 1]));
      assert q == q[..|q| - 1] + [q[|q| - 1]];
    }
    assert forall t :: t in Sort(q) <==> t in multiset(Sort(q));
    assert forall t :: t in q <==> t in multiset(q);
  }

  lemma {:induction false} SortOrders(q: seq<Task>)
    requires Distinct(q)
    ensures Distinct(Sort(q))
    ensures Timed(q) ==> Ascending(Sort(q))
  {
    if q != [] {
      var front, last := q[..|q| - 1], q[|q| - 1];
      SortOrders(front);
      SortPermutes(front);
      forall i | 0 <= i < |front| ensures Sort(front)[i].id != last.id {
        assert Sort(front)[i] in front;
      }
      assert Timed(q) ==> Timed(front) && last.createdAt.At?;
      PlaceOrders(last, Sort(front));
    }
  }

  lemma {:induction false} AscendingUnique(a: seq<Task>, b: seq<Task>)
    requires Ascending(a) && Ascending(b)
    requires forall t :: t in a <==> t in b
    ensures a == b
  {
    assert a != [] ==> a[0] in b;
    assert b != [] ==> b[0] in a;
    if a != [] {
      assert a[0] in b && b[0] in a;
      assert a[0] == b[0];
      forall t ensures t in a[1..] <==> t in b[1..] {
        if t in a[1..] { assert t in b && t != b[0]; }
        if t in b[1..] { assert t in a && t != a[0]; }
      }
      AscendingUnique(a[1..], b[1..]);
    }
  }

  // ----- deduplication -----

  function IndexOf(q: seq<Task>, id: TaskId): (k: nat)
    ensures k <= |q|
    ensures k < |q| ==> q[k].id == id
    ensures forall i :: 0 <= i < k ==> q[i].id != id
  {
    if q == [] || q[0].id == id then 0 else 1 + IndexOf(q[1..], id)
  }

  function Observe(q: seq<Task>, t: Task): seq<Task> {
    var k := IndexOf(q, t.id);
    if k == |q| then q + [t] else if Rich(t) then q[k := t] else q
  }

  function Unique(tasks: seq<Task>): seq<Task> {
    if tasks == [] then [] else Observe(Unique(tasks[..|tasks| - 1]), tasks[|tasks| - 1])
  }

  /** One loop over an insertion-ordered Map: `order` is its key order, `byId` its contents. */
  method UniqueQueue(tasks: seq<Task>) returns (out: seq<Task>)
    ensures out == Unique(tasks)
    ensures Distinct(out)
    ensures forall t :: t in out <==> Best(tasks, t.id) == Some(t)
  {
    var order: seq<TaskId> := [];
    var byId: map<TaskId, Task> := map[];
    hide Best, Observe;
    for n := 0 to |tasks|
      invariant Lists(order, byId, Unique(tasks[..n]))
    {
      UniqueFacts(tasks[..n]);
      assert tasks[..n + 1][..n] == tasks[..n];
      MapSet(order, byId, Unique(tasks[..n]), tasks[n]);
      var task := tasks[n];
      if task.id !in byId || Rich(task) {
        if task.id !in byId { order := order + [task.id]; }
        byId := byId[task.id := task];
      }
    }
    assert tasks[..|tasks|] == tasks;
    UniqueFacts(tasks);
    out := [];
    for n := 0 to |order|
      invariant out == Unique(tasks)[..n]
    {
      out := out + [byId[order[n]]];
    }
  }

  /** A Map with keys `order` (in insertion order) and contents `byId` lists the values `q`. */
  ghost predicate Lists(order: seq<TaskId>, byId: map<TaskId, Task>, q: seq<Task>) {
    && |order| == |q|
    && (forall i :: 0 <= i < |q| ==> order[i] == q[i].id && order[i] in byId && byId[order[i]] == q[i])
    && (forall id :: id in byId ==> id in order)
  }

  lemma ListsReplace(order: seq<TaskId>, byId: map<TaskId, Task>, q: seq<Task>, k: nat, t: Task)
    requires Lists(order, byId, q) && Distinct(q) && k < |q| && q[k].id == t.id
    ensures Lists(order, byId[t.id := t], q[k := t])
  {
    var q', byId' := q[k := t], byId[t.id := t];
    forall i | 0 <= i < |q'| ensures order[i] == q'[i].id && order[i] in byId' && byId'[order[i]] == q'[i] {
      if i != k { assert q[i].id != q[k].id; }
    }
    assert order[k] in order;
  }

  lemma ListsAppend(order: seq<TaskId>, byId: map<TaskId, Task>, q: seq<Task>, t: Task)
    requires Lists(order, byId, q) && t.id !in byId
    ensures Lists(order + [t.id], byId[t.id := t], q + [t])
  {
    var order', q', byId' := order + [t.id], q + [t], byId[t.id := t];
    forall id | id in byId' ensures id in order' {
      if id == t.id { assert order'[|q|] == id; } else { assert id in order; }
    }
  }

  lemma ListsHas(order: seq<TaskId>, byId: map<TaskId, Task>, q: seq<Task>, id: TaskId)
    requires Lists(order, byId, q)
    ensures id in byId <==> IndexOf(q, id) < |q|
  {
    var k := IndexOf(q, id);
    if k < |q| { assert order[k] == id; }
    if id in byId {
      var i :| 0 <= i < |order| && order[i] == id;
      assert q[i].id == id;
    }
  }

  lemma MapSet(order: seq<TaskId>, byId: map<TaskId, Task>, q: seq<Task>, t: Task)
    requires Lists(order, byId, q) && Distinct(q)
    ensures t.id in byId <==> IndexOf(q, t.id) < |q|
    ensures t.id !in byId ==> Lists(order + [t.id], byId[t.id := t], Observe(q, t))
    ensures t.id in byId && Rich(t) ==> Lists(order, byId[t.id := t], Observe(q, t))
    ensures t.id in byId && !Rich(t) ==> Lists(order, byId, Observe(q, t))
  {
    hide Lists;
    ListsHas(order, byId, q, t.id);
    if t.id in byId { ListsReplace(order, byId, q, IndexOf(q, t.id), t); } else { ListsAppend(order, byId, q, t); }
  }

  /** The observation of `id` that survives: the last rich one, else the first one (see BestMeaning). */
  ghost function Best(tasks: seq<Task>, id: TaskId): Option<Task> {
    if tasks == [] then None
    else
      var before := Best(tasks[..|tasks| - 1], id);
      var t := tasks[|tasks| - 1];
      if t.id == id && (before.None? || Rich(t)) then Some(t) else before
  }

  /** The k-th observation survives: rich and the last rich one of its task, or the first one and none is rich. */
  ghost predicate Survives(tasks: seq<Task>, k: nat) {
    && k < |tasks|
    && if Rich(tasks[k])
       then forall j :: k < j < |tasks| && tasks[j].id == tasks[k].id ==> !Rich(tasks[j])
       else (forall j :: 0 <= j < |tasks| && tasks[j].id == tasks[k].id ==> !Rich(tasks[j]))
            && forall j :: 0 <= j < k ==> tasks[j].id != tasks[k].id
  }

  lemma HasIdSnoc(front: seq<Task>, t: Task, id: TaskId)
    ensures HasId(front + [t], id) <==> HasId(front, id) || t.id == id
  {
    assert t in front + [t];
    assert forall x :: x in front + [t] <==> x in front || x == t;
  }

  lemma HasIdAt(tasks: seq<Task>, id: TaskId)
    ensures HasId(tasks, id) <==> exists j :: 0 <= j < |tasks| && tasks[j].id == id
  {
    if HasId(tasks, id) {
      var t :| t in tasks && t.id == id;
      var j :| 0 <= j < |tasks| && tasks[j] == t;
    }
    if j :| 0 <= j < |tasks| && tasks[j].id == id { assert tasks[j] in tasks; }
  }

  lemma SurvivesSnoc(front: seq<Task>, t: Task, k: nat)
    requires Survives(front, k) && (front[k].id == t.id ==> !Rich(t))
    ensures Survives(front + [t], k)
  {
    var all := front + [t];
    assert all[k] == front[k];
    forall j | 0 <= j < |front| ensures all[j] == front[j] {}
  }

  lemma LastSurvives(front: seq<Task>, t: Task)
    requires Rich(t) || !HasId(front, t.id)
    ensures Survives(front + [t], |front|)
  {
    HasIdAt(front, t.id);
    var all := front + [t];
    forall j | 0 <= j < |front| ensures all[j] == front[j] {}
  }

  lemma BestSnoc(front: seq<Task>, t: Task, id: TaskId)
    ensures Best(front + [t], id)
         == if t.id == id && (Best(front, id).None? || Rich(t)) then Some(t) else Best(front, id)
  {
    assert (front + [t])[..|front|] == front;
  }

  lemma {:induction false} BestIsPresent(tasks: seq<Task>, id: TaskId)
    ensures Best(tasks, id).Some? <==> HasId(tasks, id)
  {
    if tasks != [] {
      var front, t := tasks[..|tasks| - 1], tasks[|tasks| - 1];
      BestIsPresent(front, id);
      HasIdSnoc(front, t, id);
      BestSnoc(front, t, id);
      hide HasId, Best;
      assert tasks == front + [t];
    }
  }

  lemma {:induction false} BestSurvives(tasks: seq<Task>, id: TaskId) returns (k: nat)
    requires Best(tasks, id).Some?
    ensures k < |tasks| && Survives(tasks, k) && tasks[k] == Best(tasks, id).value && tasks[k].id == id
  {
    var front, t := tasks[..|tasks| - 1], tasks[|tasks| - 1];
    BestIsPresent(front, id);
    BestSnoc(front, t, id);
    hide HasId, Best, Survives;
    assert tasks == front + [t];
    if t.id == id && (Best(front, id).None? || Rich(t)) {
      LastSurvives(front, t);
      k := |front|;
    } else {
      k := BestSurvives(front, id);
      InBounds(front, k);
      SurvivesSnoc(front, t, k);
    }
  }

  lemma InBounds(tasks: seq<Task>, k: nat)
    requires Survives(tasks, k)
    ensures k < |tasks|
  {
  }

  /** The best observation of a task is its last rich one, or its first when none is rich. */
  lemma BestMeaning(tasks: seq<Task>, id: TaskId)
    ensures Best(tasks, id).None? <==> !HasId(tasks, id)
    ensures Best(tasks, id).Some? ==>
              exists k :: 0 <= k < |tasks| && Survives(tasks, k) && tasks[k] == Best(tasks, id).value && tasks[k].id == id
  {
    BestIsPresent(tasks, id);
    hide HasId, Best, Survives;
    if Best(tasks, id).Some? {
      var k := BestSurvives(tasks, id);
      InBounds(tasks, k);
    }
  }

  /** `q` holds exactly the surviving observation of every task in `tasks`. */
  ghost predicate Represents(q: seq<Task>, tasks: seq<Task>) {
    Distinct(q) && forall t :: t in q <==> Best(tasks, t.id) == Some(t)
  }

  lemma {:induction false} ObserveRepresents(q: seq<Task>, tasks: seq<Task>, t: Task)
    requires Represents(q, tasks)
    ensures Represents(Observe(q, t), tasks + [t])
  {
    var all := tasks + [t];
    assert all[..|all| - 1] == tasks;
    var k := IndexOf(q, t.id);
    BestMeaning(tasks, t.id);
    if k < |q| { assert q[k] in q; }
    var r := Observe(q, t);
    forall x ensures x in r <==> Best(all, x.id) == Some(x) {
      if k < |q| && Rich(t) {
        if x in r && x != t {
          var j :| 0 <= j < |r| && r[j] == x;
          assert q[j] == x && x in q;
        }
        if x in q && x.id != t.id {
          var j :| 0 <= j < |q| && q[j] == x;
          assert r[j] == x;
        }
        assert r[k] == t;
      } else if k == |q| {
        assert forall b :: Best(tasks, t.id) == Some(b) ==> b in q && b.id == t.id;
      }
    }
  }

  lemma {:induction false} UniqueFacts(tasks: seq<Task>)
    ensures Represents(Unique(tasks), tasks)
  {
    if tasks != [] {
      var n := |tasks| - 1;
      UniqueFacts(tasks[..n]);
      ObserveRepresents(Unique(tasks[..n]), tasks[..n], tasks[n]);
      assert tasks == tasks[..n] + [tasks[n]];
    }
  }

  lemma {:induction false} UniqueOfDistinct(tasks: seq<Task>)
    requires Distinct(tasks)
    ensures Unique(tasks) == tasks
  {
    if tasks != [] {
      var n := |tasks| - 1;
      UniqueOfDistinct(tasks[..n]);
      assert tasks == tasks[..n] + [tasks[n]];
    }
  }

  function Normalize(tasks: seq<Task>): seq<Task> {
    Sort(Unique(tasks))
  }

  function Without(q: seq<Task>, id: TaskId): seq<Task> {
    if q == [] then []
    else if q[0].id == id then Without(q[1..], id)
    else [q[0]] + Without(q[1..], id)
  }

  lemma WithoutStep(q: seq<Task>, id: TaskId)
    requires q != []
    ensures Without(q, id) == (if q[0].id == id then [] else [q[0]]) + Without(q[1..], id)
  {
    var rest := Without(q[1..], id);
    assert [] + rest == rest;
  }

  lemma {:induction false} WithoutMember(q: seq<Task>, id: TaskId, t: Task)
    ensures t in Without(q, id) <==> t in q && t.id != id
  {
    if q != [] {
      WithoutMember(q[1..], id, t);
      WithoutStep(q, id);
      hide Without;
      assert q == [q[0]] + q[1..];
    }
  }

  lemma {:induction false} WithoutDistinct(q: seq<Task>, id: TaskId)
    requires Distinct(q)
    ensures Distinct(Without(q, id))
  {
    if q != [] {
      WithoutDistinct(q[1..], id);
      WithoutStep(q, id);
      hide Without;
      var r := Without(q[1..], id);
      forall i | 0 <= i < |r| ensures r[i].id != q[0].id {
        WithoutMember(q[1..], id, r[i]);
        assert r[i] in r;
      }
    }
  }

  lemma {:induction false} WithoutAbsent(q: seq<Task>, id: TaskId)
    ensures |Without(q, id)| <= |q|
    ensures !HasId(q, id) ==> Without(q, id) == q
  {
    if q != [] {
      WithoutAbsent(q[1..], id);
      WithoutStep(q, id);
      hide Without;
      assert q == [q[0]] + q[1..];
      if HasId(q[1..], id) {
        var t :| t in q[1..] && t.id == id;
        assert t in q;
      }
      assert q[0] in q;
    }
  }

  lemma WithoutFacts(q: seq<Task>, id: TaskId)
    ensures |Without(q, id)| <= |q|
    ensures forall t :: t in Without(q, id) <==> t in q && t.id != id
    ensures Distinct(q) ==> Distinct(Without(q, id))
    ensures !HasId(q, id) ==> Without(q, id) == q
  {
    hide Without, Distinct, HasId;
    WithoutAbsent(q, id);
    if Distinct(q) { WithoutDistinct(q, id); }
    forall t ensures t in Without(q, id) <==> t in q && t.id != id { WithoutMember(q, id, t); }
  }

  // ----- the four operations -----

  function AsHead(t: Task, supportsQueue: Option<bool>, queue: seq<Task>): Pending {
    Pending(Some(t.id), Some(t.status), Some(t.createdAt), t.messageId, t.content, supportsQueue, Some(queue))
  }

  /** The default of the third argument: queued exactly when another task is the head. */
  function QueuedByDefault(p: Pending, t: Task): bool {
    p.head.Some? && p.head.value != t.id
  }

  function Enqueue(p: Pending, t: Task, queued: bool): Pending {
    if p.head.None? then
      if queued
      then EMPTY.(supportsQueue := p.supportsQueue, queued := Some([t]))
      else AsHead(t, p.supportsQueue, Normalize(Without(Queue(p), t.id)))
    else if p.head.value == t.id then
      p.(status := if p.status.Some? && p.status.value != "" && p.status.value != "queued"
                   then p.status else Some(t.status),
         createdAt := if p.createdAt.Some? && p.createdAt.value != Blank then p.createdAt else Some(t.createdAt),
         messageId := if t.messageId.Some? then t.messageId else p.messageId,
         content := if t.content.Some? then t.content else p.content,
         queued := Some(Without(Queue(p), t.id)))
    else if !queued then AsHead(t, p.supportsQueue, [])
    else p.(queued := Some(Normalize(Queue(p) + [t])))
  }

  /** The head as a queue row; only its id, status and time are kept. */
  function Summary(p: Pending): Task
    requires p.head.Some?
  {
    Task(p.head.value, p.status.GetOr("queued"), p.createdAt.GetOr(Blank), None, None)
  }

  function Promote(p: Pending, id: TaskId, status: string, createdAt: Option<Stamp>): Pending {
    var queue := Queue(p);
    if p.head == Some(id) then
      p.(status := Some(status), queued := Some(Without(queue, id)))
    else
      var k := IndexOf(queue, id);
      if p.head.None? || k == |queue| then p
      else
        var previous := Summary(p);
        var at := if queue[k].createdAt != Blank then queue[k].createdAt else createdAt.GetOr(Blank);
        AsHead(queue[k].(status := status, createdAt := at), p.supportsQueue,
               Unique((if previous.status == "queued" then [previous] else []) + Without(queue, id)))
  }

  function Remove(p: Pending, id: TaskId): Pending {
    if p.head.None? then EMPTY
    else if p.head.value != id then p.(queued := Some(Without(Queue(p), id)))
    else
      var rest := Unique(Without(Queue(p), id));
      if rest == [] then EMPTY else AsHead(rest[0], p.supportsQueue, rest[1..])
  }

  function Prioritize(p: Pending, id: TaskId): Pending {
    if p.head.None? then EMPTY
    else
      var queue := Queue(p);
      var k := IndexOf(queue, id);
      if k == |queue| then p else p.(queued := Some([queue[k]] + Without(queue, id)))
  }

  // ----- every run -----

  datatype Event =
    | EnqueueEvent(task: Task, queued: Option<bool>)
    | PromoteEvent(id: TaskId, status: string, createdAt: Option<Stamp>)
    | RemoveEvent(id: TaskId)
    | PrioritizeEvent(id: TaskId)

  function Apply(p: Pending, e: Event): Pending {
    match e
    case EnqueueEvent(t, queued) => Enqueue(p, t, queued.GetOr(QueuedByDefault(p, t)))
    case PromoteEvent(id, status, createdAt) => Promote(p, id, status, createdAt)
    case RemoveEvent(id) => Remove(p, id)
    case PrioritizeEvent(id) => Prioritize(p, id)
  }

  function Run(p: Pending, events: seq<Event>): Pending {
    if events == [] then p else Apply(Run(p, events[..|events| - 1]), events[|events| - 1])
  }

  /** Queue ids are distinct and the head is not queued behind itself. */
  ghost predicate WellFormed(p: Pending) {
    Distinct(Queue(p)) && (p.head.Some? ==> !HasId(Queue(p), p.head.value))
  }

  ghost function Tracked(p: Pending): set<TaskId> {
    (set t <- Queue(p) :: t.id) + (if p.head.Some? then {p.head.value} else {})
  }

  lemma NormalizeFacts(tasks: seq<Task>)
    ensures Represents(Normalize(tasks), tasks)
    ensures forall id :: HasId(Normalize(tasks), id) <==> HasId(tasks, id)
  {
    UniqueFacts(tasks);
    SortPermutes(Unique(tasks));
    SortOrders(Unique(tasks));
    forall id ensures HasId(Normalize(tasks), id) <==> HasId(tasks, id) {
      BestMeaning(tasks, id);
      if HasId(tasks, id) { assert Best(tasks, id).value in Normalize(tasks); }
    }
  }

  lemma DistinctParts(queue: seq<Task>, k: nat)
    requires Distinct(queue) && k < |queue|
    ensures IndexOf(queue, queue[k].id) == k
    ensures !HasId(queue[..k], queue[k].id) && !HasId(queue[k + 1..], queue[k].id)
  {
  }

  lemma {:induction false} WithoutMiddle(a: seq<Task>, t: Task, b: seq<Task>)
    requires !HasId(a, t.id) && !HasId(b, t.id)
    ensures Without(a + [t] + b, t.id) == a + b
  {
    var all := a + [t] + b;
    if a == [] {
      WithoutFacts(b, t.id);
      assert all[1..] == b;
    } else {
      assert a[0] in a;
      WithoutMiddle(a[1..], t, b);
      assert all[1..] == a[1..] + [t] + b;
    }
  }

  /** Removing a task that occurs once leaves what stood before it and what stood after it. */
  lemma WithoutAt(queue: seq<Task>, k: nat)
    requires k < |queue|
    requires !HasId(queue[..k], queue[k].id) && !HasId(queue[k + 1..], queue[k].id)
    ensures Without(queue, queue[k].id) == queue[..k] + queue[k + 1..]
  {
    hide *;
    WithoutMiddle(queue[..k], queue[k], queue[k + 1..]);
    assert queue == queue[..k] + [queue[k]] + queue[k + 1..];
  }

  lemma EnqueueKeeps(p: Pending, t: Task, queued: bool)
    requires WellFormed(p)
    ensures WellFormed(Enqueue(p, t, queued))
  {
    var q := Queue(p);
    WithoutFacts(q, t.id);
    NormalizeFacts(Without(q, t.id));
    NormalizeFacts(q + [t]);
    if p.head.Some? { HasIdGrows(q, t, p.head.value); }
  }

  lemma PromoteKeeps(p: Pending, id: TaskId, status: string, createdAt: Option<Stamp>)
    requires WellFormed(p)
    ensures WellFormed(Promote(p, id, status, createdAt))
  {
    WithoutFacts(Queue(p), id);
    if p.head.Some? && p.head.value != id {
      var kept := (if Summary(p).status == "queued" then [Summary(p)] else []) + Without(Queue(p), id);
      assert !HasId(kept, id);
      UniqueFacts(kept);
      BestMeaning(kept, id);
    }
  }

  lemma RemoveKeeps(p: Pending, id: TaskId)
    requires WellFormed(p)
    ensures WellFormed(Remove(p, id))
  {
    WithoutFacts(Queue(p), id);
    UniqueOfDistinct(Without(Queue(p), id));
    hide Without, Unique;
  }

  lemma PrioritizeKeeps(p: Pending, id: TaskId)
    requires WellFormed(p)
    ensures WellFormed(Prioritize(p, id))
  {
    WithoutFacts(Queue(p), id);
    hide Without;
  }

  lemma StepKeepsWellFormed(p: Pending, e: Event)
    requires WellFormed(p)
    ensures WellFormed(Apply(p, e))
  {
    hide WellFormed, Enqueue, Promote, Remove, Prioritize;
    match e {
      case EnqueueEvent(t, queued) => EnqueueKeeps(p, t, queued.GetOr(QueuedByDefault(p, t)));
      case PromoteEvent(id, status, createdAt) => PromoteKeeps(p, id, status, createdAt);
      case RemoveEvent(id) => RemoveKeeps(p, id);
      case PrioritizeEvent(id) => PrioritizeKeeps(p, id);
    }
  }

  /** Over every run, queue ids stay distinct and never contain the head. */
  lemma {:induction false} RunKeepsWellFormed(p: Pending, events: seq<Event>)
    requires WellFormed(p)
    ensures WellFormed(Run(p, events))
  {
    if events != [] {
      RunKeepsWellFormed(p, events[..|events| - 1]);
      StepKeepsWellFormed(Run(p, events[..|events| - 1]), events[|events| - 1]);
    }
  }

  // ----- what one step does to a headed state -----

  /** A queued send tracks its own task and nothing else; a sparse copy never replaces what is known. */
  lemma QueuedSendAddsOne(p: Pending, t: Task)
    requires WellFormed(p) && p.head.Some? && p.head.value != t.id
    ensures Enqueue(p, t, true) == p.(queued := Enqueue(p, t, true).queued)
    ensures Tracked(Enqueue(p, t, true)) == Tracked(p) + {t.id}
    ensures forall x: Task :: x in Queue(Enqueue(p, t, true)) <==>
              if x.id == t.id && (Rich(t) || !HasId(Queue(p), t.id)) then x == t else x in Queue(p)
  {
    var q, r := Queue(p), Enqueue(p, t, true);
    SelfRepresents(q);
    NormalizeSend(q, q, t);
    assert (q + [t])[..|q|] == q;
    BestMeaning(q, t.id);
    NormalizeFacts(q + [t]);
    forall x ensures x in Tracked(r) <==> x in Tracked(p) + {t.id} {
      TrackedMeaning(p, x);
      TrackedMeaning(r, x);
      assert HasId(q + [t], x) <==> HasId(q, x) || x == t.id by { HasIdGrows(q, t, x); }
    }
  }

  /** A copy of a queued task without a message, or with an empty one, changes nothing; one with a message replaces it. */
  lemma SparseCopyChangesNothing(p: Pending, t: Task, known: Task)
    requires WellFormed(p) && p.head.Some? && p.head.value != t.id && known in Queue(p) && known.id == t.id
    ensures t.messageId.None? || t.messageId.value == "" ==>
              forall x :: x in Queue(Enqueue(p, t, true)) <==> x in Queue(p)
    ensures t.messageId.Some? && t.messageId.value != "" ==>
              forall x :: x in Queue(Enqueue(p, t, true)) <==> x == t || (x in Queue(p) && x.id != t.id)
  {
    QueuedSendAddsOne(p, t);
    assert HasId(Queue(p), t.id);
    hide Enqueue, WellFormed;
  }

  /** Without a head there is nothing to remove, to promote or to put first, and no hidden queue is left by a removal. */
  lemma HeadlessEvents(p: Pending, id: TaskId, status: string, createdAt: Option<Stamp>)
    requires p.head.None?
    ensures Promote(p, id, status, createdAt) == p
    ensures Remove(p, id) == Prioritize(p, id) == Pending(None, None, None, None, None, None, None)
  {
  }

  lemma HasIdGrows(q: seq<Task>, t: Task, x: TaskId)
    ensures HasId(q + [t], x) <==> HasId(q, x) || x == t.id
  {
    assert forall y :: y in q + [t] <==> y in q || y == t;
  }

  /** This queue row is the head, with its time, message and content. */
  ghost predicate Heads(p: Pending, t: Task) {
    p.head == Some(t.id) && p.createdAt == Some(t.createdAt) && p.messageId == t.messageId && p.content == t.content
  }

  /** Before the head is known a queued send replaces the hidden queue; an idle one becomes the head of it. */
  lemma HeadlessSends(p: Pending, t: Task)
    requires WellFormed(p) && p.head.None?
    ensures Tracked(Enqueue(p, t, true)) == {t.id} && Enqueue(p, t, true).head.None?
    ensures Tracked(Enqueue(p, t, false)) == Tracked(p) + {t.id} && Enqueue(p, t, false).head == Some(t.id)
    ensures var hidden := Enqueue(p, t, true);
            && hidden.queued == Some([t]) && hidden.supportsQueue == p.supportsQueue
            && hidden.status.None? && hidden.createdAt.None? && hidden.messageId.None? && hidden.content.None?
    ensures var idle := Enqueue(p, t, false);
            Heads(idle, t) && idle.status == Some(t.status) && idle.supportsQueue == p.supportsQueue
  {
    var r := Enqueue(p, t, false);
    NormalizeFacts(Without(Queue(p), t.id));
    forall x ensures x in Tracked(r) <==> x in Tracked(p) + {t.id} {
      WithoutHasId(Queue(p), t.id, x);
      TrackedMeaning(p, x);
      TrackedMeaning(r, x);
    }
  }

  /** A send for the head itself, or one that is not queued, leaves no second copy and no stale follow-up. */
  lemma OtherSends(p: Pending, t: Task)
    requires WellFormed(p) && p.head.Some?
    ensures p.head.value == t.id ==>
              forall queued :: var r := Enqueue(p, t, queued);
                r.head == p.head && Queue(r) == Queue(p) && r.supportsQueue == p.supportsQueue
                && (p.status.Some? && p.status.value !in {"", "queued"} ==> r.status == p.status)
                && (p.status.None? || p.status.value in {"", "queued"} ==> r.status == Some(t.status))
    ensures p.head.value != t.id ==>
              var r := Enqueue(p, t, false);
              && Tracked(r) == {t.id} && r.head == Some(t.id) && r.supportsQueue == p.supportsQueue
              && Heads(r, t) && r.status == Some(t.status) && Queue(r) == []
  {
    WithoutFacts(Queue(p), t.id);
  }

  /** A repeat of the head adds what it knows and loses nothing: a sparse one keeps the message, any one the known time. */
  lemma RepeatKeepsHead(p: Pending, t: Task, queued: bool)
    requires p.head == Some(t.id)
    ensures var r := Enqueue(p, t, queued);
            && (t.messageId.None? ==> r.messageId == p.messageId) && (t.messageId.Some? ==> r.messageId == t.messageId)
            && (t.content.None? ==> r.content == p.content) && (t.content.Some? ==> r.content == t.content)
            && (p.messageId.Some? ==> r.messageId.Some?) && (p.content.Some? ==> r.content.Some?)
            && (p.createdAt.Some? && p.createdAt != Some(Blank) ==> r.createdAt == p.createdAt)
            && (p.createdAt.None? || p.createdAt == Some(Blank) ==> r.createdAt == Some(t.createdAt))
            && r.queued.Some? && forall x :: x in Queue(r) <==> x in Queue(p) && x.id != t.id
  {
    WithoutFacts(Queue(p), t.id);
    hide Without;
  }

  /** When the head finishes, the first follow-up takes its place and the rest keep their order. */
  lemma RemoveHead(p: Pending)
    requires WellFormed(p) && p.head.Some?
    ensures Remove(p, p.head.value)
            == if Queue(p) == [] then EMPTY else AsHead(Queue(p)[0], p.supportsQueue, Queue(p)[1..])
    ensures var r := Remove(p, p.head.value);
            if Queue(p) == [] then
              && r.head.None? && r.status.None? && r.createdAt.None? && r.messageId.None? && r.content.None?
              && r.supportsQueue.None? && r.queued.None?
            else
              && Heads(r, Queue(p)[0]) && r.status == Some(Queue(p)[0].status)
              && r.supportsQueue == p.supportsQueue && Queue(r) == Queue(p)[1..]
  {
    WithoutFacts(Queue(p), p.head.value);
    UniqueOfDistinct(Queue(p));
  }

  lemma RemoveDeletesOne(p: Pending, id: TaskId)
    requires WellFormed(p) && p.head.Some?
    ensures Tracked(Remove(p, id)) == Tracked(p) - {id}
    ensures p.head.value != id ==> Remove(p, id) == p.(queued := Some(Without(Queue(p), id)))
  {
    var r := Remove(p, id);
    forall x ensures x in Tracked(r) <==> x in Tracked(p) && x != id {
      TrackedMeaning(p, x);
      TrackedMeaning(r, x);
      if p.head.value == id {
        RemoveHead(p);
        if Queue(p) != [] { assert HasId(Queue(p), x) <==> x == Queue(p)[0].id || HasId(Queue(p)[1..], x) by { HasIdSplits(Queue(p), x); } }
      } else {
        WithoutHasId(Queue(p), id, x);
      }
    }
  }

  lemma TrackedMeaning(p: Pending, x: TaskId)
    ensures x in Tracked(p) <==> p.head == Some(x) || HasId(Queue(p), x)
  {
  }

  lemma HasIdSplits(q: seq<Task>, x: TaskId)
    requires q != []
    ensures HasId(q, x) <==> q[0].id == x || HasId(q[1..], x)
  {
    assert q == [q[0]] + q[1..];
    assert forall t :: t in q <==> t == q[0] || t in q[1..];
  }

  lemma WithoutHasId(q: seq<Task>, id: TaskId, x: TaskId)
    ensures HasId(Without(q, id), x) <==> HasId(q, x) && x != id
  {
    WithoutFacts(q, id);
    if HasId(q, x) && x != id {
      var t :| t in q && t.id == x;
      assert t in Without(q, id);
    }
  }

  lemma PrioritizePermutes(p: Pending, id: TaskId)
    requires WellFormed(p) && p.head.Some?
    ensures var r := Prioritize(p, id);
            && r == p.(queued := r.queued)
            && multiset(Queue(r)) == multiset(Queue(p))
            && (!HasId(Queue(p), id) ==> r == p)
            && (HasId(Queue(p), id) ==>
                  Queue(r) != [] && Queue(r)[0].id == id && Queue(r)[1..] == Without(Queue(p), id))
  {
    var q := Queue(p);
    var k := IndexOf(q, id);
    if k < |q| {
      DistinctParts(q, k);
      WithoutAt(q, k);
      FrontMoves(q, k);
    } else {
      assert !HasId(q, id);
    }
  }

  lemma FrontMoves(q: seq<Task>, k: nat)
    requires k < |q|
    ensures multiset([q[k]] + (q[..k] + q[k + 1..])) == multiset(q)
  {
    assert q == q[..k] + [q[k]] + q[k + 1..];
  }

  /**
   A lifecycle event promotes only a task that is already queued; the rest of the queue keeps its
   order behind the old head, which is dropped exactly when it was already running.
   */
  lemma PromoteSwapsHead(p: Pending, id: TaskId, status: string, createdAt: Option<Stamp>)
    requires WellFormed(p) && p.head.Some?
    ensures var r := Promote(p, id, status, createdAt);
            && (id !in Tracked(p) ==> r == p)
            && (p.head.value == id ==> r == p.(status := Some(status), queued := Some(Queue(p))))
            && (HasId(Queue(p), id) ==>
                  && r.head == Some(id) && r.status == Some(status) && r.supportsQueue == p.supportsQueue
                  && Queue(r) == (if p.status.GetOr("queued") == "queued" then [Summary(p)] else [])
                                 + Without(Queue(p), id))
    ensures forall k :: 0 <= k < |Queue(p)| && Queue(p)[k].id == id && p.head.value != id ==>
              var r, t := Promote(p, id, status, createdAt), Queue(p)[k];
              && r.messageId == t.messageId && r.content == t.content
              && (t.createdAt != Blank ==> r.createdAt == Some(t.createdAt))
              && (t.createdAt == Blank && createdAt.Some? ==> r.createdAt == createdAt)
              && (t.createdAt == Blank && createdAt.None? ==> r.createdAt == Some(Blank))
              && (p.status == Some("queued") || p.status.None? ==>
                    && Queue(r) != [] && Queue(r)[0].id == p.head.value && Queue(r)[0].status == "queued"
                    && Queue(r)[0].messageId.None? && Queue(r)[0].content.None?
                    && (p.createdAt.Some? ==> Queue(r)[0].createdAt == p.createdAt.value)
                    && (p.createdAt.None? ==> Queue(r)[0].createdAt == Blank))
  {
    var q := Queue(p);
    WithoutFacts(q, id);
    TrackedMeaning(p, id);
    assert HasId(q, id) <==> IndexOf(q, id) < |q|;
    HeadIsNew(p, id);
    if HasId(q, id) { FoundIsOnly(q, id); }
    hide Tracked, Without, IndexOf, Unique, HasId, Distinct, WellFormed;
    if p.head.value != id && IndexOf(q, id) < |q| {
      UniqueOfDistinct((if Summary(p).status == "queued" then [Summary(p)] else []) + Without(q, id));
    }
  }

  lemma FoundIsOnly(q: seq<Task>, id: TaskId)
    requires Distinct(q) && HasId(q, id)
    ensures forall k :: 0 <= k < |q| && q[k].id == id ==> k == IndexOf(q, id)
  {
    forall k | 0 <= k < |q| && q[k].id == id ensures k == IndexOf(q, id) { DistinctParts(q, k); }
  }

  /** Put in front of the rest of the queue, the old head makes no repeat. */
  lemma HeadIsNew(p: Pending, id: TaskId)
    requires WellFormed(p) && p.head.Some?
    ensures Distinct(Without(Queue(p), id)) && Distinct([Summary(p)] + Without(Queue(p), id))
  {
    var r := Without(Queue(p), id);
    WithoutFacts(Queue(p), id);
    forall i | 0 <= i < |r| ensures r[i].id != p.head.value { assert r[i] in r && r[i] in Queue(p); }
  }

  lemma PromoteTracks(p: Pending, id: TaskId, status: string, createdAt: Option<Stamp>)
    requires WellFormed(p) && p.head.Some?
    ensures Tracked(Promote(p, id, status, createdAt))
            == if HasId(Queue(p), id) && p.status.GetOr("queued") != "queued" then Tracked(p) - {p.head.value}
               else Tracked(p)
  {
    var q, r := Queue(p), Promote(p, id, status, createdAt);
    PromoteSwapsHead(p, id, status, createdAt);
    TrackedMeaning(p, id);
    if HasId(q, id) {
      forall x ensures HasId(Queue(r), x) <==>
                       (HasId(q, x) && x != id) || (x == p.head.value && p.status.GetOr("queued") == "queued") {
        WithoutHasId(q, id, x);
        if p.status.GetOr("queued") == "queued" { HasIdSplits(Queue(r), x); }
      }
      forall x ensures x in Tracked(r) <==> r.head == Some(x) || HasId(Queue(r), x) { TrackedMeaning(r, x); }
      forall x ensures x in Tracked(p) <==> p.head == Some(x) || HasId(q, x) { TrackedMeaning(p, x); }
    }
  }

  // ----- arrival order does not matter -----

  /** The state after a series of sends that each took the default: queued behind another head. */
  function Sends(p: Pending, observations: seq<Task>): Pending {
    if observations == [] then p
    else
      var before := Sends(p, observations[..|observations| - 1]);
      var t := observations[|observations| - 1];
      Enqueue(before, t, QueuedByDefault(before, t))
  }

  lemma NormalizeSend(q: seq<Task>, tasks: seq<Task>, t: Task)
    requires Represents(q, tasks)
    ensures Represents(Normalize(q + [t]), tasks + [t])
  {
    UniqueOfDistinct(q);
    assert (q + [t])[..|q|] == q;
    ObserveRepresents(q, tasks, t);
    SortPermutes(Observe(q, t));
    SortOrders(Observe(q, t));
  }

  lemma QueuedSend(p: Pending, t: Task)
    requires p.head.Some? && p.head.value != t.id
    ensures Enqueue(p, t, QueuedByDefault(p, t)) == p.(queued := Some(Normalize(Queue(p) + [t])))
  {
  }

  /** The queue is exactly the surviving observation of each task, whatever arrived in between. */
  lemma {:induction false} SendsRepresent(p: Pending, observations: seq<Task>)
    requires p.head.Some? && Distinct(Queue(p)) && !HasId(observations, p.head.value)
    ensures var r := Sends(p, observations);
            && r == p.(queued := r.queued)
            && Represents(Queue(r), Queue(p) + observations)
  {
    if observations == [] {
      assert Queue(p) + observations == Queue(p);
      SelfRepresents(Queue(p));
    } else {
      var front, t := observations[..|observations| - 1], observations[|observations| - 1];
      assert observations == front + [t];
      HeadIsOutside(front, t, p.head.value);
      SendsRepresent(p, front);
      SendRepresents(p, front, t);
    }
  }

  lemma SendRepresents(p: Pending, front: seq<Task>, t: Task)
    requires p.head.Some? && t.id != p.head.value
    requires Sends(p, front) == p.(queued := Sends(p, front).queued)
    requires Represents(Queue(Sends(p, front)), Queue(p) + front)
    ensures Sends(p, front + [t]) == p.(queued := Sends(p, front + [t]).queued)
    ensures Represents(Queue(Sends(p, front + [t])), Queue(p) + (front + [t]))
  {
    var before := Sends(p, front);
    var q := Queue(before);
    SendsSnoc(p, front, t);
    QueuedSend(before, t);
    NormalizeSend(q, Queue(p) + front, t);
    ConcatAssociates(Queue(p), front, [t]);
    var all := Queue(p) + (front + [t]);
    assert Represents(Normalize(q + [t]), all);
    hide *;
    QueueIs(before, Normalize(q + [t]));
  }

  lemma QueueIs(p: Pending, q: seq<Task>)
    ensures Queue(p.(queued := Some(q))) == q
  {
  }

  lemma ConcatAssociates(a: seq<Task>, b: seq<Task>, c: seq<Task>)
    ensures a + b + c == a + (b + c)
  {
  }

  lemma SendsSnoc(p: Pending, front: seq<Task>, t: Task)
    ensures var before := Sends(p, front);
            Sends(p, front + [t]) == Enqueue(before, t, QueuedByDefault(before, t))
  {
    assert (front + [t])[..|front|] == front;
  }

  lemma SelfRepresents(q: seq<Task>)
    requires Distinct(q)
    ensures Represents(q, q)
  {
    UniqueOfDistinct(q);
    UniqueFacts(q);
  }

  lemma LastSendNormalizes(p: Pending, front: seq<Task>, t: Task)
    requires p.head.Some? && Distinct(Queue(p)) && !HasId(front, p.head.value) && t.id != p.head.value
    ensures Sends(p, front + [t]) == p.(queued := Some(Normalize(Queue(Sends(p, front)) + [t])))
  {
    SendsRepresent(p, front);
    QueuedSend(Sends(p, front), t);
    assert (front + [t])[..|front|] == front;
  }

  /** Every surviving observation of these has a time that parses. */
  ghost predicate BestAreTimed(tasks: seq<Task>) {
    forall t :: t in tasks && Best(tasks, t.id) == Some(t) ==> t.createdAt.At?
  }

  lemma RepresentedTimed(q: seq<Task>, tasks: seq<Task>)
    requires Represents(q, tasks) && BestAreTimed(tasks)
    ensures Timed(q)
  {
    forall x | x in q ensures x.createdAt.At? {
      BestMeaning(tasks, x.id);
    }
  }

  lemma SendsAscend(p: Pending, observations: seq<Task>)
    requires p.head.Some? && Distinct(Queue(p)) && !HasId(observations, p.head.value)
    requires BestAreTimed(Queue(p) + observations) && (observations != [] || Ascending(Queue(p)))
    ensures Ascending(Queue(Sends(p, observations)))
  {
    if observations == [] {
      assert Sends(p, observations) == p;
    } else {
      var front, t := observations[..|observations| - 1], observations[|observations| - 1];
      assert observations == front + [t];
      HeadIsOutside(front, t, p.head.value);
      hide HasId, Distinct, Represents, Normalize, Sends, Best, BestAreTimed, Timed, Ascending;
      SendsRepresent(p, observations);
      RepresentedTimed(Queue(Sends(p, observations)), Queue(p) + observations);
      LastSendNormalizes(p, front, t);
      NormalizeAscends(Queue(Sends(p, front)) + [t]);
    }
  }

  lemma HeadIsOutside(front: seq<Task>, t: Task, head: TaskId)
    requires !HasId(front + [t], head)
    ensures !HasId(front, head) && t.id != head
  {
    assert t in front + [t];
    assert forall x :: x in front ==> x in front + [t];
  }

  lemma NormalizeAscends(tasks: seq<Task>)
    requires Timed(Normalize(tasks))
    ensures Ascending(Normalize(tasks))
  {
    UniqueFacts(tasks);
    SortPermutes(Unique(tasks));
    SortOrders(Unique(tasks));
  }

  /** Every task has exactly one distinct rich observation among these. */
  ghost predicate OneRichEach(observations: seq<Task>) {
    && (forall t :: t in observations ==> exists r :: r in observations && r.id == t.id && Rich(r))
    && (forall a, b :: a in observations && b in observations && Rich(a) && Rich(b) && a.id == b.id ==> a == b)
  }

  lemma BestIsTheRich(observations: seq<Task>, t: Task)
    requires OneRichEach(observations)
    ensures Best(observations, t.id) == Some(t) <==> t in observations && Rich(t)
  {
    BestMeaning(observations, t.id);
    if t in observations && Rich(t) {
      var b := Best(observations, t.id);
      assert b.Some?;
      var k :| 0 <= k < |observations| && observations[k] == t;
      assert Rich(b.value);
    }
    if Best(observations, t.id) == Some(t) {
      assert t in observations;
      var r :| r in observations && r.id == t.id && Rich(r);
      var k :| 0 <= k < |observations| && observations[k] == r;
    }
  }

  /** What a run of sends on top of this queue needs: one timed rich observation per task, the queued ones included. */
  ghost predicate Orderly(p: Pending, observations: seq<Task>) {
    && p.head.Some? && Distinct(Queue(p)) && !HasId(observations, p.head.value)
    && OneRichEach(Queue(p) + observations)
    && (forall t :: t in Queue(p) + observations && Rich(t) ==> t.createdAt.At?)
    && (observations != [] || Ascending(Queue(p)))
  }

  lemma SendsAreTheRich(p: Pending, observations: seq<Task>)
    requires Orderly(p, observations)
    ensures Sends(p, observations) == p.(queued := Sends(p, observations).queued)
    ensures Ascending(Queue(Sends(p, observations)))
    ensures forall t :: t in Queue(Sends(p, observations)) <==> t in Queue(p) + observations && Rich(t)
  {
    var all := Queue(p) + observations;
    SendsRepresent(p, observations);
    forall t: Task ensures Best(all, t.id) == Some(t) <==> t in all && Rich(t) {
      BestIsTheRich(all, t);
    }
    SendsAscend(p, observations);
  }

  /**
   Sparse and rich observations of the same sends, arriving on top of a head and its queue in any order and any number
   of times, converge to one state as long as both histories saw the same rich observations.
   */
  lemma ArrivalOrderIsIrrelevant(p: Pending, first: seq<Task>, second: seq<Task>)
    requires Orderly(p, first) && Orderly(p, second)
    requires forall t :: Rich(t) ==> (t in Queue(p) + first <==> t in Queue(p) + second)
    ensures Queue(Sends(p, first)) == Queue(Sends(p, second))
    ensures first != [] && second != [] ==> Sends(p, first) == Sends(p, second)
    ensures Ascending(Queue(Sends(p, first)))
    ensures forall t :: t in Queue(Sends(p, first)) <==> t in Queue(p) + first && Rich(t)
  {
    SendsAreTheRich(p, first);
    SendsAreTheRich(p, second);
    hide Sends, Orderly;
    AscendingUnique(Queue(Sends(p, first)), Queue(Sends(p, second)));
    OrderlyIsHeaded(p, first);
    OrderlyIsHeaded(p, second);
    QueuedIsSome(p, first);
    QueuedIsSome(p, second);
  }

  lemma OrderlyIsHeaded(p: Pending, observations: seq<Task>)
    requires Orderly(p, observations)
    ensures p.head.Some? && Distinct(Queue(p)) && !HasId(observations, p.head.value)
  {
  }

  lemma QueuedIsSome(p: Pending, observations: seq<Task>)
    requires p.head.Some? && Distinct(Queue(p)) && !HasId(observations, p.head.value)
    ensures observations != [] ==> Sends(p, observations).queued.Some?
  {
    if observations != [] {
      var front, t := observations[..|observations| - 1], observations[|observations| - 1];
      assert observations == front + [t];
      LastSendNormalizes(p, front, t);
    }
  }

  /** The heads shown one after the other as each head finishes. */
  function Drain(p: Pending): seq<TaskId>
    decreases |Queue(p)| + (if p.head.Some? then 1 else 0)
  {
    if p.head.None? then []
    else
      WithoutFacts(Queue(p), p.head.value);
      UniqueShrinks(Without(Queue(p), p.head.value));
      [p.head.value] + Drain(Remove(p, p.head.value))
  }

  lemma UniqueShrinks(q: seq<Task>)
    ensures |Unique(q)| <= |q|
  {
  }

  function IdsOf(q: seq<Task>): (ids: seq<TaskId>)
    ensures |ids| == |q| && forall i :: 0 <= i < |q| ==> ids[i] == q[i].id
  {
    seq(|q|, i requires 0 <= i < |q| => q[i].id)
  }

  lemma {:induction false} DrainFollowsQueue(p: Pending)
    requires WellFormed(p) && p.head.Some?
    ensures Drain(p) == [p.head.value] + IdsOf(Queue(p))
    decreases |Queue(p)|
  {
    var rest := Remove(p, p.head.value);
    RemoveHead(p);
    if Queue(p) != [] {
      StepKeepsWellFormed(p, RemoveEvent(p.head.value));
      DrainFollowsQueue(rest);
      IdsSplit(Queue(p));
    } else {
      assert IdsOf(Queue(p)) == [];
    }
  }

  lemma IdsSplit(q: seq<Task>)
    requires q != []
    ensures IdsOf(q) == [q[0].id] + IdsOf(q[1..])
  {
  }

  /** Draining shows the old head and then every task queued or sent, once, in (created_at, task_id) order. */
  lemma DrainInSendOrder(p: Pending, observations: seq<Task>)
    requires WellFormed(p) && Orderly(p, observations)
    ensures exists q :: && Ascending(q)
                        && (forall t :: t in q <==> t in Queue(p) + observations && Rich(t))
                        && Drain(Sends(p, observations)) == [p.head.value] + IdsOf(q)
  {
    SendsAreTheRich(p, observations);
    SendsRepresent(p, observations);
    var r := Sends(p, observations);
    forall t | t in Queue(r) ensures t.id != p.head.value { assert t in Queue(p) || t in observations; }
    DrainFollowsQueue(r);
  }

  // ----- the transcript -----

  datatype Message = Message(id: string, taskId: Option<TaskId>)

  /** The queued task a message id belongs to; of two queue rows naming it, the later one. */
  function OwnerOf(queue: seq<Task>, messageId: string): Option<TaskId> {
    if queue == [] then None
    else
      var t := queue[|queue| - 1];
      if Rich(t) && t.messageId.value == messageId then Some(t.id) else OwnerOf(queue[..|queue| - 1], messageId)
  }

  predicate Hidden(m: Message, p: Pending) {
    var owner := OwnerOf(Queue(p), m.id);
    owner.Some? && owner == m.taskId
  }

  function HideQueued(messages: seq<Message>, p: Pending): seq<Message> {
    if messages == [] then []
    else
      (if Hidden(messages[0], p) then [] else [messages[0]]) + HideQueued(messages[1..], p)
  }

  lemma {:induction false} OwnerMeaning(queue: seq<Task>, messageId: string)
    ensures OwnerOf(queue, messageId).Some? ==>
              exists t :: t in queue && Rich(t) && t.messageId.value == messageId
                && t.id == OwnerOf(queue, messageId).value
    ensures OwnerOf(queue, messageId).None? ==>
              forall t :: t in queue && Rich(t) ==> t.messageId.value != messageId
  {
    if queue != [] {
      var front, last := queue[..|queue| - 1], queue[|queue| - 1];
      OwnerMeaning(front, messageId);
      assert last in queue;
      assert forall t :: t in queue <==> t in front || t == last;
    }
  }

  lemma {:induction false} HideKeepsCount(messages: seq<Message>, p: Pending, m: Message)
    ensures multiset(HideQueued(messages, p))[m] == if Hidden(m, p) then 0 else multiset(messages)[m]
  {
    if messages != [] {
      HideKeepsCount(messages[1..], p, m);
      assert messages == [messages[0]] + messages[1..];
      assert multiset(HideQueued(messages, p))
          == (if Hidden(messages[0], p) then multiset{} else multiset{messages[0]}) + multiset(HideQueued(messages[1..], p));
    }
  }

  /** In every reachable state no message of the head task is hidden, and each keeps all its copies. */
  lemma HeadMessagesStayVisible(p: Pending, events: seq<Event>, messages: seq<Message>, m: Message)
    requires WellFormed(p)
    requires Run(p, events).head.Some? && m.taskId == Run(p, events).head
    ensures multiset(HideQueued(messages, Run(p, events)))[m] == multiset(messages)[m]
  {
    RunKeepsWellFormed(p, events);
    OwnerMeaning(Queue(Run(p, events)), m.id);
    HideKeepsCount(messages, Run(p, events), m);
  }

  /** The k-th queue row is the last one that names the message. */
  ghost predicate NamesLast(queue: seq<Task>, messageId: string, k: nat) {
    && k < |queue| && Rich(queue[k]) && queue[k].messageId.value == messageId
    && forall j :: k < j < |queue| && Rich(queue[j]) ==> queue[j].messageId.value != messageId
  }

  lemma {:induction false} OwnerNamesLast(queue: seq<Task>, messageId: string, k: nat)
    requires NamesLast(queue, messageId, k)
    ensures OwnerOf(queue, messageId) == Some(queue[k].id)
  {
    var front, last := queue[..|queue| - 1], |queue| - 1;
    if k < last { OwnerNamesLast(front, messageId, k); }
  }

  lemma {:induction false} OwnerIsNamed(queue: seq<Task>, messageId: string)
    requires OwnerOf(queue, messageId).Some?
    ensures exists k: nat :: NamesLast(queue, messageId, k)
  {
    var front, last := queue[..|queue| - 1], queue[|queue| - 1];
    if Rich(last) && last.messageId.value == messageId {
      assert NamesLast(queue, messageId, |queue| - 1);
    } else {
      OwnerIsNamed(front, messageId);
      var k: nat :| NamesLast(front, messageId, k);
      assert NamesLast(queue, messageId, k);
    }
  }

  /**
   A message is hidden exactly if the last queue row naming it is of its own task; when no two rows name one message,
   exactly if its own task is still queued.
   */
  lemma HiddenExactlyWhileQueued(p: Pending, m: Message)
    ensures Hidden(m, p) <==>
              exists k: nat :: NamesLast(Queue(p), m.id, k) && m.taskId == Some(Queue(p)[k].id)
    ensures (forall a, b :: a in Queue(p) && b in Queue(p) && Rich(a) && Rich(b) && a.messageId == b.messageId ==> a.id == b.id)
            ==> (Hidden(m, p) <==>
                 exists t :: t in Queue(p) && Rich(t) && t.messageId.value == m.id && m.taskId == Some(t.id))
  {
    OwnerMeaning(Queue(p), m.id);
    forall k: nat | NamesLast(Queue(p), m.id, k) ensures OwnerOf(Queue(p), m.id) == Some(Queue(p)[k].id) {
      OwnerNamesLast(Queue(p), m.id, k);
    }
    if OwnerOf(Queue(p), m.id).Some? { OwnerIsNamed(Queue(p), m.id); }
  }
}
