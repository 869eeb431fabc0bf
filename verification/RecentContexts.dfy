/**
 Most-recent-first lists of distinct keys, cut to a capacity, as both recency stores keep them.
 */
module Recency {
  datatype Entry<K, V> = Entry(key: K, value: V)

  function Without<K(==), V>(list: seq<Entry<K, V>>, key: K): seq<Entry<K, V>> {
    if list == [] then []
    else (if list[0].key == key then [] else [list[0]]) + Without(list[1..], key)
  }

  function Take<T>(list: seq<T>, n: nat): seq<T> {
    if |list| <= n then list else list[..n]
  }

  function Promote<K(==), V>(list: seq<Entry<K, V>>, e: Entry<K, V>, capacity: nat): seq<Entry<K, V>> {
    Take([e] + Without(list, e.key), capacity)
  }

  /** The unbounded list: every key visited so far, most recent first, with the value of its last visit. */
  function MostRecent<K(==), V>(visits: seq<Entry<K, V>>): seq<Entry<K, V>> {
    if visits == [] then []
    else [visits[|visits| - 1]] + Without(MostRecent(visits[..|visits| - 1]), visits[|visits| - 1].key)
  }

  ghost predicate HasKey<K, V>(list: seq<Entry<K, V>>, key: K) {
    list != [] && (list[0].key == key || HasKey(list[1..], key))
  }

  ghost predicate DistinctKeys<K, V>(list: seq<Entry<K, V>>) {
    list == [] || (!HasKey(list[1..], list[0].key) && DistinctKeys(list[1..]))
  }

  lemma WithoutStep<K, V>(list: seq<Entry<K, V>>, key: K)
    requires list != []
    ensures list[0].key == key ==> Without(list, key) == Without(list[1..], key)
    ensures list[0].key != key ==> Without(list, key) == [list[0]] + Without(list[1..], key)
    ensures ([list[0]] + Without(list[1..], key))[1..] == Without(list[1..], key)
  {
  }

  lemma {:induction false} WithoutHasKey<K, V>(list: seq<Entry<K, V>>, key: K, k: K)
    ensures HasKey(Without(list, key), k) <==> HasKey(list, k) && k != key
  {
    if list != [] {
      WithoutHasKey(list[1..], key, k);
      WithoutStep(list, key);
    }
  }

  lemma {:induction false} WithoutFacts<K, V>(list: seq<Entry<K, V>>, key: K)
    ensures |Without(list, key)| <= |list|
    ensures DistinctKeys(list) ==> DistinctKeys(Without(list, key))
    ensures !HasKey(Without(list, key), key)
    ensures !HasKey(list, key) ==> Without(list, key) == list
  {
    WithoutHasKey(list, key, key);
    if list != [] {
      WithoutFacts(list[1..], key);
      WithoutHasKey(list[1..], key, list[0].key);
      WithoutStep(list, key);
      assert list == [list[0]] + list[1..];
    }
  }

  /** Removing a key, each entry for itself: the others stay, in their order. */
  lemma {:induction false} WithoutByEntry<K, V>(front: seq<Entry<K, V>>, e: Entry<K, V>, back: seq<Entry<K, V>>, key: K)
    ensures Without(front + [e] + back, key) == Without(front, key) + (if e.key == key then [] else [e]) + Without(back, key)
    ensures Without<K, V>([], key) == []
  {
    var all := front + [e] + back;
    WithoutStep(all, key);
    if front == [] {
      assert all == [e] + back && all[1..] == back;
    } else {
      assert all[1..] == front[1..] + [e] + back;
      WithoutStep(front, key);
      WithoutByEntry(front[1..], e, back, key);
      hide Without;
    }
  }

  lemma {:induction false} WithoutMembers<K, V>(list: seq<Entry<K, V>>, key: K, e: Entry<K, V>)
    requires e in Without(list, key)
    ensures e in list
  {
    if e !in (if list[0].key == key then [] else [list[0]]) { WithoutMembers(list[1..], key, e); }
  }

  lemma {:induction false} HasKeyOfTake<K, V>(list: seq<Entry<K, V>>, n: nat, key: K)
    requires HasKey(Take(list, n), key)
    ensures HasKey(list, key)
  {
    if |list| > n && list[0].key != key {
      assert list[..n][1..] == list[1..][..n - 1];
      HasKeyOfTake(list[1..], n - 1, key);
    }
  }

  lemma {:induction false} DistinctOfTake<K, V>(list: seq<Entry<K, V>>, n: nat)
    requires DistinctKeys(list)
    ensures DistinctKeys(Take(list, n))
  {
    if |list| > n > 0 {
      assert list[..n][1..] == list[1..][..n - 1];
      assert Take(list[1..], n - 1) == list[1..][..n - 1];
      DistinctOfTake(list[1..], n - 1);
      if HasKey(Take(list[1..], n - 1), list[0].key) { HasKeyOfTake(list[1..], n - 1, list[0].key); }
    }
  }

  /** Removing a key from the first n entries agrees, up to n - 1 entries, with removing it from all of them. */
  lemma {:induction false} WithoutOfTake<K, V>(list: seq<Entry<K, V>>, key: K, n: nat)
    requires DistinctKeys(list) && n > 0
    ensures Take(Without(Take(list, n), key), n - 1) == Take(Without(list, key), n - 1)
    decreases n
  {
    if |list| > n {
      var cut := Take(list[1..], n - 1);
      TakeCons(list[0], list[1..], n - 1);
      assert list == [list[0]] + list[1..];
      WithoutCons(list[0], list[1..], key);
      WithoutCons(list[0], cut, key);
      hide Without, HasKey, Take;
      if list[0].key == key {
        if HasKey(cut, key) { HasKeyOfTake(list[1..], n - 1, key); }
        KeyOfHead(list);
        WithoutFacts(list[1..], key);
        WithoutFacts(cut, key);
        TakeTwice(list[1..], n - 1);
      } else if n > 1 {
        KeyOfHead(list);
        WithoutOfTake(list[1..], key, n - 1);
        TakeCons(list[0], Without(cut, key), n - 2);
        TakeCons(list[0], Without(list[1..], key), n - 2);
      } else {
        TakeNone(Without(Take(list, n), key));
        TakeNone(Without(list, key));
      }
    }
  }

  lemma KeyOfHead<K, V>(list: seq<Entry<K, V>>)
    requires DistinctKeys(list) && list != []
    ensures !HasKey(list[1..], list[0].key) && DistinctKeys(list[1..])
  {
  }

  lemma WithoutCons<K, V>(head: Entry<K, V>, rest: seq<Entry<K, V>>, key: K)
    ensures Without([head] + rest, key) == if head.key == key then Without(rest, key) else [head] + Without(rest, key)
  {
    WithoutStep([head] + rest, key);
    assert ([head] + rest)[1..] == rest;
  }

  lemma TakeTwice<T>(list: seq<T>, n: nat)
    ensures Take(Take(list, n), n) == Take(list, n)
  {
  }

  lemma TakeNone<T>(list: seq<T>)
    ensures Take(list, 0) == []
  {
  }

  lemma TakeCons<T>(x: T, rest: seq<T>, n: nat)
    ensures Take([x] + rest, n + 1) == [x] + Take(rest, n)
  {
  }

  lemma {:induction false} HasKeyOfAppend<K, V>(list: seq<Entry<K, V>>, e: Entry<K, V>, key: K)
    ensures HasKey(list + [e], key) <==> HasKey(list, key) || e.key == key
  {
    if list != [] {
      assert (list + [e])[1..] == list[1..] + [e];
      HasKeyOfAppend(list[1..], e, key);
    }
  }

  /** The unbounded list names every visited key once, and no other. */
  lemma {:induction false} MostRecentIsDistinct<K, V>(visits: seq<Entry<K, V>>)
    ensures DistinctKeys(MostRecent(visits))
    ensures forall k :: HasKey(MostRecent(visits), k) <==> HasKey(visits, k)
  {
    if visits != [] {
      var front, last := visits[..|visits| - 1], visits[|visits| - 1];
      MostRecentIsDistinct(front);
      WithoutFacts(MostRecent(front), last.key);
      var r := Without(MostRecent(front), last.key);
      assert ([last] + r)[1..] == r && front + [last] == visits;
      forall k ensures HasKey(MostRecent(visits), k) <==> HasKey(visits, k) {
        HasKeyOfAppend(front, last, k);
        WithoutHasKey(MostRecent(front), last.key, k);
      }
    }
  }

  /** One visit on the cut list gives the cut of one visit on the full list: nothing cut off is ever needed again. */
  lemma PromoteRefines<K, V>(full: seq<Entry<K, V>>, e: Entry<K, V>, capacity: nat)
    requires DistinctKeys(full) && capacity > 0
    ensures Promote(Take(full, capacity), e, capacity) == Take([e] + Without(full, e.key), capacity)
  {
    WithoutOfTake(full, e.key, capacity);
    TakeCons(e, Without(Take(full, capacity), e.key), capacity - 1);
    TakeCons(e, Without(full, e.key), capacity - 1);
  }

  function PromoteAll<K(==), V>(visits: seq<Entry<K, V>>, capacity: nat): seq<Entry<K, V>> {
    if visits == [] then []
    else Promote(PromoteAll(visits[..|visits| - 1], capacity), visits[|visits| - 1], capacity)
  }

  /** The bounded list is the prefix of the unbounded most-recent-first list. */
  lemma {:induction false} BoundedIsPrefix<K, V>(visits: seq<Entry<K, V>>, capacity: nat)
    requires capacity > 0
    ensures PromoteAll(visits, capacity) == Take(MostRecent(visits), capacity)
  {
    if visits != [] {
      var front, last := visits[..|visits| - 1], visits[|visits| - 1];
      BoundedIsPrefix(front, capacity);
      MostRecentIsDistinct(front);
      PromoteRefines(MostRecent(front), last, capacity);
    }
  }
}

/** Recently visited issues and projects per workspace: twenty contexts each, at most fifty workspaces. */
module RecentContexts {
  import opened Recency

  const MAX_RECENT_CONTEXTS := 20
  const MAX_WORKSPACES := 50

  datatype Kind = Issue | Project

  /** The key of an entry is its type and id. */
  datatype Context = Context(kind: Kind, id: string)

  /** The display fields, and when the visit happened. */
  datatype Visit = Visit(snapshot: string, visitedAt: int)

  type Bucket = seq<Entry<Context, Visit>>

  /** `byWorkspace`: its keys in insertion order, and the bucket of each. */
  datatype Store = Store(order: seq<string>, buckets: map<string, Bucket>)

  const EMPTY_STORE := Store([], map[])

  function BucketOf(s: Store, ws: string): Bucket {
    if ws in s.buckets then s.buckets[ws] else []
  }

  /** `?.[0]?.visitedAt ?? 0` */
  function LastVisit(s: Store, ws: string): int {
    if BucketOf(s, ws) == [] then 0 else BucketOf(s, ws)[0].value.visitedAt
  }

  /** The first workspace, in key order, whose last visit is oldest. */
  function Oldest(s: Store, order: seq<string>): (ws: string)
    requires order != []
    ensures ws in order
  {
    if |order| == 1 then order[0]
    else
      var oldest, candidate := Oldest(s, order[..|order| - 1]), order[|order| - 1];
      if LastVisit(s, candidate) < LastVisit(s, oldest) then candidate else oldest
  }

  function RemoveId(order: seq<string>, ws: string): seq<string> {
    if order == [] then []
    else
      var front := RemoveId(order[..|order| - 1], ws);
      if order[|order| - 1] == ws then front else front + [order[|order| - 1]]
  }

  function Drop(s: Store, ws: string): Store {
    Store(RemoveId(s.order, ws), s.buckets - {ws})
  }

  function Put(s: Store, ws: string, bucket: Bucket): Store {
    Store(if ws in s.order then s.order else s.order + [ws], s.buckets[ws := bucket])
  }

  function Visited(s: Store, ws: string, e: Entry<Context, Visit>): Store {
    var next := Put(s, ws, Promote(BucketOf(s, ws), e, MAX_RECENT_CONTEXTS));
    if |next.order| > MAX_WORKSPACES then Drop(next, Oldest(next, next.order)) else next
  }

  function Forgotten(s: Store, ws: string, context: Context): Store {
    if ws !in s.buckets then s
    else
      var next := Without(s.buckets[ws], context);
      if |next| == |s.buckets[ws]| then s
      else if next == [] then Drop(s, ws)
      else Put(s, ws, next)
  }

  function KeepIds(order: seq<string>, allow: set<string>): seq<string> {
    if order == [] then []
    else
      var front := KeepIds(order[..|order| - 1], allow);
      if order[|order| - 1] in allow then front + [order[|order| - 1]] else front
  }

  function Pruned(s: Store, allow: set<string>): Store {
    Store(KeepIds(s.order, allow), map ws | ws in s.buckets && ws in allow :: s.buckets[ws])
  }

  class RecentContextStore {
    var order: seq<string>
    var byWorkspace: map<string, Bucket>

    ghost function Contents(): Store
      reads this
    {
      Store(order, byWorkspace)
    }

    ghost predicate Valid()
      reads this
    {
      WellFormed(Contents())
    }

    constructor ()
      ensures Valid() && Contents() == EMPTY_STORE
    {
      order, byWorkspace := [], map[];
    }

    method RecordVisit(ws: string, context: Context, snapshot: string, now: int)
      requires Valid()
      modifies this
      ensures Valid() && Contents() == Visited(old(Contents()), ws, Entry(context, Visit(snapshot, now)))
    {
      hide IsFirstOldest, WellFormedBut;
      VisitKeepsWellFormed(Contents(), ws, Entry(context, Visit(snapshot, now)));
      var bucket := if ws in byWorkspace then byWorkspace[ws] else [];
      var filtered := Without(bucket, context);
      var updated := Entry(context, Visit(snapshot, now));
      var nextBucket := Take([updated] + filtered, MAX_RECENT_CONTEXTS);
      if ws !in order { order := order + [ws]; }
      byWorkspace := byWorkspace[ws := nextBucket];
      if |order| > MAX_WORKSPACES {
        var oldest := OldestWorkspace();
        order, byWorkspace := RemoveId(order, oldest), byWorkspace - {oldest};
      }
    }

    /** The reduce over the keys. */
    method OldestWorkspace() returns (oldest: string)
      requires order != []
      ensures oldest == Oldest(Contents(), order)
      ensures IsFirstOldest(Contents(), order, oldest)
    {
      var ids := order;
      ghost var s := Contents();
      hide IsFirstOldest, LastVisit, Oldest;
      OldestIsFirst(s, ids);
      oldest := ids[0];
      OldestOfOne(s, ids[..1]);
      for n := 1 to |ids|
        invariant oldest == Oldest(s, ids[..n])
      {
        OldestOfMore(s, ids[..n + 1]);
        assert ids[..n + 1][..n] == ids[..n];
        var a := LastVisit(Store(order, byWorkspace), oldest);
        var b := LastVisit(Store(order, byWorkspace), ids[n]);
        if b < a { oldest := ids[n]; }
      }
      assert ids[..|ids|] == ids;
    }

    method ForgetContext(ws: string, context: Context)
      requires Valid()
      modifies this
      ensures Valid() && Contents() == Forgotten(old(Contents()), ws, context)
    {
      ForgetKeepsWellFormed(Contents(), ws, context);
      if ws !in byWorkspace { return; }
      var nextBucket := Without(byWorkspace[ws], context);
      if |nextBucket| == |byWorkspace[ws]| { return; }
      if nextBucket == [] {
        order, byWorkspace := RemoveId(order, ws), byWorkspace - {ws};
        return;
      }
      byWorkspace := byWorkspace[ws := nextBucket];
    }

    method PruneWorkspaces(active: seq<string>)
      requires Valid()
      modifies this
      ensures Valid() && Contents() == Pruned(old(Contents()), set ws | ws in active)
    {
      var allow := set ws | ws in active;
      PruneKeepsWellFormed(Contents(), allow);
      var nextOrder, next, changed := PickAllowed(order, byWorkspace, allow);
      if changed { order, byWorkspace := nextOrder, next; }
    }
  }

  /** The copying loop of the pruning, and whether it left anything out. */
  method PickAllowed(order: seq<string>, entries: map<string, Bucket>, allow: set<string>)
    returns (nextOrder: seq<string>, next: map<string, Bucket>, changed: bool)
    requires WellFormed(Store(order, entries))
    ensures Store(nextOrder, next) == Pruned(Store(order, entries), allow)
    ensures !changed ==> Store(nextOrder, next) == Store(order, entries)
    ensures changed <==> exists ws :: ws in order && ws !in allow
  {
    hide KeepIds, Picked, Pruned, WellFormedBut;
    ghost var s := Store(order, entries);
    PickNothing(s, allow);
    PruneKeepsWellFormed(s, allow);
    nextOrder, next, changed := [], map[], false;
    for n := 0 to |order|
      invariant Picked(s, allow, n, nextOrder, next)
      invariant !changed ==> nextOrder == order[..n]
      invariant changed <==> exists ws :: ws in order[..n] && ws !in allow
    {
      PickOne(s, allow, n, nextOrder, next);
      assert order[..n + 1] == order[..n] + [order[n]];
      if order[n] in allow {
        nextOrder := nextOrder + [order[n]];
        next := next[order[n] := entries[order[n]]];
      } else {
        changed := true;
      }
    }
    assert order[..|order|] == order;
    PrunedIs(s, allow, nextOrder, next);
  }

  /** No workspace was last visited earlier, and those in front of it were all visited later. */
  ghost predicate IsFirstOldest(s: Store, order: seq<string>, oldest: string) {
    && oldest in order
    && (forall ws :: ws in order ==> LastVisit(s, oldest) <= LastVisit(s, ws))
    && (exists k :: 0 <= k < |order| && order[k] == oldest
                    && forall j :: 0 <= j < k ==> LastVisit(s, oldest) < LastVisit(s, order[j]))
  }

  lemma OldestOfOne(s: Store, order: seq<string>)
    requires |order| == 1
    ensures Oldest(s, order) == order[0]
  {
  }

  lemma OldestOfMore(s: Store, order: seq<string>)
    requires |order| > 1
    ensures var oldest, candidate := Oldest(s, order[..|order| - 1]), order[|order| - 1];
            Oldest(s, order) == if LastVisit(s, candidate) < LastVisit(s, oldest) then candidate else oldest
  {
  }

  lemma {:induction false} OldestIsLeast(s: Store, order: seq<string>, j: nat)
    requires j < |order|
    ensures LastVisit(s, Oldest(s, order)) <= LastVisit(s, order[j])
  {
    if |order| == 1 { OldestOfOne(s, order); } else { OldestOfMore(s, order); }
    hide LastVisit, Oldest;
    var front := order[..|order| - 1];
    if |order| > 1 {
      if j < |front| {
        assert front[j] == order[j];
        OldestIsLeast(s, front, j);
      }
    }
  }

  /** Where the reduce found it. */
  lemma {:induction false} OldestIsAt(s: Store, order: seq<string>) returns (k: nat)
    requires order != []
    ensures k < |order| && order[k] == Oldest(s, order)
    ensures forall j :: 0 <= j < k ==> LastVisit(s, Oldest(s, order)) < LastVisit(s, order[j])
  {
    if |order| == 1 { OldestOfOne(s, order); } else { OldestOfMore(s, order); }
    hide LastVisit, Oldest;
    var front, last := order[..|order| - 1], |order| - 1;
    if |order| == 1 {
      k := 0;
    } else if LastVisit(s, order[last]) < LastVisit(s, Oldest(s, front)) {
      k := last;
      forall j | 0 <= j < k ensures LastVisit(s, order[last]) < LastVisit(s, order[j]) {
        OldestIsLeast(s, front, j);
        assert front[j] == order[j];
      }
    } else {
      k := OldestIsAt(s, front);
      forall j | 0 <= j < k ensures LastVisit(s, Oldest(s, order)) < LastVisit(s, order[j]) { assert front[j] == order[j]; }
    }
  }

  lemma OldestIsFirst(s: Store, order: seq<string>)
    requires order != []
    ensures IsFirstOldest(s, order, Oldest(s, order))
  {
    hide LastVisit, Oldest;
    var k := OldestIsAt(s, order);
    forall ws | ws in order ensures LastVisit(s, Oldest(s, order)) <= LastVisit(s, ws) {
      var j :| 0 <= j < |order| && order[j] == ws;
      OldestIsLeast(s, order, j);
    }
  }

  // ----- invariants of every run -----

  /** Each workspace once, at most fifty, and each bucket nonempty, within its capacity and without repeats. */
  ghost predicate WellFormed(s: Store) {
    WellFormedBut(s, MAX_WORKSPACES)
  }

  ghost predicate GoodBucket(bucket: Bucket) {
    bucket != [] && |bucket| <= MAX_RECENT_CONTEXTS && DistinctKeys(bucket)
  }

  lemma {:induction false} RemoveIdFacts(order: seq<string>, ws: string)
    requires forall i, j :: 0 <= i < j < |order| ==> order[i] != order[j]
    ensures var r := RemoveId(order, ws);
            && (forall i, j :: 0 <= i < j < |r| ==> r[i] != r[j])
            && (forall x :: x in r <==> x in order && x != ws)
            && |r| == |order| - (if ws in order then 1 else 0)
  {
    if order != [] {
      var front, last := order[..|order| - 1], order[|order| - 1];
      RemoveIdFacts(front, ws);
      assert forall x :: x in order <==> x in front || x == last;
      var r := RemoveId(front, ws);
      forall i | 0 <= i < |r| ensures r[i] != last { assert r[i] in front; }
      if last == ws { assert ws !in front; }
    }
  }

  lemma {:induction false} KeepIdsFacts(order: seq<string>, allow: set<string>)
    requires forall i, j :: 0 <= i < j < |order| ==> order[i] != order[j]
    ensures var r := KeepIds(order, allow);
            && (forall i, j :: 0 <= i < j < |r| ==> r[i] != r[j])
            && (forall x :: x in r <==> x in order && x in allow)
            && |r| <= |order|
  {
    if order != [] {
      var front, last := order[..|order| - 1], order[|order| - 1];
      KeepIdsFacts(front, allow);
      assert forall x :: x in order <==> x in front || x == last;
      var r := KeepIds(front, allow);
      forall i | 0 <= i < |r| ensures r[i] != last { assert r[i] in front; }
    }
  }

  /** Workspaces removed, each for itself: the others stay, in their order. */
  lemma {:induction false} RemoveIdByEntry(front: seq<string>, x: string, back: seq<string>, ws: string)
    ensures RemoveId(front + [x] + back, ws) == RemoveId(front, ws) + (if x == ws then [] else [x]) + RemoveId(back, ws)
    ensures RemoveId([], ws) == []
  {
    var all := front + [x] + back;
    if back == [] {
      assert all == front + [x] && all[..|all| - 1] == front;
    } else {
      var n := |back| - 1;
      assert all[..|all| - 1] == front + [x] + back[..n];
      RemoveIdByEntry(front, x, back[..n], ws);
    }
  }

  /** Workspaces kept, each for itself: in their order. */
  lemma {:induction false} KeepIdsByEntry(front: seq<string>, x: string, back: seq<string>, allow: set<string>)
    ensures KeepIds(front + [x] + back, allow) == KeepIds(front, allow) + (if x in allow then [x] else []) + KeepIds(back, allow)
    ensures KeepIds([], allow) == []
  {
    var all := front + [x] + back;
    if back == [] {
      assert all == front + [x] && all[..|all| - 1] == front;
    } else {
      var n := |back| - 1;
      assert all[..|all| - 1] == front + [x] + back[..n];
      KeepIdsByEntry(front, x, back[..n], allow);
    }
  }

  /** Forgetting takes one context from one list and leaves the other lists alone; an emptied workspace goes, and no other. */
  lemma ForgetLeaves(s: Store, ws: string, context: Context)
    requires WellFormed(s)
    ensures var t := Forgotten(s, ws, context);
            && (forall other :: other != ws ==> BucketOf(t, other) == BucketOf(s, other))
            && BucketOf(t, ws) == Without(BucketOf(s, ws), context) && !HasKey(BucketOf(t, ws), context)
            && (forall x :: x in t.buckets <==> x in s.buckets && (x == ws ==> BucketOf(t, ws) != []))
            && (forall x :: x in t.order <==> x in t.buckets)
  {
    var bucket := BucketOf(s, ws);
    WithoutFacts(bucket, context);
    RemoveIdFacts(s.order, ws);
    if |Without(bucket, context)| == |bucket| { ShorterWithout(bucket, context); }
    hide Without, HasKey, GoodBucket, RemoveId;
  }

  lemma {:induction false} ShorterWithout<K, V>(list: seq<Entry<K, V>>, key: K)
    requires |Without(list, key)| == |list|
    ensures Without(list, key) == list
  {
    if list != [] {
      WithoutStep(list, key);
      WithoutFacts(list[1..], key);
      ShorterWithout(list[1..], key);
      assert list == [list[0]] + list[1..];
    }
  }

  /** Pruning keeps just the allowed workspaces, with their lists. */
  lemma PruneLeaves(s: Store, allow: set<string>)
    ensures var t := Pruned(s, allow);
            && (forall ws :: ws in t.buckets <==> ws in s.buckets && ws in allow)
            && (forall ws :: ws in allow ==> BucketOf(t, ws) == BucketOf(s, ws))
  {
  }

  lemma PromoteIsGood(bucket: Bucket, e: Entry<Context, Visit>)
    requires bucket == [] || GoodBucket(bucket)
    ensures GoodBucket(Promote(bucket, e, MAX_RECENT_CONTEXTS))
  {
    WithoutFacts(bucket, e.key);
    var r := Without(bucket, e.key);
    assert ([e] + r)[1..] == r;
    DistinctOfTake([e] + r, MAX_RECENT_CONTEXTS);
  }

  ghost predicate WellFormedBut(s: Store, most: nat) {
    && |s.order| <= most
    && (forall i, j :: 0 <= i < j < |s.order| ==> s.order[i] != s.order[j])
    && (forall ws :: ws in s.buckets <==> ws in s.order)
    && (forall ws :: ws in s.buckets ==> GoodBucket(s.buckets[ws]))
  }

  lemma PutKeepsWellFormed(s: Store, ws: string, bucket: Bucket)
    requires WellFormed(s) && GoodBucket(bucket)
    ensures WellFormedBut(Put(s, ws, bucket), MAX_WORKSPACES + 1)
  {
    hide GoodBucket;
    var next := Put(s, ws, bucket);
    assert forall x :: x in next.order <==> x in s.order || x == ws;
  }

  lemma DropKeepsWellFormed(s: Store, ws: string)
    requires WellFormedBut(s, MAX_WORKSPACES + 1) && ws in s.order
    ensures WellFormed(Drop(s, ws))
  {
    hide GoodBucket;
    RemoveIdFacts(s.order, ws);
  }

  lemma VisitKeepsWellFormed(s: Store, ws: string, e: Entry<Context, Visit>)
    requires WellFormed(s)
    ensures WellFormed(Visited(s, ws, e))
  {
    hide GoodBucket, Promote, Put, Drop, Oldest;
    assert BucketOf(s, ws) == [] || GoodBucket(BucketOf(s, ws));
    PromoteIsGood(BucketOf(s, ws), e);
    var bucket := Promote(BucketOf(s, ws), e, MAX_RECENT_CONTEXTS);
    var next := Put(s, ws, bucket);
    PutKeepsWellFormed(s, ws, bucket);
    if |next.order| > MAX_WORKSPACES { DropKeepsWellFormed(next, Oldest(next, next.order)); }
  }

  lemma ForgetKeepsWellFormed(s: Store, ws: string, context: Context)
    requires WellFormed(s)
    ensures WellFormed(Forgotten(s, ws, context))
  {
    if ws in s.buckets { WithoutFacts(s.buckets[ws], context); }
    RemoveIdFacts(s.order, ws);
  }

  /** What the pruning loop has copied after the first n workspaces. */
  ghost predicate Picked(s: Store, allow: set<string>, n: nat, order: seq<string>, buckets: map<string, Bucket>) {
    && n <= |s.order|
    && order == KeepIds(s.order[..n], allow)
    && (forall ws :: ws in buckets <==> ws in order)
    && (forall ws :: ws in buckets ==> ws in s.buckets && buckets[ws] == s.buckets[ws])
  }

  lemma PickNothing(s: Store, allow: set<string>)
    ensures Picked(s, allow, 0, [], map[])
  {
  }

  lemma PickOne(s: Store, allow: set<string>, n: nat, order: seq<string>, buckets: map<string, Bucket>)
    requires WellFormed(s) && n < |s.order| && Picked(s, allow, n, order, buckets)
    ensures s.order[n] in s.buckets
    ensures s.order[n] in allow ==> Picked(s, allow, n + 1, order + [s.order[n]], buckets[s.order[n] := s.buckets[s.order[n]]])
    ensures s.order[n] !in allow ==> Picked(s, allow, n + 1, order, buckets)
  {
    hide GoodBucket;
    var ws := s.order[n];
    assert ws in s.order;
    assert s.order[..n + 1][..n] == s.order[..n];
    assert forall x :: x in order + [ws] <==> x in order || x == ws;
  }

  lemma PrunedIs(s: Store, allow: set<string>, order: seq<string>, buckets: map<string, Bucket>)
    requires WellFormed(s) && Picked(s, allow, |s.order|, order, buckets)
    ensures Pruned(s, allow) == Store(order, buckets) && order == KeepIds(s.order, allow)
  {
    hide GoodBucket;
    assert s.order[..|s.order|] == s.order;
    KeepIdsFacts(s.order, allow);
    assert Pruned(s, allow).buckets == buckets;
  }

  lemma PruneKeepsWellFormed(s: Store, allow: set<string>)
    requires WellFormed(s)
    ensures WellFormed(Pruned(s, allow))
    ensures KeepIds(s.order, allow) == s.order ==> Pruned(s, allow) == s
  {
    hide GoodBucket, KeepIds;
    KeepIdsFacts(s.order, allow);
    if KeepIds(s.order, allow) == s.order {
      assert Pruned(s, allow).buckets == s.buckets;
    }
  }

  // ----- the visited workspace survives -----

  /** No visit lies in the future. */
  ghost predicate UpTo(s: Store, now: int) {
    forall ws, i :: ws in s.buckets && 0 <= i < |s.buckets[ws]| ==> s.buckets[ws][i].value.visitedAt <= now
  }

  lemma {:induction false} OldestIsNotLast(s: Store, order: seq<string>, now: int)
    requires |order| > 1 && (forall i, j :: 0 <= i < j < |order| ==> order[i] != order[j])
    requires forall ws :: ws in order ==> LastVisit(s, ws) <= now
    requires LastVisit(s, order[|order| - 1]) == now
    ensures Oldest(s, order) != order[|order| - 1]
  {
    var front := order[..|order| - 1];
    assert Oldest(s, front) in front;
    var k :| 0 <= k < |front| && front[k] == Oldest(s, front);
    assert order[k] in order;
  }

  lemma PromoteKeepsUpTo(bucket: Bucket, e: Entry<Context, Visit>, i: nat)
    requires forall j :: 0 <= j < |bucket| ==> bucket[j].value.visitedAt <= e.value.visitedAt
    requires i < |Promote(bucket, e, MAX_RECENT_CONTEXTS)|
    ensures Promote(bucket, e, MAX_RECENT_CONTEXTS)[i].value.visitedAt <= e.value.visitedAt
  {
    if i > 0 { WithoutMembers(bucket, e.key, Without(bucket, e.key)[i - 1]); }
  }

  lemma PutKeepsUpTo(s: Store, ws: string, e: Entry<Context, Visit>)
    requires UpTo(s, e.value.visitedAt)
    ensures UpTo(Put(s, ws, Promote(BucketOf(s, ws), e, MAX_RECENT_CONTEXTS)), e.value.visitedAt)
  {
    hide Promote;
    var bucket := Promote(BucketOf(s, ws), e, MAX_RECENT_CONTEXTS);
    forall i | 0 <= i < |bucket| ensures bucket[i].value.visitedAt <= e.value.visitedAt {
      PromoteKeepsUpTo(BucketOf(s, ws), e, i);
    }
  }

  /** With a monotone clock, eviction never removes the workspace just visited. */
  lemma VisitedWorkspaceSurvives(s: Store, ws: string, e: Entry<Context, Visit>)
    requires WellFormed(s) && UpTo(s, e.value.visitedAt)
    ensures BucketOf(Visited(s, ws, e), ws) == Promote(BucketOf(s, ws), e, MAX_RECENT_CONTEXTS)
    ensures UpTo(Visited(s, ws, e), e.value.visitedAt)
  {
    var bucket := Promote(BucketOf(s, ws), e, MAX_RECENT_CONTEXTS);
    var next := Put(s, ws, bucket);
    PutKeepsUpTo(s, ws, e);
    if |next.order| > MAX_WORKSPACES {
      assert ws !in s.order;
      assert bucket[0] == e;
      forall x | x in next.order ensures LastVisit(next, x) <= e.value.visitedAt {}
      OldestIsNotLast(next, next.order, e.value.visitedAt);
    }
  }

  // ----- over whole histories -----

  datatype Event =
    | Record(ws: string, entry: Entry<Context, Visit>)
    | Forget(ws: string, context: Context)
    | Prune(allow: set<string>)

  function Apply(s: Store, e: Event): Store {
    match e
    case Record(ws, entry) => Visited(s, ws, entry)
    case Forget(ws, context) => Forgotten(s, ws, context)
    case Prune(allow) => Pruned(s, allow)
  }

  function Run(history: seq<Event>): Store {
    if history == [] then EMPTY_STORE else Apply(Run(history[..|history| - 1]), history[|history| - 1])
  }

  /** Over every run there are never more than fifty workspaces nor more than twenty contexts in one. */
  lemma {:induction false} RunKeepsWellFormed(history: seq<Event>)
    ensures WellFormed(Run(history))
  {
    if history != [] {
      var s := Run(history[..|history| - 1]);
      RunKeepsWellFormed(history[..|history| - 1]);
      match history[|history| - 1] {
        case Record(ws, entry) => VisitKeepsWellFormed(s, ws, entry);
        case Forget(ws, context) => ForgetKeepsWellFormed(s, ws, context);
        case Prune(allow) => PruneKeepsWellFormed(s, allow);
      }
    }
  }

  /** The clock never runs backwards, and now shows `now`. */
  ghost predicate Clocked(history: seq<Event>, now: int) {
    history == []
    || (var front, e := history[..|history| - 1], history[|history| - 1];
        if e.Record? then e.entry.value.visitedAt <= now && Clocked(front, e.entry.value.visitedAt) else Clocked(front, now))
  }

  lemma {:induction false} ClockedIsUpTo(history: seq<Event>, now: int)
    requires Clocked(history, now)
    ensures UpTo(Run(history), now)
  {
    if history != [] {
      var front, e := history[..|history| - 1], history[|history| - 1];
      var s := Run(front);
      RunKeepsWellFormed(front);
      match e {
        case Record(ws, entry) =>
          ClockedIsUpTo(front, entry.value.visitedAt);
          VisitedWorkspaceSurvives(s, ws, entry);
        case Forget(ws, context) =>
          ClockedIsUpTo(front, now);
          ForgetKeepsUpTo(s, ws, context, now);
        case Prune(allow) =>
          ClockedIsUpTo(front, now);
      }
    }
  }

  lemma ForgetKeepsUpTo(s: Store, ws: string, context: Context, now: int)
    requires WellFormed(s) && UpTo(s, now)
    ensures UpTo(Forgotten(s, ws, context), now)
  {
    if ws in s.buckets {
      var next := Without(s.buckets[ws], context);
      forall i | 0 <= i < |next| ensures next[i].value.visitedAt <= now { WithoutMembers(s.buckets[ws], context, next[i]); }
    }
  }

  /** So in every run on such a clock the workspace just visited is there, with that visit on top. */
  lemma JustVisitedIsThere(history: seq<Event>, ws: string, e: Entry<Context, Visit>)
    requires Clocked(history, e.value.visitedAt)
    ensures var bucket := BucketOf(Run(history + [Record(ws, e)]), ws); bucket != [] && bucket[0] == e
  {
    assert (history + [Record(ws, e)])[..|history|] == history;
    RunKeepsWellFormed(history);
    ClockedIsUpTo(history, e.value.visitedAt);
    VisitedWorkspaceSurvives(Run(history), ws, e);
  }

  function VisitsOf(history: seq<Event>, ws: string): Bucket {
    if history == [] then []
    else
      var front, e := VisitsOf(history[..|history| - 1], ws), history[|history| - 1];
      if e.Record? && e.ws == ws then front + [e.entry] else front
  }

  /** The workspace is never forgotten from, and once there it never goes. */
  ghost predicate Undisturbed(history: seq<Event>, ws: string) {
    history == []
    || (var front, e := history[..|history| - 1], history[|history| - 1];
        && Undisturbed(front, ws)
        && !(e.Forget? && e.ws == ws)
        && (ws in Run(front).buckets || (e.Record? && e.ws == ws) ==> ws in Apply(Run(front), e).buckets))
  }

  lemma OthersKeepBucket(s: Store, e: Event, ws: string)
    requires !(e.Record? && e.ws == ws) && !(e.Forget? && e.ws == ws)
    requires ws in s.buckets ==> ws in Apply(s, e).buckets
    ensures BucketOf(Apply(s, e), ws) == BucketOf(s, ws)
  {
  }

  /**
   Over any history that neither forgets from nor drops the workspace, its list is the 20-prefix of the
   unbounded most-recent-first list of the distinct contexts visited in it.
   */
  lemma {:induction false} BucketIsPrefix(history: seq<Event>, ws: string)
    requires Undisturbed(history, ws)
    ensures BucketOf(Run(history), ws) == Take(MostRecent(VisitsOf(history, ws)), MAX_RECENT_CONTEXTS)
  {
    if history != [] {
      var front, e := history[..|history| - 1], history[|history| - 1];
      var s := Run(front);
      BucketIsPrefix(front, ws);
      if e.Record? && e.ws == ws {
        var visits := VisitsOf(front, ws);
        assert VisitsOf(history, ws) == visits + [e.entry] && (visits + [e.entry])[..|visits|] == visits;
        MostRecentIsDistinct(visits);
        PromoteRefines(MostRecent(visits), e.entry, MAX_RECENT_CONTEXTS);
      } else {
        OthersKeepBucket(s, e, ws);
      }
    }
  }
}

/** The mobile store of viewed issues: ten ids per workspace, most recent first. */
module ViewedIssues {
  import opened Recency

  const CAPACITY := 10

  /** An id carries nothing but itself. */
  datatype Unit = Unit

  class ViewedIssuesStore {
    var byWorkspace: map<string, seq<Entry<string, Unit>>>

    constructor ()
      ensures byWorkspace == map[]
    {
      byWorkspace := map[];
    }

    ghost function ListOf(ws: string): seq<Entry<string, Unit>>
      reads this
    {
      if ws in byWorkspace then byWorkspace[ws] else []
    }

    /** A list that is the prefix of the unbounded list of its visits stays one, with this visit added. */
    method Push(ws: string, id: string, ghost visits: seq<Entry<string, Unit>>)
      requires ListOf(ws) == Take(MostRecent(visits), CAPACITY)
      modifies this
      ensures ListOf(ws) == Take(MostRecent(visits + [Entry(id, Unit)]), CAPACITY)
      ensures byWorkspace == old(byWorkspace)[ws := ListOf(ws)]
    {
      MostRecentIsDistinct(visits);
      PromoteRefines(MostRecent(visits), Entry(id, Unit), CAPACITY);
      assert (visits + [Entry(id, Unit)])[..|visits|] == visits;
      var prev := if ws in byWorkspace then byWorkspace[ws] else [];
      var next := Take([Entry(id, Unit)] + Without(prev, id), CAPACITY);
      byWorkspace := byWorkspace[ws := next];
    }

    method Remove(ws: string, id: string)
      modifies this
      ensures forall w :: ListOf(w) == if w == ws then Without(old(ListOf(ws)), id) else old(ListOf(w))
      ensures byWorkspace.Keys == old(byWorkspace.Keys)
    {
      if ws !in byWorkspace { return; }
      byWorkspace := byWorkspace[ws := Without(byWorkspace[ws], id)];
    }
  }
}
