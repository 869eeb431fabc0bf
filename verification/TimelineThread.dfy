/** One entry of an issue timeline, as both the coalescer and the thread builder see it. */
module Timeline {
  import opened Wrappers

  datatype Kind = Activity | Comment

  /** `createdAt` is the parsed time (None when the text is not a date); `body` is everything else. */
  datatype Entry = Entry(
    kind: Kind, id: string, actorType: string, actorId: string, createdAt: Option<int>,
    action: Option<string>, parentId: Option<string>, coalescedCount: Option<nat>, body: string)

  function Comments(entries: seq<Entry>): seq<Entry> {
    if entries == [] then []
    else
      var front := Comments(entries[..|entries| - 1]);
      if entries[|entries| - 1].kind.Comment? then front + [entries[|entries| - 1]] else front
  }

  /** The comments of a list, each entry for itself: all of them, in order, and nothing else. */
  lemma {:induction false} CommentsByEntry(front: seq<Entry>, e: Entry, back: seq<Entry>)
    ensures Comments(front + [e] + back) == Comments(front) + (if e.kind == Comment then [e] else []) + Comments(back)
    ensures Comments([]) == []
  {
    var all := front + [e] + back;
    if back == [] {
      assert all == front + [e] && all[..|all| - 1] == front;
    } else {
      var n := |back| - 1;
      assert all[..|all| - 1] == front + [e] + back[..n];
      CommentsByEntry(front, e, back[..n]);
    }
  }
}

/**
 Grouping a timeline into rows: a top-level entry together with its whole reply thread, collected
 breadth first over parent links that may dangle, nest or form cycles.
 */
module TimelineThread {
  import opened Wrappers
  import opened Timeline

  datatype Row = Row(entry: Entry, replies: seq<Entry>)

  // ----- the parts of the input -----

  function CommentIds(entries: seq<Entry>): set<string> {
    set e <- entries | e.kind.Comment? :: e.id
  }

  /** A comment whose parent is among `ids`; anything else stands at top level. */
  predicate IsReply(ids: set<string>, e: Entry) {
    e.kind.Comment? && e.parentId.Some? && e.parentId.value != "" && e.parentId.value in ids
  }

  predicate IsKid(ids: set<string>, parent: string, e: Entry) {
    IsReply(ids, e) && e.parentId.value == parent
  }

  function TopLevel(entries: seq<Entry>, ids: set<string>): seq<Entry> {
    if entries == [] then []
    else
      var front := TopLevel(entries[..|entries| - 1], ids);
      if IsReply(ids, entries[|entries| - 1]) then front else front + [entries[|entries| - 1]]
  }

  /** The direct replies to `parent`, in input order. */
  function Kids(entries: seq<Entry>, ids: set<string>, parent: string): seq<Entry> {
    if entries == [] then []
    else
      var front := Kids(entries[..|entries| - 1], ids, parent);
      if IsKid(ids, parent, entries[|entries| - 1]) then front + [entries[|entries| - 1]] else front
  }

  ghost function KidsOfAll(entries: seq<Entry>, ids: set<string>, parents: seq<string>): seq<Entry> {
    if parents == [] then []
    else KidsOfAll(entries, ids, parents[..|parents| - 1]) + Kids(entries, ids, parents[|parents| - 1])
  }

  ghost function IdsOf(s: seq<Entry>): (ids: seq<string>)
    ensures |ids| == |s| && forall i :: 0 <= i < |s| ==> ids[i] == s[i].id
  {
    seq(|s|, i requires 0 <= i < |s| => s[i].id)
  }

  /** The ids a breadth-first walk from `root` looks at, in order, when it has collected `out`. */
  ghost function Visited(root: string, out: seq<Entry>): seq<string> {
    [root] + IdsOf(out)
  }

  ghost predicate UniqueComments(entries: seq<Entry>) {
    forall i, j :: 0 <= i < j < |entries| && entries[i].kind.Comment? && entries[j].kind.Comment?
      ==> entries[i].id != entries[j].id
  }

  ghost predicate NoRepeats(s: seq<string>) {
    forall i, j :: 0 <= i < j < |s| ==> s[i] != s[j]
  }

  // ----- what a thread and a list of rows are -----

  /**
   `replies` is the breadth-first thread below `root`: the root's direct replies, then the direct
   replies to each reply in turn, no comment twice, and every reply after its own parent.
   IsThreadUnique shows that at most one sequence has these properties.
   */
  ghost predicate IsThread(entries: seq<Entry>, ids: set<string>, root: string, replies: seq<Entry>) {
    var visited := Visited(root, replies);
    && replies == KidsOfAll(entries, ids, visited)
    && NoRepeats(visited)
    && forall j {:trigger ParentBefore(visited, replies[j], j)} :: 0 <= j < |replies| ==> ParentBefore(visited, replies[j], j)
  }

  ghost predicate ParentBefore(visited: seq<string>, reply: Entry, j: nat)
    requires j < |visited|
  {
    reply.parentId.Some? && reply.parentId.value in visited[..j + 1]
  }

  /** The row of one top-level entry: a comment carries its thread, an activity carries nothing. */
  ghost predicate IsRow(entries: seq<Entry>, ids: set<string>, top: Entry, row: Row) {
    && row.entry == top
    && if top.kind.Comment? then IsThread(entries, ids, top.id, row.replies) else row.replies == []
  }

  ghost predicate IsRows(entries: seq<Entry>, rows: seq<Row>) {
    var ids := CommentIds(entries);
    var top := TopLevel(entries, ids);
    |rows| == |top| && forall i :: 0 <= i < |rows| ==> IsRow(entries, ids, top[i], rows[i])
  }

  // ----- building the rows -----

  /** `childrenByParent` lists, for every parent, its direct replies among `entries` in input order. */
  ghost predicate Indexes(childrenByParent: map<string, seq<Entry>>, entries: seq<Entry>, ids: set<string>) {
    forall p :: (if p in childrenByParent then childrenByParent[p] else []) == Kids(entries, ids, p)
  }

  method BuildTimelineRows(entries: seq<Entry>) returns (rows: seq<Row>)
    requires UniqueComments(entries)
    ensures IsRows(entries, rows)
  {
    var commentIds: set<string> := {};
    for n := 0 to |entries|
      invariant commentIds == CommentIds(entries[..n])
    {
      assert entries[..n + 1] == entries[..n] + [entries[n]];
      if entries[n].kind.Comment? { commentIds := commentIds + {entries[n].id}; }
    }
    assert entries[..|entries|] == entries;

    var topLevel, childrenByParent := Partition(entries, commentIds);

    rows := [];
    for n := 0 to |topLevel|
      invariant |rows| == n
      invariant forall i :: 0 <= i < n ==> IsRow(entries, commentIds, topLevel[i], rows[i])
    {
      var replies: seq<Entry> := [];
      if topLevel[n].kind.Comment? {
        TopLevelFacts(entries, commentIds);
        assert topLevel[n] in topLevel;
        replies := CollectDescendants(entries, commentIds, childrenByParent, topLevel[n]);
      }
      rows := rows + [Row(topLevel[n], replies)];
    }
  }

  method Partition(entries: seq<Entry>, commentIds: set<string>)
    returns (topLevel: seq<Entry>, childrenByParent: map<string, seq<Entry>>)
    ensures topLevel == TopLevel(entries, commentIds)
    ensures Indexes(childrenByParent, entries, commentIds)
  {
    topLevel := [];
    childrenByParent := map[];
    for n := 0 to |entries|
      invariant topLevel == TopLevel(entries[..n], commentIds)
      invariant Indexes(childrenByParent, entries[..n], commentIds)
    {
      var e := entries[n];
      assert entries[..n + 1][..n] == entries[..n];
      if e.kind.Comment? && e.parentId.Some? && e.parentId.value != "" && e.parentId.value in commentIds {
        var list := if e.parentId.value in childrenByParent then childrenByParent[e.parentId.value] else [];
        childrenByParent := childrenByParent[e.parentId.value := list + [e]];
      } else {
        topLevel := topLevel + [e];
      }
    }
    assert entries[..|entries|] == entries;
  }

  /** The queue is always the part of `[root] + out` whose own replies have not been looked up yet. */
  method CollectDescendants(
    ghost entries: seq<Entry>, ghost ids: set<string>, childrenByParent: map<string, seq<Entry>>, top: Entry)
    returns (out: seq<Entry>)
    requires UniqueComments(entries) && ids == CommentIds(entries)
    requires Indexes(childrenByParent, entries, ids)
    requires top in entries && top.kind.Comment? && !IsReply(ids, top)
    ensures IsThread(entries, ids, top.id, out)
  {
    out := [];
    var queue := [top.id];
    ghost var popped := 0;
    while |queue| > 0
      invariant popped <= |out| + 1
      invariant queue == Visited(top.id, out)[popped..]
      invariant PartialThread(entries, ids, top.id, out, popped)
      decreases |ids| + 1 - popped
    {
      var pid := queue[0];
      queue := queue[1..];
      VisitedBound(entries, ids, top.id, out, popped);
      PopKeepsPartial(entries, ids, top, out, popped);
      QueueAfterPop(top.id, out, Kids(entries, ids, pid), popped);
      popped := popped + 1;
      if pid in childrenByParent {
        out, queue := AppendKids(out, queue, childrenByParent[pid]);
      } else {
        assert Kids(entries, ids, pid) == [];
        assert out + [] == out;
      }
    }
    assert Visited(top.id, out)[..popped] == Visited(top.id, out);
  }

  method AppendKids(out: seq<Entry>, queue: seq<string>, kids: seq<Entry>)
    returns (out': seq<Entry>, queue': seq<string>)
    ensures out' == out + kids && queue' == queue + IdsOf(kids)
  {
    out', queue' := out, queue;
    for k := 0 to |kids|
      invariant out' == out + kids[..k] && queue' == queue + IdsOf(kids[..k])
    {
      out' := out' + [kids[k]];
      queue' := queue' + [kids[k].id];
    }
    assert kids[..|kids|] == kids;
  }

  lemma QueueAfterPop(root: string, out: seq<Entry>, kids: seq<Entry>, popped: nat)
    requires popped < |out| + 1
    ensures Visited(root, out)[popped..][1..] + IdsOf(kids) == Visited(root, out + kids)[popped + 1..]
  {
  }

  /** The loop invariant: the first `popped` visited ids have contributed their replies. */
  ghost predicate PartialThread(entries: seq<Entry>, ids: set<string>, root: string, out: seq<Entry>, popped: nat) {
    var visited := Visited(root, out);
    && popped <= |visited|
    && root in ids
    && out == KidsOfAll(entries, ids, visited[..popped])
    && NoRepeats(visited)
    && forall j {:trigger ParentBefore(visited, out[j], j)} :: 0 <= j < |out| ==> ParentBefore(visited, out[j], j)
  }

  lemma {:induction false} KidsFacts(entries: seq<Entry>, ids: set<string>, parent: string)
    ensures forall e :: e in Kids(entries, ids, parent) <==> e in entries && IsKid(ids, parent, e)
    ensures UniqueComments(entries) ==> NoRepeats(IdsOf(Kids(entries, ids, parent)))
  {
    if entries != [] {
      var front, last := entries[..|entries| - 1], entries[|entries| - 1];
      KidsFacts(front, ids, parent);
      assert forall e :: e in entries <==> e in front || e == last;
      var r := Kids(front, ids, parent);
      forall i | 0 <= i < |r| && UniqueComments(entries) && last.kind.Comment? ensures r[i].id != last.id {
        assert r[i] in front;
      }
    }
  }

  lemma KidsOfOneMore(entries: seq<Entry>, ids: set<string>, parents: seq<string>, n: nat)
    requires n < |parents|
    ensures KidsOfAll(entries, ids, parents[..n + 1])
            == KidsOfAll(entries, ids, parents[..n]) + Kids(entries, ids, parents[n])
  {
    assert parents[..n + 1][..n] == parents[..n];
  }

  lemma {:induction false} KidsOfAllFacts(entries: seq<Entry>, ids: set<string>, parents: seq<string>)
    ensures forall e :: e in KidsOfAll(entries, ids, parents)
                   <==> e in entries && IsReply(ids, e) && e.parentId.value in parents
  {
    if parents != [] {
      var front, last := parents[..|parents| - 1], parents[|parents| - 1];
      KidsOfAllFacts(entries, ids, front);
      KidsFacts(entries, ids, last);
      assert forall p :: p in parents <==> p in front || p == last;
    }
  }

  lemma {:induction false} TopLevelFacts(entries: seq<Entry>, ids: set<string>)
    ensures forall e :: e in TopLevel(entries, ids) <==> e in entries && !IsReply(ids, e)
    ensures UniqueComments(entries) ==> UniqueComments(TopLevel(entries, ids))
  {
    if entries != [] {
      var front, last := entries[..|entries| - 1], entries[|entries| - 1];
      TopLevelFacts(front, ids);
      assert forall e :: e in entries <==> e in front || e == last;
      var r := TopLevel(front, ids);
      forall i | 0 <= i < |r| && UniqueComments(entries) && last.kind.Comment? && r[i].kind.Comment?
        ensures r[i].id != last.id
      {
        assert r[i] in front;
      }
    }
  }

  lemma {:induction false} TopLevelCounts(entries: seq<Entry>, ids: set<string>, e: Entry)
    ensures multiset(TopLevel(entries, ids))[e] == if IsReply(ids, e) then 0 else multiset(entries)[e]
  {
    if entries != [] {
      var front, last := entries[..|entries| - 1], entries[|entries| - 1];
      TopLevelCounts(front, ids, e);
      assert entries == front + [last];
    }
  }

  lemma DifferentComments(entries: seq<Entry>, a: Entry, b: Entry)
    requires UniqueComments(entries) && a in entries && b in entries
    requires a.kind.Comment? && b.kind.Comment? && a != b
    ensures a.id != b.id
  {
  }

  /** A reply looked up now was not visited before: it would need two different parents. */
  lemma FreshKid(entries: seq<Entry>, ids: set<string>, top: Entry, out: seq<Entry>, popped: nat, kid: Entry)
    requires UniqueComments(entries)
    requires top in entries && top.kind.Comment? && !IsReply(ids, top)
    requires PartialThread(entries, ids, top.id, out, popped) && popped < |out| + 1
    requires kid in entries && IsKid(ids, Visited(top.id, out)[popped], kid)
    ensures kid.id !in Visited(top.id, out)
  {
    var visited := Visited(top.id, out);
    DifferentComments(entries, kid, top);
    KidsOfAllFacts(entries, ids, visited[..popped]);
    assert visited[popped] !in visited[..popped];
    forall j | 0 <= j < |out| ensures out[j].id != kid.id {
      assert out[j] in out;
      DifferentComments(entries, kid, out[j]);
    }
  }

  lemma KidsComeFresh(entries: seq<Entry>, ids: set<string>, top: Entry, out: seq<Entry>, popped: nat)
    requires UniqueComments(entries)
    requires top in entries && top.kind.Comment? && !IsReply(ids, top)
    requires PartialThread(entries, ids, top.id, out, popped) && popped < |out| + 1
    ensures NoRepeats(Visited(top.id, out + Kids(entries, ids, Visited(top.id, out)[popped])))
  {
    var visited := Visited(top.id, out);
    var kids := Kids(entries, ids, visited[popped]);
    KidsFacts(entries, ids, visited[popped]);
    forall k | 0 <= k < |kids| ensures IdsOf(kids)[k] !in visited {
      assert kids[k] in kids;
      FreshKid(entries, ids, top, out, popped, kids[k]);
    }
    NoRepeatsConcat(visited, IdsOf(kids));
    VisitedGrows(top.id, out, kids, popped);
  }

  lemma KidsFollowParents(entries: seq<Entry>, ids: set<string>, root: string, out: seq<Entry>, popped: nat)
    requires PartialThread(entries, ids, root, out, popped) && popped < |out| + 1
    ensures var out' := out + Kids(entries, ids, Visited(root, out)[popped]);
            forall j {:trigger ParentBefore(Visited(root, out'), out'[j], j)} :: 0 <= j < |out'| ==> ParentBefore(Visited(root, out'), out'[j], j)
  {
    var visited := Visited(root, out);
    var kids := Kids(entries, ids, visited[popped]);
    var visited' := Visited(root, out + kids);
    KidsFacts(entries, ids, visited[popped]);
    forall j | 0 <= j < |out + kids| ensures ParentBefore(visited', (out + kids)[j], j) {
      if j < |out| {
        assert ParentBefore(visited, out[j], j);
        assert visited[..j + 1] == visited'[..j + 1];
      } else {
        assert kids[j - |out|] in kids;
        assert visited'[..j + 1][popped] == visited[popped];
      }
    }
  }

  lemma PopKeepsPartial(entries: seq<Entry>, ids: set<string>, top: Entry, out: seq<Entry>, popped: nat)
    requires UniqueComments(entries)
    requires top in entries && top.kind.Comment? && !IsReply(ids, top)
    requires PartialThread(entries, ids, top.id, out, popped) && popped < |out| + 1
    ensures PartialThread(entries, ids, top.id, out + Kids(entries, ids, Visited(top.id, out)[popped]), popped + 1)
  {
    var visited := Visited(top.id, out);
    var out' := out + Kids(entries, ids, visited[popped]);
    KidsComeFresh(entries, ids, top, out, popped);
    KidsFollowParents(entries, ids, top.id, out, popped);
    VisitedGrows(top.id, out, Kids(entries, ids, visited[popped]), popped);
    KidsOfOneMore(entries, ids, visited, popped);
  }

  lemma VisitedGrows(root: string, out: seq<Entry>, more: seq<Entry>, n: nat)
    requires n < |out| + 1
    ensures Visited(root, out + more) == Visited(root, out) + IdsOf(more)
    ensures Visited(root, out + more)[..n + 1] == Visited(root, out)[..n + 1]
  {
  }

  lemma NoRepeatsConcat(a: seq<string>, b: seq<string>)
    requires NoRepeats(a) && NoRepeats(b)
    requires forall k :: 0 <= k < |b| ==> b[k] !in a
    ensures NoRepeats(a + b)
  {
    forall i, j | 0 <= i < j < |a + b| ensures (a + b)[i] != (a + b)[j] {
      if i < |a| <= j { assert b[j - |a|] !in a; }
    }
  }

  lemma {:induction false} NoRepeatsBound(s: seq<string>, bound: set<string>)
    requires NoRepeats(s) && forall x :: x in s ==> x in bound
    ensures |s| <= |bound|
  {
    if s != [] {
      var front, last := s[..|s| - 1], s[|s| - 1];
      forall x | x in front ensures x in bound - {last} {}
      NoRepeatsBound(front, bound - {last});
    }
  }

  lemma VisitedBound(entries: seq<Entry>, ids: set<string>, root: string, out: seq<Entry>, popped: nat)
    requires ids == CommentIds(entries) && PartialThread(entries, ids, root, out, popped)
    ensures popped <= |ids|
  {
    var visited := Visited(root, out);
    KidsOfAllFacts(entries, ids, visited[..popped]);
    forall x | x in visited ensures x in ids {
      if x != root {
        var j :| 0 <= j < |out| && out[j].id == x;
        assert out[j] in out;
      }
    }
    NoRepeatsBound(visited, ids);
  }

  // ----- the rows in terms of the entries alone -----

  /** Some comment of the input has this id. */
  ghost predicate HasComment(entries: seq<Entry>, id: string) {
    exists c :: c in entries && c.kind == Comment && c.id == id
  }

  ghost predicate HasRow(rows: seq<Row>, e: Entry) {
    exists i :: 0 <= i < |rows| && rows[i].entry == e
  }

  lemma CommentIdsAre(entries: seq<Entry>, id: string)
    ensures id in CommentIds(entries) <==> HasComment(entries, id)
  {
  }

  /** An entry has a row of its own exactly when it is no comment, names no parent, or its parent is no comment of the input. */
  lemma StandsAloneIff(entries: seq<Entry>, rows: seq<Row>, e: Entry)
    requires IsRows(entries, rows)
    ensures HasRow(rows, e)
            <==> && e in entries
                 && (e.kind == Activity || e.parentId.None? || e.parentId.value == "" || !HasComment(entries, e.parentId.value))
  {
    var top := TopLevel(entries, CommentIds(entries));
    TopLevelFacts(entries, CommentIds(entries));
    if e.parentId.Some? { CommentIdsAre(entries, e.parentId.value); }
    forall i | 0 <= i < |rows| ensures rows[i].entry == top[i] { assert IsRow(entries, CommentIds(entries), top[i], rows[i]); }
    if e in top {
      var i :| 0 <= i < |top| && top[i] == e;
      assert rows[i].entry == e;
    }
  }

  /**
   A comment is among the replies of a row exactly when it names a parent that is the row's comment or another reply of
   it, and an activity never is; a row of an activity has none.
   */
  lemma RepliesFollowParents(entries: seq<Entry>, rows: seq<Row>, i: nat, e: Entry)
    requires IsRows(entries, rows) && i < |rows|
    ensures e in rows[i].replies
            <==> && e in entries && e.kind == Comment && rows[i].entry.kind == Comment
                 && e.parentId.Some? && e.parentId.value != ""
                 && (e.parentId.value == rows[i].entry.id || exists x :: x in rows[i].replies && x.id == e.parentId.value)
  {
    var ids := CommentIds(entries);
    var row := rows[i];
    TopLevelFacts(entries, ids);
    assert IsRow(entries, ids, TopLevel(entries, ids)[i], row);
    assert row.entry in TopLevel(entries, ids);
    if row.entry.kind.Comment? {
      var visited := Visited(row.entry.id, row.replies);
      KidsOfAllFacts(entries, ids, visited);
      assert forall x :: x in visited <==> x == row.entry.id || exists y :: y in row.replies && y.id == x by {
        VisitedAre(row.entry.id, row.replies);
      }
      if exists x :: x in row.replies && e.parentId.Some? && x.id == e.parentId.value {
        var x :| x in row.replies && x.id == e.parentId.value;
        assert x in KidsOfAll(entries, ids, visited);
      }
    }
  }

  /** The entries with rows of their own, each for itself: in the order of the input. */
  lemma {:induction false} TopLevelByEntry(front: seq<Entry>, e: Entry, back: seq<Entry>, ids: set<string>)
    ensures TopLevel(front + [e] + back, ids)
         == TopLevel(front, ids)
            + (if e.kind == Comment && e.parentId.Some? && e.parentId.value != "" && e.parentId.value in ids then [] else [e])
            + TopLevel(back, ids)
    ensures TopLevel([], ids) == []
  {
    var all := front + [e] + back;
    if back == [] {
      assert all == front + [e] && all[..|all| - 1] == front;
    } else {
      var n := |back| - 1;
      assert all[..|all| - 1] == front + [e] + back[..n];
      TopLevelByEntry(front, e, back[..n], ids);
      hide IsReply;
    }
  }

  /** The direct replies to a comment, each for itself: in the order of the input. */
  lemma {:induction false} KidsByEntry(front: seq<Entry>, e: Entry, back: seq<Entry>, ids: set<string>, parent: string)
    requires parent in ids && parent != ""
    ensures Kids(front + [e] + back, ids, parent)
         == Kids(front, ids, parent) + (if e.kind == Comment && e.parentId == Some(parent) then [e] else []) + Kids(back, ids, parent)
    ensures Kids([], ids, parent) == []
  {
    var all := front + [e] + back;
    if back == [] {
      assert all == front + [e] && all[..|all| - 1] == front;
    } else {
      var n := |back| - 1;
      assert all[..|all| - 1] == front + [e] + back[..n];
      KidsByEntry(front, e, back[..n], ids, parent);
      hide IsKid;
    }
  }

  lemma VisitedAre(root: string, out: seq<Entry>)
    ensures forall x :: x in Visited(root, out) <==> x == root || exists y :: y in out && y.id == x
  {
    var visited := Visited(root, out);
    forall y | y in out ensures y.id in visited {
      var k :| 0 <= k < |out| && out[k] == y;
      assert visited[k + 1] == y.id;
    }
    forall x | x in visited && x != root ensures exists y :: y in out && y.id == x {
      var k :| 0 <= k < |visited| && visited[k] == x;
      assert out[k - 1].id == x && out[k - 1] in out;
    }
  }

  // ----- ancestors -----

  /** The comment with this id (the first one, should there be several). */
  ghost function Find(entries: seq<Entry>, id: string): (e: Option<Entry>)
    ensures e.Some? ==> e.value in entries && e.value.kind.Comment? && e.value.id == id
    ensures e.None? ==> id !in CommentIds(entries)
  {
    if entries == [] then None
    else if entries[0].kind.Comment? && entries[0].id == id then Some(entries[0])
    else
      assert forall x :: x in entries <==> x == entries[0] || x in entries[1..];
      Find(entries[1..], id)
  }

  /** `n` steps up the parent links, or None when a top-level entry is passed on the way. */
  ghost function Ancestor(entries: seq<Entry>, e: Entry, n: nat): Option<Entry>
    decreases n
  {
    if n == 0 then Some(e)
    else if !IsReply(CommentIds(entries), e) then None
    else
      var parent := Find(entries, e.parentId.value);
      if parent.None? then None else Ancestor(entries, parent.value, n - 1)
  }

  /** `e` descends from the top-level entry `top`, or is it. */
  ghost predicate DescendsFrom(entries: seq<Entry>, e: Entry, top: Entry) {
    !IsReply(CommentIds(entries), top) && exists n: nat :: Ancestor(entries, e, n) == Some(top)
  }

  ghost predicate Acyclic(entries: seq<Entry>) {
    forall e, n: nat :: e in entries && n > 0 ==> Ancestor(entries, e, n) != Some(e)
  }

  lemma {:induction false} AncestorAdds(entries: seq<Entry>, e: Entry, m: nat, n: nat)
    requires Ancestor(entries, e, m).Some?
    ensures Ancestor(entries, e, m + n) == Ancestor(entries, Ancestor(entries, e, m).value, n)
    decreases m
  {
    if m > 0 {
      AncestorAdds(entries, Find(entries, e.parentId.value).value, m - 1, n);
    }
  }

  lemma {:induction false} AncestorsAreComments(entries: seq<Entry>, e: Entry, n: nat)
    requires e in entries && n > 0 && Ancestor(entries, e, n).Some?
    ensures Ancestor(entries, e, n).value in entries && Ancestor(entries, e, n).value.kind.Comment?
    ensures e.kind.Comment?
    decreases n
  {
    if n > 1 {
      AncestorsAreComments(entries, Find(entries, e.parentId.value).value, n - 1);
    }
  }

  lemma TopIsUnique(entries: seq<Entry>, e: Entry, a: Entry, b: Entry)
    requires DescendsFrom(entries, e, a) && DescendsFrom(entries, e, b)
    ensures a == b
  {
    var m: nat :| Ancestor(entries, e, m) == Some(a);
    var n: nat :| Ancestor(entries, e, n) == Some(b);
    if m < n {
      AncestorAdds(entries, e, m, n - m);
    } else if n < m {
      AncestorAdds(entries, e, n, m - n);
    }
  }

  lemma ParentFound(entries: seq<Entry>, e: Entry, parent: Entry, n: nat)
    requires UniqueComments(entries) && parent in entries && parent.kind.Comment?
    requires IsKid(CommentIds(entries), parent.id, e)
    ensures Ancestor(entries, e, n + 1) == Ancestor(entries, parent, n)
  {
    var found := Find(entries, parent.id);
    if found.Some? && found.value != parent { DifferentComments(entries, found.value, parent); }
  }

  // ----- who is in a thread -----

  lemma ReplyOfThread(entries: seq<Entry>, ids: set<string>, root: string, replies: seq<Entry>, e: Entry)
    requires IsThread(entries, ids, root, replies)
    ensures e in replies <==> e in entries && IsReply(ids, e) && e.parentId.value in Visited(root, replies)
  {
    KidsOfAllFacts(entries, ids, Visited(root, replies));
  }

  /** The parent of a reply is the root, or a reply shown earlier. */
  lemma ParentInThread(entries: seq<Entry>, ids: set<string>, root: string, replies: seq<Entry>, j: nat)
    requires IsThread(entries, ids, root, replies) && j < |replies|
    ensures replies[j] in entries && IsReply(ids, replies[j])
    ensures replies[j].parentId.value == root
            || exists i :: 0 <= i < j && replies[i].id == replies[j].parentId.value
  {
    var visited := Visited(root, replies);
    ReplyOfThread(entries, ids, root, replies, replies[j]);
    assert ParentBefore(visited, replies[j], j);
    var i :| 0 <= i < j + 1 && visited[..j + 1][i] == replies[j].parentId.value;
    if i > 0 { assert replies[i - 1].id == replies[j].parentId.value; }
  }

  lemma {:induction false} ThreadDescends(entries: seq<Entry>, top: Entry, replies: seq<Entry>, j: nat)
    returns (n: nat)
    requires UniqueComments(entries) && top in entries && top.kind.Comment?
    requires IsThread(entries, CommentIds(entries), top.id, replies) && j < |replies|
    ensures n > 0 && Ancestor(entries, replies[j], n) == Some(top)
    decreases j
  {
    var ids := CommentIds(entries);
    ParentInThread(entries, ids, top.id, replies, j);
    if replies[j].parentId.value == top.id {
      ParentFound(entries, replies[j], top, 0);
      n := 1;
    } else {
      var i :| 0 <= i < j && replies[i].id == replies[j].parentId.value;
      n := ThreadDescends(entries, top, replies, i);
      ReplyOfThread(entries, ids, top.id, replies, replies[i]);
      ParentFound(entries, replies[j], replies[i], n);
      n := n + 1;
    }
  }

  lemma {:induction false} DescendantsAreThere(entries: seq<Entry>, top: Entry, replies: seq<Entry>, e: Entry, n: nat)
    requires IsThread(entries, CommentIds(entries), top.id, replies)
    requires e in entries && n > 0 && Ancestor(entries, e, n) == Some(top)
    ensures e in replies
    decreases n
  {
    var parent := Find(entries, e.parentId.value).value;
    var visited := Visited(top.id, replies);
    if n == 1 {
      assert parent == top && visited[0] == top.id;
    } else {
      DescendantsAreThere(entries, top, replies, parent, n - 1);
      var i :| 0 <= i < |replies| && replies[i] == parent;
      assert visited[i + 1] == parent.id;
    }
    ReplyOfThread(entries, CommentIds(entries), top.id, replies, e);
  }

  /** A row's replies are exactly the replies whose root ancestor is that row's comment. */
  lemma ThreadMembers(entries: seq<Entry>, top: Entry, replies: seq<Entry>, e: Entry)
    requires UniqueComments(entries) && top in entries && top.kind.Comment?
    requires !IsReply(CommentIds(entries), top)
    requires IsThread(entries, CommentIds(entries), top.id, replies)
    ensures e in replies <==> e in entries && IsReply(CommentIds(entries), e) && DescendsFrom(entries, e, top)
  {
    ReplyOfThread(entries, CommentIds(entries), top.id, replies, e);
    if e in replies {
      var j :| 0 <= j < |replies| && replies[j] == e;
      var n := ThreadDescends(entries, top, replies, j);
    }
    if e in entries && IsReply(CommentIds(entries), e) && DescendsFrom(entries, e, top) {
      var n: nat :| Ancestor(entries, e, n) == Some(top);
      assert n > 0;
      DescendantsAreThere(entries, top, replies, e, n);
    }
  }

  lemma KidsConcat(a: seq<Entry>, b: seq<Entry>, ids: set<string>, parent: string)
    ensures Kids(a + b, ids, parent) == Kids(a, ids, parent) + Kids(b, ids, parent)
  {
    if b == [] {
      assert a + b == a;
    } else {
      var front := b[..|b| - 1];
      KidsConcat(a, front, ids, parent);
      assert (a + b)[..|a + b| - 1] == a + front;
    }
  }

  lemma {:induction false} KidsOfKids(entries: seq<Entry>, ids: set<string>, p: string, q: string)
    ensures Kids(Kids(entries, ids, q), ids, p) == if p == q then Kids(entries, ids, p) else []
  {
    if entries != [] {
      var front, last := entries[..|entries| - 1], entries[|entries| - 1];
      KidsOfKids(front, ids, p, q);
      KidsConcat(Kids(front, ids, q), [last], ids, p);
      assert [last][..0] == [];
    }
  }

  lemma KidsOfAllSnoc(entries: seq<Entry>, ids: set<string>, parents: seq<string>)
    requires parents != []
    ensures var n := |parents| - 1;
            KidsOfAll(entries, ids, parents) == KidsOfAll(entries, ids, parents[..n]) + Kids(entries, ids, parents[n])
  {
  }

  lemma {:induction false} KidsOfMany(entries: seq<Entry>, ids: set<string>, parents: seq<string>, p: string)
    requires NoRepeats(parents)
    ensures Kids(KidsOfAll(entries, ids, parents), ids, p) == if p in parents then Kids(entries, ids, p) else []
  {
    if parents == [] {
      assert KidsOfAll(entries, ids, parents) == [];
    } else {
      var front, last := parents[..|parents| - 1], parents[|parents| - 1];
      KidsOfAllSnoc(entries, ids, parents);
      KidsOfMany(entries, ids, front, p);
      hide Kids, KidsOfAll;
      KidsOfKids(entries, ids, p, last);
      KidsConcat(KidsOfAll(entries, ids, front), Kids(entries, ids, last), ids, p);
      assert parents == front + [last];
    }
  }

  /** Siblings keep their input order: a thread's replies to one comment are that comment's replies as they came. */
  lemma SiblingsKeepOrder(entries: seq<Entry>, ids: set<string>, root: string, replies: seq<Entry>, parent: string)
    requires IsThread(entries, ids, root, replies)
    requires parent == root || parent in IdsOf(replies)
    ensures Kids(replies, ids, parent) == Kids(entries, ids, parent)
  {
    KidsOfMany(entries, ids, Visited(root, replies), parent);
    if parent != root { assert parent in Visited(root, replies); } else { assert Visited(root, replies)[0] == parent; }
  }

  // ----- at most one thread -----

  lemma {:induction false} KidsOfAllPrefix(entries: seq<Entry>, ids: set<string>, parents: seq<string>, n: nat)
    requires n <= |parents|
    ensures KidsOfAll(entries, ids, parents[..n]) <= KidsOfAll(entries, ids, parents)
  {
    if n == |parents| {
      assert parents[..n] == parents;
    } else {
      var front := parents[..|parents| - 1];
      KidsOfAllPrefix(entries, ids, front, n);
      assert front[..n] == parents[..n];
    }
  }

  /** The first n + 1 visited ids already account for the first n + 1 replies. */
  lemma PrefixReaches(entries: seq<Entry>, ids: set<string>, root: string, replies: seq<Entry>, n: nat)
    requires IsThread(entries, ids, root, replies) && n < |replies|
    ensures n < |KidsOfAll(entries, ids, Visited(root, replies)[..n + 1])|
    ensures KidsOfAll(entries, ids, Visited(root, replies)[..n + 1]) <= replies
  {
    var visited := Visited(root, replies);
    var known := KidsOfAll(entries, ids, visited[..n + 1]);
    KidsOfAllPrefix(entries, ids, visited, n + 1);
    KidsOfAllFacts(entries, ids, visited[..n + 1]);
    ReplyOfThread(entries, ids, root, replies, replies[n]);
    assert ParentBefore(visited, replies[n], n);
    var k :| 0 <= k < |known| && known[k] == replies[n];
    OnlyOnce(root, replies, k, n);
  }

  lemma OnlyOnce(root: string, replies: seq<Entry>, k: nat, n: nat)
    requires NoRepeats(Visited(root, replies)) && k < |replies| && n < |replies|
    requires replies[k] == replies[n]
    ensures k == n
  {
    assert Visited(root, replies)[k + 1] == Visited(root, replies)[n + 1];
  }

  lemma NextAgrees(entries: seq<Entry>, ids: set<string>, root: string, a: seq<Entry>, b: seq<Entry>, n: nat)
    requires IsThread(entries, ids, root, a) && IsThread(entries, ids, root, b)
    requires n < |a| && n <= |b| && forall k :: 0 <= k < n ==> a[k] == b[k]
    ensures n < |b| && a[n] == b[n]
  {
    assert a[..n] == b[..n];
    hide KidsOfAll, Kids, NoRepeats;
    VisitedTake(root, a, n);
    VisitedTake(root, b, n);
    PrefixReaches(entries, ids, root, a, n);
    KidsOfAllPrefix(entries, ids, Visited(root, b), n + 1);
    PrefixesMeet(KidsOfAll(entries, ids, Visited(root, a[..n])), a, b, n);
  }

  lemma PrefixesMeet(known: seq<Entry>, a: seq<Entry>, b: seq<Entry>, n: nat)
    requires known <= a && known <= b && n < |known|
    ensures a[n] == b[n]
  {
  }

  lemma {:induction false} ThreadsAgree(
    entries: seq<Entry>, ids: set<string>, root: string, a: seq<Entry>, b: seq<Entry>, n: nat)
    requires IsThread(entries, ids, root, a) && IsThread(entries, ids, root, b) && n <= |a|
    ensures n <= |b| && forall k :: 0 <= k < n ==> a[k] == b[k]
    decreases n
  {
    if n > 0 {
      ThreadsAgree(entries, ids, root, a, b, n - 1);
      NextAgrees(entries, ids, root, a, b, n - 1);
    }
  }

  lemma VisitedTake(root: string, out: seq<Entry>, n: nat)
    requires n <= |out|
    ensures Visited(root, out)[..n + 1] == Visited(root, out[..n])
  {
  }

  lemma IsThreadUnique(entries: seq<Entry>, ids: set<string>, root: string, a: seq<Entry>, b: seq<Entry>)
    requires IsThread(entries, ids, root, a) && IsThread(entries, ids, root, b)
    ensures a == b
  {
    ThreadsAgree(entries, ids, root, a, b, |a|);
    ThreadsAgree(entries, ids, root, b, a, |b|);
  }

  // ----- counts -----

  ghost function AllReplies(rows: seq<Row>): seq<Entry> {
    if rows == [] then [] else AllReplies(rows[..|rows| - 1]) + rows[|rows| - 1].replies
  }

  /** Everything the rows show, row by row. */
  ghost function Emitted(rows: seq<Row>): seq<Entry> {
    if rows == [] then []
    else Emitted(rows[..|rows| - 1]) + [rows[|rows| - 1].entry] + rows[|rows| - 1].replies
  }

  lemma {:induction false} EmittedSplits(entries: seq<Entry>, rows: seq<Row>, n: nat)
    requires IsRows(entries, rows) && n <= |rows|
    ensures multiset(Emitted(rows[..n]))
            == multiset(TopLevel(entries, CommentIds(entries))[..n]) + multiset(AllReplies(rows[..n]))
  {
    if n > 0 {
      var top := TopLevel(entries, CommentIds(entries));
      EmittedSplits(entries, rows, n - 1);
      EmittedStep(rows, n);
      assert IsRow(entries, CommentIds(entries), top[n - 1], rows[n - 1]);
      TakeOneMore(top, n);
      assert multiset(Emitted(rows[..n]))
          == multiset(Emitted(rows[..n - 1])) + multiset{top[n - 1]} + multiset(rows[n - 1].replies);
    }
  }

  lemma TakeOneMore(s: seq<Entry>, n: nat)
    requires 0 < n <= |s|
    ensures multiset(s[..n]) == multiset(s[..n - 1]) + multiset{s[n - 1]}
  {
    assert s[..n] == s[..n - 1] + [s[n - 1]];
  }

  lemma EmittedStep(rows: seq<Row>, n: nat)
    requires 0 < n <= |rows|
    ensures AllReplies(rows[..n]) == AllReplies(rows[..n - 1]) + rows[n - 1].replies
    ensures Emitted(rows[..n]) == Emitted(rows[..n - 1]) + [rows[n - 1].entry] + rows[n - 1].replies
  {
    assert rows[..n][..n - 1] == rows[..n - 1];
  }

  lemma NoRepeatsCount(s: seq<Entry>, e: Entry)
    requires NoRepeats(IdsOf(s))
    ensures multiset(s)[e] == if e in s then 1 else 0
  {
    if s != [] {
      NoRepeatsCount(s[..|s| - 1], e);
      assert s == s[..|s| - 1] + [s[|s| - 1]];
      if e in s[..|s| - 1] {
        var i :| 0 <= i < |s| - 1 && s[i] == e;
        assert IdsOf(s)[i] != IdsOf(s)[|s| - 1];
      }
    }
  }

  lemma RowCount(entries: seq<Entry>, top: Entry, row: Row, e: Entry)
    requires UniqueComments(entries) && top in entries && !IsReply(CommentIds(entries), top)
    requires IsRow(entries, CommentIds(entries), top, row)
    ensures multiset(row.replies)[e]
            == if e in entries && IsReply(CommentIds(entries), e) && DescendsFrom(entries, e, top) then 1 else 0
  {
    if top.kind.Comment? {
      ThreadIdsDistinct(entries, CommentIds(entries), top.id, row.replies);
      NoRepeatsCount(row.replies, e);
      ThreadMembers(entries, top, row.replies, e);
    } else if e in entries && IsReply(CommentIds(entries), e) && DescendsFrom(entries, e, top) {
      var n: nat :| Ancestor(entries, e, n) == Some(top);
      AncestorsAreComments(entries, e, n);
    }
  }

  lemma ThreadIdsDistinct(entries: seq<Entry>, ids: set<string>, root: string, replies: seq<Entry>)
    requires IsThread(entries, ids, root, replies)
    ensures NoRepeats(IdsOf(replies))
  {
    assert forall i :: 0 <= i < |replies| ==> IdsOf(replies)[i] == Visited(root, replies)[i + 1];
  }

  ghost predicate ShownAbove(entries: seq<Entry>, rows: seq<Row>, e: Entry, n: nat)
    requires n <= |rows|
  {
    exists i :: 0 <= i < n && DescendsFrom(entries, e, rows[i].entry)
  }

  /** Over the first n rows, a reply has been shown once if its top-level ancestor's row is among them. */
  lemma {:induction false} RepliesCount(entries: seq<Entry>, rows: seq<Row>, e: Entry, n: nat)
    requires UniqueComments(entries) && IsRows(entries, rows) && n <= |rows|
    requires e in entries && IsReply(CommentIds(entries), e)
    ensures multiset(AllReplies(rows[..n]))[e] == if ShownAbove(entries, rows, e, n) then 1 else 0
  {
    if n > 0 {
      hide *;
      RepliesCount(entries, rows, e, n - 1);
      EmittedStep(rows, n);
      NthRowCount(entries, rows, e, n - 1);
      ShownOnce(entries, rows, e, n);
    }
  }

  lemma ShownOnce(entries: seq<Entry>, rows: seq<Row>, e: Entry, n: nat)
    requires UniqueComments(entries) && IsRows(entries, rows) && 0 < n <= |rows|
    requires e in entries && IsReply(CommentIds(entries), e)
    ensures ShownAbove(entries, rows, e, n)
            <==> ShownAbove(entries, rows, e, n - 1) || DescendsFrom(entries, e, rows[n - 1].entry)
    ensures DescendsFrom(entries, e, rows[n - 1].entry) ==> !ShownAbove(entries, rows, e, n - 1)
  {
    if DescendsFrom(entries, e, rows[n - 1].entry) {
      forall i | 0 <= i < n - 1 ensures !DescendsFrom(entries, e, rows[i].entry) {
        RowsDiffer(entries, rows, e, i, n - 1);
      }
    }
  }

  lemma NthRowCount(entries: seq<Entry>, rows: seq<Row>, e: Entry, i: nat)
    requires UniqueComments(entries) && IsRows(entries, rows) && i < |rows|
    ensures multiset(rows[i].replies)[e]
            == if e in entries && IsReply(CommentIds(entries), e) && DescendsFrom(entries, e, rows[i].entry) then 1 else 0
  {
    var top := TopLevel(entries, CommentIds(entries));
    TopLevelFacts(entries, CommentIds(entries));
    assert top[i] in top;
    RowCount(entries, top[i], rows[i], e);
  }

  lemma RowsDiffer(entries: seq<Entry>, rows: seq<Row>, e: Entry, i: nat, j: nat)
    requires UniqueComments(entries) && IsRows(entries, rows) && i < j < |rows|
    requires e in entries && IsReply(CommentIds(entries), e) && DescendsFrom(entries, e, rows[j].entry)
    ensures !DescendsFrom(entries, e, rows[i].entry)
  {
    var top := TopLevel(entries, CommentIds(entries));
    TopLevelFacts(entries, CommentIds(entries));
    var n: nat :| Ancestor(entries, e, n) == Some(top[j]);
    AncestorsAreComments(entries, e, n);
    assert top[i] != top[j];
    if DescendsFrom(entries, e, top[i]) { TopIsUnique(entries, e, top[i], top[j]); }
  }

  lemma {:induction false} CommentOnce(entries: seq<Entry>, e: Entry)
    requires UniqueComments(entries) && e in entries && e.kind.Comment?
    ensures multiset(entries)[e] == 1
  {
    var front, last := entries[..|entries| - 1], entries[|entries| - 1];
    assert entries == front + [last];
    if e in front {
      CommentOnce(front, e);
      var i :| 0 <= i < |front| && front[i] == e;
      assert entries[i] == e;
    } else {
      assert multiset(front)[e] == 0;
    }
  }

  lemma {:induction false} RepliesAreReplies(entries: seq<Entry>, rows: seq<Row>, e: Entry, n: nat)
    requires UniqueComments(entries) && IsRows(entries, rows) && n <= |rows|
    requires !IsReply(CommentIds(entries), e)
    ensures multiset(AllReplies(rows[..n]))[e] == 0
  {
    if n > 0 {
      RepliesAreReplies(entries, rows, e, n - 1);
      EmittedStep(rows, n);
      NthRowCount(entries, rows, e, n - 1);
    }
  }

  lemma ReplyShownOnce(entries: seq<Entry>, rows: seq<Row>, e: Entry)
    requires UniqueComments(entries) && IsRows(entries, rows)
    requires e in entries && IsReply(CommentIds(entries), e)
    ensures multiset(AllReplies(rows))[e]
            == if exists top :: top in entries && DescendsFrom(entries, e, top) then 1 else 0
  {
    var top := TopLevel(entries, CommentIds(entries));
    TopLevelFacts(entries, CommentIds(entries));
    RepliesCount(entries, rows, e, |rows|);
    assert rows[..|rows|] == rows;
    forall i | 0 <= i < |rows| ensures rows[i].entry in entries {
      assert IsRow(entries, CommentIds(entries), top[i], rows[i]);
      assert top[i] in top;
    }
    if t :| t in entries && DescendsFrom(entries, e, t) {
      var i :| 0 <= i < |top| && top[i] == t;
      assert IsRow(entries, CommentIds(entries), top[i], rows[i]);
    }
  }

  /** An entry is shown as often as it came if its parent chain reaches top level, and never otherwise. */
  lemma EmittedCount(entries: seq<Entry>, rows: seq<Row>, e: Entry)
    requires UniqueComments(entries) && IsRows(entries, rows) && e in entries
    ensures multiset(Emitted(rows))[e]
            == if exists top :: top in entries && DescendsFrom(entries, e, top) then multiset(entries)[e] else 0
  {
    var ids := CommentIds(entries);
    var top := TopLevel(entries, ids);
    assert rows[..|rows|] == rows && top[..|top|] == top;
    EmittedSplits(entries, rows, |rows|);
    TopLevelCounts(entries, ids, e);
    if IsReply(ids, e) {
      ReplyShownOnce(entries, rows, e);
      CommentOnce(entries, e);
    } else {
      assert Ancestor(entries, e, 0) == Some(e);
      RepliesAreReplies(entries, rows, e, |rows|);
    }
  }

  lemma EmittedFromInput(entries: seq<Entry>, rows: seq<Row>, e: Entry)
    requires UniqueComments(entries) && IsRows(entries, rows) && e !in entries
    ensures multiset(Emitted(rows))[e] == 0
  {
    var top := TopLevel(entries, CommentIds(entries));
    assert rows[..|rows|] == rows && top[..|top|] == top;
    EmittedSplits(entries, rows, |rows|);
    TopLevelCounts(entries, CommentIds(entries), e);
    TopLevelFacts(entries, CommentIds(entries));
    StrangersStayOut(entries, rows, e, |rows|);
  }

  lemma {:induction false} StrangersStayOut(entries: seq<Entry>, rows: seq<Row>, e: Entry, n: nat)
    requires UniqueComments(entries) && IsRows(entries, rows) && n <= |rows| && e !in entries
    ensures multiset(AllReplies(rows[..n]))[e] == 0
  {
    if n > 0 {
      StrangersStayOut(entries, rows, e, n - 1);
      EmittedStep(rows, n);
      NthRowCount(entries, rows, e, n - 1);
    }
  }

  // ----- a permutation exactly when there is no cycle -----

  lemma {:induction false} CycleNeverEnds(entries: seq<Entry>, e: Entry, n: nat, k: nat)
    requires n > 0 && Ancestor(entries, e, n) == Some(e)
    ensures Ancestor(entries, e, k).Some?
  {
    if k <= n {
      if Ancestor(entries, e, k).None? { NoneStaysNone(entries, e, k, n - k); }
    } else {
      CycleNeverEnds(entries, e, n, k - n);
      AncestorAdds(entries, e, n, k - n);
    }
  }

  lemma {:induction false} NoneStaysNone(entries: seq<Entry>, e: Entry, m: nat, n: nat)
    requires Ancestor(entries, e, m).None?
    ensures Ancestor(entries, e, m + n).None?
    decreases m
  {
    if IsReply(CommentIds(entries), e) && Find(entries, e.parentId.value).Some? {
      NoneStaysNone(entries, Find(entries, e.parentId.value).value, m - 1, n);
    }
  }

  lemma CycleIsLost(entries: seq<Entry>, e: Entry, n: nat, top: Entry)
    requires n > 0 && Ancestor(entries, e, n) == Some(e)
    ensures !DescendsFrom(entries, e, top)
  {
    if DescendsFrom(entries, e, top) {
      var m: nat :| Ancestor(entries, e, m) == Some(top);
      CycleNeverEnds(entries, e, n, m + 1);
      AncestorAdds(entries, e, m, 1);
    }
  }

  /** The ids of the first n entries on the way up. */
  ghost function Chain(entries: seq<Entry>, e: Entry, n: nat): seq<string>
    requires forall k: nat :: k < n ==> Ancestor(entries, e, k).Some?
  {
    seq(n, k requires 0 <= k < n => Ancestor(entries, e, k).value.id)
  }

  /** Without cycles the way up has no repeats, so it leaves the comments within |ids| steps. */
  lemma AcyclicReachesTop(entries: seq<Entry>, e: Entry)
    requires UniqueComments(entries) && Acyclic(entries) && e in entries
    ensures exists top :: top in entries && DescendsFrom(entries, e, top)
  {
    var ids := CommentIds(entries);
    if top, n: nat :| Ancestor(entries, e, n) == Some(top) && !IsReply(ids, top) {
      if n > 0 { AncestorsAreComments(entries, e, n); }
      assert DescendsFrom(entries, e, top);
    } else {
      forall k: nat ensures Ancestor(entries, e, k).Some? { NeverTopClimbsOn(entries, e, k); }
      var chain := Chain(entries, e, |ids| + 1);
      forall k: nat | k < |chain| ensures Ancestor(entries, e, k).value in entries && chain[k] in ids {
        if k > 0 { AncestorsAreComments(entries, e, k); } else { AncestorsAreComments(entries, e, 1); }
      }
      forall i: nat, j: nat | i < j < |chain| ensures chain[i] != chain[j] {
        ChainDiffers(entries, e, i, j);
      }
      NoRepeatsBound(chain, ids);
    }
  }

  lemma {:induction false} NeverTopClimbsOn(entries: seq<Entry>, e: Entry, k: nat)
    requires forall top, n: nat :: Ancestor(entries, e, n) == Some(top) ==> IsReply(CommentIds(entries), top)
    ensures Ancestor(entries, e, k).Some?
  {
    if k > 0 {
      NeverTopClimbsOn(entries, e, k - 1);
      AncestorAdds(entries, e, k - 1, 1);
    }
  }

  lemma ChainDiffers(entries: seq<Entry>, e: Entry, i: nat, j: nat)
    requires UniqueComments(entries) && Acyclic(entries) && e in entries && i < j
    requires Ancestor(entries, e, i).Some? && Ancestor(entries, e, j).Some?
    ensures Ancestor(entries, e, i).value.id != Ancestor(entries, e, j).value.id
  {
    var a, b := Ancestor(entries, e, i).value, Ancestor(entries, e, j).value;
    AncestorsAreComments(entries, e, j);
    if i > 0 { AncestorsAreComments(entries, e, i); }
    AncestorAdds(entries, e, i, j - i);
    assert a != b;
    DifferentComments(entries, a, b);
  }

  /** The rows show a permutation of the input exactly when no comment is its own ancestor. */
  lemma PermutationIffAcyclic(entries: seq<Entry>, rows: seq<Row>)
    requires UniqueComments(entries) && IsRows(entries, rows)
    ensures multiset(Emitted(rows)) == multiset(entries) <==> Acyclic(entries)
  {
    if Acyclic(entries) {
      forall e ensures multiset(Emitted(rows))[e] == multiset(entries)[e] {
        if e in entries {
          AcyclicReachesTop(entries, e);
          EmittedCount(entries, rows, e);
        } else {
          EmittedFromInput(entries, rows, e);
        }
      }
    } else {
      var e, n: nat :| e in entries && n > 0 && Ancestor(entries, e, n) == Some(e);
      forall top ensures !DescendsFrom(entries, e, top) { CycleIsLost(entries, e, n, top); }
      EmittedCount(entries, rows, e);
      assert multiset(entries)[e] > 0;
    }
  }

  // ----- why comment ids must be unique -----

  /** One round of the walk, on ids alone: look up the front of the queue and append its replies. */
  ghost function Walk(entries: seq<Entry>, queue: seq<string>, rounds: nat): seq<string>
    decreases rounds
  {
    if rounds == 0 || queue == [] then queue
    else Walk(entries, queue[1..] + IdsOf(Kids(entries, CommentIds(entries), queue[0])), rounds - 1)
  }

  lemma CopyIsOnlyKid(top: Entry, copy: Entry)
    requires top.kind.Comment? && top.parentId.None?
    requires copy.kind.Comment? && copy.id == top.id != "" && copy.parentId == Some(top.id)
    ensures Kids([top, copy], CommentIds([top, copy]), top.id) == [copy]
  {
    var entries := [top, copy];
    var ids := CommentIds(entries);
    assert IsKid(ids, top.id, entries[1]) && !IsKid(ids, top.id, entries[0]);
    KidsConcat([top], [copy], ids, top.id);
    assert [top] + [copy] == entries && [top][..0] == [] && [copy][..0] == [];
  }

  /** A comment id used twice, once as a reply to itself, keeps the walk's queue full for ever. */
  lemma {:induction false} DuplicateIdLoops(top: Entry, copy: Entry, rounds: nat)
    requires top.kind.Comment? && top.parentId.None?
    requires copy.kind.Comment? && copy.id == top.id != "" && copy.parentId == Some(top.id)
    ensures Walk([top, copy], [top.id], rounds) == [top.id]
  {
    if rounds > 0 {
      var entries := [top, copy];
      assert entries[..1] == [top] && entries[..1][..0] == [];
      assert entries[1] in entries && top.id in CommentIds(entries);
      CopyIsOnlyKid(top, copy);
      assert [top.id][1..] + IdsOf([copy]) == [top.id];
      DuplicateIdLoops(top, copy, rounds - 1);
    }
  }

  /** The ids that a look-up of this id appends to the queue. */
  ghost function NextIds(entries: seq<Entry>, id: string): seq<string> {
    IdsOf(Kids(entries, CommentIds(entries), id))
  }

  /** A chain of ids, each a reply of the one before. */
  ghost predicate IsPath(entries: seq<Entry>, path: seq<string>) {
    path != [] && forall i, j :: 0 <= i && j == i + 1 < |path| ==> path[j] in NextIds(entries, path[i])
  }

  /** No chain from this id is longer than `depth`. */
  ghost predicate Bounded(entries: seq<Entry>, id: string, depth: nat)
    decreases depth
  {
    depth > 0 && forall k :: k in NextIds(entries, id) ==> Bounded(entries, k, depth - 1)
  }

  lemma {:induction false} BoundedGrows(entries: seq<Entry>, id: string, depth: nat)
    requires Bounded(entries, id, depth)
    ensures Bounded(entries, id, depth + 1)
    decreases depth
  {
    forall k | k in NextIds(entries, id) ensures Bounded(entries, k, depth) { BoundedGrows(entries, k, depth - 1); }
  }

  lemma {:induction false} LongPath(entries: seq<Entry>, id: string, depth: nat) returns (path: seq<string>)
    requires !Bounded(entries, id, depth)
    ensures IsPath(entries, path) && path[0] == id && |path| == depth + 1
    decreases depth
  {
    if depth == 0 {
      path := [id];
    } else {
      var k :| k in NextIds(entries, id) && !Bounded(entries, k, depth - 1);
      var rest := LongPath(entries, k, depth - 1);
      path := [id] + rest;
    }
  }

  lemma PathStaysAmongIds(entries: seq<Entry>, path: seq<string>)
    requires IsPath(entries, path)
    ensures forall i :: 0 <= i < |path| ==> path[i] in CommentIds(entries) + {path[0]}
  {
    forall i | 0 < i < |path| ensures path[i] in CommentIds(entries) {
      var h := i - 1;
      var kids := Kids(entries, CommentIds(entries), path[h]);
      assert path[i] in NextIds(entries, path[h]);
      KidsFacts(entries, CommentIds(entries), path[h]);
      var k :| 0 <= k < |kids| && IdsOf(kids)[k] == path[i];
      assert kids[k] in kids;
    }
  }

  /** A root none of whose chains repeats an id has bounded chains. */
  lemma RepeatFreeIsBounded(entries: seq<Entry>, root: string)
    requires forall path :: IsPath(entries, path) && path[0] == root ==> NoRepeats(path)
    ensures Bounded(entries, root, |CommentIds(entries) + {root}|)
  {
    var bound := CommentIds(entries) + {root};
    if !Bounded(entries, root, |bound|) {
      var path := LongPath(entries, root, |bound|);
      PathStaysAmongIds(entries, path);
      NoRepeatsBound(path, bound);
    }
  }

  lemma {:induction false} BoundedAlong(entries: seq<Entry>, path: seq<string>, i: nat, depth: nat)
    requires IsPath(entries, path) && i < |path| && Bounded(entries, path[0], depth)
    ensures i < depth && Bounded(entries, path[i], depth - i)
  {
    if i > 0 {
      var h := i - 1;
      BoundedAlong(entries, path, h, depth);
      assert path[i] in NextIds(entries, path[h]);
    }
  }

  /** A chain back to its own beginning goes on for ever. */
  lemma {:induction false} CycleIsUnbounded(entries: seq<Entry>, cycle: seq<string>, depth: nat)
    requires IsPath(entries, cycle) && |cycle| > 1 && cycle[0] == cycle[|cycle| - 1]
    ensures !Bounded(entries, cycle[0], depth)
    decreases depth
  {
    if depth > 0 {
      var turned := cycle[1..] + [cycle[1]];
      assert cycle[1] in NextIds(entries, cycle[0]);
      forall i, j | 0 <= i && j == i + 1 < |turned| ensures turned[j] in NextIds(entries, turned[i]) {
        assert turned[i] == cycle[i + 1];
        if j < |turned| - 1 { assert turned[j] == cycle[j + 1]; }
      }
      CycleIsUnbounded(entries, turned, depth - 1);
    }
  }

  lemma BoundedIsRepeatFree(entries: seq<Entry>, path: seq<string>, depth: nat)
    requires IsPath(entries, path) && Bounded(entries, path[0], depth)
    ensures NoRepeats(path)
  {
    forall i, j | 0 <= i < j < |path| ensures path[i] != path[j] {
      if path[i] == path[j] {
        var cycle := path[i..j + 1];
        BoundedAlong(entries, path, i, depth);
        CycleIsUnbounded(entries, cycle, depth - i);
      }
    }
  }

  /** The number of look-ups below an id, itself included, when its chains are no longer than `depth`. */
  ghost function LookUps(entries: seq<Entry>, id: string, depth: nat): nat
    decreases depth, 0
  {
    if depth == 0 then 0 else 1 + LookUpsOfAll(entries, NextIds(entries, id), depth - 1)
  }

  ghost function LookUpsOfAll(entries: seq<Entry>, queue: seq<string>, depth: nat): nat
    decreases depth, 1 + |queue|
  {
    if queue == [] then 0 else LookUps(entries, queue[0], depth) + LookUpsOfAll(entries, queue[1..], depth)
  }

  ghost predicate AllBounded(entries: seq<Entry>, queue: seq<string>, depth: nat) {
    forall k :: k in queue ==> Bounded(entries, k, depth)
  }

  lemma {:induction false} LookUpsSettle(entries: seq<Entry>, id: string, depth: nat)
    requires Bounded(entries, id, depth)
    ensures LookUps(entries, id, depth + 1) == LookUps(entries, id, depth)
    decreases depth, 0
  {
    LookUpsOfAllSettle(entries, NextIds(entries, id), depth - 1);
  }

  lemma {:induction false} LookUpsOfAllSettle(entries: seq<Entry>, queue: seq<string>, depth: nat)
    requires AllBounded(entries, queue, depth)
    ensures LookUpsOfAll(entries, queue, depth + 1) == LookUpsOfAll(entries, queue, depth)
    decreases depth, 1 + |queue|
  {
    if queue != [] {
      LookUpsSettle(entries, queue[0], depth);
      LookUpsOfAllSettle(entries, queue[1..], depth);
    }
  }

  lemma {:induction false} LookUpsConcat(entries: seq<Entry>, a: seq<string>, b: seq<string>, depth: nat)
    ensures LookUpsOfAll(entries, a + b, depth) == LookUpsOfAll(entries, a, depth) + LookUpsOfAll(entries, b, depth)
    decreases |a|
  {
    if a == [] {
      assert a + b == b;
    } else {
      assert (a + b)[1..] == a[1..] + b;
      LookUpsConcat(entries, a[1..], b, depth);
    }
  }

  /** Each round takes one look-up off the queue. */
  lemma {:induction false} BoundedWalkEnds(entries: seq<Entry>, queue: seq<string>, depth: nat)
    requires AllBounded(entries, queue, depth)
    ensures Walk(entries, queue, LookUpsOfAll(entries, queue, depth)) == []
    decreases LookUpsOfAll(entries, queue, depth)
  {
    if queue != [] {
      var kids := NextIds(entries, queue[0]);
      assert Bounded(entries, queue[0], depth);
      forall k | k in kids ensures Bounded(entries, k, depth) { BoundedGrows(entries, k, depth - 1); }
      LookUpsOfAllSettle(entries, kids, depth - 1);
      LookUpsConcat(entries, queue[1..], kids, depth);
      assert LookUps(entries, queue[0], depth) == 1 + LookUpsOfAll(entries, kids, depth - 1);
      assert LookUpsOfAll(entries, kids, depth - 1 + 1) == LookUpsOfAll(entries, kids, depth - 1);
      assert depth - 1 + 1 == depth;
      BoundedWalkEnds(entries, queue[1..] + kids, depth);
    }
  }

  lemma {:induction false} EndedWalkIsBounded(entries: seq<Entry>, queue: seq<string>, rounds: nat)
    requires Walk(entries, queue, rounds) == []
    ensures AllBounded(entries, queue, rounds)
    decreases rounds
  {
    if queue != [] && rounds > 0 {
      var next := queue[1..] + NextIds(entries, queue[0]);
      EndedWalkIsBounded(entries, next, rounds - 1);
      forall k | k in queue ensures Bounded(entries, k, rounds) {
        if k == queue[0] {
          forall x | x in NextIds(entries, k) ensures Bounded(entries, x, rounds - 1) { assert x in next; }
        } else {
          assert k in queue[1..] && k in next;
          BoundedGrows(entries, k, rounds - 1);
        }
      }
    }
  }

  /** For any ids, repeated ones included: the walk from a root ends exactly when no chain of replies from it repeats an id. */
  lemma WalkEndsIff(entries: seq<Entry>, root: string)
    ensures (exists rounds :: Walk(entries, [root], rounds) == [])
            <==> (forall path :: IsPath(entries, path) && path[0] == root ==> NoRepeats(path))
  {
    if rounds :| Walk(entries, [root], rounds) == [] {
      EndedWalkIsBounded(entries, [root], rounds);
      assert root in [root];
      forall path | IsPath(entries, path) && path[0] == root ensures NoRepeats(path) {
        BoundedIsRepeatFree(entries, path, rounds);
      }
    }
    if forall path :: IsPath(entries, path) && path[0] == root ==> NoRepeats(path) {
      RepeatFreeIsBounded(entries, root);
      BoundedWalkEnds(entries, [root], |CommentIds(entries) + {root}|);
    }
  }
}
