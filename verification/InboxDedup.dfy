/**
 The inbox shows one item per issue: archived items are dropped, the rest are grouped, each group keeps
 its newest item with the newest comment anchor, and the result is sorted newest first.
 */
module InboxDedup {
  import opened Wrappers

  const COMMENT_ID := "comment_id"

  /** `createdAt` is the parsed time; `body` is everything the deduplication does not look at. */
  datatype Item = Item(
    id: string, issueId: Option<string>, createdAt: int, archived: bool, read: bool,
    details: Option<map<string, string>>, body: string)

  function Key(i: Item): string {
    i.issueId.GetOr(i.id)
  }

  function CommentId(i: Item): Option<string> {
    if i.details.Some? && COMMENT_ID in i.details.value then Some(i.details.value[COMMENT_ID]) else None
  }

  predicate HasAnchor(i: Item) {
    CommentId(i).Some? && CommentId(i).value != ""
  }

  function WithAnchor(i: Item, anchor: string): Item {
    i.(details := Some(i.details.GetOr(map[])[COMMENT_ID := anchor]))
  }

  // ----- sorting newest first -----

  function Place(i: Item, sorted: seq<Item>): (r: seq<Item>)
    ensures |r| == |sorted| + 1
  {
    if sorted == [] then [i]
    else if sorted[|sorted| - 1].createdAt < i.createdAt
    then Place(i, sorted[..|sorted| - 1]) + [sorted[|sorted| - 1]]
    else sorted + [i]
  }

  /** The stable sort of the runtime, newest first. */
  function NewestFirst(items: seq<Item>): (r: seq<Item>)
    ensures |r| == |items|
  {
    if items == [] then [] else Place(items[|items| - 1], NewestFirst(items[..|items| - 1]))
  }

  ghost predicate Descending(s: seq<Item>) {
    forall i, j :: 0 <= i < j < |s| ==> s[i].createdAt >= s[j].createdAt
  }

  lemma {:induction false} PlaceFacts(i: Item, sorted: seq<Item>)
    requires Descending(sorted)
    ensures Descending(Place(i, sorted))
    ensures forall x :: x in Place(i, sorted) <==> x in sorted || x == i
  {
    if sorted != [] && sorted[|sorted| - 1].createdAt < i.createdAt {
      var front, last := sorted[..|sorted| - 1], sorted[|sorted| - 1];
      PlaceFacts(i, front);
      assert sorted == front + [last];
      var r := Place(i, front);
      forall k | 0 <= k < |r| ensures r[k].createdAt >= last.createdAt { assert r[k] in front || r[k] == i; }
    }
  }

  lemma {:induction false} NewestFirstFacts(items: seq<Item>)
    ensures Descending(NewestFirst(items))
    ensures forall x :: x in NewestFirst(items) <==> x in items
  {
    if items != [] {
      NewestFirstFacts(items[..|items| - 1]);
      PlaceFacts(items[|items| - 1], NewestFirst(items[..|items| - 1]));
      assert forall x :: x in items <==> x in items[..|items| - 1] || x == items[|items| - 1];
    }
  }

  lemma {:induction false} SortedStays(items: seq<Item>)
    requires Descending(items)
    ensures NewestFirst(items) == items
  {
    if items != [] {
      SortedStays(items[..|items| - 1]);
      assert items == items[..|items| - 1] + [items[|items| - 1]];
    }
  }

  // ----- grouping -----

  function Active(items: seq<Item>): seq<Item> {
    if items == [] then []
    else
      var front := Active(items[..|items| - 1]);
      if items[|items| - 1].archived then front else front + [items[|items| - 1]]
  }

  function Group(items: seq<Item>, key: string): seq<Item> {
    if items == [] then []
    else
      var front := Group(items[..|items| - 1], key);
      if Key(items[|items| - 1]) == key then front + [items[|items| - 1]] else front
  }

  /** The keys in the order they first occur, which is the order of the groups in the Map. */
  function Keys(items: seq<Item>): seq<string> {
    if items == [] then []
    else
      var front, key := Keys(items[..|items| - 1]), Key(items[|items| - 1]);
      if key in front then front else front + [key]
  }

  /** The first item with a nonempty anchor. */
  function FirstAnchor(sorted: seq<Item>): Option<string> {
    if sorted == [] then None
    else if HasAnchor(sorted[0]) then CommentId(sorted[0])
    else FirstAnchor(sorted[1..])
  }

  /** What a sorted group is shown as. An anchor of its own, even an empty one, is not replaced. */
  function Shown(sorted: seq<Item>): Item
    requires sorted != []
  {
    var newest := sorted[0];
    var anchor := if CommentId(newest).Some? then CommentId(newest) else FirstAnchor(sorted);
    if anchor.Some? && anchor.value != "" && CommentId(newest) != anchor
    then WithAnchor(newest, anchor.value) else newest
  }

  function ShownGroups(active: seq<Item>, keys: seq<string>): seq<Item> {
    if keys == [] then []
    else
      var front, group := ShownGroups(active, keys[..|keys| - 1]), NewestFirst(Group(active, keys[|keys| - 1]));
      if group == [] then front else front + [Shown(group)]
  }

  function Deduplicated(items: seq<Item>): seq<Item> {
    NewestFirst(ShownGroups(Active(items), Keys(Active(items))))
  }

  /** The groups are filled through a Map whose keys keep their insertion order. */
  method DeduplicateInboxItems(items: seq<Item>) returns (result: seq<Item>)
    ensures result == Deduplicated(items)
  {
    hide *;
    var active := Active(items);
    var order, groups := GroupByKey(active);
    var merged: seq<Item> := [];
    ShownNone(active, order);
    for n := 0 to |order|
      invariant merged == ShownGroups(active, order[..n])
    {
      ShownOneMore(active, order, n);
      assert order[n] in order;
      assert order[n] in groups && groups[order[n]] == Group(active, order[n]);
      var group := NewestFirst(groups[order[n]]);
      if group == [] { continue; }
      var newest := group[0];
      var commentId := CommentId(newest);
      if commentId.None? { commentId := FirstAnchor(group); }
      ShownCases(group);
      if commentId.Some? && commentId.value != "" && CommentId(newest) != commentId {
        merged := merged + [WithAnchor(newest, commentId.value)];
        continue;
      }
      merged := merged + [newest];
    }
    assert order[..|order|] == order;
    result := NewestFirst(merged);
    DeduplicatedIs(items);
  }

  method GroupByKey(active: seq<Item>) returns (order: seq<string>, groups: map<string, seq<Item>>)
    ensures order == Keys(active)
    ensures forall k :: k in order ==> k in groups && groups[k] == Group(active, k)
  {
    order, groups := [], map[];
    for n := 0 to |active|
      invariant order == Keys(active[..n])
      invariant forall k :: (if k in groups then groups[k] else []) == Group(active[..n], k)
      invariant forall k :: k in order <==> k in groups
    {
      var item := active[n];
      var key := Key(item);
      assert active[..n + 1][..n] == active[..n];
      var group := if key in groups then groups[key] else [];
      if key !in groups { order := order + [key]; }
      groups := groups[key := group + [item]];
    }
    assert active[..|active|] == active;
  }

  lemma DeduplicatedIs(items: seq<Item>)
    ensures Deduplicated(items) == NewestFirst(ShownGroups(Active(items), Keys(Active(items))))
  {
  }

  lemma ShownNone(active: seq<Item>, keys: seq<string>)
    ensures ShownGroups(active, keys[..0]) == []
  {
  }

  lemma ShownOneMore(active: seq<Item>, keys: seq<string>, n: nat)
    requires n < |keys|
    ensures var group := NewestFirst(Group(active, keys[n]));
            ShownGroups(active, keys[..n + 1])
            == ShownGroups(active, keys[..n]) + if group == [] then [] else [Shown(group)]
  {
    assert keys[..n + 1][..n] == keys[..n];
  }

  lemma ShownCases(group: seq<Item>)
    requires group != []
    ensures var anchor := if CommentId(group[0]).Some? then CommentId(group[0]) else FirstAnchor(group);
            Shown(group) == if anchor.Some? && anchor.value != "" && CommentId(group[0]) != anchor
                            then WithAnchor(group[0], anchor.value) else group[0]
  {
  }

  // ----- what is shown -----

  lemma {:induction false} ActiveFacts(items: seq<Item>)
    ensures forall i :: i in Active(items) <==> i in items && !i.archived
  {
    if items != [] {
      ActiveFacts(items[..|items| - 1]);
      assert forall i :: i in items <==> i in items[..|items| - 1] || i == items[|items| - 1];
    }
  }

  lemma {:induction false} GroupFacts(items: seq<Item>, key: string)
    ensures forall i :: i in Group(items, key) <==> i in items && Key(i) == key
  {
    if items != [] {
      GroupFacts(items[..|items| - 1], key);
      assert forall i :: i in items <==> i in items[..|items| - 1] || i == items[|items| - 1];
    }
  }

  ghost predicate NoRepeats(keys: seq<string>) {
    forall i, j :: 0 <= i < j < |keys| ==> keys[i] != keys[j]
  }

  lemma {:induction false} KeysFacts(items: seq<Item>)
    ensures NoRepeats(Keys(items))
    ensures forall k :: k in Keys(items) <==> exists i :: i in items && Key(i) == k
  {
    if items != [] {
      var front, last := items[..|items| - 1], items[|items| - 1];
      KeysFacts(front);
      assert last in items;
      assert forall i :: i in items <==> i in front || i == last;
    }
  }

  lemma {:induction false} FirstAnchorFacts(sorted: seq<Item>) returns (at: nat)
    ensures FirstAnchor(sorted).None? ==> forall i :: i in sorted ==> !HasAnchor(i)
    ensures FirstAnchor(sorted).Some? ==>
              at < |sorted| && HasAnchor(sorted[at]) && CommentId(sorted[at]) == FirstAnchor(sorted)
              && forall j :: 0 <= j < at ==> !HasAnchor(sorted[j])
  {
    at := 0;
    if sorted != [] && !HasAnchor(sorted[0]) {
      at := FirstAnchorFacts(sorted[1..]);
      assert forall i :: i in sorted <==> i == sorted[0] || i in sorted[1..];
      at := at + 1;
    }
  }

  /** `n` is a newest item with this key among the items that are not archived. */
  ghost predicate IsNewest(items: seq<Item>, key: string, n: Item) {
    && n in items && !n.archived && Key(n) == key
    && forall i :: i in items && !i.archived && Key(i) == key ==> i.createdAt <= n.createdAt
  }

  /** `a` is a newest item with this key that carries a comment anchor. */
  ghost predicate IsNewestAnchor(items: seq<Item>, key: string, a: Item) {
    && a in items && !a.archived && Key(a) == key && HasAnchor(a)
    && forall i :: i in items && !i.archived && Key(i) == key && HasAnchor(i) ==> i.createdAt <= a.createdAt
  }

  ghost predicate AnyAnchor(items: seq<Item>, key: string) {
    exists i :: i in items && !i.archived && Key(i) == key && HasAnchor(i)
  }

  /** `x` is the newest item `n`, with the anchor of `a` when it has none itself and there is one. */
  ghost predicate ShownAs(items: seq<Item>, key: string, x: Item, n: Item, a: Item) {
    && IsNewest(items, key, n)
    && if CommentId(n).None? && AnyAnchor(items, key)
       then IsNewestAnchor(items, key, a) && x == WithAnchor(n, CommentId(a).value)
       else x == n
  }

  ghost predicate IsShown(items: seq<Item>, key: string, x: Item) {
    exists n, a :: ShownAs(items, key, x, n, a)
  }

  lemma NewestLeads(items: seq<Item>, key: string)
    requires Group(Active(items), key) != []
    ensures var g := NewestFirst(Group(Active(items), key));
            IsNewest(items, key, g[0]) && forall i :: i in g <==> i in items && !i.archived && Key(i) == key
  {
    var group := Group(Active(items), key);
    var g := NewestFirst(group);
    ActiveFacts(items);
    GroupFacts(Active(items), key);
    NewestFirstFacts(group);
    assert g[0] in g;
    forall i | i in items && !i.archived && Key(i) == key ensures i.createdAt <= g[0].createdAt {
      var k :| 0 <= k < |g| && g[k] == i;
    }
  }

  lemma FirstAnchorIsNewest(items: seq<Item>, key: string, g: seq<Item>, at: nat)
    requires Descending(g) && forall i :: i in g <==> i in items && !i.archived && Key(i) == key
    requires at < |g| && HasAnchor(g[at]) && forall j :: 0 <= j < at ==> !HasAnchor(g[j])
    ensures IsNewestAnchor(items, key, g[at])
  {
    assert g[at] in g;
    forall i | i in items && !i.archived && Key(i) == key && HasAnchor(i) ensures i.createdAt <= g[at].createdAt {
      var k :| 0 <= k < |g| && g[k] == i;
    }
  }

  lemma GroupIsShown(items: seq<Item>, key: string)
    requires Group(Active(items), key) != []
    ensures IsShown(items, key, Shown(NewestFirst(Group(Active(items), key))))
  {
    hide Group, Active, NewestFirst, FirstAnchor, IsNewest, IsNewestAnchor;
    var g := NewestFirst(Group(Active(items), key));
    NewestLeads(items, key);
    NewestFirstFacts(Group(Active(items), key));
    var at := FirstAnchorFacts(g);
    if FirstAnchor(g).Some? {
      assert g[at] in g;
      FirstAnchorIsNewest(items, key, g, at);
      assert ShownAs(items, key, Shown(g), g[0], g[at]);
    } else {
      assert ShownAs(items, key, Shown(g), g[0], g[0]);
    }
  }

  lemma ShownKeepsKey(items: seq<Item>, key: string, x: Item)
    requires IsShown(items, key, x)
    ensures Key(x) == key && !x.archived
    ensures exists n :: IsNewest(items, key, n) && x.createdAt == n.createdAt
  {
    var n, a :| ShownAs(items, key, x, n, a);
  }

  ghost predicate HasKey(items: seq<Item>, key: string) {
    exists i :: i in items && Key(i) == key
  }

  /** What the group of a key is shown as. */
  lemma ShownGroupFacts(items: seq<Item>, key: string)
    requires HasKey(Active(items), key)
    ensures Group(Active(items), key) != []
    ensures IsShownFor(items, key, Shown(NewestFirst(Group(Active(items), key))))
  {
    GroupFacts(Active(items), key);
    var i :| i in Active(items) && Key(i) == key;
    assert i in Group(Active(items), key);
    GroupIsShown(items, key);
    ShownKeepsKey(items, key, Shown(NewestFirst(Group(Active(items), key))));
  }

  ghost predicate IsShownFor(items: seq<Item>, key: string, x: Item) {
    IsShown(items, key, x) && Key(x) == key
  }

  /** One shown item per key, in the order of the keys. */
  lemma {:induction false} ShownGroupsFacts(items: seq<Item>, keys: seq<string>)
    requires forall k :: k in keys ==> HasKey(Active(items), k)
    ensures |ShownGroups(Active(items), keys)| == |keys|
    ensures forall i :: 0 <= i < |keys| ==> IsShownFor(items, keys[i], ShownGroups(Active(items), keys)[i])
  {
    hide IsShownFor, HasKey, Group, Active, NewestFirst, Shown;
    if keys != [] {
      var front, last := keys[..|keys| - 1], keys[|keys| - 1];
      assert last in keys && forall k :: k in front ==> k in keys;
      ShownGroupsFacts(items, front);
      ShownGroupFacts(items, last);
    }
  }

  ghost predicate OnePerKey(s: seq<Item>) {
    forall i, j :: 0 <= i < j < |s| ==> Key(s[i]) != Key(s[j])
  }

  lemma {:induction false} PlaceKeepsKeys(i: Item, sorted: seq<Item>)
    requires OnePerKey(sorted) && forall k :: 0 <= k < |sorted| ==> Key(sorted[k]) != Key(i)
    requires Descending(sorted)
    ensures OnePerKey(Place(i, sorted))
  {
    if sorted != [] && sorted[|sorted| - 1].createdAt < i.createdAt {
      var front, last := sorted[..|sorted| - 1], sorted[|sorted| - 1];
      PlaceKeepsKeys(i, front);
      PlaceFacts(i, front);
      var r := Place(i, front);
      forall k | 0 <= k < |r| ensures Key(r[k]) != Key(last) { assert r[k] in front || r[k] == i; }
    }
  }

  lemma {:induction false} SortKeepsKeys(s: seq<Item>)
    requires OnePerKey(s)
    ensures OnePerKey(NewestFirst(s))
  {
    if s != [] {
      var front, last := s[..|s| - 1], s[|s| - 1];
      SortKeepsKeys(front);
      NewestFirstFacts(front);
      var r := NewestFirst(front);
      forall k | 0 <= k < |r| ensures Key(r[k]) != Key(last) { assert r[k] in front; }
      PlaceKeepsKeys(last, r);
    }
  }

  /**
   The list shows exactly one item per issue key among the items that are not archived: the newest of its
   group with the newest available anchor; and it is sorted newest first.
   */
  lemma OneItemPerIssue(items: seq<Item>)
    ensures var r := Deduplicated(items);
            && Descending(r) && OnePerKey(r)
            && (forall x :: x in r ==> !x.archived && IsShown(items, Key(x), x))
            && (forall i :: i in items && !i.archived ==> HasKey(r, Key(i)))
  {
    var active := Active(items);
    var keys := Keys(active);
    var shown := ShownGroups(active, keys);
    KeysFacts(active);
    ShownGroupsFacts(items, keys);
    forall i, j | 0 <= i < j < |shown| ensures Key(shown[i]) != Key(shown[j]) {
      assert IsShownFor(items, keys[i], shown[i]) && IsShownFor(items, keys[j], shown[j]);
    }
    SortKeepsKeys(shown);
    NewestFirstFacts(shown);
    ActiveFacts(items);
    forall x | x in Deduplicated(items) ensures !x.archived && IsShown(items, Key(x), x) {
      var i :| 0 <= i < |shown| && shown[i] == x;
      assert IsShownFor(items, keys[i], shown[i]);
      ShownKeepsKey(items, keys[i], x);
    }
    forall i | i in items && !i.archived ensures HasKey(Deduplicated(items), Key(i)) {
      assert i in active && Key(i) in keys;
      var k :| 0 <= k < |keys| && keys[k] == Key(i);
      assert IsShownFor(items, keys[k], shown[k]);
      assert shown[k] in Deduplicated(items);
    }
  }

  // ----- idempotence -----

  lemma {:induction false} ActiveOfActive(s: seq<Item>)
    requires forall x :: x in s ==> !x.archived
    ensures Active(s) == s
  {
    if s != [] {
      assert s[|s| - 1] in s && forall x :: x in s[..|s| - 1] ==> x in s;
      ActiveOfActive(s[..|s| - 1]);
      assert s == s[..|s| - 1] + [s[|s| - 1]];
    }
  }

  ghost function KeysOf(s: seq<Item>): (keys: seq<string>)
    ensures |keys| == |s| && forall i :: 0 <= i < |s| ==> keys[i] == Key(s[i])
  {
    seq(|s|, i requires 0 <= i < |s| => Key(s[i]))
  }

  lemma {:induction false} KeysOfDistinct(s: seq<Item>)
    requires OnePerKey(s)
    ensures Keys(s) == KeysOf(s)
  {
    if s != [] {
      KeysOfDistinct(s[..|s| - 1]);
      assert KeysOf(s) == KeysOf(s[..|s| - 1]) + [Key(s[|s| - 1])];
    }
  }

  lemma {:induction false} NoGroup(s: seq<Item>, key: string)
    requires forall i :: 0 <= i < |s| ==> Key(s[i]) != key
    ensures Group(s, key) == []
  {
    if s != [] { NoGroup(s[..|s| - 1], key); }
  }

  lemma {:induction false} GroupOfDistinct(s: seq<Item>, k: nat)
    requires OnePerKey(s) && k < |s|
    ensures Group(s, Key(s[k])) == [s[k]]
  {
    var front, last := s[..|s| - 1], s[|s| - 1];
    if k < |front| {
      GroupOfDistinct(front, k);
    } else {
      NoGroup(front, Key(last));
    }
  }

  lemma SingleIsShown(x: Item)
    ensures NewestFirst([x]) == [x] && Shown([x]) == x
  {
    SortedStays([x]);
    assert [x][1..] == [] && FirstAnchor([x][1..]) == None;
    if CommentId(x).None? { assert FirstAnchor([x]) == FirstAnchor([x][1..]); }
  }

  lemma {:induction false} ShownGroupsOfDistinct(s: seq<Item>, n: nat)
    requires OnePerKey(s) && n <= |s|
    ensures ShownGroups(s, KeysOf(s)[..n]) == s[..n]
  {
    if n > 0 {
      ShownGroupsOfDistinct(s, n - 1);
      var keys := KeysOf(s);
      assert keys[..n][..n - 1] == keys[..n - 1];
      GroupOfDistinct(s, n - 1);
      SingleIsShown(s[n - 1]);
      assert s[..n] == s[..n - 1] + [s[n - 1]];
    }
  }

  /** Deduplicating what is shown changes nothing. */
  lemma DeduplicationIsIdempotent(items: seq<Item>)
    ensures Deduplicated(Deduplicated(items)) == Deduplicated(items)
  {
    var r := Deduplicated(items);
    OneItemPerIssue(items);
    ActiveOfActive(r);
    KeysOfDistinct(r);
    ShownGroupsOfDistinct(r, |r|);
    assert KeysOf(r)[..|r|] == KeysOf(r) && r[..|r|] == r;
    SortedStays(r);
  }

  // ----- input order does not matter -----

  /** No two different items that are not archived have the same time. */
  ghost predicate TimesDiffer(items: seq<Item>) {
    forall a, b :: a in items && b in items && !a.archived && !b.archived && a.createdAt == b.createdAt ==> a == b
  }

  lemma ShownIsUnique(first: seq<Item>, second: seq<Item>, key: string, x: Item, y: Item)
    requires TimesDiffer(first) && forall i :: i in first <==> i in second
    requires IsShown(first, key, x) && IsShown(second, key, y)
    ensures x == y
  {
    var n, a :| ShownAs(first, key, x, n, a);
    var m, b :| ShownAs(second, key, y, m, b);
    assert n == m;
    assert AnyAnchor(first, key) <==> AnyAnchor(second, key);
  }

  lemma SameShown(first: seq<Item>, second: seq<Item>, x: Item)
    requires TimesDiffer(first) && forall i :: i in first <==> i in second
    requires x in Deduplicated(first)
    ensures x in Deduplicated(second)
  {
    OneItemPerIssue(first);
    OneItemPerIssue(second);
    var key := Key(x);
    var n, a :| ShownAs(first, key, x, n, a);
    assert HasKey(Deduplicated(second), key);
    var y :| y in Deduplicated(second) && Key(y) == key;
    ShownIsUnique(first, second, key, x, y);
  }

  ghost predicate StrictlyDescending(s: seq<Item>) {
    forall i, j :: 0 <= i < j < |s| ==> s[i].createdAt > s[j].createdAt
  }

  lemma ShownTimesDiffer(items: seq<Item>)
    requires TimesDiffer(items)
    ensures StrictlyDescending(Deduplicated(items))
  {
    var r := Deduplicated(items);
    OneItemPerIssue(items);
    forall i, j | 0 <= i < j < |r| ensures r[i].createdAt > r[j].createdAt {
      assert r[i] in r && r[j] in r;
      ShownKeepsKey(items, Key(r[i]), r[i]);
      ShownKeepsKey(items, Key(r[j]), r[j]);
      var n :| IsNewest(items, Key(r[i]), n) && r[i].createdAt == n.createdAt;
      var m :| IsNewest(items, Key(r[j]), m) && r[j].createdAt == m.createdAt;
      assert n != m;
    }
  }

  lemma {:induction false} DescendingUnique(a: seq<Item>, b: seq<Item>)
    requires StrictlyDescending(a) && StrictlyDescending(b) && forall x :: x in a <==> x in b
    ensures a == b
  {
    assert a != [] ==> a[0] in b;
    assert b != [] ==> b[0] in a;
    if a != [] {
      assert a[0] == b[0];
      forall x ensures x in a[1..] <==> x in b[1..] {
        if x in a[1..] { assert x in b && x != b[0]; }
        if x in b[1..] { assert x in a && x != a[0]; }
      }
      DescendingUnique(a[1..], b[1..]);
    }
  }

  /** With different times the inbox depends on the set of items only, not on their order or repetition. */
  lemma OrderIsIrrelevant(first: seq<Item>, second: seq<Item>)
    requires TimesDiffer(first) && forall i :: i in first <==> i in second
    ensures Deduplicated(first) == Deduplicated(second)
  {
    assert TimesDiffer(second);
    forall x ensures x in Deduplicated(first) <==> x in Deduplicated(second) {
      if x in Deduplicated(first) { SameShown(first, second, x); }
      if x in Deduplicated(second) { SameShown(second, first, x); }
    }
    ShownTimesDiffer(first);
    ShownTimesDiffer(second);
    DescendingUnique(Deduplicated(first), Deduplicated(second));
  }

  // ----- the shown list in terms of the items alone -----

  /** Of one issue; an item without an issue stands under its own id. */
  ghost predicate SameIssue(a: Item, b: Item) {
    && (a.issueId.Some? && b.issueId.Some? ==> a.issueId == b.issueId)
    && (a.issueId.None? && b.issueId.None? ==> a.id == b.id)
    && (a.issueId.Some? && b.issueId.None? ==> a.issueId.value == b.id)
    && (a.issueId.None? && b.issueId.Some? ==> a.id == b.issueId.value)
  }

  /** The details of the item name this comment. */
  ghost predicate Names(i: Item, comment: string) {
    i.details.Some? && "comment_id" in i.details.value && i.details.value["comment_id"] == comment
  }

  /** One of the items of the issue that are not archived. */
  ghost predicate Among(items: seq<Item>, x: Item, i: Item) {
    i in items && !i.archived && SameIssue(i, x)
  }

  /** The newest of them that names a comment at all, and the comment. */
  ghost predicate NewestNaming(items: seq<Item>, x: Item, a: Item, comment: string) {
    && Among(items, x, a) && Names(a, comment) && comment != ""
    && forall i, c :: Among(items, x, i) && Names(i, c) && c != "" ==> i.createdAt <= a.createdAt
  }

  /** `x` is the newest of them, or the newest with the comment of the newest that names one. */
  ghost predicate ShowsNewest(items: seq<Item>, x: Item, n: Item) {
    && Among(items, x, n) && (forall i :: Among(items, x, i) ==> i.createdAt <= n.createdAt)
    && (x == n
        || (&& (forall c :: !Names(n, c))
            && exists a, c :: && NewestNaming(items, x, a, c)
                              && x == n.(details := Some(n.details.GetOr(map[])["comment_id" := c]))))
    && (x == n ==> (exists c :: Names(n, c)) || forall i, c :: Among(items, x, i) && Names(i, c) ==> c == "")
  }

  lemma KeysAreIssues(a: Item, b: Item)
    ensures Key(a) == Key(b) <==> SameIssue(a, b)
  {
  }

  lemma AnchorsAreNames(i: Item)
    ensures forall c :: Names(i, c) <==> CommentId(i) == Some(c)
    ensures HasAnchor(i) <==> exists c :: Names(i, c) && c != ""
    ensures CommentId(i).None? ==> forall c :: WithAnchor(i, c) == i.(details := Some(i.details.GetOr(map[])["comment_id" := c]))
  {
    if HasAnchor(i) { assert Names(i, CommentId(i).value); }
  }

  /** One item per issue: no two shown items are of one issue, and every item that is not archived is stood for. */
  lemma EachIssueOnce(items: seq<Item>)
    ensures var r := Deduplicated(items);
            && (forall i, j :: 0 <= i < j < |r| ==> !SameIssue(r[i], r[j]) && r[i].createdAt >= r[j].createdAt)
            && (forall i :: i in items && !i.archived ==> exists x :: x in r && SameIssue(x, i))
  {
    var r := Deduplicated(items);
    OneItemPerIssue(items);
    forall i, j | 0 <= i < j < |r| ensures !SameIssue(r[i], r[j]) { KeysAreIssues(r[i], r[j]); }
    forall i | i in items && !i.archived ensures exists x :: x in r && SameIssue(x, i) {
      var x :| x in r && Key(x) == Key(i);
      KeysAreIssues(x, i);
    }
  }

  /** Each shown item is the newest one of its issue, naming the newest comment there is when it names none itself. */
  lemma NewestIsShown(items: seq<Item>, x: Item)
    requires x in Deduplicated(items)
    ensures exists n :: ShowsNewest(items, x, n)
  {
    OneItemPerIssue(items);
    var n, a :| ShownAs(items, Key(x), x, n, a);
    hide *;
    ShownIsNewest(items, x, n, a);
  }

  lemma ShownIsNewest(items: seq<Item>, x: Item, n: Item, a: Item)
    requires ShownAs(items, Key(x), x, n, a)
    ensures ShowsNewest(items, x, n)
  {
    forall i ensures Among(items, x, i) <==> i in items && !i.archived && Key(i) == Key(x) { KeysAreIssues(i, x); }
    forall i ensures (forall c :: Names(i, c) <==> CommentId(i) == Some(c)) && (HasAnchor(i) <==> exists c :: Names(i, c) && c != "") {
      AnchorsAreNames(i);
    }
    hide Key, CommentId, HasAnchor, WithAnchor, SameIssue, Names, Among;
    if CommentId(n).None? && AnyAnchor(items, Key(x)) {
      var c := CommentId(a).value;
      AnchorsAreNames(n);
      AnchorChanges(n, c);
      assert NewestNaming(items, x, a, c);
    } else if CommentId(n).Some? {
      assert Names(n, CommentId(n).value);
    }
  }

  lemma AnchorChanges(n: Item, c: string)
    requires CommentId(n).None?
    ensures WithAnchor(n, c) != n
  {
    assert CommentId(WithAnchor(n, c)) == Some(c);
  }

  // ----- the sort is stable -----

  ghost function AtTime(s: seq<Item>, time: int): seq<Item> {
    if s == [] then []
    else AtTime(s[..|s| - 1], time) + (if s[|s| - 1].createdAt == time then [s[|s| - 1]] else [])
  }

  lemma AtTimeSnoc(s: seq<Item>, i: Item, time: int)
    ensures AtTime(s + [i], time) == AtTime(s, time) + (if i.createdAt == time then [i] else [])
  {
    assert (s + [i])[..|s|] == s;
  }

  lemma {:induction false} PlaceAtTime(i: Item, sorted: seq<Item>, time: int)
    requires Descending(sorted)
    ensures AtTime(Place(i, sorted), time) == AtTime(sorted, time) + (if i.createdAt == time then [i] else [])
  {
    AtTimeSnoc(sorted, i, time);
    if sorted != [] && sorted[|sorted| - 1].createdAt < i.createdAt {
      var front, last := sorted[..|sorted| - 1], sorted[|sorted| - 1];
      PlaceAtTime(i, front, time);
      AtTimeSnoc(Place(i, front), last, time);
    }
  }

  /** Items of one time keep their order, and none is lost or added. */
  lemma {:induction false} SortIsStable(items: seq<Item>, time: int)
    ensures AtTime(NewestFirst(items), time) == AtTime(items, time)
  {
    if items != [] {
      var front := items[..|items| - 1];
      SortIsStable(front, time);
      NewestFirstFacts(front);
      PlaceAtTime(items[|items| - 1], NewestFirst(front), time);
    }
  }

  /** The unread badge. */
  function UnreadCount(items: seq<Item>): nat {
    Unread(Deduplicated(items))
  }

  function Unread(s: seq<Item>): nat {
    if s == [] then 0 else Unread(s[..|s| - 1]) + if s[|s| - 1].read then 0 else 1
  }

  /** The badge counts the shown items, each for itself: one for an unread item and none for a read one. */
  lemma {:induction false} UnreadByItem(front: seq<Item>, i: Item, back: seq<Item>)
    ensures Unread(front + [i] + back) == Unread(front) + (if i.read then 0 else 1) + Unread(back) && Unread([]) == 0
  {
    var all := front + [i] + back;
    if back == [] {
      assert all == front + [i] && all[..|all| - 1] == front;
    } else {
      var n := |back| - 1;
      assert all[..|all| - 1] == front + [i] + back[..n];
      UnreadByItem(front, i, back[..n]);
    }
  }

  /** The number of unread items among the shown ones, by their places. */
  lemma BadgeCountsUnread(items: seq<Item>)
    ensures UnreadCount(items) == |UnreadPlaces(Deduplicated(items))|
  {
    UnreadIsNumber(Deduplicated(items));
    hide Unread, UnreadPlaces, Deduplicated;
  }

  ghost function UnreadPlaces(s: seq<Item>): set<int> {
    set k | 0 <= k < |s| && !s[k].read
  }

  lemma {:induction false} UnreadIsNumber(s: seq<Item>)
    ensures Unread(s) == |UnreadPlaces(s)|
  {
    if s != [] {
      var n := |s| - 1;
      UnreadIsNumber(s[..n]);
      assert UnreadPlaces(s) == UnreadPlaces(s[..n]) + if s[n].read then {} else {n};
    }
  }

  /** The badge is a function of the set of items, and recounting over the shown list agrees with it. */
  lemma BadgeDependsOnSet(first: seq<Item>, second: seq<Item>)
    requires TimesDiffer(first) && forall i :: i in first <==> i in second
    ensures UnreadCount(first) == UnreadCount(second) == UnreadCount(Deduplicated(first))
  {
    OrderIsIrrelevant(first, second);
    DeduplicationIsIdempotent(first);
  }
}
