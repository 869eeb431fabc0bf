/**
 Merging batches of task messages into one list ordered by `seq`. Live events and backfills both go
 through it, in any order.
 */
module SeqMerge {
  datatype Message = Message(number: int, payload: string)

  predicate Known(list: seq<Message>, number: int) {
    exists m :: m in list && m.number == number
  }

  function Fresh(existing: seq<Message>, incoming: seq<Message>): seq<Message> {
    if incoming == [] then []
    else
      var front, last := Fresh(existing, incoming[..|incoming| - 1]), incoming[|incoming| - 1];
      if Known(existing, last.number) then front else front + [last]
  }

  function Place(m: Message, sorted: seq<Message>): seq<Message> {
    if sorted != [] && m.number < sorted[|sorted| - 1].number
    then Place(m, sorted[..|sorted| - 1]) + [sorted[|sorted| - 1]]
    else sorted + [m]
  }

  /** The stable sort of the runtime. */
  function Sort(list: seq<Message>): seq<Message> {
    if list == [] then [] else Place(list[|list| - 1], Sort(list[..|list| - 1]))
  }

  function Merge(existing: seq<Message>, incoming: seq<Message>): seq<Message> {
    if incoming == [] then existing
    else
      var added := Fresh(existing, incoming);
      if added == [] then existing else Sort(existing + added)
  }

  // ----- what a merge is -----

  ghost predicate Ascending(list: seq<Message>) {
    forall i, j :: 0 <= i < j < |list| ==> list[i].number < list[j].number
  }

  ghost predicate Distinct(list: seq<Message>) {
    forall i, j :: 0 <= i < j < |list| ==> list[i].number != list[j].number
  }

  lemma {:induction false} FreshFacts(existing: seq<Message>, incoming: seq<Message>)
    ensures forall m :: m in Fresh(existing, incoming) <==> m in incoming && !Known(existing, m.number)
    ensures Distinct(incoming) ==> Distinct(Fresh(existing, incoming))
  {
    if incoming != [] {
      var front, last := incoming[..|incoming| - 1], incoming[|incoming| - 1];
      FreshFacts(existing, front);
      assert forall m :: m in incoming <==> m in front || m == last;
      var r := Fresh(existing, front);
      forall i | 0 <= i < |r| && Distinct(incoming) ensures r[i].number != last.number { assert r[i] in front; }
    }
  }

  lemma {:induction false} PlaceFacts(m: Message, sorted: seq<Message>)
    ensures forall x :: x in Place(m, sorted) <==> x in sorted || x == m
    ensures |Place(m, sorted)| == |sorted| + 1
    ensures Ascending(sorted) && !Known(sorted, m.number) ==> Ascending(Place(m, sorted))
  {
    if sorted != [] && m.number < sorted[|sorted| - 1].number {
      var front, last := sorted[..|sorted| - 1], sorted[|sorted| - 1];
      PlaceFacts(m, front);
      assert sorted == front + [last];
      var r := Place(m, front);
      if Ascending(sorted) && !Known(sorted, m.number) {
        forall i | 0 <= i < |r| ensures r[i].number < last.number { assert r[i] in front || r[i] == m; }
      }
    } else if sorted != [] {
      assert sorted[|sorted| - 1] in sorted;
    }
  }

  lemma {:induction false} SortFacts(list: seq<Message>)
    ensures forall x :: x in Sort(list) <==> x in list
    ensures |Sort(list)| == |list|
    ensures Distinct(list) ==> Ascending(Sort(list))
  {
    if list != [] {
      var front, last := list[..|list| - 1], list[|list| - 1];
      SortFacts(front);
      PlaceFacts(last, Sort(front));
      assert forall x :: x in list <==> x in front || x == last;
      if Distinct(list) {
        forall x | x in Sort(front) ensures x.number != last.number {
          var i :| 0 <= i < |front| && front[i] == x;
        }
      }
    }
  }

  lemma DistinctConcat(a: seq<Message>, b: seq<Message>)
    requires Distinct(a) && Distinct(b) && forall m :: m in b ==> !Known(a, m.number)
    ensures Distinct(a + b)
  {
    forall i, j | 0 <= i < j < |a + b| ensures (a + b)[i].number != (a + b)[j].number {
      if i < |a| <= j { assert a[i] in a && b[j - |a|] in b; }
    }
  }

  /** The merge is the sorted union; on a conflicting number the existing message wins. */
  lemma MergeIsSortedUnion(existing: seq<Message>, incoming: seq<Message>)
    requires Ascending(existing) && Distinct(incoming)
    ensures Ascending(Merge(existing, incoming))
    ensures forall m :: m in Merge(existing, incoming) <==>
                        m in existing || (m in incoming && !Known(existing, m.number))
  {
    FreshFacts(existing, incoming);
    var added := Fresh(existing, incoming);
    if incoming != [] && added != [] {
      DistinctConcat(existing, added);
      SortFacts(existing + added);
      assert forall m :: m in existing + added <==> m in existing || m in added;
    } else {
      assert forall m :: m in incoming && !Known(existing, m.number) ==> m in added;
    }
  }

  /** The result has one message per number exactly when the batch has no two new ones with the same number. */
  lemma MergeIsUniqueIff(existing: seq<Message>, incoming: seq<Message>)
    requires Ascending(existing)
    ensures Ascending(Merge(existing, incoming)) <==> Distinct(Fresh(existing, incoming))
  {
    var added := Fresh(existing, incoming);
    FreshFacts(existing, incoming);
    if added != [] {
      if Distinct(added) {
        DistinctConcat(existing, added);
        SortFacts(existing + added);
      } else {
        RepeatShows(existing, added);
      }
    }
  }

  /** A number that comes twice is still there twice after sorting. */
  lemma RepeatShows(existing: seq<Message>, added: seq<Message>)
    requires !Distinct(added)
    ensures !Ascending(Sort(existing + added))
  {
    var i, j :| 0 <= i < j < |added| && added[i].number == added[j].number;
    assert (existing + added)[|existing| + i] == added[i] && (existing + added)[|existing| + j] == added[j];
    RepeatStays(existing + added, |existing| + i, |existing| + j);
  }

  lemma RepeatStays(all: seq<Message>, i: nat, j: nat)
    requires i < j < |all| && all[i].number == all[j].number
    ensures !Ascending(Sort(all))
  {
    hide Sort, Times, Ascending;
    SortCounts(all);
    NumberTwice(all, i, j);
    if Ascending(Sort(all)) { AscendingCounts(Sort(all), all[i].number); }
  }

  /** How often a number occurs. */
  ghost function Times(list: seq<Message>, number: int): nat {
    if list == [] then 0
    else Times(list[..|list| - 1], number) + if list[|list| - 1].number == number then 1 else 0
  }

  lemma {:induction false} PlaceCounts(m: Message, sorted: seq<Message>, number: int)
    ensures Times(Place(m, sorted), number) == Times(sorted, number) + if m.number == number then 1 else 0
  {
    if sorted != [] && m.number < sorted[|sorted| - 1].number {
      var front, last := sorted[..|sorted| - 1], sorted[|sorted| - 1];
      PlaceCounts(m, front, number);
      assert (Place(m, front) + [last])[..|Place(m, front)|] == Place(m, front);
    } else {
      assert (sorted + [m])[..|sorted|] == sorted;
    }
  }

  lemma {:induction false} SortCounts(list: seq<Message>)
    ensures forall number :: Times(Sort(list), number) == Times(list, number)
  {
    if list != [] {
      SortCounts(list[..|list| - 1]);
      forall number ensures Times(Sort(list), number) == Times(list, number) {
        PlaceCounts(list[|list| - 1], Sort(list[..|list| - 1]), number);
      }
    }
  }

  lemma {:induction false} AscendingCounts(list: seq<Message>, number: int)
    requires Ascending(list)
    ensures Times(list, number) <= 1
    ensures Times(list, number) == 1 ==> Known(list, number)
  {
    if list != [] {
      var front, last := list[..|list| - 1], list[|list| - 1];
      AscendingCounts(front, number);
      assert last in list;
      assert forall m :: m in front ==> m in list;
      if last.number == number {
        forall m | m in front ensures m.number != number { var i :| 0 <= i < |front| && front[i] == m; }
      }
    }
  }

  lemma {:induction false} NumberTwice(list: seq<Message>, i: nat, j: nat)
    requires i < j < |list| && list[i].number == list[j].number
    ensures Times(list, list[i].number) >= 2
  {
    if j < |list| - 1 {
      NumberTwice(list[..|list| - 1], i, j);
    } else {
      NumberOnce(list[..|list| - 1], i);
    }
  }

  lemma {:induction false} NumberOnce(list: seq<Message>, i: nat)
    requires i < |list|
    ensures Times(list, list[i].number) >= 1
  {
    if i < |list| - 1 { NumberOnce(list[..|list| - 1], i); }
  }

  lemma {:induction false} AscendingUnique(a: seq<Message>, b: seq<Message>)
    requires Ascending(a) && Ascending(b) && forall m :: m in a <==> m in b
    ensures a == b
  {
    assert a != [] ==> a[0] in b;
    assert b != [] ==> b[0] in a;
    if a != [] {
      assert a[0] == b[0];
      forall m ensures m in a[1..] <==> m in b[1..] {
        if m in a[1..] { assert m in b && m != b[0]; }
        if m in b[1..] { assert m in a && m != a[0]; }
      }
      AscendingUnique(a[1..], b[1..]);
    }
  }

  /** Messages with the same number carry the same payload. */
  ghost predicate Agree(a: seq<Message>, b: seq<Message>) {
    forall x, y :: x in a && y in b && x.number == y.number ==> x == y
  }

  lemma MergeIsUnion(a: seq<Message>, b: seq<Message>)
    requires Ascending(a) && Distinct(b) && Agree(a, b)
    ensures Ascending(Merge(a, b)) && forall m :: m in Merge(a, b) <==> m in a || m in b
  {
    MergeIsSortedUnion(a, b);
  }

  lemma MergeCommutes(a: seq<Message>, b: seq<Message>)
    requires Ascending(a) && Ascending(b) && Agree(a, b)
    ensures Merge(a, b) == Merge(b, a)
  {
    MergeIsUnion(a, b);
    MergeIsUnion(b, a);
    AscendingUnique(Merge(a, b), Merge(b, a));
  }

  lemma MergeAssociates(a: seq<Message>, b: seq<Message>, c: seq<Message>)
    requires Ascending(a) && Ascending(b) && Ascending(c)
    requires Agree(a, b) && Agree(a, c) && Agree(b, c)
    ensures Merge(Merge(a, b), c) == Merge(a, Merge(b, c))
  {
    MergeIsUnion(a, b);
    MergeIsUnion(b, c);
    MergeIsUnion(Merge(a, b), c);
    MergeIsUnion(a, Merge(b, c));
    AscendingUnique(Merge(Merge(a, b), c), Merge(a, Merge(b, c)));
  }

  /** Nothing new arrives: the list is left as it is, sorted or not. */
  lemma {:induction false} MergeKeepsKnown(a: seq<Message>, b: seq<Message>)
    requires forall m :: m in b ==> Known(a, m.number)
    ensures Fresh(a, b) == [] && Merge(a, b) == a
  {
    if b != [] {
      assert b[|b| - 1] in b;
      assert forall m :: m in b[..|b| - 1] ==> m in b;
      MergeKeepsKnown(a, b[..|b| - 1]);
    }
  }

  // ----- every interleaving -----

  function MergeAll(start: seq<Message>, batches: seq<seq<Message>>): seq<Message> {
    if batches == [] then start else Merge(MergeAll(start, batches[..|batches| - 1]), batches[|batches| - 1])
  }

  /** Seq-unique batches whose payloads are fixed by the number, across all of them. */
  ghost predicate Coherent(batches: seq<seq<Message>>) {
    && (forall b :: b in batches ==> Distinct(b))
    && (forall a, b :: a in batches && b in batches ==> Agree(a, b))
  }

  ghost predicate Among(m: Message, batches: seq<seq<Message>>) {
    exists b :: b in batches && m in b
  }

  lemma {:induction false} MergeAllIsUnion(batches: seq<seq<Message>>)
    requires Coherent(batches)
    ensures Ascending(MergeAll([], batches))
    ensures forall m :: m in MergeAll([], batches) <==> Among(m, batches)
  {
    if batches != [] {
      var front, last := batches[..|batches| - 1], batches[|batches| - 1];
      assert batches == front + [last];
      assert last in batches;
      MergeAllIsUnion(front);
      var before := MergeAll([], front);
      forall x, y | x in before && y in last && x.number == y.number ensures x == y {
        var b :| b in front && x in b;
        assert Agree(b, last);
      }
      MergeIsUnion(before, last);
      forall m ensures Among(m, batches) <==> Among(m, front) || m in last {
        if Among(m, front) { var b :| b in front && m in b; assert b in batches; }
      }
    }
  }

  /** However live events and backfills interleave, repeat or split, the cache converges to one list. */
  lemma InterleavingsConverge(first: seq<seq<Message>>, second: seq<seq<Message>>)
    requires Coherent(first) && Coherent(second)
    requires forall m :: Among(m, first) <==> Among(m, second)
    ensures MergeAll([], first) == MergeAll([], second)
  {
    MergeAllIsUnion(first);
    MergeAllIsUnion(second);
    AscendingUnique(MergeAll([], first), MergeAll([], second));
  }
}
