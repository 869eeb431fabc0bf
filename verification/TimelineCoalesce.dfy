/**
 Merging runs of identical activity entries. The loop compares each entry with the last one it kept;
 the lemmas say which contiguous blocks of the input that produces, and that threads do not notice.
 */
module TimelineCoalesce {
  import opened Wrappers
  import opened Timeline
  import opened TimelineThread

  const COALESCE_MS := 2 * 60 * 1000
  const NO_TIME_LIMIT_ACTIONS := {"task_completed", "task_failed"}
  const NEVER_COALESCE_ACTIONS := {"squad_leader_evaluated"}

  /** At most two minutes apart; a time that does not parse is never close to anything. */
  predicate Close(a: Option<int>, b: Option<int>) {
    a.Some? && b.Some? && -COALESCE_MS <= b.value - a.value <= COALESCE_MS
  }

  predicate Mergeable(prev: Entry, entry: Entry) {
    && entry.kind.Activity?
    && entry.action.GetOr("") !in NEVER_COALESCE_ACTIONS
    && prev.kind.Activity?
    && prev.action == entry.action && prev.actorType == entry.actorType && prev.actorId == entry.actorId
    && (entry.action.GetOr("") in NO_TIME_LIMIT_ACTIONS || Close(entry.createdAt, prev.createdAt))
  }

  function Weight(e: Entry): nat {
    e.coalescedCount.GetOr(1)
  }

  function Step(out: seq<Entry>, entry: Entry): seq<Entry> {
    if out != [] && Mergeable(out[|out| - 1], entry)
    then out[..|out| - 1] + [entry.(coalescedCount := Some(Weight(out[|out| - 1]) + 1))]
    else out + [entry]
  }

  function Coalesced(entries: seq<Entry>): seq<Entry> {
    if entries == [] then [] else Step(Coalesced(entries[..|entries| - 1]), entries[|entries| - 1])
  }

  method CoalesceTimeline(entries: seq<Entry>) returns (out: seq<Entry>)
    ensures out == Coalesced(entries)
    ensures Cuts(Blocks(entries)) && Flatten(Blocks(entries)) == entries
    ensures Collapses(out, Blocks(entries))
  {
    out := [];
    for n := 0 to |entries|
      invariant out == Coalesced(entries[..n])
    {
      var entry := entries[n];
      assert entries[..n + 1][..n] == entries[..n];
      if entry.kind.Activity? {
        if |out| > 0 && Mergeable(out[|out| - 1], entry) {
          out := out[|out| - 1 := entry.(coalescedCount := Some(Weight(out[|out| - 1]) + 1))];
          continue;
        }
      }
      out := out + [entry];
    }
    assert entries[..|entries|] == entries;
    BlocksPartition(entries);
    OutputsAreBlocks(entries);
  }

  // ----- the blocks -----

  /** Cutting the input wherever two neighbours do not merge. */
  ghost function Blocks(entries: seq<Entry>): seq<seq<Entry>> {
    if entries == [] then []
    else
      var n := |entries| - 1;
      var front := Blocks(entries[..n]);
      if front != [] && n > 0 && Mergeable(entries[n - 1], entries[n])
      then front[|front| - 1 := front[|front| - 1] + [entries[n]]]
      else front + [[entries[n]]]
  }

  ghost function Flatten(blocks: seq<seq<Entry>>): seq<Entry> {
    if blocks == [] then [] else Flatten(blocks[..|blocks| - 1]) + blocks[|blocks| - 1]
  }

  /** What a block becomes: itself when single, else its last entry carrying the number of entries. */
  ghost function Collapse(block: seq<Entry>): Entry
    requires block != []
  {
    if |block| == 1 then block[0]
    else block[|block| - 1].(coalescedCount := Some(Weight(block[0]) + |block| - 1))
  }

  /** No block is empty, neighbours within a block merge, and neighbours across a cut do not. */
  ghost predicate Cuts(blocks: seq<seq<Entry>>) {
    && (forall i :: 0 <= i < |blocks| ==> blocks[i] != [] && Chained(blocks[i]))
    && (forall i, j :: 0 <= i && j == i + 1 < |blocks| ==> !Mergeable(Last(blocks[i]), blocks[j][0]))
  }

  ghost predicate Chained(block: seq<Entry>) {
    forall k, l :: 0 <= k && l == k + 1 < |block| ==> Mergeable(block[k], block[l])
  }

  ghost function Last(block: seq<Entry>): Entry
    requires block != []
  {
    block[|block| - 1]
  }

  lemma FlattenSnoc(blocks: seq<seq<Entry>>, block: seq<Entry>)
    ensures Flatten(blocks + [block]) == Flatten(blocks) + block
  {
    assert (blocks + [block])[..|blocks|] == blocks;
  }

  lemma ExtendCuts(blocks: seq<seq<Entry>>, e: Entry)
    requires Cuts(blocks) && blocks != [] && Mergeable(Last(blocks[|blocks| - 1]), e)
    ensures var grown := blocks[|blocks| - 1 := blocks[|blocks| - 1] + [e]];
            Cuts(grown) && Flatten(grown) == Flatten(blocks) + [e]
  {
    var grown := blocks[|blocks| - 1 := blocks[|blocks| - 1] + [e]];
    assert grown[..|grown| - 1] == blocks[..|blocks| - 1];
  }

  lemma AddCut(blocks: seq<seq<Entry>>, e: Entry)
    requires Cuts(blocks) && (blocks != [] ==> !Mergeable(Last(blocks[|blocks| - 1]), e))
    ensures Cuts(blocks + [[e]])
  {
    var grown := blocks + [[e]];
    assert grown[|blocks|] == [e] && Chained([e]);
    assert forall i :: 0 <= i < |blocks| ==> grown[i] == blocks[i];
  }

  /** The blocks are contiguous, nonempty, make up the input, and are cut exactly where neighbours do not merge. */
  lemma {:induction false} BlocksPartition(entries: seq<Entry>)
    ensures Cuts(Blocks(entries)) && Flatten(Blocks(entries)) == entries
    ensures entries != [] ==> Blocks(entries) != [] && Last(Blocks(entries)[|Blocks(entries)| - 1]) == Last(entries)
  {
    if entries != [] {
      var n := |entries| - 1;
      BlocksPartition(entries[..n]);
      var front := Blocks(entries[..n]);
      assert entries == entries[..n] + [entries[n]];
      if front != [] && n > 0 && Mergeable(entries[n - 1], entries[n]) {
        ExtendCuts(front, entries[n]);
      } else {
        AddCut(front, entries[n]);
        FlattenSnoc(front, [entries[n]]);
      }
    }
  }

  ghost predicate Collapses(out: seq<Entry>, blocks: seq<seq<Entry>>) {
    |out| == |blocks| && forall i :: 0 <= i < |blocks| ==> blocks[i] != [] && out[i] == Collapse(blocks[i])
  }

  lemma GrowLastBlock(out: seq<Entry>, blocks: seq<seq<Entry>>, e: Entry)
    requires Collapses(out, blocks) && out != [] && Mergeable(out[|out| - 1], e)
    ensures Collapses(Step(out, e), blocks[|blocks| - 1 := blocks[|blocks| - 1] + [e]])
  {
  }

  lemma AddBlock(out: seq<Entry>, blocks: seq<seq<Entry>>, e: Entry)
    requires Collapses(out, blocks) && (out != [] ==> !Mergeable(out[|out| - 1], e))
    ensures Collapses(Step(out, e), blocks + [[e]])
  {
  }

  /** Each output is its block collapsed, whatever counts the input already carried. */
  lemma {:induction false} OutputsAreBlocks(entries: seq<Entry>)
    ensures Collapses(Coalesced(entries), Blocks(entries))
  {
    if entries != [] {
      var n := |entries| - 1;
      OutputsAreBlocks(entries[..n]);
      var front, out := Blocks(entries[..n]), Coalesced(entries[..n]);
      if n > 0 { LastKept(entries[..n]); }
      if out != [] && Mergeable(out[|out| - 1], entries[n]) {
        GrowLastBlock(out, front, entries[n]);
      } else {
        AddBlock(out, front, entries[n]);
      }
    }
  }

  // ----- which neighbours merge, in terms of the entries -----

  /** Same action by the same actor, and no comment among the two. */
  ghost predicate Alike(a: Entry, b: Entry) {
    a.kind == b.kind == Activity && a.action == b.action && (a.actorType, a.actorId) == (b.actorType, b.actorId)
  }

  /**
   Each entry is merged into the one before it, which it then replaces with a count one higher, or it is kept as it is.
   Unlike neighbours never merge and squad evaluations never do; finished tasks always do; any other action does
   exactly when both times parse and are at most two minutes apart, in either order.
   */
  lemma MergesIff(entries: seq<Entry>, n: nat)
    requires 0 < n < |entries|
    ensures var prev, e := entries[n - 1], entries[n];
            var before, after := Coalesced(entries[..n]), Coalesced(entries[..n + 1]);
            var merged := |after| == |before|;
            && before != []
            && (!merged ==> after == before + [e])
            && (merged ==> after == before[..|before| - 1] + [e.(coalescedCount := after[|after| - 1].coalescedCount)])
            && (merged && before[|before| - 1].coalescedCount.None? ==> after[|after| - 1].coalescedCount == Some(2))
            && (merged && before[|before| - 1].coalescedCount.Some? ==>
                  after[|after| - 1].coalescedCount == Some(before[|before| - 1].coalescedCount.value + 1))
            && (!Alike(prev, e) || e.action == Some("squad_leader_evaluated") ==> !merged)
            && (Alike(prev, e) && (e.action == Some("task_completed") || e.action == Some("task_failed")) ==> merged)
            && (Alike(prev, e) && (e.action.None? || e.action.value !in {"squad_leader_evaluated", "task_completed", "task_failed"})
                ==> (merged <==> && prev.createdAt.Some? && e.createdAt.Some?
                                 && e.createdAt.value <= prev.createdAt.value + 120000
                                 && prev.createdAt.value <= e.createdAt.value + 120000))
  {
    MergeableMeans(entries[n - 1], entries[n]);
    hide Mergeable, Alike, Coalesced;
    MergeStep(entries, n);
  }

  lemma MergeStep(entries: seq<Entry>, n: nat)
    requires 0 < n < |entries|
    ensures var e, before, after := entries[n], Coalesced(entries[..n]), Coalesced(entries[..n + 1]);
            && before != []
            && (if Mergeable(entries[n - 1], e)
                then after == before[..|before| - 1]
                              + [e.(coalescedCount := Some(before[|before| - 1].coalescedCount.GetOr(1) + 1))]
                else after == before + [e])
  {
    LastKept(entries[..n]);
    assert entries[..n + 1][..n] == entries[..n];
    var last := Coalesced(entries[..n])[|Coalesced(entries[..n])| - 1];
    assert Mergeable(last, entries[n]) <==> Mergeable(entries[n - 1], entries[n]);
    hide Mergeable;
  }

  lemma MergeableMeans(prev: Entry, e: Entry)
    ensures !Alike(prev, e) || e.action == Some("squad_leader_evaluated") ==> !Mergeable(prev, e)
    ensures Alike(prev, e) && (e.action == Some("task_completed") || e.action == Some("task_failed")) ==> Mergeable(prev, e)
    ensures Alike(prev, e) && (e.action.None? || e.action.value !in {"squad_leader_evaluated", "task_completed", "task_failed"})
            ==> (Mergeable(prev, e) <==> && prev.createdAt.Some? && e.createdAt.Some?
                                         && e.createdAt.value <= prev.createdAt.value + 120000
                                         && prev.createdAt.value <= e.createdAt.value + 120000)
  {
  }

  // ----- counts -----

  ghost function Total(s: seq<Entry>): int {
    if s == [] then 0 else Total(s[..|s| - 1]) + Weight(s[|s| - 1])
  }

  /** The counts that entries carried when they were merged into an earlier one, beyond one each. */
  ghost function Lost(entries: seq<Entry>): int {
    if entries == [] then 0
    else
      var n := |entries| - 1;
      Lost(entries[..n]) + if n > 0 && Mergeable(entries[n - 1], entries[n]) then Weight(entries[n]) - 1 else 0
  }

  lemma {:induction false} LastKept(entries: seq<Entry>)
    requires entries != []
    ensures Coalesced(entries) != []
    ensures var last := Coalesced(entries)[|Coalesced(entries)| - 1];
            last == Last(entries).(coalescedCount := last.coalescedCount)
  {
  }

  /** Counts are conserved exactly when nothing is lost, that is, when absorbed entries carried no count of their own. */
  lemma {:induction false} CountsConserved(entries: seq<Entry>)
    ensures Total(Coalesced(entries)) == Total(entries) - Lost(entries)
  {
    if entries != [] {
      var n := |entries| - 1;
      var out, all := Coalesced(entries[..n]), Coalesced(entries);
      CountsConserved(entries[..n]);
      if n > 0 {
        LastKept(entries[..n]);
        assert Mergeable(out[|out| - 1], entries[n]) <==> Mergeable(entries[n - 1], entries[n]);
      }
      if out != [] && Mergeable(out[|out| - 1], entries[n]) {
        assert all[..|all| - 1] == out[..|out| - 1];
      } else {
        assert all[..|all| - 1] == out;
      }
    }
  }

  ghost predicate Raw(entries: seq<Entry>) {
    forall e :: e in entries ==> e.coalescedCount.None?
  }

  lemma {:induction false} RawCounts(entries: seq<Entry>)
    requires Raw(entries)
    ensures Total(entries) == |entries| && Lost(entries) == 0
  {
    if entries != [] {
      var n := |entries| - 1;
      assert forall e :: e in entries[..n] ==> e in entries;
      RawCounts(entries[..n]);
      assert entries[n] in entries;
    }
  }

  /** On raw entries the counts add up to the length of the input. */
  lemma RawCountsAddUp(entries: seq<Entry>)
    requires Raw(entries)
    ensures Total(Coalesced(entries)) == |entries|
  {
    CountsConserved(entries);
    RawCounts(entries);
  }

  // ----- idempotence -----

  ghost predicate AscendingTimes(entries: seq<Entry>) {
    forall i, j :: 0 <= i < j < |entries| && entries[i].createdAt.Some? && entries[j].createdAt.Some?
      ==> entries[i].createdAt.value <= entries[j].createdAt.value
  }

  ghost predicate Settled(s: seq<Entry>) {
    forall i, j :: 0 <= i && j == i + 1 < |s| ==> !Mergeable(s[i], s[j])
  }

  lemma {:induction false} SettledIsFixed(s: seq<Entry>)
    requires Settled(s)
    ensures Coalesced(s) == s
  {
    if s != [] {
      var n := |s| - 1;
      SettledIsFixed(s[..n]);
      assert s == s[..n] + [s[n]];
    }
  }

  lemma AppendSettled(s: seq<Entry>, e: Entry)
    requires Settled(s) && (s != [] ==> !Mergeable(s[|s| - 1], e))
    ensures Settled(s + [e])
  {
  }

  lemma ReplaceLastSettled(s: seq<Entry>, e: Entry)
    requires Settled(s) && s != [] && (|s| > 1 ==> !Mergeable(s[|s| - 2], e))
    ensures Settled(s[..|s| - 1] + [e])
  {
    AppendSettled(s[..|s| - 1], e);
  }

  lemma {:induction false} OutputsSettle(entries: seq<Entry>)
    requires AscendingTimes(entries)
    ensures Settled(Coalesced(entries))
  {
    if entries != [] {
      var front, e := entries[..|entries| - 1], entries[|entries| - 1];
      OutputsSettle(front);
      var out := Coalesced(front);
      if out != [] && Mergeable(out[|out| - 1], e) {
        var merged := e.(coalescedCount := Some(Weight(out[|out| - 1]) + 1));
        if |out| > 1 {
          LastKept(front);
          var k := KeptFromInput(front, |out| - 2);
          assert !Mergeable(out[|out| - 2], out[|out| - 1]);
          BetweenIsMergeable(entries, k, out[|out| - 2], out[|out| - 1], e);
        }
        ReplaceLastSettled(out, merged);
      } else {
        AppendSettled(out, e);
      }
    }
  }

  lemma {:induction false} KeptFromInput(entries: seq<Entry>, i: nat) returns (k: nat)
    requires i < |Coalesced(entries)|
    ensures k < |entries|
    ensures Coalesced(entries)[i] == entries[k].(coalescedCount := Coalesced(entries)[i].coalescedCount)
  {
    if i < |Coalesced(entries)| - 1 {
      k := KeptFromInput(entries[..|entries| - 1], i);
    } else {
      LastKept(entries);
      k := |entries| - 1;
    }
  }

  /** If the block before could take the new entry, it could have taken the entry in between already. */
  lemma BetweenIsMergeable(entries: seq<Entry>, k: nat, before: Entry, last: Entry, e: Entry)
    requires AscendingTimes(entries) && |entries| > 1 && k < |entries| - 1
    requires e == entries[|entries| - 1]
    requires before == entries[k].(coalescedCount := before.coalescedCount)
    requires last == entries[|entries| - 2].(coalescedCount := last.coalescedCount)
    requires Mergeable(last, e) && !Mergeable(before, last)
    ensures !Mergeable(before, e.(coalescedCount := Some(Weight(last) + 1)))
  {
  }

  /** On ascending times no two neighbouring outputs can merge, so coalescing twice changes nothing. */
  lemma CoalescingIsIdempotent(entries: seq<Entry>)
    requires AscendingTimes(entries)
    ensures Settled(Coalesced(entries))
    ensures Coalesced(Coalesced(entries)) == Coalesced(entries)
  {
    OutputsSettle(entries);
    SettledIsFixed(Coalesced(entries));
  }

  lemma CoalescingShortens(s: seq<Entry>)
    ensures |Coalesced(s)| <= |s|
  {
  }

  /** Only a settled list keeps its length. */
  lemma {:induction false} FixedIsSettled(s: seq<Entry>)
    requires |Coalesced(s)| == |s|
    ensures Settled(s)
  {
    if s != [] {
      var n := |s| - 1;
      CoalescingShortens(s[..n]);
      FixedIsSettled(s[..n]);
      SettledIsFixed(s[..n]);
      assert s == s[..n] + [s[n]];
      AppendSettled(s[..n], s[n]);
    }
  }

  /** No block could take the last entry of the next one. */
  ghost predicate LastsApart(blocks: seq<seq<Entry>>) {
    forall i, j :: 0 <= i && j == i + 1 < |blocks| && blocks[i] != [] && blocks[j] != []
      ==> !Mergeable(Last(blocks[i]), Last(blocks[j]))
  }

  /**
   For every input, in whatever order, a second pass changes nothing exactly when no block of the input could take
   the last entry of the block behind it.
   */
  lemma IdempotentIff(entries: seq<Entry>)
    ensures Coalesced(Coalesced(entries)) == Coalesced(entries) <==> LastsApart(Blocks(entries))
  {
    var out, blocks := Coalesced(entries), Blocks(entries);
    OutputsAreBlocks(entries);
    assert forall i :: 0 <= i < |blocks| ==> out[i] == Last(blocks[i]).(coalescedCount := out[i].coalescedCount);
    assert Settled(out) <==> LastsApart(blocks);
    if Coalesced(out) == out { FixedIsSettled(out); }
    if Settled(out) { SettledIsFixed(out); }
  }

  lemma CoalescedSnoc(front: seq<Entry>, e: Entry)
    ensures Coalesced(front + [e]) == Step(Coalesced(front), e)
  {
    assert (front + [e])[..|front|] == front;
  }

  function Assignment(actor: string, at: int): Entry {
    Entry(Activity, "a", "member", actor, Some(at), Some("assigned"), None, None, "")
  }

  lemma TwoPassesDiffer(a: Entry, b: Entry, c: Entry)
    requires !Mergeable(a, b) && Mergeable(b, c) && Mergeable(a, c)
    ensures |Coalesced([a, b, c])| == 2 && |Coalesced(Coalesced([a, b, c]))| == 1
  {
    var merged := c.(coalescedCount := Some(Weight(b) + 1));
    CoalescedSnoc([], a);
    CoalescedSnoc([a], b);
    CoalescedSnoc([a, b], c);
    CoalescedSnoc([a], merged);
    assert [] + [a] == [a] && [a] + [b] == [a, b] && [a, b] + [c] == [a, b, c];
    assert [a, b][..1] + [merged] == [a] + [merged];
  }

  /** Out of order, a second pass can merge more: the last entry of a block moves its time back into range. */
  lemma UnorderedIsNotIdempotent(actor: string)
    ensures var entries := [Assignment(actor, 0), Assignment(actor, 200000), Assignment(actor, 100000)];
            Coalesced(Coalesced(entries)) != Coalesced(entries)
  {
    TwoPassesDiffer(Assignment(actor, 0), Assignment(actor, 200000), Assignment(actor, 100000));
  }

  // ----- threads do not notice -----

  lemma CommentsSnoc(s: seq<Entry>, e: Entry)
    ensures Comments(s + [e]) == if e.kind.Comment? then Comments(s) + [e] else Comments(s)
  {
    assert (s + [e])[..|s|] == s;
  }

  /** Coalescing leaves the comment subsequence untouched. */
  lemma {:induction false} CommentsUntouched(entries: seq<Entry>)
    ensures Comments(Coalesced(entries)) == Comments(entries)
  {
    if entries != [] {
      var front, e := entries[..|entries| - 1], entries[|entries| - 1];
      CommentsUntouched(front);
      var out := Coalesced(front);
      CommentsSnoc(out, e);
      if out != [] && Mergeable(out[|out| - 1], e) {
        var kept := out[..|out| - 1];
        CommentsSnoc(kept, out[|out| - 1]);
        assert out == kept + [out[|out| - 1]];
        CommentsSnoc(kept, e.(coalescedCount := Some(Weight(out[|out| - 1]) + 1)));
      }
    }
  }

  lemma {:induction false} CommentsDecideKids(entries: seq<Entry>, ids: set<string>, parent: string)
    ensures Kids(entries, ids, parent) == Kids(Comments(entries), ids, parent)
  {
    if entries != [] {
      var front, e := entries[..|entries| - 1], entries[|entries| - 1];
      CommentsDecideKids(front, ids, parent);
      if e.kind.Comment? { KidsConcat(Comments(front), [e], ids, parent); }
      KidsConcat(front, [e], ids, parent);
      assert entries == front + [e] && [e][..0] == [];
    }
  }

  lemma {:induction false} CommentsDecideTop(entries: seq<Entry>, ids: set<string>)
    ensures Comments(TopLevel(entries, ids)) == TopLevel(Comments(entries), ids)
  {
    if entries != [] {
      var front, e := entries[..|entries| - 1], entries[|entries| - 1];
      CommentsDecideTop(front, ids);
      CommentsSnoc(TopLevel(front, ids), e);
      if e.kind.Comment? {
        assert (Comments(front) + [e])[..|Comments(front)|] == Comments(front);
      }
    }
  }

  lemma {:induction false} CommentsDecideIds(entries: seq<Entry>)
    ensures forall e :: e in Comments(entries) <==> e in entries && e.kind.Comment?
    ensures CommentIds(entries) == CommentIds(Comments(entries))
  {
    if entries != [] {
      CommentsDecideIds(entries[..|entries| - 1]);
      assert entries == entries[..|entries| - 1] + [entries[|entries| - 1]];
    }
  }

  lemma {:induction false} SameKidsOfAll(a: seq<Entry>, b: seq<Entry>, ids: set<string>, parents: seq<string>)
    requires Comments(a) == Comments(b)
    ensures KidsOfAll(a, ids, parents) == KidsOfAll(b, ids, parents)
  {
    if parents != [] {
      SameKidsOfAll(a, b, ids, parents[..|parents| - 1]);
      CommentsDecideKids(a, ids, parents[|parents| - 1]);
      CommentsDecideKids(b, ids, parents[|parents| - 1]);
    }
  }

  ghost function CommentRows(rows: seq<Row>): seq<Row> {
    if rows == [] then []
    else
      var front := CommentRows(rows[..|rows| - 1]);
      if rows[|rows| - 1].entry.kind.Comment? then front + [rows[|rows| - 1]] else front
  }

  /** The comment rows of a list of rows are the threads of its top-level comments, in order. */
  lemma {:induction false} CommentRowsAre(entries: seq<Entry>, rows: seq<Row>, n: nat)
    requires IsRows(entries, rows) && n <= |rows|
    ensures var top := Comments(TopLevel(entries, CommentIds(entries))[..n]);
            && |CommentRows(rows[..n])| == |top|
            && forall i :: 0 <= i < |top| ==> top[i].kind.Comment? && IsRow(entries, CommentIds(entries), top[i], CommentRows(rows[..n])[i])
  {
    if n > 0 {
      var top := TopLevel(entries, CommentIds(entries));
      CommentRowsAre(entries, rows, n - 1);
      assert rows[..n][..n - 1] == rows[..n - 1];
      assert top[..n] == top[..n - 1] + [top[n - 1]];
      CommentsSnoc(top[..n - 1], top[n - 1]);
      assert IsRow(entries, CommentIds(entries), top[n - 1], rows[n - 1]);
    }
  }

  /** Threads built before and after coalescing have the same comment rows with the same replies. */
  lemma ThreadsUnaffected(entries: seq<Entry>, before: seq<Row>, after: seq<Row>)
    requires IsRows(entries, before) && IsRows(Coalesced(entries), after)
    ensures CommentRows(before) == CommentRows(after)
  {
    var merged := Coalesced(entries);
    CommentsUntouched(entries);
    CommentsDecideIds(entries);
    CommentsDecideIds(merged);
    CommentsDecideTop(entries, CommentIds(entries));
    CommentsDecideTop(merged, CommentIds(entries));
    var ids := CommentIds(entries);
    assert CommentIds(merged) == ids;
    CommentRowsAre(entries, before, |before|);
    CommentRowsAre(merged, after, |after|);
    var top := Comments(TopLevel(entries, ids));
    assert before[..|before|] == before && after[..|after|] == after;
    assert TopLevel(entries, ids)[..|before|] == TopLevel(entries, ids);
    assert TopLevel(merged, ids)[..|after|] == TopLevel(merged, ids);
    forall i | 0 <= i < |top| ensures CommentRows(before)[i] == CommentRows(after)[i] {
      var a, b := CommentRows(before)[i], CommentRows(after)[i];
      assert IsRow(entries, ids, top[i], a) && IsRow(merged, ids, top[i], b);
      SameKidsOfAll(entries, merged, ids, Visited(top[i].id, b.replies));
      assert IsThread(entries, ids, top[i].id, b.replies);
      IsThreadUnique(entries, ids, top[i].id, a.replies, b.replies);
    }
  }
}
