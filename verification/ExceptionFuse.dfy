/**
 The session fuse on exception events: the first three of each fingerprint are kept, the rest dropped.
 Its memory is one storage blob of at most fifty counters, and storage may fail at any read or write.
 Fingerprints are given; None stands for an event with nothing stable to key on.
 */
module ExceptionFuse {
  import opened Wrappers

  const EXCEPTION_SAMPLE_LIMIT := 3
  const MAX_FINGERPRINTS := 50

  /** A value in the parsed blob; a blob this client did not write may hold anything. */
  datatype Count = Number(n: int) | NotANumber

  /** What is stored: nothing, text that is not a JSON object, or an object. */
  datatype Blob = Absent | Corrupt | Object(counts: map<string, Count>)

  /** How far storage cooperates during one event. */
  datatype Access = Unavailable | ReadFails | WriteFails | Works

  function ReadCounts(blob: Blob): map<string, Count> {
    if blob.Object? then blob.counts else map[]
  }

  function Current(counts: map<string, Count>, fingerprint: string): int {
    if fingerprint in counts && counts[fingerprint].Number? then counts[fingerprint].n else 0
  }

  function Decide(blob: Blob, fingerprint: Option<string>, access: Access): (Blob, bool) {
    if fingerprint.None? || access.Unavailable? || access.ReadFails? then (blob, false)
    else
      var counts := ReadCounts(blob);
      var current := Current(counts, fingerprint.value);
      if current >= EXCEPTION_SAMPLE_LIMIT then (blob, true)
      else if current == 0 && |counts| >= MAX_FINGERPRINTS then (blob, false)
      else if access.WriteFails? then (blob, false)
      else (Object(counts[fingerprint.value := Number(current + 1)]), false)
  }

  class Session {
    var blob: Blob

    constructor ()
      ensures blob == Absent
    {
      blob := Absent;
    }

    method ShouldDropException(fingerprint: Option<string>, access: Access) returns (drop: bool)
      modifies this
      ensures (blob, drop) == Decide(old(blob), fingerprint, access)
    {
      if fingerprint.None? { return false; }
      if access.Unavailable? { return false; }
      if access.ReadFails? { return false; }
      var counts := ReadCounts(blob);
      var current := Current(counts, fingerprint.value);
      if current >= EXCEPTION_SAMPLE_LIMIT { return true; }
      if current == 0 && |counts| >= MAX_FINGERPRINTS { return false; }
      counts := counts[fingerprint.value := Number(current + 1)];
      if access.Works? { blob := Object(counts); }
      return false;
    }
  }

  /** Storage that fails changes nothing; one that cannot be read drops nothing; one that only cannot be written drops the same. */
  lemma FailuresChangeNothing(blob: Blob, fingerprint: Option<string>, access: Access)
    requires !access.Works?
    ensures Decide(blob, fingerprint, access).0 == blob
    ensures access.Unavailable? || access.ReadFails? ==> !Decide(blob, fingerprint, access).1
    ensures access.WriteFails? ==> Decide(blob, fingerprint, access).1 == Decide(blob, fingerprint, Works).1
    ensures fingerprint.None? ==> !Decide(blob, fingerprint, access).1 && Decide(blob, fingerprint, Works) == (blob, false)
  {
  }

  // ----- histories -----

  /** An exception event, or the blob being lost or spoilt by something else between two events. */
  datatype Event = Exception(fingerprint: Option<string>, access: Access) | Lost(corrupt: bool)

  function BlobAfter(history: seq<Event>): Blob {
    if history == [] then Absent
    else
      match history[|history| - 1]
      case Exception(fingerprint, access) => Decide(BlobAfter(history[..|history| - 1]), fingerprint, access).0
      case Lost(corrupt) => if corrupt then Corrupt else Absent
  }

  /** Whether the n-th event is dropped. */
  predicate Dropped(history: seq<Event>, n: nat)
    requires n < |history|
  {
    history[n].Exception? && Decide(BlobAfter(history[..n]), history[n].fingerprint, history[n].access).1
  }

  function Occurrences(history: seq<Event>, fingerprint: string): nat {
    if history == [] then 0
    else
      var e := history[|history| - 1];
      Occurrences(history[..|history| - 1], fingerprint)
      + if e.Exception? && e.fingerprint == Some(fingerprint) then 1 else 0
  }

  function Kept(history: seq<Event>, fingerprint: string): nat {
    if history == [] then 0
    else
      var n := |history| - 1;
      Kept(history[..n], fingerprint)
      + if history[n].Exception? && history[n].fingerprint == Some(fingerprint) && !Dropped(history, n) then 1 else 0
  }

  /** The fingerprints in the order they first occurred. */
  function FirstSeen(history: seq<Event>): seq<string> {
    if history == [] then []
    else
      var before := FirstSeen(history[..|history| - 1]);
      var e := history[|history| - 1];
      if e.Exception? && e.fingerprint.Some? && e.fingerprint.value !in before then before + [e.fingerprint.value]
      else before
  }

  // ----- whatever storage does -----

  /** No counter exceeds what was kept, and there are never more than fifty. */
  ghost predicate Sound(blob: Blob, history: seq<Event>) {
    var counts := ReadCounts(blob);
    && |counts| <= MAX_FINGERPRINTS
    && forall f :: f in counts ==> counts[f].Number? && 1 <= counts[f].n <= Kept(history, f)
  }

  lemma {:induction false} AlwaysSound(history: seq<Event>)
    ensures Sound(BlobAfter(history), history)
  {
    if history != [] {
      var front, e := history[..|history| - 1], history[|history| - 1];
      AlwaysSound(front);
      SoundStep(front, e);
      assert history == front + [e];
    }
  }

  lemma KeptSnoc(history: seq<Event>, e: Event, f: string)
    ensures Kept(history + [e], f) == Kept(history, f)
      + (if e.Exception? && e.fingerprint == Some(f) && !Decide(BlobAfter(history), e.fingerprint, e.access).1 then 1 else 0)
  {
    assert (history + [e])[..|history|] == history;
  }

  lemma BlobSnoc(history: seq<Event>, e: Event)
    ensures BlobAfter(history + [e])
         == if e.Exception? then Decide(BlobAfter(history), e.fingerprint, e.access).0
            else if e.corrupt then Corrupt else Absent
  {
    assert (history + [e])[..|history|] == history;
  }

  lemma SoundStep(history: seq<Event>, e: Event)
    requires Sound(BlobAfter(history), history)
    ensures Sound(BlobAfter(history + [e]), history + [e])
  {
    var before := BlobAfter(history);
    BlobSnoc(history, e);
    forall f ensures Kept(history + [e], f) >= Kept(history, f) { KeptSnoc(history, e, f); }
    if e.Exception? && e.fingerprint.Some? {
      KeptSnoc(history, e, e.fingerprint.value);
      DecideWrites(before, e.fingerprint.value, e.access);
      IncrementIsSound(ReadCounts(before), e.fingerprint.value, history, history + [e]);
    }
    hide Kept, BlobAfter, Decide, Current;
    SameCountsSound(before, history);
    if e.Exception? && e.fingerprint.Some? && BlobAfter(history + [e]) == before {
      SameCountsSound(before, history + [e]);
    }
  }

  lemma SameCountsSound(blob: Blob, history: seq<Event>)
    ensures Sound(blob, history) <==> Sound(Object(ReadCounts(blob)), history)
  {
  }

  /** A decision leaves the blob alone, or keeps the event and counts it within the limit. */
  lemma DecideWrites(blob: Blob, f: string, access: Access)
    ensures var counts, decision := ReadCounts(blob), Decide(blob, Some(f), access);
            var more := counts[f := Number(Current(counts, f) + 1)];
            || decision.0 == blob
            || (!decision.1 && decision.0 == Object(more) && (|counts| <= MAX_FINGERPRINTS ==> |more| <= MAX_FINGERPRINTS))
  {
    CountsAdded(ReadCounts(blob), f, Number(Current(ReadCounts(blob), f) + 1));
  }

  lemma CountsAdded(counts: map<string, Count>, f: string, c: Count)
    ensures |counts[f := c]| == |counts| + if f in counts then 0 else 1
  {
    var more := counts[f := c];
    assert more.Keys == counts.Keys + {f};
    if f in counts { assert counts.Keys + {f} == counts.Keys; }
  }

  lemma IncrementIsSound(counts: map<string, Count>, f: string, history: seq<Event>, after: seq<Event>)
    requires Sound(Object(counts), history)
    requires forall g :: Kept(after, g) >= Kept(history, g)
    ensures Sound(Object(counts), after)
    ensures |counts[f := Number(Current(counts, f) + 1)]| <= MAX_FINGERPRINTS && Kept(after, f) == Kept(history, f) + 1
            ==> Sound(Object(counts[f := Number(Current(counts, f) + 1)]), after)
  {
    hide Kept;
  }

  /** Even with storage failing at any read or write, every drop comes after three kept events of that fingerprint. */
  lemma DropsAreEarned(history: seq<Event>, n: nat)
    requires n < |history| && Dropped(history, n)
    ensures history[n].fingerprint.Some?
    ensures Kept(history[..n], history[n].fingerprint.value) >= EXCEPTION_SAMPLE_LIMIT
  {
    AlwaysSound(history[..n]);
  }

  lemma BlobStaysSmall(history: seq<Event>)
    ensures |ReadCounts(BlobAfter(history))| <= MAX_FINGERPRINTS
  {
    AlwaysSound(history);
  }

  // ----- with storage that works -----

  ghost predicate Reliable(history: seq<Event>) {
    forall e :: e in history ==> e.Exception? && e.access.Works?
  }

  /** The first fifty distinct fingerprints. */
  function Tracked(history: seq<Event>): seq<string> {
    var seen := FirstSeen(history);
    if |seen| <= MAX_FINGERPRINTS then seen else seen[..MAX_FINGERPRINTS]
  }

  predicate IsTracked(history: seq<Event>, f: string) {
    f in Tracked(history)
  }

  function Capped(n: nat): nat {
    if n < EXCEPTION_SAMPLE_LIMIT then n else EXCEPTION_SAMPLE_LIMIT
  }

  /** The blob is a function of the whole history: the first fifty fingerprints with their counts, capped at three. */
  ghost predicate Exact(counts: map<string, Count>, history: seq<Event>) {
    && (forall f :: f in counts <==> IsTracked(history, f))
    && (forall f :: f in counts ==> counts[f] == Number(Capped(Occurrences(history, f))))
  }

  lemma {:induction false} FirstSeenFacts(history: seq<Event>)
    ensures forall i, j :: 0 <= i < j < |FirstSeen(history)| ==> FirstSeen(history)[i] != FirstSeen(history)[j]
    ensures forall f :: f in FirstSeen(history) <==> Occurrences(history, f) > 0
  {
    if history != [] { FirstSeenFacts(history[..|history| - 1]); }
  }

  lemma {:induction false} KeysCounted(counts: map<string, Count>, keys: seq<string>)
    requires forall i, j :: 0 <= i < j < |keys| ==> keys[i] != keys[j]
    requires forall f :: f in counts <==> f in keys
    ensures |counts| == |keys|
  {
    if keys == [] {
      assert counts.Keys == {};
    } else {
      var last := keys[|keys| - 1];
      var rest := counts - {last};
      forall f ensures f in rest <==> f in keys[..|keys| - 1] {}
      KeysCounted(rest, keys[..|keys| - 1]);
      assert counts.Keys == rest.Keys + {last};
    }
  }

  lemma TrackedSize(counts: map<string, Count>, history: seq<Event>)
    requires Exact(counts, history)
    ensures |counts| == |Tracked(history)|
  {
    FirstSeenFacts(history);
    KeysCounted(counts, Tracked(history));
  }

  lemma {:induction false} AlwaysExact(history: seq<Event>)
    requires Reliable(history)
    ensures Exact(ReadCounts(BlobAfter(history)), history)
  {
    if history != [] {
      var n := |history| - 1;
      assert history[n] in history;
      assert forall e :: e in history[..n] ==> e in history;
      AlwaysExact(history[..n]);
      assert history == history[..n] + [history[n]];
      if history[n].fingerprint.Some? {
        hide *;
        ExactStep(history[..n], history[n].fingerprint.value);
      } else {
        NothingToCount(history[..n]);
      }
    }
  }

  lemma TrackedSnoc(history: seq<Event>, f: string, g: string)
    ensures var after := history + [Exception(Some(f), Works)];
            && Occurrences(after, g) == Occurrences(history, g) + (if g == f then 1 else 0)
            && (IsTracked(after, g) <==>
                  IsTracked(history, g) || (g == f && |FirstSeen(history)| < MAX_FINGERPRINTS))
  {
    var after := history + [Exception(Some(f), Works)];
    assert after[..|history|] == history;
    var seen := FirstSeen(history);
    if f !in seen && |seen| >= MAX_FINGERPRINTS { assert (seen + [f])[..MAX_FINGERPRINTS] == seen[..MAX_FINGERPRINTS]; }
  }

  lemma NoFingerprintSnoc(history: seq<Event>, g: string)
    ensures var after := history + [Exception(None, Works)];
            Occurrences(after, g) == Occurrences(history, g) && FirstSeen(after) == FirstSeen(history)
  {
    assert (history + [Exception(None, Works)])[..|history|] == history;
  }

  lemma NothingToCount(history: seq<Event>)
    requires Exact(ReadCounts(BlobAfter(history)), history)
    ensures var after := history + [Exception(None, Works)];
            Exact(ReadCounts(BlobAfter(after)), after)
  {
    BlobSnoc(history, Exception(None, Works));
    NoFingerprintSnoc(history, "");
    hide Occurrences, FirstSeen, BlobAfter;
    forall g ensures Occurrences(history + [Exception(None, Works)], g) == Occurrences(history, g) {
      NoFingerprintSnoc(history, g);
    }
  }

  lemma ExactStep(history: seq<Event>, f: string)
    requires Exact(ReadCounts(BlobAfter(history)), history)
    ensures var after := history + [Exception(Some(f), Works)];
            Exact(ReadCounts(BlobAfter(after)), after)
  {
    var after := history + [Exception(Some(f), Works)];
    var counts := ReadCounts(BlobAfter(history));
    BlobSnoc(history, Exception(Some(f), Works));
    TrackedSize(counts, history);
    TrackedFacts(history, f);
    DecideCounts(BlobAfter(history), f);
    ExactCurrent(counts, history, f);
    hide *;
    var room := |counts| < MAX_FINGERPRINTS;
    forall g ensures SeenOnceMore(history, after, f, g, room) {
      TrackedSnoc(history, f, g);
      SeenOnceMoreIf(history, after, f, g, room);
    }
    CountStaysExact(counts, ReadCounts(BlobAfter(after)), history, after, f, room);
  }

  /** One more occurrence of f, which is tracked from then on if there is room. */
  ghost predicate SeenOnceMore(history: seq<Event>, after: seq<Event>, f: string, g: string, room: bool) {
    && Occurrences(after, g) == Occurrences(history, g) + (if g == f then 1 else 0)
    && (IsTracked(after, g) <==> IsTracked(history, g) || (g == f && room))
  }

  lemma SeenOnceMoreIf(history: seq<Event>, after: seq<Event>, f: string, g: string, room: bool)
    requires Occurrences(after, g) == Occurrences(history, g) + (if g == f then 1 else 0)
    requires IsTracked(after, g) <==> IsTracked(history, g) || (g == f && room)
    ensures SeenOnceMore(history, after, f, g, room)
  {
  }

  lemma CountStaysExact(counts: map<string, Count>, next: map<string, Count>, history: seq<Event>, after: seq<Event>, f: string, room: bool)
    requires Exact(counts, history)
    requires forall g :: SeenOnceMore(history, after, f, g, room)
    requires IsTracked(history, f) ==> Occurrences(history, f) > 0
    requires !IsTracked(history, f) && room ==> Occurrences(history, f) == 0
    requires var current := if IsTracked(history, f) then Capped(Occurrences(history, f)) else 0;
             next == if current >= EXCEPTION_SAMPLE_LIMIT || (current == 0 && !room) then counts
                     else counts[f := Number(current + 1)]
    ensures Exact(next, after)
  {
    hide IsTracked, Occurrences;
    assert SeenOnceMore(history, after, f, f, room);
    forall g ensures g in next <==> IsTracked(after, g) { assert SeenOnceMore(history, after, f, g, room); }
    forall g | g in next ensures next[g] == Number(Capped(Occurrences(after, g))) {
      assert SeenOnceMore(history, after, f, g, room);
    }
  }

  lemma ExactCurrent(counts: map<string, Count>, history: seq<Event>, f: string)
    requires Exact(counts, history)
    ensures Current(counts, f) == if IsTracked(history, f) then Capped(Occurrences(history, f)) else 0
  {
    hide Tracked, Occurrences;
  }

  /** With working storage the counts grow by one on this fingerprint, unless it is full or there is no room for it. */
  lemma DecideCounts(blob: Blob, f: string)
    ensures var counts, current := ReadCounts(blob), Current(ReadCounts(blob), f);
            ReadCounts(Decide(blob, Some(f), Works).0)
            == if current >= EXCEPTION_SAMPLE_LIMIT || (current == 0 && |counts| >= MAX_FINGERPRINTS) then counts
               else counts[f := Number(current + 1)]
  {
  }

  /** The first fifty are all that occurred, or there are fifty of them; an untracked one of few has not occurred. */
  lemma TrackedFacts(history: seq<Event>, f: string)
    ensures |Tracked(history)| == if |FirstSeen(history)| < MAX_FINGERPRINTS then |FirstSeen(history)| else MAX_FINGERPRINTS
    ensures IsTracked(history, f) ==> Occurrences(history, f) > 0
    ensures !IsTracked(history, f) && |FirstSeen(history)| < MAX_FINGERPRINTS ==> Occurrences(history, f) == 0
  {
    FirstSeenFacts(history);
    hide FirstSeen, Occurrences;
    if IsTracked(history, f) {
      assert f in FirstSeen(history);
    }
  }

  /**
   On a session whose storage works, an event is dropped exactly when its fingerprint is among the first
   fifty distinct ones and at least three earlier events carried it.
   */
  lemma DroppedExactly(history: seq<Event>, n: nat)
    requires Reliable(history) && n < |history| && history[n].fingerprint.Some?
    ensures var f := history[n].fingerprint.value;
            Dropped(history, n) <==>
              IsTracked(history[..n], f) && Occurrences(history[..n], f) >= EXCEPTION_SAMPLE_LIMIT
  {
    assert history[n] in history;
    assert forall e :: e in history[..n] ==> e in history;
    AlwaysExact(history[..n]);
  }
}
