/**
 Mentions in the mobile composer: an invisible sentinel in front of `@` marks the chips that came from
 the suggestion bar, and sending turns each chip into a link by pairing it with its marker.

 Text is a sequence of characters; positions count characters.
 */
module Mentions {
  import opened Whitespace
  import opened Wrappers

  const SENTINEL := '\U{2063}'

  datatype MentionType = Member | Agent | Squad | All | Issue

  datatype Marker = Marker(kind: MentionType, id: string, name: string)

  ghost predicate SpaceFree(s: string) {
    forall i :: 0 <= i < |s| ==> !IsSpace(s[i])
  }

  ghost predicate SentinelFree(s: string) {
    forall i :: 0 <= i < |s| ==> s[i] != SENTINEL
  }

  function TypeName(kind: MentionType): string {
    match kind
    case Member => "member"
    case Agent => "agent"
    case Squad => "squad"
    case All => "all"
    case Issue => "issue"
  }

  /** Issues drop the `@` in the label. */
  function Link(m: Marker): string {
    "[" + (if m.kind.Issue? then m.name else "@" + m.name) + "](mention://" + TypeName(m.kind) + "/" + m.id + ")"
  }

  // ----- the suggestion trigger -----

  datatype Token = Token(start: nat, query: string)

  /** The offset of the last `@` before `end` with no whitespace after it, or None. */
  function LastAt(text: string, end: nat): (at: Option<nat>)
    requires end <= |text|
    ensures at.Some? ==> at.value < end
  {
    if end == 0 || (text[end - 1] != '@' && IsSpace(text[end - 1])) then None
    else if text[end - 1] == '@' then Some(end - 1)
    else LastAt(text, end - 1)
  }

  function TokenStart(text: string, cursor: nat): (start: Option<nat>)
    ensures start.Some? ==> start.value < cursor <= |text|
  {
    if cursor < 1 || cursor > |text| then None
    else
      var at := LastAt(text, cursor);
      if at.Some? && at.value > 0 && !IsSpace(text[at.value - 1]) then None else at
  }

  function TokenAt(text: string, cursor: nat): Option<Token> {
    var start := TokenStart(text, cursor);
    if start.None? then None else Some(Token(start.value, text[start.value + 1..cursor]))
  }

  /** `start` opens the run the cursor is in: an `@` at a word boundary, then no `@` and no whitespace. */
  ghost predicate IsToken(text: string, cursor: nat, start: nat) {
    && start < cursor <= |text|
    && text[start] == '@'
    && (start > 0 ==> IsSpace(text[start - 1]))
    && forall i :: start < i < cursor ==> text[i] != '@' && !IsSpace(text[i])
  }

  method TokenAtCursor(text: string, cursor: nat) returns (token: Option<Token>)
    ensures token == TokenAt(text, cursor)
    ensures token.Some? ==> IsToken(text, cursor, token.value.start)
                            && token.value.query == text[token.value.start + 1..cursor]
    ensures token.None? ==> forall start: nat :: !IsToken(text, cursor, start)
  {
    TokenMeaning(text, cursor);
    if cursor < 1 || cursor > |text| { return None; }
    var i := cursor - 1;
    while i >= 0
      invariant -1 <= i < cursor
      invariant LastAt(text, i + 1) == LastAt(text, cursor)
    {
      if text[i] == '@' { break; }
      if IsSpace(text[i]) { return None; }
      i := i - 1;
    }
    if i < 0 { return None; }
    if i > 0 && text[i - 1] == SENTINEL { return None; }
    if i > 0 {
      if !IsSpace(text[i - 1]) { return None; }
    }
    return Some(Token(i, text[i + 1..cursor]));
  }

  lemma {:induction false} LastAtMeaning(text: string, end: nat)
    requires end <= |text|
    ensures var at := LastAt(text, end);
            if at.Some?
            then at.value < end && text[at.value] == '@'
                 && forall i :: at.value < i < end ==> text[i] != '@' && !IsSpace(text[i])
            else forall start :: 0 <= start < end && text[start] == '@'
                   ==> exists i :: start < i < end && IsSpace(text[i])
  {
    if end > 0 && text[end - 1] != '@' && !IsSpace(text[end - 1]) {
      LastAtMeaning(text, end - 1);
    }
  }

  /** The walk finds the token if there is one, and a cursor is in at most one token. */
  lemma TokenMeaning(text: string, cursor: nat)
    ensures forall start: nat :: IsToken(text, cursor, start) <==> TokenStart(text, cursor) == Some(start)
    ensures TokenStart(text, cursor).Some? ==> IsToken(text, cursor, TokenStart(text, cursor).value)
  {
    if 1 <= cursor <= |text| {
      LastAtMeaning(text, cursor);
    }
  }

  // ----- accepting a suggestion -----

  function Min(a: nat, b: nat): nat {
    if a < b then a else b
  }

  /** The new text and the cursor behind the inserted chip and its trailing space. */
  function InsertMention(text: string, start: nat, queryLength: nat, m: Marker): (string, nat) {
    var before := text[..Min(start, |text|)];
    var after := text[Min(start + 1 + queryLength, |text|)..];
    var insert := [SENTINEL] + "@" + m.name + " ";
    (before + insert + after, |before| + |insert|)
  }

  /** With the cursor anywhere, accepting replaces just the token in front of it: text before and behind stays. */
  lemma AcceptKeepsAround(text: string, cursor: nat, start: nat, m: Marker)
    requires IsToken(text, cursor, start)
    ensures var (after, behind) := InsertMention(text, start, cursor - start - 1, m);
            && start < behind <= |after|
            && after[..start] == text[..start]
            && after[start..behind] == [SENTINEL, '@'] + m.name + [' ']
            && after[behind..] == text[cursor..]
  {
    assert [SENTINEL] + "@" + m.name + " " == [SENTINEL, '@'] + m.name + [' '];
  }

  // ----- scanning -----

  /** Text cut at its sentinels: each is a stray one or opens a `sentinel @ word` run. */
  datatype Pieces =
    | End(text: string)
    | Stray(text: string, rest: Pieces)
    | Run(text: string, word: string, rest: Pieces)

  /** `indexOf` of the sentinel, or the length when there is none. */
  function FirstSentinel(s: string): (k: nat)
    ensures k <= |s|
  {
    if s == "" || s[0] == SENTINEL then 0 else 1 + FirstSentinel(s[1..])
  }

  /** The length of the word a string begins with. */
  function FirstSpace(s: string): (k: nat)
    ensures k <= |s|
  {
    if s == "" || IsSpace(s[0]) then 0 else 1 + FirstSpace(s[1..])
  }

  function Scan(s: string): Pieces
    decreases |s|
  {
    var k := FirstSentinel(s);
    if k == |s| then End(s)
    else if k + 1 < |s| && s[k + 1] == '@' then
      var tail := s[k + 2..];
      var n := FirstSpace(tail);
      Run(s[..k], tail[..n], Scan(tail[n..]))
    else Stray(s[..k], Scan(s[k + 1..]))
  }

  function Words(pieces: Pieces): seq<string> {
    match pieces
    case End(_) => []
    case Stray(_, rest) => Words(rest)
    case Run(_, word, rest) => [word] + Words(rest)
  }

  function Names(markers: seq<Marker>): (names: seq<string>)
    ensures |names| == |markers| && forall i :: 0 <= i < |markers| ==> names[i] == markers[i].name
  {
    seq(|markers|, i requires 0 <= i < |markers| => markers[i].name)
  }

  /** The words of the runs are the names of the markers from `used` on, none missing and none left over. */
  predicate Matches(pieces: Pieces, markers: seq<Marker>, used: nat) {
    match pieces
    case End(_) => used == |markers|
    case Stray(_, rest) => Matches(rest, markers, used)
    case Run(_, word, rest) => used < |markers| && markers[used].name == word && Matches(rest, markers, used + 1)
  }

  lemma {:induction false} MatchesMeaning(pieces: Pieces, markers: seq<Marker>, used: nat)
    requires used <= |markers|
    ensures Matches(pieces, markers, used) <==> Words(pieces) == Names(markers)[used..]
  {
    match pieces {
      case End(_) =>
      case Stray(_, rest) => MatchesMeaning(rest, markers, used);
      case Run(_, word, rest) =>
        if used < |markers| {
          MatchesMeaning(rest, markers, used + 1);
          assert Names(markers)[used..] == [markers[used].name] + Names(markers)[used + 1..];
        }
    }
  }

  /** One piece of the text to send. */
  datatype Chunk = Copy(text: string) | LinkTo(marker: Marker)

  function Join(chunks: seq<Chunk>): string {
    if chunks == [] then ""
    else (match chunks[0] case Copy(t) => t case LinkTo(m) => Link(m)) + Join(chunks[1..])
  }

  function Tail(text: string): seq<Chunk> {
    if text == "" then [] else [Copy(text)]
  }

  /** Every run replaced by the link of its marker, in order, and stray sentinels dropped. */
  function Linked(pieces: Pieces, markers: seq<Marker>, used: nat): seq<Chunk> {
    match pieces
    case End(t) => Tail(t)
    case Stray(t, rest) => [Copy(t)] + Linked(rest, markers, used)
    case Run(t, _, rest) =>
      [Copy(t)] + (if used < |markers| then [LinkTo(markers[used])] else []) + Linked(rest, markers, used + 1)
  }

  function Strip(text: string): string {
    if text == "" then ""
    else if text[0] == SENTINEL then Strip(text[1..])
    else [text[0]] + Strip(text[1..])
  }

  /**
   What is sent: all markers linked in order exactly when the words of the runs are the names of the
   markers, and otherwise the text without its sentinels.
   */
  function Serialized(text: string, markers: seq<Marker>): string {
    if Matches(Scan(text), markers, 0) then Join(Linked(Scan(text), markers, 0)) else Strip(text)
  }

  method SerializeMentions(text: string, markers: seq<Marker>) returns (sent: string)
    ensures sent == Serialized(text, markers)
  {
    if SENTINEL !in text {
      NoSentinels(text, markers);
      return text;
    }
    var out := LinkRuns(text, markers);
    LinkFromMeaning(Scan(text), markers, 0, []);
    if out.None? {
      return Strip(text);
    }
    assert [] + Linked(Scan(text), markers, 0) == Linked(Scan(text), markers, 0);
    return Join(out.value);
  }

  /** The scanning loop; None when a run mismatched or markers were left over. */
  method LinkRuns(text: string, markers: seq<Marker>) returns (linked: Option<seq<Chunk>>)
    ensures linked == LinkFrom(Scan(text), markers, 0, [])
  {
    hide *;
    var out: seq<Chunk> := [];
    var cursor: nat := 0;
    var markerIndex: nat := 0;
    assert text[0..] == text;
    while cursor < |text|
      invariant cursor <= |text| && markerIndex <= |markers|
      invariant LinkFrom(Scan(text), markers, 0, []) == LinkFrom(Scan(text[cursor..]), markers, markerIndex, out)
      decreases |text| - cursor
    {
      var sentinelAt := cursor + FirstSentinel(text[cursor..]);
      LinkStepAt(text, cursor, markers, markerIndex, out);
      if sentinelAt == |text| {
        out := out + [Copy(text[cursor..])];
        return if markerIndex == |markers| then Some(out) else None;
      }
      if !(sentinelAt + 1 < |text| && text[sentinelAt + 1] == '@') {
        out := out + [Copy(text[cursor..sentinelAt])];
        cursor := sentinelAt + 1;
        continue;
      }
      var wordEnd := ReadWord(text, sentinelAt + 2);
      var word := text[sentinelAt + 2..wordEnd];
      if markerIndex == |markers| || markers[markerIndex].name != word {
        return None;
      }
      out := out + [Copy(text[cursor..sentinelAt])];
      out := out + [LinkTo(markers[markerIndex])];
      markerIndex := markerIndex + 1;
      cursor := wordEnd;
    }
    LinkAtEnd(markers, markerIndex, out);
    assert text[cursor..] == "";
    return if markerIndex == |markers| then Some(out) else None;
  }

  lemma Slices(text: string, from: nat, to: nat)
    requires from <= to <= |text|
    ensures text[from..][..to - from] == text[from..to] && text[from..][to - from..] == text[to..]
    ensures to < |text| ==> text[from..][to + 1 - from..] == text[to + 1..]
    ensures to + 1 < |text| ==> text[from..][to + 1 - from] == text[to + 1] && text[from..][to + 2 - from..] == text[to + 2..]
  {
  }

  /** The loop as a function of what is left to scan and what has been put out. */
  ghost function LinkFrom(left: Pieces, markers: seq<Marker>, used: nat, out: seq<Chunk>): Option<seq<Chunk>> {
    match left
    case End(t) => if used == |markers| then Some(out + Tail(t)) else None
    case Stray(t, rest) => LinkFrom(rest, markers, used, out + [Copy(t)])
    case Run(t, word, rest) =>
      if used >= |markers| || markers[used].name != word then None
      else LinkFrom(rest, markers, used + 1, out + [Copy(t)] + [LinkTo(markers[used])])
  }

  lemma LinkStep(s: string, markers: seq<Marker>, used: nat, out: seq<Chunk>)
    requires s != "" && used <= |markers|
    ensures var k := FirstSentinel(s);
            LinkFrom(Scan(s), markers, used, out)
            == if k == |s| then (if used == |markers| then Some(out + [Copy(s)]) else None)
               else if !(k + 1 < |s| && s[k + 1] == '@')
               then LinkFrom(Scan(s[k + 1..]), markers, used, out + [Copy(s[..k])])
               else
                 var tail := s[k + 2..];
                 var n := FirstSpace(tail);
                 if used == |markers| || markers[used].name != tail[..n] then None
                 else LinkFrom(Scan(tail[n..]), markers, used + 1, out + [Copy(s[..k])] + [LinkTo(markers[used])])
  {
  }

  lemma LinkStepAt(text: string, cursor: nat, markers: seq<Marker>, used: nat, out: seq<Chunk>)
    requires cursor < |text| && used <= |markers|
    ensures var k := cursor + FirstSentinel(text[cursor..]);
            LinkFrom(Scan(text[cursor..]), markers, used, out)
            == if k == |text| then (if used == |markers| then Some(out + [Copy(text[cursor..])]) else None)
               else if !(k + 1 < |text| && text[k + 1] == '@')
               then LinkFrom(Scan(text[k + 1..]), markers, used, out + [Copy(text[cursor..k])])
               else
                 var w := k + 2 + FirstSpace(text[k + 2..]);
                 if used == |markers| || markers[used].name != text[k + 2..w] then None
                 else LinkFrom(Scan(text[w..]), markers, used + 1, out + [Copy(text[cursor..k])] + [LinkTo(markers[used])])
  {
    hide *;
    LinkStep(text[cursor..], markers, used, out);
    var k := cursor + FirstSentinel(text[cursor..]);
    Slices(text, cursor, k);
    if k + 2 <= |text| { Slices(text, k + 2, k + 2 + FirstSpace(text[k + 2..])); }
  }

  lemma LinkAtEnd(markers: seq<Marker>, used: nat, out: seq<Chunk>)
    requires used <= |markers|
    ensures LinkFrom(Scan(""), markers, used, out) == if used == |markers| then Some(out) else None
  {
    assert out + [] == out;
  }

  lemma {:induction false} LinkFromMeaning(left: Pieces, markers: seq<Marker>, used: nat, out: seq<Chunk>)
    ensures LinkFrom(left, markers, used, out)
            == if Matches(left, markers, used) then Some(out + Linked(left, markers, used)) else None
    decreases left
  {
    match left {
      case End(_) =>
      case Stray(t, rest) =>
        LinkFromMeaning(rest, markers, used, out + [Copy(t)]);
        Reassociate(out, [Copy(t)], Linked(rest, markers, used));
      case Run(t, word, rest) =>
        if used < |markers| && markers[used].name == word {
          var link := [LinkTo(markers[used])];
          LinkFromMeaning(rest, markers, used + 1, out + [Copy(t)] + link);
          Reassociate(out, [Copy(t)], link);
          Reassociate(out, [Copy(t)] + link, Linked(rest, markers, used + 1));
        }
    }
  }

  // ----- what linking keeps of any text -----

  /** The text a reader sees: each link put back as the mention it stands for. */
  function Plain(chunks: seq<Chunk>): string {
    if chunks == [] then ""
    else (match chunks[0] case Copy(t) => t case LinkTo(m) => "@" + m.name) + Plain(chunks[1..])
  }

  function Mentioned(chunks: seq<Chunk>): seq<Marker> {
    if chunks == [] then []
    else (match chunks[0] case Copy(_) => [] case LinkTo(m) => [m]) + Mentioned(chunks[1..])
  }

  lemma {:induction false} StripConcat(a: string, b: string)
    ensures Strip(a + b) == Strip(a) + Strip(b)
  {
    if a == "" {
      assert a + b == b;
    } else {
      assert (a + b)[1..] == a[1..] + b;
      StripConcat(a[1..], b);
    }
  }

  lemma {:induction false} FirstSentinelSplits(s: string)
    ensures var k := FirstSentinel(s); SENTINEL !in s[..k] && (k < |s| ==> s[k] == SENTINEL)
  {
    if s != "" && s[0] != SENTINEL {
      FirstSentinelSplits(s[1..]);
      assert s[..FirstSentinel(s)] == [s[0]] + s[1..][..FirstSentinel(s[1..])];
    }
  }

  lemma CopyFirst(t: string, chunks: seq<Chunk>)
    ensures Plain([Copy(t)] + chunks) == t + Plain(chunks) && Mentioned([Copy(t)] + chunks) == Mentioned(chunks)
  {
    assert ([Copy(t)] + chunks)[1..] == chunks;
  }

  lemma LinkFirst(m: Marker, chunks: seq<Chunk>)
    ensures Plain([LinkTo(m)] + chunks) == "@" + m.name + Plain(chunks)
    ensures Mentioned([LinkTo(m)] + chunks) == [m] + Mentioned(chunks)
  {
    assert ([LinkTo(m)] + chunks)[1..] == chunks;
  }

  /** Stripping loses the one sentinel at a cut. */
  lemma StripAtCut(s: string, k: nat)
    requires k < |s| && s[k] == SENTINEL
    ensures Strip(s) == Strip(s[..k]) + Strip(s[k + 1..])
  {
    assert s == s[..k] + ([SENTINEL] + s[k + 1..]);
    StripConcat(s[..k], [SENTINEL] + s[k + 1..]);
  }

  lemma RunKeepsText(before: string, word: string, m: Marker, after: string, chunks: seq<Chunk>, s: string)
    requires m.name == word && s == before + ([SENTINEL, '@'] + (word + after))
    requires Strip(Plain(chunks)) == Strip(after)
    ensures Strip(Plain([Copy(before)] + ([LinkTo(m)] + chunks))) == Strip(s)
  {
    hide *;
    CopyFirst(before, [LinkTo(m)] + chunks);
    LinkFirst(m, chunks);
    StripConcat(before, "@" + word + Plain(chunks));
    StripConcat("@" + word, Plain(chunks));
    AfterCut(before, word, after, s);
    StripAtCut(s, |before|);
    StripConcat("@" + word, after);
  }

  lemma AfterCut(before: string, word: string, after: string, s: string)
    requires s == before + ([SENTINEL, '@'] + (word + after))
    ensures |before| < |s| && s[|before|] == SENTINEL && s[..|before|] == before && s[|before| + 1..] == "@" + word + after
  {
  }

  /** One step of the scan: a run, or a sentinel that begins none. */
  lemma ScanRun(s: string, markers: seq<Marker>, used: nat, k: nat)
    requires Matches(Scan(s), markers, used) && k == FirstSentinel(s) && k + 1 < |s| && s[k + 1] == '@'
    ensures var tail := s[k + 2..];
            var n := FirstSpace(tail);
            && used < |markers| && markers[used].name == tail[..n] && Matches(Scan(tail[n..]), markers, used + 1)
            && Linked(Scan(s), markers, used)
               == [Copy(s[..k])] + ([LinkTo(markers[used])] + Linked(Scan(tail[n..]), markers, used + 1))
  {
    hide FirstSentinel, FirstSpace;
    var tail := s[k + 2..];
    var n := FirstSpace(tail);
    assert Scan(s) == Run(s[..k], tail[..n], Scan(tail[n..]));
    hide Scan;
  }

  lemma ScanStray(s: string, markers: seq<Marker>, used: nat, k: nat)
    requires Matches(Scan(s), markers, used) && k == FirstSentinel(s) && k < |s| && !(k + 1 < |s| && s[k + 1] == '@')
    ensures Matches(Scan(s[k + 1..]), markers, used)
    ensures Linked(Scan(s), markers, used) == [Copy(s[..k])] + Linked(Scan(s[k + 1..]), markers, used)
  {
    hide FirstSentinel, FirstSpace;
    assert Scan(s) == Stray(s[..k], Scan(s[k + 1..]));
    hide Scan;
  }

  lemma LastPiece(s: string, markers: seq<Marker>, used: nat)
    requires Matches(Scan(s), markers, used) && FirstSentinel(s) == |s|
    ensures used == |markers| && Linked(Scan(s), markers, used) == Tail(s)
    ensures Plain(Tail(s)) == s && Mentioned(Tail(s)) == []
  {
    if s != "" { CopyFirst(s, []); assert [Copy(s)] + [] == [Copy(s)] && s + "" == s; }
  }

  lemma RunSplits(s: string, k: nat)
    requires k + 1 < |s| && s[k] == SENTINEL && s[k + 1] == '@'
    ensures var tail := s[k + 2..];
            var n := FirstSpace(tail);
            s == s[..k] + ([SENTINEL, '@'] + (tail[..n] + tail[n..]))
  {
  }

  /** For any text whatsoever: the links are the markers in order, and read as mentions they give the text back. */
  lemma {:induction false} LinkingKeepsText(s: string, markers: seq<Marker>, used: nat)
    requires Matches(Scan(s), markers, used) && used <= |markers|
    ensures Strip(Plain(Linked(Scan(s), markers, used))) == Strip(s)
    ensures Mentioned(Linked(Scan(s), markers, used)) == markers[used..]
    decreases |s|
  {
    hide *;
    var k := FirstSentinel(s);
    FirstSentinelSplits(s);
    if k == |s| {
      LastPiece(s, markers, used);
    } else if k + 1 < |s| && s[k + 1] == '@' {
      ScanRun(s, markers, used, k);
      var tail := s[k + 2..];
      var after, m := tail[FirstSpace(tail)..], markers[used];
      LinkingKeepsText(after, markers, used + 1);
      var chunks := Linked(Scan(after), markers, used + 1);
      RunSplits(s, k);
      RunKeepsText(s[..k], tail[..FirstSpace(tail)], m, after, chunks, s);
      CopyFirst(s[..k], [LinkTo(m)] + chunks);
      LinkFirst(m, chunks);
    } else {
      ScanStray(s, markers, used, k);
      var chunks := Linked(Scan(s[k + 1..]), markers, used);
      LinkingKeepsText(s[k + 1..], markers, used);
      CopyFirst(s[..k], chunks);
      StripConcat(s[..k], Plain(chunks));
      StripAtCut(s, k);
    }
  }

  /** What is sent is the text without sentinels, or reads as that text and links every marker once, in order. */
  lemma NothingIsLost(text: string, markers: seq<Marker>)
    ensures Serialized(text, markers) == Strip(text)
            || exists chunks :: && Serialized(text, markers) == Join(chunks)
                                && Strip(Plain(chunks)) == Strip(text)
                                && Mentioned(chunks) == markers
  {
    if Matches(Scan(text), markers, 0) {
      LinkingKeepsText(text, markers, 0);
      assert markers[0..] == markers;
      var chunks := Linked(Scan(text), markers, 0);
      assert Serialized(text, markers) == Join(chunks) && Strip(Plain(chunks)) == Strip(text) && Mentioned(chunks) == markers;
    }
  }

  method ReadWord(text: string, from: nat) returns (wordEnd: nat)
    requires from <= |text|
    ensures wordEnd == from + FirstSpace(text[from..])
  {
    wordEnd := from;
    while wordEnd < |text| && !IsSpace(text[wordEnd])
      invariant from <= wordEnd <= |text|
      invariant wordEnd + FirstSpace(text[wordEnd..]) == from + FirstSpace(text[from..])
    {
      assert text[wordEnd..][1..] == text[wordEnd + 1..];
      wordEnd := wordEnd + 1;
    }
  }

  lemma NoSentinels(text: string, markers: seq<Marker>)
    requires SENTINEL !in text
    ensures Serialized(text, markers) == text
  {
    FirstSentinelIs(text, "");
    assert text + "" == text;
    StripNothing(text);
    if text != "" { JoinOne(text); }
  }

  lemma {:induction false} FirstSentinelIs(t: string, rest: string)
    requires SentinelFree(t) && (rest != "" ==> rest[0] == SENTINEL)
    ensures FirstSentinel(t + rest) == |t|
  {
    if t == "" {
      assert t + rest == rest;
    } else {
      assert (t + rest)[1..] == t[1..] + rest;
      FirstSentinelIs(t[1..], rest);
    }
  }

  lemma {:induction false} FirstSpaceIs(word: string, rest: string)
    requires SpaceFree(word) && (rest != "" ==> IsSpace(rest[0]))
    ensures FirstSpace(word + rest) == |word|
  {
    if word == "" {
      assert word + rest == rest;
    } else {
      assert (word + rest)[1..] == word[1..] + rest;
      FirstSpaceIs(word[1..], rest);
    }
  }

  lemma {:induction false} WordIsSpaceFree(s: string)
    ensures SpaceFree(s[..FirstSpace(s)])
  {
    if s != "" && !IsSpace(s[0]) {
      WordIsSpaceFree(s[1..]);
      var n := FirstSpace(s[1..]);
      assert s[..n + 1] == [s[0]] + s[1..][..n];
    }
  }

  lemma JoinOne(text: string)
    ensures Join([Copy(text)]) == text
  {
    assert [Copy(text)][1..] == [] && text + "" == text;
  }

  lemma {:induction false} StripNothing(text: string)
    requires SENTINEL !in text
    ensures Strip(text) == text
  {
    if text != "" { StripNothing(text[1..]); }
  }

  lemma Reassociate(a: seq<Chunk>, b: seq<Chunk>, c: seq<Chunk>)
    ensures a + (b + c) == a + b + c
  {
  }

  // ----- documents -----

  /** What the user sees: stretches of text with chips between them. */
  datatype Doc = Ends(text: string) | Chip(text: string, marker: Marker, rest: Doc)

  function Render(doc: Doc): string {
    match doc
    case Ends(t) => t
    case Chip(t, m, rest) => t + ([SENTINEL, '@'] + (m.name + Render(rest)))
  }

  function Markers(doc: Doc): seq<Marker> {
    match doc
    case Ends(_) => []
    case Chip(_, m, rest) => [m] + Markers(rest)
  }

  /** Every chip as its link, all other text unchanged. */
  function LinkForm(doc: Doc): string {
    match doc
    case Ends(t) => t
    case Chip(t, m, rest) => t + (Link(m) + LinkForm(rest))
  }

  /** Text without sentinels, and after each chip either whitespace or the end. */
  ghost predicate Shaped(doc: Doc) {
    match doc
    case Ends(t) => SentinelFree(t)
    case Chip(t, _, rest) => SentinelFree(t) && Shaped(rest) && (Render(rest) != "" ==> IsSpace(Render(rest)[0]))
  }

  ghost predicate NamesSpaceFree(doc: Doc) {
    match doc
    case Ends(_) => true
    case Chip(_, m, rest) => SpaceFree(m.name) && NamesSpaceFree(rest)
  }

  function PiecesOf(doc: Doc): Pieces {
    match doc
    case Ends(t) => End(t)
    case Chip(t, m, rest) => Run(t, m.name, PiecesOf(rest))
  }

  /** Taking a string apart at a chip. */
  lemma ChipParts(t: string, name: string, r: string)
    ensures var s := t + ([SENTINEL, '@'] + (name + r));
            |s| == |t| + 2 + |name| + |r| && s[..|t|] == t && s[|t|] == SENTINEL && s[|t| + 1] == '@' && s[|t| + 2..] == name + r
    ensures (name + r)[..|name|] == name && (name + r)[|name|..] == r
  {
  }

  lemma ScanChip(t: string, name: string, r: string)
    requires SentinelFree(t)
    ensures var tail := name + r;
            var n := FirstSpace(tail);
            Scan(t + ([SENTINEL, '@'] + tail)) == Run(t, tail[..n], Scan(tail[n..]))
  {
    FirstSentinelIs(t, [SENTINEL, '@'] + (name + r));
    ChipParts(t, name, r);
  }

  lemma {:induction false} ScanDoc(doc: Doc)
    requires Shaped(doc) && NamesSpaceFree(doc)
    ensures Scan(Render(doc)) == PiecesOf(doc)
  {
    match doc {
      case Ends(t) =>
        FirstSentinelIs(t, "");
        assert t + "" == t;
      case Chip(t, m, rest) =>
        var r := Render(rest);
        ScanChip(t, m.name, r);
        FirstSpaceIs(m.name, r);
        ChipParts(t, m.name, r);
        ScanDoc(rest);
    }
  }

  /** One name with whitespace is enough: its run is cut short and matches no marker. */
  lemma {:induction false} SpacedNameMismatches(doc: Doc, markers: seq<Marker>, used: nat)
    requires Shaped(doc) && !NamesSpaceFree(doc)
    requires used <= |markers| && markers[used..] == Markers(doc)
    ensures !Matches(Scan(Render(doc)), markers, used)
    decreases doc
  {
    MarkersFrom(doc, markers, used);
    var name, r := doc.marker.name, Render(doc.rest);
    ScanChip(doc.text, name, r);
    if SpaceFree(name) {
      FirstSpaceIs(name, r);
      ChipParts(doc.text, name, r);
      SpacedNameMismatches(doc.rest, markers, used + 1);
    } else {
      WordIsSpaceFree(name + r);
    }
  }

  lemma MarkersFrom(doc: Doc, markers: seq<Marker>, used: nat)
    requires doc.Chip? && used <= |markers| && markers[used..] == Markers(doc)
    ensures used < |markers| && markers[used] == doc.marker && markers[used + 1..] == Markers(doc.rest)
  {
    assert markers[used] == markers[used..][0];
    assert markers[used + 1..] == markers[used..][1..];
  }

  lemma {:induction false} DocMatches(doc: Doc, markers: seq<Marker>, used: nat)
    requires used <= |markers| && markers[used..] == Markers(doc)
    ensures Matches(PiecesOf(doc), markers, used)
    ensures Join(Linked(PiecesOf(doc), markers, used)) == LinkForm(doc)
    decreases doc
  {
    match doc {
      case Ends(t) => if t != "" { JoinOne(t); }
      case Chip(t, m, rest) =>
        MarkersFrom(doc, markers, used);
        DocMatches(rest, markers, used + 1);
        var left := Linked(PiecesOf(rest), markers, used + 1);
        JoinTwo(Copy(t), LinkTo(m), left);
    }
  }

  lemma JoinTwo(a: Chunk, b: Chunk, rest: seq<Chunk>)
    ensures Join([a] + [b] + rest)
            == (if a.Copy? then a.text else Link(a.marker)) + ((if b.Copy? then b.text else Link(b.marker)) + Join(rest))
  {
    var all := [a] + [b] + rest;
    assert all[1..] == [b] + rest && all[1..][1..] == rest;
  }

  lemma {:induction false} StripShrinks(text: string)
    ensures |Strip(text)| <= |text|
  {
    if text != "" { StripShrinks(text[1..]); }
  }

  lemma {:induction false} LinksLengthen(doc: Doc)
    ensures |LinkForm(doc)| >= |Render(doc)|
    ensures doc.Chip? ==> |LinkForm(doc)| > |Render(doc)|
  {
    if doc.Chip? { LinksLengthen(doc.rest); }
  }

  /**
   Serializing the rendering of a document with its markers in order gives the link form exactly when no
   chip's name contains whitespace; otherwise it gives the plain text without sentinels.
   */
  lemma SerializeDocument(doc: Doc)
    requires Shaped(doc)
    ensures Serialized(Render(doc), Markers(doc)) == if NamesSpaceFree(doc) then LinkForm(doc) else Strip(Render(doc))
    ensures Serialized(Render(doc), Markers(doc)) == LinkForm(doc) <==> NamesSpaceFree(doc)
  {
    var text, markers := Render(doc), Markers(doc);
    assert markers[0..] == markers;
    if NamesSpaceFree(doc) {
      ScanDoc(doc);
      DocMatches(doc, markers, 0);
    } else {
      SpacedNameMismatches(doc, markers, 0);
      StripShrinks(text);
      LinksLengthen(doc);
    }
  }

  // ----- composing -----

  datatype Composer = Composer(text: string, markers: seq<Marker>)

  /** Typing at the end, or tapping a suggestion while the cursor stands at the end. */
  datatype Edit = Type(text: string) | Accept(marker: Marker)

  function Apply(c: Composer, e: Edit): Composer {
    match e
    case Type(t) => Composer(c.text + t, c.markers)
    case Accept(m) =>
      var start := TokenStart(c.text, |c.text|);
      if start.None? then c
      else Composer(InsertMention(c.text, start.value, |c.text| - (start.value + 1), m).0, c.markers + [m])
  }

  function Compose(edits: seq<Edit>): Composer {
    if edits == [] then Composer("", []) else Apply(Compose(edits[..|edits| - 1]), edits[|edits| - 1])
  }

  function LastText(doc: Doc): string {
    if doc.Ends? then doc.text else LastText(doc.rest)
  }

  function AppendText(doc: Doc, t: string): Doc {
    match doc
    case Ends(s) => Ends(s + t)
    case Chip(s, m, rest) => Chip(s, m, AppendText(rest, t))
  }

  /** The last text cut at `k`, then the chip and one space. */
  function AppendChip(doc: Doc, k: nat, m: Marker): Doc
    requires k <= |LastText(doc)|
  {
    match doc
    case Ends(s) => Chip(s[..k], m, Ends(" "))
    case Chip(s, m', rest) => Chip(s, m', AppendChip(rest, k, m))
  }

  /** The document the edits describe: text is kept, each accepted mention replaces the `@query` being typed. */
  ghost function DocOf(edits: seq<Edit>): Doc {
    if edits == [] then Ends("")
    else
      var before := DocOf(edits[..|edits| - 1]);
      match edits[|edits| - 1]
      case Type(t) => AppendText(before, t)
      case Accept(m) =>
        var start := TokenStart(LastText(before), |LastText(before)|);
        if start.None? then before else AppendChip(before, start.value, m)
  }

  ghost predicate TypedSentinelFree(edits: seq<Edit>) {
    forall t :: Type(t) in edits ==> SentinelFree(t)
  }

  /** The text ends with the last stretch, which after a chip begins with the chip's space. */
  ghost predicate Open(doc: Doc) {
    doc.Chip? ==> LastText(doc) != "" && IsSpace(LastText(doc)[0]) && Open(doc.rest)
  }

  /** Everything up to and including the last chip. */
  ghost function Prefix(doc: Doc): string {
    match doc
    case Ends(_) => ""
    case Chip(t, m, rest) => t + ([SENTINEL, '@'] + (m.name + Prefix(rest)))
  }

  lemma ChipAppend(t: string, name: string, a: string, b: string)
    ensures t + ([SENTINEL, '@'] + (name + (a + b))) == t + ([SENTINEL, '@'] + (name + a)) + b
  {
  }

  lemma {:induction false} RenderSplits(doc: Doc)
    ensures Render(doc) == Prefix(doc) + LastText(doc)
  {
    if doc.Chip? {
      RenderSplits(doc.rest);
      ChipAppend(doc.text, doc.marker.name, Prefix(doc.rest), LastText(doc.rest));
    }
  }

  lemma {:induction false} AppendTextFacts(doc: Doc, t: string)
    requires Shaped(doc) && Open(doc) && SentinelFree(t)
    ensures Render(AppendText(doc, t)) == Render(doc) + t && Markers(AppendText(doc, t)) == Markers(doc)
    ensures Shaped(AppendText(doc, t)) && Open(AppendText(doc, t))
    ensures LastText(AppendText(doc, t)) == LastText(doc) + t
  {
    if doc.Chip? {
      AppendTextFacts(doc.rest, t);
      RenderSplits(doc.rest);
      ChipAppend(doc.text, doc.marker.name, Render(doc.rest), t);
    }
  }

  function Inserted(m: Marker): string {
    [SENTINEL, '@'] + (m.name + " ")
  }

  lemma {:induction false} AppendChipRenders(doc: Doc, k: nat, m: Marker)
    requires k <= |LastText(doc)|
    ensures Render(AppendChip(doc, k, m)) == Prefix(doc) + LastText(doc)[..k] + Inserted(m)
  {
    match doc {
      case Ends(s) =>
        assert "" + s[..k] == s[..k];
      case Chip(s, m', rest) =>
        AppendChipRenders(rest, k, m);
        ChipAppend(s, m'.name, Prefix(rest) + LastText(rest)[..k], Inserted(m));
        ChipAppend(s, m'.name, Prefix(rest), LastText(rest)[..k]);
    }
  }

  lemma {:induction false} AppendChipKeeps(doc: Doc, k: nat, m: Marker)
    requires Shaped(doc) && Open(doc) && k <= |LastText(doc)| && (doc.Chip? ==> k > 0)
    ensures Markers(AppendChip(doc, k, m)) == Markers(doc) + [m]
    ensures Shaped(AppendChip(doc, k, m)) && Open(AppendChip(doc, k, m))
    ensures LastText(AppendChip(doc, k, m)) == " "
  {
    if doc.Chip? {
      AppendChipKeeps(doc.rest, k, m);
      RenderSplits(doc.rest);
      AppendChipStarts(doc.rest, k, m);
    }
  }

  /** A chip is inserted after the first character of what follows an earlier chip. */
  lemma AppendChipStarts(rest: Doc, k: nat, m: Marker)
    requires 0 < k <= |LastText(rest)|
    ensures Render(AppendChip(rest, k, m)) != "" && Render(rest) != ""
    ensures Render(AppendChip(rest, k, m))[0] == Render(rest)[0]
  {
    if rest.Ends? {
      assert Render(AppendChip(rest, k, m))[0] == rest.text[..k][0];
    } else if rest.text != "" {
      assert Render(rest)[0] == rest.text[0];
    }
  }

  lemma {:induction false} LastAtShift(prefix: string, last: string, e: nat)
    requires e <= |last| && (prefix != "" ==> 0 < e && IsSpace(last[0]))
    ensures LastAt(prefix + last, |prefix| + e)
            == if LastAt(last, e).None? then None else Some(|prefix| + LastAt(last, e).value)
    decreases e
  {
    if e > 0 {
      assert (prefix + last)[|prefix| + e - 1] == last[e - 1];
      if last[e - 1] != '@' && !IsSpace(last[e - 1]) { LastAtShift(prefix, last, e - 1); }
    } else {
      assert prefix + last == last;
    }
  }

  ghost predicate Behind(prefix: string, last: string) {
    prefix != "" ==> last != "" && IsSpace(last[0])
  }

  lemma TokenShift(prefix: string, last: string)
    requires Behind(prefix, last)
    ensures var start := TokenStart(last, |last|);
            && TokenStart(prefix + last, |prefix| + |last|)
               == (if start.None? then None else Some(|prefix| + start.value))
            && (start.Some? && prefix != "" ==> start.value > 0)
  {
    LastAtMeaning(last, |last|);
    if last != "" {
      LastAtShift(prefix, last, |last|);
      var at := LastAt(last, |last|);
      if at.Some? && at.value > 0 { assert (prefix + last)[|prefix| + at.value - 1] == last[at.value - 1]; }
    }
  }

  /** A token at the end of the text lies in the last stretch, behind every chip. */
  lemma TokenInLastText(doc: Doc)
    requires Open(doc)
    ensures var start := TokenStart(LastText(doc), |LastText(doc)|);
            && TokenStart(Render(doc), |Render(doc)|)
               == (if start.None? then None else Some(|Prefix(doc)| + start.value))
            && (start.Some? && doc.Chip? ==> start.value > 0)
  {
    RenderSplits(doc);
    TokenShift(Prefix(doc), LastText(doc));
  }

  lemma AcceptInserts(prefix: string, last: string, k: nat, m: Marker)
    requires k < |last|
    ensures InsertMention(prefix + last, |prefix| + k, |prefix + last| - (|prefix| + k + 1), m).0
            == prefix + last[..k] + Inserted(m)
    ensures InsertMention(prefix + last, |prefix| + k, |prefix + last| - (|prefix| + k + 1), m).1
            == |prefix + last[..k] + Inserted(m)|
  {
    var text := prefix + last;
    assert text[..|prefix| + k] == prefix + last[..k];
    assert text[|text|..] == "";
    assert [SENTINEL] + "@" + m.name + " " == Inserted(m);
  }

  lemma AcceptApplies(c: Composer, m: Marker)
    ensures var start := TokenStart(c.text, |c.text|);
            Apply(c, Accept(m))
            == if start.None? then c
               else Composer(InsertMention(c.text, start.value, |c.text| - (start.value + 1), m).0, c.markers + [m])
  {
  }

  /** Accepting rewrites the text exactly as appending a chip rewrites the document. */
  lemma AcceptRenders(doc: Doc, k: nat, m: Marker)
    requires Shaped(doc) && Open(doc) && TokenStart(LastText(doc), |LastText(doc)|) == Some(k)
    ensures |Prefix(doc)| + k < |Render(doc)| && (doc.Chip? ==> k > 0)
    ensures InsertMention(Render(doc), |Prefix(doc)| + k, |Render(doc)| - (|Prefix(doc)| + k + 1), m).0
            == Render(AppendChip(doc, k, m))
  {
    hide Shaped, Open, Render, AppendChip, InsertMention, TokenStart, Prefix, LastText, Inserted;
    RenderSplits(doc);
    TokenInLastText(doc);
    AcceptInserts(Prefix(doc), LastText(doc), k, m);
    AppendChipRenders(doc, k, m);
  }

  /** Whatever is typed and accepted at the end, the text is the document's and the markers are in text order. */
  lemma {:induction false} ComposeIsDocument(edits: seq<Edit>)
    requires TypedSentinelFree(edits)
    ensures Shaped(DocOf(edits)) && Open(DocOf(edits))
    ensures Compose(edits) == Composer(Render(DocOf(edits)), Markers(DocOf(edits)))
  {
    if edits != [] {
      var front, last := edits[..|edits| - 1], edits[|edits| - 1];
      assert forall e :: e in front ==> e in edits;
      assert last in edits;
      ComposeIsDocument(front);
      match last {
        case Type(t) => AppendTextFacts(DocOf(front), t);
        case Accept(m) => AcceptStep(DocOf(front), Compose(front), m);
      }
    }
  }

  /** Accepting at the end rewrites the text as it rewrites the document, or does neither when no token is open. */
  lemma AcceptStep(doc: Doc, c: Composer, m: Marker)
    requires Shaped(doc) && Open(doc) && c == Composer(Render(doc), Markers(doc))
    ensures var start := TokenStart(LastText(doc), |LastText(doc)|);
            var doc' := if start.None? then doc else AppendChip(doc, start.value, m);
            Shaped(doc') && Open(doc') && Apply(c, Accept(m)) == Composer(Render(doc'), Markers(doc'))
  {
    hide *;
    TokenInLastText(doc);
    var start := TokenStart(LastText(doc), |LastText(doc)|);
    AcceptApplies(c, m);
    if start.Some? {
      AcceptRenders(doc, start.value, m);
      AppendChipKeeps(doc, start.value, m);
    }
  }

  /** Sending links every accepted mention and leaves all other text as typed, exactly when no name contains whitespace. */
  lemma ComposedTextSerializes(edits: seq<Edit>)
    requires TypedSentinelFree(edits)
    ensures var c := Compose(edits);
            && (Serialized(c.text, c.markers) == LinkForm(DocOf(edits))
                <==> forall m :: m in c.markers ==> SpaceFree(m.name))
            && (Serialized(c.text, c.markers) == LinkForm(DocOf(edits)) || Serialized(c.text, c.markers) == Strip(c.text))
  {
    ComposeIsDocument(edits);
    SerializeDocument(DocOf(edits));
    NamesAreMarkers(DocOf(edits));
  }

  lemma {:induction false} NamesAreMarkers(doc: Doc)
    ensures NamesSpaceFree(doc) <==> forall m :: m in Markers(doc) ==> SpaceFree(m.name)
  {
    if doc.Chip? {
      NamesAreMarkers(doc.rest);
      assert forall m :: m in Markers(doc) <==> m == doc.marker || m in Markers(doc.rest);
    }
  }

  // ----- chips are not queries -----

  /** The text before and after the i-th chip. */
  ghost function Before(doc: Doc, i: nat): string
    requires i < |Markers(doc)|
  {
    if i == 0 then doc.text
    else doc.text + ([SENTINEL, '@'] + (doc.marker.name + Before(doc.rest, i - 1)))
  }

  ghost function After(doc: Doc, i: nat): string
    requires i < |Markers(doc)|
  {
    if i == 0 then Render(doc.rest) else After(doc.rest, i - 1)
  }

  lemma {:induction false} ChipStands(doc: Doc, i: nat)
    requires i < |Markers(doc)|
    ensures Render(doc) == Before(doc, i) + ([SENTINEL, '@'] + (Markers(doc)[i].name + After(doc, i)))
  {
    if i > 0 {
      ChipStands(doc.rest, i - 1);
      ChipAppend(doc.text, doc.marker.name, Before(doc.rest, i - 1),
                 [SENTINEL, '@'] + (Markers(doc)[i].name + After(doc, i)));
    }
  }

  lemma ChipCharacters(a: string, name: string, b: string, k: nat)
    requires k < |name|
    ensures var text := a + ([SENTINEL, '@'] + (name + b));
            |a| + 2 + |name| <= |text| && text[|a| + 2 + k] == name[k]
  {
    ChipParts(a, name, b);
    var text := a + ([SENTINEL, '@'] + (name + b));
    assert text[|a| + 2..][k] == (name + b)[k];
  }

  /** A token that ends inside a chip starts at an `@` of its name behind whitespace of its name. */
  lemma TokenInChip(a: string, name: string, b: string, n: nat, start: nat)
    requires n <= |name|
    ensures IsToken(a + ([SENTINEL, '@'] + (name + b)), |a| + 2 + n, start)
            <==> start > |a| + 2 && IsToken(name, n, start - |a| - 2)
  {
    var text := a + ([SENTINEL, '@'] + (name + b));
    ChipParts(a, name, b);
    assert text[|a|] == SENTINEL && text[|a| + 1] == '@' && !IsSpace(SENTINEL) && !IsSpace('@');
    forall k | 0 <= k < |name| ensures text[|a| + 2 + k] == name[k] { ChipCharacters(a, name, b, k); }
    if start > |a| + 2 && IsToken(name, n, start - |a| - 2) {
      forall i | start < i < |a| + 2 + n ensures text[i] != '@' && !IsSpace(text[i]) { assert text[i] == name[i - |a| - 2]; }
    }
    if start > |a| + 2 && IsToken(text, |a| + 2 + n, start) {
      forall i | start - |a| - 2 < i < n ensures name[i] != '@' && !IsSpace(name[i]) { assert text[|a| + 2 + i] == name[i]; }
    }
  }

  /** The cursor is in a word of the name that begins with `@` behind whitespace of the name. */
  ghost predicate InnerToken(name: string, n: nat) {
    exists start: nat :: start > 0 && IsToken(name, n, start)
  }

  lemma TokenInChipIff(a: string, name: string, b: string, n: nat)
    requires n <= |name|
    ensures TokenAt(a + ([SENTINEL, '@'] + (name + b)), |a| + 2 + n).Some?
            <==> InnerToken(name, n)
  {
    var text := a + ([SENTINEL, '@'] + (name + b));
    var cursor := |a| + 2 + n;
    TokenMeaning(text, cursor);
    hide IsToken, TokenStart;
    forall start: nat ensures IsToken(text, cursor, start) <==> start > |a| + 2 && IsToken(name, n, start - |a| - 2) {
      TokenInChip(a, name, b, n, start);
    }
    if InnerToken(name, n) {
      var start: nat :| start > 0 && IsToken(name, n, start);
      assert IsToken(text, cursor, start + |a| + 2);
    }
  }

  /**
   With the cursor in a chip behind its `@`, the suggestion bar opens exactly when the name itself has an `@` behind
   whitespace and the cursor is in that word of the name. A name without whitespace never opens it.
   */
  lemma ChipRetriggersIff(edits: seq<Edit>, i: nat, n: nat)
    requires TypedSentinelFree(edits) && i < |Markers(DocOf(edits))| && n <= |Markers(DocOf(edits))[i].name|
    ensures var name := Markers(DocOf(edits))[i].name;
            && (TokenAt(Compose(edits).text, |Before(DocOf(edits), i)| + 2 + n).Some?
                <==> InnerToken(name, n))
            && (SpaceFree(name) ==> TokenAt(Compose(edits).text, |Before(DocOf(edits), i)| + 2 + n).None?)
  {
    hide *;
    ComposeIsDocument(edits);
    ChipStands(DocOf(edits), i);
    SpaceFreeHasNoInnerToken(Markers(DocOf(edits))[i].name, n);
    TokenInChipIff(Before(DocOf(edits), i), Markers(DocOf(edits))[i].name, After(DocOf(edits), i), n);
  }

  lemma SpaceFreeHasNoInnerToken(name: string, n: nat)
    ensures SpaceFree(name) ==> !InnerToken(name, n)
  {
  }

  /** A display name with an `@` behind a space, and the cursor six characters into it. */
  lemma SpacedNameRetriggers(id: string)
    ensures var edits := [Type("@"), Accept(Marker(Member, id, "Bob @home"))];
            && |Markers(DocOf(edits))| == 1
            && TokenAt(Compose(edits).text, |Before(DocOf(edits), 0)| + 2 + 6).Some?
  {
    hide *;
    AcceptedAtOnce(Marker(Member, id, "Bob @home"));
    SpacedName();
    InnerTokenAt("Bob @home", 6, 4);
    ChipRetriggersIff([Type("@"), Accept(Marker(Member, id, "Bob @home"))], 0, 6);
  }

  lemma SpacedName()
    ensures IsToken("Bob @home", 6, 4)
  {
    var name := "Bob @home";
    assert name[3] == ' ' && name[4] == '@' && name[5] == 'h';
  }

  lemma AcceptedAtOnce(m: Marker)
    ensures TypedSentinelFree([Type("@"), Accept(m)]) && Markers(DocOf([Type("@"), Accept(m)])) == [m]
  {
    var edits, typed: seq<Edit> := [Type("@"), Accept(m)], [Type("@")];
    assert edits[..1] == typed && typed[..0] == [];
    assert DocOf(typed) == Ends("@");
    assert LastAt("@", 1) == Some(0);
    assert DocOf(edits) == AppendChip(Ends("@"), 0, m);
    assert SentinelFree("@");
  }

  lemma InnerTokenAt(name: string, n: nat, start: nat)
    requires start > 0 && IsToken(name, n, start)
    ensures InnerToken(name, n)
  {
  }
}
