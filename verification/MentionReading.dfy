/**
 Reading a sent message the way its receiver does, with a reader that knows nothing of how links are written: a label
 in brackets, then the type and the id in an address. What was sent reads back as the markers, in order.
 */
module MentionReading {
  import opened Wrappers
  import opened Mentions

  const ADDRESS := "](mention://"

  /** One mention read from a text. */
  datatype Reading = Reading(kind: MentionType, id: string, title: string)

  /** How many characters come before the first one of these. */
  function Until(s: string, stops: set<char>): (k: nat)
    ensures k <= |s|
  {
    if s == "" || s[0] in stops then 0 else 1 + Until(s[1..], stops)
  }

  function KindNamed(name: string): Option<MentionType> {
    if name == "member" then Some(Member)
    else if name == "agent" then Some(Agent)
    else if name == "squad" then Some(Squad)
    else if name == "all" then Some(All)
    else if name == "issue" then Some(Issue)
    else None
  }

  /** A label ends at its closing bracket; a strict reader also lets no opening bracket into a label or an id. */
  function LabelStops(strict: bool): set<char> {
    if strict then {'[', ']'} else {']'}
  }

  function IdStops(strict: bool): set<char> {
    if strict then {'[', ')'} else {')'}
  }

  /** The type and the id of an address, and its length with the closing parenthesis. */
  function AddressAt(s: string, strict: bool): Option<(MentionType, string, nat)> {
    var k := Until(s, {'/'});
    if k == |s| || KindNamed(s[..k]).None? then None
    else
      var id := s[k + 1..];
      var n := Until(id, IdStops(strict));
      if n == |id| || id[n] != ')' then None else Some((KindNamed(s[..k]).value, id[..n], k + n + 2))
  }

  /** What stands behind an opening bracket read as a link, and its length. */
  function LinkBehind(s: string, strict: bool): Option<(Reading, nat)> {
    var l := Until(s, LabelStops(strict));
    if !(ADDRESS <= s[l..]) then None
    else
      var a := AddressAt(s[l..][|ADDRESS|..], strict);
      if a.None? then None else Some((Reading(a.value.0, a.value.1, s[..l]), l + |ADDRESS| + a.value.2))
  }

  /** The link that a text begins with, and its length. */
  function LinkAt(s: string, strict: bool): (link: Option<(Reading, nat)>)
    ensures link.Some? ==> link.value.1 > 0
  {
    if s == "" || s[0] != '[' || LinkBehind(s[1..], strict).None? then None
    else Some((LinkBehind(s[1..], strict).value.0, 1 + LinkBehind(s[1..], strict).value.1))
  }

  /** All mentions of a text, from left to right. */
  function Readings(s: string, strict: bool): seq<Reading>
    decreases |s|
  {
    if s == "" then []
    else
      var link := LinkAt(s, strict);
      if link.Some? then [link.value.0] + Readings(if link.value.1 <= |s| then s[link.value.1..] else "", strict)
      else Readings(s[1..], strict)
  }

  /** What a marker should be read as: the label has an `@` except for an issue. */
  function Expected(m: Marker): Reading {
    Reading(m.kind, m.id, if m.kind == Issue then m.name else ['@'] + m.name)
  }

  function AllExpected(markers: seq<Marker>): (all: seq<Reading>)
    ensures |all| == |markers| && forall i :: 0 <= i < |all| ==> all[i] == Expected(markers[i])
  {
    seq(|markers|, i requires 0 <= i < |markers| => Expected(markers[i]))
  }

  ghost predicate Free(s: string, chars: set<char>) {
    forall i :: 0 <= i < |s| ==> s[i] !in chars
  }

  /** The marker can be written as a link: nothing in its name or id ends a label or an id. */
  ghost predicate Writable(m: Marker, strict: bool) {
    Free(m.name, LabelStops(strict)) && Free(m.id, IdStops(strict))
  }

  // ----- reading one link -----

  lemma {:induction false} UntilIs(s: string, stops: set<char>, rest: string)
    requires Free(s, stops) && rest != "" && rest[0] in stops
    ensures Until(s + rest, stops) == |s|
    ensures (s + rest)[..|s|] == s && (s + rest)[|s|..] == rest
  {
    if s == "" {
      assert s + rest == rest;
    } else {
      assert (s + rest)[1..] == s[1..] + rest;
      UntilIs(s[1..], stops, rest);
    }
  }

  lemma AddressIs(name: string, kind: MentionType, id: string, rest: string, strict: bool)
    requires KindNamed(name) == Some(kind) && Free(id, IdStops(strict))
    ensures AddressAt(name + ("/" + (id + (")" + rest))), strict) == Some((kind, id, |name| + |id| + 2))
  {
    KindsAre(name);
    ParenthesisStops(strict);
    hide *;
    var behind := id + (")" + rest);
    var s := name + ("/" + behind);
    SlashSplits(name, behind);
    IdEnds(id, rest, strict);
    AddressUnfolds(s, strict, |name|, behind);
  }

  lemma ParenthesisStops(strict: bool)
    ensures ')' in IdStops(strict)
  {
  }

  lemma IdEnds(id: string, rest: string, strict: bool)
    requires Free(id, IdStops(strict)) && ')' in IdStops(strict)
    ensures var behind := id + (")" + rest);
            var n := Until(behind, IdStops(strict));
            n == |id| < |behind| && behind[n] == ')' && behind[..n] == id
  {
    UntilIs(id, IdStops(strict), ")" + rest);
    hide IdStops, Until, Free;
  }

  lemma SlashSplits(name: string, behind: string)
    requires forall i :: 0 <= i < |name| ==> name[i] != '/'
    ensures var s := name + ("/" + behind);
            Until(s, {'/'}) == |name| < |s| && s[..|name|] == name && s[|name| + 1..] == behind
  {
    UntilIs(name, {'/'}, "/" + behind);
    hide Until;
  }

  lemma AddressUnfolds(s: string, strict: bool, k: nat, id: string)
    requires k == Until(s, {'/'}) && k < |s| && id == s[k + 1..]
    ensures AddressAt(s, strict)
            == var n := Until(id, IdStops(strict));
               if KindNamed(s[..k]).None? || n == |id| || id[n] != ')' then None
               else Some((KindNamed(s[..k]).value, id[..n], k + n + 2))
  {
    hide Until, KindNamed, IdStops;
  }

  lemma LinkIs(title: string, name: string, kind: MentionType, id: string, rest: string, strict: bool)
    requires Free(title, LabelStops(strict)) && KindNamed(name) == Some(kind) && Free(id, IdStops(strict))
    ensures LinkAt("[" + (title + (ADDRESS + (name + ("/" + (id + (")" + rest)))))), strict)
            == Some((Reading(kind, id, title), 1 + |title| + |ADDRESS| + |name| + |id| + 2))
  {
    var address := name + ("/" + (id + (")" + rest)));
    hide *;
    AddressIs(name, kind, id, rest, strict);
    TitleEnds(title, address, strict);
    BehindIs(title + (ADDRESS + address), |title|, address, strict);
    Bracketed(title + (ADDRESS + address), strict);
  }

  lemma TitleEnds(title: string, address: string, strict: bool)
    requires Free(title, LabelStops(strict))
    ensures var behind := title + (ADDRESS + address);
            Until(behind, LabelStops(strict)) == |title| && behind[..|title|] == title && behind[|title|..] == ADDRESS + address
  {
    AddressParts(address, strict);
    hide Until, Free, LabelStops;
    UntilIs(title, LabelStops(strict), ADDRESS + address);
  }

  lemma Bracketed(behind: string, strict: bool)
    ensures LinkAt("[" + behind, strict)
            == var b := LinkBehind(behind, strict); if b.None? then None else Some((b.value.0, 1 + b.value.1))
  {
    assert ("[" + behind)[1..] == behind;
    hide LinkBehind;
  }

  lemma AddressParts(address: string, strict: bool)
    ensures var a := ADDRESS + address; a != "" && a[0] in LabelStops(strict) && ADDRESS <= a && a[|ADDRESS|..] == address
  {
  }

  lemma BehindIs(s: string, l: nat, address: string, strict: bool)
    requires l == Until(s, LabelStops(strict)) && s[l..] == ADDRESS + address
    ensures LinkBehind(s, strict)
            == var a := AddressAt(address, strict);
               if a.None? then None else Some((Reading(a.value.0, a.value.1, s[..l]), l + |ADDRESS| + a.value.2))
  {
    AddressParts(address, strict);
    hide Until, AddressAt, LabelStops;
  }

  /** The parts a written link consists of. */
  lemma LinkParts(m: Marker, rest: string)
    ensures Link(m) + rest
         == "[" + (Expected(m).title + (ADDRESS + (TypeName(m.kind) + ("/" + (m.id + (")" + rest))))))
    ensures |Link(m)| == 1 + |Expected(m).title| + |ADDRESS| + |TypeName(m.kind)| + |m.id| + 2
    ensures KindNamed(TypeName(m.kind)) == Some(m.kind)
  {
  }

  lemma ReadsLink(m: Marker, rest: string, strict: bool)
    requires Writable(m, strict)
    ensures Readings(Link(m) + rest, strict) == [Expected(m)] + Readings(rest, strict)
  {
    LinkParts(m, rest);
    LinkIs(Expected(m).title, TypeName(m.kind), m.kind, m.id, rest, strict);
    assert (Link(m) + rest)[|Link(m)|..] == rest;
    hide LinkAt, KindNamed, Free, Link, TypeName;
  }

  // ----- a text without opening brackets, and names that may have them -----

  lemma {:induction false} ProseIsSkipped(prose: string, rest: string, strict: bool)
    requires '[' !in prose
    ensures Readings(prose + rest, strict) == Readings(rest, strict)
  {
    if prose == "" {
      assert prose + rest == rest;
    } else {
      assert (prose + rest)[1..] == prose[1..] + rest && prose[0] in prose;
      ProseIsSkipped(prose[1..], rest, strict);
    }
  }

  ghost predicate PlainProse(chunks: seq<Chunk>) {
    forall t :: Copy(t) in chunks ==> '[' !in t
  }

  /** The first chunk of a list: its text, and the marker it links. */
  lemma FirstChunk(c: Chunk, rest: seq<Chunk>)
    ensures Join([c] + rest) == (if c.Copy? then c.text else Link(c.marker)) + Join(rest)
    ensures Mentioned([c] + rest) == (if c.Copy? then [] else [c.marker]) + Mentioned(rest)
    ensures PlainProse([c] + rest) ==> PlainProse(rest) && (c.Copy? ==> '[' !in c.text)
  {
    assert ([c] + rest)[1..] == rest;
    assert forall x :: x in [c] + rest <==> x == c || x in rest;
  }

  lemma NoChunks(strict: bool)
    ensures Join([]) == "" && Mentioned([]) == [] && Readings("", strict) == [] && AllExpected([]) == []
  {
  }

  lemma ExpectedFirst(m: Marker, rest: seq<Marker>)
    ensures AllExpected([m] + rest) == [Expected(m)] + AllExpected(rest)
  {
  }

  lemma {:induction false} ChunksReadBack(chunks: seq<Chunk>, strict: bool)
    requires PlainProse(chunks) && forall m :: m in Mentioned(chunks) ==> Writable(m, strict)
    ensures Readings(Join(chunks), strict) == AllExpected(Mentioned(chunks))
  {
    hide *;
    if chunks == [] {
      NoChunks(strict);
    } else {
      var c, rest := chunks[0], chunks[1..];
      assert chunks == [c] + rest;
      FirstChunk(c, rest);
      ChunksReadBack(rest, strict);
      if c.Copy? {
        ProseIsSkipped(c.text, Join(rest), strict);
        assert [] + Mentioned(rest) == Mentioned(rest);
      } else {
        ReadsLink(c.marker, Join(rest), strict);
        ExpectedFirst(c.marker, Mentioned(rest));
      }
    }
  }

  lemma SentIs(text: string, markers: seq<Marker>)
    requires Matches(Scan(text), markers, 0)
    ensures Serialized(text, markers) == Join(Linked(Scan(text), markers, 0))
  {
  }

  lemma NameIsWritable(m: Marker)
    requires ']' !in m.name && ')' !in m.id
    ensures Writable(m, false)
  {
  }

  lemma NameIsStrictlyWritable(m: Marker)
    requires '[' !in m.name && ']' !in m.name && '[' !in m.id && ')' !in m.id
    ensures Writable(m, true)
  {
  }

  /**
   When every run has its marker, reading what was sent gives the type, the id and the label of every marker in order,
   and nothing else: for names without a closing bracket, ids without a closing parenthesis, and no opening bracket
   in the text around them.
   */
  lemma SentMentionsReadBack(text: string, markers: seq<Marker>)
    requires Words(Scan(text)) == Names(markers) && PlainProse(Linked(Scan(text), markers, 0))
    requires forall m :: m in markers ==> ']' !in m.name && ')' !in m.id
    ensures var read := Readings(Serialized(text, markers), false);
            && |read| == |markers|
            && forall i :: 0 <= i < |read| ==>
                 && read[i].kind == markers[i].kind && read[i].id == markers[i].id
                 && read[i].title == if markers[i].kind == Issue then markers[i].name else "@" + markers[i].name
  {
    ReadsAsExpected(text, markers);
    hide Readings, Serialized;
  }

  lemma ReadsAsExpected(text: string, markers: seq<Marker>)
    requires Words(Scan(text)) == Names(markers) && PlainProse(Linked(Scan(text), markers, 0))
    requires forall m :: m in markers ==> ']' !in m.name && ')' !in m.id
    ensures Readings(Serialized(text, markers), false) == AllExpected(markers)
  {
    AllPaired(text, markers);
    hide *;
    forall m | m in markers ensures Writable(m, false) { NameIsWritable(m); }
    ChunksReadBack(Linked(Scan(text), markers, 0), false);
  }

  lemma AllPaired(text: string, markers: seq<Marker>)
    requires Words(Scan(text)) == Names(markers)
    ensures Serialized(text, markers) == Join(Linked(Scan(text), markers, 0))
    ensures Mentioned(Linked(Scan(text), markers, 0)) == markers
  {
    assert Names(markers)[0..] == Names(markers) && markers[0..] == markers;
    hide *;
    MatchesMeaning(Scan(text), markers, 0);
    LinkingKeepsText(text, markers, 0);
    SentIs(text, markers);
  }

  // ----- any text, and names without brackets -----

  lemma {:induction false} UntilBefore(s: string, stops: set<char>, rest: string)
    requires rest != "" && rest[0] in stops
    ensures Until(s + rest, stops) == Until(s, stops)
  {
    if s == "" {
      assert s + rest == rest;
    } else {
      assert (s + rest)[1..] == s[1..] + rest;
      UntilBefore(s[1..], stops, rest);
    }
  }

  lemma {:induction false} UntilWithin(s: string, stops: set<char>, rest: string)
    ensures Until(s, stops) < |s| ==> Until(s + rest, stops) == Until(s, stops)
    ensures Until(s, stops) == |s| ==> Until(s + rest, stops) >= |s|
  {
    if s == "" {
      assert s + rest == rest;
    } else {
      assert (s + rest)[1..] == s[1..] + rest;
      UntilWithin(s[1..], stops, rest);
    }
  }

  lemma NoKindHasBracket(name: string, i: nat)
    requires i < |name| && name[i] == '['
    ensures KindNamed(name).None?
  {
    hide *;
    KindsAre(name);
  }

  lemma KindsAre(name: string)
    ensures KindNamed(name).Some? ==> forall i :: 0 <= i < |name| ==> name[i] != '[' && name[i] != '/'
  {
  }

  /** No address runs into an opening bracket. */
  lemma AddressStays(s: string, rest: string)
    requires rest != "" && rest[0] == '['
    ensures AddressAt(s + rest, true) == AddressAt(s, true)
    ensures AddressAt(s, true).Some? ==> AddressAt(s, true).value.2 <= |s|
  {
    var k := Until(s, {'/'});
    UntilWithin(s, {'/'}, rest);
    if k == |s| {
      var all := s + rest;
      var j := Until(all, {'/'});
      if j < |all| && j > |s| { NoKindHasBracket(all[..j], |s|); }
      if j == |s| { assert all[j] == '['; UntilStops(all, {'/'}); }
      hide Until, KindNamed, IdStops;
    } else {
      BracketStops();
      hide Until, KindNamed, IdStops, AddressAt;
      Continues(s, rest, k);
      Continues(s, rest, k + 1);
      AddressUnfolds(s, true, k, s[k + 1..]);
      AddressUnfolds(s + rest, true, k, s[k + 1..] + rest);
      var id := s[k + 1..];
      UntilBefore(id, IdStops(true), rest);
      Continues(id, rest, Until(id, IdStops(true)));
    }
  }

  lemma {:induction false} UntilStops(s: string, stops: set<char>)
    ensures Until(s, stops) < |s| ==> s[Until(s, stops)] in stops
  {
    if s != "" && s[0] !in stops { UntilStops(s[1..], stops); }
  }

  /** No link that begins before an opening bracket runs into it. */
  lemma LinkStays(s: string, rest: string)
    requires s != "" && rest != "" && rest[0] == '['
    ensures LinkAt(s + rest, true) == LinkAt(s, true)
    ensures LinkAt(s, true).Some? ==> LinkAt(s, true).value.1 <= |s|
  {
    hide *;
    Continues(s, rest, 1);
    BehindStays(s[1..], rest);
    LinkUnfolds(s);
    LinkUnfolds(s + rest);
  }

  lemma LinkUnfolds(s: string)
    requires s != ""
    ensures LinkAt(s, true)
            == var b := LinkBehind(s[1..], true);
               if s[0] != '[' || b.None? then None else Some((b.value.0, 1 + b.value.1))
  {
    hide LinkBehind;
  }

  lemma BehindStays(s: string, rest: string)
    requires rest != "" && rest[0] == '['
    ensures LinkBehind(s + rest, true) == LinkBehind(s, true)
    ensures LinkBehind(s, true).Some? ==> LinkBehind(s, true).value.1 <= |s|
  {
    BracketStops();
    hide Until, AddressAt, LabelStops, LinkBehind, ADDRESS;
    UntilBefore(s, LabelStops(true), rest);
    var l := Until(s, LabelStops(true));
    var after := s[l..];
    Continues(s, rest, l);
    AddressBegins(after, rest);
    BehindUnfolds(s, l, after);
    BehindUnfolds(s + rest, l, after + rest);
    if ADDRESS <= after {
      AddressStays(after[|ADDRESS|..], rest);
      Continues(after, rest, |ADDRESS|);
    }
  }

  lemma BracketStops()
    ensures '[' in LabelStops(true) && '[' in IdStops(true)
  {
  }

  lemma BehindUnfolds(s: string, l: nat, after: string)
    requires l == Until(s, LabelStops(true)) && after == s[l..]
    ensures LinkBehind(s, true)
            == if !(ADDRESS <= after) then None
               else
                 var a := AddressAt(after[|ADDRESS|..], true);
                 if a.None? then None else Some((Reading(a.value.0, a.value.1, s[..l]), l + |ADDRESS| + a.value.2))
  {
    hide Until, AddressAt, LabelStops;
  }

  lemma Continues(s: string, rest: string, n: nat)
    requires n <= |s|
    ensures (s + rest)[n..] == s[n..] + rest && (s + rest)[..n] == s[..n]
  {
  }

  lemma AddressBegins(s: string, rest: string)
    requires rest != "" && rest[0] == '['
    ensures ADDRESS <= s + rest <==> ADDRESS <= s
  {
    var all := s + rest;
    if |s| < |ADDRESS| {
      assert all[|s|] == '[' && ADDRESS[|s|] != '[';
      assert |all| >= |ADDRESS| ==> all[..|ADDRESS|][|s|] == '[';
    } else {
      assert all[..|ADDRESS|] == s[..|ADDRESS|];
    }
  }

  lemma NothingReads()
    ensures Readings("", true) == []
  {
  }

  /** The mention at the front, if there is one, and where reading goes on. */
  ghost function Front(s: string): (seq<Reading>, nat) {
    var link := LinkAt(s, true);
    if link.Some? then ([link.value.0], link.value.1) else ([], 1)
  }

  lemma ReadingsStep(s: string)
    requires s != "" && Front(s).1 <= |s|
    ensures Front(s).1 > 0 && Readings(s, true) == Front(s).0 + Readings(s[Front(s).1..], true)
  {
    hide LinkAt;
  }

  lemma FrontStays(s: string, rest: string)
    requires s != "" && rest != "" && rest[0] == '['
    ensures Front(s + rest) == Front(s) && Front(s).1 <= |s|
  {
    LinkStays(s, rest);
    hide LinkAt;
  }

  lemma {:induction false} ReadingsSplit(s: string, rest: string)
    requires rest != "" && rest[0] == '['
    ensures Readings(s + rest, true) == Readings(s, true) + Readings(rest, true)
    decreases |s|
  {
    hide *;
    if s == "" {
      NothingReads();
      assert s + rest == rest && [] + Readings(rest, true) == Readings(rest, true);
    } else {
      FrontStays(s, rest);
      ReadingsStep(s);
      ReadingsStep(s + rest);
      var n := Front(s).1;
      Continues(s, rest, n);
      ReadingsSplit(s[n..], rest);
      Regroup(Front(s).0, Readings(s[n..], true), Readings(rest, true));
    }
  }

  lemma Regroup(a: seq<Reading>, b: seq<Reading>, c: seq<Reading>)
    ensures a + (b + c) == a + b + c
  {
  }

  /** What the stretches of text between the links read as by themselves, and the markers, in order. */
  function ReadingsOf(pending: string, chunks: seq<Chunk>): seq<Reading>
    decreases |chunks|
  {
    if chunks == [] then Readings(pending, true)
    else match chunks[0]
      case Copy(t) => ReadingsOf(pending + t, chunks[1..])
      case LinkTo(m) => Readings(pending, true) + [Expected(m)] + ReadingsOf("", chunks[1..])
  }

  lemma LinkBegins(m: Marker, rest: string)
    ensures Link(m) + rest != "" && (Link(m) + rest)[0] == '['
  {
  }

  lemma {:induction false} ChunksReadAs(pending: string, chunks: seq<Chunk>)
    requires forall m :: m in Mentioned(chunks) ==> Writable(m, true)
    ensures Readings(pending + Join(chunks), true) == ReadingsOf(pending, chunks)
    decreases |chunks|
  {
    if chunks == [] {
      assert pending + "" == pending;
    } else {
      var rest := chunks[1..];
      if chunks[0].Copy? {
        assert pending + Join(chunks) == pending + chunks[0].text + Join(rest);
        ChunksReadAs(pending + chunks[0].text, rest);
      } else {
        var m := chunks[0].marker;
        assert m in Mentioned(chunks) && Mentioned(chunks)[1..] == Mentioned(rest);
        LinkBegins(m, Join(rest));
        ReadingsSplit(pending, Link(m) + Join(rest));
        ReadsLink(m, Join(rest), true);
        assert "" + Join(rest) == Join(rest);
        ChunksReadAs("", rest);
      }
      hide Readings, Writable, Link;
    }
  }

  /**
   In any text at all, for names without brackets: reading what was sent gives the markers in order, and between them
   just what the stretches of text around the links read as by themselves.
   */
  lemma SentTextReadsAs(text: string, markers: seq<Marker>)
    requires Words(Scan(text)) == Names(markers)
    requires forall m :: m in markers ==> '[' !in m.name && ']' !in m.name && '[' !in m.id && ')' !in m.id
    ensures Mentioned(Linked(Scan(text), markers, 0)) == markers
    ensures Readings(Serialized(text, markers), true) == ReadingsOf("", Linked(Scan(text), markers, 0))
  {
    AllPaired(text, markers);
    hide *;
    forall m | m in markers ensures Writable(m, true) { NameIsStrictlyWritable(m); }
    var chunks := Linked(Scan(text), markers, 0);
    ChunksReadAs("", chunks);
    assert "" + Join(chunks) == Join(chunks);
  }
}
