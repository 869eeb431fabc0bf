/**
 The builder agent appends one `<agent_draft>` JSON block to its reply. Its strings may contain raw line
 breaks; the repair escapes them, and the block is cut out of what a human reads.
 */
module BuilderProtocol {
  import opened Whitespace
  import opened Wrappers

  // ----- the repair -----

  /** Lexer state: outside strings, inside one, or right after a backslash inside one. */
  datatype State = Out | In | Escaped

  predicate IsRaw(c: char) {
    c == '\n' || c == '\r' || c == '\t'
  }

  function Next(state: State, c: char): State {
    match state
    case Out => if c == '"' then In else Out
    case Escaped => In
    case In => if c == '\\' then Escaped else if c == '"' then Out else In
  }

  function Emit(state: State, c: char): string {
    if state.In? && c == '\n' then "\\n"
    else if state.In? && c == '\r' then "\\r"
    else if state.In? && c == '\t' then "\\t"
    else [c]
  }

  function Repaired(s: string, state: State): string {
    if s == "" then "" else Emit(state, s[0]) + Repaired(s[1..], Next(state, s[0]))
  }

  method EscapeJsonStringControlCharacters(value: string) returns (result: string)
    ensures result == Repaired(value, Out)
  {
    hide *;
    result := "";
    var inString, escaped := false, false;
    assert value[0..] == value && "" + Repaired(value, Out) == Repaired(value, Out);
    for n := 0 to |value|
      invariant escaped ==> inString
      invariant result + Repaired(value[n..], Lexer(inString, escaped)) == Repaired(value, Out)
    {
      var character := value[n];
      RepairStep(value, n, Lexer(inString, escaped), result);
      EmitCases(Lexer(inString, escaped), character);
      if !inString {
        result := result + [character];
        if character == '"' { inString := true; }
        continue;
      }
      if escaped {
        result := result + [character];
        escaped := false;
        continue;
      }
      if character == '\\' {
        result := result + [character];
        escaped := true;
        continue;
      }
      if character == '"' {
        result := result + [character];
        inString := false;
        continue;
      }
      if character == '\n' {
        result := result + "\\n";
      } else if character == '\r' {
        result := result + "\\r";
      } else if character == '\t' {
        result := result + "\\t";
      } else {
        result := result + [character];
      }
    }
    RepairEmpty(value, Lexer(inString, escaped), result);
  }

  /** The state held by the two flags of the loop. */
  ghost function Lexer(inString: bool, escaped: bool): (state: State)
    ensures !inString ==> state == Out
    ensures inString && escaped ==> state == Escaped
    ensures inString && !escaped ==> state == In
  {
    if !inString then Out else if escaped then Escaped else In
  }

  lemma RepairStep(value: string, n: nat, state: State, result: string)
    requires n < |value|
    ensures result + Repaired(value[n..], state)
            == result + Emit(state, value[n]) + Repaired(value[n + 1..], Next(state, value[n]))
  {
    assert value[n..][1..] == value[n + 1..];
  }

  lemma EmitCases(state: State, c: char)
    ensures Emit(state, c) == if state == In && c == '\n' then "\\n"
                              else if state == In && c == '\r' then "\\r"
                              else if state == In && c == '\t' then "\\t" else [c]
    ensures Next(state, c) == if state == Out then (if c == '"' then In else Out)
                              else if state == Escaped then In
                              else if c == '\\' then Escaped else if c == '"' then Out else In
  {
  }

  lemma RepairEmpty(value: string, state: State, result: string)
    ensures result + Repaired(value[|value|..], state) == result
  {
  }

  // ----- decoding strings (section 7 of RFC 8259) -----

  /** A character outside strings, or the code units a string stands for. */
  datatype Token = Punct(c: char) | Str(units: seq<int>)

  function HexDigit(c: char): Option<int> {
    if '0' <= c <= '9' then Some(c as int - '0' as int)
    else if 'a' <= c <= 'f' then Some(c as int - 'a' as int + 10)
    else if 'A' <= c <= 'F' then Some(c as int - 'A' as int + 10)
    else None
  }

  /** The value of exactly `digits` hexadecimal digits in front of `s`. */
  function Hex(s: string, digits: nat, value: int): (r: Option<int>)
    ensures r.Some? ==> digits <= |s|
    decreases digits
  {
    if digits == 0 then Some(value)
    else if s == "" || HexDigit(s[0]).None? then None
    else Hex(s[1..], digits - 1, 16 * value + HexDigit(s[0]).value)
  }

  /** What the character behind a backslash stands for, when it is one of the two-character escapes. */
  function ShortEscape(c: char): Option<int> {
    if c == '"' || c == '\\' || c == '/' then Some(c as int)
    else if c == 'b' then Some(8)
    else if c == 'f' then Some(12)
    else if c == 'n' then Some(10)
    else if c == 'r' then Some(13)
    else if c == 't' then Some(9)
    else None
  }

  function Prepend(t: Token, tokens: Option<seq<Token>>): Option<seq<Token>> {
    if tokens.None? then None else Some([t] + tokens.value)
  }

  /**
   The tokens of a JSON text, or None where a string is malformed. `open` holds the units of a string that
   has begun. Control characters are rejected inside strings; lenient decoding lets LF, CR and TAB stand
   for themselves.
   */
  function Decode(s: string, lenient: bool, open: Option<seq<int>>): Option<seq<Token>>
    decreases |s|
  {
    if s == "" then (if open.None? then Some([]) else None)
    else if open.None? then
      if s[0] == '"' then Decode(s[1..], lenient, Some([])) else Prepend(Punct(s[0]), Decode(s[1..], lenient, None))
    else if s[0] == '"' then Prepend(Str(open.value), Decode(s[1..], lenient, None))
    else if s[0] == '\\' then DecodeEscape(s[1..], lenient, open.value)
    else if s[0] < ' ' && !(lenient && IsRaw(s[0])) then None
    else Decode(s[1..], lenient, Some(open.value + Units(s[0])))
  }

  /** The UTF-16 code units of a character: one, or a surrogate pair. */
  function Units(c: char): seq<int> {
    var code := c as int;
    if code < 0x10000 then [code]
    else [0xD800 + (code - 0x10000) / 0x400, 0xDC00 + (code - 0x10000) % 0x400]
  }

  /** `s` is what follows a backslash. */
  function DecodeEscape(s: string, lenient: bool, units: seq<int>): Option<seq<Token>>
    decreases |s|
  {
    if s == "" then None
    else if s[0] == 'u' then
      var code := Hex(s[1..], 4, 0);
      if code.None? then None else Decode(s[1..][4..], lenient, Some(units + [code.value]))
    else if ShortEscape(s[0]).None? then None
    else Decode(s[1..], lenient, Some(units + [ShortEscape(s[0]).value]))
  }

  ghost function StateOf(open: Option<seq<int>>): State {
    if open.None? then Out else In
  }

  lemma HexDigitsStay(c: char)
    requires HexDigit(c).Some?
    ensures Emit(In, c) == [c] && Next(In, c) == In
  {
  }

  lemma NonDigitsStayNonDigits(c: char)
    requires HexDigit(c).None?
    ensures HexDigit(Emit(In, c)[0]).None?
  {
  }

  lemma RepairCons(s: string, state: State)
    requires s != ""
    ensures Repaired(s, state)[0] == Emit(state, s[0])[0]
    ensures |Emit(state, s[0])| == 1 ==> Repaired(s, state)[1..] == Repaired(s[1..], Next(state, s[0]))
    ensures |Emit(state, s[0])| == 2 ==>
              Repaired(s, state)[1..] == [Emit(state, s[0])[1]] + Repaired(s[1..], Next(state, s[0]))
  {
  }

  /** The repair neither breaks four hexadecimal digits nor makes four out of something else. */
  lemma {:induction false} RepairKeepsHex(s: string, digits: nat, value: int)
    ensures Hex(Repaired(s, In), digits, value) == Hex(s, digits, value)
    ensures Hex(s, digits, value).Some? ==>
              digits <= |Repaired(s, In)| && Repaired(s, In)[digits..] == Repaired(s[digits..], In)
    decreases digits
  {
    if digits > 0 && s != "" {
      RepairCons(s, In);
      if HexDigit(s[0]).Some? {
        HexDigitsStay(s[0]);
        RepairKeepsHex(s[1..], digits - 1, 16 * value + HexDigit(s[0]).value);
        if digits <= |s| { assert s[1..][digits - 1..] == s[digits..]; }
        var r := Repaired(s, In);
        if digits <= |r| { assert r[1..][digits - 1..] == r[digits..]; }
      } else {
        NonDigitsStayNonDigits(s[0]);
      }
    }
  }

  lemma {:induction false} RepairEscape(s: string, units: seq<int>)
    ensures DecodeEscape(Repaired(s, Escaped), false, units) == DecodeEscape(s, true, units)
    decreases |s|
  {
    if s != "" {
      RepairCons(s, Escaped);
      if s[0] == 'u' {
        RepairKeepsHex(s[1..], 4, 0);
        var code := Hex(s[1..], 4, 0);
        if code.Some? { RepairPreservesMeaning(s[1..][4..], Some(units + [code.value])); }
      } else if ShortEscape(s[0]).Some? {
        RepairPreservesMeaning(s[1..], Some(units + [ShortEscape(s[0]).value]));
      }
    }
  }

  /** A raw control character and its repair stand for the same unit. */
  lemma RawIsEscaped(c: char, rest: string, units: seq<int>)
    requires IsRaw(c)
    ensures Decode(Emit(In, c) + rest, false, Some(units)) == Decode(rest, false, Some(units + Units(c)))
  {
    var s := Emit(In, c) + rest;
    assert s[1..][1..] == rest;
  }

  /**
   The repair preserves meaning: decoding the repaired text strictly is decoding the original leniently,
   with the same result, or the same failure, for every text.
   */
  lemma {:induction false} RepairPreservesMeaning(s: string, open: Option<seq<int>>)
    ensures Decode(Repaired(s, StateOf(open)), false, open) == Decode(s, true, open)
    decreases |s|
  {
    if s != "" {
      RepairCons(s, StateOf(open));
      if open.None? {
        RepairPreservesMeaning(s[1..], if s[0] == '"' then Some([]) else None);
      } else if s[0] == '"' {
        RepairPreservesMeaning(s[1..], None);
      } else if s[0] == '\\' {
        RepairEscape(s[1..], open.value);
      } else if IsRaw(s[0]) {
        RepairPreservesMeaning(s[1..], Some(open.value + Units(s[0])));
        RawIsEscaped(s[0], Repaired(s[1..], In), open.value);
      } else {
        RepairPreservesMeaning(s[1..], Some(open.value + Units(s[0])));
      }
    }
  }

  // ----- when the repair does nothing -----

  /** The number of raw control characters inside strings. */
  ghost function Raws(s: string, state: State): nat {
    if s == "" then 0 else (if state.In? && IsRaw(s[0]) then 1 else 0) + Raws(s[1..], Next(state, s[0]))
  }

  lemma {:induction false} RepairLengthens(s: string, state: State)
    ensures |Repaired(s, state)| == |s| + Raws(s, state)
    ensures Raws(s, state) == 0 ==> Repaired(s, state) == s
  {
    if s != "" {
      RepairLengthens(s[1..], Next(state, s[0]));
      assert s == [s[0]] + s[1..];
    }
  }

  /** The repair is the identity exactly on texts without raw control characters inside strings. */
  lemma RepairIdentityIff(s: string)
    ensures Repaired(s, Out) == s <==> Raws(s, Out) == 0
  {
    RepairLengthens(s, Out);
  }

  lemma RawsOfEmit(c: char, rest: string, state: State)
    ensures Raws(Emit(state, c) + rest, state) == Raws(rest, Next(state, c))
  {
    var e := Emit(state, c);
    assert (e + rest)[1..] == e[1..] + rest;
    if |e| == 2 { assert (e[1..] + rest)[1..] == rest; } else { assert e[1..] + rest == rest; }
  }

  lemma {:induction false} RepairRemovesRaws(s: string, state: State)
    ensures Raws(Repaired(s, state), state) == 0
  {
    if s != "" {
      RepairRemovesRaws(s[1..], Next(state, s[0]));
      RawsOfEmit(s[0], Repaired(s[1..], Next(state, s[0])), state);
    }
  }

  lemma RepairIsIdempotent(s: string)
    ensures Repaired(Repaired(s, Out), Out) == Repaired(s, Out)
  {
    RepairRemovesRaws(s, Out);
    RepairLengthens(Repaired(s, Out), Out);
  }

  /** What stands outside strings, quotes included. */
  ghost function Outside(s: string, state: State): string {
    if s == "" then ""
    else (if state.Out? || Next(state, s[0]).Out? then [s[0]] else "") + Outside(s[1..], Next(state, s[0]))
  }

  lemma OutsideOfEmit(c: char, rest: string, state: State)
    ensures Outside(Emit(state, c) + rest, state)
            == (if state.Out? || Next(state, c).Out? then [c] else "") + Outside(rest, Next(state, c))
  {
    var e := Emit(state, c);
    assert (e + rest)[1..] == e[1..] + rest;
    if |e| == 2 { assert (e[1..] + rest)[1..] == rest; } else { assert e[1..] + rest == rest; }
  }

  /** Characters outside strings are unchanged, in malformed text too. */
  lemma {:induction false} RepairKeepsOutside(s: string, state: State)
    ensures Outside(Repaired(s, state), state) == Outside(s, state)
  {
    if s != "" {
      RepairKeepsOutside(s[1..], Next(state, s[0]));
      OutsideOfEmit(s[0], Repaired(s[1..], Next(state, s[0])), state);
    }
  }

  // ----- parsing the block -----

  const OPEN_TAG := "<agent_draft>"
  const CLOSE_TAG := "</agent_draft>"

  /** The first occurrence of `tag`. */
  function Find(s: string, tag: string): (k: Option<nat>)
    ensures k.Some? ==> k.value + |tag| <= |s| && tag <= s[k.value..]
  {
    if |s| < |tag| then None
    else if tag <= s then Some(0)
    else if s == "" then None
    else
      var k := Find(s[1..], tag);
      if k.None? then None
      else
        assert s[1..][k.value..] == s[k.value + 1..];
        Some(k.value + 1)
  }

  /** The first block: from the first opening tag to the first closing tag behind it. */
  function Block(content: string): Option<string> {
    var o := Find(content, OPEN_TAG);
    if o.None? then None
    else
      var body := content[o.value + |OPEN_TAG|..];
      var c := Find(body, CLOSE_TAG);
      if c.None? then None else Some(body[..c.value])
  }

  /** A parsed JSON value; only objects (and arrays) are drafts. */
  datatype Json = Object(fields: map<string, int>) | Other

  /** JSON.parse: strings are decoded strictly, everything else is up to the grammar of tokens. */
  function JsonParse(s: string, grammar: seq<Token> -> Option<Json>): Option<Json> {
    var tokens := Decode(s, false, None);
    if tokens.None? then None else grammar(tokens.value)
  }

  function AsDraft(value: Json): Option<Json> {
    if value.Object? then Some(value) else None
  }

  function ParseBuilderDraft(content: string, grammar: seq<Token> -> Option<Json>): Option<Json> {
    var block := Block(content);
    if block.None? || block.value == "" then None
    else
      var value := JsonParse(block.value, grammar);
      if value.Some? then AsDraft(value.value)
      else
        var repaired := JsonParse(Repaired(block.value, Out), grammar);
        if repaired.Some? then AsDraft(repaired.value) else None
  }

  lemma {:induction false} StrictIsLenient(s: string, open: Option<seq<int>>)
    ensures Decode(s, false, open).Some? ==> Decode(s, true, open) == Decode(s, false, open)
    decreases |s|
  {
    if s != "" {
      if open.None? {
        StrictIsLenient(s[1..], if s[0] == '"' then Some([]) else None);
      } else if s[0] == '"' {
        StrictIsLenient(s[1..], None);
      } else if s[0] == '\\' {
        StrictEscapeIsLenient(s[1..], open.value);
      } else {
        StrictIsLenient(s[1..], Some(open.value + Units(s[0])));
      }
    }
  }

  lemma {:induction false} StrictEscapeIsLenient(s: string, units: seq<int>)
    ensures DecodeEscape(s, false, units).Some? ==> DecodeEscape(s, true, units) == DecodeEscape(s, false, units)
    decreases |s|
  {
    if s != "" {
      if s[0] == 'u' {
        var code := Hex(s[1..], 4, 0);
        if code.Some? { StrictIsLenient(s[1..][4..], Some(units + [code.value])); }
      } else if ShortEscape(s[0]).Some? {
        StrictIsLenient(s[1..], Some(units + [ShortEscape(s[0]).value]));
      }
    }
  }

  /**
   Trying strictly and then once more with the repair accepts exactly the blocks whose lenient decoding the
   grammar accepts, with that value; a well-formed block is never changed by the second try.
   */
  lemma ParseIsLenient(content: string, grammar: seq<Token> -> Option<Json>)
    ensures var block := Block(content);
            ParseBuilderDraft(content, grammar)
            == if block.None? || block.value == "" then None
               else
                 var tokens := Decode(block.value, true, None);
                 if tokens.None? || grammar(tokens.value).None? then None else AsDraft(grammar(tokens.value).value)
  {
    var block := Block(content);
    if block.Some? {
      StrictIsLenient(block.value, None);
      RepairPreservesMeaning(block.value, None);
    }
  }

  /** No text between the tags means no draft; the first block, from the first tag to the first closing tag behind it, is parsed. */
  lemma BlockIsParsed(prose: string, body: string, rest: string, grammar: seq<Token> -> Option<Json>)
    requires Find(prose, OPEN_TAG).None? && Find(body, CLOSE_TAG).None?
    ensures var content := prose + ("<agent_draft>" + (body + ("</agent_draft>" + rest)));
            var strict, lenient := Decode(body, false, None), Decode(body, true, None);
            && (body == "" ==> ParseBuilderDraft(content, grammar).None?)
            && (body != "" && strict.Some? && grammar(strict.value).Some? ==>
                  ParseBuilderDraft(content, grammar) == AsObject(grammar(strict.value).value))
            && (body != "" && lenient.Some? && grammar(lenient.value).Some? ==>
                  ParseBuilderDraft(content, grammar) == AsObject(grammar(lenient.value).value))
            && (ParseBuilderDraft(content, grammar).Some? ==> lenient.Some? && grammar(lenient.value).Some?)
  {
    TagsAreShaped();
    var behind := body + (CLOSE_TAG + rest);
    var content := prose + (OPEN_TAG + behind);
    FirstTagAt(prose, OPEN_TAG, behind);
    FirstTagAt(body, CLOSE_TAG, rest);
    AroundTag(prose, OPEN_TAG, behind);
    AroundTag(body, CLOSE_TAG, rest);
    ParseIsLenient(content, grammar);
    StrictIsLenient(body, None);
    hide Find, Decode, ParseBuilderDraft, TagShaped;
  }

  /** Only an object is a draft. */
  ghost function AsObject(value: Json): Option<Json> {
    match value
    case Object(_) => Some(value)
    case Other => None
  }

  /** Without a closed block there is no draft. */
  lemma NoBlockNoDraft(content: string, grammar: seq<Token> -> Option<Json>)
    requires NoClosedBlock(content)
    ensures ParseBuilderDraft(content, grammar).None?
  {
    hide Find;
  }

  // ----- hiding the block -----

  function TrimEnd(s: string): (r: string)
    ensures r <= s
  {
    if s != "" && IsSpace(s[|s| - 1]) then TrimEnd(s[..|s| - 1]) else s
  }

  function TrimStart(s: string): string {
    if s != "" && IsSpace(s[0]) then TrimStart(s[1..]) else s
  }

  function Trim(s: string): string {
    TrimEnd(TrimStart(s))
  }

  /** Every closed block goes, with the whitespace in front of it. */
  function RemoveClosed(s: string): string
    decreases |s|
  {
    var o := Find(s, OPEN_TAG);
    if o.None? then s
    else
      var body := s[o.value + |OPEN_TAG|..];
      var c := Find(body, CLOSE_TAG);
      if c.None? then s else TrimEnd(s[..o.value]) + RemoveClosed(body[c.value + |CLOSE_TAG|..])
  }

  /** An opening tag that is still there takes everything behind it. */
  function CutOpen(s: string): string {
    var o := Find(s, OPEN_TAG);
    if o.None? then s else TrimEnd(s[..o.value])
  }

  function StripBuilderDraft(content: string): string {
    Trim(CutOpen(RemoveClosed(content)))
  }

  lemma {:induction false} FindMeaning(s: string, tag: string, i: nat)
    requires i + |tag| <= |s| && tag <= s[i..]
    ensures Find(s, tag).Some? && Find(s, tag).value <= i
  {
    if i == 0 {
      assert s[0..] == s;
    } else {
      assert s[1..][i - 1..] == s[i..];
      FindMeaning(s[1..], tag, i - 1);
    }
  }

  lemma TagInPart(s: string, tag: string, from: nat, to: nat, k: nat)
    requires from <= to <= |s| && k + |tag| <= to - from && tag <= s[from..to][k..]
    ensures tag <= s[from + k..]
  {
    assert s[from + k..][..|tag|] == s[from..to][k..][..|tag|];
  }

  /** A part of a text without the tag has no tag either. */
  lemma PartHasNoTag(s: string, tag: string, from: nat, to: nat)
    requires from <= to <= |s| && Find(s, tag).None?
    ensures Find(s[from..to], tag).None?
  {
    hide Find;
    var k := Find(s[from..to], tag);
    if k.Some? {
      TagInPart(s, tag, from, to, k.value);
      FindMeaning(s, tag, from + k.value);
    }
  }

  /** No prefix that ends before the end of the first tag has one. */
  lemma BeforeFirstHasNoTag(s: string, tag: string, to: nat)
    requires Find(s, tag).Some? && to <= |s| && to < Find(s, tag).value + |tag|
    ensures Find(s[..to], tag).None?
  {
    hide Find;
    assert s[0..to] == s[..to];
    var k := Find(s[0..to], tag);
    if k.Some? {
      TagInPart(s, tag, 0, to, k.value);
      FindMeaning(s, tag, k.value);
    }
  }

  lemma {:induction false} TrimStartIsSuffix(s: string)
    ensures |TrimStart(s)| <= |s| && TrimStart(s) == s[|s| - |TrimStart(s)|..]
  {
    if s != "" && IsSpace(s[0]) {
      TrimStartIsSuffix(s[1..]);
    }
  }

  lemma TrimHasNoTag(s: string, tag: string)
    requires Find(s, tag).None?
    ensures Find(Trim(s), tag).None?
  {
    hide Find, TrimEnd, TrimStart;
    TrimStartIsSuffix(s);
    var from := |s| - |TrimStart(s)|;
    PrefixOfSuffix(s, from, Trim(s));
    PartHasNoTag(s, tag, from, from + |Trim(s)|);
  }

  lemma PrefixOfSuffix(s: string, from: nat, part: string)
    requires from <= |s| && part <= s[from..]
    ensures from + |part| <= |s| && part == s[from..from + |part|]
  {
  }

  /** No reader ever sees an opening tag, whatever the reply contains and wherever its stream stops. */
  lemma NoOpeningTagShows(content: string)
    ensures Find(StripBuilderDraft(content), OPEN_TAG).None?
  {
    var s := RemoveClosed(content);
    var o := Find(s, OPEN_TAG);
    if o.Some? {
      BeforeFirstHasNoTag(s, OPEN_TAG, |TrimEnd(s[..o.value])|);
      assert TrimEnd(s[..o.value]) == s[..|TrimEnd(s[..o.value])|];
    }
    TrimHasNoTag(CutOpen(s), OPEN_TAG);
  }

  // ----- streaming -----

  /** A tag whose first character does not occur in it again, so that it cannot overlap itself. */
  ghost predicate TagShaped(tag: string) {
    tag != "" && forall j :: 0 < j < |tag| ==> tag[j] != tag[0]
  }

  lemma TagNotYet(p: string, tag: string, r: string)
    requires TagShaped(tag) && p != "" && !(tag <= p)
    ensures !(tag <= p + (tag + r))
  {
    var s := p + (tag + r);
    if |p| < |tag| {
      assert s[|p|] == tag[0] && s[|p|] != tag[|p|];
    } else {
      assert s[..|tag|] == p[..|tag|];
    }
  }

  lemma FindStep(s: string, tag: string)
    requires s != "" && tag != ""
    ensures tag <= s ==> Find(s, tag) == Some(0)
    ensures !(tag <= s) && Find(s[1..], tag).None? ==> Find(s, tag).None?
    ensures !(tag <= s) && Find(s[1..], tag).Some? ==> Find(s, tag) == Some(Find(s[1..], tag).value + 1)
  {
  }

  lemma {:induction false} FirstTagAt(p: string, tag: string, r: string)
    requires TagShaped(tag) && Find(p, tag).None?
    ensures Find(p + (tag + r), tag) == Some(|p|)
  {
    var s := p + (tag + r);
    FindStep(s, tag);
    if p == "" {
      assert s == tag + r;
    } else {
      FindStep(p, tag);
      TagNotYet(p, tag, r);
      hide Find, TagShaped;
      assert s[1..] == p[1..] + (tag + r);
      FirstTagAt(p[1..], tag, r);
    }
  }

  lemma TagsAreShaped()
    ensures TagShaped(OPEN_TAG) && TagShaped(CLOSE_TAG)
  {
  }

  lemma {:induction false} TrimStartSnoc(q: string, c: char)
    requires IsSpace(c)
    ensures TrimStart(q + [c]) == if TrimStart(q) == "" then "" else TrimStart(q) + [c]
  {
    if q == "" {
      assert (q + [c])[1..] == "";
    } else {
      assert (q + [c])[1..] == q[1..] + [c];
      if IsSpace(q[0]) { TrimStartSnoc(q[1..], c); }
    }
  }

  lemma TrimSnoc(q: string, c: char)
    requires IsSpace(c)
    ensures Trim(q + [c]) == Trim(q)
  {
    TrimStartSnoc(q, c);
    var t := TrimStart(q);
    if t != "" { assert (t + [c])[..|t|] == t; }
  }

  lemma {:induction false} TrimOfTrimEnd(s: string)
    ensures Trim(TrimEnd(s)) == Trim(s)
  {
    if s != "" && IsSpace(s[|s| - 1]) {
      TrimOfTrimEnd(s[..|s| - 1]);
      TrimSnoc(s[..|s| - 1], s[|s| - 1]);
      assert s == s[..|s| - 1] + [s[|s| - 1]];
    }
  }

  lemma ShowOpenBlock(prose: string, r: string)
    requires Find(prose, OPEN_TAG).None? && Find(r, CLOSE_TAG).None?
    ensures StripBuilderDraft(prose + (OPEN_TAG + r)) == Trim(prose)
  {
    TagsAreShaped();
    var s := prose + (OPEN_TAG + r);
    FirstTagAt(prose, OPEN_TAG, r);
    assert s[|prose| + |OPEN_TAG|..] == r && s[..|prose|] == prose;
    TrimOfTrimEnd(prose);
  }

  lemma ClosedBlockGoes(s: string, o: nat, c: nat)
    requires Find(s, OPEN_TAG) == Some(o) && Find(s[o + |OPEN_TAG|..], CLOSE_TAG) == Some(c)
    requires s[o + |OPEN_TAG|..][c + |CLOSE_TAG|..] == ""
    ensures RemoveClosed(s) == TrimEnd(s[..o])
  {
    assert RemoveClosed("") == "";
    assert TrimEnd(s[..o]) + "" == TrimEnd(s[..o]);
  }

  lemma CutOpenKeepsProse(prose: string)
    requires Find(prose, OPEN_TAG).None?
    ensures CutOpen(TrimEnd(prose)) == TrimEnd(prose)
  {
    PartHasNoTag(prose, OPEN_TAG, 0, |TrimEnd(prose)|);
    assert prose[0..|TrimEnd(prose)|] == TrimEnd(prose);
  }

  lemma ShowClosedBlock(prose: string, body: string)
    requires Find(prose, OPEN_TAG).None? && Find(body, CLOSE_TAG).None?
    ensures StripBuilderDraft(prose + (OPEN_TAG + (body + (CLOSE_TAG + "")))) == Trim(prose)
  {
    hide Find, TrimEnd, TrimStart, RemoveClosed, CutOpen;
    TagsAreShaped();
    var r := body + (CLOSE_TAG + "");
    var s := prose + (OPEN_TAG + r);
    FirstTagAt(prose, OPEN_TAG, r);
    FirstTagAt(body, CLOSE_TAG, "");
    assert s[|prose| + |OPEN_TAG|..] == r && s[..|prose|] == prose && r[|body| + |CLOSE_TAG|..] == "";
    ClosedBlockGoes(s, |prose|, |body|);
    CutOpenKeepsProse(prose);
    TrimOfTrimEnd(prose);
  }

  /** However far the block has been streamed behind its opening tag, the reader sees the prose and nothing else. */
  lemma ShowBehindTag(prose: string, body: string, streamed: nat)
    requires Find(prose, OPEN_TAG).None? && Find(body, CLOSE_TAG).None?
    requires streamed <= |body + CLOSE_TAG|
    ensures StripBuilderDraft(prose + (OPEN_TAG + (body + CLOSE_TAG)[..streamed])) == Trim(prose)
  {
    hide StripBuilderDraft, Trim, Find;
    var block := body + CLOSE_TAG;
    assert body + (CLOSE_TAG + "") == block;
    if streamed == |block| {
      assert block[..streamed] == block;
      ShowClosedBlock(prose, body);
    } else {
      PartialCloseIsOpen(body, streamed);
      ShowOpenBlock(prose, block[..streamed]);
    }
  }

  /** Without an opening tag the text is only trimmed. */
  lemma ShowUntagged(s: string)
    requires Find(s, OPEN_TAG).None?
    ensures StripBuilderDraft(s) == Trim(s)
  {
  }

  /** A reply: prose, then one block. */
  ghost function Reply(prose: string, body: string): string {
    prose + (OPEN_TAG + (body + CLOSE_TAG))
  }

  /** What was streamed of the prose, trimmed. */
  ghost predicate IsProse(prose: string, shown: string) {
    exists m :: 0 <= m <= |prose| && shown == Trim(prose[..m])
  }

  /**
   Every moment of streaming a reply: up to the end of the opening tag the reader sees what has arrived, trimmed,
   a begun tag included, and from then on the trimmed prose.
   */
  lemma StreamShows(prose: string, body: string, n: nat)
    requires Find(prose, OPEN_TAG).None? && Find(body, CLOSE_TAG).None? && n <= |Reply(prose, body)|
    ensures StripBuilderDraft(Reply(prose, body)[..n])
         == Trim(if n < |prose| + |OPEN_TAG| then Reply(prose, body)[..n] else prose)
  {
    hide StripBuilderDraft, Trim, Find;
    var reply, block := Reply(prose, body), body + CLOSE_TAG;
    if n < |prose| + |OPEN_TAG| {
      TagsAreShaped();
      FirstTagAt(prose, OPEN_TAG, block);
      BeforeFirstHasNoTag(reply, OPEN_TAG, n);
      ShowUntagged(reply[..n]);
    } else {
      var streamed := n - |prose| - |OPEN_TAG|;
      assert reply[..n] == prose + (OPEN_TAG + block[..streamed]);
      ShowBehindTag(prose, body, streamed);
    }
  }

  /** Only prose shows at a moment exactly when it is not inside the opening tag. */
  lemma OnlyProseShowsIff(prose: string, body: string, n: nat)
    requires Find(prose, OPEN_TAG).None? && Find(body, CLOSE_TAG).None? && n <= |Reply(prose, body)|
    ensures IsProse(prose, StripBuilderDraft(Reply(prose, body)[..n])) <==> n <= |prose| || n >= |prose| + |OPEN_TAG|
  {
    hide StripBuilderDraft, Trim, Find;
    StreamShows(prose, body, n);
    var shown := StripBuilderDraft(Reply(prose, body)[..n]);
    if n <= |prose| {
      assert Reply(prose, body)[..n] == prose[..n];
      assert IsProse(prose, shown);
    } else if n >= |prose| + |OPEN_TAG| {
      assert prose[..|prose|] == prose;
      assert IsProse(prose, shown);
    } else {
      var partial := OPEN_TAG[..n - |prose|];
      assert Reply(prose, body)[..n] == prose + partial;
      PartialTagShows(prose, partial);
      forall m | 0 <= m <= |prose| ensures |Trim(prose[..m])| <= |TrimStart(prose)| { TrimOfPrefix(prose, m); }
    }
  }

  lemma PartialTagShows(prose: string, partial: string)
    requires partial != "" && partial <= OPEN_TAG
    ensures |Trim(prose + partial)| > |TrimStart(prose)|
  {
    TagHasNoSpace(0);
    TagHasNoSpace(|partial| - 1);
    hide IsSpace;
    assert partial == OPEN_TAG[..|partial|];
    TrimStartConcat(prose, partial);
    var t := TrimStart(prose + partial);
    assert t[|t| - 1] == partial[|partial| - 1];
  }

  lemma TagHasNoSpace(i: nat)
    requires i < |OPEN_TAG|
    ensures !IsSpace(OPEN_TAG[i])
  {
  }

  lemma {:induction false} TrimStartConcat(s: string, t: string)
    requires t != "" && !IsSpace(t[0])
    ensures TrimStart(s + t) == TrimStart(s) + t
  {
    if s == "" {
      assert s + t == t;
    } else if IsSpace(s[0]) {
      assert (s + t)[1..] == s[1..] + t;
      TrimStartConcat(s[1..], t);
    }
  }

  lemma {:induction false} TrimOfPrefix(s: string, m: nat)
    requires m <= |s|
    ensures |Trim(s[..m])| <= |TrimStart(s[..m])| <= |TrimStart(s)|
  {
    if m > 0 && IsSpace(s[0]) {
      assert s[..m][1..] == s[1..][..m - 1];
      TrimOfPrefix(s[1..], m - 1);
    }
  }

  /** Eight characters into the opening tag, the begun tag is on the screen. */
  lemma BegunTagShows()
    ensures StripBuilderDraft(Reply("Hi ", "{}")[..11]) == "Hi <agent_d"
    ensures !IsProse("Hi ", StripBuilderDraft(Reply("Hi ", "{}")[..11]))
  {
    NoTagsInExample();
    TrimmedExample();
    hide Find, TrimStart, TrimEnd, Trim, StripBuilderDraft, IsProse, Reply;
    ReplyInsideTag("Hi ", "{}", 8);
    OnlyProseShowsIff("Hi ", "{}", 11);
    StreamShows("Hi ", "{}", 11);
    assert OPEN_TAG[..8] == "<agent_d";
    assert "Hi " + "<agent_d" == "Hi <agent_d";
  }

  lemma TrimmedExample()
    ensures Trim("Hi <agent_d") == "Hi <agent_d"
  {
    assert TrimStart("Hi <agent_d") == "Hi <agent_d" && !IsSpace('d');
  }

  lemma ReplyInsideTag(prose: string, body: string, m: nat)
    requires m <= |OPEN_TAG|
    ensures |prose| + m <= |Reply(prose, body)| && Reply(prose, body)[..|prose| + m] == prose + OPEN_TAG[..m]
  {
  }

  lemma NoTagsInExample()
    ensures Find("Hi ", OPEN_TAG).None? && Find("{}", CLOSE_TAG).None?
  {
  }

  lemma PartialCloseIsOpen(body: string, streamed: nat)
    requires Find(body, CLOSE_TAG).None? && streamed < |body + CLOSE_TAG|
    ensures Find((body + CLOSE_TAG)[..streamed], CLOSE_TAG).None?
  {
    var block := body + CLOSE_TAG;
    TagsAreShaped();
    FirstTagAt(body, CLOSE_TAG, "");
    assert body + (CLOSE_TAG + "") == block;
    assert block[0..streamed] == block[..streamed];
    var k := Find(block[0..streamed], CLOSE_TAG);
    if k.Some? {
      TagInPart(block, CLOSE_TAG, 0, streamed, k.value);
      FindMeaning(block, CLOSE_TAG, k.value);
    }
  }

  // ----- several blocks -----

  /** Pieces of prose, each with a block behind it, and what comes after the last block. */
  ghost function Blocks(pieces: seq<(string, string)>, tail: string): string {
    if pieces == [] then tail
    else pieces[0].0 + (OPEN_TAG + (pieces[0].1 + (CLOSE_TAG + Blocks(pieces[1..], tail))))
  }

  /** The prose that is left when the blocks go. */
  ghost function Joined(pieces: seq<(string, string)>, tail: string): string {
    if pieces == [] then tail else TrimEnd(pieces[0].0) + Joined(pieces[1..], tail)
  }

  /** No opening tag in the prose and no closing tag in the blocks. */
  ghost predicate CutAtTags(pieces: seq<(string, string)>) {
    forall i :: 0 <= i < |pieces| ==> Find(pieces[i].0, OPEN_TAG).None? && Find(pieces[i].1, CLOSE_TAG).None?
  }

  ghost predicate NoClosedBlock(s: string) {
    var o := Find(s, OPEN_TAG);
    o.None? || Find(s[o.value + |OPEN_TAG|..], CLOSE_TAG).None?
  }

  /** What a reader sees of joined prose: it ends where the pieces join into an opening tag, or where one was left open. */
  ghost function Visible(pieces: seq<(string, string)>, tail: string): string {
    Trim(CutOpen(Joined(pieces, tail)))
  }

  /** A content taken apart at its closed blocks. */
  ghost function Parts(content: string): (seq<(string, string)>, string)
    decreases |content|
  {
    if NoClosedBlock(content) then ([], content)
    else
      var o := Find(content, OPEN_TAG).value;
      var body := content[o + |OPEN_TAG|..];
      var c := Find(body, CLOSE_TAG).value;
      var rest := Parts(body[c + |CLOSE_TAG|..]);
      ([(content[..o], body[..c])] + rest.0, rest.1)
  }

  lemma FoundSplits(s: string, tag: string)
    requires Find(s, tag).Some? && tag != ""
    ensures var o := Find(s, tag).value; Find(s[..o], tag).None? && s == s[..o] + (tag + s[o + |tag|..])
  {
    hide Find;
    var o := Find(s, tag).value;
    BeforeFirstHasNoTag(s, tag, o);
    var found := s[o..];
    assert found == tag + found[|tag|..];
    assert found[|tag|..] == s[o + |tag|..];
  }

  lemma CutMore(first: (string, string), pieces: seq<(string, string)>)
    requires CutAtTags(pieces) && Find(first.0, OPEN_TAG).None? && Find(first.1, CLOSE_TAG).None?
    ensures CutAtTags([first] + pieces)
  {
    hide Find;
  }

  lemma BlocksMore(prose: string, body: string, pieces: seq<(string, string)>, tail: string)
    ensures Blocks([(prose, body)] + pieces, tail) == prose + (OPEN_TAG + (body + (CLOSE_TAG + Blocks(pieces, tail))))
  {
    assert ([(prose, body)] + pieces)[1..] == pieces;
  }

  /** Every content whatsoever consists of prose and blocks in this sense. */
  lemma {:induction false} PartsMakeContent(content: string)
    ensures var parts := Parts(content); Blocks(parts.0, parts.1) == content && CutAtTags(parts.0) && NoClosedBlock(parts.1)
    decreases |content|
  {
    if NoClosedBlock(content) {
    } else {
      var prose, body, rest := SplitAtBlock(content);
      hide *;
      PartsMakeContent(rest);
      PartsStep(prose, body, rest);
      CutMore((prose, body), Parts(rest).0);
      BlocksMore(prose, body, Parts(rest).0, Parts(rest).1);
    }
  }

  lemma SplitAtBlock(content: string) returns (prose: string, body: string, rest: string)
    requires !NoClosedBlock(content)
    ensures content == prose + (OPEN_TAG + (body + (CLOSE_TAG + rest)))
    ensures Find(prose, OPEN_TAG).None? && Find(body, CLOSE_TAG).None?
  {
    hide Find;
    FoundSplits(content, OPEN_TAG);
    var o := Find(content, OPEN_TAG).value;
    var behind := content[o + |OPEN_TAG|..];
    FoundSplits(behind, CLOSE_TAG);
    hide NoClosedBlock;
    var c := Find(behind, CLOSE_TAG).value;
    prose, body, rest := content[..o], behind[..c], behind[c + |CLOSE_TAG|..];
    assert behind == body + (CLOSE_TAG + rest);
  }

  lemma AroundTag(front: string, tag: string, behind: string)
    ensures var s := front + (tag + behind); s[..|front|] == front && s[|front| + |tag|..] == behind
  {
  }

  lemma PartsStep(prose: string, body: string, rest: string)
    requires Find(prose, OPEN_TAG).None? && Find(body, CLOSE_TAG).None?
    ensures Parts(prose + (OPEN_TAG + (body + (CLOSE_TAG + rest)))) == ([(prose, body)] + Parts(rest).0, Parts(rest).1)
  {
    hide Find;
    TagsAreShaped();
    hide TagShaped;
    var behind := body + (CLOSE_TAG + rest);
    var s := prose + (OPEN_TAG + behind);
    FirstTagAt(prose, OPEN_TAG, behind);
    FirstTagAt(body, CLOSE_TAG, rest);
    AroundTag(prose, OPEN_TAG, behind);
    AroundTag(body, CLOSE_TAG, rest);
  }

  /** And in no other way. */
  lemma {:induction false} ContentHasOneParts(pieces: seq<(string, string)>, tail: string)
    requires CutAtTags(pieces) && NoClosedBlock(tail)
    ensures Parts(Blocks(pieces, tail)) == (pieces, tail)
  {
    if pieces == [] {
      NothingToCut(tail);
    } else {
      FirstBlock(pieces, tail);
      hide *;
      ContentHasOneParts(pieces[1..], tail);
      PartsStep(pieces[0].0, pieces[0].1, Blocks(pieces[1..], tail));
      assert pieces == [(pieces[0].0, pieces[0].1)] + pieces[1..];
    }
  }

  lemma NothingToCut(tail: string)
    requires NoClosedBlock(tail)
    ensures Parts(Blocks([], tail)) == ([], tail)
  {
    hide NoClosedBlock;
  }

  lemma FirstBlock(pieces: seq<(string, string)>, tail: string)
    requires CutAtTags(pieces) && pieces != []
    ensures Blocks(pieces, tail) == pieces[0].0 + (OPEN_TAG + (pieces[0].1 + (CLOSE_TAG + Blocks(pieces[1..], tail))))
    ensures Find(pieces[0].0, OPEN_TAG).None? && Find(pieces[0].1, CLOSE_TAG).None? && CutAtTags(pieces[1..])
  {
    hide Find;
  }

  lemma FirstBlockGoes(prose: string, body: string, rest: string)
    requires Find(prose, OPEN_TAG).None? && Find(body, CLOSE_TAG).None?
    ensures RemoveClosed(prose + (OPEN_TAG + (body + (CLOSE_TAG + rest)))) == TrimEnd(prose) + RemoveClosed(rest)
  {
    hide *;
    TagsAreShaped();
    var behind := body + (CLOSE_TAG + rest);
    var s := prose + (OPEN_TAG + behind);
    FirstTagAt(prose, OPEN_TAG, behind);
    FirstTagAt(body, CLOSE_TAG, rest);
    AroundTag(prose, OPEN_TAG, behind);
    AroundTag(body, CLOSE_TAG, rest);
    RemovesFirst(s, |prose|, |body|);
  }

  lemma RemovesFirst(s: string, o: nat, c: nat)
    requires Find(s, OPEN_TAG) == Some(o) && Find(s[o + |OPEN_TAG|..], CLOSE_TAG) == Some(c)
    ensures RemoveClosed(s) == TrimEnd(s[..o]) + RemoveClosed(s[o + |OPEN_TAG|..][c + |CLOSE_TAG|..])
  {
    hide Find, TrimEnd;
  }

  lemma {:induction false} BlocksGo(pieces: seq<(string, string)>, tail: string)
    requires CutAtTags(pieces) && NoClosedBlock(tail)
    ensures RemoveClosed(Blocks(pieces, tail)) == Joined(pieces, tail)
  {
    if pieces != [] {
      BlocksGo(pieces[1..], tail);
      FirstBlockGoes(pieces[0].0, pieces[0].1, Blocks(pieces[1..], tail));
    }
  }

  /** What any content shows, by the prose and the blocks it consists of. */
  lemma BlocksShow(pieces: seq<(string, string)>, tail: string)
    requires CutAtTags(pieces) && NoClosedBlock(tail)
    ensures StripBuilderDraft(Blocks(pieces, tail)) == Visible(pieces, tail)
  {
    BlocksGo(pieces, tail);
  }

  lemma {:induction false} JoinedIsPrefixed(pieces: seq<(string, string)>, tail: string)
    ensures Joined(pieces, tail) == Joined(pieces, "") + tail
  {
    if pieces != [] {
      JoinedIsPrefixed(pieces[1..], tail);
    }
  }

  lemma {:induction false} FindInFront(s: string, tag: string, t: string)
    requires Find(s, tag).Some?
    ensures Find(s + t, tag) == Find(s, tag)
  {
    if tag <= s {
      assert tag <= s + t;
    } else {
      assert (s + t)[..|tag|] == s[..|tag|];
      assert (s + t)[1..] == s[1..] + t;
      FindInFront(s[1..], tag, t);
      if tag != "" {
        FindStep(s, tag);
        FindStep(s + t, tag);
        hide Find;
      }
    }
  }

  /** A block still open shows nothing: what is visible is as if only the prose in front of it had come. */
  lemma OpenBlockShowsNothing(pieces: seq<(string, string)>, prose: string, r: string)
    ensures Visible(pieces, prose + (OPEN_TAG + r)) == Visible(pieces, prose)
  {
    hide Find, TrimEnd, TrimStart;
    JoinedIsPrefixed(pieces, prose);
    JoinedIsPrefixed(pieces, prose + (OPEN_TAG + r));
    var front := Joined(pieces, prose);
    assert Joined(pieces, prose + (OPEN_TAG + r)) == front + (OPEN_TAG + r);
    CutBehind(front, r);
  }

  lemma CutBehind(front: string, r: string)
    ensures Trim(CutOpen(front + (OPEN_TAG + r))) == Trim(CutOpen(front))
  {
    hide Find, TrimEnd, TrimStart;
    var s := front + (OPEN_TAG + r);
    if Find(front, OPEN_TAG).Some? {
      FindInFront(front, OPEN_TAG, OPEN_TAG + r);
      assert s[..Find(front, OPEN_TAG).value] == front[..Find(front, OPEN_TAG).value];
    } else {
      TagsAreShaped();
      FirstTagAt(front, OPEN_TAG, r);
      assert s[..|front|] == front;
      TrimOfTrimEnd(front);
    }
  }

  /** Every moment of a reply of several blocks lies behind some whole blocks, in the next block or in what follows all. */
  lemma {:induction false} MomentOfBlocks(pieces: seq<(string, string)>, tail: string, n: nat) returns (k: nat, m: nat)
    requires n <= |Blocks(pieces, tail)|
    ensures k <= |pieces|
    ensures k < |pieces| ==> m < |Reply(pieces[k].0, pieces[k].1)|
                             && Blocks(pieces, tail)[..n] == Blocks(pieces[..k], Reply(pieces[k].0, pieces[k].1)[..m])
    ensures k == |pieces| ==> m <= |tail| && Blocks(pieces, tail)[..n] == Blocks(pieces[..k], tail[..m])
  {
    if pieces == [] {
      k, m := 0, n;
    } else {
      var reply, rest := Reply(pieces[0].0, pieces[0].1), Blocks(pieces[1..], tail);
      var s := Blocks(pieces, tail);
      assert s == reply + rest;
      if n < |reply| {
        k, m := 0, n;
        assert s[..n] == reply[..m] && pieces[..0] == [];
      } else {
        var j: nat;
        j, m := MomentOfBlocks(pieces[1..], tail, n - |reply|);
        k := j + 1;
        assert s[..n] == reply + rest[..n - |reply|];
        var part := if k < |pieces| then Reply(pieces[k].0, pieces[k].1)[..m] else tail[..m];
        OneMoreBlock(pieces, k, part);
      }
    }
  }

  lemma OneMoreBlock(pieces: seq<(string, string)>, k: nat, part: string)
    requires 0 < k <= |pieces|
    ensures Blocks(pieces[..k], part) == Reply(pieces[0].0, pieces[0].1) + Blocks(pieces[1..][..k - 1], part)
  {
    assert pieces[..k][1..] == pieces[1..][..k - 1];
  }

  /**
   Every moment of streaming any number of blocks: up to the end of the next opening tag the reader sees the joined
   prose with what has arrived, a begun tag included, and inside the block the joined prose alone.
   */
  lemma BlocksStreamShows(pieces: seq<(string, string)>, prose: string, body: string, m: nat)
    requires CutAtTags(pieces) && Find(prose, OPEN_TAG).None? && Find(body, CLOSE_TAG).None? && m < |Reply(prose, body)|
    ensures StripBuilderDraft(Blocks(pieces, Reply(prose, body)[..m]))
         == Visible(pieces, if m < |prose| + |OPEN_TAG| then Reply(prose, body)[..m] else prose)
  {
    hide StripBuilderDraft, Find, Visible, Joined, Blocks, CutAtTags;
    var reply, block := Reply(prose, body), body + CLOSE_TAG;
    TagsAreShaped();
    FirstTagAt(prose, OPEN_TAG, block);
    if m < |prose| + |OPEN_TAG| {
      BeforeFirstHasNoTag(reply, OPEN_TAG, m);
      BlocksShow(pieces, reply[..m]);
    } else {
      var part := block[..m - |prose| - |OPEN_TAG|];
      PartialCloseIsOpen(body, |part|);
      FirstTagAt(prose, OPEN_TAG, part);
      assert reply[..m] == prose + (OPEN_TAG + part);
      assert reply[..m][|prose| + |OPEN_TAG|..] == part;
      BlocksShow(pieces, reply[..m]);
      OpenBlockShowsNothing(pieces, prose, part);
    }
  }

  lemma {:induction false} TrimEndKeeps(s: string, t: string)
    requires s != "" && !IsSpace(s[|s| - 1])
    ensures |TrimEnd(s + t)| >= |s|
  {
    if t == "" {
      assert s + t == s;
    } else if IsSpace(t[|t| - 1]) {
      assert (s + t)[..|s + t| - 1] == s + t[..|t| - 1];
      TrimEndKeeps(s, t[..|t| - 1]);
    }
  }

  lemma TaggedIsLonger(front: string, r: string)
    ensures |Trim(front + (OPEN_TAG + r))| > |Trim(front)|
  {
    TagHasNoSpace(0);
    TagHasNoSpace(|OPEN_TAG| - 1);
    hide IsSpace, TrimEnd, TrimStart;
    TrimStartConcat(front, OPEN_TAG + r);
    var t := TrimStart(front) + OPEN_TAG;
    assert t + r == TrimStart(front) + (OPEN_TAG + r);
    assert t[|t| - 1] == OPEN_TAG[|OPEN_TAG| - 1];
    TrimEndKeeps(t, r);
  }

  /** All the prose of all the pieces shows exactly when they do not join into an opening tag. */
  lemma AllProseShowsIff(pieces: seq<(string, string)>, tail: string)
    requires CutAtTags(pieces) && NoClosedBlock(tail)
    ensures StripBuilderDraft(Blocks(pieces, tail)) == Trim(Joined(pieces, tail))
            <==> Find(Joined(pieces, tail), OPEN_TAG).None?
  {
    hide CutAtTags, NoClosedBlock, StripBuilderDraft, Blocks, Joined, Find, TrimEnd, TrimStart;
    BlocksShow(pieces, tail);
    var s := Joined(pieces, tail);
    var o := Find(s, OPEN_TAG);
    if o.Some? {
      var front, r := s[..o.value], s[o.value + |OPEN_TAG|..];
      FoundSplits(s, OPEN_TAG);
      TrimOfTrimEnd(front);
      TaggedIsLonger(front, r);
    }
  }

  /** Two pieces of prose around a block join into an opening tag, and everything behind it is hidden. */
  lemma JoinedTagHides()
    ensures var pieces := [("<agent_", "{}")];
            && CutAtTags(pieces) && Find("draft> more", OPEN_TAG).None?
            && StripBuilderDraft(Blocks(pieces, "draft> more")) == ""
  {
    var pieces := [("<agent_", "{}")];
    NoTagsInPieces();
    BlocksShow(pieces, "draft> more");
    JoinedTagIsFirst();
  }

  lemma NoTagsInPieces()
    ensures Find("<agent_", OPEN_TAG).None? && Find("{}", CLOSE_TAG).None? && Find("draft> more", OPEN_TAG).None?
  {
  }

  lemma TagFirstHidesAll(s: string, r: string)
    requires s == OPEN_TAG + r
    ensures Trim(CutOpen(s)) == ""
  {
    FindStep(s, OPEN_TAG);
    assert s[..0] == [];
    assert CutOpen(s) == [];
  }

  lemma JoinedTagIsFirst()
    ensures Visible([("<agent_", "{}")], "draft> more") == ""
  {
    assert !IsSpace('_') && TrimEnd("<agent_") == "<agent_";
    assert [("<agent_", "{}")][1..] == [];
    assert Joined([], "draft> more") == "draft> more";
    var s := Joined([("<agent_", "{}")], "draft> more");
    assert s == "<agent_" + "draft> more";
    TagFirstHidesAll(s, " more");
  }
}
