/**
 What the decoder of the builder block makes of a JSON text, by the grammar of strings (section 7 of RFC 8259): plain
 characters, two-character escapes and four hexadecimal digits, as UTF-16 code units, and nothing else.
 */
module JsonStrings {
  import opened Wrappers
  import opened BuilderProtocol

  /** One piece of a string as it is written. */
  datatype Piece = Plain(c: char) | Short(letter: char) | Unicode(digits: string)

  function Spelled(p: Piece): string {
    match p
    case Plain(c) => [c]
    case Short(letter) => ['\\', letter]
    case Unicode(digits) => ['\\', 'u'] + digits
  }

  /** The two-character escapes, by their code units. */
  const SHORT_ESCAPES: map<char, int> :=
    map['"' := 0x22, '\\' := 0x5C, '/' := 0x2F, 'b' := 0x08, 'f' := 0x0C, 'n' := 0x0A, 'r' := 0x0D, 't' := 0x09]

  ghost predicate IsDigit(c: char, value: int) {
    0 <= value < 16 && (c == "0123456789abcdef"[value] || c == "0123456789ABCDEF"[value])
  }

  /** The code units that a character is encoded as. */
  ghost predicate Encodes(units: seq<int>, c: char) {
    if (c as int) < 0x10000 then units == [c as int]
    else
      && |units| == 2 && 0xD800 <= units[0] < 0xDC00 && 0xDC00 <= units[1] < 0xE000
      && c as int == 0x10000 + 0x400 * (units[0] - 0xD800) + (units[1] - 0xDC00)
  }

  /** The piece may be written, and stands for these units; lenient reading lets in the three raw control characters. */
  ghost predicate Means(p: Piece, lenient: bool, units: seq<int>) {
    match p
    case Plain(c) => c !in {'"', '\\'} && (c as int >= 0x20 || (lenient && c as int in {0x09, 0x0A, 0x0D})) && Encodes(units, c)
    case Short(letter) => letter in SHORT_ESCAPES && units == [SHORT_ESCAPES[letter]]
    case Unicode(digits) =>
      |digits| == 4
      && exists a, b, c, d :: && IsDigit(digits[0], a) && IsDigit(digits[1], b) && IsDigit(digits[2], c) && IsDigit(digits[3], d)
                              && units == [0x1000 * a + 0x100 * b + 0x10 * c + d]
  }

  lemma DigitIs(c: char, value: int)
    ensures IsDigit(c, value) <==> HexDigit(c) == Some(value)
  {
  }

  lemma EncodedUnits(c: char, units: seq<int>)
    ensures Encodes(units, c) <==> units == Units(c)
  {
  }

  lemma FourDigits(s: string, a: int, b: int, c: int, d: int)
    requires |s| >= 4 && HexDigit(s[0]) == Some(a) && HexDigit(s[1]) == Some(b) && HexDigit(s[2]) == Some(c) && HexDigit(s[3]) == Some(d)
    ensures Hex(s, 4, 0) == Some(0x1000 * a + 0x100 * b + 0x10 * c + d)
  {
    hide HexDigit;
    assert Hex(s, 4, 0) == Hex(s[1..], 3, a);
    assert s[1..][0] == s[1] && s[1..][1..] == s[2..];
    assert Hex(s[1..], 3, a) == Hex(s[2..], 2, 16 * a + b);
    assert s[2..][0] == s[2] && s[2..][1..] == s[3..];
    assert Hex(s[2..], 2, 16 * a + b) == Hex(s[3..], 1, 256 * a + 16 * b + c);
    assert s[3..][0] == s[3];
    assert Hex(s[3..], 1, 256 * a + 16 * b + c) == Hex(s[3..][1..], 0, 4096 * a + 256 * b + 16 * c + d);
  }

  /** Each piece adds its units to the string that is open, whatever follows. */
  lemma PieceDecodes(p: Piece, lenient: bool, units: seq<int>, rest: string, open: seq<int>)
    requires Means(p, lenient, units)
    ensures Decode(Spelled(p) + rest, lenient, Some(open)) == Decode(rest, lenient, Some(open + units))
  {
    match p {
      case Plain(c) =>
        EncodedUnits(c, units);
        assert ([c] + rest)[1..] == rest;
        hide Units;
      case Short(letter) =>
        assert (['\\', letter] + rest)[1..] == [letter] + rest && ([letter] + rest)[1..] == rest;
      case Unicode(digits) => DigitsDecode(digits, lenient, units, rest, open);
    }
  }

  lemma DigitsDecode(digits: string, lenient: bool, units: seq<int>, rest: string, open: seq<int>)
    requires Means(Unicode(digits), lenient, units)
    ensures Decode(Spelled(Unicode(digits)) + rest, lenient, Some(open)) == Decode(rest, lenient, Some(open + units))
  {
    var a, b, c, d :| && IsDigit(digits[0], a) && IsDigit(digits[1], b) && IsDigit(digits[2], c) && IsDigit(digits[3], d)
                      && units == [0x1000 * a + 0x100 * b + 0x10 * c + d];
    hide IsDigit, HexDigit, Hex, Decode;
    DigitIs(digits[0], a); DigitIs(digits[1], b); DigitIs(digits[2], c); DigitIs(digits[3], d);
    FourDigits(digits + rest, a, b, c, d);
    UnicodeDecodes(digits, 0x1000 * a + 0x100 * b + 0x10 * c + d, rest, lenient, open);
  }

  lemma UnicodeDecodes(digits: string, unit: int, rest: string, lenient: bool, open: seq<int>)
    requires |digits| == 4 && Hex(digits + rest, 4, 0) == Some(unit)
    ensures Decode(['\\', 'u'] + digits + rest, lenient, Some(open)) == Decode(rest, lenient, Some(open + [unit]))
  {
    var s := ['\\', 'u'] + digits + rest;
    assert s[1..] == ['u'] + (digits + rest) && s[1..][1..] == digits + rest && s[1..][1..][4..] == rest;
    hide Hex;
  }

  /** A quotation mark opens a string or ends it, and any other character outside strings stands for itself. */
  lemma MarksDecode(c: char, rest: string, lenient: bool, units: seq<int>)
    ensures Decode("\"" + rest, lenient, None) == Decode(rest, lenient, Some([]))
    ensures var after := Decode(rest, lenient, None);
            var ended := Decode("\"" + rest, lenient, Some(units));
            && (after.None? <==> ended.None?) && (after.Some? ==> ended.value == [Str(units)] + after.value)
    ensures c != '"' ==>
              var after := Decode(rest, lenient, None);
              var all := Decode([c] + rest, lenient, None);
              && (after.None? <==> all.None?) && (after.Some? ==> all.value == [Punct(c)] + after.value)
    ensures Decode("", lenient, None) == Some([]) && Decode("", lenient, Some(units)).None?
  {
    assert ("\"" + rest)[1..] == rest && ([c] + rest)[1..] == rest;
  }

  ghost function SpelledAll(pieces: seq<(Piece, seq<int>)>): string {
    if pieces == [] then "" else Spelled(pieces[0].0) + SpelledAll(pieces[1..])
  }

  ghost function UnitsOf(pieces: seq<(Piece, seq<int>)>): seq<int> {
    if pieces == [] then [] else pieces[0].1 + UnitsOf(pieces[1..])
  }

  lemma {:induction false} PiecesDecode(pieces: seq<(Piece, seq<int>)>, lenient: bool, rest: string, open: seq<int>)
    requires forall x :: x in pieces ==> Means(x.0, lenient, x.1)
    ensures Decode(SpelledAll(pieces) + rest, lenient, Some(open)) == Decode(rest, lenient, Some(open + UnitsOf(pieces)))
  {
    hide Decode, Means, Spelled;
    if pieces == [] {
      assert "" + rest == rest && open + [] == open;
    } else {
      var (p, units) := pieces[0];
      assert pieces[0] in pieces;
      PieceDecodes(p, lenient, units, SpelledAll(pieces[1..]) + rest, open);
      PiecesDecode(pieces[1..], lenient, rest, open + units);
      assert Spelled(p) + (SpelledAll(pieces[1..]) + rest) == SpelledAll(pieces) + rest;
      assert open + units + UnitsOf(pieces[1..]) == open + UnitsOf(pieces);
    }
  }

  /** A written string decodes to exactly the units of its pieces, and decoding goes on behind it. */
  lemma StringsDecode(pieces: seq<(Piece, seq<int>)>, lenient: bool, rest: string)
    requires forall x :: x in pieces ==> Means(x.0, lenient, x.1)
    ensures var after, all := Decode(rest, lenient, None), Decode("\"" + (SpelledAll(pieces) + ("\"" + rest)), lenient, None);
            && (after.None? <==> all.None?) && (after.Some? ==> all.value == [Str(UnitsOf(pieces))] + after.value)
  {
    MarksDecode(' ', SpelledAll(pieces) + ("\"" + rest), lenient, []);
    MarksDecode(' ', rest, lenient, UnitsOf(pieces));
    PiecesDecode(pieces, lenient, "\"" + rest, []);
    assert [] + UnitsOf(pieces) == UnitsOf(pieces);
    hide Decode;
  }

  /** Nothing else is let in: what an open string goes on with is its end or a piece that may be written. */
  lemma OnlyPiecesDecode(s: string, lenient: bool, open: seq<int>)
    requires Decode(s, lenient, Some(open)).Some?
    ensures s != "" && (s[0] == '"' || exists p, units :: Spelled(p) <= s && Means(p, lenient, units))
  {
    if s[0] != '"' {
      if s[0] != '\\' {
        EncodedUnits(s[0], Units(s[0]));
        assert Spelled(Plain(s[0])) <= s && Means(Plain(s[0]), lenient, Units(s[0]));
      } else if s[1..] != "" && s[1] != 'u' {
        assert Spelled(Short(s[1])) <= s && Means(Short(s[1]), lenient, [SHORT_ESCAPES[s[1]]]);
      } else {
        UnicodeIsPiece(s, lenient, open);
      }
    }
  }

  lemma UnicodeIsPiece(s: string, lenient: bool, open: seq<int>)
    requires Decode(s, lenient, Some(open)).Some? && |s| >= 1 && s[0] == '\\' && (|s| > 1 ==> s[1] == 'u')
    ensures exists p, units :: Spelled(p) <= s && Means(p, lenient, units)
  {
    hide *;
    HexIsRead(s, lenient, open);
    var digits := s[1..][1..];
    DigitsThere(digits);
    FourAreUnicode(digits, lenient);
    SpelledDigits(s, digits);
  }

  lemma SpelledDigits(s: string, digits: string)
    requires |s| > 1 && s[0] == '\\' && s[1] == 'u' && digits == s[1..][1..] && |digits| >= 4
    ensures Spelled(Unicode(digits[..4])) <= s
  {
    assert s[..6] == ['\\', 'u'] + digits[..4];
  }

  lemma FourAreUnicode(s: string, lenient: bool)
    requires |s| >= 4 && HexDigit(s[0]).Some? && HexDigit(s[1]).Some? && HexDigit(s[2]).Some? && HexDigit(s[3]).Some?
    ensures exists units :: Means(Unicode(s[..4]), lenient, units)
  {
    var a, b, c, d := HexDigit(s[0]).value, HexDigit(s[1]).value, HexDigit(s[2]).value, HexDigit(s[3]).value;
    DigitIs(s[0], a); DigitIs(s[1], b); DigitIs(s[2], c); DigitIs(s[3], d);
    hide IsDigit, HexDigit;
    assert Means(Unicode(s[..4]), lenient, [0x1000 * a + 0x100 * b + 0x10 * c + d]);
  }

  lemma HexIsRead(s: string, lenient: bool, open: seq<int>)
    requires Decode(s, lenient, Some(open)).Some? && |s| >= 1 && s[0] == '\\' && (|s| > 1 ==> s[1] == 'u')
    ensures |s| > 1 && Hex(s[1..][1..], 4, 0).Some?
  {
    hide Hex;
  }

  lemma DigitsThere(s: string)
    ensures Hex(s, 4, 0).Some? ==> |s| >= 4 && HexDigit(s[0]).Some? && HexDigit(s[1]).Some? && HexDigit(s[2]).Some? && HexDigit(s[3]).Some?
  {
    hide HexDigit;
    if |s| >= 4 {
      assert s[1..][0] == s[1] && s[1..][1..] == s[2..] && s[2..][0] == s[2] && s[2..][1..] == s[3..] && s[3..][0] == s[3];
      if HexDigit(s[0]).Some? && HexDigit(s[1]).Some? && HexDigit(s[2]).Some? {
        var a, b, c := HexDigit(s[0]).value, HexDigit(s[1]).value, HexDigit(s[2]).value;
        assert Hex(s, 4, 0) == Hex(s[1..], 3, a);
        assert Hex(s[1..], 3, a) == Hex(s[2..], 2, 16 * a + b);
        assert Hex(s[2..], 2, 16 * a + b) == Hex(s[3..], 1, 16 * (16 * a + b) + c);
      }
    }
  }
}
