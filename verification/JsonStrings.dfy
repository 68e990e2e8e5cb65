/** Strings: the scanner takes exactly those of the grammar, and get_string decodes them (section 7 of RFC 7159). */
module JsonStrings {
  import opened Basics
  import opened JsonLexers

  /** A character as it is, an escape of two characters, or \u and four hexadecimal digits of either case. */
  datatype Piece = Plain(c: char) | Short(e: char) | Unit(u: nat, upper: seq<bool>)

  /** What the two-character escapes stand for. */
  const SHORTS: map<char, char> := map[
    0x22 as char := 0x22 as char, 0x5c as char := 0x5c as char, '/' := '/',
    'b' := 0x08 as char, 'f' := 0x0c as char, 'n' := 0x0a as char, 'r' := 0x0d as char, 't' := 0x09 as char]

  predicate IsPiece(p: Piece) {
    match p
    case Plain(c) => 0x20 as char <= c && c != 0x22 as char && c != 0x5c as char
    case Short(e) => e in SHORTS
    case Unit(u, upper) => u < 0x10000 && |upper| == 4
  }

  ghost predicate AllPieces(ps: seq<Piece>) {
    forall i :: 0 <= i < |ps| ==> IsPiece(ps[i])
  }

  function HexChar(d: nat, upper: bool): char
    requires d < 16
  {
    (if upper then "0123456789ABCDEF" else "0123456789abcdef")[d]
  }

  function Spelled(p: Piece): (s: string)
    requires IsPiece(p)
    ensures s != ""
  {
    match p
    case Plain(c) => [c]
    case Short(e) => [0x5c as char, e]
    case Unit(u, upper) =>
      [0x5c as char, 'u', HexChar(u / 0x1000, upper[0]), HexChar(u / 0x100 % 0x10, upper[1]),
       HexChar(u / 0x10 % 0x10, upper[2]), HexChar(u % 0x10, upper[3])]
  }

  ghost function Spelling(ps: seq<Piece>): string
    requires AllPieces(ps)
  {
    if ps == [] then "" else Spelled(ps[0]) + Spelling(ps[1..])
  }

  predicate IsHigh(u: nat) {
    0xD800 <= u < 0xDC00
  }

  predicate IsLow(u: nat) {
    0xDC00 <= u < 0xE000
  }

  /** The bytes that the pieces stand for; a high surrogate without a low one behind it stands for nothing. */
  ghost function Decoded(ps: seq<Piece>): (r: Result<string>)
    requires AllPieces(ps)
    decreases |ps|
  {
    if ps == [] then Ok("") else
    match ps[0]
    case Plain(c) => Prefixed([c], Decoded(ps[1..]))
    case Short(e) => Prefixed([SHORTS[e]], Decoded(ps[1..]))
    case Unit(u, _) =>
      if !IsHigh(u) then Prefixed(Utf8(u), Decoded(ps[1..]))
      else if |ps| > 1 && ps[1].Unit? && IsLow(ps[1].u) then
        Prefixed(Utf8(0x10000 + (u - 0xD800) * 0x400 + (ps[1].u - 0xDC00)), Decoded(ps[2..]))
      else Err(Invalid)
  }

  // ----- The scanner -----

  lemma HexCharIs(d: nat, upper: bool)
    requires d < 16
    ensures IsHex(HexChar(d, upper)) && HexValue(HexChar(d, upper)) == d
  {
  }

  lemma HexDigits(u: nat)
    requires u < 0x10000
    ensures u == 0x1000 * (u / 0x1000) + 0x100 * (u / 0x100 % 0x10) + 0x10 * (u / 0x10 % 0x10) + u % 0x10
    ensures u / 0x1000 < 16
  {
    assert u / 0x100 == 0x10 * (u / 0x1000) + u / 0x100 % 0x10;
    assert u / 0x10 == 0x10 * (u / 0x100) + u / 0x10 % 0x10;
  }

  /** Four digits of either case are read as their number. */
  lemma UnitRead(text: string, p: nat, q: Piece)
    requires q.Unit? && IsPiece(q) && Spells(text, p, Spelled(q))
    ensures Peek(text, p) == BACKSLASH && Peek(text, p + 1) == 'u' && p + 6 <= |text|
    ensures IsHex(Peek(text, p + 2)) && IsHex(Peek(text, p + 3)) && IsHex(Peek(text, p + 4)) && IsHex(Peek(text, p + 5))
    ensures Hex4(text, p + 2) == q.u
  {
    hide Spells, HexChar, HexValue, IsHex;
    var s, u := Spelled(q), q.u;
    HexDigits(u);
    HexCharIs(u / 0x1000, q.upper[0]);
    HexCharIs(u / 0x100 % 0x10, q.upper[1]);
    HexCharIs(u / 0x10 % 0x10, q.upper[2]);
    HexCharIs(u % 0x10, q.upper[3]);
    SpellsAt(text, p, s, 0);
    SpellsAt(text, p, s, 1);
    SpellsAt(text, p, s, 2);
    SpellsAt(text, p, s, 3);
    SpellsAt(text, p, s, 4);
    SpellsAt(text, p, s, 5);
  }

  lemma PieceScanned(text: string, p: nat, q: Piece)
    requires IsPiece(q) && Spells(text, p, Spelled(q))
    ensures StringEnd(text, p) == StringEnd(text, p + |Spelled(q)|)
  {
    hide Spells, IsHex;
    match q
    case Plain(c) => SpellsAt(text, p, [c], 0);
    case Short(e) =>
      SpellsAt(text, p, Spelled(q), 0);
      SpellsAt(text, p, Spelled(q), 1);
    case Unit(_, _) => UnitRead(text, p, q);
  }

  lemma SpellingFirst(text: string, p: nat, ps: seq<Piece>)
    requires AllPieces(ps) && ps != [] && Spells(text, p, Spelling(ps) + [QUOTE])
    ensures Spells(text, p, Spelled(ps[0])) && Spells(text, p + |Spelled(ps[0])|, Spelling(ps[1..]) + [QUOTE])
  {
    hide Spells, Spelled;
    var a, b := Spelled(ps[0]), Spelling(ps[1..]);
    assert Spelling(ps) + [QUOTE] == a + (b + [QUOTE]);
    SpellsParts(text, p, a, b + [QUOTE]);
  }

  /** The string states take the whole string, up to its closing quote. */
  lemma {:induction false} StringScanned(text: string, p: nat, ps: seq<Piece>)
    requires AllPieces(ps) && Spells(text, p, Spelling(ps) + [QUOTE])
    ensures StringEnd(text, p) == Some(p + |Spelling(ps)| + 1)
    decreases |ps|
  {
    hide Spells, StringEnd, Spelled, IsPiece;
    if ps == [] {
      assert Spelling(ps) + [QUOTE] == [QUOTE];
      ClosingQuote(text, p);
    } else {
      SpellingFirst(text, p, ps);
      PieceScanned(text, p, ps[0]);
      StringScanned(text, p + |Spelled(ps[0])|, ps[1..]);
    }
  }

  lemma ClosingQuote(text: string, p: nat)
    requires Spells(text, p, [QUOTE])
    ensures StringEnd(text, p) == Some(p + 1)
  {
    SpellsAt(text, p, [QUOTE], 0);
  }

  /** get_string decodes it. */
  lemma {:induction false} StringRead(text: string, p: nat, ps: seq<Piece>, end: nat)
    requires AllPieces(ps) && Spells(text, p, Spelling(ps) + [QUOTE]) && end == p + |Spelling(ps)|
    ensures GetString(text, p, end) == Decoded(ps)
    decreases |ps|
  {
    hide Spells, GetString, Spelled, Utf8, Prefixed, Spelling;
    SpellingIs(ps);
    if ps == [] {
      NothingRead(text, p);
    } else {
      SpellingFirst(text, p, ps);
      match ps[0]
      case Plain(_) =>
        PlainRead(text, p, ps[0], end);
        StringRead(text, p + |Spelled(ps[0])|, ps[1..], end);
      case Short(_) =>
        ShortRead(text, p, ps[0], end);
        StringRead(text, p + |Spelled(ps[0])|, ps[1..], end);
      case Unit(u, _) =>
        if !IsHigh(u) {
          OneUnit(text, p, ps[0], end);
          StringRead(text, p + |Spelled(ps[0])|, ps[1..], end);
        } else {
          PairRead(text, p, ps, end);
          if |ps| > 1 && ps[1].Unit? && IsLow(ps[1].u) {
            SpellingIs(ps[1..]);
            SpellingFirst(text, p + |Spelled(ps[0])|, ps[1..]);
            assert ps[1..][1..] == ps[2..];
            StringRead(text, p + |Spelled(ps[0])| + |Spelled(ps[1])|, ps[2..], end);
          }
        }
    }
  }

  lemma SpellingIs(ps: seq<Piece>)
    requires AllPieces(ps)
    ensures |Spelling(ps)| == if ps == [] then 0 else |Spelled(ps[0])| + |Spelling(ps[1..])|
  {
    hide Spelled;
  }

  lemma NothingRead(text: string, p: nat)
    ensures GetString(text, p, p) == Ok("")
  {
  }

  lemma PlainRead(text: string, p: nat, q: Piece, end: nat)
    requires q.Plain? && IsPiece(q) && Spells(text, p, Spelled(q)) && p + |Spelled(q)| <= end
    ensures GetString(text, p, end) == Prefixed([q.c], GetString(text, p + |Spelled(q)|, end))
  {
    hide Prefixed;
    SpellsAt(text, p, Spelled(q), 0);
  }

  lemma ShortRead(text: string, p: nat, q: Piece, end: nat)
    requires q.Short? && IsPiece(q) && Spells(text, p, Spelled(q)) && p + |Spelled(q)| <= end
    ensures GetString(text, p, end) == Prefixed([SHORTS[q.e]], GetString(text, p + |Spelled(q)|, end))
  {
    hide Prefixed;
    SpellsAt(text, p, Spelled(q), 0);
    SpellsAt(text, p, Spelled(q), 1);
  }

  lemma OneUnit(text: string, p: nat, q: Piece, end: nat)
    requires q.Unit? && IsPiece(q) && !IsHigh(q.u) && Spells(text, p, Spelled(q)) && p + |Spelled(q)| <= end
    ensures GetString(text, p, end) == Prefixed(Utf8(q.u), GetString(text, p + |Spelled(q)|, end))
  {
    hide Prefixed, Utf8, Hex4, Spells;
    UnitRead(text, p, q);
  }

  /** A high surrogate is read together with the low one behind it, or refused. */
  lemma PairRead(text: string, p: nat, ps: seq<Piece>, end: nat)
    requires AllPieces(ps) && ps != [] && ps[0].Unit? && IsHigh(ps[0].u)
    requires Spells(text, p, Spelling(ps) + [QUOTE]) && end == p + |Spelling(ps)|
    ensures if |ps| > 1 && ps[1].Unit? && IsLow(ps[1].u) then
        var c := 0x10000 + (ps[0].u - 0xD800) * 0x400 + (ps[1].u - 0xDC00);
        GetString(text, p, end) == Prefixed(Utf8(c), GetString(text, p + |Spelled(ps[0])| + |Spelled(ps[1])|, end))
      else GetString(text, p, end) == Err(Invalid)
  {
    hide Prefixed, Utf8, Hex4, Spells, Spelling;
    SpellingIs(ps);
    SpellingFirst(text, p, ps);
    UnitRead(text, p, ps[0]);
    SecondUnit(text, p + 6, ps[1..]);
  }

  lemma NotUnit(text: string, p: nat, q: Piece)
    requires IsPiece(q) && !q.Unit? && Spells(text, p, Spelled(q))
    ensures Peek(text, p) != BACKSLASH || Peek(text, p + 1) != 'u'
  {
    hide Spells;
    if q.Plain? {
      SpellsAt(text, p, Spelled(q), 0);
    } else {
      SpellsAt(text, p, Spelled(q), 1);
    }
  }

  /** Behind a unit there is another one only if the next piece is a unit. */
  lemma SecondUnit(text: string, p: nat, ps: seq<Piece>)
    requires AllPieces(ps) && Spells(text, p, Spelling(ps) + [QUOTE])
    ensures if ps != [] && ps[0].Unit? then
        Peek(text, p) == BACKSLASH && Peek(text, p + 1) == 'u' && Hex4(text, p + 2) == ps[0].u
      else Peek(text, p) != BACKSLASH || Peek(text, p + 1) != 'u'
  {
    hide Spells, Hex4, Spelling, Spelled, HexChar;
    if ps == [] {
      NoPieces();
      SpellsAt(text, p, [QUOTE], 0);
    } else {
      SpellingFirst(text, p, ps);
      if ps[0].Unit? {
        UnitRead(text, p, ps[0]);
      } else {
        NotUnit(text, p, ps[0]);
      }
    }
  }

  // ----- What the scanner takes is a string of the grammar -----

  function HexOf(c: char): (r: (nat, bool))
    requires IsHex(c)
    ensures r.0 < 16 && HexChar(r.0, r.1) == c
  {
    (HexValue(c), 'A' <= c <= 'F')
  }

  lemma FirstPiece(text: string, p: nat) returns (q: Piece)
    requires StringEnd(text, p).Some? && p < |text| && text[p] != QUOTE
    ensures IsPiece(q) && Spells(text, p, Spelled(q)) && StringEnd(text, p) == StringEnd(text, p + |Spelled(q)|)
  {
    var c := text[p];
    if c != BACKSLASH {
      q := Plain(c);
      assert text[p..p + 1] == [c];
    } else if Peek(text, p + 1) != 'u' {
      q := Short(text[p + 1]);
      assert text[p..p + 2] == [c, text[p + 1]];
    } else {
      q := FirstUnit(text, p);
    }
  }

  lemma FirstUnit(text: string, p: nat) returns (q: Piece)
    requires p + 6 <= |text| && text[p] == BACKSLASH && text[p + 1] == 'u'
    requires IsHex(text[p + 2]) && IsHex(text[p + 3]) && IsHex(text[p + 4]) && IsHex(text[p + 5])
    ensures q.Unit? && IsPiece(q) && Spells(text, p, Spelled(q))
  {
    hide IsHex, HexChar;
    var a, b, c, d := HexOf(text[p + 2]), HexOf(text[p + 3]), HexOf(text[p + 4]), HexOf(text[p + 5]);
    q := Unit(0x1000 * a.0 + 0x100 * b.0 + 0x10 * c.0 + d.0, [a.1, b.1, c.1, d.1]);
    HexParts(a.0, b.0, c.0, d.0);
    assert text[p..p + 6] == Spelled(q);
  }

  lemma HexParts(a: nat, b: nat, c: nat, d: nat)
    requires a < 16 && b < 16 && c < 16 && d < 16
    ensures var u := 0x1000 * a + 0x100 * b + 0x10 * c + d;
      u < 0x10000 && u / 0x1000 == a && u / 0x100 % 0x10 == b && u / 0x10 % 0x10 == c && u % 0x10 == d
  {
    var u := 0x1000 * a + 0x100 * b + 0x10 * c + d;
    assert u / 0x10 == 0x100 * a + 0x10 * b + c;
    assert u / 0x100 == 0x10 * a + b;
  }

  lemma StringStarts(text: string, p: nat)
    requires StringEnd(text, p).Some?
    ensures p < |text| && (text[p] == QUOTE ==> StringEnd(text, p) == Some(p + 1) && Spells(text, p, [QUOTE]))
  {
    assert text[p] == QUOTE ==> text[p..p + 1] == [QUOTE];
  }

  lemma NoPieces()
    ensures AllPieces([]) && Spelling([]) == "" && Spelling([]) + [QUOTE] == [QUOTE]
  {
  }

  lemma SpellingCons(q: Piece, ps: seq<Piece>)
    requires IsPiece(q) && AllPieces(ps)
    ensures AllPieces([q] + ps) && Spelling([q] + ps) == Spelled(q) + Spelling(ps)
    ensures Spelling([q] + ps) + [QUOTE] == Spelled(q) + (Spelling(ps) + [QUOTE])
  {
    hide Spelled, IsPiece;
    assert ([q] + ps)[1..] == ps;
  }

  lemma {:induction false} StringTaken(text: string, p: nat) returns (ps: seq<Piece>)
    requires StringEnd(text, p).Some?
    ensures AllPieces(ps) && Spells(text, p, Spelling(ps) + [QUOTE])
    ensures StringEnd(text, p) == Some(p + |Spelling(ps)| + 1)
    decreases |text| - p
  {
    hide Spells, StringEnd, Spelled, IsPiece, Spelling;
    StringStarts(text, p);
    if text[p] == QUOTE {
      ps := [];
      NoPieces();
    } else {
      var q := FirstPiece(text, p);
      SpellsBound(text, p, Spelled(q));
      var more := StringTaken(text, p + |Spelled(q)|);
      ps := [q] + more;
      SpellingCons(q, more);
      SpellsParts(text, p, Spelled(q), Spelling(more) + [QUOTE]);
    }
  }
}
