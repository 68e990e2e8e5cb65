/** The scanner: how the text of a JSON document is cut into tokens (RFC 7159). */
module JsonLexers {
  import opened Basics
  import opened JsonValues
  import opened Decimals

  datatype Kind =
    | LiteralTrue | LiteralFalse | LiteralNull
    | ValueString | ValueNumber
    | BeginArray | BeginObject | EndArray | EndObject
    | NameSeparator | ValueSeparator
    | ParseError | EndOfInput

  /** A token with the positions of its first character (m_start) and behind its last (m_cursor). */
  datatype Token = Token(kind: Kind, start: nat, end: nat)

  /** The character at i; behind the text the scanner finds NULs. */
  function Peek(text: string, i: nat): char {
    if i < |text| then text[i] else '\0'
  }

  predicate IsBlank(c: char) {
    c == ' ' || c == '\t' || c == '\n' || c == '\r'
  }

  predicate IsHex(c: char) {
    ('0' <= c <= '9') || ('A' <= c <= 'F') || ('a' <= c <= 'f')
  }

  const QUOTE := 0x22 as char
  const BACKSLASH := 0x5c as char

  /** Characters that may follow a backslash, apart from 'u'. */
  predicate IsEscape(c: char) {
    c == QUOTE || c == '/' || c == BACKSLASH || c == 'b' || c == 'f' || c == 'n' || c == 'r' || c == 't'
  }

  /** Scans a string from i on, behind the opening quote; the position behind the closing one. */
  function StringEnd(text: string, i: nat): (r: Option<nat>)
    ensures r.Some? ==> i < r.value <= |text|
    decreases |text| - i
  {
    if i >= |text| then None else
    var c := text[i];
    if c < ' ' then None
    else if c == QUOTE then Some(i + 1)
    else if c != BACKSLASH then StringEnd(text, i + 1)
    else if IsEscape(Peek(text, i + 1)) then StringEnd(text, i + 2)
    else if Peek(text, i + 1) == 'u' && IsHex(Peek(text, i + 2)) && IsHex(Peek(text, i + 3))
      && IsHex(Peek(text, i + 4)) && IsHex(Peek(text, i + 5)) then StringEnd(text, i + 6)
    else None
  }

  /** The position behind the digits that start at i. */
  function DigitsEnd(text: string, i: nat): (r: nat)
    ensures i <= r && (i <= |text| ==> r <= |text|)
    decreases |text| - i
  {
    if i < |text| && IsDigit(text[i]) then DigitsEnd(text, i + 1) else i
  }

  /** Behind an exponent that starts with the 'e' at i, or `mark` if it is malformed. */
  function ExponentEnd(text: string, i: nat, mark: nat): nat {
    var c := Peek(text, i + 1);
    if c == '+' || c == '-' then
      if IsDigit(Peek(text, i + 2)) then DigitsEnd(text, i + 2) else mark
    else if IsDigit(c) then DigitsEnd(text, i + 1) else mark
  }

  /** Behind what may follow the integer part that ends at i: a fraction, an exponent. */
  function TailEnd(text: string, i: nat): nat {
    var c := Peek(text, i);
    if c == '.' then
      if IsDigit(Peek(text, i + 1)) then
        var k := DigitsEnd(text, i + 1);
        if Peek(text, k) == 'e' || Peek(text, k) == 'E' then ExponentEnd(text, k, k) else k
      else i
    else if c == 'e' || c == 'E' then ExponentEnd(text, i, i)
    else i
  }

  /** Behind the number whose first digit is at i. */
  function NumberEnd(text: string, i: nat): nat
    requires IsDigit(Peek(text, i))
  {
    if Peek(text, i) == '0' then TailEnd(text, i + 1) else TailEnd(text, DigitsEnd(text, i))
  }

  predicate Spells(text: string, i: nat, word: string) {
    i + |word| <= |text| && text[i..i + |word|] == word
  }

  lemma SpellsParts(text: string, p: nat, a: string, b: string)
    ensures Spells(text, p, a + b) <==> Spells(text, p, a) && Spells(text, p + |a|, b)
  {
    if Spells(text, p, a + b) {
      var s := text[p..p + |a + b|];
      assert s[..|a|] == a && s[|a|..] == b;
      assert text[p..p + |a|] == s[..|a|];
      assert text[p + |a|..p + |a| + |b|] == s[|a|..];
    }
    if Spells(text, p, a) && Spells(text, p + |a|, b) {
      assert text[p..p + |a + b|] == text[p..p + |a|] + text[p + |a|..p + |a| + |b|];
    }
  }

  lemma SpellsAt(text: string, p: nat, s: string, i: nat)
    requires Spells(text, p, s) && i < |s|
    ensures Peek(text, p + i) == s[i] && p + i < |text| && text[p + i] == s[i]
  {
    assert s[i] == text[p..p + |s|][i];
  }

  lemma SpellsSelf(d: string)
    ensures Spells(d, 0, d)
  {
  }

  lemma SpellsBound(text: string, p: nat, s: string)
    requires Spells(text, p, s)
    ensures p + |s| <= |text|
  {
  }

  /** The next token at or after pos.  A literal or string that breaks off is an error of one character. */
  function Scan(text: string, pos: nat): (t: Token)
    ensures pos <= t.start
    decreases |text| - pos
  {
    var c := Peek(text, pos);
    if IsBlank(c) then Scan(text, pos + 1)
    else if c == '\0' then Token(EndOfInput, pos, pos + 1)
    else if c == QUOTE then
      (match StringEnd(text, pos + 1)
       case Some(e) => Token(ValueString, pos, e)
       case None => Token(ParseError, pos, pos + 1))
    else if c == ',' then Token(ValueSeparator, pos, pos + 1)
    else if c == ':' then Token(NameSeparator, pos, pos + 1)
    else if c == '[' then Token(BeginArray, pos, pos + 1)
    else if c == ']' then Token(EndArray, pos, pos + 1)
    else if c == '{' then Token(BeginObject, pos, pos + 1)
    else if c == '}' then Token(EndObject, pos, pos + 1)
    else if c == '-' then
      if IsDigit(Peek(text, pos + 1)) then Token(ValueNumber, pos, NumberEnd(text, pos + 1))
      else Token(ParseError, pos, pos + 1)
    else if IsDigit(c) then Token(ValueNumber, pos, NumberEnd(text, pos))
    else if c == 'f' && Spells(text, pos, "false") then Token(LiteralFalse, pos, pos + 5)
    else if c == 'n' && Spells(text, pos, "null") then Token(LiteralNull, pos, pos + 4)
    else if c == 't' && Spells(text, pos, "true") then Token(LiteralTrue, pos, pos + 4)
    else if c == 0xEF as char && Peek(text, pos + 1) == 0xBB as char && Peek(text, pos + 2) == 0xBF as char then
      Scan(text, pos + 3)
    else Token(ParseError, pos, pos + 1)
  }

  lemma {:induction false} DigitsEndGrows(text: string, i: nat)
    requires IsDigit(Peek(text, i))
    ensures i < DigitsEnd(text, i) <= |text|
  {
  }

  lemma TailEndBound(text: string, i: nat)
    requires i <= |text|
    ensures i <= TailEnd(text, i) <= |text|
  {
  }

  /** Every token but the end of the input is a non-empty piece of the text. */
  lemma {:induction false} ScanBound(text: string, pos: nat)
    ensures var t := Scan(text, pos); t.start < t.end && (t.kind != EndOfInput ==> t.end <= |text|)
    decreases |text| - pos
  {
    var c := Peek(text, pos);
    if IsBlank(c) {
      ScanBound(text, pos + 1);
    } else if c == '-' && IsDigit(Peek(text, pos + 1)) {
      NumberBound(text, pos + 1);
    } else if IsDigit(c) {
      NumberBound(text, pos);
    } else if c == 0xEF as char && Peek(text, pos + 1) == 0xBB as char && Peek(text, pos + 2) == 0xBF as char {
      ScanBound(text, pos + 3);
    }
  }

  lemma NumberBound(text: string, i: nat)
    requires IsDigit(Peek(text, i))
    ensures i < NumberEnd(text, i) <= |text|
  {
    DigitsEndGrows(text, i);
    TailEndBound(text, i + 1);
    TailEndBound(text, DigitsEnd(text, i));
  }

  // ----- The values of string and number tokens -----

  function HexValue(c: char): (v: nat)
    requires IsHex(c)
    ensures v < 16
  {
    if c <= '9' then c as int - '0' as int
    else if c <= 'F' then c as int - 'A' as int + 10
    else c as int - 'a' as int + 10
  }

  /** strtoul, base 16, of the four characters at i; hexadecimal digits, as the scanner has made sure. */
  function Hex4(text: string, i: nat): (v: nat)
    ensures v < 0x10000
  {
    if IsHex(Peek(text, i)) && IsHex(Peek(text, i + 1)) && IsHex(Peek(text, i + 2)) && IsHex(Peek(text, i + 3)) then
      0x1000 * HexValue(text[i]) + 0x100 * HexValue(text[i + 1]) + 0x10 * HexValue(text[i + 2]) + HexValue(text[i + 3])
    else 0
  }

  /** The UTF-8 bytes of a code point. */
  function Utf8(p: nat): string
    requires p < 0x110000
  {
    if p < 0x80 then [p as char]
    else if p <= 0x7ff then [(0xC0 + p / 0x40) as char, (0x80 + p % 0x40) as char]
    else if p <= 0xffff then
      [(0xE0 + p / 0x1000) as char, (0x80 + p / 0x40 % 0x40) as char, (0x80 + p % 0x40) as char]
    else
      [(0xF0 + p / 0x40000) as char, (0x80 + p / 0x1000 % 0x40) as char,
       (0x80 + p / 0x40 % 0x40) as char, (0x80 + p % 0x40) as char]
  }

  /** to_unicode: the bytes for one or, above U+FFFF, two UTF-16 units. */
  function ToUnicode(unit1: nat, unit2: nat): (r: Result<string>)
    requires unit1 < 0x10000 && unit2 < 0x10000
  {
    if 0xD800 <= unit1 <= 0xDBFF then
      if 0xDC00 <= unit2 <= 0xDFFF then Ok(Utf8(unit1 * 0x400 + unit2 - 0x35FDC00)) else Err(Invalid)
    else Ok(Utf8(unit1))
  }

  /** The code point that one or two UTF-16 units stand for (section 2.1 of RFC 2781). */
  function CodePoint(unit1: nat, unit2: nat): int {
    if 0xD800 <= unit1 <= 0xDBFF then 0x10000 + (unit1 - 0xD800) * 0x400 + (unit2 - 0xDC00) else unit1
  }

  predicate IsTail(c: char) {
    0x80 <= c as int < 0xC0
  }

  /** The code point that a UTF-8 sequence in its shortest form stands for (section 3 of RFC 3629). */
  function Utf8Value(s: string): (r: Option<nat>) {
    if |s| == 1 && s[0] as int < 0x80 then Some(s[0] as int)
    else if |s| == 2 && 0xC2 <= s[0] as int < 0xE0 && IsTail(s[1]) then
      Some((s[0] as int - 0xC0) * 0x40 + (s[1] as int - 0x80))
    else if |s| == 3 && 0xE0 <= s[0] as int < 0xF0 && IsTail(s[1]) && IsTail(s[2]) then
      var p := (s[0] as int - 0xE0) * 0x1000 + (s[1] as int - 0x80) * 0x40 + (s[2] as int - 0x80);
      if p >= 0x800 then Some(p) else None
    else if |s| == 4 && 0xF0 <= s[0] as int < 0xF8 && IsTail(s[1]) && IsTail(s[2]) && IsTail(s[3]) then
      var p := (s[0] as int - 0xF0) * 0x40000 + (s[1] as int - 0x80) * 0x1000
        + (s[2] as int - 0x80) * 0x40 + (s[3] as int - 0x80);
      if 0x10000 <= p < 0x110000 then Some(p) else None
    else None
  }

  /** to_unicode encodes the code point in UTF-8, and refuses exactly a high surrogate without a low one. */
  lemma ToUnicodeIs(unit1: nat, unit2: nat)
    requires unit1 < 0x10000 && unit2 < 0x10000
    ensures var r := ToUnicode(unit1, unit2);
      if 0xD800 <= unit1 <= 0xDBFF && !(0xDC00 <= unit2 <= 0xDFFF) then r == Err(Invalid)
      else r.Ok? && Utf8Value(r.value) == Some(CodePoint(unit1, unit2))
  {
    hide Utf8, Utf8Value;
    if 0xD800 <= unit1 <= 0xDBFF {
      if 0xDC00 <= unit2 <= 0xDFFF {
        Utf8Is(unit1 * 0x400 + unit2 - 0x35FDC00);
      }
    } else {
      Utf8Is(unit1);
    }
  }

  lemma Utf8Is(p: nat)
    requires p < 0x110000
    ensures Utf8Value(Utf8(p)) == Some(p)
  {
    hide Utf8, Utf8Value;
    if p < 0x80 {
      Utf8One(p);
    } else if p < 0x800 {
      Utf8Two(p);
    } else if p < 0x10000 {
      Utf8Three(p);
    } else {
      Utf8Four(p);
    }
  }

  lemma Utf8One(p: nat)
    requires p < 0x80
    ensures Utf8Value(Utf8(p)) == Some(p)
  {
  }

  lemma Utf8Two(p: nat)
    requires 0x80 <= p < 0x800
    ensures Utf8Value(Utf8(p)) == Some(p)
  {
    assert p == p / 0x40 * 0x40 + p % 0x40;
  }

  lemma Utf8Three(p: nat)
    requires 0x800 <= p < 0x10000
    ensures Utf8Value(Utf8(p)) == Some(p)
  {
    var a, b, c := p / 0x1000, p / 0x40 % 0x40, p % 0x40;
    assert p == (a * 0x40 + b) * 0x40 + c;
  }

  lemma Utf8Four(p: nat)
    requires 0x10000 <= p < 0x110000
    ensures Utf8Value(Utf8(p)) == Some(p)
  {
    var a, b, c, d := p / 0x40000, p / 0x1000 % 0x40, p / 0x40 % 0x40, p % 0x40;
    assert p / 0x1000 == a * 0x40 + b;
    assert p / 0x40 == p / 0x1000 * 0x40 + c;
    assert p == p / 0x40 * 0x40 + d;
  }

  /** The character an escape other than \\u stands for. */
  function Unescaped(c: char): char {
    if c == 't' then '\t' else if c == 'b' then 0x08 as char else if c == 'f' then 0x0c as char
    else if c == 'n' then '\n' else if c == 'r' then '\r' else c
  }

  /** get_string: the characters from i to the closing quote at `end`, escapes replaced. */
  function GetString(text: string, i: nat, end: int): (r: Result<string>)
    decreases end - i
  {
    if i >= end then Ok("") else
    var c := Peek(text, i);
    if c != BACKSLASH then Prefixed([c], GetString(text, i + 1, end))
    else
      var e := Peek(text, i + 1);
      if IsEscape(e) then Prefixed([Unescaped(e)], GetString(text, i + 2, end))
      else if e == 'u' then
        var u := Hex4(text, i + 2);
        if 0xD800 <= u <= 0xDBFF then
          if Peek(text, i + 6) != BACKSLASH || Peek(text, i + 7) != 'u' then Err(Invalid)
          else match ToUnicode(u, Hex4(text, i + 8))
            case Err(f) => Err(f)
            case Ok(s) => Prefixed(s, GetString(text, i + 12, end))
        else match ToUnicode(u, 0)
          case Err(f) => Err(f)
          case Ok(s) => Prefixed(s, GetString(text, i + 6, end))
      else GetString(text, i + 2, end)
  }

  function Prefixed(s: string, r: Result<string>): Result<string> {
    if r.Ok? then Ok(s + r.value) else r
  }

  /** The digits from i to end, as 64-bit arithmetic accumulates them; None where the program turns to floats. */
  function Accumulate(text: string, i: nat, end: nat, value: nat, max: nat): (r: Option<nat>)
    ensures r.Some? && value <= max ==> r.value <= max
    decreases end - i
  {
    if i >= end then Some(value)
    else if !IsDigit(Peek(text, i)) then None
    else
      var temp := (value * 10 + DigitValue(text[i])) % TWO64;
      if temp < value || temp > max then None else Accumulate(text, i + 1, end, temp, max)
  }

  /** get_number; None stands for a floating-point number. */
  function GetNumber(text: string, start: nat, end: nat): (r: Option<Json>) {
    if Peek(text, start) == '-' then
      (match Accumulate(text, start + 1, end, 0, TWO63)
       case None => None
       case Some(v) => Some(Int(0 - v)))
    else
      (match Accumulate(text, start, end, 0, TWO64 - 1)
       case None => None
       case Some(v) => Some(Unsigned(v)))
  }
}
