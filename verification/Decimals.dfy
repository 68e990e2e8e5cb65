/** Decimal numerals, and the conversions of strings to integers that pointers and the lexer use. */
module Decimals {
  import opened Basics
  import opened JsonPointers

  predicate IsDigit(c: char) {
    '0' <= c <= '9'
  }

  predicate AllDigits(s: string) {
    forall i :: 0 <= i < |s| ==> IsDigit(s[i])
  }

  function Digit(d: nat): (c: char)
    requires d < 10
    ensures IsDigit(c) && DigitValue(c) == d
  {
    ('0' as int + d) as char
  }

  function DigitValue(c: char): (d: int) {
    c as int - '0' as int
  }

  /** std::to_string of an unsigned number. */
  function Digits(n: nat): (s: string)
    ensures s != "" && AllDigits(s)
  {
    if n < 10 then [Digit(n)] else Digits(n / 10) + [Digit(n % 10)]
  }

  function Value(s: string): (n: int)
    requires AllDigits(s)
    ensures n >= 0
  {
    if s == "" then 0 else 10 * Value(s[..|s| - 1]) + DigitValue(s[|s| - 1])
  }

  /** A numeral denotes its number, and starts with '0' only if it is "0". */
  lemma {:induction false} DigitsValue(n: nat)
    ensures Value(Digits(n)) == n
    ensures Digits(n)[0] == '0' ==> n == 0
    ensures n == 0 ==> Digits(n) == "0"
  {
    if n >= 10 {
      DigitsValue(n / 10);
      var s := Digits(n);
      assert s[..|s| - 1] == Digits(n / 10);
      assert s[0] == Digits(n / 10)[0];
    } else {
      var s := Digits(n);
      assert s[..|s| - 1] == "";
    }
  }

  /** Digits without a leading zero are the numeral of the number they denote. */
  lemma {:induction false} NumeralUnique(d: string)
    requires d != "" && AllDigits(d) && (d[0] == '0' ==> |d| == 1)
    ensures Digits(Value(d)) == d
  {
    var n := |d| - 1;
    assert d == d[..n] + [d[n]];
    if n == 0 {
      assert Value(d[..0]) == 0;
    } else {
      NumeralUnique(d[..n]);
      Positive(d[..n]);
    }
  }

  lemma {:induction false} Positive(d: string)
    requires d != "" && AllDigits(d) && d[0] != '0'
    ensures Value(d) > 0
  {
    if |d| > 1 { Positive(d[..|d| - 1]); }
  }

  /** What a C string function sees: the part before the first NUL. */
  function CStr(s: string): string {
    if s == "" || s[0] == '\0' then "" else [s[0]] + CStr(s[1..])
  }

  predicate IsSpace(c: char) {
    c == ' ' || ('\t' <= c <= '\r')
  }

  /** pico_lexical_cast<size_t>: no blank or minus sign in front, digits to the end, in range. */
  function CastSize(s: string): (r: Result<nat>) {
    var c := CStr(s);
    if c == "" || IsSpace(c[0]) || c[0] == '-' then Err(Fatal)
    else
      var d := if c[0] == '+' then c[1..] else c;
      if d == "" || !AllDigits(d) || Value(d) >= TWO64 then Err(Fatal) else Ok(Value(d))
  }

  /** pico_lexical_cast<int>: a 64-bit conversion whose result is cut down to 32 bits without a check. */
  function CastInt(s: string): (r: Result<int>) {
    var c := CStr(s);
    if c == "" || IsSpace(c[0]) then Err(Fatal)
    else
      var d := if c[0] == '+' || c[0] == '-' then c[1..] else c;
      if d == "" || !AllDigits(d) then Err(Fatal)
      else
        var v := if c[0] == '-' then -Value(d) else Value(d);
        if -TWO63 <= v < TWO63 then Ok(Truncate(v)) else Err(Fatal)
  }

  /** Conversion to a 32-bit signed integer. */
  function Truncate(v: int): (r: int)
    ensures -TWO31 <= r < TWO31
  {
    var m := v % TWO32;
    if m < TWO31 then m else m - TWO32
  }

  lemma {:induction false} CStrDigits(s: string)
    requires AllDigits(s)
    ensures CStr(s) == s
  {
    if s != "" {
      CStrDigits(s[1..]);
      assert s == [s[0]] + s[1..];
    }
  }

  lemma CastDigits(n: nat)
    ensures CastSize(Digits(n)) == if n < TWO64 then Ok(n) else Err(Fatal)
    ensures CastInt(Digits(n)) == if n < TWO63 then Ok(Truncate(n)) else Err(Fatal)
  {
    CStrDigits(Digits(n));
    DigitsValue(n);
    assert IsDigit(Digits(n)[0]);
  }

  /** Numerals need no escaping. */
  lemma {:induction false} EscapeDigits(s: string)
    requires AllDigits(s)
    ensures Escape(s) == s
  {
    EscapeRoundTrip(s);
    EscapedDigits(s);
  }

  lemma {:induction false} EscapedDigits(s: string)
    requires AllDigits(s)
    ensures Escaped(s) == s
  {
    if s != "" {
      EscapedDigits(s[1..]);
      assert IsDigit(s[0]) && s == [s[0]] + s[1..];
    }
  }
}
