/** Numerals: how the scanner finds their end, and what number get_number makes of them. */
module JsonNumerals {
  import opened Basics
  import opened JsonValues
  import opened Decimals
  import opened JsonLexers

  /** A character that does not carry a number on. */
  predicate Stops(text: string, p: nat) {
    var c := Peek(text, p);
    !IsDigit(c) && c != '.' && c != 'e' && c != 'E'
  }

  lemma {:induction false} DigitsEndIs(text: string, p: nat, d: string)
    requires Spells(text, p, d) && AllDigits(d) && !IsDigit(Peek(text, p + |d|))
    ensures DigitsEnd(text, p) == p + |d|
    decreases |d|
  {
    if d != "" {
      SpellsAt(text, p, d, 0);
      assert d == d[..1] + d[1..];
      SpellsParts(text, p, d[..1], d[1..]);
      DigitsEndIs(text, p + 1, d[1..]);
    }
  }

  lemma {:induction false} PrefixValue(d: string, k: nat)
    requires AllDigits(d) && k <= |d|
    ensures Value(d[..k]) <= Value(d)
    decreases |d|
  {
    if k < |d| {
      var e := d[..|d| - 1];
      assert e[..k] == d[..k];
      PrefixValue(e, k);
    } else {
      assert d[..k] == d;
    }
  }

  lemma PrefixStep(d: string, k: nat)
    requires AllDigits(d) && k < |d|
    ensures Value(d[..k + 1]) == 10 * Value(d[..k]) + DigitValue(d[k])
  {
    var e := d[..k + 1];
    assert e[..k] == d[..k] && e[k] == d[k];
  }

  lemma AccumulateStep(text: string, i: nat, end: nat, value: nat, max: nat)
    requires i < end && i < |text| && IsDigit(Peek(text, i)) && value * 10 + DigitValue(text[i]) <= max < TWO64
    ensures Accumulate(text, i, end, value, max) == Accumulate(text, i + 1, end, value * 10 + DigitValue(text[i]), max)
  {
    var v := value * 10 + DigitValue(text[i]);
    assert v % TWO64 == v;
  }

  /** While the number is in range no wrap-around and no test of get_number gets in the way. */
  lemma {:induction false} AccumulateIs(text: string, p: nat, d: string, k: nat, max: nat, end: nat)
    requires Spells(text, p, d) && AllDigits(d) && k <= |d| && p + |d| <= end
    requires Value(d) <= max < TWO64
    ensures Accumulate(text, p + k, end, Value(d[..k]), max) == Accumulate(text, p + |d|, end, Value(d), max)
    decreases |d| - k
  {
    hide Spells, Value, Accumulate, Peek;
    if k < |d| {
      SpellsAt(text, p, d, k);
      PrefixValue(d, k + 1);
      PrefixStep(d, k);
      AccumulateStep(text, p + k, end, Value(d[..k]), max);
      AccumulateIs(text, p, d, k + 1, max, end);
    } else {
      assert d[..k] == d;
    }
  }

  /**
   get_number gives the number its digits denote exactly when that number is in range.
   */
  lemma ExactInRange(text: string, p: nat, d: string, max: nat)
    requires Spells(text, p, d) && AllDigits(d) && max < TWO64
    ensures Accumulate(text, p, p + |d|, 0, max) == Some(Value(d)) <==> Value(d) <= max
  {
    if Value(d) <= max {
      assert Value(d[..0]) == 0;
      AccumulateIs(text, p, d, 0, max, p + |d|);
    }
  }

  /** What is left of the first i digits in 64 bits. */
  function Rest(d: string, i: nat): nat
    requires AllDigits(d) && i <= |d|
  {
    Value(d[..i]) % TWO64
  }

  /** Digit i makes what is left neither fall nor pass the maximum. */
  predicate Rises(d: string, i: nat, max: nat)
    requires AllDigits(d) && i < |d|
  {
    Rest(d, i) <= Rest(d, i + 1) <= max
  }

  predicate Climbs(d: string, k: nat, max: nat)
    requires AllDigits(d)
  {
    forall i :: k <= i < |d| ==> Rises(d, i, max)
  }

  lemma WrapStep(v: nat, c: nat)
    ensures (v % TWO64 * 10 + c) % TWO64 == (10 * v + c) % TWO64
  {
    var q := v / TWO64;
    assert 10 * v + c == v % TWO64 * 10 + c + 10 * q * TWO64;
  }

  lemma RestStep(text: string, p: nat, d: string, k: nat, max: nat)
    requires Spells(text, p, d) && AllDigits(d) && k < |d|
    ensures Accumulate(text, p + k, p + |d|, Rest(d, k), max)
      == if Rises(d, k, max) then Accumulate(text, p + k + 1, p + |d|, Rest(d, k + 1), max) else None
  {
    hide Spells, Value;
    SpellsAt(text, p, d, k);
    PrefixStep(d, k);
    WrapStep(Value(d[..k]), DigitValue(d[k]));
  }

  /** get_number accumulates the remainders of the prefixes, and gives up where they fall or pass the maximum. */
  lemma {:induction false} AccumulateRest(text: string, p: nat, d: string, k: nat, max: nat)
    requires Spells(text, p, d) && AllDigits(d) && k <= |d|
    ensures Accumulate(text, p + k, p + |d|, Rest(d, k), max)
      == if Climbs(d, k, max) then Some(Value(d) % TWO64) else None
    decreases |d| - k
  {
    hide Spells, Value, Rest, Rises;
    if k < |d| {
      hide Accumulate;
      RestStep(text, p, d, k, max);
      AccumulateRest(text, p, d, k + 1, max);
      assert Climbs(d, k, max) <==> Rises(d, k, max) && Climbs(d, k + 1, max);
    } else {
      RestAll(d);
    }
  }

  lemma RestAll(d: string)
    requires AllDigits(d)
    ensures Rest(d, 0) == 0 && Rest(d, |d|) == Value(d) % TWO64
  {
    assert d[..0] == "" && d[..|d|] == d;
  }

  /**
   An overflow is noticed, so that the number becomes a float, exactly when the remainders of its
   prefixes do not climb up to the maximum.  Otherwise an out-of-range number comes back as its remainder.
   */
  lemma OverflowNoticed(text: string, p: nat, d: string, max: nat)
    requires Spells(text, p, d) && AllDigits(d) && max < TWO64
    ensures var r := Accumulate(text, p, p + |d|, 0, max);
      && (r == None || r == Some(Value(d)) <==> Value(d) <= max || !Climbs(d, 0, max))
      && (r == None || r == Some(Value(d) % TWO64))
  {
    hide Spells, Value, Rest, Climbs, Accumulate;
    RestAll(d);
    AccumulateRest(text, p, d, 0, max);
    ExactInRange(text, p, d, max);
  }

  /** Digits rise as long as their value stays in range. */
  lemma PrefixRises(d: string, i: nat)
    requires AllDigits(d) && i < |d| && Value(d[..i + 1]) < TWO64
    ensures Rises(d, i, TWO64 - 1)
  {
    hide Value;
    PrefixStep(d, i);
  }

  /** Such a number: 3 followed by nineteen zeros is taken for a number 2^64 smaller. */
  lemma OverflowMissed()
    ensures var text := Digits(30_000_000_000_000_000_000);
      GetNumber(text, 0, |text|) == Some(Unsigned(30_000_000_000_000_000_000 - TWO64))
  {
    hide Digits, Value, Spells, Accumulate;
    var n, max := 3_000_000_000_000_000_000, TWO64 - 1;
    var d := Digits(10 * n);
    DigitsValue(n);
    DigitsValue(10 * n);
    LastDigit(n);
    RestAll(d);
    var k := |d| - 1;
    assert d[..k] == Digits(n);
    forall i | 0 <= i < |d|
      ensures Rises(d, i, max)
    {
      if i < k {
        PrefixValue(Digits(n), i + 1);
        assert d[..i + 1] == Digits(n)[..i + 1];
        PrefixRises(d, i);
      } else {
        assert Rest(d, k) == n;
      }
    }
    SpellsSelf(d);
    OverflowNoticed(d, 0, d, max);
    assert IsDigit(d[0]);
  }

  lemma LastDigit(n: nat)
    requires n > 0
    ensures Digits(10 * n) == Digits(n) + ['0']
  {
  }

  // ----- The grammar of numbers (section 6 of RFC 7159) -----

  datatype Numeral = Numeral(neg: bool, digits: string, frac: string, exp: string)

  /** Digits without a leading zero, but for zero itself. */
  predicate IsInteger(d: string) {
    d != "" && AllDigits(d) && (d[0] == '0' ==> |d| == 1)
  }

  predicate IsFraction(f: string) {
    |f| > 1 && f[0] == '.' && AllDigits(f[1..])
  }

  predicate IsExponent(e: string) {
    && |e| > 1 && (e[0] == 'e' || e[0] == 'E')
    && var k := if e[1] == '+' || e[1] == '-' then 2 else 1; |e| > k && AllDigits(e[k..])
  }

  predicate IsNumeral(n: Numeral) {
    IsInteger(n.digits) && (n.frac == "" || IsFraction(n.frac)) && (n.exp == "" || IsExponent(n.exp))
  }

  function Written(n: Numeral): string {
    (if n.neg then "-" else "") + (n.digits + (n.frac + n.exp))
  }

  /** The number, or None for a floating-point number; an overflow that goes unnoticed leaves a remainder. */
  function NumberOf(n: Numeral): (r: Option<Json>)
    requires IsNumeral(n)
  {
    var v, max := Value(n.digits), if n.neg then TWO63 else TWO64 - 1;
    if n.frac + n.exp != "" || !Climbs(n.digits, 0, max) then None
    else if n.neg then Some(Int(0 - v % TWO64)) else Some(Unsigned(v % TWO64))
  }

  /** In range it is the number that the numeral denotes. */
  lemma NumberInRange(n: Numeral)
    requires IsNumeral(n) && n.frac == n.exp == "" && Value(n.digits) <= if n.neg then TWO63 else TWO64 - 1
    ensures NumberOf(n) == Some(if n.neg then Int(-Value(n.digits)) else Unsigned(Value(n.digits)))
  {
    hide Value, Climbs;
    var max := if n.neg then TWO63 else TWO64 - 1;
    SpellsSelf(n.digits);
    ExactInRange(n.digits, 0, n.digits, max);
    RestAll(n.digits);
    AccumulateRest(n.digits, 0, n.digits, 0, max);
  }

  /** The scanner takes exactly the numeral, if what follows does not carry it on. */
  lemma NumeralScans(text: string, p: nat, n: Numeral)
    requires IsNumeral(n) && Spells(text, p, Written(n)) && Stops(text, p + |Written(n)|)
    ensures Scan(text, p) == Token(ValueNumber, p, p + |Written(n)|)
  {
    hide Spells, NumberEnd;
    var sign, rest := if n.neg then "-" else "", n.digits + (n.frac + n.exp);
    SpellsParts(text, p, sign, rest);
    if n.neg {
      SpellsAt(text, p, sign, 0);
    }
    SpellsParts(text, p + |sign|, n.digits, n.frac + n.exp);
    SpellsAt(text, p + |sign|, n.digits, 0);
    NumberEndIs(text, p + |sign|, n);
  }

  lemma NumberEndIs(text: string, p: nat, n: Numeral)
    requires IsNumeral(n) && Spells(text, p, n.digits + (n.frac + n.exp))
    requires Stops(text, p + |n.digits + (n.frac + n.exp)|)
    ensures IsDigit(Peek(text, p)) && NumberEnd(text, p) == p + |n.digits + (n.frac + n.exp)|
  {
    hide Spells, TailEnd, IsFraction, IsExponent;
    var tail := n.frac + n.exp;
    SpellsParts(text, p, n.digits, tail);
    SpellsAt(text, p, n.digits, 0);
    TailNoDigit(text, p + |n.digits|, n);
    DigitsEndIs(text, p, n.digits);
    TailEndIs(text, p + |n.digits|, n);
  }

  lemma TailNoDigit(text: string, p: nat, n: Numeral)
    requires IsNumeral(n) && Spells(text, p, n.frac + n.exp) && Stops(text, p + |n.frac + n.exp|)
    ensures !IsDigit(Peek(text, p))
  {
    hide Spells;
    if n.frac + n.exp != "" {
      SpellsAt(text, p, n.frac + n.exp, 0);
    }
  }

  lemma TailEndIs(text: string, p: nat, n: Numeral)
    requires IsNumeral(n) && Spells(text, p, n.frac + n.exp) && Stops(text, p + |n.frac + n.exp|)
    ensures TailEnd(text, p) == p + |n.frac + n.exp|
  {
    hide Spells, ExponentEnd, DigitsEnd, IsInteger;
    SpellsParts(text, p, n.frac, n.exp);
    var k := p + |n.frac|;
    if n.exp != "" {
      SpellsAt(text, k, n.exp, 0);
      ExponentEndIs(text, k, n.exp);
    }
    if n.frac != "" {
      var d := n.frac[1..];
      assert n.frac == "." + d;
      SpellsParts(text, p, ".", d);
      SpellsAt(text, p, ".", 0);
      SpellsAt(text, p + 1, d, 0);
      DigitsEndIs(text, p + 1, d);
    }
  }

  lemma ExponentEndIs(text: string, p: nat, e: string)
    requires IsExponent(e) && Spells(text, p, e) && Stops(text, p + |e|)
    ensures forall mark: nat :: ExponentEnd(text, p, mark) == p + |e|
  {
    hide Spells;
    var k := if e[1] == '+' || e[1] == '-' then 2 else 1;
    var d := e[k..];
    assert e == e[..k] + d;
    SpellsAt(text, p, e, 1);
    SpellsParts(text, p, e[..k], d);
    SpellsAt(text, p + k, d, 0);
    DigitsEndIs(text, p + k, d);
  }

  /** get_number gives the numeral's number. */
  lemma NumeralReads(text: string, p: nat, n: Numeral)
    requires IsNumeral(n) && Spells(text, p, Written(n))
    ensures GetNumber(text, p, p + |Written(n)|) == NumberOf(n)
  {
    hide Spells, Value, Accumulate, IsFraction, IsExponent;
    var sign, tail := if n.neg then "-" else "", n.frac + n.exp;
    var max, q := if n.neg then TWO63 else TWO64 - 1, p + |sign|;
    SpellsParts(text, p, sign, n.digits + tail);
    if n.neg {
      SpellsAt(text, p, sign, 0);
    }
    SpellsParts(text, q, n.digits, tail);
    SpellsAt(text, q, n.digits, 0);
    RestAll(n.digits);
    if tail == "" {
      AccumulateRest(text, q, n.digits, 0, max);
    } else {
      TailFloats(text, q + |n.digits|, n);
      AccumulateNone(text, q, q + |n.digits|, q + |n.digits| + |tail|, 0, max);
    }
  }

  lemma TailFloats(text: string, p: nat, n: Numeral)
    requires IsNumeral(n) && n.frac + n.exp != "" && Spells(text, p, n.frac + n.exp)
    ensures !IsDigit(Peek(text, p))
  {
    SpellsAt(text, p, n.frac + n.exp, 0);
  }

  /** A character other than a digit turns the number into a float. */
  lemma {:induction false} AccumulateNone(text: string, i: nat, k: nat, end: nat, value: nat, max: nat)
    requires i <= k < end && !IsDigit(Peek(text, k))
    ensures Accumulate(text, i, end, value, max) == None
    decreases k - i
  {
    if i < k && IsDigit(Peek(text, i)) {
      var temp := (value * 10 + DigitValue(text[i])) % TWO64;
      AccumulateNone(text, i + 1, k, end, temp, max);
    }
  }

  // ----- What the scanner takes is a numeral -----

  lemma {:induction false} DigitsTaken(text: string, i: nat)
    requires i <= |text|
    ensures var k := DigitsEnd(text, i); k <= |text| && AllDigits(text[i..k]) && !IsDigit(Peek(text, k))
    decreases |text| - i
  {
    if i < |text| && IsDigit(text[i]) {
      DigitsTaken(text, i + 1);
      var k := DigitsEnd(text, i);
      assert text[i..k] == [text[i]] + text[i + 1..k];
    }
  }

  lemma ExponentTaken(text: string, i: nat, mark: nat) returns (e: string)
    requires i < |text| && (text[i] == 'e' || text[i] == 'E')
    ensures var k := ExponentEnd(text, i, mark);
      k == mark || (IsExponent(e) && Spells(text, i, e) && k == i + |e|)
  {
    var c := Peek(text, i + 1);
    var b := if c == '+' || c == '-' then i + 2 else i + 1;
    if IsDigit(Peek(text, b)) {
      DigitsTaken(text, b);
      DigitsEndGrows(text, b);
      var k := DigitsEnd(text, b);
      e := text[i..k];
      assert e[b - i..] == text[b..k];
    } else {
      e := "";
    }
  }

  lemma TailTaken(text: string, i: nat) returns (frac: string, exp: string)
    requires i <= |text|
    ensures (frac == "" || IsFraction(frac)) && (exp == "" || IsExponent(exp))
    ensures Spells(text, i, frac + exp) && TailEnd(text, i) == i + |frac + exp|
  {
    frac, exp := "", "";
    var k := i;
    if Peek(text, i) == '.' && IsDigit(Peek(text, i + 1)) {
      DigitsTaken(text, i + 1);
      DigitsEndGrows(text, i + 1);
      k := DigitsEnd(text, i + 1);
      frac := text[i..k];
      assert frac[1..] == text[i + 1..k];
    }
    if (Peek(text, i) != '.' || frac != "") && (Peek(text, k) == 'e' || Peek(text, k) == 'E') {
      exp := ExponentTaken(text, k, k);
      if ExponentEnd(text, k, k) == k {
        exp := "";
      }
    }
    SpellsParts(text, i, frac, exp);
  }

  lemma IntegerTaken(text: string, i: nat) returns (d: string)
    requires IsDigit(Peek(text, i))
    ensures IsInteger(d) && Spells(text, i, d) && NumberEnd(text, i) == TailEnd(text, i + |d|)
  {
    hide TailEnd;
    DigitsTaken(text, i);
    DigitsEndGrows(text, i);
    if text[i] == '0' {
      d := [text[i]];
      assert text[i..i + 1] == d;
    } else {
      d := text[i..DigitsEnd(text, i)];
    }
  }

  lemma NumberTaken(text: string, i: nat) returns (n: Numeral)
    requires IsDigit(Peek(text, i))
    ensures IsNumeral(n) && !n.neg && Spells(text, i, Written(n)) && NumberEnd(text, i) == i + |Written(n)|
  {
    hide TailEnd, NumberEnd, IsInteger, IsFraction, IsExponent, Spells;
    var d := IntegerTaken(text, i);
    SpellsBound(text, i, d);
    var frac, exp := TailTaken(text, i + |d|);
    n := Numeral(false, d, frac, exp);
    assert Written(n) == d + (frac + exp);
    SpellsParts(text, i, d, frac + exp);
  }

  /** A number token is a numeral. */
  lemma NumeralTaken(text: string, p: nat) returns (n: Numeral)
    requires Scan(text, p).kind == ValueNumber && Scan(text, p).start == p
    ensures IsNumeral(n) && Spells(text, p, Written(n)) && Scan(text, p).end == p + |Written(n)|
  {
    hide NumberEnd;
    var c := Peek(text, p);
    if c == '-' {
      var m := NumberTaken(text, p + 1);
      n := m.(neg := true);
      assert Written(n) == "-" + Written(m);
      SpellsParts(text, p, "-", Written(m));
    } else {
      n := NumberTaken(text, p);
    }
  }
}
