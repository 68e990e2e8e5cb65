/** The parser: a recursive descent over the scanner's tokens, and the class that carries it out. */
module JsonParsers {
  import opened Basics
  import opened JsonValues
  import opened Decimals
  import opened JsonLexers

  /**
   What parsing a value gives: the value and the token behind it, a syntax error, or a number that
   is not an integer (the model has no floats).
   */
  datatype Parsed = Read(j: Json, next: Token) | Rejected | Floating

  function Next(text: string, t: Token): (n: Token)
    ensures t.end < n.end && (n.kind != EndOfInput ==> n.end <= |text|)
  {
    ScanBound(text, t.end);
    Scan(text, t.end)
  }

  /** parse_internal: the value that starts with token t. */
  function ParseValue(text: string, t: Token): (r: Parsed)
    ensures r.Read? && t.end <= |text| ==> r.next.kind != EndOfInput ==> t.end < r.next.end <= |text|
    decreases |text| - t.end, 1
  {
    if t.end > |text| then Rejected else
    match t.kind
    case BeginObject =>
      var n := Next(text, t);
      if n.kind == EndObject then Read(Obj(map[]), Next(text, n))
      else if n.kind == ValueSeparator || n.kind == EndOfInput then Rejected
      else ParseMembers(text, n, map[])
    case BeginArray =>
      var n := Next(text, t);
      if n.kind == EndArray then Read(Arr([]), Next(text, n))
      else if n.kind == ValueSeparator || n.kind == EndOfInput then Rejected
      else ParseItems(text, n, [])
    case LiteralNull => Read(Null, Next(text, t))
    case LiteralTrue => Read(Bool(true), Next(text, t))
    case LiteralFalse => Read(Bool(false), Next(text, t))
    case ValueString => ParsedString(text, t)
    case ValueNumber => ParsedNumber(text, t)
    case _ => Rejected
  }

  function ParsedString(text: string, t: Token): (r: Parsed)
    ensures r.Read? ==> r.next == Next(text, t)
  {
    match GetString(text, t.start + 1, t.end - 1)
    case Ok(s) => Read(Str(s), Next(text, t))
    case Err(_) => Rejected
  }

  function ParsedNumber(text: string, t: Token): (r: Parsed)
    ensures r.Read? ==> r.next == Next(text, t)
  {
    match GetNumber(text, t.start, t.end)
    case Some(j) => Read(j, Next(text, t))
    case None => Floating
  }

  /** The rest of an array whose next value starts with token t. */
  function ParseItems(text: string, t: Token, done: seq<Json>): (r: Parsed)
    ensures r.Read? && t.end <= |text| ==> r.next.kind != EndOfInput ==> t.end < r.next.end <= |text|
    decreases |text| - t.end, 2
  {
    if t.end > |text| then Rejected else
    match ParseValue(text, t)
    case Read(v, n) =>
      if n.kind == ValueSeparator then
        ParseItems(text, Next(text, n), done + [v])
      else if n.kind == EndArray then Read(Arr(done + [v]), Next(text, n))
      else Rejected
    case failed => failed
  }

  /** The key whose token is t, if a colon follows it. */
  function ParseKey(text: string, t: Token): (r: Result<string>)
    ensures r.Ok? ==> t.kind == ValueString
  {
    if t.kind != ValueString || Next(text, t).kind != NameSeparator then Err(Invalid)
    else GetString(text, t.start + 1, t.end - 1)
  }

  /** The rest of an object whose next member starts with token t. */
  function ParseMembers(text: string, t: Token, done: map<string, Json>): (r: Parsed)
    ensures r.Read? && t.end <= |text| ==> r.next.kind != EndOfInput ==> t.end < r.next.end <= |text|
    decreases |text| - t.end, 2
  {
    if t.end > |text| then Rejected else
    match ParseKey(text, t)
    case Err(_) => Rejected
    case Ok(key) =>
      match ParseValue(text, Next(text, Next(text, t)))
      case Read(v, n) =>
        if n.kind == ValueSeparator then
          ParseMembers(text, Next(text, n), done[key := v])
        else if n.kind == EndObject then Read(Obj(done[key := v]), Next(text, n))
        else Rejected
      case failed => failed
  }

  /** parse: one value and nothing behind it. */
  function Parse(text: string): (r: Parsed) {
    match ParseValue(text, Scan(text, 0))
    case Read(j, n) => if n.kind == EndOfInput then Read(j, n) else Rejected
    case failed => failed
  }

  // ----- The scanner's loops -----

  method SkipDigits(text: string, i: nat) returns (k: nat)
    ensures k == DigitsEnd(text, i)
  {
    k := i;
    while IsDigit(Peek(text, k))
      invariant DigitsEnd(text, k) == DigitsEnd(text, i)
      decreases |text| - k
    {
      k := k + 1;
    }
  }

  /** The string states: walks to the closing quote, or stops where the string breaks off. */
  method SkipString(text: string, i: nat) returns (r: Option<nat>)
    ensures r == StringEnd(text, i)
  {
    var k := i;
    while Peek(text, k) >= ' ' && Peek(text, k) != QUOTE
      invariant StringEnd(text, k) == StringEnd(text, i)
      decreases |text| - k
    {
      if Peek(text, k) != BACKSLASH {
        k := k + 1;
      } else if IsEscape(Peek(text, k + 1)) {
        k := k + 2;
      } else if Peek(text, k + 1) == 'u' && IsHex(Peek(text, k + 2)) && IsHex(Peek(text, k + 3))
          && IsHex(Peek(text, k + 4)) && IsHex(Peek(text, k + 5)) {
        k := k + 6;
      } else {
        return None;
      }
    }
    r := if Peek(text, k) == QUOTE then Some(k + 1) else None;
  }

  /** The digits, fraction and exponent of a number whose first digit is at i. */
  method SkipNumber(text: string, i: nat) returns (k: nat)
    requires IsDigit(Peek(text, i))
    ensures k == NumberEnd(text, i)
  {
    if Peek(text, i) == '0' {
      k := i + 1;
    } else {
      k := SkipDigits(text, i);
    }
    var mark := k;
    if Peek(text, k) == '.' {
      if !IsDigit(Peek(text, k + 1)) {
        return mark;
      }
      k := SkipDigits(text, k + 1);
      mark := k;
    }
    if Peek(text, k) == 'e' || Peek(text, k) == 'E' {
      k := k + 1;
      if Peek(text, k) == '+' || Peek(text, k) == '-' {
        k := k + 1;
      }
      if !IsDigit(Peek(text, k)) {
        return mark;
      }
      k := SkipDigits(text, k);
    }
  }

  method ReadString(text: string, t: Token) returns (r: Result<string>)
    ensures r == GetString(text, t.start + 1, t.end - 1)
  {
    var s := "";
    var i: nat := t.start + 1;
    ghost var all := GetString(text, t.start + 1, t.end - 1);
    assert all.Ok? ==> "" + all.value == all.value;
    while i < t.end - 1
      invariant Prefixed(s, GetString(text, i, t.end - 1)) == all
    {
      var c := Peek(text, i);
      if c != BACKSLASH {
        Append(s, [c], GetString(text, i + 1, t.end - 1));
        s := s + [c];
        i := i + 1;
        continue;
      }
      var e := Peek(text, i + 1);
      if IsEscape(e) {
        Append(s, [Unescaped(e)], GetString(text, i + 2, t.end - 1));
        s := s + [Unescaped(e)];
      } else if e == 'u' {
        var u := Hex4(text, i + 2);
        if 0xD800 <= u <= 0xDBFF {
          if Peek(text, i + 6) != BACKSLASH || Peek(text, i + 7) != 'u' {
            return Err(Invalid);
          }
          var b := ToUnicode(u, Hex4(text, i + 8));
          if b.Err? {
            return b;
          }
          Append(s, b.value, GetString(text, i + 12, t.end - 1));
          s := s + b.value;
          i := i + 10;
        } else {
          var b := ToUnicode(u, 0);
          Append(s, b.value, GetString(text, i + 6, t.end - 1));
          s := s + b.value;
          i := i + 4;
        }
      }
      i := i + 2;
    }
    r := Ok(s);
    assert s + "" == s;
  }

  lemma Append(s: string, t: string, r: Result<string>)
    ensures Prefixed(s + t, r) == Prefixed(s, Prefixed(t, r))
  {
    if r.Ok? {
      assert s + t + r.value == s + (t + r.value);
    }
  }

  method ReadNumber(text: string, t: Token) returns (r: Option<Json>)
    ensures r == GetNumber(text, t.start, t.end)
  {
    var negative := Peek(text, t.start) == '-';
    var max := if negative then TWO63 else TWO64 - 1;
    var i: nat := if negative then t.start + 1 else t.start;
    var value: nat := 0;
    var float := false;
    ghost var all := Accumulate(text, i, t.end, 0, max);
    while i < t.end
      invariant if float then all == None else Accumulate(text, i, t.end, value, max) == all
    {
      if !IsDigit(Peek(text, i)) {
        float := true;
        if Peek(text, i) == '.' {
          i := i + 1;
          continue;
        }
        break;
      }
      if !float {
        var temp := (value * 10 + DigitValue(text[i])) % TWO64;
        if temp < value || temp > max {
          float := true;
        } else {
          value := temp;
        }
      }
      i := i + 1;
    }
    r := if float then None else if negative then Some(Int(0 - value)) else Some(Unsigned(value));
  }

  // ----- The parser -----

  /** The parser's state: the text and the last token, whose end is the scanner's cursor. */
  class Parser {
    const text: string
    var token: Token

    constructor (text: string)
      ensures this.text == text && token.end == 0
    {
      this.text := text;
      this.token := Token(EndOfInput, 0, 0);
    }

    /** get_token: scans from the cursor on. */
    method GetToken()
      modifies this
      ensures token == Next(text, old(token))
    {
      var p := token.end;
      while IsBlank(Peek(text, p))
          || (Peek(text, p) == 0xEF as char && Peek(text, p + 1) == 0xBB as char && Peek(text, p + 2) == 0xBF as char)
        invariant Scan(text, p) == Scan(text, old(token).end) && token == old(token)
        decreases |text| - p
      {
        p := if IsBlank(Peek(text, p)) then p + 1 else p + 3;
      }
      var c := Peek(text, p);
      token := Token(ParseError, p, p + 1);
      if c == '\0' {
        token := Token(EndOfInput, p, p + 1);
      } else if c == QUOTE {
        var e := SkipString(text, p + 1);
        if e.Some? {
          token := Token(ValueString, p, e.value);
        }
      } else if c == '-' {
        if IsDigit(Peek(text, p + 1)) {
          var e := SkipNumber(text, p + 1);
          token := Token(ValueNumber, p, e);
        }
      } else if IsDigit(c) {
        var e := SkipNumber(text, p);
        token := Token(ValueNumber, p, e);
      } else if c == 'f' && Spells(text, p, "false") {
        token := Token(LiteralFalse, p, p + 5);
      } else if c == 'n' && Spells(text, p, "null") {
        token := Token(LiteralNull, p, p + 4);
      } else if c == 't' && Spells(text, p, "true") {
        token := Token(LiteralTrue, p, p + 4);
      } else {
        match c
        case ',' => token := Token(ValueSeparator, p, p + 1);
        case ':' => token := Token(NameSeparator, p, p + 1);
        case '[' => token := Token(BeginArray, p, p + 1);
        case ']' => token := Token(EndArray, p, p + 1);
        case '{' => token := Token(BeginObject, p, p + 1);
        case '}' => token := Token(EndObject, p, p + 1);
        case _ =>
      }
    }

    /** parse: one value and nothing behind it. */
    method ParseText() returns (r: Parsed)
      requires token.end == 0
      modifies this
      ensures r == Parse(text)
    {
      GetToken();
      r := ParseInternal();
      if r.Read? && token.kind != EndOfInput {
        r := Rejected;
      }
    }

    method ParseInternal() returns (r: Parsed)
      modifies this
      ensures r == ParseValue(text, old(token))
      ensures r.Read? ==> token == r.next
      decreases |text| - token.end, 1
    {
      if token.end > |text| {
        return Rejected;
      }
      match token.kind
      case BeginObject => r := ParseObject();
      case BeginArray => r := ParseArray();
      case LiteralNull =>
        GetToken();
        r := Read(Null, token);
      case LiteralTrue =>
        GetToken();
        r := Read(Bool(true), token);
      case LiteralFalse =>
        GetToken();
        r := Read(Bool(false), token);
      case ValueString =>
        var s := ReadString(text, token);
        if s.Err? {
          return Rejected;
        }
        GetToken();
        r := Read(Str(s.value), token);
      case ValueNumber =>
        var n := ReadNumber(text, token);
        if n.None? {
          return Floating;
        }
        GetToken();
        r := Read(n.value, token);
      case _ => r := Rejected;
    }

    method ParseArray() returns (r: Parsed)
      requires token.kind == BeginArray && token.end <= |text|
      modifies this
      ensures r == ParseValue(text, old(token))
      ensures r.Read? ==> token == r.next
      decreases |text| - token.end, 0
    {
      hide Next, ParseKey;
      GetToken();
      if token.kind == EndArray {
        GetToken();
        return Read(Arr([]), token);
      }
      if token.kind == ValueSeparator || token.kind == EndOfInput {
        return Rejected;
      }
      var items := [];
      while true
        invariant token.kind != EndOfInput && old(token).end < token.end <= |text|
        invariant ParseValue(text, old(token))
          == ParseItems(text, if token.kind == ValueSeparator then Next(text, token) else token, items)
        decreases |text| - token.end
      {
        if token.kind == ValueSeparator {
          GetToken();
        }
        var v := ParseInternal();
        if !v.Read? {
          return v;
        }
        items := items + [v.j];
        if token.kind != ValueSeparator {
          break;
        }
      }
      if token.kind != EndArray {
        return Rejected;
      }
      GetToken();
      return Read(Arr(items), token);
    }

    method ParseObject() returns (r: Parsed)
      requires token.kind == BeginObject && token.end <= |text|
      modifies this
      ensures r == ParseValue(text, old(token))
      ensures r.Read? ==> token == r.next
      decreases |text| - token.end, 0
    {
      hide Next, ParseKey;
      GetToken();
      if token.kind == EndObject {
        GetToken();
        return Read(Obj(map[]), token);
      }
      if token.kind == ValueSeparator || token.kind == EndOfInput {
        return Rejected;
      }
      var members := map[];
      while true
        invariant token.kind != EndOfInput && old(token).end < token.end <= |text|
        invariant ParseValue(text, old(token))
          == ParseMembers(text, if token.kind == ValueSeparator then Next(text, token) else token, members)
        decreases |text| - token.end
      {
        if token.kind == ValueSeparator {
          GetToken();
        }
        var key := ReadKey();
        if key.Err? {
          return Rejected;
        }
        var v := ParseInternal();
        if !v.Read? {
          return v;
        }
        members := members[key.value := v.j];
        if token.kind != ValueSeparator {
          break;
        }
      }
      if token.kind != EndObject {
        return Rejected;
      }
      GetToken();
      return Read(Obj(members), token);
    }

    /** The key and the colon of a member; the token is then the first one of its value. */
    method ReadKey() returns (key: Result<string>)
      modifies this
      ensures key.Ok? <==> ParseKey(text, old(token)).Ok?
      ensures key.Ok? ==> key == ParseKey(text, old(token)) && token == Next(text, Next(text, old(token)))
    {
      if token.kind != ValueString {
        return Err(Invalid);
      }
      key := ReadString(text, token);
      if key.Err? {
        return;
      }
      GetToken();
      if token.kind != NameSeparator {
        return Err(Invalid);
      }
      GetToken();
    }
  }
}
