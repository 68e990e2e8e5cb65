/** The printer, and the proof that parsing what it prints gives the value back. */
module JsonTexts {
  import opened Basics
  import opened JsonValues
  import opened Decimals
  import opened JsonLexers
  import opened JsonParsers
  import opened JsonNumerals
  import opened JsonStrings
  import opened JsonGrammars

  function HexDigit(d: nat): (c: char)
    requires d < 16
    ensures IsHex(c) && HexValue(c) == d
  {
    if d < 10 then ('0' as int + d) as char else ('a' as int + d - 10) as char
  }

  /** The character that follows the backslash in the two-character escape of c. */
  function Letter(c: char): (r: Option<char>) {
    if c == QUOTE then Some(QUOTE) else if c == BACKSLASH then Some(BACKSLASH)
    else if c == 0x08 as char then Some('b') else if c == 0x0c as char then Some('f')
    else if c == '\n' then Some('n') else if c == '\r' then Some('r') else if c == '\t' then Some('t')
    else None
  }

  function EscapeChar(c: char): (r: string)
    ensures r != ""
  {
    if Letter(c).Some? then [BACKSLASH, Letter(c).value]
    else if c < ' ' then [BACKSLASH, 'u', '0', '0', HexDigit(c as int / 16), HexDigit(c as int % 16)]
    else [c]
  }

  /** escape_string */
  function EscapeString(s: string): string {
    if s == "" then "" else EscapeChar(s[0]) + EscapeString(s[1..])
  }

  /** extra_space: by how much escaping makes the string longer. */
  function ExtraSpace(s: string): (n: nat)
    ensures |EscapeString(s)| == |s| + n
    ensures n == 0 ==> EscapeString(s) == s
  {
    if s == "" then 0 else
    var n := ExtraSpace(s[1..]);
    assert s == [s[0]] + s[1..];
    if Letter(s[0]).Some? then n + 1 else if s[0] < ' ' then n + 5 else n
  }

  lemma {:induction false} EscapeAppend(s: string, t: string)
    ensures EscapeString(s + t) == EscapeString(s) + EscapeString(t)
    decreases |s|
  {
    hide EscapeChar;
    if s == "" {
      assert s + t == t;
    } else {
      assert (s + t)[1..] == s[1..] + t;
      EscapeAppend(s[1..], t);
    }
  }

  /** The buffer holds the escaped part of the string and, behind it, only backslashes. */
  ghost predicate Filled(r: seq<char>, done: string, size: nat) {
    && |done| <= |r| == size && r[..|done|] == done
    && forall k :: |done| <= k < |r| ==> r[k] == BACKSLASH
  }

  /** One character: what its escape has besides the backslash is written over the backslashes at pos. */
  method PutEscaped(a: array<char>, pos: nat, c: char) returns (next: nat)
    requires pos + |EscapeChar(c)| <= a.Length
    requires forall k :: pos <= k < a.Length ==> a[k] == BACKSLASH
    modifies a
    ensures next == pos + |EscapeChar(c)|
    ensures forall k :: 0 <= k < |EscapeChar(c)| ==> a[pos + k] == EscapeChar(c)[k]
    ensures forall k :: 0 <= k < a.Length && !(pos <= k < next) ==> a[k] == old(a[k])
  {
    if Letter(c).Some? {
      a[pos + 1] := Letter(c).value;
      next := pos + 2;
    } else if c < ' ' {
      a[pos + 1], a[pos + 2], a[pos + 3] := 'u', '0', '0';
      a[pos + 4], a[pos + 5] := HexDigit(c as int / 16), HexDigit(c as int % 16);
      next := pos + 6;
    } else {
      a[pos] := c;
      next := pos + 1;
    }
  }

  /** escape_string as written: a buffer of the final size, full of backslashes, filled in place. */
  method EscapeInPlace(s: string) returns (r: string)
    ensures r == EscapeString(s)
  {
    hide EscapeString, EscapeChar;
    var space := ExtraSpace(s);
    if space == 0 {
      return s;
    }
    var result := new char[|s| + space](_ => BACKSLASH);
    var pos := 0;
    FillStart(result[..], s);
    for i := 0 to |s|
      invariant Filled(result[..], EscapeString(s[..i]), |s| + space) && pos == |EscapeString(s[..i])|
    {
      Room(s, i);
      ghost var done := result[..];
      pos := PutEscaped(result, pos, s[i]);
      Fill(done, result[..], EscapeString(s[..i]), EscapeChar(s[i]), |s| + space);
    }
    FillEnd(result[..], s);
    r := result[..];
  }

  lemma FillStart(r: seq<char>, s: string)
    requires forall k :: 0 <= k < |r| ==> r[k] == BACKSLASH
    ensures EscapeString(s[..0]) == "" && Filled(r, "", |r|)
  {
  }

  lemma FillEnd(r: seq<char>, s: string)
    requires Filled(r, EscapeString(s[..|s|]), |EscapeString(s)|)
    ensures r == EscapeString(s)
  {
    assert s[..|s|] == s;
  }

  lemma Room(s: string, i: nat)
    requires i < |s|
    ensures EscapeString(s[..i + 1]) == EscapeString(s[..i]) + EscapeChar(s[i])
    ensures |EscapeString(s[..i + 1])| <= |EscapeString(s)|
  {
    assert s[..i + 1] == s[..i] + [s[i]];
    EscapeAppend(s[..i], [s[i]]);
    assert EscapeString([s[i]]) == EscapeChar(s[i]) + EscapeString("");
    assert s == s[..i + 1] + s[i + 1..];
    EscapeAppend(s[..i + 1], s[i + 1..]);
  }

  lemma Fill(r: seq<char>, r': seq<char>, done: string, c: string, size: nat)
    requires Filled(r, done, size) && |done| + |c| <= size && |r'| == |r|
    requires forall k :: 0 <= k < |c| ==> r'[|done| + k] == c[k]
    requires forall k :: 0 <= k < |r| && !(|done| <= k < |done| + |c|) ==> r'[k] == r[k]
    ensures Filled(r', done + c, size)
  {
    forall k | 0 <= k < |done + c|
      ensures r'[k] == (done + c)[k]
    {
      if k < |done| {
        assert r[..|done|][k] == done[k];
      } else {
        assert r'[|done| + (k - |done|)] == c[k - |done|];
      }
    }
  }

  function Spaces(n: nat): (s: string)
    ensures |s| == n && forall i :: 0 <= i < n ==> s[i] == ' '
  {
    seq(n, _ => ' ')
  }

  /** How dump lays out a value: compact, or with line breaks and `step` more blanks per level. */
  datatype Layout = Layout(pretty: bool, step: nat)

  function Deeper(l: Layout, indent: nat): nat {
    if l.pretty then (indent + l.step) % TWO32 else indent
  }

  function Break(l: Layout): string {
    if l.pretty then "\n" else ""
  }

  function Quoted(s: string): string {
    [QUOTE] + EscapeString(s) + [QUOTE]
  }

  function Number(i: int): string {
    if i < 0 then "-" + Digits(-i) else Digits(i)
  }

  /** dump */
  ghost function Dump(j: Json, l: Layout, indent: nat): (r: string)
    decreases j, 1
  {
    match j
    case Null => "null"
    case Bool(b) => if b then "true" else "false"
    case Int(i) => Number(i)
    case Unsigned(u) => Number(u)
    case Str(s) => Quoted(s)
    case Arr(a) =>
      if a == [] then "[]"
      else "[" + Break(l) + DumpItems(a, l, Deeper(l, indent)) + Break(l) + Spaces(indent) + "]"
    case Obj(o) =>
      if o == map[] then "{}"
      else "{" + Break(l) + DumpMembers(j, SortedKeys(o.Keys), l, Deeper(l, indent)) + Break(l) + Spaces(indent) + "}"
  }

  /** The values of an array, from the first on, with the separators between them. */
  ghost function DumpItems(a: seq<Json>, l: Layout, indent: nat): string
    requires a != []
    decreases a
  {
    Spaces(indent) + Dump(a[0], l, indent)
    + if |a| == 1 then "" else "," + Break(l) + DumpItems(a[1..], l, indent)
  }

  ghost function DumpMembers(j: Json, keys: seq<string>, l: Layout, indent: nat): string
    requires j.Obj? && keys != [] && forall k :: k in keys ==> k in j.o
    decreases j, 0, |keys|
  {
    Spaces(indent) + Quoted(keys[0]) + ":" + (if l.pretty then " " else "") + Dump(j.o[keys[0]], l, indent)
    + if |keys| == 1 then "" else "," + Break(l) + DumpMembers(j, keys[1..], l, indent)
  }

  /** What comes back: a non-negative signed number reads as an unsigned one. */
  function Norm(j: Json): Json {
    match j
    case Int(i) => if i >= 0 then Unsigned(i) else j
    case Arr(a) => Arr(seq(|a|, i requires 0 <= i < |a| => Norm(a[i])))
    case Obj(o) => Obj(map k | k in o :: Norm(o[k]))
    case _ => j
  }

  /** It is the same value, up to the signedness of its numbers. */
  lemma {:induction false} NormCanon(j: Json)
    requires Fits(j)
    ensures Fits(Norm(j)) && Canon(Norm(j)) == Canon(j)
    decreases j
  {
    match j
    case Arr(a) =>
      forall i | 0 <= i < |a|
        ensures Fits(Norm(a[i])) && Canon(Norm(a[i])) == Canon(a[i])
      {
        NormCanon(a[i]);
      }
      assert Canon(Norm(j)).a == Canon(j).a;
    case Obj(o) =>
      forall k | k in o
        ensures Fits(Norm(o[k])) && Canon(Norm(o[k])) == Canon(o[k])
      {
        NormCanon(o[k]);
      }
      assert Canon(Norm(j)).o == Canon(j).o;
    case _ =>
  }

  /** The program's equality does not see the difference. */
  lemma NormEqual(j: Json)
    requires Fits(j)
    ensures Equal(Norm(j), j)
  {
    hide Norm, Canon, Equal, Fits;
    NormCanon(j);
    EqualIsCanon(Norm(j), j);
  }

  // ----- Dump writes texts of the grammar -----

  function PieceOf(c: char): (p: Piece)
    ensures IsPiece(p)
  {
    if Letter(c).Some? then Short(Letter(c).value)
    else if c < ' ' then Unit(c as int, [false, false, false, false])
    else Plain(c)
  }

  function PiecesOf(s: string): (ps: seq<Piece>)
    ensures |ps| == |s| && forall i :: 0 <= i < |s| ==> ps[i] == PieceOf(s[i])
  {
    seq(|s|, i requires 0 <= i < |s| => PieceOf(s[i]))
  }

  lemma PieceSpelled(c: char)
    ensures Spelled(PieceOf(c)) == EscapeChar(c)
  {
    hide HexChar, HexDigit;
    if Letter(c).None? && c < ' ' {
      HexDigitIs(0);
      HexDigitIs(c as int / 16);
      HexDigitIs(c as int % 16);
      ZeroDigit();
    }
  }

  lemma ZeroDigit()
    ensures HexChar(0, false) == '0'
  {
  }

  /** Whatever has an escape of two characters is escaped so, but for the slash; else only control characters are. */
  lemma EscapeIs(c: char)
    ensures var e := EscapeChar(c);
      if exists x :: x in SHORTS && x != '/' && SHORTS[x] == c
      then exists x :: x in SHORTS && x != '/' && SHORTS[x] == c && e == [BACKSLASH, x]
      else if c < 0x20 as char then e == Spelled(Unit(c as int, [false, false, false, false]))
      else e == [c]
  {
    PieceSpelled(c);
    hide HexChar, HexDigit, EscapeChar;
    PieceIs(c);
  }

  lemma PieceIs(c: char)
    ensures var p := PieceOf(c);
      if c in {0x22 as char, 0x5c as char, 0x08 as char, 0x0c as char, 0x0a as char, 0x0d as char, 0x09 as char}
      then p.Short? && p.e != '/' && SHORTS[p.e] == c
      else if c < 0x20 as char then p == Unit(c as int, [false, false, false, false]) else p == Plain(c)
  {
  }

  lemma HexDigitIs(d: nat)
    requires d < 16
    ensures HexDigit(d) == HexChar(d, false)
  {
  }

  /** escape_string spells the string in pieces, which decode to it. */
  lemma {:induction false} PiecesSpell(s: string)
    ensures AllPieces(PiecesOf(s)) && Spelling(PiecesOf(s)) == EscapeString(s) && Decoded(PiecesOf(s)) == Ok(s)
  {
    if s != "" {
      hide Spelled, EscapeChar, Utf8;
      var ps := PiecesOf(s);
      assert ps[1..] == PiecesOf(s[1..]);
      PiecesSpell(s[1..]);
      PieceSpelled(s[0]);
      PieceDecoded(s[0]);
      assert s == [s[0]] + s[1..];
    }
  }

  lemma PieceDecoded(c: char)
    ensures match PieceOf(c)
      case Plain(d) => d == c
      case Short(e) => SHORTS[e] == c
      case Unit(u, _) => !IsHigh(u) && Utf8(u) == [c]
  {
  }

  /** Every byte string survives escape_string, the string states of the scanner and get_string. */
  lemma EscapedString(text: string, p: nat, s: string)
    requires Spells(text, p, EscapeString(s) + [QUOTE])
    ensures StringEnd(text, p) == Some(p + |EscapeString(s)| + 1)
    ensures GetString(text, p, p + |EscapeString(s)|) == Ok(s)
  {
    hide Spells, StringEnd, GetString, Spelling, Decoded, EscapeString;
    PiecesSpell(s);
    StringScanned(text, p, PiecesOf(s));
    StringRead(text, p, PiecesOf(s), p + |EscapeString(s)|);
  }

  function NumeralOf(i: int): (n: Numeral)
    ensures Written(n) == Number(i)
  {
    var n := Numeral(i < 0, Digits(if i < 0 then -i else i), "", "");
    assert n.digits + ("" + "") == n.digits;
    n
  }

  lemma NumeralOfIs(i: int)
    ensures IsNumeral(NumeralOf(i))
    ensures -TWO63 <= i < TWO64 ==> NumberOf(NumeralOf(i)) == Some(Norm(Int(i)))
  {
    hide Digits, Value;
    var n := if i < 0 then -i else i;
    DigitsValue(n);
    assert |"0"| == 1;
    if -TWO63 <= i < TWO64 {
      NumberInRange(NumeralOf(i));
    }
  }

  /** A printed 64-bit number is one token, and converts back. */
  lemma NumberToken(text: string, p: nat, i: int)
    requires -TWO63 <= i < TWO64
    requires Spells(text, p, Number(i)) && Stops(text, p + |Number(i)|)
    ensures Scan(text, p) == Token(ValueNumber, p, p + |Number(i)|)
    ensures GetNumber(text, p, p + |Number(i)|) == Some(Norm(Int(i)))
  {
    hide Spells, Stops, Scan, GetNumber, IsNumeral, NumberOf, Number, Written;
    NumeralOfIs(i);
    NumeralScans(text, p, NumeralOf(i));
    NumeralReads(text, p, NumeralOf(i));
  }

  function Gap(l: Layout): string {
    if l.pretty then " " else ""
  }

  /** How dump writes a value. */
  ghost function Tree(j: Json, l: Layout, indent: nat): Syntax
    decreases j, 1
  {
    match j
    case Null => NullWord
    case Bool(b) => BoolWord(b)
    case Int(i) => Num(NumeralOf(i))
    case Unsigned(u) => Num(NumeralOf(u))
    case Str(s) => Text(PiecesOf(s))
    case Arr(a) => List("", if a == [] then [] else TreeItems(a, l, Deeper(l, indent), indent))
    case Obj(o) =>
      Record("", if o == map[] then [] else
        KeysSome(o);
        TreeMembers(j, SortedKeys(o.Keys), l, Deeper(l, indent), indent))
  }

  lemma KeysSome(o: map<string, Json>)
    requires o != map[]
    ensures SortedKeys(o.Keys) != []
  {
    var k :| k in o;
    assert k in SortedKeys(o.Keys);
  }

  ghost function TreeItems(a: seq<Json>, l: Layout, inner: nat, outer: nat): (items: seq<Item>)
    requires a != []
    ensures |items| == |a|
    decreases a
  {
    var before, after := Break(l) + Spaces(inner), if |a| == 1 then Break(l) + Spaces(outer) else "";
    [Item(before, Tree(a[0], l, inner), after)] + if |a| == 1 then [] else TreeItems(a[1..], l, inner, outer)
  }

  ghost function TreeMembers(j: Json, keys: seq<string>, l: Layout, inner: nat, outer: nat): (members: seq<Entry>)
    requires j.Obj? && keys != [] && forall k :: k in keys ==> k in j.o
    ensures |members| == |keys|
    decreases j, 0, |keys|
  {
    var before, after := Break(l) + Spaces(inner), if |keys| == 1 then Break(l) + Spaces(outer) else "";
    [Entry(before, PiecesOf(keys[0]), "", Item(Gap(l), Tree(j.o[keys[0]], l, inner), after))]
    + if |keys| == 1 then [] else TreeMembers(j, keys[1..], l, inner, outer)
  }

  lemma {:induction false} SpacesGap(n: nat)
    ensures IsGap(Spaces(n)) && IsGap("")
  {
    if n > 0 {
      SpacesGap(n - 1);
      assert Spaces(n)[1..] == Spaces(n - 1);
    }
  }

  lemma LayoutGaps(l: Layout, n: nat)
    ensures IsGap(Break(l) + Spaces(n)) && IsGap(Gap(l)) && IsGap("")
  {
    SpacesGap(n);
    var s := Break(l) + Spaces(n);
    if l.pretty {
      assert s[1..] == Spaces(n) && s[0] in BLANKS;
    } else {
      assert s == Spaces(n);
    }
  }

  /** The tree is written as dump writes the value. */
  lemma {:induction false} TreePrints(j: Json, l: Layout, indent: nat)
    ensures WellFormed(Tree(j, l, indent)) && Print(Tree(j, l, indent)) == Dump(j, l, indent)
    decreases j, 1
  {
    match j
    case Int(i) => NumeralOfIs(i);
    case Unsigned(u) => NumeralOfIs(u);
    case Str(s) =>
      PiecesSpell(s);
      assert Quoted(s) == [QUOTE] + (EscapeString(s) + [QUOTE]);
    case Arr(a) => ArrayPrints(j, l, indent);
    case Obj(o) => ObjectPrints(j, l, indent);
    case _ =>
  }

  lemma {:induction false} ArrayPrints(j: Json, l: Layout, indent: nat)
    requires j.Arr?
    ensures WellFormed(Tree(j, l, indent)) && Print(Tree(j, l, indent)) == Dump(j, l, indent)
    decreases j, 0
  {
    hide IsGap, PrintItems, DumpItems, TreeItems, Break, Spaces;
    var a, inner := j.a, Deeper(l, indent);
    LayoutGaps(l, indent);
    if a != [] {
      ItemsPrint(a, l, inner, indent);
      Brackets("[", Break(l), DumpItems(a, l, inner), Spaces(indent), "]");
    }
  }

  lemma Brackets(open: string, b: string, body: string, s: string, close: string)
    ensures open + b + body + b + s + close == open + ((b + (body + (b + s))) + close)
  {
  }

  lemma {:induction false} ItemsPrint(a: seq<Json>, l: Layout, inner: nat, outer: nat)
    requires a != []
    ensures GoodItems(TreeItems(a, l, inner, outer))
    ensures PrintItems(TreeItems(a, l, inner, outer))
      == Break(l) + (DumpItems(a, l, inner) + (Break(l) + Spaces(outer)))
    decreases a
  {
    hide IsGap, Break, Spaces, Print, Dump, Tree, WellFormed, DumpItems, TreeItems, PrintItems;
    var b, s, e, d := Break(l), Spaces(inner), Break(l) + Spaces(outer), Dump(a[0], l, inner);
    TreePrints(a[0], l, inner);
    LayoutGaps(l, inner);
    LayoutGaps(l, outer);
    TreeItemsAre(a, l, inner, outer);
    DumpItemsAre(a, l, inner);
    var first := Item(b + s, Tree(a[0], l, inner), if |a| == 1 then e else "");
    if |a| == 1 {
      ItemsOne(first);
      Around(b, s, d, e);
    } else {
      var rest := TreeItems(a[1..], l, inner, outer);
      ItemsPrint(a[1..], l, inner, outer);
      ItemsOfTwo(first, rest);
      Between(b, s, d, DumpItems(a[1..], l, inner), e);
    }
  }

  lemma Around(b: string, s: string, d: string, e: string)
    ensures (b + s) + (d + e) == b + ((s + d) + e)
  {
  }

  lemma Between(b: string, s: string, d: string, r: string, e: string)
    ensures ((b + s) + (d + "")) + ("," + (b + (r + e))) == b + ((s + d + ("," + b + r)) + e)
  {
  }

  lemma TreeItemsAre(a: seq<Json>, l: Layout, inner: nat, outer: nat)
    requires a != []
    ensures var e := Break(l) + Spaces(outer);
      TreeItems(a, l, inner, outer) ==
        if |a| == 1 then [Item(Break(l) + Spaces(inner), Tree(a[0], l, inner), e)]
        else [Item(Break(l) + Spaces(inner), Tree(a[0], l, inner), "")] + TreeItems(a[1..], l, inner, outer)
  {
    hide Tree, Break, Spaces;
  }

  lemma DumpItemsAre(a: seq<Json>, l: Layout, inner: nat)
    requires a != []
    ensures DumpItems(a, l, inner) == if |a| == 1 then Spaces(inner) + Dump(a[0], l, inner)
      else Spaces(inner) + Dump(a[0], l, inner) + ("," + Break(l) + DumpItems(a[1..], l, inner))
  {
    hide Dump, Break, Spaces;
    assert Spaces(inner) + Dump(a[0], l, inner) + "" == Spaces(inner) + Dump(a[0], l, inner);
  }

  lemma ItemsOfTwo(i: Item, rest: seq<Item>)
    requires GoodItem(i) && rest != [] && GoodItems(rest)
    ensures GoodItems([i] + rest) && PrintItems([i] + rest) == PrintItem(i) + ("," + PrintItems(rest))
  {
    hide GoodItem, PrintItem;
    assert ([i] + rest)[1..] == rest;
  }

  lemma {:induction false} ObjectPrints(j: Json, l: Layout, indent: nat)
    requires j.Obj?
    ensures WellFormed(Tree(j, l, indent)) && Print(Tree(j, l, indent)) == Dump(j, l, indent)
    decreases j, 0
  {
    hide IsGap, PrintMembers, DumpMembers, TreeMembers, Break, Spaces, SortedKeys;
    var keys, inner := SortedKeys(j.o.Keys), Deeper(l, indent);
    LayoutGaps(l, indent);
    if j.o != map[] {
      KeysSome(j.o);
      MembersPrint(j, keys, l, inner, indent);
      Brackets("{", Break(l), DumpMembers(j, keys, l, inner), Spaces(indent), "}");
    }
  }

  lemma {:induction false} MembersPrint(j: Json, keys: seq<string>, l: Layout, inner: nat, outer: nat)
    requires j.Obj? && keys != [] && forall k :: k in keys ==> k in j.o
    ensures GoodEntries(TreeMembers(j, keys, l, inner, outer))
    ensures PrintMembers(TreeMembers(j, keys, l, inner, outer))
      == Break(l) + (DumpMembers(j, keys, l, inner) + (Break(l) + Spaces(outer)))
    decreases j, 0, |keys|
  {
    hide IsGap, Break, Spaces, Print, Dump, Tree, WellFormed, Spelling, EscapeString, DumpMembers, TreeMembers;
    hide PrintMembers, Quoted, Quote, Gap;
    var b, s, e := Break(l), Spaces(inner), Break(l) + Spaces(outer);
    var k, v := keys[0], j.o[keys[0]];
    var d := Quoted(k) + (":" + (Gap(l) + Dump(v, l, inner)));
    TreePrints(v, l, inner);
    QuotedIs(k);
    LayoutGaps(l, inner);
    LayoutGaps(l, outer);
    TreeMembersAre(j, keys, l, inner, outer);
    DumpMembersAre(j, keys, l, inner);
    var after := if |keys| == 1 then e else "";
    var first := Entry(b + s, PiecesOf(k), "", Item(Gap(l), Tree(v, l, inner), after));
    MemberPrints(first, b + s, Quoted(k), Gap(l), Dump(v, l, inner), after);
    if |keys| == 1 {
      MembersOne(first, map[]);
      Around(b, s, d, e);
    } else {
      var rest := TreeMembers(j, keys[1..], l, inner, outer);
      MembersPrint(j, keys[1..], l, inner, outer);
      MembersOfTwo(first, rest);
      Between(b, s, d, DumpMembers(j, keys[1..], l, inner), e);
    }
  }

  lemma QuotedIs(s: string)
    ensures AllPieces(PiecesOf(s)) && Quote(PiecesOf(s)) == Quoted(s)
  {
    hide Spelling, EscapeString;
    PiecesSpell(s);
    assert Quoted(s) == [QUOTE] + (EscapeString(s) + [QUOTE]);
  }

  lemma MemberPrints(e: Entry, before: string, key: string, gap: string, d: string, after: string)
    requires GoodEntry(e) && WellFormed(e.item.v) && e.before == before && e.after == "" && Quote(e.key) == key
    requires e.item.before == gap && Print(e.item.v) == d && e.item.after == after
    ensures PrintMember(e) == before + ((key + (":" + (gap + d))) + after)
  {
    hide Quote, Print;
    assert "" + (":" + (gap + (d + after))) == ":" + (gap + (d + after));
    assert key + (":" + (gap + (d + after))) == (key + (":" + (gap + d))) + after;
  }

  lemma TreeMembersAre(j: Json, keys: seq<string>, l: Layout, inner: nat, outer: nat)
    requires j.Obj? && keys != [] && forall k :: k in keys ==> k in j.o
    ensures var e, b := Break(l) + Spaces(outer), Break(l) + Spaces(inner);
      var v := Tree(j.o[keys[0]], l, inner);
      TreeMembers(j, keys, l, inner, outer) ==
        if |keys| == 1 then [Entry(b, PiecesOf(keys[0]), "", Item(Gap(l), v, e))]
        else [Entry(b, PiecesOf(keys[0]), "", Item(Gap(l), v, ""))] + TreeMembers(j, keys[1..], l, inner, outer)
  {
    hide Tree, Break, Spaces, Gap;
  }

  lemma DumpMembersAre(j: Json, keys: seq<string>, l: Layout, inner: nat)
    requires j.Obj? && keys != [] && forall k :: k in keys ==> k in j.o
    ensures var d := Quoted(keys[0]) + (":" + (Gap(l) + Dump(j.o[keys[0]], l, inner)));
      DumpMembers(j, keys, l, inner) == if |keys| == 1 then Spaces(inner) + d
      else Spaces(inner) + d + ("," + Break(l) + DumpMembers(j, keys[1..], l, inner))
  {
    hide Dump, Break, Spaces, Quoted;
    var s, q, g, v := Spaces(inner), Quoted(keys[0]), Gap(l), Dump(j.o[keys[0]], l, inner);
    assert s + q + ":" + g + v == s + (q + (":" + (g + v)));
    assert s + q + ":" + g + v + "" == s + q + ":" + g + v;
  }

  lemma MembersOfTwo(e: Entry, rest: seq<Entry>)
    requires GoodEntry(e) && rest != [] && GoodEntries(rest)
    ensures GoodEntries([e] + rest) && PrintMembers([e] + rest) == PrintMember(e) + ("," + PrintMembers(rest))
  {
    hide GoodEntry, PrintMember;
    assert ([e] + rest)[1..] == rest;
  }

  // ----- Where dump breaks lines, and how far it indents them -----

  /** The gap at nesting depth n: nothing, or a new line with n steps of blanks, in 32-bit arithmetic. */
  function Line(l: Layout, n: nat): string {
    if l.pretty then "\n" + Spaces(n * l.step % TWO32) else ""
  }

  /** Every value and key starts a line at its nesting depth, and so does every closing bracket. */
  ghost predicate LaidOut(s: Syntax, l: Layout, n: nat)
    decreases s
  {
    match s
    case List(gap, items) => gap == "" && forall i :: 0 <= i < |items| ==> ItemLaidOut(items[i], i == |items| - 1, l, n)
    case Record(gap, members) =>
      gap == "" && forall i :: 0 <= i < |members| ==> EntryLaidOut(members[i], i == |members| - 1, l, n)
    case _ => true
  }

  ghost predicate ItemLaidOut(i: Item, last: bool, l: Layout, n: nat)
    decreases i
  {
    i.before == Line(l, n + 1) && i.after == (if last then Line(l, n) else "") && LaidOut(i.v, l, n + 1)
  }

  ghost predicate EntryLaidOut(e: Entry, last: bool, l: Layout, n: nat)
    decreases e
  {
    && e.before == Line(l, n + 1) && e.after == "" && e.item.before == (if l.pretty then " " else "")
    && e.item.after == (if last then Line(l, n) else "") && LaidOut(e.item.v, l, n + 1)
  }

  ghost predicate ItemsLaidOut(items: seq<Item>, l: Layout, n: nat) {
    forall i :: 0 <= i < |items| ==> ItemLaidOut(items[i], i == |items| - 1, l, n)
  }

  ghost predicate EntriesLaidOut(members: seq<Entry>, l: Layout, n: nat) {
    forall i :: 0 <= i < |members| ==> EntryLaidOut(members[i], i == |members| - 1, l, n)
  }

  /** The indentation that dump passes on at nesting depth n. */
  function Indent(l: Layout, n: nat): nat {
    if l.pretty then n * l.step % TWO32 else 0
  }

  lemma DeeperIs(l: Layout, n: nat)
    ensures Deeper(l, Indent(l, n)) == Indent(l, n + 1)
  {
    if l.pretty {
      AddRemainder(n * l.step, l.step);
      assert (n + 1) * l.step == n * l.step + l.step;
    }
  }

  lemma AddRemainder(a: nat, b: nat)
    ensures (a % TWO32 + b) % TWO32 == (a + b) % TWO32
  {
  }

  lemma LineIs(l: Layout, n: nat)
    ensures Break(l) + Spaces(Indent(l, n)) == Line(l, n)
  {
  }

  /** dump writes a text of the grammar, laid out by nesting depth. */
  lemma {:induction false} TreeLaidOut(j: Json, l: Layout, n: nat)
    ensures LaidOut(Tree(j, l, Indent(l, n)), l, n)
    decreases j, 1
  {
    hide Deeper, Indent, TreeItems, TreeMembers, SortedKeys, ItemLaidOut, EntryLaidOut;
    DeeperIs(l, n);
    match j
    case Arr(a) =>
      if a != [] {
        ItemsOut(a, l, n);
      }
    case Obj(o) =>
      TreeObject(j, l, Indent(l, n));
      if o != map[] {
        hide Tree;
        MembersOut(j, SortedKeys(o.Keys), l, n);
      }
    case _ =>
  }

  lemma {:induction false} ItemsOut(a: seq<Json>, l: Layout, n: nat)
    requires a != []
    ensures ItemsLaidOut(TreeItems(a, l, Indent(l, n + 1), Indent(l, n)), l, n)
    decreases a
  {
    hide Tree, Indent, LaidOut, TreeItems, Line;
    var inner, outer := Indent(l, n + 1), Indent(l, n);
    TreeItemsAre(a, l, inner, outer);
    LineIs(l, n);
    LineIs(l, n + 1);
    TreeLaidOut(a[0], l, n + 1);
    if |a| > 1 {
      ItemsOut(a[1..], l, n);
    }
  }

  lemma {:induction false} MembersOut(j: Json, keys: seq<string>, l: Layout, n: nat)
    requires j.Obj? && keys != [] && forall k :: k in keys ==> k in j.o
    ensures EntriesLaidOut(TreeMembers(j, keys, l, Indent(l, n + 1), Indent(l, n)), l, n)
    decreases j, 0, |keys|
  {
    hide Tree, Indent, LaidOut, TreeMembers, Line;
    var inner, outer := Indent(l, n + 1), Indent(l, n);
    TreeMembersAre(j, keys, l, inner, outer);
    LineIs(l, n);
    LineIs(l, n + 1);
    TreeLaidOut(j.o[keys[0]], l, n + 1);
    if |keys| > 1 {
      MembersOut(j, keys[1..], l, n);
    }
  }

  /** The keys of every object are in ascending order. */
  ghost predicate Ordered(s: Syntax)
    decreases s
  {
    match s
    case List(_, items) => forall i :: 0 <= i < |items| ==> Ordered(items[i].v)
    case Record(_, members) =>
      && (forall i :: 0 <= i < |members| ==> EntryOrdered(members[i]))
      && (forall i, k :: 0 <= i < k < |members| ==> Earlier(members[i].key, members[k].key))
    case _ => true
  }

  ghost predicate EntryOrdered(e: Entry)
    decreases e
  {
    Ordered(e.item.v)
  }

  ghost predicate Earlier(p: seq<Piece>, q: seq<Piece>) {
    && AllPieces(p) && AllPieces(q) && Decoded(p).Ok? && Decoded(q).Ok? && Less(Decoded(p).value, Decoded(q).value)
  }

  lemma {:induction false} TreeOrdered(j: Json, l: Layout, indent: nat)
    ensures Ordered(Tree(j, l, indent))
    decreases j, 1
  {
    hide Deeper;
    match j
    case Arr(a) =>
      if a != [] {
        hide TreeItems;
        ItemsOrdered(a, l, Deeper(l, indent), indent);
      }
    case Obj(o) =>
      TreeObject(j, l, indent);
      if o != map[] {
        hide TreeMembers, SortedKeys, Less, Tree;
        MembersOrdered(j, SortedKeys(o.Keys), l, Deeper(l, indent), indent);
        KeysOrdered(j, SortedKeys(o.Keys), l, Deeper(l, indent), indent);
      }
    case _ =>
  }

  lemma {:induction false} ItemsOrdered(a: seq<Json>, l: Layout, inner: nat, outer: nat)
    requires a != []
    ensures forall i :: 0 <= i < |a| ==> Ordered(TreeItems(a, l, inner, outer)[i].v)
    decreases a
  {
    hide Tree, Ordered, TreeItems;
    TreeItemsAre(a, l, inner, outer);
    TreeOrdered(a[0], l, inner);
    if |a| > 1 {
      ItemsOrdered(a[1..], l, inner, outer);
    }
  }

  lemma {:induction false} MembersOrdered(j: Json, keys: seq<string>, l: Layout, inner: nat, outer: nat)
    requires j.Obj? && keys != [] && forall k :: k in keys ==> k in j.o
    ensures var members := TreeMembers(j, keys, l, inner, outer);
      forall i :: 0 <= i < |keys| ==> EntryOrdered(members[i]) && members[i].key == PiecesOf(keys[i])
    decreases j, 0, |keys|
  {
    hide Tree, Ordered, TreeMembers;
    TreeMembersAre(j, keys, l, inner, outer);
    TreeOrdered(j.o[keys[0]], l, inner);
    if |keys| > 1 {
      MembersOrdered(j, keys[1..], l, inner, outer);
    }
  }

  lemma KeysOrdered(j: Json, keys: seq<string>, l: Layout, inner: nat, outer: nat)
    requires j.Obj? && keys != [] && forall k :: k in keys ==> k in j.o
    requires forall i, k :: 0 <= i < k < |keys| ==> Less(keys[i], keys[k])
    requires var members := TreeMembers(j, keys, l, inner, outer);
      forall i :: 0 <= i < |keys| ==> members[i].key == PiecesOf(keys[i])
    ensures var members := TreeMembers(j, keys, l, inner, outer);
      forall i, k :: 0 <= i < k < |members| ==> Earlier(members[i].key, members[k].key)
  {
    hide TreeMembers, Less, Decoded;
    var members := TreeMembers(j, keys, l, inner, outer);
    forall i, k | 0 <= i < k < |members|
      ensures Earlier(members[i].key, members[k].key)
    {
      PiecesSpell(keys[i]);
      PiecesSpell(keys[k]);
    }
  }

  /**
   What dump prints is a text of the grammar that means the value, in which every line is indented by
   its nesting depth and the keys of every object ascend.
   */
  lemma DumpLaidOut(j: Json, l: Layout) returns (s: Syntax)
    ensures WellFormed(s) && Print(s) == Dump(j, l, 0) && LaidOut(s, l, 0) && Ordered(s)
    ensures Fits(j) ==> Means(s) == Val(Norm(j))
  {
    hide Tree, Dump, Print, Means, LaidOut, Ordered, WellFormed, Fits, Norm;
    if Fits(j) {
      TreePrints(j, l, 0);
      TreeMeans(j, l, 0);
    }
    TreeOrdered(j, l, 0);
    s := Tree(j, l, 0);
    TreePrints(j, l, 0);
    assert Indent(l, 0) == 0;
    TreeLaidOut(j, l, 0);
  }

  // ----- What dump writes means the value -----

  ghost function NormAll(a: seq<Json>): (r: seq<Json>)
    ensures |r| == |a| && forall i :: 0 <= i < |a| ==> r[i] == Norm(a[i])
  {
    seq(|a|, i requires 0 <= i < |a| => Norm(a[i]))
  }

  lemma {:induction false} TreeMeans(j: Json, l: Layout, indent: nat)
    requires Fits(j) && WellFormed(Tree(j, l, indent))
    ensures Means(Tree(j, l, indent)) == Val(Norm(j))
    decreases j, 1
  {
    match j
    case Int(i) => NumeralOfIs(i);
    case Unsigned(u) => NumeralOfIs(u);
    case Str(s) => PiecesSpell(s);
    case Arr(a) => ArrayMeans(j, l, indent);
    case Obj(o) => ObjectMeans(j, l, indent);
    case _ =>
  }

  lemma {:induction false} ArrayMeans(j: Json, l: Layout, indent: nat)
    requires j.Arr? && Fits(j) && WellFormed(Tree(j, l, indent))
    ensures Means(Tree(j, l, indent)) == Val(Norm(j))
    decreases j, 0
  {
    if j.a != [] {
      hide TreeItems, MeansItems;
      ItemsMean(j.a, l, Deeper(l, indent), indent);
    }
    assert Norm(j).a == NormAll(j.a);
  }

  lemma {:induction false} ObjectMeans(j: Json, l: Layout, indent: nat)
    requires j.Obj? && Fits(j) && WellFormed(Tree(j, l, indent))
    ensures Means(Tree(j, l, indent)) == Val(Norm(j))
    decreases j, 0, |SortedKeys(j.o.Keys)| + 1
  {
    hide Tree, TreeMembers, Means, MeansMembers, SortedKeys, Norm, WellFormed, Added, Fits;
    NormMembers(j);
    TreeObject(j, l, indent);
    RecordMeans(Tree(j, l, indent).members);
    if j.o != map[] {
      MembersMean(j, SortedKeys(j.o.Keys), l, Deeper(l, indent), indent, map[]);
    } else {
      NoMembersMeant();
    }
  }

  lemma TreeObject(j: Json, l: Layout, indent: nat)
    requires j.Obj?
    ensures j.o != map[] ==> SortedKeys(j.o.Keys) != []
    ensures Tree(j, l, indent) == Record("", if j.o == map[] then []
      else TreeMembers(j, SortedKeys(j.o.Keys), l, Deeper(l, indent), indent))
  {
    hide SortedKeys, TreeMembers;
    if j.o != map[] {
      KeysSome(j.o);
    }
  }

  lemma RecordMeans(members: seq<Entry>)
    requires WellFormed(Record("", members))
    ensures GoodEntries(members) && Means(Record("", members)) == MeansMembers(members, map[])
  {
    hide MeansMembers, GoodEntry;
  }

  lemma NormAllAre(a: seq<Json>)
    requires a != []
    ensures NormAll(a) == [Norm(a[0])] + NormAll(a[1..]) && NormAll([]) == []
  {
    hide Norm;
  }

  lemma {:induction false} ItemsMean(a: seq<Json>, l: Layout, inner: nat, outer: nat)
    requires a != [] && (forall i :: 0 <= i < |a| ==> Fits(a[i])) && GoodItems(TreeItems(a, l, inner, outer))
    ensures MeansItems(TreeItems(a, l, inner, outer)) == Val(Arr(NormAll(a)))
    decreases a
  {
    hide Means, Tree, Norm, Fits, WellFormed, TreeItems, MeansItems, IsGap, NormAll;
    var items := TreeItems(a, l, inner, outer);
    TreeItemsAre(a, l, inner, outer);
    assert GoodItem(items[0]);
    TreeMeans(a[0], l, inner);
    ItemsAre(items);
    NormAllAre(a);
    if |a| == 1 {
      assert items[1..] == [];
    } else {
      assert items[1..] == TreeItems(a[1..], l, inner, outer);
      ItemsMean(a[1..], l, inner, outer);
    }
  }

  lemma {:induction false} MembersMean(j: Json, keys: seq<string>, l: Layout, inner: nat, outer: nat,
                                       done: map<string, Json>)
    requires j.Obj? && Fits(j) && keys != [] && forall k :: k in keys ==> k in j.o
    requires GoodEntries(TreeMembers(j, keys, l, inner, outer))
    ensures MeansMembers(TreeMembers(j, keys, l, inner, outer), done) == Val(Obj(Added(done, j, keys)))
    decreases j, 0, |keys|
  {
    hide Means, Tree, Norm, WellFormed, Decoded;
    var members := TreeMembers(j, keys, l, inner, outer);
    assert GoodEntry(members[0]) && GoodItem(members[0].item);
    TreeMeans(j.o[keys[0]], l, inner);
    PiecesSpell(keys[0]);
    MembersAre(members, done);
    if |keys| > 1 {
      assert members[1..] == TreeMembers(j, keys[1..], l, inner, outer);
      MembersMean(j, keys[1..], l, inner, outer, done[keys[0] := Norm(j.o[keys[0]])]);
    }
  }

  lemma {:induction false} NormMembers(j: Json)
    requires j.Obj?
    ensures Norm(j) == Obj(Added(map[], j, SortedKeys(j.o.Keys)))
    ensures j.o == map[] ==> Norm(j) == Obj(map[])
  {
    hide SortedKeys, Added;
    var keys := SortedKeys(j.o.Keys);
    AddedAll(map[], j, keys);
    var r := Added(map[], j, keys);
    assert r.Keys == j.o.Keys;
    assert Norm(j).o == r;
  }

  /** The members of an object put into a map one after the other. */
  ghost function Added(done: map<string, Json>, j: Json, keys: seq<string>): map<string, Json>
    requires j.Obj? && forall k :: k in keys ==> k in j.o
    decreases |keys|
  {
    if keys == [] then done else Added(done[keys[0] := Norm(j.o[keys[0]])], j, keys[1..])
  }

  lemma {:induction false} AddedAll(done: map<string, Json>, j: Json, keys: seq<string>)
    requires j.Obj? && forall k :: k in keys ==> k in j.o
    ensures var r := Added(done, j, keys);
      && (forall k :: k in r <==> k in done || k in keys)
      && (forall k :: k in keys ==> r[k] == Norm(j.o[k]))
      && (forall k :: k in done && k !in keys ==> r[k] == done[k])
    decreases |keys|
  {
    hide Norm;
    if keys != [] {
      assert keys == [keys[0]] + keys[1..];
      AddedAll(done[keys[0] := Norm(j.o[keys[0]])], j, keys[1..]);
    }
  }

  /** Parsing what dump prints gives the value, in every layout. */
  lemma ParseOfDump(j: Json, l: Layout)
    requires Fits(j)
    ensures Parse(Dump(j, l, 0)).Read? && Parse(Dump(j, l, 0)).j == Norm(j)
    ensures Canon(Norm(j)) == Canon(j) && Equal(Norm(j), j)
  {
    hide Parse, Dump, Norm, Equal, Canon, Fits, Tree, Print, Means, WellFormed, IsGap;
    var text, s := Dump(j, l, 0), Tree(j, l, 0);
    TreePrints(j, l, 0);
    TreeMeans(j, l, 0);
    LayoutGaps(l, 0);
    assert text == "" + (Print(s) + ("" + ""));
    ParseComplete(text, "", s, "", "");
    NormCanon(j);
    NormEqual(j);
  }
}
