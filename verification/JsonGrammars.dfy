/**
 The grammar of JSON texts (RFC 7159).  The parser accepts exactly the texts of this grammar, in
 which byte order marks count as blanks and a NUL ends the text, and gives what they mean.
 */
module JsonGrammars {
  import opened Basics
  import opened JsonValues
  import opened JsonLexers
  import opened JsonParsers
  import opened JsonNumerals
  import opened JsonStrings

  const BLANKS: set<char> := {0x20 as char, 0x09 as char, 0x0a as char, 0x0d as char}
  const BOM: string := [0xef as char, 0xbb as char, 0xbf as char]

  /** What may stand between two tokens. */
  ghost predicate IsGap(s: string)
    decreases |s|
  {
    s == "" || (s[0] in BLANKS && IsGap(s[1..])) || (|s| >= 3 && s[..3] == BOM && IsGap(s[3..]))
  }

  /** How a value is written. */
  datatype Syntax =
    | NullWord
    | BoolWord(b: bool)
    | Text(ps: seq<Piece>)
    | Num(n: Numeral)
    | List(gap: string, items: seq<Item>)
    | Record(gap: string, members: seq<Entry>)

  /** A value with the gaps around it. */
  datatype Item = Item(before: string, v: Syntax, after: string)

  /** A key with the gaps around it, and its value. */
  datatype Entry = Entry(before: string, key: seq<Piece>, after: string, item: Item)

  ghost predicate WellFormed(s: Syntax)
    decreases s
  {
    match s
    case Text(ps) => AllPieces(ps)
    case Num(n) => IsNumeral(n)
    case List(gap, items) => IsGap(gap) && forall i :: 0 <= i < |items| ==> GoodItem(items[i])
    case Record(gap, members) => IsGap(gap) && forall i :: 0 <= i < |members| ==> GoodEntry(members[i])
    case _ => true
  }

  ghost predicate GoodItem(i: Item)
    decreases i
  {
    IsGap(i.before) && IsGap(i.after) && WellFormed(i.v)
  }

  ghost predicate GoodEntry(e: Entry)
    decreases e
  {
    IsGap(e.before) && IsGap(e.after) && AllPieces(e.key) && GoodItem(e.item)
  }

  ghost predicate GoodItems(items: seq<Item>) {
    forall i :: 0 <= i < |items| ==> GoodItem(items[i])
  }

  ghost predicate GoodEntries(members: seq<Entry>) {
    forall i :: 0 <= i < |members| ==> GoodEntry(members[i])
  }

  ghost function Quote(ps: seq<Piece>): string
    requires AllPieces(ps)
  {
    [QUOTE] + (Spelling(ps) + [QUOTE])
  }

  ghost function Print(s: Syntax): (r: string)
    requires WellFormed(s)
    decreases s
  {
    match s
    case NullWord => "null"
    case BoolWord(b) => if b then "true" else "false"
    case Text(ps) => Quote(ps)
    case Num(n) => Written(n)
    case List(gap, items) => "[" + ((if items == [] then gap else PrintItems(items)) + "]")
    case Record(gap, members) => "{" + ((if members == [] then gap else PrintMembers(members)) + "}")
  }

  ghost function PrintItem(i: Item): string
    requires GoodItem(i)
    decreases i
  {
    i.before + (Print(i.v) + i.after)
  }

  ghost function PrintItems(items: seq<Item>): string
    requires items != [] && GoodItems(items)
    decreases items
  {
    if |items| == 1 then PrintItem(items[0]) else PrintItem(items[0]) + ("," + PrintItems(items[1..]))
  }

  ghost function PrintMember(e: Entry): string
    requires GoodEntry(e)
    decreases e
  {
    e.before + (Quote(e.key) + (e.after + (":" + PrintItem(e.item))))
  }

  ghost function PrintMembers(members: seq<Entry>): string
    requires members != [] && GoodEntries(members)
    decreases members
  {
    if |members| == 1 then PrintMember(members[0]) else PrintMember(members[0]) + ("," + PrintMembers(members[1..]))
  }

  /** A value, a number that is not an integer, or a string that stands for nothing. */
  datatype Meant = Val(j: Json) | Flt | Bad

  ghost function Means(s: Syntax): (m: Meant)
    requires WellFormed(s)
    decreases s
  {
    match s
    case NullWord => Val(Null)
    case BoolWord(b) => Val(Bool(b))
    case Text(ps) => (match Decoded(ps) case Ok(t) => Val(Str(t)) case Err(_) => Bad)
    case Num(n) => (match NumberOf(n) case Some(j) => Val(j) case None => Flt)
    case List(_, items) => MeansItems(items)
    case Record(_, members) => MeansMembers(members, map[])
  }

  /** The values in order, or the first that has none. */
  ghost function MeansItems(items: seq<Item>): (m: Meant)
    requires GoodItems(items)
    ensures m.Val? ==> m.j.Arr?
    decreases items
  {
    if items == [] then Val(Arr([])) else Join(Means(items[0].v), MeansItems(items[1..]))
  }

  function Join(first: Meant, rest: Meant): (m: Meant)
    requires rest.Val? ==> rest.j.Arr?
    ensures m.Val? ==> m.j.Arr?
  {
    if !first.Val? then first else if !rest.Val? then rest else Val(Arr([first.j] + rest.j.a))
  }

  /** The members, of which a later one replaces an earlier one with the same key. */
  ghost function MeansMembers(members: seq<Entry>, done: map<string, Json>): (m: Meant)
    requires GoodEntries(members)
    ensures m.Val? ==> m.j.Obj?
    decreases members
  {
    if members == [] then Val(Obj(done)) else
    assert GoodEntry(members[0]) && GoodItem(members[0].item);
    match Decoded(members[0].key)
    case Err(_) => Bad
    case Ok(key) => match Means(members[0].item.v)
      case Val(j) => MeansMembers(members[1..], done[key := j])
      case failed => failed
  }

  // ----- Gaps and marks -----

  lemma {:induction false} SkipGap(text: string, p: nat, s: string)
    requires Spells(text, p, s) && IsGap(s)
    ensures Scan(text, p) == Scan(text, p + |s|)
    decreases |s|
  {
    if s != "" {
      var k := if s[0] in BLANKS then 1 else 3;
      assert s == s[..k] + s[k..];
      SpellsParts(text, p, s[..k], s[k..]);
      GapScanned(text, p, s[..k]);
      SkipGap(text, p + k, s[k..]);
    }
  }

  lemma GapScanned(text: string, p: nat, s: string)
    requires Spells(text, p, s) && (s == BOM || (|s| == 1 && s[0] in BLANKS))
    ensures Scan(text, p) == Scan(text, p + |s|) && Stops(text, p)
  {
    SpellsAt(text, p, s, 0);
    if s == BOM {
      SpellsAt(text, p, s, 1);
      SpellsAt(text, p, s, 2);
    }
  }

  lemma GapStops(text: string, p: nat, s: string)
    requires Spells(text, p, s) && IsGap(s) && Stops(text, p + |s|)
    ensures Stops(text, p)
  {
    if s != "" {
      var k := if s[0] in BLANKS then 1 else 3;
      assert s == s[..k] + s[k..];
      SpellsParts(text, p, s[..k], s[k..]);
      GapScanned(text, p, s[..k]);
    }
  }

  /** The punctuation tokens. */
  function Mark(c: char): (r: Option<Kind>) {
    if c == ',' then Some(ValueSeparator) else if c == ':' then Some(NameSeparator)
    else if c == '[' then Some(BeginArray) else if c == ']' then Some(EndArray)
    else if c == '{' then Some(BeginObject) else if c == '}' then Some(EndObject)
    else None
  }

  lemma MarkToken(text: string, p: nat, c: char)
    requires Spells(text, p, [c]) && Mark(c).Some?
    ensures Scan(text, p) == Token(Mark(c).value, p, p + 1) && Stops(text, p) && p < |text|
  {
    SpellsAt(text, p, [c], 0);
  }

  /** Behind a gap there is a mark. */
  lemma GapThenMark(text: string, p: nat, gap: string, c: char)
    requires Spells(text, p, gap) && IsGap(gap) && Spells(text, p + |gap|, [c]) && Mark(c).Some?
    ensures var e := p + |gap|; Scan(text, p) == Token(Mark(c).value, e, e + 1) && Stops(text, p)
  {
    hide Spells, Scan, IsGap, Stops, Mark;
    MarkToken(text, p + |gap|, c);
    SkipGap(text, p, gap);
    GapStops(text, p, gap);
  }

  // ----- Every text of the grammar is read as what it means -----

  function Outcome(m: Meant, next: Token): Parsed {
    match m
    case Val(j) => Read(j, next)
    case Flt => Floating
    case Bad => Rejected
  }

  /** The token at p starts a value that means m, and the token behind the value is the one at q. */
  ghost predicate Reads(text: string, p: nat, m: Meant, q: nat) {
    var t := Scan(text, p);
    && t.kind !in {EndOfInput, EndArray, EndObject, ValueSeparator, NameSeparator, ParseError}
    && ParseValue(text, t) == Outcome(m, Scan(text, q))
  }

  ghost predicate ReadsItems(text: string, p: nat, done: seq<Json>, m: Meant, q: nat)
    requires m.Val? ==> m.j.Arr?
  {
    var t := Scan(text, p);
    && t.kind !in {EndOfInput, EndArray, EndObject, ValueSeparator}
    && ParseItems(text, t, done)
       == Outcome(if m.Val? then Val(Arr(done + m.j.a)) else m, Next(text, Scan(text, q)))
  }

  ghost predicate ReadsMembers(text: string, p: nat, done: map<string, Json>, m: Meant, q: nat) {
    var t := Scan(text, p);
    && t.kind == ValueString
    && ParseMembers(text, t, done) == Outcome(m, Next(text, Scan(text, q)))
  }

  lemma {:induction false} ReadValue(text: string, p: nat, s: Syntax)
    requires WellFormed(s) && Spells(text, p, Print(s)) && Stops(text, p + |Print(s)|)
    ensures Reads(text, p, Means(s), p + |Print(s)|)
    decreases s, 1
  {
    match s
    case List(_, _) => ReadList(text, p, s);
    case Record(_, _) => ReadRecord(text, p, s);
    case _ => ReadScalar(text, p, s);
  }

  lemma WordToken(text: string, p: nat, word: string, kind: Kind)
    requires (word, kind) in {("null", LiteralNull), ("true", LiteralTrue), ("false", LiteralFalse)}
    requires Spells(text, p, word)
    ensures Scan(text, p) == Token(kind, p, p + |word|)
  {
    SpellsAt(text, p, word, 0);
  }

  lemma QuoteToken(text: string, p: nat, ps: seq<Piece>)
    requires AllPieces(ps) && Spells(text, p, Quote(ps))
    ensures var t := Token(ValueString, p, p + |Quote(ps)|);
      Scan(text, p) == t && GetString(text, t.start + 1, t.end - 1) == Decoded(ps)
  {
    hide Spells, Spelling, StringEnd, GetString, Decoded;
    SpellsParts(text, p, [QUOTE], Spelling(ps) + [QUOTE]);
    SpellsAt(text, p, [QUOTE], 0);
    StringScanned(text, p + 1, ps);
    StringRead(text, p + 1, ps, p + 1 + |Spelling(ps)|);
  }

  lemma ReadScalar(text: string, p: nat, s: Syntax)
    requires WellFormed(s) && !s.List? && !s.Record?
    requires Spells(text, p, Print(s)) && Stops(text, p + |Print(s)|)
    ensures Reads(text, p, Means(s), p + |Print(s)|)
  {
    hide Scan, Spells, GetString, GetNumber, Written, Quote, ParseItems, ParseMembers, Stops, Decoded, NumberOf;
    ScanBound(text, p);
    match s
    case Num(n) =>
      NumeralScans(text, p, n);
      NumeralReads(text, p, n);
    case Text(ps) => QuoteToken(text, p, ps);
    case NullWord => WordToken(text, p, "null", LiteralNull);
    case BoolWord(b) => WordToken(text, p, if b then "true" else "false", if b then LiteralTrue else LiteralFalse);
  }

  /** What stands between two brackets. */
  lemma Enclosed(text: string, p: nat, open: char, body: string, close: char)
    requires Spells(text, p, [open] + (body + [close])) && Mark(open).Some? && Mark(close).Some?
    ensures Scan(text, p) == Token(Mark(open).value, p, p + 1) && p + 1 <= |text|
    ensures Spells(text, p + 1, body) && Spells(text, p + 1 + |body|, [close])
    ensures var q := p + 1 + |body|; Scan(text, q) == Token(Mark(close).value, q, q + 1) && Stops(text, q)
  {
    hide Spells, Scan, Stops, Mark;
    SpellsParts(text, p, [open], body + [close]);
    SpellsParts(text, p + 1, body, [close]);
    MarkToken(text, p, open);
    MarkToken(text, p + 1 + |body|, close);
  }

  lemma EmptyReads(text: string, p: nat, e: nat, s: Syntax)
    requires (s.List? && s.items == []) || (s.Record? && s.members == [])
    requires Scan(text, p) == Token(if s.List? then BeginArray else BeginObject, p, p + 1) && p + 1 <= |text|
    requires Scan(text, p + 1) == Token(if s.List? then EndArray else EndObject, e, e + 1)
    requires WellFormed(s)
    ensures Reads(text, p, Means(s), e + 1)
  {
    hide Scan;
  }

  lemma {:induction false} ReadList(text: string, p: nat, s: Syntax)
    requires WellFormed(s) && s.List? && Spells(text, p, Print(s))
    ensures Reads(text, p, Means(s), p + |Print(s)|)
    decreases s, 0
  {
    hide Scan, Spells, Reads, ReadsItems, Stops, PrintItems, MeansItems, IsGap;
    var body := if s.items == [] then s.gap else PrintItems(s.items);
    Enclosed(text, p, '[', body, ']');
    var q := p + 1 + |body|;
    if s.items == [] {
      GapThenMark(text, p + 1, s.gap, ']');
      EmptyReads(text, p, q, s);
    } else {
      assert GoodItems(s.items);
      ReadItems(text, p + 1, s.items, [], q);
      ListOpens(text, p, MeansItems(s.items), q, q + 1);
    }
  }

  lemma ListOpens(text: string, p: nat, m: Meant, q: nat, e: nat)
    requires m.Val? ==> m.j.Arr?
    requires Scan(text, p) == Token(BeginArray, p, p + 1) && p + 1 <= |text|
    requires ReadsItems(text, p + 1, [], m, q) && Scan(text, q).end == e
    ensures Reads(text, p, m, e)
  {
    hide Scan, ParseItems;
    if m.Val? {
      assert [] + m.j.a == m.j.a;
    }
  }

  lemma {:induction false} ReadItems(text: string, p: nat, items: seq<Item>, done: seq<Json>, q: nat)
    requires items != [] && GoodItems(items)
    requires Spells(text, p, PrintItems(items)) && q == p + |PrintItems(items)|
    requires Stops(text, q) && Scan(text, q).kind == EndArray
    ensures ReadsItems(text, p, done, MeansItems(items), q)
    decreases items
  {
    hide Scan, Spells, Reads, ReadsItems, Stops, PrintItem, PrintItems, Means, MeansItems, IsGap;
    var i, m := items[0], Means(items[0].v);
    ItemsAre(items);
    if |items| == 1 {
      var v, c := ReadItem(text, p, i, q);
      assert ReadsUpTo(text, v, m, c, q);
      assert items[1..] == [];
      OneItem(text, p, done, v, m, q);
    } else {
      var rest := items[1..];
      var one, more := PrintItem(i), PrintItems(rest);
      SpellsParts(text, p, one, "," + more);
      var c := p + |one|;
      SpellsParts(text, c, ",", more);
      MarkToken(text, c, ',');
      var v, c' := ReadItem(text, p, i, c);
      assert ReadsUpTo(text, v, m, c', c);
      if m.Val? {
        ReadItems(text, c + 1, rest, done + [m.j], q);
      }
      ItemThenMore(text, p, done, v, m, MeansItems(rest), c, q);
    }
  }

  lemma ItemsAre(items: seq<Item>)
    requires items != [] && GoodItems(items)
    ensures GoodItem(items[0]) && GoodItems(items[1..])
    ensures PrintItems(items)
      == if |items| == 1 then PrintItem(items[0]) else PrintItem(items[0]) + ("," + PrintItems(items[1..]))
    ensures MeansItems(items) == Join(Means(items[0].v), MeansItems(items[1..]))
    ensures MeansItems([]) == Val(Arr([]))
  {
    hide PrintItem, Means;
  }

  /** A value with its gaps, up to a place where a mark stands. */
  lemma {:induction false} ReadItem(text: string, p: nat, i: Item, q: nat) returns (v: nat, c: nat)
    requires GoodItem(i) && Spells(text, p, PrintItem(i)) && q == p + |PrintItem(i)| && Stops(text, q)
    ensures Scan(text, p) == Scan(text, v) && Reads(text, v, Means(i.v), c) && Scan(text, c) == Scan(text, q)
    decreases i
  {
    hide Scan, Spells, Reads, Stops, Print, Means, IsGap;
    v := p + |i.before|;
    c := v + |Print(i.v)|;
    SpellsParts(text, p, i.before, Print(i.v) + i.after);
    SpellsParts(text, v, Print(i.v), i.after);
    SkipGap(text, p, i.before);
    SkipGap(text, c, i.after);
    GapStops(text, c, i.after);
    ReadValue(text, v, i.v);
  }

  lemma OneItem(text: string, p: nat, done: seq<Json>, v: nat, m: Meant, q: nat)
    requires Scan(text, q).kind == EndArray && Scan(text, p) == Scan(text, v) && exists c :: ReadsUpTo(text, v, m, c, q)
    ensures ReadsItems(text, p, done, Join(m, Val(Arr([]))), q)
  {
    hide Scan, ParseValue;
    var c :| ReadsUpTo(text, v, m, c, q);
    ScanBound(text, p);
    if m.Val? {
      assert [m.j] + [] == [m.j];
    }
  }

  ghost predicate ReadsUpTo(text: string, v: nat, m: Meant, c: nat, q: nat) {
    Reads(text, v, m, c) && Scan(text, c) == Scan(text, q)
  }

  lemma ItemThenMore(text: string, p: nat, done: seq<Json>, v: nat, m: Meant, rest: Meant, c: nat, q: nat)
    requires rest.Val? ==> rest.j.Arr?
    requires Scan(text, p) == Scan(text, v) && exists c' :: ReadsUpTo(text, v, m, c', c)
    requires Scan(text, c) == Token(ValueSeparator, c, c + 1)
    requires m.Val? ==> ReadsItems(text, c + 1, done + [m.j], rest, q)
    ensures ReadsItems(text, p, done, Join(m, rest), q)
  {
    hide Scan, ParseValue;
    var c' :| ReadsUpTo(text, v, m, c', c);
    ScanBound(text, p);
    if m.Val? && rest.Val? {
      assert done + [m.j] + rest.j.a == done + ([m.j] + rest.j.a);
    }
  }

  lemma {:induction false} ReadRecord(text: string, p: nat, s: Syntax)
    requires WellFormed(s) && s.Record? && Spells(text, p, Print(s))
    ensures Reads(text, p, Means(s), p + |Print(s)|)
    decreases s, 0
  {
    hide Scan, Spells, Reads, ReadsMembers, Stops, PrintMembers, MeansMembers, IsGap;
    var body := if s.members == [] then s.gap else PrintMembers(s.members);
    Enclosed(text, p, '{', body, '}');
    var q := p + 1 + |body|;
    if s.members == [] {
      GapThenMark(text, p + 1, s.gap, '}');
      EmptyReads(text, p, q, s);
    } else {
      assert GoodEntries(s.members);
      ReadMembers(text, p + 1, s.members, map[], q);
      RecordOpens(text, p, MeansMembers(s.members, map[]), q, q + 1);
    }
  }

  lemma RecordOpens(text: string, p: nat, m: Meant, q: nat, e: nat)
    requires Scan(text, p) == Token(BeginObject, p, p + 1) && p + 1 <= |text|
    requires ReadsMembers(text, p + 1, map[], m, q) && Scan(text, q).end == e
    ensures Reads(text, p, m, e)
  {
    hide Scan, ParseMembers;
  }

  /** The member from p on has this key and a value that means m; the token behind it is the one at q. */
  ghost predicate ReadsMember(text: string, p: nat, key: Result<string>, m: Meant, v: nat, q: nat) {
    var t := Scan(text, p);
    && t.kind == ValueString && ParseKey(text, t) == key && Next(text, Next(text, t)) == Scan(text, v)
    && exists c :: ReadsUpTo(text, v, m, c, q)
  }

  lemma {:induction false} ReadMembers(text: string, p: nat, members: seq<Entry>, done: map<string, Json>, q: nat)
    requires members != [] && GoodEntries(members)
    requires Spells(text, p, PrintMembers(members)) && q == p + |PrintMembers(members)|
    requires Stops(text, q) && Scan(text, q).kind == EndObject
    ensures ReadsMembers(text, p, done, MeansMembers(members, done), q)
    decreases members
  {
    hide Scan, Spells, Reads, ReadsMember, ReadsMembers, Stops, PrintMember, PrintMembers, Means, MeansMembers, IsGap;
    hide Decoded;
    var e := members[0];
    MembersAre(members, done);
    var key, m := Decoded(e.key), Means(e.item.v);
    if |members| == 1 {
      var v := ReadMember(text, p, e, q);
      OneMember(text, p, done, key, m, v, q);
    } else {
      var rest := members[1..];
      var one, more := PrintMember(e), PrintMembers(rest);
      SpellsParts(text, p, one, "," + more);
      var c := p + |one|;
      SpellsParts(text, c, ",", more);
      MarkToken(text, c, ',');
      var v := ReadMember(text, p, e, c);
      if key.Ok? && m.Val? {
        ReadMembers(text, c + 1, rest, done[key.value := m.j], q);
        MemberThenMore(text, p, done, key, m, v, MeansMembers(rest, done[key.value := m.j]), c, q);
      } else {
        MemberThenMore(text, p, done, key, m, v, Bad, c, q);
      }
    }
  }

  lemma MembersAre(members: seq<Entry>, done: map<string, Json>)
    requires members != [] && GoodEntries(members)
    ensures GoodEntry(members[0]) && WellFormed(members[0].item.v) && GoodEntries(members[1..])
    ensures PrintMembers(members) == if |members| == 1 then PrintMember(members[0])
      else PrintMember(members[0]) + ("," + PrintMembers(members[1..]))
    ensures var key, m := Decoded(members[0].key), Means(members[0].item.v);
      MeansMembers(members, done) == if key.Err? then Bad else if !m.Val? then m
      else if |members| == 1 then Val(Obj(done[key.value := m.j]))
      else MeansMembers(members[1..], done[key.value := m.j])
  {
    hide PrintMember, Means, Decoded;
  }

  lemma {:induction false} ReadMember(text: string, p: nat, e: Entry, q: nat) returns (v: nat)
    requires GoodEntry(e) && Spells(text, p, PrintMember(e)) && q == p + |PrintMember(e)| && Stops(text, q)
    ensures ReadsMember(text, p, Decoded(e.key), Means(e.item.v), v, q)
    decreases e
  {
    hide Scan, Spells, Reads, Stops, PrintItem, Means, IsGap, Quote, GetString, Decoded;
    var k, rest := Quote(e.key), PrintItem(e.item);
    var a := p + |e.before|;
    var b := a + |k|;
    var d := b + |e.after|;
    SpellsParts(text, p, e.before, k + (e.after + (":" + rest)));
    SpellsParts(text, a, k, e.after + (":" + rest));
    SpellsParts(text, b, e.after, ":" + rest);
    SpellsParts(text, d, ":", rest);
    SkipGap(text, p, e.before);
    QuoteToken(text, a, e.key);
    GapThenMark(text, b, e.after, ':');
    var c;
    v, c := ReadItem(text, d + 1, e.item, q);
    assert ReadsUpTo(text, v, Means(e.item.v), c, q);
  }

  lemma OneMember(text: string, p: nat, done: map<string, Json>, key: Result<string>, m: Meant, v: nat, q: nat)
    requires ReadsMember(text, p, key, m, v, q) && Scan(text, q).kind == EndObject
    ensures ReadsMembers(text, p, done,
                         if key.Err? then Bad else if !m.Val? then m else Val(Obj(done[key.value := m.j])), q)
  {
    hide Scan, ParseValue, ParseKey;
    var c :| ReadsUpTo(text, v, m, c, q);
    ScanBound(text, p);
  }

  lemma MemberThenMore(text: string, p: nat, done: map<string, Json>, key: Result<string>, m: Meant, v: nat,
                       rest: Meant, c: nat, q: nat)
    requires ReadsMember(text, p, key, m, v, c) && Scan(text, c) == Token(ValueSeparator, c, c + 1)
    requires key.Ok? && m.Val? ==> ReadsMembers(text, c + 1, done[key.value := m.j], rest, q)
    ensures ReadsMembers(text, p, done, if key.Err? then Bad else if !m.Val? then m else rest, q)
  {
    hide Scan, ParseValue, ParseKey;
    var c' :| ReadsUpTo(text, v, m, c', c);
    ScanBound(text, p);
  }

  // ----- Whatever is read is a text of the grammar -----

  /** Between the place where the scanner starts and the token it finds there is a gap. */
  lemma {:induction false} GapTaken(text: string, p: nat)
    requires p <= |text|
    ensures var t := Scan(text, p);
      p <= t.start <= |text| && IsGap(text[p..t.start]) && Spells(text, p, text[p..t.start]) && Scan(text, t.start) == t
    decreases |text| - p
  {
    var t, c := Scan(text, p), Peek(text, p);
    if IsBlank(c) {
      GapTaken(text, p + 1);
      assert text[p..t.start] == [c] + text[p + 1..t.start];
    } else if c == 0xEF as char && Peek(text, p + 1) == 0xBB as char && Peek(text, p + 2) == 0xBF as char {
      GapTaken(text, p + 3);
      BomGap(text, p, t.start);
    } else {
      NoGap();
      assert text[p..t.start] == "";
    }
  }

  lemma BomGap(text: string, p: nat, e: nat)
    requires p + 3 <= e <= |text| && IsGap(text[p + 3..e])
    requires text[p] == 0xEF as char && text[p + 1] == 0xBB as char && text[p + 2] == 0xBF as char
    ensures IsGap(text[p..e])
  {
    var s := text[p..e];
    assert s[..3] == BOM && s[3..] == text[p + 3..e];
  }

  lemma NoGap()
    ensures IsGap("")
  {
  }

  lemma MarkTaken(text: string, p: nat, c: char)
    requires Scan(text, p).start == p && Mark(c).Some? && Scan(text, p).kind == Mark(c).value
    ensures Spells(text, p, [c]) && Scan(text, p).end == p + 1
  {
    assert Peek(text, p) == c;
    assert text[p..p + 1] == [c];
  }

  lemma ScalarTaken(text: string, p: nat) returns (s: Syntax)
    requires var t := Scan(text, p); t.start == p && ParseValue(text, t).Read? && t.kind !in {BeginArray, BeginObject}
    ensures WellFormed(s) && Spells(text, p, Print(s))
    ensures var r := ParseValue(text, Scan(text, p)); Means(s) == Val(r.j) && r.next == Scan(text, p + |Print(s)|)
  {
    hide Spells, NumberOf, Decoded, Written, Spelling, GetString, GetNumber, ParseItems, ParseMembers, StringEnd;
    var t := Scan(text, p);
    match t.kind
    case LiteralNull =>
      WordTaken(text, p);
      s := NullWord;
    case LiteralTrue =>
      WordTaken(text, p);
      s := BoolWord(true);
    case LiteralFalse =>
      WordTaken(text, p);
      s := BoolWord(false);
    case ValueString =>
      var ps := QuoteTaken(text, p);
      s := Text(ps);
    case ValueNumber =>
      hide Scan;
      var n := NumeralTaken(text, p);
      NumeralReads(text, p, n);
      s := Num(n);
  }

  lemma WordTaken(text: string, p: nat)
    requires Scan(text, p).start == p && Scan(text, p).kind in {LiteralNull, LiteralTrue, LiteralFalse}
    ensures var t := Scan(text, p);
      var word := if t.kind == LiteralNull then "null" else if t.kind == LiteralTrue then "true" else "false";
      Spells(text, p, word) && t.end == p + |word|
  {
  }

  lemma QuoteTaken(text: string, p: nat) returns (ps: seq<Piece>)
    requires Scan(text, p).start == p && Scan(text, p).kind == ValueString
    ensures AllPieces(ps) && Spells(text, p, Quote(ps))
    ensures var t := Scan(text, p); t.end == p + |Quote(ps)| && GetString(text, p + 1, t.end - 1) == Decoded(ps)
  {
    hide StringEnd, GetString, Decoded, Spelling;
    var t := Scan(text, p);
    assert Peek(text, p) == QUOTE && StringEnd(text, p + 1) == Some(t.end);
    assert text[p..p + 1] == [QUOTE];
    ps := StringTaken(text, p + 1);
    SpellsParts(text, p, [QUOTE], Spelling(ps) + [QUOTE]);
    StringRead(text, p + 1, ps, t.end - 1);
  }

  /** A value that has been read is written in this way. */
  lemma {:induction false} ValueTaken(text: string, p: nat) returns (s: Syntax)
    requires var t := Scan(text, p); t.start == p && ParseValue(text, t).Read?
    ensures WellFormed(s) && Spells(text, p, Print(s))
    ensures var r := ParseValue(text, Scan(text, p)); Means(s) == Val(r.j) && r.next == Scan(text, p + |Print(s)|)
    decreases |text| - Scan(text, p).end, 1
  {
    hide Scan, ParseValue, Print, Means, WellFormed, Spells;
    var t := Scan(text, p);
    if t.kind == BeginArray {
      s := ListTaken(text, p);
    } else if t.kind == BeginObject {
      s := RecordTaken(text, p);
    } else {
      s := ScalarTaken(text, p);
    }
  }

  lemma {:induction false} ListTaken(text: string, p: nat) returns (s: Syntax)
    requires var t := Scan(text, p); t.start == p && t.kind == BeginArray && ParseValue(text, t).Read?
    ensures WellFormed(s) && Spells(text, p, Print(s))
    ensures var r := ParseValue(text, Scan(text, p)); Means(s) == Val(r.j) && r.next == Scan(text, p + |Print(s)|)
    decreases |text| - Scan(text, p).end, 0
  {
    hide Scan, Spells, IsGap, PrintItems, MeansItems, ParseItems;
    MarkTaken(text, p, '[');
    var n := Next(text, Scan(text, p));
    SpellsBound(text, p, "[");
    GapTaken(text, p + 1);
    if n.kind == EndArray {
      MarkTaken(text, n.start, ']');
      var gap := text[p + 1..n.start];
      s := List(gap, []);
      SpellsParts(text, p + 1, gap, "]");
      SpellsParts(text, p, "[", gap + "]");
      NothingMeant();
    } else {
      var items := ItemsTaken(text, p + 1, []);
      NoGap();
      s := List("", items);
      assert GoodItems(items);
      SpellsParts(text, p, "[", PrintItems(items) + "]");
      NoneFirst(items);
    }
  }

  lemma NothingMeant()
    ensures MeansItems([]) == Val(Arr([]))
  {
  }

  lemma NoneFirst(items: seq<Item>)
    requires GoodItems(items) && MeansItems(items).Val?
    ensures [] + MeansItems(items).j.a == MeansItems(items).j.a
  {
  }

  /** One value with the gaps around it, and the token behind it. */
  lemma {:induction false} ItemTaken(text: string, p: nat) returns (i: Item)
    requires p <= |text| && ParseValue(text, Scan(text, p)).Read?
    ensures GoodItem(i) && Spells(text, p, PrintItem(i)) && p + |PrintItem(i)| <= |text|
    ensures var r := ParseValue(text, Scan(text, p));
      Means(i.v) == Val(r.j) && r.next == Scan(text, p + |PrintItem(i)|) && r.next.start == p + |PrintItem(i)|
    decreases |text| - Scan(text, p).end, 2
  {
    hide Scan, Spells, IsGap, Print, Means, ParseValue, WellFormed;
    GapTaken(text, p);
    var a := Scan(text, p).start;
    var s := ValueTaken(text, a);
    var b := a + |Print(s)|;
    SpellsBound(text, a, Print(s));
    GapTaken(text, b);
    var c := Scan(text, b).start;
    i := Item(text[p..a], s, text[b..c]);
    SpellsParts(text, a, Print(s), text[b..c]);
    SpellsParts(text, p, text[p..a], Print(s) + text[b..c]);
    assert p + |PrintItem(i)| == c;
  }

  lemma {:induction false} ItemsTaken(text: string, p: nat, done: seq<Json>) returns (items: seq<Item>)
    requires p <= |text| && ParseItems(text, Scan(text, p), done).Read?
    ensures items != [] && GoodItems(items) && Spells(text, p, PrintItems(items) + "]")
    ensures var r, m := ParseItems(text, Scan(text, p), done), MeansItems(items);
      m.Val? && r.j == Arr(done + m.j.a) && r.next == Scan(text, p + |PrintItems(items)| + 1)
    decreases |text| - Scan(text, p).end, 3
  {
    hide Scan, Spells, IsGap, PrintItem, PrintItems, Means, MeansItems, ParseValue, GoodItem;
    var t := Scan(text, p);
    var i := ItemTaken(text, p);
    var q := p + |PrintItem(i)|;
    var v, n := ParseValue(text, t).j, Scan(text, q);
    if n.kind == ValueSeparator {
      MarkTaken(text, q, ',');
      SpellsBound(text, q, ",");
      var rest := ItemsTaken(text, q + 1, done + [v]);
      items := [i] + rest;
      ItemsCons(i, rest);
      SpellsParts(text, q, ",", PrintItems(rest) + "]");
      SpellsParts(text, p, PrintItem(i), "," + (PrintItems(rest) + "]"));
      assert done + [v] + MeansItems(rest).j.a == done + ([v] + MeansItems(rest).j.a);
    } else {
      MarkTaken(text, q, ']');
      items := [i];
      ItemsOne(i);
      SpellsParts(text, p, PrintItem(i), "]");
    }
  }

  lemma ItemsCons(i: Item, rest: seq<Item>)
    requires GoodItem(i) && rest != [] && GoodItems(rest)
    ensures GoodItems([i] + rest)
    ensures PrintItems([i] + rest) + "]" == PrintItem(i) + ("," + (PrintItems(rest) + "]"))
    ensures |PrintItems([i] + rest)| == |PrintItem(i)| + 1 + |PrintItems(rest)|
    ensures MeansItems([i] + rest) == Join(Means(i.v), MeansItems(rest))
  {
    hide PrintItem, Means, GoodItem;
    assert ([i] + rest)[1..] == rest;
  }

  lemma ItemsOne(i: Item)
    requires GoodItem(i)
    ensures GoodItems([i]) && PrintItems([i]) == PrintItem(i) && MeansItems([i]) == Join(Means(i.v), Val(Arr([])))
  {
    hide PrintItem, Means, GoodItem;
    assert [i][1..] == [];
  }

  lemma {:induction false} RecordTaken(text: string, p: nat) returns (s: Syntax)
    requires var t := Scan(text, p); t.start == p && t.kind == BeginObject && ParseValue(text, t).Read?
    ensures WellFormed(s) && Spells(text, p, Print(s))
    ensures var r := ParseValue(text, Scan(text, p)); Means(s) == Val(r.j) && r.next == Scan(text, p + |Print(s)|)
    decreases |text| - Scan(text, p).end, 0
  {
    hide Scan, Spells, IsGap, PrintMembers, MeansMembers, ParseMembers;
    MarkTaken(text, p, '{');
    var n := Next(text, Scan(text, p));
    SpellsBound(text, p, "{");
    GapTaken(text, p + 1);
    if n.kind == EndObject {
      MarkTaken(text, n.start, '}');
      var gap := text[p + 1..n.start];
      s := Record(gap, []);
      SpellsParts(text, p + 1, gap, "}");
      SpellsParts(text, p, "{", gap + "}");
      NoMembersMeant();
    } else {
      var members := MembersTaken(text, p + 1, map[]);
      NoGap();
      s := Record("", members);
      assert GoodEntries(members);
      SpellsParts(text, p, "{", PrintMembers(members) + "}");
    }
  }

  lemma NoMembersMeant()
    ensures MeansMembers([], map[]) == Val(Obj(map[]))
  {
  }

  /** One member with its gaps, and the token behind it. */
  lemma {:induction false} MemberTaken(text: string, p: nat) returns (e: Entry)
    requires p <= |text| && ParseKey(text, Scan(text, p)).Ok?
    requires ParseValue(text, Next(text, Next(text, Scan(text, p)))).Read?
    ensures GoodEntry(e) && Spells(text, p, PrintMember(e)) && p + |PrintMember(e)| <= |text|
    ensures var t := Scan(text, p); var r := ParseValue(text, Next(text, Next(text, t)));
      && Decoded(e.key) == ParseKey(text, t) && Means(e.item.v) == Val(r.j)
      && r.next == Scan(text, p + |PrintMember(e)|) && r.next.start == p + |PrintMember(e)|
    decreases |text| - Scan(text, p).end, 1
  {
    hide Scan, Spells, IsGap, Quote, Means, PrintItem, ParseValue, GoodItem, Decoded, GetString, AllPieces;
    GapTaken(text, p);
    var t := Scan(text, p);
    var a := t.start;
    var ps := QuoteTaken(text, a);
    var b := a + |Quote(ps)|;
    SpellsBound(text, a, Quote(ps));
    GapTaken(text, b);
    var c := Scan(text, b).start;
    MarkTaken(text, c, ':');
    SpellsBound(text, c, ":");
    var i := ItemTaken(text, c + 1);
    e := Entry(text[p..a], ps, text[b..c], i);
    SpellsParts(text, c, ":", PrintItem(i));
    SpellsParts(text, b, text[b..c], ":" + PrintItem(i));
    SpellsParts(text, a, Quote(ps), text[b..c] + (":" + PrintItem(i)));
    SpellsParts(text, p, text[p..a], Quote(ps) + (text[b..c] + (":" + PrintItem(i))));
    assert p + |PrintMember(e)| == c + 1 + |PrintItem(i)|;
  }

  lemma {:induction false} MembersTaken(text: string, p: nat, done: map<string, Json>) returns (members: seq<Entry>)
    requires p <= |text| && ParseMembers(text, Scan(text, p), done).Read?
    ensures members != [] && GoodEntries(members) && Spells(text, p, PrintMembers(members) + "}")
    ensures var r := ParseMembers(text, Scan(text, p), done);
      MeansMembers(members, done) == Val(r.j) && r.next == Scan(text, p + |PrintMembers(members)| + 1)
    decreases |text| - Scan(text, p).end, 2
  {
    hide Scan, Spells, IsGap, PrintMember, PrintMembers, Means, MeansMembers, ParseValue, ParseKey, GoodEntry;
    hide Decoded;
    var t := Scan(text, p);
    var e := MemberTaken(text, p);
    var q := p + |PrintMember(e)|;
    var key := ParseKey(text, t).value;
    var v, n := ParseValue(text, Next(text, Next(text, t))).j, Scan(text, q);
    ReadBound(text, Next(text, Next(text, t)));
    if n.kind == ValueSeparator {
      MarkTaken(text, q, ',');
      SpellsBound(text, q, ",");
      var rest := MembersTaken(text, q + 1, done[key := v]);
      members := [e] + rest;
      MembersCons(e, rest, done);
      SpellsParts(text, q, ",", PrintMembers(rest) + "}");
      SpellsParts(text, p, PrintMember(e), "," + (PrintMembers(rest) + "}"));
    } else {
      MarkTaken(text, q, '}');
      members := [e];
      MembersOne(e, done);
      SpellsParts(text, p, PrintMember(e), "}");
    }
  }

  lemma ReadBound(text: string, t: Token)
    requires ParseValue(text, t).Read?
    ensures t.end <= |text|
  {
  }

  lemma MembersCons(e: Entry, rest: seq<Entry>, done: map<string, Json>)
    requires GoodEntry(e) && rest != [] && GoodEntries(rest)
    ensures GoodEntries([e] + rest) && WellFormed(e.item.v)
    ensures PrintMembers([e] + rest) + "}" == PrintMember(e) + ("," + (PrintMembers(rest) + "}"))
    ensures |PrintMembers([e] + rest)| == |PrintMember(e)| + 1 + |PrintMembers(rest)|
    ensures var key, m := Decoded(e.key), Means(e.item.v);
      key.Ok? && m.Val? ==> MeansMembers([e] + rest, done) == MeansMembers(rest, done[key.value := m.j])
  {
    hide PrintMember, Means, Decoded;
    assert ([e] + rest)[1..] == rest;
  }

  lemma MembersOne(e: Entry, done: map<string, Json>)
    requires GoodEntry(e)
    ensures GoodEntries([e]) && WellFormed(e.item.v) && PrintMembers([e]) == PrintMember(e)
    ensures var key, m := Decoded(e.key), Means(e.item.v);
      key.Ok? && m.Val? ==> MeansMembers([e], done) == Val(Obj(done[key.value := m.j]))
  {
    hide PrintMember, Means, Decoded;
    assert [e][1..] == [];
  }

  // ----- The parser is exact -----

  /** The text is this value with gaps around it, ended by its end or by a NUL. */
  ghost predicate IsText(text: string, before: string, s: Syntax, after: string, rest: string) {
    && IsGap(before) && IsGap(after) && WellFormed(s) && (rest == "" || rest[0] == '\0')
    && text == before + (Print(s) + (after + rest))
  }

  /** Every text of the grammar is read as what it means. */
  lemma ParseComplete(text: string, before: string, s: Syntax, after: string, rest: string)
    requires IsText(text, before, s, after, rest)
    ensures match Means(s)
      case Val(j) => Parse(text).Read? && Parse(text).j == j
      case Flt => Parse(text) == Floating
      case Bad => Parse(text) == Rejected
  {
    hide Spells, Scan, Print, Means, IsGap, Stops, ParseValue;
    SpellsSelf(text);
    SpellsParts(text, 0, before, Print(s) + (after + rest));
    var p := |before|;
    SpellsParts(text, p, Print(s), after + rest);
    var q := p + |Print(s)|;
    SpellsParts(text, q, after, rest);
    TextEnds(text, q + |after|, rest);
    GapStops(text, q, after);
    SkipGap(text, q, after);
    SkipGap(text, 0, before);
    ReadValue(text, p, s);
  }

  lemma TextEnds(text: string, p: nat, rest: string)
    requires Spells(text, p, rest) && p + |rest| == |text| && (rest == "" || rest[0] == '\0')
    ensures Stops(text, p) && Scan(text, p).kind == EndOfInput
  {
    if rest != "" {
      SpellsAt(text, p, rest, 0);
    }
  }

  /** Every text that is read is a text of the grammar, and is read as what it means. */
  lemma ParseSound(text: string) returns (before: string, s: Syntax, after: string, rest: string)
    requires Parse(text).Read?
    ensures IsText(text, before, s, after, rest) && Means(s) == Val(Parse(text).j)
  {
    hide Spells, Scan, Print, Means, IsGap, ParseValue;
    GapTaken(text, 0);
    var p := Scan(text, 0).start;
    s := ValueTaken(text, p);
    var q := p + |Print(s)|;
    SpellsBound(text, p, Print(s));
    GapTaken(text, q);
    var e := Scan(text, q).start;
    before, after, rest := text[..p], text[q..e], text[e..];
    EndTaken(text, e);
    PartsOf(text, p, Print(s), q, e);
  }

  lemma EndTaken(text: string, e: nat)
    requires e <= |text| && Scan(text, e).kind == EndOfInput && Scan(text, e).start == e
    ensures text[e..] == "" || text[e..][0] == '\0'
  {
  }

  lemma PartsOf(text: string, p: nat, s: string, q: nat, e: nat)
    requires Spells(text, p, s) && q == p + |s| && q <= e <= |text|
    ensures text == text[..p] + (s + (text[q..e] + text[e..]))
    ensures text[0..p] == text[..p]
  {
    assert text[p..q] == s;
  }
}
