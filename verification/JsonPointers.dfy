/** JSON Pointer (RFC 6901): escaping, splitting and printing of reference strings. */
module JsonPointers {
  import opened Basics

  // ----- Replacing substrings -----

  /** Every occurrence of f, found from left to right, replaced by t. */
  function Replace(s: string, f: string, t: string): (r: string)
    requires f != ""
  {
    if |s| < |f| then s
    else if s[..|f|] == f then t + Replace(s[|f|..], f, t)
    else [s[0]] + Replace(s[1..], f, t)
  }

  predicate OccursAt(s: string, f: string, q: int) {
    0 <= q && q + |f| <= |s| && s[q..q + |f|] == f
  }

  /** The first position of f in s at or after `from`; |s| + 1 stands for npos. */
  method FindFrom(s: string, f: string, from: nat) returns (pos: nat)
    requires f != "" && from <= |s|
    ensures pos == |s| + 1 || (from <= pos && OccursAt(s, f, pos))
    ensures forall q :: from <= q < pos ==> !OccursAt(s, f, q)
  {
    pos := from;
    while pos + |f| <= |s|
      invariant from <= pos
      invariant forall q :: from <= q < pos ==> !OccursAt(s, f, q)
    {
      if s[pos..pos + |f|] == f {
        return;
      }
      pos := pos + 1;
    }
    pos := |s| + 1;
  }

  /** replace_substring: edits the string in place and searches on behind what it has put in. */
  method ReplaceSubstring(s0: string, f: string, t: string) returns (s: string)
    requires f != ""
    ensures s == Replace(s0, f, t)
  {
    hide Replace, OccursAt;
    s := s0;
    ghost var done: nat := 0;
    var pos := FindFrom(s, f, 0);
    assert s[..0] + Replace(s[0..], f, t) == Replace(s0, f, t) by { assert s[0..] == s; }
    while pos <= |s|
      invariant done <= |s| && s[..done] + Replace(s[done..], f, t) == Replace(s0, f, t)
      invariant pos == |s| + 1 || (done <= pos && OccursAt(s, f, pos))
      invariant forall q :: done <= q < pos ==> !OccursAt(s, f, q)
      decreases |s| - done
    {
      ghost var r := s;
      OccursInside(s, f, pos);
      s := s[..pos] + t + s[pos + |f|..];
      ReplaceOne(r, s, f, t, done, pos);
      done := pos + |t|;
      pos := FindFrom(s, f, pos + |t|);
    }
    SkipTo(s, f, t, done, |s|);
    ReplaceEmpty();
    assert s[|s|..] == "" && s[done..|s|] == s[done..] && s[..done] + s[done..] == s;
  }

  lemma OccursInside(s: string, f: string, q: int)
    requires OccursAt(s, f, q)
    ensures 0 <= q && q + |f| <= |s|
  {
  }

  /** Where f does not start, Replace keeps the character and goes on. */
  lemma ReplaceStep(r: string, f: string, t: string)
    requires f != "" && r != "" && !OccursAt(r, f, 0)
    ensures Replace(r, f, t) == [r[0]] + Replace(r[1..], f, t)
  {
    if |r| < |f| {
      assert r == [r[0]] + r[1..];
    } else {
      assert r[0..|f|] == r[..|f|];
    }
  }

  /** No occurrence starts in s[done..pos), so that part is kept. */
  lemma {:induction false} SkipTo(s: string, f: string, t: string, done: nat, pos: nat)
    requires f != "" && done <= pos <= |s|
    requires forall q :: done <= q < pos ==> !OccursAt(s, f, q)
    ensures Replace(s[done..], f, t) == s[done..pos] + Replace(s[pos..], f, t)
    decreases pos - done
  {
    hide Replace;
    if done < pos {
      SkipTo(s, f, t, done + 1, pos);
      var r := s[done..];
      assert !OccursAt(s, f, done);
      assert |f| <= |r| ==> r[0..0 + |f|] == s[done..done + |f|];
      assert !OccursAt(r, f, 0);
      ReplaceStep(r, f, t);
      assert r[1..] == s[done + 1..];
      assert s[done..pos] == [s[done]] + s[done + 1..pos];
    } else {
      assert s[done..pos] == "";
    }
  }

  /** One round of the loop: the occurrence at pos has become t. */
  lemma ReplaceOne(s: string, s': string, f: string, t: string, done: nat, pos: nat)
    requires f != "" && done <= pos && OccursAt(s, f, pos)
    requires forall q :: done <= q < pos ==> !OccursAt(s, f, q)
    requires s' == s[..pos] + t + s[pos + |f|..]
    ensures s'[..pos + |t|] + Replace(s'[pos + |t|..], f, t) == s[..done] + Replace(s[done..], f, t)
  {
    hide Replace;
    SkipTo(s, f, t, done, pos);
    var rest := s[pos + |f|..];
    assert s[pos..] == f + rest by { assert s[pos..] == s[pos..pos + |f|] + rest; }
    ReplaceHit(f, rest, f, t);
    assert s'[pos + |t|..] == rest;
    assert s'[..pos + |t|] == s[..pos] + t;
    assert s[..pos] == s[..done] + s[done..pos];
    Associate(s[..done], s[done..pos], t, Replace(rest, f, t));
  }

  lemma Associate(a: string, b: string, c: string, d: string)
    ensures (a + b) + c + d == a + (b + (c + d))
  {
  }

  // ----- Escaping -----

  function Escape(s: string): string {
    Replace(Replace(s, "~", "~0"), "/", "~1")
  }

  function Unescape(s: string): string {
    Replace(Replace(s, "~1", "/"), "~0", "~")
  }

  /** Escaping, one character at a time. */
  function Escaped(s: string): (r: string)
    ensures '/' !in r
  {
    if s == "" then "" else
      (if s[0] == '~' then "~0" else if s[0] == '/' then "~1" else [s[0]]) + Escaped(s[1..])
  }

  /** Only tildes escaped. */
  function TildeEscaped(s: string): string {
    if s == "" then "" else (if s[0] == '~' then "~0" else [s[0]]) + TildeEscaped(s[1..])
  }

  lemma {:induction false} EscapedStep(s: string)
    ensures Escaped("") == "" && TildeEscaped("") == ""
    ensures s != "" ==>
      && TildeEscaped(s) == (if s[0] == '~' then "~0" else [s[0]]) + TildeEscaped(s[1..])
      && Escaped(s) == (if s[0] == '~' then "~0" else if s[0] == '/' then "~1" else [s[0]]) + Escaped(s[1..])
  {
  }

  lemma {:induction false} EscapeTildes(s: string)
    ensures Replace(s, "~", "~0") == TildeEscaped(s)
  {
    if s != "" { EscapeTildes(s[1..]); }
  }

  lemma {:induction false} EscapeSlashes(s: string)
    ensures Replace(TildeEscaped(s), "/", "~1") == Escaped(s)
  {
    hide Replace, Escaped, TildeEscaped;
    EscapedStep(s);
    if s != "" {
      EscapeSlashes(s[1..]);
      var rest := TildeEscaped(s[1..]);
      if s[0] == '~' {
        ReplaceSkipTwo('~', '0', rest, "/", "~1");
      } else if s[0] == '/' {
        ReplaceHit("/", rest, "/", "~1");
      } else {
        ReplaceSkip(s[0], rest, "/", "~1");
      }
    } else {
      ReplaceEmpty();
    }
  }

  lemma ReplaceSkip(c: char, s: string, f: string, t: string)
    requires f != "" && (c != f[0] || (|f| > 1 && (s == "" || s[0] != f[1])))
    ensures Replace([c] + s, f, t) == [c] + Replace(s, f, t)
  {
    var r := [c] + s;
    assert r[1..] == s;
    assert |f| <= |r| ==> r[0..|f|][0] == r[0] && (|f| > 1 ==> r[0..|f|][1] == r[1]);
    ReplaceStep(r, f, t);
  }

  lemma ReplaceSkipTwo(c: char, d: char, s: string, f: string, t: string)
    requires f != "" && d != f[0] && (c != f[0] || (|f| > 1 && d != f[1]))
    ensures Replace([c, d] + s, f, t) == [c, d] + Replace(s, f, t)
  {
    hide Replace;
    ReplaceSkip(d, s, f, t);
    ReplaceSkip(c, [d] + s, f, t);
    assert [c, d] + s == [c] + ([d] + s);
  }

  lemma ReplaceEmpty()
    ensures forall f, t :: f != "" ==> Replace("", f, t) == ""
  {
  }

  lemma ReplaceHit(f: string, s: string, f': string, t: string)
    requires f != "" && f' == f
    ensures Replace(f + s, f', t) == t + Replace(s, f, t)
  {
    assert (f + s)[..|f|] == f && (f + s)[|f|..] == s;
  }

  /** Undoing "~1" leaves only the tildes escaped. */
  lemma {:induction false} UnescapeSlashes(s: string)
    ensures Replace(Escaped(s), "~1", "/") == TildeEscaped(s)
  {
    hide Replace, Escaped, TildeEscaped;
    EscapedStep(s);
    if s != "" {
      UnescapeSlashes(s[1..]);
      var rest := Escaped(s[1..]);
      if s[0] == '~' {
        ReplaceSkipTwo('~', '0', rest, "~1", "/");
      } else if s[0] == '/' {
        ReplaceHit("~1", rest, "~1", "/");
      } else {
        ReplaceSkip(s[0], rest, "~1", "/");
      }
    } else {
      ReplaceEmpty();
    }
  }

  lemma {:induction false} UnescapeTildes(s: string)
    ensures Replace(TildeEscaped(s), "~0", "~") == s
  {
    hide Replace;
    if s != "" {
      UnescapeTildes(s[1..]);
      var rest := TildeEscaped(s[1..]);
      if s[0] == '~' {
        ReplaceHit("~0", rest, "~0", "~");
      } else {
        ReplaceSkip(s[0], rest, "~0", "~");
      }
    } else {
      ReplaceEmpty();
    }
  }

  /** Escaping is undone by unescaping, for every string. */
  lemma EscapeRoundTrip(s: string)
    ensures Escape(s) == Escaped(s) && Unescape(Escape(s)) == s
  {
    EscapeTildes(s);
    EscapeSlashes(s);
    UnescapeSlashes(s);
    UnescapeTildes(s);
  }

  /** Every '~' is followed by '0' or '1'. */
  predicate WellEscaped(s: string) {
    forall p :: 0 <= p < |s| && s[p] == '~' ==> p + 1 < |s| && (s[p + 1] == '0' || s[p + 1] == '1')
  }

  /** A well escaped token without slashes is the escape of what it unescapes to. */
  lemma {:induction false} UnescapeRoundTrip(s: string)
    requires WellEscaped(s) && '/' !in s
    ensures Escape(Unescape(s)) == s
  {
    var u := Decoded(s);
    EscapeRoundTrip(u);
  }

  ghost function Decoded(s: string): (u: string)
    requires WellEscaped(s) && '/' !in s
    ensures Escaped(u) == s
  {
    if s == "" then "" else if s[0] == '~' then
      assert s[1] == '0' || s[1] == '1';
      WellEscapedTail(s, 2);
      var u := [if s[1] == '0' then '~' else '/'] + Decoded(s[2..]);
      assert u[1..] == Decoded(s[2..]) && s == [s[0], s[1]] + s[2..];
      u
    else
      WellEscapedTail(s, 1);
      var u := [s[0]] + Decoded(s[1..]);
      assert u[1..] == Decoded(s[1..]) && s == [s[0]] + s[1..];
      u
  }

  /** The two replacements in place escape each character for itself. */
  method EscapeLoop(s0: string) returns (s: string)
    ensures s == Escape(s0) == Escaped(s0)
  {
    hide Escaped, Unescape;
    s := ReplaceSubstring(s0, "~", "~0");
    s := ReplaceSubstring(s, "/", "~1");
    EscapeRoundTrip(s0);
  }

  /** The other two replacements give the string whose escaping this is, if there is one. */
  method UnescapeLoop(s0: string) returns (s: string)
    ensures s == Unescape(s0)
    ensures WellEscaped(s0) && '/' !in s0 ==> Escaped(s) == s0
  {
    hide Escaped, Escape, WellEscaped;
    s := ReplaceSubstring(s0, "~1", "/");
    s := ReplaceSubstring(s, "~0", "~");
    if WellEscaped(s0) && '/' !in s0 {
      UnescapeRoundTrip(s0);
      EscapeRoundTrip(s);
    }
  }

  lemma WellEscapedTail(s: string, n: nat)
    requires WellEscaped(s) && n <= |s|
    ensures WellEscaped(s[n..])
  {
    forall p | 0 <= p < |s[n..]| && s[n..][p] == '~'
      ensures p + 1 < |s[n..]| && (s[n..][p + 1] == '0' || s[n..][p + 1] == '1')
    {
      assert s[p + n] == '~';
    }
  }

  // ----- Splitting and printing -----

  /** The position of the first slash, |s| if there is none. */
  function FirstSlash(s: string): (k: nat)
    ensures k <= |s| && '/' !in s[..k] && (k < |s| ==> s[k] == '/')
  {
    if s == "" || s[0] == '/' then 0 else
      var k := FirstSlash(s[1..]) + 1;
      assert s[..k] == [s[0]] + s[1..][..k - 1];
      k
  }

  /** The parts of s between its slashes; at least one. */
  function Pieces(s: string): (ps: seq<string>)
    ensures |ps| > 0 && forall i :: 0 <= i < |ps| ==> '/' !in ps[i]
  {
    var k := FirstSlash(s);
    if k == |s| then
      assert s[..k] == s;
      [s]
    else
      [s[..k]] + Pieces(s[k + 1..])
  }

  /** Unescapes every piece, unless some tilde is not followed by 0 or 1. */
  function UnescapeAll(ps: seq<string>): (r: Result<seq<string>>)
    ensures r.Ok? <==> forall i :: 0 <= i < |ps| ==> WellEscaped(ps[i])
    ensures r.Ok? ==> |r.value| == |ps| && forall i :: 0 <= i < |ps| ==> r.value[i] == Unescape(ps[i])
  {
    if forall i :: 0 <= i < |ps| ==> WellEscaped(ps[i])
    then Ok(seq(|ps|, i requires 0 <= i < |ps| => Unescape(ps[i])))
    else Err(Domain)
  }

  /** json_pointer::split: the reference tokens of a reference string. */
  function Split(s: string): Result<seq<string>> {
    if s == "" then Ok([])
    else if s[0] != '/' then Err(Domain)
    else UnescapeAll(Pieces(s[1..]))
  }

  /** json_pointer::to_string. */
  function ToString(tokens: seq<string>): string {
    if tokens == [] then "" else ToString(tokens[..|tokens| - 1]) + "/" + Escape(tokens[|tokens| - 1])
  }

  /** Each part with a slash before it. */
  function Slashed(ps: seq<string>): string {
    if ps == [] then "" else "/" + ps[0] + Slashed(ps[1..])
  }

  lemma {:induction false} FirstSlashOf(p: string, s: string)
    requires '/' !in p
    ensures FirstSlash(p) == |p| && FirstSlash(p + "/" + s) == |p|
  {
    if p != "" {
      FirstSlashOf(p[1..], s);
      assert (p + "/" + s)[1..] == p[1..] + "/" + s;
    }
  }

  lemma PiecesCons(p: string, s: string)
    requires '/' !in p
    ensures Pieces(p) == [p] && Pieces(p + "/" + s) == [p] + Pieces(s)
  {
    FirstSlashOf(p, s);
    var r := p + "/" + s;
    assert r[..|p|] == p && r[|p| + 1..] == s;
  }

  lemma {:induction false} PiecesOfSlashed(ps: seq<string>)
    requires |ps| > 0 && forall i :: 0 <= i < |ps| ==> '/' !in ps[i]
    ensures Slashed(ps) != "" && Slashed(ps)[0] == '/' && Pieces(Slashed(ps)[1..]) == ps
  {
    hide Pieces, FirstSlash;
    var p, s := ps[0], Slashed(ps[1..]);
    assert Slashed(ps)[1..] == p + s;
    if |ps| == 1 {
      PiecesCons(p, "");
      assert p + s == p;
    } else {
      PiecesOfSlashed(ps[1..]);
      PiecesCons(p, s[1..]);
      assert p + s == p + "/" + s[1..];
      assert ps == [p] + ps[1..];
    }
  }

  lemma SlashedCons(p: string, ps: seq<string>)
    ensures Slashed([p] + ps) == "/" + p + Slashed(ps)
  {
    assert ([p] + ps)[1..] == ps;
  }

  lemma {:induction false} PiecesFirst(s: string)
    ensures var k := FirstSlash(s); Pieces(s) == if k < |s| then [s[..k]] + Pieces(s[k + 1..]) else [s]
  {
  }

  lemma SlashInside(s: string, k: nat)
    requires k < |s| && s[k] == '/'
    ensures "/" + s[..k] + ("/" + s[k + 1..]) == "/" + s
  {
    assert s == s[..k] + "/" + s[k + 1..];
  }

  lemma SlashedNone()
    ensures Slashed([]) == ""
  {
  }

  lemma {:induction false} SlashedPieces(s: string)
    ensures Slashed(Pieces(s)) == "/" + s
  {
    hide Pieces, Slashed;
    var k := FirstSlash(s);
    PiecesFirst(s);
    if k < |s| {
      SlashedPieces(s[k + 1..]);
      SlashedCons(s[..k], Pieces(s[k + 1..]));
      SlashInside(s, k);
    } else {
      assert [s] == [s] + [];
      SlashedCons(s, []);
      SlashedNone();
    }
  }

  lemma {:induction false} SlashedAppend(ps: seq<string>, p: string)
    ensures Slashed(ps + [p]) == Slashed(ps) + "/" + p
  {
    if ps == [] {
      assert ps + [p] == [p] && [p][1..] == [];
    } else {
      SlashedAppend(ps[1..], p);
      assert (ps + [p])[1..] == ps[1..] + [p];
    }
  }

  /** The escaped tokens. */
  function EscapeAll(tokens: seq<string>): seq<string> {
    seq(|tokens|, i requires 0 <= i < |tokens| => Escape(tokens[i]))
  }

  lemma {:induction false} ToStringSlashed(tokens: seq<string>)
    ensures ToString(tokens) == Slashed(EscapeAll(tokens))
  {
    if tokens != [] {
      var n := |tokens| - 1;
      ToStringSlashed(tokens[..n]);
      SlashedAppend(EscapeAll(tokens[..n]), Escape(tokens[n]));
      assert EscapeAll(tokens) == EscapeAll(tokens[..n]) + [Escape(tokens[n])];
    }
  }

  lemma EscapedIsFine(s: string)
    ensures WellEscaped(Escape(s)) && '/' !in Escape(s)
  {
    EscapeRoundTrip(s);
    EscapedWell(s);
  }

  lemma {:induction false} EscapedWell(s: string)
    ensures WellEscaped(Escaped(s))
  {
    if s != "" {
      EscapedWell(s[1..]);
      var e, r := Escaped(s), Escaped(s[1..]);
      var n := |e| - |r|;
      assert forall p :: n <= p < |e| ==> e[p] == r[p - n];
    }
  }

  /** Splitting what a pointer prints gives back its tokens, whatever they are. */
  lemma SplitToString(tokens: seq<string>)
    ensures Split(ToString(tokens)) == Ok(tokens)
  {
    ToStringSlashed(tokens);
    if tokens != [] {
      var ps := EscapeAll(tokens);
      forall i | 0 <= i < |ps|
        ensures '/' !in ps[i] && WellEscaped(ps[i]) && Unescape(ps[i]) == tokens[i]
      {
        EscapedIsFine(tokens[i]);
        EscapeRoundTrip(tokens[i]);
      }
      PiecesOfSlashed(ps);
      assert UnescapeAll(ps).value == tokens;
    }
  }

  /** Printing the tokens of an accepted string gives back the string. */
  lemma ToStringSplit(s: string)
    requires Split(s).Ok?
    ensures ToString(Split(s).value) == s
  {
    if s != "" {
      var ps, tokens := Pieces(s[1..]), Split(s).value;
      ToStringSlashed(tokens);
      forall i | 0 <= i < |ps|
        ensures Escape(tokens[i]) == ps[i]
      {
        UnescapeRoundTrip(ps[i]);
      }
      assert EscapeAll(tokens) == ps;
      SlashedPieces(s[1..]);
      assert s == "/" + s[1..];
    } else {
      assert ToString([]) == "";
    }
  }

  /** Which strings are accepted: the empty one, and those that start with a slash and escape properly. */
  lemma SplitAccepts(s: string)
    ensures Split(s).Ok? <==> s == "" || (s[0] == '/' && WellEscaped(s))
  {
    if s != "" && s[0] == '/' {
      SlashedPieces(s[1..]);
      assert s == "/" + s[1..];
      WellSlashed(Pieces(s[1..]));
    }
  }

  lemma {:induction false} WellSlashed(ps: seq<string>)
    ensures WellEscaped(Slashed(ps)) <==> forall i :: 0 <= i < |ps| ==> WellEscaped(ps[i])
  {
    if ps != [] {
      WellSlashed(ps[1..]);
      var s := "/" + ps[0];
      var r := Slashed(ps[1..]);
      assert Slashed(ps) == s + r;
      WellConcat(s, r);
      WellConcat("/", ps[0]);
      assert (forall i :: 0 <= i < |ps| ==> WellEscaped(ps[i])) <==>
             WellEscaped(ps[0]) && forall i :: 0 <= i < |ps[1..]| ==> WellEscaped(ps[1..][i]) by {
        assert forall i :: 0 < i < |ps| ==> ps[i] == ps[1..][i - 1];
      }
    }
  }

  lemma WellConcat(a: string, b: string)
    requires b == "" || b[0] == '/' || a == "/"
    ensures WellEscaped(a + b) <==> WellEscaped(a) && WellEscaped(b)
  {
    var s := a + b;
    assert forall p :: 0 <= p < |a| ==> s[p] == a[p];
    assert forall p :: 0 <= p < |b| ==> s[|a| + p] == b[p];
  }

  // ----- Splitting, as the program loops over the string -----

  /** The first slash at or after `start`; |s| if there is none. */
  method FindSlash(s: string, start: nat) returns (k: nat)
    requires start <= |s|
    ensures start <= k <= |s| && k == start + FirstSlash(s[start..])
  {
    k := start;
    while k < |s| && s[k] != '/'
      invariant start <= k <= |s|
      invariant FirstSlash(s[start..]) == k - start + FirstSlash(s[k..])
    {
      assert s[k..][1..] == s[k + 1..];
      k := k + 1;
    }
  }

  method CheckEscapes(token: string) returns (ok: bool)
    ensures ok == WellEscaped(token)
  {
    var pos := 0;
    while pos < |token|
      invariant 0 <= pos <= |token|
      invariant forall p :: 0 <= p < pos && token[p] == '~' ==>
        p + 1 < |token| && (token[p + 1] == '0' || token[p + 1] == '1')
    {
      if token[pos] == '~' && (pos == |token| - 1 || (token[pos + 1] != '0' && token[pos + 1] != '1')) {
        return false;
      }
      pos := pos + 1;
    }
    ok := true;
  }

  /** The piece between two slashes, checked and unescaped. */
  method TakeToken(s: string, start: nat, slash: nat) returns (ok: bool, token: string)
    requires start <= slash <= |s|
    ensures ok == WellEscaped(s[start..slash]) && (ok ==> token == Unescape(s[start..slash]))
  {
    hide WellEscaped, Unescape;
    token := s[start..slash];
    ok := CheckEscapes(token);
    if ok {
      token := UnescapeLoop(token);
    }
  }

  /** The pieces are those done, the tokens of which are collected, and those from `start` on. */
  ghost predicate Splitting(s: string, done: seq<string>, tokens: seq<string>, start: nat, slash: nat) {
    && 1 <= start <= slash <= |s| && slash == start + FirstSlash(s[start..])
    && Pieces(s[1..]) == done + Pieces(s[start..]) && Unescapes(done, tokens)
  }

  method SplitLoop(s: string) returns (r: Result<seq<string>>)
    ensures r == Split(s)
  {
    hide Pieces, WellEscaped, Unescape, FirstSlash, UnescapeAll, Unescapes, Splitting;
    if s == "" {
      return Ok([]);
    }
    if s[0] != '/' {
      return Err(Domain);
    }
    var result: seq<string> := [];
    ghost var done: seq<string> := [];
    var start: nat := 1;
    var slash := FindSlash(s, 1);
    SplitStart(s, slash);
    while true
      invariant 1 <= start <= slash <= |s| && Splitting(s, done, result, start, slash)
      decreases |s| - start
    {
      var ok, token := TakeToken(s, start, slash);
      if !ok {
        SplitFails(s, done, result, start, slash);
        return Err(Domain);
      }
      if slash == |s| {
        SplitEnd(s, done, result, start, slash);
        return Ok(result + [token]);
      }
      var next := FindSlash(s, slash + 1);
      SplitStep(s, done, result, start, slash, next);
      result, done := result + [token], done + [s[start..slash]];
      start, slash := slash + 1, next;
    }
  }

  lemma SplitStart(s: string, slash: nat)
    requires 1 <= slash <= |s| && slash == 1 + FirstSlash(s[1..])
    ensures Splitting(s, [], [], 1, slash)
  {
    hide Pieces, FirstSlash;
    assert [] + Pieces(s[1..]) == Pieces(s[1..]);
  }

  lemma SplitStep(s: string, done: seq<string>, tokens: seq<string>, start: nat, slash: nat, next: nat)
    requires Splitting(s, done, tokens, start, slash) && slash < |s| && WellEscaped(s[start..slash])
    requires slash < next <= |s| && next == slash + 1 + FirstSlash(s[slash + 1..])
    ensures Splitting(s, done + [s[start..slash]], tokens + [Unescape(s[start..slash])], slash + 1, next)
  {
    hide Pieces, FirstSlash, WellEscaped, Unescape, Unescapes;
    var piece, rest := s[start..slash], Pieces(s[slash + 1..]);
    PiecesFrom(s, start, slash);
    UnescapesMore(done, tokens, piece);
    assert done + ([piece] + rest) == (done + [piece]) + rest;
  }

  lemma SplitFails(s: string, done: seq<string>, tokens: seq<string>, start: nat, slash: nat)
    requires Splitting(s, done, tokens, start, slash) && !WellEscaped(s[start..slash])
    ensures UnescapeAll(Pieces(s[1..])) == Err(Domain)
  {
    hide Pieces, FirstSlash, WellEscaped, Unescapes, UnescapeAll;
    PiecesFrom(s, start, slash);
    assert Pieces(s[1..])[|done|] == s[start..slash];
    UnescapeFails(Pieces(s[1..]), |done|);
  }

  lemma SplitEnd(s: string, done: seq<string>, tokens: seq<string>, start: nat, slash: nat)
    requires Splitting(s, done, tokens, start, slash) && slash == |s| && WellEscaped(s[start..slash])
    ensures UnescapeAll(Pieces(s[1..])) == Ok(tokens + [Unescape(s[start..slash])])
  {
    hide Pieces, FirstSlash, WellEscaped, Unescape, Unescapes, UnescapeAll;
    PiecesFrom(s, start, slash);
    UnescapesMore(done, tokens, s[start..slash]);
    UnescapesAll(done + [s[start..slash]], tokens + [Unescape(s[start..slash])]);
  }

  lemma PiecesFrom(s: string, start: nat, slash: nat)
    requires start <= slash <= |s| && slash == start + FirstSlash(s[start..])
    ensures Pieces(s[start..]) == if slash == |s| then [s[start..slash]] else [s[start..slash]] + Pieces(s[slash + 1..])
  {
    var r := s[start..];
    assert r[..slash - start] == s[start..slash];
    assert slash < |s| ==> r[slash - start + 1..] == s[slash + 1..];
    assert slash == |s| ==> s[start..slash] == r;
  }

  ghost predicate Unescapes(ps: seq<string>, tokens: seq<string>) {
    |tokens| == |ps| && forall i :: 0 <= i < |ps| ==> WellEscaped(ps[i]) && tokens[i] == Unescape(ps[i])
  }

  lemma UnescapesMore(ps: seq<string>, tokens: seq<string>, p: string)
    requires Unescapes(ps, tokens) && WellEscaped(p)
    ensures Unescapes(ps + [p], tokens + [Unescape(p)])
  {
  }

  lemma UnescapesAll(ps: seq<string>, tokens: seq<string>)
    requires Unescapes(ps, tokens)
    ensures UnescapeAll(ps) == Ok(tokens)
  {
    assert UnescapeAll(ps).value == tokens;
  }

  lemma UnescapeFails(ps: seq<string>, i: nat)
    requires i < |ps| && !WellEscaped(ps[i])
    ensures UnescapeAll(ps) == Err(Domain)
  {
  }
}
