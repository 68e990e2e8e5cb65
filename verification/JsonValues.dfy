/**
 Float-free JSON values.  A string is a byte string: a byte is a char below 256 (nothing below
 depends on that bound).  An object is a map from keys to values; the program iterates it in
 the byte-wise order of the keys, which SortedKeys gives.
 */
module JsonValues {
  import opened Basics

  datatype Json =
    | Null
    | Bool(b: bool)
    | Int(i: int)
    | Unsigned(u: nat)
    | Str(s: string)
    | Arr(a: seq<Json>)
    | Obj(o: map<string, Json>)

  /** The numbers fit the program's 64-bit integers, and the arrays its memory. */
  ghost predicate Fits(j: Json)
    decreases j
  {
    match j
    case Int(i) => -TWO63 <= i < TWO63
    case Unsigned(u) => u < TWO64
    case Arr(a) => |a| < TWO64 && forall i :: 0 <= i < |a| ==> Fits(a[i])
    case Obj(o) => forall k :: k in o ==> Fits(o[k])
    case _ => true
  }

  /** static_cast from 64-bit unsigned to signed. */
  function ToSigned(u: int): int {
    if u < TWO63 then u else u - TWO64
  }

  /** operator==: structural, except that signed and unsigned numbers are compared as signed ones. */
  predicate Equal(x: Json, y: Json)
    decreases x
  {
    match (x, y)
    case (Null, Null) => true
    case (Bool(a), Bool(b)) => a == b
    case (Int(a), Int(b)) => a == b
    case (Unsigned(a), Unsigned(b)) => a == b
    case (Int(a), Unsigned(b)) => a == ToSigned(b)
    case (Unsigned(a), Int(b)) => ToSigned(a) == b
    case (Str(a), Str(b)) => a == b
    case (Arr(a), Arr(b)) => |a| == |b| && forall i :: 0 <= i < |a| ==> Equal(a[i], b[i])
    case (Obj(a), Obj(b)) => a.Keys == b.Keys && forall k :: k in a ==> Equal(a[k], b[k])
    case _ => false
  }

  lemma {:induction false} EqualReflexive(x: Json)
    ensures Equal(x, x)
    decreases x
  {
    match x
    case Arr(a) =>
      forall i | 0 <= i < |a|
        ensures Equal(a[i], a[i])
      {
        EqualReflexive(a[i]);
      }
    case Obj(o) =>
      forall k | k in o
        ensures Equal(o[k], o[k])
      {
        EqualReflexive(o[k]);
      }
    case _ =>
  }

  /** A value with its numbers as 64-bit patterns; all else stays as it is. */
  ghost function Canon(j: Json): (c: Json)
    decreases j
  {
    match j
    case Int(i) => Unsigned(i % TWO64)
    case Arr(a) => Arr(seq(|a|, i requires 0 <= i < |a| => Canon(a[i])))
    case Obj(o) => Obj(map k | k in o :: Canon(o[k]))
    case _ => j
  }

  /** operator== holds exactly if the two are the same value up to the signedness of their numbers. */
  lemma {:induction false} EqualIsCanon(x: Json, y: Json)
    requires Fits(x) && Fits(y)
    ensures Equal(x, y) <==> Canon(x) == Canon(y)
    decreases x
  {
    match (x, y)
    case (Arr(a), Arr(b)) => EqualArrays(a, b);
    case (Obj(a), Obj(b)) => EqualObjects(a, b);
    case _ =>
  }

  lemma {:induction false} EqualArrays(a: seq<Json>, b: seq<Json>)
    requires Fits(Arr(a)) && Fits(Arr(b))
    ensures Equal(Arr(a), Arr(b)) <==> Canon(Arr(a)) == Canon(Arr(b))
    decreases Arr(a), 0
  {
    var c, d := Canon(Arr(a)).a, Canon(Arr(b)).a;
    if |a| == |b| {
      forall i | 0 <= i < |a|
        ensures Equal(a[i], b[i]) <==> c[i] == d[i]
      {
        EqualIsCanon(a[i], b[i]);
      }
      assert (forall i :: 0 <= i < |a| ==> Equal(a[i], b[i])) <==> c == d;
    }
  }

  lemma {:induction false} EqualObjects(a: map<string, Json>, b: map<string, Json>)
    requires Fits(Obj(a)) && Fits(Obj(b))
    ensures Equal(Obj(a), Obj(b)) <==> Canon(Obj(a)) == Canon(Obj(b))
    decreases Obj(a), 0
  {
    var c, d := Canon(Obj(a)).o, Canon(Obj(b)).o;
    assert c.Keys == a.Keys && d.Keys == b.Keys;
    if a.Keys == b.Keys {
      forall k | k in a
        ensures Equal(a[k], b[k]) <==> c[k] == d[k]
      {
        EqualIsCanon(a[k], b[k]);
      }
      assert (forall k :: k in a ==> Equal(a[k], b[k])) <==> c == d;
    }
  }

  predicate SameType(x: Json, y: Json) {
    match (x, y)
    case (Null, Null) => true
    case (Bool(_), Bool(_)) => true
    case (Int(_), Int(_)) => true
    case (Unsigned(_), Unsigned(_)) => true
    case (Str(_), Str(_)) => true
    case (Arr(_), Arr(_)) => true
    case (Obj(_), Obj(_)) => true
    case _ => false
  }

  // ----- The order of object keys -----

  /** Byte-wise lexicographic order. */
  predicate Less(a: string, b: string) {
    if b == "" then false
    else if a == "" then true
    else a[0] < b[0] || (a[0] == b[0] && Less(a[1..], b[1..]))
  }

  lemma {:induction false} LessTotal(a: string, b: string)
    ensures a != b ==> Less(a, b) || Less(b, a)
  {
    if a != "" && b != "" && a[0] == b[0] {
      LessTotal(a[1..], b[1..]);
      assert a == [a[0]] + a[1..] && b == [b[0]] + b[1..];
    }
  }

  lemma {:induction false} LessTransitive(a: string, b: string, c: string)
    requires Less(a, b) && Less(b, c)
    ensures Less(a, c)
  {
    if a != "" && a[0] == b[0] == c[0] {
      LessTransitive(a[1..], b[1..], c[1..]);
    }
  }

  /** The first i characters agree, and then a ends or has the smaller character. */
  predicate LessFrom(a: string, b: string, i: nat) {
    i <= |a| && i < |b| && a[..i] == b[..i] && (i == |a| || a[i] < b[i])
  }

  /** It is the lexicographic order. */
  lemma {:induction false} LessIs(a: string, b: string)
    ensures Less(a, b) <==> exists i: nat :: LessFrom(a, b, i)
  {
    if Less(a, b) {
      var i := LessWitness(a, b);
    }
    if i: nat :| LessFrom(a, b, i) {
      LessFromIs(a, b, i);
    }
  }

  lemma {:induction false} LessWitness(a: string, b: string) returns (i: nat)
    requires Less(a, b)
    ensures LessFrom(a, b, i)
  {
    if a == "" || a[0] < b[0] {
      i := 0;
    } else {
      var k := LessWitness(a[1..], b[1..]);
      i := k + 1;
      assert a[..i] == [a[0]] + a[1..][..k] && b[..i] == [b[0]] + b[1..][..k];
    }
  }

  lemma {:induction false} LessFromIs(a: string, b: string, i: nat)
    requires LessFrom(a, b, i)
    ensures Less(a, b)
    decreases i
  {
    if i > 0 {
      assert a[0] == a[..i][0] && b[0] == b[..i][0];
      assert a[1..][..i - 1] == a[..i][1..] && b[1..][..i - 1] == b[..i][1..];
      LessFromIs(a[1..], b[1..], i - 1);
    }
  }

  ghost predicate IsLeast(k: string, s: set<string>) {
    k in s && forall x :: x in s && x != k ==> Less(k, x)
  }

  lemma {:induction false} LeastExists(s: set<string>)
    requires s != {}
    ensures exists k :: IsLeast(k, s)
  {
    var x :| x in s;
    if s == {x} {
      assert IsLeast(x, s);
    } else {
      LeastExists(s - {x});
      var y :| IsLeast(y, s - {x});
      LessTotal(x, y);
      if Less(x, y) {
        forall z | z in s && z != x
          ensures Less(x, z)
        {
          if z != y { LessTransitive(x, y, z); }
        }
        assert IsLeast(x, s);
      } else {
        assert IsLeast(y, s);
      }
    }
  }

  /** The keys in iteration order: strictly ascending, and each key once. */
  ghost function SortedKeys(s: set<string>): (ks: seq<string>)
    ensures forall k :: k in ks <==> k in s
    ensures forall i, j :: 0 <= i < j < |ks| ==> ks[i] != ks[j] && Less(ks[i], ks[j])
  {
    if s == {} then [] else
      LeastExists(s);
      var k :| IsLeast(k, s);
      [k] + SortedKeys(s - {k})
  }
}
