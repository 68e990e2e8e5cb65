/** The aggregators over exact integers, as values with a merge, and as objects that merge in place. */
module Aggregators {
  import opened Basics

  /** numeric_limits of a 64-bit signed value. */
  const LOWEST: int := -TWO63
  const HIGHEST: int := TWO63 - 1

  datatype Kind = SumKind | MaxKind | MinKind | AvgKind | KeyedKind | TimerKind

  datatype Agg =
    | Sum(value: int)
    | Max(value: int)
    | Min(value: int)
    | Avg(value: int, count: nat)
    | Keyed(averages: map<int, (int, nat)>)
    | Timer(sum: int, sum2: int, least: int, most: int, count: nat)

  /** A value handed to merge_value; the key is for the keyed average only. */
  datatype Value = Value(key: int, x: int)

  /** The aggregator is of this kind, and its extremes are within the limits of their type. */
  predicate Is(k: Kind, a: Agg) {
    match (k, a)
    case (SumKind, Sum(_)) => true
    case (MaxKind, Max(v)) => LOWEST <= v
    case (MinKind, Min(v)) => v <= HIGHEST
    case (AvgKind, Avg(_, _)) => true
    case (KeyedKind, Keyed(_)) => true
    case (TimerKind, Timer(_, _, least, most, _)) => least <= HIGHEST && LOWEST <= most
    case _ => false
  }

  /** init */
  function Zero(k: Kind): (a: Agg)
    ensures Is(k, a)
  {
    match k
    case SumKind => Sum(0)
    case MaxKind => Max(LOWEST)
    case MinKind => Min(HIGHEST)
    case AvgKind => Avg(0, 0)
    case KeyedKind => Keyed(map[])
    case TimerKind => Timer(0, 0, HIGHEST, LOWEST, 0)
  }

  function Least(x: int, y: int): int {
    if x > y then y else x
  }

  function Most(x: int, y: int): int {
    if x < y then y else x
  }

  function Average(m: map<int, (int, nat)>, key: int): (int, nat) {
    if key in m then m[key] else (0, 0)
  }

  function AddTo(m: map<int, (int, nat)>, key: int, d: (int, nat)): map<int, (int, nat)> {
    m[key := Both(Average(m, key), d)]
  }

  function Both(d: (int, nat), e: (int, nat)): (int, nat) {
    (d.0 + e.0, d.1 + e.1)
  }

  function AddAll(x: map<int, (int, nat)>, y: map<int, (int, nat)>): (m: map<int, (int, nat)>)
    ensures m.Keys == x.Keys + y.Keys
  {
    map k | k in x.Keys + y.Keys :: Both(Average(x, k), Average(y, k))
  }

  /** merge_aggregator; the two are of one kind. */
  function Merge(a: Agg, b: Agg): Agg {
    match (a, b)
    case (Sum(x), Sum(y)) => Sum(x + y)
    case (Max(x), Max(y)) => Max(Most(x, y))
    case (Min(x), Min(y)) => Min(Least(x, y))
    case (Avg(x, n), Avg(y, m)) => Avg(x + y, n + m)
    case (Keyed(x), Keyed(y)) =>
      Keyed(AddAll(x, y))
    case (Timer(s, q, l, h, n), Timer(s', q', l', h', n')) => Timer(s + s', q + q', Least(l, l'), Most(h, h'), n + n')
    case _ => a
  }

  /** merge_value */
  function MergeValue(a: Agg, v: Value): Agg {
    match a
    case Sum(x) => Sum(x + v.x)
    case Max(x) => Max(if v.x > x then v.x else x)
    case Min(x) => Min(if v.x < x then v.x else x)
    case Avg(x, n) => Avg(x + v.x, n + 1)
    case Keyed(m) => Keyed(AddTo(m, v.key, (v.x, 1)))
    case Timer(s, q, l, h, n) => Timer(s + v.x, q + v.x * v.x, Least(l, v.x), Most(h, v.x), n + 1)
  }

  /** An aggregator that has seen one value. */
  function Of(k: Kind, v: Value): Agg {
    MergeValue(Zero(k), v)
  }

  predicate InRange(v: Value) {
    LOWEST <= v.x <= HIGHEST
  }

  // ----- Aggregators of a kind form a commutative monoid -----

  lemma MergeIs(k: Kind, a: Agg, b: Agg)
    requires Is(k, a) && Is(k, b)
    ensures Is(k, Merge(a, b))
  {
  }

  lemma MergeZero(k: Kind, a: Agg)
    requires Is(k, a)
    ensures Merge(a, Zero(k)) == a && Merge(Zero(k), a) == a
  {
    if k == KeyedKind {
      assert Merge(a, Zero(k)).averages == a.averages;
      assert Merge(Zero(k), a).averages == a.averages;
    }
  }

  lemma MergeCommutes(k: Kind, a: Agg, b: Agg)
    requires Is(k, a) && Is(k, b)
    ensures Merge(a, b) == Merge(b, a)
  {
    if k == KeyedKind {
      assert Merge(a, b).averages == Merge(b, a).averages;
    }
  }

  lemma MergeAssociates(k: Kind, a: Agg, b: Agg, c: Agg)
    requires Is(k, a) && Is(k, b) && Is(k, c)
    ensures Merge(Merge(a, b), c) == Merge(a, Merge(b, c))
  {
    if k == KeyedKind {
      KeyedAssociates(a.averages, b.averages, c.averages);
    }
  }

  lemma KeyedAssociates(x: map<int, (int, nat)>, y: map<int, (int, nat)>, z: map<int, (int, nat)>)
    ensures AddAll(AddAll(x, y), z) == AddAll(x, AddAll(y, z))
  {
    hide AddAll, Average, Both;
    var l, r := AddAll(AddAll(x, y), z), AddAll(x, AddAll(y, z));
    assert l.Keys == r.Keys;
    forall k | k in l
      ensures l[k] == r[k]
    {
      AverageAdds(x, y, k);
      AverageAdds(y, z, k);
      AverageAdds(AddAll(x, y), z, k);
      AverageAdds(x, AddAll(y, z), k);
      BothAssociates(Average(x, k), Average(y, k), Average(z, k));
    }
  }

  lemma AverageAdds(x: map<int, (int, nat)>, y: map<int, (int, nat)>, k: int)
    ensures Average(AddAll(x, y), k) == Both(Average(x, k), Average(y, k))
    ensures k in AddAll(x, y) ==> AddAll(x, y)[k] == Average(AddAll(x, y), k)
  {
  }

  lemma BothAssociates(d: (int, nat), e: (int, nat), f: (int, nat))
    ensures Both(Both(d, e), f) == Both(d, Both(e, f))
  {
  }

  /** Merging in one value is merging in an aggregator that has seen this value only. */
  lemma MergeValueIs(k: Kind, a: Agg, v: Value)
    requires Is(k, a) && InRange(v)
    ensures Is(k, Of(k, v)) && MergeValue(a, v) == Merge(a, Of(k, v))
  {
    if k == KeyedKind {
      assert MergeValue(a, v).averages == Merge(a, Of(k, v)).averages;
    }
  }

  /** Two pairs of aggregators may be merged in either order. */
  lemma MergeSwaps(k: Kind, a: Agg, b: Agg, c: Agg, d: Agg)
    requires Is(k, a) && Is(k, b) && Is(k, c) && Is(k, d)
    ensures Merge(Merge(a, b), Merge(c, d)) == Merge(Merge(a, c), Merge(b, d))
  {
    hide Merge, Is;
    MergeIs(k, b, d);
    MergeIs(k, c, d);
    MergeAssociates(k, a, b, Merge(c, d));
    MergeAssociates(k, b, c, d);
    MergeCommutes(k, b, c);
    MergeAssociates(k, c, b, d);
    MergeAssociates(k, a, c, Merge(b, d));
  }

  // ----- Merging many -----

  ghost predicate All(k: Kind, s: seq<Agg>) {
    forall i :: 0 <= i < |s| ==> Is(k, s[i])
  }

  function Fold(k: Kind, s: seq<Agg>): Agg {
    if s == [] then Zero(k) else Merge(Fold(k, s[..|s| - 1]), s[|s| - 1])
  }

  lemma {:induction false} FoldIs(k: Kind, s: seq<Agg>)
    requires All(k, s)
    ensures Is(k, Fold(k, s))
  {
    if s != [] {
      FoldIs(k, s[..|s| - 1]);
      MergeIs(k, Fold(k, s[..|s| - 1]), s[|s| - 1]);
    }
  }

  lemma {:induction false} FoldAppend(k: Kind, s: seq<Agg>, t: seq<Agg>)
    requires All(k, s) && All(k, t)
    ensures Fold(k, s + t) == Merge(Fold(k, s), Fold(k, t))
    decreases |t|
  {
    hide Merge, Is, Zero;
    FoldIs(k, s);
    if t == [] {
      assert s + t == s;
      MergeZero(k, Fold(k, s));
    } else {
      var n := |t| - 1;
      assert (s + t)[..|s + t| - 1] == s + t[..n];
      FoldAppend(k, s, t[..n]);
      FoldIs(k, t[..n]);
      MergeAssociates(k, Fold(k, s), Fold(k, t[..n]), t[n]);
    }
  }

  lemma FoldOne(k: Kind, a: Agg)
    requires Is(k, a)
    ensures Fold(k, [a]) == a
  {
    hide Merge;
    assert [a][..0] == [];
    MergeZero(k, a);
  }

  lemma FoldRemove(k: Kind, t: seq<Agg>, i: nat)
    requires All(k, t) && i < |t|
    ensures Fold(k, t) == Merge(Fold(k, t[..i] + t[i + 1..]), t[i])
  {
    hide Merge, Is, Zero, Fold;
    var l, a, r := t[..i], t[i], t[i + 1..];
    assert t == l + ([a] + r);
    FoldAppend(k, l, r);
    FoldAppend(k, l, [a] + r);
    FoldAppend(k, [a], r);
    FoldOne(k, a);
    FoldIs(k, l);
    FoldIs(k, r);
    MergeCommutes(k, a, Fold(k, r));
    MergeAssociates(k, Fold(k, l), Fold(k, r), a);
  }

  lemma Without<T>(s: seq<T>, t: seq<T>) returns (i: nat)
    requires s != [] && multiset(s) == multiset(t)
    ensures i < |t| && t[i] == s[|s| - 1] && multiset(s[..|s| - 1]) == multiset(t[..i] + t[i + 1..])
  {
    var n, a := |s| - 1, s[|s| - 1];
    assert s == s[..n] + [a];
    assert a in multiset(t);
    i :| 0 <= i < |t| && t[i] == a;
    assert t == t[..i] + [a] + t[i + 1..];
    assert multiset(t) == multiset(t[..i]) + multiset{a} + multiset(t[i + 1..]);
    assert multiset(s[..n]) == multiset(s) - multiset{a};
    assert multiset(t[..i] + t[i + 1..]) == multiset(t) - multiset{a};
  }

  /** The order of the aggregators does not matter. */
  lemma {:induction false} FoldPermutes(k: Kind, s: seq<Agg>, t: seq<Agg>)
    requires All(k, s) && All(k, t) && multiset(s) == multiset(t)
    ensures Fold(k, s) == Fold(k, t)
    decreases |s|
  {
    hide Merge, Is, Zero;
    if s == [] {
      assert |t| == |multiset(t)| == 0;
    } else {
      var i := Without(s, t);
      FoldPermutes(k, s[..|s| - 1], t[..i] + t[i + 1..]);
      FoldRemove(k, t, i);
    }
  }

  // ----- Merging values -----

  /** An aggregator that has seen these values. */
  function Merged(k: Kind, vs: seq<Value>): Agg {
    if vs == [] then Zero(k) else MergeValue(Merged(k, vs[..|vs| - 1]), vs[|vs| - 1])
  }

  ghost predicate AllInRange(vs: seq<Value>) {
    forall i :: 0 <= i < |vs| ==> InRange(vs[i])
  }

  function Ofs(k: Kind, vs: seq<Value>): seq<Agg> {
    seq(|vs|, i requires 0 <= i < |vs| => Of(k, vs[i]))
  }

  lemma {:induction false} MergedIs(k: Kind, vs: seq<Value>)
    requires AllInRange(vs)
    ensures All(k, Ofs(k, vs)) && Merged(k, vs) == Fold(k, Ofs(k, vs)) && Is(k, Merged(k, vs))
  {
    hide Is, MergeValue, Of, Merge;
    forall i | 0 <= i < |vs|
      ensures Is(k, Of(k, vs[i]))
    {
      MergeValueIs(k, Zero(k), vs[i]);
    }
    FoldIs(k, Ofs(k, vs));
    if vs != [] {
      var n := |vs| - 1;
      MergedIs(k, vs[..n]);
      assert Ofs(k, vs)[..n] == Ofs(k, vs[..n]);
      MergeValueIs(k, Merged(k, vs[..n]), vs[n]);
    }
  }

  lemma MergedAppend(k: Kind, vs: seq<Value>, ws: seq<Value>)
    requires AllInRange(vs) && AllInRange(ws)
    ensures Merged(k, vs + ws) == Merge(Merged(k, vs), Merged(k, ws))
  {
    hide Is, Of, Merge, Merged, Fold;
    MergedIs(k, vs);
    MergedIs(k, ws);
    MergedIs(k, vs + ws);
    assert Ofs(k, vs + ws) == Ofs(k, vs) + Ofs(k, ws);
    FoldAppend(k, Ofs(k, vs), Ofs(k, ws));
  }

  function Flatten<T>(batches: seq<seq<T>>): seq<T> {
    if batches == [] then [] else Flatten(batches[..|batches| - 1]) + batches[|batches| - 1]
  }

  function MergedEach(k: Kind, batches: seq<seq<Value>>): seq<Agg> {
    seq(|batches|, i requires 0 <= i < |batches| => Merged(k, batches[i]))
  }

  /** However values are cut into batches, merging the batches merges the values. */
  lemma {:induction false} BatchesMerge(k: Kind, batches: seq<seq<Value>>)
    requires forall i :: 0 <= i < |batches| ==> AllInRange(batches[i])
    ensures AllInRange(Flatten(batches)) && All(k, MergedEach(k, batches))
    ensures Fold(k, MergedEach(k, batches)) == Merged(k, Flatten(batches))
  {
    hide Is, Merge, Merged;
    forall i | 0 <= i < |batches|
      ensures Is(k, Merged(k, batches[i]))
    {
      MergedIs(k, batches[i]);
    }
    if batches == [] {
      MergedNone(k);
    } else {
      var n := |batches| - 1;
      BatchesMerge(k, batches[..n]);
      assert MergedEach(k, batches)[..n] == MergedEach(k, batches[..n]);
      MergedAppend(k, Flatten(batches[..n]), batches[n]);
    }
  }

  lemma MergedNone(k: Kind)
    ensures Merged(k, []) == Zero(k)
  {
  }

  lemma {:induction false} MergedPermutes(k: Kind, vs: seq<Value>, ws: seq<Value>)
    requires AllInRange(vs) && AllInRange(ws) && multiset(vs) == multiset(ws)
    ensures Merged(k, vs) == Merged(k, ws)
    decreases |vs|
  {
    hide Is, Of, Merge, Fold;
    if vs == [] {
      assert |ws| == |multiset(ws)| == 0;
    } else {
      var n := |vs| - 1;
      var i := Without(vs, ws);
      MergedPermutes(k, vs[..n], ws[..i] + ws[i + 1..]);
      MergedRemove(k, ws, i);
      MergedRemove(k, vs, n);
      assert vs[..n] + vs[n + 1..] == vs[..n];
    }
  }

  lemma MergedRemove(k: Kind, vs: seq<Value>, i: nat)
    requires AllInRange(vs) && i < |vs|
    ensures Merged(k, vs) == Merge(Merged(k, vs[..i] + vs[i + 1..]), Of(k, vs[i]))
  {
    hide Is, Of, Merge, Fold, Merged;
    var rest := vs[..i] + vs[i + 1..];
    MergedIs(k, vs);
    MergedIs(k, rest);
    FoldRemove(k, Ofs(k, vs), i);
    assert Ofs(k, rest) == Ofs(k, vs)[..i] + Ofs(k, vs)[i + 1..];
  }

  // ----- What an aggregator says of the values it has seen -----

  function Total(xs: seq<int>): int {
    if xs == [] then 0 else xs[0] + Total(xs[1..])
  }

  function Xs(vs: seq<Value>): (xs: seq<int>)
    ensures |xs| == |vs| && forall i :: 0 <= i < |vs| ==> xs[i] == vs[i].x
  {
    seq(|vs|, i requires 0 <= i < |vs| => vs[i].x)
  }

  function Squares(xs: seq<int>): (qs: seq<int>)
    ensures |qs| == |xs| && forall i :: 0 <= i < |xs| ==> qs[i] == xs[i] * xs[i]
  {
    seq(|xs|, i requires 0 <= i < |xs| => xs[i] * xs[i])
  }

  /** The values under a key. */
  function Under(vs: seq<Value>, key: int): (xs: seq<int>) {
    if vs == [] then [] else (if vs[0].key == key then [vs[0].x] else []) + Under(vs[1..], key)
  }

  /** m is the largest of the values, or the start value if there is none. */
  ghost predicate Largest(m: int, xs: seq<int>, start: int) {
    (forall i :: 0 <= i < |xs| ==> xs[i] <= m) && if xs == [] then m == start else m in xs
  }

  ghost predicate Smallest(m: int, xs: seq<int>, start: int) {
    (forall i :: 0 <= i < |xs| ==> m <= xs[i]) && if xs == [] then m == start else m in xs
  }

  /** The sum and the count of the values under each key that occurs. */
  ghost predicate Averages(m: map<int, (int, nat)>, vs: seq<Value>) {
    && (forall key :: key in m <==> Under(vs, key) != [])
    && (forall key :: key in m ==> m[key] == (Total(Under(vs, key)), |Under(vs, key)|))
  }

  /** What each kind of aggregator says of the values it has seen. */
  ghost predicate Describes(k: Kind, a: Agg, vs: seq<Value>) {
    var xs := Xs(vs);
    match (k, a)
    case (SumKind, Sum(v)) => v == Total(xs)
    case (MaxKind, Max(v)) => Largest(v, xs, LOWEST)
    case (MinKind, Min(v)) => Smallest(v, xs, HIGHEST)
    case (AvgKind, Avg(v, n)) => v == Total(xs) && n == |vs|
    case (KeyedKind, Keyed(m)) => Averages(m, vs)
    case (TimerKind, Timer(s, q, l, h, n)) =>
      && s == Total(xs) && q == Total(Squares(xs)) && n == |vs|
      && Smallest(l, xs, HIGHEST) && Largest(h, xs, LOWEST)
    case _ => false
  }

  /** An aggregator that has seen these values describes them. */
  lemma {:induction false} MergedDescribes(k: Kind, vs: seq<Value>)
    requires AllInRange(vs)
    ensures Describes(k, Merged(k, vs), vs)
  {
    if vs == [] {
      NoneDescribed(k);
    } else {
      hide Merged, Describes, MergeValue;
      var n := |vs| - 1;
      MergedDescribes(k, vs[..n]);
      MoreDescribed(k, Merged(k, vs[..n]), vs[..n], vs[n]);
      assert vs == vs[..n] + [vs[n]];
      MergedLast(k, vs);
    }
  }

  lemma NoneDescribed(k: Kind)
    ensures Describes(k, Merged(k, []), [])
  {
  }

  lemma MergedLast(k: Kind, vs: seq<Value>)
    requires vs != []
    ensures Merged(k, vs) == MergeValue(Merged(k, vs[..|vs| - 1]), vs[|vs| - 1])
  {
    hide MergeValue;
  }

  lemma MoreDescribed(k: Kind, a: Agg, vs: seq<Value>, v: Value)
    requires Describes(k, a, vs) && InRange(v)
    ensures Describes(k, MergeValue(a, v), vs + [v])
  {
    hide Total, Squares, Under, Averages, Smallest, Largest, AddTo;
    var xs := Xs(vs);
    assert Xs(vs + [v]) == xs + [v.x];
    TotalMore(xs, v.x);
    SquaresMore(xs, v.x);
    LargestMore(xs, v.x);
    if k == KeyedKind {
      AveragesMore(a.averages, vs, v);
    }
  }

  lemma SquaresMore(xs: seq<int>, x: int)
    ensures Total(Squares(xs + [x])) == Total(Squares(xs)) + x * x
  {
    hide Total;
    assert Squares(xs + [x]) == Squares(xs) + [x * x];
    TotalMore(Squares(xs), x * x);
  }

  lemma AveragesMore(m: map<int, (int, nat)>, vs: seq<Value>, v: Value)
    requires Averages(m, vs)
    ensures Averages(AddTo(m, v.key, (v.x, 1)), vs + [v])
  {
    var m', ws := AddTo(m, v.key, (v.x, 1)), vs + [v];
    TotalMore(Under(vs, v.key), v.x);
    TotalNone();
    hide Total, Under;
    forall key
      ensures key in m' <==> Under(ws, key) != []
      ensures key in m' ==> m'[key] == (Total(Under(ws, key)), |Under(ws, key)|)
    {
      UnderMore(vs, v, key);
    }
  }

  lemma TotalNone()
    ensures Total([]) == 0
  {
  }

  lemma LargestMore(xs: seq<int>, x: int)
    requires LOWEST <= x <= HIGHEST
    ensures forall m :: Largest(m, xs, LOWEST) ==> Largest(Most(m, x), xs + [x], LOWEST)
    ensures forall m :: Smallest(m, xs, HIGHEST) ==> Smallest(Least(m, x), xs + [x], HIGHEST)
  {
    forall m | Largest(m, xs, LOWEST)
      ensures Largest(Most(m, x), xs + [x], LOWEST)
    {
      assert (xs + [x])[|xs|] == x;
    }
    forall m | Smallest(m, xs, HIGHEST)
      ensures Smallest(Least(m, x), xs + [x], HIGHEST)
    {
      assert (xs + [x])[|xs|] == x;
    }
  }

  lemma {:induction false} TotalMore(xs: seq<int>, x: int)
    ensures Total(xs + [x]) == Total(xs) + x
  {
    if xs != [] {
      assert (xs + [x])[1..] == xs[1..] + [x];
      TotalMore(xs[1..], x);
    }
  }

  lemma {:induction false} UnderMore(vs: seq<Value>, v: Value, key: int)
    ensures Under(vs + [v], key) == if v.key == key then Under(vs, key) + [v.x] else Under(vs, key)
  {
    if vs == [] {
      assert vs + [v] == [v];
    } else {
      assert (vs + [v])[1..] == vs[1..] + [v];
      UnderMore(vs[1..], v, key);
    }
  }

  // ----- The objects -----

  class TimerAggregator {
    var sum: int
    var sum2: int
    var least: int
    var most: int
    var count: nat

    function Read(): (a: Agg)
      reads this
    {
      Timer(sum, sum2, least, most, count)
    }

    method Init()
      modifies this
      ensures Read() == Zero(TimerKind)
    {
      sum, sum2 := 0, 0;
      least, most := HIGHEST, LOWEST;
      count := 0;
    }

    method Record(x: int)
      modifies this
      ensures Read() == MergeValue(old(Read()), Value(0, x))
    {
      sum := sum + x;
      sum2 := sum2 + x * x;
      if least > x {
        least := x;
      }
      if most < x {
        most := x;
      }
      count := count + 1;
    }

    /** Also right for an aggregator that is merged into itself. */
    method MergeAggregator(other: TimerAggregator)
      modifies this
      ensures Read() == Merge(old(Read()), old(other.Read()))
    {
      sum := sum + other.sum;
      sum2 := sum2 + other.sum2;
      if least > other.least {
        least := other.least;
      }
      if most < other.most {
        most := other.most;
      }
      count := count + other.count;
    }
  }

  class AvgAggregator {
    var value: int
    var count: nat

    function Read(): (a: Agg)
      reads this
    {
      Avg(value, count)
    }

    method Init()
      modifies this
      ensures Read() == Zero(AvgKind)
    {
      value, count := 0, 0;
    }

    method MergeInternal(x: int, n: nat)
      modifies this
      ensures Read() == Avg(old(value) + x, old(count) + n)
    {
      value := value + x;
      count := count + n;
    }

    method Record(x: int)
      modifies this
      ensures Read() == MergeValue(old(Read()), Value(0, x))
    {
      MergeInternal(x, 1);
    }

    method MergeAggregator(other: AvgAggregator)
      modifies this
      ensures Read() == Merge(old(Read()), old(other.Read()))
    {
      MergeInternal(other.value, other.count);
    }
  }

  class KeyedAvgAggregator {
    var averages: map<int, (int, nat)>

    function Read(): (a: Agg)
      reads this
    {
      Keyed(averages)
    }

    method Init()
      modifies this
      ensures Read() == Zero(KeyedKind)
    {
      averages := map[];
    }

    method Record(v: Value)
      modifies this
      ensures Read() == MergeValue(old(Read()), v)
    {
      averages := AddTo(averages, v.key, (v.x, 1));
    }

    /** The keys of the other aggregator come in any order; also right for a merge into itself. */
    method MergeAggregator(other: KeyedAvgAggregator)
      modifies this
      ensures Read() == Merge(old(Read()), old(other.Read()))
    {
      ghost var x, y := averages, other.averages;
      var keys := other.averages.Keys;
      MergingStart(x, y);
      hide Merging, AddTo, AddAll, Merge, Average, Both;
      KeyedMerge(x, y);
      while keys != {}
        invariant Merging(averages, x, y, keys) && if other == this then x == y else other.averages == y
        decreases |keys|
      {
        var k :| k in keys;
        MergingKey(averages, x, y, keys, k);
        MergingStep(averages, x, y, keys, k);
        averages := AddTo(averages, k, other.averages[k]);
        keys := keys - {k};
      }
      MergingEnd(averages, x, y);
    }
  }

  /** The averages x, with those of y under all keys but the given ones merged in. */
  ghost predicate Merging(m: map<int, (int, nat)>, x: map<int, (int, nat)>, y: map<int, (int, nat)>, keys: set<int>) {
    && keys <= y.Keys && m.Keys == x.Keys + (y.Keys - keys)
    && forall k :: k in m ==> m[k] == if k in keys then x[k] else Both(Average(x, k), Average(y, k))
  }

  lemma KeyedMerge(x: map<int, (int, nat)>, y: map<int, (int, nat)>)
    ensures Merge(Keyed(x), Keyed(y)) == Keyed(AddAll(x, y))
  {
  }

  lemma MergingStart(x: map<int, (int, nat)>, y: map<int, (int, nat)>)
    ensures Merging(x, x, y, y.Keys)
  {
  }

  lemma MergingKey(m: map<int, (int, nat)>, x: map<int, (int, nat)>, y: map<int, (int, nat)>, keys: set<int>, k: int)
    requires Merging(m, x, y, keys) && k in keys
    ensures k in y && (x == y ==> k in m && m[k] == y[k])
  {
  }

  lemma MergingStep(m: map<int, (int, nat)>, x: map<int, (int, nat)>, y: map<int, (int, nat)>, keys: set<int>, k: int)
    requires Merging(m, x, y, keys) && k in keys
    ensures k in y && Merging(AddTo(m, k, y[k]), x, y, keys - {k})
  {
    hide Both;
  }

  lemma MergingEnd(m: map<int, (int, nat)>, x: map<int, (int, nat)>, y: map<int, (int, nat)>)
    requires Merging(m, x, y, {})
    ensures m == AddAll(x, y)
  {
    hide Both, Average;
  }
}
