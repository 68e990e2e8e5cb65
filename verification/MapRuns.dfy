/** What a run of calls on a finite map observes; both hash tables are held against this. */
module MapRuns {
  import opened Basics

  /** The calls; Tune stands for those that set how the table is laid out, which T tells apart. */
  datatype Op<K, V, T> = Find(k: K) | Insert(k: K, v: V) | Assign(k: K, v: V) | Erase(k: K) | Clear | Tune(t: T)

  /** What one call returns: the value found, or whether the map has gained or lost the key. */
  datatype Seen<V> = Found(v: Option<V>) | Changed(b: bool)

  function After<K, V, T>(m: map<K, V>, op: Op<K, V, T>): map<K, V> {
    match op
    case Find(_) => m
    case Insert(k, v) => if k in m then m else m[k := v]
    case Assign(k, v) => m[k := v]
    case Erase(k) => m - {k}
    case Clear => map[]
    case Tune(_) => m
  }

  function Answer<K, V, T>(m: map<K, V>, op: Op<K, V, T>): Seen<V> {
    match op
    case Find(k) => Found(if k in m then Some(m[k]) else None)
    case Insert(k, _) => Changed(k !in m)
    case Assign(k, _) => Changed(k !in m)
    case Erase(k) => Changed(k in m)
    case Clear => Changed(false)
    case Tune(_) => Changed(false)
  }

  /** The map after the first n calls. */
  function State<K, V, T>(m: map<K, V>, ops: seq<Op<K, V, T>>, n: nat): map<K, V>
    requires n <= |ops|
  {
    if n == 0 then m else After(State(m, ops, n - 1), ops[n - 1])
  }

  /** Every call of the run is answered as the map at that point demands. */
  ghost predicate Answers<K, V, T>(m: map<K, V>, ops: seq<Op<K, V, T>>, seen: seq<Seen<V>>) {
    |seen| <= |ops| && forall i :: 0 <= i < |seen| ==> seen[i] == Answer(State(m, ops, i), ops[i])
  }

  lemma RunStart<K, V, T>(m: map<K, V>, ops: seq<Op<K, V, T>>)
    ensures Answers(m, ops, []) && State(m, ops, 0) == m
  {
  }

  lemma {:induction false} RunStep<K, V, T>(m: map<K, V>, ops: seq<Op<K, V, T>>, seen: seq<Seen<V>>, r: Seen<V>)
    requires Answers(m, ops, seen) && |seen| < |ops| && r == Answer(State(m, ops, |seen|), ops[|seen|])
    ensures Answers(m, ops, seen + [r]) && State(m, ops, |seen| + 1) == After(State(m, ops, |seen|), ops[|seen|])
  {
    hide After, Answer;
    var more := seen + [r];
    forall i | 0 <= i < |more|
      ensures more[i] == Answer(State(m, ops, i), ops[i])
    {
      if i < |seen| {
        assert more[i] == seen[i];
      }
    }
  }

  /** What the first n calls leave under one key: the last that was put there and not erased. */
  ghost function Kept<K, V, T>(start: Option<V>, ops: seq<Op<K, V, T>>, n: nat, key: K): (r: Option<V>)
    requires n <= |ops|
  {
    if n == 0 then start
    else
      var op, before := ops[n - 1], Kept(start, ops, n - 1, key);
      if op.Clear? then None
      else if op.Find? || op.Tune? || op.k != key then before
      else if op.Erase? then None
      else if op.Insert? && before.Some? then before
      else Some(op.v)
  }

  function Lookup<K, V>(m: map<K, V>, key: K): Option<V> {
    if key in m then Some(m[key]) else None
  }

  /** The map after a run, key by key. */
  lemma {:induction false} StateIs<K, V, T>(m: map<K, V>, ops: seq<Op<K, V, T>>, n: nat, key: K)
    requires n <= |ops|
    ensures Lookup(State(m, ops, n), key) == Kept(Lookup(m, key), ops, n, key)
    decreases n
  {
    if n > 0 {
      StateIs(m, ops, n - 1, key);
    }
  }

  /** What a call answers: the value of its key, or whether its key was new or was there. */
  lemma AnswerIs<K, V, T>(m: map<K, V>, ops: seq<Op<K, V, T>>, n: nat)
    requires n < |ops|
    ensures var op, r := ops[n], Answer(State(m, ops, n), ops[n]);
      if op.Clear? || op.Tune? then r == Changed(false)
      else
        var now := Kept(Lookup(m, op.k), ops, n, op.k);
        r == if op.Find? then Found(now) else Changed(if op.Erase? then now.Some? else now.None?)
  {
    hide State, Kept;
    var op := ops[n];
    if !op.Clear? && !op.Tune? {
      StateIs(m, ops, n, op.k);
    }
  }

  /** The queue holds every entry of m exactly once. */
  ghost predicate Lists<K, V>(queue: seq<(K, V)>, m: map<K, V>) {
    && (forall i :: 0 <= i < |queue| ==> queue[i].0 in m && m[queue[i].0] == queue[i].1)
    && (forall i, j :: 0 <= i < j < |queue| ==> queue[i].0 != queue[j].0)
    && (forall k :: k in m ==> exists i :: 0 <= i < |queue| && queue[i].0 == k)
  }

  lemma ListsNext<K, V>(queue: seq<(K, V)>, m: map<K, V>, c: map<K, V>, i: nat)
    requires Lists(queue, m) && i < |queue| && Lists(queue[..i], c)
    ensures queue[i].0 !in c && Lists(queue[..i + 1], c[queue[i].0 := queue[i].1])
  {
    assert queue[..i + 1] == queue[..i] + [queue[i]];
    ListsAdd(queue[..i], c, queue[i]);
  }

  lemma NoneListed<K, V>(m: map<K, V>)
    requires m == map[]
    ensures Lists([], m)
  {
  }

  lemma ListsAdd<K, V>(q: seq<(K, V)>, c: map<K, V>, e: (K, V))
    requires Lists(q, c) && e.0 !in c
    ensures Lists(q + [e], c[e.0 := e.1])
  {
    var r, d := q + [e], c[e.0 := e.1];
    forall i | 0 <= i < |r|
      ensures r[i].0 in d && d[r[i].0] == r[i].1
    {
      assert i < |q| ==> r[i] == q[i];
    }
    forall k | k in d
      ensures exists j :: 0 <= j < |r| && r[j].0 == k
    {
      if k == e.0 {
        assert r[|q|].0 == k;
      } else {
        var j :| 0 <= j < |q| && q[j].0 == k;
        assert r[j].0 == k;
      }
    }
  }

  lemma ListsSame<K, V>(queue: seq<(K, V)>, i: nat, c: map<K, V>, m: map<K, V>)
    requires i == |queue| && Lists(queue[..i], c) && Lists(queue, m)
    ensures c == m && i == |queue|
  {
    assert queue[..i] == queue;
  }

  // ----- A loop that erases while it iterates -----

  ghost predicate Offered<K, V>(offered: seq<(K, V)>, k: K) {
    exists j :: 0 <= j < |offered| && offered[j].0 == k
  }

  /**
   The loop stands at slot `it` (0 at the end) of a table with contents c, where `at` gives
   the slot of each key; m is what the table held at first.  The keys in slots below `it` are
   the ones that have been offered and kept.
   */
  ghost predicate Swept<K(!new), V>(offered: seq<(K, V)>, m: map<K, V>, c: map<K, V>, at: map<K, nat>, it: nat,
                                    choose: nat -> bool)
  {
    && c.Keys == at.Keys
    && (forall k :: k in c ==> k in m && c[k] == m[k])
    && (forall j :: 0 <= j < |offered| ==> offered[j].0 in m && m[offered[j].0] == offered[j].1)
    && (forall i, j :: 0 <= i < j < |offered| ==> offered[i].0 != offered[j].0)
    && (forall j :: 0 <= j < |offered| ==> (offered[j].0 in c <==> !choose(j)))
    && (forall k :: k in at ==> (Offered(offered, k) <==> it == 0 || at[k] < it))
    && (forall k :: k in m ==> k in c || Offered(offered, k))
  }

  lemma SweptStart<K(!new), V>(m: map<K, V>, at: map<K, nat>, it: nat, choose: nat -> bool)
    requires m.Keys == at.Keys && forall k :: k in at && at[k] > 0 ==> it != 0 && it <= at[k]
    requires forall k :: k in at ==> at[k] > 0
    ensures Swept([], m, m, at, it, choose)
  {
  }

  lemma OfferedMore<K, V>(offered: seq<(K, V)>, e: (K, V), k: K)
    ensures Offered(offered + [e], k) <==> Offered(offered, k) || k == e.0
  {
    var more := offered + [e];
    if Offered(offered, k) {
      var j :| 0 <= j < |offered| && offered[j].0 == k;
      assert more[j].0 == k;
    }
    assert more[|offered|] == e;
    if Offered(more, k) {
      var j :| 0 <= j < |more| && more[j].0 == k;
      assert j < |offered| ==> offered[j].0 == k;
    }
  }

  /** The item at the loop's slot has not been offered before; so the loop ends. */
  lemma SweptBound<K(!new), V>(offered: seq<(K, V)>, m: map<K, V>, c: map<K, V>, at: map<K, nat>, it: nat,
                               choose: nat -> bool, k: K)
    requires Swept(offered, m, c, at, it, choose) && it != 0 && k in at && at[k] == it
    ensures !Offered(offered, k) && |offered| < |m|
  {
    assert forall j :: 0 <= j < |offered| ==> offered[j].0 != k;
    DistinctBound(offered, m.Keys - {k});
  }

  lemma {:induction false} DistinctBound<K, V>(q: seq<(K, V)>, s: set<K>)
    requires forall j :: 0 <= j < |q| ==> q[j].0 in s
    requires forall i, j :: 0 <= i < j < |q| ==> q[i].0 != q[j].0
    ensures |q| <= |s|
  {
    if q != [] {
      var n := |q| - 1;
      DistinctBound(q[..n], s - {q[n].0});
    }
  }

  lemma SweptSkip<K(!new), V>(offered: seq<(K, V)>, m: map<K, V>, c: map<K, V>, at: map<K, nat>, x: nat, it: nat,
                              choose: nat -> bool, key: K)
    requires Swept(offered, m, c, at, x, choose) && x != 0 && key in at && at[key] == x && !choose(|offered|)
    requires forall k :: k in at && at[k] == x ==> k == key
    requires (it == 0 || it > x) && forall k :: k in at && at[k] > x ==> it != 0 && it <= at[k]
    ensures Swept(offered + [(key, c[key])], m, c, at, it, choose)
  {
    var more := offered + [(key, c[key])];
    assert !Offered(offered, key);
    assert forall j :: 0 <= j < |offered| ==> offered[j].0 != key && more[j] == offered[j];
    forall k | k in m
      ensures Offered(more, k) <==> Offered(offered, k) || k == key
    {
      OfferedMore(offered, (key, c[key]), k);
    }
  }

  /** Key `gone` has left and `key` has taken its place x. */
  ghost function Renamed<K>(at: map<K, nat>, gone: K, key: K, x: nat): map<K, nat> {
    (at - {gone})[key := x]
  }

  lemma SweptErase<K(!new), V>(offered: seq<(K, V)>, m: map<K, V>, c: map<K, V>, at: map<K, nat>, at': map<K, nat>,
                               x: nat, it: nat, choose: nat -> bool, key: K, next: nat, moved: K)
    requires Swept(offered, m, c, at, x, choose) && x != 0 && key in at && at[key] == x && choose(|offered|)
    requires forall k :: k in at && at[k] == x ==> k == key
    requires next != x
    requires if next == 0 then at' == at - {key}
      else moved in at && at[moved] == next && at' == Renamed(at, key, moved, x)
    requires if next == 0 || next < x
      then (it == 0 || it > x) && forall k :: k in at' && at'[k] > x ==> it != 0 && it <= at'[k]
      else it == x
    ensures Swept(offered + [(key, c[key])], m, c - {key}, at', it, choose)
  {
    var more := offered + [(key, c[key])];
    assert at'.Keys == at.Keys - {key};
    forall k | k in m
      ensures Offered(more, k) <==> Offered(offered, k) || k == key
    {
      OfferedMore(offered, (key, c[key]), k);
    }
    forall k | k in at'
      ensures Offered(more, k) <==> it == 0 || at'[k] < it
    {
      assert k in at && k != key && (Offered(offered, k) <==> at[k] < x);
    }
    SweptOffered(offered, m, c, at, x, choose, key);
  }

  /** What erasing the item that has just been offered does to the list of offers. */
  lemma SweptOffered<K(!new), V>(offered: seq<(K, V)>, m: map<K, V>, c: map<K, V>, at: map<K, nat>, x: nat,
                                 choose: nat -> bool, key: K)
    requires Swept(offered, m, c, at, x, choose) && x != 0 && key in at && at[key] == x && choose(|offered|)
    ensures var more := offered + [(key, c[key])];
      && (forall j :: 0 <= j < |more| ==> more[j].0 in m && m[more[j].0] == more[j].1)
      && (forall i, j :: 0 <= i < j < |more| ==> more[i].0 != more[j].0)
      && (forall j :: 0 <= j < |more| ==> (more[j].0 in c - {key} <==> !choose(j)))
  {
    var more := offered + [(key, c[key])];
    assert !Offered(offered, key);
    assert forall j :: 0 <= j < |offered| ==> offered[j].0 != key && more[j] == offered[j];
  }

  lemma SweptEnd<K(!new), V>(offered: seq<(K, V)>, m: map<K, V>, c: map<K, V>, at: map<K, nat>, choose: nat -> bool)
    requires Swept(offered, m, c, at, 0, choose)
    ensures Lists(offered, m)
    ensures forall j :: 0 <= j < |offered| ==> (offered[j].0 in c <==> !choose(j))
    ensures forall k :: k in c ==> k in m && c[k] == m[k]
  {
    forall k | k in m
      ensures exists i :: 0 <= i < |offered| && offered[i].0 == k
    {
      assert Offered(offered, k);
    }
  }
}
