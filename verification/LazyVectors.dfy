/** LazyVector: a sequence made of views into buffers that several vectors may share and that only grow. */
module LazyVectors {

  /** A shared buffer. */
  class Buffer<T> {
    var items: seq<T>

    constructor (items: seq<T>)
      ensures this.items == items
    {
      this.items := items;
    }
  }

  /** The items from begin up to end of a buffer; a pushable view may be extended at the buffer's end. */
  datatype View<T> = View(begin: nat, end: nat, pushable: bool, data: Buffer<T>)

  ghost predicate Fits<T>(v: View<T>)
    reads v.data
  {
    v.begin <= v.end <= |v.data.items|
  }

  ghost function Slice<T>(v: View<T>): seq<T>
    reads v.data
  {
    if Fits(v) then v.data.items[v.begin..v.end] else []
  }

  /** Part of a view's items. */
  lemma PartIs<T>(v: View<T>, off: nat, local: nat, pushable: bool)
    requires Fits(v) && off <= local <= v.end - v.begin
    ensures var p := View(v.begin + off, v.begin + local, pushable, v.data);
      && Fits(p) && Slice(p) == Slice(v)[off..local]
      && (off == 0 ==> Slice(p) == Slice(v)[..local])
      && (local == v.end - v.begin ==> Slice(p) == Slice(v)[off..])
  {
    var items, p := v.data.items, View(v.begin + off, v.begin + local, pushable, v.data);
    forall i | 0 <= i < local - off
      ensures Slice(p)[i] == Slice(v)[off..local][i]
    {
      assert Slice(v)[off + i] == items[v.begin + off + i];
    }
  }

  lemma SliceGrows<T>(items: seq<T>, begin: nat, x: T)
    requires begin <= |items|
    ensures (items + [x])[begin..|items| + 1] == items[begin..|items|] + [x]
  {
  }

  /** All views are into buffers of this set. */
  ghost predicate Into<T>(vs: seq<View<T>>, buffers: set<Buffer<T>>) {
    forall i :: 0 <= i < |vs| ==> vs[i].data in buffers
  }

  ghost function Slices<T>(vs: seq<View<T>>, buffers: set<Buffer<T>>): (r: seq<seq<T>>)
    requires Into(vs, buffers)
    reads buffers
    ensures |r| == |vs| && forall i :: 0 <= i < |vs| ==> r[i] == Slice(vs[i])
  {
    if vs == [] then [] else Slices(vs[..|vs| - 1], buffers) + [Slice(vs[|vs| - 1])]
  }

  /** The items of the slices from lo up to hi, one slice after the other. */
  function Flat<T>(ss: seq<seq<T>>, lo: nat, hi: nat): seq<T>
    requires hi <= |ss|
  {
    if hi <= lo then [] else Flat(ss, lo, hi - 1) + ss[hi - 1]
  }

  lemma {:induction false} FlatSame<T>(ss: seq<seq<T>>, tt: seq<seq<T>>, lo: nat, hi: nat)
    requires hi <= |ss| && hi <= |tt| && forall i :: lo <= i < hi ==> ss[i] == tt[i]
    ensures Flat(ss, lo, hi) == Flat(tt, lo, hi)
  {
    if lo < hi {
      FlatSame(ss, tt, lo, hi - 1);
    }
  }

  lemma {:induction false} FlatJoin<T>(ss: seq<seq<T>>, lo: nat, mid: nat, hi: nat)
    requires lo <= mid <= hi <= |ss|
    ensures Flat(ss, lo, hi) == Flat(ss, lo, mid) + Flat(ss, mid, hi)
    decreases hi
  {
    if mid < hi {
      FlatJoin(ss, lo, mid, hi - 1);
    }
  }

  lemma {:induction false} FlatShift<T>(ss: seq<seq<T>>, tt: seq<seq<T>>, start: nat, hi: nat)
    requires start + hi <= |ss| && hi <= |tt| && forall i :: 0 <= i < hi ==> ss[start + i] == tt[i]
    ensures Flat(ss, start, start + hi) == Flat(tt, 0, hi)
  {
    if hi > 0 {
      FlatShift(ss, tt, start, hi - 1);
      assert ss[start + (hi - 1)] == tt[hi - 1];
    }
  }

  lemma FlatNone<T>(ss: seq<seq<T>>, j: nat)
    requires j <= |ss|
    ensures Flat(ss, j, j) == []
  {
  }

  lemma FlatLast<T>(ss: seq<seq<T>>)
    requires ss != []
    ensures Flat(ss, 0, |ss|) == Flat(ss, 0, |ss| - 1) + ss[|ss| - 1]
  {
  }

  /** One more slice. */
  lemma Pushed<T>(before: seq<seq<T>>, after: seq<seq<T>>)
    requires |after| == |before| + 1 && forall i :: 0 <= i < |before| ==> after[i] == before[i]
    ensures Flat(after, 0, |after|) == Flat(before, 0, |before|) + after[|before|]
  {
    FlatSame(before, after, 0, |before|);
  }

  /** One more item in the last slice. */
  lemma Extended<T>(before: seq<seq<T>>, after: seq<seq<T>>, x: T)
    requires before != [] && |after| == |before| && forall i :: 0 <= i < |before| - 1 ==> after[i] == before[i]
    requires after[|before| - 1] == before[|before| - 1] + [x]
    ensures Flat(after, 0, |after|) == Flat(before, 0, |before|) + [x]
  {
    hide Flat;
    var n := |before| - 1;
    FlatSame(before, after, 0, n);
    FlatLast(before);
    FlatLast(after);
    Associates(Flat(before, 0, n), before[n], [x]);
  }

  lemma Associates<T>(a: seq<T>, b: seq<T>, c: seq<T>)
    ensures a + (b + c) == (a + b) + c
  {
  }

  lemma FlatSplit<T>(ss: seq<seq<T>>, k: nat)
    requires k < |ss|
    ensures Flat(ss, 0, |ss|) == Flat(ss, 0, k) + ss[k] + Flat(ss, k + 1, |ss|)
    ensures Flat(ss, 0, k + 1) == Flat(ss, 0, k) + ss[k]
  {
    FlatJoin(ss, 0, k + 1, |ss|);
  }

  lemma CutIs<T>(a: seq<T>, b: seq<T>, c: seq<T>, off: nat)
    requires off <= |b|
    ensures (a + b + c)[..|a| + off] == a + b[..off] && (a + b + c)[|a| + off..] == b[off..] + c
  {
  }

  lemma MiddleIs<T>(a: seq<T>, b: seq<T>, c: seq<T>)
    ensures (a + b + c)[|a|..|a| + |b|] == b
  {
  }

  /** The items between two positions that are given by view and offset. */
  lemma PartOfOne<T>(ss: seq<seq<T>>, k: nat, off: nat, local: nat)
    requires k < |ss| && off <= local <= |ss[k]|
    ensures var b, all := |Flat(ss, 0, k)|, Flat(ss, 0, |ss|);
      b + local <= |all| && all[b + off..b + local] == ss[k][off..local]
  {
    hide Flat;
    FlatSplit(ss, k);
    var x, z := Flat(ss, 0, k), Flat(ss, k + 1, |ss|);
    assert x + ss[k] + z == (x + ss[k][..off]) + ss[k][off..local] + (ss[k][local..] + z);
    MiddleIs(x + ss[k][..off], ss[k][off..local], ss[k][local..] + z);
  }

  lemma RangeIs<T>(ss: seq<seq<T>>, k: nat, off: nat, m: nat, local: nat, b: nat, e: nat)
    requires k < m < |ss| && off < |ss[k]| && local < |ss[m]|
    requires |Flat(ss, 0, k)| + off == b && |Flat(ss, 0, m)| + local == e
    ensures b <= e <= |Flat(ss, 0, |ss|)|
    ensures Flat(ss, 0, |ss|)[b..e] == ss[k][off..] + Flat(ss, k + 1, m) + ss[m][..local]
  {
    hide Flat;
    FlatSplit(ss, m);
    FlatJoin(ss, 0, k + 1, m);
    FlatSplit(ss, k);
    var x, y, z := Flat(ss, 0, k), Flat(ss, k + 1, m), Flat(ss, m + 1, |ss|);
    var i, j, l := x + ss[k][..off], ss[k][off..] + y + ss[m][..local], ss[m][local..] + z;
    assert Flat(ss, 0, |ss|) == i + j + l;
    MiddleIs(i, j, l);
  }

  class LazyVector<T> {
    var views: seq<View<T>>
    var total: nat
    ghost var buffers: set<Buffer<T>>

    ghost predicate Valid()
      reads this, buffers
    {
      && Into(views, buffers) && (forall i :: 0 <= i < |views| ==> Fits(views[i]))
      && total == |Contents()|
    }

    ghost function Contents(): seq<T>
      reads this, buffers
    {
      if Into(views, buffers) then Flat(Slices(views, buffers), 0, |views|) else []
    }

    lemma TotalIs()
      requires Valid()
      ensures total == |Contents()|
    {
    }

    constructor ()
      ensures Valid() && Contents() == [] && fresh(buffers)
    {
      var b := new Buffer<T>([]);
      views, total := [View(0, 0, true, b)], 0;
      buffers := {b};
      new;
      FlatNone(Slices(views, buffers), 0);
      FlatLast(Slices(views, buffers));
    }

    // ----- Pushing -----

    /** push_back of a view; an empty one is dropped. */
    method PushView(v: View<T>)
      requires Valid() && Fits(v)
      modifies this
      ensures Valid() && Contents() == old(Contents()) + Slice(v) && buffers == old(buffers) + {v.data}
    {
      hide Slices, Flat;
      ghost var before := Slices(views, buffers);
      buffers := buffers + {v.data};
      assert Slices(views, buffers) == before;
      if v.end - v.begin > 0 {
        total := total + (v.end - v.begin);
        views := views + [v];
        Pushed(before, Slices(views, buffers));
      }
    }

    /** Pushes the views from lo up to hi of another vector. */
    method PushViews(vs: seq<View<T>>, lo: nat, hi: nat, ghost bufs: set<Buffer<T>>)
      requires Valid() && lo <= hi <= |vs| && Into(vs, bufs) && forall i :: 0 <= i < |vs| ==> Fits(vs[i])
      modifies this
      ensures Valid() && Contents() == old(Contents()) + Flat(Slices(vs, bufs), lo, hi)
      ensures buffers <= old(buffers) + bufs
    {
      hide Slices, Valid, Contents;
      ghost var ss := Slices(vs, bufs);
      for i := lo to hi
        invariant Valid() && Contents() == old(Contents()) + Flat(ss, lo, i) && buffers <= old(buffers) + bufs
      {
        PushView(vs[i]);
      }
    }

    /** push_back of a whole vector, which becomes a buffer of its own. */
    method PushItems(items: seq<T>)
      requires Valid()
      modifies this
      ensures Valid() && Contents() == old(Contents()) + items && fresh(buffers - old(buffers))
    {
      hide Valid, Contents;
      if |items| > 0 {
        var b := new Buffer(items);
        PushView(View(0, |items|, true, b));
      }
    }

    /** append_a_new_lazy_data */
    method Append()
      requires Valid()
      modifies this`views, this`buffers
      ensures Valid() && Contents() == old(Contents()) && fresh(buffers - old(buffers)) && views != []
      ensures var v := views[|views| - 1]; v.pushable && v.end == |v.data.items|
    {
      hide Slices, Flat;
      ghost var before := Slices(views, buffers);
      var b := new Buffer<T>([]);
      views := views + [View(0, 0, true, b)];
      buffers := buffers + {b};
      Pushed(before, Slices(views, buffers));
    }

    /** push_back of an item: the last view takes it if it ends where its buffer ends, else a new one does. */
    method PushBack(x: T)
      requires Valid()
      modifies this, buffers
      ensures Valid() && Contents() == old(Contents()) + [x] && fresh(buffers - old(buffers))
      ensures forall b :: b in old(buffers) ==> old(b.items) <= b.items
    {
      hide Contents;
      MakeRoom();
      Extend(x);
    }

    method MakeRoom()
      requires Valid()
      modifies this`views, this`buffers
      ensures Valid() && Contents() == old(Contents()) && fresh(buffers - old(buffers))
      ensures views != [] && views[|views| - 1].end == |views[|views| - 1].data.items|
    {
      hide Contents;
      if views == [] {
        Append();
      }
      if !views[|views| - 1].pushable {
        Append();
      }
      if views[|views| - 1].end != |views[|views| - 1].data.items| {
        Seal();
        Append();
      }
    }

    /** The last view is marked as not pushable. */
    method Seal()
      requires Valid() && views != []
      modifies this`views
      ensures Valid() && Contents() == old(Contents()) && |views| == |old(views)|
    {
      hide Slices, Flat;
      ghost var before := Slices(views, buffers);
      var n := |views| - 1;
      views := views[n := views[n].(pushable := false)];
      assert Slices(views, buffers) == before;
    }

    method Extend(x: T)
      requires Valid() && views != [] && views[|views| - 1].end == |views[|views| - 1].data.items|
      modifies this`views, this`total, views[|views| - 1].data
      ensures Valid() && Contents() == old(Contents()) + [x]
      ensures forall b :: b in buffers ==> old(b.items) <= b.items
    {
      hide Slices, Flat;
      ghost var before := Slices(views, buffers);
      var n := |views| - 1;
      var b := views[n].data;
      ghost var items := b.items;
      b.items := b.items + [x];
      views := views[n := views[n].(end := |b.items|)];
      total := total + 1;
      forall i | 0 <= i < n
        ensures Slice(views[i]) == before[i] && Fits(views[i])
      {
        assert old(Fits(views[i]));
      }
      SliceGrows(items, views[n].begin, x);
      Extended(before, Slices(views, buffers), x);
    }

    method ClearWithoutAppend()
      modifies this
      ensures Valid() && Contents() == [] && views == [] && buffers == {}
    {
      views, total := [], 0;
      buffers := {};
    }

    method Clear()
      modifies this
      ensures Valid() && Contents() == [] && fresh(buffers)
    {
      ClearWithoutAppend();
      Append();
    }

    // ----- Reading, cutting and joining -----

    /** The search loop of operator[], cut and sub: the view that holds item idx, and its offset there. */
    method Locate(idx: nat) returns (k: nat, off: nat)
      requires Valid() && idx < total
      ensures k < |views| && off < views[k].end - views[k].begin
      ensures Into(views, buffers) && |Flat(Slices(views, buffers), 0, k)| + off == idx
    {
      hide Slices, Flat;
      ghost var ss := Slices(views, buffers);
      k, off := 0, idx;
      FlatNone(ss, 0);
      while off + views[k].begin >= views[k].end
        invariant k < |views| && |Flat(ss, 0, k)| + off == idx
        decreases |views| - k
      {
        FlatSplit(ss, k);
        off := off - (views[k].end - views[k].begin);
        k := k + 1;
      }
    }

    /** operator[] */
    method At(i: nat) returns (x: T)
      requires Valid() && i < total
      ensures i < |Contents()| && x == Contents()[i]
    {
      hide Slices, Flat;
      var k, off := Locate(i);
      FlatSplit(Slices(views, buffers), k);
      x := views[k].data.items[off + views[k].begin];
    }

    /** cut: the items from idx on move to the tail; nothing happens at or behind the end. */
    method Cut(idx: nat, tail: LazyVector<T>)
      requires Valid() && tail.Valid() && tail != this
      modifies this, tail
      ensures Valid() && tail.Valid()
      ensures if idx < old(total) then Contents() == old(Contents())[..idx] && tail.Contents() == old(Contents())[idx..]
        else Contents() == old(Contents()) && tail.Contents() == old(tail.Contents())
      ensures buffers == old(buffers) && tail.buffers <= old(buffers) + old(tail.buffers)
    {
      hide Slices, Flat;
      if idx >= total {
        return;
      }
      var k, off := Locate(idx);
      Located(k, off, idx);
      hide Valid, Contents, Slice;
      CutTail(k, off, tail);
      Truncate(k, off, idx);
    }

    lemma Located(k: nat, off: nat, idx: nat)
      requires Valid() && k < |views| && off < views[k].end - views[k].begin
      requires |Flat(Slices(views, buffers), 0, k)| + off == idx
      ensures var ss, s := Slices(views, buffers), Slice(views[k]);
        && idx <= |Contents()| && off <= |s|
        && Contents()[..idx] == Flat(ss, 0, k) + s[..off] && Contents()[idx..] == s[off..] + Flat(ss, k + 1, |views|)
    {
      hide Slices, Flat;
      var ss := Slices(views, buffers);
      FlatSplit(ss, k);
      CutIs(Flat(ss, 0, k), ss[k], Flat(ss, k + 1, |ss|), off);
    }

    /** Step 2 of cut: the tail gets the rest of view k and the views behind it. */
    method CutTail(k: nat, off: nat, tail: LazyVector<T>)
      requires Valid() && tail != this && k < |views| && off < views[k].end - views[k].begin
      modifies tail
      ensures Valid() && views == old(views)
      ensures tail.Valid() && tail.Contents() == Slice(views[k])[off..] + Flat(Slices(views, buffers), k + 1, |views|)
      ensures tail.buffers <= buffers
    {
      hide Slices, Flat;
      ghost var ss := Slices(views, buffers);
      tail.ClearWithoutAppend();
      var v := views[k];
      PartIs(v, off, v.end - v.begin, true);
      hide Valid, Contents;
      tail.PushView(View(v.begin + off, v.end, true, v.data));
      assert tail.Contents() == Slice(v)[off..];
      tail.PushViews(views, k + 1, |views|, buffers);
    }

    /** Step 3 of cut. */
    method Truncate(k: nat, off: nat, idx: nat)
      requires Valid() && k < |views| && off < views[k].end - views[k].begin
      requires |Flat(Slices(views, buffers), 0, k)| + off == idx
      modifies this`views, this`total
      ensures Valid() && Contents() == Flat(old(Slices(views, buffers)), 0, k) + old(Slice(views[k])[..off])
    {
      hide Slices, Flat;
      ghost var ss := Slices(views, buffers);
      views := views[..k + 1];
      views := views[k := views[k].(end := off + views[k].begin, pushable := false)];
      total := idx;
      PartIs(old(views[k]), 0, off, false);
      assert Slice(views[k]) == ss[k][..off];
      assert forall i :: 0 <= i < k ==> Slice(views[i]) == ss[i] && Fits(views[i]);
      FlatSame(ss, Slices(views, buffers), 0, k);
      FlatLast(Slices(views, buffers));
    }

    /** merge of another vector, which keeps its own views. */
    method Join(other: LazyVector<T>)
      requires Valid() && other.Valid() && other != this
      modifies this
      ensures Valid() && Contents() == old(Contents()) + old(other.Contents())
      ensures buffers == old(buffers) + other.buffers
    {
      hide Slices, Flat;
      ghost var before, more := Slices(views, buffers), Slices(other.views, other.buffers);
      views := views + other.views;
      total := total + other.total;
      buffers := buffers + other.buffers;
      ghost var ss := Slices(views, buffers);
      FlatJoin(ss, 0, |before|, |ss|);
      FlatSame(ss, before, 0, |before|);
      FlatShift(ss, more, |before|, |more|);
    }

    /** The second search of sub: from view k, which holds item b at offset off, to the one that holds item e. */
    method Advance(k: nat, off: nat, ghost b: nat, e: nat, d: nat) returns (m: nat, local: nat)
      requires Valid() && k < |views| && off < views[k].end - views[k].begin
      requires |Flat(Slices(views, buffers), 0, k)| + off == b && e == b + d && e <= total
      ensures Into(views, buffers) && k <= m <= |views| && |Flat(Slices(views, buffers), 0, m)| + local == e
      ensures m < |views| ==> local < views[m].end - views[m].begin
      ensures m == |views| <==> e == total
    {
      hide Slices, Flat;
      ghost var ss := Slices(views, buffers);
      m, local := k, off + d;
      while m < |views| && local + views[m].begin >= views[m].end
        invariant k <= m <= |views| && |Flat(ss, 0, m)| + local == e
      {
        FlatSplit(ss, m);
        local := local - (views[m].end - views[m].begin);
        m := m + 1;
      }
      if m < |views| {
        FlatSplit(ss, m);
      }
    }

    /**
     sub: the items from b up to e.  A range that ends with the last item is searched for beyond the
     last view, which is what ok == false stands for; a range that is empty or too long gives nothing.
     */
    method Sub(b: nat, e: nat) returns (r: LazyVector<T>, ok: bool)
      requires Valid()
      ensures ok <==> !(b < e == total)
      ensures fresh(r) && r.Valid() && fresh(r.buffers - buffers)
      ensures ok ==> r.Contents() == if b < e < total then Contents()[b..e] else []
    {
      hide Valid, Contents;
      r := new LazyVector<T>();
      ok := true;
      r.Clear();
      if b < e && e <= total {
        r.ClearWithoutAppend();
        ok := SubInto(r, b, e);
      }
    }

    method SubInto(r: LazyVector<T>, b: nat, e: nat) returns (ok: bool)
      requires Valid() && b < e <= total && r != this && r.Valid() && r.Contents() == [] && r.buffers == {}
      modifies r
      ensures Valid() && Contents() == old(Contents()) && r.Valid() && r.buffers <= buffers
      ensures ok <==> e < total
      ensures ok ==> r.Contents() == Contents()[b..e]
    {
      hide Slices, Flat;
      var k, off := Locate(b);
      var m, local := Advance(k, off, b, e, e - b);
      ok := m < |views|;
      if ok {
        RangeLocated(k, off, m, local, b, e);
      }
      hide Valid, Contents, Slice;
      if ok && k == m {
        PushPart(r, k, off, local);
      } else if ok {
        PushRange(r, k, off, m, local);
      }
    }

    lemma RangeLocated(k: nat, off: nat, m: nat, local: nat, b: nat, e: nat)
      requires Valid() && k <= m < |views| && off < views[k].end - views[k].begin
      requires local < views[m].end - views[m].begin
      requires |Flat(Slices(views, buffers), 0, k)| + off == b && |Flat(Slices(views, buffers), 0, m)| + local == e
      requires b < e
      ensures e <= |Contents()| && off <= |Slice(views[k])| && local <= |Slice(views[m])|
      ensures k == m ==> off <= local && Contents()[b..e] == Slice(views[k])[off..local]
      ensures k < m ==>
        Contents()[b..e] == Slice(views[k])[off..] + Flat(Slices(views, buffers), k + 1, m) + Slice(views[m])[..local]
    {
      hide Slices, Flat;
      var ss := Slices(views, buffers);
      if k == m {
        PartOfOne(ss, k, off, local);
      } else {
        RangeIs(ss, k, off, m, local, b, e);
      }
    }

    /** Step 3 of sub, for a range within one view. */
    method PushPart(r: LazyVector<T>, k: nat, off: nat, local: nat)
      requires Valid() && r != this && r.Valid() && r.Contents() == [] && r.buffers == {}
      requires k < |views| && off <= local < views[k].end - views[k].begin
      modifies r
      ensures Valid() && r.Valid() && r.Contents() == Slice(views[k])[off..local] && r.buffers <= buffers
    {
      hide Slices, Flat;
      var v := views[k];
      PartIs(v, off, local, false);
      r.PushView(View(v.begin + off, v.begin + local, false, v.data));
    }

    /** Step 3 of sub, for a range over several views. */
    method PushRange(r: LazyVector<T>, k: nat, off: nat, m: nat, local: nat)
      requires Valid() && r != this && r.Valid() && r.Contents() == [] && r.buffers == {}
      requires k < m < |views| && off < views[k].end - views[k].begin && local < views[m].end - views[m].begin
      modifies r
      ensures Valid() && r.Valid() && r.buffers <= buffers
      ensures r.Contents() == Slice(views[k])[off..] + Flat(Slices(views, buffers), k + 1, m) + Slice(views[m])[..local]
    {
      hide Slices, Flat, Valid, Contents, Slice, Fits;
      var v, w := views[k], views[m];
      var first, last := View(v.begin + off, v.end, v.pushable, v.data), View(w.begin, w.begin + local, false, w.data);
      EndsAre(k, off, m, local);
      r.PushView(first);
      assert r.Contents() == Slice(v)[off..];
      r.PushViews(views, k + 1, m, buffers);
      r.PushView(last);
    }

    /** The parts of the first and the last view that a range takes. */
    lemma EndsAre(k: nat, off: nat, m: nat, local: nat)
      requires Valid() && k < m < |views|
      requires off < views[k].end - views[k].begin && local < views[m].end - views[m].begin
      ensures Into(views, buffers) && views[k].data in buffers && views[m].data in buffers
      ensures forall i :: 0 <= i < |views| ==> Fits(views[i])
      ensures var v, first := views[k], View(views[k].begin + off, views[k].end, views[k].pushable, views[k].data);
        Fits(first) && off <= |Slice(v)| && Slice(first) == Slice(v)[off..]
      ensures var w, last := views[m], View(views[m].begin, views[m].begin + local, false, views[m].data);
        Fits(last) && local <= |Slice(w)| && Slice(last) == Slice(w)[..local]
    {
      PartIs(views[k], off, views[k].end - views[k].begin, views[k].pushable);
      PartIs(views[m], 0, local, false);
    }

    /** shrink: all items copied into one new buffer. */
    method Shrink()
      requires Valid()
      modifies this`views, this`buffers
      ensures Valid() && Contents() == old(Contents()) && fresh(buffers) && |views| == 1
    {
      hide Slices, Flat;
      ghost var ss := Slices(views, buffers);
      var b := new Buffer<T>([]);
      FlatNone(ss, 0);
      for i := 0 to |views|
        modifies b
        invariant b.items == Flat(ss, 0, i)
        invariant forall j :: 0 <= j < |views| ==> Fits(views[j]) && Slice(views[j]) == ss[j]
      {
        FlatSplit(ss, i);
        if views[i].end - views[i].begin > 0 {
          b.items := b.items + views[i].data.items[views[i].begin..views[i].end];
        }
      }
      views := [View(0, |b.items|, true, b)];
      buffers := {b};
      assert Slice(views[0]) == b.items;
      FlatNone(Slices(views, buffers), 0);
      FlatLast(Slices(views, buffers));
    }
  }

  /** A vector that is left alone keeps its contents while its buffers grow. */
  twostate lemma Undisturbed<T>(w: LazyVector<T>)
    requires old(w.Valid()) && unchanged(w) && forall b :: b in w.buffers ==> old(b.items) <= b.items
    ensures w.Valid() && w.Contents() == old(w.Contents())
  {
    hide Slices, Flat;
    forall i | 0 <= i < |w.views|
      ensures Fits(w.views[i]) && Slice(w.views[i]) == old(Slice(w.views[i]))
    {
      assert old(Fits(w.views[i]));
    }
    assert Slices(w.views, w.buffers) == old(Slices(w.views, w.buffers));
  }

  // ----- Any number of vectors that share buffers -----

  datatype Op<T> =
    | New
    | Push(i: nat, x: T)
    | PushAll(i: nat, items: seq<T>)
    | CutAt(i: nat, idx: nat, j: nat)
    | MergeWith(i: nat, j: nat)
    | SubOf(i: nat, b: nat, e: nat)
    | ShrinkOne(i: nat)
    | ClearOne(i: nat)

  /** The vectors exist, cut and merge are between two, and sub does not end with the last item. */
  predicate Legal<T>(s: seq<seq<T>>, op: Op<T>) {
    match op
    case New => true
    case CutAt(i, _, j) => i < |s| && j < |s| && i != j
    case MergeWith(i, j) => i < |s| && j < |s| && i != j
    case SubOf(i, b, e) => i < |s| && !(b < e == |s[i]|)
    case _ => op.i < |s|
  }

  /** What an operation does to plain sequences, each of them independent of the others. */
  function Apply<T>(s: seq<seq<T>>, op: Op<T>): seq<seq<T>> {
    if !Legal(s, op) then s else
    match op
    case New => s + [[]]
    case Push(i, x) => s[i := s[i] + [x]]
    case PushAll(i, items) => s[i := s[i] + items]
    case CutAt(i, idx, j) => if idx < |s[i]| then s[i := s[i][..idx]][j := s[i][idx..]] else s
    case MergeWith(i, j) => s[i := s[i] + s[j]]
    case SubOf(i, b, e) => s + [if b < e < |s[i]| then s[i][b..e] else []]
    case ShrinkOne(i) => s
    case ClearOne(i) => s[i := []]
  }

  predicate Touches<T>(op: Op<T>, k: nat) {
    match op
    case Push(i, _) => k == i
    case PushAll(i, _) => k == i
    case CutAt(i, _, j) => k == i || k == j
    case MergeWith(i, _) => k == i
    case ClearOne(i) => k == i
    case _ => false
  }

  /** Which sequences an operation leaves alone, and what it makes of the others, element by element. */
  lemma ApplyIs<T>(s: seq<seq<T>>, op: Op<T>)
    requires Legal(s, op)
    ensures var r := Apply(s, op);
      && |r| == (if op.New? || op.SubOf? then |s| + 1 else |s|)
      && (forall k :: 0 <= k < |s| && !Touches(op, k) ==> r[k] == s[k])
      && (op.New? ==> r[|s|] == [])
      && (op.Push? ==> s[op.i] < r[op.i] && |r[op.i]| == |s[op.i]| + 1 && r[op.i][|s[op.i]|] == op.x)
      && (op.PushAll? ==> s[op.i] <= r[op.i] && r[op.i][|s[op.i]|..] == op.items)
      && (op.CutAt? ==> if op.idx < |s[op.i]| then r[op.i] + r[op.j] == s[op.i] && |r[op.i]| == op.idx else r == s)
      && (op.MergeWith? ==> s[op.i] <= r[op.i] && r[op.i][|s[op.i]|..] == s[op.j])
      && (op.SubOf? ==> if op.b < op.e < |s[op.i]|
          then |r[|s|]| == op.e - op.b && forall k :: op.b <= k < op.e ==> r[|s|][k - op.b] == s[op.i][k]
          else r[|s|] == [])
      && (op.ClearOne? ==> r[op.i] == [])
  {
  }

  /** Merging puts together what cutting has split. */
  lemma CutMerged<T>(s: seq<seq<T>>, i: nat, idx: nat, j: nat)
    requires i < |s| && j < |s| && i != j && idx < |s[i]|
    ensures Apply(Apply(s, CutAt(i, idx, j)), MergeWith(i, j))[i] == s[i]
  {
    var c := Apply(s, CutAt(i, idx, j));
    assert c[i] + c[j] == s[i];
  }

  class Workspace<T> {
    var vectors: seq<LazyVector<T>>
    ghost var buffers: set<Buffer<T>>

    ghost predicate Valid()
      reads this, vectors, buffers
    {
      && (forall i :: 0 <= i < |vectors| ==> vectors[i].buffers <= buffers && vectors[i].Valid())
      && (forall i, j :: 0 <= i < j < |vectors| ==> vectors[i] != vectors[j])
    }

    ghost function Contents(): (s: seq<seq<T>>)
      requires Valid()
      reads this, vectors, buffers
      ensures |s| == |vectors|
    {
      seq(|vectors|, i requires 0 <= i < |vectors| && Valid() reads this, vectors, buffers => vectors[i].Contents())
    }

    method DoPush(i: nat, x: T)
      requires Valid() && i < |vectors|
      modifies this`buffers, vectors, buffers
      ensures Valid() && Contents() == Apply(old(Contents()), Push(i, x)) && Kept()
    {
      hide LazyVector.Valid, LazyVector.Contents;
      vectors[i].PushBack(x);
      buffers := buffers + vectors[i].buffers;
      forall k | 0 <= k < |vectors| && k != i
        ensures vectors[k].Valid() && vectors[k].Contents() == old(vectors[k].Contents())
      {
        Undisturbed(vectors[k]);
      }
    }

    /** The vectors and buffers are the ones from before, or new. */
    twostate predicate Kept()
      reads this
    {
      && (forall i :: 0 <= i < |vectors| ==> vectors[i] in old(vectors) || fresh(vectors[i]))
      && (forall b :: b in buffers ==> b in old(buffers) || fresh(b))
    }

    method DoNew()
      requires Valid()
      modifies this
      ensures Valid() && Contents() == Apply(old(Contents()), New) && Kept()
    {
      hide LazyVector.Valid, LazyVector.Contents;
      var v := new LazyVector<T>();
      Add(v);
    }

    /** A vector that shares buffers only with the ones here joins them. */
    method Add(v: LazyVector<T>)
      requires Valid() && v.Valid() && v !in vectors
      modifies this
      ensures Valid() && Contents() == old(Contents()) + [v.Contents()]
      ensures vectors == old(vectors) + [v] && buffers == old(buffers) + v.buffers
    {
      hide LazyVector.Valid, LazyVector.Contents;
      vectors := vectors + [v];
      buffers := buffers + v.buffers;
    }

    method DoPushAll(i: nat, items: seq<T>)
      requires Valid() && i < |vectors|
      modifies this`buffers, vectors, buffers
      ensures Valid() && Contents() == Apply(old(Contents()), PushAll(i, items)) && Kept()
    {
      hide LazyVector.Valid, LazyVector.Contents;
      vectors[i].PushItems(items);
      buffers := buffers + vectors[i].buffers;
    }

    method DoCut(i: nat, idx: nat, j: nat)
      requires Valid() && i < |vectors| && j < |vectors| && i != j
      modifies vectors, buffers
      ensures Valid() && Contents() == Apply(old(Contents()), CutAt(i, idx, j))
    {
      hide LazyVector.Valid, LazyVector.Contents;
      vectors[i].TotalIs();
      vectors[i].Cut(idx, vectors[j]);
    }

    method DoMerge(i: nat, j: nat)
      requires Valid() && i < |vectors| && j < |vectors| && i != j
      modifies vectors, buffers
      ensures Valid() && Contents() == Apply(old(Contents()), MergeWith(i, j))
    {
      hide LazyVector.Valid, LazyVector.Contents;
      vectors[i].Join(vectors[j]);
    }

    method DoSub(i: nat, b: nat, e: nat)
      requires Valid() && Legal(Contents(), SubOf(i, b, e))
      modifies this
      ensures Valid() && Contents() == Apply(old(Contents()), SubOf(i, b, e)) && Kept()
    {
      hide LazyVector.Valid, LazyVector.Contents;
      vectors[i].TotalIs();
      var r, ok := vectors[i].Sub(b, e);
      Add(r);
    }

    method DoShrink(i: nat)
      requires Valid() && i < |vectors|
      modifies this`buffers, vectors, buffers
      ensures Valid() && Contents() == Apply(old(Contents()), ShrinkOne(i)) && Kept()
    {
      hide LazyVector.Valid, LazyVector.Contents;
      vectors[i].Shrink();
      buffers := buffers + vectors[i].buffers;
    }

    method DoClear(i: nat)
      requires Valid() && i < |vectors|
      modifies this`buffers, vectors, buffers
      ensures Valid() && Contents() == Apply(old(Contents()), ClearOne(i)) && Kept()
    {
      hide LazyVector.Valid, LazyVector.Contents;
      vectors[i].Clear();
      buffers := buffers + vectors[i].buffers;
    }

    constructor ()
      ensures Valid() && Contents() == [] && buffers == {} && vectors == []
    {
      vectors, buffers := [], {};
    }

    method Perform(op: Op<T>)
      requires Valid() && Legal(Contents(), op)
      modifies this, vectors, buffers
      ensures Valid() && Contents() == Apply(old(Contents()), op) && Kept()
    {
      hide Valid, Contents, LazyVector.Valid, LazyVector.Contents;
      match op
      case New => DoNew();
      case Push(i, x) => DoPush(i, x);
      case PushAll(i, items) => DoPushAll(i, items);
      case CutAt(i, idx, j) => DoCut(i, idx, j);
      case MergeWith(i, j) => DoMerge(i, j);
      case SubOf(i, b, e) => DoSub(i, b, e);
      case ShrinkOne(i) => DoShrink(i);
      case ClearOne(i) => DoClear(i);
    }

    /** Whatever was run on vectors that share buffers, they hold what independent sequences would. */
    method Run(ops: seq<Op<T>>)
      requires Valid() && LegalRun(Contents(), ops)
      modifies this, vectors, buffers
      ensures Valid() && Contents() == ApplyTo(old(Contents()), ops, |ops|)
    {
      hide Valid, Contents, Apply, Legal;
      ghost var s := Contents();
      for k := 0 to |ops|
        invariant Valid() && Kept()
        invariant Contents() == ApplyTo(s, ops, k)
      {
        Perform(ops[k]);
      }
    }
  }

  /** The sequences after the first n operations. */
  ghost function ApplyTo<T>(s: seq<seq<T>>, ops: seq<Op<T>>, n: nat): seq<seq<T>>
    requires n <= |ops|
  {
    if n == 0 then s else Apply(ApplyTo(s, ops, n - 1), ops[n - 1])
  }

  /** Each operation is legal where it is made. */
  ghost predicate LegalRun<T>(s: seq<seq<T>>, ops: seq<Op<T>>) {
    forall k :: 0 <= k < |ops| ==> Legal(ApplyTo(s, ops, k), ops[k])
  }
}
