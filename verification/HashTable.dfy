/**
 The linear-hashing table: chains of entries in buckets that are split one at a time, with the
 bucket array itself migrated to a larger one a bucket at a time.
 */
module HashTables {
  import opened Basics
  import opened Bits
  import opened LinearHashing
  import opened MapRuns

  class Entry<K, V> {
    const key: K
    const hash: nat
    var val: V
    var next: Entry?<K, V>

    constructor (key: K, val: V, hash: nat)
      ensures this.key == key && this.val == val && this.hash == hash && next == null
    {
      this.key, this.val, this.hash, this.next := key, val, hash, null;
    }
  }

  /** What a list that starts with the entries c and goes on with y points to first. */
  function First<K, V>(c: seq<Entry<K, V>>, y: Entry?<K, V>): Entry?<K, V> {
    if c == [] then y else c[0]
  }

  /** The entries c, one after the other, lead from x to y. */
  ghost predicate Chain<K, V>(c: seq<Entry<K, V>>, x: Entry?<K, V>, y: Entry?<K, V>)
    reads c`next
  {
    && x == First(c, y)
    && forall l :: 0 <= l < |c| ==> c[l].next == Follower(c, l, y)
  }

  lemma ChainJoin<K, V>(c: seq<Entry<K, V>>, d: seq<Entry<K, V>>, x: Entry?<K, V>, y: Entry?<K, V>, z: Entry?<K, V>)
    requires Chain(c, x, y) && Chain(d, y, z)
    ensures Chain(c + d, x, z)
  {
    var all := c + d;
    forall l | 0 <= l < |all|
      ensures all[l].next == Follower(all, l, z)
    {
      if l < |c| {
        assert c[l].next == Follower(c, l, y);
      } else {
        var m := l - |c|;
        assert all[l] == d[m] && d[m].next == Follower(d, m, z);
      }
    }
  }

  lemma ChainCut<K, V>(c: seq<Entry<K, V>>, l: nat, x: Entry?<K, V>, z: Entry?<K, V>)
    requires Chain(c, x, z) && l <= |c|
    ensures Chain(c[..l], x, First(c[l..], z)) && Chain(c[l..], First(c[l..], z), z)
  {
    var d := c[l..];
    forall m | 0 <= m < |d|
      ensures d[m].next == Follower(d, m, z)
    {
      assert d[m] == c[l + m] && c[l + m].next == Follower(c, l + m, z);
    }
    forall m | 0 <= m < l
      ensures c[..l][m].next == Follower(c[..l], m, First(d, z))
    {
      assert c[m].next == Follower(c, m, z);
    }
  }

  /** A place that holds a pointer to an entry: a bucket, or the link of an entry. */
  datatype Slot<!K, !V> = Head(i: nat) | Link(e: Entry<K, V>)

  /** The slot that points to the l-th entry of bucket i. */
  ghost function SlotOf<K, V>(c: seq<Entry<K, V>>, i: nat, l: nat): Slot<K, V>
    requires l <= |c|
  {
    if l == 0 then Head(i) else Link(c[l - 1])
  }

  // ----- Splitting a chain -----

  /** The entries that stay in their bucket, or leave it, when bucket `to` is split off. */
  ghost function Part<K, V>(c: seq<Entry<K, V>>, mask: nat, to: nat, leave: bool): (r: seq<Entry<K, V>>)
    ensures forall l :: 0 <= l < |r| ==> r[l] in c && (And(r[l].hash, mask) == to) == leave
    ensures forall l :: 0 <= l < |c| && (And(c[l].hash, mask) == to) == leave ==> c[l] in r
  {
    if c == [] then []
    else
      var n := |c| - 1;
      var r := Part(c[..n], mask, to, leave);
      assert c == c[..n] + [c[n]];
      if (And(c[n].hash, mask) == to) == leave then r + [c[n]] else r
  }

  lemma {:induction false} PartNoDup<K, V>(c: seq<Entry<K, V>>, mask: nat, to: nat, leave: bool)
    requires NoDup(c)
    ensures NoDup(Part(c, mask, to, leave))
  {
    if c != [] {
      var n := |c| - 1;
      PartNoDup(c[..n], mask, to, leave);
      assert forall l :: 0 <= l < n ==> c[l] != c[n];
      assert c[n] !in c[..n];
    }
  }

  lemma PartStep<K, V>(c: seq<Entry<K, V>>, n: nat, mask: nat, to: nat)
    requires n < |c|
    ensures var leaves := And(c[n].hash, mask) == to;
      && Part(c[..n + 1], mask, to, leaves) == Part(c[..n], mask, to, leaves) + [c[n]]
      && Part(c[..n + 1], mask, to, !leaves) == Part(c[..n], mask, to, !leaves)
  {
    assert c[..n + 1][..n] == c[..n];
  }

  // ----- Which entries are where -----

  ghost predicate Within<K, V>(chains: seq<seq<Entry<K, V>>>, entries: set<Entry<K, V>>) {
    forall i, l {:trigger chains[i][l]} :: 0 <= i < |chains| && 0 <= l < |chains[i]| ==> chains[i][l] in entries
  }

  /** Every entry of bucket i belongs there, and stands there once. */
  ghost predicate Homes<K(!new), V>(chains: seq<seq<Entry<K, V>>>, entries: set<Entry<K, V>>, hash: K -> nat,
                                    mask: nat)
  {
    && (forall i, l {:trigger chains[i][l]} :: 0 <= i < |chains| && 0 <= l < |chains[i]| ==>
         && chains[i][l] in entries
         && chains[i][l].hash == hash(chains[i][l].key) && Bucket(mask, |chains|, chains[i][l].hash) == i)
    && (forall i :: 0 <= i < |chains| ==> NoDup(chains[i]))
  }

  /** The table's entries by key, each in the bucket of its hash code. */
  ghost predicate Indexed<K(!new), V>(chains: seq<seq<Entry<K, V>>>, entries: set<Entry<K, V>>, at: map<K, Entry<K, V>>,
                                      hash: K -> nat, mask: nat)
  {
    && (forall k :: k in at ==>
         && at[k] in entries && at[k].key == k
         && Bucket(mask, |chains|, hash(k)) < |chains| && at[k] in chains[Bucket(mask, |chains|, hash(k))])
    && (forall e :: e in entries ==> e.key in at && at[e.key] == e)
  }

  lemma HomesApart<K(!new), V>(chains: seq<seq<Entry<K, V>>>, entries: set<Entry<K, V>>, hash: K -> nat, mask: nat,
                               i: nat, j: nat, e: Entry<K, V>)
    requires Homes(chains, entries, hash, mask) && i < |chains| && j < |chains| && i != j && e in chains[i]
    ensures e !in chains[j]
  {
    var l :| 0 <= l < |chains[i]| && chains[i][l] == e;
  }

  lemma HomesAppend<K(!new), V>(chains: seq<seq<Entry<K, V>>>, entries: set<Entry<K, V>>, at: map<K, Entry<K, V>>,
                                hash: K -> nat, mask: nat, i: nat, e: Entry<K, V>)
    requires Homes(chains, entries, hash, mask) && Indexed(chains, entries, at, hash, mask)
    requires i < |chains| && e !in entries && e.key !in at && e.hash == hash(e.key)
    requires Bucket(mask, |chains|, e.hash) == i
    ensures var chains' := chains[i := chains[i] + [e]];
      Homes(chains', entries + {e}, hash, mask) && Indexed(chains', entries + {e}, at[e.key := e], hash, mask)
  {
    hide Bucket;
    var chains' := chains[i := chains[i] + [e]];
    forall l | 0 <= l < |chains[i]|
      ensures chains[i][l] != e
    {
    }
    assert forall k :: k in at ==> at[k] in chains'[Bucket(mask, |chains|, hash(k))];
    assert chains'[i][|chains[i]|] == e;
  }

  lemma HomesRemove<K(!new), V>(chains: seq<seq<Entry<K, V>>>, entries: set<Entry<K, V>>, at: map<K, Entry<K, V>>,
                                hash: K -> nat, mask: nat, i: nat, l: nat)
    requires Homes(chains, entries, hash, mask) && Indexed(chains, entries, at, hash, mask)
    requires i < |chains| && l < |chains[i]|
    ensures var e := chains[i][l]; var chains' := chains[i := chains[i][..l] + chains[i][l + 1..]];
      Homes(chains', entries - {e}, hash, mask) && Indexed(chains', entries - {e}, at - {e.key}, hash, mask)
  {
    hide Bucket;
    var e, c := chains[i][l], chains[i];
    var c' := c[..l] + c[l + 1..];
    var chains' := chains[i := c'];
    assert e.key in at && at[e.key] == e;
    forall j, m | 0 <= j < |chains'| && 0 <= m < |chains'[j]|
      ensures chains'[j][m] in entries - {e} && Bucket(mask, |chains|, chains'[j][m].hash) == j
        && chains'[j][m].hash == hash(chains'[j][m].key)
    {
      if j == i {
        var m' := if m < l then m else m + 1;
        assert c'[m] == chains[i][m'];
      } else {
        assert chains'[j][m] == chains[j][m];
      }
    }
    assert NoDup(c');
    forall k | k in at - {e.key}
      ensures at[k] in chains'[Bucket(mask, |chains|, hash(k))]
    {
      if Bucket(mask, |chains|, hash(k)) == i {
        var m :| 0 <= m < |c| && c[m] == at[k];
        assert at[k] == c'[if m < l then m else m - 1];
      }
    }
  }

  ghost function SplitAt<K, V>(chains: seq<seq<Entry<K, V>>>, from: nat, mask: nat): (r: seq<seq<Entry<K, V>>>)
    requires from < |chains|
    ensures |r| == |chains| + 1
  {
    chains[from := Part(chains[from], mask, |chains|, false)] + [Part(chains[from], mask, |chains|, true)]
  }

  /** An entry of the split chains comes from the bucket it was in, and has left it if it had to. */
  lemma SplitSource<K(!new), V>(chains: seq<seq<Entry<K, V>>>, from: nat, mask: nat, i: nat, l: nat)
    requires from < |chains| && i <= |chains| && l < |SplitAt(chains, from, mask)[i]|
    ensures var e := SplitAt(chains, from, mask)[i][l];
      && e in chains[if i == |chains| then from else i]
      && (i == |chains| ==> And(e.hash, mask) == |chains|)
      && (i == from ==> And(e.hash, mask) != |chains|)
  {
  }

  lemma SplitTarget<K(!new), V>(chains: seq<seq<Entry<K, V>>>, from: nat, mask: nat, i: nat, e: Entry<K, V>)
    requires from < |chains| && i < |chains| && e in chains[i]
    requires And(e.hash, mask) == |chains| ==> i == from
    ensures e in SplitAt(chains, from, mask)[if And(e.hash, mask) == |chains| then |chains| else i]
  {
  }

  lemma HomesAparts<K(!new), V>(chains: seq<seq<Entry<K, V>>>, entries: set<Entry<K, V>>, hash: K -> nat, mask: nat,
                                i: nat)
    requires Homes(chains, entries, hash, mask) && i < |chains|
    ensures forall j :: 0 <= j < |chains| && j != i ==> Apart(chains[j], chains[i])
    ensures NoDup(chains[i]) && forall l :: 0 <= l < |chains[i]| ==> chains[i][l] in entries
  {
    forall j | 0 <= j < |chains| && j != i
      ensures Apart(chains[j], chains[i])
    {
      forall l | 0 <= l < |chains[j]|
        ensures chains[j][l] !in chains[i]
      {
        HomesApart(chains, entries, hash, mask, j, i, chains[j][l]);
      }
    }
  }

  /** Splitting one bucket puts every entry where the grown table looks for it. */
  lemma HomesSplit<K(!new), V>(chains: seq<seq<Entry<K, V>>>, entries: set<Entry<K, V>>, hash: K -> nat,
                               mask: nat, bits: nat, mask': nat, from: nat)
    requires Homes(chains, entries, hash, mask) && Masked(mask, |chains|, bits)
    requires mask' == Grown(mask, |chains|) && from == And(|chains|, mask' / 2) && from < |chains|
    ensures Homes(SplitAt(chains, from, mask'), entries, hash, mask') && Within(SplitAt(chains, from, mask'), entries)
  {
    hide Bucket, Grown, And, Masked, Part, NoDup;
    var to, chains' := |chains|, SplitAt(chains, from, mask');
    forall i, l | 0 <= i < |chains'| && 0 <= l < |chains'[i]|
      ensures chains'[i][l] in entries && chains'[i][l].hash == hash(chains'[i][l].key)
        && Bucket(mask', |chains'|, chains'[i][l].hash) == i
    {
      var e := chains'[i][l];
      SplitSource(chains, from, mask', i, l);
      var i' := if i == to then from else i;
      var m :| 0 <= m < |chains[i']| && chains[i'][m] == e;
      Splits(mask, to, bits, e.hash);
    }
    PartNoDup(chains[from], mask', to, false);
    PartNoDup(chains[from], mask', to, true);
  }

  lemma IndexedSplit<K(!new), V>(chains: seq<seq<Entry<K, V>>>, entries: set<Entry<K, V>>, at: map<K, Entry<K, V>>,
                                 hash: K -> nat, mask: nat, bits: nat, mask': nat, from: nat)
    requires Homes(chains, entries, hash, mask) && Indexed(chains, entries, at, hash, mask)
    requires Masked(mask, |chains|, bits)
    requires mask' == Grown(mask, |chains|) && from == And(|chains|, mask' / 2) && from < |chains|
    ensures Indexed(SplitAt(chains, from, mask'), entries, at, hash, mask')
  {
    hide Bucket, Grown, And, Masked, Part, NoDup;
    var to, chains' := |chains|, SplitAt(chains, from, mask');
    forall k | k in at
      ensures Bucket(mask', |chains'|, hash(k)) < |chains'| && at[k] in chains'[Bucket(mask', |chains'|, hash(k))]
    {
      var i := Bucket(mask, to, hash(k));
      var m :| 0 <= m < |chains[i]| && chains[i][m] == at[k];
      Splits(mask, to, bits, hash(k));
      SplitTarget(chains, from, mask', i, at[k]);
    }
  }

  /** More than f entries per bucket. */
  predicate Loads(size: int, f: real, count: nat) {
    size as real > f * count as real
  }

  /** Two more buckets are enough for one more entry, if f is at least 1/2. */
  lemma TwoBuckets(size: int, f: real, count: nat)
    requires f >= 0.5 && !Loads(size, f, count)
    ensures !Loads(size + 1, f, count + 2)
  {
    assert f * (count + 2) as real == f * count as real + 2.0 * f;
  }

  /** And for any smaller factor they are not, in the long run: n insertions into a new table. */
  lemma TwoBucketsFail(f: real, n: nat)
    requires 0.0 <= f < 0.5 && n as real * (1.0 - 2.0 * f) > f
    ensures Loads(n, f, 2 * n + 1)
  {
    assert f * (2 * n + 1) as real == 2.0 * f * n as real + f;
  }

  class HashTable<K(!new, ==), V> {
    const hash: K -> nat
    var newBuckets: array<Entry?<K, V>>
    var oldBuckets: array?<Entry?<K, V>>
    var size: int
    var mask: nat
    var count: nat
    var capacity: nat
    var newBegin: nat
    var maxLoadFactor: real
    ghost var chains: seq<seq<Entry<K, V>>>
    ghost var at: map<K, Entry<K, V>>
    ghost var entries: set<Entry<K, V>>
    ghost var bits: nat

    ghost predicate Arrays()
      reads this`newBuckets, this`oldBuckets, this`count, this`capacity, this`newBegin
    {
      && newBuckets.Length == capacity && newBegin <= count <= capacity && 0 < count
      && (oldBuckets != null <==> newBegin > 0)
      && (oldBuckets != null ==> newBegin <= oldBuckets.Length && oldBuckets != newBuckets)
    }

    /** bucket(i): in the old array below newBegin, else in the new one. */
    function BucketAt(i: nat): Entry?<K, V>
      requires Arrays() && i < count
      reads this`newBuckets, this`oldBuckets, this`count, this`capacity, this`newBegin, newBuckets, oldBuckets
    {
      if i < newBegin then oldBuckets[i] else newBuckets[i]
    }

    function Load(slot: Slot<K, V>): Entry?<K, V>
      requires Arrays() && (slot.Head? ==> slot.i < count)
      reads this, newBuckets, oldBuckets, if slot.Link? then {slot.e} else {}
    {
      match slot
      case Head(i) => BucketAt(i)
      case Link(e) => e.next
    }

    lemma LoadEnd(slot: Slot<K, V>, i: nat, c: seq<Entry<K, V>>, y: Entry?<K, V>)
      requires Arrays() && i < count && Chain(c, BucketAt(i), y) && slot == SlotOf(c, i, |c|)
      ensures Load(slot) == y
    {
    }

    method SetBucket(i: nat, x: Entry?<K, V>)
      requires Arrays() && i < count
      modifies newBuckets, oldBuckets
      ensures BucketAt(i) == x
      ensures forall j :: 0 <= j < count && j != i ==> BucketAt(j) == old(BucketAt(j))
    {
      if i < newBegin {
        oldBuckets[i] := x;
      } else {
        newBuckets[i] := x;
      }
    }

    /** Writes x into the slot at the end of the entries c of bucket i, so that they lead to x. */
    method Store(slot: Slot<K, V>, x: Entry?<K, V>, ghost i: nat, ghost c: seq<Entry<K, V>>, ghost y: Entry?<K, V>)
      requires Arrays() && i < count && slot == SlotOf(c, i, |c|)
      requires Chain(c, BucketAt(i), y) && NoDup(c)
      modifies newBuckets, oldBuckets, (if slot.Link? then {slot.e} else {})`next
      ensures Chain(c, BucketAt(i), x)
      ensures forall j :: 0 <= j < count && j != i ==> BucketAt(j) == old(BucketAt(j))
    {
      match slot
      case Head(k) => SetBucket(k, x);
      case Link(e) => e.next := x;
    }

    /** Unlinks the entry that src points to and appends it to the list whose last link is dest. */
    method MoveEntry(src: Slot<K, V>, dest: Slot<K, V>, from: nat, to: nat, e: Entry<K, V>,
                     ghost kept: seq<Entry<K, V>>, ghost rest: seq<Entry<K, V>>, ghost moved: seq<Entry<K, V>>)
      requires Arrays() && from < to < count
      requires src == SlotOf(kept, from, |kept|) && dest == SlotOf(moved, to, |moved|)
      requires Chain(kept, BucketAt(from), e) && Chain([e], e, First(rest, null))
      requires Chain(rest, First(rest, null), null)
      requires Chain(moved, BucketAt(to), null)
      requires NoDup(kept) && NoDup(moved) && Apart(kept, moved) && Apart(kept, rest) && Apart(moved, rest)
      requires e !in kept && e !in rest && e !in moved
      modifies newBuckets, oldBuckets, kept`next, {e}`next, moved`next
      ensures Chain(kept, BucketAt(from), First(rest, null)) && Chain(rest, First(rest, null), null)
      ensures Chain(moved, BucketAt(to), e) && Chain([e], e, null)
      ensures forall j :: 0 <= j < count && j != from && j != to ==> BucketAt(j) == old(BucketAt(j))
    {
      hide Chain, NoDup, First, BucketAt;
      Single(e, First(rest, null));
      Store(dest, e, to, moved, null);
      Store(src, e.next, from, kept, e);
      e.next := null;
      Single(e, null);
    }

    /** The first n entries of c have been shared out between the two buckets. */
    ghost predicate Splitting(src: Slot<K, V>, dest: Slot<K, V>, from: nat, to: nat, c: seq<Entry<K, V>>, n: nat)
      requires Arrays() && from < to < count && n <= |c|
      reads this, newBuckets, oldBuckets, c`next
    {
      var kept, moved := Part(c[..n], mask, to, false), Part(c[..n], mask, to, true);
      && src == SlotOf(kept, from, |kept|) && dest == SlotOf(moved, to, |moved|)
      && Chain(kept, BucketAt(from), First(c[n..], null)) && Chain(c[n..], First(c[n..], null), null)
      && Chain(moved, BucketAt(to), null)
    }

    /** The body of the rehashing loop: the entry that src points to is moved or passed over. */
    method SplitStep(src: Slot<K, V>, dest: Slot<K, V>, from: nat, to: nat, e: Entry<K, V>, ghost c: seq<Entry<K, V>>,
                     ghost n: nat)
      returns (src': Slot<K, V>, dest': Slot<K, V>)
      requires Arrays() && from < to < count && NoDup(c) && n < |c| && e == c[n]
      requires Splitting(src, dest, from, to, c, n)
      modifies newBuckets, oldBuckets, c`next
      ensures Splitting(src', dest', from, to, c, n + 1)
      ensures forall j :: 0 <= j < count && j != from && j != to ==> BucketAt(j) == old(BucketAt(j))
    {
      hide Chain, NoDup, Part, BucketAt, And, First;
      ghost var kept, moved, tail := Part(c[..n], mask, to, false), Part(c[..n], mask, to, true), c[n + 1..];
      FirstAt(c, n);
      PartStep(c, n, mask, to);
      Parted(c, n, mask, to);
      Uncons(c[n..], e, null);
      src', dest' := src, dest;
      if And(e.hash, mask) == to {
        MoveEntry(src, dest, from, to, e, kept, tail, moved);
        ChainJoin(moved, [e], BucketAt(to), e, null);
        dest' := Link(e);
      } else {
        ChainJoin(kept, [e], BucketAt(from), e, First(tail, null));
        src' := Link(e);
      }
    }

    /** The rehashing loop of add_bucket: entries whose masked code is `to` go to that bucket, in order. */
    method SplitChain(from: nat, to: nat, ghost c: seq<Entry<K, V>>)
      requires Arrays() && from < to < count
      requires Chain(c, BucketAt(from), null) && NoDup(c) && BucketAt(to) == null
      modifies newBuckets, oldBuckets, c`next
      ensures Chain(Part(c, mask, to, false), BucketAt(from), null)
      ensures Chain(Part(c, mask, to, true), BucketAt(to), null)
      ensures forall j :: 0 <= j < count && j != from && j != to ==> BucketAt(j) == old(BucketAt(j))
    {
      hide Splitting, NoDup, Chain, Part, BucketAt;
      var src: Slot<K, V>, dest: Slot<K, V> := Head(from), Head(to);
      ghost var n := 0;
      SplitStart(from, to, c);
      var e := BucketAt(from);
      while e != null
        invariant n <= |c| && e == First(c[n..], null) && Splitting(src, dest, from, to, c, n)
        invariant forall j :: 0 <= j < count && j != from && j != to ==> BucketAt(j) == old(BucketAt(j))
        decreases |c| - n
      {
        src, dest := SplitStep(src, dest, from, to, e, c, n);
        n := n + 1;
        LoadSplit(src, dest, from, to, c, n);
        e := Load(src);
      }
      SplitEnd(src, dest, from, to, c, n);
    }

    lemma SplitStart(from: nat, to: nat, c: seq<Entry<K, V>>)
      requires Arrays() && from < to < count
      requires Chain(c, BucketAt(from), null) && NoDup(c) && BucketAt(to) == null
      ensures Splitting(Head(from), Head(to), from, to, c, 0) && BucketAt(from) == First(c[0..], null)
    {
      PartStart(c, mask, to);
      EmptyChain(BucketAt(from));
      EmptyChain(BucketAt(to));
    }

    lemma LoadSplit(src: Slot<K, V>, dest: Slot<K, V>, from: nat, to: nat, c: seq<Entry<K, V>>, n: nat)
      requires Arrays() && from < to < count && n <= |c| && Splitting(src, dest, from, to, c, n)
      ensures (src.Head? ==> src.i < count) && Load(src) == First(c[n..], null)
    {
      hide Part, Chain;
      LoadEnd(src, from, Part(c[..n], mask, to, false), First(c[n..], null));
    }

    lemma SplitEnd(src: Slot<K, V>, dest: Slot<K, V>, from: nat, to: nat, c: seq<Entry<K, V>>, n: nat)
      requires Arrays() && from < to < count && n <= |c| && Splitting(src, dest, from, to, c, n)
      requires First(c[n..], null) == null
      ensures Chain(Part(c, mask, to, false), BucketAt(from), null)
      ensures Chain(Part(c, mask, to, true), BucketAt(to), null)
    {
      hide Part, Chain;
      assert c[..n] == c;
    }

    // ----- The table as a whole -----

    /** The lists in the buckets are these. */
    ghost predicate Linked(cs: seq<seq<Entry<K, V>>>)
      requires Arrays() && |cs| <= count && Within(cs, entries)
      reads this`newBuckets, this`oldBuckets, this`count, this`capacity, this`newBegin, newBuckets, oldBuckets,
        this`entries, entries`next
    {
      forall i :: 0 <= i < |cs| ==> Chain(cs[i], BucketAt(i), null)
    }

    ghost predicate Structure()
      reads this`newBuckets, this`oldBuckets, this`count, this`capacity, this`newBegin, newBuckets, oldBuckets,
        this`entries, entries`next
      reads this`chains, this`at, this`mask, this`bits
    {
      && Arrays() && |chains| == count && Masked(mask, count, bits)
      && Homes(chains, entries, hash, mask) && Indexed(chains, entries, at, hash, mask)
      && Within(chains, entries) && Linked(chains)
    }

    /** Between calls: migration is at most as far behind as there are buckets left to add. */
    ghost predicate Valid()
      reads this, newBuckets, oldBuckets, entries`next
    {
      Structure() && size == |at| && newBegin + count <= capacity
    }

    ghost function Contents(): map<K, V>
      reads this`at, at.Values`val
    {
      map k | k in at :: at[k].val
    }

    ghost function Buffers(): (r: set<array<Entry?<K, V>>>)
      reads this`newBuckets, this`oldBuckets
      ensures newBuckets in r && (oldBuckets != null ==> oldBuckets in r)
    {
      if oldBuckets == null then {newBuckets} else var b: array<Entry?<K, V>> := oldBuckets; {newBuckets, b}
    }

    /** The bucket arrays are the ones from before, or new. */
    twostate predicate BuffersKept()
      reads this
    {
      && (newBuckets in old(Buffers()) || fresh(newBuckets))
      && (oldBuckets != null ==> oldBuckets in old(Buffers()) || fresh(oldBuckets))
    }

    // ----- Migration and growth -----

    /** move_bucket: one more bucket goes over to the new array. */
    method MoveBucket()
      requires Structure() && newBegin + count <= capacity + 1
      modifies this`newBegin, this`oldBuckets, newBuckets
      ensures Structure() && newBegin + count <= capacity
      ensures BuffersKept()
    {
      hide Homes, Indexed, Masked, Chain;
      if newBegin > 0 {
        newBegin := newBegin - 1;
        newBuckets[newBegin] := oldBuckets[newBegin];
        if newBegin == 0 {
          oldBuckets := null;
        }
      }
    }

    /** reserve: a larger array, to which all buckets are still to be moved. */
    method Reserve(n: nat)
      requires Structure() && (n > capacity ==> newBegin == 0)
      modifies this`newBuckets, this`oldBuckets, this`newBegin, this`capacity
      ensures Structure()
      ensures if n <= old(capacity) then newBuckets == old(newBuckets) && oldBuckets == old(oldBuckets)
          && newBegin == old(newBegin) && capacity == old(capacity)
        else fresh(newBuckets) && oldBuckets == old(newBuckets) && newBegin == count && capacity == n
      ensures old(newBegin + count <= capacity) ==>
        (newBegin + count <= capacity <==> n <= old(capacity) || 2 * count <= n)
    {
      hide Homes, Indexed, Masked, Chain;
      if n <= capacity {
        return;
      }
      oldBuckets := newBuckets;
      newBuckets := new Entry?<K, V>[n];
      newBegin := count;
      capacity := n;
    }

    /** The lists after bucket `to` has been split off. */
    method SplitLists(from: nat, to: nat)
      requires Arrays() && from < to && to + 1 == count && |chains| == to && Within(chains, entries) && Linked(chains)
      requires NoDup(chains[from]) && forall j :: 0 <= j < to && j != from ==> Apart(chains[j], chains[from])
      requires Within(SplitAt(chains, from, mask), entries)
      modifies newBuckets, oldBuckets, chains[from]`next
      ensures Linked(SplitAt(chains, from, mask))
    {
      hide NoDup, Chain, Part, And;
      SetBucket(to, null);
      SplitChain(from, to, chains[from]);
    }

    /** Counts one more bucket, still without a list, and finds the bucket it is split off from. */
    method Widen() returns (from: nat, to: nat)
      requires Structure() && count < capacity
      modifies this`mask, this`count, this`bits
      ensures to == old(count) && count == to + 1 && Masked(mask, count, bits)
      ensures mask == Grown(old(mask), to) && from == And(to, mask / 2) && from < to
      ensures Arrays() && Linked(chains)
    {
      hide Masked, Homes, Indexed, Chain, And;
      Splits(mask, count, bits, 0);
      bits := GrownMasked(mask, count, bits);
      if And(count, count - 1) == 0 {
        mask := count * 2 - 1;
      }
      to := count;
      count := count + 1;
      from := And(to, mask / 2);
    }

    /** The part of add_bucket behind the growth of the array: one more bucket, split off from an old one. */
    method SplitNext()
      requires Structure() && count < capacity
      modifies this`mask, this`count, this`chains, this`bits, newBuckets, oldBuckets, entries`next
      ensures Structure() && count == old(count) + 1
    {
      hide Masked, Homes, Indexed, Linked, NoDup, And, Apart, SplitAt, BucketAt, Grown;
      ghost var b, m, cs := bits, mask, chains;
      var from, to := Widen();
      HomesAparts(chains, entries, hash, m, from);
      HomesSplit(chains, entries, hash, m, b, mask, from);
      IndexedSplit(chains, entries, at, hash, m, b, mask, from);
      SplitLists(from, to);
      SetChains(SplitAt(cs, from, mask));
    }

    ghost method SetChains(cs: seq<seq<Entry<K, V>>>)
      requires Arrays() && |cs| <= count && Within(cs, entries) && Linked(cs)
      modifies this`chains
      ensures chains == cs && Arrays() && Linked(cs)
    {
      hide Chain;
      chains := cs;
    }

    /** add_bucket: the buckets to move may then be one more than the buckets left to add. */
    method AddBucket()
      requires Structure() && newBegin + count <= capacity
      modifies this`newBuckets, this`oldBuckets, this`newBegin, this`capacity, this`mask, this`count, this`chains,
        this`bits
      modifies Buffers(), entries`next
      ensures Structure() && count == old(count) + 1 && newBegin + count <= capacity + 1
      ensures BuffersKept()
    {
      hide Structure, Arrays, Linked, BucketAt;
      Bounds();
      if count >= capacity {
        Reserve(capacity * 2);
      }
      SplitNext();
    }

    lemma Bounds()
      requires Structure()
      ensures Arrays() && 0 < count <= capacity && newBegin <= count && |chains| == count
    {
    }

    predicate Overloaded()
      reads this
    {
      Loads(size, maxLoadFactor, count)
    }

    /** add_bucket and the move_bucket that pays for it. */
    method Grow()
      requires Structure() && newBegin + count <= capacity
      modifies this`newBuckets, this`oldBuckets, this`newBegin, this`capacity, this`mask, this`count, this`chains,
        this`bits
      modifies Buffers(), entries`next
      ensures Structure() && count == old(count) + 1 && newBegin + count <= capacity
      ensures BuffersKept()
    {
      hide Structure, Arrays, Linked, BucketAt, Overloaded;
      AddBucket();
      MoveBucket();
    }

    /** insert_postprocess: counts the entry, splits two buckets if the load asks for it, and moves on. */
    method InsertPostprocess()
      requires Structure() && newBegin + count <= capacity && size + 1 == |at|
      modifies this`newBuckets, this`oldBuckets, this`newBegin, this`capacity, this`mask, this`count, this`chains,
        this`bits
      modifies this`size, Buffers(), entries`next
      ensures Structure() && size == |at| && newBegin + count <= capacity && BuffersKept()
      ensures size == old(size) + 1 && count == old(count) + if Loads(size, maxLoadFactor, old(count)) then 2 else 0
    {
      hide Structure, Arrays, Linked, BucketAt, Loads;
      size := size + 1;
      if Overloaded() {
        Grow();
        Grow();
      } else {
        MoveBucket();
      }
    }

    /** From a factor of 1/2 on, a table that has not been overloaded does not get overloaded. */
    twostate predicate LoadKept()
      reads this
    {
      maxLoadFactor == old(maxLoadFactor) && (maxLoadFactor >= 0.5 && !old(Overloaded()) ==> !Overloaded())
    }

    twostate lemma InsertLoad()
      requires size == old(size) + 1 && maxLoadFactor == old(maxLoadFactor)
      requires count == old(count) + if Loads(size, maxLoadFactor, old(count)) then 2 else 0
      ensures LoadKept()
    {
      hide Loads;
      if maxLoadFactor >= 0.5 && !old(Overloaded()) {
        TwoBuckets(old(size), maxLoadFactor, old(count));
      }
    }

    // ----- Looking up, linking in and unlinking -----

    /** Where the key is, or where its entry would be linked in. */
    ghost predicate FoundAt(key: K, slot: Slot<K, V>, e: Entry?<K, V>, i: nat, l: nat)
      reads this
    {
      && i < |chains| && i == Bucket(mask, count, hash(key)) && l <= |chains[i]|
      && slot == SlotOf(chains[i], i, l) && e == First(chains[i][l..], null)
      && (e != null ==> key in at && at[key] == e)
      && (e == null ==> key !in at)
    }

    /** find_entry: the pointer to the key's entry, in a bucket or in the entry before it. */
    method FindEntry(key: K) returns (slot: Slot<K, V>, e: Entry?<K, V>, ghost l: nat)
      requires Structure()
      ensures e == if key in at then at[key] else null
      ensures FoundAt(key, slot, e, Bucket(mask, count, hash(key)), l)
    {
      hide Masked, Homes, Indexed, Chain, Linked, BucketAt, And;
      var h := hash(key);
      var i := Bucket(mask, count, h);
      BucketRange(mask, count, bits, h);
      LinkedAt(i);
      ghost var c := chains[i];
      slot, e, l := Head(i), BucketAt(i), 0;
      assert c[0..] == c;
      while e != null
        invariant l <= |c| && slot == SlotOf(c, i, l) && e == First(c[l..], null) && Chain(c[l..], e, null)
        invariant forall m :: 0 <= m < l ==> c[m].key != key
        decreases |c| - l
      {
        FirstAt(c, l);
        if e.hash == h && e.key == key {
          InChain(i, l);
          return;
        }
        InChain(i, l);
        Uncons(c[l..], e, null);
        slot, e, l := Link(e), e.next, l + 1;
      }
      NotInChain(key, i);
    }

    lemma LinkedAt(i: nat)
      requires Structure() && i < count
      ensures Chain(chains[i], BucketAt(i), null) && BucketAt(i) == First(chains[i], null)
    {
    }

    lemma InChain(i: nat, l: nat)
      requires Structure() && i < count && l < |chains[i]|
      ensures var e := chains[i][l]; e.hash == hash(e.key) && e.key in at && at[e.key] == e && e in entries
    {
    }

    lemma NotInChain(key: K, i: nat)
      requires Structure() && i == Bucket(mask, count, hash(key)) && i < count
      requires forall m :: 0 <= m < |chains[i]| ==> chains[i][m].key != key
      ensures key !in at
    {
    }

    /** Takes note of new lists. */
    ghost method SetContents(cs: seq<seq<Entry<K, V>>>, index: map<K, Entry<K, V>>, es: set<Entry<K, V>>)
      requires Arrays() && |cs| == count && Masked(mask, count, bits)
      requires Homes(cs, es, hash, mask) && Indexed(cs, es, index, hash, mask)
      requires forall j :: 0 <= j < count ==> Chain(cs[j], BucketAt(j), null)
      modifies this`chains, this`at, this`entries
      ensures Structure() && chains == cs && at == index && entries == es
    {
      hide Masked, Indexed, Chain;
      chains, at, entries := cs, index, es;
    }

    /** Links a new entry in at the end of its bucket's list. */
    method LinkIn(slot: Slot<K, V>, e: Entry<K, V>, ghost i: nat, ghost l: nat)
      requires Structure() && FoundAt(e.key, slot, null, i, l)
      requires e !in entries && e.next == null && e.hash == hash(e.key)
      modifies this`chains, this`at, this`entries, newBuckets, oldBuckets, entries`next
      ensures Structure() && at == old(at)[e.key := e] && entries == old(entries) + {e}
    {
      hide Masked, Homes, Indexed, Chain, BucketAt, And, Bucket, NoDup;
      ghost var c := chains[i];
      assert c[l..] == [] && c[..l] == c;
      LinkedAt(i);
      HomesAparts(chains, entries, hash, mask, i);
      Store(slot, e, i, c, null);
      Single(e, null);
      ChainJoin(c, [e], BucketAt(i), e, null);
      HomesAppend(chains, entries, at, hash, mask, i, e);
      SetContents(chains[i := c + [e]], at[e.key := e], entries + {e});
    }

    /** Takes the entry that the slot points to out of its list. */
    method LinkOut(slot: Slot<K, V>, e: Entry<K, V>, ghost i: nat, ghost l: nat)
      requires Structure() && FoundAt(e.key, slot, e, i, l)
      modifies this`chains, this`at, this`entries, newBuckets, oldBuckets, entries`next
      ensures Structure() && at == old(at) - {e.key} && entries == old(entries) - {e}
    {
      hide Masked, Homes, Indexed, Chain, BucketAt, And, Bucket, NoDup;
      ghost var c := chains[i];
      FirstIs(c, l);
      LinkedAt(i);
      HomesAparts(chains, entries, hash, mask, i);
      ChainCut(c, l, BucketAt(i), null);
      Uncons(c[l..], e, null);
      NoDupAt(c, l);
      Store(slot, e.next, i, c[..l], e);
      ChainJoin(c[..l], c[l + 1..], BucketAt(i), First(c[l + 1..], null), null);
      HomesRemove(chains, entries, at, hash, mask, i, l);
      SetContents(chains[i := c[..l] + c[l + 1..]], at - {e.key}, entries - {e});
    }

    // ----- The operations -----

    constructor (hash: K -> nat, capacity: nat, maxLoadFactor: real)
      requires capacity >= 1
      ensures Valid() && Contents() == map[] && fresh(Buffers()) && entries == {}
      ensures this.hash == hash && this.maxLoadFactor == maxLoadFactor && this.capacity == capacity
      ensures maxLoadFactor >= 0.0 ==> !Overloaded()
    {
      this.hash, this.capacity, this.maxLoadFactor := hash, capacity, maxLoadFactor;
      newBuckets := new Entry?<K, V>[capacity](_ => null);
      oldBuckets := null;
      size, mask, count, newBegin := 0, 0, 1, 0;
      chains, at, entries, bits := [[]], map[], {}, 0;
    }

    lemma AtEntries()
      requires Structure()
      ensures at.Values <= entries
    {
    }

    method Find(key: K) returns (r: Option<V>)
      requires Valid()
      ensures r == if key in Contents() then Some(Contents()[key]) else None
    {
      hide Structure;
      var _, e, _ := FindEntry(key);
      r := if e == null then None else Some(e.val);
    }

    /** insert: an existing entry is left alone. */
    method Insert(key: K, val: V) returns (added: bool)
      requires Valid()
      modifies this, Buffers(), entries`next
      ensures Valid() && BuffersKept() && fresh(entries - old(entries))
      ensures added == (key !in old(Contents())) && LoadKept()
      ensures Contents() == if key in old(Contents()) then old(Contents()) else old(Contents())[key := val]
    {
      hide Structure, Bucket, And, Buffers;
      AtEntries();
      var slot, e, l := FindEntry(key);
      added := e == null;
      if added {
        var item := AddEntry(slot, key, val, Bucket(mask, count, hash(key)), l);
      }
    }

    method AddEntry(slot: Slot<K, V>, key: K, val: V, ghost i: nat, ghost l: nat) returns (item: Entry<K, V>)
      requires Valid() && FoundAt(key, slot, null, i, l)
      modifies this, Buffers(), entries`next
      ensures Valid() && BuffersKept()
      ensures fresh(item) && item.val == val && at == old(at)[key := item] && entries == old(entries) + {item}
      ensures LoadKept()
    {
      hide Structure, Bucket, And, SlotOf, Loads, LoadKept;
      item := new Entry(key, val, hash(key));
      LinkIn(slot, item, i, l);
      InsertPostprocess();
      InsertLoad();
    }

    /** operator[] followed by an assignment through the reference it returns. */
    method Put(key: K, val: V, initial: V) returns (added: bool)
      requires Valid()
      modifies this, Buffers(), entries
      ensures Valid() && BuffersKept() && fresh(entries - old(entries))
      ensures added == (key !in old(Contents())) && Contents() == old(Contents())[key := val] && LoadKept()
    {
      hide Structure, Bucket, And;
      added := Insert(key, initial);
      assert key in Contents();
      AtEntries();
      AtKeys();
      var _, e, _ := FindEntry(key);
      SetValue(e, val);
    }

    method SetValue(e: Entry<K, V>, val: V)
      requires Valid() && e.key in at && at[e.key] == e
      modifies e`val
      ensures Valid() && Contents() == old(Contents())[e.key := val]
    {
      hide Structure;
      AtKeys();
      e.val := val;
    }

    lemma AtKeys()
      requires Structure()
      ensures forall k :: k in at ==> at[k].key == k
    {
    }

    method Erase(key: K) returns (erased: bool)
      requires Valid()
      modifies this, Buffers(), entries`next
      ensures Valid() && BuffersKept() && entries <= old(entries)
      ensures erased == (key in old(Contents())) && Contents() == old(Contents()) - {key} && LoadKept()
    {
      hide Structure, Bucket, And, FoundAt, Buffers, Overloaded;
      AtEntries();
      AtKeys();
      var slot, e, l := FindEntry(key);
      FoundIs(key, slot, e, l);
      erased := e != null;
      if erased {
        RemoveEntry(slot, e, Bucket(mask, count, hash(key)), l);
      }
    }

    lemma FoundIs(key: K, slot: Slot<K, V>, e: Entry?<K, V>, l: nat)
      requires FoundAt(key, slot, e, Bucket(mask, count, hash(key)), l)
      ensures if e == null then key !in at else key in at && at[key] == e
    {
    }

    method RemoveEntry(slot: Slot<K, V>, e: Entry<K, V>, ghost i: nat, ghost l: nat)
      requires Valid() && FoundAt(e.key, slot, e, i, l)
      modifies this, Buffers(), entries`next
      ensures Valid() && BuffersKept() && at == old(at) - {e.key} && entries == old(entries) - {e} && LoadKept()
    {
      hide Structure, Bucket, And, SlotOf, LoadKept;
      LinkOut(slot, e, i, l);
      size := size - 1;
      MoveBucket();
      EraseLoad();
    }

    twostate lemma EraseLoad()
      requires size == old(size) - 1 && maxLoadFactor == old(maxLoadFactor) && count == old(count)
      ensures LoadKept()
    {
    }

    // ----- Iteration -----

    /** find_first_nonempty: the first bucket from i on that has a list. */
    method FirstNonempty(i: nat) returns (r: nat)
      requires Structure() && i <= count
      ensures i <= r <= count && (forall j :: i <= j < r ==> chains[j] == []) && (r < count ==> chains[r] != [])
    {
      hide Masked, Homes, Indexed, Chain, And;
      r := i;
      while r < count && BucketAt(r) == null
        invariant i <= r <= count && forall j :: i <= j < r ==> chains[j] == []
      {
        LinkedAt(r);
        r := r + 1;
      }
      if r < count {
        LinkedAt(r);
      }
    }

    /** An iteration that stands before the l-th entry of bucket i has passed this entry. */
    ghost predicate Passed(e: Entry<K, V>, i: nat, l: nat)
      requires |chains| == count && i <= count && (i < count ==> l <= |chains[i]|)
      reads this`chains, this`mask, this`count
    {
      var j := Bucket(mask, count, e.hash);
      j < i || (j == i && i < count && e in chains[i][..l])
    }

    /** The iterator e stands at the l-th entry of bucket i, or at the end. */
    ghost predicate Stands(e: Entry?<K, V>, i: nat, l: nat)
      reads this`chains, this`count
    {
      && |chains| == count && i <= count
      && if e == null then i == count && l == 0 else i < count && l < |chains[i]| && e == chains[i][l]
    }

    lemma HomeOf(e: Entry<K, V>)
      requires Structure() && e in entries
      ensures var j := Bucket(mask, count, e.hash); j < count && e in chains[j] && at[e.key] == e
    {
      var j := Bucket(mask, count, hash(e.key));
      var m :| 0 <= m < |chains[j]| && chains[j][m] == e;
    }

    /** Empty buckets can be skipped. */
    lemma PassedSkip(i: nat, r: nat)
      requires Structure() && i <= r <= count && forall j :: i <= j < r ==> chains[j] == []
      ensures forall x :: x in entries ==> (Passed(x, i, 0) <==> Passed(x, r, 0))
    {
      hide Bucket, Homes, Indexed, Masked, Chain;
      forall x | x in entries
        ensures Passed(x, i, 0) <==> Passed(x, r, 0)
      {
        HomeOf(x);
      }
    }

    lemma PassedStep(i: nat, l: nat)
      requires Structure() && i < count && l < |chains[i]|
      ensures var e := chains[i][l]; !Passed(e, i, l) && e in entries && Bucket(mask, count, e.hash) == i
      ensures forall x :: x in entries ==> (Passed(x, i, l + 1) <==> Passed(x, i, l) || x == chains[i][l])
      ensures l + 1 == |chains[i]| ==> forall x :: x in entries ==> (Passed(x, i, l + 1) <==> Passed(x, i + 1, 0))
    {
      hide Bucket, Indexed, Masked, Linked;
      var c := chains[i];
      assert c[l] in entries && Bucket(mask, count, c[l].hash) == i && NoDup(c);
      hide Homes;
      NotBefore(c, l);
      if l + 1 == |c| {
        assert c[..l + 1] == c;
        forall x | x in entries
          ensures Passed(x, i, l + 1) <==> Passed(x, i + 1, 0)
        {
          HomeOf(x);
        }
      }
    }

    /** begin() */
    method Begin() returns (e: Entry?<K, V>, ghost i: nat)
      requires Structure()
      ensures e == null <==> at == map[]
      ensures Stands(e, i, 0) && forall x :: x in entries ==> !Passed(x, i, 0)
    {
      hide Masked, Homes, Indexed, Chain, Bucket;
      var n := FirstNonempty(0);
      PassedSkip(0, n);
      i := n;
      e := null;
      if n < count {
        LinkedAt(n);
        e := BucketAt(n);
        InChain(n, 0);
      } else {
        NothingLeft();
      }
    }

    /** Incrementing an iterator. */
    method Next(e: Entry<K, V>, ghost i: nat, ghost l: nat) returns (e': Entry?<K, V>, ghost i': nat, ghost l': nat)
      requires Structure() && Stands(e, i, l)
      ensures Stands(e', i', l') && !Passed(e, i, l) && e in entries
      ensures forall x :: x in entries ==> (Passed(x, i', l') <==> Passed(x, i, l) || x == e)
      ensures i < i' || (i == i' && l < l')
    {
      hide Masked, Homes, Indexed, Chain, Bucket, Passed;
      PassedStep(i, l);
      NextIs(i, l);
      if e.next != null {
        e', i', l' := e.next, i, l + 1;
      } else {
        var n := FirstNonempty(Bucket(mask, count, e.hash) + 1);
        PassedSkip(i + 1, n);
        e', i', l' := null, n, 0;
        if n < count {
          LinkedAt(n);
          e' := BucketAt(n);
        }
      }
    }

    lemma NextIs(i: nat, l: nat)
      requires Structure() && i < count && l < |chains[i]|
      ensures chains[i][l].next == Follower(chains[i], l, null)
    {
      LinkedAt(i);
    }

    /** A loop from begin to end sees every entry exactly once. */
    method Iterate() returns (queue: seq<(K, V)>)
      requires Valid()
      ensures Lists(queue, Contents())
    {
      hide Structure, Bucket, Passed, Lists;
      queue := [];
      var e, i := Begin();
      ghost var l: nat := 0;
      ghost var c: map<K, V> := map[];
      AtEntries();
      AtKeys();
      assert Lists([], c) by { NoneListed(c); }
      while e != null
        invariant Stands(e, i, l) && Lists(queue, c)
        invariant forall k :: k in c ==> k in at && c[k] == at[k].val
        invariant forall k :: k in at ==> (k in c <==> Passed(at[k], i, l))
        decreases count - i, if i < count then |chains[i]| - l else 0
      {
        ghost var x := e;
        var e', i', l' := Next(e, i, l);
        IndexedBy(x);
        ListsAdd(queue, c, (x.key, x.val));
        queue, c := queue + [(e.key, e.val)], c[x.key := x.val];
        e, i, l := e', i', l';
      }
      AllPassed();
      assert c == Contents();
    }

    lemma IndexedBy(e: Entry<K, V>)
      requires Structure() && e in entries
      ensures e.key in at && at[e.key] == e
    {
    }

    lemma AllPassed()
      requires Structure()
      ensures forall k :: k in at ==> Passed(at[k], count, 0)
    {
      hide Bucket, Masked, Chain;
      AtEntries();
      forall k | k in at
        ensures Passed(at[k], count, 0)
      {
        HomeOf(at[k]);
      }
    }

    // ----- Clearing -----

    /** The inner loop of clear: releases the entries of bucket i one after the other. */
    method Release(i: nat)
      requires Structure() && i < count && size == |at|
      modifies this`size, this`chains, this`at, this`entries, newBuckets, oldBuckets
      ensures Structure() && size == |at| && chains == old(chains)[i := []] && entries <= old(entries)
    {
      hide Structure, Bucket, BucketAt, Homes, Indexed, Masked, Chain, Linked;
      Parts();
      LinkedAt(i);
      ghost var index, es := FreeEntries(i);
      SetBucket(i, null);
      EmptyChain(BucketAt(i));
      SetContents(chains[i := []], index, es);
    }

    /** Walks the list of bucket i and counts its entries off; what is left is indexed by `index`. */
    method FreeEntries(i: nat) returns (ghost index: map<K, Entry<K, V>>, ghost es: set<Entry<K, V>>)
      requires Arrays() && |chains| == count && i < count && size == |at|
      requires Chain(chains[i], BucketAt(i), null) && BucketAt(i) == First(chains[i], null)
      requires Homes(chains, entries, hash, mask) && Indexed(chains, entries, at, hash, mask)
      modifies this`size
      ensures Homes(chains[i := []], es, hash, mask) && Indexed(chains[i := []], es, index, hash, mask)
      ensures size == |index| && es <= entries
    {
      hide Bucket, BucketAt, Homes, Indexed, Chain;
      var e := BucketAt(i);
      ghost var c := chains[i];
      index, es := at, entries;
      assert chains[i := c] == chains;
      while e != null
        invariant e == First(c, null) && Chain(c, e, null) && es <= entries && size == |index|
        invariant Homes(chains[i := c], es, hash, mask) && Indexed(chains[i := c], es, index, hash, mask)
        modifies this`size
        decreases |c|
      {
        HomesRemoveFirst(chains[i := c], es, index, hash, mask, i);
        Uncons(c, e, null);
        assert chains[i := c][i := c[1..]] == chains[i := c[1..]];
        index, es, c := index - {e.key}, es - {e}, c[1..];
        e := e.next;
        size := size - 1;
      }
    }

    lemma Parts()
      requires Structure()
      ensures Arrays() && |chains| == count && Masked(mask, count, bits)
      ensures Homes(chains, entries, hash, mask) && Indexed(chains, entries, at, hash, mask)
      ensures Within(chains, entries) && Linked(chains)
    {
    }

    method Clear()
      requires Valid()
      modifies this, Buffers()
      ensures Valid() && BuffersKept() && Contents() == map[] && entries == {} && capacity == old(capacity)
      ensures LoadKept()
    {
      hide Structure, Bucket, BucketAt, Homes, Indexed, Masked, Chain, Linked;
      Bounds();
      for i := 0 to count
        invariant Structure() && size == |at| && Arrays() && |chains| == count
        invariant forall j :: 0 <= j < i ==> chains[j] == []
        modifies this`size, this`chains, this`at, this`entries, newBuckets, oldBuckets
      {
        Release(i);
        Bounds();
      }
      NothingLeft();
      Reset();
    }

    lemma NothingLeft()
      requires Structure() && forall j :: 0 <= j < count ==> chains[j] == []
      ensures at == map[] && entries == {}
    {
      hide Bucket, Masked, Chain;
      forall e | e in entries
        ensures false
      {
        HomeOf(e);
      }
    }

    method Reset()
      requires Arrays() && size == 0
      modifies this, newBuckets
      ensures Valid() && BuffersKept() && at == map[] && entries == {} && capacity == old(capacity)
      ensures maxLoadFactor == old(maxLoadFactor) && (maxLoadFactor >= 0.5 ==> !Overloaded())
    {
      hide Structure;
      newBegin := 0;
      count := 1;
      newBuckets[0] := null;
      mask := 0;
      oldBuckets := null;
      chains, at, entries, bits := [[]], map[], {}, 0;
      EmptyStructure();
    }

    lemma EmptyStructure()
      requires Arrays() && count == 1 && mask == 0 && bits == 0 && BucketAt(0) == null
      requires chains == [[]] && at == map[] && entries == {}
      ensures Structure()
    {
      NoEntries<K, V>(hash);
      hide Homes, Indexed, Masked;
    }

    // ----- Runs -----

    method Call(op: Op<K, V, real>, initial: V) returns (r: Seen<V>)
      requires Valid()
      modifies this, Buffers(), entries
      ensures Valid() && BuffersKept() && fresh(entries - old(entries))
      ensures r == Answer(old(Contents()), op) && Contents() == After(old(Contents()), op)
      ensures !op.Tune? ==> LoadKept()
    {
      hide Valid, Buffers, Overloaded;
      match op
      case Find(k) =>
        var v := Find(k);
        r := Found(v);
      case Insert(k, v) =>
        var b := Insert(k, v);
        r := Changed(b);
      case Assign(k, v) =>
        var b := Put(k, v, initial);
        r := Changed(b);
      case Erase(k) =>
        var b := Erase(k);
        r := Changed(b);
      case Clear =>
        Clear();
        r := Changed(false);
      case Tune(factor) =>
        SetMaxLoadFactor(factor);
        r := Changed(false);
    }

    /** max_load_factor: any factor will do, for it only says when buckets are split. */
    method SetMaxLoadFactor(factor: real)
      requires Valid()
      modifies this`maxLoadFactor
      ensures Valid() && maxLoadFactor == factor
    {
      hide Structure;
      maxLoadFactor := factor;
    }

    /** Any run of calls is answered as a finite map answers it. */
    method Execute(ops: seq<Op<K, V, real>>, initial: V) returns (seen: seq<Seen<V>>)
      requires Valid()
      modifies this, Buffers(), entries
      ensures Valid() && |seen| == |ops| && Answers(old(Contents()), ops, seen)
      ensures Contents() == State(old(Contents()), ops, |ops|)
      ensures (forall i :: 0 <= i < |ops| ==> !ops[i].Tune?) ==> LoadKept()
    {
      hide Valid, Contents, Answers, State, Answer, After, Overloaded;
      seen := [];
      ghost var m0 := Contents();
      RunStart(m0, ops);
      var i := 0;
      while i < |ops|
        invariant 0 <= i <= |ops| && Valid() && |seen| == i
        invariant BuffersKept() && fresh(entries - old(entries))
        invariant Contents() == State(m0, ops, i) && Answers(m0, ops, seen)
        invariant (forall k :: 0 <= k < |ops| ==> !ops[k].Tune?) ==> LoadKept()
      {
        var r := Call(ops[i], initial);
        RunStep(m0, ops, seen, r);
        seen := seen + [r];
        i := i + 1;
      }
    }
  }

  lemma NoEntries<K(!new), V>(hash: K -> nat)
    ensures var chains: seq<seq<Entry<K, V>>> := [[]]; Homes(chains, {}, hash, 0) && Indexed(chains, {}, map[], hash, 0)
    ensures Masked(0, 1, 0)
  {
  }

  lemma HomesRemoveFirst<K(!new), V>(chains: seq<seq<Entry<K, V>>>, entries: set<Entry<K, V>>,
                                     at: map<K, Entry<K, V>>, hash: K -> nat, mask: nat, i: nat)
    requires Homes(chains, entries, hash, mask) && Indexed(chains, entries, at, hash, mask)
    requires i < |chains| && chains[i] != []
    ensures var e, chains' := chains[i][0], chains[i := chains[i][1..]];
      && e.key in at && |at - {e.key}| == |at| - 1 && Homes(chains', entries - {e}, hash, mask)
      && Indexed(chains', entries - {e}, at - {e.key}, hash, mask)
  {
    hide Homes, Indexed;
    HomesRemove(chains, entries, at, hash, mask, i, 0);
    assert chains[i][..0] + chains[i][1..] == chains[i][1..];
    Member(chains, entries, at, hash, mask, i, 0);
  }

  lemma Member<K(!new), V>(chains: seq<seq<Entry<K, V>>>, entries: set<Entry<K, V>>, at: map<K, Entry<K, V>>,
                           hash: K -> nat, mask: nat, i: nat, l: nat)
    requires Homes(chains, entries, hash, mask) && Indexed(chains, entries, at, hash, mask)
    requires i < |chains| && l < |chains[i]|
    ensures var e := chains[i][l]; e in entries && e.key in at && at[e.key] == e
  {
  }

  lemma NotBefore<K, V>(c: seq<Entry<K, V>>, l: nat)
    requires NoDup(c) && l < |c|
    ensures c[l] !in c[..l] && c[..l + 1] == c[..l] + [c[l]]
  {
  }

  lemma NoDupAt<K, V>(c: seq<Entry<K, V>>, l: nat)
    requires NoDup(c) && l < |c|
    ensures NoDup(c[..l]) && c[l] !in c[..l] && Apart(c[..l], c[l + 1..])
  {
  }

  lemma FirstIs<K, V>(c: seq<Entry<K, V>>, l: nat)
    requires l <= |c| && First(c[l..], null) != null
    ensures l < |c| && First(c[l..], null) == c[l] && c[l..][1..] == c[l + 1..] && c[l..] != []
  {
  }

  lemma FirstAt<K, V>(c: seq<Entry<K, V>>, n: nat)
    requires n < |c|
    ensures c[n..] != [] && First(c[n..], null) == c[n] && c[n..][1..] == c[n + 1..]
  {
  }

  lemma PartStart<K, V>(c: seq<Entry<K, V>>, mask: nat, to: nat)
    ensures Part(c[..0], mask, to, false) == [] && Part(c[..0], mask, to, true) == [] && c[0..] == c
  {
  }

  lemma EmptyChain<K, V>(x: Entry?<K, V>)
    ensures Chain([], x, x)
  {
  }

  lemma Uncons<K, V>(c: seq<Entry<K, V>>, x: Entry<K, V>, y: Entry?<K, V>)
    requires c != [] && Chain(c, x, y)
    ensures c[0] == x && Chain([x], x, First(c[1..], y)) && Chain(c[1..], First(c[1..], y), y)
    ensures x.next == First(c[1..], y)
  {
    ChainCut(c, 1, x, y);
    assert c[..1] == [x];
    Single(x, First(c[1..], y));
  }

  ghost predicate Apart<K, V>(c: seq<Entry<K, V>>, d: seq<Entry<K, V>>) {
    forall l :: 0 <= l < |c| ==> c[l] !in d
  }

  lemma Single<K, V>(e: Entry<K, V>, y: Entry?<K, V>)
    ensures Chain([e], e, y) <==> e.next == y
  {
    var c := [e];
    assert Chain(c, e, y) ==> c[0].next == y;
  }

  lemma Parted<K, V>(c: seq<Entry<K, V>>, n: nat, mask: nat, to: nat)
    requires NoDup(c) && n < |c|
    ensures var kept, moved, rest := Part(c[..n], mask, to, false), Part(c[..n], mask, to, true), c[n + 1..];
      && NoDup(kept) && NoDup(moved) && Apart(kept, moved) && Apart(kept, rest) && Apart(moved, rest)
      && c[n] !in kept && c[n] !in rest && c[n] !in moved
      && (forall l :: 0 <= l < |kept| ==> kept[l] in c) && (forall l :: 0 <= l < |moved| ==> moved[l] in c)
  {
    PartNoDup(c[..n], mask, to, false);
    PartNoDup(c[..n], mask, to, true);
    assert forall l, m :: 0 <= l < n <= m < |c| ==> c[..n][l] != c[m];
  }
}
