/** BlockAllocator: cells from blocks of memory, the free ones threaded on a list through the cells themselves. */
module BlockAllocators {
  import opened Basics

  /** A cell is a union: a free one holds the link to the next free cell, a live one its user's data. */
  datatype Body<T> = Next(e: Entry?<T>) | Data(v: T)

  class Entry<T> {
    var body: Body<T>

    constructor ()
      ensures body == Next(null)
    {
      body := Next(null);
    }
  }

  /** The cells of the list that starts at x. */
  ghost predicate Threaded<T>(c: seq<Entry<T>>, x: Entry?<T>)
    reads c
  {
    && x == (if c == [] then null else c[0])
    && forall i :: 0 <= i < |c| ==> c[i].body == Next(Follower(c, i, null))
  }

  ghost function Cells<T>(c: seq<Entry<T>>): set<Entry<T>> {
    set e | e in c
  }

  ghost function AllCells<T>(blocks: seq<seq<Entry<T>>>): set<Entry<T>> {
    if blocks == [] then {} else Cells(blocks[0]) + AllCells(blocks[1..])
  }

  /** How many cells the blocks have; as many as there are different ones, if no two blocks overlap. */
  ghost function Count<T>(blocks: seq<seq<Entry<T>>>): nat {
    if blocks == [] then 0 else |blocks[0]| + Count(blocks[1..])
  }

  class BlockAllocator<T> {
    var elmNum: nat
    var freeHead: Entry?<T>
    var blocks: seq<seq<Entry<T>>>
    ghost var live: set<Entry<T>>
    ghost var free: seq<Entry<T>>

    /** The live cells and the free list share out the cells of all blocks between them. */
    ghost predicate Valid()
      reads this, free
    {
      && Threaded(free, freeHead) && NoDup(free)
      && live !! Cells(free) && live + Cells(free) == AllCells(blocks)
      && elmNum == |live| && elmNum + |free| == Count(blocks)
    }

    constructor ()
      ensures Valid() && live == {} && free == []
    {
      elmNum, freeHead, blocks := 0, null, [];
      live, free := {}, [];
    }

    lemma Exhausted()
      requires Valid() && free == []
      ensures live == AllCells(blocks) && freeHead == null && elmNum == Count(blocks)
    {
    }

    lemma Apart()
      requires Valid()
      ensures forall i :: 0 <= i < |free| ==> free[i] !in live
    {
      assert forall i :: 0 <= i < |free| ==> free[i] in Cells(free);
    }

    /** pico_malloc of a block: n cells that nothing else points to. */
    method Malloc(n: nat) returns (block: seq<Entry<T>>)
      ensures |block| == n && NoDup(block) && fresh(Cells(block))
    {
      block := [];
      for i := 0 to n
        invariant |block| == i && NoDup(block) && fresh(Cells(block))
      {
        var e := new Entry<T>();
        assert e !in Cells(block);
        assert forall j :: 0 <= j < i ==> block[j] in Cells(block);
        block := block + [e];
      }
    }

    /** The loop of allocate_new_block: every cell points to the one below it, the lowest to the old list. */
    method Thread(block: seq<Entry<T>>, head: Entry?<T>)
      requires block != [] && NoDup(block)
      modifies block
      ensures forall j :: 0 <= j < |block| ==> block[j].body == Next(Below(block, j, head))
    {
      block[0].body := Next(head);
      for i := 1 to |block|
        invariant forall j :: 0 <= j < i ==> block[j].body == Next(Below(block, j, head))
      {
        block[i].body := Next(block[i - 1]);
      }
    }

    /** allocate_new_block, when the free list has run out. */
    method AllocateNewBlock(n: nat)
      requires Valid() && n > 0 && free == []
      modifies this`freeHead, this`blocks, this`free
      ensures Valid() && free != [] && forall i :: 0 <= i < |free| ==> fresh(free[i])
    {
      hide Threaded, NoDup, Cells, AllCells, Count;
      Exhausted();
      var block, list := NewBlock(n);
      MoreBlocks(block, blocks);
      blocks := [block] + blocks;
      freeHead := block[n - 1];
      free := list;
    }

    /** The memory of a new block with its cells threaded, and the list they form. */
    method NewBlock(n: nat) returns (block: seq<Entry<T>>, ghost list: seq<Entry<T>>)
      requires n > 0 && freeHead == null
      ensures |block| == |list| == n && Threaded(list, block[n - 1]) && NoDup(list)
      ensures Cells(list) == Cells(block) && fresh(Cells(list)) && forall i :: 0 <= i < n ==> fresh(list[i])
    {
      block := Malloc(n);
      InCells(block);
      Thread(block, freeHead);
      list := Backwards(block);
      hide Threaded, NoDup, Cells;
      BackwardsThreaded(block);
    }

    /** allocate: a cell that is not live, from a new block of n cells if need be. */
    method Allocate(n: nat) returns (r: Entry<T>)
      requires Valid() && n > 0
      modifies this
      ensures Valid() && live == old(live) + {r} && r !in old(live)
      ensures r in old(free) || fresh(r)
      ensures forall i :: 0 <= i < |free| ==> free[i] in old(free) || fresh(free[i])
    {
      HeadIsFirst(free, freeHead);
      hide Threaded, NoDup, AllCells, Cells, Count;
      if freeHead == null {
        AllocateNewBlock(n);
        HeadIsFirst(free, freeHead);
      }
      r := Take();
    }

    method Take() returns (r: Entry<T>)
      requires Valid() && freeHead != null
      modifies this
      ensures Valid() && live == old(live) + {r} && r !in old(live)
      ensures old(free) != [] && r == old(free)[0] && free == old(free)[1..]
    {
      hide Threaded, NoDup, AllCells, Cells, Count;
      r := freeHead;
      Pop(free, r);
      TakeOne(live, Cells(free[1..]), r);
      freeHead := match r.body case Next(e) => e case Data(_) => null;
      elmNum := elmNum + 1;
      live, free := live + {r}, free[1..];
    }

    /** deallocate of a live cell: it becomes the head of the free list. */
    method Deallocate(p: Entry<T>)
      requires Valid() && p in live
      modifies this, p
      ensures Valid() && live == old(live) - {p} && free == [p] + old(free)
    {
      hide Threaded, NoDup, AllCells, Cells;
      NotFree(free, p);
      p.body := Next(freeHead);
      Push(free, freeHead, p);
      freeHead := p;
      elmNum := elmNum - 1;
      live, free := live - {p}, [p] + free;
    }
  }

  function Below<T>(block: seq<Entry<T>>, j: nat, head: Entry?<T>): Entry?<T>
    requires j < |block|
  {
    if j == 0 then head else block[j - 1]
  }

  /** The cells of a block, last one first. */
  ghost function Backwards<T>(block: seq<Entry<T>>): (r: seq<Entry<T>>)
    ensures |r| == |block| && forall i :: 0 <= i < |block| ==> r[i] == block[|block| - 1 - i]
  {
    seq(|block|, i requires 0 <= i < |block| => block[|block| - 1 - i])
  }

  lemma BackwardsThreaded<T>(block: seq<Entry<T>>)
    requires block != [] && NoDup(block)
    requires forall j :: 0 <= j < |block| ==> block[j].body == Next(Below(block, j, null))
    ensures Threaded(Backwards(block), block[|block| - 1]) && NoDup(Backwards(block))
    ensures Cells(Backwards(block)) == Cells(block)
  {
    BackwardsCells(block);
    BackwardsNoDup(block);
    hide Cells, NoDup, Backwards, Follower, Below;
    var r, n := Backwards(block), |block|;
    forall i | 0 <= i < n
      ensures r[i].body == Next(Follower(r, i, null))
    {
      BackwardsFollower(block, i);
    }
  }

  lemma BackwardsFollower<T>(block: seq<Entry<T>>, i: nat)
    requires i < |block|
    ensures Follower(Backwards(block), i, null) == Below(block, |block| - 1 - i, null)
  {
    hide Backwards;
    assert i + 1 < |block| ==> Backwards(block)[i + 1] == block[|block| - 2 - i];
  }

  lemma BackwardsNoDup<T>(block: seq<Entry<T>>)
    requires NoDup(block)
    ensures NoDup(Backwards(block))
  {
    hide Backwards;
    var r, n := Backwards(block), |block|;
    forall i, j | 0 <= i < j < n
      ensures r[i] != r[j]
    {
      assert r[i] == block[n - 1 - i] && r[j] == block[n - 1 - j];
    }
  }

  lemma BackwardsCells<T>(block: seq<Entry<T>>)
    ensures Cells(Backwards(block)) == Cells(block)
  {
    var r, n := Backwards(block), |block|;
    forall e | e in block
      ensures e in r
    {
      var i :| 0 <= i < n && block[i] == e;
      assert r[n - 1 - i] == e;
    }
  }

  lemma HeadIsFirst<T>(c: seq<Entry<T>>, x: Entry?<T>)
    requires Threaded(c, x)
    ensures x == null <==> c == []
  {
  }

  lemma Pop<T>(c: seq<Entry<T>>, x: Entry<T>)
    requires Threaded(c, x) && NoDup(c)
    ensures c != [] && c[0] == x && NoDup(c[1..]) && Cells(c) == Cells(c[1..]) + {x} && x !in Cells(c[1..])
    ensures x.body.Next? && Threaded(c[1..], x.body.e)
  {
    var d := c[1..];
    assert forall i :: 0 <= i < |d| ==> d[i] == c[i + 1] && d[i].body == Next(Follower(d, i, null));
    assert forall i :: 1 <= i < |c| ==> c[i] == d[i - 1];
  }

  lemma TakeOne<T>(live: set<Entry<T>>, rest: set<Entry<T>>, x: Entry<T>)
    requires live !! rest + {x} && x !in rest
    ensures live + {x} !! rest && live + (rest + {x}) == (live + {x}) + rest && |live + {x}| == |live| + 1
  {
  }

  lemma InCells<T>(c: seq<Entry<T>>)
    ensures forall i :: 0 <= i < |c| ==> c[i] in Cells(c)
  {
  }

  lemma MoreBlocks<T>(block: seq<Entry<T>>, blocks: seq<seq<Entry<T>>>)
    ensures AllCells([block] + blocks) == Cells(block) + AllCells(blocks)
    ensures Count([block] + blocks) == |block| + Count(blocks)
  {
    assert ([block] + blocks)[1..] == blocks;
  }

  lemma NotFree<T>(c: seq<Entry<T>>, p: Entry<T>)
    ensures p !in Cells(c) <==> p !in c
  {
  }

  lemma Push<T>(c: seq<Entry<T>>, x: Entry?<T>, p: Entry<T>)
    requires Threaded(c, x) && NoDup(c) && p !in Cells(c) && p.body == Next(x)
    ensures Threaded([p] + c, p) && NoDup([p] + c) && Cells([p] + c) == Cells(c) + {p}
  {
    var d := [p] + c;
    assert Cells(d) == Cells(c) + {p};
    NotFree(c, p);
    hide Cells;
    forall i | 0 <= i < |d|
      ensures d[i].body == Next(Follower(d, i, null))
    {
      if i > 0 {
        assert d[i] == c[i - 1] && c[i - 1].body == Next(Follower(c, i - 1, null));
      }
    }
  }

  // ----- A user of the cells -----

  datatype Op<T> = Store(v: T, n: nat) | Drop(i: nat)

  /** The values a user has stored and not dropped, in the order of storing. */
  function Apply<T>(s: seq<T>, op: Op<T>): seq<T> {
    match op
    case Store(v, _) => s + [v]
    case Drop(i) => if i < |s| then s[..i] + s[i + 1..] else s
  }

  /** Storing and dropping, element by element. */
  lemma ApplyIs<T>(s: seq<T>, op: Op<T>)
    requires Legal(s, op)
    ensures var r := Apply(s, op);
      && (op.Store? ==> s < r && |r| == |s| + 1 && r[|s|] == op.v)
      && (op.Drop? ==> |r| == |s| - 1 && forall k :: 0 <= k < |r| ==> r[k] == if k < op.i then s[k] else s[k + 1])
  {
  }

  function ApplyTo<T>(s: seq<T>, ops: seq<Op<T>>, k: nat): seq<T>
    requires k <= |ops|
  {
    if k == 0 then s else Apply(ApplyTo(s, ops, k - 1), ops[k - 1])
  }

  /** Every block has room, and what is dropped has been stored. */
  ghost predicate Legal<T>(s: seq<T>, op: Op<T>) {
    match op
    case Store(_, n) => n > 0
    case Drop(i) => i < |s|
  }

  class User<T> {
    const allocator: BlockAllocator<T>
    var handles: seq<Entry<T>>
    ghost var cells: set<Entry<T>>

    ghost predicate Valid()
      reads this, allocator, cells
    {
      && (forall i :: 0 <= i < |handles| ==> handles[i] in cells)
      && (forall i :: 0 <= i < |allocator.free| ==> allocator.free[i] in cells)
      && allocator.Valid() && NoDup(handles) && Cells(handles) == allocator.live
      && forall i :: 0 <= i < |handles| ==> handles[i].body.Data?
    }

    ghost function Values(): (s: seq<T>)
      requires Valid()
      reads this, allocator, cells
      ensures |s| == |handles| && forall i :: 0 <= i < |s| ==> s[i] == handles[i].body.v
    {
      Stored(handles)
    }

    constructor ()
      ensures Valid() && Values() == [] && fresh(allocator) && cells == {}
    {
      allocator := new BlockAllocator<T>();
      handles := [];
      cells := {};
    }

    method Put(v: T, n: nat)
      requires Valid() && n > 0
      modifies this, allocator, cells
      ensures Valid() && Values() == Apply(old(Values()), Store(v, n)) && fresh(cells - old(cells))
    {
      hide BlockAllocator.Valid, Stored, Cells;
      var e := Grab(n);
      e.body := Data(v);
      handles := handles + [e];
    }

    method Grab(n: nat) returns (e: Entry<T>)
      requires Valid() && n > 0
      modifies this`cells, allocator
      ensures allocator.Valid() && e in cells && e !in handles && fresh(cells - old(cells)) && old(cells) <= cells
      ensures forall i :: 0 <= i < |allocator.free| ==> allocator.free[i] in cells && allocator.free[i] != e
      ensures NoDup(handles + [e]) && Cells(handles + [e]) == allocator.live
    {
      hide BlockAllocator.Valid, Cells;
      e := allocator.Allocate(n);
      allocator.Apart();
      AddCell(handles, e);
      cells := cells + {e} + set i | 0 <= i < |allocator.free| :: allocator.free[i];
    }

    method Remove(i: nat)
      requires Valid() && i < |handles|
      modifies this, allocator, cells
      ensures Valid() && Values() == Apply(old(Values()), Drop(i)) && fresh(cells - old(cells))
    {
      hide BlockAllocator.Valid, Stored, Cells;
      RemoveCell(handles, i);
      allocator.Deallocate(handles[i]);
      handles := handles[..i] + handles[i + 1..];
    }

    method Perform(op: Op<T>)
      requires Valid() && Legal(Values(), op)
      modifies this, allocator, cells
      ensures Valid() && Values() == Apply(old(Values()), op) && fresh(cells - old(cells))
    {
      hide Valid, Apply;
      match op
      case Store(v, n) => Put(v, n);
      case Drop(i) => Remove(i);
    }

    /** Any run of storing and dropping, with block sizes that may change, keeps the stored values apart. */
    method Run(ops: seq<Op<T>>)
      requires Valid() && forall k :: 0 <= k < |ops| ==> Legal(ApplyTo(Values(), ops, k), ops[k])
      modifies this, allocator, cells
      ensures Valid() && Values() == ApplyTo(old(Values()), ops, |ops|) && allocator.elmNum == |Values()|
    {
      ghost var s := Values();
      hide Valid, Values, Apply, Legal;
      for k := 0 to |ops|
        invariant Valid() && Values() == ApplyTo(s, ops, k) && fresh(cells - old(cells))
      {
        Perform(ops[k]);
      }
      Sized();
    }

    lemma Sized()
      requires Valid()
      ensures allocator.elmNum == |Values()|
    {
      CellsSize(handles);
    }
  }

  lemma {:induction false} CellsSize<T>(c: seq<Entry<T>>)
    requires NoDup(c)
    ensures |Cells(c)| == |c|
  {
    if c != [] {
      var n := |c| - 1;
      CellsSize(c[..n]);
      assert c == c[..n] + [c[n]];
      AddCell(c[..n], c[n]);
    }
  }

  lemma AddCell<T>(c: seq<Entry<T>>, e: Entry<T>)
    requires NoDup(c) && e !in Cells(c)
    ensures NoDup(c + [e]) && Cells(c + [e]) == Cells(c) + {e} && e !in c
  {
    var d := c + [e];
    assert forall i :: 0 <= i < |c| ==> c[i] in Cells(c) && d[i] == c[i];
    assert d[|c|] == e;
  }

  lemma RemoveCell<T>(c: seq<Entry<T>>, i: nat)
    requires NoDup(c) && i < |c|
    ensures var d := c[..i] + c[i + 1..]; NoDup(d) && Cells(d) == Cells(c) - {c[i]} && c[i] in Cells(c) && c[i] !in d
  {
    var d := c[..i] + c[i + 1..];
    assert forall j :: 0 <= j < |d| ==> d[j] == c[if j < i then j else j + 1];
    assert forall j :: 0 <= j < |c| && j != i ==> c[j] == d[if j < i then j else j - 1];
  }

  ghost function Stored<T>(c: seq<Entry<T>>): (s: seq<T>)
    requires forall i :: 0 <= i < |c| ==> c[i].body.Data?
    reads c
    ensures |s| == |c| && forall i :: 0 <= i < |s| ==> s[i] == c[i].body.v
  {
    if c == [] then [] else Stored(c[..|c| - 1]) + [c[|c| - 1].body.v]
  }
}
