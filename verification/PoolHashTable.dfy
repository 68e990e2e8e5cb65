/**
 The pool hash table: coalesced chaining in one node pool, chain-suffix shift on insertion
 into a foreign slot, growth by in-place rehashing.
 */
module PoolHashTables {
  import opened Basics
  import opened PoolNodes
  import opened MapRuns
  import opened Bits

  const PROBE_LEN: nat := 128

  function Max(a: nat, b: nat): (m: nat)
    ensures m >= a && m >= b && (m == a || m == b)
  {
    if a < b then b else a
  }

  /** Every node is on a chain, so none is waiting to be rehashed. */
  ghost predicate AllIn(home: seq<nat>) {
    forall i {:trigger home[i]} :: 0 <= i < |home| ==> home[i] < |home|
  }

  ghost predicate Fits(n: nat, mask: nat, nodeSize: nat) {
    2 <= n && MaskFits(mask, n - 1) && 16 <= nodeSize <= 0x1_0000_0000
  }

  /** The calls that say how large the pool is and how full it may get. */
  datatype Tuning = ReserveFor(n: nat) | RehashTo(n: nat) | LoadFactor(factor: real)

  class PoolHashTable<K(!new, ==), V> {
    const hash: K -> nat
    const trivial: bool              // whether items may be moved by copying their bytes
    const nodeSize: nat              // bytes per node
    const raw: int -> Node<K, V>     // what unused pool memory holds, apart from the EMPTY tag

    var nodes: seq<Node<K, V>>
    var mask: nat
    var numItems: int                // an unsigned count in the program; it may pass through -1
    var maxNumItems: nat
    var maxLoadFactor: real

    ghost var home: seq<nat>
    ghost var rank: seq<nat>
    ghost var top: nat
    ghost var at: map<K, nat>

    /** Chains, free list and tags agree, and `numItems` counts the occupied nodes. */
    ghost predicate Structure()
      reads this
    {
      Fits(|nodes|, mask, nodeSize) && Shape(nodes, home, rank, top, numItems)
    }

    /** Everything but that some nodes may be waiting to be rehashed. */
    ghost predicate Ready()
      reads this
    {
      && Structure() && Capped(maxNumItems, maxLoadFactor, |nodes|)
      && Items(nodes, home, hash, mask, at, 0) && |at| == numItems
    }

    ghost predicate Valid()
      reads this
    {
      Ready() && AllIn(home)
    }

    /** The finite map that the table stands for. */
    ghost function Model(): map<K, V>
      reads this
    {
      Contents(nodes, at)
    }

    lemma Parts()
      requires Structure()
      ensures |home| == |nodes| && |rank| == |nodes| && Fits(|nodes|, mask, nodeSize) && 2 <= |nodes|
      ensures mask + 1 < |nodes|
      ensures Shape(nodes, home, rank, top, numItems) && Chains(nodes, home, rank, top) && Backs(nodes, home)
      ensures numItems == Count(home, |nodes|) && home[0] == 0
    {
    }

    lemma ReadyParts()
      requires Ready()
      ensures Structure() && Capped(maxNumItems, maxLoadFactor, |nodes|) && |nodes| == |home|
      ensures Items(nodes, home, hash, mask, at, 0) && |at| == numItems && Contents(nodes, at).Keys == at.Keys
    {
      ContentsKeys(nodes, home, hash, mask, at, 0);
    }

    lemma ReadyIntro()
      requires Fits(|nodes|, mask, nodeSize) && Shape(nodes, home, rank, top, numItems)
      requires Capped(maxNumItems, maxLoadFactor, |nodes|) && |nodes| == |home|
      requires Items(nodes, home, hash, mask, at, 0) && |at| == numItems
      ensures Ready() && Structure()
    {
    }

    lemma ValidParts()
      requires Valid()
      ensures Ready() && AllIn(home)
      ensures Structure() && Capped(maxNumItems, maxLoadFactor, |nodes|) && |nodes| == |home|
      ensures Items(nodes, home, hash, mask, at, 0) && |at| == numItems && Contents(nodes, at).Keys == at.Keys
    {
      ContentsKeys(nodes, home, hash, mask, at, 0);
    }

    lemma ValidIntro()
      requires Ready() && AllIn(home)
      ensures Valid()
    {
    }

    /** What node i's tag says. */
    lemma TagAt(i: nat)
      requires Structure() && i < |nodes|
      ensures |home| == |nodes| == |rank|
      ensures nodes[i].tag == Empty <==> home[i] == 0
      ensures nodes[i].tag == Empty <==> Free(home, i)
      ensures nodes[i].tag == Head <==> home[i] == i && i != 0
      ensures nodes[i].tag == Rehash <==> home[i] >= |home|
      ensures nodes[i].tag == Rehash <==> !In(home, i)
    {
    }

    // ----- Nodes -----

    method AllocateNode(x: nat)
      requires Chains(nodes, home, rank, top) && Backs(nodes, home)
      requires 0 < x < |home| && home[x] == 0
      modifies this`nodes, this`numItems, this`home
      ensures numItems == old(numItems) + 1 && home == old(home)[x := |nodes|]
      ensures Chains(nodes, home, rank, top) && Backs(nodes, home)
      ensures Untouched(old(nodes), nodes, old(home), {x}) && nodes[x] == Node(Probe, 0, old(nodes)[x].body)
      ensures Count(home, |nodes|) == old(Count(home, |nodes|)) + 1
    {
      assert Free(home, x);
      TakenChains(nodes, home, rank, top, x);
      CountUpdate(home, x, |nodes|, |nodes|);
      numItems := numItems + 1;
      var next, prev := nodes[x].link, nodes[x].body.prev;
      nodes := nodes[next := nodes[next].(body := Prev(prev))];
      nodes := nodes[prev := nodes[prev].(link := next)];
      nodes := nodes[x := nodes[x].(tag := Probe, link := 0)];
      home := home[x := |nodes|];
    }

    method DeallocateNode(x: nat)
      requires Chains(nodes, home, rank, top) && Backs(nodes, home)
      requires 0 < x < |nodes| && home[x] == |nodes|
      modifies this`nodes, this`numItems, this`home, this`rank, this`top
      ensures numItems == old(numItems) - 1 && home == old(home)[x := 0]
      ensures Chains(nodes, home, rank, top) && Backs(nodes, home)
      ensures |rank| == |old(rank)| && forall i :: 0 <= i < |rank| && i != x ==> rank[i] == old(rank)[i]
      ensures Untouched(old(nodes), nodes, old(home), {x}) && nodes[x].tag == Empty
      ensures Count(home, |nodes|) == old(Count(home, |nodes|)) - 1
    {
      FreedChains(nodes, home, rank, top, x);
      CountUpdate(home, x, 0, |nodes|);
      numItems := numItems - 1;
      var prev := nodes[0].body.prev;
      nodes := nodes[x := Node(Empty, 0, Prev(prev))];
      nodes := nodes[0 := nodes[0].(body := Prev(x))];
      nodes := nodes[prev := nodes[prev].(link := x)];
      home, rank, top := home[x := 0], rank[x := rank[prev] + 1], top + 1;
    }

    /** The node after offset, or 0 at the end of the pool. */
    function ProbeOffset(offset: nat): (next: nat)
      requires offset < |nodes|
      reads this
      ensures next < |nodes| && (next == 0 <==> offset + 1 == |nodes|) && (next != 0 ==> next == offset + 1)
    {
      if offset + 1 < |nodes| then offset + 1 else 0
    }

    /**
     Looks for a free node close behind `start`.  The distance is an unsigned difference that
     wraps around as soon as the probe moves on, so only `start` itself is ever inspected and
     the answer is the tail of the free list.
     */
    method ProbeNode(start: nat) returns (r: nat)
      requires Structure() && 0 < start < |nodes| && numItems < |nodes| - 1
      ensures nodes[0].body.Prev? && r == if nodes[start].tag == Empty then start else nodes[0].body.prev
      ensures 0 < r < |nodes| == |home| && home[r] == 0
    {
      FreeTail(nodes, home, rank, top, |nodes|);
      DistanceWraps(start, nodeSize);
      hide Distance;
      var probe := start;
      while probe != 0 && Distance(start, probe, nodeSize) < PROBE_LEN
        invariant probe == start || (nodes[start].tag != Empty && (probe == 0 || probe == start + 1) && probe < |nodes|)
        decreases if probe == 0 then 0 else |nodes| - probe
      {
        if nodes[probe].tag == Empty {
          return probe;
        }
        probe := ProbeOffset(probe);
      }
      r := nodes[0].body.prev;
    }

    /** The same search while rehashing: a node that still waits to be rehashed will do as well. */
    method ProbeNodeRehash(start: nat) returns (r: nat)
      requires Structure() && 0 < start < |nodes| && numItems < |nodes| - 1
      ensures 0 < r < |nodes| && (nodes[r].tag == Empty || nodes[r].tag == Rehash)
    {
      FreeTail(nodes, home, rank, top, |nodes|);
      var probe := start;
      while probe != 0 && Distance(start, probe, nodeSize) < PROBE_LEN
        invariant probe < |nodes|
        decreases if probe == 0 then 0 else |nodes| - probe
      {
        if nodes[probe].tag == Empty || nodes[probe].tag == Rehash {
          return probe;
        }
        probe := ProbeOffset(probe);
      }
      r := nodes[0].body.prev;
    }

    // ----- Finding -----

    method InnerFind(key: K) returns (offset: nat)
      requires Valid()
      ensures offset == if key in at then at[key] else 0
    {
      var h := HeadOf(hash, mask, key);
      assert key in at ==> home[at[key]] == h;
      offset := h;
      if nodes[offset].tag != Empty {
        while true
          invariant In(home, offset) && home[offset] == home[h] && offset != 0
          invariant key in at ==> Together(home, offset, at[key]) && rank[offset] <= rank[at[key]]
          decreases top - rank[offset]
        {
          if nodes[offset].body.key == key {
            return;
          }
          assert nodes[offset].link != 0 ==> Together(home, offset, nodes[offset].link);
          offset := nodes[offset].link;
          if offset == 0 {
            break;
          }
        }
      }
      offset := 0;
    }

    /** The last node of the chain that holds `start`. */
    method LastOf(start: nat) returns (prev: nat)
      requires Chains(nodes, home, rank, top) && In(home, start) && start != 0
      ensures 0 < prev < |nodes| == |home| && In(home, prev) && home[prev] == home[start] && nodes[prev].link == 0
    {
      prev := start;
      while nodes[prev].link != 0
        invariant Together(home, start, prev) && prev != 0
        decreases top - rank[prev]
      {
        assert Together(home, prev, nodes[prev].link);
        prev := nodes[prev].link;
      }
    }

    /** The node that links to `next`, which is further down the chain that starts at `head`. */
    method FindNodeBefore(head: nat, next: nat) returns (probe: nat)
      requires Chains(nodes, home, rank, top) && head != next && In(home, next) && home[next] == head
      ensures probe < |nodes| && Together(home, probe, next) && nodes[probe].link == next
    {
      assert Together(home, head, next) by { assert home[home[next]] == home[next]; }
      probe := head;
      while nodes[probe].link != next
        invariant Together(home, probe, next) && rank[probe] < rank[next]
        decreases top - rank[probe]
      {
        assert Together(home, probe, nodes[probe].link) && Together(home, nodes[probe].link, next);
        probe := nodes[probe].link;
      }
    }

    // ----- Inserting -----

    /** `hole` is linked into the chain of its key, and only its item is still missing. */
    ghost predicate Awaits(hole: nat, key: K)
      reads this
    {
      && Structure() && Capped(maxNumItems, maxLoadFactor, |nodes|)
      && 0 < hole < |nodes| && home[hole] == HeadOf(hash, mask, key)
      && Items(nodes, home, hash, mask, at, hole)
      && |at| == numItems - 1
    }

    lemma AwaitsIntro(hole: nat, key: K)
      requires Fits(|nodes|, mask, nodeSize) && Shape(nodes, home, rank, top, numItems)
      requires Capped(maxNumItems, maxLoadFactor, |nodes|) && |nodes| == |home|
      requires 0 < hole < |nodes| && home[hole] == HeadOf(hash, mask, key)
      requires Items(nodes, home, hash, mask, at, hole) && |at| == numItems - 1
      ensures Awaits(hole, key)
    {
    }

    method TakeHead(head: nat, ghost key: K)
      requires Valid() && head == HeadOf(hash, mask, key) && nodes[head].tag == Empty
      modifies this`nodes, this`numItems, this`home, this`rank
      ensures Awaits(head, key) && AllIn(home) && numItems == old(numItems) + 1 && |nodes| == old(|nodes|)
      ensures Contents(nodes, at) == old(Contents(nodes, at))
    {
      hide *;
      ValidParts();
      Parts();
      TagAt(head);
      AllocateNode(head);
      HeadFrame(old(nodes), nodes, old(home), rank, top, old(numItems), hash, mask, at, head);
      nodes := nodes[head := nodes[head].(tag := Head, link := 0)];
      home, rank := old(home)[head := head], rank[head := 0];
      AllInUpdate(old(home), head, head);
      AwaitsIntro(head, key);
    }

    /** allocate_node(probe) and linking it behind the chain's last node. */
    method LinkProbe(prev: nat, probe: nat)
      requires Ready() && 0 < prev < |nodes| == |home| && 0 < home[prev] < |nodes| && nodes[prev].link == 0
      requires 0 < probe < |nodes| && home[probe] == 0
      modifies this`nodes, this`numItems, this`home, this`rank, this`top
      ensures |rank| == |home| == |nodes| == |old(rank)| == |old(home)| == |old(nodes)|
      ensures Structure() && numItems == old(numItems) + 1
      ensures home == old(home)[probe := old(home)[prev]]
      ensures rank == old(rank)[probe := old(rank)[prev] + 1]
      ensures Items(nodes, home, hash, mask, at, probe)
      ensures Contents(nodes, at) == old(Contents(nodes, at))
      ensures Relinked(old(nodes), nodes, old(home), prev, probe)
    {
      hide *;
      ReadyParts();
      Parts();
      AllocateNode(probe);
      LinkFrame(old(nodes), nodes, old(home), rank, top, old(numItems), hash, mask, at, prev, probe);
      nodes := nodes[prev := nodes[prev].(link := probe)];
      home, rank, top := old(home)[probe := old(home)[prev]], rank[probe := rank[prev] + 1], top + 1;
      StructureIntro();
    }

    lemma StructureIntro()
      requires Fits(|nodes|, mask, nodeSize) && Shape(nodes, home, rank, top, numItems)
      ensures Structure()
    {
    }

    lemma InHome(i: nat)
      requires Structure() && AllIn(home) && i < |nodes|
      ensures |home| == |nodes| == |rank| && home[i] < |nodes| && In(home, i)
    {
    }

    method AppendProbe(head: nat, ghost key: K) returns (probe: nat)
      requires Valid() && head == HeadOf(hash, mask, key) && head < |nodes| && nodes[head].tag == Head
      requires numItems < |nodes| - 1
      modifies this`nodes, this`numItems, this`home, this`rank, this`top
      ensures Awaits(probe, key) && AllIn(home) && numItems == old(numItems) + 1 && |nodes| == old(|nodes|)
      ensures Contents(nodes, at) == old(Contents(nodes, at))
    {
      hide *;
      ValidParts();
      Parts();
      TagAt(head);
      var prev := LastOf(head);
      TagAt(prev);
      probe := ProbeNode(prev);
      LinkProbe(prev, probe);
      Parts();
      AllInUpdate(old(home), probe, head);
      AwaitsIntro(probe, key);
    }

    /** The nodes from `head` to the end of its chain, in chain order. */
    method ChainFrom(head: nat) returns (temp: seq<nat>)
      requires Structure() && In(home, head) && head != 0
      ensures 0 < |temp| && temp[0] == head && |home| == |nodes|
      ensures forall q :: 0 <= q < |temp| ==> 0 < temp[q] < |nodes| && home[temp[q]] == home[head]
      ensures forall p, q :: 0 <= p < q < |temp| ==> temp[p] != temp[q]
      ensures nodes[temp[|temp| - 1]].link == 0
    {
      var prev := head;
      temp := [prev];
      while nodes[prev].link != 0
        invariant 0 < |temp| && temp[0] == head && temp[|temp| - 1] == prev && In(home, prev)
        invariant forall q :: 0 <= q < |temp| ==>
          0 < temp[q] && Together(home, head, temp[q]) && rank[temp[q]] <= rank[prev]
        invariant forall p, q :: 0 <= p < q < |temp| ==> temp[p] != temp[q]
        decreases top - rank[prev]
      {
        assert Together(home, prev, nodes[prev].link);
        prev := nodes[prev].link;
        temp := temp + [prev];
      }
    }

    /** Moves every item of `temp` one node on, the last one into `probe`, so that temp[0] is left over. */
    method ShiftItems(temp: seq<nat>, probe: nat)
      requires |home| == |nodes| && Items(nodes, home, hash, mask, at, probe)
      requires 0 < |temp| && 0 < probe < |nodes| && home[probe] != 0 && probe !in temp
      requires forall q :: 0 <= q < |temp| ==> 0 < temp[q] < |nodes| && home[temp[q]] == home[probe]
      requires forall p, q :: 0 <= p < q < |temp| ==> temp[p] != temp[q]
      modifies this`nodes, this`at
      ensures |nodes| == old(|nodes|) && SameShape(old(nodes), nodes, home)
      ensures Items(nodes, home, hash, mask, at, temp[0])
      ensures at.Keys == old(at.Keys) && Contents(nodes, at) == old(Contents(nodes, at))
    {
      hide Items, Contents;
      var s, rest, hole := nodes, temp, probe;
      ghost var at' := at;
      while rest != []
        invariant |s| == |nodes| && SameShape(nodes, s, home)
        invariant rest <= temp && 0 < hole < |s| && home[hole] == home[probe] && hole !in rest
        invariant rest == [] ==> hole == temp[0]
        invariant Items(s, home, hash, mask, at', hole)
        invariant at'.Keys == at.Keys && Contents(s, at') == Contents(nodes, at)
        modifies {}
        decreases |rest|
      {
        var back := rest[|rest| - 1];
        assert back == temp[|rest| - 1];
        ItemsMove(s, home, hash, mask, at', hole, back);
        at' := at'[s[back].body.key := hole];
        s := s[hole := s[hole].(body := s[back].body)];
        hole, rest := back, rest[..|rest| - 1];
      }
      nodes, at := s, at';
    }

    lemma ItemAt(i: nat)
      requires Valid() && 0 < i < |nodes| && nodes[i].tag != Empty
      ensures nodes[i].body.Item? && nodes[i].body.key in at && at[nodes[i].body.key] == i
      ensures |home| == |nodes| && 0 < home[i] < |nodes| && HeadOf(hash, mask, nodes[i].body.key) == home[i]
    {
    }

    /** The node `head`, empty of an item, leaves the chain of `exchange` and becomes a head. */
    method Promote(exchange: nat, head: nat, ghost key: K)
      requires Structure() && Capped(maxNumItems, maxLoadFactor, |nodes|) && |nodes| == |home| && AllIn(home)
      requires head == HeadOf(hash, mask, key) && head < |nodes| && exchange == home[head] && exchange != 0
      requires exchange != head
      requires Items(nodes, home, hash, mask, at, head) && |at| == numItems - 1
      modifies this`nodes, this`home, this`rank
      ensures Awaits(head, key) && AllIn(home) && |nodes| == old(|nodes|)
      ensures Contents(nodes, at) == old(Contents(nodes, at))
    {
      hide *;
      Parts();
      InHome(head);
      var before := FindNodeBefore(exchange, head);
      StepPromote(nodes, home, rank, top, numItems, before, head);
      nodes := nodes[before := nodes[before].(link := nodes[head].link)];
      nodes := nodes[head := nodes[head].(tag := Head, link := 0)];
      ItemsRehome(old(nodes), nodes, home, hash, mask, at, head, head);
      home, rank := home[head := head], rank[head := 0];
      AllInUpdate(old(home), head, head);
      AwaitsIntro(head, key);
    }

    /**
     The head slot is taken by a node of another chain.  That chain's items, from this node on,
     move one node further, and the node leaves the chain and becomes the head of a new one.
     */
    method EvictProbe(head: nat, ghost key: K)
      requires Valid() && head == HeadOf(hash, mask, key) && head < |nodes| && nodes[head].tag == Probe
      requires numItems < |nodes| - 1
      modifies this`nodes, this`numItems, this`home, this`rank, this`top, this`at
      ensures Awaits(head, key) && AllIn(home) && numItems == old(numItems) + 1 && |nodes| == old(|nodes|)
      ensures at.Keys == old(at.Keys) && Contents(nodes, at) == old(Contents(nodes, at))
    {
      hide *;
      ValidParts();
      Parts();
      TagAt(head);
      ItemAt(head);
      var exchange := HeadOf(hash, mask, nodes[head].body.key);
      OpenSlot(head);
      Promote(exchange, head, key);
    }

    /** The chain gets one more node, and its items from x on move one node back, which leaves x open. */
    method OpenSlot(x: nat)
      requires Valid() && 0 < x < |nodes| == |home| && 0 < home[x] < |nodes| && numItems < |nodes| - 1
      modifies this`nodes, this`numItems, this`home, this`rank, this`top, this`at
      ensures |nodes| == |home| == old(|nodes|) && home[x] == old(home)[x]
      ensures Capped(maxNumItems, maxLoadFactor, |nodes|)
      ensures Structure() && AllIn(home) && numItems == old(numItems) + 1
      ensures Items(nodes, home, hash, mask, at, x) && |at| == numItems - 1
      ensures at.Keys == old(at.Keys) && Contents(nodes, at) == old(Contents(nodes, at))
    {
      hide *;
      ValidParts();
      Parts();
      var temp := ChainFrom(x);
      var prev := temp[|temp| - 1];
      var probe := ProbeNode(prev);
      LinkProbe(prev, probe);
      Parts();
      ghost var s1 := nodes;
      ShiftItems(temp, probe);
      ShapeSame(s1, nodes, home, rank, top, numItems);
      StructureIntro();
      SameKeysSize(at, old(at));
      AllInUpdate(old(home), probe, old(home)[prev]);
    }

    /** A node for the new key, whose item the caller moves in. */
    method InnerAllocate(key: K) returns (offset: nat)
      requires Valid() && numItems < |nodes| - 1
      modifies this`nodes, this`numItems, this`home, this`rank, this`top, this`at
      ensures Awaits(offset, key) && AllIn(home) && numItems == old(numItems) + 1 && |nodes| == old(|nodes|)
      ensures at.Keys == old(at.Keys) && Contents(nodes, at) == old(Contents(nodes, at))
    {
      hide *;
      ValidParts();
      Parts();
      var head := HeadOf(hash, mask, key);
      TagAt(head);
      InHome(head);
      if nodes[head].tag == Empty {
        TakeHead(head, key);
        offset := head;
      } else if nodes[head].tag == Head {
        offset := AppendProbe(head, key);
      } else {
        EvictProbe(head, key);
        offset := head;
      }
    }

    method MoveIn(offset: nat, key: K, val: V)
      requires Awaits(offset, key) && key !in at
      modifies this`nodes, this`at
      ensures Ready() && |nodes| == old(|nodes|)
      ensures Contents(nodes, at) == old(Contents(nodes, at))[key := val] && at == old(at)[key := offset]
    {
      hide *;
      AwaitsParts(offset, key);
      Parts();
      ItemsFill(nodes, home, hash, mask, at, offset, key, val);
      nodes := nodes[offset := nodes[offset].(body := Item(key, val))];
      at := at[key := offset];
      BodyChange(old(nodes), home, offset, Item(key, val));
      ShapeSame(old(nodes), nodes, home, rank, top, numItems);
      ReadyIntro();
    }

    lemma AwaitsParts(hole: nat, key: K)
      requires Awaits(hole, key)
      ensures Structure() && Capped(maxNumItems, maxLoadFactor, |nodes|) && |nodes| == |home|
      ensures 0 < hole < |nodes| && home[hole] == HeadOf(hash, mask, key) != 0
      ensures Items(nodes, home, hash, mask, at, hole) && |at| == numItems - 1
    {
    }

    // ----- Erasing -----

    /** Node x holds no item any more, but is still linked. */
    ghost predicate Vacated(x: nat)
      reads this
    {
      && Structure() && Capped(maxNumItems, maxLoadFactor, |nodes|)
      && 0 < x < |nodes| && home[x] != 0
      && Items(nodes, home, hash, mask, at, x)
      && |at| == numItems - 1
    }

    lemma VacatedParts(x: nat)
      requires Vacated(x)
      ensures Structure() && Capped(maxNumItems, maxLoadFactor, |nodes|) && |nodes| == |home|
      ensures 0 < x < |nodes| && home[x] != 0 && Items(nodes, home, hash, mask, at, x) && |at| == numItems - 1
    {
    }

    /** What is left to show once the vacated node x has been returned to the free list. */
    lemma FreedIntro(s: seq<Node<K, V>>, s1: seq<Node<K, V>>, h: seq<nat>, x: nat)
      requires |h| == |s| == |nodes| && Tags(s, h, |s|) && 0 < x < |s|
      requires |s1| == |s| && forall i :: 0 <= i < |s| ==> s1[i].tag == s[i].tag && s1[i].body == s[i].body
      requires Untouched(s1, nodes, h[x := |s|], {x}) && nodes[x].tag == Empty
      requires home == h[x := 0] && Chains(nodes, home, rank, top) && Backs(nodes, home) && numItems == Count(home, |s|)
      requires Items(s, h, hash, mask, at, x)
      requires Fits(|nodes|, mask, nodeSize) && Capped(maxNumItems, maxLoadFactor, |nodes|) && |at| == numItems
      ensures Ready() && Contents(nodes, at) == Contents(s, at)
      ensures forall i :: 0 <= i < |nodes| && i != x ==> nodes[i].tag == s[i].tag
    {
      StepFreed(s, s1, nodes, h, rank, top, x);
      ItemsDropHole(s, nodes, h, hash, mask, at, x);
    }

    /** Takes the vacated node x out of its chain, behind p, and returns it to the free list. */
    method UnlinkFree(p: nat, x: nat)
      requires Vacated(x) && AllIn(home) && p < |nodes| == |home| && Together(home, p, x) && nodes[p].link == x
      modifies this`nodes, this`numItems, this`home, this`rank, this`top
      ensures Valid() && |nodes| == old(|nodes|) && numItems == old(numItems) - 1
      ensures Contents(nodes, at) == old(Contents(nodes, at))
      ensures nodes[x].tag == Empty && forall i :: 0 <= i < |nodes| && i != x ==> nodes[i].tag == old(nodes)[i].tag
    {
      hide *;
      VacatedParts(x);
      Parts();
      ShapeTags(nodes, home, rank, top, numItems);
      InHome(x);
      StepUnlink(nodes, home, rank, top, numItems, p, x);
      nodes, home := nodes[p := nodes[p].(link := nodes[x].link)], home[x := |nodes|];
      ghost var s1 := nodes;
      DeallocateNode(x);
      FreedIntro(old(nodes), s1, old(home), x);
      AllInUpdate(old(home), x, 0);
      ValidIntro();
    }

    /** Returns the vacated node x, alone in its chain, to the free list. */
    method HeadFree(x: nat)
      requires Vacated(x) && AllIn(home) && |nodes| == |home| && home[x] == x && nodes[x].link == 0
      modifies this`nodes, this`numItems, this`home, this`rank, this`top
      ensures Valid() && |nodes| == old(|nodes|) && numItems == old(numItems) - 1
      ensures Contents(nodes, at) == old(Contents(nodes, at))
      ensures nodes[x].tag == Empty && forall i :: 0 <= i < |nodes| && i != x ==> nodes[i].tag == old(nodes)[i].tag
    {
      hide *;
      VacatedParts(x);
      Parts();
      ShapeTags(nodes, home, rank, top, numItems);
      StepDropHead(nodes, home, rank, top, numItems, x);
      home := home[x := |nodes|];
      DeallocateNode(x);
      FreedIntro(old(nodes), old(nodes), old(home), x);
      AllInUpdate(old(home), x, 0);
      ValidIntro();
    }

    /** Destroys the item at `offset` and moves the item of its successor there. */
    method MoveBack(offset: nat, next: nat)
      requires Valid() && 0 < offset < |nodes| == |home| && nodes[offset].tag != Empty && 0 < next < |nodes|
      requires next != offset
      requires home[next] == home[offset] && nodes[offset].body.Item?
      modifies this`nodes, this`at
      ensures Vacated(next) && |nodes| == old(|nodes|)
      ensures forall i :: 0 <= i < |nodes| ==> nodes[i].tag == old(nodes)[i].tag && nodes[i].link == old(nodes)[i].link
      ensures old(nodes)[next].body.Item?
        && at == Renamed(old(at), old(nodes)[offset].body.key, old(nodes)[next].body.key, offset)
        && Contents(nodes, at) == old(Contents(nodes, at)) - {old(nodes)[offset].body.key}
    {
      hide *;
      ValidParts();
      Parts();
      TagAt(offset);
      StepShift(nodes, home, rank, top, numItems, hash, mask, at, offset, next);
      nodes, at := nodes[offset := nodes[offset].(body := nodes[next].body)],
        Renamed(at, nodes[offset].body.key, nodes[next].body.key, offset);
      StructureIntro();
      VacatedIntro(next);
    }

    /** Erases the item of a node that has a successor: the successor's item takes its place. */
    method EraseShift(offset: nat)
      requires Valid() && 0 < offset < |nodes| && nodes[offset].tag != Empty && nodes[offset].link != 0
      modifies this`nodes, this`numItems, this`home, this`rank, this`top, this`at
      ensures Valid() && |nodes| == old(|nodes|) && numItems == old(numItems) - 1
      ensures var next := old(nodes)[offset].link;
        && 0 < next < |nodes| && next != offset
        && old(nodes)[offset].body.Item? && old(nodes)[next].body.Item?
        && at == Renamed(old(at), old(nodes)[offset].body.key, old(nodes)[next].body.key, offset)
        && Contents(nodes, at) == old(Contents(nodes, at)) - {old(nodes)[offset].body.key}
        && nodes[next].tag == Empty && forall i :: 0 <= i < |nodes| && i != next ==> nodes[i].tag == old(nodes)[i].tag
    {
      hide *;
      ValidParts();
      ItemAt(offset);
      NextIn(offset);
      var next := nodes[offset].link;
      MoveBack(offset, next);
      UnlinkFree(offset, next);
    }

    lemma VacatedIntro(x: nat)
      requires Structure() && Capped(maxNumItems, maxLoadFactor, |nodes|) && |nodes| == |home|
      requires 0 < x < |nodes| && home[x] != 0 && Items(nodes, home, hash, mask, at, x) && |at| == numItems - 1
      ensures Vacated(x)
    {
    }

    /** Erases the item of the last node of a chain. */
    method EraseLast(offset: nat)
      requires Valid() && 0 < offset < |nodes| && nodes[offset].tag != Empty && nodes[offset].link == 0
      modifies this`nodes, this`numItems, this`home, this`rank, this`top, this`at
      ensures Valid() && |nodes| == old(|nodes|) && numItems == old(numItems) - 1
      ensures old(nodes)[offset].body.Item? && at == old(at) - {old(nodes)[offset].body.key}
      ensures Contents(nodes, at) == old(Contents(nodes, at)) - {old(nodes)[offset].body.key}
      ensures nodes[offset].tag == Empty
      ensures forall i :: 0 <= i < |nodes| && i != offset ==> nodes[i].tag == old(nodes)[i].tag
    {
      hide *;
      ValidParts();
      Parts();
      ItemAt(offset);
      InHome(offset);
      var head := HeadOf(hash, mask, nodes[offset].body.key);
      ItemsPierce(nodes, home, hash, mask, at, offset);
      at := at - {nodes[offset].body.key};
      StructureIntro();
      VacatedIntro(offset);
      if offset != head {
        var prev := FindNodeBefore(head, offset);
        UnlinkFree(prev, offset);
      } else {
        HeadFree(offset);
      }
    }

    lemma NextIn(i: nat)
      requires Structure() && AllIn(home) && i < |nodes| && nodes[i].link != 0
      ensures |home| == |nodes| && 0 < nodes[i].link < |nodes| && home[nodes[i].link] == home[i] && nodes[i].link != i
      ensures Together(home, i, nodes[i].link)
    {
      assert In(home, i);
    }

    // ----- Pool size -----

    /** Makes the free list node point to itself; no node is on a chain. */
    method ResetFreeList()
      requires 2 <= |nodes|
      modifies this`nodes, this`home, this`rank, this`top
      ensures nodes == old(nodes)[0 := Node(Empty, 0, Prev(0))] && |home| == |nodes|
      ensures Chains(nodes, home, rank, top) && Backs(nodes, home)
      ensures home[0] == 0 && forall i :: 0 < i < |nodes| ==> home[i] == |nodes|
    {
      nodes := nodes[0 := Node(Empty, 0, Prev(0))];
      ghost var n := |nodes|;
      home, rank, top := seq(n, i => if i == 0 then 0 else n), seq(n, i => 0), 0;
      StartChains(nodes, home, rank);
    }

    /** Every node of the pool goes to the free list, in order. */
    method InitializeNodes()
      requires Fits(|nodes|, mask, nodeSize)
      modifies this`nodes, this`numItems, this`home, this`rank, this`top, this`at
      ensures Structure() && AllIn(home) && |nodes| == old(|nodes|) == |home| && numItems == 0 && at == map[]
      ensures Items(nodes, home, hash, mask, at, 0)
      ensures forall i :: 0 <= i < |nodes| ==> nodes[i].tag == Empty
    {
      hide *;
      FitsFacts(|nodes|, mask, nodeSize);
      ghost var n := |nodes|;
      numItems := |nodes| - 1;
      ResetFreeList();
      ClearedStart(nodes, home);
      var offset: nat := ProbeOffset(0);
      while offset != 0
        invariant |nodes| == n == |home| && offset < n && Chains(nodes, home, rank, top) && Backs(nodes, home)
        invariant Cleared(nodes, home, if offset == 0 then n else offset) && numItems == Count(home, n)
        decreases n - (if offset == 0 then n else offset)
      {
        ClearedAt(nodes, home, offset);
        ghost var s, h := nodes, home;
        DeallocateNode(offset);
        ClearedStep(s, nodes, h, offset);
        offset := ProbeOffset(offset);
      }
      at := map[];
      ClearedAll(nodes, home, hash, mask, at);
      ShapeIntro(nodes, home, rank, top, numItems);
      StructureIntro();
    }

    // ----- Rehashing in place -----

    /** First pass: free nodes go to a new free list, occupied nodes are marked for rehashing. */
    method MarkNodes(ghost was: seq<nat>, ghost mask0: nat)
      requires Fits(|nodes|, mask, nodeSize) && Capped(maxNumItems, maxLoadFactor, |nodes|) && |nodes| == |was|
      requires forall i :: 0 < i < |nodes| ==> (nodes[i].tag == Empty <==> was[i] == 0)
      requires Items(nodes, was, hash, mask0, at, 0) && |at| == numItems == Count(was, |nodes|)
      modifies this`nodes, this`numItems, this`home, this`rank, this`top
      ensures Ready() && |nodes| == old(|nodes|) == |home| && numItems == old(numItems)
      ensures forall i :: 0 < i < |nodes| ==> home[i] == if was[i] == 0 then 0 else |nodes|
      ensures Contents(nodes, at) == old(Contents(nodes, at))
    {
      hide *;
      FitsFacts(|nodes|, mask, nodeSize);
      ghost var n := |nodes|;
      ResetFreeList();
      MarkedStart(old(nodes), was, home);
      var offset: nat := ProbeOffset(0);
      while offset != 0
        invariant |nodes| == n == |home| && offset < n && Chains(nodes, home, rank, top) && Backs(nodes, home)
        invariant numItems == old(numItems)
        invariant Marked(old(nodes), nodes, was, home, if offset == 0 then n else offset)
        decreases n - (if offset == 0 then n else offset)
      {
        MarkedAt(old(nodes), nodes, was, home, offset);
        ghost var s, h := nodes, home;
        if nodes[offset].tag == Empty {
          DeallocateNode(offset);
          numItems := numItems + 1;
        } else {
          nodes := nodes[offset := nodes[offset].(tag := Rehash)];
          MarkChains(s, home, rank, top, offset);
        }
        MarkedStep(old(nodes), s, nodes, was, h, home, offset);
        offset := ProbeOffset(offset);
      }
      MarkedAll(old(nodes), nodes, was, home);
      CountSame(was, home, n);
      ItemsDissolve(old(nodes), nodes, was, home, hash, mask0, mask, at);
      ShapeIntro(nodes, home, rank, top, numItems);
      ReadyIntro();
    }

    /** Exchanges the items of two waiting nodes. */
    method SwapItems(x: nat, y: nat)
      requires Ready() && 0 < x < |nodes| == |home| && 0 < y < |nodes| && x != y
      requires home[x] >= |nodes| && home[y] >= |nodes|
      modifies this`nodes, this`at
      ensures Ready() && |nodes| == old(|nodes|) && nodes == Swapped(old(nodes), x, y)
      ensures Contents(nodes, at) == old(Contents(nodes, at))
    {
      hide *;
      ReadyParts();
      Parts();
      StepSwap(nodes, home, rank, top, numItems, hash, mask, at, x, y);
      at := at[nodes[y].body.key := x][nodes[x].body.key := y];
      var temp := nodes[x].body;
      nodes := nodes[x := nodes[x].(body := nodes[y].body)];
      nodes := nodes[y := nodes[y].(body := temp)];
      SwapOrder(old(nodes), x, y);
      ReadyIntro();
    }

    /**
     The head slot holds an item that waits itself: the two items change places and the slot
     becomes a head.
     */
    method ClaimHead(offset: nat, probe: nat)
      requires Ready() && 0 < offset < |nodes| == |home| && 0 < probe < |nodes|
      requires home[offset] >= |nodes| && home[probe] >= |nodes|
      requires nodes[offset].body.Item? && probe == HeadOf(hash, mask, nodes[offset].body.key)
      modifies this`nodes, this`home, this`rank, this`at
      ensures Ready() && |nodes| == old(|nodes|) && home == old(home)[probe := probe]
      ensures forall i :: 0 < i < |nodes| && i != probe && i != offset ==> nodes[i] == old(nodes)[i]
      ensures Contents(nodes, at) == old(Contents(nodes, at))
    {
      hide *;
      if probe != offset {
        SwapItems(probe, offset);
        SwapFacts(old(nodes), probe, offset);
      }
      TagHead(probe);
    }

    /** A marked node whose item belongs to it becomes its head. */
    method TagHead(x: nat)
      requires Ready() && 0 < x < |nodes| == |home| && home[x] >= |nodes|
      requires nodes[x].body.Item? && x == HeadOf(hash, mask, nodes[x].body.key)
      modifies this`nodes, this`home, this`rank
      ensures Ready() && |nodes| == old(|nodes|) && home == old(home)[x := x]
      ensures forall i :: 0 < i < |nodes| && i != x ==> nodes[i] == old(nodes)[i]
      ensures Contents(nodes, at) == old(Contents(nodes, at))
    {
      hide *;
      ReadyParts();
      Parts();
      StepClaim(nodes, home, rank, top, numItems, x);
      ItemsClaim(nodes, nodes[x := nodes[x].(tag := Head, link := 0)], home, hash, mask, at, x, x);
      nodes, home, rank := nodes[x := nodes[x].(tag := Head, link := 0)], home[x := x], rank[x := 0];
      ReadyIntro();
    }

    /** The head slot is free: the item moves there, and its old node becomes free. */
    method MoveToHead(offset: nat, probe: nat)
      requires Ready() && 0 < offset < |nodes| == |home| && 0 < probe < |nodes|
      requires home[offset] == |nodes| && home[probe] == 0
      requires nodes[offset].body.Item? && probe == HeadOf(hash, mask, nodes[offset].body.key)
      modifies this`nodes, this`numItems, this`home, this`rank, this`top, this`at
      ensures Ready() && |nodes| == old(|nodes|) && numItems == old(numItems)
      ensures home == old(home)[probe := probe][offset := 0]
      ensures forall i :: 0 < i < |nodes| && i != probe && i != offset && old(home)[i] != 0 ==>
        nodes[i] == old(nodes)[i]
      ensures Contents(nodes, at) == old(Contents(nodes, at))
    {
      hide *;
      ReadyParts();
      Parts();
      AllocateNode(probe);
      HeadFrame(old(nodes), nodes, old(home), rank, top, old(numItems), hash, mask, at, probe);
      nodes := nodes[probe := nodes[probe].(tag := Head, link := 0)];
      home, rank := old(home)[probe := probe], rank[probe := 0];
      GiveItem(offset, probe);
    }

    /** Moves the item of the waiting node `offset` into the hole and frees `offset`. */
    method GiveItem(offset: nat, hole: nat)
      requires Fits(|nodes|, mask, nodeSize) && Shape(nodes, home, rank, top, numItems)
      requires Capped(maxNumItems, maxLoadFactor, |nodes|) && |nodes| == |home|
      requires 0 < offset < |nodes| && 0 < hole < |nodes| && offset != hole && home[offset] == |nodes|
      requires home[hole] != 0
      requires Items(nodes, home, hash, mask, at, hole) && |at| == numItems - 1
      requires nodes[offset].body.Item? && HeadOf(hash, mask, nodes[offset].body.key) == home[hole]
      modifies this`nodes, this`numItems, this`home, this`rank, this`top, this`at
      ensures Ready() && |nodes| == old(|nodes|) && numItems == old(numItems) - 1
      ensures home == old(home)[offset := 0]
      ensures forall i :: 0 < i < |nodes| && i != hole && i != offset && old(home)[i] != 0 ==> nodes[i] == old(nodes)[i]
      ensures Contents(nodes, at) == old(Contents(nodes, at))
    {
      hide *;
      StepGive(nodes, home, rank, top, numItems, hash, mask, at, hole, offset);
      at := at[nodes[offset].body.key := hole];
      nodes := nodes[hole := nodes[hole].(body := nodes[offset].body)];
      ghost var s1 := nodes;
      DeallocateNode(offset);
      OutAlready(old(home), offset);
      FreedIntro(s1, s1, old(home), offset);
      KeptAfterFreeing(s1, nodes, old(home), offset);
    }

    /** One step of the second pass, at a node that waits; tells whether to go on to the next node. */
    method HeadStep(offset: nat) returns (next: bool)
      requires Ready() && 0 < offset < |nodes| == |home| && nodes[offset].tag == Rehash
      requires Flat(home) && HeadsSet(nodes, home, hash, mask, offset)
      modifies this`nodes, this`numItems, this`home, this`rank, this`top, this`at
      ensures Ready() && |nodes| == old(|nodes|) == |home| && numItems == old(numItems)
      ensures Flat(home) && HeadsSet(nodes, home, hash, mask, if next then offset + 1 else offset)
      ensures Contents(nodes, at) == old(Contents(nodes, at))
      ensures |Outs(home)| < old(|Outs(home)|) || (next && home == old(home))
    {
      hide *;
      next := true;
      ReadyParts();
      TagAt(offset);
      WaitingAt(offset);
      var probe := HeadOf(hash, mask, nodes[offset].body.key);
      TagAt(probe);
      FlatAt(home, probe);
      FlatAt(home, offset);
      if nodes[probe].tag == Rehash {
        ClaimHead(offset, probe);
        HeadsAfterClaim(old(nodes), nodes, old(home), hash, mask, offset, probe);
        next := probe == offset;
      } else if nodes[probe].tag == Empty {
        MoveToHead(offset, probe);
        HeadsAfterMove(old(nodes), nodes, old(home), hash, mask, offset, probe);
      } else {
        HeadsSkip(nodes, home, hash, mask, offset);
      }
    }

    /** Second pass: every slot that is some item's head slot becomes a head and holds such an item. */
    method FillHeads()
      requires Ready() && |home| == |nodes| && Flat(home)
      modifies this`nodes, this`numItems, this`home, this`rank, this`top, this`at
      ensures Ready() && |nodes| == old(|nodes|) == |home| && numItems == old(numItems)
      ensures Flat(home) && HeadsSet(nodes, home, hash, mask, |nodes|)
      ensures Contents(nodes, at) == old(Contents(nodes, at))
    {
      hide *;
      ghost var n := |nodes|;
      ReadySize();
      HeadsStart(nodes, home, hash, mask);
      var offset: nat := ProbeOffset(0);
      while offset != 0
        invariant Ready() && |nodes| == n == |home| && offset < n && numItems == old(numItems)
        invariant Flat(home) && HeadsSet(nodes, home, hash, mask, if offset == 0 then n else offset)
        invariant Contents(nodes, at) == old(Contents(nodes, at))
        decreases |Outs(home)|, n - (if offset == 0 then n else offset)
      {
        var next := true;
        if nodes[offset].tag == Rehash {
          next := HeadStep(offset);
        } else {
          ReadyParts();
          TagAt(offset);
          HeadsSkip(nodes, home, hash, mask, offset);
        }
        if next {
          offset := ProbeOffset(offset);
        }
      }
    }

    lemma ReadySize()
      requires Ready()
      ensures 2 <= |nodes|
    {
    }

    /** A waiting node holds an item, whose head slot is in the pool. */
    lemma WaitingAt(i: nat)
      requires Ready() && 0 < i < |nodes| && nodes[i].tag == Rehash
      ensures nodes[i].body.Item? && |home| == |nodes| && HeadOf(hash, mask, nodes[i].body.key) < |nodes|
    {
    }

    /** One step of the third pass, at a node that waits; tells whether to go on to the next node. */
    method ProbeStep(offset: nat) returns (next: bool)
      requires Ready() && 0 < offset < |nodes| == |home| && nodes[offset].tag == Rehash && numItems < |nodes| - 1
      requires HeadsSet(nodes, home, hash, mask, |nodes|) && home[offset] == |nodes|
      modifies this`nodes, this`numItems, this`home, this`rank, this`top, this`at
      ensures Ready() && |nodes| == old(|nodes|) == |home| && numItems == old(numItems)
      ensures HeadsSet(nodes, home, hash, mask, |nodes|) && |Outs(home)| < old(|Outs(home)|)
      ensures Settles(old(home), home) && (next ==> home[offset] < |nodes|)
      ensures Contents(nodes, at) == old(Contents(nodes, at))
    {
      hide *;
      ReadyParts();
      Parts();
      TagAt(offset);
      WaitingAt(offset);
      HeadsAt(nodes, home, hash, mask, offset);
      var head := HeadOf(hash, mask, nodes[offset].body.key);
      TagAt(head);
      var prev := LastOf(head);
      var probe := ProbeNodeRehash(prev);
      TagAt(probe);
      if nodes[probe].tag == Rehash {
        AdoptProbe(offset, prev, probe);
        HeadsAfterAdopt(old(nodes), nodes, old(home), hash, mask, offset, probe, head);
        SettlesIn(old(home), probe, head, probe, head);
        next := probe == offset;
      } else {
        next := true;
        MoveToProbe(offset, prev, probe);
        HeadsAfterFill(old(nodes), nodes, old(home), hash, mask, offset, probe, head);
        SettlesIn(old(home), probe, head, offset, 0);
      }
    }

    /** Third pass: every item that still waits is appended to the chain of its head slot. */
    method FillProbes()
      requires Ready() && |home| == |nodes| && HeadsSet(nodes, home, hash, mask, |nodes|) && numItems < |nodes| - 1
      requires forall i :: 0 <= i < |nodes| ==> home[i] <= |nodes|
      modifies this`nodes, this`numItems, this`home, this`rank, this`top, this`at
      ensures Valid() && |nodes| == old(|nodes|) && numItems == old(numItems)
      ensures Contents(nodes, at) == old(Contents(nodes, at))
    {
      hide *;
      ghost var n := |nodes|;
      ReadySize();
      ReadyParts();
      Parts();
      SettledStart(home);
      var offset: nat := ProbeOffset(0);
      while offset != 0
        invariant Ready() && |nodes| == n == |home| && offset < n && numItems == old(numItems) < n - 1
        invariant HeadsSet(nodes, home, hash, mask, n)
        invariant SettledTo(home, if offset == 0 then n else offset)
        invariant Contents(nodes, at) == old(Contents(nodes, at))
        decreases |Outs(home)|, n - (if offset == 0 then n else offset)
      {
        var next := true;
        ReadyParts();
        TagAt(offset);
        SettledAt(home, offset);
        if nodes[offset].tag == Rehash {
          ghost var h := home;
          next := ProbeStep(offset);
          SettledStep(h, home, offset);
        }
        if next {
          SettledNext(home, offset);
          offset := ProbeOffset(offset);
        }
      }
      SettledAll(home);
      ValidIntro();
    }

    /** The waiting node `probe` keeps its item and is linked behind the chain's last node. */
    method LinkWaiting(prev: nat, probe: nat)
      requires Ready() && 0 < probe < |nodes| == |home| && 0 < prev < |nodes|
      requires home[probe] >= |nodes| && 0 < home[prev] < |nodes| && nodes[prev].link == 0
      requires nodes[probe].body.Item? && home[prev] == HeadOf(hash, mask, nodes[probe].body.key)
      modifies this`nodes, this`home, this`rank, this`top
      ensures Ready() && |nodes| == old(|nodes|) && home == old(home)[probe := old(home)[prev]]
      ensures forall i :: 0 < i < |nodes| ==> nodes[i].body == old(nodes)[i].body
      ensures Contents(nodes, at) == old(Contents(nodes, at))
    {
      hide *;
      ReadyParts();
      Parts();
      AdoptFrame(nodes, home, rank, top, numItems, hash, mask, at, prev, probe);
      nodes := nodes[probe := nodes[probe].(tag := Probe, link := 0)];
      nodes := nodes[prev := nodes[prev].(link := probe)];
      home, rank, top := home[probe := home[prev]], rank[probe := rank[prev] + 1], top + 1;
      ReadyIntro();
    }

    /** A waiting node takes the item and is linked behind the chain's last node. */
    method AdoptProbe(offset: nat, prev: nat, probe: nat)
      requires Ready() && 0 < offset < |nodes| == |home| && 0 < probe < |nodes| && 0 < prev < |nodes|
      requires home[offset] >= |nodes| && home[probe] >= |nodes| && 0 < home[prev] < |nodes| && nodes[prev].link == 0
      requires nodes[offset].body.Item? && home[prev] == HeadOf(hash, mask, nodes[offset].body.key)
      modifies this`nodes, this`home, this`rank, this`top, this`at
      ensures Ready() && |nodes| == old(|nodes|) && home == old(home)[probe := old(home)[prev]]
      ensures probe != offset ==> nodes[offset].body == old(nodes)[probe].body
      ensures forall i :: 0 < i < |nodes| && i != probe && i != offset ==> nodes[i].body == old(nodes)[i].body
      ensures Contents(nodes, at) == old(Contents(nodes, at))
    {
      hide *;
      if probe != offset {
        SwapItems(probe, offset);
        SwapFacts(old(nodes), probe, offset);
      }
      LinkWaiting(prev, probe);
    }

    /** A free node takes the item and is linked behind the chain's last node. */
    method MoveToProbe(offset: nat, prev: nat, probe: nat)
      requires Ready() && 0 < offset < |nodes| == |home| && 0 < probe < |nodes| && 0 < prev < |nodes|
      requires home[offset] == |nodes| && home[probe] == 0 && 0 < home[prev] < |nodes| && nodes[prev].link == 0
      requires nodes[offset].body.Item? && home[prev] == HeadOf(hash, mask, nodes[offset].body.key)
      modifies this`nodes, this`numItems, this`home, this`rank, this`top, this`at
      ensures Ready() && |nodes| == old(|nodes|) && numItems == old(numItems)
      ensures home == old(home)[probe := old(home)[prev]][offset := 0]
      ensures forall i :: 0 < i < |nodes| && i != probe && i != offset && old(home)[i] != 0 ==>
        nodes[i].body == old(nodes)[i].body
      ensures Contents(nodes, at) == old(Contents(nodes, at))
    {
      hide *;
      ReadyParts();
      LinkProbe(prev, probe);
      RelinkedBodies(old(nodes), nodes, old(home), prev, probe);
      Parts();
      GiveItem(offset, probe);
    }

    /** Resizes the pool to n nodes besides node 0; nodes that come into use are EMPTY. */
    method SetSpace(n: nat)
      requires 1 <= n && 1 <= |nodes| && 16 <= nodeSize <= 0x1_0000_0000
      modifies this`nodes, this`mask
      ensures |nodes| == n + 1 && Fits(|nodes|, mask, nodeSize)
      ensures n + 1 <= old(|nodes|) ==> nodes == old(nodes)[..n + 1]
      ensures n + 1 > old(|nodes|) ==>
        old(nodes) <= nodes && forall i :: old(|nodes|) <= i < |nodes| ==> nodes[i].tag == Empty
    {
      if n + 1 <= |nodes| {
        nodes := nodes[..n + 1];
      } else {
        var k, r := n + 1 - |nodes|, raw;
        nodes := nodes + seq(k, i => r(i).(tag := Empty));
      }
      var bits, size := 0, 1;
      while 2 * size <= n
        invariant size == Pow2(bits) && 1 <= size <= n
        decreases n - size
      {
        bits, size := bits + 1, 2 * size;
      }
      mask := size - 1;
    }

    /** Clamps the factor to [0.1, 1] and recomputes how many items the pool may hold. */
    method SetMaxLoadFactor(factor: real)
      requires 2 <= |nodes|
      modifies this`maxLoadFactor, this`maxNumItems
      ensures maxLoadFactor == Clamp(factor) && Capped(maxNumItems, maxLoadFactor, |nodes|)
      ensures maxNumItems as real <= maxLoadFactor * (|nodes| - 1) as real < (maxNumItems + 1) as real
    {
      var f := if factor < 0.1 then 0.1 else factor;
      maxLoadFactor := if f < 1.0 then f else 1.0;
      maxNumItems := ItemLimit(maxLoadFactor, |nodes| - 1);
    }

    function ExpandSpace(): (n: nat)
      requires Fits(|nodes|, mask, nodeSize)
      reads this
      ensures n >= |nodes| && n as real * 9.0 >= (|nodes| - 1) as real * 10.0
    {
      var num := |nodes| - 1;
      if mask != 0 && 1.4 < num as real / mask as real < 1.8 then
        Below(num, mask);
        (mask + 1) * 2
      else
        Max((num as real * 45.0 / 32.0).Floor, num + 1)
    }

    /** In-place growth: the three passes together. */
    method RemapRehash(n: nat)
      requires Valid() && n >= |nodes|
      modifies this`nodes, this`mask, this`numItems, this`maxNumItems, this`maxLoadFactor, this`home, this`rank,
        this`top, this`at
      ensures Valid() && |nodes| == n + 1 && maxLoadFactor == old(maxLoadFactor)
      ensures Contents(nodes, at) == old(Contents(nodes, at)) && numItems == old(numItems)
    {
      hide *;
      GrowMarked(n);
      FillHeads();
      FlatBound(home);
      ReadyParts();
      Parts();
      FillProbes();
    }

    /** Growth up to the first pass: every item waits to be rehashed. */
    method GrowMarked(n: nat)
      requires Valid() && n >= |nodes|
      modifies this`nodes, this`mask, this`numItems, this`maxNumItems, this`maxLoadFactor, this`home, this`rank,
        this`top
      ensures Ready() && |home| == |nodes| == n + 1 && Flat(home) && maxLoadFactor == old(maxLoadFactor)
      ensures Contents(nodes, at) == old(Contents(nodes, at)) && numItems == old(numItems) < |nodes| - 1
    {
      hide *;
      ghost var was := GrowSpace(n);
      MarkNodes(was, old(mask));
      ReadyParts();
      Parts();
      FlatIntro(home, was);
    }

    /** The larger pool before its nodes are marked; `was` is what home would be with the new nodes free. */
    method GrowSpace(n: nat) returns (ghost was: seq<nat>)
      requires Valid() && n >= |nodes|
      modifies this`nodes, this`mask, this`maxNumItems, this`maxLoadFactor
      ensures |nodes| == n + 1 == |was| && Fits(|nodes|, mask, nodeSize)
      ensures maxLoadFactor == old(maxLoadFactor) && Capped(maxNumItems, maxLoadFactor, |nodes|)
      ensures forall i :: 0 < i < |nodes| ==> (nodes[i].tag == Empty <==> was[i] == 0)
      ensures Items(nodes, was, hash, old(mask), at, 0) && |at| == numItems == Count(was, |nodes|)
      ensures numItems < |nodes| - 1
      ensures Contents(nodes, at) == old(Contents(nodes, at))
    {
      hide *;
      ValidParts();
      Parts();
      SizeFacts();
      CountBound(home, |nodes|);
      SetSpace(n);
      SetMaxLoadFactor(maxLoadFactor);
      ClampSame(old(maxLoadFactor));
      was := home + seq(|nodes| - |home|, i => 0);
      GrowFrame(old(nodes), nodes, home, rank, top, numItems, hash, old(mask), at);
    }

    lemma SizeFacts()
      requires Structure()
      ensures 16 <= nodeSize <= 0x1_0000_0000
    {
    }

    // ----- Rehashing by draining and inserting again -----

    /** The items of the pool in node order. */
    method Drain() returns (queue: seq<(K, V)>)
      requires Valid()
      ensures Lists(queue, Contents(nodes, at)) && |queue| == numItems
    {
      hide *;
      ValidParts();
      Parts();
      queue := [];
      var offset: nat := ProbeOffset(0);
      DrainedStart(nodes, home, at);
      while offset != 0
        invariant offset < |nodes| == |home|
        invariant Drained(queue, nodes, at, if offset == 0 then |nodes| else offset)
        invariant |queue| == Count(home, if offset == 0 then |nodes| else offset)
        decreases |nodes| - (if offset == 0 then |nodes| else offset)
      {
        TagAt(offset);
        DrainedStep(queue, nodes, home, hash, mask, at, offset);
        if nodes[offset].tag != Empty {
          queue := queue + [(nodes[offset].body.key, nodes[offset].body.val)];
        }
        offset := ProbeOffset(offset);
      }
      DrainedAll(queue, nodes, home, hash, mask, at);
    }

    /** Rehashing for items that cannot be moved as bytes, and for shrinking. */
    method SerializeRehash(n: nat)
      requires Valid() && n >= 1 && n >= numItems
      modifies this`nodes, this`mask, this`numItems, this`maxNumItems, this`maxLoadFactor, this`home, this`rank,
        this`top, this`at
      ensures Valid() && |nodes| == n + 1 && maxLoadFactor == old(maxLoadFactor)
      ensures Contents(nodes, at) == old(Contents(nodes, at)) && numItems == old(numItems)
    {
      hide *;
      var queue := Drain();
      EmptyPool(n);
      Refill(queue, old(Contents(nodes, at)));
    }

    /** The part of inner_serialize_rehash that leaves an empty pool of n nodes. */
    method EmptyPool(n: nat)
      requires Valid() && n >= 1
      modifies this`nodes, this`mask, this`numItems, this`maxNumItems, this`maxLoadFactor, this`home, this`rank,
        this`top, this`at
      ensures Valid() && |nodes| == n + 1 && maxLoadFactor == old(maxLoadFactor) && numItems == 0 && at == map[]
    {
      hide *;
      ValidParts();
      Parts();
      SizeFacts();
      Clear();
      ValidParts();
      Parts();
      SetSpace(n);
      SetMaxLoadFactor(maxLoadFactor);
      ClampSame(old(maxLoadFactor));
      InitializeNodes();
      Parts();
      ReadyIntro();
      ValidIntro();
    }

    /** The loop of inner_serialize_rehash that inserts the drained items again. */
    method Refill(queue: seq<(K, V)>, ghost m: map<K, V>)
      requires Valid() && numItems == 0 && at == map[] && Lists(queue, m) && |queue| <= |nodes| - 1
      modifies this`nodes, this`numItems, this`home, this`rank, this`top, this`at
      ensures Valid() && |nodes| == old(|nodes|) && numItems == |queue| && Contents(nodes, at) == m
    {
      hide *;
      ListsStart(queue, nodes, at, m);
      var i := 0;
      while i < |queue|
        invariant 0 <= i <= |queue| && Valid() && |nodes| == old(|nodes|)
        invariant Lists(queue[..i], Contents(nodes, at)) && numItems == i
        decreases |queue| - i
      {
        ValidParts();
        ListsNext(queue, m, Contents(nodes, at), i);
        var offset := InnerAllocate(queue[i].0);
        MoveIn(offset, queue[i].0, queue[i].1);
        ValidIntro();
        i := i + 1;
      }
      ListsSame(queue, i, Contents(nodes, at), m);
    }

    /** Destroys all items. */
    method Clear()
      requires Valid()
      modifies this`nodes, this`numItems, this`home, this`rank, this`top, this`at
      ensures Valid() && |nodes| == old(|nodes|) && numItems == 0 && Contents(nodes, at) == map[] && WithinLoad()
      ensures forall i :: 0 <= i < |nodes| ==> nodes[i].tag == Empty
    {
      hide *;
      ValidParts();
      Parts();
      InitializeNodes();
      Parts();
      ReadyIntro();
      ValidIntro();
      ReadyParts();
      assert |Contents(nodes, at).Keys| == 0;
      CappedParts(maxNumItems, maxLoadFactor, |nodes|);
      FewerFit(|nodes| - 1, maxNumItems, maxLoadFactor, |nodes| - 1, 0);
      LoadIntro();
    }

    // ----- Growing -----

    /** Resizes to at least `buckets` nodes, and to as many as the items need. */
    method Resize(buckets: nat)
      requires Valid()
      modifies this`nodes, this`mask, this`numItems, this`maxNumItems, this`maxLoadFactor, this`home, this`rank,
        this`top, this`at
      ensures Valid() && |nodes| - 1 >= buckets && maxLoadFactor == old(maxLoadFactor)
      ensures Contents(nodes, at) == old(Contents(nodes, at)) && numItems == old(numItems)
      ensures 0 <= numItems && !TooFew(|nodes| - 1, numItems, maxLoadFactor)
      ensures |nodes| - 1 > Max(buckets, 1) ==> |nodes| >= 2 && TooFew(|nodes| - 2, numItems, maxLoadFactor)
    {
      hide *;
      ValidParts();
      Parts();
      MaxFacts(buckets, 1);
      CappedParts(maxNumItems, maxLoadFactor, |nodes|);
      MaxFacts(Max(buckets, 1), PerLoad(numItems, maxLoadFactor));
      var n := RoundUp(Max(Max(buckets, 1), PerLoad(numItems, maxLoadFactor)), numItems, maxLoadFactor);
      if n > Max(buckets, 1) {
        LeastEnough(Max(buckets, 1), numItems, maxLoadFactor, n);
      }
      if n != |nodes| - 1 {
        if n > |nodes| - 1 && trivial {
          RemapRehash(n);
        } else {
          SerializeRehash(n);
        }
      }
    }

    /** Makes room for n items: afterwards the pool has at least n nodes. */
    method Reserve(n: nat)
      requires Valid()
      modifies this`nodes, this`mask, this`numItems, this`maxNumItems, this`maxLoadFactor, this`home, this`rank,
        this`top, this`at
      ensures Valid() && |nodes| - 1 >= n && maxLoadFactor == old(maxLoadFactor)
      ensures Contents(nodes, at) == old(Contents(nodes, at)) && numItems == old(numItems)
      ensures !TooFew(|nodes| - 1, n, maxLoadFactor) && (n <= old(maxNumItems) ==> nodes == old(nodes))
      ensures old(WithinLoad()) ==> WithinLoad()
    {
      hide *;
      ValidParts();
      Parts();
      CappedParts(maxNumItems, maxLoadFactor, |nodes|);
      if n > maxNumItems {
        var buckets := RoundUp(PerLoad(n, maxLoadFactor), n, maxLoadFactor);
        if buckets > |nodes| - 1 {
          MaxFacts(buckets, ExpandSpace());
          Resize(Max(buckets, ExpandSpace()));
        }
        FewerFit(buckets, n, maxLoadFactor, |nodes| - 1, n);
      } else {
        FewerFit(|nodes| - 1, maxNumItems, maxLoadFactor, |nodes| - 1, n);
      }
      LoadKept();
    }

    /** There are no more items than the load factor allows. */
    ghost predicate WithinLoad()
      reads this
    {
      0 <= numItems && 1 <= |nodes| && !TooFew(|nodes| - 1, numItems, maxLoadFactor)
    }

    twostate lemma LoadKept()
      requires maxLoadFactor == old(maxLoadFactor) && 0.1 <= maxLoadFactor <= 1.0 && 0 <= numItems && 1 <= |nodes|
      requires numItems <= old(numItems) || (0 <= numItems && !TooFew(|nodes| - 1, numItems, maxLoadFactor))
      requires |nodes| == old(|nodes|) || !TooFew(|nodes| - 1, numItems, maxLoadFactor)
      ensures old(WithinLoad()) ==> WithinLoad()
    {
      hide TooFew;
      if old(WithinLoad()) && |nodes| == old(|nodes|) && numItems <= old(numItems) {
        FewerFit(|nodes| - 1, old(numItems), maxLoadFactor, |nodes| - 1, numItems);
      }
    }

    // ----- The map interface -----

    constructor (hash: K -> nat, trivial: bool, nodeSize: nat, raw: int -> Node<K, V>)
      requires 16 <= nodeSize <= 0x1_0000_0000
      ensures Valid() && Model() == map[] && this.hash == hash && this.trivial == trivial && maxLoadFactor == 1.0
      ensures WithinLoad()
    {
      this.hash, this.trivial, this.nodeSize, this.raw := hash, trivial, nodeSize, raw;
      nodes, mask, numItems, maxNumItems, maxLoadFactor := [Node(Empty, 0, Prev(0))], 0, 0, 0, 1.0;
      new;
      SetSpace(1);
      InitializeNodes();
      hide *;
      Parts();
      FitsFacts(|nodes|, mask, nodeSize);
      ReadyIntro();
      ValidIntro();
      ReadyParts();
      assert |Contents(nodes, at).Keys| == 0;
      ModelIs();
      CappedParts(maxNumItems, maxLoadFactor, |nodes|);
      LoadIntro();
    }

    lemma ModelIs()
      ensures Model() == Contents(nodes, at)
    {
    }

    /** Value of the key, if it is there. */
    method Find(key: K) returns (r: Option<V>)
      requires Valid()
      ensures r == if key in Model() then Some(Model()[key]) else None
    {
      var offset := InnerFind(key);
      r := if offset != 0 then Some(nodes[offset].body.val) else None;
    }

    /** Inserts a new key, with room made first; the free list is never empty here. */
    method InnerEmplaceNotExist(key: K, val: V) returns (offset: nat)
      requires Valid() && key !in at
      modifies this
      ensures Valid() && maxLoadFactor == old(maxLoadFactor)
      ensures Contents(nodes, at) == old(Contents(nodes, at))[key := val] && key in at && at[key] == offset
      ensures WithinLoad()
    {
      hide *;
      ValidParts();
      Parts();
      ghost var n := numItems + 1;
      Reserve(numItems + 1);
      ValidParts();
      ghost var size, f := |nodes|, maxLoadFactor;
      assert !TooFew(size - 1, n, f);
      offset := InnerAllocate(key);
      MoveIn(offset, key, val);
      ValidIntro();
      assert |nodes| == size && numItems == n && maxLoadFactor == f;
      LoadIntro();
    }

    lemma LoadIntro()
      requires 0 <= numItems && 1 <= |nodes| && !TooFew(|nodes| - 1, numItems, maxLoadFactor)
      ensures WithinLoad()
    {
    }

    /** insert, emplace and try_emplace: an existing item is kept. */
    method Emplace(key: K, val: V) returns (inserted: bool)
      requires Valid()
      modifies this
      ensures Valid() && inserted == (key !in old(Model()))
      ensures Model() == if inserted then old(Model())[key := val] else old(Model())
      ensures inserted || old(WithinLoad()) ==> WithinLoad()
    {
      hide *;
      ValidParts();
      ModelIs();
      var offset := InnerFind(key);
      if offset != 0 {
        ItemsPositive(key);
        inserted := false;
      } else {
        ItemsPositive(key);
        var at := InnerEmplaceNotExist(key, val);
        ModelIs();
        inserted := true;
      }
    }

    lemma ItemsPositive(key: K)
      requires Valid()
      ensures key in at ==> at[key] != 0
    {
    }

    /** operator[] followed by an assignment through the reference it returns. */
    method Put(key: K, zero: V, val: V)
      requires Valid()
      modifies this
      ensures Valid() && Model() == old(Model())[key := val]
      ensures old(WithinLoad()) || key !in old(Model()) ==> WithinLoad()
    {
      hide *;
      ValidParts();
      ModelIs();
      ItemsPositive(key);
      var offset := InnerFind(key);
      if offset == 0 {
        offset := InnerEmplaceNotExist(key, zero);
        ValidParts();
      }
      label written:
      WriteAt(offset, key, val);
      SameLoad@written();
      ModelIs();
      assert old(Model())[key := zero][key := val] == old(Model())[key := val];
    }

    /** Overwrites the value of the item at a node. */
    method WriteAt(offset: nat, key: K, val: V)
      requires Valid() && key in at && at[key] == offset
      modifies this`nodes
      ensures Valid() && Contents(nodes, at) == old(Contents(nodes, at))[key := val] && |nodes| == old(|nodes|)
    {
      hide *;
      ValidParts();
      Parts();
      ItemsWrite(nodes, home, hash, mask, at, key, val);
      BodyChange(nodes, home, offset, Item(key, val));
      nodes := nodes[offset := nodes[offset].(body := Item(key, val))];
      ShapeSame(old(nodes), nodes, home, rank, top, numItems);
      ReadyIntro();
      ValidIntro();
    }

    twostate lemma SameLoad()
      requires |nodes| == old(|nodes|) && numItems == old(numItems) && maxLoadFactor == old(maxLoadFactor)
      ensures old(WithinLoad()) ==> WithinLoad()
    {
    }

    // ----- Iterating -----

    /** `it` is the first node behind x that holds an item, 0 if there is none. */
    ghost predicate NextAfter(x: nat, it: nat)
      reads this
    {
      && (it == 0 || (x < it < |nodes| && nodes[it].tag != Empty))
      && forall k :: k in at && at[k] > x ==> it != 0 && it <= at[k]
    }

    method NextOffset(x: nat) returns (it: nat)
      requires Valid() && x < |nodes|
      ensures NextAfter(x, it)
    {
      hide *;
      it := ProbeOffset(x);
      while it != 0 && nodes[it].tag == Empty
        invariant it < |nodes| && (it != 0 ==> x < it)
        invariant forall i :: x < i < (if it == 0 then |nodes| else it) ==> nodes[i].tag == Empty
        decreases if it == 0 then 0 else |nodes| - it
      {
        it := ProbeOffset(it);
      }
      NextAfterEmpties(x, it);
    }

    lemma NextAfterEmpties(x: nat, it: nat)
      requires Valid() && (it == 0 || (x < it < |nodes| && nodes[it].tag != Empty))
      requires forall i :: x < i < (if it == 0 then |nodes| else it) ==> nodes[i].tag == Empty
      ensures NextAfter(x, it)
    {
      forall k | k in at
        ensures 0 < at[k] < |nodes| && nodes[at[k]].tag != Empty
      {
        KeyAt(k);
      }
      hide Ready, AllIn;
    }

    /** Erases the item an iterator stands at; returns the iterator to go on with. */
    method EraseAt(offset: nat) returns (it: nat)
      requires Valid() && 0 < offset < |nodes| && nodes[offset].tag != Empty
      modifies this`nodes, this`numItems, this`home, this`rank, this`top, this`at
      ensures Valid() && |nodes| == old(|nodes|) && numItems == old(numItems) - 1
      ensures old(nodes)[offset].body.Item?
      ensures Contents(nodes, at) == old(Contents(nodes, at)) - {old(nodes)[offset].body.key}
      ensures var k, next := old(nodes)[offset].body.key, old(nodes)[offset].link;
        if next == 0 then
          at == old(at) - {k} && NextAfter(offset, it)
        else
          && next < |nodes| && old(nodes)[next].body.Item?
          && at == Renamed(old(at), k, old(nodes)[next].body.key, offset)
          && if next < offset then NextAfter(offset, it) else it == offset && nodes[it].tag != Empty
    {
      hide *;
      it := offset;
      ItemAt(offset);
      var next := nodes[offset].link;
      if next != 0 {
        EraseShift(offset);
        if next < offset {
          it := NextOffset(it);
        }
      } else {
        it := NextOffset(it);
        ghost var s, at0 := nodes, at;
        NextAfterParts(offset, it);
        EraseLast(offset);
        NextAfterIntro(offset, it, at0);
      }
    }

    lemma NextAfterParts(x: nat, it: nat)
      requires NextAfter(x, it)
      ensures it == 0 || (x < it < |nodes| && nodes[it].tag != Empty)
      ensures forall k :: k in at && at[k] > x ==> it != 0 && it <= at[k]
    {
    }

    lemma NextAfterIntro(x: nat, it: nat, was: map<K, nat>)
      requires it == 0 || (x < it < |nodes| && nodes[it].tag != Empty)
      requires forall k :: k in was && was[k] > x ==> it != 0 && it <= was[k]
      requires forall k :: k in at ==> k in was && at[k] == was[k]
      ensures NextAfter(x, it)
    {
    }

    method EraseKey(key: K) returns (erased: bool)
      requires Valid()
      modifies this
      ensures Valid() && erased == (key in old(Model())) && Model() == old(Model()) - {key}
      ensures old(WithinLoad()) ==> WithinLoad()
    {
      hide *;
      ValidParts();
      ModelIs();
      ItemsPositive(key);
      var offset := InnerFind(key);
      erased := offset != 0;
      if erased {
        KeyAt(key);
        var it := EraseAt(offset);
        ValidParts();
        CappedParts(maxNumItems, maxLoadFactor, |nodes|);
        LoadKept();
        ModelIs();
      }
    }

    lemma KeyAt(key: K)
      requires Valid() && key in at
      ensures 0 < at[key] < |nodes| && nodes[at[key]].tag != Empty && nodes[at[key]].body.Item?
      ensures nodes[at[key]].body.key == key
    {
      assert home[at[key]] != 0;
    }

    /**
     A loop over all items that erases some of them through the iterator and steps over the
     others; `choose(j)` says whether the j-th item it is offered is erased.  Every item that
     was there is offered exactly once, although an erased slot may receive an item from
     further on or from further back.
     */
    method Sweep(choose: nat -> bool) returns (offered: seq<(K, V)>)
      requires Valid()
      modifies this
      ensures Valid() && Lists(offered, old(Model()))
      ensures forall j :: 0 <= j < |offered| ==> (offered[j].0 in Model() <==> !choose(j))
      ensures forall k :: k in Model() ==> k in old(Model()) && Model()[k] == old(Model())[k]
    {
      hide *;
      ModelIs();
      ghost var m0 := Contents(nodes, at);
      offered := [];
      ValidParts();
      ReadySize();
      var it: nat := NextOffset(0);
      NextAfterParts(0, it);
      SweptStart(m0, at, it, choose);
      while it != 0
        invariant Valid() && it < |nodes| && (it != 0 ==> nodes[it].tag != Empty)
        invariant Swept(offered, m0, Contents(nodes, at), at, it, choose)
        decreases |m0| - |offered|
      {
        ghost var at0, c0, x, seen := at, Contents(nodes, at), it, offered;
        ItemAt(it);
        ValueAt(it);
        OnlyAt(it);
        var key, val := nodes[it].body.key, nodes[it].body.val;
        SweptBound(offered, m0, c0, at, it, choose, key);
        ValidParts();
        if choose(|offered|) {
          ghost var next := nodes[it].link;
          if next != 0 { MovedKey(it); }
          ghost var moved := if next == 0 then key else nodes[next].body.key;
          it := EraseAt(it);
          if next == 0 || next < x { NextAfterParts(x, it); }
          SweptErase(seen, m0, c0, at0, at, x, it, choose, key, next, moved);
        } else {
          it := NextOffset(it);
          NextAfterParts(x, it);
          SweptSkip(seen, m0, c0, at, x, it, choose, key);
        }
        offered := offered + [(key, val)];
      }
      SweptEnd(offered, m0, Contents(nodes, at), at, choose);
      ModelIs();
    }

    lemma ValueAt(i: nat)
      requires Valid() && 0 < i < |nodes| && nodes[i].tag != Empty
      ensures nodes[i].body.Item? && nodes[i].body.key in Contents(nodes, at)
      ensures Contents(nodes, at)[nodes[i].body.key] == nodes[i].body.val
    {
      ItemAt(i);
    }

    lemma OnlyAt(i: nat)
      requires Valid() && 0 < i < |nodes| && nodes[i].tag != Empty
      ensures nodes[i].body.Item? && forall k :: k in at && at[k] == i ==> k == nodes[i].body.key
    {
      ItemAt(i);
    }

    lemma MovedKey(i: nat)
      requires Valid() && 0 < i < |nodes| && nodes[i].tag != Empty && nodes[i].link != 0
      ensures nodes[i].link < |nodes| && nodes[nodes[i].link].body.Item?
      ensures nodes[nodes[i].link].body.key in at && at[nodes[nodes[i].link].body.key] == nodes[i].link != i
    {
      NextIn(i);
      ItemAt(nodes[i].link);
    }

    /** max_load_factor is the one call that may leave more items than the load factor allows. */
    predicate SetsLoad(op: Op<K, V, Tuning>) {
      op.Tune? && op.t.LoadFactor?
    }

    /** Any run of calls is answered as a finite map answers it. */
    method Execute(ops: seq<Op<K, V, Tuning>>, zero: V) returns (seen: seq<Seen<V>>)
      requires Valid()
      modifies this
      ensures Valid() && |seen| == |ops| && Answers(old(Model()), ops, seen)
      ensures Model() == State(old(Model()), ops, |ops|)
      ensures old(WithinLoad()) && (forall i :: 0 <= i < |ops| ==> !SetsLoad(ops[i])) ==> WithinLoad()
    {
      hide Valid, Model, Answers, State, Answer, After, WithinLoad;
      seen := [];
      ghost var m0 := Model();
      RunStart(m0, ops);
      var i := 0;
      while i < |ops|
        invariant 0 <= i <= |ops| && Valid() && |seen| == i
        invariant Model() == State(m0, ops, i) && Answers(m0, ops, seen)
        invariant old(WithinLoad()) && (forall k :: 0 <= k < |ops| ==> !SetsLoad(ops[k])) ==> WithinLoad()
      {
        var r := Call(ops[i], zero);
        RunStep(m0, ops, seen, r);
        seen := seen + [r];
        i := i + 1;
      }
    }

    method Call(op: Op<K, V, Tuning>, zero: V) returns (r: Seen<V>)
      requires Valid()
      modifies this
      ensures Valid() && r == Answer(old(Model()), op) && Model() == After(old(Model()), op)
      ensures old(WithinLoad()) && !SetsLoad(op) ==> WithinLoad()
    {
      hide Valid, Model, WithinLoad;
      match op
      case Find(k) =>
        var v := Find(k);
        r := Found(v);
      case Insert(k, v) =>
        var b := Emplace(k, v);
        r := Changed(b);
      case Assign(k, v) =>
        var f := Find(k);
        Put(k, zero, v);
        r := Changed(f == None);
      case Erase(k) =>
        var b := EraseKey(k);
        r := Changed(b);
      case Clear =>
        Clear();
        ModelIs();
        r := Changed(false);
      case Tune(t) =>
        Tune(t);
        r := Changed(false);
    }

    /** The calls that change the pool, or when it grows, but not the map. */
    method Tune(t: Tuning)
      requires Valid()
      modifies this
      ensures Valid() && Model() == old(Model())
      ensures t.RehashTo? || (t.ReserveFor? && old(WithinLoad())) ==> WithinLoad()
    {
      hide *;
      ModelIs();
      match t {
        case ReserveFor(n) => Reserve(n);
        case RehashTo(n) =>
          Resize(n);
          ValidParts();
          Parts();
          LoadIntro();
        case LoadFactor(factor) => ChangeLoadFactor(factor);
      }
      ModelIs();
    }

    /** max_load_factor on a pool in use. */
    method ChangeLoadFactor(factor: real)
      requires Valid()
      modifies this`maxLoadFactor, this`maxNumItems
      ensures Valid() && maxLoadFactor == Clamp(factor)
      ensures Contents(nodes, at) == old(Contents(nodes, at))
    {
      hide *;
      ValidParts();
      Parts();
      SetMaxLoadFactor(factor);
      ReadyIntro();
      ValidIntro();
    }

    // ----- Where things are -----

    /** Every stored item is on the chain that starts at its head slot, and met once in walking it. */
    lemma Placement(key: K)
      requires Valid() && key in Model()
      ensures Chains(nodes, home, rank, top) && In(home, HeadOf(hash, mask, key))
      ensures nodes[HeadOf(hash, mask, key)].tag == Head
      ensures var w := Walk(nodes, home, rank, top, HeadOf(hash, mask, key));
        exists q :: 0 <= q < |w| && w[q] < |nodes| && nodes[w[q]].body == Item(key, Model()[key])
          && forall p :: 0 <= p < |w| && p != q ==> w[p] != w[q]
    {
      hide *;
      ValidParts();
      Parts();
      StoredAt(key);
      var x, h := at[key], HeadOf(hash, mask, key);
      var w := Walk(nodes, home, rank, top, h);
      ChainExact(nodes, home, rank, top, h);
      var q := MetOnce(w, x);
      assert w[q] < |nodes| && nodes[w[q]].body == Item(key, Model()[key]);
    }

    lemma StoredAt(key: K)
      requires Valid() && key in Model()
      ensures key in at && at[key] < |nodes| == |home| && nodes[at[key]].body == Item(key, Model()[key])
      ensures var h := HeadOf(hash, mask, key); In(home, at[key]) && home[at[key]] == h && In(home, h) && home[h] == h
      ensures nodes[HeadOf(hash, mask, key)].tag == Head
    {
      KeyAt(key);
      ItemAt(at[key]);
      TagAt(HeadOf(hash, mask, key));
      assert home[home[at[key]]] == home[at[key]];
    }

    /** The free list is exactly the EMPTY nodes; with the items it makes up the pool. */
    lemma FreeNodes()
      requires Valid()
      ensures Chains(nodes, home, rank, top) && In(home, 0)
      ensures var w := Walk(nodes, home, rank, top, 0);
        && (forall i: nat :: i in w <==> i < |nodes| && nodes[i].tag == Empty)
        && (forall i, j :: 0 <= i < j < |w| ==> w[i] != w[j])
        && BothWays(nodes, w)
        && |Model()| + (|w| - 1) == |nodes| - 1
    {
      hide *;
      ValidParts();
      Parts();
      FreeListExact(nodes, home, rank, top, numItems);
      ModelIs();
      SizeByKeys(Contents(nodes, at), at);
    }
  }

  lemma MetOnce(w: seq<nat>, x: nat) returns (q: nat)
    requires x in w && forall i, j :: 0 <= i < j < |w| ==> w[i] != w[j]
    ensures q < |w| && w[q] == x && forall p :: 0 <= p < |w| && p != q ==> w[p] != w[q]
  {
    q :| 0 <= q < |w| && w[q] == x;
  }

  /** Node x has been linked behind prev, and the other occupied nodes are as they were. */
  ghost predicate Relinked<K, V>(s: seq<Node<K, V>>, t: seq<Node<K, V>>, home: seq<nat>, prev: nat, x: nat) {
    && |t| == |s| == |home| && prev < |s| && x < |s|
    && (forall i :: 0 < i < |s| && i != prev && i != x && home[i] != 0 ==> t[i] == s[i])
    && t[prev] == s[prev].(link := x) && t[x].tag == Probe && t[x].link == 0
  }

  lemma RelinkedBodies<K, V>(s: seq<Node<K, V>>, t: seq<Node<K, V>>, home: seq<nat>, prev: nat, x: nat)
    requires Relinked(s, t, home, prev, x)
    ensures |t| == |s| == |home| && forall i :: 0 < i < |s| && i != x && home[i] != 0 ==> t[i].body == s[i].body
  {
  }

  lemma LinkFrame<K(!new), V>(s: seq<Node<K, V>>, s1: seq<Node<K, V>>, home: seq<nat>, rank: seq<nat>, top: nat,
                              num: int, hash: K -> nat, mask: nat, at: map<K, nat>, prev: nat, x: nat)
    requires |home| == |s| && Shape(s, home, rank, top, num) && Items(s, home, hash, mask, at, 0)
    requires 0 < x < |s| && home[x] == 0 && 0 < prev < |s| && 0 < home[prev] < |s| && s[prev].link == 0
    requires var h1 := home[x := |s|];
      |s1| == |s| && Chains(s1, h1, rank, top) && Backs(s1, h1) && Untouched(s, s1, home, {x})
    requires s1[x].tag == Probe && s1[x].link == 0
    ensures var t := s1[prev := s1[prev].(link := x)];
      && Shape(t, home[x := home[prev]], rank[x := rank[prev] + 1], top + 1, num + 1)
      && Items(t, home[x := home[prev]], hash, mask, at, x) && Contents(t, at) == Contents(s, at)
      && Relinked(s, t, home, prev, x)
  {
    var t := s1[prev := s1[prev].(link := x)];
    assert Relinked(s, t, home, prev, x);
    hide *;
    StepLink(s, s1, home, rank, top, num, prev, x);
    ItemsHole(s, t, home, hash, mask, at, x, home[prev]);
  }

  /** The unsigned 64-bit distance back from a probed node to the node the search started at. */
  function Distance(start: nat, probe: nat, nodeSize: nat): int {
    (start * nodeSize - probe * nodeSize) % TWO64
  }

  lemma DistanceWraps(start: nat, nodeSize: nat)
    requires 16 <= nodeSize <= 0x1_0000_0000
    ensures Distance(start, start + 1, nodeSize) == TWO64 - nodeSize && Distance(start, start, nodeSize) == 0
  {
    assert start * nodeSize - (start + 1) * nodeSize == 0 - nodeSize;
  }

  /** The item at x is destroyed and the item at y takes its place. */
  lemma StepShift<K(!new), V>(s: seq<Node<K, V>>, home: seq<nat>, rank: seq<nat>, top: nat, num: int,
                              hash: K -> nat, mask: nat, at: map<K, nat>, x: nat, y: nat)
    requires |home| == |s| && Shape(s, home, rank, top, num) && Items(s, home, hash, mask, at, 0)
    requires 0 < x < |s| && 0 < y < |s| && x != y && home[x] != 0 && home[y] == home[x]
    ensures s[x].body.Item? && s[y].body.Item? && s[x].body.key in at
    ensures var t, at' := s[x := s[x].(body := s[y].body)], Renamed(at, s[x].body.key, s[y].body.key, x);
      && Shape(t, home, rank, top, num) && Items(t, home, hash, mask, at', y) && |at'| == |at| - 1
      && Contents(t, at') == Contents(s, at) - {s[x].body.key}
      && forall i :: 0 <= i < |t| ==> t[i].tag == s[i].tag && t[i].link == s[i].link
  {
    hide Shape, Items, Contents, SameShape, HeadOf;
    ItemsPierce(s, home, hash, mask, at, x);
    var at1 := at - {s[x].body.key};
    ItemsMove(s, home, hash, mask, at1, x, y);
    SameKeysSize(at1[s[y].body.key := x], at1);
    BodyChange(s, home, x, s[y].body);
    ShapeSame(s, s[x := s[x].(body := s[y].body)], home, rank, top, num);
  }

  /** The item at y moves to the hole x, and y is the hole. */
  lemma StepGive<K(!new), V>(s: seq<Node<K, V>>, home: seq<nat>, rank: seq<nat>, top: nat, num: int,
                             hash: K -> nat, mask: nat, at: map<K, nat>, x: nat, y: nat)
    requires |home| == |s| && Shape(s, home, rank, top, num) && Items(s, home, hash, mask, at, x)
    requires 0 < x < |s| && 0 < y < |s| && x != y && home[x] != 0 && home[y] == |s|
    requires s[y].body.Item? && HeadOf(hash, mask, s[y].body.key) == home[x]
    ensures var t, at' := s[x := s[x].(body := s[y].body)], at[s[y].body.key := x];
      && Chains(t, home, rank, top) && Backs(t, home) && Tags(t, home, |t|) && num == Count(home, |t|)
      && Items(t, home, hash, mask, at', y) && |at'| == |at| && Contents(t, at') == Contents(s, at)
      && forall i :: 0 <= i < |s| && i != x ==> t[i] == s[i]
  {
    hide *;
    var t := s[x := s[x].(body := s[y].body)];
    ItemsMove(s, home, hash, mask, at, x, y);
    SameKeysSize(at[s[y].body.key := x], at);
    BodyChange(s, home, x, s[y].body);
    ShapeSame(s, t, home, rank, top, num);
    ShapeTags(t, home, rank, top, num);
  }

  lemma SameKeysSize<K>(a: map<K, nat>, b: map<K, nat>)
    requires a.Keys == b.Keys
    ensures |a| == |b|
  {
    assert |a| == |a.Keys| && |b| == |b.Keys|;
  }

  lemma AllInUpdate(home: seq<nat>, x: nat, v: nat)
    requires AllIn(home) && x < |home| && v < |home|
    ensures AllIn(home[x := v])
  {
  }

  lemma ShapeTags<K, V>(s: seq<Node<K, V>>, home: seq<nat>, rank: seq<nat>, top: nat, num: int)
    requires Shape(s, home, rank, top, num)
    ensures |home| == |s| && Tags(s, home, |s|) && Chains(s, home, rank, top) && Backs(s, home)
    ensures num == Count(home, |s|)
  {
  }

  lemma BodyChange<K, V>(s: seq<Node<K, V>>, home: seq<nat>, x: nat, b: Body<K, V>)
    requires |home| == |s| && x < |s| && home[x] != 0
    ensures SameShape(s, s[x := s[x].(body := b)], home)
  {
  }

  /** What the first pass of rehashing has done to the nodes below `done`. */
  ghost predicate Marked<K, V>(s: seq<Node<K, V>>, t: seq<Node<K, V>>, was: seq<nat>, home: seq<nat>, done: nat)
    requires |t| == |s| == |was| == |home|
  {
    && |s| > 0 && home[0] == 0 && t[0].tag == Empty
    && (forall i :: 0 < i < |s| ==> (s[i].tag == Empty <==> was[i] == 0))
    && (forall i :: 0 < i < |s| && was[i] != 0 ==> t[i].body == s[i].body)
    && (forall i :: 0 < i < |s| && i < done ==>
          home[i] == (if was[i] == 0 then 0 else |s|) && t[i].tag == if was[i] == 0 then Empty else Rehash)
    && (forall i :: done <= i < |s| && 0 < i ==> home[i] == |s| && t[i].tag == s[i].tag)
  }

  lemma MarkedAt<K, V>(s: seq<Node<K, V>>, t: seq<Node<K, V>>, was: seq<nat>, home: seq<nat>, x: nat)
    requires |t| == |s| == |was| == |home| && 0 < x < |s| && Marked(s, t, was, home, x)
    ensures home[x] == |s|
  {
  }

  lemma MarkedStep<K, V>(s: seq<Node<K, V>>, t: seq<Node<K, V>>, u: seq<Node<K, V>>, was: seq<nat>, home: seq<nat>,
                         h: seq<nat>, x: nat)
    requires |t| == |s| == |was| == |home| == |h| && |u| == |s| && 0 < x < |s| && Marked(s, t, was, home, x)
    requires if t[x].tag == Empty
      then h == home[x := 0] && Untouched(t, u, home, {x}) && u[x].tag == Empty
      else h == home && u == t[x := t[x].(tag := Rehash)]
    ensures Marked(s, u, was, h, x + 1)
  {
  }

  lemma MarkedAll<K, V>(s: seq<Node<K, V>>, t: seq<Node<K, V>>, was: seq<nat>, home: seq<nat>)
    requires |t| == |s| == |was| == |home| && Marked(s, t, was, home, |s|)
    ensures Tags(t, home, |t|) && SameBodies(s, t, was, {})
    ensures forall i :: 0 < i < |s| ==> home[i] == if was[i] == 0 then 0 else |s|
  {
  }

  lemma MarkChains<K, V>(s: seq<Node<K, V>>, home: seq<nat>, rank: seq<nat>, top: nat, x: nat)
    requires Chains(s, home, rank, top) && Backs(s, home) && 0 < x < |s| && home[x] == |s|
    ensures var t := s[x := s[x].(tag := Rehash)]; Chains(t, home, rank, top) && Backs(t, home)
  {
    var t := s[x := s[x].(tag := Rehash)];
    ChainsSame(s, t, home, rank, top);
    BacksSame(s, t, home, x, home[x]);
    assert home[x := home[x]] == home;
  }

  lemma ShapeIntro<K, V>(s: seq<Node<K, V>>, home: seq<nat>, rank: seq<nat>, top: nat, num: int)
    requires |home| == |s| && Chains(s, home, rank, top) && Backs(s, home) && Tags(s, home, |s|)
    requires num == Count(home, |s|)
    ensures Shape(s, home, rank, top, num)
  {
  }

  lemma MarkedStart<K, V>(s: seq<Node<K, V>>, was: seq<nat>, home: seq<nat>)
    requires |s| == |was| == |home| && |s| > 0 && home[0] == 0 && forall i :: 0 < i < |s| ==> home[i] == |s|
    requires forall i :: 0 < i < |s| ==> (s[i].tag == Empty <==> was[i] == 0)
    ensures Marked(s, s[0 := Node(Empty, 0, Prev(0))], was, home, 1)
  {
  }

  lemma FitsFacts(n: nat, mask: nat, nodeSize: nat)
    requires Fits(n, mask, nodeSize)
    ensures 2 <= n && mask + 1 < n
  {
  }

  /** The nodes below `done` are free; the others are on no chain. */
  ghost predicate Cleared<K, V>(s: seq<Node<K, V>>, home: seq<nat>, done: nat)
    requires |home| == |s|
  {
    && |s| > 0 && home[0] == 0 && s[0].tag == Empty
    && (forall i :: 0 < i < |s| && i < done ==> home[i] == 0 && s[i].tag == Empty)
    && (forall i :: done <= i < |s| && 0 < i ==> home[i] == |s|)
  }

  lemma ClearedStart<K, V>(s: seq<Node<K, V>>, home: seq<nat>)
    requires |s| == |home| && |s| > 0 && home[0] == 0 && s[0].tag == Empty && forall i :: 0 < i < |s| ==> home[i] == |s|
    ensures Cleared(s, home, 1) && Count(home, |s|) == |s| - 1
  {
    CountBeyond(home, 1, |s|);
  }

  lemma ClearedAt<K, V>(s: seq<Node<K, V>>, home: seq<nat>, x: nat)
    requires |home| == |s| && 0 < x < |s| && Cleared(s, home, x)
    ensures home[x] == |s|
  {
  }

  lemma ClearedStep<K, V>(s: seq<Node<K, V>>, t: seq<Node<K, V>>, home: seq<nat>, x: nat)
    requires |home| == |s| && 0 < x < |s| && Cleared(s, home, x)
    requires Untouched(s, t, home, {x}) && t[x].tag == Empty
    ensures |t| == |s| && Cleared(t, home[x := 0], x + 1)
  {
  }

  lemma ClearedAll<K(!new), V>(s: seq<Node<K, V>>, home: seq<nat>, hash: K -> nat, mask: nat, at: map<K, nat>)
    requires |home| == |s| && Cleared(s, home, |s|) && at == map[]
    ensures Tags(s, home, |s|) && AllIn(home) && Items(s, home, hash, mask, at, 0) && Count(home, |s|) == 0
    ensures forall i :: 0 <= i < |s| ==> s[i].tag == Empty
  {
    CountBeyond(home, 1, |s|);
  }

  lemma SwapOrder<K, V>(s: seq<Node<K, V>>, x: nat, y: nat)
    requires x < |s| && y < |s| && x != y
    ensures var s1 := s[x := s[x].(body := s[y].body)];
      s1[y := s1[y].(body := s[x].body)] == Swapped(s, x, y)
  {
  }

  lemma SwapFacts<K, V>(s: seq<Node<K, V>>, x: nat, y: nat)
    requires x < |s| && y < |s| && x != y
    ensures var t := Swapped(s, x, y);
      && |t| == |s| && t[x].body == s[y].body && t[y].body == s[x].body
      && forall i :: 0 <= i < |s| && i != x && i != y ==> t[i] == s[i]
  {
  }

  /** Node x, just taken from the free list (s1), becomes a head without an item. */
  lemma HeadFrame<K(!new), V>(s: seq<Node<K, V>>, s1: seq<Node<K, V>>, home: seq<nat>, rank: seq<nat>, top: nat,
                              num: int, hash: K -> nat, mask: nat, at: map<K, nat>, x: nat)
    requires |home| == |s| && Shape(s, home, rank, top, num) && Items(s, home, hash, mask, at, 0)
    requires 0 < x < |s| && home[x] == 0
    requires var h1 := home[x := |s|];
      |s1| == |s| && Chains(s1, h1, rank, top) && Backs(s1, h1) && Untouched(s, s1, home, {x})
    ensures var t := s1[x := s1[x].(tag := Head, link := 0)];
      && Shape(t, home[x := x], rank[x := 0], top, num + 1)
      && Items(t, home[x := x], hash, mask, at, x) && Contents(t, at) == Contents(s, at)
      && forall i :: 0 < i < |s| && i != x && home[i] != 0 ==> t[i] == s[i]
  {
    var t := s1[x := s1[x].(tag := Head, link := 0)];
    assert forall i :: 0 < i < |s| && i != x && home[i] != 0 ==> t[i] == s[i];
    hide *;
    StepHead(s, s1, home, rank, top, num, x);
    ItemsHole(s, t, home, hash, mask, at, x, x);
  }

  /** The marked node x, with an item of this chain, is linked behind its last node. */
  lemma AdoptFrame<K(!new), V>(s: seq<Node<K, V>>, home: seq<nat>, rank: seq<nat>, top: nat, num: int,
                               hash: K -> nat, mask: nat, at: map<K, nat>, prev: nat, x: nat)
    requires |home| == |s| && Shape(s, home, rank, top, num) && Items(s, home, hash, mask, at, 0)
    requires 0 < x < |s| && home[x] >= |s| && 0 < prev < |s| && 0 < home[prev] < |s| && s[prev].link == 0 && x != prev
    requires s[x].body.Item? && home[prev] == HeadOf(hash, mask, s[x].body.key)
    ensures var t := s[x := s[x].(tag := Probe, link := 0)][prev := s[prev].(link := x)];
      && Shape(t, home[x := home[prev]], rank[x := rank[prev] + 1], top + 1, num)
      && Items(t, home[x := home[prev]], hash, mask, at, 0) && Contents(t, at) == Contents(s, at)
      && forall i :: 0 < i < |s| ==> t[i].body == s[i].body
  {
    hide *;
    var t := s[x := s[x].(tag := Probe, link := 0)][prev := s[prev].(link := x)];
    StepAdopt(s, home, rank, top, num, prev, x);
    ItemsClaim(s, t, home, hash, mask, at, x, home[prev]);
  }

  lemma OutAlready(home: seq<nat>, x: nat)
    requires x < |home| && home[x] == |home|
    ensures home[x := |home|] == home
  {
  }

  lemma KeptAfterFreeing<K, V>(s: seq<Node<K, V>>, t: seq<Node<K, V>>, home: seq<nat>, x: nat)
    requires |home| == |s| && Untouched(s, t, home, {x})
    ensures |t| == |s| && forall i :: 0 < i < |s| && i != x && home[i] != 0 ==> t[i] == s[i]
  {
  }

  /** Every node is free, a head, or waiting. */
  ghost predicate Flat(home: seq<nat>) {
    forall i {:trigger home[i]} :: 0 < i < |home| ==> home[i] == 0 || home[i] == i || home[i] == |home|
  }

  lemma FlatAt(home: seq<nat>, i: nat)
    requires Flat(home) && 0 < i < |home|
    ensures home[i] == 0 || home[i] == i || home[i] == |home|
  {
  }

  /** The head slot of every item waiting below `done` is a head. */
  ghost predicate HeadsSet<K, V>(s: seq<Node<K, V>>, home: seq<nat>, hash: K -> nat, mask: nat, done: nat)
    requires |home| == |s|
  {
    forall i {:trigger s[i].body} :: 0 < i < |s| && i < done && home[i] >= |s| ==>
      && s[i].body.Item? && HeadOf(hash, mask, s[i].body.key) < |s|
      && home[HeadOf(hash, mask, s[i].body.key)] == HeadOf(hash, mask, s[i].body.key)
  }

  lemma HeadsStart<K, V>(s: seq<Node<K, V>>, home: seq<nat>, hash: K -> nat, mask: nat)
    requires |home| == |s|
    ensures HeadsSet(s, home, hash, mask, 1)
  {
  }

  lemma HeadsAt<K, V>(s: seq<Node<K, V>>, home: seq<nat>, hash: K -> nat, mask: nat, i: nat)
    requires |home| == |s| && HeadsSet(s, home, hash, mask, |s|) && 0 < i < |s| && home[i] >= |s|
    ensures s[i].body.Item? && HeadOf(hash, mask, s[i].body.key) < |s|
    ensures home[HeadOf(hash, mask, s[i].body.key)] == HeadOf(hash, mask, s[i].body.key) > 0
  {
    assert s[i].body.Item?;
  }

  lemma HeadsSkip<K, V>(s: seq<Node<K, V>>, home: seq<nat>, hash: K -> nat, mask: nat, x: nat)
    requires |home| == |s| && HeadsSet(s, home, hash, mask, x) && 0 < x < |s| && Flat(home)
    requires home[x] < |s|
      || (s[x].body.Item? && var h := HeadOf(hash, mask, s[x].body.key); h < |s| && 0 < home[h] < |s|)
    ensures HeadsSet(s, home, hash, mask, x + 1)
  {
  }

  lemma HeadsAfterClaim<K, V>(s: seq<Node<K, V>>, t: seq<Node<K, V>>, home: seq<nat>, hash: K -> nat, mask: nat, x: nat,
                              p: nat)
    requires |t| == |s| == |home| && HeadsSet(s, home, hash, mask, x) && Flat(home)
    requires 0 < x < |s| && 0 < p < |s| && home[x] == |s| && home[p] == |s|
    requires forall i :: 0 < i < |s| && i != p && i != x ==> t[i] == s[i]
    ensures Flat(home[p := p]) && |Outs(home[p := p])| < |Outs(home)|
    ensures HeadsSet(t, home[p := p], hash, mask, if p == x then x + 1 else x)
  {
    OutsShrink(home, home[p := p], p);
  }

  lemma HeadsAfterMove<K, V>(s: seq<Node<K, V>>, t: seq<Node<K, V>>, home: seq<nat>, hash: K -> nat, mask: nat, x: nat,
                             p: nat)
    requires |t| == |s| == |home| && HeadsSet(s, home, hash, mask, x) && Flat(home)
    requires 0 < x < |s| && 0 < p < |s| && home[x] == |s| && home[p] == 0
    requires forall i :: 0 < i < |s| && i != p && i != x && home[i] != 0 ==> t[i] == s[i]
    ensures var h := home[p := p][x := 0];
      Flat(h) && |Outs(h)| < |Outs(home)| && HeadsSet(t, h, hash, mask, x + 1)
  {
    OutsShrink(home, home[p := p][x := 0], x);
  }

  /** A node that has changed its home is on a chain. */
  ghost predicate Settles(h: seq<nat>, h': seq<nat>) {
    |h'| == |h| && forall i :: 0 <= i < |h| ==> h'[i] == h[i] || h'[i] < |h|
  }

  /** Every node before k is on a chain; the others are, or are marked. */
  ghost predicate SettledTo(home: seq<nat>, k: nat) {
    && k <= |home| && (forall i :: 0 <= i < |home| ==> home[i] <= |home|)
    && forall i :: 0 <= i < k ==> home[i] < |home|
  }

  lemma SettlesIn(home: seq<nat>, p: nat, v: nat, x: nat, w: nat)
    requires p < |home| && v < |home| && x < |home| && w < |home|
    ensures Settles(home, home[p := v][x := w]) && (p == x && v == w ==> home[p := v][x := w] == home[p := v])
  {
  }

  lemma SettledStart(home: seq<nat>)
    requires home != [] && home[0] == 0 && forall i :: 0 <= i < |home| ==> home[i] <= |home|
    ensures SettledTo(home, 1)
  {
  }

  lemma SettledAt(home: seq<nat>, k: nat)
    requires SettledTo(home, k) && k < |home|
    ensures home[k] <= |home|
  {
  }

  lemma SettledStep(h: seq<nat>, h': seq<nat>, k: nat)
    requires SettledTo(h, k) && Settles(h, h')
    ensures SettledTo(h', k)
  {
  }

  lemma SettledNext(home: seq<nat>, k: nat)
    requires SettledTo(home, k) && k < |home| && home[k] < |home|
    ensures SettledTo(home, k + 1)
  {
  }

  lemma SettledAll(home: seq<nat>)
    requires SettledTo(home, |home|)
    ensures AllIn(home)
  {
  }

  lemma HeadsAfterAdopt<K, V>(s: seq<Node<K, V>>, t: seq<Node<K, V>>, home: seq<nat>, hash: K -> nat, mask: nat, x: nat,
                              p: nat, v: nat)
    requires |t| == |s| == |home| && HeadsSet(s, home, hash, mask, |s|)
    requires 0 < x < |s| && 0 < p < |s| && 0 < v < |s| && home[x] >= |s| && home[p] >= |s|
    requires p != x ==> t[x].body == s[p].body
    requires forall i :: 0 < i < |s| && i != p && i != x ==> t[i].body == s[i].body
    ensures |Outs(home[p := v])| < |Outs(home)| && HeadsSet(t, home[p := v], hash, mask, |s|)
  {
    OutsShrink(home, home[p := v], p);
    forall i | 0 < i < |s| && home[p := v][i] >= |s|
      ensures t[i].body.Item? && HeadOf(hash, mask, t[i].body.key) < |s|
      ensures home[p := v][HeadOf(hash, mask, t[i].body.key)] == HeadOf(hash, mask, t[i].body.key)
    {
      var j := if i == x then p else i;
      assert s[j].body.Item?;
    }
  }

  lemma HeadsAfterFill<K, V>(s: seq<Node<K, V>>, t: seq<Node<K, V>>, home: seq<nat>, hash: K -> nat, mask: nat, x: nat,
                             p: nat, v: nat)
    requires |t| == |s| == |home| && HeadsSet(s, home, hash, mask, |s|)
    requires 0 < x < |s| && 0 < p < |s| && 0 < v < |s| && home[x] >= |s| && home[p] == 0
    requires forall i :: 0 < i < |s| && i != p && i != x && home[i] != 0 ==> t[i].body == s[i].body
    ensures var h := home[p := v][x := 0]; |Outs(h)| < |Outs(home)| && HeadsSet(t, h, hash, mask, |s|)
  {
    var h := home[p := v][x := 0];
    OutsShrink(home, h, x);
    forall i | 0 < i < |s| && h[i] >= |s|
      ensures t[i].body.Item? && HeadOf(hash, mask, t[i].body.key) < |s|
      ensures h[HeadOf(hash, mask, t[i].body.key)] == HeadOf(hash, mask, t[i].body.key)
    {
      assert s[i].body.Item?;
    }
  }

  /** The mask is one less than the largest power of two that is at most n. */
  ghost predicate MaskFits(mask: nat, n: nat) {
    mask + 1 <= n < 2 * (mask + 1) && exists b: nat :: mask + 1 == Pow2(b)
  }

  function Clamp(factor: real): (f: real)
    ensures 0.1 <= f <= 1.0 && (0.1 <= factor <= 1.0 ==> f == factor)
    ensures (factor < 0.1 ==> f == 0.1) && (factor > 1.0 ==> f == 1.0)
  {
    if factor < 0.1 then 0.1 else if factor < 1.0 then factor else 1.0
  }

  /** A pool of n nodes, node 0 among them, may take m items without growing: no more than the load factor allows. */
  ghost predicate Capped(m: nat, f: real, n: nat) {
    0.1 <= f <= 1.0 && 1 <= n && m < n && !TooFew(n - 1, m, f)
  }

  lemma CappedParts(m: nat, f: real, n: nat)
    requires Capped(m, f, n)
    ensures 0.1 <= f <= 1.0 && m < n && !TooFew(n - 1, m, f)
  {
  }

  /** Fewer items fit as well, and items fit into more nodes. */
  lemma FewerFit(b: nat, items: nat, f: real, b': nat, items': nat)
    requires 0.1 <= f <= 1.0 && !TooFew(b, items, f) && b <= b' && items' <= items
    ensures !TooFew(b', items', f)
  {
    assert (b' - b) as real * f >= 0.0;
    assert b' as real * f == b as real * f + (b' - b) as real * f;
  }

  /** Rounding up from the quotient of items and load factor finds the least number that is enough. */
  lemma LeastEnough(low: nat, items: nat, f: real, n: nat)
    requires 0.1 <= f <= 1.0 && low >= 1 && n > low
    requires n >= Max(low, PerLoad(items, f)) && (n > Max(low, PerLoad(items, f)) ==> TooFew(n - 1, items, f))
    ensures TooFew(n - 1, items, f)
  {
    if n == PerLoad(items, f) {
      var q := items as real / f;
      assert n as real <= q;
      assert q * f == items as real;
      LoadScales(n as real, q, f);
      assert (n - 1) as real * f == n as real * f - f;
    }
  }

  lemma Below(num: nat, mask: nat)
    requires mask > 0 && num as real / mask as real < 1.8
    ensures num as real < 1.8 * mask as real
  {
    var q := num as real / mask as real;
    assert q * mask as real == num as real;
    assert (1.8 - q) * mask as real > 0.0;
  }

  lemma LoadScales(a: real, b: real, f: real)
    requires a <= b && f > 0.0
    ensures a * f <= b * f
  {
  }

  lemma ClampSame(factor: real)
    requires 0.1 <= factor <= 1.0
    ensures Clamp(factor) == factor
  {
  }

  /** How many of n nodes may hold items. */
  function ItemLimit(f: real, n: nat): (m: nat)
    requires 0.1 <= f <= 1.0
    ensures m <= n && m as real <= f * n as real < (m + 1) as real
  {
    ClampedProduct(f, n);
    var floor := (f * n as real).Floor;
    if floor < n then floor else n
  }

  lemma ClampedProduct(f: real, n: nat)
    requires 0.1 <= f <= 1.0
    ensures 0.0 <= f * n as real <= n as real
  {
  }

  lemma GrowFrame<K(!new), V>(s: seq<Node<K, V>>, t: seq<Node<K, V>>, home: seq<nat>, rank: seq<nat>, top: nat,
                              num: int, hash: K -> nat, mask: nat, at: map<K, nat>)
    requires |home| == |s| && Shape(s, home, rank, top, num) && AllIn(home) && 1 <= |s| && s <= t
    requires Items(s, home, hash, mask, at, 0) && forall i :: |s| <= i < |t| ==> t[i].tag == Empty
    ensures var was := home + seq(|t| - |home|, i => 0);
      && |was| == |t| && Count(was, |t|) == num
      && (forall i :: 0 < i < |t| ==> (t[i].tag == Empty <==> was[i] == 0))
      && Items(t, was, hash, mask, at, 0) && Contents(t, at) == Contents(s, at)
  {
    hide *;
    var more := t[|s|..];
    assert t == s + more;
    GrownFacts(s, more, home, rank, top, num);
    ItemsGrow(s, more, home, hash, mask, at);
  }

  lemma GrownFacts<K, V>(s: seq<Node<K, V>>, more: seq<Node<K, V>>, home: seq<nat>, rank: seq<nat>, top: nat, num: int)
    requires Shape(s, home, rank, top, num) && AllIn(home) && |s| >= 1
    requires forall i :: 0 <= i < |more| ==> more[i].tag == Empty
    ensures |home| == |s| && forall i :: 0 <= i < |s| ==> home[i] < |s|
    ensures var t, was := s + more, home + seq(|more|, i => 0);
      && |was| == |t| && Count(was, |t|) == num
      && forall i :: 0 < i < |t| ==> (t[i].tag == Empty <==> was[i] == 0)
  {
    var t, was := s + more, home + seq(|more|, i => 0);
    CountSame(home, was, |s|);
    CountBeyond(was, |s|, |t|);
    assert forall i :: 0 <= i < |s| ==> was[i] == home[i] && t[i] == s[i];
  }

  lemma FlatIntro(home: seq<nat>, was: seq<nat>)
    requires |was| == |home| && |home| > 0 && home[0] == 0
    requires forall i :: 0 < i < |home| ==> home[i] == if was[i] == 0 then 0 else |home|
    ensures Flat(home)
  {
  }

  lemma FlatBound(home: seq<nat>)
    requires Flat(home)
    ensures forall i :: 0 < i < |home| ==> home[i] <= |home|
  {
  }

  /** The queue holds the items of the nodes below n, in node order. */
  ghost predicate Drained<K, V>(queue: seq<(K, V)>, s: seq<Node<K, V>>, at: map<K, nat>, n: nat) {
    && (forall i :: 0 <= i < |queue| ==>
          queue[i].0 in at && at[queue[i].0] < |s| && at[queue[i].0] < n
          && s[at[queue[i].0]].body.Item? && s[at[queue[i].0]].body.val == queue[i].1)
    && (forall i, j :: 0 <= i < j < |queue| ==> queue[i].0 != queue[j].0)
    && (forall k :: k in at && at[k] < n ==> exists i :: 0 <= i < |queue| && queue[i].0 == k)
  }

  lemma DrainedStart<K, V>(s: seq<Node<K, V>>, home: seq<nat>, at: map<K, nat>)
    requires |home| == |s| && |s| >= 1
    ensures (forall k :: k in at ==> at[k] > 0) ==> Drained([], s, at, 1)
    ensures Count(home, 1) == 0
  {
  }

  lemma DrainedStep<K(!new), V>(queue: seq<(K, V)>, s: seq<Node<K, V>>, home: seq<nat>, hash: K -> nat, mask: nat,
                                at: map<K, nat>, x: nat)
    requires |home| == |s| && Items(s, home, hash, mask, at, 0) && 0 < x < |s| && Drained(queue, s, at, x)
    ensures home[x] == 0 ==> Drained(queue, s, at, x + 1) && Count(home, x + 1) == Count(home, x)
    ensures home[x] != 0 ==>
      && s[x].body.Item? && Count(home, x + 1) == Count(home, x) + 1
      && Drained(queue + [(s[x].body.key, s[x].body.val)], s, at, x + 1)
  {
    if home[x] != 0 {
      assert s[x].body.Item?;
      var q := queue + [(s[x].body.key, s[x].body.val)];
      forall k | k in at && at[k] < x + 1
        ensures exists i :: 0 <= i < |q| && q[i].0 == k
      {
        if at[k] < x {
          var i :| 0 <= i < |queue| && queue[i].0 == k;
          assert q[i].0 == k;
        } else {
          assert q[|queue|].0 == k;
        }
      }
    }
  }

  lemma DrainedAll<K(!new), V>(queue: seq<(K, V)>, s: seq<Node<K, V>>, home: seq<nat>, hash: K -> nat, mask: nat,
                               at: map<K, nat>)
    requires |home| == |s| && Items(s, home, hash, mask, at, 0) && Drained(queue, s, at, |s|)
    ensures Lists(queue, Contents(s, at))
  {
    assert forall k :: k in at ==> at[k] < |s|;
  }

  lemma ListsStart<K, V>(queue: seq<(K, V)>, s: seq<Node<K, V>>, at: map<K, nat>, m: map<K, V>)
    requires at == map[]
    ensures Lists(queue[..0], Contents(s, at))
  {
  }

  lemma MaxFacts(a: nat, b: nat)
    ensures Max(a, b) >= a && Max(a, b) >= b
  {
  }

  /** The number of items divided by the load factor, cut off. */
  function PerLoad(items: nat, f: real): nat
    requires 0.1 <= f <= 1.0
  {
    NotNegative(items, f);
    (items as real / f).Floor
  }

  lemma NotNegative(items: nat, f: real)
    requires 0.1 <= f <= 1.0
    ensures items as real / f >= 0.0
  {
  }

  /** Whether so many buckets are too few under the load factor. */
  predicate TooFew(buckets: nat, items: nat, f: real) {
    buckets as real * f < items as real
  }

  /** The loop of rehash and reserve: the first number from `buckets` on that is enough for the items. */
  method RoundUp(buckets: nat, items: nat, f: real) returns (n: nat)
    requires 0.1 <= f <= 1.0
    ensures n >= buckets && n >= items && !TooFew(n, items, f) && (n > buckets ==> TooFew(n - 1, items, f))
  {
    hide TooFew;
    n := buckets;
    while TooFew(n, items, f)
      invariant n >= buckets && (n > buckets ==> TooFew(n - 1, items, f))
      decreases 10 * items - n
    {
      EnoughBuckets(n, items, f);
      n := n + 1;
    }
    ItemsFit(n, items, f);
  }

  lemma EnoughBuckets(n: nat, k: nat, f: real)
    requires 0.1 <= f <= 1.0 && TooFew(n, k, f)
    ensures n < 10 * k
  {
    Tenth(n as real, f, n as real * f, k as real);
  }

  lemma Tenth(x: real, f: real, p: real, k: real)
    requires x >= 0.0 && f >= 0.1 && p == x * f && p < k
    ensures x < 10.0 * k
  {
    var t := 0.1;
    var q := x * t;
    Scales(x, t, f);
    assert q <= p;
    assert q < k;
  }

  lemma ItemsFit(n: nat, k: nat, f: real)
    requires 0.1 <= f <= 1.0 && !TooFew(n, k, f)
    ensures n >= k
  {
    Scales(n as real, f, 1.0);
  }

  lemma Scales(n: real, a: real, b: real)
    requires n >= 0.0 && a <= b
    ensures n * a <= n * b
  {
  }

  lemma SizeByKeys<K, V>(m: map<K, V>, at: map<K, nat>)
    requires m.Keys == at.Keys
    ensures |m| == |at|
  {
    assert |m| == |m.Keys| && |at| == |at.Keys|;
  }
}
