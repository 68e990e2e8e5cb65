/**
 The node pool of the coalesced hash table, as a value: tags, links, and the items stored in
 the nodes.

 A node is named by its index, its byte offset divided by the node size; index 0 is the free
 list's own node and never holds an item.  The word that the program stores as `next` carries
 a 2-bit tag and a link; here they are two fields.  The program lays the item over the `prev`
 word, so a node's body is either a `prev` link (free nodes) or an item, never both.
 */
module PoolNodes {
  import Bits

  datatype Tag = Empty | Probe | Head | Rehash

  datatype Body<K, V> = Prev(prev: nat) | Item(key: K, val: V)

  datatype Node<K, V> = Node(tag: Tag, link: nat, body: Body<K, V>)

  // ----- Chains -----

  /** Node i is on a chain; a node on no chain has a home outside the pool. */
  ghost predicate In(home: seq<nat>, i: int) {
    0 <= i < |home| && home[i] < |home|
  }

  ghost predicate Together(home: seq<nat>, i: int, j: int) {
    In(home, i) && In(home, j) && home[i] == home[j]
  }

  /**
   The chain structure.  `home[i]` is the first node of the chain that holds i; the free list
   is the chain whose home is node 0.  Along a chain the ranks strictly increase, no two nodes
   of a chain share a rank, and a link leads to the chain's next higher rank.  So the nodes
   with home h, listed by rank, are exactly what a walk along the links from h visits: chains
   are acyclic, disjoint, and cover all nodes that are on a chain.
   */
  ghost predicate Chains<K, V>(s: seq<Node<K, V>>, home: seq<nat>, rank: seq<nat>, top: nat) {
    && |home| == |s| && |rank| == |s|
    && Homes(home, rank, top)
    && Links(s, home, rank)
    && Ranks(home, rank)
    && Nexts(s, home, rank)
  }

  ghost predicate Homes(home: seq<nat>, rank: seq<nat>, top: nat)
    requires |rank| == |home|
  {
    forall i {:trigger home[i]} :: In(home, i) ==>
      rank[i] <= top && home[home[i]] == home[i] && rank[home[i]] <= rank[i]
  }

  /** A link stays in the chain and goes up in rank. */
  ghost predicate Links<K, V>(s: seq<Node<K, V>>, home: seq<nat>, rank: seq<nat>)
    requires |home| == |s| && |rank| == |s|
  {
    forall i {:trigger s[i].link} :: In(home, i) && s[i].link != 0 ==>
      Together(home, i, s[i].link) && rank[i] < rank[s[i].link]
  }

  ghost predicate Ranks(home: seq<nat>, rank: seq<nat>)
    requires |rank| == |home|
  {
    forall i, j {:trigger Together(home, i, j)} :: Together(home, i, j) && i != j ==> rank[i] != rank[j]
  }

  /** A link skips no node of the chain. */
  ghost predicate Nexts<K, V>(s: seq<Node<K, V>>, home: seq<nat>, rank: seq<nat>)
    requires |home| == |s| && |rank| == |s|
  {
    forall i, j {:trigger Together(home, i, j)} :: Together(home, i, j) && rank[i] < rank[j] ==>
      s[i].link != 0 && s[i].link < |s| && rank[s[i].link] <= rank[j]
  }

  /** Outside X, the nodes on chains keep their links. */
  ghost predicate SameLinks<K, V>(s: seq<Node<K, V>>, t: seq<Node<K, V>>, home: seq<nat>, X: set<nat>)
    requires |home| == |s|
  {
    |t| == |s| && forall i {:trigger t[i]} {:trigger s[i]} :: In(home, i) && i !in X ==> t[i].link == s[i].link
  }

  lemma ChainsSame<K, V>(s: seq<Node<K, V>>, t: seq<Node<K, V>>, home: seq<nat>, rank: seq<nat>, top: nat)
    requires Chains(s, home, rank, top) && SameLinks(s, t, home, {})
    ensures Chains(t, home, rank, top)
  {
    forall i | In(home, i) && t[i].link != 0
      ensures Together(home, i, t[i].link) && rank[i] < rank[t[i].link]
    {
      assert t[i].link == s[i].link;
    }
  }

  lemma AloneHomes(home: seq<nat>, rank: seq<nat>, top: nat, x: nat)
    requires |rank| == |home| && Homes(home, rank, top) && x < |home| && !In(home, x)
    ensures Homes(home[x := x], rank[x := 0], top)
    ensures forall i, j {:trigger Together(home[x := x], i, j)} ::
      Together(home[x := x], i, j) && i != j ==> Together(home, i, j) && i != x && j != x
  {
    var h := home[x := x];
    forall i | In(h, i) && i != x
      ensures In(home, i) && home[i] != x && home[home[i]] == home[i]
    {
      assert In(home, i);
    }
  }

  /** A node that is on no chain becomes a chain of its own. */
  lemma ChainsMakeHead<K, V>(s: seq<Node<K, V>>, t: seq<Node<K, V>>, home: seq<nat>, rank: seq<nat>, top: nat, x: nat)
    requires Chains(s, home, rank, top)
    requires x < |s| && !In(home, x)
    requires SameLinks(s, t, home, {x}) && t[x].link == 0
    ensures Chains(t, home[x := x], rank[x := 0], top)
  {
    var h, r := home[x := x], rank[x := 0];
    AloneHomes(home, rank, top, x);
    forall i | In(h, i) && t[i].link != 0
      ensures Together(h, i, t[i].link) && r[i] < r[t[i].link]
    {
      assert t[i].link == s[i].link;
    }
  }

  /** A node that is on no chain is appended behind the last node of a chain. */
  lemma ChainsAppend<K, V>(s: seq<Node<K, V>>, t: seq<Node<K, V>>, home: seq<nat>, rank: seq<nat>, top: nat, last: nat,
                           x: nat)
    requires Chains(s, home, rank, top)
    requires In(home, last) && s[last].link == 0
    requires 0 < x < |s| && !In(home, x)
    requires SameLinks(s, t, home, {last, x}) && t[last].link == x && t[x].link == 0
    ensures Chains(t, home[x := home[last]], rank[x := rank[last] + 1], top + 1)
  {
    var h, r := home[x := home[last]], rank[x := rank[last] + 1];
    assert Homes(h, r, top + 1) by {
      forall i | In(h, i)
        ensures h[i] != x && h[h[i]] == h[i] && r[h[i]] <= r[i] <= top + 1
      {
        var i' := if i == x then last else i;
        assert In(home, i') && home[home[i']] == home[i'];
      }
    }
    assert Links(t, h, r) by {
      forall i | In(h, i) && t[i].link != 0
        ensures Together(h, i, t[i].link) && r[i] < r[t[i].link]
      {
        if i != last { assert t[i].link == s[i].link && Together(home, i, s[i].link); }
      }
    }
    forall i, j | Together(h, i, j) && i != j
      ensures r[i] != r[j]
      ensures r[i] < r[j] ==> t[i].link != 0 && t[i].link < |t| && r[t[i].link] <= r[j]
    {
      AppendPair(s, t, home, rank, last, x, i, j);
    }
  }

  lemma AppendPair<K, V>(s: seq<Node<K, V>>, t: seq<Node<K, V>>, home: seq<nat>, rank: seq<nat>,
                         last: nat, x: nat, i: int, j: int)
    requires |home| == |s| && |rank| == |s| && Ranks(home, rank) && Nexts(s, home, rank) && Links(s, home, rank)
    requires In(home, last) && s[last].link == 0
    requires 0 < x < |s| && !In(home, x)
    requires SameLinks(s, t, home, {last, x}) && t[last].link == x && t[x].link == 0
    requires Together(home[x := home[last]], i, j) && i != j
    ensures var r := rank[x := rank[last] + 1];
      r[i] != r[j] && (r[i] < r[j] ==> t[i].link != 0 && t[i].link < |t| && r[t[i].link] <= r[j])
  {
    if i == x {
      assert Together(home, last, j);
    } else if j == x {
      assert Together(home, i, last) && Together(home, last, i);
    } else {
      assert Together(home, i, j);
    }
    if i != x && s[i].link != 0 { assert Together(home, i, s[i].link); }
  }

  /** The node x behind p is taken out of its chain. */
  lemma ChainsUnlink<K, V>(s: seq<Node<K, V>>, t: seq<Node<K, V>>, home: seq<nat>, rank: seq<nat>, top: nat, p: nat,
                           x: nat)
    requires Chains(s, home, rank, top)
    requires In(home, p) && s[p].link == x && x != 0
    requires SameLinks(s, t, home, {p, x}) && t[p].link == s[x].link
    ensures Together(home, p, x) && home[x] != x
    ensures Chains(t, home[x := |s|], rank, top)
  {
    var h := home[x := |s|];
    assert Together(home, p, x);
    assert home[x] != x;
    forall i, j | Together(h, i, j)
      ensures Together(home, i, j) && i != x && j != x
    {}
    assert Homes(h, rank, top) by {
      forall i | In(h, i)
        ensures h[i] != x && h[h[i]] == h[i]
      {
        assert In(home, i) && home[home[i]] == home[i];
      }
    }
    assert Links(t, h, rank) by {
      forall i | In(h, i) && t[i].link != 0
        ensures Together(h, i, t[i].link) && rank[i] < rank[t[i].link]
      {
        if i == p {
          assert Together(home, x, s[x].link);
        } else {
          assert t[i].link == s[i].link && Together(home, i, s[i].link);
          if s[i].link == x { assert Together(home, i, p) && Together(home, p, i); }
        }
      }
    }
    forall i, j | Together(h, i, j) && rank[i] < rank[j]
      ensures t[i].link != 0 && t[i].link < |t| && rank[t[i].link] <= rank[j]
    {
      if i == p {
        assert Together(home, x, j);
      } else {
        assert t[i].link == s[i].link;
      }
    }
  }

  /** A chain of one node disappears. */
  lemma ChainsDropHead<K, V>(s: seq<Node<K, V>>, t: seq<Node<K, V>>, home: seq<nat>, rank: seq<nat>, top: nat, x: nat)
    requires Chains(s, home, rank, top)
    requires In(home, x) && home[x] == x && s[x].link == 0
    requires SameLinks(s, t, home, {x})
    ensures Chains(t, home[x := |s|], rank, top)
  {
    var h := home[x := |s|];
    forall i | In(h, i)
      ensures In(home, i) && i != x && home[i] != x && h[home[i]] == home[i]
    {
      assert home[home[i]] == home[i];
      if home[i] == x { assert Together(home, x, i); }
    }
    forall i, j | Together(h, i, j)
      ensures Together(home, i, j) && i != x && j != x
    {}
    assert Homes(h, rank, top);
    forall i | In(h, i) && t[i].link != 0
      ensures Together(h, i, t[i].link) && rank[i] < rank[t[i].link]
    {
      assert t[i].link == s[i].link && Together(home, i, s[i].link);
    }
  }

  // ----- Tags and the free list -----

  /** Below n, the tag says what the node is: free, a head, further down a chain, or on none. */
  ghost predicate Tags<K, V>(s: seq<Node<K, V>>, home: seq<nat>, n: nat)
    requires n <= |s| == |home|
  {
    forall i {:trigger s[i].tag} {:trigger home[i]} :: 0 <= i < n ==>
      && (s[i].tag == Empty <==> home[i] == 0)
      && (s[i].tag == Head <==> home[i] == i && i != 0)
      && (s[i].tag == Rehash <==> home[i] >= |s|)
  }

  ghost predicate Free(home: seq<nat>, i: int) {
    0 <= i < |home| && home[i] == 0
  }

  /** The free list is circular and doubly linked. */
  ghost predicate Backs<K, V>(s: seq<Node<K, V>>, home: seq<nat>)
    requires |home| == |s|
  {
    && |s| > 0 && home[0] == 0
    && forall i {:trigger Free(home, i)} :: Free(home, i) ==>
         && s[i].body.Prev? && s[i].body.prev < |s| && home[s[i].body.prev] == 0 && s[s[i].body.prev].link == i
         && s[i].link < |s| && home[s[i].link] == 0 && s[s[i].link].body == Prev(i)
  }

  /** Taking node x out of the free list, as allocate_node does. */
  function Taken<K, V>(s: seq<Node<K, V>>, x: nat): (t: seq<Node<K, V>>)
    requires x < |s| && s[x].link < |s| && s[x].body.Prev? && s[x].body.prev < |s|
  {
    var next, prev := s[x].link, s[x].body.prev;
    var s1 := s[next := s[next].(body := Prev(prev))];
    var s2 := s1[prev := s1[prev].(link := next)];
    s2[x := s2[x].(tag := Probe, link := 0)]
  }

  /** Putting node x at the tail of the free list, as deallocate_node does. */
  function Freed<K, V>(s: seq<Node<K, V>>, x: nat): (t: seq<Node<K, V>>)
    requires x < |s| && |s| > 0 && s[0].body.Prev? && s[0].body.prev < |s|
  {
    var prev := s[0].body.prev;
    var s1 := s[x := Node(Empty, 0, Prev(prev))];
    var s2 := s1[0 := s1[0].(body := Prev(x))];
    s2[prev := s2[prev].(link := x)]
  }

  /** Nodes outside X that are not free are untouched; free nodes keep their tag. */
  ghost predicate Untouched<K, V>(s: seq<Node<K, V>>, t: seq<Node<K, V>>, home: seq<nat>, X: set<nat>)
    requires |home| == |s|
  {
    && |t| == |s|
    && forall i {:trigger t[i]} {:trigger s[i]} :: 0 <= i < |s| && i !in X ==>
         t[i].tag == s[i].tag && (home[i] != 0 ==> t[i] == s[i])
  }

  lemma TakenChains<K, V>(s: seq<Node<K, V>>, home: seq<nat>, rank: seq<nat>, top: nat, x: nat)
    requires Chains(s, home, rank, top) && Backs(s, home)
    requires x != 0 && Free(home, x)
    ensures s[x].link < |s| && s[x].body.Prev? && s[x].body.prev < |s|
    ensures var t, h := Taken(s, x), home[x := |s|];
      Chains(t, h, rank, top) && Backs(t, h) && Untouched(s, t, home, {x}) && t[x] == Node(Probe, 0, s[x].body)
  {
    var t, h, next, prev := Taken(s, x), home[x := |s|], s[x].link, s[x].body.prev;
    assert Free(home, prev) && Free(home, next);
    assert s[x].link == 0 || s[x].link != x by { assert Together(home, x, x); }
    assert prev != x && next != x;
    ChainsUnlink(s, t, home, rank, top, prev, x);
    TakenBacks(s, home, x);
  }

  lemma TakenBacks<K, V>(s: seq<Node<K, V>>, home: seq<nat>, x: nat)
    requires |home| == |s| && Backs(s, home)
    requires x != 0 && Free(home, x) && s[x].link != x && s[x].body.prev != x
    ensures Backs(Taken(s, x), home[x := |s|])
  {
    var t, h := Taken(s, x), home[x := |s|];
    forall i | Free(h, i)
      ensures t[i].body.Prev? && t[i].body.prev < |s| && h[t[i].body.prev] == 0 && t[t[i].body.prev].link == i
    {
      assert Free(home, i);
    }
    forall i | Free(h, i)
      ensures t[i].link < |s| && h[t[i].link] == 0 && t[t[i].link].body == Prev(i)
    {
      assert Free(home, i);
    }
  }

  lemma FreedChains<K, V>(s: seq<Node<K, V>>, home: seq<nat>, rank: seq<nat>, top: nat, x: nat)
    requires Chains(s, home, rank, top) && Backs(s, home)
    requires 0 < x < |s| && !In(home, x)
    ensures s[0].body.Prev? && s[0].body.prev < |s|
    ensures var t, h, r := Freed(s, x), home[x := 0], rank[x := rank[s[0].body.prev] + 1];
      Chains(t, h, r, top + 1) && Backs(t, h) && Untouched(s, t, home, {x}) && t[x].tag == Empty
  {
    assert Free(home, 0);
    var t, h, prev := Freed(s, x), home[x := 0], s[0].body.prev;
    ChainsAppend(s, t, home, rank, top, prev, x);
    assert Backs(t, h) by {
      forall i | Free(h, i)
        ensures t[i].body.Prev? && t[i].body.prev < |s| && h[t[i].body.prev] == 0 && t[t[i].body.prev].link == i
        ensures t[i].link < |s| && h[t[i].link] == 0 && t[t[i].link].body == Prev(i)
      {
        assert i != x ==> Free(home, i);
      }
    }
  }

  /** The free list does not notice changes to nodes that are not free. */
  lemma BacksSame<K, V>(s: seq<Node<K, V>>, t: seq<Node<K, V>>, home: seq<nat>, x: nat, v: nat)
    requires |home| == |s| && Backs(s, home)
    requires |t| == |s| && forall i :: 0 <= i < |s| && home[i] == 0 ==> t[i] == s[i]
    requires x < |s| && home[x] != 0 && v != 0
    ensures Backs(t, home[x := v])
  {
    var h := home[x := v];
    forall i | Free(h, i)
      ensures t[i].body.Prev? && t[i].body.prev < |s| && h[t[i].body.prev] == 0 && t[t[i].body.prev].link == i
      ensures t[i].link < |s| && h[t[i].link] == 0 && t[t[i].link].body == Prev(i)
    {
      assert Free(home, i) && t[i] == s[i];
      assert t[s[i].link] == s[s[i].link] && t[s[i].body.prev] == s[s[i].body.prev];
    }
  }

  /** The empty free list: only node 0, linked to itself; all other nodes are on no chain. */
  lemma StartChains<K, V>(s: seq<Node<K, V>>, home: seq<nat>, rank: seq<nat>)
    requires |s| > 0 && s[0].link == 0 && s[0].body == Prev(0)
    requires |home| == |s| && |rank| == |s| && home[0] == 0 && rank[0] == 0
    requires forall i :: 0 < i < |s| ==> home[i] == |s|
    ensures Chains(s, home, rank, 0) && Backs(s, home)
  {
    forall i | In(home, i)
      ensures i == 0
    {}
  }

  /** How many of the nodes 1 .. n-1 are not free. */
  function Count(home: seq<nat>, n: nat): (c: nat)
    requires n <= |home|
  {
    if n <= 1 then 0 else Count(home, n - 1) + if home[n - 1] == 0 then 0 else 1
  }

  lemma {:induction false} CountUpdate(home: seq<nat>, x: nat, v: nat, n: nat)
    requires 0 < x < |home| && n <= |home|
    ensures Count(home[x := v], n) ==
      Count(home, n) + if x >= n || (home[x] == 0 <==> v == 0) then 0 else if v == 0 then -1 else 1
  {
    if n > 1 { CountUpdate(home, x, v, n - 1); }
  }

  /** While some node is free, the free list is not empty, and its tail is a free node. */
  lemma {:induction false} FreeTail<K, V>(s: seq<Node<K, V>>, home: seq<nat>, rank: seq<nat>, top: nat, n: nat)
    requires Chains(s, home, rank, top) && Backs(s, home)
    requires 1 <= n <= |s| && Count(home, n) < n - 1
    ensures s[0].body.Prev? && s[0].body.prev != 0 && Free(home, s[0].body.prev)
  {
    assert Free(home, 0);
    if home[n - 1] == 0 {
      assert Together(home, 0, n - 1) && rank[0] < rank[n - 1];
      assert s[0].link != 0;
      assert s[s[0].body.prev].link == 0;
    } else {
      FreeTail(s, home, rank, top, n - 1);
    }
  }

  // ----- Items -----

  /** The head slot of a key: its hash under the mask, counted from node 1. */
  function HeadOf<K>(hash: K -> nat, mask: nat, k: K): (h: nat)
    ensures 0 < h <= mask + 1
  {
    Bits.And(hash(k), mask) + 1
  }

  /**
   `at` tells where each key lives: every node that is not free, except the hole, holds the
   item that `at` places there, and an item on a chain sits on the chain of its head slot.  A
   hole (0 for none) is a node that is linked already but whose item has not been moved in.
   */
  ghost predicate Items<K(!new), V>(s: seq<Node<K, V>>, home: seq<nat>, hash: K -> nat, mask: nat, at: map<K, nat>,
                                    hole: nat)
    requires |home| == |s|
  {
    && (forall i {:trigger s[i].body} :: 0 < i < |s| && home[i] != 0 && i != hole ==>
          s[i].body.Item? && s[i].body.key in at && at[s[i].body.key] == i
          && (In(home, i) ==> HeadOf(hash, mask, s[i].body.key) == home[i]))
    && (forall k {:trigger at[k]} :: k in at ==>
          0 < at[k] < |s| && at[k] != hole && home[at[k]] != 0 && s[at[k]].body.Item? && s[at[k]].body.key == k)
  }

  /** The key-to-value map that the pool stands for. */
  ghost function Contents<K, V>(s: seq<Node<K, V>>, at: map<K, nat>): map<K, V> {
    map k | k in at && at[k] < |s| && s[at[k]].body.Item? :: s[at[k]].body.val
  }

  lemma ContentsKeys<K(!new), V>(s: seq<Node<K, V>>, home: seq<nat>, hash: K -> nat, mask: nat, at: map<K, nat>,
                                 hole: nat)
    requires |home| == |s| && Items(s, home, hash, mask, at, hole)
    ensures Contents(s, at).Keys == at.Keys
  {
    assert forall k :: k in at ==> s[at[k]].body.Item?;
  }

  /** Bodies of the occupied nodes outside X are the same. */
  ghost predicate SameBodies<K, V>(s: seq<Node<K, V>>, t: seq<Node<K, V>>, home: seq<nat>, X: set<nat>)
    requires |home| == |s|
  {
    && |t| == |s|
    && forall i {:trigger t[i].body} {:trigger s[i].body} :: 0 < i < |s| && i !in X && home[i] != 0 ==>
        t[i].body == s[i].body
  }

  /** A free node has been linked: it is the hole, and nothing else has changed. */
  lemma ItemsHole<K(!new), V>(s: seq<Node<K, V>>, t: seq<Node<K, V>>, home: seq<nat>, hash: K -> nat, mask: nat,
                              at: map<K, nat>, x: nat, v: nat)
    requires |home| == |s| && Items(s, home, hash, mask, at, 0)
    requires 0 < x < |s| && home[x] == 0
    requires SameBodies(s, t, home, {x})
    ensures Items(t, home[x := v], hash, mask, at, x)
    ensures Contents(t, at) == Contents(s, at)
  {
    var h := home[x := v];
    forall i | 0 < i < |t| && h[i] != 0 && i != x
      ensures t[i].body.Item? && t[i].body.key in at && at[t[i].body.key] == i
      ensures In(h, i) ==> HeadOf(hash, mask, t[i].body.key) == h[i]
    {
      assert s[i].body.Item?;
    }
  }

  /** The item of node `from` has been moved into the hole; `from` is the hole now. */
  lemma ItemsMove<K(!new), V>(s: seq<Node<K, V>>, home: seq<nat>, hash: K -> nat, mask: nat,
                              at: map<K, nat>, hole: nat, from: nat)
    requires |home| == |s| && Items(s, home, hash, mask, at, hole)
    requires 0 < hole < |s| && 0 < from < |s| && hole != from && home[hole] != 0 && home[from] != 0
    requires home[from] == home[hole] || (s[from].body.Item? && HeadOf(hash, mask, s[from].body.key) == home[hole])
    ensures s[from].body.Item?
    ensures var t, at' := s[hole := s[hole].(body := s[from].body)], at[s[from].body.key := hole];
      Items(t, home, hash, mask, at', from) && at'.Keys == at.Keys && Contents(t, at') == Contents(s, at)
  {
    assert s[from].body.Item?;
    var t, at' := s[hole := s[hole].(body := s[from].body)], at[s[from].body.key := hole];
    forall i | 0 < i < |t| && home[i] != 0 && i != from
      ensures t[i].body.Item? && t[i].body.key in at' && at'[t[i].body.key] == i
      ensures In(home, i) ==> HeadOf(hash, mask, t[i].body.key) == home[i]
    {
      assert i != hole ==> s[i].body.Item?;
    }
    forall k | k in at'
      ensures k in at && s[at[k]].body.Item? && t[at'[k]].body == s[at[k]].body
      ensures 0 < at'[k] < |t| && at'[k] != from && home[at'[k]] != 0 && t[at'[k]].body.key == k
    {
      assert s[at[k]].body.Item?;
    }
  }

  /** An item for a new key has been moved into the hole. */
  lemma ItemsFill<K(!new), V>(s: seq<Node<K, V>>, home: seq<nat>, hash: K -> nat, mask: nat,
                              at: map<K, nat>, hole: nat, k: K, v: V)
    requires |home| == |s| && Items(s, home, hash, mask, at, hole)
    requires 0 < hole < |s| && home[hole] == HeadOf(hash, mask, k) && k !in at
    ensures var t, at' := s[hole := s[hole].(body := Item(k, v))], at[k := hole];
      Items(t, home, hash, mask, at', 0) && Contents(t, at') == Contents(s, at)[k := v]
  {
    var t, at' := s[hole := s[hole].(body := Item(k, v))], at[k := hole];
    forall i | 0 < i < |t| && home[i] != 0
      ensures t[i].body.Item? && t[i].body.key in at' && at'[t[i].body.key] == i
      ensures In(home, i) ==> HeadOf(hash, mask, t[i].body.key) == home[i]
    {
      assert i != hole ==> s[i].body.Item?;
    }
  }

  /** A hole has been given up: its item had been moved elsewhere. */
  lemma ItemsDropHole<K(!new), V>(s: seq<Node<K, V>>, t: seq<Node<K, V>>, home: seq<nat>, hash: K -> nat, mask: nat,
                                  at: map<K, nat>, hole: nat)
    requires |home| == |s| && Items(s, home, hash, mask, at, hole)
    requires 0 < hole < |s|
    requires SameBodies(s, t, home, {hole})
    ensures Items(t, home[hole := 0], hash, mask, at, 0) && Contents(t, at) == Contents(s, at)
  {
    var h := home[hole := 0];
    forall i | 0 < i < |t| && h[i] != 0
      ensures t[i].body.Item? && t[i].body.key in at && at[t[i].body.key] == i
      ensures In(h, i) ==> HeadOf(hash, mask, t[i].body.key) == h[i]
    {
      assert s[i].body.Item?;
    }
  }

  /** The item of node x has been destroyed; x is the hole now. */
  lemma ItemsPierce<K(!new), V>(s: seq<Node<K, V>>, home: seq<nat>, hash: K -> nat, mask: nat, at: map<K, nat>, x: nat)
    requires |home| == |s| && Items(s, home, hash, mask, at, 0)
    requires 0 < x < |s| && home[x] != 0
    ensures s[x].body.Item? && s[x].body.key in at
    ensures var at' := at - {s[x].body.key};
      Items(s, home, hash, mask, at', x) && Contents(s, at') == Contents(s, at) - {s[x].body.key}
  {
    assert s[x].body.Item?;
  }

  /** The hole changes its chain. */
  lemma ItemsRehome<K(!new), V>(s: seq<Node<K, V>>, t: seq<Node<K, V>>, home: seq<nat>, hash: K -> nat, mask: nat,
                                at: map<K, nat>, hole: nat, v: nat)
    requires |home| == |s| && Items(s, home, hash, mask, at, hole)
    requires 0 < hole < |s| && SameBodies(s, t, home, {hole})
    ensures Items(t, home[hole := v], hash, mask, at, hole) && Contents(t, at) == Contents(s, at)
  {
    forall i | 0 < i < |t| && home[hole := v][i] != 0 && i != hole
      ensures t[i].body.Item? && t[i].body.key in at && at[t[i].body.key] == i
      ensures In(home[hole := v], i) ==> HeadOf(hash, mask, t[i].body.key) == home[i]
    {
      assert s[i].body.Item?;
    }
  }

  /** The items of two nodes that wait to be rehashed have been swapped. */
  lemma ItemsSwap<K(!new), V>(s: seq<Node<K, V>>, home: seq<nat>, hash: K -> nat, mask: nat, at: map<K, nat>, x: nat,
                              y: nat)
    requires |home| == |s| && Items(s, home, hash, mask, at, 0)
    requires 0 < x < |s| && 0 < y < |s| && x != y && home[x] >= |s| && home[y] >= |s|
    ensures s[x].body.Item? && s[y].body.Item?
    ensures var t := s[x := s[x].(body := s[y].body)][y := s[y].(body := s[x].body)];
      var at' := at[s[y].body.key := x][s[x].body.key := y];
      Items(t, home, hash, mask, at', 0) && at'.Keys == at.Keys && Contents(t, at') == Contents(s, at)
  {
    assert s[x].body.Item? && s[y].body.Item?;
    var t := s[x := s[x].(body := s[y].body)][y := s[y].(body := s[x].body)];
    var at' := at[s[y].body.key := x][s[x].body.key := y];
    forall i | 0 < i < |t| && home[i] != 0
      ensures t[i].body.Item? && t[i].body.key in at' && at'[t[i].body.key] == i
      ensures In(home, i) ==> HeadOf(hash, mask, t[i].body.key) == home[i]
    {
      assert s[i].body.Item?;
    }
    forall k | k in at'
      ensures k in at && s[at[k]].body.Item? && t[at'[k]].body == s[at[k]].body && 0 < at'[k] < |t| && home[at'[k]] != 0
    {
      assert s[at[k]].body.Item?;
    }
  }

  /** A node that waited to be rehashed joins the chain of its item's head slot. */
  lemma ItemsClaim<K(!new), V>(s: seq<Node<K, V>>, t: seq<Node<K, V>>, home: seq<nat>, hash: K -> nat, mask: nat,
                               at: map<K, nat>, x: nat, v: nat)
    requires |home| == |s| && Items(s, home, hash, mask, at, 0)
    requires 0 < x < |s| && home[x] != 0 && s[x].body.Item? && v == HeadOf(hash, mask, s[x].body.key)
    requires SameBodies(s, t, home, {})
    ensures Items(t, home[x := v], hash, mask, at, 0) && Contents(t, at) == Contents(s, at)
  {
    forall i | 0 < i < |t| && home[x := v][i] != 0
      ensures t[i].body.Item? && t[i].body.key in at && at[t[i].body.key] == i
      ensures In(home[x := v], i) ==> HeadOf(hash, mask, t[i].body.key) == home[x := v][i]
    {
      assert s[i].body.Item?;
    }
  }

  /** New free nodes do not matter to the items. */
  lemma ItemsGrow<K(!new), V>(s: seq<Node<K, V>>, more: seq<Node<K, V>>, home: seq<nat>, hash: K -> nat, mask: nat,
                              at: map<K, nat>)
    requires |home| == |s| && Items(s, home, hash, mask, at, 0) && forall i :: 0 <= i < |s| ==> home[i] < |s|
    ensures Items(s + more, home + seq(|more|, i => 0), hash, mask, at, 0)
    ensures Contents(s + more, at) == Contents(s, at)
  {
    var t, h := s + more, home + seq(|more|, i => 0);
    forall i | 0 < i < |t| && h[i] != 0
      ensures t[i].body.Item? && t[i].body.key in at && at[t[i].body.key] == i
      ensures HeadOf(hash, mask, t[i].body.key) == h[i]
    {
      assert t[i] == s[i] && h[i] == home[i] && s[i].body.Item?;
    }
  }

  /** All chains have been dissolved, under a new mask. */
  lemma ItemsDissolve<K(!new), V>(s: seq<Node<K, V>>, t: seq<Node<K, V>>, home: seq<nat>, h: seq<nat>, hash: K -> nat,
                                  mask: nat, mask': nat, at: map<K, nat>)
    requires |home| == |s| && Items(s, home, hash, mask, at, 0)
    requires SameBodies(s, t, home, {})
    requires |h| == |s| && forall i :: 0 < i < |s| ==> h[i] == if home[i] == 0 then 0 else |s|
    ensures Items(t, h, hash, mask', at, 0) && Contents(t, at) == Contents(s, at)
  {
    forall i | 0 < i < |t| && h[i] != 0
      ensures t[i].body.Item? && t[i].body.key in at && at[t[i].body.key] == i && !In(h, i)
    {
      assert s[i].body.Item?;
    }
  }

  /** The value of a stored key has been overwritten. */
  lemma ItemsWrite<K(!new), V>(s: seq<Node<K, V>>, home: seq<nat>, hash: K -> nat, mask: nat, at: map<K, nat>, k: K,
                               v: V)
    requires |home| == |s| && Items(s, home, hash, mask, at, 0) && k in at
    ensures 0 < at[k] < |s| && home[at[k]] != 0
    ensures var t := s[at[k] := s[at[k]].(body := Item(k, v))];
      Items(t, home, hash, mask, at, 0) && Contents(t, at) == Contents(s, at)[k := v]
  {
    var x := at[k];
    var t := s[x := s[x].(body := Item(k, v))];
    assert s[x].body.key == k;
    forall i | 0 < i < |t| && home[i] != 0
      ensures t[i].body.Item? && t[i].body.key in at && at[t[i].body.key] == i
      ensures In(home, i) ==> HeadOf(hash, mask, t[i].body.key) == home[i]
    {
      assert s[i].body.Item?;
    }
    assert forall j :: j in at && j != k ==> at[j] != x;
  }

  // ----- Steps of the table's operations, as they change chains, free list and tags together -----

  /** Chains, free list, tags and item count agree. */
  ghost predicate Shape<K, V>(s: seq<Node<K, V>>, home: seq<nat>, rank: seq<nat>, top: nat, num: int) {
    Chains(s, home, rank, top) && Backs(s, home) && Tags(s, home, |s|) && num == Count(home, |s|)
  }

  /** Only node x has changed, in its home and its tag. */
  lemma TagsUpdate<K, V>(s: seq<Node<K, V>>, t: seq<Node<K, V>>, home: seq<nat>, x: nat, v: nat)
    requires |s| == |home| && x < |s| && Tags(s, home, |s|)
    requires |t| == |s| && forall i :: 0 <= i < |s| && i != x ==> t[i].tag == s[i].tag
    requires t[x].tag == if v == 0 then Empty else if v >= |s| then Rehash else if v == x then Head else Probe
    ensures Tags(t, home[x := v], |s|)
  {
  }

  /** A node taken from the free list (s1) becomes a head (s2). */
  lemma StepHead<K, V>(s: seq<Node<K, V>>, s1: seq<Node<K, V>>, home: seq<nat>, rank: seq<nat>, top: nat, num: int,
                       x: nat)
    requires Shape(s, home, rank, top, num) && 0 < x < |s| && home[x] == 0
    requires var h1 := home[x := |s|];
      |s1| == |s| && Chains(s1, h1, rank, top) && Backs(s1, h1) && Untouched(s, s1, home, {x})
    ensures var t := s1[x := s1[x].(tag := Head, link := 0)];
      Shape(t, home[x := x], rank[x := 0], top, num + 1) && SameBodies(s, t, home, {x})
  {
    var t, h1, h := s1[x := s1[x].(tag := Head, link := 0)], home[x := |s|], home[x := x];
    assert h1[x := x] == h;
    assert Chains(t, h, rank[x := 0], top) by { ChainsMakeHead(s1, t, h1, rank, top, x); }
    assert Backs(t, h) by { BacksSame(s1, t, h1, x, x); }
    assert Tags(t, h, |t|) by { TagsUpdate(s, t, home, x, x); }
    CountUpdate(home, x, x, |s|);
  }

  /** A node taken from the free list (s1) is linked behind the last node of a chain. */
  lemma StepLink<K, V>(s: seq<Node<K, V>>, s1: seq<Node<K, V>>, home: seq<nat>, rank: seq<nat>, top: nat, num: int,
                       prev: nat, x: nat)
    requires Shape(s, home, rank, top, num) && 0 < x < |s| && home[x] == 0
    requires 0 < prev < |s| && 0 < home[prev] < |s| && s[prev].link == 0
    requires var h1 := home[x := |s|];
      |s1| == |s| && Chains(s1, h1, rank, top) && Backs(s1, h1) && Untouched(s, s1, home, {x})
      && s1[x].tag == Probe && s1[x].link == 0
    ensures var t := s1[prev := s1[prev].(link := x)];
      Shape(t, home[x := home[prev]], rank[x := rank[prev] + 1], top + 1, num + 1) && SameBodies(s, t, home, {x})
  {
    var t, h1, h := s1[prev := s1[prev].(link := x)], home[x := |s|], home[x := home[prev]];
    assert h1[x := h1[prev]] == h;
    assert s1[prev] == s[prev];
    assert Chains(t, h, rank[x := rank[prev] + 1], top + 1) by { ChainsAppend(s1, t, h1, rank, top, prev, x); }
    assert Backs(t, h) by { BacksSame(s1, t, h1, x, home[prev]); }
    assert home[prev] != x by { assert home[home[prev]] == home[prev]; }
    assert Tags(t, h, |t|) by { TagsUpdate(s, t, home, x, home[prev]); }
    CountUpdate(home, x, home[prev], |s|);
  }

  lemma PromoteChains<K, V>(s: seq<Node<K, V>>, home: seq<nat>, rank: seq<nat>, top: nat, p: nat, x: nat)
    requires Chains(s, home, rank, top) && 0 < x < |s| && 0 < home[x] < |s|
    requires Together(home, p, x) && s[p].link == x
    ensures home[x] != x
    ensures var s1 := s[p := s[p].(link := s[x].link)];
      Chains(s1[x := s1[x].(tag := Head, link := 0)], home[x := x], rank[x := 0], top)
  {
    var s1, h1 := s[p := s[p].(link := s[x].link)], home[x := |s|];
    var t := s1[x := s1[x].(tag := Head, link := 0)];
    ChainsUnlink(s, s1, home, rank, top, p, x);
    assert h1[x := x] == home[x := x];
    ChainsMakeHead(s1, t, h1, rank, top, x);
  }

  /** A node in the middle of a chain leaves it and becomes a head. */
  lemma StepPromote<K, V>(s: seq<Node<K, V>>, home: seq<nat>, rank: seq<nat>, top: nat, num: int, p: nat, x: nat)
    requires Shape(s, home, rank, top, num) && 0 < x < |s| && 0 < home[x] < |s|
    requires Together(home, p, x) && s[p].link == x
    ensures var s1 := s[p := s[p].(link := s[x].link)];
      var t := s1[x := s1[x].(tag := Head, link := 0)];
      Shape(t, home[x := x], rank[x := 0], top, num) && SameBodies(s, t, home, {x})
  {
    var s1 := s[p := s[p].(link := s[x].link)];
    var t := s1[x := s1[x].(tag := Head, link := 0)];
    PromoteChains(s, home, rank, top, p, x);
    assert Backs(t, home[x := x]) by { BacksSame(s, t, home, x, x); }
    assert Tags(t, home[x := x], |t|) by { TagsUpdate(s, t, home, x, x); }
    CountUpdate(home, x, x, |s|);
  }

  /** A node behind p leaves its chain and is on none. */
  lemma StepUnlink<K, V>(s: seq<Node<K, V>>, home: seq<nat>, rank: seq<nat>, top: nat, num: int, p: nat, x: nat)
    requires Shape(s, home, rank, top, num) && 0 < x < |s| && 0 < home[x] < |s|
    requires Together(home, p, x) && s[p].link == x
    ensures var s1 := s[p := s[p].(link := s[x].link)];
      && Chains(s1, home[x := |s|], rank, top) && Backs(s1, home[x := |s|]) && Count(home[x := |s|], |s|) == num
      && forall i :: 0 <= i < |s| ==> s1[i].tag == s[i].tag && s1[i].body == s[i].body
  {
    var s1 := s[p := s[p].(link := s[x].link)];
    ChainsUnlink(s, s1, home, rank, top, p, x);
    BacksSame(s, s1, home, x, |s|);
    CountUpdate(home, x, |s|, |s|);
  }

  /** A head without successor is on no chain any more. */
  lemma StepDropHead<K, V>(s: seq<Node<K, V>>, home: seq<nat>, rank: seq<nat>, top: nat, num: int, x: nat)
    requires Shape(s, home, rank, top, num) && 0 < x < |s| && home[x] == x && s[x].link == 0
    ensures Chains(s, home[x := |s|], rank, top) && Backs(s, home[x := |s|]) && Count(home[x := |s|], |s|) == num
  {
    ChainsDropHead(s, s, home, rank, top, x);
    BacksSame(s, s, home, x, |s|);
    CountUpdate(home, x, |s|, |s|);
  }

  /** Only items of occupied nodes differ. */
  ghost predicate SameShape<K, V>(s: seq<Node<K, V>>, t: seq<Node<K, V>>, home: seq<nat>)
    requires |home| == |s|
  {
    && |t| == |s|
    && forall i {:trigger t[i]} {:trigger s[i]} :: 0 <= i < |s| ==>
         t[i].tag == s[i].tag && t[i].link == s[i].link && (home[i] == 0 ==> t[i] == s[i])
  }

  lemma ShapeSame<K, V>(s: seq<Node<K, V>>, t: seq<Node<K, V>>, home: seq<nat>, rank: seq<nat>, top: nat, num: int)
    requires Shape(s, home, rank, top, num) && SameShape(s, t, home)
    ensures Shape(t, home, rank, top, num)
  {
    ChainsSame(s, t, home, rank, top);
    assert Backs(t, home) by {
      forall i | Free(home, i)
        ensures t[i] == s[i] && t[s[i].link] == s[s[i].link] && t[s[i].body.prev] == s[s[i].body.prev]
      {}
    }
  }

  /** Node x, on no chain any more (s1), has been returned to the free list (t). */
  lemma StepFreed<K, V>(s: seq<Node<K, V>>, s1: seq<Node<K, V>>, t: seq<Node<K, V>>, home: seq<nat>,
                        rank: seq<nat>, top: nat, x: nat)
    requires |home| == |s| && Tags(s, home, |s|) && 0 < x < |s|
    requires |s1| == |s| && forall i :: 0 <= i < |s| ==> s1[i].tag == s[i].tag && s1[i].body == s[i].body
    requires Untouched(s1, t, home[x := |s|], {x}) && t[x].tag == Empty
    requires Chains(t, home[x := 0], rank, top) && Backs(t, home[x := 0])
    ensures Shape(t, home[x := 0], rank, top, Count(home[x := 0], |s|)) && SameBodies(s, t, home, {x})
  {
    assert Tags(t, home[x := 0], |s|) by { TagsUpdate(s, t, home, x, 0); }
    assert forall i :: 0 < i < |s| && i != x && home[i] != 0 ==> t[i] == s1[i];
  }

  lemma {:induction false} CountSame(home: seq<nat>, h: seq<nat>, n: nat)
    requires n <= |home| && n <= |h| && forall i :: 0 < i < n ==> (home[i] == 0 <==> h[i] == 0)
    ensures Count(home, n) == Count(h, n)
  {
    if n > 1 { CountSame(home, h, n - 1); }
  }

  lemma {:induction false} CountBeyond(home: seq<nat>, m: nat, n: nat)
    requires 1 <= m <= n <= |home|
    ensures (forall i :: m <= i < n ==> home[i] == 0) ==> Count(home, n) == Count(home, m)
    ensures (forall i :: m <= i < n ==> home[i] != 0) ==> Count(home, n) == Count(home, m) + n - m
  {
    if m < n { CountBeyond(home, m, n - 1); }
  }

  /** A node that waited to be rehashed becomes a head. */
  lemma StepClaim<K, V>(s: seq<Node<K, V>>, home: seq<nat>, rank: seq<nat>, top: nat, num: int, x: nat)
    requires Shape(s, home, rank, top, num) && 0 < x < |s| && home[x] >= |s|
    ensures var t := s[x := s[x].(tag := Head, link := 0)];
      Shape(t, home[x := x], rank[x := 0], top, num) && SameBodies(s, t, home, {})
  {
    var t := s[x := s[x].(tag := Head, link := 0)];
    assert Chains(t, home[x := x], rank[x := 0], top) by { ChainsMakeHead(s, t, home, rank, top, x); }
    assert Backs(t, home[x := x]) by { BacksSame(s, t, home, x, x); }
    assert Tags(t, home[x := x], |t|) by { TagsUpdate(s, t, home, x, x); }
    CountUpdate(home, x, x, |s|);
  }

  /** A node that waited to be rehashed is linked behind the last node of a chain. */
  lemma StepAdopt<K, V>(s: seq<Node<K, V>>, home: seq<nat>, rank: seq<nat>, top: nat, num: int, prev: nat, x: nat)
    requires Shape(s, home, rank, top, num) && 0 < x < |s| && home[x] >= |s|
    requires 0 < prev < |s| && 0 < home[prev] < |s| && s[prev].link == 0
    ensures var t := s[x := s[x].(tag := Probe, link := 0)][prev := s[prev].(link := x)];
      Shape(t, home[x := home[prev]], rank[x := rank[prev] + 1], top + 1, num) && SameBodies(s, t, home, {})
  {
    var t := s[x := s[x].(tag := Probe, link := 0)][prev := s[prev].(link := x)];
    var h := home[x := home[prev]];
    assert Chains(t, h, rank[x := rank[prev] + 1], top + 1) by { ChainsAppend(s, t, home, rank, top, prev, x); }
    assert Backs(t, h) by { BacksSame(s, t, home, x, home[prev]); }
    assert home[prev] != x by { assert home[home[prev]] == home[prev]; }
    assert Tags(t, h, |t|) by { TagsUpdate(s, t, home, x, home[prev]); }
    CountUpdate(home, x, home[prev], |s|);
  }

  /** The nodes that wait to be rehashed. */
  ghost function Outs(home: seq<nat>): set<int> {
    set i | 0 <= i < |home| && home[i] >= |home|
  }

  lemma OutsShrink(home: seq<nat>, h: seq<nat>, x: nat)
    requires |h| == |home| && x < |home| && home[x] >= |home| && h[x] < |home|
    requires forall i :: 0 <= i < |home| && h[i] >= |h| ==> home[i] >= |home|
    ensures |Outs(h)| < |Outs(home)|
  {
    SmallerSet(Outs(h), Outs(home), x);
  }

  lemma SmallerSet(a: set<nat>, b: set<nat>, x: nat)
    requires a <= b && x in b && x !in a
    ensures |a| < |b|
  {
    var rest := b - a;
    assert b == a + rest && a !! rest;
    assert |rest| > 0 by { assert x in rest; }
  }

  /** s with the bodies of x and y exchanged. */
  function Swapped<K, V>(s: seq<Node<K, V>>, x: nat, y: nat): (t: seq<Node<K, V>>)
    requires x < |s| && y < |s|
  {
    s[x := s[x].(body := s[y].body)][y := s[y].(body := s[x].body)]
  }

  /** Exchanging the items of two waiting nodes keeps shape, items and contents. */
  lemma StepSwap<K(!new), V>(s: seq<Node<K, V>>, home: seq<nat>, rank: seq<nat>, top: nat, num: int,
                             hash: K -> nat, mask: nat, at: map<K, nat>, x: nat, y: nat)
    requires Shape(s, home, rank, top, num) && Items(s, home, hash, mask, at, 0)
    requires 0 < x < |s| && 0 < y < |s| && x != y && home[x] >= |s| && home[y] >= |s|
    ensures s[x].body.Item? && s[y].body.Item?
    ensures var t, at' := Swapped(s, x, y), at[s[y].body.key := x][s[x].body.key := y];
      && Shape(t, home, rank, top, num) && Items(t, home, hash, mask, at', 0)
      && |at'| == |at| && Contents(t, at') == Contents(s, at)
  {
    assert |home| == |s|;
    hide Shape, Items, Contents, SameShape;
    ItemsSwap(s, home, hash, mask, at, x, y);
    SwappedShape(s, home, x, y);
    ShapeSame(s, Swapped(s, x, y), home, rank, top, num);
    var at' := at[s[y].body.key := x][s[x].body.key := y];
    assert |at'| == |at'.Keys| && |at| == |at.Keys|;
  }

  lemma SwappedShape<K, V>(s: seq<Node<K, V>>, home: seq<nat>, x: nat, y: nat)
    requires |home| == |s| && 0 < x < |s| && 0 < y < |s| && x != y && home[x] != 0 && home[y] != 0
    ensures SameShape(s, Swapped(s, x, y), home)
  {
  }

  lemma {:induction false} CountBound(home: seq<nat>, n: nat)
    requires 1 <= n <= |home|
    ensures Count(home, n) <= n - 1
  {
    if n > 1 { CountBound(home, n - 1); }
  }

  // ----- What a walk along the links visits -----

  /** The nodes met when following the links from i. */
  ghost function Walk<K, V>(s: seq<Node<K, V>>, home: seq<nat>, rank: seq<nat>, top: nat, i: nat): (w: seq<nat>)
    requires Chains(s, home, rank, top) && In(home, i)
    ensures |w| > 0 && w[0] == i
    decreases top - rank[i]
  {
    assert home[i] < |home|;
    if s[i].link == 0 then [i] else
      assert Together(home, i, s[i].link) && home[s[i].link] == home[i];
      [i] + Walk(s, home, rank, top, s[i].link)
  }

  /** w follows the links to the end of i's chain, going up in rank. */
  ghost predicate Rising<K, V>(s: seq<Node<K, V>>, home: seq<nat>, rank: seq<nat>, i: nat, w: seq<nat>)
    requires |home| == |s| && |rank| == |s| && In(home, i)
  {
    && (forall q :: 0 <= q < |w| ==> Together(home, i, w[q]) && rank[i] <= rank[w[q]])
    && (forall p, q :: 0 <= p < q < |w| ==> w[p] < |s| && w[q] < |s| && rank[w[p]] < rank[w[q]])
    && (forall q {:trigger s[w[q]].link} :: 0 <= q < |w| ==>
          w[q] < |s| && s[w[q]].link == if q + 1 < |w| then w[q + 1] else 0)
  }

  lemma {:induction false} WalkRises<K, V>(s: seq<Node<K, V>>, home: seq<nat>, rank: seq<nat>, top: nat, i: nat)
    requires Chains(s, home, rank, top) && In(home, i)
    ensures Rising(s, home, rank, i, Walk(s, home, rank, top, i))
    decreases top - rank[i]
  {
    assert home[i] < |home|;
    if s[i].link != 0 {
      var next := s[i].link;
      assert Together(home, i, next) && home[next] == home[i];
      WalkRises(s, home, rank, top, next);
      RisingCons(s, home, rank, i, next, Walk(s, home, rank, top, next));
    }
  }

  lemma RisingCons<K, V>(s: seq<Node<K, V>>, home: seq<nat>, rank: seq<nat>, i: nat, next: nat, w: seq<nat>)
    requires |home| == |s| && |rank| == |s| && Together(home, i, next) && rank[i] < rank[next] && s[i].link == next
    requires |w| > 0 && w[0] == next && Rising(s, home, rank, next, w)
    ensures Rising(s, home, rank, i, [i] + w)
  {
    var v := [i] + w;
    forall q | 0 <= q < |v|
      ensures Together(home, i, v[q]) && rank[i] <= rank[v[q]] && (q > 0 ==> rank[i] < rank[v[q]])
      ensures s[v[q]].link == if q + 1 < |v| then v[q + 1] else 0
    {
      if q > 0 {
        var p := q - 1;
        assert v[q] == w[p] && Together(home, next, w[p]);
        assert s[w[p]].link == if p + 1 < |w| then w[p + 1] else 0;
      }
    }
    forall p, q | 0 <= p < q < |v|
      ensures v[p] < |s| && v[q] < |s| && rank[v[p]] < rank[v[q]]
    {
      if p > 0 { assert v[p] == w[p - 1] && v[q] == w[q - 1]; }
    }
  }

  /** A walk misses no node of the chain that lies behind its start. */
  lemma {:induction false} WalkComplete<K, V>(s: seq<Node<K, V>>, home: seq<nat>, rank: seq<nat>, top: nat, i: nat,
                                              j: nat)
    requires Chains(s, home, rank, top) && Together(home, i, j) && rank[i] <= rank[j]
    ensures j in Walk(s, home, rank, top, i)
    decreases top - rank[i]
  {
    assert home[i] < |home| && home[j] == home[i];
    if i != j {
      var next := s[i].link;
      assert Together(home, i, next) && home[next] == home[i];
      assert Together(home, next, j);
      WalkComplete(s, home, rank, top, next, j);
    }
  }

  /** The walk from a chain's first node lists the nodes of that chain, each once. */
  lemma ChainExact<K, V>(s: seq<Node<K, V>>, home: seq<nat>, rank: seq<nat>, top: nat, h: nat)
    requires Chains(s, home, rank, top) && In(home, h) && home[h] == h
    ensures var w := Walk(s, home, rank, top, h);
      && (forall i, j :: 0 <= i < j < |w| ==> w[i] != w[j])
      && (forall i: nat :: i in w <==> In(home, i) && home[i] == h)
  {
    var w := Walk(s, home, rank, top, h);
    WalkRises(s, home, rank, top, h);
    forall i: nat | In(home, i) && home[i] == h
      ensures i in w
    {
      assert Together(home, h, i) && rank[home[i]] <= rank[i];
      WalkComplete(s, home, rank, top, h, i);
    }
  }

  /** The nodes w form a ring through node 0: each links to the next one, which links back. */
  ghost predicate BothWays<K, V>(s: seq<Node<K, V>>, w: seq<nat>) {
    forall q :: 0 <= q < |w| ==> var next := if q + 1 < |w| then w[q + 1] else 0;
      w[q] < |s| && s[w[q]].link == next && next < |s| && s[next].body == Prev(w[q])
  }

  /**
   The free list read forwards from node 0 holds exactly the free nodes, read backwards it is
   the same list, and it has as many nodes as are not occupied.
   */
  lemma FreeListExact<K, V>(s: seq<Node<K, V>>, home: seq<nat>, rank: seq<nat>, top: nat, num: int)
    requires Shape(s, home, rank, top, num)
    ensures |s| > 0 && In(home, 0)
    ensures var w := Walk(s, home, rank, top, 0);
      && (forall i: nat :: i in w <==> i < |s| && s[i].tag == Empty)
      && (forall i, j :: 0 <= i < j < |w| ==> w[i] != w[j])
      && BothWays(s, w)
      && num + |w| - 1 == |s| - 1
  {
    assert home[0] == 0;
    assert In(home, 0);
    var w := Walk(s, home, rank, top, 0);
    ChainExact(s, home, rank, top, 0);
    RingExact(s, home, rank, top);
    FreeSize(home, w);
    forall i: nat
      ensures i in w <==> i < |s| && s[i].tag == Empty
    {
      assert i < |s| ==> (s[i].tag == Empty <==> home[i] == 0);
      assert i in w <==> In(home, i) && home[i] == 0;
    }
  }

  lemma RingExact<K, V>(s: seq<Node<K, V>>, home: seq<nat>, rank: seq<nat>, top: nat)
    requires Chains(s, home, rank, top) && Backs(s, home) && In(home, 0) && home[0] == 0
    ensures BothWays(s, Walk(s, home, rank, top, 0))
  {
    var w := Walk(s, home, rank, top, 0);
    ChainExact(s, home, rank, top, 0);
    WalkRises(s, home, rank, top, 0);
    forall q | 0 <= q < |w|
      ensures s[w[q]].link < |s| && s[s[w[q]].link].body == Prev(w[q])
    {
      assert w[q] in w;
      assert Free(home, w[q]);
    }
  }

  lemma FreeSize(home: seq<nat>, w: seq<nat>)
    requires |home| > 0 && home[0] == 0 && forall i, j :: 0 <= i < j < |w| ==> w[i] != w[j]
    requires forall i: nat :: i in w <==> In(home, i) && home[i] == 0
    ensures Count(home, |home|) + |w| == |home|
  {
    FreeSet(home, |home|);
    SizeOf(w);
    assert (set x: int | x in w) == (set x: int | 0 <= x < |home| && home[x] == 0);
  }

  lemma {:induction false} FreeSet(home: seq<nat>, n: nat)
    requires 1 <= n <= |home| && home[0] == 0
    ensures |(set x: int | 0 <= x < n && home[x] == 0)| + Count(home, n) == n
  {
    if n == 1 {
      assert (set x: int | 0 <= x < n && home[x] == 0) == {0};
    } else {
      FreeSet(home, n - 1);
      assert (set x: int | 0 <= x < n && home[x] == 0) ==
             (set x: int | 0 <= x < n - 1 && home[x] == 0) + if home[n - 1] == 0 then {n - 1} else {};
    }
  }

  lemma {:induction false} SizeOf(w: seq<nat>)
    requires forall i, j :: 0 <= i < j < |w| ==> w[i] != w[j]
    ensures |(set x: int | x in w)| == |w|
  {
    if |w| > 0 {
      var v := w[..|w| - 1];
      SizeOf(v);
      assert (set x: int | x in w) == (set x: int | x in v) + {w[|w| - 1]} by { assert w == v + [w[|w| - 1]]; }
    } else {
      assert (set x: int | x in w) == {};
    }
  }
}
