/**
 The accumulator protocol.  Each client has two buffers of pending aggregators: writers merge
 into the active one while a sender thread empties the other into a request; the server merges
 each request into its table.  A region under a lock is one step, and so are the server's handling
 of a request and the arrival of its response.
 */
module Accumulators {
  import opened Aggregators

  type Name = string

  /** One of the two buffers: the pending aggregators by id, which of them are to be sent, the writes since. */
  datatype Buffer = Buffer(aggs: seq<Agg>, flags: seq<bool>, count: nat)

  /**
   Where the sender thread is: not running, waiting for writes, about to build the request for
   buffer b, or waiting for the response to it.  `last` marks the final round after closing,
   which holds the write lock throughout.
   */
  datatype Sender = Stopped | Idle | Building(b: nat, last: bool) | Waiting(b: nat, last: bool)

  /** `accepted` and `served` are history: the deltas taken from writers, and what the server has merged of them. */
  datatype Client = Client(
    names: seq<Name>, ids: map<Name, nat>, bufs: seq<Buffer>, active: nat, closed: bool,
    sender: Sender, wire: seq<(Name, Agg)>,
    accepted: map<Name, seq<Agg>>, served: map<Name, Agg>)

  datatype State = State(table: map<Name, Agg>, clients: seq<Client>)

  datatype Step =
    | AddAggregator(i: nat, n: Name)
    | Write(i: nat, n: Name, d: Agg)
    | Open(i: nat)
    | Close(i: nat)
    | Swap(i: nat)
    | Stop(i: nat)
    | Send(i: nat)
    | Serve(i: nat)
    | Receive(i: nat)

  /** The aggregator under a name, the identity if there is none. */
  function Get(kind: Name -> Kind, t: map<Name, Agg>, n: Name): Agg {
    if n in t then t[n] else Zero(kind(n))
  }

  function Log(c: Client, n: Name): seq<Agg> {
    if n in c.accepted then c.accepted[n] else []
  }

  // ----- The steps of a client -----

  predicate HoldsLock(c: Client) {
    (c.sender.Building? || c.sender.Waiting?) && c.sender.last
  }

  predicate Shaped(c: Client) {
    && |c.bufs| == 2 && c.active < 2
    && (forall b :: 0 <= b < 2 ==> |c.bufs[b].aggs| == |c.bufs[b].flags| == |c.names|)
    && (forall n :: n in c.ids ==> c.ids[n] < |c.names| && c.names[c.ids[n]] == n)
    && (forall i :: 0 <= i < |c.names| ==> c.names[i] in c.ids && c.ids[c.names[i]] == i)
    && (c.sender.Building? || c.sender.Waiting? ==> c.sender.b < 2)
  }

  function Grow(kind: Name -> Kind, b: Buffer, n: Name): Buffer {
    b.(aggs := b.aggs + [Zero(kind(n))], flags := b.flags + [false])
  }

  function DoAdd(kind: Name -> Kind, c: Client, n: Name): Client
    requires Shaped(c)
  {
    if n in c.ids then c
    else c.(names := c.names + [n], ids := c.ids[n := |c.names|],
            bufs := [Grow(kind, c.bufs[0], n), Grow(kind, c.bufs[1], n)])
  }

  function Put(b: Buffer, id: nat, d: Agg): Buffer
    requires id < |b.aggs| && id < |b.flags|
  {
    Buffer(b.aggs[id := Merge(b.aggs[id], d)], b.flags[id := true], b.count + 1)
  }

  predicate Accepts(c: Client, n: Name) {
    n in c.ids && !c.closed
  }

  /** write: refused for an unknown name or a closed writer, else merged into the active buffer. */
  function DoWrite(c: Client, n: Name, d: Agg): Client
    requires Shaped(c)
  {
    if !Accepts(c, n) then c
    else c.(bufs := c.bufs[c.active := Put(c.bufs[c.active], c.ids[n], d)],
            accepted := c.accepted[n := Log(c, n) + [d]])
  }

  /** The flagged aggregators of a buffer with their names, up to id k. */
  function Collect(names: seq<Name>, b: Buffer, k: nat): seq<(Name, Agg)>
    requires k <= |names| == |b.aggs| == |b.flags|
  {
    if k == 0 then []
    else Collect(names, b, k - 1) + if b.flags[k - 1] then [(names[k - 1], b.aggs[k - 1])] else []
  }

  /** The same buffer after sending: the flagged aggregators are initialized, and no longer flagged. */
  function Emptied(kind: Name -> Kind, names: seq<Name>, b: Buffer): Buffer
    requires |names| == |b.aggs| == |b.flags|
  {
    Buffer(seq(|names|, i requires 0 <= i < |names| => if b.flags[i] then Zero(kind(names[i])) else b.aggs[i]),
           seq(|names|, _ => false), b.count)
  }

  function DoSend(kind: Name -> Kind, c: Client): Client
    requires Shaped(c) && c.sender.Building?
  {
    var b := c.sender.b;
    c.(bufs := c.bufs[b := Emptied(kind, c.names, c.bufs[b])],
       wire := Collect(c.names, c.bufs[b], |c.names|),
       sender := Waiting(b, c.sender.last))
  }

  /** After the response: the buffer counts as empty; a closed writer goes on to the other one or stops. */
  function DoReceive(c: Client): Client
    requires Shaped(c) && c.sender.Waiting?
  {
    var b := c.sender.b;
    var bufs := c.bufs[b := c.bufs[b].(count := 0)];
    var sender :=
      if c.sender.last then Stopped
      else if !c.closed then Idle
      else if bufs[c.active].count > 0 then Building(c.active, true)
      else Stopped;
    c.(bufs := bufs, sender := sender)
  }

  /** Whether the thread that makes the step can make it in this state. */
  predicate Enabled(kind: Name -> Kind, c: Client, step: Step) {
    match step
    case AddAggregator(_, _) => true
    case Write(_, n, d) => !HoldsLock(c) && Is(kind(n), d)
    case Open(_) => !HoldsLock(c) && (c.closed ==> c.sender == Stopped)
    case Close(_) => !HoldsLock(c)
    case Swap(_) => c.sender == Idle && c.active < |c.bufs| && c.bufs[c.active].count > 0
    case Stop(_) => c.sender == Idle && c.active < |c.bufs| && c.bufs[c.active].count == 0 && c.closed
    case Send(_) => c.sender.Building?
    case Serve(_) => c.wire != []
    case Receive(_) => c.sender.Waiting? && c.wire == []
  }

  function After(kind: Name -> Kind, c: Client, step: Step): Client
    requires Shaped(c) && Enabled(kind, c, step)
  {
    match step
    case AddAggregator(_, n) => DoAdd(kind, c, n)
    case Write(_, n, d) => DoWrite(c, n, d)
    case Open(_) => if c.closed then c.(closed := false, sender := Idle) else c
    case Close(_) => c.(closed := true)
    case Swap(_) => c.(active := 1 - c.active, sender := Building(c.active, false))
    case Stop(_) => c.(sender := Stopped)
    case Send(_) => DoSend(kind, c)
    case Serve(_) => c.(wire := [], served := Served(kind, c.served, c.wire))
    case Receive(_) => DoReceive(c)
  }

  /** process_write_request: a new name gets the delta itself, a known one has it merged in. */
  function Served(kind: Name -> Kind, t: map<Name, Agg>, request: seq<(Name, Agg)>): map<Name, Agg> {
    if request == [] then t
    else
      var k := |request| - 1;
      var t' := Served(kind, t, request[..k]);
      var (n, d) := request[k];
      t'[n := if n in t' then Merge(t'[n], d) else d]
  }

  predicate Fires(kind: Name -> Kind, s: State, step: Step) {
    step.i < |s.clients| && Shaped(s.clients[step.i]) && Enabled(kind, s.clients[step.i], step)
  }

  function Next(kind: Name -> Kind, s: State, step: Step): State
    requires Fires(kind, s, step)
  {
    var c := s.clients[step.i];
    State(if step.Serve? then Served(kind, s.table, c.wire) else s.table,
          s.clients[step.i := After(kind, c, step)])
  }

  function Fresh(): Client {
    Client([], map[], [Buffer([], [], 0), Buffer([], [], 0)], 0, true, Stopped, [], map[], map[])
  }

  /** A run of the system from its start, in any interleaving. */
  ghost predicate Run(kind: Name -> Kind, states: seq<State>, steps: seq<Step>) {
    && |states| == |steps| + 1
    && states[0].table == map[] && (forall i :: 0 <= i < |states[0].clients| ==> states[0].clients[i] == Fresh())
    && forall k :: 0 <= k < |steps| ==>
        Fires(kind, states[k], steps[k]) && states[k + 1] == Next(kind, states[k], steps[k])
  }

  // ----- What every step keeps -----

  ghost predicate Typed(kind: Name -> Kind, c: Client)
    requires Shaped(c)
  {
    && (forall b, i {:trigger c.bufs[b].aggs[i]} :: 0 <= b < 2 && 0 <= i < |c.names| ==>
          Is(kind(c.names[i]), c.bufs[b].aggs[i]))
    && TypedWire(kind, c.wire)
    && (forall n :: n in c.accepted ==> All(kind(n), c.accepted[n]))
    && (forall n :: n in c.served ==> Is(kind(n), c.served[n]))
  }

  ghost predicate TypedWire(kind: Name -> Kind, w: seq<(Name, Agg)>) {
    forall i :: 0 <= i < |w| ==> Is(kind(w[i].0), w[i].1)
  }

  /** An aggregator that is not flagged holds nothing, and an uncounted buffer flags nothing. */
  ghost predicate Flagged(kind: Name -> Kind, names: seq<Name>, b: Buffer)
    requires |names| == |b.aggs| == |b.flags|
  {
    && (forall i :: 0 <= i < |names| && !b.flags[i] ==> b.aggs[i] == Zero(kind(names[i])))
    && (b.count == 0 ==> Unflagged(b))
  }

  ghost predicate Unflagged(b: Buffer) {
    forall i :: 0 <= i < |b.flags| ==> !b.flags[i]
  }

  /** What the place of the sender thread says about the buffers and the wire. */
  ghost predicate Placed(c: Client)
    requires Shaped(c)
  {
    match c.sender
    case Stopped => c.closed && c.wire == [] && c.bufs[0].count == 0 && c.bufs[1].count == 0
    case Idle => c.wire == [] && c.bufs[1 - c.active].count == 0
    case Building(b, last) => c.wire == [] && c.bufs[b].count > 0 && Side(c, b, last)
    case Waiting(b, last) => c.bufs[b].count > 0 && Unflagged(c.bufs[b]) && Side(c, b, last)
  }

  /** The sender works on the buffer that is not active, except in the last round. */
  ghost predicate Side(c: Client, b: nat, last: bool)
    requires Shaped(c) && b < 2
  {
    if last then b == c.active && c.closed && c.bufs[1 - b].count == 0 else b == 1 - c.active
  }

  /** What buffer b holds under name n. */
  function Pending(kind: Name -> Kind, c: Client, b: nat, n: Name): Agg
    requires Shaped(c) && b < 2
  {
    if n in c.ids then c.bufs[b].aggs[c.ids[n]] else Zero(kind(n))
  }

  /** What a request holds under name n. */
  function Carried(kind: Name -> Kind, w: seq<(Name, Agg)>, n: Name): Agg {
    if w == [] then Zero(kind(n))
    else
      var k := |w| - 1;
      if w[k].0 == n then Merge(Carried(kind, w[..k], n), w[k].1) else Carried(kind, w[..k], n)
  }

  /** What a client still has to bring to the server: both buffers and the request on its way. */
  function Held(kind: Name -> Kind, c: Client, n: Name): Agg
    requires Shaped(c)
  {
    Merge(Merge(Pending(kind, c, 0, n), Pending(kind, c, 1, n)), Carried(kind, c.wire, n))
  }

  ghost predicate Conserved(kind: Name -> Kind, c: Client)
    requires Shaped(c)
  {
    forall n :: Merge(Get(kind, c.served, n), Held(kind, c, n)) == Fold(kind(n), Log(c, n))
  }

  ghost predicate Good(kind: Name -> Kind, c: Client) {
    && Shaped(c) && Typed(kind, c) && Placed(c) && Conserved(kind, c)
    && Flagged(kind, c.names, c.bufs[0]) && Flagged(kind, c.names, c.bufs[1])
  }

  lemma {:induction false} CarriedIs(kind: Name -> Kind, w: seq<(Name, Agg)>, n: Name)
    requires TypedWire(kind, w)
    ensures Is(kind(n), Carried(kind, w, n))
  {
    if w != [] {
      var k := |w| - 1;
      CarriedIs(kind, w[..k], n);
      if w[k].0 == n {
        MergeIs(kind(n), Carried(kind, w[..k], n), w[k].1);
      }
    }
  }

  /** The server's table gains what the request carries. */
  lemma {:induction false} ServedGains(kind: Name -> Kind, t: map<Name, Agg>, w: seq<(Name, Agg)>, n: Name)
    requires TypedWire(kind, w) && (forall m :: m in t ==> Is(kind(m), t[m]))
    ensures Get(kind, Served(kind, t, w), n) == Merge(Get(kind, t, n), Carried(kind, w, n))
    ensures forall m :: m in Served(kind, t, w) ==> Is(kind(m), Served(kind, t, w)[m])
  {
    hide Merge, Is, Zero;
    if w == [] {
      MergeZero(kind(n), Get(kind, t, n));
    } else {
      var k := |w| - 1;
      var t', m, d := Served(kind, t, w[..k]), w[k].0, w[k].1;
      ServedGains(kind, t, w[..k], n);
      MergeZero(kind(m), d);
      if m in t' {
        MergeIs(kind(m), t'[m], d);
      }
      if m == n {
        CarriedIs(kind, w[..k], n);
        MergeAssociates(kind(n), Get(kind, t, n), Carried(kind, w[..k], n), d);
      }
    }
  }

  lemma HeldIs(kind: Name -> Kind, c: Client, n: Name)
    requires Shaped(c) && Typed(kind, c)
    ensures Is(kind(n), Pending(kind, c, 0, n)) && Is(kind(n), Pending(kind, c, 1, n))
    ensures Is(kind(n), Carried(kind, c.wire, n)) && Is(kind(n), Held(kind, c, n))
    ensures Is(kind(n), Get(kind, c.served, n)) && All(kind(n), Log(c, n)) && Is(kind(n), Fold(kind(n), Log(c, n)))
  {
    hide Merge, Is, Zero, Fold, Carried;
    CarriedIs(kind, c.wire, n);
    FoldIs(kind(n), Log(c, n));
    MergeIs(kind(n), Pending(kind, c, 0, n), Pending(kind, c, 1, n));
    MergeIs(kind(n), Merge(Pending(kind, c, 0, n), Pending(kind, c, 1, n)), Carried(kind, c.wire, n));
  }

  lemma Plus(k: Kind, a: Agg, b: Agg, c: Agg, d: Agg)
    requires Is(k, a) && Is(k, b) && Is(k, c) && Is(k, d)
    ensures Merge(Merge(Merge(a, d), b), c) == Merge(Merge(Merge(a, b), c), d)
    ensures Merge(Merge(a, Merge(b, d)), c) == Merge(Merge(Merge(a, b), c), d)
  {
    hide Merge, Is;
    MergeIs(k, a, b);
    MergeAssociates(k, a, d, b);
    MergeCommutes(k, d, b);
    MergeAssociates(k, a, b, d);
    MergeAssociates(k, Merge(a, b), d, c);
    MergeCommutes(k, d, c);
    MergeAssociates(k, Merge(a, b), c, d);
  }

  lemma WriteConserves(kind: Name -> Kind, c: Client, n: Name, d: Agg, m: Name)
    requires Shaped(c) && Typed(kind, c) && Conserved(kind, c) && Accepts(c, n) && Is(kind(n), d)
    ensures Shaped(DoWrite(c, n, d))
    ensures Merge(Get(kind, c.served, m), Held(kind, DoWrite(c, n, d), m)) == Fold(kind(m), Log(DoWrite(c, n, d), m))
  {
    hide Merge, Is, Zero, Carried;
    var c', k, log := DoWrite(c, n, d), kind(n), Log(c, n);
    HeldIs(kind, c, n);
    if m == n {
      var p0, p1, w := Pending(kind, c, 0, n), Pending(kind, c, 1, n), Carried(kind, c.wire, n);
      Plus(k, p0, p1, w, d);
      assert Held(kind, c', n) == Merge(Held(kind, c, n), d);
      MergeAssociates(k, Get(kind, c.served, n), Held(kind, c, n), d);
      assert (log + [d])[..|log|] == log;
    } else {
      assert Pending(kind, c', 0, m) == Pending(kind, c, 0, m) && Pending(kind, c', 1, m) == Pending(kind, c, 1, m);
    }
  }

  lemma TypedWrite(kind: Name -> Kind, c: Client, n: Name, d: Agg)
    requires Shaped(c) && Typed(kind, c) && Accepts(c, n) && Is(kind(n), d)
    ensures Shaped(DoWrite(c, n, d)) && Typed(kind, DoWrite(c, n, d))
  {
    hide Merge, Is;
    var c' := DoWrite(c, n, d);
    MergeIs(kind(n), c.bufs[c.active].aggs[c.ids[n]], d);
    assert All(kind(n), c'.accepted[n]);
  }

  lemma PlacedWrite(c: Client, n: Name, d: Agg)
    requires Shaped(c) && Placed(c) && !HoldsLock(c)
    ensures Shaped(DoWrite(c, n, d)) && Placed(DoWrite(c, n, d))
  {
    hide Merge;
  }

  lemma GoodWrite(kind: Name -> Kind, c: Client, n: Name, d: Agg)
    requires Good(kind, c) && !HoldsLock(c) && Is(kind(n), d)
    ensures Good(kind, DoWrite(c, n, d))
  {
    hide Merge, Is, Carried, Typed, Placed, Fold;
    PlacedWrite(c, n, d);
    if Accepts(c, n) {
      var c' := DoWrite(c, n, d);
      TypedWrite(kind, c, n, d);
      forall m
        ensures Merge(Get(kind, c'.served, m), Held(kind, c', m)) == Fold(kind(m), Log(c', m))
      {
        WriteConserves(kind, c, n, d, m);
      }
    }
  }

  lemma {:induction false} CollectCarries(kind: Name -> Kind, c: Client, b: nat, k: nat, n: Name)
    requires Shaped(c) && Typed(kind, c) && b < 2 && Flagged(kind, c.names, c.bufs[b]) && k <= |c.names|
    ensures var w := Collect(c.names, c.bufs[b], k);
      && TypedWire(kind, w)
      && Carried(kind, w, n) == if n in c.ids && c.ids[n] < k then c.bufs[b].aggs[c.ids[n]] else Zero(kind(n))
    decreases k
  {
    hide Merge, Is, Zero;
    if k > 0 {
      CollectCarries(kind, c, b, k - 1, n);
      var w, w0 := Collect(c.names, c.bufs[b], k), Collect(c.names, c.bufs[b], k - 1);
      var a := c.bufs[b].aggs[k - 1];
      if c.bufs[b].flags[k - 1] {
        assert w[..|w| - 1] == w0;
        MergeZero(kind(c.names[k - 1]), a);
      } else {
        assert w == w0;
      }
    }
  }

  lemma SendConserves(kind: Name -> Kind, c: Client, n: Name)
    requires Good(kind, c) && c.sender.Building?
    ensures Shaped(DoSend(kind, c))
    ensures Merge(Get(kind, c.served, n), Held(kind, DoSend(kind, c), n)) == Fold(kind(n), Log(c, n))
  {
    hide Merge, Is, Zero, Fold, Typed, Collect;
    var c', b, k := DoSend(kind, c), c.sender.b, kind(n);
    CollectCarries(kind, c, b, |c.names|, n);
    HeldIs(kind, c, n);
    var p, q := Pending(kind, c, b, n), Pending(kind, c, 1 - b, n);
    assert Pending(kind, c', b, n) == Zero(k) && Pending(kind, c', 1 - b, n) == q;
    assert Carried(kind, c'.wire, n) == p && Carried(kind, c.wire, n) == Zero(k);
    MergeIs(k, p, q);
    MergeIs(k, q, p);
    MergeZero(k, q);
    MergeZero(k, Merge(p, q));
    MergeZero(k, Merge(q, p));
    MergeCommutes(k, p, q);
  }

  lemma SendShaped(kind: Name -> Kind, c: Client)
    requires Good(kind, c) && c.sender.Building?
    ensures var c' := DoSend(kind, c);
      && Shaped(c') && Typed(kind, c') && Placed(c')
      && Flagged(kind, c'.names, c'.bufs[0]) && Flagged(kind, c'.names, c'.bufs[1])
  {
    hide Merge, Is, Zero, Collect, Carried, Conserved;
    CollectCarries(kind, c, c.sender.b, |c.names|, "");
  }

  lemma GoodSend(kind: Name -> Kind, c: Client)
    requires Good(kind, c) && c.sender.Building?
    ensures Good(kind, DoSend(kind, c))
  {
    SendShaped(kind, c);
    hide Merge, Fold, Carried, Typed, Placed, Flagged, DoSend, Shaped;
    var c' := DoSend(kind, c);
    assert Shaped(c');
    forall n
      ensures Merge(Get(kind, c'.served, n), Held(kind, c', n)) == Fold(kind(n), Log(c', n))
    {
      SendConserves(kind, c, n);
    }
  }

  lemma GoodServe(kind: Name -> Kind, c: Client)
    requires Good(kind, c) && c.wire != []
    ensures Good(kind, c.(wire := [], served := Served(kind, c.served, c.wire)))
  {
    hide Merge, Is, Zero, Fold, Carried, Served;
    var c' := c.(wire := [], served := Served(kind, c.served, c.wire));
    ServedGains(kind, c.served, c.wire, "");
    forall n
      ensures Merge(Get(kind, c'.served, n), Held(kind, c', n)) == Fold(kind(n), Log(c', n))
    {
      ServeConserves(kind, c, n);
    }
  }

  lemma ServeConserves(kind: Name -> Kind, c: Client, n: Name)
    requires Good(kind, c) && c.wire != []
    ensures var c' := c.(wire := [], served := Served(kind, c.served, c.wire));
      Merge(Get(kind, c'.served, n), Held(kind, c', n)) == Fold(kind(n), Log(c', n))
  {
    hide Merge, Is, Zero, Fold, Served;
    var c', k := c.(wire := [], served := Served(kind, c.served, c.wire)), kind(n);
    HeldIs(kind, c, n);
    ServedGains(kind, c.served, c.wire, n);
    var g, w := Get(kind, c.served, n), Carried(kind, c.wire, n);
    var p := Merge(Pending(kind, c, 0, n), Pending(kind, c, 1, n));
    MergeIs(k, Pending(kind, c, 0, n), Pending(kind, c, 1, n));
    MergeZero(k, p);
    MergeAssociates(k, g, w, p);
    MergeCommutes(k, w, p);
  }

  lemma GoodReceive(kind: Name -> Kind, c: Client)
    requires Good(kind, c) && c.sender.Waiting? && c.wire == []
    ensures Good(kind, DoReceive(c))
  {
    hide Merge, Is, Zero, Fold, Carried;
    var c' := DoReceive(c);
    forall n
      ensures Held(kind, c', n) == Held(kind, c, n)
    {
      assert Pending(kind, c', 0, n) == Pending(kind, c, 0, n) && Pending(kind, c', 1, n) == Pending(kind, c, 1, n);
    }
  }

  lemma ShapedAdd(kind: Name -> Kind, c: Client, n: Name)
    requires Shaped(c) && Typed(kind, c)
    ensures Shaped(DoAdd(kind, c, n)) && Typed(kind, DoAdd(kind, c, n))
  {
    hide Is, Zero;
    if n !in c.ids {
      var c' := DoAdd(kind, c, n);
      assert forall b :: 0 <= b < 2 ==> c'.bufs[b] == Grow(kind, c.bufs[b], n);
      assert forall i :: 0 <= i < |c.names| ==> c'.names[i] == c.names[i];
    }
  }

  lemma FlaggedGrow(kind: Name -> Kind, names: seq<Name>, b: Buffer, n: Name)
    requires |names| == |b.aggs| == |b.flags| && Flagged(kind, names, b)
    ensures Flagged(kind, names + [n], Grow(kind, b, n)) && (Unflagged(b) ==> Unflagged(Grow(kind, b, n)))
  {
  }

  lemma GoodAdd(kind: Name -> Kind, c: Client, n: Name)
    requires Good(kind, c)
    ensures Good(kind, DoAdd(kind, c, n))
  {
    hide Merge, Is, Zero, Fold, Carried, Typed, Flagged, Unflagged;
    ShapedAdd(kind, c, n);
    if n !in c.ids {
      FlaggedGrow(kind, c.names, c.bufs[0], n);
      FlaggedGrow(kind, c.names, c.bufs[1], n);
      var c' := DoAdd(kind, c, n);
      forall m
        ensures Held(kind, c', m) == Held(kind, c, m)
      {
        assert Pending(kind, c', 0, m) == Pending(kind, c, 0, m) && Pending(kind, c', 1, m) == Pending(kind, c, 1, m);
      }
    }
  }

  lemma GoodAfter(kind: Name -> Kind, c: Client, step: Step)
    requires Good(kind, c) && Enabled(kind, c, step)
    ensures Good(kind, After(kind, c, step))
  {
    hide DoAdd, DoWrite, DoSend, DoReceive, Served, Typed, Flagged, Is;
    match step
    case AddAggregator(_, n) => GoodAdd(kind, c, n);
    case Write(_, n, d) => GoodWrite(kind, c, n, d);
    case Send(_) => GoodSend(kind, c);
    case Serve(_) => GoodServe(kind, c);
    case Receive(_) => GoodReceive(kind, c);
    case _ => GoodControl(kind, c, step);
  }

  /** The steps that only move the sender or open and close the writer. */
  lemma GoodControl(kind: Name -> Kind, c: Client, step: Step)
    requires Good(kind, c) && Enabled(kind, c, step) && (step.Open? || step.Close? || step.Swap? || step.Stop?)
    ensures Good(kind, After(kind, c, step))
  {
    ControlPlaced(kind, c, step);
    hide Good;
    GoodSame(kind, c, After(kind, c, step));
  }

  /** Where the sender is and whether the writer is closed does not change what is held. */
  lemma GoodSame(kind: Name -> Kind, c: Client, c': Client)
    requires Good(kind, c) && Shaped(c') && Placed(c') && SameHoldings(c, c')
    ensures Good(kind, c')
  {
    hide Is, Zero, Merge, Fold, Carried, TypedWire, Flagged, Placed;
    assert Typed(kind, c');
    forall n
      ensures Held(kind, c', n) == Held(kind, c, n) && Log(c', n) == Log(c, n)
    {
    }
  }

  predicate SameHoldings(c: Client, c': Client) {
    && c'.names == c.names && c'.ids == c.ids && c'.bufs == c.bufs && c'.wire == c.wire
    && c'.accepted == c.accepted && c'.served == c.served
  }

  lemma ControlPlaced(kind: Name -> Kind, c: Client, step: Step)
    requires Good(kind, c) && Enabled(kind, c, step) && (step.Open? || step.Close? || step.Swap? || step.Stop?)
    ensures Shaped(After(kind, c, step)) && Placed(After(kind, c, step)) && SameHoldings(c, After(kind, c, step))
  {
    hide Typed, Conserved;
  }

  // ----- The whole system -----

  function ServedBy(kind: Name -> Kind, s: State, n: Name): seq<Agg> {
    seq(|s.clients|, i requires 0 <= i < |s.clients| => Get(kind, s.clients[i].served, n))
  }

  ghost predicate Inv(kind: Name -> Kind, s: State) {
    && (forall i :: 0 <= i < |s.clients| ==> Good(kind, s.clients[i]))
    && (forall n :: n in s.table ==> Is(kind(n), s.table[n]))
    && (forall n :: Get(kind, s.table, n) == Fold(kind(n), ServedBy(kind, s, n)))
  }

  lemma {:induction false} FoldUpdate(k: Kind, s: seq<Agg>, i: nat, d: Agg)
    requires All(k, s) && Is(k, d) && i < |s|
    ensures Fold(k, s[i := Merge(s[i], d)]) == Merge(Fold(k, s), d)
  {
    hide Merge, Is, Fold;
    var t := s[i := Merge(s[i], d)];
    MergeIs(k, s[i], d);
    FoldRemove(k, s, i);
    FoldRemove(k, t, i);
    var rest := s[..i] + s[i + 1..];
    assert t[..i] + t[i + 1..] == rest;
    FoldIs(k, rest);
    MergeAssociates(k, Fold(k, rest), s[i], d);
  }

  lemma InvServe(kind: Name -> Kind, s: State, step: Step, n: Name)
    requires Inv(kind, s) && Fires(kind, s, step) && step.Serve?
    ensures var s' := Next(kind, s, step);
      Get(kind, s'.table, n) == Fold(kind(n), ServedBy(kind, s', n))
      && forall m :: m in s'.table ==> Is(kind(m), s'.table[m])
  {
    hide Merge, Is, Zero, Fold, Served, Carried, Flagged, Placed, Conserved;
    var s', c, i := Next(kind, s, step), s.clients[step.i], step.i;
    var d := Carried(kind, c.wire, n);
    CarriedIs(kind, c.wire, n);
    ServedGains(kind, s.table, c.wire, n);
    ServedGains(kind, c.served, c.wire, n);
    AllServed(kind, s, n);
    FoldUpdate(kind(n), ServedBy(kind, s, n), i, d);
    assert ServedBy(kind, s', n) == ServedBy(kind, s, n)[i := Merge(ServedBy(kind, s, n)[i], d)];
  }

  lemma AllServed(kind: Name -> Kind, s: State, n: Name)
    requires Inv(kind, s)
    ensures All(kind(n), ServedBy(kind, s, n))
  {
    forall i | 0 <= i < |s.clients|
      ensures Is(kind(n), Get(kind, s.clients[i].served, n))
    {
      HeldIs(kind, s.clients[i], n);
    }
  }

  lemma InvNext(kind: Name -> Kind, s: State, step: Step)
    requires Inv(kind, s) && Fires(kind, s, step)
    ensures Inv(kind, Next(kind, s, step))
  {
    hide Good, After, Fold, Is, Enabled, Served;
    var s' := Next(kind, s, step);
    GoodAfter(kind, s.clients[step.i], step);
    forall n
      ensures Get(kind, s'.table, n) == Fold(kind(n), ServedBy(kind, s', n))
    {
      if step.Serve? {
        InvServe(kind, s, step, n);
      } else {
        ServedSame(kind, s.clients[step.i], step);
        assert ServedBy(kind, s', n) == ServedBy(kind, s, n);
      }
    }
    if step.Serve? {
      InvServe(kind, s, step, "");
    }
  }

  lemma ServedSame(kind: Name -> Kind, c: Client, step: Step)
    requires Shaped(c) && Enabled(kind, c, step) && !step.Serve?
    ensures After(kind, c, step).served == c.served
  {
  }

  /** Every state of every run, in whatever interleaving, keeps the invariant. */
  lemma {:induction false} RunInv(kind: Name -> Kind, states: seq<State>, steps: seq<Step>, k: nat)
    requires Run(kind, states, steps) && k < |states|
    ensures Inv(kind, states[k])
  {
    hide Inv, Next, Fires;
    if k == 0 {
      StartInv(kind, states[0]);
    } else {
      RunInv(kind, states, steps, k - 1);
      InvNext(kind, states[k - 1], steps[k - 1]);
    }
  }

  lemma StartInv(kind: Name -> Kind, s: State)
    requires s.table == map[] && forall i :: 0 <= i < |s.clients| ==> s.clients[i] == Fresh()
    ensures Inv(kind, s)
  {
    hide Good, Fold, Zero;
    FreshGood(kind);
    forall n
      ensures Get(kind, s.table, n) == Fold(kind(n), ServedBy(kind, s, n))
    {
      ZeroFold(kind(n), ServedBy(kind, s, n));
    }
  }

  lemma FreshGood(kind: Name -> Kind)
    ensures Good(kind, Fresh())
  {
    hide Merge;
    var c := Fresh();
    forall n
      ensures Merge(Get(kind, c.served, n), Held(kind, c, n)) == Fold(kind(n), Log(c, n))
    {
      MergeZero(kind(n), Zero(kind(n)));
    }
  }

  lemma {:induction false} ZeroFold(k: Kind, s: seq<Agg>)
    requires forall i :: 0 <= i < |s| ==> s[i] == Zero(k)
    ensures Fold(k, s) == Zero(k)
  {
    hide Merge, Zero;
    if s != [] {
      ZeroFold(k, s[..|s| - 1]);
      MergeZero(k, Zero(k));
    }
  }

  // ----- Conservation -----

  function HeldBy(kind: Name -> Kind, s: State, n: Name): seq<Agg>
    requires forall i :: 0 <= i < |s.clients| ==> Shaped(s.clients[i])
  {
    seq(|s.clients|, i requires 0 <= i < |s.clients| => Held(kind, s.clients[i], n))
  }

  /** All deltas under name n that the writers of these clients have accepted. */
  function Accepted(cs: seq<Client>, n: Name): seq<Agg> {
    if cs == [] then [] else Accepted(cs[..|cs| - 1], n) + Log(cs[|cs| - 1], n)
  }

  lemma ClientParts(kind: Name -> Kind, c: Client, n: Name)
    requires Good(kind, c)
    ensures Shaped(c) && Is(kind(n), Get(kind, c.served, n)) && Is(kind(n), Held(kind, c, n)) && All(kind(n), Log(c, n))
    ensures Merge(Get(kind, c.served, n), Held(kind, c, n)) == Fold(kind(n), Log(c, n))
  {
    HeldIs(kind, c, n);
  }

  lemma {:induction false} AcceptedIs(kind: Name -> Kind, cs: seq<Client>, n: Name)
    requires forall i :: 0 <= i < |cs| ==> Good(kind, cs[i])
    ensures All(kind(n), Accepted(cs, n))
  {
    hide Good, Is;
    if cs != [] {
      AcceptedIs(kind, cs[..|cs| - 1], n);
      ClientParts(kind, cs[|cs| - 1], n);
    }
  }

  lemma PartsAll(kind: Name -> Kind, s: State, n: Name)
    requires Inv(kind, s)
    ensures forall i :: 0 <= i < |s.clients| ==> Shaped(s.clients[i])
    ensures All(kind(n), ServedBy(kind, s, n)) && All(kind(n), HeldBy(kind, s, n))
  {
    hide Good, Is, Shaped, Held;
    forall i | 0 <= i < |s.clients|
      ensures Shaped(s.clients[i])
    {
      ClientParts(kind, s.clients[i], n);
    }
    forall i | 0 <= i < |s.clients|
      ensures Is(kind(n), ServedBy(kind, s, n)[i]) && Is(kind(n), HeldBy(kind, s, n)[i])
    {
      ClientParts(kind, s.clients[i], n);
    }
  }

  lemma {:induction false} ConservedTo(kind: Name -> Kind, s: State, j: nat, n: Name)
    requires Inv(kind, s) && j <= |s.clients| && forall i :: 0 <= i < |s.clients| ==> Shaped(s.clients[i])
    ensures Merge(Fold(kind(n), ServedBy(kind, s, n)[..j]), Fold(kind(n), HeldBy(kind, s, n)[..j]))
      == Fold(kind(n), Accepted(s.clients[..j], n))
  {
    hide Merge, Is, Held, Good, Shaped, Get;
    var k, x, y := kind(n), ServedBy(kind, s, n), HeldBy(kind, s, n);
    PartsAll(kind, s, n);
    if j == 0 {
      MergeZero(k, Zero(k));
    } else {
      var c, l := s.clients[j - 1], j - 1;
      ConservedTo(kind, s, l, n);
      FoldLast(k, x, l);
      FoldLast(k, y, l);
      FoldIs(k, x[..l]);
      FoldIs(k, y[..l]);
      MergeSwaps(k, Fold(k, x[..l]), x[l], Fold(k, y[..l]), y[l]);
      ClientParts(kind, c, n);
      AcceptedIs(kind, s.clients[..l], n);
      assert s.clients[..j][..l] == s.clients[..l];
      FoldAppend(k, Accepted(s.clients[..l], n), Log(c, n));
    }
  }

  lemma FoldLast(k: Kind, s: seq<Agg>, l: nat)
    requires l < |s|
    ensures Fold(k, s[..l + 1]) == Merge(Fold(k, s[..l]), s[l])
  {
    hide Merge;
    assert s[..l + 1][..l] == s[..l];
  }

  /**
   The server's value, the requests on their way and both buffers of all clients together are
   exactly the merge of the deltas that have been accepted.
   */
  lemma Conservation(kind: Name -> Kind, states: seq<State>, steps: seq<Step>, k: nat, n: Name)
    requires Run(kind, states, steps) && k < |states|
    ensures Inv(kind, states[k]) && forall i :: 0 <= i < |states[k].clients| ==> Shaped(states[k].clients[i])
    ensures Merge(Get(kind, states[k].table, n), Fold(kind(n), HeldBy(kind, states[k], n)))
      == Fold(kind(n), Accepted(states[k].clients, n))
  {
    RunInv(kind, states, steps, k);
    hide Merge, Fold, Good, Run, Shaped, Held;
    var s := states[k];
    PartsAll(kind, s, n);
    ConservedTo(kind, s, |s.clients|, n);
    assert ServedBy(kind, s, n)[..|s.clients|] == ServedBy(kind, s, n);
    assert HeldBy(kind, s, n)[..|s.clients|] == HeldBy(kind, s, n);
    assert s.clients[..|s.clients|] == s.clients;
  }

  // ----- Draining -----

  /** Nothing is pending or on its way. */
  ghost predicate Drained(kind: Name -> Kind, c: Client)
    requires Shaped(c)
  {
    c.wire == [] && forall n :: Pending(kind, c, 0, n) == Zero(kind(n)) && Pending(kind, c, 1, n) == Zero(kind(n))
  }

  /** What wait_empty_writer waits for, when it does not return because the writer is closed. */
  predicate Empty(c: Client)
    requires |c.bufs| == 2
  {
    !c.closed && c.bufs[0].count == 0 && c.bufs[1].count == 0
  }

  /** What finalize_writer waits for: the sender has ended after closing. */
  predicate Finalized(c: Client) {
    c.closed && c.sender == Stopped
  }

  /** Draining is complete: what a drained client has accepted is all merged at the server. */
  lemma DrainIsComplete(kind: Name -> Kind, c: Client, n: Name)
    requires Good(kind, c) && (Empty(c) || Finalized(c))
    ensures Drained(kind, c) && Held(kind, c, n) == Zero(kind(n)) && Get(kind, c.served, n) == Fold(kind(n), Log(c, n))
  {
    hide Merge, Is, Zero, Fold, Typed;
    forall m
      ensures Pending(kind, c, 0, m) == Zero(kind(m)) && Pending(kind, c, 1, m) == Zero(kind(m))
    {
    }
    var k := kind(n);
    HeldIs(kind, c, n);
    MergeZero(k, Zero(k));
    MergeZero(k, Get(kind, c.served, n));
  }

  /** In any state of any run, a client whose draining has returned is drained, whatever the others do. */
  lemma DrainedInRun(kind: Name -> Kind, states: seq<State>, steps: seq<Step>, k: nat, i: nat, n: Name)
    requires Run(kind, states, steps) && k < |states| && i < |states[k].clients|
    requires var c := states[k].clients[i]; |c.bufs| == 2 && (Empty(c) || Finalized(c))
    ensures var c := states[k].clients[i];
      Shaped(c) && Drained(kind, c) && Get(kind, c.served, n) == Fold(kind(n), Log(c, n))
  {
    RunInv(kind, states, steps, k);
    hide Run, Drained, Fold, Good;
    ClientParts(kind, states[k].clients[i], n);
    DrainIsComplete(kind, states[k].clients[i], n);
  }

  /** Once all clients are drained the server has exactly the merge of what was accepted. */
  lemma DrainedTable(kind: Name -> Kind, states: seq<State>, steps: seq<Step>, k: nat, n: Name)
    requires Run(kind, states, steps) && k < |states|
    requires forall i :: 0 <= i < |states[k].clients| ==>
      var c := states[k].clients[i]; |c.bufs| == 2 && (Empty(c) || Finalized(c))
    ensures Get(kind, states[k].table, n) == Fold(kind(n), Accepted(states[k].clients, n))
  {
    hide Merge, Is, Zero, Fold, Accepted, Good, Run, Finalized, Empty, Held, Shaped;
    Conservation(kind, states, steps, k, n);
    var s := states[k];
    forall i | 0 <= i < |s.clients|
      ensures HeldBy(kind, s, n)[i] == Zero(kind(n))
    {
      DrainIsComplete(kind, s.clients[i], n);
    }
    ZeroFold(kind(n), HeldBy(kind, s, n));
    TableIs(kind, s, n);
    MergeZero(kind(n), Get(kind, s.table, n));
  }

  lemma TableIs(kind: Name -> Kind, s: State, n: Name)
    requires Inv(kind, s)
    ensures Is(kind(n), Get(kind, s.table, n))
  {
  }

  /** Runs that accept the same deltas, in whatever order and from whichever clients, end alike. */
  lemma OrderIndependent(kind: Name -> Kind, states: seq<State>, steps: seq<Step>, states': seq<State>,
                         steps': seq<Step>, n: Name)
    requires Run(kind, states, steps) && Run(kind, states', steps')
    requires forall i :: 0 <= i < |states[|steps|].clients| ==> Finalized(states[|steps|].clients[i])
    requires forall i :: 0 <= i < |states'[|steps'|].clients| ==> Finalized(states'[|steps'|].clients[i])
    requires multiset(Accepted(states[|steps|].clients, n)) == multiset(Accepted(states'[|steps'|].clients, n))
    ensures Get(kind, states[|steps|].table, n) == Get(kind, states'[|steps'|].table, n)
  {
    var s, s' := states[|steps|], states'[|steps'|];
    DrainedByFinalize(kind, states, steps, n);
    DrainedByFinalize(kind, states', steps', n);
    FoldPermutes(kind(n), Accepted(s.clients, n), Accepted(s'.clients, n));
  }

  lemma DrainedByFinalize(kind: Name -> Kind, states: seq<State>, steps: seq<Step>, n: Name)
    requires Run(kind, states, steps)
    requires forall i :: 0 <= i < |states[|steps|].clients| ==> Finalized(states[|steps|].clients[i])
    ensures var s := states[|steps|];
      All(kind(n), Accepted(s.clients, n)) && Get(kind, s.table, n) == Fold(kind(n), Accepted(s.clients, n))
  {
    var s := states[|steps|];
    RunInv(kind, states, steps, |steps|);
    hide Fold, Accepted, Run, Good, Finalized;
    forall i | 0 <= i < |s.clients|
      ensures |s.clients[i].bufs| == 2
    {
      ClientParts(kind, s.clients[i], n);
    }
    DrainedTable(kind, states, steps, |steps|, n);
    AcceptedIs(kind, s.clients, n);
  }

  /**
   Flush frequency, batching and order do not matter: if the accepted deltas are batches of these
   values, the server ends with an aggregator that has seen the values, each once.
   */
  lemma BatchingIndependent(kind: Name -> Kind, states: seq<State>, steps: seq<Step>, n: Name,
                            batches: seq<seq<Value>>, values: seq<Value>)
    requires Run(kind, states, steps)
    requires forall i :: 0 <= i < |states[|steps|].clients| ==> Finalized(states[|steps|].clients[i])
    requires forall i :: 0 <= i < |batches| ==> AllInRange(batches[i])
    requires multiset(Accepted(states[|steps|].clients, n)) == multiset(MergedEach(kind(n), batches))
    requires AllInRange(values) && multiset(values) == multiset(Flatten(batches))
    ensures Get(kind, states[|steps|].table, n) == Merged(kind(n), values)
  {
    var s := states[|steps|];
    hide Fold, Merged, Accepted, Is, Run, Finalized, MergedEach, Flatten;
    DrainedByFinalize(kind, states, steps, n);
    BatchesMerge(kind(n), batches);
    FoldPermutes(kind(n), Accepted(s.clients, n), MergedEach(kind(n), batches));
    MergedPermutes(kind(n), values, Flatten(batches));
  }

  /** A closed writer accepts nothing until it is opened again. */
  lemma {:induction false} ClosedRefuses(kind: Name -> Kind, states: seq<State>, steps: seq<Step>, i: nat, k: nat,
                                         m: nat)
    requires Run(kind, states, steps) && k <= m < |states| && i < |states[k].clients| && states[k].clients[i].closed
    requires forall j :: k <= j < m ==> steps[j] != Open(i)
    ensures i < |states[m].clients| && states[m].clients[i].closed
    ensures states[m].clients[i].accepted == states[k].clients[i].accepted
    decreases m
  {
    if k < m {
      ClosedRefuses(kind, states, steps, i, k, m - 1);
      var s, step := states[m - 1], steps[m - 1];
      assert Fires(kind, s, step) && states[m] == Next(kind, s, step);
      if step.i == i {
        assert !step.Open? by { assert step.Open? ==> step == Open(i); }
        ClosedAfter(kind, s.clients[i], step);
      }
    }
  }

  lemma ClosedAfter(kind: Name -> Kind, c: Client, step: Step)
    requires Shaped(c) && Enabled(kind, c, step) && c.closed && !step.Open?
    ensures After(kind, c, step).closed && After(kind, c, step).accepted == c.accepted
  {
  }

  /** A writer is open if it has been opened and not been closed since. */
  function IsOpen(steps: seq<Step>, k: nat, i: nat): bool
    requires k <= |steps|
  {
    if k == 0 then false
    else if steps[k - 1] == Open(i) then true
    else if steps[k - 1] == Close(i) then false
    else IsOpen(steps, k - 1, i)
  }

  function IsAdded(steps: seq<Step>, k: nat, i: nat, n: Name): bool
    requires k <= |steps|
  {
    if k == 0 then false else steps[k - 1] == AddAggregator(i, n) || IsAdded(steps, k - 1, i, n)
  }

  lemma OpenAfter(kind: Name -> Kind, c: Client, step: Step, n: Name)
    requires Shaped(c) && Enabled(kind, c, step)
    ensures var c' := After(kind, c, step);
      && (c'.closed <==> if step.Open? then false else if step.Close? then true else c.closed)
      && (n in c'.ids <==> n in c.ids || (step.AddAggregator? && step.n == n))
  {
  }

  lemma {:induction false} RunAccepts(kind: Name -> Kind, states: seq<State>, steps: seq<Step>, k: nat, i: nat, n: Name)
    requires Run(kind, states, steps) && k < |states| && i < |states[k].clients|
    ensures Accepts(states[k].clients[i], n) <==> IsOpen(steps, k, i) && IsAdded(steps, k, i, n)
    ensures states[k].clients[i].closed <==> !IsOpen(steps, k, i)
    ensures n in states[k].clients[i].ids <==> IsAdded(steps, k, i, n)
  {
    if k > 0 {
      var s, step := states[k - 1], steps[k - 1];
      assert Fires(kind, s, step) && states[k] == Next(kind, s, step);
      RunAccepts(kind, states, steps, k - 1, i, n);
      if step.i == i {
        OpenAfter(kind, s.clients[i], step, n);
      }
    }
  }

  /** A write is accepted exactly if its name has been added and the writer is open; then it is the last in the log. */
  lemma WriteAccepted(kind: Name -> Kind, states: seq<State>, steps: seq<Step>, k: nat)
    requires Run(kind, states, steps) && k < |steps| && steps[k].Write?
    ensures var i, n, d := steps[k].i, steps[k].n, steps[k].d;
      && i < |states[k].clients| && i < |states[k + 1].clients|
      && Log(states[k + 1].clients[i], n) == Log(states[k].clients[i], n)
         + if IsOpen(steps, k, i) && IsAdded(steps, k, i, n) then [d] else []
  {
    var i, n := steps[k].i, steps[k].n;
    assert Fires(kind, states[k], steps[k]) && states[k + 1] == Next(kind, states[k], steps[k]);
    RunAccepts(kind, states, steps, k, i, n);
  }
}
