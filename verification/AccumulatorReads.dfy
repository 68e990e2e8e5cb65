/** What a read at the server sees of the deltas that writers have handed to their clients. */
module AccumulatorReads {
  import opened Basics
  import opened Aggregators
  import opened Accumulators

  /** process_read_request: the aggregator under a name, or "not found". */
  function Read(table: map<Name, Agg>, n: Name): Option<Agg> {
    if n in table then Some(table[n]) else None
  }

  predicate OnWire(w: seq<(Name, Agg)>, n: Name) {
    exists i :: 0 <= i < |w| && w[i].0 == n
  }

  predicate Marked(c: Client, b: nat, n: Name)
    requires Shaped(c) && b < 2
  {
    n in c.ids && c.bufs[b].flags[c.ids[n]]
  }

  /** The name has been served, is on its way, or is marked for sending in a buffer. */
  predicate Known(c: Client, n: Name)
    requires Shaped(c)
  {
    n in c.served || OnWire(c.wire, n) || Marked(c, 0, n) || Marked(c, 1, n)
  }

  /** A client knows exactly the names under which it has accepted something. */
  ghost predicate Tracks(c: Client, n: Name) {
    Shaped(c) && (Known(c, n) <==> Log(c, n) != [])
  }

  lemma OnWireLast(w: seq<(Name, Agg)>, e: (Name, Agg), n: Name)
    ensures OnWire(w + [e], n) <==> OnWire(w, n) || e.0 == n
  {
    assert forall i :: 0 <= i < |w| ==> (w + [e])[i] == w[i];
    assert (w + [e])[|w|] == e;
  }

  lemma {:induction false} ServedNames(kind: Name -> Kind, t: map<Name, Agg>, w: seq<(Name, Agg)>, n: Name)
    ensures n in Served(kind, t, w) <==> n in t || OnWire(w, n)
  {
    if w != [] {
      var k := |w| - 1;
      ServedNames(kind, t, w[..k], n);
      assert w == w[..k] + [w[k]];
      OnWireLast(w[..k], w[k], n);
    }
  }

  lemma {:induction false} CollectNames(names: seq<Name>, b: Buffer, k: nat, n: Name)
    requires k <= |names| == |b.aggs| == |b.flags|
    ensures OnWire(Collect(names, b, k), n) <==> exists i :: 0 <= i < k && b.flags[i] && names[i] == n
    decreases k
  {
    if k > 0 {
      CollectNames(names, b, k - 1, n);
      var w := Collect(names, b, k - 1);
      if b.flags[k - 1] {
        OnWireLast(w, (names[k - 1], b.aggs[k - 1]), n);
      } else {
        assert Collect(names, b, k) == w;
      }
    }
  }

  lemma AddTracks(kind: Name -> Kind, c: Client, m: Name, n: Name)
    requires Tracks(c, n)
    ensures Shaped(DoAdd(kind, c, m)) ==> Tracks(DoAdd(kind, c, m), n)
  {
  }

  lemma WriteTracks(c: Client, m: Name, d: Agg, n: Name)
    requires Tracks(c, n)
    ensures Shaped(DoWrite(c, m, d)) ==> Tracks(DoWrite(c, m, d), n)
  {
    if Accepts(c, m) {
      var c' := DoWrite(c, m, d);
      assert Log(c', n) == if n == m then Log(c, n) + [d] else Log(c, n);
      if Shaped(c') {
        assert n == m ==> Marked(c', c.active, n);
        assert n != m && n in c.ids ==> c.ids[n] != c.ids[m];
        assert n != m ==> forall b :: 0 <= b < 2 ==> Marked(c', b, n) == Marked(c, b, n);
      }
    }
  }

  lemma SendTracks(kind: Name -> Kind, c: Client, n: Name)
    requires Tracks(c, n) && c.sender.Building? && c.wire == []
    ensures Shaped(DoSend(kind, c)) ==> Tracks(DoSend(kind, c), n)
  {
    var b, c' := c.sender.b, DoSend(kind, c);
    if Shaped(c') {
      CollectNames(c.names, c.bufs[b], |c.names|, n);
      assert OnWire(c'.wire, n) <==> Marked(c, b, n);
      assert !Marked(c', b, n) && Marked(c', 1 - b, n) == Marked(c, 1 - b, n);
    }
  }

  lemma TracksAfter(kind: Name -> Kind, c: Client, step: Step, n: Name)
    requires Tracks(c, n) && Enabled(kind, c, step) && Shaped(After(kind, c, step))
    requires c.sender.Building? ==> c.wire == []
    ensures Tracks(After(kind, c, step), n)
  {
    match step
    case AddAggregator(_, m) => AddTracks(kind, c, m, n);
    case Write(_, m, d) => WriteTracks(c, m, d, n);
    case Send(_) => SendTracks(kind, c, n);
    case Serve(_) => ServedNames(kind, c.served, c.wire, n);
    case _ =>
  }

  /** The server knows a name exactly if some client has had it served. */
  ghost predicate TableTracks(s: State, n: Name) {
    && (forall i :: 0 <= i < |s.clients| ==> Tracks(s.clients[i], n))
    && (n in s.table <==> exists i :: 0 <= i < |s.clients| && n in s.clients[i].served)
  }

  lemma TableTracksStep(s: State, s': State, i: nat, n: Name, served: bool)
    requires TableTracks(s, n) && i < |s.clients| == |s'.clients| && s'.clients == s.clients[i := s'.clients[i]]
    requires Tracks(s'.clients[i], n)
    requires n in s'.clients[i].served <==> n in s.clients[i].served || served
    requires n in s'.table <==> n in s.table || served
    ensures TableTracks(s', n)
  {
    hide Tracks;
    assert forall j :: 0 <= j < |s.clients| && j != i ==> s'.clients[j] == s.clients[j];
  }

  lemma TableTracksNext(kind: Name -> Kind, s: State, step: Step, n: Name)
    requires Inv(kind, s) && Fires(kind, s, step) && Inv(kind, Next(kind, s, step)) && TableTracks(s, n)
    ensures TableTracks(Next(kind, s, step), n)
  {
    var i, c, s' := step.i, s.clients[step.i], Next(kind, s, step);
    assert Good(kind, c) && Good(kind, s'.clients[i]) && Tracks(c, n) && s'.clients[i] == After(kind, c, step);
    hide *;
    GoodPlace(kind, c);
    GoodPlace(kind, s'.clients[i]);
    TracksAfter(kind, c, step, n);
    if step.Serve? {
      ServedNames(kind, s.table, c.wire, n);
      ServedNames(kind, c.served, c.wire, n);
      ServeServes(kind, s, step);
      TableTracksStep(s, s', i, n, OnWire(c.wire, n));
    } else {
      ServedSame(kind, c, step);
      OthersServeNot(kind, s, step);
      TableTracksStep(s, s', i, n, false);
    }
  }

  lemma ServeServes(kind: Name -> Kind, s: State, step: Step)
    requires Fires(kind, s, step) && step.Serve?
    ensures var c, s' := s.clients[step.i], Next(kind, s, step);
      && s'.clients == s.clients[step.i := c.(wire := [], served := Served(kind, c.served, c.wire))]
      && s'.table == Served(kind, s.table, c.wire)
  {
  }

  lemma OthersServeNot(kind: Name -> Kind, s: State, step: Step)
    requires Fires(kind, s, step) && !step.Serve?
    ensures var s' := Next(kind, s, step);
      s'.clients == s.clients[step.i := After(kind, s.clients[step.i], step)] && s'.table == s.table
  {
    hide After;
  }

  lemma GoodPlace(kind: Name -> Kind, c: Client)
    requires Good(kind, c)
    ensures Shaped(c) && (c.sender.Building? ==> c.wire == [])
  {
  }

  lemma {:induction false} RunTracks(kind: Name -> Kind, states: seq<State>, steps: seq<Step>, k: nat, n: Name)
    requires Run(kind, states, steps) && k < |states|
    ensures TableTracks(states[k], n)
  {
    hide Inv, Next, Fires;
    if k > 0 {
      hide TableTracks;
      RunTracks(kind, states, steps, k - 1, n);
      RunInv(kind, states, steps, k - 1);
      RunInv(kind, states, steps, k);
      TableTracksNext(kind, states[k - 1], steps[k - 1], n);
    }
  }

  lemma DrainedKnows(kind: Name -> Kind, c: Client, n: Name)
    requires Good(kind, c) && (Empty(c) || Finalized(c)) && Tracks(c, n)
    ensures n in c.served <==> Log(c, n) != []
  {
    hide Typed, Conserved;
  }

  lemma {:induction false} AcceptedAny(cs: seq<Client>, n: Name)
    ensures Accepted(cs, n) != [] <==> exists i :: 0 <= i < |cs| && Log(cs[i], n) != []
  {
    if cs != [] {
      var k := |cs| - 1;
      AcceptedAny(cs[..k], n);
      assert forall i :: 0 <= i < k ==> cs[..k][i] == cs[i];
    }
  }

  /**
   Once all clients are drained, a read answers "not found" exactly for the names under which
   nothing has been accepted, and any other name with the merge of all that has been accepted.
   */
  lemma ReadSees(kind: Name -> Kind, states: seq<State>, steps: seq<Step>, k: nat, n: Name)
    requires Run(kind, states, steps) && k < |states|
    requires forall i :: 0 <= i < |states[k].clients| ==>
      var c := states[k].clients[i]; |c.bufs| == 2 && (Empty(c) || Finalized(c))
    ensures var deltas := Accepted(states[k].clients, n);
      Read(states[k].table, n) == if deltas == [] then None else Some(Fold(kind(n), deltas))
  {
    hide Accepted, Fold, Run, Tracks, Good, Empty, Finalized;
    var s := states[k];
    DrainedTable(kind, states, steps, k, n);
    RunInv(kind, states, steps, k);
    RunTracks(kind, states, steps, k, n);
    AcceptedAny(s.clients, n);
    forall i | 0 <= i < |s.clients|
      ensures n in s.clients[i].served <==> Log(s.clients[i], n) != []
    {
      DrainedKnows(kind, s.clients[i], n);
    }
  }

  /** At any other time too, what a read finds has been accepted. */
  lemma ReadFinds(kind: Name -> Kind, states: seq<State>, steps: seq<Step>, k: nat, n: Name)
    requires Run(kind, states, steps) && k < |states| && Read(states[k].table, n).Some?
    ensures Accepted(states[k].clients, n) != []
  {
    RunTracks(kind, states, steps, k, n);
    AcceptedAny(states[k].clients, n);
  }
}
