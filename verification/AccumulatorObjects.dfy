/** The client, server and user-side objects of the accumulator protocol, whose methods make its steps. */
module AccumulatorObjects {
  import opened Basics
  import opened Aggregators
  import opened Accumulators
  import opened AccumulatorReads
  import opened AccumulatorUsers

  /** The client of one process.  The sender's place, the wire and the histories are for the proof only. */
  class AccumulatorClient {
    const kind: Name -> Kind
    var names: seq<Name>
    var ids: map<Name, nat>
    var bufs: seq<Buffer>
    var active: nat
    var closed: bool
    ghost var sender: Sender
    ghost var wire: seq<(Name, Agg)>
    ghost var accepted: map<Name, seq<Agg>>
    ghost var served: map<Name, Agg>

    ghost function View(): Client
      reads this
    {
      Client(names, ids, bufs, active, closed, sender, wire, accepted, served)
    }

    constructor (kind: Name -> Kind)
      ensures View() == Fresh() && this.kind == kind
    {
      this.kind := kind;
      names, ids := [], map[];
      bufs, active := [Buffer([], [], 0), Buffer([], [], 0)], 0;
      closed := true;
      sender, wire, accepted, served := Stopped, [], map[], map[];
    }

    method AddAggregator(n: Name)
      requires Shaped(View())
      modifies this
      ensures View() == DoAdd(kind, old(View()), n)
    {
      if n in ids {
        return;
      }
      var id := |bufs[0].aggs|;
      ghost var before := bufs;
      for b := 0 to 2
        modifies this`bufs
        invariant |bufs| == 2
        invariant forall j :: 0 <= j < 2 ==> bufs[j] == if j < b then Grow(kind, before[j], n) else before[j]
      {
        bufs := bufs[b := Grow(kind, bufs[b], n)];
      }
      assert bufs == [Grow(kind, before[0], n), Grow(kind, before[1], n)];
      names := names + [n];
      ids := ids[n := id];
    }

    method Write(n: Name, d: Agg) returns (ok: bool)
      requires Shaped(View())
      modifies this`bufs, this`accepted
      ensures View() == DoWrite(old(View()), n, d) && ok == Accepts(old(View()), n)
    {
      if n !in ids || closed {
        return false;
      }
      bufs := bufs[active := Put(bufs[active], ids[n], d)];
      accepted := accepted[n := Log(View(), n) + [d]];
      return true;
    }

    /** initialize_writer; the sender thread starts. */
    method InitializeWriter()
      requires Shaped(View()) && Enabled(kind, View(), Open(0))
      modifies this`closed, this`sender
      ensures View() == After(kind, old(View()), Open(0))
    {
      if !closed {
        return;
      }
      closed := false;
      sender := Idle;
    }

    /** The first half of finalize_writer. */
    method CloseWriter()
      requires Shaped(View()) && Enabled(kind, View(), Close(0))
      modifies this`closed
      ensures View() == After(kind, old(View()), Close(0))
    {
      closed := true;
    }

    /** The sender has waited until there is something to send or the writer is closed. */
    method TakeBuffer() returns (b: nat, go: bool)
      requires Shaped(View()) && sender == Idle && (bufs[active].count > 0 || closed)
      modifies this`active, this`sender
      ensures go ==>
        && Enabled(kind, old(View()), Swap(0)) && View() == After(kind, old(View()), Swap(0))
        && sender == Building(b, false)
      ensures !go ==> Enabled(kind, old(View()), Stop(0)) && View() == After(kind, old(View()), Stop(0))
    {
      b, go := active, bufs[active].count > 0;
      if go {
        active := 1 - active;
        sender := Building(b, false);
      } else {
        sender := Stopped;
      }
    }

    /** The locked part of send2server: counts what is flagged, then serializes and initializes it. */
    method BuildRequest(b: nat) returns (request: seq<(Name, Agg)>)
      requires Shaped(View()) && sender.Building? && sender.b == b
      modifies this`bufs, this`wire, this`sender
      ensures View() == DoSend(kind, old(View())) && request == wire
    {
      ghost var before := bufs[b];
      request := [];
      var sending := 0;
      for i := 0 to |names|
        invariant sending == |Collect(names, before, i)|
      {
        if bufs[b].flags[i] {
          sending := sending + 1;
        }
      }
      if sending > 0 {
        request := SendFlagged(b);
      } else {
        NothingSent(names, before, |names|);
        assert bufs[b] == Emptied(kind, names, before);
      }
      wire := request;
      sender := Waiting(b, sender.last);
    }

    /** Serializes and initializes the flagged aggregators of buffer b. */
    method SendFlagged(b: nat) returns (request: seq<(Name, Agg)>)
      requires Shaped(View()) && b < 2
      modifies this`bufs
      ensures bufs == old(bufs)[b := Emptied(kind, names, old(bufs)[b])]
      ensures request == Collect(names, old(bufs)[b], |names|)
    {
      hide SentTo, Zero;
      ghost var before := bufs[b];
      request := [];
      SentStart(kind, names, before);
      for i := 0 to |names|
        invariant |bufs| == 2 && bufs == old(bufs)[b := SentTo(kind, names, before, i)]
        invariant request == Collect(names, before, i)
      {
        SentStep(kind, names, before, i);
        assert bufs[b] == SentTo(kind, names, before, i);
        if bufs[b].flags[i] {
          request := request + [(names[i], bufs[b].aggs[i])];
          var aggs, flags := bufs[b].aggs[i := Zero(kind(names[i]))], bufs[b].flags[i := false];
          bufs := bufs[b := bufs[b].(aggs := aggs, flags := flags)];
        }
      }
    }

    /** After the response, under the write lock again. */
    method EndSend(b: nat)
      requires Shaped(View()) && sender.Waiting? && sender.b == b && wire == []
      modifies this`bufs, this`sender
      ensures View() == DoReceive(old(View()))
    {
      bufs := bufs[b := bufs[b].(count := 0)];
      if sender.last {
        sender := Stopped;
      } else if closed {
        if bufs[active].count > 0 {
          sender := Building(active, true);
        } else {
          sender := Stopped;
        }
      } else {
        sender := Idle;
      }
    }
  }

  /** The buffer after the first k aggregators have been sent. */
  ghost function SentTo(kind: Name -> Kind, names: seq<Name>, b: Buffer, k: nat): (r: Buffer)
    requires k <= |names| == |b.aggs| == |b.flags|
    ensures |r.aggs| == |r.flags| == |names| && r.count == b.count
    ensures k == |names| ==> r == Emptied(kind, names, b)
  {
    Buffer(seq(|names|, i requires 0 <= i < |names| => if i < k && b.flags[i] then Zero(kind(names[i])) else b.aggs[i]),
           seq(|names|, i requires 0 <= i < |names| => i >= k && b.flags[i]), b.count)
  }

  lemma SentStart(kind: Name -> Kind, names: seq<Name>, b: Buffer)
    requires |names| == |b.aggs| == |b.flags|
    ensures SentTo(kind, names, b, 0) == b
  {
  }

  lemma SentStep(kind: Name -> Kind, names: seq<Name>, b: Buffer, k: nat)
    requires k < |names| == |b.aggs| == |b.flags|
    ensures var s, s' := SentTo(kind, names, b, k), SentTo(kind, names, b, k + 1);
      && s.flags[k] == b.flags[k] && s.aggs[k] == b.aggs[k]
      && s' == if b.flags[k] then s.(aggs := s.aggs[k := Zero(kind(names[k]))], flags := s.flags[k := false]) else s
  {
    var s, s' := SentTo(kind, names, b, k), SentTo(kind, names, b, k + 1);
    if b.flags[k] {
      assert s'.aggs == s.aggs[k := Zero(kind(names[k]))] && s'.flags == s.flags[k := false];
    } else {
      assert s'.aggs == s.aggs && s'.flags == s.flags;
    }
  }

  lemma {:induction false} NothingSent(names: seq<Name>, b: Buffer, k: nat)
    requires k <= |names| == |b.aggs| == |b.flags| && Collect(names, b, k) == []
    ensures forall i :: 0 <= i < k ==> !b.flags[i]
    decreases k
  {
    if k > 0 {
      NothingSent(names, b, k - 1);
    }
  }

  class AccumulatorServer {
    const kind: Name -> Kind
    var table: map<Name, Agg>

    constructor (kind: Name -> Kind)
      ensures table == map[] && this.kind == kind
    {
      this.kind := kind;
      table := map[];
    }

    /** process_write_request */
    method ProcessWrite(request: seq<(Name, Agg)>)
      modifies this
      ensures table == Served(kind, old(table), request)
    {
      for i := 0 to |request|
        invariant table == Served(kind, old(table), request[..i])
      {
        assert request[..i + 1][..i] == request[..i];
        var (n, d) := request[i];
        if n !in table {
          table := table[n := d];
        } else {
          table := table[n := Merge(table[n], d)];
        }
      }
      assert request[..|request|] == request;
    }

    /** process_read_request; ReadSees and ReadFinds in AccumulatorReads say what it answers in a run. */
    method ProcessRead(n: Name) returns (r: Option<Agg>)
      ensures r == Read(table, n)
    {
      r := if n in table then Some(table[n]) else None;
    }
  }

  /** What a user writes to: values are merged locally and handed to the client every flushFreq writes. */
  class Accumulator {
    const name: Name
    const flushFreq: nat
    const client: AccumulatorClient
    var agg: Agg
    var cachedCount: nat
    ghost var account: Account

    ghost predicate Valid()
      reads this, client
    {
      && Shaped(client.View()) && Booked(account) && account.name == name && account.freq == flushFreq
      && cachedCount == |account.cached| && agg == Merged(client.kind(name), account.cached)
    }

    constructor (name: Name, flushFreq: nat, client: AccumulatorClient)
      requires Shaped(client.View())
      modifies client
      ensures Valid() && account == Opened(name, flushFreq)
      ensures this.name == name && this.flushFreq == flushFreq && this.client == client
      ensures client.View() == DoAdd(client.kind, old(client.View()), name)
    {
      this.name, this.flushFreq, this.client := name, flushFreq, client;
      agg := Zero(client.kind(name));
      cachedCount := 0;
      account := Opened(name, flushFreq);
      new;
      OpenedBooked(name, flushFreq);
      client.AddAggregator(name);
      AddShaped(client.kind, old(client.View()), name);
    }

    /** flush_nonlock: hands the batch over, and forgets it even if the client refuses it. */
    method Flush() returns (ok: bool)
      requires Valid()
      modifies this, client`bufs, client`accepted
      ensures Valid() && account == Flushed(old(account), ok)
      ensures if old(account).cached == [] then ok && client.View() == old(client.View())
        else
          && client.View() == DoWrite(old(client.View()), name, Merged(client.kind(name), old(account).cached))
          && ok == Accepts(old(client.View()), name)
    {
      hide Shaped, Booked, DoWrite;
      if cachedCount == 0 {
        return true;
      }
      ghost var before := account;
      WriteShaped(client.View(), name, agg);
      ok := client.Write(name, agg);
      agg := Zero(client.kind(name));
      cachedCount := 0;
      account := Flushed(account, ok);
      FlushedBooked(before, ok);
    }

    /** write: the batch goes to the client as soon as it has flushFreq values. */
    method Write(v: Value) returns (ok: bool)
      requires Valid()
      modifies this, client`bufs, client`accepted
      ensures Valid()
      ensures var a := With(old(account), v);
        if Due(a) then
          && account == Flushed(a, ok) && ok == Accepts(old(client.View()), name)
          && client.View() == DoWrite(old(client.View()), name, Merged(client.kind(name), a.cached))
        else account == a && ok && client.View() == old(client.View())
    {
      hide Shaped, Booked, DoWrite, Flushed;
      WithBooked(account, v);
      agg := MergeValue(agg, v);
      cachedCount := cachedCount + 1;
      account := With(account, v);
      if flushFreq > 0 && cachedCount >= flushFreq {
        ok := Flush();
      } else {
        ok := true;
      }
    }
  }

  lemma AddShaped(kind: Name -> Kind, c: Client, n: Name)
    requires Shaped(c)
    ensures Shaped(DoAdd(kind, c, n))
  {
  }

  lemma WriteShaped(c: Client, n: Name, d: Agg)
    requires Shaped(c)
    ensures Shaped(DoWrite(c, n, d))
  {
  }
}
