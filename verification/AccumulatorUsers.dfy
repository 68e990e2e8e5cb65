/**
 The accumulators that users write to, above the protocol.  An accumulator merges values locally
 and hands the batch to its client every `freq` writes and when it is flushed.
 */
module AccumulatorUsers {
  import opened Aggregators
  import opened Accumulators

  /** `handed` and `lost` are the batches the client has accepted and refused, `given` is every value written. */
  datatype Account = Account(name: Name, freq: nat, cached: seq<Value>,
                             handed: seq<seq<Value>>, lost: seq<seq<Value>>, given: seq<Value>)

  datatype User = User(client: nat, account: Account)

  datatype System = System(state: State, users: seq<User>)

  datatype Move =
    | Create(i: nat, n: Name, freq: nat)
    | Give(j: nat, v: Value)
    | Flush(j: nat)
    | Other(step: Step)

  // ----- One accumulator -----

  function Opened(n: Name, freq: nat): Account {
    Account(n, freq, [], [], [], [])
  }

  function With(a: Account, v: Value): Account {
    a.(cached := a.cached + [v], given := a.given + [v])
  }

  predicate Due(a: Account) {
    a.freq > 0 && |a.cached| >= a.freq
  }

  /** The cache is forgotten even if the client refuses it. */
  function Flushed(a: Account, ok: bool): Account {
    if a.cached == [] then a
    else if ok then a.(cached := [], handed := a.handed + [a.cached])
    else a.(cached := [], lost := a.lost + [a.cached])
  }

  ghost predicate Ranged(batches: seq<seq<Value>>) {
    forall i :: 0 <= i < |batches| ==> AllInRange(batches[i])
  }

  /** Every value written is in the cache, in a batch that was accepted, or in one that was refused. */
  ghost predicate Booked(a: Account) {
    && multiset(a.given) == multiset(Flatten(a.handed)) + multiset(Flatten(a.lost)) + multiset(a.cached)
    && (a.lost == [] ==> a.given == Flatten(a.handed) + a.cached)
  }

  ghost predicate Bounded(a: Account) {
    AllInRange(a.cached) && Ranged(a.handed)
  }

  lemma WithBooked(a: Account, v: Value)
    requires Booked(a)
    ensures Booked(With(a, v)) && (Bounded(a) && InRange(v) ==> Bounded(With(a, v)))
  {
    hide Flatten;
  }

  lemma FlattenLast<T>(batches: seq<seq<T>>, b: seq<T>)
    ensures Flatten(batches + [b]) == Flatten(batches) + b
  {
    assert (batches + [b])[..|batches|] == batches;
  }

  lemma FlushedBooked(a: Account, ok: bool)
    requires Booked(a)
    ensures Booked(Flushed(a, ok)) && (Bounded(a) ==> Bounded(Flushed(a, ok)))
  {
    hide Flatten;
    if ok {
      FlattenLast(a.handed, a.cached);
    } else {
      FlattenLast(a.lost, a.cached);
    }
  }

  // ----- All accumulators and clients, in any interleaving -----

  function Handing(kind: Name -> Kind, u: User): Step {
    Write(u.client, u.account.name, Merged(kind(u.account.name), u.account.cached))
  }

  /** The protocol can take the cache of accumulator j, if it has one. */
  predicate Takes(kind: Name -> Kind, y: System, j: nat) {
    j < |y.users| && (y.users[j].account.cached != [] ==> Fires(kind, y.state, Handing(kind, y.users[j])))
  }

  /** flush_nonlock */
  function HandOver(kind: Name -> Kind, y: System, j: nat): System
    requires Takes(kind, y, j)
  {
    var u := y.users[j];
    if u.account.cached == [] then y
    else
      var ok := Accepts(y.state.clients[u.client], u.account.name);
      System(Next(kind, y.state, Handing(kind, u)), y.users[j := u.(account := Flushed(u.account, ok))])
  }

  function Cache(y: System, j: nat, v: Value): System
    requires j < |y.users|
  {
    y.(users := y.users[j := y.users[j].(account := With(y.users[j].account, v))])
  }

  predicate CanMove(kind: Name -> Kind, y: System, move: Move) {
    match move
    case Create(i, n, _) => Fires(kind, y.state, AddAggregator(i, n))
    case Give(j, v) =>
      j < |y.users| && InRange(v) && (Due(With(y.users[j].account, v)) ==> Takes(kind, Cache(y, j, v), j))
    case Flush(j) => Takes(kind, y, j)
    case Other(step) => !step.Write? && Fires(kind, y.state, step)
  }

  function Moved(kind: Name -> Kind, y: System, move: Move): System
    requires CanMove(kind, y, move)
  {
    match move
    case Create(i, n, freq) =>
      System(Next(kind, y.state, AddAggregator(i, n)), y.users + [User(i, Opened(n, freq))])
    case Give(j, v) =>
      if Due(With(y.users[j].account, v)) then HandOver(kind, Cache(y, j, v), j) else Cache(y, j, v)
    case Flush(j) => HandOver(kind, y, j)
    case Other(step) => y.(state := Next(kind, y.state, step))
  }

  /** A run of the whole system in which all writes come from accumulators. */
  ghost predicate Runs(kind: Name -> Kind, ys: seq<System>, moves: seq<Move>) {
    && |ys| == |moves| + 1 && ys[0].users == [] && ys[0].state.table == map[]
    && (forall i :: 0 <= i < |ys[0].state.clients| ==> ys[0].state.clients[i] == Fresh())
    && forall k :: 0 <= k < |moves| ==> CanMove(kind, ys[k], moves[k]) && ys[k + 1] == Moved(kind, ys[k], moves[k])
  }

  // ----- A run of the system is a run of the protocol -----

  function StepsOf(kind: Name -> Kind, y: System, move: Move): seq<Step>
    requires CanMove(kind, y, move)
  {
    match move
    case Create(i, n, _) => [AddAggregator(i, n)]
    case Give(j, v) =>
      if Due(With(y.users[j].account, v)) then [Handing(kind, Cache(y, j, v).users[j])] else []
    case Flush(j) => if y.users[j].account.cached == [] then [] else [Handing(kind, y.users[j])]
    case Other(step) => [step]
  }

  lemma StepsMove(kind: Name -> Kind, y: System, move: Move)
    requires CanMove(kind, y, move)
    ensures var steps := StepsOf(kind, y, move);
      if steps == [] then Moved(kind, y, move).state == y.state
      else |steps| == 1 && Fires(kind, y.state, steps[0]) && Moved(kind, y, move).state == Next(kind, y.state, steps[0])
  {
    hide Fires, Next, Merged;
  }

  lemma RunLonger(kind: Name -> Kind, states: seq<State>, steps: seq<Step>, step: Step)
    requires Run(kind, states, steps) && Fires(kind, states[|steps|], step)
    ensures Run(kind, states + [Next(kind, states[|steps|], step)], steps + [step])
  {
    hide Fires, Next;
  }

  lemma {:induction false} Protocol(kind: Name -> Kind, ys: seq<System>, moves: seq<Move>, k: nat)
    returns (states: seq<State>, steps: seq<Step>)
    requires Runs(kind, ys, moves) && k < |ys|
    ensures Run(kind, states, steps) && states[|steps|] == ys[k].state
    decreases k
  {
    hide CanMove, Moved, Fires, Next;
    if k == 0 {
      states, steps := [ys[0].state], [];
    } else {
      states, steps := Protocol(kind, ys, moves, k - 1);
      StepsMove(kind, ys[k - 1], moves[k - 1]);
      var more := StepsOf(kind, ys[k - 1], moves[k - 1]);
      if more != [] {
        RunLonger(kind, states, steps, more[0]);
        states, steps := states + [Next(kind, states[|steps|], more[0])], steps + [more[0]];
      }
    }
  }

  // ----- The accepted deltas are the accepted batches -----

  /** The batches that the client has accepted from an accumulator of this name. */
  function HandedOf(a: Account, n: Name): seq<seq<Value>> {
    if a.name == n then a.handed else []
  }

  function Handed(users: seq<User>, n: Name): seq<seq<Value>> {
    Flatten(seq(|users|, j requires 0 <= j < |users| => HandedOf(users[j].account, n)))
  }

  function Deltas(kind: Name -> Kind, users: seq<User>, n: Name): (r: seq<seq<Agg>>)
    ensures |r| == |users| && forall j :: 0 <= j < |r| ==> r[j] == MergedEach(kind(n), HandedOf(users[j].account, n))
  {
    seq(|users|, j requires 0 <= j < |users| => MergedEach(kind(n), HandedOf(users[j].account, n)))
  }

  function Logs(cs: seq<Client>, n: Name): (r: seq<seq<Agg>>)
    ensures |r| == |cs| && forall i :: 0 <= i < |r| ==> r[i] == Log(cs[i], n)
  {
    seq(|cs|, i requires 0 <= i < |cs| => Log(cs[i], n))
  }

  lemma {:induction false} AcceptedFlat(cs: seq<Client>, n: Name)
    ensures Accepted(cs, n) == Flatten(Logs(cs, n))
  {
    if cs != [] {
      var k := |cs| - 1;
      AcceptedFlat(cs[..k], n);
      assert Logs(cs, n)[..k] == Logs(cs[..k], n);
    }
  }

  /** One more in any part is one more in all. */
  lemma {:induction false} FlattenGains<T>(parts: seq<seq<T>>, i: nat, x: T)
    requires i < |parts|
    ensures multiset(Flatten(parts[i := parts[i] + [x]])) == multiset(Flatten(parts)) + multiset{x}
  {
    hide Flatten;
    var k, parts' := |parts| - 1, parts[i := parts[i] + [x]];
    assert parts == parts[..k] + [parts[k]];
    FlattenLast(parts[..k], parts[k]);
    if i < k {
      FlattenGains(parts[..k], i, x);
      assert parts' == parts[..k][i := parts[i] + [x]] + [parts[k]];
      FlattenLast(parts[..k][i := parts[i] + [x]], parts[k]);
    } else {
      assert parts' == parts[..k] + [parts[k] + [x]];
      FlattenLast(parts[..k], parts[k] + [x]);
    }
  }

  lemma {:induction false} FlatMerged(k: Kind, parts: seq<seq<seq<Value>>>)
    ensures var each := seq(|parts|, i requires 0 <= i < |parts| => MergedEach(k, parts[i]));
      Flatten(each) == MergedEach(k, Flatten(parts))
  {
    if parts != [] {
      var l := |parts| - 1;
      FlatMerged(k, parts[..l]);
      var each := seq(|parts|, i requires 0 <= i < |parts| => MergedEach(k, parts[i]));
      assert each[..l] == seq(l, i requires 0 <= i < l => MergedEach(k, parts[..l][i]));
      hide Merged;
    }
  }

  /** The deltas accepted under a name are, in some order, the merged batches that were handed over. */
  ghost predicate Matched(kind: Name -> Kind, y: System, n: Name) {
    multiset(Flatten(Logs(y.state.clients, n))) == multiset(Flatten(Deltas(kind, y.users, n)))
  }

  lemma LogsUpdate(cs: seq<Client>, i: nat, c: Client, n: Name)
    requires i < |cs|
    ensures Logs(cs[i := c], n) == Logs(cs, n)[i := Log(c, n)]
  {
    hide Log;
  }

  lemma DeltasUpdate(kind: Name -> Kind, users: seq<User>, j: nat, u: User, n: Name)
    requires j < |users|
    ensures Deltas(kind, users[j := u], n) == Deltas(kind, users, n)[j := MergedEach(kind(n), HandedOf(u.account, n))]
  {
    hide HandedOf, MergedEach;
  }

  lemma NotWritten(kind: Name -> Kind, s: State, step: Step, n: Name)
    requires Fires(kind, s, step) && !step.Write?
    ensures Logs(Next(kind, s, step).clients, n) == Logs(s.clients, n)
  {
    var c := s.clients[step.i];
    assert After(kind, c, step).accepted == c.accepted;
    LogsUpdate(s.clients, step.i, After(kind, c, step), n);
  }

  lemma Written(kind: Name -> Kind, s: State, i: nat, m: Name, d: Agg, n: Name)
    requires Fires(kind, s, Write(i, m, d))
    ensures var l, l' := Logs(s.clients, n), Logs(Next(kind, s, Write(i, m, d)).clients, n);
      l' == if m == n && Accepts(s.clients[i], m) then l[i := l[i] + [d]] else l
  {
    hide Shaped;
    var c := s.clients[i];
    var c' := DoWrite(c, m, d);
    assert Log(c', n) == if m == n && Accepts(c, m) then Log(c, n) + [d] else Log(c, n);
    LogsUpdate(s.clients, i, c', n);
  }

  lemma HandedDeltas(k: Kind, a: Account, ok: bool, n: Name)
    ensures var before, after := MergedEach(k, HandedOf(a, n)), MergedEach(k, HandedOf(Flushed(a, ok), n));
      after == if a.name == n && ok && a.cached != [] then before + [Merged(k, a.cached)] else before
  {
    hide Merged;
  }

  lemma HandOverMatched(kind: Name -> Kind, y: System, j: nat, n: Name)
    requires Takes(kind, y, j) && Matched(kind, y, n)
    ensures Matched(kind, HandOver(kind, y, j), n)
  {
    hide Logs, Deltas, Shaped, Enabled, Flatten, Merged, MergedEach, Next, Accepts, HandedOf, Flushed;
    var u := y.users[j];
    if u.account.cached != [] {
      var i, m, d := u.client, u.account.name, Merged(kind(u.account.name), u.account.cached);
      var ok := Accepts(y.state.clients[i], m);
      var u' := u.(account := Flushed(u.account, ok));
      Written(kind, y.state, i, m, d, n);
      HandedDeltas(kind(n), u.account, ok, n);
      DeltasUpdate(kind, y.users, j, u', n);
      if m == n && ok {
        FlattenGains(Logs(y.state.clients, n), i, d);
        FlattenGains(Deltas(kind, y.users, n), j, d);
      } else {
        assert Deltas(kind, y.users[j := u'], n) == Deltas(kind, y.users, n);
      }
    }
  }

  lemma CacheMatched(kind: Name -> Kind, y: System, j: nat, v: Value, n: Name)
    requires j < |y.users| && Matched(kind, y, n)
    ensures Matched(kind, Cache(y, j, v), n)
  {
    hide Logs, Flatten, MergedEach;
    DeltasUpdate(kind, y.users, j, Cache(y, j, v).users[j], n);
    assert Deltas(kind, Cache(y, j, v).users, n) == Deltas(kind, y.users, n);
  }

  lemma CreateMatched(kind: Name -> Kind, users: seq<User>, u: User, n: Name)
    requires u.account.handed == []
    ensures Flatten(Deltas(kind, users + [u], n)) == Flatten(Deltas(kind, users, n))
  {
    hide Merged;
    assert Deltas(kind, users + [u], n) == Deltas(kind, users, n) + [[]];
    FlattenLast(Deltas(kind, users, n), []);
  }

  lemma MatchedMoved(kind: Name -> Kind, y: System, move: Move, n: Name)
    requires CanMove(kind, y, move) && Matched(kind, y, n)
    ensures Matched(kind, Moved(kind, y, move), n)
  {
    hide Logs, Deltas, Flatten, Fires, Next, HandOver, Takes, Cache, With, Merged;
    match move
    case Create(i, m, freq) =>
      NotWritten(kind, y.state, AddAggregator(i, m), n);
      CreateMatched(kind, y.users, User(i, Opened(m, freq)), n);
    case Give(j, v) =>
      CacheMatched(kind, y, j, v, n);
      if Due(With(y.users[j].account, v)) {
        HandOverMatched(kind, Cache(y, j, v), j, n);
      }
    case Flush(j) => HandOverMatched(kind, y, j, n);
    case Other(step) => NotWritten(kind, y.state, step, n);
  }

  lemma {:induction false} RunMatched(kind: Name -> Kind, ys: seq<System>, moves: seq<Move>, k: nat, n: Name)
    requires Runs(kind, ys, moves) && k < |ys|
    ensures Matched(kind, ys[k], n)
  {
    hide CanMove, Moved;
    if k == 0 {
      NothingLogged(ys[0].state.clients, n);
    } else {
      hide Matched;
      RunMatched(kind, ys, moves, k - 1, n);
      MatchedMoved(kind, ys[k - 1], moves[k - 1], n);
    }
  }

  lemma {:induction false} NothingLogged(cs: seq<Client>, n: Name)
    requires forall i :: 0 <= i < |cs| ==> cs[i] == Fresh()
    ensures Flatten(Logs(cs, n)) == []
  {
    if cs != [] {
      var k := |cs| - 1;
      NothingLogged(cs[..k], n);
      assert Logs(cs, n)[..k] == Logs(cs[..k], n);
    }
  }

  // ----- Every accumulator's books are kept -----

  ghost predicate AllBooked(users: seq<User>) {
    forall j :: 0 <= j < |users| ==> Booked(users[j].account) && Bounded(users[j].account)
  }

  lemma AllBookedMoved(kind: Name -> Kind, y: System, move: Move)
    requires CanMove(kind, y, move) && AllBooked(y.users)
    ensures AllBooked(Moved(kind, y, move).users)
  {
    hide Booked, Bounded, Next, Fires, Flushed, With;
    match move
    case Create(_, n, freq) => OpenedBooked(n, freq);
    case Give(j, v) =>
      WithBooked(y.users[j].account, v);
      var a := With(y.users[j].account, v);
      FlushedBooked(a, true);
      FlushedBooked(a, false);
    case Flush(j) =>
      FlushedBooked(y.users[j].account, true);
      FlushedBooked(y.users[j].account, false);
    case Other(_) =>
  }

  lemma OpenedBooked(n: Name, freq: nat)
    ensures Booked(Opened(n, freq)) && Bounded(Opened(n, freq))
  {
  }

  lemma {:induction false} RunBooked(kind: Name -> Kind, ys: seq<System>, moves: seq<Move>, k: nat)
    requires Runs(kind, ys, moves) && k < |ys|
    ensures AllBooked(ys[k].users)
  {
    hide CanMove, Moved, Booked, Bounded;
    if k > 0 {
      RunBooked(kind, ys, moves, k - 1);
      AllBookedMoved(kind, ys[k - 1], moves[k - 1]);
    }
  }

  // ----- How large the batches are -----

  /** The cache is below the flush frequency, and every batch has exactly that many values. */
  ghost predicate Sized(a: Account) {
    && (if a.freq == 0 then a.handed == a.lost == [] else |a.cached| < a.freq)
    && (forall i :: 0 <= i < |a.handed| ==> |a.handed[i]| == a.freq)
    && (forall i :: 0 <= i < |a.lost| ==> |a.lost[i]| == a.freq)
  }

  lemma GivenSized(a: Account, v: Value, ok: bool)
    requires Sized(a)
    ensures Sized(if Due(With(a, v)) then Flushed(With(a, v), ok) else With(a, v))
  {
  }

  lemma SizedMoved(kind: Name -> Kind, y: System, move: Move, j: nat)
    requires CanMove(kind, y, move) && move != Flush(j) && j < |y.users| && Sized(y.users[j].account)
    ensures j < |Moved(kind, y, move).users| && Sized(Moved(kind, y, move).users[j].account)
  {
    hide Sized, Next, Fires, Flushed, Due, Merged;
    match move
    case Give(i, v) =>
      if i == j {
        GivenSized(y.users[j].account, v, true);
        GivenSized(y.users[j].account, v, false);
      }
    case _ =>
  }

  lemma {:induction false} RunSized(kind: Name -> Kind, ys: seq<System>, moves: seq<Move>, k: nat, j: nat)
    requires Runs(kind, ys, moves) && k < |ys| && j < |ys[k].users|
    requires forall i :: 0 <= i < k ==> moves[i] != Flush(j)
    ensures Sized(ys[k].users[j].account)
  {
    assert k > 0;
    var y, move := ys[k - 1], moves[k - 1];
    assert CanMove(kind, y, move) && ys[k] == Moved(kind, y, move);
    if j < |y.users| {
      hide Runs, CanMove, Moved, Sized;
      RunSized(kind, ys, moves, k - 1, j);
      SizedMoved(kind, y, move, j);
    } else {
      hide Runs, Next, Fires;
      UsersGrow(kind, y, move);
    }
  }

  lemma UsersGrow(kind: Name -> Kind, y: System, move: Move)
    requires CanMove(kind, y, move)
    ensures var us := Moved(kind, y, move).users;
      if move.Create? then us == y.users + [User(move.i, Opened(move.n, move.freq))] else |us| == |y.users|
  {
    hide Next, Fires, Merged;
  }

  lemma {:induction false} FlattenSize(batches: seq<seq<Value>>, n: nat)
    requires forall i :: 0 <= i < |batches| ==> |batches[i]| == n
    ensures |Flatten(batches)| == |batches| * n
  {
    if batches != [] {
      FlattenSize(batches[..|batches| - 1], n);
      assert |batches| * n == (|batches| - 1) * n + n;
    }
  }

  /**
   An accumulator that nobody flushes hands its values over in batches of flush_freq, as soon as it
   has that many: what it caches is the remainder.  With flush_freq 0 it hands nothing over.
   */
  lemma FlushedOnTime(kind: Name -> Kind, ys: seq<System>, moves: seq<Move>, k: nat, j: nat)
    requires Runs(kind, ys, moves) && k < |ys| && j < |ys[k].users|
    requires forall i :: 0 <= i < k ==> moves[i] != Flush(j)
    ensures var a := ys[k].users[j].account;
      if a.freq == 0 then a.handed == a.lost == [] && a.cached == a.given
      else |a.cached| == |a.given| % a.freq && |a.handed| + |a.lost| == |a.given| / a.freq
  {
    var a := ys[k].users[j].account;
    RunSized(kind, ys, moves, k, j);
    RunBooked(kind, ys, moves, k);
    assert Booked(a);
    hide Runs, Flatten;
    Counted(a);
  }

  lemma Counted(a: Account)
    requires Booked(a) && Sized(a)
    ensures if a.freq == 0 then a.handed == a.lost == [] && a.cached == a.given
      else |a.cached| == |a.given| % a.freq && |a.handed| + |a.lost| == |a.given| / a.freq
  {
    if a.freq == 0 {
      assert Flatten(a.handed) + a.cached == a.cached;
    } else {
      hide Flatten;
      FlattenSize(a.handed, a.freq);
      FlattenSize(a.lost, a.freq);
      var n := |a.handed| + |a.lost|;
      assert |a.given| == |multiset(a.given)|;
      assert |a.given| == |a.handed| * a.freq + |a.lost| * a.freq + |a.cached|;
      Divided(|a.given|, n, a.freq, |a.cached|, |a.handed|, |a.lost|);
    }
  }

  lemma Divided(g: nat, n: nat, f: nat, c: nat, h: nat, l: nat)
    requires f > 0 && c < f && n == h + l && g == h * f + l * f + c
    ensures g % f == c && g / f == n
  {
    assert g == n * f + c;
    Unique(g, f, n, c);
  }

  lemma Unique(g: nat, f: nat, n: nat, c: nat)
    requires c < f && g == n * f + c
    ensures g / f == n && g % f == c
  {
    var q, r := g / f, g % f;
    assert g == q * f + r;
    if q > n {
      Scales(n + 1, q, f);
    } else if q < n {
      Scales(q + 1, n, f);
    }
  }

  lemma Scales(a: nat, b: nat, f: nat)
    requires a <= b
    ensures a * f <= b * f
  {
  }

  // ----- What the server ends with -----

  /** In every state of every run the deltas accepted under a name are exactly the batches handed over. */
  lemma AcceptedIsHanded(kind: Name -> Kind, ys: seq<System>, moves: seq<Move>, k: nat, n: Name)
    requires Runs(kind, ys, moves) && k < |ys|
    ensures multiset(Accepted(ys[k].state.clients, n)) == multiset(MergedEach(kind(n), Handed(ys[k].users, n)))
    ensures Ranged(Handed(ys[k].users, n))
  {
    var y := ys[k];
    RunMatched(kind, ys, moves, k, n);
    RunBooked(kind, ys, moves, k);
    hide Runs, Accepted, Merged, Flatten, Logs, MergedEach, AllBooked;
    AcceptedFlat(y.state.clients, n);
    DeltasMerged(kind, y.users, n);
    HandedRanged(y.users, n);
  }

  lemma DeltasMerged(kind: Name -> Kind, users: seq<User>, n: Name)
    ensures Flatten(Deltas(kind, users, n)) == MergedEach(kind(n), Handed(users, n))
  {
    hide Flatten, HandedOf, MergedEach;
    var parts := seq(|users|, j requires 0 <= j < |users| => HandedOf(users[j].account, n));
    FlatMerged(kind(n), parts);
    assert Deltas(kind, users, n) == seq(|parts|, i requires 0 <= i < |parts| => MergedEach(kind(n), parts[i]));
  }

  lemma HandedRanged(users: seq<User>, n: Name)
    requires AllBooked(users)
    ensures Ranged(Handed(users, n))
  {
    hide Flatten, Ranged;
    var parts := seq(|users|, j requires 0 <= j < |users| => HandedOf(users[j].account, n));
    forall j | 0 <= j < |parts|
      ensures Ranged(parts[j])
    {
      assert Bounded(users[j].account);
      NoneRanged();
    }
    FlatRanged(parts);
  }

  lemma NoneRanged()
    ensures Ranged([])
  {
  }

  lemma {:induction false} FlatRanged(parts: seq<seq<seq<Value>>>)
    requires forall j :: 0 <= j < |parts| ==> Ranged(parts[j])
    ensures Ranged(Flatten(parts))
  {
    if parts != [] {
      FlatRanged(parts[..|parts| - 1]);
    }
  }

  /** When all clients are finalized the server has merged exactly the values in the accepted batches. */
  lemma HandedMerged(kind: Name -> Kind, ys: seq<System>, moves: seq<Move>, n: Name)
    requires Runs(kind, ys, moves)
    requires forall i :: 0 <= i < |ys[|moves|].state.clients| ==> Finalized(ys[|moves|].state.clients[i])
    ensures var y := ys[|moves|];
      && Get(kind, y.state.table, n) == Merged(kind(n), Flatten(Handed(y.users, n)))
      && Describes(kind(n), Get(kind, y.state.table, n), Flatten(Handed(y.users, n)))
  {
    var y := ys[|moves|];
    var states, steps := Protocol(kind, ys, moves, |moves|);
    AcceptedIsHanded(kind, ys, moves, |moves|, n);
    hide Runs, Run, Accepted, Merged, Flatten, MergedEach, Handed, Finalized, Describes;
    BatchesMerge(kind(n), Handed(y.users, n));
    BatchingIndependent(kind, states, steps, n, Handed(y.users, n), Flatten(Handed(y.users, n)));
    MergedDescribes(kind(n), Flatten(Handed(y.users, n)));
  }

  /** All values written to accumulators of this name. */
  function Given(users: seq<User>, n: Name): seq<Value> {
    Flatten(seq(|users|, j requires 0 <= j < |users| => GivenOf(users[j].account, n)))
  }

  function GivenOf(a: Account, n: Name): seq<Value> {
    if a.name == n then a.given else []
  }

  /** Every batch of the accumulator has been handed over, and none was refused. */
  predicate Delivered(a: Account) {
    a.cached == [] && a.lost == []
  }

  lemma Associates<T>(a: seq<T>, b: seq<T>, c: seq<T>)
    ensures (a + b) + c == a + (b + c)
  {
  }

  lemma {:induction false} FlattenAppend<T>(x: seq<seq<T>>, y: seq<seq<T>>)
    ensures Flatten(x + y) == Flatten(x) + Flatten(y)
    decreases |y|
  {
    if y == [] {
      assert x + y == x;
    } else {
      hide Flatten;
      var k := |y| - 1;
      FlattenAppend(x, y[..k]);
      assert y == y[..k] + [y[k]] && x + y == (x + y[..k]) + [y[k]];
      FlattenLast(y[..k], y[k]);
      FlattenLast(x + y[..k], y[k]);
      Associates(Flatten(x), Flatten(y[..k]), y[k]);
    }
  }

  lemma DeliveredIsGiven(a: Account, n: Name)
    requires Booked(a) && (a.name == n ==> Delivered(a))
    ensures Flatten(HandedOf(a, n)) == GivenOf(a, n)
  {
  }

  lemma HandedIsGivenLast(users: seq<User>, u: User, n: Name)
    requires Flatten(Handed(users, n)) == Given(users, n)
    requires Booked(u.account) && (u.account.name == n ==> Delivered(u.account))
    ensures Flatten(Handed(users + [u], n)) == Given(users + [u], n)
  {
    hide Handed, Given, Flatten, HandedOf, GivenOf, Booked, Delivered;
    HandedLast(users, u, n);
    GivenLast(users, u, n);
    FlattenAppend(Handed(users, n), HandedOf(u.account, n));
    DeliveredIsGiven(u.account, n);
  }

  lemma NobodyGave(n: Name)
    ensures Flatten(Handed([], n)) == Given([], n)
  {
  }

  lemma {:induction false} HandedIsGivenTo(users: seq<User>, n: Name, k: nat)
    requires k <= |users| && AllBooked(users)
    requires forall j :: 0 <= j < |users| && users[j].account.name == n ==> Delivered(users[j].account)
    ensures Flatten(Handed(users[..k], n)) == Given(users[..k], n)
    decreases k
  {
    hide Handed, Given, Flatten, Booked, Bounded, Delivered;
    if k == 0 {
      NobodyGave(n);
    } else {
      HandedIsGivenTo(users, n, k - 1);
      HandedIsGivenLast(users[..k - 1], users[k - 1], n);
      assert users[..k] == users[..k - 1] + [users[k - 1]];
    }
  }

  lemma HandedLast(users: seq<User>, u: User, n: Name)
    ensures Handed(users + [u], n) == Handed(users, n) + HandedOf(u.account, n)
  {
    hide HandedOf;
    var parts := seq(|users|, j requires 0 <= j < |users| => HandedOf(users[j].account, n));
    var all := users + [u];
    assert seq(|all|, j requires 0 <= j < |all| => HandedOf(all[j].account, n)) == parts + [HandedOf(u.account, n)];
    FlattenLast(parts, HandedOf(u.account, n));
  }

  lemma GivenLast(users: seq<User>, u: User, n: Name)
    ensures Given(users + [u], n) == Given(users, n) + GivenOf(u.account, n)
  {
    hide GivenOf;
    var parts := seq(|users|, j requires 0 <= j < |users| => GivenOf(users[j].account, n));
    var all := users + [u];
    assert seq(|all|, j requires 0 <= j < |all| => GivenOf(all[j].account, n)) == parts + [GivenOf(u.account, n)];
    FlattenLast(parts, GivenOf(u.account, n));
  }

  /**
   When all clients are finalized and the accumulators of a name have delivered, the server has
   seen every value written to them, each once, whatever their flush frequencies were.
   */
  lemma GivenMerged(kind: Name -> Kind, ys: seq<System>, moves: seq<Move>, n: Name)
    requires Runs(kind, ys, moves)
    requires forall i :: 0 <= i < |ys[|moves|].state.clients| ==> Finalized(ys[|moves|].state.clients[i])
    requires var us := ys[|moves|].users;
      forall j :: 0 <= j < |us| && us[j].account.name == n ==> Delivered(us[j].account)
    ensures var y := ys[|moves|];
      && AllInRange(Given(y.users, n)) && Get(kind, y.state.table, n) == Merged(kind(n), Given(y.users, n))
      && Describes(kind(n), Get(kind, y.state.table, n), Given(y.users, n))
  {
    var users := ys[|moves|].users;
    HandedMerged(kind, ys, moves, n);
    RunBooked(kind, ys, moves, |moves|);
    hide Runs, Booked, Bounded, Flatten, Merged, Given, Handed, Delivered, Describes;
    HandedIsGivenTo(users, n, |users|);
    assert users[..|users|] == users;
    HandedRanged(users, n);
    BatchesMerge(kind(n), Handed(users, n));
  }

  /** So two runs whose users write the same values end alike: frequency, batching and interleaving do not matter. */
  lemma FrequencyIndependent(kind: Name -> Kind, ys: seq<System>, moves: seq<Move>,
                             ys': seq<System>, moves': seq<Move>, n: Name)
    requires Runs(kind, ys, moves) && Runs(kind, ys', moves')
    requires forall i :: 0 <= i < |ys[|moves|].state.clients| ==> Finalized(ys[|moves|].state.clients[i])
    requires forall i :: 0 <= i < |ys'[|moves'|].state.clients| ==> Finalized(ys'[|moves'|].state.clients[i])
    requires var us := ys[|moves|].users;
      forall j :: 0 <= j < |us| && us[j].account.name == n ==> Delivered(us[j].account)
    requires var us := ys'[|moves'|].users;
      forall j :: 0 <= j < |us| && us[j].account.name == n ==> Delivered(us[j].account)
    requires multiset(Given(ys[|moves|].users, n)) == multiset(Given(ys'[|moves'|].users, n))
    ensures Get(kind, ys[|moves|].state.table, n) == Get(kind, ys'[|moves'|].state.table, n)
  {
    GivenMerged(kind, ys, moves, n);
    GivenMerged(kind, ys', moves', n);
    MergedPermutes(kind(n), Given(ys[|moves|].users, n), Given(ys'[|moves'|].users, n));
  }
}
