/**
 The monitor: handlers that one worker thread runs when they are due, once or periodically.  What
 the program does while it holds its lock is one step; a handler runs between two steps.
 */
module Monitors {
  import opened Basics

  type Id = nat

  /** `first` and `runs` are history: when the event was first due, and how often its handler was started. */
  datatype Event = Event(next: int, period: nat, running: bool, canceled: bool, first: int, runs: nat)

  /** The queue holds the events that wait for their time; `worker` is the event whose handler is running. */
  datatype State = State(nextId: Id, active: map<Id, Event>, queue: set<Id>, worker: Option<Id>)

  datatype Step =
    | Submit(due: int, period: nat)
    | Destroy(id: Id)
    | Start(id: Id, now: int)
    | Finish

  datatype Status = NotFound | Running | Pending | Done

  function Initial(): State {
    State(1, map[], {}, None)
  }

  function DoSubmit(s: State, due: int, period: nat): State {
    State(s.nextId + 1, s.active[s.nextId := Event(due, period, false, false, due, 0)], s.queue + {s.nextId}, s.worker)
  }

  /** The queued events that are due when this one is: erasing it from the queue erases them all. */
  function Equals(s: State, next: int): set<Id> {
    set j | j in s.queue && j in s.active && s.active[j].next == next
  }

  function DoDestroy(s: State, id: Id): State {
    if id !in s.active then s
    else
      var e := s.active[id];
      if e.running then s.(active := s.active[id := e.(canceled := true)])
      else s.(active := s.active - {id}, queue := s.queue - Equals(s, e.next))
  }

  /** The worker may start an event that is due and that no queued one is due before. */
  predicate CanStart(s: State, id: Id, now: int) {
    && s.worker == None && id in s.queue && id in s.active && s.active[id].next <= now
    && forall j :: j in s.queue && j in s.active ==> s.active[id].next <= s.active[j].next
  }

  function DoStart(s: State, id: Id): State
    requires id in s.active
  {
    var e := s.active[id];
    s.(active := s.active[id := e.(running := true, runs := e.runs + 1)], queue := s.queue - {id}, worker := Some(id))
  }

  /** The handler has returned: the event is dropped if it was canceled or is not periodic. */
  function DoFinish(s: State): State
    requires s.worker.Some? && s.worker.value in s.active
  {
    var id := s.worker.value;
    var e := s.active[id];
    if !e.canceled && e.period > 0 then
      s.(active := s.active[id := e.(running := false, next := e.next + e.period)],
         queue := s.queue + {id}, worker := None)
    else s.(active := s.active - {id}, worker := None)
  }

  predicate Enabled(s: State, step: Step) {
    match step
    case Start(id, now) => CanStart(s, id, now)
    case Finish => s.worker.Some? && s.worker.value in s.active
    case _ => true
  }

  function Next(s: State, step: Step): State
    requires Enabled(s, step)
  {
    match step
    case Submit(due, period) => DoSubmit(s, due, period)
    case Destroy(id) => DoDestroy(s, id)
    case Start(id, _) => DoStart(s, id)
    case Finish => DoFinish(s)
  }

  function Query(s: State, id: Id): Status {
    if id !in s.active then (if id < s.nextId then Done else NotFound)
    else if s.active[id].running then Running else Pending
  }

  /** A run of the monitor from its start. */
  ghost predicate Run(states: seq<State>, steps: seq<Step>) {
    && |states| == |steps| + 1 && states[0] == Initial()
    && forall k :: 0 <= k < |steps| ==> Enabled(states[k], steps[k]) && states[k + 1] == Next(states[k], steps[k])
  }

  // ----- What every step keeps -----

  /** An event is due first, and then once per period; a run in progress is not counted yet. */
  predicate OnTime(e: Event) {
    e.next == e.first + (if e.running then e.runs - 1 else e.runs) * e.period && (e.running ==> e.runs > 0)
  }

  ghost predicate Inv(s: State) {
    && (forall id :: id in s.active ==> id < s.nextId && OnTime(s.active[id]))
    && (forall id :: id in s.active ==> (s.active[id].running <==> s.worker == Some(id)))
    && (forall id :: id in s.active && s.active[id].canceled ==> s.active[id].running)
    && (forall id :: id in s.queue ==> id in s.active && !s.active[id].running)
    && (s.worker.Some? ==> s.worker.value in s.active)
  }

  lemma OnTimeNext(e: Event)
    requires OnTime(e) && e.running
    ensures OnTime(e.(running := false, next := e.next + e.period))
  {
    assert e.runs * e.period == (e.runs - 1) * e.period + e.period;
  }

  lemma InvNext(s: State, step: Step)
    requires Inv(s) && Enabled(s, step)
    ensures Inv(Next(s, step)) && s.nextId <= Next(s, step).nextId
  {
    if step == Finish {
      OnTimeNext(s.active[s.worker.value]);
    }
  }

  lemma {:induction false} RunInv(states: seq<State>, steps: seq<Step>, k: nat)
    requires Run(states, steps) && k < |states|
    ensures Inv(states[k])
  {
    if k > 0 {
      RunInv(states, steps, k - 1);
      hide Inv, Next, Enabled;
      InvNext(states[k - 1], steps[k - 1]);
    }
  }

  // ----- Destroyed events -----

  /** The event is gone, or will be when its handler returns. */
  predicate Doomed(s: State, id: Id) {
    id < s.nextId && (id in s.active ==> s.active[id].canceled)
  }

  lemma DoomedNext(s: State, step: Step, id: Id)
    requires Inv(s) && Enabled(s, step) && Doomed(s, id)
    ensures Doomed(Next(s, step), id) && !(step.Start? && step.id == id)
    ensures id !in s.active ==> id !in Next(s, step).active
  {
  }

  lemma {:induction false} DoomedStays(states: seq<State>, steps: seq<Step>, id: Id, k: nat, m: nat)
    requires Run(states, steps) && k <= m < |states| && Doomed(states[k], id)
    ensures Doomed(states[m], id) && (id !in states[k].active ==> id !in states[m].active)
    decreases m
  {
    if k < m {
      DoomedStays(states, steps, id, k, m - 1);
      RunInv(states, steps, m - 1);
      hide Inv, Next, Doomed;
      DoomedNext(states[m - 1], steps[m - 1], id);
    }
  }

  /** Once an issued event has been destroyed its handler is not started again. */
  lemma NoStartAfterDestroy(states: seq<State>, steps: seq<Step>, id: Id, k: nat, m: nat)
    requires Run(states, steps) && k < m < |steps| && steps[k] == Destroy(id) && id < states[k].nextId
    ensures !(steps[m].Start? && steps[m].id == id)
  {
    RunInv(states, steps, m);
    assert states[k + 1] == DoDestroy(states[k], id);
    DoomedStays(states, steps, id, k + 1, m);
    hide Inv;
    DoomedNext(states[m], steps[m], id);
  }

  /** From then on it is done, or will be when its handler returns; and only ids not yet issued are not found. */
  lemma DestroyedEnds(states: seq<State>, steps: seq<Step>, id: Id, k: nat, m: nat)
    requires Run(states, steps) && k < m < |states| && steps[k] == Destroy(id)
    ensures Query(states[m], id) == NotFound <==> states[m].nextId <= id
    ensures id < states[k].nextId ==> Query(states[m], id) == if states[m].worker == Some(id) then Running else Done
  {
    RunInv(states, steps, m);
    if id < states[k].nextId {
      assert states[k + 1] == DoDestroy(states[k], id);
      DoomedStays(states, steps, id, k + 1, m);
    }
  }

  /** After a waiter has returned (the event is gone) its handler is not running, then or ever again. */
  lemma NotRunningAfterWait(states: seq<State>, steps: seq<Step>, id: Id, k: nat, m: nat)
    requires Run(states, steps) && k <= m < |states| && id < states[k].nextId && id !in states[k].active
    ensures states[m].worker != Some(id) && Query(states[m], id) == Done
  {
    DoomedStays(states, steps, id, k, m);
    RunInv(states, steps, m);
  }

  /** Ids are never reused: a later submission gets a larger one. */
  lemma {:induction false} IdsGrow(states: seq<State>, steps: seq<Step>, k: nat, m: nat)
    requires Run(states, steps) && k < m < |steps| && steps[k].Submit?
    ensures states[k].nextId < states[m].nextId
  {
    assert states[k + 1] == Next(states[k], steps[k]);
    if k + 1 < m {
      RunInv(states, steps, m - 1);
      IdsGrowOn(states, steps, k + 1, m);
    }
  }

  lemma {:induction false} IdsGrowOn(states: seq<State>, steps: seq<Step>, k: nat, m: nat)
    requires Run(states, steps) && k <= m < |states|
    ensures states[k].nextId <= states[m].nextId
    decreases m
  {
    if k < m {
      IdsGrowOn(states, steps, k, m - 1);
      RunInv(states, steps, m - 1);
      hide Inv, Next;
      InvNext(states[m - 1], steps[m - 1]);
    }
  }

  // ----- When handlers are started -----

  /** How often the handler of an event is started in the first k steps. */
  function Starts(steps: seq<Step>, k: nat, id: Id): nat
    requires k <= |steps|
  {
    if k == 0 then 0
    else Starts(steps, k - 1, id) + if steps[k - 1].Start? && steps[k - 1].id == id then 1 else 0
  }

  lemma CountNext(s: State, step: Step, id: Id, n: nat)
    requires Inv(s) && Enabled(s, step)
    requires if id in s.active then s.active[id].runs == n else id >= s.nextId ==> n == 0
    ensures var n' := n + if step.Start? && step.id == id then 1 else 0;
      var s' := Next(s, step);
      if id in s'.active then s'.active[id].runs == n' else id >= s'.nextId ==> n' == 0
  {
  }

  lemma {:induction false} RunsCounted(states: seq<State>, steps: seq<Step>, id: Id, k: nat)
    requires Run(states, steps) && k < |states|
    ensures if id in states[k].active then states[k].active[id].runs == Starts(steps, k, id)
      else id >= states[k].nextId ==> Starts(steps, k, id) == 0
  {
    if k > 0 {
      RunsCounted(states, steps, id, k - 1);
      RunInv(states, steps, k - 1);
      hide Inv, Next, Enabled;
      CountNext(states[k - 1], steps[k - 1], id, Starts(steps, k - 1, id));
    }
  }

  lemma DueNext(s: State, step: Step, id: Id)
    requires Inv(s) && Enabled(s, step) && id < s.nextId
    ensures var s' := Next(s, step); id in s'.active ==>
      id in s.active && s'.active[id].first == s.active[id].first && s'.active[id].period == s.active[id].period
  {
  }

  lemma {:induction false} DueKept(states: seq<State>, steps: seq<Step>, k: nat, m: nat)
    requires Run(states, steps) && k < |steps| && steps[k].Submit? && k < m < |states|
    ensures states[k].nextId < states[m].nextId
    ensures var id := states[k].nextId; id in states[m].active ==>
      states[m].active[id].first == steps[k].due && states[m].active[id].period == steps[k].period
    decreases m
  {
    assert Enabled(states[m - 1], steps[m - 1]) && states[m] == Next(states[m - 1], steps[m - 1]);
    if k + 1 < m {
      DueKept(states, steps, k, m - 1);
      RunInv(states, steps, m - 1);
      hide *;
      InvNext(states[m - 1], steps[m - 1]);
      DueNext(states[m - 1], steps[m - 1], states[k].nextId);
    }
  }

  /** A handler that has been started n times is not started again before its first due time plus n periods. */
  lemma NotBeforeDue(states: seq<State>, steps: seq<Step>, k: nat, m: nat, id: Id)
    requires Run(states, steps) && k < m < |steps| && steps[k].Submit? && id == states[k].nextId
    requires steps[m].Start? && steps[m].id == id
    ensures steps[m].now >= steps[k].due + Starts(steps, m, id) * steps[k].period
  {
    RunInv(states, steps, m);
    RunsCounted(states, steps, id, m);
    DueKept(states, steps, k, m);
    assert Enabled(states[m], steps[m]);
  }

  /** A handler that is not periodic is started once at most. */
  lemma OnceOnly(states: seq<State>, steps: seq<Step>, k: nat, m: nat, id: Id)
    requires Run(states, steps) && k < m < |steps| && steps[k].Submit? && id == states[k].nextId && steps[k].period == 0
    requires steps[m].Start? && steps[m].id == id
    ensures Starts(steps, m, id) == 0
  {
    RunsCounted(states, steps, id, m);
    DueKept(states, steps, k, m);
    OneShot(states, steps, id, m);
    assert Enabled(states[m], steps[m]);
    RunInv(states, steps, m);
  }

  lemma {:induction false} OneShot(states: seq<State>, steps: seq<Step>, id: Id, k: nat)
    requires Run(states, steps) && k < |states|
    ensures id in states[k].active && states[k].active[id].period == 0 && !states[k].active[id].running
      ==> states[k].active[id].runs == 0
  {
    if k > 0 {
      OneShot(states, steps, id, k - 1);
      RunInv(states, steps, k - 1);
      assert Enabled(states[k - 1], steps[k - 1]) && states[k] == Next(states[k - 1], steps[k - 1]);
      hide Run, Inv, Next, Enabled;
      OneShotNext(states[k - 1], steps[k - 1], id);
    }
  }

  lemma OneShotNext(s: State, step: Step, id: Id)
    requires Inv(s) && Enabled(s, step)
    requires id in s.active && s.active[id].period == 0 && !s.active[id].running ==> s.active[id].runs == 0
    ensures var s' := Next(s, step);
      id in s'.active && s'.active[id].period == 0 && !s'.active[id].running ==> s'.active[id].runs == 0
  {
  }

  // ----- Events that drop out of the queue -----

  /** Every event that is not running waits in the queue. */
  ghost predicate AllQueued(s: State) {
    forall id :: id in s.active && !s.active[id].running ==> id in s.queue
  }

  /** Destroying an event keeps the others queued exactly if none of them is due at the same time. */
  lemma DestroyKeepsQueued(s: State, id: Id)
    requires Inv(s) && AllQueued(s)
    ensures AllQueued(DoDestroy(s, id)) <==>
      (id in s.active && !s.active[id].running ==>
        forall j :: j in s.queue && j != id ==> s.active[j].next != s.active[id].next)
  {
    var s' := DoDestroy(s, id);
    if id in s.active && !s.active[id].running && AllQueued(s') {
      forall j | j in s.queue && j != id
        ensures s.active[j].next != s.active[id].next
      {
        assert j in s'.active && !s'.active[j].running;
      }
    }
  }

  /** All other steps keep them queued. */
  lemma OthersKeepQueued(s: State, step: Step)
    requires Inv(s) && AllQueued(s) && Enabled(s, step) && !step.Destroy?
    ensures AllQueued(Next(s, step))
  {
  }

  lemma DroppedNext(s: State, step: Step, id: Id)
    requires Inv(s) && Enabled(s, step) && step != Destroy(id)
    requires id in s.active && !s.active[id].running && id !in s.queue
    ensures var s' := Next(s, step);
      id in s'.active && !s'.active[id].running && id !in s'.queue && !(step.Start? && step.id == id)
  {
  }

  /** An event that has dropped out is never started, though it stays pending until it is destroyed. */
  lemma {:induction false} DroppedStays(states: seq<State>, steps: seq<Step>, id: Id, k: nat, m: nat)
    requires Run(states, steps) && k <= m < |states|
    requires id in states[k].active && !states[k].active[id].running && id !in states[k].queue
    requires forall j :: k <= j < m ==> steps[j] != Destroy(id)
    ensures id in states[m].active && !states[m].active[id].running && id !in states[m].queue
    ensures Query(states[m], id) == Pending && Starts(steps, m, id) == Starts(steps, k, id)
    decreases m
  {
    if k < m {
      DroppedStays(states, steps, id, k, m - 1);
      RunInv(states, steps, m - 1);
      assert Enabled(states[m - 1], steps[m - 1]) && states[m] == Next(states[m - 1], steps[m - 1]);
      hide Run, Inv, Next, Enabled;
      DroppedNext(states[m - 1], steps[m - 1], id);
    }
  }

  /** It happens: of two events due at the same time, destroying one drops the other. */
  lemma EventDropped() returns (states: seq<State>, steps: seq<Step>)
    ensures Run(states, steps) && steps == [Submit(5, 0), Submit(5, 0), Destroy(1)]
    ensures 2 in states[3].active && Query(states[3], 2) == Pending && 2 !in states[3].queue
  {
    steps := [Submit(5, 0), Submit(5, 0), Destroy(1)];
    var s0 := Initial();
    var s1 := DoSubmit(s0, 5, 0);
    var s2 := DoSubmit(s1, 5, 0);
    states := [s0, s1, s2, DoDestroy(s2, 1)];
  }

  // ----- Events that live on -----

  /** An event of this submission that has been started n times and that nobody has destroyed. */
  ghost predicate Alive(s: State, id: Id, due: int, period: nat, n: nat) {
    && id in s.active && !s.active[id].canceled && s.active[id].runs == n
    && s.active[id].first == due && s.active[id].period == period
  }

  /** It is there as long as it has a period, or has not been started, or is running; else it is gone for good. */
  ghost predicate Follows(s: State, id: Id, due: int, period: nat, n: nat) {
    && id < s.nextId
    && if period > 0 || n == 0 || s.worker == Some(id) then Alive(s, id, due, period, n) && (period == 0 ==> n <= 1)
      else id !in s.active
  }

  lemma FollowsSubmit(s: State, due: int, period: nat)
    requires Inv(s)
    ensures Follows(DoSubmit(s, due, period), s.nextId, due, period, 0)
    ensures s.nextId in DoSubmit(s, due, period).queue
  {
  }

  lemma FollowsNext(s: State, step: Step, id: Id, due: int, period: nat, n: nat)
    requires Inv(s) && Enabled(s, step) && step != Destroy(id) && Follows(s, id, due, period, n)
    requires period == 0 && n > 0 && id in s.active ==> s.active[id].running
    ensures var n' := n + if step.Start? && step.id == id then 1 else 0;
      Follows(Next(s, step), id, due, period, n')
  {
  }

  /** A submitted event that nobody destroys goes on, with its due time, its period and its count of starts. */
  lemma {:induction false} Lives(states: seq<State>, steps: seq<Step>, k: nat, m: nat)
    requires Run(states, steps) && k < |steps| && steps[k].Submit? && k < m < |states|
    requires forall j :: k < j < m ==> steps[j] != Destroy(states[k].nextId)
    ensures Follows(states[m], states[k].nextId, steps[k].due, steps[k].period, Starts(steps, m, states[k].nextId))
    decreases m
  {
    var id := states[k].nextId;
    assert Enabled(states[m - 1], steps[m - 1]) && states[m] == Next(states[m - 1], steps[m - 1]);
    RunInv(states, steps, m - 1);
    if k + 1 == m {
      NotStarted(states, steps, k);
      assert states[m] == DoSubmit(states[k], steps[k].due, steps[k].period);
      hide Run, Enabled, Next, Inv, DoSubmit, Follows;
      FollowsSubmit(states[k], steps[k].due, steps[k].period);
    } else {
      Lives(states, steps, k, m - 1);
      hide Run, Enabled, Next, Inv, Follows;
      AliveRuns(states[m - 1], id, steps[k].due, steps[k].period, Starts(steps, m - 1, id));
      FollowsNext(states[m - 1], steps[m - 1], id, steps[k].due, steps[k].period, Starts(steps, m - 1, id));
    }
  }

  lemma NotStarted(states: seq<State>, steps: seq<Step>, k: nat)
    requires Run(states, steps) && k < |steps| && steps[k].Submit?
    ensures Starts(steps, k + 1, states[k].nextId) == 0
  {
    RunsCounted(states, steps, states[k].nextId, k);
    RunInv(states, steps, k);
  }

  lemma AliveRuns(s: State, id: Id, due: int, period: nat, n: nat)
    requires Inv(s) && Follows(s, id, due, period, n)
    ensures period == 0 && n > 0 && id in s.active ==> s.active[id].running
  {
  }

  /** Step j has destroyed another waiting event that was due at this time. */
  ghost predicate DestroysEqual(states: seq<State>, steps: seq<Step>, j: nat, id: Id, due: int) {
    && j < |steps| < |states| && steps[j].Destroy? && steps[j].id != id
    && var s, d := states[j], steps[j].id; d in s.active && !s.active[d].running && s.active[d].next == due
  }

  lemma QueuedNext(s: State, step: Step, id: Id)
    requires Inv(s) && Enabled(s, step) && step != Destroy(id) && id in s.active && !s.active[id].canceled
    ensures var s', e := Next(s, step), s.active[id];
      id in s'.active && !s'.active[id].running && id !in s'.queue ==>
        && !e.running && s'.active[id].next == e.next
        && (id !in s.queue
            || (step.Destroy? && step.id in s.active && !s.active[step.id].running && s.active[step.id].next == e.next))
  {
  }

  /** It waits in the queue, unless another event that was due at the same time has been destroyed. */
  lemma {:induction false} WaitsInQueue(states: seq<State>, steps: seq<Step>, k: nat, m: nat) returns (j: nat)
    requires Run(states, steps) && k < |steps| && steps[k].Submit? && k < m < |states|
    requires var id := states[k].nextId;
      && (forall i :: k < i < m ==> steps[i] != Destroy(id))
      && id in states[m].active && !states[m].active[id].running && id !in states[m].queue
    ensures k < j < m && DestroysEqual(states, steps, j, states[k].nextId, states[m].active[states[k].nextId].next)
    decreases m
  {
    var id := states[k].nextId;
    assert Enabled(states[m - 1], steps[m - 1]) && states[m] == Next(states[m - 1], steps[m - 1]);
    RunInv(states, steps, m - 1);
    if k + 1 == m {
      assert false;
    } else {
      Lives(states, steps, k, m - 1);
      Lives(states, steps, k, m);
      GoneStays(states[m - 1], steps[m - 1], id);
      QueuedNext(states[m - 1], steps[m - 1], id);
      if id !in states[m - 1].queue {
        j := WaitsInQueue(states, steps, k, m - 1);
      } else {
        j := m - 1;
      }
    }
  }

  lemma GoneStays(s: State, step: Step, id: Id)
    requires Inv(s) && Enabled(s, step) && id < s.nextId
    ensures id in Next(s, step).active ==> id in s.active
  {
  }

  /**
   A periodic event that nobody destroys stays with the monitor.  Whenever it is not running it is
   pending, and due at its first due time plus one period for each start.
   */
  lemma Periodic(states: seq<State>, steps: seq<Step>, k: nat, m: nat)
    requires Run(states, steps) && k < |steps| && steps[k].Submit? && steps[k].period > 0 && k < m < |states|
    requires forall j :: k < j < m ==> steps[j] != Destroy(states[k].nextId)
    ensures var s, id := states[m], states[k].nextId;
      && id in s.active && Query(s, id) == (if s.worker == Some(id) then Running else Pending)
      && (s.worker != Some(id) ==> s.active[id].next == steps[k].due + Starts(steps, m, id) * steps[k].period)
  {
    Lives(states, steps, k, m);
    RunInv(states, steps, m);
  }

  /** An event without period that nobody destroys is pending, then running once, then done. */
  lemma OneTime(states: seq<State>, steps: seq<Step>, k: nat, m: nat)
    requires Run(states, steps) && k < |steps| && steps[k].Submit? && steps[k].period == 0 && k < m < |states|
    requires forall j :: k < j < m ==> steps[j] != Destroy(states[k].nextId)
    ensures var s, id := states[m], states[k].nextId;
      Query(s, id) == if Starts(steps, m, id) == 0 then Pending else if s.worker == Some(id) then Running else Done
    ensures Starts(steps, m, states[k].nextId) == 0 ==> states[m].active[states[k].nextId].next == steps[k].due
  {
    Lives(states, steps, k, m);
    RunInv(states, steps, m);
  }

  /** Of two waiting events the one that is due first is started first. */
  lemma StartsEarliest(states: seq<State>, steps: seq<Step>, k: nat, k': nat, m: nat)
    requires Run(states, steps) && k < m < |steps| && k' < m && steps[k].Submit? && steps[k'].Submit?
    requires forall j :: k < j < m ==> steps[j] != Destroy(states[k].nextId)
    requires forall j :: k' < j < m ==> steps[j] != Destroy(states[k'].nextId)
    requires steps[m].Start? && steps[m].id == states[k].nextId && states[k'].nextId in states[m].queue
    ensures var id, id' := states[k].nextId, states[k'].nextId;
      steps[k].due + Starts(steps, m, id) * steps[k].period <= steps[k'].due + Starts(steps, m, id') * steps[k'].period
  {
    Lives(states, steps, k, m);
    Lives(states, steps, k', m);
    RunInv(states, steps, m);
    assert Enabled(states[m], steps[m]);
  }

  // ----- The object -----

  /** The events in the order of the queue are in the order of their due times. */
  ghost predicate Sorted(queue: seq<Id>, active: map<Id, Event>) {
    && (forall i :: 0 <= i < |queue| ==> queue[i] in active)
    && (forall i, j :: 0 <= i < j < |queue| ==> queue[i] != queue[j] && active[queue[i]].next <= active[queue[j]].next)
  }

  class Monitor {
    var nextId: Id
    var active: map<Id, Event>
    var queue: seq<Id>
    ghost var worker: Option<Id>

    ghost function View(): State
      reads this
    {
      State(nextId, active, (set id | id in queue), worker)
    }

    ghost predicate Valid()
      reads this
    {
      Inv(View()) && Sorted(queue, active)
    }

    constructor ()
      ensures Valid() && View() == Initial()
    {
      nextId, active, queue, worker := 1, map[], [], None;
    }

    /** Inserts behind all events that are not due later, as an ordered multiset does. */
    method Enqueue(id: Id)
      requires Sorted(queue, active) && id in active && id !in queue
      modifies this`queue
      ensures Sorted(queue, active) && forall j :: j in queue <==> j in old(queue) || j == id
    {
      var p := 0;
      while p < |queue| && active[queue[p]].next <= active[id].next
        invariant 0 <= p <= |queue| && forall i :: 0 <= i < p ==> active[queue[i]].next <= active[id].next
      {
        p := p + 1;
      }
      queue := queue[..p] + [id] + queue[p..];
    }

    /** Erases all events with an equal due time. */
    method EraseEqual(next: int)
      requires Sorted(queue, active)
      modifies this`queue
      ensures Sorted(queue, active) && forall j :: j in queue <==> j in old(queue) && active[j].next != next
    {
      var kept: seq<Id> := [];
      for i := 0 to |queue|
        invariant Sorted(kept, active)
        invariant forall j :: j in kept <==> j in queue[..i] && active[j].next != next
      {
        assert queue[..i + 1] == queue[..i] + [queue[i]];
        if active[queue[i]].next != next {
          kept := kept + [queue[i]];
        }
      }
      assert queue[..|queue|] == queue;
      queue := kept;
    }

    /** submitImpl */
    method SubmitEvent(due: int, period: nat) returns (id: Id)
      requires Valid()
      modifies this
      ensures Valid() && View() == DoSubmit(old(View()), due, period) && id == old(nextId)
    {
      hide OnTime;
      InvNext(View(), Submit(due, period));
      id := nextId;
      nextId := nextId + 1;
      active := active[id := Event(due, period, false, false, due, 0)];
      Enqueue(id);
      assert View().queue == old(View()).queue + {id};
    }

    /** destroy; `found` tells whether the waiter will have something to wait for. */
    method DestroyEvent(id: Id) returns (found: bool)
      requires Valid()
      modifies this
      ensures Valid() && View() == DoDestroy(old(View()), id) && found == (id in old(active))
    {
      hide OnTime;
      InvNext(View(), Destroy(id));
      found := id in active;
      if found {
        var e := active[id];
        if e.running {
          active := active[id := e.(canceled := true)];
        } else {
          EraseEqual(e.next);
          active := active - {id};
          assert View().queue == old(View()).queue - Equals(old(View()), e.next);
        }
      }
    }

    method QueryEvent(id: Id) returns (r: Status)
      ensures r == Query(View(), id)
    {
      if id !in active {
        return if id < nextId then Done else NotFound;
      }
      return if active[id].running then Running else Pending;
    }

    /** The worker's look at the first event of the queue: it is taken out and marked as running if it is due. */
    method TakeDue(now: int) returns (id: Option<Id>)
      requires Valid() && worker == None
      modifies this
      ensures Valid()
      ensures id.Some? ==> CanStart(old(View()), id.value, now) && View() == DoStart(old(View()), id.value)
      ensures id.None? ==> View() == old(View()) && forall j :: j in queue ==> now < active[j].next
    {
      hide OnTime;
      if queue == [] || now < active[queue[0]].next {
        return None;
      }
      var first := queue[0];
      InvNext(View(), Start(first, now));
      queue := queue[1..];
      var e := active[first];
      active := active[first := e.(running := true, runs := e.runs + 1)];
      worker := Some(first);
      assert old(queue) == [first] + queue;
      assert View().queue == old(View()).queue - {first};
      id := Some(first);
    }

    /** After the handler of event id has returned. */
    method AfterRun(id: Id)
      requires Valid() && worker == Some(id)
      modifies this
      ensures Valid() && View() == DoFinish(old(View()))
    {
      hide OnTime;
      InvNext(View(), Finish);
      var e := active[id];
      worker := None;
      if e.canceled {
        active := active - {id};
      } else if e.period > 0 {
        active := active[id := e.(running := false, next := e.next + e.period)];
        Enqueue(id);
        assert View().queue == old(View()).queue + {id};
      } else {
        active := active - {id};
      }
    }
  }
}
