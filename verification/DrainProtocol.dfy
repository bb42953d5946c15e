/**
The AI spam check queue and its shutdown drain: a WaitGroup counter, a bounded channel, a fixed pool of
workers and a draining flag, under every interleaving. Any number of drains may run; the guarantee of
the drain is for one that no other drain disturbs.
*/
module DrainProtocol {
  import opened Options
  import opened Runs
  import opened Sets

  const QUEUE_CAPACITY: nat := 256
  const WORKER_COUNT: nat := 4

  /** How far one call of aispamEnqueue, and the check it hands over, has come. */
  datatype Stage =
    | Counted    // after Add(1), before the flag is read
    | Passed     // the flag was clear; the hand-off is next
    | Refused    // the flag was set; Done is next
    | Overflowed // the queue was full; Done is next
    | Queued
    | Running
    | Finished
    | Shed

  /** A drain: `intact` until another drain clears the flag under it. */
  datatype Drain = Waiting(intact: bool) | SawZero(intact: bool) | Returned

  datatype State = State(
    draining: bool,
    inFlight: int,
    queue: seq<nat>,
    calls: map<nat, Stage>,
    drains: map<nat, Drain>
  )

  datatype Event =
    | Add(id: nat)
    | ReadFlag(id: nat)
    | HandOff(id: nat)
    | Done(id: nat)
    | Take
    | Finish(id: nat)
    | StartDrain(drain: nat)
    | WaitReturns(drain: nat)
    | ClearFlag(drain: nat)

  const INIT := State(false, 0, [], map[], map[])

  predicate InFlight(stage: Stage) {
    !stage.Finished? && !stage.Shed?
  }

  /** The calls whose stage satisfies `p`. */
  function With(calls: map<nat, Stage>, p: Stage -> bool): set<nat> {
    set id | id in calls && p(calls[id])
  }

  function RunningCount(s: State): nat {
    |With(s.calls, (stage: Stage) => stage.Running?)|
  }

  function Advance(s: State, id: nat, stage: Stage): State {
    s.(calls := s.calls[id := stage])
  }

  /** A cleared flag spoils the guarantee of every other drain still under way. */
  function Spoil(drains: map<nat, Drain>, clearer: nat): map<nat, Drain> {
    map d | d in drains ::
      if d == clearer then Returned
      else match drains[d]
           case Waiting(_) => Waiting(false)
           case SawZero(_) => SawZero(false)
           case Returned => Returned
  }

  function Next(s: State, e: Event): Option<State> {
    match e
    case Add(id) =>
      if id in s.calls then None else Some(Advance(s.(inFlight := s.inFlight + 1), id, Counted))
    case ReadFlag(id) =>
      if id !in s.calls || s.calls[id] != Counted then None
      else Some(Advance(s, id, if s.draining then Refused else Passed))
    case HandOff(id) =>
      if id !in s.calls || s.calls[id] != Passed then None
      else if |s.queue| < QUEUE_CAPACITY then Some(Advance(s.(queue := s.queue + [id]), id, Queued))
      else Some(Advance(s, id, Overflowed))
    case Done(id) =>
      if id !in s.calls || !(s.calls[id] == Refused || s.calls[id] == Overflowed) then None
      else Some(Advance(s.(inFlight := s.inFlight - 1), id, Shed))
    case Take =>
      if s.queue == [] || RunningCount(s) >= WORKER_COUNT then None
      else Some(Advance(s.(queue := s.queue[1..]), s.queue[0], Running))
    case Finish(id) =>
      if id !in s.calls || s.calls[id] != Running then None
      else Some(Advance(s.(inFlight := s.inFlight - 1), id, Finished))
    case StartDrain(d) =>
      if d in s.drains then None else Some(s.(draining := true, drains := s.drains[d := Waiting(true)]))
    case WaitReturns(d) =>
      if d !in s.drains || !s.drains[d].Waiting? || s.inFlight != 0 then None
      else Some(s.(drains := s.drains[d := SawZero(s.drains[d].intact)]))
    case ClearFlag(d) =>
      if d !in s.drains || !s.drains[d].SawZero? then None
      else Some(s.(draining := false, drains := Spoil(s.drains, d)))
  }

  // ----- What every step keeps -----

  function Active(calls: map<nat, Stage>): set<nat> {
    With(calls, InFlight)
  }

  ghost predicate Counts(s: State) {
    s.inFlight == |Active(s.calls)|
  }

  ghost predicate QueueMatches(s: State) {
    && |s.queue| <= QUEUE_CAPACITY
    && (forall i, j :: 0 <= i < j < |s.queue| ==> s.queue[i] != s.queue[j])
    && (forall id :: id in s.queue <==> id in s.calls && s.calls[id] == Queued)
  }

  /** A call that the drain's Wait will not see: it has finished, been shed, or is bound to be refused. */
  predicate Settled(stage: Stage) {
    stage == Finished || stage == Shed || stage == Counted || stage == Refused
  }

  ghost predicate DrainsHold(s: State) {
    forall d :: d in s.drains && !s.drains[d].Returned? && s.drains[d].intact ==>
      && s.draining
      && (s.drains[d].SawZero? ==> forall id :: id in s.calls ==> Settled(s.calls[id]))
  }

  ghost predicate Inv(s: State) {
    Counts(s) && QueueMatches(s) && DrainsHold(s) && RunningCount(s) <= WORKER_COUNT
  }

  lemma WithElsewhere(calls: map<nat, Stage>, p: Stage -> bool, id: nat, stage: Stage)
    ensures With(calls, p) - {id} == With(calls[id := stage], p) - {id}
  {
  }

  lemma WithUpdate(calls: map<nat, Stage>, p: Stage -> bool, id: nat, stage: Stage)
    ensures |With(calls[id := stage], p)| == |With(calls, p)|
            + (if p(stage) then 1 else 0) - (if id in calls && p(calls[id]) then 1 else 0)
  {
    WithElsewhere(calls, p, id, stage);
    Without(With(calls, p), id);
    Without(With(calls[id := stage], p), id);
  }

  /** The call that a step moves to another stage, if it moves one. */
  function Moved(s: State, e: Event): Option<nat> {
    match e
    case Take => if s.queue == [] then None else Some(s.queue[0])
    case StartDrain(_) => None
    case WaitReturns(_) => None
    case ClearFlag(_) => None
    case _ => Some(e.id)
  }

  lemma MovesOneCall(s: State, e: Event, p: Stage -> bool)
    requires Next(s, e).Some?
    ensures var t := Next(s, e).value;
            if Moved(s, e).None? then t.calls == s.calls
            else
              var id := Moved(s, e).value;
              && id in t.calls
              && |With(t.calls, p)| == |With(s.calls, p)|
                 + (if p(t.calls[id]) then 1 else 0) - (if id in s.calls && p(s.calls[id]) then 1 else 0)
  {
    var t := Next(s, e).value;
    if Moved(s, e).Some? {
      var id := Moved(s, e).value;
      assert t.calls == s.calls[id := t.calls[id]];
      WithUpdate(s.calls, p, id, t.calls[id]);
    }
  }

  lemma CountsStep(s: State, e: Event)
    requires Inv(s) && Next(s, e).Some?
    ensures Counts(Next(s, e).value)
  {
    MovesOneCall(s, e, InFlight);
    if e.Take? {
      assert s.queue[0] in s.queue;
    }
  }

  lemma QueueStep(s: State, e: Event)
    requires Inv(s) && Next(s, e).Some?
    ensures QueueMatches(Next(s, e).value)
  {
    if e.Take? {
      TakeKeepsQueue(s);
    } else if e.HandOff? {
      HandOffKeepsQueue(s, e.id);
    }
  }

  lemma TakeKeepsQueue(s: State)
    requires QueueMatches(s) && Next(s, Take).Some?
    ensures QueueMatches(Next(s, Take).value)
  {
    assert s.queue == [s.queue[0]] + s.queue[1..];
    assert s.queue[0] in s.queue;
  }

  lemma HandOffKeepsQueue(s: State, id: nat)
    requires QueueMatches(s) && Next(s, HandOff(id)).Some?
    ensures QueueMatches(Next(s, HandOff(id)).value)
  {
    assert id !in s.queue;
  }

  lemma RunningStep(s: State, e: Event)
    requires Inv(s) && Next(s, e).Some?
    ensures RunningCount(Next(s, e).value) <= WORKER_COUNT
  {
    MovesOneCall(s, e, (stage: Stage) => stage.Running?);
  }

  lemma NobodyInFlight(s: State)
    requires Counts(s) && s.inFlight == 0
    ensures forall id :: id in s.calls ==> s.calls[id] == Finished || s.calls[id] == Shed
  {
    assert Active(s.calls) == {};
    forall id | id in s.calls ensures !InFlight(s.calls[id]) {
      assert id !in Active(s.calls);
    }
  }

  lemma HasMember(queue: seq<nat>)
    requires queue != []
    ensures exists id :: id in queue
  {
    assert queue[0] in queue;
  }

  lemma NothingQueued(s: State)
    requires QueueMatches(s) && forall id :: id in s.calls ==> s.calls[id] != Queued
    ensures s.queue == []
  {
    if s.queue != [] {
      HasMember(s.queue);
    }
  }

  lemma DrainsStep(s: State, e: Event)
    requires Inv(s) && Next(s, e).Some?
    ensures DrainsHold(Next(s, e).value)
  {
    var t := Next(s, e).value;
    if e.WaitReturns? {
      NobodyInFlight(s);
    }
    if e.Take? {
      assert s.queue[0] in s.queue;
    }
  }

  lemma InvAlways(s: State, es: seq<Event>, t: State)
    requires Inv(s) && Reaches(Next, s, es, t)
    ensures Inv(t)
  {
    forall x, e | Inv(x) && Next(x, e).Some? ensures Inv(Next(x, e).value) {
      InvStep(x, e);
    }
    Preservation(Next, x => Inv(x), s, es, t);
  }

  lemma InitialState()
    ensures Inv(INIT)
  {
    assert forall p: Stage -> bool :: With(map[], p) == {};
  }

  // ----- Main results -----

  /** In every run the WaitGroup counts exactly the callers before their hand-off, the queue and the workers. */
  lemma InFlightIsExact(es: seq<Event>, t: State)
    requires Reaches(Next, INIT, es, t)
    ensures t.inFlight == |Active(t.calls)| && |t.queue| <= QUEUE_CAPACITY
    ensures forall id :: id in t.queue <==> id in t.calls && t.calls[id] == Queued
  {
    InitialState();
    InvAlways(INIT, es, t);
  }

  /** When a drain's Wait returns, every check ever accepted has finished and every other call was shed. */
  lemma DrainWaitsForEveryCheck(es: seq<Event>, t: State, d: nat)
    requires Reaches(Next, INIT, es, t) && Next(t, WaitReturns(d)).Some?
    ensures t.queue == []
    ensures forall id :: id in t.calls ==> t.calls[id] == Finished || t.calls[id] == Shed
  {
    InitialState();
    InvAlways(INIT, es, t);
    NobodyInFlight(t);
    NothingQueued(t);
  }

  /** A drain that has not yet seen the counter at zero sees it before it gets any further. */
  lemma {:induction false} ZeroOnTheWay(s: State, es: seq<Event>, t: State, d: nat) returns (i: nat, u: State)
    requires Reaches(Next, s, es, t) && (d !in s.drains || s.drains[d].Waiting?)
    requires d in t.drains && !t.drains[d].Waiting?
    ensures i < |es| && es[i] == WaitReturns(d) && Reaches(Next, s, es[..i], u) && Next(u, es[i]).Some?
    decreases |es|
  {
    if es[0] == WaitReturns(d) {
      i, u := 0, s;
    } else {
      i, u := ZeroOnTheWay(Next(s, es[0]).value, es[1..], t, d);
      i := i + 1;
      assert es[..i][1..] == es[1..][..i - 1];
    }
  }

  /** In every run a drain returns only after a moment at which no check was queued or running. */
  lemma ReturnsOnlyAfterZero(es: seq<Event>, t: State, d: nat) returns (i: nat, u: State)
    requires Reaches(Next, INIT, es, t) && d in t.drains && t.drains[d].Returned?
    ensures i < |es| && es[i] == WaitReturns(d) && Reaches(Next, INIT, es[..i], u)
    ensures u.queue == [] && forall id :: id in u.calls ==> u.calls[id] == Finished || u.calls[id] == Shed
  {
    i, u := ZeroOnTheWay(INIT, es, t, d);
    DrainWaitsForEveryCheck(es[..i], u, d);
  }

  /**
  From then until it clears the flag, nothing is queued or running and nothing is accepted, provided no
  other drain has cleared the flag since this one set it.
  */
  lemma NothingStartsAfterDrain(es: seq<Event>, t: State, d: nat)
    requires Reaches(Next, INIT, es, t)
    requires d in t.drains && t.drains[d] == SawZero(true)
    ensures t.draining && t.queue == []
    ensures forall id :: id in t.calls ==> Settled(t.calls[id])
    ensures forall e :: Next(t, e).Some? ==>
              forall id :: id in Next(t, e).value.calls ==> Settled(Next(t, e).value.calls[id])
  {
    InitialState();
    InvAlways(INIT, es, t);
    assert t.drains[d].intact;
    NothingQueued(t);
    forall e | Next(t, e).Some?
      ensures forall id :: id in Next(t, e).value.calls ==> Settled(Next(t, e).value.calls[id])
    {
      StaysSettled(t, e);
    }
  }

  lemma StaysSettled(s: State, e: Event)
    requires s.draining && s.queue == [] && Next(s, e).Some?
    requires forall id :: id in s.calls ==> Settled(s.calls[id])
    ensures forall id :: id in Next(s, e).value.calls ==> Settled(Next(s, e).value.calls[id])
  {
  }

  /** Where a call can still get to. */
  predicate Later(from: Stage, to: Stage) {
    match from
    case Counted => true
    case Passed => to != Counted && to != Refused
    case Refused => to == Refused || to == Shed
    case Overflowed => to == Overflowed || to == Shed
    case Queued => to == Queued || to == Running || to == Finished
    case Running => to == Running || to == Finished
    case Finished => to == Finished
    case Shed => to == Shed
  }

  lemma LaterStep(s: State, e: Event, id: nat)
    requires Inv(s) && Next(s, e).Some? && id in s.calls
    ensures id in Next(s, e).value.calls && Later(s.calls[id], Next(s, e).value.calls[id])
  {
    if e.Take? {
      assert s.queue[0] in s.queue;
    }
  }

  lemma InvStep(s: State, e: Event)
    requires Inv(s) && Next(s, e).Some?
    ensures Inv(Next(s, e).value)
  {
    CountsStep(s, e);
    QueueStep(s, e);
    RunningStep(s, e);
    DrainsStep(s, e);
  }

  lemma {:induction false} LaterAlways(s: State, es: seq<Event>, t: State, id: nat)
    requires Inv(s) && Reaches(Next, s, es, t) && id in s.calls
    ensures id in t.calls && Later(s.calls[id], t.calls[id])
    decreases |es|
  {
    if es != [] {
      InvStep(s, es[0]);
      LaterStep(s, es[0], id);
      LaterAlways(Next(s, es[0]).value, es[1..], t, id);
    }
  }

  /**
  A call is run or shed, never both: in every run what was once queued is never shed, and what was once
  refused, found the queue full or was shed never runs.
  */
  lemma RunOrShed(before: seq<Event>, s: State, es: seq<Event>, t: State, id: nat)
    requires Reaches(Next, INIT, before, s) && Reaches(Next, s, es, t) && id in s.calls
    ensures id in t.calls && Later(s.calls[id], t.calls[id])
    ensures s.calls[id].Queued? || s.calls[id].Running? || s.calls[id].Finished? ==> !t.calls[id].Shed?
    ensures s.calls[id].Refused? || s.calls[id].Overflowed? || s.calls[id].Shed? ==>
              !t.calls[id].Queued? && !t.calls[id].Running? && !t.calls[id].Finished?
  {
    InitialState();
    InvAlways(INIT, before, s);
    LaterAlways(s, es, t, id);
  }

  // ----- What becomes of a call -----

  /**
  One call of aispamEnqueue with nothing in between: the check is queued exactly if no drain has set the flag
  and fewer than 256 checks are queued; otherwise it is shed and leaves no trace in the counter.
  */
  lemma EnqueueAlone(s: State, id: nat) returns (es: seq<Event>, t: State)
    requires id !in s.calls
    ensures Reaches(Next, s, es, t) && forall i :: 0 <= i < |es| ==> OfCaller(es[i], id)
    ensures if !s.draining && |s.queue| < 256
            then t == s.(calls := s.calls[id := Queued], queue := s.queue + [id], inFlight := s.inFlight + 1)
            else t == s.(calls := s.calls[id := Shed])
  {
    es, t := [Add(id)], Next(s, Add(id)).value;
    assert es[1..] == [];
    assert t == s.(calls := s.calls[id := Counted], inFlight := s.inFlight + 1);
    es, t := CallerStep(s, es, t, ReadFlag(id), id);
    if s.draining {
      es, t := CallerStep(s, es, t, Done(id), id);
    } else {
      assert t == s.(calls := s.calls[id := Passed], inFlight := s.inFlight + 1);
      es, t := CallerStep(s, es, t, HandOff(id), id);
      if |s.queue| >= 256 {
        es, t := CallerStep(s, es, t, Done(id), id);
      }
    }
  }

  predicate OfCaller(e: Event, id: nat) {
    match e
    case Add(x) => x == id
    case ReadFlag(x) => x == id
    case HandOff(x) => x == id
    case Done(x) => x == id
    case _ => false
  }

  lemma CallerStep(s: State, es: seq<Event>, t: State, e: Event, id: nat) returns (more: seq<Event>, u: State)
    requires Reaches(Next, s, es, t) && Next(t, e).Some? && OfCaller(e, id)
    requires forall i :: 0 <= i < |es| ==> OfCaller(es[i], id)
    ensures u == Next(t, e).value && Reaches(Next, s, more, u)
    ensures forall i :: 0 <= i < |more| ==> OfCaller(more[i], id)
  {
    more, u := es + [e], Next(t, e).value;
    assert [e][1..] == [] && Reaches(Next, t, [e], u);
    Concatenated(Next, s, es, t, [e], u);
  }

  /** `a` was queued before `b`. */
  ghost predicate Before(queue: seq<nat>, a: nat, b: nat) {
    exists i, j :: 0 <= i < j < |queue| && queue[i] == a && queue[j] == b
  }

  lemma BeforeStep(s: State, e: Event, a: nat, b: nat)
    requires Inv(s) && Next(s, e).Some? && Before(s.queue, a, b) && a in Next(s, e).value.queue
    ensures Before(Next(s, e).value.queue, a, b)
  {
    var q := Next(s, e).value.queue;
    var i, j :| 0 <= i < j < |s.queue| && s.queue[i] == a && s.queue[j] == b;
    if e.Take? {
      assert forall k :: 0 <= k < |q| ==> q[k] == s.queue[k + 1];
      assert i > 0;
      assert q[i - 1] == a && q[j - 1] == b;
    } else {
      assert q[i] == a && q[j] == b;
    }
  }

  lemma {:induction false} OrderKept(s: State, es: seq<Event>, t: State, a: nat, b: nat)
    requires Inv(s) && Reaches(Next, s, es, t) && Before(s.queue, a, b) && a in t.queue
    ensures Before(t.queue, a, b)
    decreases |es|
  {
    if es != [] {
      var u := Next(s, es[0]).value;
      InvStep(s, es[0]);
      assert a in s.queue;
      LaterStep(s, es[0], a);
      LaterAlways(u, es[1..], t, a);
      InvAlways(u, es[1..], t);
      BeforeStep(s, es[0], a, b);
      OrderKept(u, es[1..], t, a, b);
    }
  }

  /** Checks are started in the order in which they were queued: the later of two waits while the earlier does. */
  lemma FirstComeFirstServed(before: seq<Event>, s: State, es: seq<Event>, t: State, a: nat, b: nat)
    requires Reaches(Next, INIT, before, s) && Reaches(Next, s, es, t) && Before(s.queue, a, b) && a in t.queue
    ensures b in t.queue && Before(t.queue, a, b)
  {
    InitialState();
    InvAlways(INIT, before, s);
    OrderKept(s, es, t, a, b);
  }

  /** The steps of callers and workers, which go on while a drain waits. */
  predicate Works(s: State, e: Event) {
    e.ReadFlag? || e.HandOff? || e.Done? || e.Take? || e.Finish?
  }

  /** Some calls of callers and workers get one more call out of the way. */
  ghost predicate Lessens(s: State, es: seq<Event>, t: State) {
    && Reaches(Next, s, es, t) && Throughout(Next, Works, s, es)
    && t.inFlight == s.inFlight - 1 && t.drains == s.drains && t.draining == s.draining
  }

  lemma FinishOne(s: State, id: nat) returns (es: seq<Event>, t: State)
    requires id in s.calls && s.calls[id] == Running
    ensures Lessens(s, es, t)
  {
    es, t := [Finish(id)], Next(s, Finish(id)).value;
    assert es[1..] == [];
  }

  lemma ShedOne(s: State, id: nat) returns (es: seq<Event>, t: State)
    requires id in s.calls && (s.calls[id] == Refused || s.calls[id] == Overflowed)
    ensures Lessens(s, es, t)
  {
    es, t := [Done(id)], Next(s, Done(id)).value;
    assert es[1..] == [];
  }

  lemma First(s: State, e: Event, es: seq<Event>, t: State)
    requires Next(s, e).Some? && Works(s, e) && Lessens(Next(s, e).value, es, t)
    requires Next(s, e).value.inFlight == s.inFlight && Next(s, e).value.drains == s.drains
    requires Next(s, e).value.draining == s.draining
    ensures Lessens(s, [e] + es, t)
  {
    assert ([e] + es)[1..] == es;
  }

  lemma TakeOne(s: State) returns (es: seq<Event>, t: State)
    requires s.queue != [] && RunningCount(s) < WORKER_COUNT
    ensures Lessens(s, es, t)
  {
    es, t := FinishOne(Next(s, Take).value, s.queue[0]);
    First(s, Take, es, t);
    es := [Take] + es;
  }

  lemma HandOffOne(s: State, id: nat) returns (es: seq<Event>, t: State)
    requires id in s.calls && s.calls[id] == Passed && s.queue == [] && RunningCount(s) == 0
    ensures Lessens(s, es, t)
  {
    var u := Next(s, HandOff(id)).value;
    MovesOneCall(s, HandOff(id), (stage: Stage) => stage.Running?);
    es, t := TakeOne(u);
    First(s, HandOff(id), es, t);
    es := [HandOff(id)] + es;
  }

  lemma ReadOne(s: State, id: nat) returns (es: seq<Event>, t: State)
    requires id in s.calls && s.calls[id] == Counted && s.queue == [] && RunningCount(s) == 0
    ensures Lessens(s, es, t)
  {
    var e := ReadFlag(id);
    var u := Next(s, e).value;
    if s.draining {
      es, t := ShedOne(u, id);
    } else {
      MovesOneCall(s, e, (stage: Stage) => stage.Running?);
      es, t := HandOffOne(u, id);
    }
    First(s, e, es, t);
    es := [e] + es;
  }

  lemma SomeRunning(s: State) returns (id: nat)
    requires RunningCount(s) > 0
    ensures id in s.calls && s.calls[id] == Running
  {
    var running := With(s.calls, (stage: Stage) => stage.Running?);
    id :| id in running;
  }

  /** While a call is in flight, callers and workers can get one out of the way. */
  lemma OneLess(s: State) returns (es: seq<Event>, t: State)
    requires Inv(s) && s.inFlight > 0
    ensures Lessens(s, es, t)
  {
    if RunningCount(s) > 0 {
      var id := SomeRunning(s);
      es, t := FinishOne(s, id);
    } else if s.queue != [] {
      es, t := TakeOne(s);
    } else {
      var id :| id in Active(s.calls);
      if s.calls[id] == Refused || s.calls[id] == Overflowed {
        es, t := ShedOne(s, id);
      } else if s.calls[id] == Passed {
        es, t := HandOffOne(s, id);
      } else {
        NotQueuedNorRunning(s, id);
        es, t := ReadOne(s, id);
      }
    }
  }

  lemma NotQueuedNorRunning(s: State, id: nat)
    requires QueueMatches(s) && s.queue == [] && RunningCount(s) == 0 && id in s.calls
    ensures s.calls[id] != Queued && s.calls[id] != Running
  {
    assert id !in s.queue;
    var running := With(s.calls, (stage: Stage) => stage.Running?);
    assert running == {};
    assert id !in running;
  }

  lemma {:induction false} WorkedOff(s: State) returns (es: seq<Event>, t: State)
    requires Inv(s)
    ensures Reaches(Next, s, es, t) && Throughout(Next, Works, s, es) && t.inFlight == 0 && t.drains == s.drains
    decreases s.inFlight
  {
    if s.inFlight == 0 {
      es, t := [], s;
    } else {
      var first, u := OneLess(s);
      InvAlways(s, first, u);
      var rest;
      rest, t := WorkedOff(u);
      Concatenated(Next, s, first, u, rest, t);
      ThroughoutBoth(s, first, u, rest);
      es := first + rest;
    }
  }

  lemma {:induction false} ThroughoutBoth(s: State, es: seq<Event>, t: State, more: seq<Event>)
    requires Reaches(Next, s, es, t) && Throughout(Next, Works, s, es) && Throughout(Next, Works, t, more)
    ensures Throughout(Next, Works, s, es + more)
    decreases |es|
  {
    if es == [] {
      assert es + more == more;
    } else {
      assert (es + more)[1..] == es[1..] + more;
      ThroughoutBoth(Next(s, es[0]).value, es[1..], t, more);
    }
  }

  /** A waiting drain cannot hang: callers and workers alone can bring its Wait to return. */
  lemma DrainCanReturn(before: seq<Event>, s: State, d: nat) returns (es: seq<Event>, t: State)
    requires Reaches(Next, INIT, before, s) && d in s.drains && s.drains[d].Waiting?
    ensures Reaches(Next, s, es, t) && Throughout(Next, Works, s, es) && Next(t, WaitReturns(d)).Some?
  {
    InitialState();
    InvAlways(INIT, before, s);
    es, t := WorkedOff(s);
  }

  lemma FreshCall(calls: map<nat, Stage>) returns (id: nat)
    ensures id !in calls
  {
    id := NotAmong(calls.Keys);
  }

  lemma {:induction false} NotAmong(ids: set<nat>) returns (id: nat)
    ensures id !in ids && forall x :: x in ids ==> x < id
    decreases |ids|
  {
    if ids == {} {
      id := 0;
    } else {
      var x :| x in ids;
      Without(ids, x);
      var rest := NotAmong(ids - {x});
      id := if x < rest then rest else x + 1;
      forall y | y in ids ensures y < id {
        if y != x {
          assert y in ids - {x};
        }
      }
    }
  }

  /**
  The converse: while a drain has yet to return and the flag is clear, a check can be in the queue before it
  returns. Only another drain clears the flag under it.
  */
  lemma ClearFlagAdmitsChecks(s: State, d: nat) returns (es: seq<Event>, t: State, id: nat)
    requires QueueMatches(s) && d in s.drains && !s.drains[d].Returned? && !s.draining
    ensures Reaches(Next, s, es, t) && t.drains == s.drains && id in t.calls && t.calls[id] == Queued
  {
    es, t := [], s;
    if |s.queue| == QUEUE_CAPACITY {
      id := s.queue[0];
      assert id in s.queue;
    } else {
      id := FreshCall(s.calls);
      es, t := Extend(Next, s, es, t, Add(id));
      es, t := Extend(Next, s, es, t, ReadFlag(id));
      es, t := Extend(Next, s, es, t, HandOff(id));
    }
  }

  /** In every run an intact drain has the flag set, and a spoiled one that finds it clear admits checks. */
  lemma SpoiledDrainAdmitsChecks(before: seq<Event>, s: State, d: nat) returns (es: seq<Event>, t: State, id: nat)
    requires Reaches(Next, INIT, before, s) && d in s.drains && !s.drains[d].Returned? && !s.draining
    ensures !s.drains[d].intact
    ensures Reaches(Next, s, es, t) && t.drains == s.drains && id in t.calls && t.calls[id] == Queued
  {
    InitialState();
    InvAlways(INIT, before, s);
    es, t, id := ClearFlagAdmitsChecks(s, d);
  }

  lemma TwoDrains() returns (es: seq<Event>, t: State)
    ensures Reaches(Next, INIT, es, t)
    ensures t == State(false, 0, [], map[], map[1 := Returned, 2 := SawZero(false)])
  {
    es, t := [], INIT;
    es, t := Extend(Next, INIT, es, t, StartDrain(1));
    es, t := Extend(Next, INIT, es, t, StartDrain(2));
    es, t := Extend(Next, INIT, es, t, WaitReturns(1));
    es, t := Extend(Next, INIT, es, t, WaitReturns(2));
    assert t == State(true, 0, [], map[], map[1 := SawZero(true), 2 := SawZero(true)]);
    es, t := Extend(Next, INIT, es, t, ClearFlag(1));
  }

  /** With two overlapping drains the guarantee fails: a check is queued while the second has yet to return. */
  lemma OverlappingDrainsAdmitChecks() returns (es: seq<Event>, t: State)
    ensures Reaches(Next, INIT, es, t)
    ensures 2 in t.drains && t.drains[2].SawZero? && 7 in t.calls && t.calls[7] == Queued
  {
    es, t := TwoDrains();
    es, t := Extend(Next, INIT, es, t, Add(7));
    es, t := Extend(Next, INIT, es, t, ReadFlag(7));
    es, t := Extend(Next, INIT, es, t, HandOff(7));
  }
}
