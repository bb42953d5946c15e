/**
Starting and stopping the captcha workers and timers: a mutex-guarded context and done flag, a WaitGroup
and a sync.Once. What one lock holds is one step; any number of stops may overlap with the start, with
each other and with tasks that begin and end.
*/
module CaptchaShutdown {
  import opened Options
  import opened Runs
  import opened Sets

  /** A call of StopCaptchaLifecycle: the flag is set, then the context cancelled, then the tasks awaited. */
  datatype Stop = Marked(hadContext: bool) | Waiting | Returned

  datatype State = State(
    started: bool,     // the sync.Once has fired
    context: bool,     // captchaLifecycleCtx and captchaLifecycleStop are set
    cancelled: bool,
    done: bool,
    waitGroup: int,
    running: set<nat>,
    stops: map<nat, Stop>
  )

  datatype Event =
    | Start                // the locked part of StartCaptchaLifecycle
    | StartTask(task: nat)
    | EndTask(task: nat)
    | MarkDone(pid: nat)
    | Cancel(pid: nat)
    | WaitReturns(pid: nat)

  const INIT := State(false, false, false, false, 0, {}, map[])

  function Next(s: State, e: Event): Option<State> {
    match e
    case Start =>
      if s.started then None else Some(s.(started := true, context := !s.done))
    case StartTask(task) =>
      if task in s.running then None
      else if !s.context || s.done then Some(s)
      else Some(s.(waitGroup := s.waitGroup + 1, running := s.running + {task}))
    case EndTask(task) =>
      if task !in s.running then None
      else Some(s.(waitGroup := s.waitGroup - 1, running := s.running - {task}))
    case MarkDone(pid) =>
      if pid in s.stops then None else Some(s.(done := true, stops := s.stops[pid := Marked(s.context)]))
    case Cancel(pid) =>
      if pid !in s.stops || !s.stops[pid].Marked? then None
      else Some(s.(cancelled := s.cancelled || s.stops[pid].hadContext, stops := s.stops[pid := Waiting]))
    case WaitReturns(pid) =>
      if pid !in s.stops || s.stops[pid] != Waiting || s.waitGroup != 0 then None
      else Some(s.(stops := s.stops[pid := Returned]))
  }

  // ----- What every step keeps -----

  /** What a stop can rely on: it saw the context if there will ever be one, and cancelled it. */
  predicate Sound(s: State, stop: Stop) {
    && s.done
    && (stop.Marked? ==> stop.hadContext == s.context)
    && (!stop.Marked? && s.context ==> s.cancelled)
    && (stop.Returned? ==> s.running == {})
  }

  ghost predicate Counted(s: State) {
    && s.waitGroup == |s.running|
    && (s.running != {} ==> s.context)
    && (s.context ==> s.started)
  }

  ghost predicate Inv(s: State) {
    Counted(s) && forall pid :: pid in s.stops ==> Sound(s, s.stops[pid])
  }

  lemma AddOne(running: set<nat>, task: nat)
    requires task !in running
    ensures |running + {task}| == |running| + 1
  {
  }

  lemma CountedStep(s: State, e: Event)
    requires Counted(s) && Next(s, e).Some?
    ensures Counted(Next(s, e).value)
  {
    if e.StartTask? {
      AddOne(s.running, e.task);
    } else if e.EndTask? {
      Without(s.running, e.task);
    }
  }

  lemma SoundStep(s: State, e: Event, pid: nat)
    requires Inv(s) && Next(s, e).Some? && pid in Next(s, e).value.stops
    ensures Sound(Next(s, e).value, Next(s, e).value.stops[pid])
  {
    if pid in s.stops {
      assert Sound(s, s.stops[pid]);
    }
  }

  lemma InvStep(s: State, e: Event)
    requires Inv(s) && Next(s, e).Some?
    ensures Inv(Next(s, e).value)
  {
    CountedStep(s, e);
    forall pid | pid in Next(s, e).value.stops ensures Sound(Next(s, e).value, Next(s, e).value.stops[pid]) {
      SoundStep(s, e, pid);
    }
  }

  lemma InvAlways(s: State, es: seq<Event>, t: State)
    requires Inv(s) && Reaches(Next, s, es, t)
    ensures Inv(t)
  {
    forall x, e | Inv(x) && Next(x, e).Some? ensures Inv(Next(x, e).value) {
      InvStep(x, e);
    }
    Preservation(Next, x => Inv(x), s, es, t);
  }

  // ----- Main results -----

  lemma ReturnedStays(s: State, e: Event, pid: nat)
    requires Next(s, e).Some? && pid in s.stops && s.stops[pid] == Returned
    ensures pid in Next(s, e).value.stops && Next(s, e).value.stops[pid] == Returned
  {
  }

  lemma {:induction false} StaysStopped(s: State, es: seq<Event>, t: State, pid: nat)
    requires Inv(s) && Reaches(Next, s, es, t) && pid in s.stops && s.stops[pid] == Returned
    ensures t.running == {} && pid in t.stops && t.stops[pid] == Returned
    decreases |es|
  {
    if es == [] {
      assert Sound(t, t.stops[pid]);
    } else {
      InvStep(s, es[0]);
      ReturnedStays(s, es[0], pid);
      StaysStopped(Next(s, es[0]).value, es[1..], t, pid);
    }
  }

  /** Once any stop has returned, no task runs, then or ever after, whatever starts and stops follow. */
  lemma StoppedForGood(before: seq<Event>, s: State, es: seq<Event>, t: State, pid: nat)
    requires Reaches(Next, INIT, before, s) && Reaches(Next, s, es, t) && pid in s.stops && s.stops[pid] == Returned
    ensures t.running == {} && t.waitGroup == 0
  {
    InvAlways(INIT, before, s);
    StaysStopped(s, es, t, pid);
    InvAlways(s, es, t);
  }

  /** In every run, whatever a stop waits for has been told to end, and the WaitGroup counts just those tasks. */
  lemma WaitsOnlyForCancelledTasks(es: seq<Event>, t: State, pid: nat)
    requires Reaches(Next, INIT, es, t) && pid in t.stops && t.stops[pid] == Waiting
    ensures t.waitGroup == |t.running| && (t.running != {} ==> t.cancelled)
    ensures forall task :: Next(t, StartTask(task)).Some? ==> Next(t, StartTask(task)).value == t
  {
    InvAlways(INIT, es, t);
    assert Sound(t, t.stops[pid]);
  }

  lemma {:induction false} EndTasksAndReturn(s: State, pid: nat) returns (es: seq<Event>, t: State)
    requires Inv(s) && pid in s.stops && s.stops[pid] == Waiting
    ensures Reaches(Next, s, es, t) && t.stops == s.stops[pid := Returned]
    ensures |es| == |s.running| + 1 && forall i :: 0 <= i < |es| - 1 ==> es[i].EndTask? && es[i].task in s.running
    decreases |s.running|
  {
    if s.running == {} {
      es, t := [WaitReturns(pid)], Next(s, WaitReturns(pid)).value;
      assert es[1..] == [];
    } else {
      var task :| task in s.running;
      var e := EndTask(task);
      InvStep(s, e);
      Without(s.running, task);
      var rest;
      rest, t := EndTasksAndReturn(Next(s, e).value, pid);
      es := [e] + rest;
      assert es[1..] == rest;
    }
  }

  /** So a stop cannot hang: when the tasks still running have ended, one after the other, it returns. */
  lemma StopCanReturn(before: seq<Event>, s: State, pid: nat) returns (es: seq<Event>, t: State)
    requires Reaches(Next, INIT, before, s) && pid in s.stops && s.stops[pid] == Waiting
    ensures Reaches(Next, s, es, t) && t.stops == s.stops[pid := Returned]
    ensures |es| == |s.running| + 1 && forall i :: 0 <= i < |es| - 1 ==> es[i].EndTask? && es[i].task in s.running
  {
    InvAlways(INIT, before, s);
    es, t := EndTasksAndReturn(s, pid);
  }

  lemma {:induction false} FlagsTellHistory(s: State, es: seq<Event>, t: State)
    requires Reaches(Next, s, es, t) && (!s.done ==> s.context == s.started)
    ensures t.done <==> s.done || exists i :: 0 <= i < |es| && es[i].MarkDone?
    ensures !t.done ==> (t.context <==> s.context || exists i :: 0 <= i < |es| && es[i].Start?)
    decreases |es|
  {
    if es != [] {
      FlagsTellHistory(Next(s, es[0]).value, es[1..], t);
      assert forall i :: 0 < i < |es| ==> es[i] == es[1..][i - 1];
      assert forall i :: 0 <= i < |es[1..]| ==> es[1..][i] == es[i + 1];
    }
  }

  /** In every run a task can be started exactly if the workers have been started and no stop has begun. */
  lemma TasksRunBetweenStartAndStop(es: seq<Event>, t: State, task: nat)
    requires Reaches(Next, INIT, es, t) && task !in t.running
    ensures Next(t, StartTask(task)).Some?
    ensures var u := Next(t, StartTask(task)).value;
            if (exists i :: 0 <= i < |es| && es[i].Start?) && forall i :: 0 <= i < |es| ==> !es[i].MarkDone?
            then u.running == t.running + {task} && u.waitGroup == t.waitGroup + 1
            else u == t
  {
    FlagsTellHistory(INIT, es, t);
  }

  /** A stop begun in any state of any run can go through: it cancels the tasks, which end, and returns. */
  lemma StopGoesThrough(before: seq<Event>, s: State, pid: nat) returns (es: seq<Event>, t: State)
    requires Reaches(Next, INIT, before, s) && pid !in s.stops
    ensures Reaches(Next, s, [MarkDone(pid), Cancel(pid)] + es, t)
    ensures forall i :: 0 <= i < |es| - 1 ==> es[i].EndTask? && es[i].task in s.running
    ensures pid in t.stops && t.stops[pid] == Returned && t.done && t.running == {}
  {
    InvAlways(INIT, before, s);
    var u := Next(s, MarkDone(pid)).value;
    var v := Next(u, Cancel(pid)).value;
    InvStep(s, MarkDone(pid));
    InvStep(u, Cancel(pid));
    es, t := EndTasksAndReturn(v, pid);
    assert ([Cancel(pid)] + es)[1..] == es && Reaches(Next, u, [Cancel(pid)] + es, t);
    assert [MarkDone(pid), Cancel(pid)] + es == [MarkDone(pid)] + ([Cancel(pid)] + es);
    assert ([MarkDone(pid)] + ([Cancel(pid)] + es))[1..] == [Cancel(pid)] + es;
    assert Reaches(Next, s, [MarkDone(pid)] + ([Cancel(pid)] + es), t);
    InvAlways(v, es, t);
    assert Sound(t, t.stops[pid]);
  }
}
