/**
Each kind of start can be careless: careful runs after which one more start makes what is in flight clash.
*/
module CaptchaCareless {
  import opened Options
  import opened Runs
  import opened CaptchaLifecycle
  import opened CaptchaClash
  import opened CaptchaSafety

  ghost predicate CarefulRun(es: seq<Event>, t: State) {
    Reaches(Next, INIT, es, t) && Throughout(Next, (s, e) => Careful(s, e), INIT, es)
  }

  /** `e` is the careless start that would follow a careful run to `t`. */
  ghost predicate CarelessAfter(es: seq<Event>, t: State, e: Event) {
    CarefulRun(es, t) && Next(t, e).Some? && Starts(t, e) && Clash(Next(t, e).value)
  }

  lemma Play(es: seq<Event>, t: State, e: Event) returns (more: seq<Event>, u: State)
    requires CarefulRun(es, t) && Next(t, e).Some? && Careful(t, e)
    ensures u == Next(t, e).value && CarefulRun(more, u)
  {
    more, u := es + [e], Next(t, e).value;
    ReachesSnoc(Next, (s, x) => Careful(s, x), INIT, es, t, e);
  }

  /** SendCaptcha has created the attempt and muted the member. */
  lemma Challenged() returns (es: seq<Event>, t: State)
    ensures CarefulRun(es, t) && t == State(0, Some(0), None, true, false, map[], 1)
  {
    es, t := [], INIT;
    es, t := Play(es, t, Create(1));
    es, t := Play(es, t, SenderMute(1, true));
  }

  lemma Claimed(flow: Flow) returns (es: seq<Event>, t: State)
    ensures CarefulRun(es, t) && t == State(0, None, Some(Row(1, 0)), true, false, map[1 := Begin(flow)], 2)
  {
    es, t := Challenged();
    es, t := Play(es, t, Claim(1, flow));
  }

  /** The attempt has run out with action "mute": the 24 h schedule is stored, the mute still to come. */
  lemma TimedMutePending() returns (es: seq<Event>, t: State)
    ensures CarefulRun(es, t) && t == State(0, None, Some(Row(1, DAY)), true, false, map[1 := MuteScheduled(DAY)], 2)
  {
    es, t := Claimed(Expire(Mute));
    es, t := Play(es, t, StoreTimedMute(1, true));
  }

  /** A second SendCaptcha for a muted member can fail to mute and delete the only row. */
  lemma SecondSend() returns (es: seq<Event>, t: State, e: Event)
    ensures CarelessAfter(es, t, e) && e.Create?
  {
    es, t := Challenged();
    e := Create(2);
    var u := Next(t, e).value;
    assert u.procs[2] == Created(1) && Forgotten(Dropped(u, 2));
  }

  /** An approval releases the attempt before SendCaptcha's restriction lands. */
  lemma EarlyClaim() returns (es: seq<Event>, t: State, e: Event)
    ensures CarelessAfter(es, t, e) && e.Claim?
  {
    es, t := [], INIT;
    es, t := Play(es, t, Create(1));
    e := Claim(2, Release);
    var u := Next(t, e).value;
    assert u.procs[1] == Created(0) && u.procs[2] == Releasing;
    assert ClearedBeside(u.procs, 1);
  }

  /** A worker reads the schedule of a timed mute that is overdue and has yet to land. */
  lemma ReadBeforeTimedMute() returns (es: seq<Event>, t: State, e: Event)
    ensures CarelessAfter(es, t, e) && e.Read? && t.clock == DAY + 1
  {
    es, t := TimedMutePending();
    es, t := Play(es, t, Tick(DAY + 1));
    e := Read(2);
    var u := Next(t, e).value;
    assert u.procs[1] == MuteScheduled(DAY) && Serves(u.procs[2], u.schedule);
    assert ServedBeside(u.schedule, u.procs, 1);
  }

  /** A worker reads while a timed mute is under way, which may yet be refused. */
  lemma ReadBesideTimedMute() returns (es: seq<Event>, t: State, e: Event)
    ensures CarelessAfter(es, t, e) && e.Read? && t.procs == map[1 := TimedMuting]
  {
    es, t := Claimed(Expire(Mute));
    es, t := Play(es, t, Tick(1));
    e := Read(2);
    var u := Next(t, e).value;
    assert u.procs[1] == TimedMuting && Serving(u.procs[2]) && !Mutes(u.procs[2], u.schedule);
    assert RaisedThenCleared(u.procs);
  }

  /** /captcha off restores a scheduled member between a timed mute's schedule and the mute. */
  lemma SweepBesideTimedMute() returns (es: seq<Event>, t: State, e: Event)
    ensures CarelessAfter(es, t, e) && e.RestoreScheduled?
  {
    es, t := TimedMutePending();
    e := RestoreScheduled(2);
    var u := Next(t, e).value;
    assert u.procs[1] == MuteScheduled(DAY) && u.procs[2] == Restoring(false);
    assert ClearedBeside(u.procs, 1);
  }

  /** A worker has read a schedule that a failed restore then moved on. */
  lemma OutOfDateWorker() returns (es: seq<Event>, t: State)
    ensures CarefulRun(es, t) && t == State(2, None, Some(Row(1, 1)), true, false, map[2 := Unmuting(Row(1, 0))], 2)
  {
    es, t := Claimed(Restore);
    es, t := Play(es, t, Tick(1));
    assert t == State(1, None, Some(Row(1, 0)), true, false, map[1 := Restoring(false)], 2);
    ReadBesideRestore(es, t);
    es, t := Play(es, t, Read(2));
    assert t == State(1, None, Some(Row(1, 0)), true, false, map[1 := Restoring(false), 2 := Unmuting(Row(1, 0))], 2);
    es, t := Rescheduled(es, t);
  }

  lemma ReadBesideRestore(es: seq<Event>, t: State)
    requires t == State(1, None, Some(Row(1, 0)), true, false, map[1 := Restoring(false)], 2)
    ensures Careful(t, Read(2))
  {
    var u := Next(t, Read(2)).value;
    assert u.procs == map[1 := Restoring(false), 2 := Unmuting(Row(1, 0))];
    assert forall p :: p in u.procs ==> p == 1 || p == 2;
    assert !ClearedBeside(u.procs, 1) && !RaisedThenCleared(u.procs);
  }

  lemma Rescheduled(es: seq<Event>, t: State) returns (more: seq<Event>, u: State)
    requires CarefulRun(es, t)
    requires t == State(1, None, Some(Row(1, 0)), true, false, map[1 := Restoring(false), 2 := Unmuting(Row(1, 0))], 2)
    ensures CarefulRun(more, u) && u == State(2, None, Some(Row(1, 1)), true, false, map[2 := Unmuting(Row(1, 0))], 2)
  {
    more, u := Play(es, t, Unmute(1, Transient));
    more, u := Play(more, u, Reschedule(1, true));
    more, u := Play(more, u, Tick(2));
  }

  /** A second unmute worker, of another replica, reads the newer schedule. */
  lemma SecondWorker() returns (es: seq<Event>, t: State, e: Event)
    ensures CarelessAfter(es, t, e) && e.Read? && t.procs == map[2 := Unmuting(Row(1, 0))]
  {
    es, t := OutOfDateWorker();
    e := Read(3);
    var u := Next(t, e).value;
    assert Mutes(u.procs[2], u.schedule) && Serves(u.procs[3], u.schedule);
    assert ServedBeside(u.schedule, u.procs, 2);
  }

  /** Telegram refuses the timed mute, and its schedule has been dropped. */
  lemma RefusedAndDropped() returns (es: seq<Event>, t: State)
    ensures CarefulRun(es, t) && t == State(0, None, None, true, false, map[1 := Restoring(true)], 2)
  {
    es, t := TimedMutePending();
    es, t := Play(es, t, TimedMute(1, false));
    es, t := Play(es, t, DropSchedule(1, true));
  }

  /** The process is killed before it restores. */
  lemma KilledAfterRefusal() returns (es: seq<Event>, t: State, e: Event)
    ensures CarelessAfter(es, t, e) && e.Crash?
  {
    es, t := RefusedAndDropped();
    e := Crash(1);
    assert Forgotten(Next(t, e).value);
  }

  /** Its unmute has failed for the time being. */
  lemma RefusedAndNotRestored() returns (es: seq<Event>, t: State)
    ensures CarefulRun(es, t) && t == State(0, None, None, true, false, map[1 := Rescheduling(true)], 2)
  {
    es, t := RefusedAndDropped();
    es, t := Play(es, t, Unmute(1, Transient));
  }

  /** With nothing killed, the store that should make up for the failed unmute fails too. */
  lemma StoreFailsAfterRefusal() returns (es: seq<Event>, t: State, e: Event)
    ensures CarelessAfter(es, t, e) && e == Reschedule(1, false)
  {
    es, t := RefusedAndNotRestored();
    e := Reschedule(1, false);
    assert Forgotten(Next(t, e).value);
  }

  /** Left to itself it restores the member: a refused mute is no loss. */
  lemma RefusalIsCovered() returns (es: seq<Event>, t: State)
    ensures CarefulRun(es, t) && t == State(0, None, None, false, false, map[], 2)
  {
    es, t := RefusedAndDropped();
    es, t := Play(es, t, Unmute(1, Ok));
    es, t := Play(es, t, Clear(1));
  }

  /** A member who left comes back, still restricted, before leftMember has deleted the rows. */
  lemma RejoinBeforeCleanup() returns (es: seq<Event>, t: State, e: Event)
    ensures CarelessAfter(es, t, e) && e.Rejoin?
  {
    es, t := Challenged();
    es, t := Play(es, t, Leave);
    es, t := Play(es, t, Depart(1, true));
    assert t == State(0, Some(0), None, true, true, map[1 := Departing(Some(0))], 1);
    e := Rejoin(true);
    var u := Next(t, e).value;
    assert Drops(u.procs[1], 0) && Dropped(u, 1).procs[1] == Clearing;
  }
}
