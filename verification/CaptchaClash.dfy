/**
A member muted by the captcha flow must not be forgotten: some row, or a process still bound to restore,
has to remember that the mute is temporary. `Clash` says of a state, by what is in flight, when that can
fail; here it is shown that nothing else can make it fail.
*/
module CaptchaClash {
  import opened Options
  import opened Runs
  import opened CaptchaLifecycle

  /** A process whose timed mute was refused, between dropping the schedule and restoring. */
  predicate Refused(pc: Pc) {
    (pc.Restoring? || pc.Rescheduling?) && pc.refused
  }

  predicate Unrefused(procs: map<nat, Pc>) {
    forall p :: p in procs ==> !Refused(procs[p])
  }

  /** A restricted member who is still concerned, with nothing on record and nobody bound to restore. */
  predicate Forgotten(s: State) {
    s.muted && !s.gone && s.attempt.None? && s.schedule.None? && Unrefused(s.procs)
  }

  /** A process after a refused mute is lost: it is killed, or it fails to unmute and then to store a schedule. */
  predicate Abandons(s: State, e: Event) {
    (e.Crash? || (e.Reschedule? && !e.ok)) && e.pid in s.procs && Refused(s.procs[e.pid])
  }

  /** The steps that put something new in flight, or take away a process bound to restore. */
  predicate Starts(s: State, e: Event) {
    e.Create? || e.Claim? || e.RestoreScheduled? || e.Read? || e.Rejoin? || e.Depart? || Abandons(s, e)
  }

  /**
  What can happen with no such step: time, crashes, and the calls of processes in flight, whatever their
  outcome but for the one that abandons the member.
  */
  function Own(s: State, e: Event): Option<State> {
    if Starts(s, e) then None else Next(s, e)
  }

  // ----- The condition -----

  /** Can end up deleting the schedule. */
  predicate Clears(pc: Pc) {
    || pc.Releasing? || pc.Restoring? || pc.Clearing? || pc.Acting? || pc.Unbanning? || pc.TimedMuting?
    || pc.MuteScheduled? || pc.DroppingSchedule? || pc.Departing?
  }

  /** Can move the schedule to a later time than any worker has read. */
  predicate Raises(pc: Pc) {
    || pc.Restoring? || pc.Rescheduling? || pc.Acting? || pc.Unbanning? || pc.TimedMuting?
    || pc.MuteScheduled? || pc.DroppingSchedule?
  }

  /** Will delete the schedule without unmuting first. */
  predicate Strips(pc: Pc) {
    pc.Clearing? || pc.Departing?
  }

  /** A worker that may yet compare what it read with what is stored. */
  predicate Serving(pc: Pc) {
    pc.Unmuting? || pc.Forgetting? || pc.Reloading?
  }

  /** A worker that will delete the schedule if nobody moves it. */
  predicate Serves(pc: Pc, schedule: Option<Row>) {
    (pc.Unmuting? || pc.Forgetting? || pc.GivingUp?) && schedule == Some(pc.row)
  }

  /** Can still mute the member, leaving the schedule as it is. */
  predicate Mutes(pc: Pc, schedule: Option<Row>) {
    || pc.Created? || pc.MuteScheduled? || pc.Remuting?
    || (Serving(pc) && schedule.Some? && schedule != Some(pc.row))
  }

  /** Nobody is bound to put a schedule back. */
  predicate NoneHeld(procs: map<nat, Pc>) {
    forall p :: p in procs ==> !(procs[p].Rescheduling? && procs[p].refused)
  }

  ghost predicate ClearedBeside(procs: map<nat, Pc>, x: nat) {
    exists c :: c in procs && c != x && Clears(procs[c])
  }

  ghost predicate ServedBeside(schedule: Option<Row>, procs: map<nat, Pc>, x: nat) {
    exists w :: w in procs && w != x && Serves(procs[w], schedule)
  }

  /** The schedule can be gone before `x` makes its next call. */
  ghost predicate Removable(schedule: Option<Row>, procs: map<nat, Pc>, x: nat) {
    || (schedule.None? && NoneHeld(procs))
    || ClearedBeside(procs, x)
    || (NoneHeld(procs) && ServedBeside(schedule, procs, x))
  }

  /** One process can raise the schedule and another, or a refused timed mute, then delete it. */
  ghost predicate RaisedThenCleared(procs: map<nat, Pc>) {
    exists p, q :: p in procs && q in procs && Raises(procs[p]) && Clears(procs[q]) && (p != q || procs[p].TimedMuting?)
  }

  /** The schedule is deleted under a mute that stands. */
  ghost predicate Stripped(muted: bool, schedule: Option<Row>, procs: map<nat, Pc>) {
    && muted
    && (|| (schedule.None? && Unrefused(procs))
        || (exists c :: c in procs && Strips(procs[c]))
        || (Unrefused(procs) && exists w :: w in procs && Serves(procs[w], schedule) && !procs[w].Unmuting?))
  }

  /** A mute lands after the schedule that was to end it is gone. */
  ghost predicate MutedLate(schedule: Option<Row>, procs: map<nat, Pc>) {
    || (exists x :: x in procs && Mutes(procs[x], schedule) && Removable(schedule, procs, x))
    || (exists x :: x in procs && procs[x].TimedMuting? && ClearedBeside(procs, x))
    || ((exists x :: x in procs && Serving(procs[x]) && !Mutes(procs[x], schedule)) && RaisedThenCleared(procs))
  }

  ghost predicate Perilous(s: State) {
    Stripped(s.muted, s.schedule, s.procs) || MutedLate(s.schedule, s.procs)
  }

  /** A process that can delete the attempt: its own SendCaptcha failing to mute, or leftMember. */
  predicate Drops(pc: Pc, attempt: nat) {
    ((pc.Created? || pc.MuteFailed?) && pc.attempt == attempt) || (pc.Departing? && pc.seen == Some(attempt))
  }

  /** The state after `d` has deleted the attempt. */
  function Dropped(s: State, d: nat): State
    requires d in s.procs
  {
    var after := s.(attempt := None);
    if s.procs[d].Departing? then Goto(after, d, Clearing) else End(after, d)
  }

  /** What is in flight can lose the member. */
  ghost predicate Clash(s: State) {
    !s.gone &&
    if s.attempt.None? then Perilous(s)
    else exists d :: d in s.procs && Drops(s.procs[d], s.attempt.value) && Perilous(Dropped(s, d))
  }

  // ----- What workers have read -----

  ghost predicate RowsKnown(s: State) {
    forall p :: p in s.procs ==> Known(s, s.procs[p])
  }

  lemma KnownElsewhere(s: State, e: Event, p: nat)
    requires Next(s, e).Some? && p in s.procs && p in Next(s, e).value.procs
    requires Next(s, e).value.procs[p] == s.procs[p] && Known(s, s.procs[p])
    ensures Known(Next(s, e).value, s.procs[p])
  {
  }

  lemma RowsKnownStep(s: State, e: Event)
    requires RowsKnown(s) && Next(s, e).Some?
    ensures RowsKnown(Next(s, e).value)
  {
    var t := Next(s, e).value;
    forall p | p in t.procs ensures Known(t, t.procs[p]) {
      if p in s.procs && t.procs[p] == s.procs[p] {
        KnownElsewhere(s, e, p);
      } else {
        KnownOwn(s, e, p);
      }
    }
  }

  /** Only its own calls make a process a worker still under way. */
  lemma WorkersCalls(s: State, e: Event, p: nat)
    requires Next(s, e).Some? && p in s.procs && p in Next(s, e).value.procs
    requires Next(s, e).value.procs[p] != s.procs[p] && Worker(Next(s, e).value.procs[p])
    ensures (e.Unmute? || e.Forget? || e.Reload?) && e.pid == p
  {
  }

  /** A worker goes on with the row it has read. */
  lemma WorkerGoesOn(s: State, e: Event, p: nat)
    requires Next(s, e).Some? && p in s.procs && p in Next(s, e).value.procs
    requires Next(s, e).value.procs[p] != s.procs[p] && Worker(Next(s, e).value.procs[p])
    ensures Worker(s.procs[p]) && s.procs[p].row == Next(s, e).value.procs[p].row
    ensures Next(s, e).value.schedule == s.schedule && Next(s, e).value.clock == s.clock
  {
    WorkersCalls(s, e, p);
  }

  lemma KnownOwn(s: State, e: Event, p: nat)
    requires RowsKnown(s) && Next(s, e).Some? && p in Next(s, e).value.procs
    requires p !in s.procs || Next(s, e).value.procs[p] != s.procs[p]
    ensures Known(Next(s, e).value, Next(s, e).value.procs[p])
  {
    if Worker(Next(s, e).value.procs[p]) && p in s.procs {
      WorkerGoesOn(s, e, p);
      assert Known(s, s.procs[p]);
    }
  }

  lemma RowsAlwaysKnown(es: seq<Event>, t: State)
    requires Reaches(Next, INIT, es, t)
    ensures RowsKnown(t)
  {
    forall x, e | RowsKnown(x) && Next(x, e).Some? ensures RowsKnown(Next(x, e).value) {
      RowsKnownStep(x, e);
    }
    Preservation(Next, x => RowsKnown(x), INIT, es, t);
  }
}
