/**
Nothing but a clash can lose the member: whatever is in flight, no step of its own turns a state without a
clash into one with it. A run whose starts avoid clashes is therefore safe throughout.
*/
module CaptchaSafety {
  import opened Options
  import opened Runs
  import opened CaptchaLifecycle
  import opened CaptchaClash

  /** At `pc` a process can do no more than it could at `was`. */
  predicate Within(pc: Pc, was: Pc, schedule: Option<Row>, muted: bool) {
    && (Clears(pc) ==> Clears(was)) && (Raises(pc) ==> Raises(was)) && (pc.TimedMuting? ==> was.TimedMuting?)
    && (Mutes(pc, schedule) ==> Mutes(was, schedule))
    && (Serving(pc) && !Mutes(pc, schedule) ==> Serving(was) && !Mutes(was, schedule))
    && (Serves(pc, schedule) ==> Serves(was, schedule))
    && (muted ==> (Strips(pc) ==> Strips(was)) && (Serves(pc, schedule) && was.Unmuting? ==> pc.Unmuting?))
  }

  predicate Held(pc: Pc) {
    pc.Rescheduling? && pc.refused
  }

  /** `t` is `s` after process `p` has ended, or gone on to something that can do no more. */
  ghost predicate Weaker(s: State, t: State, p: nat) {
    && p in s.procs && t.schedule == s.schedule && (t.muted ==> s.muted)
    && (t.procs == s.procs - {p} || (p in t.procs && t.procs == s.procs[p := t.procs[p]]))
    && (p in t.procs ==> Within(t.procs[p], s.procs[p], s.schedule, t.muted))
    && (t.muted && Refused(s.procs[p]) ==> p in t.procs && Refused(t.procs[p]))
    && (Held(s.procs[p]) ==> p in t.procs && Held(t.procs[p]))
  }

  lemma WeakerPoint(s: State, t: State, p: nat, q: nat)
    requires Weaker(s, t, p) && q in t.procs
    ensures q in s.procs && Within(t.procs[q], s.procs[q], s.schedule, t.muted)
  {
  }

  lemma WeakerHolds(s: State, t: State, p: nat)
    requires Weaker(s, t, p)
    ensures NoneHeld(t.procs) ==> NoneHeld(s.procs)
    ensures t.muted && Unrefused(t.procs) ==> Unrefused(s.procs)
  {
    forall q | q in s.procs && q != p ensures q in t.procs && t.procs[q] == s.procs[q] {
    }
  }

  lemma WeakerClears(s: State, t: State, p: nat, x: nat)
    requires Weaker(s, t, p) && ClearedBeside(t.procs, x)
    ensures ClearedBeside(s.procs, x)
  {
    var c :| c in t.procs && c != x && Clears(t.procs[c]);
    WeakerPoint(s, t, p, c);
  }

  lemma WeakerRemovable(s: State, t: State, p: nat, x: nat)
    requires Weaker(s, t, p) && Removable(t.schedule, t.procs, x)
    ensures Removable(s.schedule, s.procs, x)
  {
    WeakerHolds(s, t, p);
    if ClearedBeside(t.procs, x) {
      WeakerClears(s, t, p, x);
    } else if NoneHeld(t.procs) && ServedBeside(t.schedule, t.procs, x) {
      var w :| w in t.procs && w != x && Serves(t.procs[w], t.schedule);
      WeakerPoint(s, t, p, w);
    }
  }

  lemma WeakerRaises(s: State, t: State, p: nat)
    requires Weaker(s, t, p) && RaisedThenCleared(t.procs)
    ensures RaisedThenCleared(s.procs)
  {
    var r, q :| r in t.procs && q in t.procs && Raises(t.procs[r]) && Clears(t.procs[q])
      && (r != q || t.procs[r].TimedMuting?);
    WeakerPoint(s, t, p, r);
    WeakerPoint(s, t, p, q);
  }

  lemma WeakerMutes(s: State, t: State, p: nat)
    requires Weaker(s, t, p) && MutedLate(t.schedule, t.procs)
    ensures MutedLate(s.schedule, s.procs)
  {
    if x :| x in t.procs && Mutes(t.procs[x], t.schedule) && Removable(t.schedule, t.procs, x) {
      WeakerPoint(s, t, p, x);
      WeakerRemovable(s, t, p, x);
    } else if x :| x in t.procs && t.procs[x].TimedMuting? && ClearedBeside(t.procs, x) {
      WeakerPoint(s, t, p, x);
      WeakerClears(s, t, p, x);
    } else {
      var x :| x in t.procs && Serving(t.procs[x]) && !Mutes(t.procs[x], t.schedule);
      WeakerPoint(s, t, p, x);
      WeakerRaises(s, t, p);
    }
  }

  lemma WeakerStrips(s: State, t: State, p: nat)
    requires Weaker(s, t, p) && Stripped(t.muted, t.schedule, t.procs)
    ensures Stripped(s.muted, s.schedule, s.procs)
  {
    WeakerHolds(s, t, p);
    if c :| c in t.procs && Strips(t.procs[c]) {
      WeakerPoint(s, t, p, c);
    } else if w :| w in t.procs && Serves(t.procs[w], t.schedule) && !t.procs[w].Unmuting? {
      WeakerPoint(s, t, p, w);
    }
  }

  lemma WeakerPerilous(s: State, t: State, p: nat)
    requires Weaker(s, t, p) && Perilous(t)
    ensures Perilous(s)
  {
    if Stripped(t.muted, t.schedule, t.procs) {
      WeakerStrips(s, t, p);
    } else {
      WeakerMutes(s, t, p);
    }
  }

  // ----- What a step of a process in flight does -----

  /** The mute of `x` lands. */
  predicate Lands(s: State, t: State, x: nat) {
    && x in s.procs && (s.procs[x].Created? || s.procs[x].MuteScheduled? || s.procs[x].Remuting?)
    && t.schedule == s.schedule && t.procs == s.procs - {x}
  }

  /** `c` deletes the schedule. */
  predicate Deletes(s: State, t: State, c: nat) {
    && c in s.procs && t.schedule == None && t.muted == s.muted
    && ((t.procs == s.procs - {c} && Strips(s.procs[c])) ||
        (t.procs == s.procs[c := Restoring(true)] && s.procs[c].DroppingSchedule?))
  }

  /** Worker `w` deletes the schedule it read. */
  predicate DeletesServed(s: State, t: State, w: nat) {
    && w in s.procs && (s.procs[w].Forgetting? || s.procs[w].GivingUp?) && s.schedule == Some(s.procs[w].row)
    && t.schedule == None && t.muted == s.muted && t.procs == s.procs - {w}
  }

  /** `r` moves the schedule to a time that no worker has read. */
  predicate Moves(s: State, t: State, r: nat) {
    && r in s.procs && t.schedule.Some? && t.schedule.value.at >= s.clock && t.muted == s.muted
    && ((t.procs == s.procs - {r} && s.procs[r].Rescheduling?) ||
        (r in t.procs && t.procs[r].MuteScheduled? && t.procs == s.procs[r := t.procs[r]] && s.procs[r].TimedMuting?))
  }

  ghost predicate Effect(s: State, t: State, p: nat) {
    Weaker(s, t, p) || Lands(s, t, p) || Deletes(s, t, p) || DeletesServed(s, t, p) || Moves(s, t, p)
  }

  /** Once the mute of `x` has landed. */
  lemma MuteLands(s: State, x: nat, t: State)
    requires Lands(s, t, x) && Perilous(t)
    ensures Perilous(s)
  {
    assert Mutes(s.procs[x], s.schedule);
    if MutedLate(t.schedule, t.procs) {
      WeakerMutes(s, t.(muted := false), x);
    } else if c :| c in t.procs && Strips(t.procs[c]) {
      assert c in s.procs && c != x && Clears(s.procs[c]);
    } else {
      assert Unrefused(t.procs);
      WeakerHolds(s, t.(muted := false), x);
      if w :| w in t.procs && Serves(t.procs[w], t.schedule) {
        assert w in s.procs && w != x && Serves(s.procs[w], s.schedule);
      }
    }
  }

  lemma OneRefused(procs: map<nat, Pc>, c: nat)
    requires c in procs && Refused(procs[c])
    ensures !Unrefused(procs)
  {
  }

  lemma HoldsBeside(s: State, w: nat, t: State)
    requires w in s.procs && !Refused(s.procs[w]) && t.procs == s.procs - {w}
    ensures NoneHeld(t.procs) ==> NoneHeld(s.procs)
    ensures Unrefused(t.procs) ==> Unrefused(s.procs)
  {
    forall q | q in s.procs && q != w ensures q in t.procs && t.procs[q] == s.procs[q] {
    }
  }

  /** Once `c`, which could clear the schedule, has done so. */
  lemma ScheduleCleared(s: State, c: nat, t: State)
    requires Deletes(s, t, c) && Perilous(t)
    ensures Perilous(s)
  {
    if s.procs[c].DroppingSchedule? {
      OneRefused(t.procs, c);
    }
    if Stripped(t.muted, t.schedule, t.procs) {
      if d :| d in t.procs && Strips(t.procs[d]) {
        assert d in s.procs && Strips(s.procs[d]);
      }
    } else if x :| x in t.procs && (Mutes(t.procs[x], t.schedule) || t.procs[x].TimedMuting?) {
      assert x in s.procs && x != c && s.procs[x] == t.procs[x];
      assert ClearedBeside(s.procs, x);
    } else {
      var x :| x in t.procs && Serving(t.procs[x]) && !Mutes(t.procs[x], t.schedule);
      assert x in s.procs && x != c && s.procs[x] == t.procs[x];
      assert ClearedBeside(s.procs, x);
      SameCapabilities(s, c, t);
    }
  }

  lemma SameCapabilities(s: State, c: nat, t: State)
    requires c in s.procs && RaisedThenCleared(t.procs)
    requires t.procs == s.procs - {c} || (t.procs == s.procs[c := Restoring(true)] && s.procs[c].DroppingSchedule?)
    ensures RaisedThenCleared(s.procs)
  {
    var p, q :| p in t.procs && q in t.procs && Raises(t.procs[p]) && Clears(t.procs[q])
      && (p != q || t.procs[p].TimedMuting?);
    assert p in s.procs && q in s.procs && Raises(s.procs[p]) && Clears(s.procs[q]);
  }

  /** Once worker `w` has deleted the schedule it read. */
  lemma ScheduleServed(s: State, w: nat, t: State)
    requires DeletesServed(s, t, w) && Perilous(t)
    ensures Perilous(s)
  {
    assert Serves(s.procs[w], s.schedule);
    HoldsBeside(s, w, t);
    if Stripped(t.muted, t.schedule, t.procs) {
      if d :| d in t.procs && Strips(t.procs[d]) {
        assert d in s.procs && Strips(s.procs[d]);
      }
    } else {
      ServedMutes(s, w, t);
    }
  }

  lemma ServedMutes(s: State, w: nat, t: State)
    requires DeletesServed(s, t, w) && MutedLate(t.schedule, t.procs)
    ensures MutedLate(s.schedule, s.procs)
  {
    if x :| x in t.procs && Mutes(t.procs[x], t.schedule) && Removable(t.schedule, t.procs, x) {
      RemovableOnceServed(s, w, t, x);
    } else if x :| x in t.procs && t.procs[x].TimedMuting? && ClearedBeside(t.procs, x) {
      ClearedBesideWorker(s, w, t, x);
    } else {
      var x :| x in t.procs && Serving(t.procs[x]) && !Mutes(t.procs[x], t.schedule);
      SameCapabilities(s, w, t);
      if Mutes(s.procs[x], s.schedule) {
        RaisedMeansCleared(s, x);
      }
    }
  }

  lemma ClearedBesideWorker(s: State, w: nat, t: State, x: nat)
    requires t.procs == s.procs - {w} && ClearedBeside(t.procs, x)
    ensures ClearedBeside(s.procs, x)
  {
    var c :| c in t.procs && c != x && Clears(t.procs[c]);
    assert c in s.procs && Clears(s.procs[c]);
  }

  lemma RaisedMeansCleared(s: State, x: nat)
    requires RaisedThenCleared(s.procs) && x in s.procs && Serving(s.procs[x])
    ensures ClearedBeside(s.procs, x)
  {
    var p, q :| p in s.procs && q in s.procs && Raises(s.procs[p]) && Clears(s.procs[q])
      && (p != q || s.procs[p].TimedMuting?);
    assert q != x;
  }

  lemma RemovableOnceServed(s: State, w: nat, t: State, x: nat)
    requires DeletesServed(s, t, w) && x in t.procs && Mutes(t.procs[x], None) && Removable(t.schedule, t.procs, x)
    ensures x in s.procs && Mutes(s.procs[x], s.schedule) && Removable(s.schedule, s.procs, x)
  {
    if ClearedBeside(t.procs, x) {
      ClearedBesideWorker(s, w, t, x);
    } else {
      HoldsBeside(s, w, t);
      assert Serves(s.procs[w], s.schedule) && w != x;
    }
  }

  /** Once `r` has raised the schedule above everything that workers have read. */
  lemma ScheduleRaised(s: State, r: nat, t: State)
    requires RowsKnown(s) && Moves(s, t, r) && Perilous(t)
    ensures Perilous(s)
  {
    forall p | p in s.procs && Worker(s.procs[p]) ensures t.schedule != Some(s.procs[p].row) {
      assert Known(s, s.procs[p]);
    }
    if Stripped(t.muted, t.schedule, t.procs) {
      if d :| d in t.procs && Strips(t.procs[d]) {
        assert d in s.procs && Strips(s.procs[d]);
      }
    } else {
      RaisedMutes(s, r, t);
    }
  }

  lemma RaisedMutes(s: State, r: nat, t: State)
    requires Moves(s, t, r) && MutedLate(t.schedule, t.procs)
    requires forall p :: p in s.procs && Worker(s.procs[p]) ==> t.schedule != Some(s.procs[p].row)
    ensures MutedLate(s.schedule, s.procs)
  {
    assert forall x :: ClearedBeside(t.procs, x) ==> ClearedBeside(s.procs, x);
    assert forall x :: x in t.procs && Serving(t.procs[x]) ==> Mutes(t.procs[x], t.schedule);
    assert forall x :: !ServedBeside(t.schedule, t.procs, x);
    var x :| x in t.procs && (Mutes(t.procs[x], t.schedule) || t.procs[x].TimedMuting?) && ClearedBeside(t.procs, x);
    assert x in s.procs && ClearedBeside(s.procs, x);
    if Serving(s.procs[x]) && !Mutes(s.procs[x], s.schedule) {
      var c :| c in t.procs && c != x && Clears(t.procs[c]);
      assert c in s.procs && Clears(s.procs[c]) && Raises(s.procs[r]) && (r != c || s.procs[r].TimedMuting?);
      assert RaisedThenCleared(s.procs);
    }
  }

  /** No such step makes a peril: it was there before. */
  lemma PerilWasThere(s: State, t: State, p: nat)
    requires Effect(s, t, p) && RowsKnown(s) && Perilous(t)
    ensures Perilous(s)
  {
    if Weaker(s, t, p) {
      WeakerPerilous(s, t, p);
    } else if Lands(s, t, p) {
      MuteLands(s, p, t);
    } else if Deletes(s, t, p) {
      ScheduleCleared(s, p, t);
    } else if DeletesServed(s, t, p) {
      ScheduleServed(s, p, t);
    } else {
      ScheduleRaised(s, p, t);
    }
  }

  // ----- Every own step does one of these -----

  /** Nothing is taken from the schedule, and nothing is muted. */
  predicate Eases(s: State, e: Event) {
    match e
    case SenderMute(_, ok) => !ok
    case DropAttempt(_) => true
    case Unmute(_, _) => true
    case Remove(_, _) => true
    case Unban(_, _) => true
    case StoreTimedMute(_, ok) => !ok
    case TimedMute(_, ok) => !ok
    case DropSchedule(_, ok) => !ok
    case Reschedule(_, ok) => !ok
    case Forgo(_, _) => true
    case Forget(pid) =>
      && pid in s.procs && (s.procs[pid].Forgetting? || s.procs[pid].GivingUp?)
      && s.schedule != Some(s.procs[pid].row)
    case Reload(_) => true
    case Remute(_, ok) => !ok
    case Crash(_) => true
    case _ => false
  }

  /** The unmute worker's calls, and unmuting. */
  lemma WorkingIsWeaker(s: State, e: Event, t: State)
    requires Own(s, e) == Some(t) && !t.gone && RowsKnown(s) && Eases(s, e)
    requires e.Unmute? || e.Forget? || e.Reload? || e.Remute?
    ensures e.pid in s.procs && Weaker(s, t, e.pid)
  {
    assert Known(s, s.procs[e.pid]);
  }

  lemma EasingIsWeaker(s: State, e: Event, t: State)
    requires Own(s, e) == Some(t) && !t.gone && RowsKnown(s) && Eases(s, e)
    ensures e.pid in s.procs && Weaker(s, t, e.pid)
  {
    if e.Unmute? || e.Forget? || e.Reload? || e.Remute? {
      WorkingIsWeaker(s, e, t);
    }
  }

  lemma DeletingHasEffect(s: State, e: Event, t: State)
    requires Own(s, e) == Some(t) && (e.Clear? || e.DropSchedule? || e.Forget?) && !Eases(s, e)
    ensures e.pid in s.procs && Effect(s, t, e.pid)
  {
  }

  lemma StoringHasEffect(s: State, e: Event, t: State)
    requires Own(s, e) == Some(t) && (e.Reschedule? || e.StoreTimedMute?) && !Eases(s, e)
    ensures e.pid in s.procs && Effect(s, t, e.pid)
  {
  }

  lemma MutingHasEffect(s: State, e: Event, t: State)
    requires Own(s, e) == Some(t) && (e.SenderMute? || e.TimedMute? || e.Remute?) && !Eases(s, e)
    ensures e.pid in s.procs && Effect(s, t, e.pid)
  {
  }

  lemma ActHasEffect(s: State, e: Event, t: State)
    requires Own(s, e) == Some(t) && !t.gone && !e.Tick? && !e.Leave? && RowsKnown(s)
    ensures e.pid in s.procs && Effect(s, t, e.pid)
  {
    if Eases(s, e) {
      EasingIsWeaker(s, e, t);
    } else if e.Clear? || e.DropSchedule? || e.Forget? {
      DeletingHasEffect(s, e, t);
    } else if e.Reschedule? || e.StoreTimedMute? {
      StoringHasEffect(s, e, t);
    } else {
      MutingHasEffect(s, e, t);
    }
  }

  // ----- With an attempt on record -----

  /** The same step, once `d` has deleted the attempt. */
  lemma EffectBesideDrop(s: State, t: State, p: nat, d: nat)
    requires Effect(s, t, p) && d in s.procs && d in t.procs && d != p && s.procs[d] == t.procs[d]
    ensures Effect(Dropped(s, d), Dropped(t, d), p)
  {
    if p in t.procs {
      GoesOnBesideDrop(s, t, p, d);
    } else {
      EndsBesideDrop(s, t, p, d);
    }
  }

  lemma EndsBesideDrop(s: State, t: State, p: nat, d: nat)
    requires Effect(s, t, p) && d in s.procs && d in t.procs && d != p && s.procs[d] == t.procs[d] && p !in t.procs
    ensures Effect(Dropped(s, d), Dropped(t, d), p)
  {
    assert Dropped(t, d).procs == Dropped(s, d).procs - {p};
  }

  lemma GoesOnBesideDrop(s: State, t: State, p: nat, d: nat)
    requires Effect(s, t, p) && d in s.procs && d in t.procs && d != p && s.procs[d] == t.procs[d] && p in t.procs
    ensures Effect(Dropped(s, d), Dropped(t, d), p)
  {
    assert Dropped(t, d).procs == Dropped(s, d).procs[p := t.procs[p]];
    assert p in s.procs && Dropped(s, d).procs[p] == s.procs[p];
  }

  lemma RowsKnownBesideDrop(s: State, d: nat)
    requires RowsKnown(s) && d in s.procs
    ensures RowsKnown(Dropped(s, d))
  {
    forall p | p in Dropped(s, d).procs && p != d ensures Known(Dropped(s, d), Dropped(s, d).procs[p]) {
      assert Known(s, s.procs[p]);
    }
  }

  lemma OthersStand(s: State, e: Event, t: State, d: nat)
    requires Own(s, e) == Some(t) && !e.Tick? && !e.Leave? && e.pid != d && d in t.procs
    ensures d in s.procs && s.procs[d] == t.procs[d]
  {
  }

  lemma GoneStays(s: State, e: Event, t: State)
    requires Own(s, e) == Some(t) && s.gone
    ensures t.gone
  {
  }

  lemma AttemptDeleted(s: State, e: Event, t: State)
    requires Own(s, e) == Some(t) && s.attempt.Some? && t.attempt != s.attempt
    ensures e.pid in s.procs && Drops(s.procs[e.pid], s.attempt.value) && t == Dropped(s, e.pid)
  {
  }

  /** A sender that fails to mute is as able to delete its attempt as before. */
  lemma SenderStillDrops(s: State, e: Event, t: State)
    requires Own(s, e) == Some(t) && !e.Tick? && !e.Leave? && s.attempt.Some? && t.attempt == s.attempt && !t.gone
    requires e.pid in t.procs && Drops(t.procs[e.pid], s.attempt.value)
    ensures e.pid in s.procs && Drops(s.procs[e.pid], s.attempt.value) && Dropped(t, e.pid) == Dropped(s, e.pid)
  {
  }

  lemma ClashBesideAttempt(s: State, e: Event, t: State)
    requires Own(s, e) == Some(t) && !e.Tick? && RowsKnown(s) && Clash(t) && !s.gone
    requires s.attempt.Some? && t.attempt == s.attempt
    ensures Clash(s)
  {
    var d :| d in t.procs && Drops(t.procs[d], t.attempt.value) && Perilous(Dropped(t, d));
    if e.pid == d {
      SenderStillDrops(s, e, t);
    } else {
      OthersStand(s, e, t, d);
      ActHasEffect(s, e, t);
      EffectBesideDrop(s, t, e.pid, d);
      RowsKnownBesideDrop(s, d);
      PerilWasThere(Dropped(s, d), Dropped(t, d), e.pid);
    }
  }

  lemma TickChangesNothing(s: State, e: Event, t: State)
    requires Own(s, e) == Some(t) && e.Tick? && Clash(t)
    ensures Clash(s)
  {
    if t.attempt.Some? {
      var d :| d in t.procs && Drops(t.procs[d], t.attempt.value) && Perilous(Dropped(t, d));
      assert Perilous(Dropped(s, d));
    }
  }

  lemma ClashWithoutAttempt(s: State, e: Event, t: State)
    requires Own(s, e) == Some(t) && !e.Tick? && RowsKnown(s) && Clash(t) && !s.gone && s.attempt.None?
    ensures Clash(s)
  {
    OwnMakesNoAttempt(s, e, t);
    ActHasEffect(s, e, t);
    PerilWasThere(s, t, e.pid);
  }

  lemma OwnMakesNoAttempt(s: State, e: Event, t: State)
    requires Own(s, e) == Some(t)
    ensures t.attempt == s.attempt || t.attempt == None
    ensures e.Leave? ==> t.gone
  {
  }

  lemma ClashOnDeletion(s: State, e: Event, t: State)
    requires Own(s, e) == Some(t) && Clash(t) && !s.gone && s.attempt.Some? && t.attempt != s.attempt
    ensures Clash(s)
  {
    OwnMakesNoAttempt(s, e, t);
    AttemptDeleted(s, e, t);
  }

  /** No own step makes a clash. */
  lemma ClashWasThere(s: State, e: Event, t: State)
    requires Own(s, e) == Some(t) && RowsKnown(s) && Clash(t)
    ensures Clash(s)
  {
    if s.gone {
      GoneStays(s, e, t);
    } else if e.Tick? {
      TickChangesNothing(s, e, t);
    } else if s.attempt.None? {
      ClashWithoutAttempt(s, e, t);
    } else if t.attempt != s.attempt {
      ClashOnDeletion(s, e, t);
    } else {
      ClashBesideAttempt(s, e, t);
    }
  }

  // ----- Runs -----

  /** A start is taken, or a process bound to restore lost, only if what is then in flight does not clash. */
  ghost predicate Careful(s: State, e: Event) {
    Starts(s, e) && Next(s, e).Some? ==> !Clash(Next(s, e).value)
  }

  /** A member is forgotten only in a state that clashes. */
  lemma ForgottenClashes(s: State)
    requires Forgotten(s)
    ensures Clash(s)
  {
  }

  ghost predicate Calm(s: State) {
    RowsKnown(s) && !Clash(s)
  }

  lemma CalmStep(s: State, e: Event)
    requires Calm(s) && Careful(s, e) && Next(s, e).Some?
    ensures Calm(Next(s, e).value)
  {
    RowsKnownStep(s, e);
    if !Starts(s, e) && Clash(Next(s, e).value) {
      ClashWasThere(s, e, Next(s, e).value);
    }
  }

  /**
  In every careful run the member is never forgotten, whatever crashes, fails or is refused; losing a process
  between a refused mute and its restore counts as a start.
  */
  lemma CarefulRunsAreSafe(es: seq<Event>, t: State)
    requires Reaches(Next, INIT, es, t)
    requires Throughout(Next, (s, e) => Careful(s, e), INIT, es)
    ensures !Clash(t) && !Forgotten(t)
  {
    forall s, e | Calm(s) && Careful(s, e) && Next(s, e).Some? ensures Calm(Next(s, e).value) {
      CalmStep(s, e);
    }
    Invariance(Next, (s, e) => Careful(s, e), s => Calm(s), INIT, es, t);
    if Forgotten(t) {
      ForgottenClashes(t);
    }
  }
}
