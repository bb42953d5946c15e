/**
Every clash can lose the member: from each state that clashes there is a continuation, made of the calls of
processes already in flight alone, that ends with the member forgotten.
*/
module CaptchaLoss {
  import opened Options
  import opened Runs
  import opened Sets
  import opened CaptchaLifecycle
  import opened CaptchaClash
  import opened CaptchaSafety

  /** What is in flight can bring `s` to `t`. */
  ghost predicate Leads(s: State, t: State) {
    exists es :: Reaches(Own, s, es, t)
  }

  /** The member can be forgotten with nothing new put in flight and no process bound to restore abandoned. */
  ghost predicate Lost(s: State) {
    exists t :: Leads(s, t) && Forgotten(t)
  }

  lemma Stay(s: State)
    ensures Leads(s, s)
  {
    assert Reaches(Own, s, [], s);
  }

  lemma Then(s: State, t: State, e: Event) returns (u: State)
    requires Leads(s, t) && Own(t, e).Some?
    ensures u == Own(t, e).value && Leads(s, u)
  {
    var es :| Reaches(Own, s, es, t);
    var more;
    more, u := Extend(Own, s, es, t, e);
  }

  lemma LeadsOn(s: State, t: State, u: State)
    requires Leads(s, t) && Leads(t, u)
    ensures Leads(s, u)
  {
    var es :| Reaches(Own, s, es, t);
    var more :| Reaches(Own, t, more, u);
    Concatenated(Own, s, es, t, more, u);
  }

  lemma LostFrom(s: State, t: State)
    requires Leads(s, t) && Lost(t)
    ensures Lost(s)
  {
    var u :| Leads(t, u) && Forgotten(u);
    LeadsOn(s, t, u);
  }

  // ----- Processes bound to restore step aside -----

  function RefusedIn(procs: map<nat, Pc>): set<nat> {
    set p | p in procs && Refused(procs[p])
  }

  function Others(procs: map<nat, Pc>): map<nat, Pc> {
    map p | p in procs && !Refused(procs[p]) :: procs[p]
  }

  lemma NoneRefused(procs: map<nat, Pc>)
    requires RefusedIn(procs) == {}
    ensures Unrefused(procs) && Others(procs) == procs
  {
    forall p | p in procs ensures !Refused(procs[p]) {
      assert p !in RefusedIn(procs);
    }
  }

  /** One of them fails to unmute and reschedules. */
  lemma OneReschedules(s: State, p: nat) returns (t: State)
    requires p in s.procs && Refused(s.procs[p])
    ensures Leads(s, t) && t == Upsert(s, s.clock).(procs := s.procs - {p})
  {
    Stay(s);
    t := s;
    if s.procs[p].Restoring? {
      t := Then(s, t, Unmute(p, Transient));
      assert t == Goto(s, p, Rescheduling(true));
    }
    t := Then(s, t, Reschedule(p, true));
    assert t.procs == s.procs - {p};
  }

  /** The schedule after someone may have rescheduled. */
  predicate SameOrNow(s: State, t: State) {
    t.schedule == s.schedule || (t.schedule.Some? && t.schedule.value.at == s.clock)
  }

  lemma {:induction false} AllReschedule(s: State) returns (t: State)
    ensures Leads(s, t) && t.procs == Others(s.procs) && Unrefused(t.procs) && SameOrNow(s, t)
    ensures t.muted == s.muted && t.gone == s.gone && t.attempt == s.attempt && t.clock == s.clock
    decreases |RefusedIn(s.procs)|
  {
    if RefusedIn(s.procs) == {} {
      NoneRefused(s.procs);
      Stay(s);
      t := s;
    } else {
      var p :| p in RefusedIn(s.procs);
      var u := OneReschedules(s, p);
      assert RefusedIn(u.procs) == RefusedIn(s.procs) - {p};
      assert Others(u.procs) == Others(s.procs);
      t := AllReschedule(u);
      LeadsOn(s, u, t);
    }
  }

  /** `procs` once every process bound to restore has unmuted. */
  function Restored(procs: map<nat, Pc>): map<nat, Pc> {
    map p | p in procs :: if Refused(procs[p]) then Clearing else procs[p]
  }

  lemma {:induction false} AllUnmute(s: State) returns (t: State)
    requires NoneHeld(s.procs) && !s.gone
    ensures Leads(s, t) && t.procs == Restored(s.procs) && Unrefused(t.procs) && t.schedule == s.schedule
    ensures t.gone == s.gone && t.attempt == s.attempt && t.clock == s.clock
    decreases |RefusedIn(s.procs)|
  {
    if RefusedIn(s.procs) == {} {
      NoneRefused(s.procs);
      assert Restored(s.procs) == s.procs;
      Stay(s);
      t := s;
    } else {
      var p :| p in RefusedIn(s.procs);
      Stay(s);
      var u := Then(s, s, Unmute(p, Ok));
      assert u == Goto(s.(muted := false), p, Clearing);
      assert RefusedIn(u.procs) == RefusedIn(s.procs) - {p};
      assert Restored(u.procs) == Restored(s.procs);
      t := AllUnmute(u);
      LeadsOn(s, u, t);
    }
  }

  // ----- Driving one process -----

  /** `t` is `s` but for process `p`, and perhaps for whether the member is muted. */
  predicate But(s: State, t: State, procs: map<nat, Pc>) {
    && t.procs == procs && t.schedule == s.schedule && t.attempt == s.attempt
    && t.gone == s.gone && t.clock == s.clock && t.nextId == s.nextId
  }

  /** Up to a restore: a timed mute that cannot be stored or is refused, a kick or a ban that fails. */
  lemma DriveToRestoring(s: State, c: nat) returns (t: State)
    requires c in s.procs && !s.gone
    requires || s.procs[c].Acting? || s.procs[c].Unbanning? || s.procs[c].TimedMuting?
             || s.procs[c].MuteScheduled? || s.procs[c].DroppingSchedule?
    ensures Leads(s, t) && But(s, t, s.procs[c := Restoring(false)]) && t.muted == s.muted
  {
    Stay(s);
    t := s;
    var pc := s.procs[c];
    if pc.TimedMuting? {
      t := Then(s, t, StoreTimedMute(c, false));
    } else if pc.MuteScheduled? {
      t := Then(s, t, TimedMute(c, false));
      t := Then(s, t, DropSchedule(c, false));
    } else if pc.DroppingSchedule? {
      t := Then(s, t, DropSchedule(c, false));
    } else if pc.Unbanning? {
      t := Then(s, t, Unban(c, false));
    } else {
      t := Then(s, t, Remove(c, false));
      if pc.action == Kick {
        t := Then(s, t, Unban(c, false));
      }
    }
  }

  lemma DriveToClearing(s: State, c: nat) returns (t: State)
    requires c in s.procs && !s.gone && s.attempt.None? && Clears(s.procs[c])
    ensures Leads(s, t) && But(s, t, s.procs[c := Clearing])
  {
    Stay(s);
    t := s;
    var pc := s.procs[c];
    if pc.Departing? {
      t := Then(s, t, Forgo(c, true));
    } else if pc.Releasing? || pc.Restoring? {
      t := Then(s, t, Unmute(c, Ok));
    } else if !pc.Clearing? {
      t := DriveToRestoring(s, c);
      t := Then(s, t, Unmute(c, Ok));
    }
    assert t.procs == s.procs[c := Clearing];
  }

  /** The schedule is moved to now. */
  lemma DriveToReschedule(s: State, p: nat) returns (t: State)
    requires p in s.procs && !s.gone && Raises(s.procs[p])
    ensures Leads(s, t) && t == Upsert(s, s.clock).(procs := s.procs - {p})
  {
    Stay(s);
    t := s;
    var pc := s.procs[p];
    if !pc.Restoring? && !pc.Rescheduling? {
      t := DriveToRestoring(s, p);
    }
    if !pc.Rescheduling? {
      t := Then(s, t, Unmute(p, Transient));
    }
    t := Then(s, t, Reschedule(p, true));
    assert t.procs == s.procs - {p};
  }

  lemma DriveToForgetting(s: State, w: nat) returns (t: State)
    requires w in s.procs && s.procs[w].Unmuting?
    ensures Leads(s, t) && But(s, t, s.procs[w := Forgetting(s.procs[w].row)])
  {
    Stay(s);
    t := Then(s, s, Unmute(w, Ok));
  }

  lemma DriveToReloading(s: State, w: nat) returns (t: State)
    requires w in s.procs && Serving(s.procs[w]) && Mutes(s.procs[w], s.schedule)
    ensures Leads(s, t) && But(s, t, s.procs[w := Reloading(s.procs[w].row)])
  {
    Stay(s);
    t := s;
    if s.procs[w].Unmuting? {
      t := DriveToForgetting(s, w);
    }
    if !s.procs[w].Reloading? {
      t := Then(s, t, Forget(w));
    }
    assert t.procs == s.procs[w := Reloading(s.procs[w].row)];
  }

  /** A worker whose row is out of date finds that out. */
  lemma DriveToRemuting(s: State, w: nat) returns (t: State)
    requires w in s.procs && !s.gone && Serving(s.procs[w]) && Mutes(s.procs[w], s.schedule) && RowsKnown(s)
    ensures Leads(s, t) && But(s, t, s.procs[w := Remuting(s.procs[w].row)])
  {
    assert Known(s, s.procs[w]);
    t := DriveToReloading(s, w);
    t := Then(s, t, Reload(w));
    assert t.procs == s.procs[w := Remuting(s.procs[w].row)];
  }

  /** A worker whose row is current deletes it. */
  lemma DriveToDelete(s: State, w: nat) returns (t: State)
    requires w in s.procs && !s.gone && Serves(s.procs[w], s.schedule)
    ensures Leads(s, t) && But(s.(schedule := None), t, s.procs - {w})
    ensures !s.procs[w].Unmuting? ==> t.muted == s.muted
  {
    Stay(s);
    t := s;
    if s.procs[w].Unmuting? {
      t := Then(s, t, Unmute(w, Ok));
    }
    t := Then(s, t, Forget(w));
    assert t.procs == s.procs - {w};
  }

  lemma KnownAlong(s: State, t: State)
    requires RowsKnown(s) && Leads(s, t)
    ensures RowsKnown(t)
  {
    var es :| Reaches(Own, s, es, t);
    forall x, e | RowsKnown(x) && Own(x, e).Some? ensures RowsKnown(Own(x, e).value) {
      RowsKnownStep(x, e);
    }
    Preservation(Own, x => RowsKnown(x), s, es, t);
  }

  // ----- Each way to lose the member -----

  /** The member is concerned and has no attempt. */
  predicate Exposed(s: State) {
    !s.gone && s.attempt.None?
  }

  predicate Ready(pc: Pc) {
    pc.Created? || pc.MuteScheduled? || pc.Remuting?
  }

  lemma MutedWithNothing(s: State, x: nat)
    requires Exposed(s) && s.schedule.None? && Unrefused(s.procs) && x in s.procs && Ready(s.procs[x])
    ensures Lost(s)
  {
    Stay(s);
    var t := Then(s, s, if s.procs[x].Created? then SenderMute(x, true)
                        else if s.procs[x].MuteScheduled? then TimedMute(x, true)
                        else Remute(x, true));
    assert t == End(s.(muted := true), x);
    assert Forgotten(t);
  }

  lemma MutedWithoutSchedule(s: State, x: nat)
    requires Exposed(s) && s.schedule.None? && NoneHeld(s.procs) && x in s.procs && Ready(s.procs[x])
    ensures Lost(s)
  {
    var t := AllUnmute(s);
    assert t.procs[x] == s.procs[x];
    MutedWithNothing(t, x);
    LostFrom(s, t);
  }

  lemma MutedAfterClearing(s: State, x: nat, c: nat)
    requires Exposed(s) && x in s.procs && Ready(s.procs[x]) && c in s.procs && c != x && Clears(s.procs[c])
    ensures Lost(s)
  {
    var t := DriveToClearing(s, c);
    var u := AllReschedule(t);
    LeadsOn(s, t, u);
    assert u.procs[c] == Clearing && u.procs[x] == s.procs[x];
    var v := Then(s, u, Clear(c));
    assert v == End(u.(schedule := None), c);
    MutedWithNothing(v, x);
    LostFrom(s, v);
  }

  lemma MutedAfterServing(s: State, x: nat, w: nat)
    requires Exposed(s) && x in s.procs && Ready(s.procs[x]) && NoneHeld(s.procs)
    requires w in s.procs && w != x && Serves(s.procs[w], s.schedule)
    ensures Lost(s)
  {
    var t := DriveToDelete(s, w);
    MutedWithoutSchedule(t, x);
    LostFrom(s, t);
  }

  lemma ReadyLoses(s: State, x: nat)
    requires Exposed(s) && x in s.procs && Ready(s.procs[x]) && Removable(s.schedule, s.procs, x)
    ensures Lost(s)
  {
    if ClearedBeside(s.procs, x) {
      var c :| c in s.procs && c != x && Clears(s.procs[c]);
      MutedAfterClearing(s, x, c);
    } else if s.schedule.None? {
      MutedWithoutSchedule(s, x);
    } else {
      var w :| w in s.procs && w != x && Serves(s.procs[w], s.schedule);
      MutedAfterServing(s, x, w);
    }
  }

  lemma RemovableBeside(s: State, t: State, x: nat, pc: Pc)
    requires x in s.procs && Removable(s.schedule, s.procs, x)
    requires t.schedule == s.schedule && t.procs == s.procs[x := pc] && !Refused(pc)
    ensures Removable(t.schedule, t.procs, x)
  {
    if c :| c in s.procs && c != x && Clears(s.procs[c]) {
      assert c in t.procs && t.procs[c] == s.procs[c];
    } else if w :| w in s.procs && w != x && Serves(s.procs[w], s.schedule) {
      assert w in t.procs && t.procs[w] == s.procs[w];
    }
  }

  lemma OutOfDateLoses(s: State, x: nat)
    requires Exposed(s) && RowsKnown(s) && x in s.procs && Serving(s.procs[x])
    requires Mutes(s.procs[x], s.schedule) && Removable(s.schedule, s.procs, x)
    ensures Lost(s)
  {
    var t := DriveToRemuting(s, x);
    RemovableBeside(s, t, x, Remuting(s.procs[x].row));
    ReadyLoses(t, x);
    LostFrom(s, t);
  }

  lemma TimedMuteLoses(s: State, x: nat)
    requires Exposed(s) && x in s.procs && s.procs[x].TimedMuting? && ClearedBeside(s.procs, x)
    ensures Lost(s)
  {
    Stay(s);
    var t := Then(s, s, StoreTimedMute(x, true));
    var c :| c in s.procs && c != x && Clears(s.procs[c]);
    assert c in t.procs && t.procs[c] == s.procs[c];
    ReadyLoses(t, x);
    LostFrom(s, t);
  }

  /** `x` was up to date, and now the schedule has moved on while `q` can still delete it. */
  lemma OvertakenLoses(s: State, t: State, x: nat, q: nat)
    requires RowsKnown(s) && Leads(s, t) && Exposed(t) && x in s.procs && Serving(s.procs[x])
    requires x in t.procs && t.procs[x] == s.procs[x] && q in t.procs && q != x && Clears(t.procs[q])
    requires t.schedule.Some? && t.schedule.value.at >= s.clock
    ensures Lost(s)
  {
    assert Known(s, s.procs[x]);
    KnownAlong(s, t);
    OutOfDateLoses(t, x);
    LostFrom(s, t);
  }

  lemma RaisedLoses(s: State, x: nat, p: nat, q: nat)
    requires Exposed(s) && RowsKnown(s) && x in s.procs && Serving(s.procs[x])
    requires p in s.procs && q in s.procs && Raises(s.procs[p]) && Clears(s.procs[q])
    requires p != q || s.procs[p].TimedMuting?
    ensures Lost(s)
  {
    if s.procs[p].TimedMuting? {
      Stay(s);
      var t := Then(s, s, StoreTimedMute(p, true));
      OvertakenLoses(s, t, x, p);
    } else {
      var t := DriveToReschedule(s, p);
      OvertakenLoses(s, t, x, q);
    }
  }

  lemma MutedLateLoses(s: State)
    requires Exposed(s) && RowsKnown(s) && MutedLate(s.schedule, s.procs)
    ensures Lost(s)
  {
    if x :| x in s.procs && Mutes(s.procs[x], s.schedule) && Removable(s.schedule, s.procs, x) {
      if Serving(s.procs[x]) {
        OutOfDateLoses(s, x);
      } else {
        ReadyLoses(s, x);
      }
    } else if x :| x in s.procs && s.procs[x].TimedMuting? && ClearedBeside(s.procs, x) {
      TimedMuteLoses(s, x);
    } else {
      var x :| x in s.procs && Serving(s.procs[x]) && !Mutes(s.procs[x], s.schedule);
      var p, q :| p in s.procs && q in s.procs && Raises(s.procs[p]) && Clears(s.procs[q])
        && (p != q || s.procs[p].TimedMuting?);
      RaisedLoses(s, x, p, q);
    }
  }

  lemma ClearedUnderMute(s: State, c: nat)
    requires Exposed(s) && s.muted && c in s.procs && s.procs[c].Clearing?
    ensures Lost(s)
  {
    var t := AllReschedule(s);
    assert t.procs[c] == Clearing;
    var u := Then(s, t, Clear(c));
    assert u == End(t.(schedule := None), c) && Forgotten(u);
  }

  lemma StrippedLoses(s: State)
    requires Exposed(s) && Stripped(s.muted, s.schedule, s.procs)
    ensures Lost(s)
  {
    Stay(s);
    if c :| c in s.procs && Strips(s.procs[c]) {
      var t := s;
      if s.procs[c].Departing? {
        t := Then(s, s, Forgo(c, true));
      }
      ClearedUnderMute(t, c);
      LostFrom(s, t);
    } else if s.schedule.Some? {
      var w :| w in s.procs && Serves(s.procs[w], s.schedule) && !s.procs[w].Unmuting?;
      var t := DriveToDelete(s, w);
      assert Forgotten(t);
    } else {
      assert Forgotten(s);
    }
  }

  lemma PerilLoses(s: State)
    requires Exposed(s) && RowsKnown(s) && Perilous(s)
    ensures Lost(s)
  {
    if Stripped(s.muted, s.schedule, s.procs) {
      StrippedLoses(s);
    } else {
      MutedLateLoses(s);
    }
  }

  lemma DriveToDrop(s: State, d: nat) returns (t: State)
    requires !s.gone && s.attempt.Some? && d in s.procs && Drops(s.procs[d], s.attempt.value)
    ensures Leads(s, t) && t == Dropped(s, d)
  {
    Stay(s);
    t := s;
    if s.procs[d].Departing? {
      t := Then(s, t, Forgo(d, true));
    } else {
      if s.procs[d].Created? {
        t := Then(s, t, SenderMute(d, false));
      }
      t := Then(s, t, DropAttempt(d));
    }
    assert t.procs == Dropped(s, d).procs;
  }

  lemma ClashLoses(s: State)
    requires RowsKnown(s) && Clash(s)
    ensures Lost(s)
  {
    if s.attempt.None? {
      PerilLoses(s);
    } else {
      var d :| d in s.procs && Drops(s.procs[d], s.attempt.value) && Perilous(Dropped(s, d));
      var t := DriveToDrop(s, d);
      KnownAlong(s, t);
      PerilLoses(t);
      LostFrom(s, t);
    }
  }

  // ----- Main results -----

  lemma {:induction false} LossClashes(s: State, es: seq<Event>, t: State)
    requires RowsKnown(s) && Reaches(Own, s, es, t) && Forgotten(t)
    ensures Clash(s)
    decreases |es|
  {
    if es == [] {
      ForgottenClashes(s);
    } else {
      var u := Own(s, es[0]).value;
      RowsKnownStep(s, es[0]);
      LossClashes(u, es[1..], t);
      ClashWasThere(s, es[0], u);
    }
  }

  /**
  In every state that any run reaches, over any number of memberships: what is in flight can lose the member
  exactly when it clashes.
  */
  lemma LostExactlyWhenClashing(es: seq<Event>, t: State)
    requires Reaches(Next, INIT, es, t)
    ensures Lost(t) <==> Clash(t)
  {
    RowsAlwaysKnown(es, t);
    if Clash(t) {
      ClashLoses(t);
    }
    if Lost(t) {
      var u :| Leads(t, u) && Forgotten(u);
      var more :| Reaches(Own, t, more, u);
      LossClashes(t, more, u);
    }
  }

  /** So a start or a loss that is not careful leaves a state from which own steps can lose the member. */
  lemma CarelessStartsLose(es: seq<Event>, s: State, e: Event)
    requires Reaches(Next, INIT, es, s) && Next(s, e).Some? && !Careful(s, e)
    ensures Lost(Next(s, e).value)
  {
    RowsAlwaysKnown(es, s);
    RowsKnownStep(s, e);
    ClashLoses(Next(s, e).value);
  }
}
