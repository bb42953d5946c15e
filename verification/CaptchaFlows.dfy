/**
What each flow does to its member when nothing interferes, for every outcome of its calls: its own calls in
their order, and the state it leaves behind.
*/
module CaptchaFlows {
  import opened CaptchaLifecycle
  import opened Options
  import opened Runs

  lemma One(s: State, e: Event) returns (t: State)
    requires Next(s, e).Some?
    ensures t == Next(s, e).value && Reaches(Next, s, [e], t)
  {
    t := Next(s, e).value;
    assert [e][1..] == [] && Reaches(Next, t, [], t);
  }

  lemma Then(s: State, es: seq<Event>, t: State, e: Event) returns (more: seq<Event>, u: State)
    requires Reaches(Next, s, es, t) && Next(t, e).Some?
    ensures more == es + [e] && u == Next(t, e).value && Reaches(Next, s, more, u)
  {
    more := es + [e];
    u := One(t, e);
    Concatenated(Next, s, es, t, [e], u);
  }

  /** An unmute is scheduled for `at`; the row that was there, if any, has been moved. */
  predicate ScheduledAt(s: State, t: State, at: int) {
    t.schedule.Some? && t.schedule.value.at == at && (s.schedule.Some? ==> t.schedule.value.id == s.schedule.value.id)
  }

  /** Restricted or not, and present or not, as after an unmute with this outcome. */
  predicate Unmuted(s: State, t: State, outcome: Outcome) {
    && t.muted == (s.muted && outcome != Ok)
    && t.gone == (s.gone || outcome == Permanent)
    && t.clock == s.clock && t.attempt == s.attempt
  }

  // ----- Restoring -----

  /** The calls of restoreCaptchaPermissions. */
  function RestoreCalls(pid: nat, outcome: Outcome, stored: bool): seq<Event> {
    [Unmute(pid, outcome)] + if outcome == Ok then [Clear(pid)] else [Reschedule(pid, stored)]
  }

  /**
  What they leave: a schedule is deleted only after a successful unmute; after any other, whatever the error,
  a store that succeeds leaves one that is due at once, and one that fails leaves what was there.
  */
  predicate Restored(s: State, pid: nat, t: State, outcome: Outcome, stored: bool) {
    && Unmuted(s, t, outcome) && t.procs == s.procs - {pid}
    && if outcome == Ok then t.schedule == None
       else if stored then ScheduledAt(s, t, s.clock)
       else t.schedule == s.schedule
  }

  lemma RestoresFrom(s: State, es: seq<Event>, u: State, pid: nat, outcome: Outcome, stored: bool) returns (t: State)
    requires Reaches(Next, s, es, u) && pid in u.procs && u.procs[pid].Restoring?
    ensures Reaches(Next, s, es + RestoreCalls(pid, outcome, stored), t) && Restored(u, pid, t, outcome, stored)
  {
    var more, v := Then(s, es, u, Unmute(pid, outcome));
    more, t := Then(s, more, v, if outcome == Ok then Clear(pid) else Reschedule(pid, stored));
    assert more == es + RestoreCalls(pid, outcome, stored);
    assert t.procs == u.procs - {pid};
  }

  /** A claimed attempt is gone, and an unmute is due at once. */
  predicate Claimed(s: State, pid: nat, u: State) {
    u.attempt == None && ScheduledAt(s, u, s.clock) && u.muted == s.muted && u.gone == s.gone && u.clock == s.clock
      && pid in u.procs && u.procs - {pid} == s.procs
  }

  lemma ClaimAlone(s: State, pid: nat, flow: Flow) returns (u: State)
    requires pid !in s.procs && s.attempt.Some?
    ensures Reaches(Next, s, [Claim(pid, flow)], u) && Claimed(s, pid, u) && u.procs[pid] == Begin(flow)
  {
    u := One(s, Claim(pid, flow));
    assert u.procs - {pid} == s.procs;
  }

  /** Solving a captcha, a rollback, or /captcha off for a member with an attempt. */
  lemma RestoreAlone(s: State, pid: nat, outcome: Outcome, stored: bool) returns (u: State, t: State)
    requires pid !in s.procs && s.attempt.Some?
    ensures Reaches(Next, s, [Claim(pid, Restore)] + RestoreCalls(pid, outcome, stored), t)
    ensures Claimed(s, pid, u) && Restored(u, pid, t, outcome, stored) && t.procs == s.procs
  {
    u := ClaimAlone(s, pid, Restore);
    t := RestoresFrom(s, [Claim(pid, Restore)], u, pid, outcome, stored);
  }

  /** /captcha off for a member with a schedule only. */
  lemma SweepAlone(s: State, pid: nat, outcome: Outcome, stored: bool) returns (t: State)
    requires pid !in s.procs && s.schedule.Some?
    ensures Reaches(Next, s, [RestoreScheduled(pid)] + RestoreCalls(pid, outcome, stored), t)
    ensures Restored(s, pid, t, outcome, stored) && t.procs == s.procs
  {
    var u := One(s, RestoreScheduled(pid));
    assert u.procs - {pid} == s.procs;
    t := RestoresFrom(s, [RestoreScheduled(pid)], u, pid, outcome, stored);
  }

  // ----- Releasing -----

  /** releaseIncompleteCaptchaAttempt: a permanent error counts as done; after any other the schedule stays due. */
  lemma ReleaseAlone(s: State, pid: nat, outcome: Outcome) returns (u: State, t: State)
    requires pid !in s.procs && s.attempt.Some?
    ensures Claimed(s, pid, u) && Unmuted(u, t, outcome) && t.procs == s.procs
    ensures Reaches(Next, s, [Claim(pid, Release), Unmute(pid, outcome)]
                             + if outcome == Transient then [] else [Clear(pid)], t)
    ensures if outcome == Transient then t.schedule == u.schedule else t.schedule == None
  {
    u := ClaimAlone(s, pid, Release);
    var es;
    es, t := Then(s, [Claim(pid, Release)], u, Unmute(pid, outcome));
    if outcome != Transient {
      es, t := Then(s, es, t, Clear(pid));
    }
    assert es == [Claim(pid, Release), Unmute(pid, outcome)] + if outcome == Transient then [] else [Clear(pid)];
    assert t.procs == u.procs - {pid};
  }

  // ----- The failure actions -----

  /** Kicking or banning: once removed, the member needs no schedule. */
  lemma RemoveAlone(s: State, pid: nat, action: FailureAction) returns (u: State, t: State)
    requires pid !in s.procs && s.attempt.Some? && action != Mute
    ensures Reaches(Next, s, [Claim(pid, Expire(action)), Remove(pid, true), Clear(pid)], t)
    ensures Claimed(s, pid, u) && t == u.(gone := true, schedule := None, procs := s.procs)
  {
    u := ClaimAlone(s, pid, Expire(action));
    var es;
    es, t := Then(s, [Claim(pid, Expire(action))], u, Remove(pid, true));
    es, t := Then(s, es, t, Clear(pid));
    assert es == [Claim(pid, Expire(action)), Remove(pid, true), Clear(pid)];
    assert t.procs == u.procs - {pid};
  }

  /** A failed ban restores; a failed kick unbans first, for what that is worth. */
  lemma FailedRemovalAlone(s: State, pid: nat, action: FailureAction, unbanned: bool, outcome: Outcome, stored: bool)
    returns (u: State, v: State, t: State)
    requires pid !in s.procs && s.attempt.Some? && action != Mute
    ensures Reaches(Next, s, [Claim(pid, Expire(action)), Remove(pid, false)]
                    + (if action == Kick then [Unban(pid, unbanned)] else []) + RestoreCalls(pid, outcome, stored), t)
    ensures Claimed(s, pid, u) && v == u.(gone := u.gone || (action == Kick && unbanned), procs := v.procs)
    ensures Restored(v, pid, t, outcome, stored) && t.procs == s.procs
  {
    u := ClaimAlone(s, pid, Expire(action));
    var es;
    es, v := Then(s, [Claim(pid, Expire(action))], u, Remove(pid, false));
    if action == Kick {
      es, v := Then(s, es, v, Unban(pid, unbanned));
    }
    assert es == [Claim(pid, Expire(action)), Remove(pid, false)]
                 + if action == Kick then [Unban(pid, unbanned)] else [];
    assert v.procs - {pid} == u.procs - {pid};
    t := RestoresFrom(s, es, v, pid, outcome, stored);
  }

  // ----- The timed mute -----

  /** A timed mute leaves the member muted, with an unmute in 24 hours. */
  lemma TimedMuteAlone(s: State, pid: nat) returns (u: State, t: State)
    requires pid !in s.procs && s.attempt.Some?
    ensures Reaches(Next, s, [Claim(pid, Expire(Mute)), StoreTimedMute(pid, true), TimedMute(pid, true)], t)
    ensures Claimed(s, pid, u) && t.muted && ScheduledAt(u, t, s.clock + 24 * 60 * 60)
    ensures t == u.(muted := true, schedule := t.schedule, procs := s.procs)
  {
    u := ClaimAlone(s, pid, Expire(Mute));
    var es;
    es, t := Then(s, [Claim(pid, Expire(Mute))], u, StoreTimedMute(pid, true));
    es, t := Then(s, es, t, TimedMute(pid, true));
    assert es == [Claim(pid, Expire(Mute)), StoreTimedMute(pid, true), TimedMute(pid, true)];
    assert t.procs == u.procs - {pid};
  }

  /** If its schedule cannot be stored, the member is restored and the schedule of the claim stays meanwhile. */
  lemma UnstoredTimedMuteAlone(s: State, pid: nat, outcome: Outcome, stored: bool) returns (u: State, t: State)
    requires pid !in s.procs && s.attempt.Some?
    ensures Reaches(Next, s, [Claim(pid, Expire(Mute)), StoreTimedMute(pid, false)]
                             + RestoreCalls(pid, outcome, stored), t)
    ensures Claimed(s, pid, u) && Restored(u, pid, t, outcome, stored) && t.procs == s.procs
  {
    u := ClaimAlone(s, pid, Expire(Mute));
    var es, v := Then(s, [Claim(pid, Expire(Mute))], u, StoreTimedMute(pid, false));
    assert es == [Claim(pid, Expire(Mute)), StoreTimedMute(pid, false)];
    assert v.procs - {pid} == u.procs - {pid};
    t := RestoresFrom(s, es, v, pid, outcome, stored);
  }

  lemma RefusedAlone(s: State, pid: nat, u: State) returns (es: seq<Event>, v: State)
    requires Reaches(Next, s, [Claim(pid, Expire(Mute))], u) && pid in u.procs && u.procs[pid] == TimedMuting
    ensures es == [Claim(pid, Expire(Mute)), StoreTimedMute(pid, true), TimedMute(pid, false)]
    ensures Reaches(Next, s, es, v)
    ensures ScheduledAt(u, v, u.clock + 24 * 60 * 60)
    ensures v == u.(schedule := v.schedule, procs := u.procs[pid := DroppingSchedule], nextId := v.nextId)
  {
    es, v := Then(s, [Claim(pid, Expire(Mute))], u, StoreTimedMute(pid, true));
    assert v.procs == u.procs[pid := MuteScheduled(u.clock + DAY)];
    es, v := Then(s, es, v, TimedMute(pid, false));
    assert es == [Claim(pid, Expire(Mute)), StoreTimedMute(pid, true), TimedMute(pid, false)];
  }

  /** If Telegram refuses it, its schedule is dropped, or stays if that fails, and the member is restored. */
  lemma RefusedTimedMuteAlone(s: State, pid: nat, dropped: bool, outcome: Outcome, stored: bool)
    returns (u: State, v: State, t: State)
    requires pid !in s.procs && s.attempt.Some?
    ensures Reaches(Next, s, [Claim(pid, Expire(Mute)), StoreTimedMute(pid, true), TimedMute(pid, false),
                     DropSchedule(pid, dropped)] + RestoreCalls(pid, outcome, stored), t)
    ensures Claimed(s, pid, u) && v == u.(schedule := v.schedule, procs := v.procs, nextId := v.nextId)
    ensures if dropped then v.schedule == None else ScheduledAt(u, v, s.clock + 24 * 60 * 60)
    ensures Restored(v, pid, t, outcome, stored) && t.procs == s.procs
  {
    u := ClaimAlone(s, pid, Expire(Mute));
    var es;
    es, v := RefusedAlone(s, pid, u);
    es, v := Then(s, es, v, DropSchedule(pid, dropped));
    assert es == [Claim(pid, Expire(Mute)), StoreTimedMute(pid, true), TimedMute(pid, false),
                  DropSchedule(pid, dropped)];
    assert v.procs - {pid} == u.procs - {pid};
    t := RestoresFrom(s, es, v, pid, outcome, stored);
  }

  // ----- SendCaptcha, the unmute worker and leaving -----

  /** SendCaptcha: a member who cannot be muted has no attempt left. */
  lemma SendAlone(s: State, pid: nat, ok: bool) returns (t: State)
    requires pid !in s.procs
    ensures Reaches(Next, s, [Create(pid), SenderMute(pid, ok)] + if ok then [] else [DropAttempt(pid)], t)
    ensures t.procs == s.procs && t.schedule == s.schedule && t.gone == s.gone && t.clock == s.clock
    ensures t.attempt.Some? == ok && t.muted == (s.muted || ok)
  {
    t := One(s, Create(pid));
    var es;
    es, t := Then(s, [Create(pid)], t, SenderMute(pid, ok));
    if !ok {
      es, t := Then(s, es, t, DropAttempt(pid));
    }
    assert es == [Create(pid), SenderMute(pid, ok)] + if ok then [] else [DropAttempt(pid)];
    assert t.procs == s.procs;
  }

  lemma WorkerUnmutes(s: State, pid: nat, outcome: Outcome) returns (t: State)
    requires pid !in s.procs && s.schedule.Some? && s.schedule.value.at < s.clock
    ensures Reaches(Next, s, [Read(pid), Unmute(pid, outcome)], t) && Unmuted(s, t, outcome) && t.schedule == s.schedule
    ensures t.procs == match outcome
                       case Ok => s.procs[pid := Forgetting(s.schedule.value)]
                       case Permanent => s.procs[pid := GivingUp(s.schedule.value)]
                       case Transient => s.procs
  {
    t := One(s, Read(pid));
    var es;
    es, t := Then(s, [Read(pid)], t, Unmute(pid, outcome));
    assert es == [Read(pid), Unmute(pid, outcome)];
  }

  /** One pass of the unmute worker: a due schedule ends with the mute, and stays only after a transient error. */
  lemma WorkerAlone(s: State, pid: nat, outcome: Outcome) returns (t: State)
    requires pid !in s.procs && s.schedule.Some? && s.schedule.value.at < s.clock
    ensures Reaches(Next, s, [Read(pid), Unmute(pid, outcome)] + if outcome == Transient then [] else [Forget(pid)], t)
    ensures Unmuted(s, t, outcome) && t.procs == s.procs
    ensures t.schedule == if outcome == Transient then s.schedule else None
  {
    t := WorkerUnmutes(s, pid, outcome);
    var es := [Read(pid), Unmute(pid, outcome)];
    if outcome != Transient {
      es, t := Then(s, es, t, Forget(pid));
    }
    assert es == [Read(pid), Unmute(pid, outcome)] + if outcome == Transient then [] else [Forget(pid)];
    assert t.procs == s.procs;
  }

  lemma Overtaken(s: State, pid: nat, row: Row) returns (es: seq<Event>, t: State)
    requires pid in s.procs && s.procs[pid] == Unmuting(row) && s.schedule != Some(row)
    ensures es == [Unmute(pid, Ok), Forget(pid)] && Reaches(Next, s, es, t)
    ensures t == s.(muted := false, procs := s.procs[pid := Reloading(row)])
  {
    t := One(s, Unmute(pid, Ok));
    assert t == s.(muted := false, procs := s.procs[pid := Forgetting(row)]);
    es, t := Then(s, [Unmute(pid, Ok)], t, Forget(pid));
    assert es == [Unmute(pid, Ok), Forget(pid)];
  }

  /**
  A worker whose schedule was moved while it unmuted does not delete it, and mutes again for a later one, which
  stands as it was.
  */
  lemma OvertakenWorkerAlone(s: State, pid: nat, row: Row, ok: bool) returns (es: seq<Event>, t: State)
    requires pid in s.procs && s.procs[pid] == Unmuting(row) && s.schedule != Some(row)
    ensures Reaches(Next, s, es, t) && t.schedule == s.schedule && t.attempt == s.attempt && t.gone == s.gone
    ensures t.procs == s.procs - {pid}
    ensures if s.schedule.Some? && s.schedule.value.at > row.at
            then es == [Unmute(pid, Ok), Forget(pid), Reload(pid), Remute(pid, ok)] && t.muted == ok
            else es == [Unmute(pid, Ok), Forget(pid), Reload(pid)] && !t.muted
  {
    es, t := Overtaken(s, pid, row);
    es, t := Then(s, es, t, Reload(pid));
    if s.schedule.Some? && s.schedule.value.at > row.at {
      es, t := Then(s, es, t, Remute(pid, ok));
      assert es == [Unmute(pid, Ok), Forget(pid), Reload(pid), Remute(pid, ok)];
    } else {
      assert es == [Unmute(pid, Ok), Forget(pid), Reload(pid)];
    }
    assert t.procs == s.procs - {pid};
  }

  lemma DepartAlone(s: State, pid: nat, read: bool) returns (t: State)
    requires pid !in s.procs
    ensures Reaches(Next, s, [Leave, Depart(pid, read)], t)
    ensures t == s.(gone := true, procs := s.procs[pid := Departing(if read then s.attempt else None)])
  {
    t := One(s, Leave);
    var es;
    es, t := Then(s, [Leave], t, Depart(pid, read));
    assert es == [Leave, Depart(pid, read)];
  }

  /** leftMember: both rows go; the attempt stays if it could not be read or deleted. */
  lemma LeaveAlone(s: State, pid: nat, read: bool, deleted: bool) returns (t: State)
    requires pid !in s.procs
    ensures Reaches(Next, s, [Leave, Depart(pid, read), Forgo(pid, deleted), Clear(pid)], t)
    ensures t == s.(gone := true, schedule := None, attempt := if read && deleted then None else s.attempt)
  {
    var u := DepartAlone(s, pid, read);
    var es, v := Then(s, [Leave, Depart(pid, read)], u, Forgo(pid, deleted));
    assert v == u.(attempt := if read && deleted then None else s.attempt, procs := u.procs[pid := Clearing]);
    es, t := Then(s, es, v, Clear(pid));
    assert es == [Leave, Depart(pid, read), Forgo(pid, deleted), Clear(pid)];
    assert t.procs == s.procs;
  }

  // ----- Claims -----

  lemma {:induction false} NothingToClaim(s: State, es: seq<Event>, t: State)
    requires Reaches(Next, s, es, t) && s.attempt.None? && forall i :: 0 <= i < |es| ==> !es[i].Create?
    ensures t.attempt.None?
    decreases |es|
  {
    if es != [] {
      assert !es[0].Create?;
      NothingToClaim(Next(s, es[0]).value, es[1..], t);
    }
  }

  /** In every run an attempt is claimed at most once: between two claims a SendCaptcha creates a new one. */
  lemma ClaimedAtMostOnce(es: seq<Event>, t: State, i: nat, j: nat) returns (k: nat)
    requires Reaches(Next, INIT, es, t) && i < j < |es| && es[i].Claim? && es[j].Claim?
    ensures i < k < j && es[k].Create?
  {
    var s := SplitRun(Next, INIT, es, t, i);
    var rest := es[i..];
    var u := SplitRun(Next, s, rest, t, j - i);
    assert rest[0] == es[i] && rest[j - i..][0] == es[j];
    var between := rest[..j - i][1..];
    assert forall n :: 0 <= n < |between| ==> between[n] == es[i + 1 + n];
    if forall n :: 0 <= n < |between| ==> !between[n].Create? {
      NothingToClaim(Next(s, es[i]).value, between, u);
      assert false;
    } else {
      var n :| 0 <= n < |between| && between[n].Create?;
      k := i + 1 + n;
    }
  }
}
