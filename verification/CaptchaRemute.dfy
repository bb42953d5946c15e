/**
Timed mutes against unmute workers. A worker unmutes before it knows whether the schedule it read has
been replaced by a later one; the compare-and-delete and the re-mute make up for it.
*/
module CaptchaRemute {
  import opened Options
  import opened Runs
  import opened CaptchaLifecycle

  /** Timed-mute handlers and unmute workers, any number of each, with every call succeeding. */
  predicate Faultless(s: State, e: Event) {
    match e
    case Tick(_) => true
    case Create(_) => true
    case SenderMute(_, ok) => ok
    case Claim(_, flow) => flow == Expire(Mute)
    case StoreTimedMute(_, ok) => ok
    case TimedMute(_, ok) => ok
    case Read(_) => true
    case Unmute(_, outcome) => outcome == Ok
    case Forget(_) => true
    case Reload(_) => true
    case Remute(_, ok) => ok
    case _ => false
  }

  /** This process still has a restriction to apply, or will find out that it has, or deletes the schedule. */
  predicate WillSettle(pc: Pc) {
    pc.TimedMuting? || pc.MuteScheduled? || pc.Forgetting? || pc.Reloading? || pc.Remuting?
  }

  ghost predicate Expected(s: State, pc: Pc) {
    match pc
    case Created(_) => true
    case TimedMuting => true
    case MuteScheduled(_) => true
    case Unmuting(_) => Known(s, pc)
    case Forgetting(_) => Known(s, pc)
    case Reloading(row) => Known(s, pc) && s.schedule != Some(row)
    case Remuting(_) => true
    case _ => false
  }

  ghost predicate Inv(s: State) {
    && (forall p :: p in s.procs ==> Expected(s, s.procs[p]))
    && (s.schedule.Some? && !s.muted ==> exists p :: p in s.procs && WillSettle(s.procs[p]))
  }

  /** Storing a schedule makes it later than anything a worker has read. */
  lemma LaterSchedule(s: State, at: int, pc: Pc)
    requires Expected(s, pc) && at >= s.clock
    ensures Expected(Upsert(s, at), pc)
  {
  }

  lemma ExpectedStep(s: State, e: Event, p: nat)
    requires Faultless(s, e) && Next(s, e).Some? && p in Next(s, e).value.procs
    requires !e.Tick? && p != e.pid && p in s.procs && Expected(s, s.procs[p])
    ensures Next(s, e).value.procs[p] == s.procs[p] && Expected(Next(s, e).value, s.procs[p])
  {
    match e {
      case Claim(_, _) => LaterSchedule(s.(attempt := None), s.clock, s.procs[p]);
      case StoreTimedMute(_, _) => LaterSchedule(s, s.clock + DAY, s.procs[p]);
      case _ =>
    }
  }

  lemma OwnStep(s: State, e: Event)
    requires Faultless(s, e) && Next(s, e).Some? && !e.Tick?
    requires e.pid in s.procs ==> Expected(s, s.procs[e.pid])
    ensures e.pid in Next(s, e).value.procs ==> Expected(Next(s, e).value, Next(s, e).value.procs[e.pid])
  {
  }

  /** A process that leaves without settling leaves a muted member, or no schedule. */
  lemma Settles(s: State, e: Event)
    requires Faultless(s, e) && Next(s, e).Some? && !e.Tick?
    requires e.pid in s.procs ==> Expected(s, s.procs[e.pid])
    ensures var t := Next(s, e).value;
            || t.muted || t.schedule.None? || (e.pid in t.procs && WillSettle(t.procs[e.pid]))
            || (s.schedule.Some? && !s.muted && !(e.pid in s.procs && WillSettle(s.procs[e.pid])))
  {
  }

  lemma InvStep(s: State, e: Event)
    requires Inv(s) && Faultless(s, e) && Next(s, e).Some?
    ensures Inv(Next(s, e).value)
  {
    var t := Next(s, e).value;
    if !e.Tick? {
      OwnStep(s, e);
      Settles(s, e);
      assert t.procs.Keys - {e.pid} == s.procs.Keys - {e.pid};
      forall p | p in t.procs && p != e.pid
        ensures p in s.procs && t.procs[p] == s.procs[p] && Expected(t, t.procs[p])
      {
        assert p in t.procs.Keys - {e.pid};
        ExpectedStep(s, e, p);
      }
      if t.schedule.Some? && !t.muted && !(e.pid in t.procs && WillSettle(t.procs[e.pid])) {
        var p :| p in s.procs && WillSettle(s.procs[p]);
        assert p in s.procs.Keys - {e.pid};
        assert p in t.procs && WillSettle(t.procs[p]);
      }
    }
  }

  /**
  However timed mutes and unmute passes interleave: once all of them have finished, a member for whom an
  unmute is still scheduled is muted. In particular a worker that read an earlier schedule, and unmuted
  on its account, has put the later mute back.
  */
  lemma ScheduledMemberEndsMuted(es: seq<Event>, t: State)
    requires Reaches(Next, INIT, es, t) && Throughout(Next, Faultless, INIT, es)
    requires t.procs == map[] && t.schedule.Some?
    ensures t.muted
  {
    forall s, e | Inv(s) && Faultless(s, e) && Next(s, e).Some? ensures Inv(Next(s, e).value) {
      InvStep(s, e);
    }
    Invariance(Next, Faultless, s => Inv(s), INIT, es, t);
  }
}
