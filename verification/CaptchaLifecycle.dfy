/**
The captcha of one member of one chat: the attempt row, the scheduled-unmute row, the member's actual
restriction, and every process that touches them, over any number of memberships. Each database call and
each Telegram call is one step; processes interleave freely and may crash between steps. A failed call that
ends its process without a trace is such a crash.
*/
module CaptchaLifecycle {
  import opened Options

  const DAY: int := 86400

  datatype Row = Row(id: nat, at: int)

  datatype Outcome = Ok | Permanent | Transient

  datatype FailureAction = Kick | Ban | Mute

  /** What the one process that claims an attempt goes on to do. */
  datatype Flow =
    | Release                        // releaseIncompleteCaptchaAttempt
    | Restore                        // verify, rollback, /captcha off: restoreCaptchaPermissions
    | Expire(action: FailureAction)  // handleCaptchaTimeout

  /**
  The call a process is about to make. `refused` marks a process whose timed mute Telegram refused and that
  has deleted the schedule stored for it.
  */
  datatype Pc =
    | Created(attempt: nat)      // SendCaptcha: first RestrictMember
    | MuteFailed(attempt: nat)   // SendCaptcha: delete the attempt again
    | Releasing                  // unmute, a permanent error counts as done
    | Restoring(refused: bool)   // unmute, any error reschedules
    | Clearing                   // DeleteMutedUser
    | Rescheduling(refused: bool) // CreateMutedUser(now)
    | Acting(action: FailureAction) // kick or ban
    | Unbanning                  // best-effort unban after a failed kick
    | TimedMuting                // CreateMutedUser(now + 24 h)
    | MuteScheduled(at: int)     // RestrictChatMember of a timed mute
    | DroppingSchedule           // DeleteMutedUser after that call failed
    | Unmuting(row: Row)         // unmute worker: unmute
    | Forgetting(row: Row)       // unmute worker: DeleteMutedUserIfUnchanged
    | GivingUp(row: Row)         // the same after a permanent error
    | Reloading(row: Row)        // unmute worker: GetMutedUser
    | Remuting(row: Row)         // unmute worker: restore the newer mute
    | Departing(seen: Option<nat>) // leftMember: delete the attempt it found

  datatype State = State(
    clock: int,
    attempt: Option<nat>,
    schedule: Option<Row>,
    muted: bool,   // the member is restricted at Telegram
    gone: bool,    // kicked, banned, left, or reported as impossible to unmute; until a rejoin
    procs: map<nat, Pc>,
    nextId: nat
  )

  datatype Event =
    | Tick(to: int)
    | Create(pid: nat)
    | SenderMute(pid: nat, ok: bool)
    | DropAttempt(pid: nat)
    | Claim(pid: nat, flow: Flow)
    | Unmute(pid: nat, outcome: Outcome)
    | Clear(pid: nat)
    | Reschedule(pid: nat, ok: bool)
    | Remove(pid: nat, ok: bool)
    | Unban(pid: nat, ok: bool)
    | StoreTimedMute(pid: nat, ok: bool)
    | TimedMute(pid: nat, ok: bool)
    | DropSchedule(pid: nat, ok: bool)
    | RestoreScheduled(pid: nat)
    | Read(pid: nat)
    | Forget(pid: nat)
    | Reload(pid: nat)
    | Remute(pid: nat, ok: bool)
    | Leave
    | Rejoin(restricted: bool)   // whether Telegram still restricts a member who was
    | Depart(pid: nat, ok: bool)
    | Forgo(pid: nat, ok: bool)
    | Crash(pid: nat)

  const INIT := State(0, None, None, false, false, map[], 0)

  /** createMutedUser: inserts, or moves the time of the row that is there. */
  function Upsert(s: State, at: int): State {
    if s.schedule.Some? then s.(schedule := Some(Row(s.schedule.value.id, at)))
    else s.(schedule := Some(Row(s.nextId, at)), nextId := s.nextId + 1)
  }

  function Goto(s: State, pid: nat, pc: Pc): State {
    s.(procs := s.procs[pid := pc])
  }

  function End(s: State, pid: nat): State {
    s.(procs := s.procs - {pid})
  }

  function Begin(flow: Flow): Pc {
    match flow
    case Release => Releasing
    case Restore => Restoring(false)
    case Expire(Mute) => TimedMuting
    case Expire(action) => Acting(action)
  }

  function UnmuteStep(s: State, pid: nat, pc: Pc, outcome: Outcome): Option<State> {
    var after :=
      match outcome
      case Ok => s.(muted := false)
      case Permanent => s.(gone := true)
      case Transient => s;
    match pc
    case Releasing => Some(if outcome == Transient then End(after, pid) else Goto(after, pid, Clearing))
    case Restoring(refused) =>
      Some(Goto(after, pid, if outcome == Ok then Clearing else Rescheduling(refused)))
    case Unmuting(row) =>
      Some(match outcome
           case Ok => Goto(after, pid, Forgetting(row))
           case Permanent => Goto(after, pid, GivingUp(row))
           case Transient => End(after, pid))
    case _ => None
  }

  function ForgetStep(s: State, pid: nat, pc: Pc): Option<State> {
    match pc
    case Forgetting(row) =>
      Some(if s.schedule == Some(row) then End(s.(schedule := None), pid) else Goto(s, pid, Reloading(row)))
    case GivingUp(row) =>
      Some(End(if s.schedule == Some(row) then s.(schedule := None) else s, pid))
    case _ => None
  }

  /** The steps of process `pid`, which is about to make the call `pc`. */
  function Act(s: State, pid: nat, pc: Pc, e: Event): Option<State> {
    match e
    case SenderMute(_, ok) =>
      if !pc.Created? then None
      else Some(if ok then End(s.(muted := true), pid) else Goto(s, pid, MuteFailed(pc.attempt)))
    case DropAttempt(_) =>
      if !pc.MuteFailed? then None
      else Some(End(if s.attempt == Some(pc.attempt) then s.(attempt := None) else s, pid))
    case Unmute(_, outcome) => UnmuteStep(s, pid, pc, outcome)
    case Clear(_) => if !pc.Clearing? then None else Some(End(s.(schedule := None), pid))
    case Reschedule(_, ok) =>
      if !pc.Rescheduling? then None else Some(End(if ok then Upsert(s, s.clock) else s, pid))
    case Remove(_, ok) =>
      if !pc.Acting? then None
      else if ok then Some(Goto(s.(gone := true), pid, Clearing))
      else Some(Goto(s, pid, if pc.action == Kick then Unbanning else Restoring(false)))
    case Unban(_, ok) =>
      if !pc.Unbanning? then None
      else Some(Goto(if ok then s.(gone := true) else s, pid, Restoring(false)))
    case StoreTimedMute(_, ok) =>
      if !pc.TimedMuting? then None
      else if ok then Some(Goto(Upsert(s, s.clock + DAY), pid, MuteScheduled(s.clock + DAY)))
      else Some(Goto(s, pid, Restoring(false)))
    case TimedMute(_, ok) =>
      if !pc.MuteScheduled? then None
      else Some(if ok then End(s.(muted := true), pid) else Goto(s, pid, DroppingSchedule))
    case DropSchedule(_, ok) =>
      if !pc.DroppingSchedule? then None
      else Some(Goto(if ok then s.(schedule := None) else s, pid, Restoring(ok)))
    case Forget(_) => ForgetStep(s, pid, pc)
    case Reload(_) =>
      if !pc.Reloading? then None
      else if s.schedule.Some? && s.schedule.value.at > pc.row.at then Some(Goto(s, pid, Remuting(pc.row)))
      else Some(End(s, pid))
    case Remute(_, ok) =>
      if !pc.Remuting? then None else Some(End(if ok then s.(muted := true) else s, pid))
    case Forgo(_, ok) =>
      if !pc.Departing? then None
      else Some(Goto(if ok && s.attempt.Some? && s.attempt == pc.seen then s.(attempt := None) else s, pid, Clearing))
    case Crash(_) => Some(End(s, pid))
    case _ => None
  }

  function Next(s: State, e: Event): Option<State> {
    match e
    case Tick(to) => if to < s.clock then None else Some(s.(clock := to))
    case Create(pid) =>
      if pid in s.procs then None
      else Some(Goto(s.(attempt := Some(s.nextId), nextId := s.nextId + 1), pid, Created(s.nextId)))
    case Claim(pid, flow) =>
      if pid in s.procs || s.attempt.None? then None
      else Some(Goto(Upsert(s.(attempt := None), s.clock), pid, Begin(flow)))
    case RestoreScheduled(pid) =>
      if pid in s.procs || s.schedule.None? then None else Some(Goto(s, pid, Restoring(false)))
    case Read(pid) =>
      if pid in s.procs || s.schedule.None? || s.schedule.value.at >= s.clock then None
      else Some(Goto(s, pid, Unmuting(s.schedule.value)))
    case Leave => Some(s.(gone := true))
    case Rejoin(restricted) => if !s.gone then None else Some(s.(gone := false, muted := s.muted && restricted))
    case Depart(pid, ok) =>
      if pid in s.procs || !s.gone then None else Some(Goto(s, pid, Departing(if ok then s.attempt else None)))
    case _ => if e.pid !in s.procs then None else Act(s, e.pid, s.procs[e.pid], e)
  }

  predicate Worker(pc: Pc) {
    pc.Unmuting? || pc.Forgetting? || pc.GivingUp? || pc.Reloading? || pc.Remuting?
  }

  /** What a worker has read is due, and a schedule stored now is that one or a later one. */
  predicate Known(s: State, pc: Pc) {
    Worker(pc) ==>
      && pc.row.at < s.clock
      && (s.schedule.Some? ==> s.schedule == Some(pc.row) || pc.row.at < s.schedule.value.at)
  }
}
