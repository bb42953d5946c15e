/**
The raid state of one chat: one Redis key under a time to live, worked on by compare-and-delete,
compare-and-replace, SETNX and an unconditional delete. Each command or script is one step, each reading
of the clock is another; processes interleave freely, fail and stop anywhere. The clock is in milliseconds
and never goes back.
*/
module AntiRaid {
  import opened Options
  import opened Runs
  import opened UnixTime

  const MAX_DURATION: nat := 366 * 24 * 60 * 60
  const POLL_MILLIS: nat := 30 * 1000

  /** An active raidState; the absent key and a failed read both stand for an inactive one. */
  datatype Raid = Raid(startedAt: nat, expiresAt: nat)

  datatype Entry = Entry(raid: Raid, deadline: int)

  /** A requested duration and how many more rounds setRaidDuration has; enableRaid has none. */
  datatype Job = Job(seconds: nat, left: nat)

  /** The call a process is about to make. */
  datatype Pc =
    | EnableNow(job: Job)
    | EnableGet(job: Job, raid: Raid)
    | EnableDelete(job: Job, raid: Raid, seen: Option<Raid>)
    | EnableTtl(job: Job, raid: Raid)
    | EnableSet(job: Job, raid: Raid, ttl: int)
    | SetGet(job: Job)
    | SetClock(job: Job, current: Raid)
    | SetNow(job: Job, current: Raid)
    | SetTtl(job: Job, current: Raid, raid: Raid)
    | SetReplace(job: Job, current: Raid, raid: Raid, ttl: int)
    | CheckGet                    // isRaidActive and checkExpiredRaids
    | CheckClock(current: Raid)
    | CheckDelete(current: Raid)

  /** What happened to the key, in order. */
  datatype Change =
    | Installed(raid: Raid)
    | Replaced(before: Raid, raid: Raid)
    | Disabled(raid: Raid)
    | Deleted(raid: Raid, at: nat)
    | TimedOut(raid: Raid, at: nat)

  datatype State = State(clock: nat, store: Option<Entry>, procs: map<nat, Pc>, log: seq<Change>)

  datatype Op = Enable(seconds: int) | SetDuration(seconds: int) | Check

  datatype Event =
    | Tick(to: nat)
    | TimeOut
    | Begin(pid: nat, op: Op)
    | Step(pid: nat, ok: bool)
    | Disable
    | Crash(pid: nat)

  const INIT := State(0, None, map[], [])

  function Goto(s: State, pid: nat, pc: Pc): State {
    s.(procs := s.procs[pid := pc])
  }

  function End(s: State, pid: nat): State {
    s.(procs := s.procs - {pid})
  }

  /** The next round of setRaidDuration, if there is one. */
  function Again(s: State, pid: nat, job: Job): State {
    if job.left > 0 then Goto(s, pid, SetGet(job.(left := job.left - 1))) else End(s, pid)
  }

  /** raidStateExpiration at this moment. */
  function Ttl(s: State, raid: Raid): int {
    var ttl := raid.expiresAt * 1000 - s.clock + POLL_MILLIS;
    if ttl <= 0 then POLL_MILLIS else ttl
  }

  function Stored(s: State): Option<Raid> {
    if s.store.Some? then Some(s.store.value.raid) else None
  }

  function Put(s: State, raid: Raid, ttl: int, change: Change): State {
    s.(store := Some(Entry(raid, s.clock + ttl)), log := s.log + [change])
  }

  function Remove(s: State, change: Change): State {
    s.(store := None, log := s.log + [change])
  }

  /** deleteRaidStateScript. */
  function DeleteIfUnchanged(s: State, expected: Option<Raid>): State {
    if expected.Some? && Stored(s) == expected then Remove(s, Deleted(expected.value, Unix(s.clock))) else s
  }

  /** A getRaidState; a failed one reads as inactive. */
  function Get(s: State, ok: bool): Option<Raid> {
    if ok then Stored(s) else None
  }

  function EnableStep(s: State, pid: nat, pc: Pc, ok: bool): State {
    match pc
    case EnableNow(job) =>
      Goto(s, pid, EnableGet(job, Raid(Unix(s.clock), Unix(s.clock) + job.seconds)))
    case EnableGet(job, raid) =>
      var current := Get(s, ok);
      if current.Some? && current.value.expiresAt > raid.startedAt then Again(s, pid, job)
      else Goto(s, pid, EnableDelete(job, raid, current))
    case EnableDelete(job, raid, current) =>
      if !ok then End(s, pid) else Goto(DeleteIfUnchanged(s, current), pid, EnableTtl(job, raid))
    case EnableTtl(job, raid) => Goto(s, pid, EnableSet(job, raid, Ttl(s, raid)))
    case EnableSet(job, raid, ttl) =>
      if !ok then End(s, pid)
      else if s.store.None? then End(Put(s, raid, ttl, Installed(raid)), pid)
      else Again(s, pid, job)
    case _ => s
  }

  function SetStep(s: State, pid: nat, pc: Pc, ok: bool): State {
    match pc
    case SetGet(job) =>
      var current := Get(s, ok);
      Goto(s, pid, if current.Some? then SetClock(job, current.value) else EnableNow(job))
    case SetClock(job, current) =>
      Goto(s, pid, if Unix(s.clock) <= current.expiresAt then SetNow(job, current) else EnableNow(job))
    case SetNow(job, current) =>
      Goto(s, pid, SetTtl(job, current, current.(expiresAt := Unix(s.clock) + job.seconds)))
    case SetTtl(job, current, raid) => Goto(s, pid, SetReplace(job, current, raid, Ttl(s, raid)))
    case SetReplace(job, current, raid, ttl) =>
      if !ok then End(s, pid)
      else if Stored(s) == Some(current) then End(Put(s, raid, ttl, Replaced(current, raid)), pid)
      else Again(s, pid, job)
    case _ => s
  }

  function CheckStep(s: State, pid: nat, pc: Pc, ok: bool): State {
    match pc
    case CheckGet =>
      var current := Get(s, ok);
      if current.Some? then Goto(s, pid, CheckClock(current.value)) else End(s, pid)
    case CheckClock(current) =>
      if Unix(s.clock) > current.expiresAt then Goto(s, pid, CheckDelete(current)) else End(s, pid)
    case CheckDelete(current) =>
      End(if ok then DeleteIfUnchanged(s, Some(current)) else s, pid)
    case _ => s
  }

  predicate Enabling(pc: Pc) {
    pc.EnableNow? || pc.EnableGet? || pc.EnableDelete? || pc.EnableTtl? || pc.EnableSet?
  }

  predicate Checking(pc: Pc) {
    pc.CheckGet? || pc.CheckClock? || pc.CheckDelete?
  }

  function Act(s: State, pid: nat, pc: Pc, ok: bool): State {
    if Enabling(pc) then EnableStep(s, pid, pc, ok)
    else if Checking(pc) then CheckStep(s, pid, pc, ok)
    else SetStep(s, pid, pc, ok)
  }

  predicate ValidDuration(seconds: int) {
    0 < seconds <= MAX_DURATION
  }

  function Next(s: State, e: Event): Option<State> {
    match e
    case Tick(to) => if to < s.clock then None else Some(s.(clock := to))
    case TimeOut =>
      if s.store.None? || s.clock <= s.store.value.deadline then None
      else Some(Remove(s, TimedOut(s.store.value.raid, Unix(s.clock))))
    case Begin(pid, op) =>
      if pid in s.procs then None
      else if op.Check? then Some(Goto(s, pid, CheckGet))
      else if !ValidDuration(op.seconds) then None
      else Some(Goto(s, pid, if op.Enable? then EnableNow(Job(op.seconds, 0)) else SetGet(Job(op.seconds, 4))))
    case Step(pid, ok) => if pid !in s.procs then None else Some(Act(s, pid, s.procs[pid], ok))
    case Disable => Some(if s.store.Some? then Remove(s, Disabled(s.store.value.raid)) else s)
    case Crash(pid) => if pid !in s.procs then None else Some(End(s, pid))
  }

  // ----- What the history of the key means -----

  predicate Removal(c: Change) {
    c.Disabled? || c.Deleted? || c.TimedOut?
  }

  /** The raid a history leaves behind. */
  function Replay(log: seq<Change>): Option<Raid> {
    if log == [] || Removal(log[|log| - 1]) then None else Some(log[|log| - 1].raid)
  }

  /** Whether `c` may happen to a key holding `held`. */
  predicate Lawful(held: Option<Raid>, c: Change) {
    match c
    case Installed(raid) => held == None && raid.startedAt < raid.expiresAt <= raid.startedAt + MAX_DURATION
    case Replaced(before, raid) => held == Some(before) && raid.startedAt == before.startedAt
    case Disabled(raid) => held == Some(raid)
    case Deleted(raid, at) => held == Some(raid) && raid.expiresAt <= at
    case TimedOut(raid, at) => held == Some(raid) && raid.expiresAt + 30 <= at
  }

  ghost predicate LawfulHistory(log: seq<Change>) {
    forall i :: 0 <= i < |log| ==> Lawful(Replay(log[..i]), log[i])
  }

  lemma HistoryStep(log: seq<Change>, c: Change)
    requires LawfulHistory(log) && Lawful(Replay(log), c)
    ensures LawfulHistory(log + [c])
  {
    forall i | 0 <= i < |log + [c]| ensures Lawful(Replay((log + [c])[..i]), (log + [c])[i]) {
      assert (log + [c])[..i] == if i < |log| then log[..i] else log;
    }
  }

  // ----- What every step keeps -----

  /** What a process knows is still true when it acts on it. */
  ghost predicate Knows(clock: nat, pc: Pc) {
    match pc
    case EnableNow(job) => ValidDuration(job.seconds)
    case EnableGet(job, raid) =>
      ValidDuration(job.seconds) && raid.startedAt <= Unix(clock) && raid.expiresAt == raid.startedAt + job.seconds
    case EnableDelete(job, raid, current) =>
      && ValidDuration(job.seconds) && raid.expiresAt == raid.startedAt + job.seconds
      && (current.Some? ==> current.value.expiresAt <= Unix(clock))
    case EnableTtl(job, raid) => ValidDuration(job.seconds) && raid.expiresAt == raid.startedAt + job.seconds
    case EnableSet(job, raid, ttl) =>
      && ValidDuration(job.seconds) && raid.expiresAt == raid.startedAt + job.seconds
      && clock + ttl >= raid.expiresAt * 1000 + POLL_MILLIS
    case SetGet(job) => ValidDuration(job.seconds)
    case SetClock(job, _) => ValidDuration(job.seconds)
    case SetNow(job, _) => ValidDuration(job.seconds)
    case SetTtl(job, current, raid) => ValidDuration(job.seconds) && raid.startedAt == current.startedAt
    case SetReplace(job, current, raid, ttl) =>
      && ValidDuration(job.seconds) && raid.startedAt == current.startedAt
      && clock + ttl >= raid.expiresAt * 1000 + POLL_MILLIS
    case CheckGet => true
    case CheckClock(_) => true
    case CheckDelete(current) => current.expiresAt < Unix(clock)
  }

  ghost predicate StoreSound(s: State) {
    && Stored(s) == Replay(s.log)
    && LawfulHistory(s.log)
    && (s.store.Some? ==> s.store.value.deadline >= s.store.value.raid.expiresAt * 1000 + POLL_MILLIS)
  }

  ghost predicate Inv(s: State) {
    StoreSound(s) && forall pid :: pid in s.procs ==> Knows(s.clock, s.procs[pid])
  }

  lemma KnowsLater(clock: nat, later: nat, pc: Pc)
    requires clock <= later && Knows(clock, pc)
    ensures Knows(later, pc)
  {
    assert Unix(clock) <= Unix(later);
  }

  lemma PutStep(s: State, raid: Raid, ttl: int, change: Change)
    requires StoreSound(s) && Lawful(Stored(s), change) && !Removal(change) && change.raid == raid
    requires s.clock + ttl >= raid.expiresAt * 1000 + POLL_MILLIS
    ensures StoreSound(Put(s, raid, ttl, change))
  {
    HistoryStep(s.log, change);
  }

  lemma RemoveStep(s: State, change: Change)
    requires StoreSound(s) && Lawful(Stored(s), change) && Removal(change)
    ensures StoreSound(Remove(s, change))
  {
    HistoryStep(s.log, change);
  }

  lemma DeleteStep(s: State, expected: Option<Raid>)
    requires StoreSound(s) && (expected.Some? ==> expected.value.expiresAt <= Unix(s.clock))
    ensures StoreSound(DeleteIfUnchanged(s, expected))
  {
    if expected.Some? && Stored(s) == expected {
      RemoveStep(s, Deleted(expected.value, Unix(s.clock)));
    }
  }

  ghost predicate KnowsNext(s: State, pid: nat, t: State) {
    && StoreSound(t) && t.clock == s.clock
    && (pid in t.procs ==> Knows(t.clock, t.procs[pid]))
    && t.procs - {pid} == s.procs - {pid}
  }

  lemma TtlReaches(s: State, raid: Raid)
    ensures s.clock + Ttl(s, raid) >= raid.expiresAt * 1000 + POLL_MILLIS
  {
  }

  lemma EnableDeleteKeeps(s: State, pid: nat, ok: bool)
    requires StoreSound(s) && pid in s.procs && s.procs[pid].EnableDelete? && Knows(s.clock, s.procs[pid])
    ensures KnowsNext(s, pid, EnableStep(s, pid, s.procs[pid], ok))
  {
    DeleteStep(s, s.procs[pid].seen);
  }

  lemma EnableKeeps(s: State, pid: nat, ok: bool)
    requires StoreSound(s) && pid in s.procs && Enabling(s.procs[pid]) && Knows(s.clock, s.procs[pid])
    requires !s.procs[pid].EnableDelete? && !s.procs[pid].EnableSet?
    ensures KnowsNext(s, pid, EnableStep(s, pid, s.procs[pid], ok))
  {
    var pc := s.procs[pid];
    if pc.EnableTtl? {
      TtlReaches(s, pc.raid);
    }
    assert EnableStep(s, pid, pc, ok).store == s.store;
    assert EnableStep(s, pid, pc, ok).log == s.log;
  }

  lemma InstallKeeps(s: State, pid: nat, ok: bool)
    requires StoreSound(s) && pid in s.procs && s.procs[pid].EnableSet? && Knows(s.clock, s.procs[pid])
    ensures KnowsNext(s, pid, EnableStep(s, pid, s.procs[pid], ok))
  {
    var pc := s.procs[pid];
    if s.store.None? {
      PutStep(s, pc.raid, pc.ttl, Installed(pc.raid));
      EndKeeps(s, pid, Put(s, pc.raid, pc.ttl, Installed(pc.raid)));
    }
  }

  lemma EndKeeps(s: State, pid: nat, t: State)
    requires StoreSound(t) && t.clock == s.clock && t.procs == s.procs
    ensures KnowsNext(s, pid, End(t, pid))
  {
    assert End(t, pid).procs - {pid} == s.procs - {pid};
  }

  lemma ReplaceKeeps(s: State, pid: nat, ok: bool)
    requires StoreSound(s) && pid in s.procs && s.procs[pid].SetReplace? && Knows(s.clock, s.procs[pid])
    ensures KnowsNext(s, pid, SetStep(s, pid, s.procs[pid], ok))
  {
    var pc := s.procs[pid];
    if Stored(s) == Some(pc.current) {
      PutStep(s, pc.raid, pc.ttl, Replaced(pc.current, pc.raid));
    }
  }

  lemma SetKeeps(s: State, pid: nat, ok: bool)
    requires StoreSound(s) && pid in s.procs && !Enabling(s.procs[pid]) && !Checking(s.procs[pid])
    requires !s.procs[pid].SetReplace? && Knows(s.clock, s.procs[pid])
    ensures KnowsNext(s, pid, SetStep(s, pid, s.procs[pid], ok))
  {
    assert SetStep(s, pid, s.procs[pid], ok).store == s.store;
    assert SetStep(s, pid, s.procs[pid], ok).log == s.log;
  }

  lemma CheckDeleteKeeps(s: State, pid: nat, ok: bool)
    requires StoreSound(s) && pid in s.procs && s.procs[pid].CheckDelete? && Knows(s.clock, s.procs[pid])
    ensures KnowsNext(s, pid, CheckStep(s, pid, s.procs[pid], ok))
  {
    DeleteStep(s, Some(s.procs[pid].current));
  }

  lemma CheckKeeps(s: State, pid: nat, ok: bool)
    requires StoreSound(s) && pid in s.procs && (s.procs[pid].CheckGet? || s.procs[pid].CheckClock?)
    ensures KnowsNext(s, pid, CheckStep(s, pid, s.procs[pid], ok))
  {
    assert CheckStep(s, pid, s.procs[pid], ok).store == s.store;
    assert CheckStep(s, pid, s.procs[pid], ok).log == s.log;
  }

  lemma OthersUntouched(s: State, pid: nat, t: State)
    requires Inv(s) && KnowsNext(s, pid, t)
    ensures Inv(t)
  {
    forall x | x in t.procs ensures Knows(t.clock, t.procs[x]) {
      if x != pid {
        assert x in t.procs - {pid};
        assert t.procs[x] == s.procs[x];
      }
    }
  }

  lemma TimeOutKeeps(s: State)
    requires StoreSound(s) && Next(s, TimeOut).Some?
    ensures StoreSound(Next(s, TimeOut).value)
  {
    RemoveStep(s, TimedOut(s.store.value.raid, Unix(s.clock)));
  }

  lemma InvStep(s: State, e: Event)
    requires Inv(s) && Next(s, e).Some?
    ensures Inv(Next(s, e).value)
  {
    match e {
      case Tick(to) =>
        forall x | x in s.procs ensures Knows(to, s.procs[x]) { KnowsLater(s.clock, to, s.procs[x]); }
      case TimeOut => TimeOutKeeps(s);
      case Begin(pid, op) => OthersUntouched(s, pid, Next(s, e).value);
      case Step(pid, ok) =>
        if s.procs[pid].EnableDelete? { EnableDeleteKeeps(s, pid, ok); }
        else if s.procs[pid].EnableSet? { InstallKeeps(s, pid, ok); }
        else if Enabling(s.procs[pid]) { EnableKeeps(s, pid, ok); }
        else if s.procs[pid].CheckDelete? { CheckDeleteKeeps(s, pid, ok); }
        else if Checking(s.procs[pid]) { CheckKeeps(s, pid, ok); }
        else if s.procs[pid].SetReplace? { ReplaceKeeps(s, pid, ok); }
        else { SetKeeps(s, pid, ok); }
        OthersUntouched(s, pid, Next(s, e).value);
      case Disable => if s.store.Some? { RemoveStep(s, Disabled(s.store.value.raid)); }
      case Crash(_) =>
    }
  }

  lemma InvAlways(es: seq<Event>, t: State)
    requires Reaches(Next, INIT, es, t)
    ensures Inv(t)
  {
    forall x, e | Inv(x) && Next(x, e).Some? ensures Inv(Next(x, e).value) {
      InvStep(x, e);
    }
    Preservation(Next, x => Inv(x), INIT, es, t);
  }

  // ----- Main results -----

  /** The raid is over for good: from its last second on an enable may take its place. */
  predicate Over(s: State, raid: Raid) {
    raid.expiresAt <= Unix(s.clock)
  }

  lemma OneStepKeepsFutureRaid(s: State, e: Event)
    requires Inv(s) && Next(s, e).Some? && s.store.Some? && !Over(s, s.store.value.raid)
    ensures Next(s, e).value.store == s.store || e.Disable? || (e.Step? && s.procs[e.pid].SetReplace?)
    ensures Next(s, e).value.store.None? ==> e.Disable?
    ensures Next(s, e).value.store.Some? ==> Stored(Next(s, e).value).value.startedAt == s.store.value.raid.startedAt
  {
    if e.Step? {
      assert Knows(s.clock, s.procs[e.pid]);
    }
  }

  /**
  In every run, the one step that can remove a raid whose expiry lies in the future is disableRaid: no
  expiry check, no enable and no time to live does. Only setRaidDuration can change it, keeping its start.
  */
  lemma OnlyDisableEndsAFutureRaid(es: seq<Event>, s: State, e: Event)
    requires Reaches(Next, INIT, es, s) && Next(s, e).Some? && s.store.Some?
    requires s.store.value.raid.expiresAt > Unix(s.clock)
    ensures Next(s, e).value.store.None? ==> e.Disable?
    ensures Next(s, e).value.store != s.store && !e.Disable? ==> e.Step? && s.procs[e.pid].SetReplace?
    ensures Next(s, e).value.store.Some? ==> Stored(Next(s, e).value).value.startedAt == s.store.value.raid.startedAt
  {
    InvAlways(es, s);
    OneStepKeepsFutureRaid(s, e);
  }

  predicate NeitherDisablesNorReplaces(s: State, e: Event) {
    !e.Disable? && (e.Step? && e.pid in s.procs ==> !s.procs[e.pid].SetReplace?)
  }

  lemma {:induction false} ClockNeverGoesBack(s: State, es: seq<Event>, t: State)
    requires Reaches(Next, s, es, t)
    ensures s.clock <= t.clock
    decreases |es|
  {
    if es != [] {
      OneStepClock(s, es[0]);
      ClockNeverGoesBack(Next(s, es[0]).value, es[1..], t);
    }
  }

  lemma OneStepClock(s: State, e: Event)
    requires Next(s, e).Some?
    ensures s.clock <= Next(s, e).value.clock
  {
  }

  lemma {:induction false} StandsFrom(s: State, es: seq<Event>, t: State)
    requires Inv(s) && s.store.Some? && Reaches(Next, s, es, t)
    requires Throughout(Next, NeitherDisablesNorReplaces, s, es)
    requires s.store.value.raid.expiresAt > Unix(t.clock)
    ensures t.store == s.store
    decreases |es|
  {
    if es != [] {
      var u := Next(s, es[0]).value;
      ClockNeverGoesBack(s, es, t);
      ClockNeverGoesBack(u, es[1..], t);
      assert !Over(s, s.store.value.raid) by { UnixMonotone(s.clock, t.clock); }
      InvStep(s, es[0]);
      OneStepKeepsFutureRaid(s, es[0]);
      StandsFrom(u, es[1..], t);
    }
  }

  /** Left alone, a raid stands unchanged at every moment before its expiry, whatever else runs. */
  lemma FutureRaidStands(before: seq<Event>, s: State, es: seq<Event>, t: State)
    requires Reaches(Next, INIT, before, s) && s.store.Some? && Reaches(Next, s, es, t)
    requires Throughout(Next, NeitherDisablesNorReplaces, s, es)
    requires s.store.value.raid.expiresAt > Unix(t.clock)
    ensures t.store == s.store
  {
    InvAlways(before, s);
    StandsFrom(s, es, t);
  }

  lemma OnlySetNxInstalls(s: State, e: Event)
    requires Next(s, e).Some? && s.store.None? && Next(s, e).value.store.Some?
    ensures e.Step? && e.pid in s.procs && s.procs[e.pid].EnableSet?
    ensures Next(s, e).value.log == s.log + [Installed(Next(s, e).value.store.value.raid)]
  {
  }

  // ----- Who can bring a disabled raid back -----

  /**
  In flight, and able to install a raid where there is none: an enable, or a setRaidDuration that has yet to
  see an active raid, or that has seen one and has a round left after its replacement fails.
  */
  predicate CanInstall(pc: Pc) {
    || Enabling(pc) || pc.SetGet? || pc.SetClock?
    || ((pc.SetNow? || pc.SetTtl? || pc.SetReplace?) && pc.job.left > 0)
  }

  /** Nobody issues a new command; checks and the expiry poller may go on. */
  predicate NoNewCommand(s: State, e: Event) {
    e.Begin? ==> e.op.Check?
  }

  /** With no new command a raid can be stored again. */
  ghost predicate CanReturn(s: State) {
    exists es, t :: Reaches(Next, s, es, t) && Throughout(Next, NoNewCommand, s, es) && t.store.Some?
  }

  ghost predicate NobodyInstalls(s: State) {
    s.store.None? && forall p :: p in s.procs ==> !CanInstall(s.procs[p])
  }

  lemma NobodyInstallsStep(s: State, e: Event)
    requires NobodyInstalls(s) && NoNewCommand(s, e) && Next(s, e).Some?
    ensures NobodyInstalls(Next(s, e).value)
  {
  }

  lemma ReturnsAfter(s: State, e: Event)
    requires NoNewCommand(s, e) && Next(s, e).Some? && CanReturn(Next(s, e).value)
    ensures CanReturn(s)
  {
    var u := Next(s, e).value;
    var es, t :| Reaches(Next, u, es, t) && Throughout(Next, NoNewCommand, u, es) && t.store.Some?;
    assert ([e] + es)[1..] == es;
    assert Reaches(Next, s, [e] + es, t) && Throughout(Next, NoNewCommand, s, [e] + es);
  }

  lemma StoredReturns(s: State)
    requires s.store.Some?
    ensures CanReturn(s)
  {
    assert Reaches(Next, s, [], s) && Throughout(Next, NoNewCommand, s, []);
  }

  /** How far an enable is from its SETNX. */
  function ToSet(pc: Pc): nat {
    match pc
    case EnableNow(_) => 4
    case EnableGet(_, _) => 3
    case EnableDelete(_, _, _) => 2
    case EnableTtl(_, _) => 1
    case _ => 0
  }

  lemma {:induction false} EnableReturns(s: State, pid: nat)
    requires s.store.None? && pid in s.procs && Enabling(s.procs[pid])
    ensures CanReturn(s)
    decreases ToSet(s.procs[pid])
  {
    var t := Next(s, Step(pid, true)).value;
    if s.procs[pid].EnableSet? {
      StoredReturns(t);
    } else {
      EnableReturns(t, pid);
    }
    ReturnsAfter(s, Step(pid, true));
  }

  lemma GetReturns(s: State, pid: nat)
    requires s.store.None? && pid in s.procs && s.procs[pid].SetGet?
    ensures CanReturn(s)
  {
    EnableReturns(Next(s, Step(pid, true)).value, pid);
    ReturnsAfter(s, Step(pid, true));
  }

  /** Once the raid it has seen is over, a setRaidDuration enables. */
  lemma ClockReturns(s: State, pid: nat)
    requires s.store.None? && pid in s.procs && s.procs[pid].SetClock?
    ensures CanReturn(s)
  {
    var late := (s.procs[pid].current.expiresAt + 1) * 1000 + s.clock;
    var t := Next(s, Tick(late)).value;
    assert Unix(late) > s.procs[pid].current.expiresAt;
    EnableReturns(Next(t, Step(pid, true)).value, pid);
    ReturnsAfter(t, Step(pid, true));
    ReturnsAfter(s, Tick(late));
  }

  function ToReplace(pc: Pc): nat {
    if pc.SetNow? then 2 else if pc.SetTtl? then 1 else 0
  }

  /** Its replacement fails, and it goes round again. */
  lemma {:induction false} ReplaceReturns(s: State, pid: nat)
    requires s.store.None? && pid in s.procs
    requires s.procs[pid].SetNow? || s.procs[pid].SetTtl? || s.procs[pid].SetReplace?
    requires s.procs[pid].job.left > 0
    ensures CanReturn(s)
    decreases ToReplace(s.procs[pid])
  {
    var t := Next(s, Step(pid, true)).value;
    if s.procs[pid].SetReplace? {
      GetReturns(t, pid);
    } else {
      ReplaceReturns(t, pid);
    }
    ReturnsAfter(s, Step(pid, true));
  }

  lemma {:induction false} NobodyInstallsForGood(s: State, es: seq<Event>, t: State)
    requires NobodyInstalls(s) && Reaches(Next, s, es, t) && Throughout(Next, NoNewCommand, s, es)
    ensures t.store.None?
    decreases |es|
  {
    if es != [] {
      NobodyInstallsStep(s, es[0]);
      NobodyInstallsForGood(Next(s, es[0]).value, es[1..], t);
    }
  }

  /**
  While no raid is stored, for instance after disableRaid, one can come back with no new command exactly when
  an enable, or a setRaidDuration with a chance to enable, is still in flight.
  */
  lemma ReturnsExactlyByCommandsInFlight(s: State)
    requires s.store.None?
    ensures CanReturn(s) <==> exists p :: p in s.procs && CanInstall(s.procs[p])
  {
    if p :| p in s.procs && CanInstall(s.procs[p]) {
      if Enabling(s.procs[p]) {
        EnableReturns(s, p);
      } else if s.procs[p].SetGet? {
        GetReturns(s, p);
      } else if s.procs[p].SetClock? {
        ClockReturns(s, p);
      } else {
        ReplaceReturns(s, p);
      }
    } else if CanReturn(s) {
      var es, t :| Reaches(Next, s, es, t) && Throughout(Next, NoNewCommand, s, es) && t.store.Some?;
      NobodyInstallsForGood(s, es, t);
    }
  }

  /** The removal behind two enables is a disable, or that of a raid whose expiry had come. */
  predicate RightfulRemoval(c: Change) {
    || c.Disabled?
    || (c.Deleted? && c.raid.expiresAt <= c.at)
    || (c.TimedOut? && c.raid.expiresAt + 30 <= c.at)
  }

  lemma {:induction false} SomeRemoval(log: seq<Change>, i: nat, j: nat) returns (k: nat)
    requires LawfulHistory(log) && i < j <= |log| && log[i].Installed? && Replay(log[..j]) == None
    ensures i < k < j && RightfulRemoval(log[k])
  {
    k := j - 1;
    assert log[..j][|log[..j]| - 1] == log[k];
    assert Lawful(Replay(log[..k]), log[k]);
  }

  /**
  Between two successful enables of a chat the stored state was removed, by a disable or at or after the
  expiry it then had.
  */
  lemma EnablesAreSeparated(es: seq<Event>, t: State, i: nat, j: nat) returns (k: nat)
    requires Reaches(Next, INIT, es, t) && i < j < |t.log|
    requires t.log[i].Installed? && t.log[j].Installed?
    ensures i < k < j && RightfulRemoval(t.log[k])
  {
    InvAlways(es, t);
    assert Lawful(Replay(t.log[..j]), t.log[j]);
    k := SomeRemoval(t.log, i, j);
  }

  lemma StartKept(held: Option<Raid>, c: Change)
    requires Lawful(held, c) && held.Some? && !Removal(c)
    ensures c.raid.startedAt == held.value.startedAt
  {
  }

  lemma {:induction false} StartKeptThrough(log: seq<Change>, i: nat, n: nat)
    requires LawfulHistory(log) && i < n <= |log| && log[i].Installed?
    requires forall k :: i < k < n ==> !Removal(log[k])
    ensures Replay(log[..n]).Some? && Replay(log[..n]).value.startedAt == log[i].raid.startedAt
    decreases n
  {
    assert log[..n][n - 1] == log[n - 1];
    if i < n - 1 {
      StartKeptThrough(log, i, n - 1);
      StartKept(Replay(log[..n - 1]), log[n - 1]);
    }
  }

  /** In every run a raid keeps the start it was enabled with, however often its duration is changed. */
  lemma StartSurvivesReplacement(es: seq<Event>, t: State, i: nat)
    requires Reaches(Next, INIT, es, t) && i < |t.log| && t.log[i].Installed?
    requires forall k :: i < k < |t.log| ==> !Removal(t.log[k])
    ensures t.store.Some? && t.store.value.raid.startedAt == t.log[i].raid.startedAt
  {
    InvAlways(es, t);
    StartKeptThrough(t.log, i, |t.log|);
    assert t.log[..|t.log|] == t.log;
  }

  /** What isRaidActive answers when nothing fails. */
  predicate Active(s: State) {
    s.store.Some? && Unix(s.clock) <= s.store.value.raid.expiresAt
  }

  /**
  Exactly in its last second an active raid can fall to an enable: a delete that an enable decided on at
  this very clock hits a raid that isRaidActive still calls active if and only if that second has come.
  */
  lemma LastSecondIsContested(es: seq<Event>, s: State, pid: nat)
    requires Reaches(Next, INIT, es, s) && pid in s.procs && s.procs[pid].EnableDelete? && s.store.Some?
    requires s.procs[pid].seen == Stored(s)
    ensures Next(s, Step(pid, true)).value.store.None?
    ensures Active(s) <==> s.store.value.raid.expiresAt == Unix(s.clock)
  {
    InvAlways(es, s);
    assert Knows(s.clock, s.procs[pid]);
  }

  lemma RaidOfOneSecond() returns (es: seq<Event>, t: State)
    ensures Reaches(Next, INIT, es, t)
    ensures t == State(0, Some(Entry(Raid(0, 1), 31000)), map[], [Installed(Raid(0, 1))])
  {
    es, t := [], INIT;
    es, t := Extend(Next, INIT, es, t, Begin(1, Enable(1)));
    es, t := Extend(Next, INIT, es, t, Step(1, true));
    es, t := Extend(Next, INIT, es, t, Step(1, true));
    es, t := Extend(Next, INIT, es, t, Step(1, true));
    es, t := Extend(Next, INIT, es, t, Step(1, true));
    assert t.procs[1] == EnableSet(Job(1, 0), Raid(0, 1), 31000);
    es, t := Extend(Next, INIT, es, t, Step(1, true));
  }

  /** Such a run exists: a raid of one second, and a second enable in the second it expires. */
  lemma LastSecondIsReachable() returns (es: seq<Event>, s: State)
    ensures Reaches(Next, INIT, es, s) && Active(s)
    ensures 2 in s.procs && s.procs[2].EnableDelete? && Next(s, Step(2, true)).value.store.None?
  {
    es, s := RaidOfOneSecond();
    es, s := Extend(Next, INIT, es, s, Tick(1000));
    es, s := Extend(Next, INIT, es, s, Begin(2, Enable(1)));
    es, s := Extend(Next, INIT, es, s, Step(2, true));
    es, s := Extend(Next, INIT, es, s, Step(2, true));
  }

  lemma DurationChangeInFlight() returns (es: seq<Event>, t: State)
    ensures Reaches(Next, INIT, es, t)
    ensures t == State(0, Some(Entry(Raid(0, 1), 31000)),
                       map[2 := SetReplace(Job(5, 4), Raid(0, 1), Raid(0, 5), 35000)], [Installed(Raid(0, 1))])
  {
    es, t := RaidOfOneSecond();
    es, t := Extend(Next, INIT, es, t, Begin(2, SetDuration(5)));
    es, t := Extend(Next, INIT, es, t, Step(2, true));
    es, t := Extend(Next, INIT, es, t, Step(2, true));
    es, t := Extend(Next, INIT, es, t, Step(2, true));
    es, t := Extend(Next, INIT, es, t, Step(2, true));
  }

  /** A change of duration that began before disableRaid brings the disabled raid back. */
  lemma DisabledRaidReturns() returns (es: seq<Event>, s: State)
    ensures Reaches(Next, INIT, es, s) && s.store.None? && s.log == [Installed(Raid(0, 1)), Disabled(Raid(0, 1))]
    ensures CanReturn(s)
  {
    es, s := DurationChangeInFlight();
    es, s := Extend(Next, INIT, es, s, Disable);
    assert s.procs[2] == SetReplace(Job(5, 4), Raid(0, 1), Raid(0, 5), 35000) && CanInstall(s.procs[2]);
    ReturnsExactlyByCommandsInFlight(s);
  }
}
