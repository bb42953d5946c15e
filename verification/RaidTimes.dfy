/**
The seconds that the anti-raid commands write, in every interleaving, and what each command does when
nothing interferes.
*/
module RaidTimes {
  import opened AntiRaid
  import opened Options
  import RaidDuration
  import opened Runs
  import opened UnixTime

  // ----- Every raid ever written -----

  /** How long a key is kept from the moment `read`: until half a minute after the raid, or half a minute. */
  function KeptFor(raid: Raid, read: nat): int {
    if raid.expiresAt * 1000 + 30000 > read then raid.expiresAt * 1000 + 30000 - read else 30000
  }

  /** What a process that began `op` no earlier than `from` is about to write. */
  ghost predicate Timed(s: State, pc: Pc, op: Op, from: nat) {
    && !Checking(pc) && !op.Check? && pc.job.seconds == op.seconds
    && (op.Enable? ==> Enabling(pc) && pc.job.left == 0)
    && (Enabling(pc) && !pc.EnableNow? ==>
          && Unix(from) <= pc.raid.startedAt <= Unix(s.clock)
          && pc.raid.expiresAt == pc.raid.startedAt + op.seconds)
    && (pc.SetTtl? || pc.SetReplace? ==>
          && pc.raid.startedAt == pc.current.startedAt
          && Unix(from) + op.seconds <= pc.raid.expiresAt <= Unix(s.clock) + op.seconds)
    && (pc.EnableSet? || pc.SetReplace? ==>
          exists read: nat :: from <= read <= s.clock && pc.ttl == KeptFor(pc.raid, read))
  }

  lemma TimedLater(s: State, t: State, pc: Pc, op: Op, from: nat)
    requires Timed(s, pc, op, from) && s.clock <= t.clock
    ensures Timed(t, pc, op, from)
  {
    UnixMonotone(s.clock, t.clock);
  }

  lemma TimedOwnStep(s: State, pid: nat, ok: bool, op: Op, from: nat)
    requires pid in s.procs && Timed(s, s.procs[pid], op, from) && from <= s.clock
    ensures var t := Next(s, Step(pid, ok)).value; pid in t.procs ==> Timed(t, t.procs[pid], op, from)
  {
    UnixMonotone(from, s.clock);
    var pc := s.procs[pid];
    if pc.EnableTtl? || pc.SetTtl? {
      assert Ttl(s, pc.raid) == KeptFor(pc.raid, s.clock);
    }
  }

  lemma TimedStep(s: State, e: Event, pid: nat, op: Op, from: nat)
    requires Next(s, e).Some? && pid in s.procs && Timed(s, s.procs[pid], op, from) && from <= s.clock
    ensures var t := Next(s, e).value;
            from <= t.clock && (pid in t.procs ==> Timed(t, t.procs[pid], op, from))
  {
    OneStepClock(s, e);
    if e.Step? && e.pid == pid {
      TimedOwnStep(s, pid, e.ok, op, from);
    } else if pid in Next(s, e).value.procs {
      assert Next(s, e).value.procs[pid] == s.procs[pid];
      TimedLater(s, Next(s, e).value, s.procs[pid], op, from);
    }
  }

  predicate Begins(e: Event, pid: nat) {
    e.Begin? && e.pid == pid
  }

  lemma {:induction false} AbsentStays(s: State, es: seq<Event>, t: State, pid: nat)
    requires Reaches(Next, s, es, t) && pid !in s.procs
    requires forall i :: 0 <= i < |es| ==> !Begins(es[i], pid)
    ensures pid !in t.procs
    decreases |es|
  {
    if es != [] {
      assert !Begins(es[0], pid);
      AbsentStays(Next(s, es[0]).value, es[1..], t, pid);
    }
  }

  lemma {:induction false} TimedRun(s: State, es: seq<Event>, t: State, pid: nat, op: Op, from: nat)
    requires Reaches(Next, s, es, t) && pid in s.procs && pid in t.procs
    requires Timed(s, s.procs[pid], op, from) && from <= s.clock
    requires forall i :: 0 <= i < |es| ==> !Begins(es[i], pid)
    ensures Timed(t, t.procs[pid], op, from)
    decreases |es|
  {
    if es != [] {
      var u := Next(s, es[0]).value;
      TimedStep(s, es[0], pid, op, from);
      if pid in u.procs {
        TimedRun(u, es[1..], t, pid, op, from);
      } else {
        AbsentStays(u, es[1..], t, pid);
      }
    }
  }

  lemma {:induction false} LastBegin(es: seq<Event>, pid: nat) returns (b: int)
    ensures -1 <= b < |es| && (b >= 0 ==> Begins(es[b], pid))
    ensures forall i :: b < i < |es| ==> !Begins(es[i], pid)
  {
    if es == [] || Begins(es[|es| - 1], pid) {
      b := |es| - 1;
    } else {
      b := LastBegin(es[..|es| - 1], pid);
    }
  }

  /** A process in flight began somewhere, at an event after which it did not begin again. */
  lemma BegunAt(es: seq<Event>, u: State, pid: nat) returns (b: nat, s: State)
    requires Reaches(Next, INIT, es, u) && pid in u.procs
    ensures b < |es| && Begins(es[b], pid) && Reaches(Next, INIT, es[..b], s)
    ensures Next(s, es[b]).Some? && Reaches(Next, Next(s, es[b]).value, es[b + 1..], u)
    ensures forall i :: b < i < |es| ==> !Begins(es[i], pid)
  {
    var last := LastBegin(es, pid);
    if last == -1 {
      AbsentStays(INIT, es, u, pid);
    }
    b := last;
    s := SplitRun(Next, INIT, es, u, b);
    assert es[b..][1..] == es[b + 1..];
  }

  lemma LogGrows(s: State, e: Event)
    requires Next(s, e).Some?
    ensures s.log <= Next(s, e).value.log && |Next(s, e).value.log| <= |s.log| + 1
  {
  }

  lemma {:induction false} LogKept(s: State, es: seq<Event>, t: State)
    requires Reaches(Next, s, es, t)
    ensures s.log <= t.log
    decreases |es|
  {
    if es != [] {
      LogGrows(s, es[0]);
      LogKept(Next(s, es[0]).value, es[1..], t);
    }
  }

  /** The event that wrote the n-th entry of the log. */
  lemma {:induction false} WrittenAt(s: State, es: seq<Event>, t: State, n: nat) returns (i: nat, u: State)
    requires Reaches(Next, s, es, t) && |s.log| <= n < |t.log|
    ensures i < |es| && Reaches(Next, s, es[..i], u) && Next(u, es[i]).Some?
    ensures u.log == t.log[..n] && Next(u, es[i]).value.log == t.log[..n + 1]
    decreases |es|
  {
    var v := Next(s, es[0]).value;
    LogGrows(s, es[0]);
    LogKept(v, es[1..], t);
    if |v.log| > n {
      i, u := 0, s;
    } else {
      i, u := WrittenAt(v, es[1..], t, n);
      i := i + 1;
      assert es[..i][1..] == es[1..][..i - 1];
      assert es[i] == es[1..][i - 1];
    }
  }

  /** The raid that `change` puts in place lasts `op.seconds` from second `now`, or until then from its own start. */
  predicate Lasts(change: Change, op: Op, now: nat) {
    match change
    case Installed(raid) => !op.Check? && raid.startedAt == now && raid.expiresAt == now + op.seconds
    case Replaced(before, raid) =>
      op.SetDuration? && raid.startedAt == before.startedAt && raid.expiresAt == now + op.seconds
    case _ => false
  }

  lemma WritesTimed(u: State, e: Event, op: Op, from: nat) returns (second: nat, read: nat)
    requires Next(u, e).Some? && e.Step? && Timed(u, u.procs[e.pid], op, from)
    requires |Next(u, e).value.log| > |u.log| && !Removal(Next(u, e).value.log[|u.log|])
    ensures Unix(from) <= second <= Unix(u.clock) && Lasts(Next(u, e).value.log[|u.log|], op, second)
    ensures from <= read <= u.clock
    ensures var raid := Next(u, e).value.log[|u.log|].raid;
            Next(u, e).value.store == Some(Entry(raid, u.clock + KeptFor(raid, read)))
  {
    var pc := u.procs[e.pid];
    second := pc.raid.expiresAt - op.seconds;
    read :| from <= read <= u.clock && pc.ttl == KeptFor(pc.raid, read);
  }

  lemma OnlyStepsWrite(u: State, e: Event)
    requires Next(u, e).Some? && |Next(u, e).value.log| > |u.log| && !Removal(Next(u, e).value.log[|u.log|])
    ensures e.Step? && e.pid in u.procs && (u.procs[e.pid].EnableSet? || u.procs[e.pid].SetReplace?)
  {
  }

  /**
  In every run, whoever interferes: each raid that was ever enabled or changed was written, at event `i`, by a
  process that began at event `b`, and lasts for just the seconds its command asked for, from a second that
  the process read in between. An enabled raid starts in that second; a changed one keeps its start. Its key is
  given the time to live that was right at a moment `read` in between.
  */
  lemma EveryRaidIsTimed(es: seq<Event>, t: State, n: nat)
    returns (b: nat, i: nat, s: State, u: State, second: nat, read: nat)
    requires Reaches(Next, INIT, es, t) && n < |t.log| && !Removal(t.log[n])
    ensures b < i < |es| && es[b].Begin? && es[i].Step? && es[i].pid == es[b].pid
    ensures forall j :: b < j < i ==> !Begins(es[j], es[b].pid)
    ensures Reaches(Next, INIT, es[..b], s) && Reaches(Next, INIT, es[..i], u)
    ensures u.log == t.log[..n] && Next(u, es[i]).Some? && Next(u, es[i]).value.log == t.log[..n + 1]
    ensures Unix(s.clock) <= second <= Unix(u.clock) && Lasts(t.log[n], es[b].op, second)
    ensures s.clock <= read <= u.clock
    ensures Next(u, es[i]).value.store == Some(Entry(t.log[n].raid, u.clock + KeptFor(t.log[n].raid, read)))
  {
    i, u := WrittenAt(INIT, es, t, n);
    assert Next(u, es[i]).value.log[n] == t.log[n];
    OnlyStepsWrite(u, es[i]);
    var pid := es[i].pid;
    b, s := BegunAt(es[..i], u, pid);
    assert es[..i][..b] == es[..b] && es[..i][b] == es[b];
    forall j | b < j < i ensures !Begins(es[j], pid) { assert es[..i][j] == es[j]; }
    var v := Next(s, es[b]).value;
    ChecksStayChecks(v, es[..i][b + 1..], u, pid);
    assert Timed(v, v.procs[pid], es[b].op, s.clock);
    TimedRun(v, es[..i][b + 1..], u, pid, es[b].op, s.clock);
    second, read := WritesTimed(u, es[i], es[b].op, s.clock);
  }

  /** A check stays a check, and nothing else becomes one. */
  lemma {:induction false} ChecksStayChecks(s: State, es: seq<Event>, t: State, pid: nat)
    requires Reaches(Next, s, es, t) && pid in s.procs && pid in t.procs
    requires forall i :: 0 <= i < |es| ==> !Begins(es[i], pid)
    ensures Checking(s.procs[pid]) <==> Checking(t.procs[pid])
    decreases |es|
  {
    if es != [] {
      assert !Begins(es[0], pid);
      var u := Next(s, es[0]).value;
      if pid in u.procs {
        ChecksStayChecks(u, es[1..], t, pid);
      } else {
        AbsentStays(u, es[1..], t, pid);
      }
    }
  }

  // ----- Each command alone -----

  /** Process `pid` has begun `op`, and its calls so far have succeeded with nothing in between. */
  ghost predicate Alone(s: State, pid: nat, op: Op, es: seq<Event>, t: State) {
    && es != [] && es[0] == Begin(pid, op) && Reaches(Next, s, es, t)
    && forall i :: 0 < i < |es| ==> es[i] == Step(pid, true)
  }

  lemma StepAlone(s: State, pid: nat, op: Op, es: seq<Event>, t: State) returns (more: seq<Event>, u: State)
    requires Alone(s, pid, op, es, t) && pid in t.procs
    ensures u == Act(t, pid, t.procs[pid], true) && Alone(s, pid, op, more, u)
  {
    more, u := es + [Step(pid, true)], Next(t, Step(pid, true)).value;
    assert Reaches(Next, u, [], u) && [Step(pid, true)][1..] == [];
    Concatenated(Next, s, es, t, [Step(pid, true)], u);
  }

  /** `t` is `s` with `raid` stored, until half a minute after its expiry. */
  predicate Holds(s: State, t: State, raid: Raid) {
    t.clock == s.clock && t.procs == s.procs && t.store == Some(Entry(raid, raid.expiresAt * 1000 + 30000))
  }

  lemma BeginAlone(s: State, pid: nat, op: Op) returns (es: seq<Event>, t: State)
    requires Next(s, Begin(pid, op)).Some?
    ensures t == Next(s, Begin(pid, op)).value && Alone(s, pid, op, es, t)
  {
    es, t := [Begin(pid, op)], Next(s, Begin(pid, op)).value;
    assert es[1..] == [] && Reaches(Next, t, [], t);
  }

  /** From the moment an enable reads the clock, with no raid in its way. */
  lemma EnablesAlone(s: State, pid: nat, op: Op, es: seq<Event>, t: State, job: Job)
    returns (more: seq<Event>, u: State)
    requires pid !in s.procs && Alone(s, pid, op, es, t)
    requires t == s.(procs := s.procs[pid := EnableNow(job)])
    requires Stored(s).Some? ==> Stored(s).value.expiresAt <= Unix(s.clock)
    requires ValidDuration(job.seconds)
    ensures Alone(s, pid, op, more, u) && pid !in u.procs
    ensures Holds(s, u, Raid(Unix(s.clock), Unix(s.clock) + job.seconds))
  {
    var raid := Raid(Unix(s.clock), Unix(s.clock) + job.seconds);
    more, u := StepAlone(s, pid, op, es, t);
    assert u == s.(procs := s.procs[pid := EnableGet(job, raid)]);
    more, u := StepAlone(s, pid, op, more, u);
    assert u == s.(procs := s.procs[pid := EnableDelete(job, raid, Stored(s))]);
    more, u := InstallsAlone(s, pid, op, more, u, job, raid);
  }

  lemma InstallsAlone(s: State, pid: nat, op: Op, es: seq<Event>, t: State, job: Job, raid: Raid)
    returns (more: seq<Event>, u: State)
    requires pid !in s.procs && Alone(s, pid, op, es, t) && raid.expiresAt * 1000 > s.clock
    requires t == s.(procs := s.procs[pid := EnableDelete(job, raid, Stored(s))])
    ensures Alone(s, pid, op, more, u) && pid !in u.procs && Holds(s, u, raid)
  {
    more, u := StepAlone(s, pid, op, es, t);
    assert u.store.None? && u.clock == s.clock && u.procs == s.procs[pid := EnableTtl(job, raid)];
    more, u := StepAlone(s, pid, op, more, u);
    assert u.store.None? && u.clock == s.clock && u.procs == s.procs[pid := EnableSet(job, raid, Ttl(s, raid))];
    more, u := StepAlone(s, pid, op, more, u);
    assert u.procs == s.procs;
  }

  /** enableRaid alone: it leaves a raid with an expiry in the future as it is and installs one otherwise. */
  lemma EnableAlone(s: State, pid: nat, seconds: int) returns (es: seq<Event>, t: State)
    requires pid !in s.procs && ValidDuration(seconds)
    ensures Alone(s, pid, Enable(seconds), es, t)
    ensures if s.store.Some? && s.store.value.raid.expiresAt > Unix(s.clock) then t == s
            else Holds(s, t, Raid(Unix(s.clock), Unix(s.clock) + seconds))
  {
    var op := Enable(seconds);
    es, t := BeginAlone(s, pid, op);
    if s.store.Some? && s.store.value.raid.expiresAt > Unix(s.clock) {
      es, t := StepAlone(s, pid, op, es, t);
      es, t := StepAlone(s, pid, op, es, t);
      assert t.procs == s.procs;
    } else {
      es, t := EnablesAlone(s, pid, op, es, t, Job(seconds, 0));
    }
  }

  /**
  setRaidDuration alone: the raid that is active now ends the given time from now and keeps its start; with
  none active it enables one.
  */
  lemma SetDurationAlone(s: State, pid: nat, seconds: int) returns (es: seq<Event>, t: State)
    requires pid !in s.procs && ValidDuration(seconds)
    ensures Alone(s, pid, SetDuration(seconds), es, t)
    ensures Holds(s, t, Raid(if Active(s) then s.store.value.raid.startedAt else Unix(s.clock),
                             Unix(s.clock) + seconds))
  {
    var op, job := SetDuration(seconds), Job(seconds, 4);
    es, t := BeginAlone(s, pid, op);
    es, t := StepAlone(s, pid, op, es, t);
    if s.store.None? {
      es, t := EnablesAlone(s, pid, op, es, t, job);
    } else {
      assert t == s.(procs := s.procs[pid := SetClock(job, s.store.value.raid)]);
      es, t := StepAlone(s, pid, op, es, t);
      if Active(s) {
        es, t := ReplacesAlone(s, pid, op, es, t, job);
      } else {
        assert t == s.(procs := s.procs[pid := EnableNow(job)]);
        es, t := EnablesAlone(s, pid, op, es, t, job);
      }
    }
  }

  lemma ReplacesAlone(s: State, pid: nat, op: Op, es: seq<Event>, t: State, job: Job)
    returns (more: seq<Event>, u: State)
    requires pid !in s.procs && s.store.Some? && Alone(s, pid, op, es, t)
    requires t == s.(procs := s.procs[pid := SetNow(job, s.store.value.raid)])
    ensures Alone(s, pid, op, more, u)
    ensures Holds(s, u, Raid(s.store.value.raid.startedAt, Unix(s.clock) + job.seconds))
  {
    var raid := Raid(s.store.value.raid.startedAt, Unix(s.clock) + job.seconds);
    more, u := StepAlone(s, pid, op, es, t);
    assert u == s.(procs := s.procs[pid := SetTtl(job, s.store.value.raid, raid)]);
    more, u := StepAlone(s, pid, op, more, u);
    assert u == s.(procs := s.procs[pid := SetReplace(job, s.store.value.raid, raid, Ttl(s, raid))]);
    more, u := StepAlone(s, pid, op, more, u);
    assert u.procs == s.procs;
  }

  /** An expiry check alone: it removes a raid that is over and leaves everything else as it is. */
  lemma CheckAlone(s: State, pid: nat) returns (es: seq<Event>, t: State)
    requires pid !in s.procs
    ensures Alone(s, pid, Check, es, t) && t.procs == s.procs && t.clock == s.clock
    ensures if s.store.Some? && !Active(s) then t.store.None? else t == s
  {
    var op := Check;
    es, t := BeginAlone(s, pid, op);
    es, t := StepAlone(s, pid, op, es, t);
    if s.store.Some? {
      assert t == s.(procs := s.procs[pid := CheckClock(s.store.value.raid)]);
      es, t := ChecksAlone(s, pid, op, es, t);
    }
    assert t.procs == s.procs;
  }

  lemma ChecksAlone(s: State, pid: nat, op: Op, es: seq<Event>, t: State) returns (more: seq<Event>, u: State)
    requires pid !in s.procs && s.store.Some? && Alone(s, pid, op, es, t)
    requires t == s.(procs := s.procs[pid := CheckClock(s.store.value.raid)])
    ensures Alone(s, pid, op, more, u) && u.procs == s.procs && u.clock == s.clock
    ensures if Active(s) then u == s else u.store.None?
  {
    more, u := StepAlone(s, pid, op, es, t);
    if Active(s) {
      assert u.procs == s.procs;
    } else {
      assert u == s.(procs := s.procs[pid := CheckDelete(s.store.value.raid)]);
      more, u := StepAlone(s, pid, op, more, u);
      assert u.procs == s.procs;
    }
  }

  /** Half a minute after its expiry, and no earlier, the key of a raid written alone is gone by itself. */
  lemma KeyOutlivesRaid(s: State, raid: Raid, to: nat)
    requires s.store == Some(Entry(raid, raid.expiresAt * 1000 + 30000)) && to >= s.clock
    ensures Next(s, Tick(to)).Some?
    ensures var later := Next(s, Tick(to)).value;
            && (Next(later, TimeOut).Some? <==> to > (raid.expiresAt + 30) * 1000)
            && (Next(later, TimeOut).Some? ==> Next(later, TimeOut).value.store.None?)
  {
  }

  // ----- Failures -----

  /** A read that fails acts exactly as if nothing were stored. */
  lemma FailedReadFindsNothing(s: State, pid: nat)
    requires pid in s.procs && (s.procs[pid].EnableGet? || s.procs[pid].SetGet? || s.procs[pid].CheckGet?)
    ensures Next(s, Step(pid, false)).value ==
            Next(s.(store := None), Step(pid, true)).value.(store := s.store)
  {
  }

  /** A write that fails ends its command and leaves the raid as it is. */
  lemma FailedWriteEnds(s: State, pid: nat)
    requires pid in s.procs
    requires s.procs[pid].EnableDelete? || s.procs[pid].EnableSet? || s.procs[pid].SetReplace?
             || s.procs[pid].CheckDelete?
    ensures Next(s, Step(pid, false)).value == s.(procs := s.procs - {pid})
  {
  }

  /** The commands take exactly the durations that a user can type. */
  lemma CommandsTakeWhatParses(s: State, pid: nat, seconds: int)
    requires pid !in s.procs
    ensures Next(s, Begin(pid, Enable(seconds))).Some? <==> exists input :: RaidDuration.Meaning(input) == Some(seconds)
    ensures Next(s, Begin(pid, SetDuration(seconds))).Some? <==> Next(s, Begin(pid, Enable(seconds))).Some?
  {
    if ValidDuration(seconds) {
      RaidDuration.ParseOfFormat(seconds);
    }
    if input :| RaidDuration.Meaning(input) == Some(seconds) {
      RaidDuration.AcceptsExactly(input, seconds);
    }
  }

  // ----- Five rounds -----

  /** How often the process has started a round of setRaidDuration in this run. */
  function Rounds(s: State, es: seq<Event>, pid: nat): nat
    decreases |es|
  {
    if es == [] || Next(s, es[0]).None? then 0
    else
      Rounds(Next(s, es[0]).value, es[1..], pid)
      + if es[0].Step? && es[0].pid == pid && pid in s.procs && s.procs[pid].SetGet? then 1 else 0
  }

  /** The rounds that a process in flight may still start. */
  function RoundsLeft(pc: Pc): nat {
    if Checking(pc) then 0 else pc.job.left + if pc.SetGet? then 1 else 0
  }

  lemma RoundsStep(s: State, e: Event, pid: nat)
    requires Next(s, e).Some? && pid in s.procs && pid in Next(s, e).value.procs
    ensures RoundsLeft(Next(s, e).value.procs[pid]) ==
            RoundsLeft(s.procs[pid]) - if e.Step? && e.pid == pid && s.procs[pid].SetGet? then 1 else 0
  {
  }

  lemma {:induction false} RoundsCounted(s: State, es: seq<Event>, t: State, pid: nat)
    requires Reaches(Next, s, es, t) && pid in s.procs
    requires forall i :: 0 <= i < |es| ==> !Begins(es[i], pid)
    ensures Rounds(s, es, pid) <= RoundsLeft(s.procs[pid])
    ensures pid in t.procs ==> Rounds(s, es, pid) + RoundsLeft(t.procs[pid]) == RoundsLeft(s.procs[pid])
    decreases |es|
  {
    if es != [] {
      var u := Next(s, es[0]).value;
      if pid in u.procs {
        RoundsStep(s, es[0], pid);
        RoundsCounted(u, es[1..], t, pid);
      } else {
        assert !s.procs[pid].SetGet? || !(es[0].Step? && es[0].pid == pid);
        NoRounds(u, es[1..], t, pid);
      }
    }
  }

  lemma {:induction false} NoRounds(s: State, es: seq<Event>, t: State, pid: nat)
    requires Reaches(Next, s, es, t) && pid !in s.procs
    requires forall i :: 0 <= i < |es| ==> !Begins(es[i], pid)
    ensures Rounds(s, es, pid) == 0 && pid !in t.procs
    decreases |es|
  {
    if es != [] {
      assert !Begins(es[0], pid);
      NoRounds(Next(s, es[0]).value, es[1..], t, pid);
    }
  }

  /**
  Whoever interferes, a setRaidDuration tries five times at most. A call that succeeds without writing ends it
  only in the fifth round: until then a lost race starts the next one.
  */
  lemma FiveRounds(s: State, pid: nat, seconds: int, es: seq<Event>, t: State)
    requires Next(s, Begin(pid, SetDuration(seconds))).Some?
    requires Reaches(Next, Next(s, Begin(pid, SetDuration(seconds))).value, es, t)
    requires forall i :: 0 <= i < |es| ==> !Begins(es[i], pid)
    ensures var u := Next(s, Begin(pid, SetDuration(seconds))).value;
            && Rounds(u, es, pid) <= 5
            && (pid in t.procs ==>
                  var v := Next(t, Step(pid, true)).value;
                  pid !in v.procs && v.log == t.log ==> Rounds(u, es, pid) == 5)
  {
    var u := Next(s, Begin(pid, SetDuration(seconds))).value;
    RoundsCounted(u, es, t, pid);
    if pid in t.procs {
      ChecksStayChecks(u, es, t, pid);
    }
  }
}
