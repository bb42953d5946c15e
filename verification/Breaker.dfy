/** The per-chat circuit breaker of the AI spam checks. Times are in milliseconds. */
module Breaker {
  import opened Options
  import opened Sets

  const TRIP_FAILURES: nat := 5
  const MAX_CHATS: nat := 10000
  const COOLDOWN: int := 5 * 60 * 1000

  /** `pausedTill` is None for Go's zero time. */
  datatype Entry = Entry(failures: nat, pausedTill: Option<int>, notified: bool)

  type Table = map<int, Entry>

  datatype Event = Failure(chat: int, now: int) | Success(chat: int)

  // ----- The operations as functions of the table -----

  /** The entry that a failure finds once a pause that is over has been lifted. */
  function Lifted(e: Entry, now: int): Entry {
    if e.pausedTill.Some? && now >= e.pausedTill.value then Entry(0, None, false) else e
  }

  function FailEntry(e: Entry, now: int): (Entry, bool) {
    var counted := Lifted(e, now).(failures := Lifted(e, now).failures + 1);
    if counted.failures < TRIP_FAILURES || counted.notified then (counted, false)
    else (Entry(0, Some(now + COOLDOWN), true), true)
  }

  function Fail(m: Table, chat: int, now: int): (Table, bool) {
    if chat !in m && |m| >= MAX_CHATS then (m, false)
    else
      var r := FailEntry(if chat in m then m[chat] else Entry(0, None, false), now);
      (m[chat := r.0], r.1)
  }

  predicate IsPaused(m: Table, chat: int, now: int) {
    chat in m && m[chat].pausedTill.Some? && now < m[chat].pausedTill.value
  }

  function Step(m: Table, e: Event): (Table, bool) {
    match e
    case Failure(chat, now) => Fail(m, chat, now)
    case Success(chat) => (m - {chat}, false)
  }

  /** aispamBreakers, whose methods run under its mutex. */
  class Breakers {
    var m: Table

    constructor ()
      ensures m == map[]
    {
      m := map[];
    }

    method RecordFailure(chat: int, now: int) returns (tripped: bool)
      modifies this
      ensures (m, tripped) == Fail(old(m), chat, now)
    {
      if chat !in m {
        if |m| >= MAX_CHATS {
          return false;
        }
        m := m[chat := Entry(0, None, false)];
      }
      var breaker := m[chat];
      if breaker.pausedTill.Some? && now >= breaker.pausedTill.value {
        breaker := Entry(0, None, false);
      }
      breaker := breaker.(failures := breaker.failures + 1);
      if breaker.failures < TRIP_FAILURES || breaker.notified {
        m := m[chat := breaker];
        assert m == old(m)[chat := breaker];
        return false;
      }
      breaker := Entry(0, Some(now + COOLDOWN), true);
      m := m[chat := breaker];
      assert m == old(m)[chat := breaker];
      return true;
    }

    method RecordSuccess(chat: int)
      modifies this
      ensures m == old(m) - {chat}
    {
      m := m - {chat};
    }

    method Paused(chat: int, now: int) returns (paused: bool)
      ensures paused == IsPaused(m, chat, now)
    {
      paused := chat in m && m[chat].pausedTill.Some? && now < m[chat].pausedTill.value;
    }
  }

  // ----- Runs -----

  function After(evs: seq<Event>): Table {
    if evs == [] then map[] else Step(After(evs[..|evs| - 1]), evs[|evs| - 1]).0
  }

  lemma AfterNext(evs: seq<Event>, n: nat)
    requires n < |evs|
    ensures After(evs[..n + 1]) == Step(After(evs[..n]), evs[n]).0
  {
    assert evs[..n + 1][..n] == evs[..n];
  }

  /** The n-th event is a failure of `chat` that trips its breaker. */
  predicate Trips(evs: seq<Event>, n: nat, chat: int)
    requires n < |evs|
  {
    evs[n].Failure? && evs[n].chat == chat && Step(After(evs[..n]), evs[n]).1
  }

  ghost predicate Monotone(evs: seq<Event>) {
    forall i, j :: 0 <= i < j < |evs| && evs[i].Failure? && evs[j].Failure? ==> evs[i].now <= evs[j].now
  }

  ghost predicate NoSuccess(evs: seq<Event>, chat: int, lo: nat, hi: nat) {
    forall k :: lo <= k < hi <= |evs| ==> evs[k] != Success(chat)
  }

  ghost predicate NoTrip(evs: seq<Event>, chat: int, lo: nat, hi: nat) {
    forall k :: lo <= k < hi <= |evs| ==> !Trips(evs, k, chat)
  }

  /** Failures of `chat` among events lo, ..., hi-1 at or after `since`. */
  function FailuresSince(evs: seq<Event>, chat: int, lo: nat, hi: nat, since: int): nat
    requires lo <= hi <= |evs|
    decreases hi
  {
    if lo == hi then 0
    else FailuresSince(evs, chat, lo, hi - 1, since) +
         if evs[hi - 1].Failure? && evs[hi - 1].chat == chat && evs[hi - 1].now >= since then 1 else 0
  }

  // ----- Every run -----

  ghost predicate WellFormed(e: Entry) {
    if e.notified then e.pausedTill.Some? else e.pausedTill.None? && 1 <= e.failures < TRIP_FAILURES
  }

  lemma StepWithinCap(m: Table, e: Event)
    requires |m| <= MAX_CHATS
    ensures |Step(m, e).0| <= MAX_CHATS
  {
    var t := Step(m, e).0;
    assert e.Success? ==> t.Keys == m.Keys - {e.chat};
    Without(m.Keys, e.chat);
    if e.Failure? && t != m {
      assert t.Keys == m.Keys + {e.chat};
    }
  }

  lemma StepWellFormed(m: Table, e: Event)
    requires forall chat :: chat in m ==> WellFormed(m[chat])
    ensures forall chat :: chat in Step(m, e).0 ==> WellFormed(Step(m, e).0[chat])
  {
  }

  /** An entry that has not tripped holds one to four failures, and the table never outgrows its cap. */
  lemma {:induction false} EntriesWellFormed(evs: seq<Event>)
    ensures |After(evs)| <= MAX_CHATS
    ensures forall chat :: chat in After(evs) ==> WellFormed(After(evs)[chat])
  {
    if evs != [] {
      EntriesWellFormed(evs[..|evs| - 1]);
      StepWithinCap(After(evs[..|evs| - 1]), evs[|evs| - 1]);
      StepWellFormed(After(evs[..|evs| - 1]), evs[|evs| - 1]);
    }
  }

  /** What the entry records after a trip whose pause ends at `till`, `count` failures into the time after it. */
  predicate Tracks(m: Table, chat: int, till: int, count: nat) {
    && chat in m
    && (if m[chat].notified then m[chat].pausedTill == Some(till) && count == 0
        else m[chat].pausedTill.None? && m[chat].failures == count && 1 <= count < TRIP_FAILURES)
  }

  /** The entry records this between a trip at `i` and the next trip or success of its chat. */
  ghost predicate SinceTrip(evs: seq<Event>, chat: int, i: nat, n: nat)
    requires i < n <= |evs| && evs[i].Failure?
  {
    Tracks(After(evs[..n]), chat, evs[i].now + COOLDOWN, FailuresSince(evs, chat, i + 1, n, evs[i].now + COOLDOWN))
  }

  lemma TracksStep(m: Table, e: Event, chat: int, till: int, count: nat)
    requires Tracks(m, chat, till, count) && e != Success(chat)
    requires count > 0 && e.Failure? ==> e.now >= till
    ensures var next := count + if e.Failure? && e.chat == chat && e.now >= till then 1 else 0;
            if e.Failure? && e.chat == chat && Step(m, e).1 then e.now >= till && next == TRIP_FAILURES
            else Tracks(Step(m, e).0, chat, till, next)
  {
  }

  lemma SinceTripStep(evs: seq<Event>, chat: int, i: nat, n: nat)
    requires Monotone(evs) && i < n < |evs| && evs[i].Failure? && SinceTrip(evs, chat, i, n)
    requires evs[n] != Success(chat)
    requires FailuresSince(evs, chat, i + 1, n, evs[i].now + COOLDOWN) > 0 && evs[n].Failure? ==>
               evs[n].now >= evs[i].now + COOLDOWN
    ensures Trips(evs, n, chat) ==>
              evs[n].now >= evs[i].now + COOLDOWN &&
              FailuresSince(evs, chat, i + 1, n + 1, evs[i].now + COOLDOWN) == TRIP_FAILURES
    ensures !Trips(evs, n, chat) ==> SinceTrip(evs, chat, i, n + 1)
  {
    var till := evs[i].now + COOLDOWN;
    AfterNext(evs, n);
    TracksStep(After(evs[..n]), evs[n], chat, till, FailuresSince(evs, chat, i + 1, n, till));
  }

  lemma {:induction false} CountedFailureIsLate(evs: seq<Event>, chat: int, lo: nat, hi: nat, since: int, n: nat)
    requires Monotone(evs) && lo <= hi <= n < |evs| && evs[n].Failure?
    requires FailuresSince(evs, chat, lo, hi, since) > 0
    ensures evs[n].now >= since
    decreases hi
  {
    var e := evs[hi - 1];
    if !(e.Failure? && e.chat == chat && e.now >= since) {
      CountedFailureIsLate(evs, chat, lo, hi - 1, since, n);
    }
  }

  lemma SinceTripStart(evs: seq<Event>, chat: int, i: nat)
    requires i < |evs| && Trips(evs, i, chat)
    ensures SinceTrip(evs, chat, i, i + 1)
  {
    AfterNext(evs, i);
  }

  lemma FailuresLate(evs: seq<Event>, chat: int, i: nat, n: nat)
    requires Monotone(evs) && i < n < |evs| && evs[i].Failure?
    ensures FailuresSince(evs, chat, i + 1, n, evs[i].now + COOLDOWN) > 0 && evs[n].Failure? ==>
              evs[n].now >= evs[i].now + COOLDOWN
  {
    if FailuresSince(evs, chat, i + 1, n, evs[i].now + COOLDOWN) > 0 && evs[n].Failure? {
      CountedFailureIsLate(evs, chat, i + 1, n, evs[i].now + COOLDOWN, n);
    }
  }

  lemma {:induction false} SinceTripHolds(evs: seq<Event>, chat: int, i: nat, n: nat)
    requires Monotone(evs) && i < n <= |evs| && Trips(evs, i, chat)
    requires NoSuccess(evs, chat, i + 1, n) && NoTrip(evs, chat, i + 1, n)
    ensures SinceTrip(evs, chat, i, n)
    decreases n
  {
    if n == i + 1 {
      SinceTripStart(evs, chat, i);
    } else {
      assert !Trips(evs, n - 1, chat) && evs[n - 1] != Success(chat);
      assert NoTrip(evs, chat, i + 1, n - 1) && NoSuccess(evs, chat, i + 1, n - 1);
      SinceTripHolds(evs, chat, i, n - 1);
      FailuresLate(evs, chat, i, n - 1);
      SinceTripStep(evs, chat, i, n - 1);
    }
  }

  /**
  Two consecutive trips of a chat with no success between them are at least one cooldown apart, and the
  chat failed exactly five times at or after the end of the pause.
  */
  lemma ConsecutiveTripsAreSpaced(evs: seq<Event>, chat: int, i: nat, j: nat)
    requires Monotone(evs) && i < j < |evs| && Trips(evs, i, chat) && Trips(evs, j, chat)
    requires NoSuccess(evs, chat, i + 1, j) && NoTrip(evs, chat, i + 1, j)
    ensures evs[j].now >= evs[i].now + COOLDOWN
    ensures FailuresSince(evs, chat, i + 1, j + 1, evs[i].now + COOLDOWN) == TRIP_FAILURES
  {
    SinceTripHolds(evs, chat, i, j);
    FailuresLate(evs, chat, i, j);
    SinceTripStep(evs, chat, i, j);
  }

  /** And the fifth such failure is itself the next trip. */
  lemma FifthFailureTripsAgain(evs: seq<Event>, chat: int, i: nat, j: nat)
    requires Monotone(evs) && i < j < |evs| && Trips(evs, i, chat)
    requires NoSuccess(evs, chat, i + 1, j) && NoTrip(evs, chat, i + 1, j)
    ensures Trips(evs, j, chat) <==>
              evs[j].Failure? && evs[j].chat == chat &&
              FailuresSince(evs, chat, i + 1, j + 1, evs[i].now + COOLDOWN) == TRIP_FAILURES
  {
    SinceTripHolds(evs, chat, i, j);
    FailuresLate(evs, chat, i, j);
    if evs[j] != Success(chat) {
      SinceTripStep(evs, chat, i, j);
    }
  }

  // ----- The first trip -----

  /** A failure at event `k` is counted: the chat is known, or the table has room for it. */
  predicate Counts(evs: seq<Event>, k: nat, chat: int)
    requires k < |evs|
  {
    && evs[k].Failure? && evs[k].chat == chat
    && (chat in After(evs[..k]) || |After(evs[..k])| < MAX_CHATS)
  }

  /** The failures of `chat` among events lo, ..., hi-1 that are counted. */
  function CountedFailures(evs: seq<Event>, chat: int, lo: nat, hi: nat): nat
    requires lo <= hi <= |evs|
    decreases hi
  {
    if lo == hi then 0
    else CountedFailures(evs, chat, lo, hi - 1) + if Counts(evs, hi - 1, chat) then 1 else 0
  }

  function Failures(evs: seq<Event>, chat: int, lo: nat, hi: nat): nat
    requires lo <= hi <= |evs|
    decreases hi
  {
    if lo == hi then 0
    else Failures(evs, chat, lo, hi - 1) + if evs[hi - 1].Failure? && evs[hi - 1].chat == chat then 1 else 0
  }

  /** A chat's record starts with the run and again after each of its successes. */
  predicate StartsAt(evs: seq<Event>, chat: int, b: nat) {
    b == 0 || (b <= |evs| && evs[b - 1] == Success(chat))
  }

  /** What the table holds of a chat that has failed `count` times since its record started. */
  predicate Starting(m: Table, chat: int, count: nat) {
    && count < TRIP_FAILURES
    && if count == 0 then chat !in m else chat in m && m[chat] == Entry(count, None, false)
  }

  lemma StartingStep(m: Table, e: Event, chat: int, count: nat)
    requires Starting(m, chat, count) && e != Success(chat)
    ensures var next := count + if e.Failure? && e.chat == chat && (chat in m || |m| < MAX_CHATS) then 1 else 0;
            if e.Failure? && e.chat == chat && Step(m, e).1 then next == TRIP_FAILURES
            else Starting(Step(m, e).0, chat, next)
  {
  }

  lemma {:induction false} StartingHolds(evs: seq<Event>, chat: int, b: nat, n: nat)
    requires b <= n <= |evs| && StartsAt(evs, chat, b)
    requires NoSuccess(evs, chat, b, n) && NoTrip(evs, chat, b, n)
    ensures Starting(After(evs[..n]), chat, CountedFailures(evs, chat, b, n))
    decreases n
  {
    if n == b {
      if b > 0 {
        AfterNext(evs, b - 1);
      }
    } else {
      var k := n - 1;
      assert !Trips(evs, k, chat) && evs[k] != Success(chat);
      StartingHolds(evs, chat, b, k);
      AfterNext(evs, k);
      StartingStep(After(evs[..k]), evs[k], chat, CountedFailures(evs, chat, b, k));
    }
  }

  /** Since its record started a chat first trips exactly at its fifth counted failure. */
  lemma FirstTripIsFifthFailure(evs: seq<Event>, chat: int, b: nat, n: nat)
    requires b <= n < |evs| && StartsAt(evs, chat, b)
    requires NoSuccess(evs, chat, b, n) && NoTrip(evs, chat, b, n)
    ensures Trips(evs, n, chat) <==> Counts(evs, n, chat) && CountedFailures(evs, chat, b, n + 1) == 5
  {
    StartingHolds(evs, chat, b, n);
    AfterNext(evs, n);
    if evs[n] != Success(chat) {
      StartingStep(After(evs[..n]), evs[n], chat, CountedFailures(evs, chat, b, n));
    }
  }

  lemma {:induction false} AllCounted(evs: seq<Event>, chat: int, lo: nat, hi: nat)
    requires lo <= hi <= |evs|
    ensures CountedFailures(evs, chat, lo, hi) <= Failures(evs, chat, lo, hi)
    ensures (forall k :: lo <= k < hi && evs[k].Failure? && evs[k].chat == chat ==> Counts(evs, k, chat)) ==>
              CountedFailures(evs, chat, lo, hi) == Failures(evs, chat, lo, hi)
    decreases hi
  {
    if lo < hi {
      AllCounted(evs, chat, lo, hi - 1);
    }
  }

  /**
  So the first trip takes at least five failures, and exactly five if the table has never been full for the
  chat.
  */
  lemma FirstTripTakesFive(evs: seq<Event>, chat: int, b: nat, n: nat)
    requires b <= n < |evs| && StartsAt(evs, chat, b) && Trips(evs, n, chat)
    requires NoSuccess(evs, chat, b, n) && NoTrip(evs, chat, b, n)
    ensures Failures(evs, chat, b, n + 1) >= 5
    ensures (forall k :: b <= k < n && evs[k].Failure? && evs[k].chat == chat ==> Counts(evs, k, chat)) ==>
              Failures(evs, chat, b, n + 1) == 5
  {
    FirstTripIsFifthFailure(evs, chat, b, n);
    AllCounted(evs, chat, b, n + 1);
  }

  // ----- Pauses -----

  lemma PauseStep(m: Table, e: Event, chat: int)
    requires chat in Step(m, e).0 && Step(m, e).0[chat].pausedTill.Some?
    ensures e != Success(chat)
    ensures if e.Failure? && e.chat == chat && Step(m, e).1 then Step(m, e).0[chat].pausedTill == Some(e.now + COOLDOWN)
            else chat in m && m[chat].pausedTill == Step(m, e).0[chat].pausedTill
  {
  }

  /** A pause on record was set by a trip with no success since. */
  lemma {:induction false} PauseComesFromTrip(evs: seq<Event>, chat: int, n: nat) returns (i: nat)
    requires n <= |evs| && chat in After(evs[..n]) && After(evs[..n])[chat].pausedTill.Some?
    ensures i < n && Trips(evs, i, chat) && NoSuccess(evs, chat, i + 1, n)
    ensures After(evs[..n])[chat].pausedTill == Some(evs[i].now + COOLDOWN)
    decreases n
  {
    var k := n - 1;
    AfterNext(evs, k);
    PauseStep(After(evs[..k]), evs[k], chat);
    if Trips(evs, k, chat) {
      i := k;
    } else {
      i := PauseComesFromTrip(evs, chat, k);
      assert NoSuccess(evs, chat, i + 1, n);
    }
  }

  /** The last trip of `chat` no earlier than `i`. */
  lemma {:induction false} LastTrip(evs: seq<Event>, chat: int, i: nat, n: nat) returns (last: nat)
    requires i < n <= |evs| && Trips(evs, i, chat)
    ensures i <= last < n && Trips(evs, last, chat) && NoTrip(evs, chat, last + 1, n)
    decreases n
  {
    var k := n - 1;
    if Trips(evs, k, chat) {
      last := k;
    } else {
      last := LastTrip(evs, chat, i, k);
    }
  }

  /** A trip of `chat` at `i`, with no success since, less than one cooldown before `now`. */
  ghost predicate CoolingDown(evs: seq<Event>, chat: int, i: nat, now: int) {
    && i < |evs| && Trips(evs, i, chat) && NoSuccess(evs, chat, i + 1, |evs|)
    && now < evs[i].now + COOLDOWN
  }

  /** `now` is no earlier than any failure so far. */
  ghost predicate NoneAfter(evs: seq<Event>, now: int) {
    forall k :: 0 <= k < |evs| && evs[k].Failure? ==> evs[k].now <= now
  }

  /**
  Checks are paused at `now` exactly when the chat tripped less than one cooldown before, with no success
  since.
  */
  lemma PausedExactlyDuringCooldown(evs: seq<Event>, chat: int, now: int)
    requires Monotone(evs) && NoneAfter(evs, now)
    ensures IsPaused(After(evs), chat, now) <==> exists i :: CoolingDown(evs, chat, i, now)
  {
    if IsPaused(After(evs), chat, now) {
      assert evs[..|evs|] == evs;
      var i := PauseComesFromTrip(evs, chat, |evs|);
      assert CoolingDown(evs, chat, i, now);
    } else if i :| CoolingDown(evs, chat, i, now) {
      LaterTripCools(evs, chat, i, now);
    }
  }

  lemma LaterTripCools(evs: seq<Event>, chat: int, i: nat, now: int)
    requires Monotone(evs) && NoneAfter(evs, now) && CoolingDown(evs, chat, i, now)
    ensures IsPaused(After(evs), chat, now)
  {
    var n := |evs|;
    var last := LastTrip(evs, chat, i, n);
    assert evs[i].now <= evs[last].now;
    NoneLate(evs, chat, last + 1, n, evs[last].now + COOLDOWN, now);
    PausedSinceTrip(evs, chat, last, n, now);
    assert evs[..n] == evs;
  }

  lemma TrackedIsPaused(m: Table, chat: int, till: int, now: int)
    requires Tracks(m, chat, till, 0) && now < till
    ensures IsPaused(m, chat, now)
  {
  }

  lemma PausedSinceTrip(evs: seq<Event>, chat: int, i: nat, n: nat, now: int)
    requires Monotone(evs) && i < n <= |evs| && Trips(evs, i, chat) && now < evs[i].now + COOLDOWN
    requires NoSuccess(evs, chat, i + 1, n) && NoTrip(evs, chat, i + 1, n)
    requires FailuresSince(evs, chat, i + 1, n, evs[i].now + COOLDOWN) == 0
    ensures IsPaused(After(evs[..n]), chat, now)
  {
    SinceTripHolds(evs, chat, i, n);
    TrackedIsPaused(After(evs[..n]), chat, evs[i].now + COOLDOWN, now);
  }

  lemma {:induction false} NoneLate(evs: seq<Event>, chat: int, lo: nat, hi: nat, since: int, now: int)
    requires NoneAfter(evs, now) && lo <= hi <= |evs| && now < since
    ensures FailuresSince(evs, chat, lo, hi, since) == 0
    decreases hi
  {
    if lo < hi {
      NoneLate(evs, chat, lo, hi - 1, since, now);
    }
  }
}
