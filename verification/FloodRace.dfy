/**
Every interleaving of updateFloodWithSettings calls and cleaner sweeps over the shared map. A pointer is
an index into `heap`, which only grows: entries are allocated, published and never written again.
*/
module FloodRace {
  import opened Options
  import opened Runs
  import opened Antiflood

  /**
  Where a call is in its retry loop. Armed has run one loop body: it will compare-and-swap against the
  pointer it saw, or LoadOrStore when it saw nothing or only an idle entry.
  */
  datatype Phase = Ready | Armed(seen: Option<nat>, attempt: Attempt) | Done(result: Attempt)

  datatype Thread = Thread(call: Call, phase: Phase)

  datatype State = State(
    heap: seq<FloodControl>,
    table: map<Key, nat>,
    threads: map<nat, Thread>,
    doomed: set<(Key, nat)>,   // (key, pointer) pairs the cleaner found stale and is about to delete
    log: seq<Item>             // the completed calls and the deletions, in the order they took effect
  )

  datatype Event =
    | Begin(call: Call)
    | Load(id: nat)
    | Swap(id: nat)
    | Look(key: Key, now: int)
    | CompareAndDelete(key: Key, pointer: nat)

  const INIT := State([], map[], map[], {}, [])

  function Stored(s: State, k: Key): Option<FloodControl> {
    if k in s.table && s.table[k] < |s.heap| then Some(s.heap[s.table[k]]) else None
  }

  function Arm(s: State, c: Call): Phase {
    var loaded := Stored(s, c.key);
    if loaded.Some? && Live(loaded.value, c.now) then Armed(Some(s.table[c.key]), Update(loaded, c))
    else Armed(None, Update(None, c))
  }

  /** LoadOrStore succeeds on an absent key only; CompareAndSwap only on the very pointer that was loaded. */
  predicate SwapSucceeds(s: State, k: Key, seen: Option<nat>) {
    match seen
    case None => k !in s.table
    case Some(p) => k in s.table && s.table[k] == p
  }

  function Next(s: State, e: Event): Option<State> {
    match e
    case Begin(c) =>
      if c.id in s.threads then None
      else Some(s.(threads := s.threads[c.id := Thread(c, Ready)]))
    case Load(id) =>
      if id !in s.threads || !s.threads[id].phase.Ready? then None
      else Some(s.(threads := s.threads[id := Thread(s.threads[id].call, Arm(s, s.threads[id].call))]))
    case Swap(id) =>
      if id !in s.threads || !s.threads[id].phase.Armed? then None
      else
        var th := s.threads[id];
        if SwapSucceeds(s, th.call.key, th.phase.seen) then
          Some(s.(heap := s.heap + [th.phase.attempt.stored],
                  table := s.table[th.call.key := |s.heap|],
                  threads := s.threads[id := Thread(th.call, Done(th.phase.attempt))],
                  log := s.log + [Hit(th.call)]))
        else Some(s.(threads := s.threads[id := Thread(th.call, Ready)]))
    case Look(k, now) =>
      var found := Stored(s, k);
      if found.Some? && now - found.value.lastActivity > CLEANUP_SECONDS then
        Some(s.(doomed := s.doomed + {(k, s.table[k])}))
      else Some(s)
    case CompareAndDelete(k, p) =>
      if (k, p) !in s.doomed then None
      else
        var s' := s.(doomed := s.doomed - {(k, p)});
        if k in s.table && s.table[k] == p then Some(s'.(table := s.table - {k}, log := s.log + [Drop(k)]))
        else Some(s')
  }

  // ----- What every step keeps -----

  ghost predicate ArmedSoundly(s: State, th: Thread) {
    th.phase.Armed? ==>
      match th.phase.seen
      case None => th.phase.attempt == Update(None, th.call)
      case Some(p) =>
        p < |s.heap| && Live(s.heap[p], th.call.now) && th.phase.attempt == Update(Some(s.heap[p]), th.call)
  }

  /** The n-th log entry is the completion of exactly one call, with the result that call returned. */
  ghost predicate Completion(s: State, n: nat)
    requires n < |s.log|
  {
    s.log[n].Hit? ==>
      var c := s.log[n].call;
      && c.id in s.threads
      && s.threads[c.id] == Thread(c, Done(Update(Replay(s.log[..n], c.key), c)))
  }

  ghost predicate Once(log: seq<Item>) {
    forall i, j :: 0 <= i < j < |log| && log[i].Hit? && log[j].Hit? ==> log[i].call.id != log[j].call.id
  }

  ghost predicate Inv(s: State) {
    && (forall k :: k in s.table ==> s.table[k] < |s.heap|)
    && (forall k :: Stored(s, k) == Replay(s.log, k))
    && Legit(s.log)
    && (forall id :: id in s.threads ==> s.threads[id].call.id == id && ArmedSoundly(s, s.threads[id]))
    && (forall n :: 0 <= n < |s.log| ==> Completion(s, n))
    && (forall id :: id in s.threads && s.threads[id].phase.Done? ==> Hit(s.threads[id].call) in s.log)
    && Once(s.log)
  }

  lemma LegitStep(log: seq<Item>, x: Item)
    requires Legit(log)
    requires x.Hit? && Replay(log, x.call.key).Some? ==> Live(Replay(log, x.call.key).value, x.call.now)
    ensures Legit(log + [x])
  {
    forall i | 0 <= i < |log + [x]| && (log + [x])[i].Hit?
      ensures var before := Replay((log + [x])[..i], (log + [x])[i].call.key);
              before.Some? ==> Live(before.value, (log + [x])[i].call.now)
    {
      assert (log + [x])[..i] == log[..i];
      assert log[..|log|] == log;
    }
  }

  lemma InvBegin(s: State, c: Call)
    requires Inv(s) && c.id !in s.threads
    ensures Inv(Next(s, Begin(c)).value)
  {
    var t := Next(s, Begin(c)).value;
    assert forall k :: Stored(t, k) == Stored(s, k);
    forall n | 0 <= n < |t.log| ensures Completion(t, n) { assert Completion(s, n); }
  }

  lemma InvPhase(s: State, id: nat, phase: Phase)
    requires Inv(s) && id in s.threads && !s.threads[id].phase.Done? && !phase.Done?
    requires ArmedSoundly(s, Thread(s.threads[id].call, phase))
    ensures Inv(s.(threads := s.threads[id := Thread(s.threads[id].call, phase)]))
  {
    var t := s.(threads := s.threads[id := Thread(s.threads[id].call, phase)]);
    assert forall k :: Stored(t, k) == Stored(s, k);
    forall n | 0 <= n < |t.log| ensures Completion(t, n) { assert Completion(s, n); }
  }

  /** Thread `id` holds what it loaded, and nobody has moved the pointer since. */
  ghost predicate Swaps(s: State, id: nat) {
    && Inv(s) && id in s.threads && s.threads[id].phase.Armed?
    && SwapSucceeds(s, s.threads[id].call.key, s.threads[id].phase.seen)
  }

  lemma SwapStores(s: State, id: nat)
    requires Swaps(s, id)
    ensures var t := Next(s, Swap(id)).value; var th := s.threads[id];
            && th.phase.attempt == Update(Replay(s.log, th.call.key), th.call)
            && Legit(t.log) && (forall k :: Stored(t, k) == Replay(t.log, k))
  {
    var t := Next(s, Swap(id)).value;
    var c := s.threads[id].call;
    assert ArmedSoundly(s, s.threads[id]);
    assert Stored(s, c.key) == Replay(s.log, c.key);
    LegitStep(s.log, Hit(c));
    forall k ensures Stored(t, k) == Replay(t.log, k) {
      assert Stored(s, k) == Replay(s.log, k);
      ReplayStep(s.log, Hit(c), k);
    }
  }

  lemma SwapCompletes(s: State, id: nat)
    requires Swaps(s, id)
    ensures var t := Next(s, Swap(id)).value;
            (forall n :: 0 <= n < |t.log| ==> Completion(t, n)) && Once(t.log)
  {
    var t := Next(s, Swap(id)).value;
    SwapStores(s, id);
    forall n | 0 <= n < |t.log| ensures Completion(t, n) {
      if n < |s.log| {
        assert Completion(s, n);
        assert t.log[..n] == s.log[..n];
      } else {
        assert t.log[..n] == s.log;
      }
    }
    forall i | 0 <= i < |s.log| && s.log[i].Hit? ensures s.log[i].call.id != id {
      assert Completion(s, i);
    }
  }

  lemma InvSwap(s: State, id: nat)
    requires Swaps(s, id)
    ensures Inv(Next(s, Swap(id)).value)
  {
    var t := Next(s, Swap(id)).value;
    SwapStores(s, id);
    SwapCompletes(s, id);
    forall x | x in t.threads ensures ArmedSoundly(t, t.threads[x]) {
      if x != id { assert ArmedSoundly(s, s.threads[x]); }
    }
    forall x | x in t.threads && t.threads[x].phase.Done? ensures Hit(t.threads[x].call) in t.log {
      assert t.log[|s.log|] == Hit(s.threads[id].call);
    }
  }

  lemma InvDelete(s: State, k: Key, p: nat)
    requires Inv(s) && (k, p) in s.doomed
    ensures Inv(Next(s, CompareAndDelete(k, p)).value)
  {
    var t := Next(s, CompareAndDelete(k, p)).value;
    if k in s.table && s.table[k] == p {
      LegitStep(s.log, Drop(k));
      forall j ensures Stored(t, j) == Replay(t.log, j) {
        assert Stored(s, j) == Replay(s.log, j);
        ReplayStep(s.log, Drop(k), j);
      }
      forall n | 0 <= n < |t.log| ensures Completion(t, n) {
        if n < |s.log| {
          assert Completion(s, n);
          assert t.log[..n] == s.log[..n];
        }
      }
    } else {
      assert forall j :: Stored(t, j) == Stored(s, j);
      forall n | 0 <= n < |t.log| ensures Completion(t, n) { assert Completion(s, n); }
    }
    forall x | x in t.threads ensures ArmedSoundly(t, t.threads[x]) {
      assert ArmedSoundly(s, s.threads[x]);
    }
  }

  lemma InvStep(s: State, e: Event)
    requires Inv(s) && Next(s, e).Some?
    ensures Inv(Next(s, e).value)
  {
    match e {
      case Begin(c) => InvBegin(s, c);
      case Load(id) =>
        assert ArmedSoundly(s, s.threads[id]);
        InvPhase(s, id, Arm(s, s.threads[id].call));
      case Swap(id) =>
        if SwapSucceeds(s, s.threads[id].call.key, s.threads[id].phase.seen) { InvSwap(s, id); }
        else { InvPhase(s, id, Ready); }
      case Look(k, now) =>
        var t := Next(s, e).value;
        assert forall j :: Stored(t, j) == Stored(s, j);
        forall n | 0 <= n < |t.log| ensures Completion(t, n) { assert Completion(s, n); }
        forall x | x in t.threads ensures ArmedSoundly(t, t.threads[x]) { assert ArmedSoundly(s, s.threads[x]); }
      case CompareAndDelete(k, p) => InvDelete(s, k, p);
    }
  }

  lemma InvAlways(s: State, es: seq<Event>, t: State)
    requires Inv(s) && Reaches(Next, s, es, t)
    ensures Inv(t)
  {
    forall x, e | Inv(x) && Next(x, e).Some? ensures Inv(Next(x, e).value) {
      InvStep(x, e);
    }
    Preservation(Next, x => Inv(x), s, es, t);
  }

  // ----- Main results -----

  /**
  Linearizability: in every interleaving the completed calls behave exactly as if they had run one after
  the other in the order of `t.log`, each once, and the map holds what that sequential run stores.
  */
  lemma CompletedCallsAreSequential(es: seq<Event>, t: State)
    requires Reaches(Next, INIT, es, t)
    ensures Legit(t.log) && Once(t.log)
    ensures forall k :: Stored(t, k) == Replay(t.log, k)
    ensures forall n :: 0 <= n < |t.log| ==> Completion(t, n)
    ensures forall id :: id in t.threads && t.threads[id].phase.Done? ==> Hit(t.threads[id].call) in t.log
  {
    InvAlways(INIT, es, t);
  }

  lemma {:induction false} HitsOfMembers(log: seq<Item>, k: Key, c: Call)
    requires Once(log)
    ensures multiset(HitsOf(log, k))[c] == if Hit(c) in log && c.key == k then 1 else 0
  {
    if log != [] {
      var n := |log| - 1;
      HitsOfMembers(log[..n], k, c);
      assert log == log[..n] + [log[n]];
      assert Once(log[..n]);
    }
  }

  /**
  Conservation: the message of every completed call is in exactly one place, once: a burst handed to a
  punishing caller, a burst dropped by the cleaner, or the open burst; and that open burst is what the
  map's entry counts. Calls that have not completed are in none of them.
  */
  lemma EachMessageAccountedOnce(es: seq<Event>, t: State, id: nat)
    requires Reaches(Next, INIT, es, t) && id in t.threads
    ensures var c := t.threads[id].call; var ledger := Bursts(t.log, c.key);
            && multiset(Flat(ledger.closed) + ledger.open)[c] == (if t.threads[id].phase.Done? then 1 else 0)
            && Summarises(Stored(t, c.key), ledger.open, c.key)
  {
    InvAlways(INIT, es, t);
    var c := t.threads[id].call;
    BurstsPartitionHits(t.log, c.key);
    HitsOfMembers(t.log, c.key, c);
    EntrySummarisesOpenBurst(t.log, c.key);
    assert Stored(t, c.key) == Replay(t.log, c.key);
    if Hit(c) in t.log {
      var n :| 0 <= n < |t.log| && t.log[n] == Hit(c);
      assert Completion(t, n);
    }
  }

  /** A caller told to punish holds exactly the burst that its own message closed. */
  lemma PunisherHoldsItsBurst(es: seq<Event>, t: State, n: nat)
    requires Reaches(Next, INIT, es, t) && n < |t.log| && t.log[n].Hit?
    ensures var c := t.log[n].call;
            && c.id in t.threads && t.threads[c.id].phase.Done?
            && Reports(t.threads[c.id].phase.result, Bursts(t.log[..n], c.key).open, c)
  {
    InvAlways(INIT, es, t);
    assert Completion(t, n);
    CallReportsBurst(t.log, n);
  }

  /** In every interleaving without idle drops, with a fixed limit L: every (L+1)-th completed call punishes. */
  lemma ConcurrentCallsPunishEveryLimitPlusOne(es: seq<Event>, t: State, n: nat, limit: nat)
    requires Reaches(Next, INIT, es, t) && n < |t.log| && t.log[n].Hit?
    requires FixedLimit(t.log, t.log[n].call.key, limit) && limit >= 1
    ensures var c := t.log[n].call;
            && c.id in t.threads && t.threads[c.id].phase.Done?
            && EveryLimitPlusOne(t.threads[c.id].phase.result, HitsOf(t.log[..n + 1], c.key), limit)
  {
    InvAlways(INIT, es, t);
    assert Completion(t, n);
    PunishesEveryLimitPlusOne(t.log, n, limit);
  }

  /** A published entry keeps its contents for ever. */
  lemma {:induction false} PublishedEntriesNeverChange(s: State, es: seq<Event>, t: State)
    requires Reaches(Next, s, es, t)
    ensures s.heap <= t.heap
    decreases |es|
  {
    if es != [] {
      PublishedEntriesNeverChange(Next(s, es[0]).value, es[1..], t);
    }
  }

  // ----- Progress -----

  /**
  One pass of the retry loop with nobody interfering completes exactly when the key is absent or its
  entry is at most 60 s old; on an older entry it changes nothing and the loop goes round again.
  */
  lemma UninterferedPassCompletesIff(es: seq<Event>, s: State, id: nat)
    requires Reaches(Next, INIT, es, s) && id in s.threads && s.threads[id].phase.Ready?
    ensures Next(s, Load(id)).Some? && Next(Next(s, Load(id)).value, Swap(id)).Some?
    ensures var c := s.threads[id].call;
            var t := Next(Next(s, Load(id)).value, Swap(id)).value;
            var clear := Stored(s, c.key).None? || Live(Stored(s, c.key).value, c.now);
            && (t.threads[id].phase.Done? <==> clear)
            && (!clear ==> t == s)
  {
    InvAlways(INIT, es, s);
    var c := s.threads[id].call;
    var armed := Next(s, Load(id)).value;
    var t := Next(armed, Swap(id)).value;
    if Stored(s, c.key).Some? && !Live(Stored(s, c.key).value, c.now) {
      assert t.threads == s.threads;
    }
  }

  function Pointer(s: State, k: Key): Option<nat> {
    if k in s.table then Some(s.table[k]) else None
  }

  predicate Touches(x: Item, k: Key) {
    match x
    case Hit(c) => c.key == k
    case Drop(key) => key == k
  }

  /** Between the two states a call on the key completed or a sweep deleted its entry. */
  ghost predicate Touched(s: State, t: State, k: Key) {
    exists n :: |s.log| <= n < |t.log| && Touches(t.log[n], k)
  }

  /** The pointer of a key changes exactly when the log records it, and no pointer ever returns. */
  lemma {:induction false} PointerMovesWhenTouched(s: State, es: seq<Event>, t: State, k: Key)
    requires Reaches(Next, s, es, t)
    ensures s.log <= t.log && |s.heap| <= |t.heap|
    ensures Touched(s, t, k) ==> Pointer(t, k).None? || Pointer(t, k).value >= |s.heap|
    ensures !Touched(s, t, k) ==> Pointer(t, k) == Pointer(s, k)
    decreases |es|
  {
    if es != [] {
      var u := Next(s, es[0]).value;
      PointerMovesWhenTouched(u, es[1..], t, k);
      if Touched(u, t, k) {
        var n :| |u.log| <= n < |t.log| && Touches(t.log[n], k);
        assert Touched(s, t, k);
      } else if u.log != s.log && Touches(u.log[|s.log|], k) {
        assert t.log[|s.log|] == u.log[|s.log|];
        assert Touched(s, t, k);
      } else {
        assert Pointer(u, k) == Pointer(s, k);
        forall n | |s.log| <= n < |t.log| ensures !Touches(t.log[n], k) {
          assert n < |u.log| ==> t.log[n] == u.log[|s.log|];
        }
      }
    }
  }

  /**
  Why a pass that loaded no entry or a live one goes round again: since its load another call on the key
  completed or a sweep deleted the entry. A pass that loaded an entry also fails whenever this happened.
  */
  lemma InterferenceIsProgress(before: seq<Event>, s: State, id: nat, es: seq<Event>, t: State)
    requires Reaches(Next, INIT, before, s) && id in s.threads && s.threads[id].phase.Ready?
    requires var stored := Stored(s, s.threads[id].call.key);
             stored.None? || Live(stored.value, s.threads[id].call.now)
    requires var armed := Next(s, Load(id)).value;
             Reaches(Next, armed, es, t) && id in t.threads && t.threads[id] == armed.threads[id]
    ensures Next(t, Swap(id)).Some?
    ensures var k := s.threads[id].call.key; var done := Next(t, Swap(id)).value.threads[id].phase.Done?;
            && (!done ==> Touched(s, t, k) && Next(t, Swap(id)).value.threads[id].phase.Ready?)
            && (Touched(s, t, k) && Stored(s, k).Some? ==> !done)
    ensures forall n :: |s.log| <= n < |t.log| && t.log[n].Hit? ==> t.log[n].call.id != id
  {
    var k := s.threads[id].call.key;
    var armed := Next(s, Load(id)).value;
    InvAlways(INIT, before, s);
    InvStep(s, Load(id));
    InvAlways(armed, es, t);
    PointerMovesWhenTouched(armed, es, t, k);
    assert Touched(s, t, k) <==> Touched(armed, t, k);
    forall n | |s.log| <= n < |t.log| && t.log[n].Hit? ensures t.log[n].call.id != id {
      assert Completion(t, n);
    }
  }

  /**
  In every interleaving the entry of a key, if its last call has not been swept away, is as old as that call.
  So an uninterfered pass completes if and only if there is no entry or at most a minute has passed since.
  */
  lemma CallsWithinAMinuteComplete(es: seq<Event>, s: State, id: nat)
    requires Reaches(Next, INIT, es, s) && id in s.threads && s.threads[id].phase.Ready?
    ensures var k := s.threads[id].call.key; var calls := HitsOf(s.log, k);
            && (Stored(s, k).Some? <==> LastOn(s.log, k).Some? && LastOn(s.log, k).value.Hit?)
            && (Stored(s, k).Some? ==>
                  && calls != [] && LastOn(s.log, k) == Some(Hit(calls[|calls| - 1]))
                  && Stored(s, k).value.lastActivity == calls[|calls| - 1].now)
            && (Next(Next(s, Load(id)).value, Swap(id)).value.threads[id].phase.Done? <==>
                  Stored(s, k).None? || s.threads[id].call.now - calls[|calls| - 1].now <= 60)
  {
    var k := s.threads[id].call.key;
    InvAlways(INIT, es, s);
    assert Stored(s, k) == Replay(s.log, k);
    EntryIsAsOldAsLastCall(s.log, k);
    UninterferedPassCompletesIff(es, s, id);
  }

  /** Left alone, a sweep deletes the entry of a key if and only if its last call is over ten minutes old. */
  lemma SweepDropsExactlyStaleEntries(es: seq<Event>, s: State, k: Key, now: int)
    requires Reaches(Next, INIT, es, s) && k in s.table && (k, s.table[k]) !in s.doomed
    ensures var calls := HitsOf(s.log, k); var looked := Next(s, Look(k, now)).value;
            && calls != []
            && ((k, s.table[k]) in looked.doomed <==> now - calls[|calls| - 1].now > 600)
            && ((k, s.table[k]) in looked.doomed ==>
                  var swept := Next(looked, CompareAndDelete(k, s.table[k])).value;
                  swept.table == s.table - {k} && swept.log == s.log + [Drop(k)])
            && ((k, s.table[k]) !in looked.doomed ==> looked == s)
  {
    InvAlways(INIT, es, s);
    assert Stored(s, k) == Replay(s.log, k);
    EntryIsAsOldAsLastCall(s.log, k);
  }

  /** The key's entry is idle for every unfinished call on it, and the cleaner has not condemned it. */
  ghost predicate Stuck(s: State, k: Key, p: nat, finished: set<nat>) {
    && k in s.table && s.table[k] == p && p < |s.heap|
    && (k, p) !in s.doomed
    && forall id :: id in s.threads && id !in finished && s.threads[id].call.key == k ==>
         && !s.threads[id].phase.Done?
         && (s.threads[id].phase.Armed? ==> s.threads[id].phase.seen.None?)
         && !Live(s.heap[p], s.threads[id].call.now)
  }

  /** Calls that begin find the entry idle, and sweeps find it younger than the cleaner's 600 s. */
  ghost predicate KeepsIdle(entry: FloodControl, k: Key, e: Event) {
    && (e.Begin? && e.call.key == k ==> !Live(entry, e.call.now))
    && (e.Look? && e.key == k ==> e.now - entry.lastActivity <= CLEANUP_SECONDS)
  }

  lemma StuckStep(s: State, k: Key, p: nat, finished: set<nat>, e: Event)
    requires Stuck(s, k, p, finished) && Next(s, e).Some? && KeepsIdle(s.heap[p], k, e)
    requires forall id :: id in finished ==> id in s.threads && s.threads[id].phase.Done?
    ensures Stuck(Next(s, e).value, k, p, finished)
    ensures forall id :: id in finished ==> Next(s, e).value.threads[id].phase.Done?
    ensures Next(s, e).value.heap[p] == s.heap[p]
  {
  }

  /**
  The busy wait: once an entry is older than 60 s for every call on its key, then as long as no sweep
  finds it older than 600 s, no such call completes and the entry stays, however the loop is scheduled.
  */
  lemma {:induction false} IdleEntryBlocksEveryCall(
    s: State, es: seq<Event>, t: State, k: Key, p: nat, finished: set<nat>
  )
    requires Stuck(s, k, p, finished) && Reaches(Next, s, es, t)
    requires forall id :: id in finished ==> id in s.threads && s.threads[id].phase.Done?
    requires forall i :: 0 <= i < |es| ==> KeepsIdle(s.heap[p], k, es[i])
    ensures k in t.table && t.table[k] == p
    ensures forall id :: id in t.threads && t.threads[id].call.key == k && t.threads[id].phase.Done? ==> id in finished
    decreases |es|
  {
    if es != [] {
      assert KeepsIdle(s.heap[p], k, es[0]);
      StuckStep(s, k, p, finished, es[0]);
      forall i | 0 <= i < |es[1..]| ensures KeepsIdle(s.heap[p], k, es[1..][i]) {
        assert es[1..][i] == es[i + 1];
      }
      IdleEntryBlocksEveryCall(Next(s, es[0]).value, es[1..], t, k, p, finished);
    }
  }

  /** The busy wait does occur: a second message 61 s after the first one finds the entry stuck. */
  lemma BusyWaitIsReachable(k: Key)
    requires k.userId != 0
    ensures exists es, t :: Reaches(Next, INIT, es, t)
              && Stuck(t, k, 0, {1}) && 2 in t.threads && t.threads[2].phase.Ready?
  {
    var first: Call := Call(1, k, 100, 5, 0);
    var second: Call := Call(2, k, 101, 5, 61);
    var s1 := Next(INIT, Begin(first)).value;
    var s2 := Next(s1, Load(1)).value;
    var s3 := Next(s2, Swap(1)).value;
    var s4 := Next(s3, Begin(second)).value;
    assert Reaches(Next, s4, [], s4);
    assert Reaches(Next, s3, [Begin(second)] + [], s4);
    assert Reaches(Next, s2, [Swap(1)] + [Begin(second)], s4);
    assert Reaches(Next, s1, [Load(1)] + ([Swap(1)] + [Begin(second)]), s4);
    assert Reaches(Next, INIT, [Begin(first)] + ([Load(1)] + ([Swap(1)] + [Begin(second)])), s4);
  }
}
