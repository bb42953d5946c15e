/**
The flood counter of one (chat, user) pair: what one completed call does to the stored burst, and what
a sequence of completed calls amounts to. Go's `*floodControl` values are immutable once published, so
they are values here; `FloodSlices.dfy` builds them over real arrays.
*/
module Antiflood {
  import opened Options

  const IDLE_SECONDS: int := 60
  const CLEANUP_SECONDS: int := 600
  const EXTRA_IDS: nat := 5

  datatype Key = Key(chatId: int, userId: int)

  datatype FloodControl = FloodControl(userId: int, messageCount: nat, messageIDs: seq<int>, lastActivity: int)

  /** One call of updateFloodWithSettings, with the settings' limit and the clock it read on entry. */
  datatype RawCall = Call(id: nat, key: Key, msgId: int, limit: nat, now: int)

  /** User ids are never 0, and a limit of 0 means that flood control is off. */
  type Call = c: RawCall | c.key.userId != 0 && c.limit >= 1 witness Call(0, Key(0, 1), 0, 1, 0)

  /** What one pass through the retry loop prepares: the burst for the caller, and the entry to publish. */
  datatype Attempt = Attempt(punish: bool, burst: FloodControl, stored: FloodControl)

  predicate Live(entry: FloodControl, now: int) {
    now - entry.lastActivity <= IDLE_SECONDS
  }

  function LastIDs(ids: seq<int>, n: nat): seq<int> {
    if |ids| > n then ids[|ids| - n..] else ids
  }

  /** The loop body between the load and the swap. */
  function Update(loaded: Option<FloodControl>, c: Call): Attempt {
    var blank := FloodControl(c.key.userId, 0, [], 0);
    var cur :=
      if loaded.Some? && Live(loaded.value, c.now) && loaded.value.userId != 0 then loaded.value else blank;
    var burst := FloodControl(cur.userId, cur.messageCount + 1,
                              LastIDs(cur.messageIDs + [c.msgId], c.limit + EXTRA_IDS), c.now);
    if burst.messageCount > c.limit then
      Attempt(true, burst, FloodControl(0, 0, [], c.now))
    else
      Attempt(false, burst, burst)
  }

  // ----- Completed calls in the order in which they took effect -----

  datatype Item = Hit(call: Call) | Drop(key: Key)

  /** The entry stored for `k` once the items of `log` have taken effect one after the other. */
  function Replay(log: seq<Item>, k: Key): Option<FloodControl> {
    if log == [] then None
    else
      var before := Replay(log[..|log| - 1], k);
      match log[|log| - 1]
      case Hit(c) => if c.key == k then Some(Update(before, c).stored) else before
      case Drop(d) => if d == k then None else before
  }

  lemma ReplayStep(log: seq<Item>, x: Item, k: Key)
    ensures Replay(log + [x], k) ==
            if x.Hit? && x.call.key == k then Some(Update(Replay(log, k), x.call).stored)
            else if x == Drop(k) then None
            else Replay(log, k)
  {
    assert (log + [x])[..|log|] == log;
  }

  /** A call only ever completes on an absent key or on an entry that is not idle. */
  ghost predicate Legit(log: seq<Item>) {
    forall i :: 0 <= i < |log| && log[i].Hit? ==>
      var before := Replay(log[..i], log[i].call.key);
      before.Some? ==> Live(before.value, log[i].call.now)
  }

  lemma LegitPrefix(log: seq<Item>, n: nat)
    requires Legit(log) && n <= |log|
    ensures Legit(log[..n])
  {
    forall i | 0 <= i < n && log[i].Hit?
      ensures var before := Replay(log[..n][..i], log[i].call.key);
              before.Some? ==> Live(before.value, log[i].call.now)
    {
      assert log[..n][..i] == log[..i];
    }
  }

  // ----- The ledger: bursts by plain counting, with no counter, reset or sentinel -----

  datatype Burst = Handed(calls: seq<Call>) | Dropped(calls: seq<Call>)

  /** Every burst that has ended, in order, and the calls of the burst still open. */
  datatype Ledger = Ledger(closed: seq<Burst>, open: seq<Call>)

  function Bursts(log: seq<Item>, k: Key): Ledger {
    if log == [] then Ledger([], [])
    else
      var before := Bursts(log[..|log| - 1], k);
      match log[|log| - 1]
      case Hit(c) =>
        if c.key != k then before
        else if |before.open| + 1 > c.limit then Ledger(before.closed + [Handed(before.open + [c])], [])
        else Ledger(before.closed, before.open + [c])
      case Drop(d) =>
        if d == k then Ledger(before.closed + [Dropped(before.open)], []) else before
  }

  function Flat(bursts: seq<Burst>): seq<Call> {
    if bursts == [] then [] else Flat(bursts[..|bursts| - 1]) + bursts[|bursts| - 1].calls
  }

  function HitsOf(log: seq<Item>, k: Key): seq<Call> {
    if log == [] then []
    else
      var before := HitsOf(log[..|log| - 1], k);
      match log[|log| - 1]
      case Hit(c) => if c.key == k then before + [c] else before
      case Drop(_) => before
  }

  /** No completed call is lost, counted twice or moved: the bursts laid end to end are the calls. */
  lemma {:induction false} BurstsPartitionHits(log: seq<Item>, k: Key)
    ensures Flat(Bursts(log, k).closed) + Bursts(log, k).open == HitsOf(log, k)
  {
    if log != [] {
      var rest := log[..|log| - 1];
      var before := Bursts(rest, k);
      BurstsPartitionHits(rest, k);
      var after := Bursts(log, k);
      if after.closed != before.closed {
        assert after.closed[..|after.closed| - 1] == before.closed;
      }
    }
  }

  function IDs(calls: seq<Call>): seq<int> {
    seq(|calls|, i requires 0 <= i < |calls| => calls[i].msgId)
  }

  ghost predicate Suffix(s: seq<int>, t: seq<int>) {
    |s| <= |t| && s == t[|t| - |s|..]
  }

  lemma SuffixExtends(s: seq<int>, t: seq<int>, x: int, n: nat)
    requires Suffix(s, t) && n >= 1
    ensures Suffix(LastIDs(s + [x], n), t + [x])
    ensures 1 <= |LastIDs(s + [x], n)| <= n
  {
  }

  /** How many ids the limits of a burst leave room for: one more with each call, up to that call's limit + 5. */
  function Room(burst: seq<Call>): nat {
    if burst == [] then 0
    else
      var before, last := Room(burst[..|burst| - 1]), burst[|burst| - 1];
      if before + 1 > last.limit + EXTRA_IDS then last.limit + EXTRA_IDS else before + 1
  }

  lemma RoomStep(open: seq<Call>, c: Call)
    ensures Room(open + [c]) == if Room(open) + 1 > c.limit + EXTRA_IDS then c.limit + EXTRA_IDS else Room(open) + 1
  {
    assert (open + [c])[..|open|] == open;
  }

  /** No call of the burst had so low a limit that `n` ids would be too many by now. */
  ghost predicate Fits(burst: seq<Call>, n: nat) {
    n <= |burst| && forall i :: 0 <= i < |burst| ==> n <= burst[i].limit + EXTRA_IDS + (|burst| - 1 - i)
  }

  lemma FitsStep(open: seq<Call>, c: Call, n: nat)
    ensures Fits(open + [c], n) <==> n == 0 || (Fits(open, n - 1) && n <= c.limit + EXTRA_IDS)
  {
    var more := open + [c];
    assert more[|open|] == c;
    if n > 0 && Fits(more, n) {
      forall i | 0 <= i < |open| ensures n - 1 <= open[i].limit + EXTRA_IDS + (|open| - 1 - i) {
        assert more[i] == open[i];
      }
    }
  }

  /** The room is the largest number that fits. */
  lemma {:induction false} RoomIsWhatFits(burst: seq<Call>, n: nat)
    ensures Fits(burst, n) <==> n <= Room(burst)
  {
    if burst != [] && n > 0 {
      var rest, c := burst[..|burst| - 1], burst[|burst| - 1];
      assert burst == rest + [c];
      RoomIsWhatFits(rest, n - 1);
      FitsStep(rest, c, n);
      RoomStep(rest, c);
    }
  }

  /** The ids are the longest suffix of the burst that its limits leave room for. */
  ghost predicate KeepsAllThatFits(ids: seq<int>, burst: seq<Call>) {
    Suffix(ids, IDs(burst)) && |ids| == Room(burst)
  }

  /** The stored entry is a faithful summary of the open burst. */
  ghost predicate Summarises(entry: Option<FloodControl>, open: seq<Call>, k: Key) {
    if open == [] then
      entry.Some? ==> entry.value.userId == 0 && entry.value.messageCount == 0 && entry.value.messageIDs == []
    else
      && entry.Some?
      && entry.value.userId == k.userId
      && entry.value.messageCount == |open|
      && KeepsAllThatFits(entry.value.messageIDs, open)
      && entry.value.lastActivity == open[|open| - 1].now
  }

  /** What a completed call reports, in terms of the ledger before it. */
  ghost predicate Reports(a: Attempt, open: seq<Call>, c: Call) {
    && (a.punish <==> |open| + 1 > c.limit)
    && a.burst.userId == c.key.userId && a.burst.messageCount == |open| + 1 && a.burst.lastActivity == c.now
    && a.burst.messageIDs != []
    && |a.burst.messageIDs| <= c.limit + EXTRA_IDS
    && KeepsAllThatFits(a.burst.messageIDs, open + [c])
  }

  function TrackedIDs(entry: Option<FloodControl>, open: seq<Call>): seq<int> {
    if open == [] || entry.None? then [] else entry.value.messageIDs
  }

  lemma BurstContinues(entry: Option<FloodControl>, open: seq<Call>, c: Call)
    requires Summarises(entry, open, c.key)
    requires entry.Some? ==> Live(entry.value, c.now)
    ensures Update(entry, c).burst ==
            FloodControl(c.key.userId, |open| + 1,
                         LastIDs(TrackedIDs(entry, open) + [c.msgId], c.limit + EXTRA_IDS), c.now)
  {
  }

  lemma TrackedFits(ids: seq<int>, open: seq<Call>, c: Call)
    requires KeepsAllThatFits(ids, open)
    ensures var more := LastIDs(ids + [c.msgId], c.limit + EXTRA_IDS);
            KeepsAllThatFits(more, open + [c]) && 1 <= |more| <= c.limit + EXTRA_IDS
  {
    assert IDs(open + [c]) == IDs(open) + [c.msgId];
    SuffixExtends(ids, IDs(open), c.msgId, c.limit + EXTRA_IDS);
    RoomStep(open, c);
  }

  lemma NothingTracked()
    ensures KeepsAllThatFits([], [])
  {
    assert IDs([]) == [];
  }

  lemma UpdateReports(entry: Option<FloodControl>, open: seq<Call>, c: Call)
    requires Summarises(entry, open, c.key)
    requires entry.Some? ==> Live(entry.value, c.now)
    ensures Reports(Update(entry, c), open, c)
    ensures Update(entry, c).stored.lastActivity == c.now
    ensures Summarises(Some(Update(entry, c).stored), if Update(entry, c).punish then [] else open + [c], c.key)
  {
    var ids := LastIDs(TrackedIDs(entry, open) + [c.msgId], c.limit + EXTRA_IDS);
    assert Update(entry, c).burst == FloodControl(c.key.userId, |open| + 1, ids, c.now) by {
      BurstContinues(entry, open, c);
    }
    assert KeepsAllThatFits(ids, open + [c]) && 1 <= |ids| <= c.limit + EXTRA_IDS by {
      NothingTracked();
      TrackedFits(TrackedIDs(entry, open), open, c);
    }
    SumsUp(ids, open, c);
  }

  lemma SumsUp(ids: seq<int>, open: seq<Call>, c: Call)
    requires KeepsAllThatFits(ids, open + [c])
    ensures Summarises(Some(FloodControl(c.key.userId, |open| + 1, ids, c.now)), open + [c], c.key)
  {
    assert (open + [c])[|open + [c]| - 1] == c;
  }

  lemma BurstsStep(log: seq<Item>, x: Item, k: Key)
    ensures Bursts(log + [x], k).open ==
            if x.Hit? && x.call.key == k then
              if |Bursts(log, k).open| + 1 > x.call.limit then [] else Bursts(log, k).open + [x.call]
            else if x == Drop(k) then []
            else Bursts(log, k).open
  {
    assert (log + [x])[..|log|] == log;
  }

  /** One item more, whatever entry and open burst it meets. */
  lemma SummarisesStep(entry: Option<FloodControl>, open: seq<Call>, x: Item, k: Key)
    requires Summarises(entry, open, k)
    requires x.Hit? && x.call.key == k && entry.Some? ==> Live(entry.value, x.call.now)
    ensures x.Hit? && x.call.key == k ==>
              Summarises(Some(Update(entry, x.call).stored),
                         if |open| + 1 > x.call.limit then [] else open + [x.call], k)
    ensures x == Drop(k) ==> Summarises(None, [], k)
  {
    if x.Hit? && x.call.key == k {
      UpdateReports(entry, open, x.call);
    }
  }

  lemma LegitLast(log: seq<Item>, x: Item)
    requires Legit(log + [x]) && x.Hit? && Replay(log, x.call.key).Some?
    ensures Live(Replay(log, x.call.key).value, x.call.now)
  {
    assert (log + [x])[..|log|] == log && (log + [x])[|log|] == x;
  }

  lemma SummarisesAppend(log: seq<Item>, x: Item, k: Key)
    requires Legit(log + [x]) && Summarises(Replay(log, k), Bursts(log, k).open, k)
    ensures Summarises(Replay(log + [x], k), Bursts(log + [x], k).open, k)
  {
    if x.Hit? && x.call.key == k && Replay(log, k).Some? {
      LegitLast(log, x);
    }
    ReplayStep(log, x, k);
    BurstsStep(log, x, k);
    SummarisesStep(Replay(log, k), Bursts(log, k).open, x, k);
  }

  /** The counter, the reset after a punishment and the userId sentinel together count the open burst. */
  lemma {:induction false} EntrySummarisesOpenBurst(log: seq<Item>, k: Key)
    requires Legit(log)
    ensures Summarises(Replay(log, k), Bursts(log, k).open, k)
  {
    if log != [] {
      var rest, x := log[..|log| - 1], log[|log| - 1];
      LegitPrefix(log, |log| - 1);
      EntrySummarisesOpenBurst(rest, k);
      assert log == rest + [x];
      SummarisesAppend(rest, x, k);
    }
  }

  /** The last item that concerns the key. */
  function LastOn(log: seq<Item>, k: Key): Option<Item> {
    if log == [] then None
    else
      var x := log[|log| - 1];
      if (x.Hit? && x.call.key == k) || x == Drop(k) then Some(x) else LastOn(log[..|log| - 1], k)
  }

  /**
  An entry is stored exactly if the last thing that happened to its key was a call, punished or not, and it is
  as old as that call.
  */
  lemma {:induction false} EntryIsAsOldAsLastCall(log: seq<Item>, k: Key)
    ensures Replay(log, k).Some? <==> LastOn(log, k).Some? && LastOn(log, k).value.Hit?
    ensures Replay(log, k).Some? ==>
              var calls := HitsOf(log, k);
              && calls != [] && LastOn(log, k) == Some(Hit(calls[|calls| - 1]))
              && Replay(log, k).value.lastActivity == calls[|calls| - 1].now
  {
    if log != [] {
      EntryIsAsOldAsLastCall(log[..|log| - 1], k);
    }
  }

  /** The n-th item, if a call, punishes exactly when its burst outgrows the limit, and hands over that burst. */
  lemma CallReportsBurst(log: seq<Item>, n: nat)
    requires Legit(log) && n < |log| && log[n].Hit?
    ensures Reports(Update(Replay(log[..n], log[n].call.key), log[n].call),
                    Bursts(log[..n], log[n].call.key).open, log[n].call)
  {
    LegitPrefix(log, n);
    EntrySummarisesOpenBurst(log[..n], log[n].call.key);
    UpdateReports(Replay(log[..n], log[n].call.key), Bursts(log[..n], log[n].call.key).open, log[n].call);
  }

  // ----- A fixed limit -----

  ghost predicate FixedLimit(log: seq<Item>, k: Key, limit: nat) {
    forall i :: 0 <= i < |log| ==>
      && (log[i].Hit? && log[i].call.key == k ==> log[i].call.limit == limit)
      && log[i] != Drop(k)
  }

  /** Counts calls from 0 to `limit` over and over: the length of the open burst after n calls. */
  function Cycle(n: nat, limit: nat): nat {
    if n == 0 then 0
    else if Cycle(n - 1, limit) == limit then 0
    else Cycle(n - 1, limit) + 1
  }

  lemma {:induction false} CycleIsResidue(n: nat, limit: nat)
    requires limit >= 1
    ensures Cycle(n, limit) == n % (limit + 1)
  {
    if n > 0 {
      CycleIsResidue(n - 1, limit);
      NextResidue(n - 1, limit + 1);
    }
  }

  lemma {:induction false} OpenBurstLength(log: seq<Item>, k: Key, limit: nat)
    requires FixedLimit(log, k, limit) && limit >= 1
    ensures |Bursts(log, k).open| == Cycle(|HitsOf(log, k)|, limit) <= limit
  {
    if log != [] {
      OpenBurstLength(log[..|log| - 1], k, limit);
    }
  }

  /** Below the fixed limit nothing is trimmed: the entry tracks the whole open burst. */
  lemma {:induction false} TracksWholeBurst(log: seq<Item>, k: Key, limit: nat)
    requires Legit(log) && FixedLimit(log, k, limit) && limit >= 1
    ensures Summarises(Replay(log, k), Bursts(log, k).open, k)
    ensures var open := Bursts(log, k).open;
            open != [] ==> |open| <= limit && Replay(log, k).value.messageIDs == IDs(open)
  {
    EntrySummarisesOpenBurst(log, k);
    OpenBurstLength(log, k, limit);
    if log != [] {
      var n := |log| - 1;
      LegitPrefix(log, n);
      TracksWholeBurst(log[..n], k, limit);
      if log[n].Hit? && log[n].call.key == k {
        TracksOneMore(Replay(log[..n], k), Bursts(log[..n], k).open, log[n].call);
      }
    }
  }

  lemma TracksOneMore(entry: Option<FloodControl>, open: seq<Call>, c: Call)
    requires Summarises(entry, open, c.key)
    requires entry.Some? ==> Live(entry.value, c.now)
    requires |open| <= c.limit && (open != [] ==> entry.value.messageIDs == IDs(open))
    ensures Update(entry, c).burst.messageIDs == IDs(open + [c])
  {
    assert IDs(open + [c]) == IDs(open) + [c.msgId];
    if open == [] {
      assert IDs(open) == [];
    }
  }

  lemma NextResidue(n: nat, m: nat)
    requires m >= 2
    ensures (n + 1) % m == if n % m == m - 1 then 0 else n % m + 1
  {
    var q, r := n / m, n % m;
    assert n == q * m + r;
    if r == m - 1 {
      assert n + 1 == (q + 1) * m;
      MultipleResidue(q + 1, m, 0);
    } else {
      MultipleResidue(q, m, r + 1);
    }
  }

  lemma MultipleResidue(q: nat, m: nat, r: nat)
    requires 0 <= r < m
    ensures (q * m + r) % m == r
  {
    var x := q * m + r;
    var d := x / m - q;
    assert d * m == r - x % m;
    if d != 0 {
      NonzeroMultiple(d, m);
    }
  }

  lemma NonzeroMultiple(d: int, m: int)
    requires d != 0 && m > 0
    ensures d * m >= m || d * m <= -m
  {
  }

  /** A call punishes exactly when it is every (limit+1)-th, and it is handed those limit+1 messages. */
  ghost predicate EveryLimitPlusOne(a: Attempt, calls: seq<Call>, limit: nat) {
    && (a.punish <==> |calls| % (limit + 1) == 0)
    && (a.punish ==> |calls| >= limit + 1 && a.burst.messageIDs == IDs(calls[|calls| - (limit + 1)..]))
  }

  lemma ClosesCycle(a: Attempt, open: seq<Call>, hits: seq<Call>, c: Call)
    requires |open| == Cycle(|hits|, c.limit) <= c.limit && |open| <= |hits|
    requires a.punish <==> |open| + 1 > c.limit
    requires (hits + [c])[|hits| - |open|..] == open + [c]
    requires a.burst.messageIDs == IDs(open + [c])
    ensures EveryLimitPlusOne(a, hits + [c], c.limit)
  {
    CycleIsResidue(|hits| + 1, c.limit);
  }

  lemma LastOfCalls(log: seq<Item>, c: Call)
    ensures var open := Bursts(log, c.key).open; var hits := HitsOf(log, c.key);
            |open| <= |hits| && (hits + [c])[|hits| - |open|..] == open + [c]
  {
    BurstsPartitionHits(log, c.key);
  }

  /**
  With one limit L and no idle drop, exactly every (L+1)-th completed call punishes, and it is handed
  the ids of exactly the last L+1 messages.
  */
  lemma PunishesEveryLimitPlusOne(log: seq<Item>, n: nat, limit: nat)
    requires Legit(log) && n < |log| && log[n].Hit?
    requires FixedLimit(log, log[n].call.key, limit) && limit >= 1
    ensures var k := log[n].call.key;
            EveryLimitPlusOne(Update(Replay(log[..n], k), log[n].call), HitsOf(log[..n + 1], k), limit)
  {
    var k, c := log[n].call.key, log[n].call;
    var open, hits := Bursts(log[..n], k).open, HitsOf(log[..n], k);
    var a := Update(Replay(log[..n], k), c);
    assert log[..n + 1][..n] == log[..n];
    assert a.punish <==> |open| + 1 > limit by {
      CallReportsBurst(log, n);
    }
    OpenBurstLength(log[..n], k, limit);
    LastOfCalls(log[..n], c);
    assert a.burst.messageIDs == IDs(open + [c]) by {
      assert log[..n] + [Hit(c)] == log[..n + 1];
      LegitPrefix(log, n + 1);
      HandsOverWholeBurst(log[..n], c);
    }
    ClosesCycle(a, open, hits, c);
  }

  lemma HandsOverWholeBurst(log: seq<Item>, c: Call)
    requires Legit(log + [Hit(c)]) && FixedLimit(log, c.key, c.limit)
    ensures Update(Replay(log, c.key), c).burst.messageIDs == IDs(Bursts(log, c.key).open + [c])
  {
    assert (log + [Hit(c)])[..|log|] == log;
    LegitPrefix(log + [Hit(c)], |log|);
    TracksWholeBurst(log, c.key, c.limit);
    OpenBurstLength(log, c.key, c.limit);
    TracksOneMore(Replay(log, c.key), Bursts(log, c.key).open, c);
  }
}
