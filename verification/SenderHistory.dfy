/**
The sender history script of the AI spam filter: a sorted set of message ids trimmed by score and by
rank, and a trimmed list of texts, both under a time to live. The reference is the full log of every
observation ever made. Times are Unix milliseconds; a Redis key is gone once the clock has passed its
deadline.
*/
module SenderHistory {
  import opened Sets

  const WINDOW: int := 60 * 60 * 1000
  const MAX_TIMESTAMPS: nat := 200
  const MAX_TEXTS: nat := 5

  datatype Observation = Observation(now: int, messageID: nat, text: string)

  // ----- The reference: what the answers mean on an unbounded log -----

  /** When each message id was last recorded. */
  function Recorded(log: seq<Observation>): map<nat, int> {
    if log == [] then map[]
    else Recorded(log[..|log| - 1])[log[|log| - 1].messageID := log[|log| - 1].now]
  }

  /** The distinct message ids recorded less than an hour before `now`. */
  function LastHour(log: seq<Observation>, now: int): set<nat> {
    set id: nat | id in Recorded(log) && Recorded(log)[id] > now - WINDOW
  }

  /** The non-empty texts since the last pause of more than an hour. */
  function Kept(log: seq<Observation>): seq<string>
    decreases |log|, 0
  {
    if log == [] then []
    else
      var last := log[|log| - 1];
      TextsBefore(log[..|log| - 1], last.now) + if last.text == "" then [] else [last.text]
  }

  function TextsBefore(log: seq<Observation>, now: int): seq<string>
    decreases |log|, 1
  {
    if log == [] || now - log[|log| - 1].now > WINDOW then [] else Kept(log)
  }

  function LastOf<T>(s: seq<T>, n: nat): seq<T> {
    if |s| > n then s[|s| - n..] else s
  }

  /** `recent` is the newest five of all texts, or all of them if they are fewer. */
  predicate LastFive(all: seq<string>, recent: seq<string>) {
    && |recent| == (if |all| < 5 then |all| else 5)
    && recent == all[|all| - |recent|..]
  }

  lemma LastFiveKept(all: seq<string>)
    ensures LastFive(all, LastOf(all, MAX_TEXTS))
  {
  }

  function Saturated(n: nat): nat {
    if n > MAX_TIMESTAMPS then MAX_TIMESTAMPS else n
  }

  ghost predicate Chronological(log: seq<Observation>) {
    && (forall i :: 0 <= i < |log| ==> log[i].now >= 0)
    && (forall i, j :: 0 <= i < j < |log| ==> log[i].now <= log[j].now)
  }

  lemma {:induction false} RecordedBounds(log: seq<Observation>)
    requires Chronological(log)
    ensures forall id :: id in Recorded(log) ==> log != [] && 0 <= Recorded(log)[id] <= log[|log| - 1].now
  {
    if log != [] {
      RecordedBounds(log[..|log| - 1]);
    }
  }

  lemma RecordedAppend(log: seq<Observation>, o: Observation)
    ensures Recorded(log + [o]) == Recorded(log)[o.messageID := o.now]
    ensures Kept(log + [o]) == TextsBefore(log, o.now) + if o.text == "" then [] else [o.text]
  {
    assert (log + [o])[..|log|] == log;
  }

  /** What observeAISpamSender answers to a message: the ids on record, at most 200 of them, and this message. */
  function Answer(log: seq<Observation>, now: int): nat {
    Saturated(|LastHour(log, now)|) + 1
  }

  /** What the answer stands for: the distinct ids of the last hour, this message's included, up to the cap. */
  function Capped(n: nat): nat {
    if n > MAX_TIMESTAMPS + 1 then MAX_TIMESTAMPS + 1 else n
  }

  lemma ThisMessageCounts(log: seq<Observation>, o: Observation)
    ensures |LastHour(log + [o], o.now)| ==
            |LastHour(log, o.now)| + if o.messageID in LastHour(log, o.now) then 0 else 1
  {
    RecordedAppend(log, o);
    assert LastHour(log + [o], o.now) == LastHour(log, o.now) + {o.messageID};
    if o.messageID in LastHour(log, o.now) {
      assert LastHour(log, o.now) + {o.messageID} == LastHour(log, o.now);
    }
  }

  /**
  The answer is the capped number of distinct ids except when this very message is already on record, among
  at most 200: then a redelivered message is counted twice in its own answer.
  */
  lemma RedeliveryCountsTwice(log: seq<Observation>, o: Observation)
    ensures Answer(log, o.now) == Capped(|LastHour(log + [o], o.now)|) <==>
            !(o.messageID in LastHour(log, o.now) && |LastHour(log, o.now)| <= MAX_TIMESTAMPS)
    ensures o.messageID in LastHour(log, o.now) && |LastHour(log, o.now)| <= MAX_TIMESTAMPS ==>
              Answer(log, o.now) == |LastHour(log + [o], o.now)| + 1
  {
    ThisMessageCounts(log, o);
  }

  /** It is the number of distinct ids itself, with no cap, in exactly two cases. */
  lemma AnswerIsExact(log: seq<Observation>, o: Observation)
    ensures var n := |LastHour(log, o.now)|;
            Answer(log, o.now) == |LastHour(log + [o], o.now)| <==>
            (o.messageID !in LastHour(log, o.now) && n <= MAX_TIMESTAMPS) ||
            (o.messageID in LastHour(log, o.now) && n == MAX_TIMESTAMPS + 1)
  {
    ThisMessageCounts(log, o);
  }

  // ----- The sorted set against the reference -----

  /**
  `stamps` is a faithful window on `all`: its scores are right, and an id scoring above `cutoff` is
  missing only when the window is full of ids that score at least as high.
  */
  ghost predicate Window(stamps: map<nat, int>, all: map<nat, int>, cutoff: int) {
    && (forall id :: id in stamps ==> id in all && stamps[id] == all[id])
    && |stamps| <= MAX_TIMESTAMPS
    && (forall id :: id in all && id !in stamps && all[id] > cutoff ==>
          |stamps| == MAX_TIMESTAMPS && forall z :: z in stamps ==> stamps[z] >= all[id])
  }

  function Above(m: map<nat, int>, cutoff: int): map<nat, int> {
    map id: nat | id in m && m[id] > cutoff :: m[id]
  }

  /** Dropping the expired scores leaves exactly the ids of the last hour, up to saturation. */
  lemma WindowCounts(stamps: map<nat, int>, all: map<nat, int>, before: int, cutoff: int)
    requires Window(stamps, all, before) && before <= cutoff
    ensures Window(Above(stamps, cutoff), all, cutoff)
    ensures |Above(stamps, cutoff)| == Saturated(|set id: nat | id in all && all[id] > cutoff|)
  {
    var kept := Above(stamps, cutoff);
    var hour := set id: nat | id in all && all[id] > cutoff;
    assert kept.Keys <= stamps.Keys && kept.Keys <= hour;
    SubsetSize(kept.Keys, stamps.Keys);
    SubsetSize(kept.Keys, hour);
    if missing :| missing in all && missing !in stamps && all[missing] > cutoff {
      assert kept.Keys == stamps.Keys;
      assert missing in hour && missing !in kept.Keys;
    } else {
      assert hour == kept.Keys;
    }
  }

  ghost predicate Lowest(m: map<nat, int>, low: nat) {
    low in m && forall z :: z in m ==> m[low] <= m[z]
  }

  /** ZADD with the highest score so far keeps the window while there is room. */
  lemma WindowRecords(stamps: map<nat, int>, all: map<nat, int>, cutoff: int, id: nat, now: int)
    requires Window(stamps, all, cutoff)
    requires forall x :: x in all ==> all[x] <= now
    ensures |stamps[id := now]| <= MAX_TIMESTAMPS + 1
    ensures |stamps[id := now]| <= MAX_TIMESTAMPS ==> Window(stamps[id := now], all[id := now], cutoff)
  {
    var more := stamps[id := now];
    assert more.Keys == stamps.Keys + {id};
  }

  /** When it overflows, dropping the lowest rank keeps the window too. */
  lemma WindowTrims(stamps: map<nat, int>, all: map<nat, int>, cutoff: int, id: nat, now: int, low: nat)
    requires Window(stamps, all, cutoff)
    requires forall x :: x in all ==> all[x] <= now
    requires |stamps[id := now]| == MAX_TIMESTAMPS + 1 && Lowest(stamps[id := now], low)
    ensures Window(stamps[id := now] - {low}, all[id := now], cutoff)
  {
    var more := stamps[id := now];
    var fewer := more - {low};
    assert more.Keys == stamps.Keys + {id};
    assert more.Keys == fewer.Keys + {low};
    assert id !in stamps && |stamps| == MAX_TIMESTAMPS;
  }

  lemma LowestExists(m: map<nat, int>)
    requires m.Keys != {}
    ensures exists low :: Lowest(m, low)
    decreases |m|
  {
    var x :| x in m.Keys;
    var rest := m - {x};
    assert m.Keys == rest.Keys + {x};
    if rest.Keys == {} {
      assert Lowest(m, x);
    } else {
      LowestExists(rest);
      var low :| Lowest(rest, low);
      assert Lowest(m, if m[x] <= m[low] then x else low);
    }
  }

  /** The stored keys stand for the log. */
  ghost predicate Faithful(log: seq<Observation>, stamps: map<nat, int>, stampsDeadline: int,
                           texts: seq<string>, textsDeadline: int) {
    && Chronological(log)
    && (log == [] ==> stamps == map[] && texts == [])
    && (log != [] ==>
          var last := log[|log| - 1].now;
          && Window(stamps, Recorded(log), last - WINDOW)
          && stampsDeadline == last + WINDOW
          && texts == LastOf(Kept(log), MAX_TEXTS)
          && (texts != [] ==> textsDeadline == last + WINDOW))
  }

  lemma ChronologicalAppend(log: seq<Observation>, o: Observation)
    requires Chronological(log) && o.now >= 0 && (log != [] ==> log[|log| - 1].now <= o.now)
    ensures Chronological(log + [o])
  {
  }

  lemma FaithfulAppend(log: seq<Observation>, o: Observation, more: seq<Observation>, stamps: map<nat, int>,
                       texts: seq<string>, textsDeadline: int)
    requires Chronological(more) && more == log + [o]
    requires Window(stamps, Recorded(log)[o.messageID := o.now], o.now - WINDOW)
    requires texts == LastOf(TextsBefore(log, o.now) + if o.text == "" then [] else [o.text], MAX_TEXTS)
    requires texts != [] ==> textsDeadline == o.now + WINDOW
    ensures Faithful(more, stamps, o.now + WINDOW, texts, textsDeadline)
  {
    RecordedAppend(log, o);
    assert more != [] && more[|more| - 1] == o;
  }

  /** Past its deadline a set held nothing from the last hour. */
  lemma StampsOnRead(all: map<nat, int>, stamps: map<nat, int>, last: int, now: int)
    requires (forall id :: id in all ==> all[id] <= last) && last <= now
    requires Window(stamps, all, last - WINDOW)
    ensures var live := if now > last + WINDOW then map[] else stamps;
            && Window(Above(live, now - WINDOW), all, now - WINDOW)
            && |Above(live, now - WINDOW)| == Saturated(|set id: nat | id in all && all[id] > now - WINDOW|)
  {
    if now > last + WINDOW {
      var none: map<nat, int> := map[];
      WindowCounts(none, all, now - WINDOW, now - WINDOW);
    } else {
      WindowCounts(stamps, all, last - WINDOW, now - WINDOW);
    }
  }

  lemma OnRead(log: seq<Observation>, stamps: map<nat, int>, stampsDeadline: int, texts: seq<string>,
               textsDeadline: int, now: int)
    requires Faithful(log, stamps, stampsDeadline, texts, textsDeadline)
    requires log != [] ==> log[|log| - 1].now <= now
    ensures var live := if now > stampsDeadline then map[] else stamps;
            && Window(Above(live, now - WINDOW), Recorded(log), now - WINDOW)
            && |Above(live, now - WINDOW)| == Saturated(|LastHour(log, now)|)
    ensures (if now > textsDeadline then [] else texts) == LastOf(TextsBefore(log, now), MAX_TEXTS)
    ensures LastFive(TextsBefore(log, now), if now > textsDeadline then [] else texts)
  {
    LastFiveKept(TextsBefore(log, now));
    if log == [] {
      assert LastHour(log, now) == {};
      assert Above(map[], now - WINDOW) == map[];
    } else {
      RecordedBounds(log);
      StampsOnRead(Recorded(log), stamps, log[|log| - 1].now, now);
    }
  }

  /** Every stored score is a time, so none lies below ZREMRANGEBYSCORE's lower end. */
  lemma ScoresAreTimes(log: seq<Observation>, stamps: map<nat, int>, stampsDeadline: int, texts: seq<string>,
                       textsDeadline: int)
    requires Faithful(log, stamps, stampsDeadline, texts, textsDeadline)
    ensures forall id :: id in stamps ==> stamps[id] >= 0
  {
    RecordedBounds(log);
  }

  /** The two keys of one sender. `log` is what has been observed; it is not stored anywhere. */
  class SenderWindow {
    var stamps: map<nat, int>
    var stampsDeadline: int
    var texts: seq<string>
    var textsDeadline: int
    ghost var log: seq<Observation>

    ghost predicate Valid()
      reads this
    {
      Faithful(log, stamps, stampsDeadline, texts, textsDeadline)
    }

    constructor ()
      ensures Valid() && log == []
    {
      stamps, stampsDeadline, texts, textsDeadline, log := map[], 0, [], 0, [];
    }

    /** Redis drops the keys whose time to live is over. */
    method Expire(now: int)
      modifies this`stamps, this`texts
      ensures stamps == if now > stampsDeadline then map[] else old(stamps)
      ensures texts == if now > textsDeadline then [] else old(texts)
    {
      if now > stampsDeadline {
        stamps := map[];
      }
      if now > textsDeadline {
        texts := [];
      }
    }

    /** ZREMRANGEBYSCORE on keys that are still alive. */
    method RemoveByScore(now: int)
      requires forall id :: id in stamps ==> stamps[id] >= 0
      modifies this`stamps, this`texts
      ensures stamps == Above(if now > stampsDeadline then map[] else old(stamps), now - WINDOW)
      ensures texts == if now > textsDeadline then [] else old(texts)
    {
      Expire(now);
      var cutoff := now - WINDOW;
      stamps := map id: nat | id in stamps && !(0 <= stamps[id] <= cutoff) :: stamps[id];
    }

    /** LRANGE, ZREMRANGEBYSCORE and ZCARD: what is on record before this message. */
    method ReadWindow(now: int) returns (recent: seq<string>, prior: nat)
      requires Valid() && now >= 0 && (log != [] ==> log[|log| - 1].now <= now)
      modifies this`stamps, this`texts
      ensures Window(stamps, Recorded(log), now - WINDOW)
      ensures prior == |stamps| == Saturated(|LastHour(log, now)|)
      ensures recent == texts == LastOf(TextsBefore(log, now), MAX_TEXTS)
    {
      ScoresAreTimes(log, stamps, stampsDeadline, texts, textsDeadline);
      OnRead(log, stamps, stampsDeadline, texts, textsDeadline, now);
      RemoveByScore(now);
      recent, prior := texts, |stamps|;
    }

    /** ZADD and ZREMRANGEBYRANK. */
    method Record(now: int, messageID: nat)
      requires Window(stamps, Recorded(log), now - WINDOW)
      requires Chronological(log) && (log != [] ==> log[|log| - 1].now <= now)
      modifies this`stamps
      ensures Window(stamps, Recorded(log)[messageID := now], now - WINDOW)
    {
      RecordedBounds(log);
      ghost var before, all := stamps, Recorded(log);
      WindowRecords(before, all, now - WINDOW, messageID, now);
      stamps := stamps[messageID := now];
      if |stamps| > MAX_TIMESTAMPS {
        assert messageID in stamps.Keys;
        LowestExists(stamps);
        var low :| low in stamps && forall z :: z in stamps ==> stamps[low] <= stamps[z];
        WindowTrims(before, all, now - WINDOW, messageID, now, low);
        stamps := stamps - {low};
      }
    }

    /** RPUSH and LTRIM, unless the text is empty. */
    method PushText(text: string, ghost all: seq<string>)
      modifies this`texts
      requires texts == LastOf(all, MAX_TEXTS)
      ensures texts == LastOf(all + if text == "" then [] else [text], MAX_TEXTS)
    {
      if text != "" {
        LastOfAppend(all, text, MAX_TEXTS);
        texts := LastOf(texts + [text], MAX_TEXTS);
      } else {
        assert all + [] == all;
      }
    }

    /** Both EXPIRE calls; the one on a missing list does nothing. */
    method Touch(now: int)
      modifies this`stampsDeadline, this`textsDeadline
      ensures stampsDeadline == now + WINDOW
      ensures texts != [] ==> textsDeadline == now + WINDOW
    {
      stampsDeadline := now + WINDOW;
      if texts != [] {
        textsDeadline := now + WINDOW;
      }
    }

    /** The half of the script that writes. */
    method Store(o: Observation)
      requires Chronological(log) && o.now >= 0 && (log != [] ==> log[|log| - 1].now <= o.now)
      requires Window(stamps, Recorded(log), o.now - WINDOW)
      requires texts == LastOf(TextsBefore(log, o.now), MAX_TEXTS)
      modifies this
      ensures Valid() && log == old(log) + [o]
    {
      ghost var more := log + [o];
      ChronologicalAppend(log, o);
      Record(o.now, o.messageID);
      PushText(o.text, TextsBefore(log, o.now));
      Touch(o.now);
      FaithfulAppend(log, o, more, stamps, texts, textsDeadline);
      log := more;
    }

    /**
    aispamHistoryScript with observeAISpamSender's plus one. Rank trimming and the time to live never
    show: the answer is that of the unbounded log, the count saturating at 200.
    */
    method Observe(now: int, messageID: nat, text: string) returns (recent: seq<string>, lastHour: nat)
      requires Valid() && now >= 0 && (log != [] ==> log[|log| - 1].now <= now)
      modifies this
      ensures Valid() && log == old(log) + [Observation(now, messageID, text)]
      ensures lastHour == Answer(old(log), now)
      ensures LastFive(TextsBefore(old(log), now), recent)
    {
      var prior;
      ghost var all := TextsBefore(log, now);
      recent, prior := ReadWindow(now);
      LastFiveKept(all);
      Store(Observation(now, messageID, text));
      lastHour := prior + 1;
    }
  }

  lemma LastOfAppend<T>(s: seq<T>, x: T, n: nat)
    requires n > 0
    ensures LastOf(LastOf(s, n) + [x], n) == LastOf(s + [x], n)
  {
  }
}
