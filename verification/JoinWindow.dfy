/**
The join window of the anti-raid module: a sorted set of joins trimmed to the last sixty seconds, under a
time to live of sixty seconds. The clock is in milliseconds; scores are whole Unix seconds. A Redis key is
gone once the clock has passed its deadline.
*/
module JoinWindow {
  import opened UnixTime

  const WINDOW: nat := 60

  /** A member of the sorted set: the user, the second and the nanosecond tag that tells joins apart. */
  datatype Join = Join(user: int, second: nat, tag: nat)

  /** What the count means: the joins less than sixty seconds old. */
  function Recent(all: set<Join>, now: nat): set<Join> {
    set j | j in all && j.second + WINDOW > now
  }

  function Scored(joins: set<Join>): map<Join, nat> {
    map j | j in joins :: j.second
  }

  /** A key past its sixty-second deadline held nothing that the window would still count. */
  lemma DeadlineHidesNothing(all: set<Join>, last: nat, clock: nat)
    requires forall j :: j in all ==> j.second <= Unix(last)
    requires clock > last + WINDOW * 1000
    ensures Recent(all, Unix(clock)) == {}
  {
    assert Unix(clock) >= Unix(last) + WINDOW;
  }

  /** Trimming at each join loses nothing a later count needs. */
  lemma TrimmingHidesNothing(all: set<Join>, last: nat, clock: nat, j: Join)
    requires last <= clock && j.second == Unix(clock)
    ensures Recent(Recent(all, Unix(last)) + {j}, Unix(clock)) == Recent(all + {j}, Unix(clock))
  {
    assert Unix(last) <= Unix(clock);
  }

  /** What the key holds when the script runs. */
  function Live(all: set<Join>, last: nat, clock: nat): set<Join> {
    if all != {} && clock > last + WINDOW * 1000 then {} else Recent(all, Unix(last))
  }

  /** Neither the trimming nor the time to live shows in the window of the full log. */
  lemma TheLogShowsThrough(all: set<Join>, last: nat, clock: nat, j: Join)
    requires forall x :: x in all ==> x.second <= Unix(last)
    requires last <= clock && j.second == Unix(clock)
    ensures Recent(Live(all, last, clock) + {j}, Unix(clock)) == Recent(all + {j}, Unix(clock))
  {
    TrimmingHidesNothing(all, last, clock, j);
    if all != {} && clock > last + WINDOW * 1000 {
      DeadlineHidesNothing(all, last, clock);
      assert forall x :: x in all ==> x !in Recent(all, Unix(clock));
    }
  }

  function RemoveByScore(scores: map<Join, nat>, highest: int): map<Join, nat> {
    map j | j in scores && !(0 <= scores[j] <= highest) :: scores[j]
  }

  lemma ScoresAfter(live: set<Join>, j: Join, now: nat)
    requires j.second == now
    ensures RemoveByScore(Scored(live)[j := now], now - WINDOW) == Scored(Recent(live + {j}, now))
  {
  }

  lemma ScoredSize(s: set<Join>)
    ensures |Scored(s)| == |s|
  {
    assert Scored(s).Keys == s;
  }

  class JoinTracker {
    var joins: map<Join, nat>
    var deadline: nat
    /** Every join since the window was last cleared, and when the last of them came. */
    ghost var all: set<Join>
    ghost var last: nat

    ghost predicate Valid()
      reads this
    {
      && (forall j :: j in all ==> j.second <= Unix(last))
      && joins == Scored(Recent(all, Unix(last)))
      && (all != {} ==> deadline == last + WINDOW * 1000)
    }

    constructor ()
      ensures Valid() && all == {} && last == 0
    {
      joins, deadline, all, last := map[], 0, {}, 0;
    }

    /** Redis drops the key once its time to live is over. */
    method Expire(clock: nat)
      requires Valid() && last <= clock
      modifies this`joins
      ensures joins == Scored(Live(all, last, clock))
    {
      if clock > deadline {
        joins := map[];
      }
    }

    /** trackJoin: the number of joins in the last sixty seconds since the last clear, this one included. */
    method Track(user: int, clock: nat, tag: nat) returns (count: nat)
      requires Valid() && last <= clock
      modifies this
      ensures Valid() && last == clock
      ensures all == old(all) + {Join(user, Unix(clock), tag)}
      ensures count == |Recent(all, Unix(clock))|
    {
      var now, member := Unix(clock), Join(user, Unix(clock), tag);
      TheLogShowsThrough(all, last, clock, member);
      ScoresAfter(Live(all, last, clock), member, now);
      Expire(clock);
      joins := joins[member := now];
      deadline := clock + WINDOW * 1000;
      joins := RemoveByScore(joins, now - WINDOW);
      all, last := all + {member}, clock;
      ScoredSize(Recent(all, now));
      UnixMonotone(old(last), clock);
      count := |joins|;
    }

    /** clearJoinTracking, and the DEL of the joins key in the scripts that remove a raid. */
    method Clear()
      requires Valid()
      modifies this`joins, this`all
      ensures Valid() && all == {} && joins == map[]
    {
      joins, all := map[], {};
    }
  }
}
