/**
The loop body of updateFloodWithSettings over Go slices: a published entry's backing array is shared by
every goroutine that loaded the entry, so the next entry must be built in arrays of its own.
*/
module FloodSlices {
  import opened Options
  import A = Antiflood

  /** A Go slice: `len` elements of `data` from `off`, with room up to `cap`. */
  datatype Slice = Slice(data: array<int>, off: nat, len: nat, cap: nat) {
    ghost predicate Valid() {
      len <= cap && off + cap <= data.Length
    }

    ghost function Elements(): seq<int>
      requires Valid()
      reads data
    {
      data[off..off + len]
    }
  }

  /** make([]int64, 0, cap) */
  method Make(cap: nat) returns (s: Slice)
    ensures s.Valid() && fresh(s.data) && s.Elements() == [] && s.cap == cap
  {
    var data := new int[cap];
    s := Slice(data, 0, 0, cap);
  }

  /** make([]int64, len(from), cap(from)) followed by copy. */
  method Clone(from: Slice) returns (s: Slice)
    requires from.Valid()
    ensures s.Valid() && fresh(s.data) && s.Elements() == from.Elements() && s.cap == from.cap
  {
    var data := new int[from.cap];
    var i := 0;
    while i < from.len
      invariant 0 <= i <= from.len
      invariant data[..i] == from.data[from.off..from.off + i]
    {
      data[i] := from.data[from.off + i];
      i := i + 1;
    }
    s := Slice(data, 0, from.len, from.cap);
  }

  /** append(s, x): writes in place while there is room, and moves to a larger array otherwise. */
  method Append(s: Slice, x: int) returns (r: Slice)
    requires s.Valid()
    modifies s.data
    ensures r.Valid() && r.Elements() == old(s.Elements()) + [x]
    ensures r.data == s.data || fresh(r.data)
  {
    if s.len < s.cap {
      s.data[s.off + s.len] := x;
      r := s.(len := s.len + 1);
    } else {
      var data := new int[2 * s.len + 1];
      var i := 0;
      while i < s.len
        invariant 0 <= i <= s.len
        invariant data[..i] == s.data[s.off..s.off + i]
        invariant s.data[..] == old(s.data[..])
      {
        data[i] := s.data[s.off + i];
        i := i + 1;
      }
      data[s.len] := x;
      r := Slice(data, 0, s.len + 1, 2 * s.len + 1);
    }
  }

  /** floodControl: its fields are never reassigned once it has been published. */
  class FloodControl {
    const userId: int
    const messageCount: nat
    const messageIDs: Slice
    const lastActivity: int

    constructor (userId: int, messageCount: nat, messageIDs: Slice, lastActivity: int)
      ensures this.userId == userId && this.messageCount == messageCount
      ensures this.messageIDs == messageIDs && this.lastActivity == lastActivity
    {
      this.userId := userId;
      this.messageCount := messageCount;
      this.messageIDs := messageIDs;
      this.lastActivity := lastActivity;
    }

    ghost function Value(): A.FloodControl
      requires messageIDs.Valid()
      reads messageIDs.data
    {
      A.FloodControl(userId, messageCount, messageIDs.Elements(), lastActivity)
    }
  }

  /** ids[len(ids)-n:] when there are more than n: a view of the same array. */
  method KeepLast(ids: Slice, n: nat) returns (r: Slice)
    requires ids.Valid()
    ensures r.Valid() && r.data == ids.data && r.Elements() == A.LastIDs(ids.Elements(), n)
  {
    if ids.len > n {
      var skip := ids.len - n;
      r := Slice(ids.data, ids.off + skip, n, ids.cap - skip);
    } else {
      r := ids;
    }
  }

  /** The two steps after the copy, on a slice that nobody else holds. */
  method AppendAndKeep(own: Slice, x: int, n: nat) returns (ids: Slice)
    requires own.Valid()
    modifies own.data
    ensures ids.Valid() && (ids.data == own.data || fresh(ids.data))
    ensures ids.Elements() == A.LastIDs(old(own.Elements()) + [x], n)
  {
    var more := Append(own, x);
    ids := KeepLast(more, n);
  }

  /** The tracked ids with one more message, in an array of their own; `loaded` is null for a new burst. */
  method Track(loaded: FloodControl?, c: A.Call) returns (ids: Slice)
    requires loaded != null ==> loaded.messageIDs.Valid()
    ensures ids.Valid() && fresh(ids.data)
    ensures ids.Elements() == A.LastIDs((if loaded == null then [] else loaded.messageIDs.Elements()) + [c.msgId],
                                        c.limit + A.EXTRA_IDS)
  {
    if loaded == null {
      var own := Make(c.limit + A.EXTRA_IDS);
      ids := AppendAndKeep(own, c.msgId, c.limit + A.EXTRA_IDS);
    } else {
      var own := Clone(loaded.messageIDs);
      ids := AppendAndKeep(own, c.msgId, c.limit + A.EXTRA_IDS);
    }
  }

  /** The burst that includes this call: the loaded one continued, or a new one. */
  method Extend(loaded: FloodControl?, c: A.Call) returns (burst: FloodControl)
    requires loaded != null ==> loaded.messageIDs.Valid()
    ensures burst.messageIDs.Valid() && fresh(burst.messageIDs.data)
    ensures burst.Value() == A.Update(if loaded == null then None else Some(loaded.Value()), c).burst
  {
    if loaded != null && c.now - loaded.lastActivity <= A.IDLE_SECONDS && loaded.userId != 0 {
      var ids := Track(loaded, c);
      burst := new FloodControl(loaded.userId, loaded.messageCount + 1, ids, c.now);
    } else {
      var ids := Track(null, c);
      burst := new FloodControl(c.key.userId, 1, ids, c.now);
    }
  }

  /**
  Everything between the load and the swap. It has no modifies clause: whatever it appends to, it writes
  to no array that existed before, so neither the loaded entry nor any burst handed out earlier can change.
  `cas` says whether the swap is to be a CompareAndSwap against `loaded`.
  */
  method PrepareUpdate(loaded: FloodControl?, c: A.Call)
    returns (punish: bool, burst: FloodControl, stored: FloodControl, cas: bool)
    requires loaded != null ==> loaded.messageIDs.Valid()
    ensures burst.messageIDs.Valid() && stored.messageIDs.Valid()
    ensures fresh(stored) && fresh(burst.messageIDs.data) && fresh(stored.messageIDs.data)
    ensures A.Attempt(punish, burst.Value(), stored.Value()) ==
            A.Update(if loaded == null then None else Some(loaded.Value()), c)
    ensures cas <==> loaded != null && A.Live(loaded.Value(), c.now)
  {
    ghost var expected := A.Update(if loaded == null then None else Some(loaded.Value()), c);
    cas := loaded != null && c.now - loaded.lastActivity <= A.IDLE_SECONDS;
    burst := Extend(loaded, c);
    punish := burst.messageCount > c.limit;
    if punish {
      var none := Make(0);
      stored := new FloodControl(0, 0, none, c.now);
    } else {
      stored := new FloodControl(burst.userId, burst.messageCount, burst.messageIDs, burst.lastActivity);
    }
    assert expected.stored == if punish then A.FloodControl(0, 0, [], c.now) else expected.burst;
  }
}
