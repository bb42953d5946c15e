/** The secure shuffle: in place, one random index per position, drawn from an entropy source that may fail. */
module Shuffle {
  /** crypto/rand: the numbers it will deliver before it fails for good. */
  class Entropy {
    var left: seq<nat>

    constructor (left: seq<nat>)
      ensures this.left == left
    {
      this.left := left;
    }

    /** secureIntn for a positive bound. */
    method Intn(max: nat) returns (n: nat, ok: bool)
      requires max > 0
      modifies this
      ensures ok <==> old(left) != []
      ensures ok ==> n == old(left)[0] % max && n < max && left == old(left)[1..]
      ensures !ok ==> left == old(left)
    {
      if left == [] {
        return 0, false;
      }
      n, ok, left := left[0] % max, true, left[1..];
    }
  }

  function Swap<T>(s: seq<T>, i: nat, j: nat): (t: seq<T>)
    requires i < |s| && j < |s|
    ensures |t| == |s| && t[i] == s[j] && t[j] == s[i]
    ensures forall k :: 0 <= k < |s| && k != i && k != j ==> t[k] == s[k]
  {
    s[i := s[j]][j := s[i]]
  }

  /** One pick per position from `i` down to 1, each no greater than its position. */
  predicate Picks(js: seq<nat>, i: nat) {
    |js| == i && forall k :: 0 <= k < i ==> js[k] <= i - k
  }

  /** The swaps that fix positions `i`, `i`-1, ..., 1. */
  function Shuffled<T>(s: seq<T>, i: nat, js: seq<nat>): (t: seq<T>)
    requires Picks(js, i) && (s == [] ==> i == 0) && (s != [] ==> i < |s|)
    ensures |t| == |s|
    decreases i
  {
    if i == 0 then s else Shuffled(Swap(s, i, js[0]), i - 1, js[1..])
  }

  /** The picks that an entropy source makes. */
  function PicksFrom(stream: seq<nat>, i: nat): (js: seq<nat>)
    requires |stream| >= i
    ensures Picks(js, i)
  {
    if i == 0 then [] else [stream[0] % (i + 1)] + PicksFrom(stream[1..], i - 1)
  }

  lemma SwapKeepsMultiset<T>(s: seq<T>, i: nat, j: nat)
    requires i < |s| && j < |s|
    ensures multiset(Swap(s, i, j)) == multiset(s)
  {
  }

  /** values[i], values[j] = values[j], values[i] */
  method SwapEntries(a: array<string>, i: nat, j: nat)
    requires i < a.Length && j < a.Length
    modifies a
    ensures a[..] == Swap(old(a[..]), i, j)
  {
    a[i], a[j] := a[j], a[i];
  }

  /**
  `s` is a rearrangement of `start`, and if enough numbers are left to be drawn the swaps from position `i`
  on turn it into `target`.
  */
  ghost predicate OnTheWay(s: seq<string>, i: nat, left: seq<nat>, start: seq<string>, target: seq<string>) {
    && i < |s| && multiset(s) == multiset(start)
    && (|left| >= i ==> Shuffled(s, i, PicksFrom(left, i)) == target)
  }

  lemma OneSwapOn(s: seq<string>, i: nat, left: seq<nat>, start: seq<string>, target: seq<string>, t: seq<string>)
    requires 0 < i && left != [] && OnTheWay(s, i, left, start, target)
    requires t == Swap(s, i, left[0] % (i + 1))
    ensures OnTheWay(t, i - 1, left[1..], start, target)
  {
    SwapKeepsMultiset(s, i, left[0] % (i + 1));
    if |left| >= i {
      var js := PicksFrom(left, i);
      assert js[0] == left[0] % (i + 1) && js[1..] == PicksFrom(left[1..], i - 1);
    }
  }

  lemma Arrived(s: seq<string>, left: seq<nat>, start: seq<string>, target: seq<string>)
    requires OnTheWay(s, 0, left, start, target)
    ensures s == target && multiset(s) == multiset(start)
  {
  }

  /** The loop body: a random entry up to position `i` changes places with the one there. */
  method Fix(a: array<string>, i: nat, e: Entropy, ghost start: seq<string>, ghost target: seq<string>)
    returns (ok: bool)
    requires 0 < i < a.Length && OnTheWay(a[..], i, e.left, start, target)
    modifies a, e
    ensures ok <==> old(e.left) != []
    ensures ok ==> e.left == old(e.left)[1..] && OnTheWay(a[..], i - 1, e.left, start, target)
    ensures !ok ==> a[..] == old(a[..]) && e.left == old(e.left)
  {
    ghost var s, left := a[..], e.left;
    var j;
    j, ok := e.Intn(i + 1);
    if ok {
      SwapEntries(a, i, j);
      OneSwapOn(s, i, left, start, target, a[..]);
    }
  }

  /** secureShuffleStrings: the entries are rearranged and none is lost, also when the entropy runs out. */
  method ShuffleInPlace(a: array<string>, e: Entropy) returns (ok: bool)
    modifies a, e
    ensures multiset(a[..]) == multiset(old(a[..]))
    ensures ok <==> a.Length == 0 || |old(e.left)| >= a.Length - 1
    ensures !ok ==> e.left == []
    ensures ok && a.Length > 0 ==>
      && a[..] == Shuffled(old(a[..]), a.Length - 1, PicksFrom(old(e.left), a.Length - 1))
      && e.left == old(e.left)[a.Length - 1..]
  {
    if a.Length == 0 {
      return true;
    }
    var i := a.Length - 1;
    ghost var start, draws, used := a[..], e.left, 0;
    ghost var target := if |draws| >= i then Shuffled(start, i, PicksFrom(draws, i)) else start;
    while i > 0
      invariant 0 <= i < a.Length && used + i == a.Length - 1
      invariant 0 <= used <= |draws| && e.left == draws[used..]
      invariant OnTheWay(a[..], i, e.left, start, target)
    {
      var fixed := Fix(a, i, e, start, target);
      if !fixed {
        return false;
      }
      i, used := i - 1, used + 1;
    }
    Arrived(a[..], e.left, start, target);
    return true;
  }

  // ----- Every ordering is equally likely -----

  lemma {:induction false} LaterSwapsKeep<T>(s: seq<T>, i: nat, js: seq<nat>, k: nat)
    requires Picks(js, i) && i < k < |s|
    ensures Shuffled(s, i, js)[k] == s[k]
    decreases i
  {
    if i > 0 {
      LaterSwapsKeep(Swap(s, i, js[0]), i - 1, js[1..], k);
    }
  }

  /** Different picks give different orderings of distinct entries. */
  lemma {:induction false} PicksAreDetermined<T>(s: seq<T>, i: nat, js: seq<nat>, ks: seq<nat>)
    requires i < |s| && Picks(js, i) && Picks(ks, i)
    requires forall a, b :: 0 <= a < b < |s| ==> s[a] != s[b]
    requires Shuffled(s, i, js) == Shuffled(s, i, ks)
    ensures js == ks
    decreases i
  {
    if i > 0 {
      LaterSwapsKeep(Swap(s, i, js[0]), i - 1, js[1..], i);
      LaterSwapsKeep(Swap(s, i, ks[0]), i - 1, ks[1..], i);
      assert s[js[0]] == s[ks[0]];
      PicksAreDetermined(Swap(s, i, js[0]), i - 1, js[1..], ks[1..]);
      assert js == [js[0]] + js[1..];
      assert ks == [ks[0]] + ks[1..];
    }
  }

  /** `s` and `t` agree above position `i` and hold the same entries up to it. */
  ghost predicate AgreeAbove<T>(s: seq<T>, t: seq<T>, i: nat) {
    && i < |s| == |t|
    && multiset(s[..i + 1]) == multiset(t[..i + 1])
    && s[i + 1..] == t[i + 1..]
  }

  lemma EntryOccurs<T>(s: seq<T>, t: seq<T>, i: nat) returns (j: nat)
    requires AgreeAbove(s, t, i)
    ensures j <= i && s[j] == t[i]
  {
    assert t[..i + 1][i] == t[i];
    assert t[i] in multiset(t[..i + 1]);
    assert t[i] in s[..i + 1];
    j :| 0 <= j < i + 1 && s[..i + 1][j] == t[i];
    assert s[..i + 1][j] == s[j];
  }

  lemma WithoutLast<T>(s: seq<T>)
    requires s != []
    ensures multiset(s[..|s| - 1]) == multiset(s) - multiset{s[|s| - 1]}
  {
    assert s == s[..|s| - 1] + [s[|s| - 1]];
  }

  lemma PrefixWithoutLast<T>(s: seq<T>, t: seq<T>)
    requires s != [] && t != [] && s[|s| - 1] == t[|t| - 1] && multiset(s) == multiset(t)
    ensures multiset(s[..|s| - 1]) == multiset(t[..|t| - 1])
  {
    WithoutLast(s);
    WithoutLast(t);
  }

  lemma SwapAgrees<T>(s: seq<T>, t: seq<T>, i: nat, j: nat)
    requires AgreeAbove(s, t, i) && 0 < i && j <= i && s[j] == t[i]
    ensures AgreeAbove(Swap(s, i, j), t, i - 1)
  {
    var next := Swap(s, i, j);
    assert next[..i + 1] == Swap(s[..i + 1], i, j);
    SwapKeepsMultiset(s[..i + 1], i, j);
    PrefixWithoutLast(next[..i + 1], t[..i + 1]);
    assert next[..i + 1][..i] == next[..i] && t[..i + 1][..i] == t[..i];
    forall k | 0 <= k < |t| - i ensures next[i..][k] == t[i..][k] {
      if k > 0 {
        assert next[i..][k] == s[i + 1..][k - 1] && t[i..][k] == t[i + 1..][k - 1];
      }
    }
  }

  /** Every ordering comes from some picks. */
  lemma {:induction false} EveryOrderingIsReached<T>(s: seq<T>, i: nat, t: seq<T>) returns (js: seq<nat>)
    requires AgreeAbove(s, t, i)
    ensures Picks(js, i) && Shuffled(s, i, js) == t
    decreases i
  {
    var j := EntryOccurs(s, t, i);
    if i == 0 {
      js := [];
      assert s == [s[0]] + s[1..] && t == [t[0]] + t[1..];
    } else {
      SwapAgrees(s, t, i, j);
      var rest := EveryOrderingIsReached(Swap(s, i, j), i - 1, t);
      js := [j] + rest;
      assert js[1..] == rest;
    }
  }
}
