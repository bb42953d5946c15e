/**
Runs of a state machine whose steps are given by a partial function: `next(s, e)` is the state after
event `e`, or None when `e` cannot happen in `s`. Interleavings are event sequences.
*/
module Runs {
  import opened Options

  type Machine<!S, !E> = (S, E) -> Option<S>

  /** The events `es` lead from `s` to `t`. */
  ghost predicate Reaches<S(!new), E>(next: Machine<S, E>, s: S, es: seq<E>, t: S) {
    if es == [] then s == t
    else next(s, es[0]).Some? && Reaches(next, next(s, es[0]).value, es[1..], t)
  }

  /** Every step taken by the run satisfies `p`. */
  ghost predicate Throughout<S(!new), E>(next: Machine<S, E>, p: (S, E) -> bool, s: S, es: seq<E>) {
    es == [] ||
    (p(s, es[0]) && (next(s, es[0]).Some? ==> Throughout(next, p, next(s, es[0]).value, es[1..])))
  }

  /** What every step of a run keeps holds at its end. */
  lemma {:induction false} Invariance<S(!new), E(!new)>(next: Machine<S, E>, p: (S, E) -> bool, inv: S -> bool,
                                                       s: S, es: seq<E>, t: S)
    requires inv(s) && Reaches(next, s, es, t) && Throughout(next, p, s, es)
    requires forall x, e :: inv(x) && p(x, e) && next(x, e).Some? ==> inv(next(x, e).value)
    ensures inv(t)
  {
    if es != [] {
      Invariance(next, p, inv, next(s, es[0]).value, es[1..], t);
    }
  }

  /** The same for what every step keeps in any case. */
  lemma {:induction false} Preservation<S(!new), E(!new)>(next: Machine<S, E>, inv: S -> bool, s: S, es: seq<E>, t: S)
    requires inv(s) && Reaches(next, s, es, t)
    requires forall x, e :: inv(x) && next(x, e).Some? ==> inv(next(x, e).value)
    ensures inv(t)
  {
    if es != [] {
      Preservation(next, inv, next(s, es[0]).value, es[1..], t);
    }
  }

  /** A run may be extended by one step that is possible at its end. */
  lemma {:induction false} ReachesSnoc<S(!new), E(!new)>(next: Machine<S, E>, p: (S, E) -> bool,
                                                        s: S, es: seq<E>, t: S, e: E)
    requires Reaches(next, s, es, t) && Throughout(next, p, s, es)
    requires p(t, e) && next(t, e).Some?
    ensures Reaches(next, s, es + [e], next(t, e).value) && Throughout(next, p, s, es + [e])
  {
    var more := es + [e];
    if es == [] {
      assert more[1..] == [];
    } else {
      assert more[1..] == es[1..] + [e];
      ReachesSnoc(next, p, next(s, es[0]).value, es[1..], t, e);
    }
  }

  lemma {:induction false} Extend<S(!new), E(!new)>(next: Machine<S, E>, s: S, es: seq<E>, t: S, e: E)
    returns (more: seq<E>, u: S)
    requires Reaches(next, s, es, t) && next(t, e).Some?
    ensures u == next(t, e).value && Reaches(next, s, more, u)
  {
    if es == [] {
      more, u := [e], next(t, e).value;
      assert more[1..] == [];
    } else {
      var rest;
      rest, u := Extend(next, next(s, es[0]).value, es[1..], t, e);
      more := [es[0]] + rest;
      assert more[1..] == rest;
    }
  }

  /** The state that a run passes through after its first `n` events. */
  lemma {:induction false} SplitRun<S(!new), E(!new)>(next: Machine<S, E>, s: S, es: seq<E>, t: S, n: nat)
    returns (u: S)
    requires Reaches(next, s, es, t) && n <= |es|
    ensures Reaches(next, s, es[..n], u) && Reaches(next, u, es[n..], t)
  {
    if n == 0 {
      u := s;
      assert es[0..] == es;
    } else {
      u := SplitRun(next, next(s, es[0]).value, es[1..], t, n - 1);
      assert es[..n][1..] == es[1..][..n - 1];
      assert es[n..] == es[1..][n - 1..];
    }
  }

  lemma {:induction false} Concatenated<S(!new), E(!new)>(next: Machine<S, E>,
                                                         s: S, es: seq<E>, t: S, more: seq<E>, u: S)
    requires Reaches(next, s, es, t) && Reaches(next, t, more, u)
    ensures Reaches(next, s, es + more, u)
  {
    if es == [] {
      assert es + more == more;
    } else {
      assert (es + more)[1..] == es[1..] + more;
      Concatenated(next, next(s, es[0]).value, es[1..], t, more, u);
    }
  }
}
