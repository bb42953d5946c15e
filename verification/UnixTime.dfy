/** Whole Unix seconds of a clock in milliseconds. */
module UnixTime {
  function Unix(millis: nat): (seconds: nat)
    ensures seconds * 1000 <= millis < (seconds + 1) * 1000
  {
    millis / 1000
  }

  lemma UnixMonotone(a: nat, b: nat)
    requires a <= b
    ensures Unix(a) <= Unix(b)
  {
  }
}
