/** The random number generator, as an oracle.

    `rndreal(low, high)` in ss/rand.h returns `low + (high - low) * r` where
    `r = rand() / RAND_MAX` lies in [0, 1]; NSGA-II's `randomperc()` returns
    such an `r` directly. The model does not say how `r` is produced: the
    draws come from a fixed tape, consumed one by one in code order. */
module Oracle {

  class Rng {
    /** draw number k of the run */
    const tape: nat -> real
    /** how many draws have been consumed */
    var pos: nat

    ghost predicate Valid()
    {
      forall k: nat :: 0.0 <= tape(k) <= 1.0
    }

    constructor (draws: nat -> real)
      requires forall k: nat :: 0.0 <= draws(k) <= 1.0
      ensures Valid() && tape == draws && pos == 0
    {
      tape := draws;
      pos := 0;
    }

    /** rndreal(low, high) */
    method RndReal(low: real, high: real) returns (r: real)
      requires Valid()
      modifies this`pos
      ensures pos == old(pos) + 1
      ensures r == Draw(low, high, tape(old(pos)))
      ensures low <= high ==> low <= r <= high
    {
      r := low + (high - low) * tape(pos);
      if low <= high {
        DrawInRange(low, high, tape(pos));
      }
      pos := pos + 1;
    }

    /** randomperc() */
    method RandomPerc() returns (r: real)
      requires Valid()
      modifies this`pos
      ensures pos == old(pos) + 1
      ensures r == tape(old(pos)) && 0.0 <= r <= 1.0
    {
      r := tape(pos);
      pos := pos + 1;
    }
  }

  /** The value rndreal(low, high) takes for the uniform draw u. */
  function Draw(low: real, high: real, u: real): real
  {
    low + (high - low) * u
  }

  lemma DrawInRange(low: real, high: real, u: real)
    requires low <= high && 0.0 <= u <= 1.0
    ensures low <= Draw(low, high, u) <= high
  {
    var w := high - low;
    assert 0.0 <= w * u by { MulNonNeg(w, u); }
    assert w * (1.0 - u) == w - w * u;
    assert 0.0 <= w * (1.0 - u) by { MulNonNeg(w, 1.0 - u); }
  }

  lemma MulNonNeg(x: real, y: real)
    requires 0.0 <= x && 0.0 <= y
    ensures 0.0 <= x * y
  {
  }
}
