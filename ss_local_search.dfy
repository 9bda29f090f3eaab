/** ss/local_search.c: the neighbourhood draw of the stochastic hill
    climber (`take_step`). `nelder_mead` has an empty body and is not
    modelled. */
module SSLocalSearch {
  import opened Util
  import opened SSTypes
  import opened SSParams
  import opened Oracle

  /** The lower end of the draw for a coordinate at `p`: no lower than the
      bound `lo` and no further than `step` below `p`. */
  function StepLow(lo: real, p: real, step: real): real
  {
    MaxReal(lo, p - step)
  }

  /** The upper end of the draw for a coordinate at `p`. */
  function StepHigh(hi: real, p: real, step: real): real
  {
    MinReal(hi, p + step)
  }

  /** The parameters take_step writes for the point `x`, the draws starting
      at `tape(pos)`: one draw per coordinate, in coordinate order. */
  function Neighbour(x: seq<real>, lo: seq<real>, hi: seq<real>, step: real, n: nat,
                     tape: nat -> real, pos: nat): (y: seq<real>)
    requires |x| == n && |lo| == n && |hi| == n
    ensures |y| == n
  {
    seq(n, i requires 0 <= i < n => Draw(StepLow(lo[i], x[i], step), StepHigh(hi[i], x[i], step), tape(pos + i)))
  }

  /** One coordinate: for a point within its bounds and a non-negative
      step, the draw stays within the bounds and within `step` of the
      point. */
  lemma CoordinateNearby(lo: real, hi: real, p: real, step: real, u: real)
    requires lo <= p <= hi && step >= 0.0 && 0.0 <= u <= 1.0
    ensures var v := Draw(StepLow(lo, p, step), StepHigh(hi, p, step), u);
            lo <= v <= hi && p - step <= v <= p + step
  {
    DrawInRange(StepLow(lo, p, step), StepHigh(hi, p, step), u);
  }

  /** A neighbour of a point within the bounds is within the bounds, and
      each coordinate moves by at most `step`. */
  lemma NeighbourNearby(x: seq<real>, lo: seq<real>, hi: seq<real>, step: real, n: nat, tape: nat -> real, pos: nat)
    requires |x| == n && |lo| == n && |hi| == n
    requires InBounds(x, lo, hi) && step >= 0.0
    requires forall k: nat :: 0.0 <= tape(k) <= 1.0
    ensures var y := Neighbour(x, lo, hi, step, n, tape, pos);
            InBounds(y, lo, hi) && forall i :: 0 <= i < n ==> x[i] - step <= y[i] <= x[i] + step
  {
    var y := Neighbour(x, lo, hi, step, n, tape, pos);
    forall i | 0 <= i < n ensures lo[i] <= y[i] <= hi[i] && x[i] - step <= y[i] <= x[i] + step {
      CoordinateNearby(lo[i], hi[i], x[i], step, tape(pos + i));
    }
  }

  /** take_step: `newParams` receives a neighbour of `params`; `params`
      is read only. */
  method TakeStep(ss: SSType, params: seq<real>, newParams: array<real>, rng: Rng)
    requires |ss.minRealVar| == ss.nreal && |ss.maxRealVar| == ss.nreal && rng.Valid()
    requires |params| == ss.nreal && newParams.Length == ss.nreal
    modifies newParams, rng`pos
    ensures newParams[..] == Neighbour(params, ss.minRealVar, ss.maxRealVar, ss.stepSize, ss.nreal, rng.tape, old(rng.pos))
    ensures rng.pos == old(rng.pos) + ss.nreal
  {
    for i := 0 to ss.nreal
      invariant rng.pos == old(rng.pos) + i
      invariant forall c :: 0 <= c < i ==>
                  newParams[c] == Neighbour(params, ss.minRealVar, ss.maxRealVar, ss.stepSize, ss.nreal, rng.tape, old(rng.pos))[c]
    {
      var minV := MaxReal(ss.minRealVar[i], params[i] - ss.stepSize);
      var maxV := MinReal(ss.maxRealVar[i], params[i] + ss.stepSize);
      newParams[i] := rng.RndReal(minV, maxV);
    }
  }
}
