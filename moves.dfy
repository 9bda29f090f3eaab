/** The move generator of the Lam annealer (trunk/fly/backup/moves.c): the
    parameter it tweaks next, the move counters, the acceptance statistics
    per parameter, accepting and rejecting a move, the periodic control of
    the move sizes, and the message that carries this state to another
    node.

    The random deviates of a move, the scoring of the parameters and the
    `exp(log(theta) + x)` move-size update are parameters of the
    operations that use them. */
module Moves {
  import opened Util

  /** `THETA_MIN`: the smallest move size kept (trunk/fly/backup/moves.c:43). */
  const ThetaMin: real := 0.0
  /** `THETA_INIT`: the first move size of every parameter (moves.c:44). */
  const ThetaInit: real := 5.0
  /** The value `old_energy` holds until the first move is scored. */
  const Unscored: real := -999.0
  /** The acceptance ratio the size control steers towards. */
  const TargetRatio: real := 0.44

  /** Acceptance statistics of one parameter (the AccStats record). */
  datatype AccStats = AccStats(accRatio: real, thetaBar: real, hits: int, success: int)

  /** The annealing parameters the move generator uses (from AParms). */
  datatype AParms = AParms(startTempr: real, gain: real, interval: int)

  /** The move counters: the parameter to tweak, moves made, sweeps made. */
  datatype Counters = Counters(idx: int, nhits: int, nsweeps: int)

  /** The counters after one more move over `n` parameters
      (trunk/fly/backup/moves.c:272-281, serial build). */
  function Step(c: Counters, n: nat): (d: Counters)
    requires n > 0 && 0 <= c.idx && 0 <= c.nhits
    ensures 0 <= d.idx < n && d.nhits == c.nhits + 1
    ensures d.nsweeps * n <= d.nhits < (d.nsweeps + 1) * n
  {
    Counters((c.idx + 1) % n, c.nhits + 1, (c.nhits + 1) / n)
  }

  /** The counters agree with the number of moves: the index is the move
      count modulo `n` and the sweeps the completed rounds. */
  predicate InStep(c: Counters, n: nat)
  {
    n > 0 && 0 <= c.nhits && c.idx == c.nhits % n && c.nsweeps == c.nhits / n
  }

  /** Counting from a fresh start keeps the counters in step. */
  lemma StepInStep(c: Counters, n: nat)
    requires InStep(c, n)
    ensures InStep(Step(c, n), n)
  {
    var q, r := c.nhits / n, c.nhits % n;
    assert c.nhits == q * n + r;
    if r + 1 < n {
      DivModUnique(c.nhits + 1, n, q, r + 1);
      DivModUnique(r + 1, n, 0, r + 1);
    } else {
      assert q * n + n == (q + 1) * n;
      DivModUnique(c.nhits + 1, n, q + 1, 0);
      DivModUnique(n, n, 1, 0);
    }
  }

  /** Quotient and remainder are determined by `a == q * n + r`. */
  lemma DivModUnique(a: int, n: nat, q: int, r: int)
    requires n > 0 && 0 <= r < n && a == q * n + r
    ensures a / n == q && a % n == r
  {
    var q0, r0 := a / n, a % n;
    var d := q - q0;
    assert d * n == r0 - r;
    MulAtLeast(if d >= 0 then d else -d, n);
    assert (-d) * n == -(d * n);
  }

  /** A positive multiple of `n` is at least `n`. */
  lemma {:induction false} MulAtLeast(k: nat, n: nat)
    ensures k >= 1 ==> k * n >= n
  {
    if k > 1 {
      MulAtLeast(k - 1, n);
      assert k * n == (k - 1) * n + n;
    }
  }

  /** When Move calls UpdateControl (moves.c:284-286): at the start of a
      sweep, every `interval` sweeps, never before the first sweep. */
  predicate UpdateDue(c: Counters, interval: int): (r: bool)
    requires interval > 0
    ensures r ==> c.idx == 0
    ensures r && c.nsweeps >= 0 ==> c.nsweeps >= interval
  {
    c.nsweeps % interval == 0 && c.idx == 0 && c.nsweeps != 0
  }

  /** Counted from a fresh start, the control update falls on every
      `n * interval`-th move. */
  lemma UpdateDueEvery(c: Counters, n: nat, interval: int)
    requires InStep(c, n) && interval > 0
    ensures UpdateDue(c, interval) <==> c.nhits > 0 && c.nhits % (n * interval) == 0
  {
    if UpdateDue(c, interval) {
      DueOnMultiple(c, n, interval);
    }
    if c.nhits > 0 && c.nhits % (n * interval) == 0 {
      MultipleIsDue(c, n, interval);
    }
  }

  lemma DueOnMultiple(c: Counters, n: nat, interval: int)
    requires InStep(c, n) && interval > 0 && UpdateDue(c, interval)
    ensures c.nhits > 0 && c.nhits % (n * interval) == 0
  {
    var s := c.nsweeps;
    assert c.nhits == s * n;
    var q := s / interval;
    assert s == q * interval;
    assert c.nhits == q * (n * interval);
    DivModUnique(c.nhits, n * interval, q, 0);
  }

  lemma MultipleIsDue(c: Counters, n: nat, interval: int)
    requires InStep(c, n) && interval > 0
    requires c.nhits > 0 && c.nhits % (n * interval) == 0
    ensures UpdateDue(c, interval)
  {
    var q := c.nhits / (n * interval);
    assert c.nhits == q * (n * interval);
    assert c.nhits == (q * interval) * n;
    DivModUnique(c.nhits, n, q * interval, 0);
    DivModUnique(q * interval, interval, q, 0);
  }

  /** The acceptance ratio `success / hits`; a parameter never hit gets 0
      here, where the C division gives NaN. */
  function Ratio(success: int, hits: int): real
  {
    if hits == 0 then 0.0 else success as real / hits as real
  }

  /** The change of `log(theta_bar)`: proportional to how far the ratio is
      from the target. */
  function Steer(gain: real, ratio: real): real
  {
    gain * (ratio - TargetRatio)
  }

  /** One entry after UpdateControl (moves.c:343-356): its ratio recorded,
      the move size scaled by `scale(theta_bar, Steer(gain, ratio))`
      (that is `exp(log(theta_bar) + …)`) and floored at THETA_MIN, and
      the counts reset. */
  function Adapted(a: AccStats, gain: real, scale: (real, real) -> real): (b: AccStats)
    ensures b.hits == 0 && b.success == 0
    ensures b.thetaBar >= ThetaMin
    ensures b.accRatio == Ratio(a.success, a.hits)
    ensures b.thetaBar == ThetaMin || b.thetaBar == scale(a.thetaBar, Steer(gain, b.accRatio))
  {
    var ratio := Ratio(a.success, a.hits);
    var theta := scale(a.thetaBar, Steer(gain, ratio));
    AccStats(ratio, if theta < ThetaMin then ThetaMin else theta, 0, 0)
  }

  /** The whole table after UpdateControl. */
  function Controlled(tab: seq<AccStats>, gain: real, scale: (real, real) -> real): (out: seq<AccStats>)
    ensures |out| == |tab|
    ensures forall i :: 0 <= i < |out| ==> out[i].hits == 0 && out[i].success == 0 && out[i].thetaBar >= ThetaMin
  {
    seq(|tab|, i requires 0 <= i < |tab| => Adapted(tab[i], gain, scale))
  }

  /** The deviate added to the parameter: for distribution 1 its sign is
      flipped when the uniform draw `u` is at most 0.5 (moves.c:297-300). */
  function Signed(theta: real, u: real, distribution: int): (r: real)
    ensures r == theta || r == -theta
    ensures distribution != 1 ==> r == theta
  {
    if distribution == 1 && u - 0.5 <= 0.0 then -theta else theta
  }

  /** One more hit counted for parameter `i`. */
  function Hit(tab: seq<AccStats>, i: nat): (out: seq<AccStats>)
    requires i < |tab|
    ensures |out| == |tab| && out[i].hits == tab[i].hits + 1
    ensures forall k :: 0 <= k < |tab| && k != i ==> out[k] == tab[k]
    ensures out[i].(hits := tab[i].hits) == tab[i]
  {
    tab[i := tab[i].(hits := tab[i].hits + 1)]
  }

  /** One more success counted for parameter `i`. */
  function Success(tab: seq<AccStats>, i: nat): (out: seq<AccStats>)
    requires i < |tab|
    ensures |out| == |tab| && out[i].success == tab[i].success + 1
    ensures forall k :: 0 <= k < |tab| && k != i ==> out[k] == tab[k]
    ensures out[i].(success := tab[i].success) == tab[i]
  {
    tab[i := tab[i].(success := tab[i].success + 1)]
  }

  /** A move changes parameter `i` alone; putting back its value before
      the move (RejectMove) gives back all parameters. */
  lemma MoveThenReject(ps: seq<real>, i: nat, v: real)
    requires i < |ps|
    ensures forall k :: 0 <= k < |ps| && k != i ==> ps[i := v][k] == ps[k]
    ensures ps[i := v][i := ps[i]] == ps
  {
  }

  /* ----------------------------------------------------------------------
     The state message (moves.c:399-472)
     ---------------------------------------------------------------------- */

  /** What the message carries. */
  datatype Snapshot = Snapshot(counters: Counters, oldEnergy: real, params: seq<real>, tab: seq<AccStats>)

  /** Hits and success of each parameter in turn. */
  function Pairs(tab: seq<AccStats>): (m: seq<int>)
    ensures |m| == 2 * |tab|
  {
    if tab == [] then [] else [tab[0].hits, tab[0].success] + Pairs(tab[1..])
  }

  /** Value, ratio and move size of each parameter in turn. */
  function Triples(params: seq<real>, tab: seq<AccStats>): (m: seq<real>)
    requires |params| == |tab|
    ensures |m| == 3 * |tab|
  {
    if tab == [] then []
    else [params[0], tab[0].accRatio, tab[0].thetaBar] + Triples(params[1..], tab[1..])
  }

  lemma {:induction false} PairsAt(tab: seq<AccStats>, i: nat)
    requires i < |tab|
    ensures Pairs(tab)[2 * i] == tab[i].hits && Pairs(tab)[2 * i + 1] == tab[i].success
  {
    if i > 0 {
      PairsAt(tab[1..], i - 1);
    }
  }

  lemma {:induction false} TriplesAt(params: seq<real>, tab: seq<AccStats>, i: nat)
    requires |params| == |tab| && i < |tab|
    ensures Triples(params, tab)[3 * i] == params[i]
    ensures Triples(params, tab)[3 * i + 1] == tab[i].accRatio
    ensures Triples(params, tab)[3 * i + 2] == tab[i].thetaBar
  {
    if i > 0 {
      TriplesAt(params[1..], tab[1..], i - 1);
    }
  }

  /** The longs: `[idx, nhits, nsweeps]`, then hits and success of
      parameter `i` at `2i + 3` and `2i + 4`. */
  function LongMsg(c: Counters, tab: seq<AccStats>): (m: seq<int>)
    ensures |m| == 2 * |tab| + 3
    ensures m[0] == c.idx && m[1] == c.nhits && m[2] == c.nsweeps
  {
    [c.idx, c.nhits, c.nsweeps] + Pairs(tab)
  }

  /** The doubles: `[old_energy]`, then the value, ratio and move size of
      parameter `i` at `3i + 1`, `3i + 2` and `3i + 3`. */
  function DoubleMsg(oldEnergy: real, params: seq<real>, tab: seq<AccStats>): (m: seq<real>)
    requires |params| == |tab|
    ensures |m| == 3 * |tab| + 1
    ensures m[0] == oldEnergy
  {
    [oldEnergy] + Triples(params, tab)
  }

  /** Where parameter `i` sits in the two buffers. */
  lemma MsgAt(c: Counters, oldEnergy: real, params: seq<real>, tab: seq<AccStats>, i: nat)
    requires |params| == |tab| && i < |tab|
    ensures LongMsg(c, tab)[2 * i + 3] == tab[i].hits && LongMsg(c, tab)[2 * i + 4] == tab[i].success
    ensures DoubleMsg(oldEnergy, params, tab)[3 * i + 1] == params[i]
    ensures DoubleMsg(oldEnergy, params, tab)[3 * i + 2] == tab[i].accRatio
    ensures DoubleMsg(oldEnergy, params, tab)[3 * i + 3] == tab[i].thetaBar
  {
    PairsAt(tab, i);
    TriplesAt(params, tab, i);
  }

  /** The hits and successes read back from `longs` pack into its tail. */
  lemma PairsFrom(tab: seq<AccStats>, longs: seq<int>)
    requires |longs| == 2 * |tab| + 3
    requires forall i :: 0 <= i < |tab| ==> tab[i].hits == longs[2 * i + 3] && tab[i].success == longs[2 * i + 4]
    ensures Pairs(tab) == longs[3..]
  {
    forall k | 0 <= k < 2 * |tab|
      ensures Pairs(tab)[k] == longs[3..][k]
    {
      var i := k / 2;
      PairsAt(tab, i);
      assert k == 2 * i || k == 2 * i + 1;
    }
  }

  /** The values, ratios and move sizes read back from `doubles` pack into
      its tail. */
  lemma TriplesFrom(params: seq<real>, tab: seq<AccStats>, doubles: seq<real>)
    requires |params| == |tab| && |doubles| == 3 * |tab| + 1
    requires forall i :: 0 <= i < |tab| ==>
               params[i] == doubles[3 * i + 1] && tab[i].accRatio == doubles[3 * i + 2] && tab[i].thetaBar == doubles[3 * i + 3]
    ensures Triples(params, tab) == doubles[1..]
  {
    forall k | 0 <= k < 3 * |tab|
      ensures Triples(params, tab)[k] == doubles[1..][k]
    {
      var i := k / 3;
      TriplesAt(params, tab, i);
      assert k == 3 * i || k == 3 * i + 1 || k == 3 * i + 2;
    }
  }

  /** What AcceptStateMsg reads back for `n` parameters. A message of
      exactly the size MakeStateMsg makes is what packing the state read
      from it gives back: with MsgRoundTrip, reading and packing are
      inverse. */
  function Unpack(longs: seq<int>, doubles: seq<real>, n: nat): (z: Snapshot)
    requires |longs| >= 2 * n + 3 && |doubles| >= 3 * n + 1
    ensures |z.params| == n && |z.tab| == n
    ensures |longs| == 2 * n + 3 && |doubles| == 3 * n + 1 ==>
              LongMsg(z.counters, z.tab) == longs && DoubleMsg(z.oldEnergy, z.params, z.tab) == doubles
  {
    var params := seq(n, i requires 0 <= i < n => doubles[3 * i + 1]);
    var tab := seq(n, i requires 0 <= i < n =>
                 AccStats(doubles[3 * i + 2], doubles[3 * i + 3], longs[2 * i + 3], longs[2 * i + 4]));
    var z := Snapshot(Counters(longs[0], longs[1], longs[2]), doubles[0], params, tab);
    if |longs| == 2 * n + 3 && |doubles| == 3 * n + 1 then
      PairsFrom(tab, longs);
      TriplesFrom(params, tab, doubles);
      assert longs == longs[..3] + longs[3..];
      assert doubles == doubles[..1] + doubles[1..];
      z
    else
      z
  }

  /** Reading a message back gives exactly the state it was made from. */
  lemma MsgRoundTrip(z: Snapshot)
    requires |z.params| == |z.tab|
    ensures Unpack(LongMsg(z.counters, z.tab), DoubleMsg(z.oldEnergy, z.params, z.tab), |z.tab|) == z
  {
    var u := Unpack(LongMsg(z.counters, z.tab), DoubleMsg(z.oldEnergy, z.params, z.tab), |z.tab|);
    forall i | 0 <= i < |z.tab|
      ensures u.params[i] == z.params[i] && u.tab[i] == z.tab[i]
    {
      MsgAt(z.counters, z.oldEnergy, z.params, z.tab, i);
    }
    assert u.params == z.params;
    assert u.tab == z.tab;
  }

  /** Distinct states give distinct messages. */
  lemma MsgInjective(z: Snapshot, w: Snapshot)
    requires |z.params| == |z.tab| && |w.params| == |w.tab| && |z.tab| == |w.tab|
    requires LongMsg(z.counters, z.tab) == LongMsg(w.counters, w.tab)
    requires DoubleMsg(z.oldEnergy, z.params, z.tab) == DoubleMsg(w.oldEnergy, w.params, w.tab)
    ensures z == w
  {
    MsgRoundTrip(z);
    MsgRoundTrip(w);
  }

  /* ----------------------------------------------------------------------
     The statics of moves.c
     ---------------------------------------------------------------------- */

  class MoveGenerator {
    /** the static copy of the annealing parameters */
    const ap: AParms
    /** the annealed parameters, which `ptab` points to */
    const params: array<real>
    /** acceptance statistics, one entry per parameter */
    const accTab: array<AccStats>
    var idx: int
    var nhits: int
    var nsweeps: int
    var pretweak: real
    var oldEnergy: real
    var newEnergy: real

    /** One statistics entry per parameter. */
    predicate Valid()
    {
      accTab.Length == params.Length
    }

    function Count(): Counters
      reads this
    {
      Counters(idx, nhits, nsweeps)
    }

    /** The state the message carries. */
    function Snap(): Snapshot
      reads this, params, accTab
    {
      Snapshot(Count(), oldEnergy, params[..], accTab[..])
    }

    /** InitMoves (trunk/fly/backup/moves.c:91-161) with the zero-initialised
        statics: every parameter starts with ratio 0, move size THETA_INIT
        and no hits or successes. Reading the annealing parameters, the
        equilibration parameters and seeding the generator are left to the
        caller; the start temperature it returns is `ap.startTempr`. */
    constructor InitMoves(ap: AParms, params: array<real>)
      ensures Valid() && this.ap == ap && this.params == params && fresh(accTab)
      ensures forall i :: 0 <= i < accTab.Length ==> accTab[i] == AccStats(0.0, ThetaInit, 0, 0)
      ensures Count() == Counters(0, 0, 0)
      ensures params.Length > 0 ==> InStep(Count(), params.Length)
      ensures oldEnergy == Unscored && newEnergy == 0.0 && pretweak == 0.0
    {
      var tab := new AccStats[params.Length];
      var i := 0;
      while i < tab.Length
        invariant 0 <= i <= tab.Length
        invariant forall k :: 0 <= k < i ==> tab[k] == AccStats(0.0, ThetaInit, 0, 0)
      {
        tab[i] := AccStats(0.0, ThetaInit, 0, 0);
        i := i + 1;
      }
      this.ap := ap;
      this.params := params;
      accTab := tab;
      idx, nhits, nsweeps := 0, 0, 0;
      pretweak, oldEnergy, newEnergy := 0.0, Unscored, 0.0;
    }

    /** UpdateControl (moves.c:314-358, serial build): every entry's ratio
        recorded, move size adapted and floored, counts reset. */
    method UpdateControl(scale: (real, real) -> real)
      requires Valid()
      modifies accTab
      ensures accTab[..] == Controlled(old(accTab[..]), ap.gain, scale)
      ensures forall i :: 0 <= i < accTab.Length ==>
                accTab[i].hits == 0 && accTab[i].success == 0 && accTab[i].thetaBar >= ThetaMin
    {
      var i := 0;
      while i < accTab.Length
        invariant 0 <= i <= accTab.Length
        invariant forall k :: 0 <= k < i ==> accTab[k] == Adapted(old(accTab[k]), ap.gain, scale)
        invariant forall k :: i <= k < accTab.Length ==> accTab[k] == old(accTab[k])
      {
        accTab[i] := Adapted(accTab[i], ap.gain, scale);
        i := i + 1;
      }
    }

    /** Move (moves.c:263-306): advance the counters, run UpdateControl when
        due, remember the parameter to tweak and add the deviate `theta`
        (sign drawn by `u` for distribution 1) to it. */
    method Move(theta: real, u: real, distribution: int, scale: (real, real) -> real)
      requires Valid() && params.Length > 0 && ap.interval > 0 && 0 <= idx && 0 <= nhits
      modifies this, params, accTab
      ensures Count() == Step(old(Count()), params.Length)
      ensures accTab[..] == if UpdateDue(Count(), ap.interval) then Controlled(old(accTab[..]), ap.gain, scale)
                            else old(accTab[..])
      ensures pretweak == old(params[..])[idx]
      ensures params[..] == old(params[..])[idx := pretweak + Signed(theta, u, distribution)]
      ensures oldEnergy == old(oldEnergy) && newEnergy == old(newEnergy)
    {
      idx := idx + 1;
      nhits := nhits + 1;
      idx := idx % params.Length;
      nsweeps := nhits / params.Length;
      if nsweeps % ap.interval == 0 && idx == 0 && nsweeps != 0 {
        UpdateControl(scale);
      }
      var tweakee := params[idx];
      pretweak := tweakee;
      var dev := theta;
      if distribution == 1 {
        var sign := u - 0.5;
        if sign <= 0.0 {
          dev := -dev;
        }
      }
      tweakee := tweakee + dev;
      params[idx] := tweakee;
    }

    /** GenerateMove (moves.c:207-238): score the start on the first call
        (a forbidden start is an error), make a move, count the hit and
        return FORBIDDEN_MOVE or the energy change. `score` is the score
        plus penalty of the parameters. */
    method GenerateMove(theta: real, u: real, distribution: int, scale: (real, real) -> real,
                        score: seq<real> -> real, forbidden: real) returns (r: Result<real, string>)
      requires Valid() && params.Length > 0 && ap.interval > 0 && 0 <= idx && 0 <= nhits
      modifies this, params, accTab
      ensures r.Err? <==> old(oldEnergy) == Unscored && score(old(params[..])) == forbidden
      ensures r.Ok? ==> Count() == Step(old(Count()), params.Length)
      ensures r.Ok? ==> oldEnergy == if old(oldEnergy) == Unscored then score(old(params[..])) else old(oldEnergy)
      ensures r.Ok? ==> params[..] == old(params[..])[idx := pretweak + Signed(theta, u, distribution)]
                        && pretweak == old(params[..])[idx]
      ensures r.Ok? ==> accTab[..] == Hit(if UpdateDue(Count(), ap.interval)
                                          then Controlled(old(accTab[..]), ap.gain, scale)
                                          else old(accTab[..]), idx)
      ensures r.Ok? ==> newEnergy == score(params[..])
      ensures r.Ok? ==> r.value == if newEnergy >= forbidden then forbidden else newEnergy - oldEnergy
    {
      if oldEnergy == Unscored {
        oldEnergy := score(params[..]);
        if oldEnergy == forbidden {
          return Err("1st call gave forbidden move");
        }
      }
      Move(theta, u, distribution, scale);
      accTab[idx] := accTab[idx].(hits := accTab[idx].hits + 1);
      newEnergy := score(params[..]);
      if newEnergy >= forbidden {
        r := Ok(forbidden);
      } else {
        r := Ok(newEnergy - oldEnergy);
      }
    }

    /** AcceptMove (moves.c:243-247): the new energy becomes the old one and
        the parameter's success is counted. */
    method AcceptMove()
      requires Valid() && 0 <= idx < params.Length
      modifies this`oldEnergy, accTab
      ensures oldEnergy == newEnergy
      ensures accTab[..] == Success(old(accTab[..]), idx)
    {
      oldEnergy := newEnergy;
      accTab[idx] := accTab[idx].(success := accTab[idx].success + 1);
    }

    /** RejectMove (moves.c:250-253): the tweaked parameter gets back the
        value it had before the move. */
    method RejectMove()
      requires 0 <= idx < params.Length
      modifies params
      ensures params[..] == old(params[..])[idx := pretweak]
    {
      params[idx] := pretweak;
    }

    /** MakeStateMsg (moves.c:399-437): the two buffers of the message. */
    method MakeStateMsg() returns (longbuf: array<int>, doublebuf: array<real>)
      requires Valid()
      ensures fresh(longbuf) && fresh(doublebuf)
      ensures longbuf[..] == LongMsg(Count(), accTab[..])
      ensures doublebuf[..] == DoubleMsg(oldEnergy, params[..], accTab[..])
    {
      var n := params.Length;
      longbuf := new int[2 * n + 3];
      doublebuf := new real[3 * n + 1];
      doublebuf[0] := oldEnergy;
      longbuf[0], longbuf[1], longbuf[2] := idx, nhits, nsweeps;
      ghost var lm := LongMsg(Count(), accTab[..]);
      ghost var dm := DoubleMsg(oldEnergy, params[..], accTab[..]);
      var i := 0;
      while i < n
        invariant 0 <= i <= n
        invariant forall k :: 0 <= k < 2 * i + 3 ==> longbuf[k] == lm[k]
        invariant forall k :: 0 <= k < 3 * i + 1 ==> doublebuf[k] == dm[k]
      {
        PackParam(longbuf, doublebuf, i, lm, dm);
        i := i + 1;
      }
    }

    /** The loop body of MakeStateMsg: parameter `i`'s slots of the two
        buffers. */
    method PackParam(longbuf: array<int>, doublebuf: array<real>, i: nat,
                     ghost lm: seq<int>, ghost dm: seq<real>)
      requires Valid() && i < params.Length && doublebuf != params
      requires lm == LongMsg(Count(), accTab[..]) && dm == DoubleMsg(oldEnergy, params[..], accTab[..])
      requires longbuf.Length == |lm| && doublebuf.Length == |dm|
      requires forall k :: 0 <= k < 2 * i + 3 ==> longbuf[k] == lm[k]
      requires forall k :: 0 <= k < 3 * i + 1 ==> doublebuf[k] == dm[k]
      modifies longbuf, doublebuf
      ensures forall k :: 0 <= k < 2 * i + 5 ==> longbuf[k] == lm[k]
      ensures forall k :: 0 <= k < 3 * i + 4 ==> doublebuf[k] == dm[k]
    {
      MsgAt(Count(), oldEnergy, params[..], accTab[..], i);
      var nl := i * 2 + 3;
      var nd := i * 3 + 1;
      longbuf[nl] := accTab[i].hits;
      longbuf[nl + 1] := accTab[i].success;
      doublebuf[nd] := params[i];
      doublebuf[nd + 1] := accTab[i].accRatio;
      doublebuf[nd + 2] := accTab[i].thetaBar;
    }

    /** AcceptStateMsg (moves.c:445-472): install the state a message
        carries. */
    method AcceptStateMsg(longbuf: array<int>, doublebuf: array<real>)
      requires Valid()
      requires longbuf.Length >= 2 * params.Length + 3 && doublebuf.Length >= 3 * params.Length + 1
      requires doublebuf != params
      modifies this, params, accTab
      ensures Snap() == Unpack(longbuf[..], doublebuf[..], params.Length)
    {
      idx := longbuf[0];
      nhits := longbuf[1];
      nsweeps := longbuf[2];
      oldEnergy := doublebuf[0];
      ghost var z := Unpack(longbuf[..], doublebuf[..], params.Length);
      var i := 0;
      while i < params.Length
        invariant 0 <= i <= params.Length
        invariant params[..i] == z.params[..i]
        invariant accTab[..i] == z.tab[..i]
        invariant Count() == z.counters && oldEnergy == z.oldEnergy
      {
        var nl := i * 2 + 3;
        var nd := i * 3 + 1;
        params[i] := doublebuf[nd];
        accTab[i] := AccStats(doublebuf[nd + 1], doublebuf[nd + 2], longbuf[nl], longbuf[nl + 1]);
        assert params[..i + 1] == params[..i] + [z.params[i]];
        assert accTab[..i + 1] == accTab[..i] + [z.tab[i]];
        i := i + 1;
      }
      assert params[..] == z.params;
      assert accTab[..] == z.tab;
    }
  }
}
