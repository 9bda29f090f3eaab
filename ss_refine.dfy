/** ss/refine.c: local refinement of a set by stochastic hill climbing
    (`refine_set`, `refine_individual`). */
module SSRefine {
  import opened Util
  import opened SSTypes
  import opened SSParams
  import opened Oracle
  import opened SSLocalSearch
  import SSTools
  import SSStats
  import SSInit
  import SSEvaluate

  /** fabs */
  function Abs(x: real): real
  {
    if x < 0.0 then -x else x
  }

  /** What a refinement works with: the method character (`'t'` or `'s'`
      climb, any other does nothing), the objective, the bounds, the step
      size, the dimension and the number of steps. */
  datatype Climber = Climber(how: char, objective: seq<real> -> real, lo: seq<real>, hi: seq<real>,
                             step: real, n: nat, steps: nat)
  {
    predicate Sized()
    {
      |lo| == n && |hi| == n
    }

    /** Whether the method climbs at all. */
    predicate Climbs()
    {
      how == 't' || how == 's'
    }

    /** Draws one refinement consumes. */
    function Draws(): nat
    {
      if Climbs() then steps * n else 0
    }

    /** Objective calls one refinement makes. */
    function Evals(): nat
    {
      if Climbs() then steps else 0
    }

    /** Increments of `n_refinement` one refinement makes inside
        refine_individual (one per step for method 't'). */
    function StepCounts(): nat
    {
      if how == 't' then steps else 0
    }
  }

  /** The number of steps refine_individual takes: `max_no_improve`, none
      when that is not positive. */
  function StepCount(maxNoImprove: int): (k: nat)
    ensures maxNoImprove > 0 ==> k == maxNoImprove
    ensures maxNoImprove <= 0 ==> k == 0
  {
    if maxNoImprove > 0 then maxNoImprove else 0
  }

  /** The climber of a run for method `how`. */
  function ClimberOf(ss: SSType, how: char, objective: seq<real> -> real): (c: Climber)
    ensures c.how == how && c.n == ss.nreal && c.steps == StepCount(ss.maxNoImprove)
  {
    Climber(how, objective, ss.minRealVar, ss.maxRealVar, ss.stepSize, ss.nreal, StepCount(ss.maxNoImprove))
  }

  /** One step: the neighbour drawn from `tape(pos)` on replaces `x` only
      when its cost is strictly lower. */
  function ClimbStep(x: Individual, c: Climber, tape: nat -> real, pos: nat): (y: Individual)
    requires c.Sized() && |x.params| == c.n
    ensures |y.params| == c.n
    ensures y == x || (y.cost < x.cost && y.cost == c.objective(y.params))
  {
    var cand := Neighbour(x.params, c.lo, c.hi, c.step, c.n, tape, pos);
    if c.objective(cand) < x.cost then Individual(cand, c.objective(cand)) else x
  }

  /** `k` climbing steps from `x`, the draws starting at `tape(pos)`. */
  function Climb(x: Individual, c: Climber, tape: nat -> real, pos: nat, k: nat): (y: Individual)
    requires c.Sized() && |x.params| == c.n
    ensures |y.params| == c.n
    decreases k
  {
    if k == 0 then x else Climb(ClimbStep(x, c, tape, pos), c, tape, pos + c.n, k - 1)
  }

  /** What refine_individual makes of `x`. */
  function Refined(x: Individual, c: Climber, tape: nat -> real, pos: nat): (y: Individual)
    requires c.Sized() && |x.params| == c.n
    ensures |y.params| == c.n
  {
    if c.Climbs() then Climb(x, c, tape, pos, c.steps) else x
  }

  /** Climbing never makes the cost higher: the result is `x` itself or a
      strictly cheaper point whose cost is its objective value. */
  lemma {:induction false} ClimbImproves(x: Individual, c: Climber, tape: nat -> real, pos: nat, k: nat)
    requires c.Sized() && |x.params| == c.n
    ensures var y := Climb(x, c, tape, pos, k);
            y == x || (y.cost < x.cost && y.cost == c.objective(y.params))
    decreases k
  {
    if k > 0 {
      ClimbImproves(ClimbStep(x, c, tape, pos), c, tape, pos + c.n, k - 1);
    }
  }

  /** Climbing from a point within the bounds stays within the bounds. */
  lemma {:induction false} ClimbInBounds(x: Individual, c: Climber, tape: nat -> real, pos: nat, k: nat)
    requires c.Sized() && |x.params| == c.n && InBounds(x.params, c.lo, c.hi) && c.step >= 0.0
    requires forall j: nat :: 0.0 <= tape(j) <= 1.0
    ensures InBounds(Climb(x, c, tape, pos, k).params, c.lo, c.hi)
    decreases k
  {
    if k > 0 {
      NeighbourNearby(x.params, c.lo, c.hi, c.step, c.n, tape, pos);
      ClimbInBounds(ClimbStep(x, c, tape, pos), c, tape, pos + c.n, k - 1);
    }
  }

  /** Refinement never makes the cost higher and keeps an evaluated point
      evaluated. */
  lemma RefinedImproves(x: Individual, c: Climber, tape: nat -> real, pos: nat)
    requires c.Sized() && |x.params| == c.n
    ensures var y := Refined(x, c, tape, pos);
            y.cost <= x.cost && (x.cost == c.objective(x.params) ==> y.cost == c.objective(y.params))
  {
    if c.Climbs() {
      ClimbImproves(x, c, tape, pos, c.steps);
    }
  }

  /** Refinement keeps a point within the bounds. */
  lemma RefinedInBounds(x: Individual, c: Climber, tape: nat -> real, pos: nat)
    requires c.Sized() && |x.params| == c.n && InBounds(x.params, c.lo, c.hi) && c.step >= 0.0
    requires forall j: nat :: 0.0 <= tape(j) <= 1.0
    ensures InBounds(Refined(x, c, tape, pos).params, c.lo, c.hi)
  {
    if c.Climbs() {
      ClimbInBounds(x, c, tape, pos, c.steps);
    }
  }

  /** The points one step hands to update_frequency_matrix: the
      neighbour when the method is 's' and the neighbour is kept, and
      nothing otherwise. */
  function Kept(x: Individual, c: Climber, tape: nat -> real, pos: nat): (r: seq<Individual>)
    requires c.Sized() && |x.params| == c.n
    ensures Shaped(r, c.n) && (r == [] || (c.how == 's' && r == [ClimbStep(x, c, tape, pos)]))
  {
    var y := ClimbStep(x, c, tape, pos);
    if c.how == 's' && y != x then [y] else []
  }

  /** The points `k` climbing steps from `x` hand to
      update_frequency_matrix, in the order of the steps. */
  function ClimbTrail(x: Individual, c: Climber, tape: nat -> real, pos: nat, k: nat): (r: seq<Individual>)
    requires c.Sized() && |x.params| == c.n
    ensures Shaped(r, c.n)
    decreases k
  {
    if k == 0 then [] else Kept(x, c, tape, pos) + ClimbTrail(ClimbStep(x, c, tape, pos), c, tape, pos + c.n, k - 1)
  }

  /** The points refine_individual on `x` hands to
      update_frequency_matrix. */
  ghost function Trail(x: Individual, c: Climber, tape: nat -> real, pos: nat): (r: seq<Individual>)
    ensures Shaped(r, c.n)
  {
    if c.Sized() && |x.params| == c.n && c.Climbs() then ClimbTrail(x, c, tape, pos, c.steps) else []
  }

  /** Every point counted along a climb is an evaluated point strictly
      cheaper than the start, there is at most one per step, and method
      't' counts none. */
  lemma {:induction false} ClimbTrailCheaper(x: Individual, c: Climber, tape: nat -> real, pos: nat, k: nat)
    requires c.Sized() && |x.params| == c.n
    ensures var t := ClimbTrail(x, c, tape, pos, k);
            && |t| <= k && (c.how != 's' ==> t == [])
            && forall j :: 0 <= j < |t| ==> t[j].cost < x.cost && t[j].cost == c.objective(t[j].params)
    decreases k
  {
    if k > 0 {
      var y := ClimbStep(x, c, tape, pos);
      ClimbTrailCheaper(y, c, tape, pos + c.n, k - 1);
    }
  }

  // ---------------------------------------------------------------------------
  // refine_individual

  /** The frequency matrix after a refinement: it only grows, and only for
      method 's' with statistics on. */
  ghost predicate FreqsKept(ss: SSType, how: char, f0: seq<seq<int>>)
    reads ss
  {
    ss.Matrices() && SSInit.FreqsAtLeast(f0, ss.freqs) && (!(ss.stats && how == 's') ==> ss.freqs == f0)
  }

  /** One pass of the loop of refine_individual on `members[k]`. */
  method RefineStep(ss: SSType, members: array<Individual>, k: nat, how: char, objective: seq<real> -> real,
                    rng: Rng, newParams: array<real>)
    requires |ss.minRealVar| == ss.nreal && |ss.maxRealVar| == ss.nreal && rng.Valid() && ss.Matrices()
    requires k < members.Length && |members[k].params| == ss.nreal && newParams.Length == ss.nreal
    modifies members, newParams, rng`pos, ss`nRefinement, ss`nFunctionEvals, ss`freqs
    ensures var c := ClimberOf(ss, how, objective);
            members[..] == old(members[..])[k := if c.Climbs() then ClimbStep(old(members[k]), c, rng.tape, old(rng.pos))
                                                 else old(members[k])]
    ensures rng.pos == old(rng.pos) + (if how == 't' || how == 's' then ss.nreal else 0)
    ensures ss.nFunctionEvals == old(ss.nFunctionEvals) + (if how == 't' || how == 's' then 1 else 0)
    ensures ss.nRefinement == old(ss.nRefinement) + (if how == 't' then 1 else 0)
    ensures FreqsKept(ss, how, old(ss.freqs))
    ensures ss.freqs == SSStats.Tallied(ss.stats, old(ss.freqs), Kept(old(members[k]), ClimberOf(ss, how, objective), rng.tape, old(rng.pos)),
                                        ss.minBoundary, ss.maxBoundary)
  {
    if how == 't' {
      ss.nRefinement := ss.nRefinement + 1;
      var cand := Probe(ss, members[k], objective, rng, newParams);
      if cand.cost < members[k].cost {
        assert cand.params[..ss.nreal] == cand.params;
        SSTools.CopyInd(ss, members, k, cand);
      }
      SSInit.FreqsTrans(ss.freqs, ss.freqs, ss.freqs);
    } else if how == 's' {
      var cand := Probe(ss, members[k], objective, rng, newParams);
      if cand.cost < members[k].cost {
        assert cand.params[..ss.nreal] == cand.params;
        SSTools.CopyInd(ss, members, k, cand);
        if ss.stats {
          SSStats.CountedOne(ss.freqs, cand, ss.minBoundary, ss.maxBoundary);
          SSStats.UpdateFrequencyMatrix(ss, cand);
        } else {
          SSInit.FreqsTrans(ss.freqs, ss.freqs, ss.freqs);
        }
      } else {
        SSInit.FreqsTrans(ss.freqs, ss.freqs, ss.freqs);
      }
    } else {
      SSInit.FreqsTrans(ss.freqs, ss.freqs, ss.freqs);
    }
  }

  /** take_step from `x` into the buffer, then evaluate_ind on the new
      candidate. */
  method Probe(ss: SSType, x: Individual, objective: seq<real> -> real, rng: Rng, newParams: array<real>)
    returns (cand: Individual)
    requires |ss.minRealVar| == ss.nreal && |ss.maxRealVar| == ss.nreal && rng.Valid()
    requires |x.params| == ss.nreal && newParams.Length == ss.nreal
    modifies newParams, rng`pos, ss`nFunctionEvals
    ensures var p := Neighbour(x.params, ss.minRealVar, ss.maxRealVar, ss.stepSize, ss.nreal, rng.tape, old(rng.pos));
            cand == Individual(p, objective(p))
    ensures rng.pos == old(rng.pos) + ss.nreal
    ensures ss.nFunctionEvals == old(ss.nFunctionEvals) + 1
  {
    TakeStep(ss, x.params, newParams, rng);
    cand := SSEvaluate.EvaluateInd(ss, Individual(newParams[..], 0.0), objective);
  }

  /** refine_individual: `max_no_improve` steps on `members[k]`, each
      keeping the neighbour only when it is strictly cheaper; nothing else
      in the set changes, and with method 's' every kept neighbour is
      counted in the frequency matrix. */
  method RefineIndividual(ss: SSType, members: array<Individual>, k: nat, how: char, objective: seq<real> -> real, rng: Rng)
    requires |ss.minRealVar| == ss.nreal && |ss.maxRealVar| == ss.nreal && rng.Valid() && ss.Matrices()
    requires k < members.Length && |members[k].params| == ss.nreal
    modifies members, rng`pos, ss`nRefinement, ss`nFunctionEvals, ss`freqs
    ensures var c := ClimberOf(ss, how, objective);
            && members[..] == old(members[..])[k := Refined(old(members[k]), c, rng.tape, old(rng.pos))]
            && rng.pos == old(rng.pos) + c.Draws()
            && ss.nFunctionEvals == old(ss.nFunctionEvals) + c.Evals()
            && ss.nRefinement == old(ss.nRefinement) + c.StepCounts()
    ensures FreqsKept(ss, how, old(ss.freqs))
    ensures ss.freqs == SSStats.Tallied(ss.stats, old(ss.freqs), Trail(old(members[k]), ClimberOf(ss, how, objective), rng.tape, old(rng.pos)),
                                        ss.minBoundary, ss.maxBoundary)
  {
    ghost var c := ClimberOf(ss, how, objective);
    var newParams := new real[ss.nreal];
    ghost var done: seq<Individual> := [];
    var i := 0;
    while i < ss.maxNoImprove
      invariant 0 <= i <= c.steps
      invariant Climbing(ss, members, rng, k, c, i, done, old(members[..]), old(rng.pos), old(ss.nFunctionEvals), old(ss.nRefinement))
      invariant Tallying(ss, old(ss.freqs), done)
    {
      done := ClimbOnce(ss, members, k, how, objective, rng, newParams, c, i, done, old(ss.freqs), old(members[..]), old(rng.pos),
                        old(ss.nFunctionEvals), old(ss.nRefinement));
      i := i + 1;
    }
    assert i == c.steps;
    TimesIsProduct(c.steps, ss.nreal);
    assert rng.pos == old(rng.pos) + c.Draws();
    assert done + [] == done;
    ClimbTrailCheaper(old(members[k]), c, rng.tape, old(rng.pos), c.steps);
  }

  /** The frequency matrix is the one at the start, `f0`, with `xs`
      counted when statistics are on. */
  ghost predicate Tallying(ss: SSType, f0: seq<seq<int>>, xs: seq<Individual>)
    reads ss
  {
    && ss.Matrices() && SSStats.SameGrid(f0, ss.minBoundary, ss.maxBoundary) && Shaped(xs, |f0|)
    && SSInit.FreqsAtLeast(f0, ss.freqs) && ss.freqs == SSStats.Tallied(ss.stats, f0, xs, ss.minBoundary, ss.maxBoundary)
  }

  /** The state of refine_individual after `i` steps on member `k`: the
      climb still to come ends where the whole climb from the start ends,
      the points counted so far, `done`, and those still to be counted
      make up the whole climb's, and the draws and counters have grown by
      `i` steps. */
  ghost predicate Climbing(ss: SSType, members: array<Individual>, rng: Rng, k: nat, c: Climber, i: nat, done: seq<Individual>,
                           members0: seq<Individual>, pos0: nat, nFunctionEvals0: int, nRefinement0: int)
    reads ss, members, rng
  {
    && c.Sized() && i <= c.steps && k < |members0| == members.Length && |members0[k].params| == c.n
    && members[..] == members0[k := members[k]] && |members[k].params| == c.n
    && (c.Climbs() ==> Climb(members[k], c, rng.tape, rng.pos, c.steps - i) == Climb(members0[k], c, rng.tape, pos0, c.steps))
    && (c.Climbs() ==> done + ClimbTrail(members[k], c, rng.tape, rng.pos, c.steps - i) == ClimbTrail(members0[k], c, rng.tape, pos0, c.steps))
    && (!c.Climbs() ==> members[k] == members0[k] && done == [])
    && rng.pos == pos0 + (if c.Climbs() then Times(i, c.n) else 0)
    && ss.nFunctionEvals == nFunctionEvals0 + (if c.Climbs() then i else 0)
    && ss.nRefinement == nRefinement0 + (if c.how == 't' then i else 0)
  }

  /** One pass of the loop of refine_individual, with the bookkeeping of
      the climb. */
  method ClimbOnce(ss: SSType, members: array<Individual>, k: nat, how: char, objective: seq<real> -> real,
                   rng: Rng, newParams: array<real>, ghost c: Climber, ghost i: nat, ghost done: seq<Individual>,
                   ghost f0: seq<seq<int>>, ghost members0: seq<Individual>, ghost pos0: nat, ghost nFunctionEvals0: int,
                   ghost nRefinement0: int)
    returns (ghost done': seq<Individual>)
    requires |ss.minRealVar| == ss.nreal && |ss.maxRealVar| == ss.nreal && rng.Valid()
    requires newParams.Length == ss.nreal && c == ClimberOf(ss, how, objective) && i < c.steps
    requires Climbing(ss, members, rng, k, c, i, done, members0, pos0, nFunctionEvals0, nRefinement0)
    requires Tallying(ss, f0, done)
    modifies members, newParams, rng`pos, ss`nRefinement, ss`nFunctionEvals, ss`freqs
    ensures Climbing(ss, members, rng, k, c, i + 1, done', members0, pos0, nFunctionEvals0, nRefinement0)
    ensures Tallying(ss, f0, done')
  {
    ghost var x, pos, f := members[k], rng.pos, ss.freqs;
    RefineStep(ss, members, k, how, objective, rng, newParams);
    ghost var kept := Kept(x, c, rng.tape, pos);
    done' := done + kept;
    assert Times(i + 1, c.n) == Times(i, c.n) + c.n;
    if c.Climbs() {
      ConcatAssoc(done, kept, ClimbTrail(members[k], c, rng.tape, rng.pos, c.steps - (i + 1)));
    } else {
      assert done' == [];
    }
    SSStats.TalliedAppend(ss.stats, f0, done, kept, ss.minBoundary, ss.maxBoundary);
    SSInit.FreqsTrans(f0, f, ss.freqs);
  }

  // ---------------------------------------------------------------------------
  // refine_set

  /** The visit of refine_set, from member `i - 1` down to member 0 of
      `s`, the draws starting at `tape(pos)`: member `j` is left alone when
      `close(s, j)` holds of the set as it is at that moment (members above
      `j` may already be refined), and is otherwise replaced by
      `refine(s[j], pos)`, which uses `draws` draws. The result is the new
      set, the position after the last draw and the number of members
      refined. */
  ghost function RefineDown(s: seq<Individual>, i: nat, close: (seq<Individual>, nat) -> bool,
                            refine: (Individual, nat) -> Individual, draws: nat, pos: nat): (r: (seq<Individual>, nat, nat))
    requires i <= |s|
    ensures |r.0| == |s| && r.2 <= i && r.1 >= pos
    decreases i
  {
    if i == 0 then (s, pos, 0)
    else if close(s, i - 1) then RefineDown(s, i - 1, close, refine, draws, pos)
    else
      var r := RefineDown(s[i - 1 := refine(s[i - 1], pos)], i - 1, close, refine, draws, pos + draws);
      (r.0, r.1, r.2 + 1)
  }

  /** Members from `i` on are not visited. */
  lemma {:induction false} RefineDownTail(s: seq<Individual>, i: nat, close: (seq<Individual>, nat) -> bool,
                                         refine: (Individual, nat) -> Individual, draws: nat, pos: nat)
    requires i <= |s|
    ensures RefineDown(s, i, close, refine, draws, pos).0[i..] == s[i..]
    decreases i
  {
    if i > 0 {
      if close(s, i - 1) {
        RefineDownTail(s, i - 1, close, refine, draws, pos);
      } else {
        var s' := s[i - 1 := refine(s[i - 1], pos)];
        RefineDownTail(s', i - 1, close, refine, draws, pos + draws);
        assert s'[i..] == s[i..];
      }
    }
  }

  /** Each refined member uses `draws` draws and nothing else draws. */
  lemma {:induction false} RefineDownDraws(s: seq<Individual>, i: nat, close: (seq<Individual>, nat) -> bool,
                                          refine: (Individual, nat) -> Individual, draws: nat, pos: nat)
    requires i <= |s|
    ensures var r := RefineDown(s, i, close, refine, draws, pos); r.1 == pos + r.2 * draws
    decreases i
  {
    if i > 0 {
      if close(s, i - 1) {
        RefineDownDraws(s, i - 1, close, refine, draws, pos);
      } else {
        var s' := s[i - 1 := refine(s[i - 1], pos)];
        RefineDownDraws(s', i - 1, close, refine, draws, pos + draws);
        MulSucc(RefineDown(s', i - 1, close, refine, draws, pos + draws).2, draws);
      }
    }
  }

  /** The points the visit of RefineDown hands to update_frequency_matrix:
      `trail(s[j], pos)` for every member `j` it refines, in the order of
      the visit. */
  ghost function RefineDownTrail(s: seq<Individual>, i: nat, close: (seq<Individual>, nat) -> bool,
                                 refine: (Individual, nat) -> Individual, trail: (Individual, nat) -> seq<Individual>,
                                 draws: nat, pos: nat): seq<Individual>
    requires i <= |s|
    decreases i
  {
    if i == 0 then []
    else if close(s, i - 1) then RefineDownTrail(s, i - 1, close, refine, trail, draws, pos)
    else trail(s[i - 1], pos) + RefineDownTrail(s[i - 1 := refine(s[i - 1], pos)], i - 1, close, refine, trail, draws, pos + draws)
  }

  /** When every trail is of points of length `n`, so is the visit's. */
  lemma {:induction false} RefineDownTrailShaped(s: seq<Individual>, i: nat, close: (seq<Individual>, nat) -> bool,
                                                refine: (Individual, nat) -> Individual,
                                                trail: (Individual, nat) -> seq<Individual>, draws: nat, pos: nat, n: nat)
    requires i <= |s|
    requires forall x: Individual, p: nat :: Shaped(trail(x, p), n)
    ensures Shaped(RefineDownTrail(s, i, close, refine, trail, draws, pos), n)
    decreases i
  {
    if i > 0 {
      RefineDownTrailShaped(s, i - 1, close, refine, trail, draws, pos, n);
      RefineDownTrailShaped(s[i - 1 := refine(s[i - 1], pos)], i - 1, close, refine, trail, draws, pos + draws, n);
    }
  }

  /** Two visits whose tests, refinements and trails agree everywhere
      count the same points. */
  lemma {:induction false} RefineDownTrailAgree(s: seq<Individual>, i: nat, close: (seq<Individual>, nat) -> bool,
                                               close': (seq<Individual>, nat) -> bool, refine: (Individual, nat) -> Individual,
                                               refine': (Individual, nat) -> Individual,
                                               trail: (Individual, nat) -> seq<Individual>,
                                               trail': (Individual, nat) -> seq<Individual>, draws: nat, pos: nat)
    requires i <= |s|
    requires forall t: seq<Individual>, j: nat :: close(t, j) == close'(t, j)
    requires forall x: Individual, p: nat :: refine(x, p) == refine'(x, p)
    requires forall x: Individual, p: nat :: trail(x, p) == trail'(x, p)
    ensures RefineDownTrail(s, i, close, refine, trail, draws, pos) == RefineDownTrail(s, i, close', refine', trail', draws, pos)
    decreases i
  {
    if i > 0 {
      RefineDownTrailAgree(s, i - 1, close, close', refine, refine', trail, trail', draws, pos);
      RefineDownTrailAgree(s[i - 1 := refine(s[i - 1], pos)], i - 1, close, close', refine, refine', trail, trail',
                           draws, pos + draws);
    }
  }

  /** The test of refine_set for member `j` of the first `len`: its cost
      is within `feps` of the cost of its closest other member. */
  ghost predicate IsClose(s: seq<Individual>, j: nat, len: int, feps: real, n: nat)
  {
    if 2 <= len <= |s| && j < len && Shaped(s, n) then
      Abs(s[j].cost - s[SSTools.ClosestIndex(s, s[j], n, j, len)].cost) < feps
    else true
  }

  /** refine_individual on `x`, the draws starting at `tape(pos)`. */
  ghost function Refinement(x: Individual, c: Climber, tape: nat -> real, pos: nat): Individual
  {
    if c.Sized() && |x.params| == c.n then Refined(x, c, tape, pos) else x
  }

  ghost function CloseTest(len: int, feps: real, n: nat): (seq<Individual>, nat) -> bool
  {
    (s: seq<Individual>, j: nat) => IsClose(s, j, len, feps, n)
  }

  ghost function Refiner(c: Climber, tape: nat -> real): (Individual, nat) -> Individual
  {
    (x: Individual, pos: nat) => Refinement(x, c, tape, pos)
  }

  /** `close` is the test of refine_set. The loop of refine_set works with
      any such `close`, so that it needs to know the test only where it
      takes it. */
  ghost predicate IsCloseTest(close: (seq<Individual>, nat) -> bool, len: int, feps: real, n: nat)
  {
    forall s: seq<Individual>, j: nat {:trigger IsClose(s, j, len, feps, n)} :: close(s, j) == IsClose(s, j, len, feps, n)
  }

  ghost function Trailer(c: Climber, tape: nat -> real): (Individual, nat) -> seq<Individual>
  {
    (x: Individual, pos: nat) => Trail(x, c, tape, pos)
  }

  /** `trail` gives the points refine_individual counts. */
  ghost predicate IsTrailer(trail: (Individual, nat) -> seq<Individual>, c: Climber, tape: nat -> real)
  {
    forall x: Individual, p: nat {:trigger Trail(x, c, tape, p)} :: trail(x, p) == Trail(x, c, tape, p)
  }

  /** `refine` is refine_individual. */
  ghost predicate IsRefiner(refine: (Individual, nat) -> Individual, c: Climber, tape: nat -> real)
  {
    forall x: Individual, p: nat {:trigger Refinement(x, c, tape, p)} :: refine(x, p) == Refinement(x, c, tape, p)
  }

  /** Two visits whose tests and refinements agree everywhere end alike. */
  lemma {:induction false} RefineDownAgree(s: seq<Individual>, i: nat, close: (seq<Individual>, nat) -> bool,
                                          close': (seq<Individual>, nat) -> bool, refine: (Individual, nat) -> Individual,
                                          refine': (Individual, nat) -> Individual, draws: nat, pos: nat)
    requires i <= |s|
    requires forall t: seq<Individual>, j: nat :: close(t, j) == close'(t, j)
    requires forall x: Individual, p: nat :: refine(x, p) == refine'(x, p)
    ensures RefineDown(s, i, close, refine, draws, pos) == RefineDown(s, i, close', refine', draws, pos)
    decreases i
  {
    if i > 0 {
      RefineDownAgree(s, i - 1, close, close', refine, refine', draws, pos);
      RefineDownAgree(s[i - 1 := refine(s[i - 1], pos)], i - 1, close, close', refine, refine', draws, pos + draws);
    }
  }

  /** A test and a refinement characterised by IsCloseTest and IsRefiner
      are the test and the refinement of refine_set. */
  lemma Characterised(close: (seq<Individual>, nat) -> bool, refine: (Individual, nat) -> Individual,
                      len: int, feps: real, c: Climber, tape: nat -> real)
    requires IsCloseTest(close, len, feps, c.n) && IsRefiner(refine, c, tape)
    ensures forall t: seq<Individual>, j: nat :: close(t, j) == CloseTest(len, feps, c.n)(t, j)
    ensures forall x: Individual, p: nat :: refine(x, p) == Refiner(c, tape)(x, p)
  {
    forall t: seq<Individual>, j: nat ensures close(t, j) == CloseTest(len, feps, c.n)(t, j) {
      assert close(t, j) == IsClose(t, j, len, feps, c.n);
    }
    forall x: Individual, p: nat ensures refine(x, p) == Refiner(c, tape)(x, p) {
      assert refine(x, p) == Refinement(x, c, tape, p);
    }
  }

  /** A trail characterised by IsTrailer is the trail of refine_individual. */
  lemma TrailCharacterised(trail: (Individual, nat) -> seq<Individual>, c: Climber, tape: nat -> real)
    requires IsTrailer(trail, c, tape)
    ensures forall x: Individual, p: nat :: trail(x, p) == Trailer(c, tape)(x, p)
  {
    forall x: Individual, p: nat ensures trail(x, p) == Trailer(c, tape)(x, p) {
      assert trail(x, p) == Trail(x, c, tape, p);
    }
  }

  /** refine_set on the first `len` members of `s` (none when `len` is not
      positive). */
  ghost function RefineSetOut(s: seq<Individual>, len: int, feps: real, c: Climber, tape: nat -> real, pos: nat)
    : (r: (seq<Individual>, nat, nat))
    requires len <= |s|
  {
    RefineDown(s, if len > 0 then len else 0, CloseTest(len, feps, c.n), Refiner(c, tape), c.Draws(), pos)
  }

  /** refine_set as run with the parameters of `ss` and method `how`. */
  ghost function RefineSetRun(ss: SSType, s: seq<Individual>, len: int, how: char, objective: seq<real> -> real,
                              tape: nat -> real, pos: nat): (r: (seq<Individual>, nat, nat))
    requires len <= |s|
  {
    RefineSetOut(s, len, ss.fitnessEpsilon, ClimberOf(ss, how, objective), tape, pos)
  }

  /** The points refine_set, run with the parameters of `ss` and method
      `how`, hands to update_frequency_matrix. */
  ghost function RefineSetTrail(ss: SSType, s: seq<Individual>, len: int, how: char, objective: seq<real> -> real,
                                tape: nat -> real, pos: nat): (r: seq<Individual>)
    requires len <= |s|
    ensures Shaped(r, ss.nreal)
  {
    var c := ClimberOf(ss, how, objective);
    RefineDownTrailShaped(s, if len > 0 then len else 0, CloseTest(len, ss.fitnessEpsilon, c.n), Refiner(c, tape),
                          Trailer(c, tape), c.Draws(), pos, c.n);
    RefineDownTrail(s, if len > 0 then len else 0, CloseTest(len, ss.fitnessEpsilon, c.n), Refiner(c, tape),
                    Trailer(c, tape), c.Draws(), pos)
  }

  /** When no refinement makes a cost higher, no member's cost goes up. */
  lemma {:induction false} RefineDownImproves(s: seq<Individual>, i: nat, close: (seq<Individual>, nat) -> bool,
                                             refine: (Individual, nat) -> Individual, draws: nat, pos: nat)
    requires i <= |s|
    requires forall x: Individual, p: nat :: refine(x, p).cost <= x.cost
    ensures NoDearer(s, RefineDown(s, i, close, refine, draws, pos).0)
    decreases i
  {
    if i > 0 {
      if close(s, i - 1) {
        RefineDownImproves(s, i - 1, close, refine, draws, pos);
      } else {
        var s' := s[i - 1 := refine(s[i - 1], pos)];
        assert NoDearer(s, s');
        RefineDownImproves(s', i - 1, close, refine, draws, pos + draws);
        NoDearerTrans(s, s', RefineDown(s', i - 1, close, refine, draws, pos + draws).0);
      }
    }
  }

  /** Member by member, `t` costs no more than `s`. */
  predicate NoDearer(s: seq<Individual>, t: seq<Individual>)
  {
    |s| == |t| && forall k :: 0 <= k < |s| ==> t[k].cost <= s[k].cost
  }

  lemma NoDearerTrans(a: seq<Individual>, b: seq<Individual>, c: seq<Individual>)
    requires NoDearer(a, b) && NoDearer(b, c)
    ensures NoDearer(a, c)
  {
  }

  /** Every member of `t` has property `P`. */
  predicate AllHold(t: seq<Individual>, P: Individual -> bool)
  {
    forall k :: 0 <= k < |t| ==> P(t[k])
  }

  /** A property of members that every refinement keeps holds of the whole
      set afterwards when it held before. */
  lemma {:induction false} RefineDownKeeps(s: seq<Individual>, i: nat, close: (seq<Individual>, nat) -> bool,
                                          refine: (Individual, nat) -> Individual, draws: nat, pos: nat,
                                          P: Individual -> bool)
    requires i <= |s| && AllHold(s, P)
    requires forall x: Individual, p: nat :: P(x) ==> P(refine(x, p))
    ensures AllHold(RefineDown(s, i, close, refine, draws, pos).0, P)
    decreases i
  {
    if i > 0 {
      if close(s, i - 1) {
        RefineDownKeeps(s, i - 1, close, refine, draws, pos, P);
      } else {
        RefineDownKeeps(s[i - 1 := refine(s[i - 1], pos)], i - 1, close, refine, draws, pos + draws, P);
      }
    }
  }

  /** refine_individual never raises a cost. */
  lemma RefinerImproves(c: Climber, tape: nat -> real)
    ensures forall x: Individual, p: nat :: Refiner(c, tape)(x, p).cost <= x.cost
  {
    forall x: Individual, p: nat | c.Sized() && |x.params| == c.n ensures Refined(x, c, tape, p).cost <= x.cost {
      RefinedImproves(x, c, tape, p);
    }
  }

  /** refine_set never raises the cost of any member, and only its first
      `len` members can change. */
  lemma RefineSetImproves(s: seq<Individual>, len: int, feps: real, c: Climber, tape: nat -> real, pos: nat)
    requires len <= |s|
    ensures var t := RefineSetOut(s, len, feps, c, tape, pos).0;
            NoDearer(s, t) && (len >= 0 ==> t[len..] == s[len..])
  {
    var i := if len > 0 then len else 0;
    RefinerImproves(c, tape);
    RefineDownImproves(s, i, CloseTest(len, feps, c.n), Refiner(c, tape), c.Draws(), pos);
    RefineDownTail(s, i, CloseTest(len, feps, c.n), Refiner(c, tape), c.Draws(), pos);
  }

  /** refine_set keeps every member of length `n`. */
  lemma RefineSetShaped(s: seq<Individual>, len: int, feps: real, c: Climber, tape: nat -> real, pos: nat)
    requires len <= |s| && Shaped(s, c.n)
    ensures Shaped(RefineSetOut(s, len, feps, c, tape, pos).0, c.n)
  {
    var P := (x: Individual) => |x.params| == c.n;
    var t := RefineSetOut(s, len, feps, c, tape, pos).0;
    RefineDownKeeps(s, if len > 0 then len else 0, CloseTest(len, feps, c.n), Refiner(c, tape), c.Draws(), pos, P);
    forall k | 0 <= k < |t| ensures |t[k].params| == c.n {
      assert P(t[k]);
    }
  }

  /** refine_set keeps evaluated members evaluated. */
  lemma RefineSetEvaluated(s: seq<Individual>, len: int, feps: real, c: Climber, tape: nat -> real, pos: nat)
    requires len <= |s| && Evaluated(s, c.objective)
    ensures Evaluated(RefineSetOut(s, len, feps, c, tape, pos).0, c.objective)
  {
    var P := (x: Individual) => x.cost == c.objective(x.params);
    var refine := Refiner(c, tape);
    forall x: Individual, p: nat | P(x) ensures P(refine(x, p)) {
      if c.Sized() && |x.params| == c.n {
        RefinedImproves(x, c, tape, p);
      }
    }
    var t := RefineSetOut(s, len, feps, c, tape, pos).0;
    RefineDownKeeps(s, if len > 0 then len else 0, CloseTest(len, feps, c.n), refine, c.Draws(), pos, P);
    forall k | 0 <= k < |t| ensures t[k].cost == c.objective(t[k].params) {
      assert P(t[k]);
    }
  }

  /** For a non-negative step and draws in [0, 1], refine_set keeps members
      within the bounds. */
  lemma RefineSetInBounds(s: seq<Individual>, len: int, feps: real, c: Climber, tape: nat -> real, pos: nat)
    requires len <= |s| && c.Sized() && c.step >= 0.0 && forall j: nat :: 0.0 <= tape(j) <= 1.0
    requires AllInBounds(s, c.lo, c.hi)
    ensures AllInBounds(RefineSetOut(s, len, feps, c, tape, pos).0, c.lo, c.hi)
  {
    var P := (x: Individual) => InBounds(x.params, c.lo, c.hi);
    var refine := Refiner(c, tape);
    forall x: Individual, p: nat | P(x) ensures P(refine(x, p)) {
      RefinedInBounds(x, c, tape, p);
    }
    var t := RefineSetOut(s, len, feps, c, tape, pos).0;
    RefineDownKeeps(s, if len > 0 then len else 0, CloseTest(len, feps, c.n), refine, c.Draws(), pos, P);
    forall k | 0 <= k < |t| ensures InBounds(t[k].params, c.lo, c.hi) {
      assert P(t[k]);
    }
  }

  /** The first visit of RefineDown: member `i` is left alone when it is
      close and refined otherwise, and the rest of the visit goes on from
      there. */
  lemma RefineDownVisit(s: seq<Individual>, i: nat, close: (seq<Individual>, nat) -> bool,
                        refine: (Individual, nat) -> Individual, draws: nat, pos: nat, refined: bool,
                        s': seq<Individual>, pos': nat)
    requires i < |s| && refined == !close(s, i)
    requires s' == (if refined then s[i := refine(s[i], pos)] else s)
    requires pos' == pos + (if refined then draws else 0)
    ensures var r, r' := RefineDown(s, i + 1, close, refine, draws, pos), RefineDown(s', i, close, refine, draws, pos');
            r.0 == r'.0 && r.1 == r'.1 && r.2 == r'.2 + (if refined then 1 else 0)
  {
  }

  /** The first visit of RefineDownTrail: a refined member adds its trail
      in front of the rest of the visit's. */
  lemma RefineDownTrailVisit(s: seq<Individual>, i: nat, close: (seq<Individual>, nat) -> bool,
                             refine: (Individual, nat) -> Individual, trail: (Individual, nat) -> seq<Individual>,
                             draws: nat, pos: nat, refined: bool, s': seq<Individual>, pos': nat)
    requires i < |s| && refined == !close(s, i)
    requires s' == (if refined then s[i := refine(s[i], pos)] else s)
    requires pos' == pos + (if refined then draws else 0)
    ensures RefineDownTrail(s, i + 1, close, refine, trail, draws, pos)
            == (if refined then trail(s[i], pos) else []) + RefineDownTrail(s', i, close, refine, trail, draws, pos')
  {
    if !refined {
      assert [] + RefineDownTrail(s', i, close, refine, trail, draws, pos') == RefineDownTrail(s', i, close, refine, trail, draws, pos');
    }
  }

  lemma MulSucc(a: nat, b: nat)
    ensures (a + 1) * b == a * b + b
  {
  }

  /** refine_set: members `setSize - 1` down to 0 of `members`, each
      refined unless its cost is within `fitness_epsilon` of its closest
      other member's; `n_refinement` counts every refined member once more
      on top of what refine_individual counts, and the frequency matrix
      counts the points refine_individual keeps with method 's'. */
  method RefineSet(ss: SSType, members: array<Individual>, setSize: int, how: char, objective: seq<real> -> real, rng: Rng)
    requires |ss.minRealVar| == ss.nreal && |ss.maxRealVar| == ss.nreal && rng.Valid() && ss.Matrices()
    requires setSize <= members.Length && setSize != 1 && Shaped(members[..], ss.nreal)
    modifies members, rng`pos, ss`nRefinement, ss`nFunctionEvals, ss`freqs
    ensures var r := RefineSetRun(ss, old(members[..]), setSize, how, objective, rng.tape, old(rng.pos));
            members[..] == r.0 && rng.pos == r.1
    ensures var r := RefineSetRun(ss, old(members[..]), setSize, how, objective, rng.tape, old(rng.pos));
            ss.nRefinement == old(ss.nRefinement) + r.2 * (1 + ClimberOf(ss, how, objective).StepCounts())
    ensures var r := RefineSetRun(ss, old(members[..]), setSize, how, objective, rng.tape, old(rng.pos));
            ss.nFunctionEvals == old(ss.nFunctionEvals) + r.2 * ClimberOf(ss, how, objective).Evals()
    ensures FreqsKept(ss, how, old(ss.freqs))
    ensures ss.freqs == SSStats.Tallied(ss.stats, old(ss.freqs),
                                        RefineSetTrail(ss, old(members[..]), setSize, how, objective, rng.tape, old(rng.pos)),
                                        ss.minBoundary, ss.maxBoundary)
  {
    ghost var c := ClimberOf(ss, how, objective);
    Witnesses(setSize, ss.fitnessEpsilon, c, rng.tape);
    ghost var close: (seq<Individual>, nat) -> bool :| IsCloseTest(close, setSize, ss.fitnessEpsilon, ss.nreal);
    ghost var refine: (Individual, nat) -> Individual :| IsRefiner(refine, c, rng.tape);
    ghost var trail: (Individual, nat) -> seq<Individual> :| IsTrailer(trail, c, rng.tape);
    RefineChosen(ss, members, setSize, how, objective, rng, c, close, refine, trail);
  }

  /** refine_set with the test, the refinement and the trail fixed. */
  method RefineChosen(ss: SSType, members: array<Individual>, setSize: int, how: char, objective: seq<real> -> real,
                      rng: Rng, ghost c: Climber, ghost close: (seq<Individual>, nat) -> bool,
                      ghost refine: (Individual, nat) -> Individual, ghost trail: (Individual, nat) -> seq<Individual>)
    requires |ss.minRealVar| == ss.nreal && |ss.maxRealVar| == ss.nreal && rng.Valid() && ss.Matrices()
    requires setSize <= members.Length && setSize != 1 && Shaped(members[..], ss.nreal)
    requires c == ClimberOf(ss, how, objective) && IsRefiner(refine, c, rng.tape) && IsTrailer(trail, c, rng.tape)
    requires IsCloseTest(close, setSize, ss.fitnessEpsilon, ss.nreal)
    modifies members, rng`pos, ss`nRefinement, ss`nFunctionEvals, ss`freqs
    ensures var r := RefineSetRun(ss, old(members[..]), setSize, how, objective, rng.tape, old(rng.pos));
            && members[..] == r.0 && rng.pos == r.1
            && ss.nRefinement == old(ss.nRefinement) + r.2 * (1 + c.StepCounts())
            && ss.nFunctionEvals == old(ss.nFunctionEvals) + r.2 * c.Evals()
    ensures FreqsKept(ss, how, old(ss.freqs))
    ensures ss.freqs == SSStats.Tallied(ss.stats, old(ss.freqs),
                                        RefineSetTrail(ss, old(members[..]), setSize, how, objective, rng.tape, old(rng.pos)),
                                        ss.minBoundary, ss.maxBoundary)
  {
    ghost var len := if setSize > 0 then setSize else 0;
    ghost var m0, pos0, f0 := members[..], rng.pos, ss.freqs;
    ghost var out := RefineDown(m0, len, close, refine, c.Draws(), pos0);
    ghost var outTrail := RefineDownTrail(m0, len, close, refine, trail, c.Draws(), pos0);
    RunCharacterised(ss, m0, setSize, how, objective, rng.tape, pos0, close, refine, trail);
    assert out == RefineSetRun(ss, m0, setSize, how, objective, rng.tape, pos0);
    assert outTrail == RefineSetTrail(ss, m0, setSize, how, objective, rng.tape, pos0);
    VisitAll(ss, members, setSize, how, objective, rng, c, close, refine, trail, out, outTrail);
    assert ss.freqs == SSStats.Tallied(ss.stats, f0, outTrail, ss.minBoundary, ss.maxBoundary);
    if how != 's' {
      NoTrailUnlessS(m0, len, close, refine, trail, c, rng.tape, pos0);
      SSStats.TalliedNone(ss.stats, f0, ss.minBoundary, ss.maxBoundary);
    }
  }

  /** The loop of refine_set: the visit `out`, with its trail `outTrail`,
      carried out on `members`. */
  method VisitAll(ss: SSType, members: array<Individual>, setSize: int, how: char, objective: seq<real> -> real, rng: Rng,
                  ghost c: Climber, ghost close: (seq<Individual>, nat) -> bool, ghost refine: (Individual, nat) -> Individual,
                  ghost trail: (Individual, nat) -> seq<Individual>, ghost out: (seq<Individual>, nat, nat),
                  ghost outTrail: seq<Individual>)
    requires |ss.minRealVar| == ss.nreal && |ss.maxRealVar| == ss.nreal && rng.Valid() && ss.Matrices()
    requires setSize <= members.Length && setSize != 1 && Shaped(members[..], ss.nreal)
    requires c == ClimberOf(ss, how, objective) && IsRefiner(refine, c, rng.tape) && IsTrailer(trail, c, rng.tape)
    requires IsCloseTest(close, setSize, ss.fitnessEpsilon, ss.nreal)
    requires var len := if setSize > 0 then setSize else 0;
             && out == RefineDown(members[..], len, close, refine, c.Draws(), rng.pos)
             && outTrail == RefineDownTrail(members[..], len, close, refine, trail, c.Draws(), rng.pos)
    modifies members, rng`pos, ss`nRefinement, ss`nFunctionEvals, ss`freqs
    ensures members[..] == out.0 && rng.pos == out.1
    ensures ss.nRefinement == old(ss.nRefinement) + out.2 * (1 + c.StepCounts())
    ensures ss.nFunctionEvals == old(ss.nFunctionEvals) + out.2 * c.Evals()
    ensures Tallying(ss, old(ss.freqs), outTrail)
  {
    ghost var done: nat := 0;
    ghost var doneTrail: seq<Individual> := [];
    ghost var left: nat := if setSize > 0 then setSize else 0;
    SSInit.FreqsTrans(ss.freqs, ss.freqs, ss.freqs);
    var i := setSize - 1;
    while i >= 0
      invariant i < setSize && left == (if i >= 0 then i + 1 else 0)
      invariant Visiting(ss, members, rng, left, c, close, refine, trail, out, outTrail, done, doneTrail,
                         old(ss.nRefinement), old(ss.nFunctionEvals))
      invariant Tallying(ss, old(ss.freqs), doneTrail)
    {
      done, doneTrail := VisitNext(ss, members, setSize, i, how, objective, rng, c, close, refine, trail, out, outTrail,
                                   done, doneTrail, old(ss.freqs), old(ss.nRefinement), old(ss.nFunctionEvals));
      left := i;
      i := i - 1;
    }
    assert done == out.2;
    assert doneTrail + [] == doneTrail;
    TimesIsProduct(done, 1 + c.StepCounts());
    TimesIsProduct(done, c.Evals());
  }

  /** The test, the refinement and the trail of refine_set are
      characterised by IsCloseTest, IsRefiner and IsTrailer. */
  lemma Witnesses(len: int, feps: real, c: Climber, tape: nat -> real)
    ensures IsCloseTest(CloseTest(len, feps, c.n), len, feps, c.n)
    ensures IsRefiner(Refiner(c, tape), c, tape) && IsTrailer(Trailer(c, tape), c, tape)
  {
  }

  /** A visit with a test, a refinement and a trail characterised by
      IsCloseTest, IsRefiner and IsTrailer is the visit of refine_set. */
  lemma RunCharacterised(ss: SSType, s: seq<Individual>, len: int, how: char, objective: seq<real> -> real,
                         tape: nat -> real, pos: nat, close: (seq<Individual>, nat) -> bool,
                         refine: (Individual, nat) -> Individual, trail: (Individual, nat) -> seq<Individual>)
    requires len <= |s|
    requires var c := ClimberOf(ss, how, objective);
             IsCloseTest(close, len, ss.fitnessEpsilon, c.n) && IsRefiner(refine, c, tape) && IsTrailer(trail, c, tape)
    ensures var c, i := ClimberOf(ss, how, objective), if len > 0 then len else 0;
            && RefineDown(s, i, close, refine, c.Draws(), pos) == RefineSetRun(ss, s, len, how, objective, tape, pos)
            && RefineDownTrail(s, i, close, refine, trail, c.Draws(), pos) == RefineSetTrail(ss, s, len, how, objective, tape, pos)
  {
    var c, i := ClimberOf(ss, how, objective), if len > 0 then len else 0;
    var feps := ss.fitnessEpsilon;
    Characterised(close, refine, len, feps, c, tape);
    TrailCharacterised(trail, c, tape);
    RefineDownAgree(s, i, close, CloseTest(len, feps, c.n), refine, Refiner(c, tape), c.Draws(), pos);
    RefineDownTrailAgree(s, i, close, CloseTest(len, feps, c.n), refine, Refiner(c, tape), trail, Trailer(c, tape),
                         c.Draws(), pos);
  }

  /** Only method 's' counts points. */
  lemma NoTrailUnlessS(s: seq<Individual>, i: nat, close: (seq<Individual>, nat) -> bool,
                       refine: (Individual, nat) -> Individual, trail: (Individual, nat) -> seq<Individual>,
                       c: Climber, tape: nat -> real, pos: nat)
    requires i <= |s| && IsTrailer(trail, c, tape) && c.how != 's'
    ensures RefineDownTrail(s, i, close, refine, trail, c.Draws(), pos) == []
  {
    forall x: Individual, p: nat ensures trail(x, p) == [] {
      assert trail(x, p) == Trail(x, c, tape, p);
      if c.Sized() && |x.params| == c.n && c.Climbs() {
        ClimbTrailCheaper(x, c, tape, p, c.steps);
      }
    }
    RefineDownTrailEmpty(s, i, close, refine, trail, c.Draws(), pos);
  }

  /** The state of refine_set once members `i` and above have been
      visited. */
  ghost predicate Visiting(ss: SSType, members: array<Individual>, rng: Rng, i: nat, c: Climber,
                           close: (seq<Individual>, nat) -> bool, refine: (Individual, nat) -> Individual,
                           trail: (Individual, nat) -> seq<Individual>, out: (seq<Individual>, nat, nat),
                           outTrail: seq<Individual>, done: nat, doneTrail: seq<Individual>,
                           nRefinement0: int, nFunctionEvals0: int)
    reads ss, members, rng
  {
    && i <= members.Length && Shaped(members[..], ss.nreal)
    && Visited(members[..], rng.pos, ss.nRefinement, ss.nFunctionEvals, i, c, close, refine, trail, out, outTrail,
               done, doneTrail, nRefinement0, nFunctionEvals0)
  }

  /** Members `i` and above of `s` have been visited: what is left of the
      visit ends in `out`, `done` members have been refined so far and
      `doneTrail` counted, and the counters have grown by as much. */
  ghost predicate Visited(s: seq<Individual>, pos: nat, nRefinement: int, nFunctionEvals: int, i: nat, c: Climber,
                          close: (seq<Individual>, nat) -> bool, refine: (Individual, nat) -> Individual,
                          trail: (Individual, nat) -> seq<Individual>, out: (seq<Individual>, nat, nat),
                          outTrail: seq<Individual>, done: nat, doneTrail: seq<Individual>,
                          nRefinement0: int, nFunctionEvals0: int)
  {
    && i <= |s|
    && (var r := RefineDown(s, i, close, refine, c.Draws(), pos);
        r.0 == out.0 && r.1 == out.1 && done + r.2 == out.2)
    && doneTrail + RefineDownTrail(s, i, close, refine, trail, c.Draws(), pos) == outTrail
    && nRefinement == nRefinement0 + Times(done, 1 + c.StepCounts())
    && nFunctionEvals == nFunctionEvals0 + Times(done, c.Evals())
  }

  /** One visit moves the state of refine_set down by one member. */
  lemma VisitedStep(s: seq<Individual>, pos: nat, nRefinement: int, nFunctionEvals: int,
                    s': seq<Individual>, pos': nat, nRefinement': int, nFunctionEvals': int, i: nat, refined: bool,
                    c: Climber, close: (seq<Individual>, nat) -> bool, refine: (Individual, nat) -> Individual,
                    trail: (Individual, nat) -> seq<Individual>, out: (seq<Individual>, nat, nat),
                    outTrail: seq<Individual>, done: nat, doneTrail: seq<Individual>,
                    nRefinement0: int, nFunctionEvals0: int)
    requires i < |s| && Visited(s, pos, nRefinement, nFunctionEvals, i + 1, c, close, refine, trail, out, outTrail,
                                done, doneTrail, nRefinement0, nFunctionEvals0)
    requires refined == !close(s, i) && s' == (if refined then s[i := refine(s[i], pos)] else s)
    requires pos' == pos + (if refined then c.Draws() else 0)
    requires nRefinement' == nRefinement + (if refined then 1 + c.StepCounts() else 0)
    requires nFunctionEvals' == nFunctionEvals + (if refined then c.Evals() else 0)
    ensures Visited(s', pos', nRefinement', nFunctionEvals', i, c, close, refine, trail, out, outTrail,
                    done + (if refined then 1 else 0), doneTrail + (if refined then trail(s[i], pos) else []),
                    nRefinement0, nFunctionEvals0)
  {
    RefineDownVisit(s, i, close, refine, c.Draws(), pos, refined, s', pos');
    RefineDownTrailVisit(s, i, close, refine, trail, c.Draws(), pos, refined, s', pos');
    ConcatAssoc(doneTrail, if refined then trail(s[i], pos) else [], RefineDownTrail(s', i, close, refine, trail, c.Draws(), pos'));
    assert Times(done + 1, 1 + c.StepCounts()) == Times(done, 1 + c.StepCounts()) + 1 + c.StepCounts();
    assert Times(done + 1, c.Evals()) == Times(done, c.Evals()) + c.Evals();
  }

  /** One pass of the loop of refine_set, with the bookkeeping of the
      visit. */
  method VisitNext(ss: SSType, members: array<Individual>, setSize: int, i: nat, how: char,
                   objective: seq<real> -> real, rng: Rng, ghost c: Climber,
                   ghost close: (seq<Individual>, nat) -> bool, ghost refine: (Individual, nat) -> Individual,
                   ghost trail: (Individual, nat) -> seq<Individual>, ghost out: (seq<Individual>, nat, nat),
                   ghost outTrail: seq<Individual>, ghost done: nat, ghost doneTrail: seq<Individual>,
                   ghost f0: seq<seq<int>>, ghost nRefinement0: int, ghost nFunctionEvals0: int)
    returns (ghost done': nat, ghost doneTrail': seq<Individual>)
    requires |ss.minRealVar| == ss.nreal && |ss.maxRealVar| == ss.nreal && rng.Valid()
    requires 2 <= setSize <= members.Length && i < setSize
    requires c == ClimberOf(ss, how, objective) && IsRefiner(refine, c, rng.tape) && IsTrailer(trail, c, rng.tape)
    requires IsCloseTest(close, setSize, ss.fitnessEpsilon, ss.nreal)
    requires Visiting(ss, members, rng, i + 1, c, close, refine, trail, out, outTrail, done, doneTrail, nRefinement0, nFunctionEvals0)
    requires Tallying(ss, f0, doneTrail)
    modifies members, rng`pos, ss`nRefinement, ss`nFunctionEvals, ss`freqs
    ensures Visiting(ss, members, rng, i, c, close, refine, trail, out, outTrail, done', doneTrail', nRefinement0, nFunctionEvals0)
    ensures Tallying(ss, f0, doneTrail')
  {
    ghost var s, pos, f := members[..], rng.pos, ss.freqs;
    ghost var nRefinement, nFunctionEvals := ss.nRefinement, ss.nFunctionEvals;
    var refined := VisitMember(ss, members, setSize, i, how, objective, rng, c, close, refine);
    ghost var s', pos', f' := members[..], rng.pos, ss.freqs;
    ghost var added := if refined then trail(s[i], pos) else [];
    assert added == if refined then Trail(s[i], c, rng.tape, pos) else [];
    VisitedStep(s, pos, nRefinement, nFunctionEvals, s', pos', ss.nRefinement, ss.nFunctionEvals, i, refined,
                c, close, refine, trail, out, outTrail, done, doneTrail, nRefinement0, nFunctionEvals0);
    SSStats.TalliedTrans(ss.stats, f0, f, f', doneTrail, added, ss.minBoundary, ss.maxBoundary);
    done', doneTrail' := done + (if refined then 1 else 0), doneTrail + added;
  }

  /** One pass of the loop of refine_set: member `i` is refined unless its
      cost is within `fitness_epsilon` of its closest other member's. */
  method VisitMember(ss: SSType, members: array<Individual>, setSize: int, i: nat, how: char,
                     objective: seq<real> -> real, rng: Rng, ghost c: Climber,
                     ghost close: (seq<Individual>, nat) -> bool, ghost refine: (Individual, nat) -> Individual)
    returns (refined: bool)
    requires |ss.minRealVar| == ss.nreal && |ss.maxRealVar| == ss.nreal && rng.Valid() && ss.Matrices()
    requires 2 <= setSize <= members.Length && i < setSize && Shaped(members[..], ss.nreal)
    requires c == ClimberOf(ss, how, objective) && IsRefiner(refine, c, rng.tape)
    requires IsCloseTest(close, setSize, ss.fitnessEpsilon, ss.nreal)
    modifies members, rng`pos, ss`nRefinement, ss`nFunctionEvals, ss`freqs
    ensures refined == !close(old(members[..]), i)
    ensures members[..] == if refined then old(members[..])[i := refine(old(members[i]), old(rng.pos))] else old(members[..])
    ensures Shaped(members[..], ss.nreal)
    ensures rng.pos == old(rng.pos) + (if refined then c.Draws() else 0)
    ensures ss.nRefinement == old(ss.nRefinement) + (if refined then 1 + c.StepCounts() else 0)
    ensures ss.nFunctionEvals == old(ss.nFunctionEvals) + (if refined then c.Evals() else 0)
    ensures ss.Matrices() && SSInit.FreqsAtLeast(old(ss.freqs), ss.freqs)
    ensures ss.freqs == SSStats.Tallied(ss.stats, old(ss.freqs), if refined then Trail(old(members[i]), c, rng.tape, old(rng.pos)) else [],
                                        ss.minBoundary, ss.maxBoundary)
  {
    var m := SSTools.ClosestMember(ss, members, setSize, members[i], i);
    refined := !(Abs(members[i].cost - members[m].cost) < ss.fitnessEpsilon);
    assert refined == !IsClose(members[..], i, setSize, ss.fitnessEpsilon, ss.nreal);
    if refined {
      ss.nRefinement := ss.nRefinement + 1;
      ghost var x, pos := members[i], rng.pos;
      RefineIndividual(ss, members, i, how, objective, rng);
      assert members[i] == Refinement(x, c, rng.tape, pos);
    } else {
      SSInit.FreqsTrans(ss.freqs, ss.freqs, ss.freqs);
    }
  }

  /** A visit whose every trail is empty counts nothing. */
  lemma {:induction false} RefineDownTrailEmpty(s: seq<Individual>, i: nat, close: (seq<Individual>, nat) -> bool,
                                               refine: (Individual, nat) -> Individual,
                                               trail: (Individual, nat) -> seq<Individual>, draws: nat, pos: nat)
    requires i <= |s|
    requires forall x: Individual, p: nat :: trail(x, p) == []
    ensures RefineDownTrail(s, i, close, refine, trail, draws, pos) == []
    decreases i
  {
    if i > 0 {
      RefineDownTrailEmpty(s, i - 1, close, refine, trail, draws, pos);
      RefineDownTrailEmpty(s[i - 1 := refine(s[i - 1], pos)], i - 1, close, refine, trail, draws, pos + draws);
    }
  }
}
