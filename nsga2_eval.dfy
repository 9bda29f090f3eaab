/** NSGA-II evaluation: the objective function fills an individual's
    objectives and constraint values, and the constraint violation is the
    sum of the negative constraint values (zero for a feasible individual). */
module NSGA2Eval {
  import opened NSGA2Types

  /** The problem's objective function, outside this model: from an
      individual it yields the new objective values and constraint values
      (a problem without constraints hands the old ones back). */
  type Objective = Individual -> (seq<real>, seq<real>)

  /** The negative part of a constraint value: what it adds to the violation. */
  function Shortfall(c: real): (r: real)
    ensures r <= 0.0
    ensures r == 0.0 <==> c >= 0.0
  {
    if c < 0.0 then c else 0.0
  }

  /** The total violation of the constraint values `cs`, added up from the
      front as the evaluation loop does. It is at most the shortfall of
      each constraint value: every unmet constraint counts in full. */
  function Violation(cs: seq<real>): (r: real)
    ensures forall j :: 0 <= j < |cs| ==> r <= Shortfall(cs[j])
  {
    if cs == [] then 0.0 else Violation(cs[..|cs| - 1]) + Shortfall(cs[|cs| - 1])
  }

  /** A violation is never positive. */
  lemma {:induction false} ViolationNonPositive(cs: seq<real>)
    ensures Violation(cs) <= 0.0
  {
    if cs != [] {
      ViolationNonPositive(cs[..|cs| - 1]);
    }
  }

  /** Constraint values that all hold give no violation. */
  lemma {:induction false} FeasibleNoViolation(cs: seq<real>)
    requires forall j :: 0 <= j < |cs| ==> cs[j] >= 0.0
    ensures Violation(cs) == 0.0
  {
    if cs != [] {
      FeasibleNoViolation(cs[..|cs| - 1]);
    }
  }

  /** A zero violation means every constraint value holds. */
  lemma {:induction false} NoViolationFeasible(cs: seq<real>)
    requires Violation(cs) == 0.0
    ensures forall j :: 0 <= j < |cs| ==> cs[j] >= 0.0
  {
    if cs != [] {
      var init := cs[..|cs| - 1];
      ViolationNonPositive(init);
      assert Violation(init) == 0.0 && Shortfall(cs[|cs| - 1]) == 0.0;
      NoViolationFeasible(init);
      assert forall j :: 0 <= j < |cs| - 1 ==> cs[j] == init[j];
    }
  }

  /** A zero violation is exactly "every constraint value holds". */
  lemma ViolationZeroIff(cs: seq<real>)
    ensures Violation(cs) == 0.0 <==> forall j :: 0 <= j < |cs| ==> cs[j] >= 0.0
  {
    if Violation(cs) == 0.0 {
      NoViolationFeasible(cs);
    }
    if forall j :: 0 <= j < |cs| ==> cs[j] >= 0.0 {
      FeasibleNoViolation(cs);
    }
  }

  /** The individual after `evaluate_ind`: objectives and constraint values
      from the objective function, and the violation of the first `ncon`
      constraint values. */
  function Evaluated(ind: Individual, objective: Objective, ncon: nat): (r: Individual)
    requires ncon <= |objective(ind).1|
    ensures r.obj == objective(ind).0 && r.constr == objective(ind).1
    ensures r.constrViolation <= 0.0
    ensures r.constrViolation == 0.0 <==> forall j :: 0 <= j < ncon ==> r.constr[j] >= 0.0
    ensures r.xreal == ind.xreal && r.gene == ind.gene && r.rank == ind.rank
  {
    var (o, c) := objective(ind);
    ViolationNonPositive(c[..ncon]);
    ViolationZeroIff(c[..ncon]);
    ind.(obj := o, constr := c, constrViolation := Violation(c[..ncon]))
  }

  /** evaluate_ind: call the objective function, then add up the negative
      constraint values. */
  method EvaluateInd(ind: Individual, objective: Objective, ncon: nat) returns (r: Individual)
    requires ncon <= |objective(ind).1|
    ensures r == Evaluated(ind, objective, ncon)
  {
    var (o, c) := objective(ind);
    r := ind.(obj := o, constr := c);
    if ncon == 0 {
      r := r.(constrViolation := 0.0);
    } else {
      var v := 0.0;
      var j := 0;
      while j < ncon
        invariant 0 <= j <= ncon
        invariant v == Violation(c[..j])
      {
        assert c[..j + 1][..j] == c[..j];
        if c[j] < 0.0 {
          v := v + c[j];
        }
        j := j + 1;
      }
      r := r.(constrViolation := v);
    }
  }

  /** evaluate_pop: evaluate individuals 0, 1, ..., popsize - 1 in turn. */
  method EvaluatePop(pop: array<Individual>, popsize: nat, objective: Objective, ncon: nat)
    requires popsize <= pop.Length
    requires forall i :: 0 <= i < popsize ==> ncon <= |objective(pop[i]).1|
    modifies pop
    ensures forall i :: 0 <= i < popsize ==> pop[i] == Evaluated(old(pop[i]), objective, ncon)
    ensures forall i :: popsize <= i < pop.Length ==> pop[i] == old(pop[i])
  {
    var i := 0;
    while i < popsize
      invariant 0 <= i <= popsize
      invariant forall k :: 0 <= k < i ==> pop[k] == Evaluated(old(pop[k]), objective, ncon)
      invariant forall k :: i <= k < pop.Length ==> pop[k] == old(pop[k])
    {
      pop[i] := EvaluateInd(pop[i], objective, ncon);
      i := i + 1;
    }
  }
}
