/** ss/evaluate.c: the cost of an individual is the objective at its
    parameters. The objective itself (ss/problemdef.c, an external ODE
    scorer) is a function parameter; each of its calls counts one function
    evaluation, as `objective_function` does. */
module SSEvaluate {
  import opened SSTypes
  import opened SSParams

  /** `s` with the first `m` members given their objective value as cost;
      parameters and the other members are unchanged. */
  function EvaluatedUpTo(s: seq<Individual>, m: int, objective: seq<real> -> real): (t: seq<Individual>)
    ensures |t| == |s|
  {
    seq(|s|, k requires 0 <= k < |s| =>
      if k < m then Individual(s[k].params, objective(s[k].params)) else s[k])
  }

  /** Evaluating a prefix makes that prefix evaluated and leaves every
      parameter vector, and the rest of the set, as it was. */
  lemma EvaluatedUpToSpec(s: seq<Individual>, m: nat, objective: seq<real> -> real)
    requires m <= |s|
    ensures Evaluated(EvaluatedUpTo(s, m, objective)[..m], objective)
    ensures EvaluatedUpTo(s, m, objective)[m..] == s[m..]
    ensures forall k :: 0 <= k < |s| ==> EvaluatedUpTo(s, m, objective)[k].params == s[k].params
  {
    var t := EvaluatedUpTo(s, m, objective);
    forall k | 0 <= k < m ensures t[..m][k].cost == objective(t[..m][k].params) {
      assert t[..m][k] == t[k];
    }
  }

  /** Evaluating again changes nothing once the prefix is evaluated. */
  lemma EvaluatedUpToIdempotent(s: seq<Individual>, m: nat, objective: seq<real> -> real)
    requires m <= |s| && Evaluated(s[..m], objective)
    ensures EvaluatedUpTo(s, m, objective) == s
  {
    forall k | 0 <= k < m ensures s[k] == Individual(s[k].params, objective(s[k].params)) {
      assert s[..m][k] == s[k];
    }
  }

  /** Evaluation keeps every member's shape. */
  lemma EvaluatedUpToShaped(s: seq<Individual>, m: int, n: nat, objective: seq<real> -> real)
    requires Shaped(s, n)
    ensures Shaped(EvaluatedUpTo(s, m, objective), n)
  {
  }

  /** evaluate_ind: the individual's cost becomes the objective at its
      parameters. */
  method EvaluateInd(ss: SSType, ind: Individual, objective: seq<real> -> real) returns (ind': Individual)
    modifies ss`nFunctionEvals
    ensures ind' == Individual(ind.params, objective(ind.params))
    ensures ss.nFunctionEvals == old(ss.nFunctionEvals) + 1
  {
    ss.nFunctionEvals := ss.nFunctionEvals + 1;
    ind' := Individual(ind.params, objective(ind.params));
  }

  /** evaluate_set: every member of `members[0..setSize)` evaluated in index
      order, one function evaluation each. */
  method EvaluateSet(ss: SSType, members: array<Individual>, setSize: int, objective: seq<real> -> real)
    requires setSize <= members.Length
    modifies members, ss`nFunctionEvals
    ensures members[..] == EvaluatedUpTo(old(members[..]), setSize, objective)
    ensures ss.nFunctionEvals == old(ss.nFunctionEvals) + (if setSize > 0 then setSize else 0)
  {
    var i := 0;
    while i < setSize
      invariant 0 <= i && (setSize >= 0 ==> i <= setSize) && (setSize < 0 ==> i == 0)
      invariant members[..] == EvaluatedUpTo(old(members[..]), i, objective)
      invariant ss.nFunctionEvals == old(ss.nFunctionEvals) + i
    {
      members[i] := EvaluateInd(ss, members[i], objective);
      assert members[..] == EvaluatedUpTo(old(members[..]), i + 1, objective);
      i := i + 1;
    }
    assert members[..] == EvaluatedUpTo(old(members[..]), setSize, objective);
  }
}
