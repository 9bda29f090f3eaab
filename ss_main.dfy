/** ss/ss.c: the cold start of a run (`InitSS`) and the iteration loop
    (`RunSS`), without the history files, the progress bar and the final
    report. `best` is not a separate field: it always designates slot 0 of
    the reference set. */
module SSMain {
  import opened SSTypes
  import opened SSParams
  import opened Oracle
  import SSInit
  import SSSort
  import SSTools
  import SSEvaluate
  import SSUpdate
  import SSRecombine
  import SSRefine
  import SSStats
  import Util

  // ---------------------------------------------------------------------------
  // Costs across a run

  /** Every member's cost is at least zero. */
  predicate CostsNonNeg(s: seq<Individual>)
  {
    forall k :: 0 <= k < |s| ==> s[k].cost >= 0.0
  }

  /** Some member costs at most `v`. */
  predicate CheapAs(s: seq<Individual>, v: real)
  {
    exists k :: 0 <= k < |s| && s[k].cost <= v
  }

  /** The setting in which the best cost can only go down: the objective is
      never negative (the fly scorer returns a root mean square) and the
      improvement margin `fitness_epsilon` is not negative. */
  ghost predicate Elitist(objective: seq<real> -> real, feps: real)
  {
    feps >= 0.0 && forall x :: objective(x) >= 0.0
  }

  /** Each member of `r` is some member of `d`. */
  ghost predicate Among(r: seq<Individual>, d: seq<Individual>)
  {
    forall t :: 0 <= t < |r| ==> r[t] in d
  }

  /** A permutation takes its members from the original. */
  lemma PermutedAmong(a: seq<Individual>, b: seq<Individual>)
    requires multiset(a) == multiset(b)
    ensures Among(b, a)
  {
    forall t | 0 <= t < |b| ensures b[t] in a {
      assert b[t] in multiset(b);
    }
  }

  /** Members taken from an evaluated set are evaluated. */
  lemma EvaluatedAmong(r: seq<Individual>, d: seq<Individual>, objective: seq<real> -> real)
    requires Among(r, d) && Evaluated(d, objective)
    ensures Evaluated(r, objective)
  {
    forall t | 0 <= t < |r| ensures r[t].cost == objective(r[t].params) {
      var j :| 0 <= j < |d| && d[j] == r[t];
    }
  }

  /** Members taken from an evaluated set within the bounds are evaluated
      and within the bounds. */
  lemma AmongKeeps(r: seq<Individual>, d: seq<Individual>, objective: seq<real> -> real, lo: seq<real>, hi: seq<real>)
    requires Among(r, d) && Evaluated(d, objective) && AllInBounds(d, lo, hi)
    ensures Evaluated(r, objective) && AllInBounds(r, lo, hi)
  {
    forall t | 0 <= t < |r| ensures r[t].cost == objective(r[t].params) && InBounds(r[t].params, lo, hi) {
      var j :| 0 <= j < |d| && d[j] == r[t];
    }
  }

  /** Members taken from a set of non-negative costs, some of them costing
      at most `v` before, keep both facts. */
  lemma PermutedCosts(a: seq<Individual>, b: seq<Individual>, v: real)
    requires multiset(a) == multiset(b)
    ensures CostsNonNeg(a) ==> CostsNonNeg(b)
    ensures CheapAs(a, v) ==> CheapAs(b, v)
  {
    PermutedAmong(a, b);
    if CostsNonNeg(a) {
      forall t | 0 <= t < |b| ensures b[t].cost >= 0.0 {
        var j :| 0 <= j < |a| && a[j] == b[t];
      }
    }
    if CheapAs(a, v) {
      var k :| 0 <= k < |a| && a[k].cost <= v;
      assert a[k] in multiset(b) by { assert a[k] in multiset(a); }
      var j :| 0 <= j < |b| && b[j] == a[k];
    }
  }

  /** Sorting a prefix of a set of non-negative costs and leaving the rest
      keeps every member of length `n` and every cost non-negative. */
  lemma PrefixPermutedKeeps(a: seq<Individual>, b: seq<Individual>, m: nat, n: nat)
    requires m <= |a| == |b| && multiset(a[..m]) == multiset(b[..m]) && a[m..] == b[m..]
    ensures Shaped(a, n) ==> Shaped(b, n)
    ensures CostsNonNeg(a) ==> CostsNonNeg(b)
  {
    assert a == a[..m] + a[m..];
    assert b == b[..m] + b[m..];
    assert multiset(a) == multiset(b);
    PermutedCosts(a, b, 0.0);
    if Shaped(a, n) {
      SSInit.ShapedPermuted(a, b, n);
    }
  }

  /** The first candidate replaces `ref[0]` only when cheaper. */
  lemma SlotZeroKeeps(ref: seq<Individual>, cands: seq<Individual>, v: real)
    requires |ref| >= 1 && |cands| >= 1 && CheapAs(ref, v) && CostsNonNeg(ref) && cands[0].cost >= 0.0
    ensures var r := SSUpdate.SlotZero(ref, cands);
            CheapAs(r, v) && CostsNonNeg(r)
  {
    var r := SSUpdate.SlotZero(ref, cands);
    var k :| 0 <= k < |ref| && ref[k].cost <= v;
    assert r[k].cost <= v;
  }

  /** A new candidate that beats the worst member overwrites it: the
      multiset of members loses the worst and gains the candidate. */
  lemma OverwriteKeeps(ref: seq<Individual>, r: seq<Individual>, c: Individual, v: real)
    requires |ref| >= 1 && c.cost >= 0.0 && c.cost < ref[|ref| - 1].cost
    requires multiset(r) == multiset(ref) - multiset{ref[|ref| - 1]} + multiset{c}
    requires CheapAs(ref, v) && CostsNonNeg(ref)
    ensures CheapAs(r, v) && CostsNonNeg(r)
  {
    var last := |ref| - 1;
    var k :| 0 <= k < |ref| && ref[k].cost <= v;
    forall t | 0 <= t < |r| ensures r[t].cost >= 0.0 {
      assert r[t] in multiset(r);
      if r[t] != c {
        assert r[t] in multiset(ref);
        var j :| 0 <= j < |ref| && ref[j] == r[t];
      }
    }
    var w := if ref[k] == ref[last] then c else ref[k];
    assert w in multiset(r);
    var j :| 0 <= j < |r| && r[j] == w;
    assert r[j].cost <= v;
  }

  /** A near-duplicate replaces `ref[d]` only when it improves on its cost
      by the margin `feps`; with a non-negative cost and margin it is then
      no dearer. */
  lemma ReplaceKeeps(ref: seq<Individual>, c: Individual, d: nat, feps: real, v: real)
    requires d < |ref| && feps >= 0.0 && c.cost >= 0.0 && c.cost < ref[d].cost * (1.0 - feps)
    requires CheapAs(ref, v) && CostsNonNeg(ref)
    ensures CheapAs(ref[d := c], v) && CostsNonNeg(ref[d := c])
  {
    var k :| 0 <= k < |ref| && ref[k].cost <= v;
    assert c.cost < ref[d].cost by {
      assert ref[d].cost * feps >= 0.0;
    }
    assert ref[d := c][k].cost <= v;
  }

  /** One admission keeps a member costing at most `v` and keeps the costs
      non-negative, given a candidate that beats the worst member, costs
      nothing negative, and a margin `feps` that is not negative. */
  lemma AdmitStepKeeps(ref: seq<Individual>, c: Individual, n: nat, eps: real, feps: real, v: real)
    requires |ref| >= 1 && Shaped(ref, n) && |c.params| == n
    requires feps >= 0.0 && c.cost >= 0.0 && c.cost < ref[|ref| - 1].cost
    requires CheapAs(ref, v) && CostsNonNeg(ref)
    ensures var r := SSUpdate.AdmitStep(ref, c, n, eps, feps);
            CheapAs(r, v) && CostsNonNeg(r)
  {
    SSUpdate.AdmitStepOverwritesOne(ref, c, n, eps, feps);
    match SSUpdate.Classify(ref, c, n, eps, feps)
    case New =>
      OverwriteKeeps(ref, SSUpdate.AdmitStep(ref, c, n, eps, feps), c, v);
    case Replaced(d) =>
      ReplaceKeeps(ref, c, d, feps, v);
    case Rejected =>
  }

  /** The admission loop keeps a member costing at most `v` and keeps the
      costs non-negative. */
  lemma {:induction false} AdmitFromKeeps(ref: seq<Individual>, cands: seq<Individual>, i: nat, size: nat,
                                          n: nat, eps: real, feps: real, v: real)
    requires |ref| >= 1 && Shaped(ref, n) && size <= |cands| && Shaped(cands, n) && i <= |cands|
    requires feps >= 0.0 && CostsNonNeg(cands) && CheapAs(ref, v) && CostsNonNeg(ref)
    ensures var r := SSUpdate.AdmitFrom(ref, cands, i, size, n, eps, feps).0;
            CheapAs(r, v) && CostsNonNeg(r)
    decreases |cands| - i
  {
    if i < size && cands[i].cost < ref[|ref| - 1].cost {
      AdmitStepKeeps(ref, cands[i], n, eps, feps, v);
      AdmitFromKeeps(SSUpdate.AdmitStep(ref, cands[i], n, eps, feps), cands, i + 1, size, n, eps, feps, v);
    }
  }

  /** update_ref_set never loses its cheapest cost when every cost is
      non-negative and `feps` is not negative. */
  lemma UpdatedKeeps(ref: seq<Individual>, cands: seq<Individual>, size: nat, n: nat, eps: real, feps: real, v: real)
    requires |ref| >= 1 && Shaped(ref, n) && 1 <= |cands| && size <= |cands| && Shaped(cands, n)
    requires feps >= 0.0 && CostsNonNeg(cands) && CheapAs(ref, v) && CostsNonNeg(ref)
    ensures var r := SSUpdate.UpdatedRefSet(ref, cands, size, n, eps, feps).0;
            CheapAs(r, v) && CostsNonNeg(r)
  {
    SlotZeroKeeps(ref, cands, v);
    var z := SSUpdate.SlotZero(ref, cands);
    AdmitFromKeeps(z, cands, if cands[0].cost < ref[0].cost then 1 else 0, size, n, eps, feps, v);
  }

  /** With a negative best cost the relative margin `cost * (1 - feps)`
      lies above the cost, so a near-duplicate that is dearer than the
      best can replace it: costs -2 and 9, a candidate of cost -1.5 next to
      the first member, and `feps = 0.5` leave a best cost of -1.5. */
  lemma NegativeCostCanWorsen()
    ensures var ref := [Individual([0.0], -2.0), Individual([20.0], 9.0)];
            var cands := [Individual([0.0], -1.5)];
            var r := SSUpdate.UpdatedRefSet(ref, cands, 1, 1, 1.0, 0.5).0;
            && SortedByCost(ref) && SortedByCost(r)
            && r[0].cost == -1.5 && !CheapAs(r, -2.0)
  {
    var ref := [Individual([0.0], -2.0), Individual([20.0], 9.0)];
    var c := Individual([0.0], -1.5);
    assert SqDist(ref[0].params, c.params, 1) == 0.0;
    assert SSTools.ExistIndex(ref, c, 1, 1, 1.0) == 0;
    assert SSUpdate.Classify(ref, c, 1, 1.0, 0.5) == SSUpdate.Replaced(0);
    assert SSUpdate.SlotZero(ref, [c]) == ref;
    assert SSUpdate.AdmitStep(ref, c, 1, 1.0, 0.5) == [c, ref[1]];
    assert SSUpdate.AdmitFrom([c, ref[1]], [c], 1, 1, 1, 1.0, 0.5) == ([c, ref[1]], []);
    assert SSUpdate.AdmitFrom(ref, [c], 0, 1, 1, 1.0, 0.5).0 == [c, ref[1]];
  }

  /** refine_set with a non-negative objective keeps the costs
      non-negative: a refined member's cost is its objective value. */
  lemma RefineSetNonNeg(s: seq<Individual>, len: int, feps: real, c: SSRefine.Climber, tape: nat -> real, pos: nat)
    requires len <= |s| && (forall x :: c.objective(x) >= 0.0) && CostsNonNeg(s)
    ensures CostsNonNeg(SSRefine.RefineSetOut(s, len, feps, c, tape, pos).0)
  {
    var P := (x: Individual) => x.cost >= 0.0;
    var refine := SSRefine.Refiner(c, tape);
    forall x: Individual, p: nat | P(x) ensures P(refine(x, p)) {
      if c.Sized() && |x.params| == c.n && c.Climbs() {
        SSRefine.ClimbImproves(x, c, tape, p, c.steps);
      }
    }
    var t := SSRefine.RefineSetOut(s, len, feps, c, tape, pos).0;
    SSRefine.RefineDownKeeps(s, if len > 0 then len else 0, SSRefine.CloseTest(len, feps, c.n), refine, c.Draws(), pos, P);
    forall k | 0 <= k < |t| ensures t[k].cost >= 0.0 {
      assert P(t[k]);
    }
  }

  /** Lowering costs member by member keeps a member costing at most `v`. */
  lemma CheaperKeeps(s: seq<Individual>, t: seq<Individual>, v: real)
    requires SSRefine.NoDearer(s, t) && CheapAs(s, v)
    ensures CheapAs(t, v)
  {
    var k :| 0 <= k < |s| && s[k].cost <= v;
    assert t[k].cost <= v;
  }

  // ---------------------------------------------------------------------------
  // InitSS

  /** The reference set `r` is made of members of `sorted` and holds its
      first `h` members. */
  lemma PicksAmong(r: seq<Individual>, sorted: seq<Individual>, h: nat)
    requires SSInit.PicksFrom(r, sorted, h, |r|)
    ensures Among(r, sorted) && multiset(sorted[..h]) <= multiset(r)
  {
    forall t | 0 <= t < |r| ensures r[t] in sorted {
      if t < h {
        assert r[t] == r[..h][t] == sorted[..h][t];
      } else {
        assert r[t] in sorted[h..];
      }
    }
    assert r == r[..h] + r[h..];
  }

  /** Sorting the reference set keeps what it is made of. */
  lemma SortedAmong(r: seq<Individual>, r': seq<Individual>, sorted: seq<Individual>, h: nat)
    requires multiset(r) == multiset(r') && Among(r, sorted) && h <= |sorted|
    requires multiset(sorted[..h]) <= multiset(r)
    ensures Among(r', sorted) && multiset(sorted[..h]) <= multiset(r')
  {
    PermutedAmong(r, r');
    forall t | 0 <= t < |r'| ensures r'[t] in sorted {
      var j :| 0 <= j < |r| && r[j] == r'[t];
    }
  }

  /** init_scatter_set followed by evaluate_set on the diverse set
      (ss/ss.c:53-54): every member is drawn within the bounds and given
      its objective value as cost. */
  method DrawScatterSet(ss: SSType, rng: Rng, objective: seq<real> -> real)
    returns (ghost ws: seq<SSInit.Wheel>, ghost wss: seq<seq<SSInit.Wheel>>, ghost ms: seq<seq<real>>)
    requires ss.Valid() && ss.BoundsOrdered() && rng.Valid() && SSInit.SubRegions(ss)
    requires ss.Matrices() && SSInit.ProbsInUnit(ss) && 1 <= ss.p <= ss.diverseSetSize
    modifies ss.diverseSet, rng`pos, ss`freqs, ss`probs, ss`nFunctionEvals
    ensures ss.Valid() && ss.Matrices() && SSInit.SubRegions(ss) && SSInit.ProbsInUnit(ss)
    ensures Evaluated(ss.diverseSet[..], objective) && AllInBounds(ss.diverseSet[..], ss.minRealVar, ss.maxRealVar)
    ensures ss.nFunctionEvals == old(ss.nFunctionEvals) + ss.diverseSetSize
    ensures SSInit.ScatterDrawn(ss.diverseSet[..], ss.nreal, ss.p, ss.minBoundary, ss.maxBoundary, rng.tape, old(rng.pos), ws, wss, ms)
    ensures |ms| == ss.diverseSetSize - ss.p && ws[0] == SSInit.Wheel(old(ss.freqs), old(ss.probs), 0, 0.0)
    ensures ws[|ms|].freqs == ss.freqs && ws[|ms|].probs == ss.probs
  {
    ws, wss, ms := SSInit.InitScatterSet(ss, ss.diverseSet, rng);
    assert ss.diverseSet[..ss.diverseSetSize] == ss.diverseSet[..];
    ghost var drawn := ss.diverseSet[..];
    SSEvaluate.EvaluateSet(ss, ss.diverseSet, ss.diverseSetSize, objective);
    SSEvaluate.EvaluatedUpToSpec(drawn, ss.diverseSetSize, objective);
    SSEvaluate.EvaluatedUpToShaped(drawn, ss.diverseSetSize, ss.nreal, objective);
    assert ss.diverseSet[..][..ss.diverseSetSize] == ss.diverseSet[..];
    forall k | 0 <= k < ss.diverseSetSize ensures InBounds(ss.diverseSet[k].params, ss.minRealVar, ss.maxRealVar) {
      assert ss.diverseSet[k].params == drawn[k].params;
    }
    SSInit.ScatterDrawnParams(drawn, ss.diverseSet[..], ss.nreal, ss.p, ss.minBoundary, ss.maxBoundary, rng.tape, old(rng.pos), ws, wss, ms);
  }

  /** init_ref_set followed by the sort of the reference set
      (ss/ss.c:66-67). `scatter` is the diverse set in cost order: the
      reference set is made of its members, holds its `b/2` cheapest, and
      is sorted by cost. */
  method BuildRefSet(ss: SSType, objective: seq<real> -> real)
    returns (ghost scatter: seq<Individual>, ghost picked: seq<Individual>,
             ghost pools: seq<seq<Individual>>, ghost picks: seq<int>)
    requires ss.Valid() && 2 <= ss.refSetSize <= ss.diverseSetSize
    requires Evaluated(ss.diverseSet[..], objective) && AllInBounds(ss.diverseSet[..], ss.minRealVar, ss.maxRealVar)
    modifies ss.refSet, ss.diverseSet
    ensures ss.Valid() && SortedByCost(ss.refSet[..])
    ensures Evaluated(ss.refSet[..], objective) && AllInBounds(ss.refSet[..], ss.minRealVar, ss.maxRealVar)
    ensures |scatter| == ss.diverseSetSize && SortedByCost(scatter)
    ensures Evaluated(scatter, objective) && AllInBounds(scatter, ss.minRealVar, ss.maxRealVar)
    ensures Among(ss.refSet[..], scatter)
    ensures multiset(scatter[..ss.refSetSize / 2]) <= multiset(ss.refSet[..])
    ensures multiset(scatter) == multiset(old(ss.diverseSet[..]))
    ensures multiset(picked) == multiset(ss.refSet[..])
    ensures SSInit.PicksFrom(picked, scatter, ss.refSetSize / 2, ss.refSetSize)
    ensures SSInit.GreedyTrace(pools, picks, picked, ss.refSetSize / 2, ss.nreal, ss.diverseSetSize)
    ensures |picks| == ss.refSetSize - ss.refSetSize / 2 && pools[0] == scatter
  {
    ghost var evaluated := ss.diverseSet[..];
    scatter, pools, picks := SSInit.InitRefSet(ss);
    PermutedAmong(evaluated, scatter);
    AmongKeeps(scatter, evaluated, objective, ss.minRealVar, ss.maxRealVar);
    picked := ss.refSet[..];
    PicksAmong(picked, scatter, ss.refSetSize / 2);
    SSSort.QuickSortSet(ss, ss.refSet, ss.refSetSize, 'c');
    assert ss.refSet[..ss.refSetSize] == ss.refSet[..];
    assert picked[..ss.refSetSize] == picked;
    SSInit.ShapedPermuted(picked, ss.refSet[..], ss.nreal);
    SortedAmong(picked, ss.refSet[..], scatter, ss.refSetSize / 2);
    AmongKeeps(ss.refSet[..], scatter, objective, ss.minRealVar, ss.maxRealVar);
  }

  /** InitSS without warm start (ss/ss.c:45-78): the sub-region model, the
      scatter set drawn and evaluated, the reference set built from it and
      sorted, so that slot 0 (`best`) holds a cheapest member. `scatter` is
      the evaluated scatter set in cost order: the reference set is made of
      its members and contains its `b/2` cheapest. */
  method InitSS(ss: SSType, rng: Rng, objective: seq<real> -> real)
    returns (ghost scatter: seq<Individual>, ghost drawn: seq<Individual>,
             ghost ws: seq<SSInit.Wheel>, ghost wss: seq<seq<SSInit.Wheel>>, ghost ms: seq<seq<real>>,
             ghost picked: seq<Individual>, ghost pools: seq<seq<Individual>>, ghost picks: seq<int>)
    requires ss.Valid() && ss.BoundsOrdered() && rng.Valid()
    requires 1 <= ss.p <= ss.diverseSetSize && 2 <= ss.refSetSize <= ss.diverseSetSize
    modifies ss`subsetsListSize, ss`nRefinement, ss`nRefSetUpdate, ss`nDuplicates,
             ss`nFlatzoneDetected, ss`nFunctionEvals, ss`minBoundary, ss`maxBoundary, ss`freqs, ss`probs,
             ss.diverseSet, ss.refSet, rng`pos
    ensures ss.Valid() && ss.Matrices() && SSInit.SubRegions(ss) && SSInit.ProbsInUnit(ss)
    ensures SortedByCost(ss.refSet[..])
    ensures forall k :: 0 <= k < ss.refSetSize ==> ss.refSet[0].cost <= ss.refSet[k].cost
    ensures Evaluated(ss.refSet[..], objective) && AllInBounds(ss.refSet[..], ss.minRealVar, ss.maxRealVar)
    ensures |scatter| == ss.diverseSetSize && SortedByCost(scatter)
    ensures Evaluated(scatter, objective) && AllInBounds(scatter, ss.minRealVar, ss.maxRealVar)
    ensures Among(ss.refSet[..], scatter)
    ensures multiset(scatter[..ss.refSetSize / 2]) <= multiset(ss.refSet[..])
    ensures ss.subsetsListSize == ss.refSetSize * ss.refSetSize
    ensures ss.nFunctionEvals == ss.diverseSetSize
    ensures ss.nRefinement == 0 && ss.nRefSetUpdate == 0 && ss.nDuplicates == 0 && ss.nFlatzoneDetected == 0
    ensures SSInit.ScatterDrawn(drawn, ss.nreal, ss.p, ss.minBoundary, ss.maxBoundary, rng.tape, old(rng.pos), ws, wss, ms)
    ensures |ms| == ss.diverseSetSize - ss.p && multiset(scatter) == multiset(drawn)
    ensures ws[0] == SSInit.Wheel(seq(ss.nreal, i => seq(ss.p, j => 1)), seq(ss.nreal, i => SSInit.UniformRow(ss.p)), 0, 0.0)
    ensures ws[|ms|].freqs == ss.freqs && ws[|ms|].probs == ss.probs
    ensures multiset(picked) == multiset(ss.refSet[..]) && SSInit.PicksFrom(picked, scatter, ss.refSetSize / 2, ss.refSetSize)
    ensures SSInit.GreedyTrace(pools, picks, picked, ss.refSetSize / 2, ss.nreal, ss.diverseSetSize)
    ensures |picks| == ss.refSetSize - ss.refSetSize / 2 && pools[0] == scatter
  {
    SSInit.InitSSParams(ss);
    SSInit.UniformInUnit(ss);
    ws, wss, ms := DrawScatterSet(ss, rng, objective);
    drawn := ss.diverseSet[..];
    scatter, picked, pools, picks := BuildRefSet(ss, objective);
  }

  // ---------------------------------------------------------------------------
  // RunSS

  /** Writing parameter vectors keeps every cost, so keeps them
      non-negative. */
  lemma WrittenNonNeg(before: seq<Individual>, after: seq<Individual>, xs: seq<seq<real>>)
    requires SSRecombine.Written(before, after, 0, xs)
    ensures CostsNonNeg(before) ==> CostsNonNeg(after)
  {
    if CostsNonNeg(before) {
      forall c | 0 <= c < |after| ensures after[c].cost >= 0.0 {
        if c < |xs| {
          assert after[0 + c] == Individual(xs[c], before[0 + c].cost);
        }
      }
    }
  }

  /** Evaluating with a non-negative objective keeps the costs
      non-negative. */
  lemma EvaluatedNonNeg(s: seq<Individual>, m: int, objective: seq<real> -> real)
    ensures (forall x :: objective(x) >= 0.0) && CostsNonNeg(s) ==> CostsNonNeg(SSEvaluate.EvaluatedUpTo(s, m, objective))
  {
  }

  /** The candidates of one iteration on values (ss/ss.c:118-125): the
      pairs of the reference set `ref`, recombined with the draws from
      `tape(pos)` on, each evaluated; with the position after the draws. */
  ghost function Candidates(ss: SSType, ref: seq<Individual>, objective: seq<real> -> real, tape: nat -> real, pos: nat)
    : (r: (seq<Individual>, nat))
    requires |ref| == ss.refSetSize && ss.maxElite < |ref| && Shaped(ref, ss.nreal)
    requires |ss.minRealVar| == ss.nreal && |ss.maxRealVar| == ss.nreal
    ensures Evaluated(r.0, objective)
  {
    SSUpdate.SubsetsShaped(ref, ss.nreal, ss.distEpsilon);
    var out := SSRecombine.Recombine(SSUpdate.SubsetsOf(ref, ss.nreal, ss.distEpsilon), ref[ss.maxElite].cost,
                                     ss.minRealVar, ss.maxRealVar, ss.nreal, tape, pos);
    (Fresh(out.0, objective), out.1)
  }

  /** Each parameter vector of `xs` as an individual with its cost. */
  ghost function Fresh(xs: seq<seq<real>>, objective: seq<real> -> real): (r: seq<Individual>)
    ensures |r| == |xs| && Evaluated(r, objective)
    ensures forall k :: 0 <= k < |xs| ==> r[k].params == xs[k]
  {
    seq(|xs|, k requires 0 <= k < |xs| => Individual(xs[k], objective(xs[k])))
  }

  /** The first half of an iteration (ss/ss.c:118-125): the pairs of the
      reference set, the candidates recombined from them, evaluated and
      sorted by cost. The reference set is not touched. */
  method NewCandidates(ss: SSType, rng: Rng, objective: seq<real> -> real)
    requires ss.Valid() && rng.Valid() && ss.refSetSize >= 1
    modifies ss.subsetsList, ss`subsetsListSize, ss.candidatesSet, ss`candidatesSetSize, rng`pos, ss`nFunctionEvals
    ensures ss.Valid() && 0 <= ss.candidatesSetSize <= ss.candidatesSet.Length
    ensures var r := Candidates(ss, ss.refSet[..], objective, rng.tape, old(rng.pos));
            && ss.candidatesSetSize == |r.0| && rng.pos == r.1
            && multiset(ss.candidatesSet[..ss.candidatesSetSize]) == multiset(r.0)
            && ss.candidatesSet[ss.candidatesSetSize..] == old(ss.candidatesSet[..])[ss.candidatesSetSize..]
    ensures SortedByCost(ss.candidatesSet[..ss.candidatesSetSize])
    ensures Evaluated(ss.candidatesSet[..ss.candidatesSetSize], objective)
    ensures ss.nFunctionEvals == old(ss.nFunctionEvals) + ss.candidatesSetSize
    ensures (forall x :: objective(x) >= 0.0) && old(CostsNonNeg(ss.candidatesSet[..])) ==> CostsNonNeg(ss.candidatesSet[..])
  {
    SSUpdate.SelectSubsetsList(ss, ss.refSet, ss.refSetSize);
    assert ss.refSet[..ss.refSetSize] == ss.refSet[..];
    ghost var before := ss.candidatesSet[..];
    SSRecombine.GenerateCandidates(ss, rng);
    var size := ss.candidatesSetSize;
    assert size <= ss.candidatesSet.Length by {
      assert ss.subsetsListSize <= ss.refSetSize * ss.refSetSize;
    }
    ghost var written := ss.candidatesSet[..];
    ghost var xs := SSRecombine.Recombine(ss.subsetsList[..ss.subsetsListSize], ss.refSet[ss.maxElite].cost,
                                          ss.minRealVar, ss.maxRealVar, ss.nreal, rng.tape, old(rng.pos)).0;
    WrittenNonNeg(before, written, xs);
    SSEvaluate.EvaluateSet(ss, ss.candidatesSet, size, objective);
    SSEvaluate.EvaluatedUpToSpec(written, size, objective);
    SSEvaluate.EvaluatedUpToShaped(written, size, ss.nreal, objective);
    ghost var evaluated := ss.candidatesSet[..];
    EvaluatedNonNeg(written, size, objective);
    FreshWritten(before, written, xs, size, objective);
    if size >= 1 {
      SSSort.QuickSortSet(ss, ss.candidatesSet, size, 'c');
      PrefixPermutedKeeps(evaluated, ss.candidatesSet[..], size, ss.nreal);
      PermutedAmong(evaluated[..size], ss.candidatesSet[..size]);
      EvaluatedAmong(ss.candidatesSet[..size], evaluated[..size], objective);
    } else {
      assert ss.candidatesSet[..size] == [];
    }
  }

  /** The written and then evaluated prefix holds the fresh candidates, and
      the rest of the set is as it was. */
  lemma FreshWritten(before: seq<Individual>, written: seq<Individual>, xs: seq<seq<real>>, size: nat,
                     objective: seq<real> -> real)
    requires SSRecombine.Written(before, written, 0, xs) && size == |xs|
    ensures SSEvaluate.EvaluatedUpTo(written, size, objective)[..size] == Fresh(xs, objective)
    ensures SSEvaluate.EvaluatedUpTo(written, size, objective)[size..] == before[size..]
  {
    var e := SSEvaluate.EvaluatedUpTo(written, size, objective);
    forall k | 0 <= k < size ensures e[k] == Fresh(xs, objective)[k] {
      assert written[0 + k] == Individual(xs[k], before[0 + k].cost);
    }
    forall k | size <= k < |e| ensures e[k] == before[k] {
    }
  }

  /** refine_set on the reference set with method 's' when local search
      is on (ss/ss.c:132-134), and nothing at all otherwise: no member's
      cost goes up, and with a non-negative objective no cost becomes
      negative. */
  method LocalSearch(ss: SSType, rng: Rng, objective: seq<real> -> real)
    requires ss.Valid() && ss.Matrices() && rng.Valid() && ss.refSetSize >= 2
    modifies ss.refSet, rng`pos, ss`nRefinement, ss`nFunctionEvals, ss`freqs
    ensures ss.Valid() && ss.Matrices() && SSInit.FreqsAtLeast(old(ss.freqs), ss.freqs)
    ensures var v := SSRefine.RefineSetRun(ss, old(ss.refSet[..]), ss.refSetSize, 's', objective, rng.tape, old(rng.pos));
            ss.performLocalSearch ==>
              && ss.refSet[..] == v.0 && rng.pos == v.1
              && ss.nRefinement == old(ss.nRefinement) + v.2
              && ss.nFunctionEvals == old(ss.nFunctionEvals) + v.2 * SSRefine.ClimberOf(ss, 's', objective).Evals()
              && ss.freqs == SSStats.Tallied(ss.stats, old(ss.freqs),
                                             SSRefine.RefineSetTrail(ss, old(ss.refSet[..]), ss.refSetSize, 's', objective,
                                                                     rng.tape, old(rng.pos)),
                                             ss.minBoundary, ss.maxBoundary)
    ensures !ss.performLocalSearch ==>
              && ss.refSet[..] == old(ss.refSet[..]) && rng.pos == old(rng.pos) && ss.freqs == old(ss.freqs)
              && ss.nRefinement == old(ss.nRefinement) && ss.nFunctionEvals == old(ss.nFunctionEvals)
    ensures SSRefine.NoDearer(old(ss.refSet[..]), ss.refSet[..])
    ensures (forall x :: objective(x) >= 0.0) && old(CostsNonNeg(ss.refSet[..])) ==> CostsNonNeg(ss.refSet[..])
  {
    if ss.performLocalSearch {
      ghost var r := ss.refSet[..];
      ghost var n0 := ss.nRefinement;
      var c := SSRefine.ClimberOf(ss, 's', objective);
      ghost var refined := SSRefine.RefineSetRun(ss, r, ss.refSetSize, 's', objective, rng.tape, rng.pos).2;
      SSRefine.RefineSet(ss, ss.refSet, ss.refSetSize, 's', objective, rng);
      assert ss.nRefinement == n0 + refined * (1 + c.StepCounts());
      assert 1 + c.StepCounts() == 1;
      Util.TimesOne(refined, 1 + c.StepCounts());
      SSRefine.RefineSetShaped(r, ss.refSetSize, ss.fitnessEpsilon, c, rng.tape, old(rng.pos));
      SSRefine.RefineSetImproves(r, ss.refSetSize, ss.fitnessEpsilon, c, rng.tape, old(rng.pos));
      if (forall x :: objective(x) >= 0.0) && CostsNonNeg(r) {
        RefineSetNonNeg(r, ss.refSetSize, ss.fitnessEpsilon, c, rng.tape, old(rng.pos));
      }
    } else {
      SSInit.FreqsTrans(ss.freqs, ss.freqs, ss.freqs);
    }
  }

  /** update_ref_set (ss/ss.c:129) in the elitist setting: a member costing
      at most `v` survives, and no cost becomes negative. */
  method Admit(ss: SSType, ghost v: real, ghost elitist: bool)
    requires ss.Valid() && ss.Matrices() && ss.refSetSize >= 2
    requires 0 <= ss.candidatesSetSize <= ss.candidatesSet.Length
    requires elitist ==> ss.fitnessEpsilon >= 0.0 && CostsNonNeg(ss.refSet[..]) && CostsNonNeg(ss.candidatesSet[..])
    requires elitist ==> CheapAs(ss.refSet[..], v)
    modifies ss.refSet, ss`nRefSetUpdate, ss`freqs
    ensures ss.Valid() && ss.Matrices() && SSInit.FreqsAtLeast(old(ss.freqs), ss.freqs)
    ensures var r := SSUpdate.UpdatedRefSet(old(ss.refSet[..]), ss.candidatesSet[..], ss.candidatesSetSize,
                                            ss.nreal, ss.distEpsilon, ss.fitnessEpsilon);
            && ss.refSet[..] == r.0 && ss.nRefSetUpdate == old(ss.nRefSetUpdate) + |r.1|
            && ss.freqs == SSStats.Tallied(ss.stats, old(ss.freqs), r.1, ss.minBoundary, ss.maxBoundary)
    ensures elitist ==> CostsNonNeg(ss.refSet[..]) && CheapAs(ss.refSet[..], v)
  {
    ghost var r0 := ss.refSet[..];
    SSUpdate.UpdateRefSet(ss);
    if elitist {
      UpdatedKeeps(r0, ss.candidatesSet[..], ss.candidatesSetSize, ss.nreal, ss.distEpsilon, ss.fitnessEpsilon, v);
    }
  }

  /** A sorted set with a member costing at most `v` starts with one. */
  lemma SortedCheapest(s: seq<Individual>, v: real)
    requires |s| >= 1 && SortedByCost(s) && CheapAs(s, v)
    ensures s[0].cost <= v
  {
    var k :| 0 <= k < |s| && s[k].cost <= v;
    assert k == 0 || s[0].cost <= s[k].cost;
  }

  /** What the second half of an iteration makes of the reference set
      before it is sorted: the members, the position after the draws, the
      number of members refined, the candidates admitted and the points
      the local search counts. */
  datatype Round = Round(members: seq<Individual>, pos: nat, refined: nat, admitted: seq<Individual>,
                         searched: seq<Individual>)

  /** update_ref_set and then, when local search is on, refine_set with
      method 's' (ss/ss.c:129-134), on values. */
  ghost function Renewal(ss: SSType, ref: seq<Individual>, cands: seq<Individual>, size: nat,
                         objective: seq<real> -> real, tape: nat -> real, pos: nat): (r: Round)
    requires |ref| == ss.refSetSize >= 2 && Shaped(ref, ss.nreal)
    requires 1 <= |cands| && size <= |cands| && Shaped(cands, ss.nreal)
    ensures |r.members| == |ref| && Shaped(r.members, ss.nreal)
    ensures Shaped(r.admitted, ss.nreal) && Shaped(r.searched, ss.nreal)
  {
    var u := SSUpdate.UpdatedRefSet(ref, cands, size, ss.nreal, ss.distEpsilon, ss.fitnessEpsilon);
    if ss.performLocalSearch then
      var c := SSRefine.ClimberOf(ss, 's', objective);
      SSRefine.RefineSetShaped(u.0, ss.refSetSize, ss.fitnessEpsilon, c, tape, pos);
      var v := SSRefine.RefineSetRun(ss, u.0, ss.refSetSize, 's', objective, tape, pos);
      Round(v.0, v.1, v.2, u.1, SSRefine.RefineSetTrail(ss, u.0, ss.refSetSize, 's', objective, tape, pos))
    else
      Round(u.0, pos, 0, u.1, [])
  }

  /** The second half of an iteration (ss/ss.c:129-135): the candidates
      admitted into the reference set, the reference set refined when local
      search is on, and sorted by cost. */
  method Renew(ss: SSType, rng: Rng, objective: seq<real> -> real)
    requires ss.Valid() && ss.Matrices() && rng.Valid() && ss.refSetSize >= 2
    requires 0 <= ss.candidatesSetSize <= ss.candidatesSet.Length
    modifies ss.refSet, ss`nRefSetUpdate, ss`freqs, rng`pos, ss`nRefinement, ss`nFunctionEvals
    ensures ss.Valid() && ss.Matrices() && SSInit.FreqsAtLeast(old(ss.freqs), ss.freqs)
    ensures var r := Renewal(ss, old(ss.refSet[..]), ss.candidatesSet[..], ss.candidatesSetSize, objective, rng.tape, old(rng.pos));
            && SortedByCost(ss.refSet[..]) && multiset(ss.refSet[..]) == multiset(r.members)
            && rng.pos == r.pos
            && ss.nRefSetUpdate == old(ss.nRefSetUpdate) + |r.admitted|
            && ss.nRefinement == old(ss.nRefinement) + r.refined
            && ss.nFunctionEvals == old(ss.nFunctionEvals) + r.refined * SSRefine.ClimberOf(ss, 's', objective).Evals()
            && ss.freqs == SSStats.Tallied(ss.stats, SSStats.Tallied(ss.stats, old(ss.freqs), r.admitted, ss.minBoundary, ss.maxBoundary),
                                           r.searched, ss.minBoundary, ss.maxBoundary)
    ensures Elitist(objective, ss.fitnessEpsilon) && old(CostsNonNeg(ss.refSet[..])) && CostsNonNeg(ss.candidatesSet[..]) ==>
              CostsNonNeg(ss.refSet[..]) && ss.refSet[0].cost <= old(ss.refSet[0].cost)
  {
    ghost var v := ss.refSet[0].cost;
    ghost var start := Elitist(objective, ss.fitnessEpsilon) && CostsNonNeg(ss.refSet[..]) && CostsNonNeg(ss.candidatesSet[..]);
    AdmitAndSearch(ss, rng, objective, v, start);
    ghost var r2 := ss.refSet[..];
    SSSort.QuickSortSet(ss, ss.refSet, ss.refSetSize, 'c');
    assert ss.refSet[..ss.refSetSize] == ss.refSet[..];
    assert r2[..ss.refSetSize] == r2;
    SSInit.ShapedPermuted(r2, ss.refSet[..], ss.nreal);
    PermutedCosts(r2, ss.refSet[..], v);
    if start {
      SortedCheapest(ss.refSet[..], v);
    }
  }

  /** update_ref_set and then refine_set when local search is on
      (ss/ss.c:129-134): the renewal before the sort. */
  method AdmitAndSearch(ss: SSType, rng: Rng, objective: seq<real> -> real, ghost v: real, ghost elitist: bool)
    requires ss.Valid() && ss.Matrices() && rng.Valid() && ss.refSetSize >= 2
    requires 0 <= ss.candidatesSetSize <= ss.candidatesSet.Length
    requires elitist ==> ss.fitnessEpsilon >= 0.0 && (forall x :: objective(x) >= 0.0)
    requires elitist ==> CostsNonNeg(ss.refSet[..]) && CostsNonNeg(ss.candidatesSet[..]) && CheapAs(ss.refSet[..], v)
    modifies ss.refSet, ss`nRefSetUpdate, ss`freqs, rng`pos, ss`nRefinement, ss`nFunctionEvals
    ensures ss.Valid() && ss.Matrices() && SSInit.FreqsAtLeast(old(ss.freqs), ss.freqs)
    ensures var r := Renewal(ss, old(ss.refSet[..]), ss.candidatesSet[..], ss.candidatesSetSize, objective, rng.tape, old(rng.pos));
            && ss.refSet[..] == r.members && rng.pos == r.pos
            && ss.nRefSetUpdate == old(ss.nRefSetUpdate) + |r.admitted|
            && ss.nRefinement == old(ss.nRefinement) + r.refined
            && ss.nFunctionEvals == old(ss.nFunctionEvals) + r.refined * SSRefine.ClimberOf(ss, 's', objective).Evals()
            && ss.freqs == SSStats.Tallied(ss.stats, SSStats.Tallied(ss.stats, old(ss.freqs), r.admitted, ss.minBoundary, ss.maxBoundary),
                                           r.searched, ss.minBoundary, ss.maxBoundary)
    ensures elitist ==> CostsNonNeg(ss.refSet[..]) && CheapAs(ss.refSet[..], v)
  {
    ghost var f0 := ss.freqs;
    ghost var r0 := ss.refSet[..];
    ghost var cands := ss.candidatesSet[..];
    ghost var pos0 := rng.pos;
    ghost var u := SSUpdate.UpdatedRefSet(r0, cands, ss.candidatesSetSize, ss.nreal, ss.distEpsilon, ss.fitnessEpsilon);
    Admit(ss, v, elitist);
    ghost var f1 := ss.freqs;
    ghost var r1 := ss.refSet[..];
    assert r1 == u.0 && f1 == SSStats.Tallied(ss.stats, f0, u.1, ss.minBoundary, ss.maxBoundary);
    LocalSearch(ss, rng, objective);
    assert ss.candidatesSet[..] == cands;
    SSInit.FreqsTrans(f0, f1, ss.freqs);
    RenewalState(ss, r0, cands, ss.candidatesSetSize, objective, rng.tape, pos0,
                 r1, f0, f1, ss.refSet[..], rng.pos, ss.freqs, old(ss.nRefinement), ss.nRefinement,
                 old(ss.nFunctionEvals), ss.nFunctionEvals);
    if elitist {
      CheaperKeeps(r1, ss.refSet[..], v);
    }
  }

  /** update_ref_set taking `ref` to `r1` and the frequencies from `f0`
      to `f1`, and then refine_set as LocalSearch does it, taking them on
      to `members` and `f2`, make up Renewal. */
  lemma RenewalState(ss: SSType, ref: seq<Individual>, cands: seq<Individual>, size: nat,
                     objective: seq<real> -> real, tape: nat -> real, pos0: nat,
                     r1: seq<Individual>, f0: seq<seq<int>>, f1: seq<seq<int>>, members: seq<Individual>, pos: nat,
                     f2: seq<seq<int>>, nRefinement0: int, nRefinement: int, nFunctionEvals0: int, nFunctionEvals: int)
    requires |ref| == ss.refSetSize >= 2 && Shaped(ref, ss.nreal)
    requires 1 <= |cands| && size <= |cands| && Shaped(cands, ss.nreal)
    requires SSStats.SameGrid(f0, ss.minBoundary, ss.maxBoundary) && |f0| == ss.nreal
    requires var u := SSUpdate.UpdatedRefSet(ref, cands, size, ss.nreal, ss.distEpsilon, ss.fitnessEpsilon);
             r1 == u.0 && f1 == SSStats.Tallied(ss.stats, f0, u.1, ss.minBoundary, ss.maxBoundary)
    requires var v := SSRefine.RefineSetRun(ss, r1, ss.refSetSize, 's', objective, tape, pos0);
             ss.performLocalSearch ==>
               && members == v.0 && pos == v.1 && nRefinement == nRefinement0 + v.2
               && nFunctionEvals == nFunctionEvals0 + v.2 * SSRefine.ClimberOf(ss, 's', objective).Evals()
               && f2 == SSStats.Tallied(ss.stats, f1, SSRefine.RefineSetTrail(ss, r1, ss.refSetSize, 's', objective, tape, pos0),
                                        ss.minBoundary, ss.maxBoundary)
    requires !ss.performLocalSearch ==>
               members == r1 && pos == pos0 && f2 == f1 && nRefinement == nRefinement0 && nFunctionEvals == nFunctionEvals0
    ensures var r := Renewal(ss, ref, cands, size, objective, tape, pos0);
            && r.admitted == SSUpdate.UpdatedRefSet(ref, cands, size, ss.nreal, ss.distEpsilon, ss.fitnessEpsilon).1
            && members == r.members && pos == r.pos
            && nRefinement == nRefinement0 + r.refined
            && nFunctionEvals == nFunctionEvals0 + r.refined * SSRefine.ClimberOf(ss, 's', objective).Evals()
            && f2 == SSStats.Tallied(ss.stats, SSStats.Tallied(ss.stats, f0, r.admitted, ss.minBoundary, ss.maxBoundary),
                                     r.searched, ss.minBoundary, ss.maxBoundary)
  {
    if !ss.performLocalSearch {
      SSStats.TalliedNone(ss.stats, f1, ss.minBoundary, ss.maxBoundary);
    }
  }

  /** The state an iteration works on: the reference set, the candidates
      array and its fill, the position on the draws, the frequency matrix
      and the counters. */
  datatype Snapshot = Snapshot(refSet: seq<Individual>, candidates: seq<Individual>, candidatesSize: int, pos: nat,
                               freqs: seq<seq<int>>, nRefSetUpdate: int, nRefinement: int, nFunctionEvals: int)

  ghost function SnapshotOf(ss: SSType, rng: Rng): Snapshot
    reads ss, ss.refSet, ss.candidatesSet, rng
  {
    Snapshot(ss.refSet[..], ss.candidatesSet[..], ss.candidatesSetSize, rng.pos, ss.freqs,
             ss.nRefSetUpdate, ss.nRefinement, ss.nFunctionEvals)
  }

  /** One iteration of the loop of RunSS (ss/ss.c:118-135) takes state `a`
      to state `b`: the candidates of `a`'s reference set, sorted by cost,
      fill the start of the candidates array; the reference set is then
      the renewal of `a`'s by those candidates, sorted by cost; the draws,
      the counters and the frequency matrix have moved on by as much. */
  ghost predicate Iteration(ss: SSType, objective: seq<real> -> real, tape: nat -> real, a: Snapshot, b: Snapshot)
    reads ss`minBoundary, ss`maxBoundary
  {
    && |a.refSet| == ss.refSetSize >= 2 && ss.maxElite < ss.refSetSize && Shaped(a.refSet, ss.nreal)
    && |ss.minRealVar| == ss.nreal && |ss.maxRealVar| == ss.nreal
    && 1 <= |b.candidates| == |a.candidates| && Shaped(b.candidates, ss.nreal)
    && SSStats.SameGrid(a.freqs, ss.minBoundary, ss.maxBoundary) && |a.freqs| == ss.nreal
    && var c := Candidates(ss, a.refSet, objective, tape, a.pos);
       && b.candidatesSize == |c.0| <= |b.candidates|
       && SortedByCost(b.candidates[..|c.0|]) && multiset(b.candidates[..|c.0|]) == multiset(c.0)
       && b.candidates[|c.0|..] == a.candidates[|c.0|..]
       && a.nFunctionEvals + |c.0| <= b.nFunctionEvals
       && var r := Renewal(ss, a.refSet, b.candidates, |c.0|, objective, tape, c.1);
          && SortedByCost(b.refSet) && multiset(b.refSet) == multiset(r.members)
          && b.pos == r.pos
          && b.nRefSetUpdate == a.nRefSetUpdate + |r.admitted|
          && b.nRefinement == a.nRefinement + r.refined
          && b.nFunctionEvals == a.nFunctionEvals + |c.0| + r.refined * SSRefine.ClimberOf(ss, 's', objective).Evals()
          && b.freqs == SSStats.Tallied(ss.stats, SSStats.Tallied(ss.stats, a.freqs, r.admitted, ss.minBoundary, ss.maxBoundary),
                                        r.searched, ss.minBoundary, ss.maxBoundary)
  }

  /** One iteration of the loop of RunSS (ss/ss.c:118-135). */
  method Iterate(ss: SSType, rng: Rng, objective: seq<real> -> real)
    requires ss.Valid() && ss.Matrices() && rng.Valid() && ss.refSetSize >= 2
    modifies ss.subsetsList, ss`subsetsListSize, ss.candidatesSet, ss`candidatesSetSize, rng`pos,
             ss.refSet, ss`nRefSetUpdate, ss`freqs, ss`nRefinement, ss`nFunctionEvals
    ensures ss.Valid() && ss.Matrices() && SSInit.FreqsAtLeast(old(ss.freqs), ss.freqs)
    ensures Iteration(ss, objective, rng.tape, old(SnapshotOf(ss, rng)), SnapshotOf(ss, rng))
    ensures Elitist(objective, ss.fitnessEpsilon) && old(CostsNonNeg(ss.refSet[..]) && CostsNonNeg(ss.candidatesSet[..])) ==>
              CostsNonNeg(ss.refSet[..]) && CostsNonNeg(ss.candidatesSet[..]) && ss.refSet[0].cost <= old(ss.refSet[0].cost)
  {
    assert ss.candidatesSet.Length >= 1 by {
      SSUpdate.MulLe(1, 1, ss.refSetSize, ss.refSetSize);
    }
    ghost var a := SnapshotOf(ss, rng);
    NewCandidates(ss, rng, objective);
    ghost var cands := ss.candidatesSet[..];
    assert Shaped(cands, ss.nreal) && |cands| == |a.candidates| >= 1;
    ghost var size := ss.candidatesSetSize;
    ghost var pos1 := rng.pos;
    ghost var evals1 := ss.nFunctionEvals;
    assert ss.refSet[..] == a.refSet && ss.freqs == a.freqs;
    Renew(ss, rng, objective);
    assert ss.candidatesSet[..] == cands && ss.candidatesSetSize == size;
    ghost var b := SnapshotOf(ss, rng);
    IterationOf(ss, objective, rng.tape, a, b, cands, size, pos1, evals1);
  }

  /** The facts NewCandidates and then Renew leave behind, on values, make
      up one Iteration. */
  lemma IterationOf(ss: SSType, objective: seq<real> -> real, tape: nat -> real, a: Snapshot, b: Snapshot,
                    cands: seq<Individual>, size: nat, pos1: nat, evals1: int)
    requires |a.refSet| == ss.refSetSize >= 2 && ss.maxElite < ss.refSetSize && Shaped(a.refSet, ss.nreal)
    requires |ss.minRealVar| == ss.nreal && |ss.maxRealVar| == ss.nreal
    requires 1 <= |cands| == |a.candidates| && Shaped(cands, ss.nreal) && size <= |cands|
    requires SSStats.SameGrid(a.freqs, ss.minBoundary, ss.maxBoundary) && |a.freqs| == ss.nreal
    requires var c := Candidates(ss, a.refSet, objective, tape, a.pos);
             && size == |c.0| && pos1 == c.1 && evals1 == a.nFunctionEvals + size
             && SortedByCost(cands[..size]) && multiset(cands[..size]) == multiset(c.0)
             && cands[size..] == a.candidates[size..]
    requires b.candidates == cands && b.candidatesSize == size
    requires var r := Renewal(ss, a.refSet, cands, size, objective, tape, pos1);
             && SortedByCost(b.refSet) && multiset(b.refSet) == multiset(r.members)
             && b.pos == r.pos
             && b.nRefSetUpdate == a.nRefSetUpdate + |r.admitted|
             && b.nRefinement == a.nRefinement + r.refined
             && b.nFunctionEvals == evals1 + r.refined * SSRefine.ClimberOf(ss, 's', objective).Evals()
             && b.freqs == SSStats.Tallied(ss.stats, SSStats.Tallied(ss.stats, a.freqs, r.admitted, ss.minBoundary, ss.maxBoundary),
                                           r.searched, ss.minBoundary, ss.maxBoundary)
    ensures Iteration(ss, objective, tape, a, b)
  {
    var r := Renewal(ss, a.refSet, cands, size, objective, tape, pos1);
    Util.ProductNonNeg(r.refined, SSRefine.ClimberOf(ss, 's', objective).Evals());
  }

  /** `trace` is `n` iterations in a row. */
  ghost predicate Traced(ss: SSType, objective: seq<real> -> real, tape: nat -> real, trace: seq<Snapshot>, n: nat)
    reads ss`minBoundary, ss`maxBoundary
  {
    |trace| == n + 1 && forall k :: 0 <= k < n ==> Iteration(ss, objective, tape, trace[k], trace[k + 1])
  }

  /** One more iteration after a trace of `n` extends it to `n + 1`. */
  lemma TracedStep(ss: SSType, objective: seq<real> -> real, tape: nat -> real, trace: seq<Snapshot>, n: nat, b: Snapshot)
    requires Traced(ss, objective, tape, trace, n) && Iteration(ss, objective, tape, trace[n], b)
    ensures Traced(ss, objective, tape, trace + [b], n + 1)
  {
    assert forall k :: 0 <= k < n ==> (trace + [b])[k] == trace[k];
  }

  /** Without `STATS` an iteration leaves the frequency matrix as it was. */
  lemma IterationUncounted(ss: SSType, objective: seq<real> -> real, tape: nat -> real, a: Snapshot, b: Snapshot)
    requires Iteration(ss, objective, tape, a, b) && !ss.stats
    ensures b.freqs == a.freqs
  {
  }

  /** One iteration, recorded at the end of the trace of those before it. */
  method Step(ss: SSType, rng: Rng, objective: seq<real> -> real, ghost trace: seq<Snapshot>, ghost n: nat)
    returns (ghost trace': seq<Snapshot>)
    requires ss.Valid() && ss.Matrices() && rng.Valid() && ss.refSetSize >= 2
    requires Traced(ss, objective, rng.tape, trace, n) && trace[n] == SnapshotOf(ss, rng)
    modifies ss.subsetsList, ss`subsetsListSize, ss.candidatesSet, ss`candidatesSetSize, rng`pos,
             ss.refSet, ss`nRefSetUpdate, ss`freqs, ss`nRefinement, ss`nFunctionEvals
    ensures ss.Valid() && ss.Matrices() && SSInit.FreqsAtLeast(old(ss.freqs), ss.freqs)
    ensures Traced(ss, objective, rng.tape, trace', n + 1) && trace' == trace + [SnapshotOf(ss, rng)]
    ensures Elitist(objective, ss.fitnessEpsilon) && old(CostsNonNeg(ss.refSet[..]) && CostsNonNeg(ss.candidatesSet[..])) ==>
              CostsNonNeg(ss.refSet[..]) && CostsNonNeg(ss.candidatesSet[..]) && ss.refSet[0].cost <= old(ss.refSet[0].cost)
  {
    Iterate(ss, rng, objective);
    trace' := trace + [SnapshotOf(ss, rng)];
    TracedStep(ss, objective, rng.tape, trace, n, SnapshotOf(ss, rng));
  }

  /** An iteration leaves the reference set sorted by cost. */
  lemma IterationSorted(ss: SSType, objective: seq<real> -> real, tape: nat -> real, a: Snapshot, b: Snapshot)
    requires Iteration(ss, objective, tape, a, b)
    ensures SortedByCost(b.refSet)
  {
  }

  /** Without `STATS` no iteration of a trace touches the frequency matrix. */
  lemma {:induction false} TracedUncounted(ss: SSType, objective: seq<real> -> real, tape: nat -> real,
                                           trace: seq<Snapshot>, n: nat, m: nat)
    requires Traced(ss, objective, tape, trace, n) && !ss.stats && m <= n
    ensures trace[m].freqs == trace[0].freqs
  {
    if m > 0 {
      TracedUncounted(ss, objective, tape, trace, n, m - 1);
      IterationUncounted(ss, objective, tape, trace[m - 1], trace[m]);
    }
  }

  /** RunSS: exactly `max_iter - 1` iterations (none when `max_iter <= 1`).
      After the first one the reference set is sorted, so `best` designates
      a cheapest member; the frequencies only grow; and in the elitist
      setting the best cost never goes up over the run. */
  method RunSS(ss: SSType, rng: Rng, objective: seq<real> -> real) returns (ghost iterations: nat, ghost trace: seq<Snapshot>)
    requires ss.Valid() && ss.Matrices() && rng.Valid() && ss.refSetSize >= 2
    modifies ss.subsetsList, ss`subsetsListSize, ss.candidatesSet, ss`candidatesSetSize, rng`pos,
             ss.refSet, ss`nRefSetUpdate, ss`freqs, ss`nRefinement, ss`nFunctionEvals
    ensures iterations == (if ss.maxIter > 1 then ss.maxIter - 1 else 0)
    ensures |trace| == iterations + 1 && trace[0] == old(SnapshotOf(ss, rng)) && trace[iterations] == SnapshotOf(ss, rng)
    ensures forall k :: 0 <= k < iterations ==> Iteration(ss, objective, rng.tape, trace[k], trace[k + 1])
    ensures ss.Valid() && ss.Matrices()
    ensures iterations > 0 ==> SortedByCost(ss.refSet[..])
    ensures iterations == 0 ==> ss.refSet[..] == old(ss.refSet[..])
    ensures SSInit.FreqsAtLeast(old(ss.freqs), ss.freqs) && (!ss.stats ==> ss.freqs == old(ss.freqs))
    ensures Elitist(objective, ss.fitnessEpsilon) && old(CostsNonNeg(ss.refSet[..]) && CostsNonNeg(ss.candidatesSet[..])) ==>
              ss.refSet[0].cost <= old(ss.refSet[0].cost)
  {
    ghost var start := Elitist(objective, ss.fitnessEpsilon) && CostsNonNeg(ss.refSet[..]) && CostsNonNeg(ss.candidatesSet[..]);
    ghost var best0 := ss.refSet[0].cost;
    iterations := 0;
    trace := [SnapshotOf(ss, rng)];
    var iter := 1;
    while iter < ss.maxIter
      invariant iter >= 1 && iterations == iter - 1
      invariant (ss.maxIter >= 1 ==> iter <= ss.maxIter) && (ss.maxIter < 1 ==> iter == 1)
      invariant Traced(ss, objective, rng.tape, trace, iterations)
      invariant trace[0] == old(SnapshotOf(ss, rng)) && trace[iterations] == SnapshotOf(ss, rng)
      invariant ss.Valid() && ss.Matrices() && SSInit.FreqsAtLeast(old(ss.freqs), ss.freqs)
      invariant start ==> CostsNonNeg(ss.refSet[..]) && CostsNonNeg(ss.candidatesSet[..]) && ss.refSet[0].cost <= best0
      decreases ss.maxIter - iter
    {
      ghost var f := ss.freqs;
      trace := Step(ss, rng, objective, trace, iterations);
      SSInit.FreqsTrans(old(ss.freqs), f, ss.freqs);
      iterations := iterations + 1;
      iter := iter + 1;
    }
    if !ss.stats {
      TracedUncounted(ss, objective, rng.tape, trace, iterations, iterations);
    }
    if iterations > 0 {
      IterationSorted(ss, objective, rng.tape, trace[iterations - 1], trace[iterations]);
    }
  }
}
