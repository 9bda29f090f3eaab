/** ss/recombine.c: building candidate solutions from the selected pairs
    (`generate_candiates`, `generate_ind_candidate`). */
module SSRecombine {
  import opened Util
  import opened SSTypes
  import opened SSParams
  import opened Oracle
  import SSUpdate

  // ---------------------------------------------------------------------------
  // generate_ind_candidate

  /** The four candidate types of generate_ind_candidate (the characters
      '0' to '3' of the C switch; no other character is ever passed). */
  datatype Kind = Type0 | Type1 | Type2 | Type3

  /** Coordinate `i` of a candidate built from `b` along the half step `d`,
      before clamping, when the draws start at `tape(pos)`: type 0 moves
      every coordinate back by the same fraction `tape(pos)` of its step,
      type 1 back by a fresh fraction per coordinate, types 2 and 3
      (identical) forward by a fresh fraction per coordinate. */
  function Unclamped(kind: Kind, b: real, d: real, tape: nat -> real, pos: nat, i: nat): real
  {
    match kind
    case Type0 => b - Scaled(d, tape(pos))
    case Type1 => b - Scaled(tape(pos + i), d)
    case Type2 => b + Scaled(tape(pos + i), d)
    case Type3 => b + Scaled(tape(pos + i), d)
  }

  /** The product of a step and a drawn fraction. */
  function Scaled(a: real, b: real): real
  {
    a * b
  }

  /** Draws one candidate consumes: one shared draw for type 0, one per
      coordinate otherwise. */
  function DrawsFor(kind: Kind, n: nat): nat
  {
    if kind == Type0 then 1 else n
  }

  /** The parameters generate_ind_candidate writes: every coordinate moved
      from `base` and clamped into `[lo_i, hi_i]`. */
  function GenParams(base: seq<real>, d: seq<real>, lo: seq<real>, hi: seq<real>, n: nat,
                     kind: Kind, tape: nat -> real, pos: nat): (x: seq<real>)
    requires |base| == n && |d| == n && |lo| == n && |hi| == n
    ensures |x| == n
    ensures Ordered(lo, hi) ==> InBounds(x, lo, hi)
  {
    seq(n, i requires 0 <= i < n => Clamp(Unclamped(kind, base[i], d[i], tape, pos, i), lo[i], hi[i]))
  }

  /** Every lower bound is at most its upper bound. */
  predicate Ordered(lo: seq<real>, hi: seq<real>)
  {
    |lo| == |hi| && forall i :: 0 <= i < |lo| ==> lo[i] <= hi[i]
  }

  /** Every parameter vector lies within the bounds. */
  predicate AllWithin(xs: seq<seq<real>>, lo: seq<real>, hi: seq<real>)
  {
    forall k :: 0 <= k < |xs| ==> InBounds(xs[k], lo, hi)
  }

  lemma AllWithinJoin(xs: seq<seq<real>>, ys: seq<seq<real>>, lo: seq<real>, hi: seq<real>)
    requires AllWithin(xs, lo, hi) && AllWithin(ys, lo, hi)
    ensures AllWithin(xs + ys, lo, hi)
  {
    forall k | 0 <= k < |xs + ys| ensures InBounds((xs + ys)[k], lo, hi) {
      if k >= |xs| {
        assert (xs + ys)[k] == ys[k - |xs|];
      }
    }
  }

  /** `v` lies between `a` and `b`, in either order. */
  predicate Between(v: real, a: real, b: real)
  {
    (a <= v <= b) || (b <= v <= a)
  }

  /** Clamping into a box that holds the base never leaves the segment
      from the base to the unclamped point: a candidate coordinate lies
      between the base coordinate and the base moved by the whole step
      (`-d` for types 0 and 1, `+d` for types 2 and 3). So a type-2
      candidate from the first member of a pair stays between it and the
      pair's midpoint, and a type-3 candidate from the second member stays
      between it and the point half a pair-distance beyond it. */
  lemma GenParamsBetween(base: seq<real>, d: seq<real>, lo: seq<real>, hi: seq<real>, n: nat,
                         kind: Kind, tape: nat -> real, pos: nat)
    requires |base| == n && |d| == n && |lo| == n && |hi| == n
    requires InBounds(base, lo, hi)
    requires forall k: nat :: 0.0 <= tape(k) <= 1.0
    ensures var x := GenParams(base, d, lo, hi, n, kind, tape, pos);
            forall i :: 0 <= i < n ==>
              Between(x[i], base[i], if kind == Type0 || kind == Type1 then base[i] - d[i] else base[i] + d[i])
  {
    forall i | 0 <= i < n
      ensures var x := GenParams(base, d, lo, hi, n, kind, tape, pos);
              Between(x[i], base[i], if kind == Type0 || kind == Type1 then base[i] - d[i] else base[i] + d[i])
    {
      CoordinateBetween(kind, base[i], d[i], tape, pos, i, lo[i], hi[i]);
    }
  }

  lemma CoordinateBetween(kind: Kind, b: real, d: real, tape: nat -> real, pos: nat, i: nat, lo: real, hi: real)
    requires lo <= b <= hi && 0.0 <= tape(pos) <= 1.0 && 0.0 <= tape(pos + i) <= 1.0
    ensures Between(Clamp(Unclamped(kind, b, d, tape, pos, i), lo, hi), b,
                    if kind == Type0 || kind == Type1 then b - d else b + d)
  {
    var e := if kind == Type0 || kind == Type1 then b - d else b + d;
    var u := if kind == Type0 then tape(pos) else tape(pos + i);
    FractionBetween(b, d, u, kind == Type0 || kind == Type1);
    ClampBetween(Unclamped(kind, b, d, tape, pos, i), b, e, lo, hi);
  }

  /** `b -/+ u*d` with `0 <= u <= 1` lies between `b` and `b -/+ d`. */
  lemma FractionBetween(b: real, d: real, u: real, back: bool)
    requires 0.0 <= u <= 1.0
    ensures back ==> Between(b - d * u, b, b - d) && Between(b - u * d, b, b - d)
    ensures !back ==> Between(b + u * d, b, b + d)
  {
    if d >= 0.0 {
      assert 0.0 <= d * u <= d by { FractionOfStep(d, u); }
    } else {
      assert d <= d * u <= 0.0 by { FractionOfStep(-d, u); }
    }
  }

  lemma FractionOfStep(d: real, u: real)
    requires 0.0 <= d && 0.0 <= u <= 1.0
    ensures 0.0 <= d * u <= d
  {
    assert d * (1.0 - u) >= 0.0 by { MulNonNeg(d, 1.0 - u); }
    assert d * u >= 0.0 by { MulNonNeg(d, u); }
  }

  /** MAX(MIN(v, hi), lo) keeps a point between `a` (inside the box) and
      `e` between them. */
  lemma ClampBetween(v: real, a: real, e: real, lo: real, hi: real)
    requires Between(v, a, e) && lo <= a <= hi
    ensures Between(Clamp(v, lo, hi), a, e)
  {
  }

  // ---------------------------------------------------------------------------
  // generate_candiates: the specification

  /** Which member of a pair a candidate is built from, and its type. */
  datatype Recipe = Recipe(fromSecond: bool, kind: Kind)

  /** The candidates a pair gives, in the order generate_candiates builds
      them, with `mid` the cost of reference member `max_elite` and `coin`
      the draw of the both-expensive case. */
  function PairRecipes(q: Pair, mid: real, coin: real): seq<Recipe>
  {
    if q.first.cost < mid && q.second.cost < mid then
      [Recipe(false, Type0), Recipe(true, Type0), Recipe(false, Type1),
       Recipe(false, Type2), Recipe(true, Type3), Recipe(true, Type3)]
    else if q.first.cost < mid && q.second.cost >= mid then
      [Recipe(false, Type0), Recipe(false, Type1), Recipe(false, Type2), Recipe(true, Type3)]
    else if q.first.cost >= mid && q.second.cost >= mid then
      [if coin < 0.5 then Recipe(false, Type1) else Recipe(true, Type3), Recipe(false, Type2)]
    else
      []
  }

  /** Whether the pair's branch draws the coin first (both members at
      least as expensive as `mid`). */
  predicate CoinDrawn(q: Pair, mid: real)
  {
    q.first.cost >= mid && q.second.cost >= mid
  }

  /** The number of candidates a pair gives: 6 when both members are
      cheaper than `mid`, 4 when only the first is, 2 when neither is, and
      none when only the second is. */
  function PairCount(q: Pair, mid: real): nat
  {
    if q.first.cost < mid then (if q.second.cost < mid then 6 else 4)
    else (if q.second.cost >= mid then 2 else 0)
  }

  /** The half steps `dists[j] = (m1_j - m0_j) / 2`. */
  function HalfSteps(q: Pair, n: nat): (d: seq<real>)
    requires |q.first.params| == n && |q.second.params| == n
    ensures |d| == n
  {
    seq(n, j requires 0 <= j < n => (q.second.params[j] - q.first.params[j]) / 2.0)
  }

  /** The member a recipe starts from. */
  function BaseOf(q: Pair, r: Recipe): seq<real>
  {
    if r.fromSecond then q.second.params else q.first.params
  }

  /** The parameter vectors the recipes `rs` build, in order, when the
      draws start at `tape(pos)`, and the position after the last draw. */
  function Apply(rs: seq<Recipe>, q: Pair, d: seq<real>, lo: seq<real>, hi: seq<real>, n: nat,
                 tape: nat -> real, pos: nat): (out: (seq<seq<real>>, nat))
    requires |q.first.params| == n && |q.second.params| == n && |d| == n && |lo| == n && |hi| == n
    ensures |out.0| == |rs|
  {
    if rs == [] then ([], pos)
    else
      var pre := Apply(rs[..|rs| - 1], q, d, lo, hi, n, tape, pos);
      var r := rs[|rs| - 1];
      (pre.0 + [GenParams(BaseOf(q, r), d, lo, hi, n, r.kind, tape, pre.1)], pre.1 + DrawsFor(r.kind, n))
  }

  /** What generate_candiates produces for one pair, starting at draw
      `pos`. */
  function PairOut(q: Pair, mid: real, lo: seq<real>, hi: seq<real>, n: nat,
                   tape: nat -> real, pos: nat): (seq<seq<real>>, nat)
    requires |q.first.params| == n && |q.second.params| == n && |lo| == n && |hi| == n
  {
    var start := if CoinDrawn(q, mid) then pos + 1 else pos;
    Apply(PairRecipes(q, mid, tape(pos)), q, HalfSteps(q, n), lo, hi, n, tape, start)
  }

  /** What generate_candiates produces for the pairs `ps`, in order. */
  function Recombine(ps: seq<Pair>, mid: real, lo: seq<real>, hi: seq<real>, n: nat,
                     tape: nat -> real, pos: nat): (seq<seq<real>>, nat)
    requires PairsShaped(ps, n) && |lo| == n && |hi| == n
  {
    if ps == [] then ([], pos)
    else
      var pre := Recombine(ps[..|ps| - 1], mid, lo, hi, n, tape, pos);
      var last := PairOut(ps[|ps| - 1], mid, lo, hi, n, tape, pre.1);
      (pre.0 + last.0, last.1)
  }

  /** One more pair appends its candidates and moves the draw position on. */
  lemma RecombineSnoc(ps: seq<Pair>, i: nat, mid: real, lo: seq<real>, hi: seq<real>, n: nat,
                      tape: nat -> real, pos: nat)
    requires PairsShaped(ps, n) && |lo| == n && |hi| == n && i < |ps|
    ensures var pre := Recombine(ps[..i], mid, lo, hi, n, tape, pos);
            var last := PairOut(ps[i], mid, lo, hi, n, tape, pre.1);
            Recombine(ps[..i + 1], mid, lo, hi, n, tape, pos) == (pre.0 + last.0, last.1)
  {
    assert ps[..i + 1][..i] == ps[..i];
  }

  /** The total number of candidates the pairs give. */
  function TotalCount(ps: seq<Pair>, mid: real): nat
  {
    if ps == [] then 0 else TotalCount(ps[..|ps| - 1], mid) + PairCount(ps[|ps| - 1], mid)
  }

  // ---------------------------------------------------------------------------
  // generate_candiates: properties

  /** A pair gives exactly the number of candidates its cost class says. */
  lemma PairOutCount(q: Pair, mid: real, lo: seq<real>, hi: seq<real>, n: nat, tape: nat -> real, pos: nat)
    requires |q.first.params| == n && |q.second.params| == n && |lo| == n && |hi| == n
    ensures |PairOut(q, mid, lo, hi, n, tape, pos).0| == PairCount(q, mid)
  {
  }

  /** The candidate count is the sum of the per-pair counts. */
  lemma {:induction false} RecombineCount(ps: seq<Pair>, mid: real, lo: seq<real>, hi: seq<real>, n: nat,
                                          tape: nat -> real, pos: nat)
    requires PairsShaped(ps, n) && |lo| == n && |hi| == n
    ensures |Recombine(ps, mid, lo, hi, n, tape, pos).0| == TotalCount(ps, mid)
  {
    if ps != [] {
      var pre := Recombine(ps[..|ps| - 1], mid, lo, hi, n, tape, pos);
      RecombineCount(ps[..|ps| - 1], mid, lo, hi, n, tape, pos);
      PairOutCount(ps[|ps| - 1], mid, lo, hi, n, tape, pre.1);
    }
  }

  /** At most six candidates per pair; and when every pair is ordered by
      cost (first no dearer than second), the no-candidate case never
      arises and every pair gives at least two. */
  lemma {:induction false} TotalCountBounds(ps: seq<Pair>, mid: real)
    ensures TotalCount(ps, mid) <= 6 * |ps|
    ensures (forall k :: 0 <= k < |ps| ==> ps[k].first.cost <= ps[k].second.cost) ==>
              2 * |ps| <= TotalCount(ps, mid)
  {
    if ps != [] {
      TotalCountBounds(ps[..|ps| - 1], mid);
    }
  }

  /** Pairs selected from a cost-sorted set are ordered by cost, since
      select_subsets_list only pairs `set[i]` with a later `set[j]`. */
  lemma SubsetsOrdered(s: seq<Individual>, n: nat, eps: real)
    requires Shaped(s, n) && SortedByCost(s)
    ensures var ps := SSUpdate.SubsetsOf(s, n, eps);
            forall k :: 0 <= k < |ps| ==> ps[k].first.cost <= ps[k].second.cost
  {
    var ps := SSUpdate.SubsetsOf(s, n, eps);
    SSUpdate.PairsUpToSound(s, |s|, n, eps);
    forall k | 0 <= k < |ps| ensures ps[k].first.cost <= ps[k].second.cost {
      assert ps[k] in ps;
      var a, b :| a < |s| && SSUpdate.PairedAt(s, ps[k], a, b, n, eps);
    }
  }

  /** Every candidate built from a pair lies within the bounds. */
  lemma {:induction false} ApplyInBounds(rs: seq<Recipe>, q: Pair, d: seq<real>, lo: seq<real>, hi: seq<real>,
                                         n: nat, tape: nat -> real, pos: nat)
    requires |q.first.params| == n && |q.second.params| == n && |d| == n && |lo| == n && |hi| == n
    requires Ordered(lo, hi)
    ensures AllWithin(Apply(rs, q, d, lo, hi, n, tape, pos).0, lo, hi)
  {
    if rs != [] {
      var pre := Apply(rs[..|rs| - 1], q, d, lo, hi, n, tape, pos);
      var r := rs[|rs| - 1];
      var x := GenParams(BaseOf(q, r), d, lo, hi, n, r.kind, tape, pre.1);
      ApplyInBounds(rs[..|rs| - 1], q, d, lo, hi, n, tape, pos);
      assert AllWithin([x], lo, hi);
      AllWithinJoin(pre.0, [x], lo, hi);
    }
  }

  /** Every vector of `xs` has `n` coordinates. */
  predicate AllSized(xs: seq<seq<real>>, n: nat)
  {
    forall k :: 0 <= k < |xs| ==> |xs[k]| == n
  }

  /** Every vector built has `n` coordinates. */
  lemma {:induction false} ApplySized(rs: seq<Recipe>, q: Pair, d: seq<real>, lo: seq<real>, hi: seq<real>,
                                      n: nat, tape: nat -> real, pos: nat)
    requires |q.first.params| == n && |q.second.params| == n && |d| == n && |lo| == n && |hi| == n
    ensures AllSized(Apply(rs, q, d, lo, hi, n, tape, pos).0, n)
  {
    if rs != [] {
      ApplySized(rs[..|rs| - 1], q, d, lo, hi, n, tape, pos);
    }
  }

  /** Every candidate generate_candiates builds lies within the bounds. */
  lemma {:induction false} RecombineInBounds(ps: seq<Pair>, mid: real, lo: seq<real>, hi: seq<real>, n: nat,
                                             tape: nat -> real, pos: nat)
    requires PairsShaped(ps, n) && |lo| == n && |hi| == n
    requires Ordered(lo, hi)
    ensures AllWithin(Recombine(ps, mid, lo, hi, n, tape, pos).0, lo, hi)
  {
    if ps != [] {
      var pre := Recombine(ps[..|ps| - 1], mid, lo, hi, n, tape, pos);
      var q := ps[|ps| - 1];
      RecombineInBounds(ps[..|ps| - 1], mid, lo, hi, n, tape, pos);
      var start := if CoinDrawn(q, mid) then pre.1 + 1 else pre.1;
      ApplyInBounds(PairRecipes(q, mid, tape(pre.1)), q, HalfSteps(q, n), lo, hi, n, tape, start);
      AllWithinJoin(pre.0, PairOut(q, mid, lo, hi, n, tape, pre.1).0, lo, hi);
    }
  }

  // ---------------------------------------------------------------------------
  // generate_candiates: the code

  /** `after` is `before` with slots `at .. at+|xs|` given the parameter
      vectors `xs`, each slot keeping its cost (generate_ind_candidate
      does not set it), and every other slot unchanged. */
  ghost predicate Written(before: seq<Individual>, after: seq<Individual>, at: nat, xs: seq<seq<real>>)
  {
    && |after| == |before| && at + |xs| <= |before|
    && (forall c :: 0 <= c < |before| && !(at <= c < at + |xs|) ==> after[c] == before[c])
    && (forall k :: 0 <= k < |xs| ==> after[at + k] == Individual(xs[k], before[at + k].cost))
  }

  lemma WrittenJoin(a: seq<Individual>, b: seq<Individual>, c: seq<Individual>, at: nat,
                    xs: seq<seq<real>>, ys: seq<seq<real>>)
    requires Written(a, b, at, xs) && Written(b, c, at + |xs|, ys)
    ensures Written(a, c, at, xs + ys)
  {
    forall k | 0 <= k < |xs + ys| ensures c[at + k] == Individual((xs + ys)[k], a[at + k].cost) {
      if k >= |xs| {
        assert c[at + |xs| + (k - |xs|)] == Individual(ys[k - |xs|], b[at + |xs| + (k - |xs|)].cost);
      }
    }
  }

  lemma WrittenWithin(before: seq<Individual>, after: seq<Individual>, xs: seq<seq<real>>, lo: seq<real>, hi: seq<real>)
    requires Written(before, after, 0, xs) && AllWithin(xs, lo, hi)
    ensures AllInBounds(after[..|xs|], lo, hi)
  {
    forall k | 0 <= k < |xs| ensures InBounds(after[..|xs|][k].params, lo, hi) {
      assert after[0 + k] == Individual(xs[k], before[0 + k].cost);
    }
  }

  /** `start` with slots `at .. at+|xs|` given the parameter vectors `xs`,
      each keeping its cost. */
  function Stamped(start: seq<Individual>, at: nat, xs: seq<seq<real>>): (s: seq<Individual>)
    requires at + |xs| <= |start|
    ensures |s| == |start|
  {
    seq(|start|, c requires 0 <= c < |start| =>
      if at <= c < at + |xs| then Individual(xs[c - at], start[c].cost) else start[c])
  }

  /** Stamping nothing leaves `start` as it is. */
  lemma StampedNone(start: seq<Individual>, at: nat)
    requires at <= |start|
    ensures Stamped(start, at, []) == start
  {
  }

  /** Stamping one more vector is one more slot update. */
  lemma StampedSnoc(start: seq<Individual>, at: nat, xs: seq<seq<real>>, x: seq<real>)
    requires at + |xs| < |start|
    ensures Stamped(start, at, xs)[at + |xs| := Individual(x, start[at + |xs|].cost)] == Stamped(start, at, xs + [x])
  {
  }

  /** The stamped sequence is `start` with `xs` written from `at`. */
  lemma StampedWritten(start: seq<Individual>, at: nat, xs: seq<seq<real>>)
    requires at + |xs| <= |start|
    ensures Written(start, Stamped(start, at, xs), at, xs)
  {
  }

  /** Writing parameter vectors of length `n` keeps every slot of length
      `n`. */
  lemma WrittenShaped(before: seq<Individual>, after: seq<Individual>, at: nat, xs: seq<seq<real>>, n: nat)
    requires Written(before, after, at, xs) && Shaped(before, n) && AllSized(xs, n)
    ensures Shaped(after, n)
  {
    forall c | 0 <= c < |after| ensures |after[c].params| == n {
      if at <= c < at + |xs| {
        assert after[at + (c - at)] == Individual(xs[c - at], before[at + (c - at)].cost);
      }
    }
  }

  /** The candidates of one pair generated so far: the first `k` recipes
      of `rs` have been applied from slot `at0` and draw `pos0` on. */
  datatype Plan = Plan(start: seq<Individual>, at0: nat, pos0: nat, rs: seq<Recipe>, q: Pair, d: seq<real>)

  /** The plan fits the candidate set: its recipes fit from `at0` on and
      every slot it starts from has `nreal` parameters. */
  ghost predicate PlanFits(ss: SSType, plan: Plan)
  {
    && BoundsSized(ss) && Shaped(plan.start, ss.nreal)
    && |plan.start| == ss.candidatesSet.Length && plan.at0 + |plan.rs| <= ss.candidatesSet.Length
  }

  /** The bound vectors have `nreal` entries. */
  predicate BoundsSized(ss: SSType)
  {
    |ss.minRealVar| == ss.nreal && |ss.maxRealVar| == ss.nreal
  }

  /** The first `k` recipes of the plan have been carried out: from slot
      `at0` on the candidates they build are written, the next slot is
      `at`, and the draws used end at `pos`. */
  ghost predicate OnPlan(ss: SSType, tape: nat -> real, plan: Plan, cands: seq<Individual>, pos: nat, at: nat, k: nat)
    requires |ss.minRealVar| == ss.nreal && |ss.maxRealVar| == ss.nreal
  {
    && |plan.q.first.params| == ss.nreal && |plan.q.second.params| == ss.nreal && |plan.d| == ss.nreal
    && k <= |plan.rs| && at == plan.at0 + k && plan.at0 + |plan.rs| <= |plan.start|
    && var pre := Apply(plan.rs[..k], plan.q, plan.d, ss.minRealVar, ss.maxRealVar, ss.nreal, tape, plan.pos0);
       pos == pre.1 && cands == Stamped(plan.start, plan.at0, pre.0)
  }

  /** generate_ind_candidate: slot `at` of the candidate set receives the
      parameters of a candidate of type `kind` built from `base` along the
      half steps `d`; its cost and every other slot are unchanged. */
  method GenerateIndCandidate(ss: SSType, base: seq<real>, at: nat, d: seq<real>, kind: Kind, rng: Rng)
    requires BoundsSized(ss) && rng.Valid()
    requires |base| == ss.nreal && |d| == ss.nreal && at < ss.candidatesSet.Length
    requires |ss.candidatesSet[at].params| == ss.nreal
    modifies ss.candidatesSet, rng`pos
    ensures ss.candidatesSet[..] == old(ss.candidatesSet[..])[at := Individual(
              GenParams(base, d, ss.minRealVar, ss.maxRealVar, ss.nreal, kind, rng.tape, old(rng.pos)),
              old(ss.candidatesSet[at].cost))]
    ensures rng.pos == old(rng.pos) + DrawsFor(kind, ss.nreal)
  {
    var x := CandidateParams(ss, base, ss.candidatesSet[at].params, d, kind, rng);
    ghost var s0 := ss.candidatesSet[..];
    ss.candidatesSet[at] := Individual(x, ss.candidatesSet[at].cost);
    assert ss.candidatesSet[..] == s0[at := Individual(x, s0[at].cost)];
  }

  /** The coordinate loops of generate_ind_candidate, over the candidate's
      parameter buffer `x0`. */
  method CandidateParams(ss: SSType, base: seq<real>, x0: seq<real>, d: seq<real>, kind: Kind, rng: Rng)
    returns (x: seq<real>)
    requires |ss.minRealVar| == ss.nreal && |ss.maxRealVar| == ss.nreal && rng.Valid()
    requires |base| == ss.nreal && |d| == ss.nreal && |x0| == ss.nreal
    modifies rng`pos
    ensures x == GenParams(base, d, ss.minRealVar, ss.maxRealVar, ss.nreal, kind, rng.tape, old(rng.pos))
    ensures rng.pos == old(rng.pos) + DrawsFor(kind, ss.nreal)
  {
    if kind == Type0 {
      var rnd := rng.RndReal(0.0, 1.0);
      x := SharedDrawLoop(ss, base, x0, d, rnd, rng);
    } else {
      x := FreshDrawLoop(ss, base, x0, d, kind, rng);
    }
  }

  /** The loop of type 0: every coordinate moves back by the same fraction
      `rnd` of its step. */
  method SharedDrawLoop(ss: SSType, base: seq<real>, x0: seq<real>, d: seq<real>, rnd: real, rng: Rng)
    returns (x: seq<real>)
    requires |ss.minRealVar| == ss.nreal && |ss.maxRealVar| == ss.nreal && rng.pos >= 1
    requires |base| == ss.nreal && |d| == ss.nreal && |x0| == ss.nreal && rnd == rng.tape(rng.pos - 1)
    ensures x == GenParams(base, d, ss.minRealVar, ss.maxRealVar, ss.nreal, Type0, rng.tape, rng.pos - 1)
  {
    x := x0;
    for i := 0 to ss.nreal
      invariant |x| == ss.nreal
      invariant forall c :: 0 <= c < i ==>
                  x[c] == Clamp(Unclamped(Type0, base[c], d[c], rng.tape, rng.pos - 1, c), ss.minRealVar[c], ss.maxRealVar[c])
    {
      var v := base[i] - d[i] * rnd;
      v := MinReal(v, ss.maxRealVar[i]);
      v := MaxReal(v, ss.minRealVar[i]);
      x := x[i := v];
    }
  }

  /** The loops of types 1, 2 and 3: a fresh draw per coordinate. */
  method FreshDrawLoop(ss: SSType, base: seq<real>, x0: seq<real>, d: seq<real>, kind: Kind, rng: Rng)
    returns (x: seq<real>)
    requires |ss.minRealVar| == ss.nreal && |ss.maxRealVar| == ss.nreal && rng.Valid() && kind != Type0
    requires |base| == ss.nreal && |d| == ss.nreal && |x0| == ss.nreal
    modifies rng`pos
    ensures x == GenParams(base, d, ss.minRealVar, ss.maxRealVar, ss.nreal, kind, rng.tape, old(rng.pos))
    ensures rng.pos == old(rng.pos) + ss.nreal
  {
    x := x0;
    for i := 0 to ss.nreal
      invariant |x| == ss.nreal && rng.pos == old(rng.pos) + i
      invariant forall c :: 0 <= c < i ==>
                  x[c] == Clamp(Unclamped(kind, base[c], d[c], rng.tape, old(rng.pos), c), ss.minRealVar[c], ss.maxRealVar[c])
    {
      var r := rng.RndReal(0.0, 1.0);
      var v := if kind == Type1 then base[i] - r * d[i] else base[i] + r * d[i];
      v := MinReal(v, ss.maxRealVar[i]);
      v := MaxReal(v, ss.minRealVar[i]);
      x := x[i := v];
    }
  }

  /** One generate_ind_candidate call of a pair's branch: recipe `k` of the
      plan, written to the next slot. */
  method Emit(ss: SSType, q: Pair, d: seq<real>, r: Recipe, at: nat, rng: Rng, ghost plan: Plan, ghost k: nat)
    returns (at': nat)
    requires PlanFits(ss, plan) && rng.Valid()
    requires OnPlan(ss, rng.tape, plan, ss.candidatesSet[..], rng.pos, at, k) && k < |plan.rs|
    requires q == plan.q && d == plan.d && r == plan.rs[k]
    modifies ss.candidatesSet, rng`pos
    ensures at' == at + 1
    ensures OnPlan(ss, rng.tape, plan, ss.candidatesSet[..], rng.pos, at', k + 1)
  {
    ghost var pre := Apply(plan.rs[..k], plan.q, plan.d, ss.minRealVar, ss.maxRealVar, ss.nreal, rng.tape, plan.pos0);
    ghost var cost := plan.start[at].cost;
    assert ss.candidatesSet[at].cost == cost;
    var base := BaseOf(q, r);
    GenerateIndCandidate(ss, base, at, d, r.kind, rng);
    at' := at + 1;
    ghost var x := GenParams(base, d, ss.minRealVar, ss.maxRealVar, ss.nreal, r.kind, rng.tape, pre.1);
    StampedSnoc(plan.start, plan.at0, pre.0, x);
    assert plan.rs[..k + 1][..k] == plan.rs[..k];
  }

  /** The branch of generate_candiates for one pair: the candidates of
      PairRecipes, written from slot `at` on. */
  method GeneratePair(ss: SSType, q: Pair, d: seq<real>, mid: real, at: nat, rng: Rng) returns (at': nat)
    requires BoundsSized(ss) && rng.Valid() && Shaped(ss.candidatesSet[..], ss.nreal)
    requires |q.first.params| == ss.nreal && |q.second.params| == ss.nreal && d == HalfSteps(q, ss.nreal)
    requires at + PairCount(q, mid) <= ss.candidatesSet.Length
    modifies ss.candidatesSet, rng`pos
    ensures Shaped(ss.candidatesSet[..], ss.nreal)
    ensures var out := PairOut(q, mid, ss.minRealVar, ss.maxRealVar, ss.nreal, rng.tape, old(rng.pos));
            && at' == at + |out.0| && rng.pos == out.1
            && Written(old(ss.candidatesSet[..]), ss.candidatesSet[..], at, out.0)
  {
    ghost var rs := PairRecipes(q, mid, rng.tape(rng.pos));
    ghost var pos0 := if CoinDrawn(q, mid) then rng.pos + 1 else rng.pos;
    ghost var plan := Plan(ss.candidatesSet[..], at, pos0, rs, q, d);
    StampedNone(plan.start, at);
    at' := at;
    if q.first.cost < mid && q.second.cost < mid {
      at' := BothCheap(ss, q, d, mid, at', rng, plan);
    } else if q.first.cost < mid && q.second.cost >= mid {
      at' := FirstCheap(ss, q, d, mid, at', rng, plan);
    } else if q.first.cost >= mid && q.second.cost >= mid {
      var coin := rng.RndReal(0.0, 1.0);
      at' := NoneCheap(ss, q, d, mid, coin, at', rng, plan);
    } else {
      assert rs == [];
    }
    assert rs[..|rs|] == rs;
    ghost var out := Apply(rs, q, d, ss.minRealVar, ss.maxRealVar, ss.nreal, rng.tape, pos0).0;
    StampedWritten(plan.start, at, out);
    ApplySized(rs, q, d, ss.minRealVar, ss.maxRealVar, ss.nreal, rng.tape, pos0);
    WrittenShaped(plan.start, ss.candidatesSet[..], at, out, ss.nreal);
  }

  /** The first branch: both members cheaper than `mid`, six candidates. */
  method BothCheap(ss: SSType, q: Pair, d: seq<real>, mid: real, at: nat, rng: Rng, ghost plan: Plan) returns (at': nat)
    requires PlanFits(ss, plan) && rng.Valid() && q.first.cost < mid && q.second.cost < mid
    requires plan.q == q && plan.d == d && plan.rs == PairRecipes(q, mid, 0.0)
    requires OnPlan(ss, rng.tape, plan, ss.candidatesSet[..], rng.pos, at, 0)
    modifies ss.candidatesSet, rng`pos
    ensures OnPlan(ss, rng.tape, plan, ss.candidatesSet[..], rng.pos, at', |plan.rs|)
  {
    at' := Emit(ss, q, d, Recipe(false, Type0), at, rng, plan, 0);
    at' := Emit(ss, q, d, Recipe(true, Type0), at', rng, plan, 1);
    at' := Emit(ss, q, d, Recipe(false, Type1), at', rng, plan, 2);
    at' := Emit(ss, q, d, Recipe(false, Type2), at', rng, plan, 3);
    at' := Emit(ss, q, d, Recipe(true, Type3), at', rng, plan, 4);
    at' := Emit(ss, q, d, Recipe(true, Type3), at', rng, plan, 5);
  }

  /** The second branch: only the first member cheaper than `mid`, four
      candidates. */
  method FirstCheap(ss: SSType, q: Pair, d: seq<real>, mid: real, at: nat, rng: Rng, ghost plan: Plan) returns (at': nat)
    requires PlanFits(ss, plan) && rng.Valid() && q.first.cost < mid && q.second.cost >= mid
    requires plan.q == q && plan.d == d && plan.rs == PairRecipes(q, mid, 0.0)
    requires OnPlan(ss, rng.tape, plan, ss.candidatesSet[..], rng.pos, at, 0)
    modifies ss.candidatesSet, rng`pos
    ensures OnPlan(ss, rng.tape, plan, ss.candidatesSet[..], rng.pos, at', |plan.rs|)
  {
    at' := Emit(ss, q, d, Recipe(false, Type0), at, rng, plan, 0);
    at' := Emit(ss, q, d, Recipe(false, Type1), at', rng, plan, 1);
    at' := Emit(ss, q, d, Recipe(false, Type2), at', rng, plan, 2);
    at' := Emit(ss, q, d, Recipe(true, Type3), at', rng, plan, 3);
  }

  /** The third branch: neither member cheaper than `mid`; the coin picks a
      type-1 candidate from the first member or a type-3 one from the
      second, then a type-2 candidate from the first follows. */
  method NoneCheap(ss: SSType, q: Pair, d: seq<real>, mid: real, coin: real, at: nat, rng: Rng, ghost plan: Plan)
    returns (at': nat)
    requires PlanFits(ss, plan) && rng.Valid() && q.first.cost >= mid && q.second.cost >= mid
    requires plan.q == q && plan.d == d && plan.rs == PairRecipes(q, mid, coin)
    requires OnPlan(ss, rng.tape, plan, ss.candidatesSet[..], rng.pos, at, 0)
    modifies ss.candidatesSet, rng`pos
    ensures OnPlan(ss, rng.tape, plan, ss.candidatesSet[..], rng.pos, at', |plan.rs|)
  {
    if coin < 0.5 {
      at' := Emit(ss, q, d, Recipe(false, Type1), at, rng, plan, 0);
    } else {
      at' := Emit(ss, q, d, Recipe(true, Type3), at, rng, plan, 0);
    }
    at' := Emit(ss, q, d, Recipe(false, Type2), at', rng, plan, 1);
  }

  /** The `j` loop of generate_candiates: the half steps of a pair. */
  method PairHalfSteps(ss: SSType, q: Pair) returns (d: seq<real>)
    requires |q.first.params| == ss.nreal && |q.second.params| == ss.nreal
    ensures d == HalfSteps(q, ss.nreal)
  {
    d := seq(ss.nreal, _ => 0.0);
    for j := 0 to ss.nreal
      invariant |d| == ss.nreal
      invariant forall c :: 0 <= c < j ==> d[c] == (q.second.params[c] - q.first.params[c]) / 2.0
    {
      var diff := q.second.params[j] - q.first.params[j];
      d := d[j := diff / 2.0];
    }
  }

  /** The first `i` pairs of `ps` are done: their candidates fill slots
      `0 .. count` of `cands` (from `start`) and the draws end at `pos`. */
  ghost predicate Progress(ss: SSType, ps: seq<Pair>, mid: real, tape: nat -> real, pos0: nat,
                           start: seq<Individual>, cands: seq<Individual>, pos: nat, count: nat, i: nat)
    requires |ss.minRealVar| == ss.nreal && |ss.maxRealVar| == ss.nreal && PairsShaped(ps, ss.nreal) && i <= |ps|
  {
    var out := Recombine(ps[..i], mid, ss.minRealVar, ss.maxRealVar, ss.nreal, tape, pos0);
    count == |out.0| && pos == out.1 && Written(start, cands, 0, out.0)
  }

  lemma ProgressStep(ss: SSType, ps: seq<Pair>, mid: real, tape: nat -> real, pos0: nat, start: seq<Individual>,
                     before: seq<Individual>, after: seq<Individual>, pos: nat, pos': nat, count: nat, count': nat, i: nat)
    requires |ss.minRealVar| == ss.nreal && |ss.maxRealVar| == ss.nreal && PairsShaped(ps, ss.nreal) && i < |ps|
    requires Progress(ss, ps, mid, tape, pos0, start, before, pos, count, i)
    requires var out := PairOut(ps[i], mid, ss.minRealVar, ss.maxRealVar, ss.nreal, tape, pos);
             count' == count + |out.0| && pos' == out.1 && Written(before, after, count, out.0)
    ensures Progress(ss, ps, mid, tape, pos0, start, after, pos', count', i + 1)
    ensures count' <= count + 6
  {
    var pre := Recombine(ps[..i], mid, ss.minRealVar, ss.maxRealVar, ss.nreal, tape, pos0);
    var last := PairOut(ps[i], mid, ss.minRealVar, ss.maxRealVar, ss.nreal, tape, pos);
    RecombineSnoc(ps, i, mid, ss.minRealVar, ss.maxRealVar, ss.nreal, tape, pos0);
    WrittenJoin(start, before, after, 0, pre.0, last.0);
    PairOutCount(ps[i], mid, ss.minRealVar, ss.maxRealVar, ss.nreal, tape, pos);
  }

  /** The body of the `i` loop of generate_candiates: the half steps of
      pair `i`, then its candidates from slot `count` on. */
  method NextPair(ss: SSType, mid: real, rng: Rng, ghost ps: seq<Pair>, i: nat, count: nat,
                  ghost pos0: nat, ghost start: seq<Individual>) returns (count': nat)
    requires BoundsSized(ss) && rng.Valid() && Shaped(ss.candidatesSet[..], ss.nreal)
    requires i < ss.subsetsListSize <= ss.subsetsList.Length && ps == ss.subsetsList[..ss.subsetsListSize]
    requires PairsShaped(ps, ss.nreal) && count + 6 <= ss.candidatesSet.Length
    requires Progress(ss, ps, mid, rng.tape, pos0, start, ss.candidatesSet[..], rng.pos, count, i)
    modifies ss.candidatesSet, rng`pos
    ensures Shaped(ss.candidatesSet[..], ss.nreal) && count' <= count + 6
    ensures Progress(ss, ps, mid, rng.tape, pos0, start, ss.candidatesSet[..], rng.pos, count', i + 1)
  {
    ghost var before, pos := ss.candidatesSet[..], rng.pos;
    var q := ss.subsetsList[i];
    assert q == ps[i];
    var d := PairHalfSteps(ss, q);
    count' := GeneratePair(ss, q, d, mid, count, rng);
    ProgressStep(ss, ps, mid, rng.tape, pos0, start, before, ss.candidatesSet[..], pos, rng.pos, count, count', i);
  }

  /** The `i` loop of generate_candiates over the pairs `ps`. */
  method PairLoop(ss: SSType, mid: real, rng: Rng, ghost ps: seq<Pair>) returns (count: nat)
    requires BoundsSized(ss) && rng.Valid() && Shaped(ss.candidatesSet[..], ss.nreal)
    requires 0 <= ss.subsetsListSize <= ss.subsetsList.Length && ps == ss.subsetsList[..ss.subsetsListSize]
    requires PairsShaped(ps, ss.nreal) && 6 * ss.subsetsList.Length <= ss.candidatesSet.Length
    modifies ss.candidatesSet, rng`pos
    ensures Shaped(ss.candidatesSet[..], ss.nreal) && count <= 6 * |ps|
    ensures var out := Recombine(ps, mid, ss.minRealVar, ss.maxRealVar, ss.nreal, rng.tape, old(rng.pos));
            count == |out.0| && rng.pos == out.1 && Written(old(ss.candidatesSet[..]), ss.candidatesSet[..], 0, out.0)
  {
    count := 0;
    ghost var start := ss.candidatesSet[..];
    for i := 0 to ss.subsetsListSize
      invariant Shaped(ss.candidatesSet[..], ss.nreal) && count <= 6 * i
      invariant Progress(ss, ps, mid, rng.tape, old(rng.pos), start, ss.candidatesSet[..], rng.pos, count, i)
    {
      count := NextPair(ss, mid, rng, ps, i, count, old(rng.pos), start);
    }
    assert ps[..ss.subsetsListSize] == ps;
  }

  /** generate_candiates: the candidates of every selected pair, in order,
      fill the candidate set from slot 0 and `candidates_set_size` is their
      number, which is the sum of the per-pair counts and at most six per
      pair; every candidate lies within the bounds when the bounds are
      ordered. Candidate costs are left as they were. */
  method GenerateCandidates(ss: SSType, rng: Rng)
    requires ss.Valid() && rng.Valid() && ss.refSetSize >= 1
    requires 0 <= ss.subsetsListSize <= ss.subsetsList.Length
    modifies ss.candidatesSet, ss`candidatesSetSize, rng`pos
    ensures ss.Valid()
    ensures var out := Recombine(ss.subsetsList[..ss.subsetsListSize], ss.refSet[ss.maxElite].cost,
                                 ss.minRealVar, ss.maxRealVar, ss.nreal, rng.tape, old(rng.pos));
            && ss.candidatesSetSize == |out.0| && rng.pos == out.1
            && Written(old(ss.candidatesSet[..]), ss.candidatesSet[..], 0, out.0)
    ensures ss.candidatesSetSize == TotalCount(ss.subsetsList[..ss.subsetsListSize], ss.refSet[ss.maxElite].cost)
    ensures ss.candidatesSetSize <= 6 * ss.subsetsListSize
    ensures ss.BoundsOrdered() ==> AllInBounds(ss.candidatesSet[..ss.candidatesSetSize], ss.minRealVar, ss.maxRealVar)
  {
    var mid := ss.refSet[ss.maxElite].cost;
    ghost var ps := ss.subsetsList[..ss.subsetsListSize];
    ghost var start := ss.candidatesSet[..];
    assert PairsShaped(ps, ss.nreal);
    assert ss.candidatesSet.Length == 6 * ss.subsetsList.Length;
    var count := PairLoop(ss, mid, rng, ps);
    ss.candidatesSetSize := count;
    RecombineCount(ps, mid, ss.minRealVar, ss.maxRealVar, ss.nreal, rng.tape, old(rng.pos));
    TotalCountBounds(ps, mid);
    if ss.BoundsOrdered() {
      var out := Recombine(ps, mid, ss.minRealVar, ss.maxRealVar, ss.nreal, rng.tape, old(rng.pos)).0;
      RecombineInBounds(ps, mid, ss.minRealVar, ss.maxRealVar, ss.nreal, rng.tape, old(rng.pos));
      WrittenWithin(start, ss.candidatesSet[..], out, ss.minRealVar, ss.maxRealVar);
    }
  }
}
