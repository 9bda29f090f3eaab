/** Values shared by the Scatter Search engine: an individual (a parameter
    vector with its cost), a pair of individuals (one entry of the subsets
    list), squared Euclidean distance and the near-equality test. */
module SSTypes {

  /** `individual` of ss/ss.h. The `distance` field is not used by the
      modelled code and is left out. */
  datatype Individual = Individual(params: seq<real>, cost: real)

  /** One entry of the subsets list: a `Set` of `pair_size == 2` members. */
  datatype Pair = Pair(first: Individual, second: Individual)

  /** Squared Euclidean distance over the first `n` coordinates. The C code
      takes the square root; every use compares distances with `<` or with a
      non-negative tolerance, so comparing squares decides the same way. */
  function SqDist(x: seq<real>, y: seq<real>, n: nat): (d: real)
    requires n <= |x| && n <= |y|
    ensures d >= 0.0
    ensures d == 0.0 <== x[..n] == y[..n]
  {
    if n == 0 then 0.0
    else
      var t := x[n - 1] - y[n - 1];
      assert x[..n - 1] == y[..n - 1] <== x[..n] == y[..n];
      SqDist(x, y, n - 1) + t * t
  }

  lemma {:induction false} SqDistSymmetric(x: seq<real>, y: seq<real>, n: nat)
    requires n <= |x| && n <= |y|
    ensures SqDist(x, y, n) == SqDist(y, x, n)
  {
    if n > 0 {
      SqDistSymmetric(x, y, n - 1);
      assert (x[n - 1] - y[n - 1]) * (x[n - 1] - y[n - 1]) == (y[n - 1] - x[n - 1]) * (y[n - 1] - x[n - 1]);
    }
  }

  /** is_equal: the Euclidean distance is strictly below `eps`. A distance
      is never negative, so that needs a positive `eps` and then says the
      squared distance is below `eps * eps`. */
  predicate IsEqual(a: Individual, b: Individual, n: nat, eps: real): (r: bool)
    requires n <= |a.params| && n <= |b.params|
    ensures r ==> eps > 0.0
    ensures r <==> eps > 0.0 && SqDist(b.params, a.params, n) < eps * eps
  {
    SqDistSymmetric(a.params, b.params, n);
    eps > 0.0 && SqDist(a.params, b.params, n) < eps * eps
  }

  lemma MulNonNegReal(a: real, b: real)
    requires a >= 0.0 && b >= 0.0
    ensures a * b >= 0.0
  {
  }

  lemma MulPosReal(a: real, b: real)
    requires a > 0.0 && b > 0.0
    ensures a * b > 0.0
  {
  }

  /** Squaring keeps the strict order of non-negative reals. */
  lemma SquareBelow(d: real, eps: real)
    requires 0.0 <= d < eps
    ensures d * d < eps * eps
  {
    calc {
      d * d;
      <= { MulNonNegReal(d, eps - d); }
      d * d + d * (eps - d);
      ==
      d * eps;
      < { MulPosReal(eps, eps - d); }
      d * eps + eps * (eps - d);
      ==
      eps * eps;
    }
  }

  /** Squaring keeps the order of non-negative reals. */
  lemma SquareAtLeast(d: real, eps: real)
    requires 0.0 < eps <= d
    ensures eps * eps <= d * d
  {
    calc {
      eps * eps;
      <= { MulNonNegReal(eps, d - eps); }
      eps * eps + eps * (d - eps);
      ==
      eps * d;
      <= { MulNonNegReal(d, d - eps); }
      eps * d + d * (d - eps);
      ==
      d * d;
    }
  }

  /** IsEqual is is_equal's test on the distance itself: for the
      non-negative `d` whose square is the squared distance, the two are
      near-equal exactly when `d < eps`. */
  lemma IsEqualIsDistanceBelow(a: Individual, b: Individual, n: nat, eps: real, d: real)
    requires n <= |a.params| && n <= |b.params|
    requires d >= 0.0 && d * d == SqDist(a.params, b.params, n)
    ensures IsEqual(a, b, n, eps) <==> d < eps
  {
    if eps > 0.0 {
      if d < eps {
        SquareBelow(d, eps);
      } else {
        SquareAtLeast(d, eps);
      }
    }
  }

  /** With a positive tolerance, an individual whose first `n` coordinates
      are another's is near-equal to it. */
  lemma SameParamsAreEqual(a: Individual, b: Individual, n: nat, eps: real)
    requires n <= |a.params| && n <= |b.params|
    requires eps > 0.0 && a.params[..n] == b.params[..n]
    ensures IsEqual(a, b, n, eps)
  {
    calc {
      SqDist(a.params, b.params, n);
      ==
      0.0;
      < { MulPosReal(eps, eps); }
      eps * eps;
    }
  }

  /** Every member carries a parameter vector of length `n`. */
  ghost predicate Shaped(s: seq<Individual>, n: nat)
  {
    forall k :: 0 <= k < |s| ==> |s[k].params| == n
  }

  /** Both members of every pair carry parameter vectors of length `n`. */
  ghost predicate PairsShaped(ps: seq<Pair>, n: nat)
  {
    forall k :: 0 <= k < |ps| ==> |ps[k].first.params| == n && |ps[k].second.params| == n
  }

  /** Members in non-decreasing order of cost. */
  predicate SortedByCost(s: seq<Individual>)
  {
    forall i, j :: 0 <= i < j < |s| ==> s[i].cost <= s[j].cost
  }

  /** Every coordinate lies between its bounds. */
  predicate InBounds(x: seq<real>, lo: seq<real>, hi: seq<real>)
  {
    |x| == |lo| == |hi| && forall i :: 0 <= i < |x| ==> lo[i] <= x[i] <= hi[i]
  }

  /** Every member lies within the bounds. */
  predicate AllInBounds(s: seq<Individual>, lo: seq<real>, hi: seq<real>)
  {
    forall k :: 0 <= k < |s| ==> InBounds(s[k].params, lo, hi)
  }

  /** Every member's cost is the objective at its parameters. */
  predicate Evaluated(s: seq<Individual>, cost: seq<real> -> real)
  {
    forall k :: 0 <= k < |s| ==> s[k].cost == cost(s[k].params)
  }

  /** MAX(MIN(v, hi), lo), the clamp of ss/recombine.c. */
  function Clamp(v: real, lo: real, hi: real): (r: real)
    ensures lo <= hi ==> lo <= r <= hi
    ensures lo <= v <= hi ==> r == v
  {
    var u := if v < hi then v else hi;
    if u > lo then u else lo
  }

  /** A property of every member survives any permutation of the members. */
  lemma AllPermuted(a: seq<Individual>, b: seq<Individual>, P: Individual -> bool)
    requires multiset(a) == multiset(b)
    requires forall k :: 0 <= k < |a| ==> P(a[k])
    ensures forall k :: 0 <= k < |b| ==> P(b[k])
  {
    forall k | 0 <= k < |b|
      ensures P(b[k])
    {
      assert b[k] in multiset(b);
      assert b[k] in multiset(a);
      var i :| 0 <= i < |a| && a[i] == b[k];
    }
  }
}
