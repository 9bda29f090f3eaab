/** ss/stats.c: the frequency bookkeeping of an admitted individual. */
module SSStats {
  import opened Util
  import opened SSTypes
  import opened SSParams
  import SSInit

  /** The first cell `j' >= j` whose open interval `(lo[j'], hi[j'])`
      contains `x`, if any. */
  function StrictCellFrom(x: real, lo: seq<real>, hi: seq<real>, j: nat): (r: Option<nat>)
    requires |lo| == |hi| && j <= |lo|
    decreases |lo| - j
    ensures r.Some? ==> j <= r.value < |lo|
  {
    if j == |lo| then None
    else if lo[j] < x < hi[j] then Some(j)
    else StrictCellFrom(x, lo, hi, j + 1)
  }

  /** The cell of a row that update_frequency_matrix increments for `x`. */
  function StrictCell(x: real, lo: seq<real>, hi: seq<real>): (r: Option<nat>)
    requires |lo| == |hi|
    ensures r.Some? ==> r.value < |lo|
  {
    StrictCellFrom(x, lo, hi, 0)
  }

  lemma {:induction false} StrictCellFromIsFirst(x: real, lo: seq<real>, hi: seq<real>, j: nat)
    requires |lo| == |hi| && j <= |lo|
    decreases |lo| - j
    ensures var r := StrictCellFrom(x, lo, hi, j);
      && (r.Some? ==> j <= r.value < |lo| && lo[r.value] < x < hi[r.value]
                      && forall c :: j <= c < r.value ==> !(lo[c] < x < hi[c]))
      && (r.None? ==> forall c :: j <= c < |lo| ==> !(lo[c] < x < hi[c]))
  {
    if j < |lo| && !(lo[j] < x < hi[j]) {
      StrictCellFromIsFirst(x, lo, hi, j + 1);
    }
  }

  /** The incremented cell is the first whose open interval holds `x`; no
      cell is incremented when none does. */
  lemma StrictCellIsFirst(x: real, lo: seq<real>, hi: seq<real>)
    requires |lo| == |hi|
    ensures var r := StrictCell(x, lo, hi);
      && (r.Some? ==> r.value < |lo| && lo[r.value] < x < hi[r.value]
                      && forall c :: 0 <= c < r.value ==> !(lo[c] < x < hi[c]))
      && (r.None? ==> forall c :: 0 <= c < |lo| ==> !(lo[c] < x < hi[c]))
  {
    StrictCellFromIsFirst(x, lo, hi, 0);
  }

  /** One frequency row after `x` is counted. */
  function BumpedRow(row: seq<int>, x: real, lo: seq<real>, hi: seq<real>): seq<int>
    requires |lo| == |hi| == |row|
  {
    match StrictCell(x, lo, hi)
    case None => row
    case Some(j) => row[j := row[j] + 1]
  }

  /** A frequency matrix and the two boundary matrices have the same
      shape. */
  predicate SameGrid(f: seq<seq<int>>, lo: seq<seq<real>>, hi: seq<seq<real>>)
  {
    |lo| == |f| && |hi| == |f| && forall i :: 0 <= i < |f| ==> |lo[i]| == |f[i]| && |hi[i]| == |f[i]|
  }

  /** The frequency matrix after update_frequency_matrix counts the
      parameter vector `x`: row `i` counts `x[i]`. */
  function Counted(f: seq<seq<int>>, x: seq<real>, lo: seq<seq<real>>, hi: seq<seq<real>>): (r: seq<seq<int>>)
    requires SameGrid(f, lo, hi) && |x| == |f|
    ensures SameGrid(r, lo, hi)
  {
    seq(|f|, i requires 0 <= i < |f| => BumpedRow(f[i], x[i], lo[i], hi[i]))
  }

  /** The frequency matrix after the individuals `xs` are counted, one
      after the other. */
  function CountedAll(f: seq<seq<int>>, xs: seq<Individual>, lo: seq<seq<real>>, hi: seq<seq<real>>): (r: seq<seq<int>>)
    requires SameGrid(f, lo, hi) && Shaped(xs, |f|)
    ensures SameGrid(r, lo, hi)
    decreases |xs|
  {
    if xs == [] then f
    else Counted(CountedAll(f, xs[..|xs| - 1], lo, hi), xs[|xs| - 1].params, lo, hi)
  }

  /** The frequency matrix after the `#ifdef STATS` updates for the
      individuals `xs`: counted when the program is built with `STATS`,
      untouched otherwise. */
  function Tallied(stats: bool, f: seq<seq<int>>, xs: seq<Individual>, lo: seq<seq<real>>, hi: seq<seq<real>>)
    : (r: seq<seq<int>>)
    requires SameGrid(f, lo, hi) && Shaped(xs, |f|)
    ensures SameGrid(r, lo, hi)
  {
    if stats then CountedAll(f, xs, lo, hi) else f
  }

  /** Counting one list and then another is counting their concatenation. */
  lemma {:induction false} CountedAllAppend(f: seq<seq<int>>, xs: seq<Individual>, ys: seq<Individual>,
                                            lo: seq<seq<real>>, hi: seq<seq<real>>)
    requires SameGrid(f, lo, hi) && Shaped(xs, |f|) && Shaped(ys, |f|)
    ensures Shaped(xs + ys, |f|)
    ensures CountedAll(f, xs + ys, lo, hi) == CountedAll(CountedAll(f, xs, lo, hi), ys, lo, hi)
    decreases |ys|
  {
    if ys == [] {
      assert xs + ys == xs;
    } else {
      var n := |ys| - 1;
      assert (xs + ys)[..|xs + ys| - 1] == xs + ys[..n];
      CountedAllAppend(f, xs, ys[..n], lo, hi);
    }
  }

  /** The `STATS` updates for one list and then another are those for
      their concatenation. */
  lemma TalliedAppend(stats: bool, f: seq<seq<int>>, xs: seq<Individual>, ys: seq<Individual>,
                      lo: seq<seq<real>>, hi: seq<seq<real>>)
    requires SameGrid(f, lo, hi) && Shaped(xs, |f|) && Shaped(ys, |f|)
    ensures Shaped(xs + ys, |f|)
    ensures Tallied(stats, f, xs + ys, lo, hi) == Tallied(stats, Tallied(stats, f, xs, lo, hi), ys, lo, hi)
  {
    CountedAllAppend(f, xs, ys, lo, hi);
  }

  /** Counting `xs` and then `ys` from `f0` is counting `xs + ys`, and the
      counts only grow along the way. */
  lemma TalliedTrans(stats: bool, f0: seq<seq<int>>, f1: seq<seq<int>>, f2: seq<seq<int>>,
                     xs: seq<Individual>, ys: seq<Individual>, lo: seq<seq<real>>, hi: seq<seq<real>>)
    requires SameGrid(f0, lo, hi) && Shaped(xs, |f0|) && Shaped(ys, |f0|)
    requires SSInit.FreqsAtLeast(f0, f1) && f1 == Tallied(stats, f0, xs, lo, hi)
    requires SSInit.FreqsAtLeast(f1, f2) && f2 == Tallied(stats, f1, ys, lo, hi)
    ensures Shaped(xs + ys, |f0|) && SSInit.FreqsAtLeast(f0, f2) && f2 == Tallied(stats, f0, xs + ys, lo, hi)
  {
    TalliedAppend(stats, f0, xs, ys, lo, hi);
    SSInit.FreqsTrans(f0, f1, f2);
  }

  /** Counting nothing changes nothing. */
  lemma TalliedNone(stats: bool, f: seq<seq<int>>, lo: seq<seq<real>>, hi: seq<seq<real>>)
    requires SameGrid(f, lo, hi)
    ensures Shaped([], |f|) && Tallied(stats, f, [], lo, hi) == f
  {
  }

  /** Counting a single individual is one update_frequency_matrix. */
  lemma CountedOne(f: seq<seq<int>>, x: Individual, lo: seq<seq<real>>, hi: seq<seq<real>>)
    requires SameGrid(f, lo, hi) && |x.params| == |f|
    ensures Shaped([x], |f|) && CountedAll(f, [x], lo, hi) == Counted(f, x.params, lo, hi)
  {
    assert [x][..0] == [];
  }

  /** How many of `xs` have coordinate `i` strictly inside some cell of
      the row `(lo, hi)`. */
  function Hits(xs: seq<Individual>, i: nat, lo: seq<real>, hi: seq<real>): (k: nat)
    requires |lo| == |hi| && forall t :: 0 <= t < |xs| ==> i < |xs[t].params|
    ensures k <= |xs|
  {
    if xs == [] then 0
    else Hits(xs[..|xs| - 1], i, lo, hi) + (if StrictCell(xs[|xs| - 1].params[i], lo, hi).Some? then 1 else 0)
  }

  /** Counting `xs` raises no frequency, and raises the total of row `i`
      by exactly the number of individuals whose coordinate `i` lies
      strictly inside a cell. */
  lemma {:induction false} CountedAllTotals(f: seq<seq<int>>, xs: seq<Individual>, lo: seq<seq<real>>, hi: seq<seq<real>>)
    requires SameGrid(f, lo, hi) && Shaped(xs, |f|)
    ensures SSInit.FreqsAtLeast(f, CountedAll(f, xs, lo, hi))
    ensures forall i :: 0 <= i < |f| ==>
              SumInt(CountedAll(f, xs, lo, hi)[i]) == SumInt(f[i]) + Hits(xs, i, lo[i], hi[i])
    decreases |xs|
  {
    if xs != [] {
      var n := |xs| - 1;
      var g := CountedAll(f, xs[..n], lo, hi);
      CountedAllTotals(f, xs[..n], lo, hi);
      forall i | 0 <= i < |f|
        ensures SumInt(Counted(g, xs[n].params, lo, hi)[i]) == SumInt(g[i]) + (if StrictCell(xs[n].params[i], lo[i], hi[i]).Some? then 1 else 0)
        ensures forall j :: 0 <= j < |f[i]| ==> g[i][j] <= Counted(g, xs[n].params, lo, hi)[i][j]
      {
        BumpedRowOneCell(g[i], xs[n].params[i], lo[i], hi[i]);
        StrictCellIsFirst(xs[n].params[i], lo[i], hi[i]);
      }
    }
  }

  /** A boundary point of the cell grid lies strictly inside no cell: for
      `x = lo + w*c` with `w = (hi-lo)/p` and `0 <= c <= p`, which includes
      `x == lo` (c = 0) and `x == hi` (c = p), no cell is incremented. */
  lemma BoundaryHitsNothing(lo: real, hi: real, p: nat, c: nat, j: nat)
    requires p >= 1 && lo <= hi && c <= p && j < p
    ensures !(SSInit.CellLo(lo, hi, p, j) < SSInit.CellLo(lo, hi, p, c) < SSInit.CellHi(lo, hi, p, j))
  {
    var w := (hi - lo) / (p as real);
    assert w >= 0.0;
    if c <= j {
      assert w * (c as real) <= w * (j as real) by { SSInit.MulMono(w, c as real, j as real); }
    } else {
      assert w * ((j + 1) as real) <= w * (c as real) by { SSInit.MulMono(w, (j + 1) as real, c as real); }
    }
  }

  /** The inner `j` loop for dimension `i`: increments the first cell whose
      open interval holds `x`, and stops there. */
  method BumpFirstCell(ss: SSType, i: nat, x: real)
    requires ss.Matrices() && i < ss.nreal
    modifies ss`freqs
    ensures ss.freqs == old(ss.freqs)[i := BumpedRow(old(ss.freqs[i]), x, ss.minBoundary[i], ss.maxBoundary[i])]
    ensures ss.Matrices()
  {
    var j := 0;
    while j < ss.p
      invariant 0 <= j <= ss.p && ss.freqs == old(ss.freqs)
      invariant StrictCellFrom(x, ss.minBoundary[i], ss.maxBoundary[i], j) == StrictCell(x, ss.minBoundary[i], ss.maxBoundary[i])
    {
      if x > ss.minBoundary[i][j] && x < ss.maxBoundary[i][j] {
        ss.freqs := ss.freqs[i := ss.freqs[i][j := ss.freqs[i][j] + 1]];
        return;
      }
      j := j + 1;
    }
  }

  /** update_frequency_matrix: every dimension counts the individual's
      coordinate in its first strictly containing cell, if any. Only the
      frequency matrix changes; probabilities and the individual do not. */
  method UpdateFrequencyMatrix(ss: SSType, ind: Individual)
    requires ss.Matrices() && |ind.params| == ss.nreal
    modifies ss`freqs
    ensures ss.freqs == Counted(old(ss.freqs), ind.params, ss.minBoundary, ss.maxBoundary)
    ensures ss.Matrices() && SSInit.FreqsAtLeast(old(ss.freqs), ss.freqs)
  {
    for i := 0 to ss.nreal
      invariant ss.Matrices() && SSInit.FreqsAtLeast(old(ss.freqs), ss.freqs)
      invariant forall r :: 0 <= r < i ==>
                  ss.freqs[r] == BumpedRow(old(ss.freqs[r]), ind.params[r], ss.minBoundary[r], ss.maxBoundary[r])
      invariant forall r :: i <= r < ss.nreal ==> ss.freqs[r] == old(ss.freqs[r])
    {
      ghost var f := ss.freqs;
      BumpFirstCell(ss, i, ind.params[i]);
      BumpedRowOneCell(f[i], ind.params[i], ss.minBoundary[i], ss.maxBoundary[i]);
    }
  }

  /** A row grows by at most one count in total, in at most one cell, and
      every other cell is untouched. */
  lemma BumpedRowOneCell(row: seq<int>, x: real, lo: seq<real>, hi: seq<real>)
    requires |lo| == |hi| == |row|
    ensures |BumpedRow(row, x, lo, hi)| == |row|
    ensures SumInt(BumpedRow(row, x, lo, hi)) == SumInt(row) + (if StrictCell(x, lo, hi).Some? then 1 else 0)
    ensures forall j :: 0 <= j < |row| && StrictCell(x, lo, hi) != Some(j) ==> BumpedRow(row, x, lo, hi)[j] == row[j]
  {
    StrictCellIsFirst(x, lo, hi);
    match StrictCell(x, lo, hi)
    case None =>
    case Some(j) => SumIntBump(row, j);
  }

  lemma {:induction false} SumIntBump(row: seq<int>, j: nat)
    requires j < |row|
    ensures SumInt(row[j := row[j] + 1]) == SumInt(row) + 1
  {
    var n := |row| - 1;
    var t := row[j := row[j] + 1];
    if j < n {
      assert t[..n] == row[..n][j := row[j] + 1];
      SumIntBump(row[..n], j);
    } else {
      assert t[..n] == row[..n];
    }
  }
}
