/** ss/init.c: the sub-region model (`init_ssParams`), the scatter set
    (`init_scatter_set`) and the reference set (`init_ref_set`). */
module SSInit {
  import opened Util
  import opened SSTypes
  import opened SSParams
  import opened Oracle
  import opened SSTools
  import SSSort

  // ---------------------------------------------------------------------------
  // init_ssParams: the sub-region matrices

  /** Lower end of cell `j` when `[lo, hi]` is cut into `p` equal cells. */
  function CellLo(lo: real, hi: real, p: nat, j: int): real
    requires p >= 1
  {
    lo + ((hi - lo) / (p as real)) * (j as real)
  }

  /** Upper end of cell `j`: the lower end of cell `j + 1`. */
  function CellHi(lo: real, hi: real, p: nat, j: int): real
    requires p >= 1
  {
    lo + ((hi - lo) / (p as real)) * ((j + 1) as real)
  }

  /** `min_boundary_matrix`: row `i` holds the lower ends of the cells of
      dimension `i`. */
  function LowerMatrix(lo: seq<real>, hi: seq<real>, p: nat): (m: seq<seq<real>>)
    requires |lo| == |hi|
    ensures |m| == |lo| && forall i :: 0 <= i < |m| ==> |m[i]| == p
  {
    seq(|lo|, i requires 0 <= i < |lo| => seq(p, j requires 0 <= j < p => CellLo(lo[i], hi[i], p, j)))
  }

  /** `max_boundary_matrix`: row `i` holds the upper ends of the cells of
      dimension `i`. */
  function UpperMatrix(lo: seq<real>, hi: seq<real>, p: nat): (m: seq<seq<real>>)
    requires |lo| == |hi|
    ensures |m| == |lo| && forall i :: 0 <= i < |m| ==> |m[i]| == p
  {
    seq(|lo|, i requires 0 <= i < |lo| => seq(p, j requires 0 <= j < p => CellHi(lo[i], hi[i], p, j)))
  }

  /** A row of `p` uniform probabilities `1/p`. */
  function UniformRow(p: nat): (r: seq<real>)
    ensures |r| == p
  {
    seq(p, j requires 0 <= j < p => 1.0 / (p as real))
  }

  /** The sub-region matrices as `init_ssParams` leaves them. */
  ghost predicate SubRegions(ss: SSType)
    reads ss
  {
    && |ss.minRealVar| == |ss.maxRealVar|
    && ss.minBoundary == LowerMatrix(ss.minRealVar, ss.maxRealVar, ss.p)
    && ss.maxBoundary == UpperMatrix(ss.minRealVar, ss.maxRealVar, ss.p)
  }

  /** The cells tile the interval: the first starts at `lo`, each ends
      where the next starts, and the last ends at `hi`. */
  lemma CellsTile(lo: real, hi: real, p: nat, j: nat)
    requires p >= 1 && j < p
    ensures CellLo(lo, hi, p, 0) == lo
    ensures j + 1 < p ==> CellHi(lo, hi, p, j) == CellLo(lo, hi, p, j + 1)
    ensures CellHi(lo, hi, p, p - 1) == hi
  {
    var w := (hi - lo) / (p as real);
    assert w * (p as real) == hi - lo;
  }

  /** For ordered bounds every cell is a non-empty sub-interval of
      `[lo, hi]`. */
  lemma CellInRange(lo: real, hi: real, p: nat, j: nat)
    requires p >= 1 && j < p && lo <= hi
    ensures lo <= CellLo(lo, hi, p, j) <= CellHi(lo, hi, p, j) <= hi
  {
    var w := (hi - lo) / (p as real);
    assert w >= 0.0;
    assert w * (p as real) == hi - lo;
    MulMono(w, j as real, (j + 1) as real);
    MulMono(w, (j + 1) as real, p as real);
    MulMono(w, 0.0, j as real);
  }

  lemma MulMono(w: real, x: real, y: real)
    requires w >= 0.0 && x <= y
    ensures w * x <= w * y
  {
    assert w * y - w * x == w * (y - x);
    MulNonNeg(w, y - x);
  }

  /** A uniform row sums to one. */
  lemma UniformRowSum(p: nat)
    requires p >= 1
    ensures SumReal(UniformRow(p)) == 1.0
  {
    ConstSum(p, 1.0 / (p as real));
    assert UniformRow(p) == seq(p, j => 1.0 / (p as real));
  }

  lemma {:induction false} ConstSum(n: nat, c: real)
    ensures SumReal(seq(n, j => c)) == (n as real) * c
  {
    if n > 0 {
      assert seq(n, j => c)[..n - 1] == seq(n - 1, j => c);
      ConstSum(n - 1, c);
    }
  }

  /** The inner loop of init_ssParams for one dimension with bounds
      `[lo, hi]`: its cell ends, frequencies and probabilities. */
  method CellRows(lo: real, hi: real, p: nat) returns (lowRow: seq<real>, upRow: seq<real>, freqRow: seq<int>, probRow: seq<real>)
    ensures lowRow == seq(p, j requires 0 <= j < p => CellLo(lo, hi, p, j))
    ensures upRow == seq(p, j requires 0 <= j < p => CellHi(lo, hi, p, j))
    ensures freqRow == seq(p, j => 1) && probRow == UniformRow(p)
  {
    lowRow, upRow, freqRow, probRow := [], [], [], [];
    for j := 1 to p + 1
      invariant |lowRow| == j - 1 && |upRow| == j - 1 && |freqRow| == j - 1 && |probRow| == j - 1
      invariant forall c :: 0 <= c < j - 1 ==> lowRow[c] == CellLo(lo, hi, p, c)
      invariant forall c :: 0 <= c < j - 1 ==> upRow[c] == CellHi(lo, hi, p, c)
      invariant forall c :: 0 <= c < j - 1 ==> freqRow[c] == 1
      invariant forall c :: 0 <= c < j - 1 ==> probRow[c] == 1.0 / (p as real)
    {
      var w := (hi - lo) / (p as real);
      lowRow := lowRow + [lo + w * ((j - 1) as real)];
      upRow := upRow + [lo + w * (j as real)];
      freqRow := freqRow + [1];
      probRow := probRow + [1.0 / (p as real)];
    }
  }

  /** init_ssParams: the subsets list gets its full capacity `b * b`, the
      counters start at zero, every dimension is cut into `p` cells, every
      frequency is 1 and every probability `1/p`. */
  method InitSSParams(ss: SSType)
    requires |ss.minRealVar| == ss.nreal && |ss.maxRealVar| == ss.nreal
    modifies ss`subsetsListSize, ss`nRefinement, ss`nRefSetUpdate, ss`nDuplicates,
             ss`nFlatzoneDetected, ss`nFunctionEvals,
             ss`minBoundary, ss`maxBoundary, ss`freqs, ss`probs
    ensures ss.subsetsListSize == ss.refSetSize * ss.refSetSize
    ensures ss.nRefinement == 0 && ss.nRefSetUpdate == 0 && ss.nDuplicates == 0
    ensures ss.nFlatzoneDetected == 0 && ss.nFunctionEvals == 0
    ensures SubRegions(ss)
    ensures ss.freqs == seq(ss.nreal, i => seq(ss.p, j => 1))
    ensures ss.probs == seq(ss.nreal, i => UniformRow(ss.p))
    ensures ss.Matrices()
  {
    var lower, upper, freqs, probs := CellMatrices(ss.minRealVar, ss.maxRealVar, ss.p);
    ss.minBoundary := lower;
    ss.maxBoundary := upper;
    ss.freqs := freqs;
    ss.probs := probs;
    ss.subsetsListSize := ss.refSetSize * ss.refSetSize;
    ss.nRefinement := 0;
    ss.nRefSetUpdate := 0;
    ss.nDuplicates := 0;
    ss.nFlatzoneDetected := 0;
    ss.nFunctionEvals := 0;
  }

  /** The `i` loop of init_ssParams: one row of each matrix per dimension. */
  method CellMatrices(minV: seq<real>, maxV: seq<real>, p: nat)
    returns (lower: seq<seq<real>>, upper: seq<seq<real>>, freqs: seq<seq<int>>, probs: seq<seq<real>>)
    requires |minV| == |maxV|
    ensures lower == LowerMatrix(minV, maxV, p) && upper == UpperMatrix(minV, maxV, p)
    ensures freqs == seq(|minV|, i => seq(p, j => 1))
    ensures probs == seq(|minV|, i => UniformRow(p))
  {
    lower, upper, freqs, probs := [], [], [], [];
    for i := 0 to |minV|
      invariant |lower| == i && |upper| == i && |freqs| == i && |probs| == i
      invariant forall r :: 0 <= r < i ==> lower[r] == LowerMatrix(minV, maxV, p)[r]
      invariant forall r :: 0 <= r < i ==> upper[r] == UpperMatrix(minV, maxV, p)[r]
      invariant forall r :: 0 <= r < i ==> freqs[r] == seq(p, j => 1)
      invariant forall r :: 0 <= r < i ==> probs[r] == UniformRow(p)
    {
      var lowRow, upRow, freqRow, probRow := CellRows(minV[i], maxV[i], p);
      lower := lower + [lowRow];
      upper := upper + [upRow];
      freqs := freqs + [freqRow];
      probs := probs + [probRow];
    }
  }

  // ---------------------------------------------------------------------------
  // init_scatter_set: the roulette

  /** The roulette over the probability row `row` from cell `j` on, with
      the running sum `acc`: the first cell at which the running sum reaches
      `rnd`, and the running sum left for the next draw (0 after a hit; after
      a miss the whole row has been added in). */
  function RouletteFrom(row: seq<real>, j: nat, acc: real, rnd: real): (r: (Option<nat>, real))
    requires j <= |row|
    decreases |row| - j
  {
    if j == |row| then (None, acc)
    else if rnd <= acc + row[j] then (Some(j), 0.0)
    else RouletteFrom(row, j + 1, acc + row[j], rnd)
  }

  /** The running sum `row[j] + ... + row[c]`. */
  function RunSum(row: seq<real>, j: nat, c: nat): real
    requires j <= c < |row|
  {
    SumReal(row[j..c + 1])
  }

  function Roulette(row: seq<real>, acc: real, rnd: real): (Option<nat>, real)
  {
    RouletteFrom(row, 0, acc, rnd)
  }

  lemma {:induction false} RouletteFromPicksFirst(row: seq<real>, j: nat, acc: real, rnd: real)
    requires j <= |row|
    decreases |row| - j
    ensures var r := RouletteFrom(row, j, acc, rnd);
      && (r.0.Some? ==>
            && j <= r.0.value < |row| && r.1 == 0.0
            && rnd <= acc + RunSum(row, j, r.0.value)
            && forall c :: j <= c < r.0.value ==> acc + RunSum(row, j, c) < rnd)
      && (r.0.None? ==>
            && r.1 == acc + SumReal(row[j..])
            && forall c :: j <= c < |row| ==> acc + RunSum(row, j, c) < rnd)
  {
    if j == |row| {
    } else if rnd <= acc + row[j] {
      assert row[j..j + 1] == [row[j]];
      SumSingle(row[j]);
    } else {
      RouletteFromPicksFirst(row, j + 1, acc + row[j], rnd);
      forall c | j + 1 <= c < |row| ensures RunSum(row, j, c) == row[j] + RunSum(row, j + 1, c) {
        assert row[j..c + 1] == [row[j]] + row[j + 1..c + 1];
        SumFront(row[j], row[j + 1..c + 1]);
      }
      assert RunSum(row, j, j) == row[j] by {
        assert row[j..j + 1] == [row[j]];
        SumSingle(row[j]);
      }
      assert SumReal(row[j..]) == row[j] + SumReal(row[j + 1..]) by {
        assert row[j..] == [row[j]] + row[j + 1..];
        SumFront(row[j], row[j + 1..]);
      }
    }
  }

  /** The roulette picks the first cell whose running sum reaches `rnd`;
      it misses only when even the whole row (plus the carried sum) stays
      below `rnd`, and then the carried sum grows by the row's total. */
  lemma RoulettePicksFirst(row: seq<real>, acc: real, rnd: real)
    ensures var r := Roulette(row, acc, rnd);
      && (r.0.Some? ==>
            && r.0.value < |row| && r.1 == 0.0
            && rnd <= acc + RunSum(row, 0, r.0.value)
            && forall c :: 0 <= c < r.0.value ==> acc + RunSum(row, 0, c) < rnd)
      && (r.0.None? ==>
            && r.1 == acc + SumReal(row)
            && forall c :: 0 <= c < |row| ==> acc + RunSum(row, 0, c) < rnd)
  {
    RouletteFromPicksFirst(row, 0, acc, rnd);
    assert row[0..] == row;
    forall c | 0 <= c < |row| ensures RunSum(row, 0, c) == SumReal(row[..c + 1]) {
      assert row[0..c + 1] == row[..c + 1];
    }
  }

  lemma SumSingle(x: real)
    ensures SumReal([x]) == x
  {
    assert [x][..0] == [];
  }

  lemma {:induction false} SumFront(x: real, t: seq<real>)
    ensures SumReal([x] + t) == x + SumReal(t)
  {
    if t != [] {
      assert ([x] + t)[..|t|] == [x] + t[..|t| - 1];
      SumFront(x, t[..|t| - 1]);
    } else {
      assert [x] + t == [x];
      assert [x][..0] == [];
    }
  }

  /** Σ 1/f over a frequency row, `f_col_prob` of init_scatter_set. */
  function InvSum(f: seq<int>): real
    requires forall t :: 0 <= t < |f| ==> f[t] >= 1
  {
    if f == [] then 0.0 else InvSum(f[..|f| - 1]) + 1.0 / (f[|f| - 1] as real)
  }

  /** The probability init_scatter_set gives cell `a` after its frequency
      went up: `(1/f_a) / Σ_t (1/f_t)`. */
  function UpdatedProb(f: seq<int>, a: nat): real
    requires a < |f| && forall t :: 0 <= t < |f| ==> f[t] >= 1
  {
    InvSumHasTerm(f, a);
    (1.0 / (f[a] as real)) / InvSum(f)
  }

  lemma {:induction false} InvSumHasTerm(f: seq<int>, a: nat)
    requires a < |f| && forall t :: 0 <= t < |f| ==> f[t] >= 1
    ensures InvSum(f) >= 1.0 / (f[a] as real) > 0.0
  {
    var n := |f| - 1;
    assert f[..n] == f[..|f| - 1];
    if a < n {
      InvSumHasTerm(f[..n], a);
      InvSumNonNeg(f[n..n]);
    } else {
      InvSumNonNeg(f[..n]);
    }
  }

  lemma {:induction false} InvSumNonNeg(f: seq<int>)
    requires forall t :: 0 <= t < |f| ==> f[t] >= 1
    ensures InvSum(f) >= 0.0
  {
    if f != [] {
      InvSumNonNeg(f[..|f| - 1]);
    }
  }

  /** An updated probability is a proper probability: positive and at most
      one. */
  lemma UpdatedProbInUnit(f: seq<int>, a: nat)
    requires a < |f| && forall t :: 0 <= t < |f| ==> f[t] >= 1
    ensures 0.0 < UpdatedProb(f, a) <= 1.0
  {
    InvSumHasTerm(f, a);
    var x := 1.0 / (f[a] as real);
    var y := InvSum(f);
    assert x <= y && 0.0 < x;
    assert x / y <= 1.0 by {
      assert x / y * y == x;
    }
  }

  /** Every probability lies in (0, 1]. */
  ghost predicate ProbsInUnit(ss: SSType)
    reads ss
  {
    && |ss.probs| == ss.nreal
    && forall i, j :: 0 <= i < ss.nreal && 0 <= j < |ss.probs[i]| ==> 0.0 < ss.probs[i][j] <= 1.0
  }

  /** No frequency of `f0` went down in `f1`. */
  ghost predicate FreqsAtLeast(f0: seq<seq<int>>, f1: seq<seq<int>>)
  {
    |f0| == |f1| && forall i :: 0 <= i < |f0| ==> |f0[i]| == |f1[i]| && forall j :: 0 <= j < |f0[i]| ==> f0[i][j] <= f1[i][j]
  }

  /** The `f_col_prob` loop. */
  method InvFreqSum(f: seq<int>) returns (s: real)
    requires forall t :: 0 <= t < |f| ==> f[t] >= 1
    ensures s == InvSum(f)
  {
    s := 0.0;
    for t := 0 to |f|
      invariant s == InvSum(f[..t])
    {
      assert f[..t + 1][..t] == f[..t];
      s := s + 1.0 / (f[t] as real);
    }
    assert f[..|f|] == f;
  }

  /** One roulette draw for dimension `i` with the uniform number `rnd`:
      the `j` loop of init_scatter_set. On a hit at cell `a'` the cell's
      frequency goes up by one and only its probability is recomputed; on a
      miss nothing changes and the previous `a` is kept. */
  method RouletteDraw(ss: SSType, i: nat, rnd: real, a: nat, probsSum: real) returns (a': nat, probsSum': real)
    requires ss.Matrices() && i < ss.nreal
    modifies ss`freqs, ss`probs
    ensures var r := Roulette(old(ss.probs[i]), probsSum, rnd);
      && probsSum' == r.1
      && (r.0.None? ==> a' == a && ss.freqs == old(ss.freqs) && ss.probs == old(ss.probs))
      && (r.0.Some? ==>
            && a' == r.0.value < ss.p
            && ss.freqs == old(ss.freqs)[i := old(ss.freqs[i])[a' := old(ss.freqs[i][a']) + 1]]
            && ss.probs == old(ss.probs)[i := old(ss.probs[i])[a' := UpdatedProb(ss.freqs[i], a')]])
    ensures ss.Matrices()
  {
    ghost var row := ss.probs[i];
    a', probsSum' := a, probsSum;
    var j := 0;
    while j < ss.p
      invariant 0 <= j <= ss.p
      invariant ss.freqs == old(ss.freqs) && ss.probs == old(ss.probs)
      invariant RouletteFrom(row, j, probsSum', rnd) == Roulette(row, probsSum, rnd)
    {
      probsSum' := probsSum' + ss.probs[i][j];
      if rnd <= probsSum' {
        a' := j;
        ss.freqs := ss.freqs[i := ss.freqs[i][a' := ss.freqs[i][a'] + 1]];
        var fColProb := InvFreqSum(ss.freqs[i]);
        InvSumHasTerm(ss.freqs[i], a');
        ss.probs := ss.probs[i := ss.probs[i][a' := (1.0 / (ss.freqs[i][a'] as real)) / fColProb]];
        probsSum' := 0.0;
        return;
      }
      j := j + 1;
    }
  }

  /** The uniform start of init_ssParams is a matrix of proper
      probabilities. */
  lemma UniformInUnit(ss: SSType)
    requires ss.p >= 1 && ss.probs == seq(ss.nreal, i => UniformRow(ss.p))
    ensures ProbsInUnit(ss)
  {
    var u := 1.0 / (ss.p as real);
    assert 0.0 < u <= 1.0 by {
      assert u * (ss.p as real) == 1.0;
    }
  }

  /** Raising one frequency by one keeps every frequency at least its
      starting value. */
  lemma FreqsBump(f0: seq<seq<int>>, f: seq<seq<int>>, i: nat, a: nat)
    requires FreqsAtLeast(f0, f) && i < |f| && a < |f[i]|
    ensures FreqsAtLeast(f0, f[i := f[i][a := f[i][a] + 1]])
  {
  }

  // ---------------------------------------------------------------------------
  // init_scatter_set: the second phase as a function of the draw tape

  /** What the roulette carries from one draw to the next: the frequency
      and probability matrices, the cell chosen last and the running sum. */
  datatype Wheel = Wheel(freqs: seq<seq<int>>, probs: seq<seq<real>>, a: nat, sum: real)

  /** The wheel fits the boundary matrices `lo`, `hi` of `p` cells per
      dimension, its last cell is one of them and every frequency is
      positive. */
  ghost predicate WheelOn(w: Wheel, lo: seq<seq<real>>, hi: seq<seq<real>>, p: nat)
  {
    && |lo| == |hi| == |w.freqs| == |w.probs| && w.a < p
    && (forall i :: 0 <= i < |lo| ==> |lo[i]| == p && |hi[i]| == p && |w.freqs[i]| == p && |w.probs[i]| == p)
    && (forall i, j :: 0 <= i < |lo| && 0 <= j < p ==> w.freqs[i][j] >= 1)
  }

  /** Every probability of the wheel lies in (0, 1]. */
  ghost predicate WheelInUnit(w: Wheel)
  {
    forall i, j :: 0 <= i < |w.probs| && 0 <= j < |w.probs[i]| ==> 0.0 < w.probs[i][j] <= 1.0
  }

  /** The wheel of the solver state, with last cell `a` and running sum
      `sum`. */
  lemma StateWheel(ss: SSType, a: nat, sum: real)
    requires ss.Matrices() && ProbsInUnit(ss) && a < ss.p
    ensures var w := Wheel(ss.freqs, ss.probs, a, sum);
      WheelOn(w, ss.minBoundary, ss.maxBoundary, ss.p) && WheelInUnit(w)
  {
  }

  /** One roulette draw for dimension `i` with the uniform number `rnd`,
      on values: a hit at cell `a'` raises that cell's frequency by one,
      recomputes only its probability and makes it the last cell; a miss
      changes only the running sum. No frequency goes down and every
      probability stays in (0, 1]. */
  ghost function Spun(w: Wheel, lo: seq<seq<real>>, hi: seq<seq<real>>, p: nat, i: nat, rnd: real): (r: Wheel)
    requires WheelOn(w, lo, hi, p) && i < |lo|
    ensures WheelOn(r, lo, hi, p)
  {
    var d := Roulette(w.probs[i], w.sum, rnd);
    RoulettePicksFirst(w.probs[i], w.sum, rnd);
    if d.0.None? then w.(sum := d.1)
    else
      var a' := d.0.value;
      var row := w.freqs[i][a' := w.freqs[i][a'] + 1];
      Wheel(w.freqs[i := row], w.probs[i := w.probs[i][a' := UpdatedProb(row, a')]], a', d.1)
  }

  /** Coordinates `0 .. n-1` of one second-phase member drawn from the tape
      starting at `pos`: coordinate `c` spins the wheel with draw
      `pos + 2c` and takes draw `pos + 2c + 1` uniformly in the chosen cell
      of dimension `c`. Also the wheel after them. */
  ghost function RouletteCoords(w: Wheel, lo: seq<seq<real>>, hi: seq<seq<real>>, p: nat,
                                tape: nat -> real, pos: nat, n: nat): (r: (Wheel, seq<real>))
    requires WheelOn(w, lo, hi, p) && n <= |lo|
    ensures WheelOn(r.0, lo, hi, p) && |r.1| == n
    decreases n
  {
    if n == 0 then (w, [])
    else
      var prev := RouletteCoords(w, lo, hi, p, tape, pos, n - 1);
      var w' := Spun(prev.0, lo, hi, p, n - 1, tape(pos + 2 * (n - 1)));
      (w', prev.1 + [Draw(lo[n - 1][w'.a], hi[n - 1][w'.a], tape(pos + 2 * (n - 1) + 1))])
  }

  /** A spin lowers no frequency and keeps every probability in (0, 1]. */
  lemma SpunKeeps(w: Wheel, lo: seq<seq<real>>, hi: seq<seq<real>>, p: nat, i: nat, rnd: real)
    requires WheelOn(w, lo, hi, p) && i < |lo|
    ensures var r := Spun(w, lo, hi, p, i, rnd);
      FreqsAtLeast(w.freqs, r.freqs) && (WheelInUnit(w) ==> WheelInUnit(r))
  {
    var d := Roulette(w.probs[i], w.sum, rnd);
    RoulettePicksFirst(w.probs[i], w.sum, rnd);
    if d.0.Some? {
      var a' := d.0.value;
      FreqsBump(w.freqs, w.freqs, i, a');
      UpdatedProbInUnit(w.freqs[i][a' := w.freqs[i][a'] + 1], a');
    }
  }

  /** Every cell of dimension `i` lies within the bounds of dimension `i`. */
  ghost predicate CellsWithin(lo: seq<seq<real>>, hi: seq<seq<real>>, minV: seq<real>, maxV: seq<real>)
  {
    && |lo| == |hi| == |minV| == |maxV|
    && forall i, j :: 0 <= i < |lo| && 0 <= j < |lo[i]| && j < |hi[i]| ==> minV[i] <= lo[i][j] <= hi[i][j] <= maxV[i]
  }

  /** The sub-region matrices cut the bounds into cells. */
  lemma SubRegionsWithin(ss: SSType)
    requires SubRegions(ss) && ss.BoundsOrdered()
    ensures CellsWithin(ss.minBoundary, ss.maxBoundary, ss.minRealVar, ss.maxRealVar)
  {
    forall i, j | 0 <= i < |ss.minBoundary| && 0 <= j < |ss.minBoundary[i]| && j < |ss.maxBoundary[i]|
      ensures ss.minRealVar[i] <= ss.minBoundary[i][j] <= ss.maxBoundary[i][j] <= ss.maxRealVar[i]
    {
      CellInRange(ss.minRealVar[i], ss.maxRealVar[i], ss.p, j);
    }
  }

  /** `k` second-phase members drawn one after the other from the tape
      starting at `pos`, each taking two draws per dimension, and the wheel
      after them. */
  ghost function RouletteMembers(w: Wheel, lo: seq<seq<real>>, hi: seq<seq<real>>, p: nat,
                                 tape: nat -> real, pos: nat, k: nat): (r: (Wheel, seq<seq<real>>))
    requires WheelOn(w, lo, hi, p)
    ensures WheelOn(r.0, lo, hi, p) && |r.1| == k
    ensures forall c :: 0 <= c < k ==> |r.1[c]| == |lo|
    decreases k
  {
    if k == 0 then (w, [])
    else
      var first := RouletteCoords(w, lo, hi, p, tape, pos, |lo|);
      var rest := RouletteMembers(first.0, lo, hi, p, tape, pos + 2 * |lo|, k - 1);
      (rest.0, [first.1] + rest.1)
  }

  /** Step `c` of a member's trace: wheel `ws[c]` spun with draw `pos + 2c`
      gives `ws[c + 1]`, and coordinate `c` is draw `pos + 2c + 1` taken
      uniformly in the cell of dimension `c` that the spin left chosen. */
  ghost predicate SpinsAt(ws: seq<Wheel>, xs: seq<real>, lo: seq<seq<real>>, hi: seq<seq<real>>, p: nat,
                          tape: nat -> real, pos: nat, c: nat)
  {
    && c < |xs| && c + 1 < |ws| && c < |lo| && WheelOn(ws[c], lo, hi, p)
    && ws[c + 1] == Spun(ws[c], lo, hi, p, c, tape(pos + 2 * c))
    && xs[c] == Draw(lo[c][ws[c + 1].a], hi[c][ws[c + 1].a], tape(pos + 2 * c + 1))
  }

  /** `xs` are the first coordinates of a second-phase member drawn from the
      tape starting at `pos`, and `ws` the wheels before and after each. */
  ghost predicate CoordsTrace(ws: seq<Wheel>, xs: seq<real>, lo: seq<seq<real>>, hi: seq<seq<real>>, p: nat,
                              tape: nat -> real, pos: nat)
  {
    && |ws| == |xs| + 1 && |xs| <= |lo| && WheelOn(ws[0], lo, hi, p) && WheelOn(ws[|xs|], lo, hi, p)
    && forall c :: 0 <= c < |xs| ==> SpinsAt(ws, xs, lo, hi, p, tape, pos, c)
  }

  /** A trace grows by one spin and one draw. */
  lemma TraceStep(ws: seq<Wheel>, xs: seq<real>, lo: seq<seq<real>>, hi: seq<seq<real>>, p: nat,
                  tape: nat -> real, pos: nat, w': Wheel, v: real)
    requires CoordsTrace(ws, xs, lo, hi, p, tape, pos) && |xs| < |lo|
    requires w' == Spun(ws[|xs|], lo, hi, p, |xs|, tape(pos + 2 * |xs|))
    requires v == Draw(lo[|xs|][w'.a], hi[|xs|][w'.a], tape(pos + 2 * |xs| + 1))
    ensures CoordsTrace(ws + [w'], xs + [v], lo, hi, p, tape, pos)
  {
    var ws', xs' := ws + [w'], xs + [v];
    forall c | 0 <= c < |xs'|
      ensures SpinsAt(ws', xs', lo, hi, p, tape, pos, c)
    {
      if c < |xs| {
        assert SpinsAt(ws, xs, lo, hi, p, tape, pos, c);
        assert ws'[c] == ws[c] && ws'[c + 1] == ws[c + 1] && xs'[c] == xs[c];
      }
    }
  }

  /** A trace is the closed form: its wheels and coordinates are those of
      RouletteCoords. */
  lemma {:induction false} TraceCoords(ws: seq<Wheel>, xs: seq<real>, lo: seq<seq<real>>, hi: seq<seq<real>>, p: nat,
                                       tape: nat -> real, pos: nat, m: nat)
    requires CoordsTrace(ws, xs, lo, hi, p, tape, pos) && m <= |xs|
    ensures RouletteCoords(ws[0], lo, hi, p, tape, pos, m) == (ws[m], xs[..m])
  {
    if m > 0 {
      TraceCoords(ws, xs, lo, hi, p, tape, pos, m - 1);
      TraceCoordsNext(ws, xs, lo, hi, p, tape, pos, m);
    }
  }

  /** The step of TraceCoords: one more spin of the trace. */
  lemma TraceCoordsNext(ws: seq<Wheel>, xs: seq<real>, lo: seq<seq<real>>, hi: seq<seq<real>>, p: nat,
                        tape: nat -> real, pos: nat, m: nat)
    requires CoordsTrace(ws, xs, lo, hi, p, tape, pos) && 0 < m <= |xs|
    requires RouletteCoords(ws[0], lo, hi, p, tape, pos, m - 1) == (ws[m - 1], xs[..m - 1])
    ensures RouletteCoords(ws[0], lo, hi, p, tape, pos, m) == (ws[m], xs[..m])
  {
    assert SpinsAt(ws, xs, lo, hi, p, tape, pos, m - 1);
    CoordsNext(ws[0], lo, hi, p, tape, pos, m, (ws[m - 1], xs[..m - 1]), ws[m], xs[m - 1]);
    assert xs[..m - 1] + [xs[m - 1]] == xs[..m];
  }

  /** RouletteCoords one coordinate further. */
  lemma CoordsNext(w: Wheel, lo: seq<seq<real>>, hi: seq<seq<real>>, p: nat, tape: nat -> real, pos: nat, m: nat,
                   prev: (Wheel, seq<real>), w': Wheel, v: real)
    requires WheelOn(w, lo, hi, p) && 0 < m <= |lo|
    requires RouletteCoords(w, lo, hi, p, tape, pos, m - 1) == prev
    requires w' == Spun(prev.0, lo, hi, p, m - 1, tape(pos + 2 * (m - 1)))
    requires v == Draw(lo[m - 1][w'.a], hi[m - 1][w'.a], tape(pos + 2 * (m - 1) + 1))
    ensures RouletteCoords(w, lo, hi, p, tape, pos, m) == (w', prev.1 + [v])
  {
  }

  /** Along a trace no frequency goes down and every probability stays in
      (0, 1]. */
  lemma {:induction false} TraceKeeps(ws: seq<Wheel>, xs: seq<real>, lo: seq<seq<real>>, hi: seq<seq<real>>, p: nat,
                                      tape: nat -> real, pos: nat, m: nat)
    requires CoordsTrace(ws, xs, lo, hi, p, tape, pos) && m <= |xs|
    ensures FreqsAtLeast(ws[0].freqs, ws[m].freqs) && (WheelInUnit(ws[0]) ==> WheelInUnit(ws[m]))
  {
    if m > 0 {
      TraceKeeps(ws, xs, lo, hi, p, tape, pos, m - 1);
      assert SpinsAt(ws, xs, lo, hi, p, tape, pos, m - 1);
      SpunKeeps(ws[m - 1], lo, hi, p, m - 1, tape(pos + 2 * (m - 1)));
      FreqsTrans(ws[0].freqs, ws[m - 1].freqs, ws[m].freqs);
    } else {
      assert FreqsAtLeast(ws[0].freqs, ws[0].freqs);
    }
  }

  /** Every coordinate of a trace lies within the variable bounds: it is
      drawn inside a cell, and the cells lie within the bounds. */
  lemma TraceInBounds(ws: seq<Wheel>, xs: seq<real>, lo: seq<seq<real>>, hi: seq<seq<real>>, p: nat,
                      tape: nat -> real, pos: nat, minV: seq<real>, maxV: seq<real>)
    requires CoordsTrace(ws, xs, lo, hi, p, tape, pos) && CellsWithin(lo, hi, minV, maxV)
    requires forall k: nat :: 0.0 <= tape(k) <= 1.0
    ensures forall c :: 0 <= c < |xs| ==> minV[c] <= xs[c] <= maxV[c]
  {
    forall c | 0 <= c < |xs|
      ensures minV[c] <= xs[c] <= maxV[c]
    {
      assert SpinsAt(ws, xs, lo, hi, p, tape, pos, c);
      DrawInRange(lo[c][ws[c + 1].a], hi[c][ws[c + 1].a], tape(pos + 2 * c + 1));
    }
  }

  /** The draws `k` second-phase members of `n` coordinates take: two per
      coordinate. */
  function Stride(n: nat, k: nat): (r: nat)
    ensures r == 2 * n * k
  {
    if k == 0 then 0 else Stride(n, k - 1) + 2 * n
  }

  /** Member `k` of a run of second-phase members is drawn along the
      coordinate trace `wss[k]`, from wheel `ws[k]` at draw
      `pos + Stride(|lo|, k)` to wheel `ws[k + 1]`. */
  ghost predicate MemberAt(ws: seq<Wheel>, wss: seq<seq<Wheel>>, ms: seq<seq<real>>, lo: seq<seq<real>>,
                           hi: seq<seq<real>>, p: nat, tape: nat -> real, pos: nat, k: nat)
  {
    && k < |ms| && k < |wss| && k + 1 < |ws| && |ms[k]| == |lo|
    && CoordsTrace(wss[k], ms[k], lo, hi, p, tape, pos + Stride(|lo|, k))
    && wss[k][0] == ws[k] && wss[k][|lo|] == ws[k + 1]
  }

  /** `ms` are second-phase members drawn one after the other from the tape
      starting at `pos`, `ws` the wheels between them and `wss` the wheels
      within each. */
  ghost predicate MembersTrace(ws: seq<Wheel>, wss: seq<seq<Wheel>>, ms: seq<seq<real>>, lo: seq<seq<real>>,
                               hi: seq<seq<real>>, p: nat, tape: nat -> real, pos: nat)
  {
    && |ws| == |ms| + 1 && |wss| == |ms| && WheelOn(ws[0], lo, hi, p) && WheelOn(ws[|ms|], lo, hi, p)
    && forall k :: 0 <= k < |ms| ==> MemberAt(ws, wss, ms, lo, hi, p, tape, pos, k)
  }

  /** A run of members grows by the member a coordinate trace drew. */
  lemma MembersStep(ws: seq<Wheel>, wss: seq<seq<Wheel>>, ms: seq<seq<real>>, lo: seq<seq<real>>,
                    hi: seq<seq<real>>, p: nat, tape: nat -> real, pos: nat, inner: seq<Wheel>, x: seq<real>, at: nat)
    requires MembersTrace(ws, wss, ms, lo, hi, p, tape, pos) && at == pos + Stride(|lo|, |ms|)
    requires CoordsTrace(inner, x, lo, hi, p, tape, at) && |x| == |lo| && inner[0] == ws[|ms|]
    ensures MembersTrace(ws + [inner[|x|]], wss + [inner], ms + [x], lo, hi, p, tape, pos)
  {
    MembersKept(ws, wss, ms, lo, hi, p, tape, pos, inner[|x|], inner, x);
    MemberAtLast(ws, wss, ms, lo, hi, p, tape, pos, inner, x, at);
  }

  /** Appending a member keeps every member of the run before it. */
  lemma MembersKept(ws: seq<Wheel>, wss: seq<seq<Wheel>>, ms: seq<seq<real>>, lo: seq<seq<real>>,
                    hi: seq<seq<real>>, p: nat, tape: nat -> real, pos: nat, w: Wheel, inner: seq<Wheel>, x: seq<real>)
    requires MembersTrace(ws, wss, ms, lo, hi, p, tape, pos)
    ensures forall k :: 0 <= k < |ms| ==> MemberAt(ws + [w], wss + [inner], ms + [x], lo, hi, p, tape, pos, k)
  {
    var ws', wss', ms' := ws + [w], wss + [inner], ms + [x];
    forall k | 0 <= k < |ms|
      ensures MemberAt(ws', wss', ms', lo, hi, p, tape, pos, k)
    {
      assert MemberAt(ws, wss, ms, lo, hi, p, tape, pos, k);
      assert ws'[k] == ws[k] && ws'[k + 1] == ws[k + 1] && wss'[k] == wss[k] && ms'[k] == ms[k];
      MemberAtKept(ws, wss, ms, ws', wss', ms', lo, hi, p, tape, pos, k);
    }
  }

  /** The member a coordinate trace drew is the last of the grown run. */
  lemma MemberAtLast(ws: seq<Wheel>, wss: seq<seq<Wheel>>, ms: seq<seq<real>>, lo: seq<seq<real>>,
                     hi: seq<seq<real>>, p: nat, tape: nat -> real, pos: nat, inner: seq<Wheel>, x: seq<real>, at: nat)
    requires |ws| == |ms| + 1 && |wss| == |ms| && at == pos + Stride(|lo|, |ms|)
    requires CoordsTrace(inner, x, lo, hi, p, tape, at) && |x| == |lo| && inner[0] == ws[|ms|]
    ensures MemberAt(ws + [inner[|x|]], wss + [inner], ms + [x], lo, hi, p, tape, pos, |ms|)
  {
    var ws', wss', ms' := ws + [inner[|x|]], wss + [inner], ms + [x];
    assert ws'[|ms|] == ws[|ms|] && ws'[|ms| + 1] == inner[|x|] && wss'[|ms|] == inner && ms'[|ms|] == x;
  }

  /** MemberAt looks only at member `k` and the wheels around it. */
  lemma MemberAtKept(ws: seq<Wheel>, wss: seq<seq<Wheel>>, ms: seq<seq<real>>, ws': seq<Wheel>,
                     wss': seq<seq<Wheel>>, ms': seq<seq<real>>, lo: seq<seq<real>>, hi: seq<seq<real>>, p: nat,
                     tape: nat -> real, pos: nat, k: nat)
    requires MemberAt(ws, wss, ms, lo, hi, p, tape, pos, k) && k < |ms'| && k < |wss'| && k + 1 < |ws'|
    requires ws'[k] == ws[k] && ws'[k + 1] == ws[k + 1] && wss'[k] == wss[k] && ms'[k] == ms[k]
    ensures MemberAt(ws', wss', ms', lo, hi, p, tape, pos, k)
  {
  }

  /** Each member of a run is RouletteCoords of the wheel before it. */
  lemma MemberCoords(ws: seq<Wheel>, wss: seq<seq<Wheel>>, ms: seq<seq<real>>, lo: seq<seq<real>>,
                     hi: seq<seq<real>>, p: nat, tape: nat -> real, pos: nat, k: nat)
    requires MembersTrace(ws, wss, ms, lo, hi, p, tape, pos) && k < |ms|
    ensures WheelOn(ws[k], lo, hi, p)
    ensures RouletteCoords(ws[k], lo, hi, p, tape, pos + Stride(|lo|, k), |lo|) == (ws[k + 1], ms[k])
  {
    assert MemberAt(ws, wss, ms, lo, hi, p, tape, pos, k);
    TraceCoords(wss[k], ms[k], lo, hi, p, tape, pos + Stride(|lo|, k), |lo|);
    assert ms[k][..|lo|] == ms[k];
  }

  /** A run of members is the closed form: its wheels and members are those
      of RouletteMembers. */
  lemma {:induction false} MembersTraceIsMembers(ws: seq<Wheel>, wss: seq<seq<Wheel>>, ms: seq<seq<real>>,
                                                 lo: seq<seq<real>>, hi: seq<seq<real>>, p: nat, tape: nat -> real, pos: nat)
    requires MembersTrace(ws, wss, ms, lo, hi, p, tape, pos)
    ensures RouletteMembers(ws[0], lo, hi, p, tape, pos, |ms|) == (ws[|ms|], ms)
    decreases |ms|
  {
    if ms != [] {
      MembersShift(ws, wss, ms, lo, hi, p, tape, pos);
      MembersTraceIsMembers(ws[1..], wss[1..], ms[1..], lo, hi, p, tape, pos + 2 * |lo|);
      MembersCons(ws, wss, ms, lo, hi, p, tape, pos);
    }
  }

  /** The step of MembersTraceIsMembers: the first member of the run, then
      the rest in closed form. */
  lemma MembersCons(ws: seq<Wheel>, wss: seq<seq<Wheel>>, ms: seq<seq<real>>, lo: seq<seq<real>>,
                    hi: seq<seq<real>>, p: nat, tape: nat -> real, pos: nat)
    requires MembersTrace(ws, wss, ms, lo, hi, p, tape, pos) && ms != []
    requires MembersTrace(ws[1..], wss[1..], ms[1..], lo, hi, p, tape, pos + 2 * |lo|)
    requires RouletteMembers(ws[1..][0], lo, hi, p, tape, pos + 2 * |lo|, |ms[1..]|) == (ws[1..][|ms[1..]|], ms[1..])
    ensures RouletteMembers(ws[0], lo, hi, p, tape, pos, |ms|) == (ws[|ms|], ms)
  {
    var ws1, ms1 := ws[1..], ms[1..];
    FirstMemberCoords(ws, wss, ms, lo, hi, p, tape, pos);
    assert ws1[0] == ws[1] && ws1[|ms1|] == ws[|ms|] && [ms[0]] + ms1 == ms;
    MembersNext(ws[0], lo, hi, p, tape, pos, |ms1|, ws1[0], ws1[|ms1|], ms[0], ms1);
  }

  /** A run of members without its first member is a run from the draw
      after it. */
  lemma MembersShift(ws: seq<Wheel>, wss: seq<seq<Wheel>>, ms: seq<seq<real>>, lo: seq<seq<real>>,
                     hi: seq<seq<real>>, p: nat, tape: nat -> real, pos: nat)
    requires MembersTrace(ws, wss, ms, lo, hi, p, tape, pos) && ms != []
    ensures MembersTrace(ws[1..], wss[1..], ms[1..], lo, hi, p, tape, pos + 2 * |lo|)
  {
    var n, ws1, wss1, ms1, pos1 := |lo|, ws[1..], wss[1..], ms[1..], pos + 2 * |lo|;
    assert MemberAt(ws, wss, ms, lo, hi, p, tape, pos, 0);
    forall k | 0 <= k < |ms1|
      ensures MemberAt(ws1, wss1, ms1, lo, hi, p, tape, pos1, k)
    {
      assert MemberAt(ws, wss, ms, lo, hi, p, tape, pos, k + 1);
      assert Stride(n, k + 1) == 2 * n + Stride(n, k);
      assert ws1[k] == ws[k + 1] && ws1[k + 1] == ws[k + 2] && wss1[k] == wss[k + 1] && ms1[k] == ms[k + 1];
    }
  }

  /** The first member of a run is RouletteCoords of the first wheel. */
  lemma FirstMemberCoords(ws: seq<Wheel>, wss: seq<seq<Wheel>>, ms: seq<seq<real>>, lo: seq<seq<real>>,
                          hi: seq<seq<real>>, p: nat, tape: nat -> real, pos: nat)
    requires MembersTrace(ws, wss, ms, lo, hi, p, tape, pos) && ms != []
    ensures WheelOn(ws[0], lo, hi, p) && WheelOn(ws[1], lo, hi, p)
    ensures RouletteCoords(ws[0], lo, hi, p, tape, pos, |lo|) == (ws[1], ms[0])
  {
    assert MemberAt(ws, wss, ms, lo, hi, p, tape, pos, 0);
    assert Stride(|lo|, 0) == 0;
    TraceCoords(wss[0], ms[0], lo, hi, p, tape, pos, |lo|);
    assert ms[0][..|lo|] == ms[0];
  }

  /** RouletteMembers unfolded once: the first member, then the rest. */
  lemma MembersNext(w: Wheel, lo: seq<seq<real>>, hi: seq<seq<real>>, p: nat, tape: nat -> real, pos: nat, k: nat,
                    w1: Wheel, wn: Wheel, m0: seq<real>, rest: seq<seq<real>>)
    requires WheelOn(w, lo, hi, p) && WheelOn(w1, lo, hi, p)
    requires RouletteCoords(w, lo, hi, p, tape, pos, |lo|) == (w1, m0)
    requires RouletteMembers(w1, lo, hi, p, tape, pos + 2 * |lo|, k) == (wn, rest)
    ensures RouletteMembers(w, lo, hi, p, tape, pos, k + 1) == (wn, [m0] + rest)
  {
  }

  // ---------------------------------------------------------------------------
  // init_scatter_set: the members

  /** `x` lies in cell `k` of every dimension. */
  predicate InCell(x: seq<real>, lo: seq<real>, hi: seq<real>, p: nat, k: nat)
    requires p >= 1
  {
    |x| == |lo| == |hi| && forall i :: 0 <= i < |x| ==> CellLo(lo[i], hi[i], p, k) <= x[i] <= CellHi(lo[i], hi[i], p, k)
  }

  /** Coordinate `i` of `x` is draw `pos + i` taken uniformly in cell `k`
      of dimension `i`. */
  ghost predicate CellMemberDrawn(x: seq<real>, lo: seq<seq<real>>, hi: seq<seq<real>>, tape: nat -> real, pos: nat, k: nat)
  {
    forall i :: 0 <= i < |x| ==>
      i < |lo| && i < |hi| && k < |lo[i]| && k < |hi[i]| && x[i] == Draw(lo[i][k], hi[i][k], tape(pos + i))
  }

  /** `pool` starts with the scatter set init_scatter_set draws from the
      tape at `pos`: member `c < p` in cell `c`, `n` draws each, then the
      second-phase members `ms` with the wheels `ws` between them. */
  ghost predicate ScatterDrawn(pool: seq<Individual>, n: nat, p: nat, lo: seq<seq<real>>, hi: seq<seq<real>>,
                               tape: nat -> real, pos: nat, ws: seq<Wheel>, wss: seq<seq<Wheel>>, ms: seq<seq<real>>)
  {
    && p + |ms| <= |pool|
    && CellsDrawn(pool, lo, hi, tape, pos, n, p)
    && MembersTrace(ws, wss, ms, lo, hi, p, tape, pos + n * p)
    && (forall c :: 0 <= c < |ms| ==> pool[p + c].params == ms[c])
  }

  /** CellsDrawn looks only at the parameter vectors of the first `k`
      members. */
  lemma CellsDrawnFrame(pool: seq<Individual>, pool': seq<Individual>, lo: seq<seq<real>>, hi: seq<seq<real>>,
                        tape: nat -> real, pos: nat, n: nat, k: nat)
    requires CellsDrawn(pool, lo, hi, tape, pos, n, k) && k <= |pool'|
    requires forall c :: 0 <= c < k ==> pool'[c].params == pool[c].params
    ensures CellsDrawn(pool', lo, hi, tape, pos, n, k)
  {
    forall c | 0 <= c < k
      ensures CellMemberDrawn(pool'[c].params, lo, hi, tape, pos + n * c, c)
    {
      assert pool'[c].params == pool[c].params;
    }
  }

  /** Only the parameter vectors matter to ScatterDrawn. */
  lemma ScatterDrawnParams(pool: seq<Individual>, pool': seq<Individual>, n: nat, p: nat, lo: seq<seq<real>>,
                           hi: seq<seq<real>>, tape: nat -> real, pos: nat, ws: seq<Wheel>, wss: seq<seq<Wheel>>,
                           ms: seq<seq<real>>)
    requires ScatterDrawn(pool, n, p, lo, hi, tape, pos, ws, wss, ms)
    requires |pool'| == |pool| && forall k :: 0 <= k < |pool| ==> pool'[k].params == pool[k].params
    ensures ScatterDrawn(pool', n, p, lo, hi, tape, pos, ws, wss, ms)
  {
    CellsDrawnFrame(pool, pool', lo, hi, tape, pos, n, p);
    forall c | 0 <= c < |ms|
      ensures pool'[p + c].params == ms[c]
    {
      assert pool'[p + c].params == pool[p + c].params;
    }
  }

  /** First phase of init_scatter_set for member `k < p`: coordinate `i` is
      drawn uniformly in cell `k` of dimension `i`, one draw per coordinate
      in order. */
  method DrawCellMember(ss: SSType, pool: array<Individual>, k: nat, rng: Rng)
    requires SubRegions(ss) && ss.BoundsOrdered() && |ss.minRealVar| == ss.nreal
    requires k < ss.p && k < pool.Length && |pool[k].params| == ss.nreal && rng.Valid()
    modifies pool, rng`pos
    ensures pool[..] == old(pool[..])[k := Individual(pool[k].params, old(pool[k].cost))]
    ensures rng.pos == old(rng.pos) + ss.nreal
    ensures |pool[k].params| == ss.nreal
    ensures CellMemberDrawn(pool[k].params, ss.minBoundary, ss.maxBoundary, rng.tape, old(rng.pos), k)
    ensures InCell(pool[k].params, ss.minRealVar, ss.maxRealVar, ss.p, k)
  {
    var x := pool[k].params;
    for i := 0 to ss.nreal
      invariant pool[..] == old(pool[..])
      invariant |x| == ss.nreal && rng.pos == old(rng.pos) + i
      invariant forall c :: 0 <= c < i ==>
                  x[c] == Draw(ss.minBoundary[c][k], ss.maxBoundary[c][k], rng.tape(old(rng.pos) + c))
      invariant forall c :: 0 <= c < i ==>
                  CellLo(ss.minRealVar[c], ss.maxRealVar[c], ss.p, k) <= x[c] <= CellHi(ss.minRealVar[c], ss.maxRealVar[c], ss.p, k)
    {
      CellInRange(ss.minRealVar[i], ss.maxRealVar[i], ss.p, k);
      var v := rng.RndReal(ss.minBoundary[i][k], ss.maxBoundary[i][k]);
      x := x[i := v];
    }
    pool[k] := Individual(x, pool[k].cost);
  }

  /** Second phase of init_scatter_set for one member: per coordinate a
      uniform number picks a cell by the roulette (the previous cell `a`
      when it misses), the cell's frequency and probability are updated,
      and the coordinate is drawn uniformly in the chosen cell. The chosen
      cell and the roulette's running sum carry over to the next
      coordinate and member. */
  method DrawRouletteMember(ss: SSType, pool: array<Individual>, k: nat, rng: Rng, a: nat, probsSum: real)
    returns (a': nat, probsSum': real, ghost ws: seq<Wheel>)
    requires SubRegions(ss) && ss.BoundsOrdered() && |ss.minRealVar| == ss.nreal
    requires ss.Matrices() && ProbsInUnit(ss) && a < ss.p
    requires k < pool.Length && |pool[k].params| == ss.nreal && rng.Valid()
    modifies pool, rng`pos, ss`freqs, ss`probs
    ensures pool[..] == old(pool[..])[k := Individual(pool[k].params, old(pool[k].cost))]
    ensures rng.pos == old(rng.pos) + 2 * ss.nreal
    ensures InBounds(pool[k].params, ss.minRealVar, ss.maxRealVar)
    ensures a' < ss.p && ss.Matrices() && ProbsInUnit(ss) && FreqsAtLeast(old(ss.freqs), ss.freqs)
    ensures CoordsTrace(ws, pool[k].params, ss.minBoundary, ss.maxBoundary, ss.p, rng.tape, old(rng.pos))
    ensures |pool[k].params| == ss.nreal && ws[0] == Wheel(old(ss.freqs), old(ss.probs), a, probsSum)
    ensures ws[ss.nreal] == Wheel(ss.freqs, ss.probs, a', probsSum')
  {
    var x;
    x, a', probsSum', ws := RouletteParams(ss, rng, pool[k].params, a, probsSum);
    TraceKeeps(ws, x, ss.minBoundary, ss.maxBoundary, ss.p, rng.tape, old(rng.pos), ss.nreal);
    SubRegionsWithin(ss);
    TraceInBounds(ws, x, ss.minBoundary, ss.maxBoundary, ss.p, rng.tape, old(rng.pos), ss.minRealVar, ss.maxRealVar);
    pool[k] := Individual(x, pool[k].cost);
  }

  /** The `i` loop of the second phase for one member, writing the
      coordinates over `x0` in order. */
  method RouletteParams(ss: SSType, rng: Rng, x0: seq<real>, a: nat, probsSum: real)
    returns (x: seq<real>, a': nat, probsSum': real, ghost ws: seq<Wheel>)
    requires SubRegions(ss) && ss.BoundsOrdered() && |ss.minRealVar| == ss.nreal
    requires ss.Matrices() && ProbsInUnit(ss) && a < ss.p && |x0| == ss.nreal && rng.Valid()
    modifies rng`pos, ss`freqs, ss`probs
    ensures rng.pos == old(rng.pos) + 2 * ss.nreal
    ensures a' < ss.p && ss.Matrices() && ProbsInUnit(ss)
    ensures CoordsTrace(ws, x, ss.minBoundary, ss.maxBoundary, ss.p, rng.tape, old(rng.pos))
    ensures |x| == ss.nreal && ws[0] == Wheel(old(ss.freqs), old(ss.probs), a, probsSum)
    ensures ws[ss.nreal] == Wheel(ss.freqs, ss.probs, a', probsSum')
  {
    x, a', probsSum' := x0, a, probsSum;
    StateWheel(ss, a, probsSum);
    ws := [Wheel(ss.freqs, ss.probs, a, probsSum)];
    ghost var lo, hi, pos0 := ss.minBoundary, ss.maxBoundary, rng.pos;
    for i := 0 to ss.nreal
      invariant |x| == ss.nreal && rng.pos == pos0 + 2 * i
      invariant a' < ss.p && ss.Matrices() && ProbsInUnit(ss)
      invariant lo == ss.minBoundary && hi == ss.maxBoundary
      invariant CoordsTrace(ws, x[..i], lo, hi, ss.p, rng.tape, pos0)
      invariant ws[0] == Wheel(old(ss.freqs), old(ss.probs), a, probsSum)
      invariant ws[i] == Wheel(ss.freqs, ss.probs, a', probsSum')
    {
      ghost var prefix := x[..i];
      var v;
      a', probsSum', v := RouletteCoordinate(ss, i, rng, a', probsSum');
      TraceStep(ws, prefix, lo, hi, ss.p, rng.tape, pos0, Wheel(ss.freqs, ss.probs, a', probsSum'), v);
      ws := ws + [Wheel(ss.freqs, ss.probs, a', probsSum')];
      x := x[i := v];
      assert x[..i + 1] == prefix + [v];
    }
    assert x[..ss.nreal] == x;
  }

  /** One coordinate of the second phase: a uniform number, the roulette
      draw for dimension `i`, and a value drawn in the chosen cell. */
  method RouletteCoordinate(ss: SSType, i: nat, rng: Rng, a: nat, probsSum: real)
    returns (a': nat, probsSum': real, v: real)
    requires SubRegions(ss) && ss.BoundsOrdered() && |ss.minRealVar| == ss.nreal
    requires ss.Matrices() && ProbsInUnit(ss) && a < ss.p && i < ss.nreal && rng.Valid()
    modifies rng`pos, ss`freqs, ss`probs
    ensures rng.pos == old(rng.pos) + 2
    ensures Wheel(ss.freqs, ss.probs, a', probsSum')
         == Spun(Wheel(old(ss.freqs), old(ss.probs), a, probsSum), ss.minBoundary, ss.maxBoundary, ss.p, i, rng.tape(old(rng.pos)))
    ensures v == Draw(ss.minBoundary[i][a'], ss.maxBoundary[i][a'], rng.tape(old(rng.pos) + 1))
    ensures ss.minRealVar[i] <= v <= ss.maxRealVar[i]
    ensures a' < ss.p && ss.Matrices() && ProbsInUnit(ss) && FreqsAtLeast(old(ss.freqs), ss.freqs)
  {
    var rnd := rng.RndReal(0.0, 1.0);
    assert rnd == rng.tape(old(rng.pos));
    ghost var w := Wheel(ss.freqs, ss.probs, a, probsSum);
    StateWheel(ss, a, probsSum);
    a', probsSum' := RouletteDraw(ss, i, rnd, a, probsSum);
    DrawSpins(w, ss.minBoundary, ss.maxBoundary, ss.p, i, rnd, Wheel(ss.freqs, ss.probs, a', probsSum'));
    SpunKeeps(w, ss.minBoundary, ss.maxBoundary, ss.p, i, rnd);
    CellInRange(ss.minRealVar[i], ss.maxRealVar[i], ss.p, a');
    v := rng.RndReal(ss.minBoundary[i][a'], ss.maxBoundary[i][a']);
  }

  /** RouletteDraw's effect, read as a wheel, is one spin. */
  lemma DrawSpins(w: Wheel, lo: seq<seq<real>>, hi: seq<seq<real>>, p: nat, i: nat, rnd: real, w': Wheel)
    requires WheelOn(w, lo, hi, p) && i < |lo|
    requires var r := Roulette(w.probs[i], w.sum, rnd);
      && w'.sum == r.1
      && (r.0.None? ==> w'.a == w.a && w'.freqs == w.freqs && w'.probs == w.probs)
      && (r.0.Some? ==>
            && w'.a == r.0.value < p
            && w'.freqs == w.freqs[i := w.freqs[i][w'.a := w.freqs[i][w'.a] + 1]]
            && w'.probs == w.probs[i := w.probs[i][w'.a := UpdatedProb(w'.freqs[i], w'.a)]])
    ensures w' == Spun(w, lo, hi, p, i, rnd)
  {
  }

  lemma FreqsTrans(f0: seq<seq<int>>, f1: seq<seq<int>>, f2: seq<seq<int>>)
    requires FreqsAtLeast(f0, f1) && FreqsAtLeast(f1, f2)
    ensures FreqsAtLeast(f0, f2)
  {
  }

  /** init_scatter_set: members `0 .. p-1` are drawn one per cell, members
      `p .. diverse_set_size-1` by the frequency-driven roulette. Every
      generated member lies within the variable bounds, member `k < p` lies
      in cell `k`, no frequency goes down, every probability stays in
      (0, 1], costs and the members past `diverse_set_size` are untouched,
      and the draws consumed are `nreal` per first-phase member and two
      per coordinate after that. */
  method InitScatterSet(ss: SSType, pool: array<Individual>, rng: Rng)
    returns (ghost ws: seq<Wheel>, ghost wss: seq<seq<Wheel>>, ghost ms: seq<seq<real>>)
    requires SubRegions(ss) && ss.BoundsOrdered() && |ss.minRealVar| == ss.nreal
    requires ss.Matrices() && ProbsInUnit(ss)
    requires 1 <= ss.p <= ss.diverseSetSize <= pool.Length && Shaped(pool[..], ss.nreal) && rng.Valid()
    modifies pool, rng`pos, ss`freqs, ss`probs
    ensures Shaped(pool[..], ss.nreal)
    ensures forall k :: 0 <= k < ss.p ==> InCell(pool[k].params, ss.minRealVar, ss.maxRealVar, ss.p, k)
    ensures AllInBounds(pool[..ss.diverseSetSize], ss.minRealVar, ss.maxRealVar)
    ensures forall k :: 0 <= k < pool.Length ==> pool[k].cost == old(pool[k].cost)
    ensures pool[ss.diverseSetSize..] == old(pool[ss.diverseSetSize..])
    ensures ss.Matrices() && ProbsInUnit(ss) && FreqsAtLeast(old(ss.freqs), ss.freqs)
    ensures rng.pos == old(rng.pos) + ss.nreal * ss.p + 2 * ss.nreal * (ss.diverseSetSize - ss.p)
    ensures ScatterDrawn(pool[..], ss.nreal, ss.p, ss.minBoundary, ss.maxBoundary, rng.tape, old(rng.pos), ws, wss, ms)
    ensures |ms| == ss.diverseSetSize - ss.p && ws[0] == Wheel(old(ss.freqs), old(ss.probs), 0, 0.0)
    ensures ws[|ms|].freqs == ss.freqs && ws[|ms|].probs == ss.probs
  {
    ScatterByCells(ss, pool, rng);
    CellsInBounds(ss, pool[..]);
    ghost var cells := pool[..];
    ws, wss, ms := ScatterByRoulette(ss, pool, rng);
    CellsDrawnFrame(cells, pool[..], ss.minBoundary, ss.maxBoundary, rng.tape, old(rng.pos), ss.nreal, ss.p);
  }

  /** The first loop of init_scatter_set. */
  method ScatterByCells(ss: SSType, pool: array<Individual>, rng: Rng)
    requires SubRegions(ss) && ss.BoundsOrdered() && |ss.minRealVar| == ss.nreal
    requires 1 <= ss.p <= pool.Length && Shaped(pool[..], ss.nreal) && rng.Valid()
    modifies pool, rng`pos
    ensures Shaped(pool[..], ss.nreal) && rng.pos == old(rng.pos) + ss.nreal * ss.p
    ensures forall c :: 0 <= c < ss.p ==> InCell(pool[c].params, ss.minRealVar, ss.maxRealVar, ss.p, c)
    ensures forall c :: 0 <= c < pool.Length ==> pool[c].cost == old(pool[c].cost)
    ensures pool[ss.p..] == old(pool[ss.p..])
    ensures CellsDrawn(pool[..], ss.minBoundary, ss.maxBoundary, rng.tape, old(rng.pos), ss.nreal, ss.p)
  {
    ghost var lo, hi, pos0 := ss.minBoundary, ss.maxBoundary, rng.pos;
    for k := 0 to ss.p
      invariant Shaped(pool[..], ss.nreal) && rng.pos == pos0 + ss.nreal * k
      invariant forall c :: 0 <= c < k ==> InCell(pool[c].params, ss.minRealVar, ss.maxRealVar, ss.p, c)
      invariant CellsDrawn(pool[..], lo, hi, rng.tape, pos0, ss.nreal, k)
      invariant forall c :: 0 <= c < pool.Length ==> pool[c].cost == old(pool[c].cost)
      invariant pool[k..] == old(pool[k..])
    {
      ghost var before := pool[..];
      DrawCellMember(ss, pool, k, rng);
      CellsDrawnStep(before, pool[..], lo, hi, rng.tape, pos0, ss.nreal, k);
    }
  }

  /** The first `k` members of `pool` are drawn in their cells, `n` draws
      each, from the tape at `pos`. */
  ghost predicate CellsDrawn(pool: seq<Individual>, lo: seq<seq<real>>, hi: seq<seq<real>>, tape: nat -> real,
                             pos: nat, n: nat, k: nat)
  {
    k <= |pool| && forall c :: 0 <= c < k ==> CellMemberDrawn(pool[c].params, lo, hi, tape, pos + n * c, c)
  }

  /** Drawing member `k` in its cell extends CellsDrawn by one. */
  lemma CellsDrawnStep(pool: seq<Individual>, pool': seq<Individual>, lo: seq<seq<real>>, hi: seq<seq<real>>,
                       tape: nat -> real, pos: nat, n: nat, k: nat)
    requires CellsDrawn(pool, lo, hi, tape, pos, n, k) && k < |pool| == |pool'|
    requires pool' == pool[k := pool'[k]] && CellMemberDrawn(pool'[k].params, lo, hi, tape, pos + n * k, k)
    ensures CellsDrawn(pool', lo, hi, tape, pos, n, k + 1)
  {
    forall c | 0 <= c < k + 1
      ensures CellMemberDrawn(pool'[c].params, lo, hi, tape, pos + n * c, c)
    {
      if c < k {
        assert pool'[c] == pool[c];
      }
    }
  }

  /** The second loop of init_scatter_set. */
  method ScatterByRoulette(ss: SSType, pool: array<Individual>, rng: Rng)
    returns (ghost ws: seq<Wheel>, ghost wss: seq<seq<Wheel>>, ghost ms: seq<seq<real>>)
    requires SubRegions(ss) && ss.BoundsOrdered() && |ss.minRealVar| == ss.nreal
    requires ss.Matrices() && ProbsInUnit(ss)
    requires 1 <= ss.p <= ss.diverseSetSize <= pool.Length && Shaped(pool[..], ss.nreal) && rng.Valid()
    requires AllInBounds(pool[..ss.p], ss.minRealVar, ss.maxRealVar)
    modifies pool, rng`pos, ss`freqs, ss`probs
    ensures Shaped(pool[..], ss.nreal)
    ensures pool[..ss.p] == old(pool[..ss.p])
    ensures AllInBounds(pool[..ss.diverseSetSize], ss.minRealVar, ss.maxRealVar)
    ensures forall k :: 0 <= k < pool.Length ==> pool[k].cost == old(pool[k].cost)
    ensures pool[ss.diverseSetSize..] == old(pool[ss.diverseSetSize..])
    ensures ss.Matrices() && ProbsInUnit(ss) && FreqsAtLeast(old(ss.freqs), ss.freqs)
    ensures rng.pos == old(rng.pos) + 2 * ss.nreal * (ss.diverseSetSize - ss.p)
    ensures MembersTrace(ws, wss, ms, ss.minBoundary, ss.maxBoundary, ss.p, rng.tape, old(rng.pos))
    ensures |ms| == ss.diverseSetSize - ss.p && ws[0] == Wheel(old(ss.freqs), old(ss.probs), 0, 0.0)
    ensures ws[|ms|].freqs == ss.freqs && ws[|ms|].probs == ss.probs
    ensures forall c :: 0 <= c < |ms| ==> pool[ss.p + c].params == ms[c]
  {
    var a: nat, probsSum := 0, 0.0;
    StateWheel(ss, a, probsSum);
    ws, wss, ms := [Wheel(ss.freqs, ss.probs, a, probsSum)], [], [];
    ghost var lo, hi, pos0 := ss.minBoundary, ss.maxBoundary, rng.pos;
    ghost var orig := pool[..];
    for k := 0 to ss.diverseSetSize - ss.p
      invariant Filled(orig, pool[..], ss.p, k, ss.nreal, ss.minRealVar, ss.maxRealVar, ms)
      invariant rng.pos == pos0 + Stride(ss.nreal, k)
      invariant a < ss.p && ss.Matrices() && ProbsInUnit(ss) && FreqsAtLeast(old(ss.freqs), ss.freqs)
      invariant lo == ss.minBoundary && hi == ss.maxBoundary && |ms| == k
      invariant MembersTrace(ws, wss, ms, lo, hi, ss.p, rng.tape, pos0)
      invariant ws[0] == Wheel(old(ss.freqs), old(ss.probs), 0, 0.0) && ws[k] == Wheel(ss.freqs, ss.probs, a, probsSum)
    {
      ghost var f, before, at := ss.freqs, pool[..], rng.pos;
      ghost var inner;
      a, probsSum, inner := DrawRouletteMember(ss, pool, ss.p + k, rng, a, probsSum);
      FreqsTrans(old(ss.freqs), f, ss.freqs);
      assert |lo| == ss.nreal && at == pos0 + Stride(|lo|, |ms|) && inner[0] == ws[|ms|];
      MembersStep(ws, wss, ms, lo, hi, ss.p, rng.tape, pos0, inner, pool[ss.p + k].params, at);
      ws, wss := ws + [inner[ss.nreal]], wss + [inner];
      FillSlot(orig, before, pool[..], ss.p, k, ss.nreal, ss.minRealVar, ss.maxRealVar, ms);
      ms := ms + [pool[ss.p + k].params];
    }
    assert pool[..ss.p] == orig[..ss.p] && pool[ss.diverseSetSize..] == orig[ss.diverseSetSize..];
  }

  /** The pool during the second loop of init_scatter_set, against the
      pool `orig` before it: the first `p` members untouched, members
      `p .. p + k` hold the vectors `ms`, all of them in bounds, the rest
      untouched, every cost kept and every vector of `n` coordinates. */
  ghost predicate Filled(orig: seq<Individual>, pool: seq<Individual>, p: nat, k: nat, n: nat,
                         minV: seq<real>, maxV: seq<real>, ms: seq<seq<real>>)
  {
    && |pool| == |orig| && p + k <= |pool| && |ms| == k
    && Shaped(pool, n) && pool[..p] == orig[..p] && pool[p + k..] == orig[p + k..]
    && AllInBounds(pool[..p + k], minV, maxV)
    && (forall c :: 0 <= c < |pool| ==> pool[c].cost == orig[c].cost)
    && (forall c :: 0 <= c < k ==> pool[p + c].params == ms[c])
  }

  /** Filling member `p + k` with an in-bounds vector of `n` coordinates,
      its cost kept, moves Filled on to `k + 1`. */
  lemma FillSlot(orig: seq<Individual>, before: seq<Individual>, after: seq<Individual>, p: nat, k: nat, n: nat,
                 minV: seq<real>, maxV: seq<real>, ms: seq<seq<real>>)
    requires Filled(orig, before, p, k, n, minV, maxV, ms) && p + k < |before| == |after|
    requires after == before[p + k := Individual(after[p + k].params, before[p + k].cost)]
    requires |after[p + k].params| == n && InBounds(after[p + k].params, minV, maxV)
    ensures Filled(orig, after, p, k + 1, n, minV, maxV, ms + [after[p + k].params])
  {
    var ms' := ms + [after[p + k].params];
    assert after[..p + k + 1] == before[..p + k] + [after[p + k]];
    assert after[p + k + 1..] == before[p + k + 1..];
    assert after[..p] == before[..p];
    forall c | 0 <= c < k + 1
      ensures after[p + c].params == ms'[c]
    {
      if c < k {
        assert after[p + c] == before[p + c];
      }
    }
  }

  /** A member of its cell lies within the variable bounds. */
  lemma CellsInBounds(ss: SSType, s: seq<Individual>)
    requires ss.BoundsOrdered() && 1 <= ss.p <= |s|
    requires forall k :: 0 <= k < ss.p ==> InCell(s[k].params, ss.minRealVar, ss.maxRealVar, ss.p, k)
    ensures AllInBounds(s[..ss.p], ss.minRealVar, ss.maxRealVar)
  {
    forall k, i | 0 <= k < ss.p && 0 <= i < |s[k].params|
      ensures ss.minRealVar[i] <= s[k].params[i] <= ss.maxRealVar[i]
    {
      CellInRange(ss.minRealVar[i], ss.maxRealVar[i], ss.p, k);
    }
  }

  // ---------------------------------------------------------------------------
  // init_ref_set

  /** Squared distance from `x` to the nearest of `refs`. */
  function NearestSq(x: seq<real>, refs: seq<Individual>, n: nat): real
    requires |refs| >= 1 && n <= |x| && forall j :: 0 <= j < |refs| ==> n <= |refs[j].params|
  {
    var d := SqDist(x, refs[|refs| - 1].params, n);
    if |refs| == 1 then d
    else
      var r := NearestSq(x, refs[..|refs| - 1], n);
      if d < r then d else r
  }

  /** The nearest distance is at most every distance and is one of them. */
  lemma {:induction false} NearestSqIsMin(x: seq<real>, refs: seq<Individual>, n: nat)
    requires |refs| >= 1 && n <= |x| && forall j :: 0 <= j < |refs| ==> n <= |refs[j].params|
    ensures forall j :: 0 <= j < |refs| ==> NearestSq(x, refs, n) <= SqDist(x, refs[j].params, n)
    ensures exists j :: 0 <= j < |refs| && NearestSq(x, refs, n) == SqDist(x, refs[j].params, n)
  {
    var last := |refs| - 1;
    var d := SqDist(x, refs[last].params, n);
    if |refs| == 1 {
      assert NearestSq(x, refs, n) == d;
    } else {
      var init := refs[..last];
      NearestSqIsMin(x, init, n);
      var r := NearestSq(x, init, n);
      assert NearestSq(x, refs, n) == if d < r then d else r;
      var j0 :| 0 <= j0 < |init| && r == SqDist(x, init[j0].params, n);
      assert init[j0] == refs[j0];
      forall j | 0 <= j < last ensures r <= SqDist(x, refs[j].params, n) {
        assert init[j] == refs[j];
      }
    }
  }

  /** A value at most every distance and equal to one of them is the
      nearest distance. */
  lemma MinIsNearest(v: real, x: seq<real>, refs: seq<Individual>, n: nat, j: nat)
    requires |refs| >= 1 && n <= |x| && forall t :: 0 <= t < |refs| ==> n <= |refs[t].params|
    requires forall t :: 0 <= t < |refs| ==> v <= SqDist(x, refs[t].params, n)
    requires j < |refs| && v == SqDist(x, refs[j].params, n)
    ensures v == NearestSq(x, refs, n)
  {
    NearestSqIsMin(x, refs, n);
  }

  /** Member `idx` of `pool` is farthest from `refs`: no member's nearest
      distance to `refs` is larger. */
  ghost predicate FarthestAt(pool: seq<Individual>, refs: seq<Individual>, n: nat, idx: nat)
  {
    && Shaped(pool, n) && Shaped(refs, n) && |refs| >= 1 && idx < |pool|
    && forall t :: 0 <= t < |pool| ==> NearestSq(pool[t].params, refs, n) <= NearestSq(pool[idx].params, refs, n)
  }

  /** The `j` loop: the distances from diverse member `i` to the first `k`
      members of the reference set. */
  method DistRow(ss: SSType, i: nat, k: nat) returns (row: seq<real>)
    requires i < ss.diverseSet.Length && k <= ss.refSet.Length
    requires Shaped(ss.diverseSet[..], ss.nreal) && Shaped(ss.refSet[..], ss.nreal)
    ensures |row| == k
    ensures forall j :: 0 <= j < k ==> row[j] == SqDist(ss.diverseSet[i].params, ss.refSet[j].params, ss.nreal)
  {
    row := [];
    for j := 0 to k
      invariant |row| == j
      invariant forall c :: 0 <= c < j ==> row[c] == SqDist(ss.diverseSet[i].params, ss.refSet[c].params, ss.nreal)
    {
      assert ss.diverseSet[..][i] == ss.diverseSet[i] && ss.refSet[..][j] == ss.refSet[j];
      row := row + [SqDist(ss.diverseSet[i].params, ss.refSet[j].params, ss.nreal)];
    }
  }

  /** The `i` loop: for every pool member `diverse[h .. m)`, its nearest
      distance to the first `k` members of the reference set. */
  method MinDistances(ss: SSType, h: nat, k: nat, m: nat) returns (minDists: seq<real>)
    requires 1 <= k <= ss.refSet.Length && h <= m <= ss.diverseSet.Length
    requires Shaped(ss.diverseSet[..], ss.nreal) && Shaped(ss.refSet[..], ss.nreal)
    ensures |minDists| == m - h
    ensures forall t :: 0 <= t < m - h ==>
              minDists[t] == NearestSq(ss.diverseSet[h + t].params, ss.refSet[..k], ss.nreal)
  {
    minDists := [];
    var minIndex := 0;
    for i := h to m
      invariant |minDists| == i - h
      invariant forall t :: 0 <= t < i - h ==>
                  minDists[t] == NearestSq(ss.diverseSet[h + t].params, ss.refSet[..k], ss.nreal)
    {
      var mn;
      mn, minIndex := NearestDistance(ss, i, k, minIndex);
      minDists := minDists + [mn];
    }
  }

  /** One pass of the `i` loop: the distance row of diverse member `i` and
      its minimum, which is the member's nearest distance to `ref[.. k)`.
      `minIndex` is carried over between members as in the source. */
  method NearestDistance(ss: SSType, i: nat, k: nat, minIndex: int) returns (mn: real, minIndex': int)
    requires 1 <= k <= ss.refSet.Length && i < ss.diverseSet.Length
    requires Shaped(ss.diverseSet[..], ss.nreal) && Shaped(ss.refSet[..], ss.nreal)
    ensures mn == NearestSq(ss.diverseSet[i].params, ss.refSet[..k], ss.nreal)
  {
    var row := DistRow(ss, i, k);
    mn, minIndex' := Min(row, k, minIndex);
    ghost var x := ss.diverseSet[i].params;
    ghost var refs := ss.refSet[..k];
    assert ss.diverseSet[..][i] == ss.diverseSet[i];
    assert forall t :: 0 <= t < k ==> row[t] == SqDist(x, refs[t].params, ss.nreal);
    if forall c :: 1 <= c < k ==> row[0] <= row[c] {
      MinIsNearest(mn, x, refs, ss.nreal, 0);
    } else {
      MinIsNearest(mn, x, refs, ss.nreal, minIndex');
    }
  }

  /** One round of the greedy loop of init_ref_set: the pool is
      `diverse[h .. m)`; the member with the largest nearest distance to
      `ref[.. k)` is copied to `ref[k]` and deleted from the diverse set.
      `max` keeps the previous `maxIndex` when the first pool member is
      already a farthest one, so only in the first round, where that index
      is 0, is the pick always a farthest member. */
  method GreedyStep(ss: SSType, h: nat, k: nat, m: nat, maxIndex: int) returns (maxIndex': int)
    requires ss.refSet != ss.diverseSet
    requires 1 <= k < ss.refSet.Length && h < m <= ss.diverseSet.Length && 0 <= maxIndex < ss.diverseSet.Length - h
    requires Shaped(ss.diverseSet[..], ss.nreal) && Shaped(ss.refSet[..], ss.nreal)
    modifies ss.refSet, ss.diverseSet
    ensures 0 <= maxIndex' < ss.diverseSet.Length - h
    ensures FarthestAt(old(ss.diverseSet[h..m]), old(ss.refSet[..k]), ss.nreal, 0) ==> maxIndex' == maxIndex
    ensures !FarthestAt(old(ss.diverseSet[h..m]), old(ss.refSet[..k]), ss.nreal, 0) ==>
              1 <= maxIndex' < m - h && FarthestAt(old(ss.diverseSet[h..m]), old(ss.refSet[..k]), ss.nreal, maxIndex')
    ensures ss.refSet[..] == old(ss.refSet[..])[k := old(ss.diverseSet[h + maxIndex'])]
    ensures ss.diverseSet[..] == Shifted(old(ss.diverseSet[..]), ss.diverseSet.Length, h + maxIndex')
    ensures Shaped(ss.diverseSet[..], ss.nreal) && Shaped(ss.refSet[..], ss.nreal)
  {
    maxIndex' := PickFarthest(ss, h, k, m, maxIndex);
    var src := ss.diverseSet[h + maxIndex'];
    assert ss.diverseSet[..][h + maxIndex'] == src;
    assert src.params[..ss.nreal] == src.params;
    CopyInd(ss, ss.refSet, k, src);
    DeleteAndShift(ss, ss.diverseSet, ss.diverseSet.Length, h + maxIndex');
    ShiftedShaped(old(ss.diverseSet[..]), ss.diverseSet.Length, h + maxIndex', ss.nreal);
  }

  /** Shifting keeps every member of length `n`. */
  lemma ShiftedShaped(s: seq<Individual>, setSize: int, index: nat, n: nat)
    requires setSize <= |s| && Shaped(s, n)
    ensures Shaped(Shifted(s, setSize, index), n)
  {
  }

  /** The distances of one round and the `max` over them. */
  method PickFarthest(ss: SSType, h: nat, k: nat, m: nat, maxIndex: int) returns (maxIndex': int)
    requires 1 <= k <= ss.refSet.Length && h < m <= ss.diverseSet.Length && 0 <= maxIndex < ss.diverseSet.Length - h
    requires Shaped(ss.diverseSet[..], ss.nreal) && Shaped(ss.refSet[..], ss.nreal)
    ensures 0 <= maxIndex' < ss.diverseSet.Length - h
    ensures FarthestAt(ss.diverseSet[h..m], ss.refSet[..k], ss.nreal, 0) ==> maxIndex' == maxIndex
    ensures !FarthestAt(ss.diverseSet[h..m], ss.refSet[..k], ss.nreal, 0) ==>
              1 <= maxIndex' < m - h && FarthestAt(ss.diverseSet[h..m], ss.refSet[..k], ss.nreal, maxIndex')
  {
    ghost var pool := ss.diverseSet[h..m];
    ghost var refs := ss.refSet[..k];
    var minDists := MinDistances(ss, h, k, m);
    assert forall t :: 0 <= t < m - h ==> minDists[t] == NearestSq(pool[t].params, refs, ss.nreal);
    assert Shaped(pool, ss.nreal) && Shaped(refs, ss.nreal);
    var mx;
    mx, maxIndex' := Max(minDists, m - h, maxIndex);
  }

  /** init_ref_set: the diverse set is sorted by cost, its best `b/2`
      members become the elite part of the reference set, and each further
      slot `k` takes the pool member (the rest of the sorted diverse set)
      whose nearest distance to `ref[.. k)` is largest, which then leaves the
      pool. `sorted` is the diverse set right after sorting. The rounds are
      recorded in `ds` (the diverse set before each round) and `idx` (each
      round's index) as a GreedyTrace: the first greedy member is a
      farthest one; a later pick is a farthest one or repeats the previous
      round's index (see GreedyStep). */
  method InitRefSet(ss: SSType)
    returns (ghost sorted: seq<Individual>, ghost ds: seq<seq<Individual>>, ghost idx: seq<int>)
    requires ss.Valid() && 2 <= ss.refSetSize <= ss.diverseSetSize
    modifies ss.refSet, ss.diverseSet
    ensures ss.Valid()
    ensures |sorted| == ss.diverseSetSize && SortedByCost(sorted)
    ensures multiset(sorted) == multiset(old(ss.diverseSet[..]))
    ensures PicksFrom(ss.refSet[..], sorted, ss.refSetSize / 2, ss.refSetSize)
    ensures exists t :: FarthestAt(sorted[ss.refSetSize / 2..], sorted[..ss.refSetSize / 2], ss.nreal, t) &&
                        ss.refSet[ss.refSetSize / 2] == sorted[ss.refSetSize / 2 + t]
    ensures GreedyTrace(ds, idx, ss.refSet[..], ss.refSetSize / 2, ss.nreal, ss.diverseSetSize)
    ensures |idx| == ss.refSetSize - ss.refSetSize / 2 && ds[0] == sorted && ds[|idx|] == ss.diverseSet[..]
  {
    var m := ss.diverseSetSize;
    var b := ss.refSetSize;
    var h := b / 2;
    ghost var d0 := ss.diverseSet[..];
    assert d0[..ss.diverseSetSize] == d0;
    SSSort.QuickSortSet(ss, ss.diverseSet, ss.diverseSetSize, 'c');
    assert ss.diverseSet[..ss.diverseSetSize] == ss.diverseSet[..];
    sorted := ss.diverseSet[..];
    ShapedPermuted(d0, sorted, ss.nreal);
    CopyElite(ss, h);
    ds, idx := GreedyFill(ss, h, sorted);
  }

  /** The greedy loop of init_ref_set, slots `h .. b-1`. */
  method GreedyFill(ss: SSType, h: nat, ghost sorted: seq<Individual>)
    returns (ghost ds: seq<seq<Individual>>, ghost idx: seq<int>)
    requires ss.Valid() && 2 <= ss.refSetSize <= ss.diverseSetSize && h == ss.refSetSize / 2
    requires ss.diverseSet[..] == sorted && ss.refSet[..h] == sorted[..h]
    modifies ss.refSet, ss.diverseSet
    ensures ss.Valid()
    ensures PicksFrom(ss.refSet[..], sorted, h, ss.refSetSize)
    ensures exists t :: FarthestAt(sorted[h..], sorted[..h], ss.nreal, t) && ss.refSet[h] == sorted[h + t]
    ensures GreedyTrace(ds, idx, ss.refSet[..], h, ss.nreal, ss.diverseSetSize)
    ensures |idx| == ss.refSetSize - h && ds[0] == sorted && ds[|idx|] == ss.diverseSet[..]
  {
    var m := ss.diverseSetSize;
    var maxIndex := 0;
    ds, idx := [sorted], [];
    for k := h to ss.refSetSize
      invariant m == ss.diverseSetSize - (k - h)
      invariant ss.Valid()
      invariant PoolFrom(ss.diverseSet[..], sorted, h) && PicksFrom(ss.refSet[..], sorted, h, k)
      invariant 0 <= maxIndex < ss.diverseSetSize - h
      invariant k == h ==> ss.diverseSet[..] == sorted && maxIndex == 0
      invariant k > h ==> exists t :: FarthestAt(sorted[h..], sorted[..h], ss.nreal, t) && ss.refSet[h] == sorted[h + t]
      invariant GreedyTrace(ds, idx, ss.refSet[..], h, ss.nreal, ss.diverseSetSize) && |idx| == k - h
      invariant ds[0] == sorted && ds[|idx|] == ss.diverseSet[..]
      invariant k > h ==> maxIndex == idx[|idx| - 1]
    {
      maxIndex := GreedyRound(ss, h, k, m, maxIndex, sorted, ds, idx);
      ds, idx := ds + [ss.diverseSet[..]], idx + [maxIndex];
      m := m - 1;
    }
  }

  /** The diverse set `d` still holds the sorted elite in front and only
      members of the sorted pool behind it. */
  ghost predicate PoolFrom(d: seq<Individual>, sorted: seq<Individual>, h: nat)
  {
    |d| == |sorted| && h <= |d| && d[..h] == sorted[..h] && forall t :: h <= t < |d| ==> d[t] in sorted[h..]
  }

  /** The reference set `r` holds the sorted elite in front and members of
      the sorted pool in slots `h .. k-1`. */
  ghost predicate PicksFrom(r: seq<Individual>, sorted: seq<Individual>, h: nat, k: nat)
  {
    h <= k <= |r| && h <= |sorted| && r[..h] == sorted[..h] && forall t :: h <= t < k ==> r[t] in sorted[h..]
  }

  /** The rule of one greedy round on `pool` against `refs`: when the first
      pool member is already a farthest one, `max` leaves the previous index
      `prev` in place; otherwise the index is a farthest member other than
      the first. */
  ghost predicate GreedyRule(pool: seq<Individual>, refs: seq<Individual>, n: nat, prev: int, idx: int)
  {
    && (FarthestAt(pool, refs, n, 0) ==> idx == prev)
    && (!FarthestAt(pool, refs, n, 0) ==> 1 <= idx < |pool| && FarthestAt(pool, refs, n, idx))
  }

  /** Round `j` of the greedy loop as traced by `ds` (the diverse set before
      each round) and `idx` (the index each round picks): the pool is
      `ds[j][h .. L-j)`, slot `h+j` of `r` receives the picked member, the
      pick follows GreedyRule against `r[.. h+j)` and the next diverse set
      is the shifted one. */
  ghost predicate RoundAt(ds: seq<seq<Individual>>, idx: seq<int>, r: seq<Individual>, h: nat, n: nat, L: nat, j: nat)
  {
    && j < |idx| && j + 1 < |ds| && |ds[j]| == L && h + j < L && h + j < |r|
    && 0 <= idx[j] && h + idx[j] < L
    && ds[j + 1] == Shifted(ds[j], L, h + idx[j])
    && r[h + j] == ds[j][h + idx[j]]
    && GreedyRule(ds[j][h..L - j], r[..h + j], n, if j == 0 then 0 else idx[j - 1], idx[j])
  }

  /** The greedy loop so far: `|idx|` rounds starting from the diverse set
      `ds[0]`, each one a RoundAt. */
  ghost predicate GreedyTrace(ds: seq<seq<Individual>>, idx: seq<int>, r: seq<Individual>, h: nat, n: nat, L: nat)
  {
    && |ds| == |idx| + 1 && |ds[0]| == L
    && forall j :: 0 <= j < |idx| ==> RoundAt(ds, idx, r, h, n, L, j)
  }

  /** A round that follows the rule extends the trace; writing slot `h+j`
      leaves the earlier rounds as they were. */
  lemma GreedyTraceStep(ds: seq<seq<Individual>>, idx: seq<int>, r: seq<Individual>, r': seq<Individual>,
                        h: nat, n: nat, L: nat, d': seq<Individual>, i: int)
    requires GreedyTrace(ds, idx, r, h, n, L) && |ds[|idx|]| == L && h + |idx| < L
    requires h + |idx| < |r| && |r'| == |r| && r'[..h + |idx|] == r[..h + |idx|]
    requires 0 <= i && h + i < L && d' == Shifted(ds[|idx|], L, h + i)
    requires r'[h + |idx|] == ds[|idx|][h + i]
    requires GreedyRule(ds[|idx|][h..L - |idx|], r[..h + |idx|], n, if |idx| == 0 then 0 else idx[|idx| - 1], i)
    ensures GreedyTrace(ds + [d'], idx + [i], r', h, n, L)
  {
    var ds', idx' := ds + [d'], idx + [i];
    forall j | 0 <= j < |idx'| ensures RoundAt(ds', idx', r', h, n, L, j) {
      if j < |idx| {
        assert RoundAt(ds, idx, r, h, n, L, j);
        RoundAtKept(ds, idx, r, r', h, n, L, d', i, j);
      } else {
        RoundAtLast(ds, idx, r, r', h, n, L, d', i);
      }
    }
  }

  /** In every round of a greedy trace whose index differs from the
      previous round's (always so in the first round), slot `h+j` holds a
      member of that round's pool that is farthest from the slots before
      it; only a repeated index can pick a member that is not. */
  lemma {:induction false} GreedyPickFarthest(ds: seq<seq<Individual>>, idx: seq<int>, r: seq<Individual>,
                                              h: nat, n: nat, L: nat, j: nat)
    requires GreedyTrace(ds, idx, r, h, n, L) && j < |idx|
    requires j == 0 || idx[j] != idx[j - 1]
    ensures |ds[j]| == L && h + j < L && h + j < |r| && 0 <= idx[j] < L - j - h
    ensures FarthestAt(ds[j][h..L - j], r[..h + j], n, idx[j])
    ensures r[h + j] == ds[j][h..L - j][idx[j]]
  {
    assert RoundAt(ds, idx, r, h, n, L, j);
  }

  /** An earlier round stays as it was once the trace grows. */
  lemma RoundAtKept(ds: seq<seq<Individual>>, idx: seq<int>, r: seq<Individual>, r': seq<Individual>,
                    h: nat, n: nat, L: nat, d': seq<Individual>, i: int, j: nat)
    requires RoundAt(ds, idx, r, h, n, L, j) && |ds| == |idx| + 1
    requires h + |idx| < |r| && |r'| == |r| && r'[..h + |idx|] == r[..h + |idx|]
    ensures RoundAt(ds + [d'], idx + [i], r', h, n, L, j)
  {
    var ds', idx' := ds + [d'], idx + [i];
    assert ds'[j] == ds[j] && ds'[j + 1] == ds[j + 1] && idx'[j] == idx[j];
    assert j > 0 ==> idx'[j - 1] == idx[j - 1];
    assert r'[h + j] == r[h + j] by { assert r'[..h + |idx|][h + j] == r[..h + |idx|][h + j]; }
    assert r'[..h + j] == r[..h + j] by { assert r'[..h + j] == r'[..h + |idx|][..h + j]; }
  }

  /** The new round at the end of the trace. */
  lemma RoundAtLast(ds: seq<seq<Individual>>, idx: seq<int>, r: seq<Individual>, r': seq<Individual>,
                    h: nat, n: nat, L: nat, d': seq<Individual>, i: int)
    requires |ds| == |idx| + 1 && |ds[|idx|]| == L && h + |idx| < L
    requires h + |idx| < |r| && |r'| == |r| && r'[..h + |idx|] == r[..h + |idx|]
    requires 0 <= i && h + i < L && d' == Shifted(ds[|idx|], L, h + i)
    requires r'[h + |idx|] == ds[|idx|][h + i]
    requires GreedyRule(ds[|idx|][h..L - |idx|], r[..h + |idx|], n, if |idx| == 0 then 0 else idx[|idx| - 1], i)
    ensures RoundAt(ds + [d'], idx + [i], r', h, n, L, |idx|)
  {
    var ds', idx' := ds + [d'], idx + [i];
    assert ds'[|idx|] == ds[|idx|] && ds'[|idx| + 1] == d' && idx'[|idx|] == i;
    assert |idx| > 0 ==> idx'[|idx| - 1] == idx[|idx| - 1];
  }

  /** One pass of the greedy loop, with what it keeps. */
  method GreedyRound(ss: SSType, h: nat, k: nat, m: nat, maxIndex: int, ghost sorted: seq<Individual>,
                     ghost ds: seq<seq<Individual>>, ghost idx: seq<int>)
    returns (maxIndex': int)
    requires ss.Valid() && 1 <= h <= k < ss.refSetSize <= ss.diverseSetSize && m == ss.diverseSetSize - (k - h)
    requires 0 <= maxIndex < ss.diverseSetSize - h
    requires PoolFrom(ss.diverseSet[..], sorted, h) && PicksFrom(ss.refSet[..], sorted, h, k)
    requires k == h ==> ss.diverseSet[..] == sorted && maxIndex == 0
    requires GreedyTrace(ds, idx, ss.refSet[..], h, ss.nreal, ss.diverseSetSize) && |idx| == k - h
    requires ds[|idx|] == ss.diverseSet[..]
    requires k > h ==> maxIndex == idx[|idx| - 1]
    modifies ss.refSet, ss.diverseSet
    ensures ss.Valid() && 0 <= maxIndex' < ss.diverseSetSize - h
    ensures PoolFrom(ss.diverseSet[..], sorted, h) && PicksFrom(ss.refSet[..], sorted, h, k + 1)
    ensures ss.refSet[..k] == old(ss.refSet[..k])
    ensures k == h ==> exists t :: FarthestAt(sorted[h..], sorted[..h], ss.nreal, t) && ss.refSet[h] == sorted[h + t]
    ensures GreedyTrace(ds + [ss.diverseSet[..]], idx + [maxIndex'], ss.refSet[..], h, ss.nreal, ss.diverseSetSize)
  {
    ghost var d0 := ss.diverseSet[..];
    ghost var r0 := ss.refSet[..];
    ghost var pool, refs := ss.diverseSet[h..m], ss.refSet[..k];
    maxIndex' := GreedyStep(ss, h, k, m, maxIndex);
    GreedyRoundTrace(ds, idx, r0, ss.refSet[..], d0, ss.diverseSet[..], pool, refs,
                     h, k, m, ss.nreal, ss.diverseSetSize, maxIndex, maxIndex');
    if k == h {
      assert FarthestAt(sorted[h..], sorted[..h], ss.nreal, maxIndex') && ss.refSet[h] == sorted[h + maxIndex'] by {
        assert d0[h..m] == sorted[h..] && r0[..k] == sorted[..h];
      }
    }
    assert PoolFrom(ss.diverseSet[..], sorted, h) by {
      ShiftedKeeps(d0, sorted, h, ss.diverseSetSize, h + maxIndex');
    }
    assert PicksFrom(ss.refSet[..], sorted, h, k + 1) && ss.refSet[..k] == r0[..k] by {
      PickedKeeps(r0, ss.refSet[..], sorted, h, k, d0[h + maxIndex']);
    }
  }

  /** What GreedyStep states about one round, read as the next RoundAt. */
  lemma GreedyRoundTrace(ds: seq<seq<Individual>>, idx: seq<int>, r0: seq<Individual>, r': seq<Individual>,
                         d0: seq<Individual>, d': seq<Individual>, pool: seq<Individual>, refs: seq<Individual>,
                         h: nat, k: nat, m: nat, n: nat, L: nat, maxIndex: int, i: int)
    requires GreedyTrace(ds, idx, r0, h, n, L) && |idx| == k - h && ds[|idx|] == d0
    requires |d0| == L && h <= k < |r0| && k < L && m == L - (k - h)
    requires k == h ==> maxIndex == 0
    requires k > h ==> maxIndex == idx[|idx| - 1]
    requires pool == d0[h..m] && refs == r0[..k]
    requires 0 <= i < L - h
    requires FarthestAt(pool, refs, n, 0) ==> i == maxIndex
    requires !FarthestAt(pool, refs, n, 0) ==> 1 <= i < m - h && FarthestAt(pool, refs, n, i)
    requires r' == r0[k := d0[h + i]] && d' == Shifted(d0, L, h + i)
    ensures GreedyTrace(ds + [d'], idx + [i], r', h, n, L)
  {
    assert pool == ds[|idx|][h..L - |idx|] && refs == r0[..h + |idx|];
    assert GreedyRule(ds[|idx|][h..L - |idx|], r0[..h + |idx|], n, if |idx| == 0 then 0 else idx[|idx| - 1], i);
    assert r'[..h + |idx|] == r0[..h + |idx|];
    GreedyTraceStep(ds, idx, r0, r', h, n, L, d', i);
  }

  /** Writing a pool member into slot `k` extends the picks by one. */
  lemma PickedKeeps(r0: seq<Individual>, r: seq<Individual>, sorted: seq<Individual>, h: nat, k: nat, x: Individual)
    requires PicksFrom(r0, sorted, h, k) && k < |r0| && x in sorted[h..] && r == r0[k := x]
    ensures PicksFrom(r, sorted, h, k + 1) && r[..k] == r0[..k]
  {
    assert r[..h] == r0[..h];
  }

  /** A permutation of members of length `n` has members of length `n`. */
  lemma ShapedPermuted(a: seq<Individual>, b: seq<Individual>, n: nat)
    requires multiset(a) == multiset(b) && Shaped(a, n)
    ensures Shaped(b, n)
  {
    forall k | 0 <= k < |b| ensures |b[k].params| == n {
      assert b[k] in multiset(a);
      var j :| 0 <= j < |a| && a[j] == b[k];
    }
  }

  /** The `copy_ind` loop of init_ref_set: the first `h` members. */
  method CopyElite(ss: SSType, h: nat)
    requires ss.Valid() && h <= ss.refSetSize <= ss.diverseSetSize
    modifies ss.refSet
    ensures ss.Valid() && ss.refSet[..h] == ss.diverseSet[..h]
  {
    for i := 0 to h
      invariant ss.Valid() && ss.refSet[..i] == ss.diverseSet[..i]
    {
      var src := ss.diverseSet[i];
      assert ss.diverseSet[..][i] == src;
      assert src.params[..ss.nreal] == src.params;
      CopyInd(ss, ss.refSet, i, src);
    }
  }

  /** Shifting keeps the elite prefix and keeps every pool position holding
      some member of the sorted pool. */
  lemma ShiftedKeeps(d: seq<Individual>, sorted: seq<Individual>, h: nat, n: nat, idx: nat)
    requires |d| == n && h <= idx < n && |sorted| >= h
    requires d[..h] == sorted[..h] && forall t :: h <= t < n ==> d[t] in sorted[h..]
    ensures Shifted(d, n, idx)[..h] == sorted[..h]
    ensures forall t :: h <= t < n ==> Shifted(d, n, idx)[t] in sorted[h..]
  {
    var e := Shifted(d, n, idx);
    forall t | h <= t < n ensures e[t] in sorted[h..] {
      if idx <= t < n - 1 {
        assert e[t] == d[t + 1];
      } else {
        assert e[t] == d[t];
      }
    }
    assert e[..h] == d[..h];
  }
}
