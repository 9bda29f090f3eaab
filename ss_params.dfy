/** The Scatter Search parameter record `SSType`.

    Settings read from the parameter file and the storage the engine works
    in never change during a run, so they are `const`; the sub-region
    matrices, the list sizes and the statistics counters are updated in
    place and are `var`. The arrays are created by the constructor, which
    stands for the allocation done in ss/allocate.c, ss/ss.c:50-60 and
    ss/ss.c:99-109. */
module SSParams {
  import opened SSTypes

  class SSType {
    /** number of parameters of an individual */
    const nreal: nat
    /** number of sub-regions each parameter interval is cut into */
    const p: nat
    /** `b`, the size of the reference set */
    const refSetSize: nat
    /** `b / 2` elite members */
    const maxElite: nat
    /** `m`, the size of the diverse (scatter) set */
    const diverseSetSize: nat
    const maxIter: int
    const maxNoImprove: int
    const stepSize: real
    const distEpsilon: real
    const fitnessEpsilon: real
    const performLocalSearch: bool
    /** whether the program was built with `STATS` defined: the frequency
        updates of ss/update.c and ss/refine.c are compiled only then */
    const stats: bool
    const minRealVar: seq<real>
    const maxRealVar: seq<real>

    const refSet: array<Individual>
    const diverseSet: array<Individual>
    /** `b * b` slots, one pair each */
    const subsetsList: array<Pair>
    /** `b * b * 6` slots */
    const candidatesSet: array<Individual>

    var minBoundary: seq<seq<real>>
    var maxBoundary: seq<seq<real>>
    var freqs: seq<seq<int>>
    var probs: seq<seq<real>>

    var subsetsListSize: int
    var candidatesSetSize: int

    var nRefinement: int
    var nRefSetUpdate: int
    var nDuplicates: int
    var nFlatzoneDetected: int
    var nFunctionEvals: int

    /** The fixed part of the record is consistent: bound vectors of length
        `nreal`, arrays of their documented capacities, no two sets sharing
        storage, and every stored individual of length `nreal`. */
    ghost predicate Valid()
      reads refSet, diverseSet, subsetsList, candidatesSet
    {
      && |minRealVar| == nreal && |maxRealVar| == nreal
      && refSet.Length == refSetSize
      && diverseSet.Length == diverseSetSize
      && subsetsList.Length == refSetSize * refSetSize
      && candidatesSet.Length == refSetSize * refSetSize * 6
      && maxElite == refSetSize / 2
      && refSet != diverseSet && refSet != candidatesSet && diverseSet != candidatesSet
      && Shaped(refSet[..], nreal) && Shaped(diverseSet[..], nreal) && Shaped(candidatesSet[..], nreal)
      && PairsShaped(subsetsList[..], nreal)
    }

    /** Every lower bound is at most its upper bound. */
    predicate BoundsOrdered()
    {
      |minRealVar| == |maxRealVar| && forall i :: 0 <= i < |minRealVar| ==> minRealVar[i] <= maxRealVar[i]
    }

    /** The boundary, frequency and probability matrices are `nreal x p`,
        and every frequency is positive. */
    ghost predicate Matrices()
      reads this
    {
      && |minBoundary| == nreal && |maxBoundary| == nreal && |freqs| == nreal && |probs| == nreal
      && (forall i :: 0 <= i < nreal ==>
            |minBoundary[i]| == p && |maxBoundary[i]| == p && |freqs[i]| == p && |probs[i]| == p)
      && (forall i, j :: 0 <= i < nreal && 0 <= j < p ==> freqs[i][j] >= 1)
    }

    constructor (nreal: nat, p: nat, refSetSize: nat, diverseSetSize: nat,
                 maxIter: int, maxNoImprove: int, stepSize: real,
                 distEpsilon: real, fitnessEpsilon: real, performLocalSearch: bool, stats: bool,
                 minRealVar: seq<real>, maxRealVar: seq<real>)
      requires |minRealVar| == nreal && |maxRealVar| == nreal
      ensures Valid()
      ensures this.nreal == nreal && this.p == p && this.refSetSize == refSetSize
      ensures this.diverseSetSize == diverseSetSize && this.maxIter == maxIter
      ensures this.maxNoImprove == maxNoImprove && this.stepSize == stepSize
      ensures this.distEpsilon == distEpsilon && this.fitnessEpsilon == fitnessEpsilon
      ensures this.performLocalSearch == performLocalSearch && this.stats == stats
      ensures this.minRealVar == minRealVar && this.maxRealVar == maxRealVar
      ensures fresh(refSet) && fresh(diverseSet) && fresh(subsetsList) && fresh(candidatesSet)
    {
      this.nreal := nreal;
      this.p := p;
      this.refSetSize := refSetSize;
      this.maxElite := refSetSize / 2;
      this.diverseSetSize := diverseSetSize;
      this.maxIter := maxIter;
      this.maxNoImprove := maxNoImprove;
      this.stepSize := stepSize;
      this.distEpsilon := distEpsilon;
      this.fitnessEpsilon := fitnessEpsilon;
      this.performLocalSearch := performLocalSearch;
      this.stats := stats;
      this.minRealVar := minRealVar;
      this.maxRealVar := maxRealVar;
      var blank := Individual(seq(nreal, _ => 0.0), 0.0);
      refSet := new Individual[refSetSize](_ => blank);
      diverseSet := new Individual[diverseSetSize](_ => blank);
      subsetsList := new Pair[refSetSize * refSetSize](_ => Pair(blank, blank));
      candidatesSet := new Individual[refSetSize * refSetSize * 6](_ => blank);
    }
  }
}
