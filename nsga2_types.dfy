/** The NSGA-II records the evaluation and initialisation routines work on:
    an individual (its decision variables, genes, objectives and constraint
    values) and the run's parameters. Only the fields those routines touch
    are kept. */
module NSGA2Types {

  /** One member of a population. `xreal`, `gene`, `obj` and `constr` are
      buffers the C code allocates once; here each is a sequence value that
      the routines replace. `gene[j]` holds the bits of binary variable j. */
  datatype Individual = Individual(
    rank: int,
    constrViolation: real,
    xreal: seq<real>,
    gene: seq<seq<int>>,
    xbin: seq<real>,
    obj: seq<real>,
    constr: seq<real>,
    crowdDist: real)

  /** The counts and bounds of a run: `nreal` real variables bounded by
      `minRealvar`/`maxRealvar`, `nbin` binary variables of `nbits[j]` bits,
      `ncon` constraints and `popsize` individuals. */
  datatype Params = Params(
    nreal: nat,
    nbin: nat,
    nobj: nat,
    ncon: nat,
    popsize: nat,
    nbits: seq<nat>,
    minRealvar: seq<real>,
    maxRealvar: seq<real>)

  /** The buffers of `ind` are as large as the parameters need. */
  predicate Shaped(ind: Individual, p: Params)
  {
    && p.nreal <= |ind.xreal|
    && p.nbin <= |ind.gene|
    && Complete(p)
    && (forall j :: 0 <= j < p.nbin ==> p.nbits[j] <= |ind.gene[j]|)
  }

  /** Every real variable has its bounds and every binary variable its
      bit count. */
  predicate Complete(p: Params)
  {
    p.nreal <= |p.minRealvar| && p.nreal <= |p.maxRealvar| && p.nbin <= |p.nbits|
  }
}
