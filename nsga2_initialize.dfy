/** NSGA-II initialisation: a random population (each real variable drawn
    uniformly between its bounds, each gene bit a fair coin), or a population
    read from a text file, one comma-separated line per individual. */
module NSGA2Initialize {
  import opened NSGA2Types
  import opened Oracle
  import CText
  import Util

  // ---------------------------------------------------------------------
  // Random initialisation
  // ---------------------------------------------------------------------

  /** The bit a uniform draw `u` gives: 0 when `u <= 0.5`, else 1. */
  function Bit(u: real): (b: int)
    ensures b == 0 || b == 1
    ensures b == 0 <==> u <= 0.5
  {
    if u <= 0.5 then 0 else 1
  }

  /** How many bits the first `j` binary variables have together. */
  function BitsBefore(nbits: seq<nat>, j: nat): nat
    requires j <= |nbits|
  {
    if j == 0 then 0 else BitsBefore(nbits, j - 1) + nbits[j - 1]
  }

  /** How many draws `initialize_ind` consumes. */
  function Draws(p: Params): nat
    requires Complete(p)
  {
    p.nreal + BitsBefore(p.nbits, p.nbin)
  }

  /** The real variables once the first `n` are drawn: variable j < n is
      draw number `at + j` scaled to its bounds, the rest are kept. */
  function Reals(xreal: seq<real>, p: Params, n: nat, tape: nat -> real, at: nat): (xs: seq<real>)
    requires Complete(p) && n <= p.nreal
  {
    seq(|xreal|, j requires 0 <= j < |xreal| =>
      if j < n then Draw(p.minRealvar[j], p.maxRealvar[j], tape(at + j)) else xreal[j])
  }

  /** One gene once its first `n` bits are drawn from the draws `at`,
      `at + 1`, ...; the rest are kept. */
  function Row(row: seq<int>, n: nat, tape: nat -> real, at: nat): seq<int>
  {
    seq(|row|, k requires 0 <= k < |row| => if k < n then Bit(tape(at + k)) else row[k])
  }

  /** The genes once the first `n` are drawn, one after the other: gene
      j < n takes its bits from the draws that follow those of the genes
      before it (see `GenesAt`). */
  function Genes(gene: seq<seq<int>>, p: Params, n: nat, tape: nat -> real, at: nat): (g: seq<seq<int>>)
    requires Complete(p) && n <= p.nbin && n <= |gene|
    ensures |g| == |gene|
  {
    if n == 0 then gene
    else Genes(gene, p, n - 1, tape, at)[n - 1 := Row(gene[n - 1], p.nbits[n - 1], tape, at + BitsBefore(p.nbits, n - 1))]
  }

  /** Gene j of the drawn genes: for j < n, its first `nbits[j]` bits are
      the draws that follow the `BitsBefore(nbits, j)` bits of the genes
      before it; the genes from n on are kept. */
  lemma {:induction false} GenesAt(gene: seq<seq<int>>, p: Params, n: nat, tape: nat -> real, at: nat, j: nat)
    requires Complete(p) && n <= p.nbin && n <= |gene| && j < |gene|
    ensures Genes(gene, p, n, tape, at)[j]
            == if j < n then Row(gene[j], p.nbits[j], tape, at + BitsBefore(p.nbits, j)) else gene[j]
  {
    if n > 0 && j != n - 1 {
      GenesAt(gene, p, n - 1, tape, at, j);
    }
  }

  /** The individual `initialize_ind` makes from `ind` when the generator
      stands at draw `at`: first the real variables, then the gene bits. */
  function Initialized(ind: Individual, p: Params, tape: nat -> real, at: nat): Individual
    requires Shaped(ind, p)
  {
    ind.(xreal := Reals(ind.xreal, p, p.nreal, tape, at),
         gene := Genes(ind.gene, p, p.nbin, tape, at + p.nreal))
  }

  /** Every real variable of `ind` lies between its bounds. */
  predicate WithinBounds(ind: Individual, p: Params)
    requires Complete(p)
  {
    p.nreal <= |ind.xreal|
    && forall j :: 0 <= j < p.nreal ==> p.minRealvar[j] <= ind.xreal[j] <= p.maxRealvar[j]
  }

  /** Every bit of every binary variable of `ind` is 0 or 1. */
  predicate BitsOnly(ind: Individual, p: Params)
    requires Complete(p)
  {
    p.nbin <= |ind.gene|
    && forall j :: 0 <= j < p.nbin ==>
         p.nbits[j] <= |ind.gene[j]| && BitRow(ind.gene[j], p.nbits[j])
  }

  /** The first `n` entries of `row` are bits. */
  predicate BitRow(row: seq<int>, n: nat)
  {
    n <= |row| && forall k :: 0 <= k < n ==> row[k] == 0 || row[k] == 1
  }

  /** A drawn gene holds only bits. */
  lemma RowBits(row: seq<int>, n: nat, tape: nat -> real, at: nat)
    requires n <= |row|
    ensures BitRow(Row(row, n, tape, at), n)
  {
    var r := Row(row, n, tape, at);
    forall k | 0 <= k < n
      ensures r[k] == 0 || r[k] == 1
    {
      assert r[k] == Bit(tape(at + k));
    }
  }

  /** The drawn genes hold only bits. */
  lemma GenesAreBits(gene: seq<seq<int>>, p: Params, tape: nat -> real, at: nat)
    requires Complete(p) && p.nbin <= |gene|
    requires forall j :: 0 <= j < p.nbin ==> p.nbits[j] <= |gene[j]|
    ensures forall j :: 0 <= j < p.nbin ==> BitRow(Genes(gene, p, p.nbin, tape, at)[j], p.nbits[j])
  {
    forall j | 0 <= j < p.nbin
      ensures BitRow(Genes(gene, p, p.nbin, tape, at)[j], p.nbits[j])
    {
      GenesAt(gene, p, p.nbin, tape, at, j);
      RowBits(gene[j], p.nbits[j], tape, at + BitsBefore(p.nbits, j));
    }
  }

  /** One more bit of a gene drawn. */
  lemma RowStep(row: seq<int>, k: nat, tape: nat -> real, at: nat)
    requires k < |row|
    ensures Row(row, k, tape, at)[k := Bit(tape(at + k))] == Row(row, k + 1, tape, at)
  {
    var a := Row(row, k, tape, at)[k := Bit(tape(at + k))];
    var b := Row(row, k + 1, tape, at);
    forall m | 0 <= m < |row|
      ensures a[m] == b[m]
    {
      if m < k {
        assert a[m] == Row(row, k, tape, at)[m] == Bit(tape(at + m));
      }
    }
  }

  /** One more real variable drawn. */
  lemma RealsStep(xreal: seq<real>, p: Params, j: nat, tape: nat -> real, at: nat)
    requires Complete(p) && j < p.nreal && j < |xreal|
    ensures Reals(xreal, p, j, tape, at)[j := Draw(p.minRealvar[j], p.maxRealvar[j], tape(at + j))]
            == Reals(xreal, p, j + 1, tape, at)
  {
    var a := Reals(xreal, p, j, tape, at)[j := Draw(p.minRealvar[j], p.maxRealvar[j], tape(at + j))];
    var b := Reals(xreal, p, j + 1, tape, at);
    forall m | 0 <= m < |xreal|
      ensures a[m] == b[m]
    {
      if m < j {
        assert a[m] == Reals(xreal, p, j, tape, at)[m];
      }
    }
  }

  /** The drawn real variables lie between their bounds. */
  lemma RealsInBounds(xreal: seq<real>, p: Params, tape: nat -> real, at: nat)
    requires Complete(p) && p.nreal <= |xreal|
    requires forall k: nat :: 0.0 <= tape(k) <= 1.0
    requires forall j :: 0 <= j < p.nreal ==> p.minRealvar[j] <= p.maxRealvar[j]
    ensures forall j :: 0 <= j < p.nreal ==>
              p.minRealvar[j] <= Reals(xreal, p, p.nreal, tape, at)[j] <= p.maxRealvar[j]
  {
    forall j | 0 <= j < p.nreal
      ensures p.minRealvar[j] <= Reals(xreal, p, p.nreal, tape, at)[j] <= p.maxRealvar[j]
    {
      DrawInRange(p.minRealvar[j], p.maxRealvar[j], tape(at + j));
    }
  }

  /** Every real variable of a randomly initialised individual lies between
      its bounds, and every gene bit is 0 or 1, whatever the draws. */
  lemma InitializedInBounds(ind: Individual, p: Params, tape: nat -> real, at: nat)
    requires Shaped(ind, p)
    requires forall k: nat :: 0.0 <= tape(k) <= 1.0
    requires forall j :: 0 <= j < p.nreal ==> p.minRealvar[j] <= p.maxRealvar[j]
    ensures WithinBounds(Initialized(ind, p, tape, at), p)
    ensures BitsOnly(Initialized(ind, p, tape, at), p)
  {
    RealsInBounds(ind.xreal, p, tape, at);
    GenesAreBits(ind.gene, p, tape, at + p.nreal);
  }

  /** Draw the first `n` bits of one gene. */
  method InitializeRow(row: seq<int>, n: nat, rng: Rng) returns (r: seq<int>)
    requires rng.Valid() && n <= |row|
    modifies rng`pos
    ensures rng.pos == old(rng.pos) + n
    ensures r == Row(row, n, rng.tape, old(rng.pos))
  {
    ghost var at := rng.pos;
    r := row;
    var k := 0;
    while k < n
      invariant k <= n && rng.pos == at + k
      invariant r == Row(row, k, rng.tape, at)
    {
      var u := rng.RandomPerc();
      RowStep(row, k, rng.tape, at);
      if u <= 0.5 {
        r := r[k := 0];
      } else {
        r := r[k := 1];
      }
      k := k + 1;
    }
  }

  /** The loop of `initialize_ind` over the real variables. */
  method InitializeReals(p: Params, xreal: seq<real>, rng: Rng) returns (xs: seq<real>)
    requires rng.Valid() && Complete(p) && p.nreal <= |xreal|
    modifies rng`pos
    ensures rng.pos == old(rng.pos) + p.nreal
    ensures xs == Reals(xreal, p, p.nreal, rng.tape, old(rng.pos))
  {
    ghost var at := rng.pos;
    xs := xreal;
    var j := 0;
    while j < p.nreal
      invariant j <= p.nreal && rng.pos == at + j
      invariant xs == Reals(xreal, p, j, rng.tape, at)
    {
      var x := rng.RndReal(p.minRealvar[j], p.maxRealvar[j]);
      RealsStep(xreal, p, j, rng.tape, at);
      xs := xs[j := x];
      j := j + 1;
    }
  }

  /** The loop of `initialize_ind` over the binary variables. */
  method InitializeGenes(p: Params, gene: seq<seq<int>>, rng: Rng) returns (g: seq<seq<int>>)
    requires rng.Valid() && Complete(p) && p.nbin <= |gene|
    requires forall j :: 0 <= j < p.nbin ==> p.nbits[j] <= |gene[j]|
    modifies rng`pos
    ensures rng.pos == old(rng.pos) + BitsBefore(p.nbits, p.nbin)
    ensures g == Genes(gene, p, p.nbin, rng.tape, old(rng.pos))
  {
    ghost var at := rng.pos;
    g := gene;
    var j := 0;
    while j < p.nbin
      invariant j <= p.nbin && rng.pos == at + BitsBefore(p.nbits, j)
      invariant g == Genes(gene, p, j, rng.tape, at)
    {
      var row := InitializeRow(gene[j], p.nbits[j], rng);
      g := g[j := row];
      j := j + 1;
    }
  }

  /** initialize_ind: draw the real variables, then the gene bits. */
  method InitializeInd(p: Params, ind: Individual, rng: Rng) returns (r: Individual)
    requires rng.Valid() && Shaped(ind, p)
    modifies rng`pos
    ensures rng.pos == old(rng.pos) + Draws(p)
    ensures r == Initialized(ind, p, rng.tape, old(rng.pos))
  {
    var xreal := ind.xreal;
    if p.nreal != 0 {
      xreal := InitializeReals(p, xreal, rng);
    } else {
      assert xreal == Reals(ind.xreal, p, 0, rng.tape, rng.pos);
    }
    var gene := ind.gene;
    if p.nbin != 0 {
      gene := InitializeGenes(p, gene, rng);
    } else {
      assert gene == Genes(ind.gene, p, 0, rng.tape, rng.pos);
    }
    r := ind.(xreal := xreal, gene := gene);
  }

  /** The draw at which individual i of a population starts when the
      first starts at draw `at`: the draws of the i individuals before it
      come after `at` (`i * Draws(p)` of them, by `Util.TimesIsProduct`). */
  function StartOf(p: Params, at: nat, i: nat): nat
    requires Complete(p)
  {
    at + Util.Times(i, Draws(p))
  }

  /** The population `initialize_pop` makes from `inds` when the generator
      stands at draw `at`: individual i takes the `Draws(p)` draws that
      follow those of the i individuals before it. */
  function Population(inds: seq<Individual>, p: Params, tape: nat -> real, at: nat): (r: seq<Individual>)
    requires Complete(p) && forall i :: 0 <= i < |inds| ==> Shaped(inds[i], p)
  {
    seq(|inds|, i requires 0 <= i < |inds| => Initialized(inds[i], p, tape, StartOf(p, at, i)))
  }

  /** Every individual of a random population lies within the bounds and
      has only 0/1 bits. */
  lemma PopulationInBounds(inds: seq<Individual>, p: Params, tape: nat -> real, at: nat)
    requires Complete(p)
    requires forall i :: 0 <= i < |inds| ==> Shaped(inds[i], p)
    requires forall k: nat :: 0.0 <= tape(k) <= 1.0
    requires forall j :: 0 <= j < p.nreal ==> p.minRealvar[j] <= p.maxRealvar[j]
    ensures |Population(inds, p, tape, at)| == |inds|
    ensures forall i :: 0 <= i < |inds| ==>
              WithinBounds(Population(inds, p, tape, at)[i], p) && BitsOnly(Population(inds, p, tape, at)[i], p)
  {
    var r := Population(inds, p, tape, at);
    forall i | 0 <= i < |inds|
      ensures WithinBounds(r[i], p) && BitsOnly(r[i], p)
    {
      InitializedInBounds(inds[i], p, tape, StartOf(p, at, i));
    }
  }

  /** initialize_pop: initialise individuals 0, 1, ..., popsize - 1 in turn. */
  method InitializePop(p: Params, pop: array<Individual>, rng: Rng)
    requires rng.Valid() && Complete(p) && p.popsize <= pop.Length
    requires forall i :: 0 <= i < p.popsize ==> Shaped(pop[i], p)
    modifies pop, rng`pos
    ensures pop[..p.popsize] == Population(old(pop[..p.popsize]), p, rng.tape, old(rng.pos))
    ensures pop[p.popsize..] == old(pop[p.popsize..])
    ensures rng.pos == old(rng.pos) + p.popsize * Draws(p)
  {
    ghost var at := rng.pos;
    ghost var want := Population(pop[..p.popsize], p, rng.tape, at);
    var i := 0;
    while i < p.popsize
      invariant i <= p.popsize && rng.pos == StartOf(p, at, i)
      invariant forall k :: 0 <= k < i ==> pop[k] == want[k]
      invariant forall k :: i <= k < pop.Length ==> pop[k] == old(pop[k])
    {
      assert want[i] == Initialized(old(pop[i]), p, rng.tape, StartOf(p, at, i));
      pop[i] := InitializeInd(p, pop[i], rng);
      i := i + 1;
    }
    Util.TimesIsProduct(p.popsize, Draws(p));
  }

  // ---------------------------------------------------------------------
  // Initialisation from a file
  // ---------------------------------------------------------------------

  /** The delimiters of the first `strtok` call and of the later ones. */
  const First: set<char> := {','}
  const Later: set<char> := {',', '\n'}

  /** The individual `initialize_ind_from_file` makes from `ind` and the
      text `line`: the first `min(nreal, tokens)` real variables are the
      tokens' values, in order; the rest are kept. */
  function FromLine(ind: Individual, nreal: nat, line: string, atof: string -> real): (r: Individual)
    requires nreal <= |ind.xreal|
  {
    var toks := CText.Strtok(line, First, Later);
    ind.(xreal := seq(|ind.xreal|, j requires 0 <= j < |ind.xreal| =>
                        if j < nreal && j < |toks| then atof(toks[j]) else ind.xreal[j]))
  }

  /** The `strtok` loop, `j` values stored, `tok` the current token. */
  predicate Reading(xs: seq<real>, start: seq<real>, toks: seq<string>, tok: string, rest: string,
                    atof: string -> real, j: nat)
  {
    && |xs| == |start| && j <= |toks| && j <= |xs|
    && toks[j..] == (if tok == [] then [] else [tok] + CText.Tokens(rest, Later))
    && (forall m :: 0 <= m < j ==> xs[m] == atof(toks[m]))
    && (forall m :: j <= m < |xs| ==> xs[m] == start[m])
  }

  /** initialize_ind_from_file: store the value of each token, stopping at
      the end of the line or after `nreal` values. */
  method InitializeIndFromFile(nreal: nat, ind: Individual, line: string, atof: string -> real)
    returns (r: Individual)
    requires nreal <= |ind.xreal|
    ensures r == FromLine(ind, nreal, line, atof)
  {
    ghost var toks := CText.Strtok(line, First, Later);
    var xs := ind.xreal;
    var j := 0;
    var tok, rest := CText.NextTok(line, First).0, CText.NextTok(line, First).1;
    while tok != [] && j < nreal
      invariant j <= nreal
      invariant Reading(xs, ind.xreal, toks, tok, rest, atof, j)
      decreases nreal - j
    {
      ReadingStep(xs, ind.xreal, toks, tok, rest, atof, j);
      xs := xs[j := atof(tok)];
      j := j + 1;
      tok, rest := CText.NextTok(rest, Later).0, CText.NextTok(rest, Later).1;
    }
    ReadingDone(xs, ind, nreal, line, tok, rest, atof, j);
    r := ind.(xreal := xs);
  }

  /** One more token stored. */
  lemma ReadingStep(xs: seq<real>, start: seq<real>, toks: seq<string>, tok: string, rest: string,
                    atof: string -> real, j: nat)
    requires Reading(xs, start, toks, tok, rest, atof, j) && tok != [] && j < |xs|
    ensures Reading(xs[j := atof(tok)], start, toks, CText.NextTok(rest, Later).0,
                    CText.NextTok(rest, Later).1, atof, j + 1)
  {
    assert toks[j] == tok && toks[j + 1..] == CText.Tokens(rest, Later);
  }

  /** The loop ends at the end of the line or after `nreal` values, and
      then the individual is the one `FromLine` describes. */
  lemma ReadingDone(xs: seq<real>, ind: Individual, nreal: nat, line: string, tok: string, rest: string,
                    atof: string -> real, j: nat)
    requires nreal <= |ind.xreal| && j <= nreal
    requires Reading(xs, ind.xreal, CText.Strtok(line, First, Later), tok, rest, atof, j)
    requires tok == [] || j == nreal
    ensures ind.(xreal := xs) == FromLine(ind, nreal, line, atof)
  {
    var toks := CText.Strtok(line, First, Later);
    assert j == nreal || j == |toks|;
    var want := FromLine(ind, nreal, line, atof).xreal;
    assert forall m :: 0 <= m < |xs| ==> xs[m] == want[m];
  }

  /** A field of a population file line: nonempty, without comma or
      newline. */
  predicate Field(t: string)
  {
    t != [] && forall k :: 0 <= k < |t| ==> t[k] != ',' && t[k] != '\n'
  }

  /** Fields separated by commas. */
  function Commas(ts: seq<string>): string
    decreases |ts|
  {
    if ts == [] then [] else if |ts| == 1 then ts[0] else ts[0] + [','] + Commas(ts[1..])
  }

  /** The later `strtok` calls, which also stop at the newline, give back
      the fields of a comma-separated line. */
  lemma {:induction false} CommasTokens(ts: seq<string>)
    requires forall i :: 0 <= i < |ts| ==> Field(ts[i])
    ensures CText.Tokens(Commas(ts) + ['\n'], Later) == ts
    decreases |ts|
  {
    if ts == [] {
      assert Commas(ts) + ['\n'] == ['\n'] && ['\n'][1..] == [];
    } else if |ts| == 1 {
      assert Commas(ts) + ['\n'] == ts[0] + ['\n'];
      CText.TokensFirst(ts[0], ['\n'], Later);
      assert ['\n'][1..] == [];
    } else {
      var rest := Commas(ts[1..]) + ['\n'];
      assert Commas(ts) + ['\n'] == ts[0] + [','] + rest by {
        Util.ConcatAssoc(ts[0] + [','], Commas(ts[1..]), ['\n']);
      }
      CText.TokensCons(ts[0], ',', rest, Later);
      CommasTokens(ts[1..]);
    }
  }

  /** A line made of a first field, a comma, then text whose later tokens
      are the remaining fields. */
  lemma StrtokHead(line: string, rest: string, ts: seq<string>)
    requires ts != [] && line == ts[0] + [','] + rest
    requires Field(ts[0]) && CText.Tokens(rest, Later) == ts[1..]
    ensures CText.Strtok(line, First, Later) == ts
  {
    assert forall k :: 0 <= k < |ts[0]| ==> ts[0][k] !in First;
    CText.StrtokCons(ts[0], ',', rest, First, Later);
    assert [ts[0]] + ts[1..] == ts;
  }

  /** The line of two or more fields opens with the first field and a comma. */
  lemma CommasHead(ts: seq<string>)
    requires |ts| >= 2
    ensures Commas(ts) + ['\n'] == ts[0] + [','] + (Commas(ts[1..]) + ['\n'])
  {
    Util.ConcatAssoc(ts[0] + [','], Commas(ts[1..]), ['\n']);
  }

  /** A population file line of two or more fields gives back those
      fields as its tokens. */
  lemma CommaLineTokens(ts: seq<string>)
    requires |ts| >= 2 && forall i :: 0 <= i < |ts| ==> Field(ts[i])
    ensures CText.Strtok(Commas(ts) + ['\n'], First, Later) == ts
  {
    CommasHead(ts);
    CommasTokens(ts[1..]);
    StrtokHead(Commas(ts) + ['\n'], Commas(ts[1..]) + ['\n'], ts);
  }

  /** A line of a single field keeps its newline in its one token, because
      the first `strtok` call stops at commas only; an empty line is a
      single newline token. */
  lemma LoneFieldKeepsNewline(t: string)
    requires Field(t)
    ensures CText.Strtok(t + ['\n'], First, Later) == [t + ['\n']]
    ensures CText.Strtok(['\n'], First, Later) == [['\n']]
  {
    CText.StrtokWhole(t + ['\n'], First, Later);
    CText.StrtokWhole(['\n'], First, Later);
  }

  /** Reading a line of two or more comma-separated fields stores the
      value of field j in real variable j, for every j below both `nreal`
      and the number of fields, and keeps the other variables. */
  lemma ReadsCommaLine(ind: Individual, nreal: nat, ts: seq<string>, atof: string -> real)
    requires nreal <= |ind.xreal| && |ts| >= 2
    requires forall i :: 0 <= i < |ts| ==> Field(ts[i])
    ensures forall j :: 0 <= j < |ind.xreal| ==>
              FromLine(ind, nreal, Commas(ts) + ['\n'], atof).xreal[j]
              == if j < nreal && j < |ts| then atof(ts[j]) else ind.xreal[j]
  {
    CommaLineTokens(ts);
  }

  /** Every individual has room for `nreal` real variables. */
  predicate Fits(inds: seq<Individual>, nreal: nat)
  {
    forall i :: 0 <= i < |inds| ==> nreal <= |inds[i].xreal|
  }

  /** The population `initialize_pop_from_file` reads: individual i < n
      takes line i, where n is the smaller of `popsize` and the number of
      lines; the others are kept. */
  function FromLines(inds: seq<Individual>, popsize: nat, nreal: nat, lines: seq<string>,
                     atof: string -> real): (r: seq<Individual>)
    requires Fits(inds, nreal)
  {
    seq(|inds|, i requires 0 <= i < |inds| =>
      if i < popsize && i < |lines| then FromLine(inds[i], nreal, lines[i], atof) else inds[i])
  }

  /** The line loop of initialize_pop_from_file, over the lines the file
      holds. */
  method InitializePopFromFile(p: Params, pop: array<Individual>, lines: seq<string>,
                               atof: string -> real)
    requires p.popsize <= pop.Length && Fits(pop[..], p.nreal)
    modifies pop
    ensures pop[..] == FromLines(old(pop[..]), p.popsize, p.nreal, lines, atof)
  {
    ghost var start := pop[..];
    ghost var want := FromLines(start, p.popsize, p.nreal, lines, atof);
    var i := 0;
    while i < |lines| && i < p.popsize
      invariant i <= p.popsize && i <= |lines|
      invariant forall k :: 0 <= k < i ==> pop[k] == want[k]
      invariant forall k :: i <= k < pop.Length ==> pop[k] == start[k]
    {
      assert pop[i] == start[i] && p.nreal <= |start[i].xreal|;
      assert want[i] == FromLine(start[i], p.nreal, lines[i], atof);
      pop[i] := InitializeIndFromFile(p.nreal, pop[i], lines[i], atof);
      i := i + 1;
    }
    assert forall k :: i <= k < pop.Length ==> want[k] == start[k];
  }
}
