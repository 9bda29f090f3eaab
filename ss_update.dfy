/** ss/update.c: admitting candidates into the reference set
    (`update_ref_set`) and enumerating the pairs to recombine
    (`select_subsets_list`). */
module SSUpdate {
  import opened Util
  import opened SSTypes
  import opened SSParams
  import opened SSTools
  import SSSort
  import SSStats
  import SSInit

  // ---------------------------------------------------------------------------
  // update_ref_set

  /** What the admission loop does with one candidate `c`: a candidate
      near-equal to none of `ref[.. |ref|-1)` is new; one near-equal to
      `ref[d]` (the highest such `d`) replaces it only when it improves on
      its cost by the relative margin `feps`; otherwise it is rejected. */
  datatype Outcome = New | Replaced(d: nat) | Rejected

  function Classify(ref: seq<Individual>, c: Individual, n: nat, eps: real, feps: real): (o: Outcome)
    requires |ref| >= 1 && Shaped(ref, n) && |c.params| == n
    ensures o.Replaced? ==> o.d < |ref| - 1
  {
    var d := ExistIndex(ref, c, n, |ref| - 1, eps);
    if d == -1 then New
    else if c.cost < ref[d].cost * (1.0 - feps) then Replaced(d)
    else Rejected
  }

  /** Inserting keeps every member's dimension. */
  lemma InsertedShaped(t: seq<Individual>, b: nat, n: nat)
    requires 1 <= b <= |t| && Shaped(t, n)
    ensures Shaped(SSSort.Inserted(t, b), n)
  {
    SSSort.InsertedPermutes(t, b);
    SSInit.ShapedPermuted(t, SSSort.Inserted(t, b), n);
  }

  /** The reference set after one pass of the admission loop. */
  function AdmitStep(ref: seq<Individual>, c: Individual, n: nat, eps: real, feps: real): (r: seq<Individual>)
    requires |ref| >= 1 && Shaped(ref, n) && |c.params| == n
    ensures |r| == |ref| && Shaped(r, n)
  {
    match Classify(ref, c, n, eps, feps)
    case New =>
      var t := ref[|ref| - 1 := c];
      InsertedShaped(t, |t|, n);
      SSSort.Inserted(t, |t|)
    case Replaced(d) => ref[d := c]
    case Rejected => ref
  }

  /** The admission loop from candidate `i` on: it runs while a candidate
      is left and beats the worst member `ref[|ref|-1]`. The second
      component lists the admitted candidates in order: each is counted in
      `n_ref_set_update` and, under `STATS`, in the frequency matrix. */
  function AdmitFrom(ref: seq<Individual>, cands: seq<Individual>, i: nat, size: nat, n: nat, eps: real, feps: real)
    : (r: (seq<Individual>, seq<Individual>))
    requires |ref| >= 1 && Shaped(ref, n) && size <= |cands| && Shaped(cands, n) && i <= |cands|
    ensures |r.0| == |ref| && Shaped(r.0, n) && Shaped(r.1, n)
    decreases |cands| - i
  {
    if i < size && cands[i].cost < ref[|ref| - 1].cost then
      var t := AdmitFrom(AdmitStep(ref, cands[i], n, eps, feps), cands, i + 1, size, n, eps, feps);
      (t.0, Admitted(ref, cands[i], n, eps, feps) + t.1)
    else (ref, [])
  }

  /** The candidate `c` as one pass of the admission loop lists it: once
      when it is admitted, not at all when it is rejected. */
  function Admitted(ref: seq<Individual>, c: Individual, n: nat, eps: real, feps: real): (r: seq<Individual>)
    requires |ref| >= 1 && Shaped(ref, n) && |c.params| == n
    ensures Shaped(r, n)
  {
    if Classify(ref, c, n, eps, feps).Rejected? then [] else [c]
  }

  /** Only candidates from `cands[i .. size)` are admitted, each at most
      once and in candidate order; nothing is admitted from `i >= size` on. */
  lemma {:induction false} AdmittedFromCandidates(ref: seq<Individual>, cands: seq<Individual>, i: nat, size: nat,
                                                  n: nat, eps: real, feps: real)
    requires |ref| >= 1 && Shaped(ref, n) && size <= |cands| && Shaped(cands, n) && i <= |cands|
    ensures var r := AdmitFrom(ref, cands, i, size, n, eps, feps);
            && (size <= i ==> r.1 == [])
            && (i <= size ==> |r.1| <= size - i && multiset(r.1) <= multiset(cands[i..size]))
    decreases |cands| - i
  {
    if i < size && cands[i].cost < ref[|ref| - 1].cost {
      var ref' := AdmitStep(ref, cands[i], n, eps, feps);
      var t := AdmitFrom(ref', cands, i + 1, size, n, eps, feps);
      AdmittedFromCandidates(ref', cands, i + 1, size, n, eps, feps);
      var a := Admitted(ref, cands[i], n, eps, feps);
      assert AdmitFrom(ref, cands, i, size, n, eps, feps).1 == a + t.1;
      OneMoreAdmitted(a, t.1, cands, i, size);
    } else {
      AdmitFromStops(ref, cands, i, size, n, eps, feps);
    }
  }

  lemma OneMoreAdmitted(a: seq<Individual>, t: seq<Individual>, cands: seq<Individual>, i: nat, size: nat)
    requires i < size <= |cands| && (a == [] || a == [cands[i]])
    requires |t| <= size - i - 1 && multiset(t) <= multiset(cands[i + 1..size])
    ensures |a + t| <= size - i && multiset(a + t) <= multiset(cands[i..size])
  {
    assert multiset(a + t) == multiset(a) + multiset(t);
    assert cands[i..size] == [cands[i]] + cands[i + 1..size];
    assert multiset(cands[i..size]) == multiset{cands[i]} + multiset(cands[i + 1..size]);
  }

  /** The first candidate replaces `ref[0]` outright when it is cheaper. */
  function SlotZero(ref: seq<Individual>, cands: seq<Individual>): (r: seq<Individual>)
    requires |ref| >= 1 && |cands| >= 1
  {
    if cands[0].cost < ref[0].cost then ref[0 := cands[0]] else ref
  }

  /** The whole of update_ref_set on values: the new reference set and the
      candidates the loop admitted (the overwrite of slot 0 is neither
      counted nor added to the frequencies). */
  function UpdatedRefSet(ref: seq<Individual>, cands: seq<Individual>, size: nat, n: nat, eps: real, feps: real)
    : (r: (seq<Individual>, seq<Individual>))
    requires |ref| >= 1 && Shaped(ref, n) && 1 <= |cands| && size <= |cands| && Shaped(cands, n)
    ensures |r.0| == |ref| && Shaped(r.0, n) && Shaped(r.1, n)
  {
    AdmitFrom(SlotZero(ref, cands), cands, if cands[0].cost < ref[0].cost then 1 else 0, size, n, eps, feps)
  }

  /** Replacing `ref[0]` by a cheaper candidate keeps a sorted set sorted;
      the old best is gone unless it occurs elsewhere. */
  lemma SlotZeroKeepsSorted(ref: seq<Individual>, cands: seq<Individual>)
    requires |ref| >= 1 && |cands| >= 1 && SortedByCost(ref)
    ensures SortedByCost(SlotZero(ref, cands))
    ensures cands[0].cost < ref[0].cost ==> SlotZero(ref, cands)[0] == cands[0]
  {
  }

  /** Each admitted candidate overwrites exactly one slot, the last one for
      a new candidate and the duplicate for a replacement; a rejected one
      changes nothing. A new candidate admitted into a sorted set leaves it
      sorted. */
  lemma AdmitStepOverwritesOne(ref: seq<Individual>, c: Individual, n: nat, eps: real, feps: real)
    requires |ref| >= 1 && Shaped(ref, n) && |c.params| == n
    ensures var r := AdmitStep(ref, c, n, eps, feps);
      match Classify(ref, c, n, eps, feps)
      case New =>
        && multiset(r) == multiset(ref) - multiset{ref[|ref| - 1]} + multiset{c}
        && (SortedByCost(ref) ==> SortedByCost(r))
      case Replaced(d) =>
        && multiset(r) == multiset(ref) - multiset{ref[d]} + multiset{c}
        && IsEqual(ref[d], c, n, eps) && c.cost < ref[d].cost * (1.0 - feps)
      case Rejected => r == ref
  {
    var last := |ref| - 1;
    match Classify(ref, c, n, eps, feps)
    case New =>
      InsertedOverwritesLast(ref, c);
    case Replaced(d) =>
      UpdateMultiset(ref, d, c);
    case Rejected =>
  }

  /** Writing `c` over the last member and inserting it: one slot
      overwritten, and sortedness kept. */
  lemma InsertedOverwritesLast(ref: seq<Individual>, c: Individual)
    requires |ref| >= 1
    ensures var t := ref[|ref| - 1 := c];
      && multiset(SSSort.Inserted(t, |t|)) == multiset(ref) - multiset{ref[|ref| - 1]} + multiset{c}
      && (SortedByCost(ref) ==> SortedByCost(SSSort.Inserted(t, |t|)))
  {
    var last := |ref| - 1;
    var t := ref[last := c];
    SSSort.InsertedPermutes(t, |t|);
    UpdateMultiset(ref, last, c);
    if SortedByCost(ref) {
      assert t[..last] == ref[..last];
      SSSort.InsertedSorted(t, |t|);
      assert SSSort.Inserted(t, |t|)[..|t|] == SSSort.Inserted(t, |t|);
    }
  }

  lemma UpdateMultiset(s: seq<Individual>, k: nat, x: Individual)
    requires k < |s|
    ensures multiset(s[k := x]) == multiset(s) - multiset{s[k]} + multiset{x}
  {
    assert s == s[..k] + [s[k]] + s[k + 1..];
    assert s[k := x] == s[..k] + [x] + s[k + 1..];
  }

  /** A replaced duplicate is not re-sorted: a sorted set can come out
      unsorted. With `ref` costs 1, 5, 9 at positions 0, 10, 20 and a
      candidate at 10 with cost 0.5, the candidate replaces the middle
      member and lands behind a member of cost 1. */
  lemma ReplacementCanUnsort()
    ensures var ref := [Individual([0.0], 1.0), Individual([10.0], 5.0), Individual([20.0], 9.0)];
            var c := Individual([10.0], 0.5);
            && SortedByCost(ref)
            && Classify(ref, c, 1, 1.0, 0.0) == Replaced(1)
            && !SortedByCost(AdmitStep(ref, c, 1, 1.0, 0.0))
  {
    var ref := [Individual([0.0], 1.0), Individual([10.0], 5.0), Individual([20.0], 9.0)];
    var c := Individual([10.0], 0.5);
    assert SqDist(ref[1].params, c.params, 1) == 0.0;
    assert IsEqual(ref[1], c, 1, 1.0);
    assert ExistIndex(ref, c, 1, 2, 1.0) == 1;
    var r := AdmitStep(ref, c, 1, 1.0, 0.0);
    assert r[0].cost == 1.0 && r[1].cost == 0.5;
  }

  /** The part of `Valid` the admission loop relies on and keeps. */
  ghost predicate Admissible(ss: SSType)
    reads ss.refSet, ss.candidatesSet
  {
    && ss.refSet.Length == ss.refSetSize >= 1 && ss.refSet != ss.candidatesSet
    && Shaped(ss.refSet[..], ss.nreal) && Shaped(ss.candidatesSet[..], ss.nreal)
  }

  /** One pass of the admission loop for candidate `c`. */
  method AdmitOne(ss: SSType, c: Individual)
    requires Admissible(ss) && ss.Matrices() && |c.params| == ss.nreal
    modifies ss.refSet, ss`nRefSetUpdate, ss`freqs
    ensures Admissible(ss) && ss.Matrices() && SSInit.FreqsAtLeast(old(ss.freqs), ss.freqs)
    ensures ss.refSet[..] == AdmitStep(old(ss.refSet[..]), c, ss.nreal, ss.distEpsilon, ss.fitnessEpsilon)
    ensures var admitted := Admitted(old(ss.refSet[..]), c, ss.nreal, ss.distEpsilon, ss.fitnessEpsilon);
            && ss.nRefSetUpdate == old(ss.nRefSetUpdate) + |admitted|
            && ss.freqs == SSStats.Tallied(ss.stats, old(ss.freqs), admitted, ss.minBoundary, ss.maxBoundary)
  {
    var b := ss.refSetSize;
    var duplicateIndex := IsExist(ss, ss.refSet, b - 1, c);
    StepCases(ss.refSet[..], c, ss.nreal, ss.distEpsilon, ss.fitnessEpsilon, duplicateIndex);
    if duplicateIndex == -1 {
      AdmitNew(ss, c);
    } else if c.cost < ss.refSet[duplicateIndex].cost * (1.0 - ss.fitnessEpsilon) {
      AdmitReplacement(ss, c, duplicateIndex);
    } else {
      SSInit.FreqsTrans(old(ss.freqs), ss.freqs, ss.freqs);
    }
  }

  /** The three branches of one admission pass, keyed on the duplicate
      index `d` that is_exist returns. */
  lemma StepCases(ref: seq<Individual>, c: Individual, n: nat, eps: real, feps: real, d: int)
    requires |ref| >= 1 && Shaped(ref, n) && |c.params| == n && d == ExistIndex(ref, c, n, |ref| - 1, eps)
    ensures d == -1 ==> (Classify(ref, c, n, eps, feps) == New
              && AdmitStep(ref, c, n, eps, feps) == SSSort.Inserted(ref[|ref| - 1 := c], |ref|))
    ensures d >= 0 && c.cost < ref[d].cost * (1.0 - feps) ==> (Classify(ref, c, n, eps, feps) == Replaced(d)
              && AdmitStep(ref, c, n, eps, feps) == ref[d := c])
    ensures d >= 0 && !(c.cost < ref[d].cost * (1.0 - feps)) ==> (Classify(ref, c, n, eps, feps) == Rejected
              && AdmitStep(ref, c, n, eps, feps) == ref)
  {
  }

  /** A candidate without duplicate: copied into the last slot, inserted
      in cost order, counted, and its coordinates added to the frequencies
      when statistics are on. */
  method AdmitNew(ss: SSType, c: Individual)
    requires ss.refSet.Length == ss.refSetSize >= 1 && Shaped(ss.refSet[..], ss.nreal)
    requires ss.Matrices() && |c.params| == ss.nreal
    modifies ss.refSet, ss`nRefSetUpdate, ss`freqs
    ensures Shaped(ss.refSet[..], ss.nreal) && ss.Matrices() && SSInit.FreqsAtLeast(old(ss.freqs), ss.freqs)
    ensures ss.freqs == SSStats.Tallied(ss.stats, old(ss.freqs), [c], ss.minBoundary, ss.maxBoundary)
    ensures ss.refSet[..] == SSSort.Inserted(old(ss.refSet[..])[ss.refSetSize - 1 := c], ss.refSetSize)
    ensures ss.nRefSetUpdate == old(ss.nRefSetUpdate) + 1
  {
    InsertLast(ss, c);
    ss.nRefSetUpdate := ss.nRefSetUpdate + 1;
    CountFrequencies(ss, c);
  }

  /** `copy_ind` into the last slot followed by `insertion_sort`. */
  method InsertLast(ss: SSType, c: Individual)
    requires ss.refSet.Length == ss.refSetSize >= 1 && Shaped(ss.refSet[..], ss.nreal) && |c.params| == ss.nreal
    modifies ss.refSet
    ensures Shaped(ss.refSet[..], ss.nreal)
    ensures ss.refSet[..] == SSSort.Inserted(old(ss.refSet[..])[ss.refSetSize - 1 := c], ss.refSetSize)
  {
    var b := ss.refSetSize;
    ghost var t := ss.refSet[..][b - 1 := c];
    assert Individual(c.params[..ss.nreal], c.cost) == c by {
      assert c.params[..ss.nreal] == c.params;
    }
    InsertedShaped(t, b, ss.nreal);
    CopyInd(ss, ss.refSet, b - 1, c);
    assert ss.refSet[..] == t;
    SSSort.InsertionSort(ss, ss.refSet, b, 'c');
  }

  /** The `#ifdef STATS` frequency update of an admitted candidate. */
  method CountFrequencies(ss: SSType, c: Individual)
    requires ss.Matrices() && |c.params| == ss.nreal
    modifies ss`freqs
    ensures ss.Matrices() && SSInit.FreqsAtLeast(old(ss.freqs), ss.freqs)
    ensures ss.freqs == SSStats.Tallied(ss.stats, old(ss.freqs), [c], ss.minBoundary, ss.maxBoundary)
  {
    SSStats.CountedOne(ss.freqs, c, ss.minBoundary, ss.maxBoundary);
    if ss.stats {
      SSStats.UpdateFrequencyMatrix(ss, c);
    } else {
      SSInit.FreqsTrans(ss.freqs, ss.freqs, ss.freqs);
    }
  }

  /** A duplicate `ref[d]` improved upon: overwritten in place, counted, and
      its coordinates added to the frequencies when statistics are on. */
  method AdmitReplacement(ss: SSType, c: Individual, d: nat)
    requires ss.refSet.Length == ss.refSetSize && d < ss.refSetSize && Shaped(ss.refSet[..], ss.nreal)
    requires ss.Matrices() && |c.params| == ss.nreal
    modifies ss.refSet, ss`nRefSetUpdate, ss`freqs
    ensures Shaped(ss.refSet[..], ss.nreal) && ss.Matrices() && SSInit.FreqsAtLeast(old(ss.freqs), ss.freqs)
    ensures ss.freqs == SSStats.Tallied(ss.stats, old(ss.freqs), [c], ss.minBoundary, ss.maxBoundary)
    ensures ss.refSet[..] == old(ss.refSet[..])[d := c]
    ensures ss.nRefSetUpdate == old(ss.nRefSetUpdate) + 1
  {
    assert c.params[..ss.nreal] == c.params;
    CopyInd(ss, ss.refSet, d, c);
    ss.nRefSetUpdate := ss.nRefSetUpdate + 1;
    CountFrequencies(ss, c);
  }

  /** update_ref_set, with the admission loop also stopped once the
      `candidates_set_size` candidates are used up. */
  method UpdateRefSet(ss: SSType)
    requires ss.Valid() && ss.Matrices() && ss.refSetSize >= 1
    requires 0 <= ss.candidatesSetSize <= ss.candidatesSet.Length
    modifies ss.refSet, ss`nRefSetUpdate, ss`freqs
    ensures ss.Valid() && ss.Matrices() && SSInit.FreqsAtLeast(old(ss.freqs), ss.freqs)
    ensures var r := UpdatedRefSet(old(ss.refSet[..]), ss.candidatesSet[..], ss.candidatesSetSize,
                                   ss.nreal, ss.distEpsilon, ss.fitnessEpsilon);
            && ss.refSet[..] == r.0 && ss.nRefSetUpdate == old(ss.nRefSetUpdate) + |r.1|
            && ss.freqs == SSStats.Tallied(ss.stats, old(ss.freqs), r.1, ss.minBoundary, ss.maxBoundary)
  {
    var i := ReplaceBest(ss);
    AdmitLoop(ss, i, ss.candidatesSet[..]);
  }

  /** The `while` loop of update_ref_set from candidate `i` on. */
  method AdmitLoop(ss: SSType, i0: nat, ghost cands: seq<Individual>)
    requires Admissible(ss) && ss.Matrices() && cands == ss.candidatesSet[..]
    requires 0 <= ss.candidatesSetSize <= |cands| && i0 <= |cands|
    modifies ss.refSet, ss`nRefSetUpdate, ss`freqs
    ensures Admissible(ss) && ss.Matrices() && SSInit.FreqsAtLeast(old(ss.freqs), ss.freqs)
    ensures var r := AdmitFrom(old(ss.refSet[..]), cands, i0, ss.candidatesSetSize,
                               ss.nreal, ss.distEpsilon, ss.fitnessEpsilon);
            && ss.refSet[..] == r.0 && ss.nRefSetUpdate == old(ss.nRefSetUpdate) + |r.1|
            && ss.freqs == SSStats.Tallied(ss.stats, old(ss.freqs), r.1, ss.minBoundary, ss.maxBoundary)
  {
    ghost var target := AdmitFrom(ss.refSet[..], cands, i0, ss.candidatesSetSize,
                                  ss.nreal, ss.distEpsilon, ss.fitnessEpsilon);
    ProgressStarts(ss.refSet[..], ss.freqs, ss.nRefSetUpdate, ss.stats, ss.minBoundary, ss.maxBoundary,
                   cands, i0, ss.candidatesSetSize, ss.nreal, ss.distEpsilon, ss.fitnessEpsilon);
    ghost var f0, count0 := ss.freqs, ss.nRefSetUpdate;
    var i, admitted := AdmitWhile(ss, i0, cands, target, f0, count0);
    ProgressEnds(ss.refSet[..], ss.freqs, ss.nRefSetUpdate, ss.stats, ss.minBoundary, ss.maxBoundary,
                 cands, i, ss.candidatesSetSize, ss.nreal, ss.distEpsilon, ss.fitnessEpsilon,
                 admitted, target, f0, count0);
  }

  /** The loop of update_ref_set: candidates are admitted while they beat
      the worst member. */
  method AdmitWhile(ss: SSType, i0: nat, ghost cands: seq<Individual>, ghost target: (seq<Individual>, seq<Individual>),
                    ghost f0: seq<seq<int>>, ghost count0: int)
    returns (i: nat, ghost admitted: seq<Individual>)
    requires cands == ss.candidatesSet[..] && i0 <= |cands|
    requires Admitting(ss, cands, i0, [], target, f0, count0)
    modifies ss.refSet, ss`nRefSetUpdate, ss`freqs
    ensures Admitting(ss, cands, i, admitted, target, f0, count0)
    ensures var ref := ss.refSet[..]; !(i < ss.candidatesSetSize && cands[i].cost < ref[|ref| - 1].cost)
  {
    var b := ss.refSetSize;
    i := i0;
    admitted := [];
    while i < ss.candidatesSetSize && ss.candidatesSet[i].cost < ss.refSet[b - 1].cost
      invariant i0 <= i <= |cands| && cands == ss.candidatesSet[..]
      invariant Admitting(ss, cands, i, admitted, target, f0, count0)
      decreases |cands| - i
    {
      admitted := AdmitNext(ss, i, cands, admitted, target, f0, count0);
      i := i + 1;
    }
    assert ss.refSet[..][b - 1] == ss.refSet[b - 1];
  }

  /** The loop stops once no candidate is left or the next one does not
      beat the worst member. */
  lemma AdmitFromStops(ref: seq<Individual>, cands: seq<Individual>, i: nat, size: nat, n: nat, eps: real, feps: real)
    requires |ref| >= 1 && Shaped(ref, n) && size <= |cands| && Shaped(cands, n) && i <= |cands|
    requires !(i < size && cands[i].cost < ref[|ref| - 1].cost)
    ensures AdmitFrom(ref, cands, i, size, n, eps, feps) == (ref, [])
  {
  }

  /** The state of update_ref_set before candidate `i`: the candidates
      `admitted` so far are counted and (under `STATS`) tallied, and what
      is left of the loop ends in `target`. */
  ghost predicate Admitting(ss: SSType, cands: seq<Individual>, i: nat, admitted: seq<Individual>,
                            target: (seq<Individual>, seq<Individual>), f0: seq<seq<int>>, nRefSetUpdate0: int)
    reads ss, ss.refSet, ss.candidatesSet
  {
    && Admissible(ss) && ss.Matrices() && 0 <= ss.candidatesSetSize <= |cands| && i <= |cands|
    && Shaped(cands, ss.nreal) && SSStats.SameGrid(f0, ss.minBoundary, ss.maxBoundary) && |f0| == ss.nreal
    && Progress(ss.refSet[..], ss.freqs, ss.nRefSetUpdate, ss.stats, ss.minBoundary, ss.maxBoundary,
                cands, i, ss.candidatesSetSize, ss.nreal, ss.distEpsilon, ss.fitnessEpsilon,
                admitted, target, f0, nRefSetUpdate0)
  }

  /** The admissions so far, `admitted`, are counted and tallied, and the
      candidates from `i` on complete the whole run `target`. */
  ghost predicate Progress(ref: seq<Individual>, freqs: seq<seq<int>>, count: int, stats: bool,
                           lo: seq<seq<real>>, hi: seq<seq<real>>, cands: seq<Individual>, i: nat, size: nat,
                           n: nat, eps: real, feps: real, admitted: seq<Individual>,
                           target: (seq<Individual>, seq<Individual>), f0: seq<seq<int>>, count0: int)
  {
    && |ref| >= 1 && Shaped(ref, n) && size <= |cands| && Shaped(cands, n) && i <= |cands|
    && SSStats.SameGrid(f0, lo, hi) && |f0| == n && Shaped(admitted, n)
    && SSInit.FreqsAtLeast(f0, freqs) && count == count0 + |admitted|
    && freqs == SSStats.Tallied(stats, f0, admitted, lo, hi)
    && var rest := AdmitFrom(ref, cands, i, size, n, eps, feps);
       rest.0 == target.0 && admitted + rest.1 == target.1
  }

  /** Before the first admission the progress is the whole run. */
  lemma ProgressStarts(ref: seq<Individual>, freqs: seq<seq<int>>, count: int, stats: bool,
                       lo: seq<seq<real>>, hi: seq<seq<real>>, cands: seq<Individual>, i: nat, size: nat,
                       n: nat, eps: real, feps: real)
    requires |ref| >= 1 && Shaped(ref, n) && size <= |cands| && Shaped(cands, n) && i <= |cands|
    requires SSStats.SameGrid(freqs, lo, hi) && |freqs| == n
    ensures Progress(ref, freqs, count, stats, lo, hi, cands, i, size, n, eps, feps, [],
                     AdmitFrom(ref, cands, i, size, n, eps, feps), freqs, count)
  {
    SSInit.FreqsTrans(freqs, freqs, freqs);
  }

  /** When the loop stops, the progress is the whole run. */
  lemma ProgressEnds(ref: seq<Individual>, freqs: seq<seq<int>>, count: int, stats: bool,
                     lo: seq<seq<real>>, hi: seq<seq<real>>, cands: seq<Individual>, i: nat, size: nat,
                     n: nat, eps: real, feps: real, admitted: seq<Individual>,
                     target: (seq<Individual>, seq<Individual>), f0: seq<seq<int>>, count0: int)
    requires Progress(ref, freqs, count, stats, lo, hi, cands, i, size, n, eps, feps, admitted, target, f0, count0)
    requires !(i < size && cands[i].cost < ref[|ref| - 1].cost)
    ensures ref == target.0 && admitted == target.1
    ensures count == count0 + |target.1| && SSInit.FreqsAtLeast(f0, freqs)
    ensures Shaped(target.1, |f0|) && freqs == SSStats.Tallied(stats, f0, target.1, lo, hi)
  {
    AdmitFromStops(ref, cands, i, size, n, eps, feps);
    assert admitted + [] == admitted;
  }

  /** One admission keeps the progress, with candidate `i` added to it. */
  lemma ProgressStep(ref: seq<Individual>, freqs: seq<seq<int>>, count: int, ref': seq<Individual>,
                     freqs': seq<seq<int>>, count': int, stats: bool, lo: seq<seq<real>>, hi: seq<seq<real>>,
                     cands: seq<Individual>, i: nat, size: nat, n: nat, eps: real, feps: real,
                     admitted: seq<Individual>, target: (seq<Individual>, seq<Individual>),
                     f0: seq<seq<int>>, count0: int)
    requires Progress(ref, freqs, count, stats, lo, hi, cands, i, size, n, eps, feps, admitted, target, f0, count0)
    requires i < size && cands[i].cost < ref[|ref| - 1].cost
    requires ref' == AdmitStep(ref, cands[i], n, eps, feps) && SSInit.FreqsAtLeast(freqs, freqs')
    requires var added := Admitted(ref, cands[i], n, eps, feps);
             count' == count + |added| && freqs' == SSStats.Tallied(stats, freqs, added, lo, hi)
    ensures Progress(ref', freqs', count', stats, lo, hi, cands, i + 1, size, n, eps, feps,
                     admitted + Admitted(ref, cands[i], n, eps, feps), target, f0, count0)
  {
    var added := Admitted(ref, cands[i], n, eps, feps);
    AdmitFromGoesOn(ref, cands, i, size, n, eps, feps);
    SSInit.FreqsTrans(f0, freqs, freqs');
    SSStats.TalliedAppend(stats, f0, admitted, added, lo, hi);
    var rest := AdmitFrom(ref', cands, i + 1, size, n, eps, feps);
    Util.ConcatAssoc(admitted, added, rest.1);
  }

  /** The loop goes on with a candidate left that beats the worst member. */
  lemma AdmitFromGoesOn(ref: seq<Individual>, cands: seq<Individual>, i: nat, size: nat, n: nat, eps: real, feps: real)
    requires |ref| >= 1 && Shaped(ref, n) && size <= |cands| && Shaped(cands, n) && i < size
    requires cands[i].cost < ref[|ref| - 1].cost
    ensures var t := AdmitFrom(AdmitStep(ref, cands[i], n, eps, feps), cands, i + 1, size, n, eps, feps);
            AdmitFrom(ref, cands, i, size, n, eps, feps) == (t.0, Admitted(ref, cands[i], n, eps, feps) + t.1)
  {
  }

  /** The loop body of update_ref_set for candidate `i`: one unfolding of
      AdmitFrom, with its admission counted and tallied. */
  method AdmitNext(ss: SSType, i: nat, ghost cands: seq<Individual>, ghost admitted: seq<Individual>,
                   ghost target: (seq<Individual>, seq<Individual>), ghost f0: seq<seq<int>>, ghost nRefSetUpdate0: int)
    returns (ghost admitted': seq<Individual>)
    requires cands == ss.candidatesSet[..] && i < ss.candidatesSetSize
    requires Admitting(ss, cands, i, admitted, target, f0, nRefSetUpdate0)
    requires cands[i].cost < ss.refSet[ss.refSetSize - 1].cost
    modifies ss.refSet, ss`nRefSetUpdate, ss`freqs
    ensures Admitting(ss, cands, i + 1, admitted', target, f0, nRefSetUpdate0)
  {
    ghost var r := ss.refSet[..];
    assert r[|r| - 1] == ss.refSet[ss.refSetSize - 1];
    ghost var f := ss.freqs;
    ghost var count := ss.nRefSetUpdate;
    AdmitOne(ss, ss.candidatesSet[i]);
    ProgressStep(r, f, count, ss.refSet[..], ss.freqs, ss.nRefSetUpdate, ss.stats, ss.minBoundary, ss.maxBoundary,
                 cands, i, ss.candidatesSetSize, ss.nreal, ss.distEpsilon, ss.fitnessEpsilon,
                 admitted, target, f0, nRefSetUpdate0);
    admitted' := admitted + Admitted(r, cands[i], ss.nreal, ss.distEpsilon, ss.fitnessEpsilon);
  }

  /** The opening test of update_ref_set: a first candidate cheaper than
      `ref[0]` overwrites it, and the loop then starts at candidate 1. */
  method ReplaceBest(ss: SSType) returns (i: nat)
    requires ss.Valid() && ss.refSetSize >= 1
    modifies ss.refSet
    ensures Admissible(ss)
    ensures ss.refSet[..] == SlotZero(old(ss.refSet[..]), ss.candidatesSet[..])
    ensures i == if ss.candidatesSet[0].cost < old(ss.refSet[0].cost) then 1 else 0
  {
    i := 0;
    if ss.candidatesSet[i].cost < ss.refSet[i].cost {
      assert ss.candidatesSet[..][0] == ss.candidatesSet[0];
      assert ss.candidatesSet[0].params[..ss.nreal] == ss.candidatesSet[0].params;
      CopyInd(ss, ss.refSet, i, ss.candidatesSet[i]);
      i := i + 1;
    }
  }

  // ---------------------------------------------------------------------------
  // select_subsets_list

  /** The pairs `(s[i], s[j'])`, `i < j' < j`, of members that are not
      near-equal, in increasing `j'`. */
  function RowPairs(s: seq<Individual>, i: nat, j: nat, n: nat, eps: real): (r: seq<Pair>)
    requires Shaped(s, n) && i < j <= |s|
    decreases j
    ensures |r| <= j - i - 1
  {
    if j == i + 1 then []
    else RowPairs(s, i, j - 1, n, eps)
         + (if IsEqual(s[i], s[j - 1], n, eps) then [] else [Pair(s[i], s[j - 1])])
  }

  /** The pairs whose first index is below `i`, in lexicographic order of
      their index pairs. */
  function PairsUpTo(s: seq<Individual>, i: nat, n: nat, eps: real): (r: seq<Pair>)
    requires Shaped(s, n) && i <= |s|
  {
    if i == 0 then [] else PairsUpTo(s, i - 1, n, eps) + RowPairs(s, i - 1, |s|, n, eps)
  }

  /** The subsets list select_subsets_list builds from the members `s`. */
  function SubsetsOf(s: seq<Individual>, n: nat, eps: real): (r: seq<Pair>)
    requires Shaped(s, n)
  {
    PairsUpTo(s, |s|, n, eps)
  }

  /** `q` is the pair of the members `s[a]` and `s[b]`, `a < b`, which are
      not near-equal. */
  ghost predicate PairedAt(s: seq<Individual>, q: Pair, a: int, b: int, n: nat, eps: real)
    requires Shaped(s, n)
  {
    0 <= a < b < |s| && q == Pair(s[a], s[b]) && !IsEqual(s[a], s[b], n, eps)
  }

  /** A row contributes one pair per later member when no two members
      are near-equal. */
  lemma {:induction false} RowPairsBound(s: seq<Individual>, i: nat, j: nat, n: nat, eps: real)
    requires Shaped(s, n) && i < j <= |s|
    decreases j
    ensures (forall a :: i < a < j ==> !IsEqual(s[i], s[a], n, eps)) ==> |RowPairs(s, i, j, n, eps)| == j - i - 1
  {
    if j > i + 1 {
      RowPairsBound(s, i, j - 1, n, eps);
    }
  }

  /** No two members of `s` are near-equal. */
  ghost predicate Separated(s: seq<Individual>, n: nat, eps: real)
    requires Shaped(s, n)
  {
    forall a, b :: 0 <= a < b < |s| ==> !IsEqual(s[a], s[b], n, eps)
  }

  /** `2 * |PairsUpTo(s, i)| <= i * (2|s| - i - 1)`. */
  lemma {:induction false} PairsUpToBound(s: seq<Individual>, i: nat, n: nat, eps: real)
    requires Shaped(s, n) && i <= |s|
    ensures 2 * |PairsUpTo(s, i, n, eps)| <= i * (2 * |s| - i - 1)
  {
    if i > 0 {
      PairsUpToBound(s, i - 1, n, eps);
      TriangleStep(i, |s|, |PairsUpTo(s, i - 1, n, eps)|, |RowPairs(s, i - 1, |s|, n, eps)|);
    }
  }

  /** The bound is met when no two members are near-equal. */
  lemma {:induction false} PairsUpToExact(s: seq<Individual>, i: nat, n: nat, eps: real)
    requires Shaped(s, n) && i <= |s| && Separated(s, n, eps)
    ensures 2 * |PairsUpTo(s, i, n, eps)| == i * (2 * |s| - i - 1)
  {
    if i > 0 {
      PairsUpToExact(s, i - 1, n, eps);
      RowPairsBound(s, i - 1, |s|, n, eps);
      TriangleStep(i, |s|, |PairsUpTo(s, i - 1, n, eps)|, |RowPairs(s, i - 1, |s|, n, eps)|);
    }
  }

  /** Adding row `i - 1`, of at most `m - i` pairs, to the earlier rows. */
  lemma TriangleStep(i: nat, m: nat, x: nat, y: nat)
    requires 1 <= i <= m && 2 * x <= (i - 1) * (2 * m - i) && y <= m - i
    ensures 2 * (x + y) <= i * (2 * m - i - 1)
    ensures 2 * x == (i - 1) * (2 * m - i) && y == m - i ==> 2 * (x + y) == i * (2 * m - i - 1)
  {
    assert i * (2 * m - i - 1) == (i - 1) * (2 * m - i) + 2 * (m - i);
  }

  /** At most `b(b-1)/2` pairs, and exactly that many when no two of the
      `b` members are near-equal. */
  lemma SubsetsCount(s: seq<Individual>, n: nat, eps: real)
    requires Shaped(s, n)
    ensures 2 * |SubsetsOf(s, n, eps)| <= |s| * (|s| - 1)
    ensures Separated(s, n, eps) ==> 2 * |SubsetsOf(s, n, eps)| == |s| * (|s| - 1)
  {
    PairsUpToBound(s, |s|, n, eps);
    if Separated(s, n, eps) {
      PairsUpToExact(s, |s|, n, eps);
    }
  }

  /** Every pair of a row joins `s[i]` to a later member it is not
      near-equal to, and every such member below `j` is paired. */
  lemma {:induction false} RowPairsMembers(s: seq<Individual>, i: nat, j: nat, n: nat, eps: real)
    requires Shaped(s, n) && i < j <= |s|
    decreases j
    ensures forall q :: q in RowPairs(s, i, j, n, eps) ==> exists b :: b < j && PairedAt(s, q, i, b, n, eps)
    ensures forall b :: i < b < j && !IsEqual(s[i], s[b], n, eps) ==> Pair(s[i], s[b]) in RowPairs(s, i, j, n, eps)
  {
    if j > i + 1 {
      RowPairsMembers(s, i, j - 1, n, eps);
      var r := RowPairs(s, i, j - 1, n, eps);
      forall q | q in RowPairs(s, i, j, n, eps) ensures exists b :: b < j && PairedAt(s, q, i, b, n, eps) {
        if q !in r {
          assert PairedAt(s, q, i, j - 1, n, eps);
        }
      }
    }
  }

  /** Every listed pair joins two members `s[a]`, `a < b`, `a < i`, that
      are not near-equal. */
  lemma {:induction false} PairsUpToSound(s: seq<Individual>, i: nat, n: nat, eps: real)
    requires Shaped(s, n) && i <= |s|
    ensures forall q :: q in PairsUpTo(s, i, n, eps) ==> exists a, b :: a < i && PairedAt(s, q, a, b, n, eps)
  {
    if i > 0 {
      var p := PairsUpTo(s, i - 1, n, eps);
      var row := RowPairs(s, i - 1, |s|, n, eps);
      PairsUpToSound(s, i - 1, n, eps);
      RowPairsMembers(s, i - 1, |s|, n, eps);
      forall q | q in p + row ensures exists a, b :: a < i && PairedAt(s, q, a, b, n, eps) {
        if q !in p {
          var b :| b < |s| && PairedAt(s, q, i - 1, b, n, eps);
          assert i - 1 < i;
        }
      }
    }
  }

  /** Every pair `(s[a], s[b])`, `a < b`, `a < i`, of members that are not
      near-equal is listed. */
  lemma {:induction false} PairsUpToComplete(s: seq<Individual>, i: nat, n: nat, eps: real)
    requires Shaped(s, n) && i <= |s|
    ensures forall a, b :: 0 <= a < i && a < b < |s| && !IsEqual(s[a], s[b], n, eps) ==>
              Pair(s[a], s[b]) in PairsUpTo(s, i, n, eps)
  {
    if i > 0 {
      var p := PairsUpTo(s, i - 1, n, eps);
      var row := RowPairs(s, i - 1, |s|, n, eps);
      PairsUpToComplete(s, i - 1, n, eps);
      RowPairsMembers(s, i - 1, |s|, n, eps);
      forall a, b | 0 <= a < i && a < b < |s| && !IsEqual(s[a], s[b], n, eps)
        ensures Pair(s[a], s[b]) in p + row
      {
        if a < i - 1 {
          assert Pair(s[a], s[b]) in p;
        } else {
          assert Pair(s[a], s[b]) in row;
        }
      }
    }
  }

  /** select_subsets_list: the pairs of `set->members[0..b)` that are not
      near-equal, in lexicographic order of their indices, are copied into
      the front of the subsets list and counted; the slots behind them keep
      their old contents. The `set_size` argument is not used. */
  method SelectSubsetsList(ss: SSType, pool: array<Individual>, setSize: int)
    requires ss.Valid() && ss.refSetSize <= pool.Length && Shaped(pool[..], ss.nreal)
    modifies ss.subsetsList, ss`subsetsListSize
    ensures ss.Valid() && 0 <= ss.subsetsListSize <= ss.subsetsList.Length
    ensures var pairs := SubsetsOf(pool[..ss.refSetSize], ss.nreal, ss.distEpsilon);
            ss.subsetsListSize == |pairs|
            && ss.subsetsList[..] == pairs + old(ss.subsetsList[..])[ss.subsetsListSize..]
  {
    ghost var s := pool[..ss.refSetSize];
    ghost var old0 := ss.subsetsList[..];
    var k := StorePairs(ss, pool, s);
    ss.subsetsListSize := k;
    SubsetsShaped(s, ss.nreal, ss.distEpsilon);
    PairsShapedJoin(SubsetsOf(s, ss.nreal, ss.distEpsilon), old0[k..], ss.nreal);
  }

  /** The two loops of select_subsets_list: the pairs are stored from slot
      0 on and `k` counts them. */
  method StorePairs(ss: SSType, pool: array<Individual>, ghost s: seq<Individual>) returns (k: nat)
    requires ss.refSetSize <= pool.Length && s == pool[..ss.refSetSize] && Shaped(s, ss.nreal)
    requires ss.subsetsList.Length == ss.refSetSize * ss.refSetSize
    modifies ss.subsetsList
    ensures var pairs := SubsetsOf(s, ss.nreal, ss.distEpsilon);
            k == |pairs| <= ss.subsetsList.Length && ss.subsetsList[..] == pairs + old(ss.subsetsList[..])[k..]
  {
    var b := ss.refSetSize;
    ghost var old0 := ss.subsetsList[..];
    k := 0;
    for i := 0 to b
      invariant k == |PairsUpTo(s, i, ss.nreal, ss.distEpsilon)| <= |old0|
      invariant ss.subsetsList[..] == PairsUpTo(s, i, ss.nreal, ss.distEpsilon) + old0[k..]
    {
      RowFits(s, i, ss.nreal, ss.distEpsilon);
      ghost var p := PairsUpTo(s, i, ss.nreal, ss.distEpsilon);
      var k' := SelectRow(ss, pool, s, i, k, p, old0[k..]);
      assert old0[k..][k' - k..] == old0[k'..];
      k := k';
    }
  }

  /** The row of index `i` fits behind the pairs of the rows before it in
      a list of `|s| * |s|` entries. */
  lemma RowFits(s: seq<Individual>, i: nat, n: nat, eps: real)
    requires Shaped(s, n) && i < |s|
    ensures |PairsUpTo(s, i, n, eps)| + (|s| - i - 1) <= |s| * |s|
  {
    PairsUpToBound(s, i, n, eps);
    RowRoom(|s|, i, |PairsUpTo(s, i, n, eps)|);
  }

  /** The row of index `i` fits behind the `k` pairs already stored. */
  lemma RowRoom(b: nat, i: nat, k: nat)
    requires i < b && 2 * k <= i * (2 * b - i - 1)
    ensures k + (b - i - 1) <= b * b
  {
    var x, y := i + 1, 2 * b - i - 2;
    assert i * (2 * b - i - 1) + 2 * (b - i - 1) == x * y;
    MulLe(x, y, b, 2 * b);
    assert b * (2 * b) == 2 * (b * b);
  }

  lemma MulLe(x: nat, y: nat, u: nat, v: nat)
    requires x <= u && y <= v
    ensures x * y <= u * v
  {
    assert x * y <= u * y by { assert u * y - x * y == (u - x) * y; }
    assert u * y <= u * v by { assert u * v - u * y == u * (v - y); }
  }

  /** The inner loop for first index `i`: the row's pairs are written over
      `rest`, the slots behind the `|p|` pairs already stored. */
  method SelectRow(ss: SSType, pool: array<Individual>, ghost s: seq<Individual>, i: nat, k: nat,
                   ghost p: seq<Pair>, ghost rest: seq<Pair>) returns (k': nat)
    requires ss.refSetSize <= pool.Length && s == pool[..ss.refSetSize] && Shaped(s, ss.nreal)
    requires i < |s| && k == |p|
    requires ss.subsetsList[..] == p + rest && |s| - i - 1 <= |rest|
    modifies ss.subsetsList
    ensures var row := RowPairs(s, i, |s|, ss.nreal, ss.distEpsilon);
            k' == |p| + |row| && ss.subsetsList[..] == p + row + rest[|row|..]
  {
    var b := ss.refSetSize;
    k' := k;
    for j := i + 1 to b
      invariant var row := RowPairs(s, i, j, ss.nreal, ss.distEpsilon);
                k' == |p| + |row| && ss.subsetsList[..] == p + row + rest[|row|..]
    {
      assert s[i] == pool[i] && s[j] == pool[j];
      if !IsEqual(pool[i], pool[j], ss.nreal, ss.distEpsilon) {
        assert pool[i].params[..ss.nreal] == pool[i].params && pool[j].params[..ss.nreal] == pool[j].params;
        WriteNext(p, RowPairs(s, i, j, ss.nreal, ss.distEpsilon), rest, Pair(pool[i], pool[j]));
        ss.subsetsList[k'] := Pair(Individual(pool[i].params[..ss.nreal], pool[i].cost),
                                   Individual(pool[j].params[..ss.nreal], pool[j].cost));
        k' := k' + 1;
      }
    }
  }

  /** Writing the next pair behind `p + r` consumes one slot of `rest`. */
  lemma WriteNext(p: seq<Pair>, r: seq<Pair>, rest: seq<Pair>, x: Pair)
    requires |r| < |rest|
    ensures (p + r + rest[|r|..])[|p| + |r| := x] == p + (r + [x]) + rest[|r| + 1..]
  {
    var lhs := (p + r + rest[|r|..])[|p| + |r| := x];
    var rhs := p + (r + [x]) + rest[|r| + 1..];
    assert |lhs| == |rhs|;
    forall t | 0 <= t < |lhs| ensures lhs[t] == rhs[t] {
      if t < |p| + |r| {
      } else if t > |p| + |r| {
        assert lhs[t] == rest[t - |p|];
      }
    }
  }

  /** Every stored pair joins two members of `s`, so it has their shape. */
  lemma SubsetsShaped(s: seq<Individual>, n: nat, eps: real)
    requires Shaped(s, n)
    ensures PairsShaped(SubsetsOf(s, n, eps), n)
  {
    PairsUpToSound(s, |s|, n, eps);
    var ps := SubsetsOf(s, n, eps);
    forall k | 0 <= k < |ps| ensures |ps[k].first.params| == n && |ps[k].second.params| == n {
      assert ps[k] in ps;
      var a, b :| a < |s| && PairedAt(s, ps[k], a, b, n, eps);
    }
  }

  lemma PairsShapedJoin(a: seq<Pair>, b: seq<Pair>, n: nat)
    requires PairsShaped(a, n) && PairsShaped(b, n)
    ensures PairsShaped(a + b, n)
  {
  }
}
