# Scatter Search and annealer support routines, modelled in Dafny

This project models the Scatter Search optimiser that drives parameter
estimation for the fly gap-gene models, together with the small parsers,
validators and state machines around it in the annealing and NSGA-II
drivers. Each C source file is one Dafny module, and the model takes the
form of its source.

- Scatter Search engine (`ss/*.c`):
  - `SSTypes`: the individual, squared distance and the near-equality test.
  - `SSParams`: the `SSType` parameter record, as a class whose arrays and
    counters the engine updates in place.
  - `SSTools`: searches, `min`/`max` with their index, `delete_and_shift`,
    `copy_ind`, the flat-zone test and `parse_int_row`.
  - `SSSort`: the quicksort and the insertion sort.
  - `SSInit`: the sub-region model, the scatter set with its roulette, and
    the reference set.
  - `SSUpdate`: admitting candidates and enumerating pairs.
  - `SSRecombine`: candidate generation.
  - `SSLocalSearch`: `take_step`.
  - `SSRefine`: local refinement.
  - `SSStats`: frequency bookkeeping.
  - `SSEvaluate`: evaluation.
  - `SSMain`: `InitSS` and `RunSS`.
  - `SSReport`: the text output and its round trip through `parse_int_row`.
- `FlyIO`: chomp, the range-line reader, the Scatter Search sizes, the
  time-table check, the distribution check and the tweak mask.
- `FlyAmosa`: the command-line checks and the save/restore name encoding.
- `Moves`: the Lam annealer's move bookkeeping and its state message.
- `NSGA2Types`, `NSGA2Eval` and `NSGA2Initialize`: constraint violation, and
  random or file-based initialisation.
- Shared modules:
  - `Util`: Option and Result.
  - `CText`: C strings, `strtok`, `%d` and `atoi`.
  - `Oracle`: the random number generator, as a tape of draws in [0, 1].

Loops become methods with invariants. Most methods are proved against a
specification function on values. Where the result depends on a run of
random draws (the roulette of `init_scatter_set`) or on the choices of
earlier rounds (the greedy rounds of `init_ref_set`, the iterations of
`RunSS`), the method is proved against a ghost trace that states each
step exactly, and lemmas read the trace back
(`SSInit.MembersTraceIsMembers`, `SSInit.GreedyPickFarthest`,
`SSMain.IterationSorted`). The properties the code promises are lemmas
about those functions and traces: sortedness and permutation, bounds,
counter bookkeeping, buffer layouts, size arithmetic and round trips. The
code's quirks are kept and stated as such:
- probability rows are not renormalised;
- the roulette carries `a` and `probs_sum` over;
- `max` leaves a stale index;
- a duplicate is replaced without re-sorting (`SSUpdate.ReplacementCanUnsort`);
- slot 0 of the reference set is overwritten outright;
- "BaDe" restores as BuSt;
- the first time of a time table is not checked;
- a one-field NSGA-II line keeps its newline.

## Model

| member | source | states |
|---|---|---|
| SSTypes.SqDist | ss/ssTools.c:22-31 | the squared distance over the first n coordinates is never negative and is zero for coordinate-wise equal vectors |
| SSTypes.SqDistSymmetric | ss/ssTools.c:22-31 | the distance does not depend on the order of the two individuals |
| SSTypes.Clamp | ss/recombine.c:93-94 | MAX(MIN(v, hi), lo) lies in [lo, hi] whenever lo <= hi and leaves a value already inside unchanged |
| SSTypes.IsEqual | ss/ssTools.c:134-141 | two individuals are near-equal only for a positive dist_epsilon, and then exactly when the squared distance is below its square, in either order of the two |
| SSTypes.IsEqualIsDistanceBelow | ss/ssTools.c:134-141 | near-equal exactly when the Euclidean distance (the non-negative root of the squared distance) is strictly below dist_epsilon |
| SSTypes.SameParamsAreEqual | ss/ssTools.c:134-141 | with a positive dist_epsilon, an individual is near-equal to one with the same coordinates |
| SSTools.ExistIndex | ss/ssTools.c:146-159 | the downward scan gives -1 or an index below setSize whose member is near-equal to the individual, and no higher index is near-equal |
| SSTools.IsExist | ss/ssTools.c:146-159 | is_exist returns exactly that highest near-equal index, or -1 |
| SSTools.Dists | ss/ssTools.c:73-88 | one squared distance from the individual to each of the first setSize members |
| SSTools.StartCandidate | ss/ssTools.c:59-70 | the first guess of closest_member is a valid index other than ind_index (setSize-2, 1 or ind_index-1) |
| SSTools.ClosestFromSpec | ss/ssTools.c:73-88 | the strict-< scan ends at a distance no larger than the start or any other scanned entry, and moves away from the start only to a strictly smaller, first-occurring minimum |
| SSTools.ClosestIndexIsNearest | ss/ssTools.c:54-91 | for setSize >= 2 the result differs from ind_index and is at minimal distance among all other members; ties keep the first guess or the earliest index |
| SSTools.ClosestMember | ss/ssTools.c:54-91 | closest_member returns that nearest index |
| SSTools.Min | ss/ssTools.c:97-107 | the minimum bounds arr[0..length) from below; if arr[0] is minimal the caller's index comes back unchanged, otherwise the index is the first strictly smaller position |
| SSTools.Max | ss/ssTools.c:112-122 | the maximum bounds arr[0..length) from above; if arr[0] is maximal the caller's index comes back unchanged, otherwise the index is the first strictly larger position |
| SSTools.ShiftedDeletes | ss/ssTools.c:124-131 | after the shift the first setSize-1 members are the old ones with the deleted index removed, and the last member stays, so it appears twice |
| SSTools.DeleteAndShift | ss/ssTools.c:124-131 | delete_and_shift leaves exactly that shifted array |
| SSTools.CopyInd | ss/ssTools.c:193-197 | copy_ind overwrites only slot k, with the source's first nreal parameters and its cost |
| SSTools.NoFlatzoneAtNonPositiveCost | ss/ssTools.c:215-216 | with a non-negative epsilon, a member of cost <= 0 never puts an individual in its flat zone |
| SSTools.IsInFlatzone | ss/ssTools.c:202-225 | true iff some member below setSize has cost c with c - c*eps < ind.cost < c + c*eps; the counter grows by one exactly when true |
| SSTools.InSubsetsList | ss/ssTools.c:170-187 | true iff some stored pair matches the two individuals in either order |
| SSTools.AtoiAll | ss/ssTools.c:243-246 | atoi of every token, in order |
| SSTools.ParseIntRow | ss/ssTools.c:239-247 | parse_int_row stores the k-th token's value in row[k] (first token split on tab, later ones on tab or newline) and leaves the rest of the row alone |
| SSTools.StoreValues | ss/ssTools.c:243-246 | the loop body writes token k's atoi value into row[k] for every token and nothing beyond |
| SSSort.QuickSortSet | ss/sort.c:6-26 | with key 'c', the first setSize members end up sorted by ascending cost and are a permutation of what they were; members past setSize are untouched |
| SSSort.QuickSort | ss/sort.c:32-87 | after the recursive sort of [left, right] the numbers still mirror the member costs, that segment is sorted by cost and a permutation of its old contents, and everything outside it is unchanged |
| SSSort.Partition | ss/sort.c:38-73 | the old members[left] (the pivot) ends at the returned index inside [left, right]; nothing to its left costs more and nothing to its right costs less; the segment is permuted and the rest unchanged |
| SSSort.ScanFromRight | ss/sort.c:46-55 | the right scan stops at the first cost below the pivot, moves it into the hole on the left and keeps the partition invariant while the unscanned window shrinks |
| SSSort.ScanFromLeft | ss/sort.c:57-66 | the left scan stops at the first cost above the pivot, moves it into the hole on the right and keeps the partition invariant |
| SSSort.FillHole | ss/sort.c:51-52 | one move copies a member and its cost from src to dst and changes nothing else, so numbers keep mirroring the costs |
| SSSort.PlacePivot | ss/sort.c:69-71 | the saved pivot member and its cost are written at the meeting point and nothing else changes |
| SSSort.PartedDone | ss/sort.c:69-71 | once the scans meet, writing the pivot there leaves a partitioned permutation of the segment |
| SSSort.QuickSortCombine | ss/sort.c:79-83 | a partitioned segment whose two sides are each sorted and permuted is sorted and permuted as a whole |
| SSSort.InsertionSort | ss/sort.c:94-115 | the members become Inserted(old members, setSize): the last member moved down past every predecessor of strictly greater cost, the others shifted up by one, nothing past setSize touched |
| SSSort.InsertPosFromBounds | ss/sort.c:101-107 | the swap loop stops just after a predecessor whose cost is not greater (or at 0) and every member it passed costs strictly more |
| SSSort.InsertedShape | ss/sort.c:101-107 | the inserted member lands at that stop position, equal costs keep it behind, and the result is a same-length permutation that leaves the tail alone |
| SSSort.InsertedAt | ss/sort.c:101-107 | element by element: before the stop position and from setSize on unchanged, at it the moved member, between them the old members shifted by one |
| SSSort.InsertedPermutes | ss/sort.c:101-107 | the insertion is a permutation of the members |
| SSSort.InsertedSorted | ss/sort.c:89-93 | if the first setSize-1 members are sorted by cost, the first setSize are sorted after the insertion |
| SSInit.CellsTile | ss/init.c:37-38 | cell 0 starts at min_i, adjacent cells share their endpoint and the last cell ends at max_i |
| SSInit.CellInRange | ss/init.c:37-38 | with min_i <= max_i every cell lies inside [min_i, max_i] |
| SSInit.UniformRowSum | ss/init.c:42 | a row of p probabilities 1/p adds up to 1 |
| SSInit.CellRows | ss/init.c:34-43 | the j loop fills a row with the cell ends, frequency 1 and probability 1/p for every cell |
| SSInit.CellMatrices | ss/init.c:26-44 | the i loop builds the whole boundary, frequency and probability matrices, one row per dimension |
| SSInit.InitSSParams | ss/init.c:7-53 | init_ssParams sets subsets_list_size to b squared, zeroes the five counters, builds the sub-regions, all frequencies 1 and all probabilities 1/p |
| SSInit.RouletteFromPicksFirst | ss/init.c:84-107 | from column j on, the roulette either picks the first column whose running sum reaches rnd and resets the sum, or picks none and carries the whole running sum forward |
| SSInit.RoulettePicksFirst | ss/init.c:84-107 | the same for a whole probability row, starting from the carried probs_sum |
| SSInit.InvSumHasTerm | ss/init.c:98-101 | the sum of inverse frequencies is at least the picked cell's own term and positive |
| SSInit.InvSumNonNeg | ss/init.c:98-101 | the sum of inverse frequencies is never negative |
| SSInit.UpdatedProbInUnit | ss/init.c:102 | the recomputed probability of the picked cell lies in (0, 1] |
| SSInit.InvFreqSum | ss/init.c:98-101 | the t loop adds up exactly the inverse frequencies of the row |
| SSInit.RouletteDraw | ss/init.c:84-107 | one draw: with a pick, only freqs[i][a] grows by one and only probs[i][a] is recomputed (the row is not renormalised); without one, a and both matrices are unchanged and probs_sum carries over |
| SSInit.UniformInUnit | ss/init.c:42 | the uniform start rows are probabilities in [0, 1] |
| SSInit.FreqsBump | ss/init.c:94 | bumping one frequency keeps every frequency at least its earlier value |
| SSInit.DrawCellMember | ss/init.c:61-67 | scatter member k < p gets coordinate i as the uniform draw pos+i between min_boundary[i][k] and max_boundary[i][k], so it lies in cell k; nreal draws are consumed and its cost and every other member stay as they were |
| SSInit.DrawRouletteMember | ss/init.c:80-112 | a roulette member: coordinate c spins the wheel (freqs, probs, a, probs_sum) with draw pos+2c and is the draw pos+2c+1 in the chosen cell; the last wheel is the new freqs and probs with the a and probs_sum carried to the next member; every coordinate lies in [min_i, max_i] and only slot k's params change |
| SSInit.RouletteCoordinate | ss/init.c:82-110 | one coordinate: the new freqs, probs, a and probs_sum are one Spun of the old ones with draw pos, and v is the draw pos+1 in cell a of dimension i, so it lies in [min_i, max_i] |
| SSInit.Spun | ss/init.c:82-107 | one roulette draw on values (a hit bumps and reweights only the picked cell, a miss carries the sum); its contract keeps the wheel's shape, frequencies of at least 1 and a valid last cell, and DrawSpins and SpunKeeps state the rest |
| SSInit.SpunKeeps | ss/init.c:94-102 | a spin lowers no frequency and keeps every probability in (0, 1] |
| SSInit.DrawSpins | ss/init.c:84-107 | the state RouletteDraw leaves is exactly Spun |
| SSInit.RouletteCoords | ss/init.c:80-112 | the first n coordinates of a roulette member on values (coordinate c spins with draw pos+2c and is drawn in the chosen cell with draw pos+2c+1): n values and a wheel of the same shape with a valid cell |
| SSInit.RouletteParams | ss/init.c:80-112 | the i loop draws nreal coordinates with 2*nreal draws, traced spin by spin from the wheel (freqs, probs, a, probs_sum) to the new one |
| SSInit.TraceCoords | ss/init.c:80-112 | a spin-by-spin trace of a member is exactly RouletteCoords of its first wheel |
| SSInit.TraceKeeps | ss/init.c:94-102 | along a trace no frequency drops and probabilities stay in (0, 1] |
| SSInit.TraceInBounds | ss/init.c:110 | with draws in [0, 1] and cells inside the bounds, every traced coordinate lies in [min_i, max_i] |
| SSInit.SubRegionsWithin | ss/init.c:37-38 | the sub-region cells lie inside the bounds |
| SSInit.RouletteMembers | ss/init.c:75-114 | k roulette members on values, 2*nreal draws each with the wheel carried from one to the next: k members of nreal coordinates and a wheel of the same shape |
| SSInit.MembersStep | ss/init.c:75-114 | one more traced member, drawn from where the previous ones stopped and starting at their last wheel, extends the trace of members |
| SSInit.MemberCoords | ss/init.c:80-112 | member k of a trace of members is RouletteCoords from wheel k at draw pos + 2*nreal*k |
| SSInit.MembersTraceIsMembers | ss/init.c:75-114 | a trace of members is exactly RouletteMembers of its first wheel, last wheel included |
| SSInit.CellsDrawnStep | ss/init.c:61-67 | one more member drawn in its cell extends the first-loop draws by one member |
| SSInit.FillSlot | ss/init.c:75-114 | writing one in-bounds member into slot p+k keeps the first p, the tail and the costs, and records its params |
| SSInit.FreqsTrans | ss/init.c:94 | frequencies that never drop across two steps never drop across both |
| SSInit.InitScatterSet | ss/init.c:58-121 | member c < p is drawn in cell c from draws nreal*c on; member p+c is the c-th roulette member of the traced draws that follow, starting from the wheel (freqs, probs, 0, 0) and ending at the final freqs and probs; all members lie within bounds, costs and the tail past diverse_set_size are untouched, and nreal*p + 2*nreal*(diverse_set_size-p) draws are used |
| SSInit.ScatterByCells | ss/init.c:61-67 | the first loop uses nreal*p draws: coordinate i of member c is draw nreal*c + i taken in cell c, so member c lies in cell c |
| SSInit.ScatterByRoulette | ss/init.c:75-114 | the second loop makes members p .. diverse_set_size-1 the traced roulette members, with a and probs_sum carried across members from (0, 0) and the last wheel giving the new freqs and probs; they lie within bounds and the first p members are left alone |
| SSInit.CellsInBounds | ss/init.c:61-67 | members inside their cells are inside the bounds |
| SSInit.NearestSqIsMin | ss/init.c:170-177 | the min over the distances to ref[0..k) is at most each of them and equal to one of them |
| SSInit.MinIsNearest | ss/ssTools.c:97-107 | a value that bounds all distances from below and equals one of them is that nearest distance |
| SSInit.DistRow | ss/init.c:170-174 | one row of dist_matrix: the distance from pool member i to each of ref[0..k) |
| SSInit.MinDistances | ss/init.c:167-178 | min_dists[t] is the nearest distance from pool member h+t to the chosen ref members |
| SSInit.NearestDistance | ss/init.c:177 | min over one row gives the nearest distance |
| SSInit.PickFarthest | ss/init.c:184 | max over min_dists keeps the stale max_index when pool member 0 is already farthest, otherwise returns the first farthest pool position |
| SSInit.GreedyStep | ss/init.c:167-184 | one greedy round computes the min distances and picks the farthest pool member as above |
| SSInit.InitRefSet | ss/init.c:128-207 | init_ref_set sorts the diverse set (a permutation), copies its best b/2 into ref, and fills ref[b/2 .. b) round by round as GreedyTrace records: each round picks a farthest pool member or repeats the previous index, copies it into ref[k] and shifts it out of the diverse set |
| SSInit.GreedyFill | ss/init.c:163-195 | the k loop fills ref[h .. b) with members of the sorted pool, one traced round per slot from the sorted diverse set, the first pick a farthest one |
| SSInit.GreedyRound | ss/init.c:163-195 | round k copies the pick of GreedyStep into ref[k], leaves the shifted diverse set, keeps ref[0..k) and extends the trace by that round |
| SSInit.CopyElite | ss/init.c:139-143 | ref[0..h) becomes a copy of the first h members of the sorted diverse set |
| SSInit.ShiftedKeeps | ss/init.c:193 | shifting the pool keeps its elite prefix and keeps only members of the sorted pool behind it |
| SSInit.GreedyPickFarthest | ss/init.c:163-195 | in every traced round whose index differs from the previous round's (always the first), ref[h+j] is a farthest member of that round's pool from ref[0..h+j) |
| SSInit.GreedyRoundTrace | ss/init.c:163-195 | GreedyStep's pick rule, copy and shift for round k are the next round of the trace |
| SSInit.GreedyTraceStep | ss/init.c:163-195 | a round that follows the pick rule extends the trace and leaves the earlier rounds as they were |
| SSUpdate.Classify | ss/update.c:37-74 | a candidate is new, replaces a duplicate, or is rejected; a replaced duplicate is never the last slot, because is_exist is given ref_set_size - 1 |
| SSUpdate.AdmitStep | ss/update.c:37-75 | admitting one candidate keeps ref_set_size and the vector length of every member |
| SSUpdate.AdmitFrom | ss/update.c:28-76 | the admission loop from candidate i on keeps ref_set_size and the member shapes |
| SSUpdate.UpdatedRefSet | ss/update.c:14-78 | the whole update keeps ref_set_size and the member shapes |
| SSUpdate.SlotZeroKeepsSorted | ss/update.c:19-24 | overwriting ref[0] with a cheaper cand[0] keeps a sorted set sorted and puts cand[0] first |
| SSUpdate.AdmitStepOverwritesOne | ss/update.c:37-74 | a new candidate replaces the last member and keeps a sorted set sorted; a replacement swaps out exactly the near-equal duplicate d, and only when cost < ref[d].cost * (1 - fitness_epsilon); a rejected candidate changes nothing |
| SSUpdate.InsertedOverwritesLast | ss/update.c:47-48 | copying into the last slot then insertion_sort removes only the old last member, adds the candidate and keeps the set sorted |
| SSUpdate.ReplacementCanUnsort | ss/update.c:61-66 | a concrete sorted reference set and candidate for which the duplicate replacement leaves the set unsorted |
| SSUpdate.AdmitOne | ss/update.c:37-74 | one candidate changes the reference set as AdmitStep says, bumps n_ref_set_update once per admitted candidate and, under STATS, counts exactly the admitted candidate in the frequencies |
| SSUpdate.StepCases | ss/update.c:37-74 | the three branches: no duplicate below the last slot gives the insertion, an improving duplicate gives the in-place overwrite, otherwise nothing changes |
| SSUpdate.AdmitNew | ss/update.c:46-54 | the new-candidate branch: copy into the last slot, insertion_sort, one more update, and the candidate counted in the frequencies under STATS |
| SSUpdate.InsertLast | ss/update.c:47-48 | copy into the last slot followed by insertion_sort gives Inserted of the overwritten set |
| SSUpdate.CountFrequencies | ss/update.c:52-54 | under STATS the frequencies become update_frequency_matrix of the candidate, and stay as they were without STATS |
| SSUpdate.AdmitReplacement | ss/update.c:61-71 | the replacement branch overwrites slot d only, adds one update and counts the candidate under STATS |
| SSUpdate.UpdateRefSet | ss/update.c:14-78 | update_ref_set leaves the reference set and counter UpdatedRefSet gives, with frequencies changed only under STATS |
| SSUpdate.AdmitLoop | ss/update.c:28-76 | the while loop from candidate i0 on leaves the reference set and counter AdmitFrom gives, and counts the admitted candidates in the frequencies under STATS |
| SSUpdate.AdmitFromStops | ss/update.c:28 | the loop stops and changes nothing once the candidate is not cheaper than the last member or the candidates run out |
| SSUpdate.AdmitNext | ss/update.c:37-75 | one pass of the loop body matches one AdmitFrom step, admitted candidates and their frequency counts included |
| SSUpdate.ReplaceBest | ss/update.c:19-24 | slot 0 is overwritten outright by cand[0] when it is cheaper, and the loop then starts at candidate 1, else at 0 |
| SSUpdate.RowPairs | ss/update.c:92-106 | row i of the pair loop stores at most one pair per later index j |
| SSUpdate.RowPairsBound | ss/update.c:92-106 | a row with no near-equal partner stores exactly one pair per later index |
| SSUpdate.PairsUpToBound | ss/update.c:90-108 | the first i rows store at most i(2b - i - 1)/2 pairs |
| SSUpdate.PairsUpToExact | ss/update.c:90-108 | with no near-equal pair the first i rows store exactly that many |
| SSUpdate.SubsetsCount | ss/update.c:84-112 | select_subsets_list stores at most b(b-1)/2 pairs, and exactly that many when no two members are near-equal |
| SSUpdate.RowPairsMembers | ss/update.c:92-106 | row i stores only pairs (set[i], set[j]) with j > i not near-equal, and stores every such pair |
| SSUpdate.PairsUpToSound | ss/update.c:90-108 | every stored pair is (set[a], set[b]) for some a < b that are not near-equal |
| SSUpdate.PairsUpToComplete | ss/update.c:90-108 | every a < b that are not near-equal has its pair stored |
| SSUpdate.SelectSubsetsList | ss/update.c:84-112 | subsets_list starts with the pairs of SubsetsOf in lexicographic i < j order, the rest of the list is untouched and subsets_list_size is their count |
| SSUpdate.StorePairs | ss/update.c:88-108 | the i loop writes exactly those pairs from slot 0 and returns their count, which fits the b*b slots |
| SSUpdate.SelectRow | ss/update.c:92-107 | the j loop appends row i's pairs at position k |
| SSUpdate.RowRoom | ss/update.c:90-108 | a row's pairs always fit in the b*b slots after the earlier rows |
| SSRecombine.GenParams | ss/recombine.c:76-127 | a candidate vector of nreal coordinates, every one clamped into [min_i, max_i] whenever the bounds are ordered |
| SSRecombine.GenParamsBetween | ss/recombine.c:87-124 | from a base within bounds, types 0 and 1 move each coordinate towards base - d (one shared draw or one per coordinate), types 2 and 3 towards base + d, and clamping keeps it on that segment |
| SSRecombine.CoordinateBetween | ss/recombine.c:92-95 | one coordinate stays between the base value and base -/+ d after clamping |
| SSRecombine.FractionBetween | ss/recombine.c:92-119 | base - d*r and base + r*d lie between base and base -/+ d for a draw r in [0, 1] |
| SSRecombine.ClampBetween | ss/recombine.c:93-94 | clamping into a box that holds the base keeps a value on its segment |
| SSRecombine.HalfSteps | ss/recombine.c:17-23 | one half step (m1_j - m0_j)/2 per coordinate |
| SSRecombine.Apply | ss/recombine.c:28-62 | the recipes of one branch give one candidate vector each, in order |
| SSRecombine.RecombineSnoc | ss/recombine.c:15-67 | one more pair appends its own candidates after the earlier pairs' and continues the draw sequence where they stopped |
| SSRecombine.PairOutCount | ss/recombine.c:26-65 | a pair gives 6 candidates when both members are cheaper than mid_cost, 4 when only the first is, 2 when neither is, none otherwise |
| SSRecombine.RecombineCount | ss/recombine.c:15-69 | the number of candidates is the sum of those per-pair counts |
| SSRecombine.TotalCountBounds | ss/recombine.c:15-69 | at most 6 candidates per pair, and at least 2 per pair when every pair's first member is no more expensive than its second |
| SSRecombine.SubsetsOrdered | ss/update.c:90-106 | pairs taken from a cost-sorted set with i < j have first.cost <= second.cost, so the no-candidate branch never happens |
| SSRecombine.ApplyInBounds | ss/recombine.c:93-122 | every candidate of a branch lies within the bounds |
| SSRecombine.ApplySized | ss/recombine.c:90-123 | every candidate of a branch has nreal coordinates |
| SSRecombine.RecombineInBounds | ss/recombine.c:15-67 | every candidate of every pair lies within the bounds |
| SSRecombine.WrittenJoin | ss/recombine.c:28-62 | writing two runs of candidates one after the other writes their concatenation |
| SSRecombine.WrittenWithin | ss/recombine.c:93-122 | written candidates that are within bounds make candidates_set[0..count) within bounds |
| SSRecombine.StampedWritten | ss/recombine.c:95 | stamping is a write of exactly those vectors and keeps every cost |
| SSRecombine.WrittenShaped | ss/recombine.c:95 | writing nreal-long vectors keeps every slot nreal long |
| SSRecombine.GenerateIndCandidate | ss/recombine.c:76-127 | generate_ind_candidate overwrites only the params of slot at, with GenParams of its type, keeps its cost and consumes one draw for type 0 and nreal draws otherwise |
| SSRecombine.CandidateParams | ss/recombine.c:87-125 | the switch on the type computes GenParams and consumes the matching number of draws |
| SSRecombine.SharedDrawLoop | ss/recombine.c:88-97 | type 0 uses the one draw taken before its loop for every coordinate |
| SSRecombine.FreshDrawLoop | ss/recombine.c:98-124 | types 1, 2 and 3 take one fresh draw per coordinate |
| SSRecombine.Emit | ss/recombine.c:28 | one call writes the next planned candidate at candidates_count and increments it |
| SSRecombine.GeneratePair | ss/recombine.c:17-65 | one pair writes exactly PairOut's candidates at candidates_count onwards and advances the draws as PairOut says |
| SSRecombine.BothCheap | ss/recombine.c:26-39 | both cheaper than mid: type 0 from m0, type 0 from m1, type 1 from m0, type 2 from m0, type 3 from m1 twice |
| SSRecombine.FirstCheap | ss/recombine.c:41-50 | only m0 cheaper: types 0, 1, 2 from m0, then type 3 from m1 |
| SSRecombine.NoneCheap | ss/recombine.c:52-63 | neither cheaper: a coin picks type 1 from m0 or type 3 from m1, then type 2 from m0 |
| SSRecombine.PairHalfSteps | ss/recombine.c:17-23 | the j loop computes the half steps |
| SSRecombine.ProgressStep | ss/recombine.c:15-67 | after pair i the candidates written so far are those of the first i+1 pairs, at most 6 more |
| SSRecombine.NextPair | ss/recombine.c:15-67 | one pass of the pair loop adds that pair's candidates |
| SSRecombine.PairLoop | ss/recombine.c:15-67 | the pair loop writes exactly Recombine's candidates from slot 0, at most 6 per pair |
| SSRecombine.GenerateCandidates | ss/recombine.c:8-73 | generate_candiates writes Recombine's candidates from slot 0, sets candidates_set_size to their count (at most 6 per pair) and, with ordered bounds, leaves every candidate within bounds |
| SSLocalSearch.Neighbour | ss/local_search.c:15-26 | take_step's new vector has nreal coordinates |
| SSLocalSearch.CoordinateNearby | ss/local_search.c:21-23 | a draw between MAX(min_i, p_i - step) and MIN(max_i, p_i + step) lies in [min_i, max_i] and within step of p_i |
| SSLocalSearch.NeighbourNearby | ss/local_search.c:18-24 | from a point within bounds and a non-negative step, every new coordinate lies in [min_i, max_i] and within step_size of the old one |
| SSLocalSearch.TakeStep | ss/local_search.c:15-26 | take_step writes exactly the Neighbour vector into new_params, one draw per coordinate, and leaves params alone |
| SSStats.StrictCellFrom | ss/stats.c:7-13 | the j scan from column j picks nothing or a column at or after j |
| SSStats.StrictCell | ss/stats.c:7-13 | the j scan picks nothing or a valid column |
| SSStats.StrictCellFromIsFirst | ss/stats.c:7-13 | the picked column is the first from j on whose open interval holds x; with no pick no such column exists |
| SSStats.StrictCellIsFirst | ss/stats.c:7-13 | the same for the whole row: the first column with min < x < max (strict), or none |
| SSStats.BoundaryHitsNothing | ss/stats.c:9 | a value on a cell boundary, min_i and max_i included, lies strictly inside no cell, so it increments nothing |
| SSStats.BumpFirstCell | ss/stats.c:7-14 | for dimension i only row i of the frequency matrix changes, as BumpedRow says |
| SSStats.UpdateFrequencyMatrix | ss/stats.c:3-16 | every row i is bumped at the first cell strictly holding params[i] (or not at all), frequencies never drop and the probabilities are untouched |
| SSStats.BumpedRowOneCell | ss/stats.c:9-12 | a bumped row grows by exactly one when a cell holds x and not at all otherwise, and every other cell keeps its count |
| SSStats.CountedAllAppend | ss/stats.c:3-16 | counting one list after another is counting their concatenation |
| SSStats.TalliedAppend | ss/stats.c:3-16 | so is the STATS tally |
| SSStats.TalliedTrans | ss/stats.c:3-16 | two tallies in a row, each never lowering a count, are one tally of both lists |
| SSStats.TalliedNone | ss/stats.c:3-16 | tallying nothing changes nothing |
| SSStats.CountedOne | ss/stats.c:3-16 | tallying a single individual is one update_frequency_matrix |
| SSStats.CountedAllTotals | ss/stats.c:7-14 | counting raises no frequency and raises the total of row i by exactly the number of vectors whose coordinate i lies strictly inside a cell |
| SSEvaluate.EvaluatedUpToSpec | ss/evaluate.c:16-23 | the first m members get their objective value as cost, the rest are untouched and no parameter vector changes |
| SSEvaluate.EvaluatedUpToIdempotent | ss/evaluate.c:16-23 | re-evaluating an already evaluated prefix changes nothing |
| SSEvaluate.EvaluatedUpToShaped | ss/evaluate.c:16-23 | evaluation keeps every vector's length |
| SSEvaluate.EvaluateInd | ss/evaluate.c:6-11 | the cost becomes the objective at the parameters and one more function evaluation is counted (the counter objective_function keeps) |
| SSEvaluate.EvaluateSet | ss/evaluate.c:16-23 | evaluate_set gives EvaluatedUpTo of the old members and counts setSize evaluations |
| SSRefine.StepCount | ss/refine.c:50 | the climb loop runs exactly max_no_improve steps, none when that is not positive |
| SSRefine.ClimberOf | ss/refine.c:39-50 | a refinement is fixed by the method character, nreal and that step count |
| SSRefine.ClimbStep | ss/refine.c:53-87 | one step either leaves the individual as it was or replaces it by a strictly cheaper one whose cost is the objective at its new parameters |
| SSRefine.ClimbImproves | ss/refine.c:61-79 | after any number of steps the individual is unchanged or strictly cheaper with an evaluated cost |
| SSRefine.ClimbInBounds | ss/refine.c:57-71 | from a point within bounds, with draws in [0, 1] and a non-negative step, every step stays within bounds |
| SSRefine.RefinedImproves | ss/refine.c:39-93 | refinement never raises the cost and keeps an evaluated individual evaluated |
| SSRefine.RefinedInBounds | ss/refine.c:39-93 | refinement keeps an in-bounds individual in bounds |
| SSRefine.RefineStep | ss/refine.c:53-87 | method 't' and 's' run one ClimbStep on member k (one draw per coordinate, one evaluation); 't' counts a refinement on every step, 's' counts the accepted point in the frequencies under STATS, any other method does nothing |
| SSRefine.Probe | ss/refine.c:57-59 | take_step then evaluate_ind give the neighbour with its objective value, nreal draws and one evaluation |
| SSRefine.RefineIndividual | ss/refine.c:39-93 | member k becomes Refined of its old value; the draws, evaluations and refinement counts are those the method implies for max_no_improve steps, and under STATS with 's' the frequencies count its Trail of accepted points |
| SSRefine.ClimbOnce | ss/refine.c:50-88 | one pass of the step loop keeps the climbing state and the frequency tally in step with Climb and its trail |
| SSRefine.RefineDown | ss/refine.c:17-35 | visiting members i-1 down to 0 keeps the set size, refines at most i members and only moves the draws forward |
| SSRefine.RefineDownTail | ss/refine.c:17 | members at or above the start index are never touched |
| SSRefine.RefineDownDraws | ss/refine.c:17-35 | the draws used are the number of refined members times the draws of one refinement |
| SSRefine.RefineDownVisit | ss/refine.c:27-33 | visiting member i refines it exactly when it is not close to its nearest member, and later (lower) members see the refined value |
| SSRefine.RefineDownImproves | ss/refine.c:17-35 | with a refinement that never raises a cost, no member of the set gets dearer |
| SSRefine.RefineDownKeeps | ss/refine.c:17-35 | any property of members that refinement keeps holds for the whole set afterwards |
| SSRefine.RefinerImproves | ss/refine.c:61-79 | refine_individual never raises a cost |
| SSRefine.RefineSetImproves | ss/refine.c:15-36 | refine_set makes no member dearer and leaves members from set_size on alone |
| SSRefine.RefineSetShaped | ss/refine.c:15-36 | refine_set keeps every vector nreal long |
| SSRefine.RefineSetEvaluated | ss/refine.c:15-36 | refine_set keeps every cost equal to the objective at its parameters |
| SSRefine.RefineSetInBounds | ss/refine.c:15-36 | refine_set keeps every member within the bounds |
| SSRefine.RefineSet | ss/refine.c:15-36 | refine_set leaves the set and draw position RefineSetRun gives: members visited from set_size-1 down, refined iff abs(cost - cost of closest member) >= fitness_epsilon; n_refinement grows by one per refined member plus the per-step counts, and evaluations by those of each refinement |
| SSRefine.VisitNext | ss/refine.c:17-35 | one pass of the i loop keeps the visiting state and the frequency tally in step with RefineDown and its trail |
| SSRefine.VisitMember | ss/refine.c:27-33 | member i is refined exactly when it is not close to its nearest member, with the matching counts and, under STATS, its trail counted in the frequencies |
| SSParams.SSType.constructor | ss/ss.c:100-109 | the record holds the run's settings as given, with arrays for the reference, diverse, subsets (b*b) and candidate (6*b*b) sets |
| SSMain.PermutedAmong | ss/init.c:137 | after the sort every diverse member is one of the drawn ones |
| SSMain.EvaluatedAmong | ss/init.c:142-187 | members copied from an evaluated set are evaluated |
| SSMain.AmongKeeps | ss/init.c:142-187 | members copied from an evaluated, in-bounds set are evaluated and in bounds |
| SSMain.PermutedCosts | ss/sort.c:6-26 | sorting keeps non-negative costs non-negative and keeps a member at most as dear as v |
| SSMain.PrefixPermutedKeeps | ss/sort.c:6-26 | sorting a prefix keeps vector lengths and non-negative costs |
| SSMain.SlotZeroKeeps | ss/update.c:19-24 | with non-negative costs, overwriting slot 0 with a cheaper candidate keeps a member at most as dear as the old best |
| SSMain.OverwriteKeeps | ss/update.c:47-48 | replacing the last member with a cheaper non-negative candidate keeps such a member |
| SSMain.ReplaceKeeps | ss/update.c:61-63 | with fitness_epsilon >= 0, a replacement lowers the replaced cost, so such a member stays |
| SSMain.AdmitStepKeeps | ss/update.c:37-74 | one admission keeps a member at most as dear as the old best, under non-negative costs |
| SSMain.AdmitFromKeeps | ss/update.c:28-76 | so does the whole admission loop |
| SSMain.UpdatedKeeps | ss/update.c:14-78 | so does update_ref_set as a whole |
| SSMain.NegativeCostCanWorsen | ss/update.c:19-24 | a concrete case with negative costs in which slot 0 is overwritten and the best cost goes up from -2 to -1.5 |
| SSMain.RefineSetNonNeg | ss/refine.c:15-36 | refinement with a non-negative objective keeps costs non-negative |
| SSMain.CheaperKeeps | ss/refine.c:61-65 | a set whose members got no dearer still holds a member at most as dear as v |
| SSMain.PicksAmong | ss/init.c:139-195 | every reference member comes from the sorted diverse set and its best b/2 are all in it |
| SSMain.SortedAmong | ss/ss.c:67 | sorting the reference set keeps both facts |
| SSMain.DrawScatterSet | ss/ss.c:53-54 | the scatter set is drawn as InitScatterSet traces it (cells, then roulette members and the final freqs and probs), lies within bounds and is evaluated, with diverse_set_size function evaluations |
| SSMain.BuildRefSet | ss/ss.c:66-67 | init_ref_set then the sort give a cost-sorted, evaluated, in-bounds reference set that is a permutation of the greedy picks traced from the sorted scatter set (a permutation of the drawn one), holding its best b/2 members |
| SSMain.InitSS | ss/ss.c:16-89 | without warm start InitSS leaves the counters zero, subsets_list_size b*b, diverse_set_size evaluations and the sub-regions set up; the scatter set is drawn as traced from the uniform wheel, and the sorted reference set is a permutation of its traced greedy picks whose slot 0 (best) is a cheapest member |
| SSMain.NewCandidates | ss/ss.c:118-125 | pair selection, generation, evaluation and the sort leave candidates_set[0..size) a cost-sorted permutation of Candidates of the reference set (the evaluated Recombine output), the draws moved on by as much and one evaluation counted per candidate |
| SSMain.LocalSearch | ss/ss.c:132-134 | with perform_local_search the reference set, draws, counters and frequencies are those RefineSetRun with method 's' gives; without it nothing changes; either way no member gets dearer |
| SSMain.Admit | ss/ss.c:129 | update_ref_set leaves the reference set, counter and frequencies UpdatedRefSet gives and, in the elitist setting, keeps non-negative costs and a member at most as dear as the old best |
| SSMain.SortedCheapest | ss/ss.c:78 | in a sorted set holding a member at most as dear as v, slot 0 (best) is too |
| SSMain.Renew | ss/ss.c:129-135 | update, optional refinement and the final sort leave a sorted permutation of Renewal of the old reference set, with its draws, counters and frequency tallies; in the elitist setting best is never dearer than before |
| SSMain.Iterate | ss/ss.c:116-135 | one iteration in source order takes the snapshot of the state to one related by Iteration (candidates of the old reference set, then its renewal, sorted), with frequencies never lower and, in the elitist setting, the best cost never higher |
| SSMain.RunSS | ss/ss.c:95-160 | RunSS performs exactly max_iter - 1 iterations (none if max_iter <= 1), each one an Iteration between consecutive snapshots of a trace from the start to the final state; the reference set ends sorted after any iteration and, in the elitist setting, the best cost never goes up |
| SSMain.IterationOf | ss/ss.c:116-135 | NewCandidates' and Renew's results on values make up one Iteration |
| SSMain.TracedStep | ss/ss.c:114-160 | one more Iteration after a trace of n iterations extends it |
| SSMain.IterationSorted | ss/ss.c:135 | an Iteration leaves the reference set sorted by cost |
| SSMain.IterationUncounted | ss/ss.c:116-135 | without STATS an Iteration leaves the frequencies as they were |
| SSMain.TracedUncounted | ss/ss.c:114-160 | without STATS no iteration of a trace touches the frequencies |
| SSMain.Step | ss/ss.c:116-135 | one iteration recorded at the end of the trace of those before it |
| SSReport.OutFile.Write | ss/report.c:23-29 | one fprintf appends its text to the stream and changes nothing else |
| SSReport.DecimalField | ss/report.c:124-127 | a printed %d value is a non-empty token free of tab and newline |
| SSReport.CellsSnoc | ss/report.c:126-127 | one more column appends "\t" and its decimal |
| SSReport.CellsOneLine | ss/report.c:126-127 | the columns of a row never hold a newline |
| SSReport.Rows | ss/report.c:121-127 | write_int_matrix reads the first row rows, each cut to its first col values (none for negative counts) |
| SSReport.MatrixTextSnoc | ss/report.c:121-129 | one more row appends its line |
| SSReport.CellsStep | ss/report.c:126-127 | the column loop's text after c+1 columns |
| SSReport.WriteCells | ss/report.c:126-127 | the c loop appends "\t<v>" for each of the first col values |
| SSReport.WriteRow | ss/report.c:123-128 | one row: the optional decimal iter, then the columns, then "\n" |
| SSReport.WriteIntMatrix | ss/report.c:119-130 | write_int_matrix appends exactly one such line per row, in order |
| SSReport.CellsTokens | ss/ssTools.c:243 | the later strtok calls (tab or newline) give back the decimals of a row's columns |
| SSReport.LineTokens | ss/ssTools.c:243 | a line with a leading field tokenises to that field then the column decimals; with no columns the first token keeps the newline |
| SSReport.AtoiDecimals | ss/ssTools.c:245 | atoi of a printed decimal gives the value back |
| SSReport.NumberLineValues | ss/report.c:123-128 | parse_int_row on a line headed by an iteration number reads that number then the values |
| SSReport.RowRoundTrip | ss/report.c:119-130 | parse_int_row recovers all col values from a row written with iter == -1, and the iteration number followed by them otherwise (a row with no columns and iter -1 excepted) |
| SSReport.EmptyRowReadsZero | ss/report.c:123-128 | a row with no columns and iter -1 is the line "\n", which parse_int_row reads as the single value 0 |
| SSReport.MatrixLines | ss/report.c:119-130 | the text splits into exactly one line per row, each line RowLine without its newline |
| SSReport.MatrixRoundTrip | ss/report.c:119-130 | reading back every line of a written matrix recovers its rows, headed by iter when iter != -1 |
| SSReport.FieldsSnoc | ss/report.c:25-28 | one more parameter appends "%.5lf\t" of it |
| SSReport.IndHeadNext | ss/report.c:25-28 | the parameter loop's text after i+1 parameters |
| SSReport.WriteInd | ss/report.c:19-33 | write_ind appends "<iter>\t" unless iter == -1, member_length parameter fields each followed by a tab, then the cost and "\n" |
| SSReport.SetTextSnoc | ss/report.c:11-14 | one more member appends its write_ind line |
| SSReport.WriteSet | ss/report.c:9-17 | write_set appends one write_ind line per member, in index order |
| SSReport.FieldsTokens | ss/report.c:25-28 | tokenising the parameter fields on tab or newline gives back the formatted parameters |
| SSReport.BodyTokens | ss/report.c:25-29 | the parameter fields then the cost and newline tokenise to the formatted parameters then the cost |
| SSReport.IndLineFields | ss/report.c:19-33 | a write_ind line tokenises to the optional iter, the parameters and the cost, when each formatted value is a tab- and newline-free token |
| SSReport.FieldsOneLine | ss/report.c:25-28 | the parameter fields never hold a newline |
| SSReport.SetLines | ss/report.c:9-17 | the text write_set appends splits into exactly one line per member |
| SSReport.SetRoundTrip | ss/report.c:9-33 | every line of a written set tokenises back to that member's iter, parameters and cost |
| FlyIO.CStr | fly/fly_io.c:27-31 | a C string is the longest NUL-free prefix of its buffer, stopped by a NUL when shorter |
| FlyIO.Chomped | fly/fly_io.c:25-32 | the chomped text is the longest prefix free of newline and carriage return |
| FlyIO.ChompedIdempotent | fly/fly_io.c:25-32 | chomping twice is chomping once |
| FlyIO.ChompWrite | fly/fly_io.c:31 | writing NUL at the first stop character leaves exactly the chomped string |
| FlyIO.Chomp | fly/fly_io.c:25-32 | chomp changes only the first newline, carriage return or terminator into NUL, so the buffer reads as the chomped string |
| FlyIO.SpanEndSpec | fly/fly_io.c:2441-2442 | strcspn stops at the first space, tab, newline, comma or closing parenthesis, or at the end |
| FlyIO.ReadRangeElement | fly/fly_io.c:2436-2446 | the element is the text from i up to the first stop character, and the scan advances one past it |
| FlyIO.RangeTokens | fly/fly_io.c:2458-2488 | every bound the parser collects is a non-empty stop-free run starting with a digit, '-', '.' or 'N' |
| FlyIO.TokeniseRanges | fly/fly_io.c:2456-2488 | the tokenising loop collects exactly the bounds of the line, in order |
| FlyIO.InterpretedAt | fly/fly_io.c:2490-2504 | range i takes tokens 2i and 2i+1: "N/A" becomes -DBL_MAX or DBL_MAX, a parsed number its value, anything else leaves the old bound |
| FlyIO.ReadLineOfRanges | fly/fly_io.c:2450-2509 | the ranges array becomes the first len_ranges interpreted ranges and keeps the rest |
| FlyIO.CreateLineOfRangesFromNA | fly/fly_io.c:2515-2525 | the first ncols ranges become (-DBL_MAX, DBL_MAX) and the rest stay |
| FlyIO.Bounds | fly/fly_io.c:2490-2503 | a line of pairs lists each pair's lower then upper bound |
| FlyIO.RangeLineRoundTrip | fly/fly_io.c:2450-2488 | a line written as "(lo,hi) ..." from valid bound texts tokenises back to exactly those bounds |
| FlyIO.NALineIsFree | fly/fly_io.c:2490-2525 | reading a line of "(N/A,N/A)" pairs gives the same ranges as CreateLineOfRangesFromNA |
| FlyIO.RangeLineValues | fly/fly_io.c:2450-2509 | reading a written line sets range i from pair i |
| FlyIO.HalfRootFrom | fly/fly_io.c:1538 | the search finds the least r with 4 r^2 >= m |
| FlyIO.RefSetSizeLeast | fly/fly_io.c:1538-1541 | the ceiling of 1 + sqrt(1 + 40 nreal)/2, rounded up to even and at least 20, is characterised without reals |
| FlyIO.RoundUpEven | fly/fly_io.c:1539-1540 | an odd size is raised by one; the result is even |
| FlyIO.RefSetSize | fly/fly_io.c:1538-1541 | ref_set_size is even, at least 20, and (r-1)^2 >= (1 + 40 nreal)/4, with r-2 too small unless r is 20 |
| FlyIO.SizesFor | fly/fly_io.c:1538-1545 | max_elite is half of ref_set_size and scatter_set_size is max(10 nreal, 40) |
| FlyIO.RefSetSizeTwenty | fly/fly_io.c:1538-1541 | the reference set has 20 members exactly when nreal is at most 36 |
| FlyIO.SizesFit | fly/fly_io.c:1538-1545 | the scatter set holds the reference set and the elite is a proper part of it |
| FlyIO.ReadTimes | fly/fly_io.c:2225-2266 | the table is accepted iff it is non-empty and every later time is non-negative, above its predecessor and at most gast; then it is returned unchanged |
| FlyIO.ValidTimesIncreasing | fly/fly_io.c:2250-2253 | an accepted table is strictly increasing and its later times lie in [0, gast] |
| FlyIO.FirstTimeUnchecked | fly/fly_io.c:2245-2248 | the first time is not checked: a negative first time is accepted |
| FlyIO.InitDistribution | fly/fly_io.c:3378-3431 | a missing section gives (1, 1.0); a given one is accepted iff the distribution is admissible, q is kept, and only 7 with q == 2 is changed, to 5 |
| FlyIO.BlockStart | fly/fly_io.c:3031-3072 | each block of the mask starts within the mask |
| FlyIO.BlockLength | fly/fly_io.c:3031-3072 | consecutive blocks tile the mask |
| FlyIO.CopyBlock | fly/fly_io.c:3033-3035 | a copy loop reads mask[from..from+len] |
| FlyIO.NextBlock | fly/fly_io.c:3031-3072 | one copy loop reads block b and advances j to the start of block b+1 |
| FlyIO.ReadTweakMask | fly/fly_io.c:3016-3073 | ReadTweak fills each tweak array from its block of the mask in order |
| FlyIO.BlocksPrefix | fly/fly_io.c:3031-3072 | the first k blocks together are the mask's prefix up to block k |
| FlyIO.MaskBlocksTile | fly/fly_io.c:3031-3072 | the tweak blocks, with the whole diffusion block, make up the mask's used prefix in order |
| FlyIO.MaskLayoutShape | fly/fly_io.c:3016-3072 | each tweak array has its allocated length, one diffusion entry under schedules A and C, and the schedule changes nothing but the diffusion entries |
| FlyAmosa.SolverFlag | fly/fly_amosa.c:381-411 | a -s argument selects a solver exactly when it is one of the known flags, and never the unknown solver |
| FlyAmosa.SolverFlagsCover | fly/fly_amosa.c:381-411 | every known solver has a -s flag that selects it back; "m" is Milne and "r" Rk4 |
| FlyAmosa.SolverName | fly/fly_amosa.c:985-1014 | GetOptions names every known solver, with a name from its fixed list |
| FlyAmosa.SolverNamed | fly/fly_amosa.c:1065-1096 | RestoreOptions recognises exactly the listed solver names, never restoring BaDe or the unknown solver |
| FlyAmosa.SolverNameRoundTrip | fly/fly_amosa.c:985-1096 | restoring a saved solver name gives the solver back, except that BaDe comes back as BuSt |
| FlyAmosa.SolverNameInjective | fly/fly_amosa.c:985-1014 | no two solvers are saved under the same name |
| FlyAmosa.DerivName | fly/fly_amosa.c:978-983 | GetOptions names every known derivative function |
| FlyAmosa.DerivNamed | fly/fly_amosa.c:1058-1063 | RestoreOptions recognises exactly "DvdtOrig" and "Dvdt_sqrt" |
| FlyAmosa.DerivNameRoundTrip | fly/fly_amosa.c:978-1063 | restoring a saved derivative name gives it back |
| FlyAmosa.GofUFlag | fly/fly_amosa.c:316-329 | a -g argument is accepted exactly when it is s, t, e, h or k |
| FlyAmosa.StopCriterion | fly/fly_amosa.c:295-304 | -e accepts exactly pfreeze, afreeze and abs, each selecting its own criterion |
| FlyAmosa.SolverOptionChecked | fly/fly_amosa.c:381-411 | -s goes on exactly for a known flag and then changes only the solver, to a known one |
| FlyAmosa.Apply | fly/fly_amosa.c:250-461 | one option of the getopt switch: only -h and -v exit with status 0, and no option changes the input file name (the per-option checks are the lemmas below) |
| FlyAmosa.Defaults | fly/fly_amosa.c:225-238 | the defaults set known solver and derivative functions and frequencies -b and -y would accept, and change nothing else |
| FlyAmosa.StopAndMethodOptions | fly/fly_amosa.c:295-357 | -e is checked; -m never fails, sets the score method to 0 for w and 1 for o, and changes nothing else |
| FlyAmosa.NumericOptionsChecked | fly/fly_amosa.c:256-454 | -f, -i, -b and -y go on exactly when their value passes the source's range checks |
| FlyAmosa.ApplyKeepsValues | fly/fly_amosa.c:250-462 | an accepted option keeps accuracy positive, precision within [0, MAX_PRECISION] and stepsize within (0, MAX_STEPSIZE] |
| FlyAmosa.ApplyKeepsFreqs | fly/fly_amosa.c:256-454 | an accepted option keeps the backup and print frequencies at least 1 and below LONG_MAX |
| FlyAmosa.ApplyKeepsChoices | fly/fly_amosa.c:295-411 | an accepted option keeps the score method 0 or 1 and never selects an unknown solver or derivative |
| FlyAmosa.ApplyKeepsRange | fly/fly_amosa.c:250-462 | an accepted option keeps every checked setting in range |
| FlyAmosa.OptionsKeepRange | fly/fly_amosa.c:249-462 | a whole run of accepted options keeps every checked setting in range |
| FlyAmosa.ParseOutcome | fly/fly_amosa.c:249-475 | parsing goes on only when every option was accepted, -Q and -E are not both given and exactly one argument remains |
| FlyAmosa.ParsedInRange | fly/fly_amosa.c:198-486 | after a successful parse from in-range defaults every checked setting is in range |
| FlyAmosa.SpacedTokens | fly/fly_amosa.c:477-483 | splitting the saved command line on spaces gives back the arguments |
| FlyAmosa.ArgvLineRoundTrip | fly/fly_amosa.c:477-483 | the saved command line is one line whose words are the arguments |
| FlyAmosa.GetOptions | fly/fly_amosa.c:969-1040 | the options are saved iff solver and derivative are known, and their names restore to the same choices (BaDe as BuSt) |
| FlyAmosa.RestoreError | fly/fly_amosa.c:1046-1133 | restoring fails exactly on an unknown derivative or solver name, a landscape run or an equilibration run |
| FlyAmosa.SaveRestore | fly/fly_amosa.c:969-1133 | restoring what GetOptions saved succeeds iff neither landscape nor equilibration was on, and then gives back the settings and command line (BaDe as BuSt) |
| FlyAmosa.Globals.constructor | fly/fly_amosa.c:161-167 | the statics start at stepsize 1.0, accuracy 0.001, precision 8, no prolix or landscape, score method 0 |
| FlyAmosa.Globals.ParseCommandLine | fly/fly_amosa.c:198-486 | on success the globals hold the options applied to the defaults and the saved command line |
| FlyAmosa.Globals.RestoreOptions | fly/fly_amosa.c:1046-1133 | on success the globals hold the restored settings and saved command line |
| Moves.Step | trunk/fly/backup/moves.c:272-281 | after a step the index is below nparams, the hit count has grown by one and nsweeps counts the completed sweeps |
| Moves.StepInStep | trunk/fly/backup/moves.c:272-281 | the counters stay in step (idx is nhits mod nparams, nsweeps nhits div nparams) from step to step |
| Moves.UpdateDueEvery | trunk/fly/backup/moves.c:284-286 | UpdateControl runs exactly when nhits is a positive multiple of nparams times the interval |
| Moves.UpdateDue | trunk/fly/backup/moves.c:284-286 | the control update falls only at the start of a sweep and never before `interval` sweeps are done |
| Moves.Signed | trunk/fly/backup/moves.c:297-300 | the deviate keeps its size; only distribution 1 can flip its sign |
| Moves.DueOnMultiple | trunk/fly/backup/moves.c:284-286 | an update is due only on a positive multiple of nparams times the interval |
| Moves.MultipleIsDue | trunk/fly/backup/moves.c:284-286 | every positive multiple of nparams times the interval triggers an update |
| Moves.Adapted | trunk/fly/backup/moves.c:343-356 | an updated entry records its acceptance ratio, clears its counts and keeps theta_bar at least THETA_MIN, scaled by the steering factor unless clamped |
| Moves.Controlled | trunk/fly/backup/moves.c:314-358 | after UpdateControl every entry has zero counts and theta_bar at least THETA_MIN |
| Moves.Hit | trunk/fly/backup/moves.c:224 | a hit counts on the chosen entry only |
| Moves.Success | trunk/fly/backup/moves.c:243-247 | a success counts on the chosen entry only |
| Moves.MoveThenReject | trunk/fly/backup/moves.c:250-305 | rejecting a move restores the tweaked parameter and every parameter is as before |
| Moves.PairsAt | trunk/fly/backup/moves.c:399-437 | entry i's hits and successes sit at 2i and 2i+1 |
| Moves.TriplesAt | trunk/fly/backup/moves.c:399-437 | parameter i, its ratio and theta_bar sit at 3i, 3i+1 and 3i+2 |
| Moves.LongMsg | trunk/fly/backup/moves.c:399-437 | the long buffer holds idx, nhits and nsweeps, then two counts per parameter |
| Moves.DoubleMsg | trunk/fly/backup/moves.c:399-437 | the double buffer holds the old energy, then three values per parameter |
| Moves.MsgAt | trunk/fly/backup/moves.c:399-437 | where each entry's counts, parameter, ratio and theta_bar lie in the message |
| Moves.Unpack | trunk/fly/backup/moves.c:449-467 | reads n parameters' entries; a message of exactly the MakeStateMsg size is what packing the read state gives back, so with MsgRoundTrip reading and packing are inverse |
| Moves.MsgRoundTrip | trunk/fly/backup/moves.c:399-472 | accepting a state message made by MakeStateMsg restores exactly the state it was made from |
| Moves.MsgInjective | trunk/fly/backup/moves.c:399-437 | two states with the same message are the same state |
| Moves.MoveGenerator.InitMoves | trunk/fly/backup/moves.c:91-161 | every entry starts with no hits or successes and theta_bar THETA_INIT; counters start at zero and the old energy is unscored |
| Moves.MoveGenerator.UpdateControl | trunk/fly/backup/moves.c:314-358 | every entry is replaced by its adapted form: zero counts and theta_bar at least THETA_MIN |
| Moves.MoveGenerator.Move | trunk/fly/backup/moves.c:263-306 | the counters advance one step, UpdateControl runs exactly when due, and only parameter idx changes, by the signed draw, its old value kept as pretweak |
| Moves.MoveGenerator.GenerateMove | trunk/fly/backup/moves.c:207-238 | fails exactly when the first scoring is forbidden; otherwise scores the start once, moves, counts the hit and returns the energy change or the forbidden value |
| Moves.MoveGenerator.AcceptMove | trunk/fly/backup/moves.c:243-247 | the new energy becomes the old one and the success is counted on the current entry |
| Moves.MoveGenerator.RejectMove | trunk/fly/backup/moves.c:250-253 | the tweaked parameter gets its pretweak value back and nothing else changes |
| Moves.MoveGenerator.MakeStateMsg | trunk/fly/backup/moves.c:399-437 | fresh buffers holding exactly the long and double messages of the current state |
| Moves.MoveGenerator.PackParam | trunk/fly/backup/moves.c:425-437 | one loop step writes parameter i's counts and values into the buffers, keeping what is already written |
| Moves.MoveGenerator.AcceptStateMsg | trunk/fly/backup/moves.c:445-472 | the state becomes the unpacked message |
| NSGA2Eval.Shortfall | nsga2/eval.c:40-43 | a constraint value adds nothing to the violation iff it holds (is non-negative), and never adds a positive amount |
| NSGA2Eval.Violation | nsga2/eval.c:37-44 | the violation is at most the shortfall of each constraint value: every unmet constraint counts in full |
| NSGA2Eval.ViolationNonPositive | nsga2/eval.c:37-44 | the constraint violation is never positive |
| NSGA2Eval.FeasibleNoViolation | nsga2/eval.c:37-44 | when every constraint value holds the violation is zero |
| NSGA2Eval.NoViolationFeasible | nsga2/eval.c:37-44 | a zero violation means every constraint value holds |
| NSGA2Eval.ViolationZeroIff | nsga2/eval.c:31-45 | a zero violation is exactly "all ncon constraint values hold" |
| NSGA2Eval.Evaluated | nsga2/eval.c:26-47 | the evaluated individual has the objective function's objectives and constraints, a non-positive violation that is zero iff it is feasible, and unchanged variables |
| NSGA2Eval.EvaluateInd | nsga2/eval.c:26-47 | evaluate_ind's loop adds up exactly the negative constraint values of the first ncon |
| NSGA2Eval.EvaluatePop | nsga2/eval.c:11-23 | the first popsize individuals are each evaluated and the rest of the array is untouched |
| NSGA2Initialize.Bit | nsga2/initialize.c:43-50 | a drawn gene is 0 or 1, and 0 exactly when the uniform draw is at most 0.5 |
| NSGA2Initialize.GenesAt | nsga2/initialize.c:39-52 | variable j < nbin gets its nbits[j] bits from the draws after those of the variables before it; the others are untouched |
| NSGA2Initialize.RowBits | nsga2/initialize.c:41-51 | each of the first nbits[j] entries of a drawn row is 0 or 1 |
| NSGA2Initialize.GenesAreBits | nsga2/initialize.c:37-53 | every drawn gene of every binary variable is a bit |
| NSGA2Initialize.RealsInBounds | nsga2/initialize.c:27-36 | each drawn real lies within its variable's bounds when the bounds are ordered and the draws lie in [0, 1] |
| NSGA2Initialize.InitializedInBounds | nsga2/initialize.c:24-55 | an initialised individual has its reals within bounds and its genes bits |
| NSGA2Initialize.InitializeRow | nsga2/initialize.c:41-51 | the bit loop draws nbits[j] numbers and sets bit k from draw k |
| NSGA2Initialize.InitializeReals | nsga2/initialize.c:27-36 | the real loop draws nreal numbers and sets xreal[j] from draw j within its bounds |
| NSGA2Initialize.InitializeGenes | nsga2/initialize.c:37-53 | the gene loops draw one number per bit, in variable then bit order |
| NSGA2Initialize.InitializeInd | nsga2/initialize.c:24-55 | initialize_ind uses nreal draws then one per bit and leaves the individual as Initialized says |
| NSGA2Initialize.PopulationInBounds | nsga2/initialize.c:13-21 | every individual of an initialised population is within bounds with bit genes |
| NSGA2Initialize.InitializePop | nsga2/initialize.c:13-21 | the first popsize individuals are initialised in turn from consecutive draws and the rest of the array is untouched |
| NSGA2Initialize.InitializeIndFromFile | nsga2/initialize.c:79-89 | the first tokens of the line, up to nreal and up to the first empty token, become xreal[0..] through atof |
| NSGA2Initialize.ReadingStep | nsga2/initialize.c:83-84 | one loop step stores atof of the current token and moves to the next token |
| NSGA2Initialize.ReadingDone | nsga2/initialize.c:83 | the loop stops at the end of the tokens or after nreal values, with the result FromLine describes |
| NSGA2Initialize.CommasTokens | nsga2/initialize.c:83 | strtok with comma and newline as delimiters gives back the fields of a comma-joined line |
| NSGA2Initialize.CommaLineTokens | nsga2/initialize.c:83 | a line of two or more comma-separated fields ending in a newline tokenises to exactly its fields |
| NSGA2Initialize.LoneFieldKeepsNewline | nsga2/initialize.c:83 | a line with one field keeps its newline in that token, since the first strtok splits on comma only |
| NSGA2Initialize.ReadsCommaLine | nsga2/initialize.c:79-89 | reading a comma-separated line sets xreal[j] to atof of field j for j below nreal and the field count, and keeps the rest |
| NSGA2Initialize.InitializePopFromFile | nsga2/initialize.c:57-77 | individual i is read from line i, for as many lines as there are and at most popsize; the rest are untouched |
| CText.TokLen | ss/ssTools.c:243 | strcspn: the length of the longest delimiter-free prefix |
| CText.NextTok | ss/ssTools.c:243 | one strtok call: no token exactly when only delimiters are left; a token holds no delimiter and the rest shrinks |
| CText.TokensCons | ss/ssTools.c:243 | a delimiter-free word followed by a delimiter is the next token, and scanning resumes after that delimiter |
| CText.StrtokCons | nsga2/initialize.c:83 | the first strtok call uses its own delimiter set and later calls the other |
| CText.StrtokWhole | nsga2/initialize.c:83 | a line with no first-call delimiter is one token |
| CText.LinesJoin | ss/report.c:119-130 | splitting newline-terminated lines, none holding a newline, gives the lines back |
| CText.IntToString | ss/report.c:124-127 | %d prints an optional minus sign then digits |
| CText.DigitsOfNat | ss/report.c:127 | the digits printed for a natural number read back as that number |
| CText.AtoiIntToString | ss/ssTools.c:245 | atoi of a printed int followed by a non-digit gives the int back |
| Oracle.Rng.RndReal | nsga2/initialize.c:32 | rndreal uses one draw and, for ordered bounds, returns a value between them |
| Oracle.Rng.RandomPerc | nsga2/initialize.c:43 | randomperc uses one draw and returns it, a value in [0, 1] |
| Oracle.DrawInRange | nsga2/initialize.c:32 | a draw in [0, 1] scaled to ordered bounds lies between them |

## Left out

- The objective (`objective_function` in ss/problemdef.c and nsga2/problemdef.c, an external ODE scorer) is a function parameter; each call counts one function evaluation.
- `rndreal`, `randomperc` and `RandomReal` are an oracle: a tape of draws in [0, 1] consumed in code order; how `rand()` produces them is not modelled.
- Doubles are `real`: rounding, NaN and infinities are not modelled; `DBL_MAX` is a large constant.
- Euclidean distances are compared squared against `dist_epsilon` squared, so `sqrt` is not modelled; this is exact because the distance is never negative.
- Floating-point parsing and printing (`atof`, `strtol`, `sscanf("%lg")`, `%lf`, `%.5lf`) are function parameters; only `%d` and `atoi` are modelled as text.
- Counts and indices are unbounded integers; `int` and `long` overflow is not modelled, except that `LONG_MAX` is kept as the value `strtol` saturates to.
- Memory management (ss/allocate.c, `calloc`/`free`) is not modelled: the `SSType` constructor creates the arrays. The candidate set is allocated with b*b*6 slots but freed as b*b*4; that mismatch is outside the model.
- The warm start of `InitSS` is not modelled, because the source of `warm_start` is not part of this model; only the cold start is.
- The history files, progress bar, `printf` output and final report of `RunSS` are not modelled.
- `matrix_product` (unused), `parse_double_row`, `is_subset_exist` (a stub) and `refine_subsets_list` in ss/ssTools.c are not modelled.
- `nelder_mead` has an empty body and is not modelled.
- `diverse_set_size` and `scatter_set_size` are one setting in the model: the scatter set read by `init_scatter_set` is assumed to be the size `ReadSSParameters` computes. `FlyIO.SizesFit` shows that those sizes fit the reference set.
- SSUpdate.UpdateRefSet: the admission loop of update_ref_set has no bound on the candidate index; the model stops at `candidates_set_size`, since reading past the generated candidates is undefined.
- SSUpdate.ReplaceBest: when no candidate was generated, update_ref_set still compares `candidates_set[0]`; the model reads that slot as an earlier iteration or the allocation left it.
- SSMain.RunSS: does not claim that the reference set stays evaluated and within bounds, because the stale candidate slot 0 can enter it; it claims sortedness, the iteration count and, with non-negative costs, that the best cost never rises.
- SSMain.NewCandidates: the candidate sort is skipped when no candidate was generated; the C call reads `numbers[0]` out of range but changes nothing.
- SSSort.QuickSortSet: requires the key `'c'` and `set_size >= 1`; any other key leaves `numbers` uninitialised and an empty set reads `numbers[0]`, so those calls have no defined behaviour to model.
- SSRefine.RefineSet: requires `set_size != 1`; `closest_member` on a one-member set has no other member and reads out of range.
- The STATS compile-time switch is a boolean setting of `SSType`.
- The MPI build is modelled only in the state message of moves.c (`MakeStateMsg`, `AcceptStateMsg` and their buffers, trunk/fly/backup/moves.c:386-473, compiled under `#ifdef MPI`), because it is a round trip on the move state; the message passing itself and every other MPI branch of fly_amosa.c and moves.c are not modelled.
- SSTools.ParseIntRow: requires no more tokens than the row holds; a longer line makes the C code write past the end of the array, which has no behaviour to model.
- FlyAmosa.Globals.ParseCommandLine: `getopt` itself is not modelled; the parsed options arrive as a sequence of (option, argument) pairs together with the final `optind`.
- FlyAmosa.Globals.ParseCommandLine: `PrintMsg` and `error` abort the program; the model returns an outcome that says why it stopped. Help, version and usage messages are outcomes, not text.
- `MAX_PRECISION` and `MAX_STEPSIZE` are parameters.
- `SetOutname`, `SetProlix` and the file-writing options of fly_amosa.c are not modelled; `argvsave` is built without the `MAX_RECORD` limit.
- The section readers of fly_io.c (`FindSection`, `fscanf`, `fgets`) are not modelled: `ReadTimes`, `InitDistribution` and `ReadTweak` receive what they would have read. The file branch of `ReadTweak` is not modelled.
- `qgt2_init` and `qlt2_init` (the q-dependent factors of distribution 7) are outside this model.
- `ReadLineOfRanges` copies at most `MAX_RECORD` characters per token; longer tokens are not modelled.
- Moves.Adapted: the acceptance ratio of an entry with no hits is taken as 0, where the C division is 0/0.
- Moves.Adapted: the `exp(log(theta_bar) + ...)` update of the move size is a function parameter, so only the `THETA_MIN` floor is proved.
- The random deviate of `Move` (`generate_dev`) and the sign draw are parameters of the move.
- `MoveSA` (the scoring of `GenerateMove`) is a function parameter, and `FORBIDDEN_MOVE` is a parameter.
- `RestoreMoves`, `GetFinalInfo` and `MoveSave` in moves.c are not modelled; `InitMoves` does not read the parameter file and receives the parameter array and annealing settings instead.
- NSGA-II: `initialize_pop_from_file` opens a hard-coded path; the file is not opened here and its lines arrive as a sequence, so a failed `fopen` is not modelled.
- NSGA2Initialize.InitializePopFromFile: `fgets` splits lines longer than 1023 characters into several reads; the model takes whole lines.
- NSGA-II: `atof` is a function parameter, the `printf` calls of `initialize_ind_from_file` are not modelled, and `xbin` is not decoded from the genes.
- NSGA-II: the individuals' C buffers are sequence values, so aliasing between individuals is not modelled.
- The file output of nsga2/report.c and fly_io.c's write and print functions are not modelled.
