/** ss/ssTools.c: searches over a set, extreme values with their index,
    deleting by shifting, copying, the flat-zone test and the integer row
    parser used to warm-start from a frequency matrix. */
module SSTools {
  import opened SSTypes
  import opened CText
  import opened SSParams

  // ---------------------------------------------------------------------------
  // is_exist

  /** The answer of `is_exist`: the highest index below `len` whose member
      is near-equal to `x`, or -1 when there is none. */
  function ExistIndex(s: seq<Individual>, x: Individual, n: nat, len: nat, eps: real): (r: int)
    requires len <= |s| && Shaped(s, n) && |x.params| == n
    ensures -1 <= r < len
    ensures r >= 0 ==> IsEqual(s[r], x, n, eps)
    ensures forall j :: r < j < len ==> !IsEqual(s[j], x, n, eps)
  {
    if len == 0 then -1
    else if IsEqual(s[len - 1], x, n, eps) then len - 1
    else ExistIndex(s, x, n, len - 1, eps)
  }

  /** is_exist: scans `members[0..setSize)` downward and stops at the first match. */
  method IsExist(ss: SSType, members: array<Individual>, setSize: int, ind: Individual) returns (index: int)
    requires 0 <= setSize <= members.Length && Shaped(members[..], ss.nreal) && |ind.params| == ss.nreal
    ensures index == ExistIndex(members[..], ind, ss.nreal, setSize, ss.distEpsilon)
  {
    index := -1;
    var i := setSize - 1;
    while i >= 0
      invariant -1 <= i < setSize
      invariant ExistIndex(members[..], ind, ss.nreal, setSize, ss.distEpsilon)
             == ExistIndex(members[..], ind, ss.nreal, i + 1, ss.distEpsilon)
    {
      if IsEqual(members[i], ind, ss.nreal, ss.distEpsilon) {
        index := i;
        break;
      }
      i := i - 1;
    }
  }

  // ---------------------------------------------------------------------------
  // closest_member

  /** The member `closest_member` starts from: the previous one, or the
      neighbour when `idx` is at either end. */
  function StartCandidate(len: nat, idx: nat): (c: nat)
    requires 2 <= len && idx < len
    ensures c < len && c != idx
  {
    if idx == len - 1 then len - 2 else if idx == 0 then 1 else idx - 1
  }

  /** The squared distances from `x` to `s[0..len)`. */
  function Dists(s: seq<Individual>, x: Individual, n: nat, len: nat): (ds: seq<real>)
    requires len <= |s| && Shaped(s, n) && |x.params| == n
    ensures |ds| == len && forall j :: 0 <= j < len ==> ds[j] == SqDist(x.params, s[j].params, n)
  {
    if len == 0 then [] else Dists(s, x, n, len - 1) + [SqDist(x.params, s[len - 1].params, n)]
  }

  /** Scan of `closest_member` over the distances `ds` from index `i` with
      the current best `best`: the best is replaced only by a strictly
      closer member. */
  function ClosestFrom(ds: seq<real>, idx: nat, i: nat, best: nat): (r: nat)
    requires best < |ds| && best != idx && i <= |ds|
    decreases |ds| - i
    ensures r < |ds| && r != idx
  {
    if i == |ds| then best
    else if i != idx && ds[i] < ds[best] then ClosestFrom(ds, idx, i + 1, i)
    else ClosestFrom(ds, idx, i + 1, best)
  }

  /** The scan ends on a member no farther than `best` and than every
      member from `i` on; it moves away from `best` only to a strictly
      closer member, strictly closer than every member it passed. */
  lemma {:induction false} ClosestFromSpec(ds: seq<real>, idx: nat, i: nat, best: nat)
    requires best < |ds| && best != idx && i <= |ds|
    decreases |ds| - i
    ensures var r := ClosestFrom(ds, idx, i, best);
      && ds[r] <= ds[best]
      && (forall j :: i <= j < |ds| && j != idx ==> ds[r] <= ds[j])
      && (r != best ==> i <= r && ds[r] < ds[best] && forall j :: i <= j < r && j != idx ==> ds[r] < ds[j])
  {
    if i < |ds| {
      if i != idx && ds[i] < ds[best] {
        ClosestFromSpec(ds, idx, i + 1, i);
      } else {
        ClosestFromSpec(ds, idx, i + 1, best);
      }
    }
  }

  /** The answer of `closest_member` for member `idx` of a set of `len >= 2`
      members: another member at minimal distance from `x`. */
  function ClosestIndex(s: seq<Individual>, x: Individual, n: nat, idx: nat, len: nat): (r: nat)
    requires 2 <= len <= |s| && idx < len && Shaped(s, n) && |x.params| == n
    ensures r < len && r != idx
  {
    ClosestFrom(Dists(s, x, n, len), idx, 0, StartCandidate(len, idx))
  }

  /** closest_member is a nearest other member; ties go to the starting
      neighbour when it is among the nearest, and otherwise to the lowest
      index. */
  lemma ClosestIndexIsNearest(s: seq<Individual>, x: Individual, n: nat, idx: nat, len: nat)
    requires 2 <= len <= |s| && idx < len && Shaped(s, n) && |x.params| == n
    ensures var r := ClosestIndex(s, x, n, idx, len);
      && r < len && r != idx
      && (forall j :: 0 <= j < len && j != idx ==> SqDist(x.params, s[r].params, n) <= SqDist(x.params, s[j].params, n))
      && (SqDist(x.params, s[r].params, n) == SqDist(x.params, s[StartCandidate(len, idx)].params, n) ==> r == StartCandidate(len, idx))
      && (r != StartCandidate(len, idx) ==>
            forall j :: 0 <= j < r && j != idx ==> SqDist(x.params, s[r].params, n) < SqDist(x.params, s[j].params, n))
  {
    ClosestFromSpec(Dists(s, x, n, len), idx, 0, StartCandidate(len, idx));
  }

  method ClosestMember(ss: SSType, members: array<Individual>, setSize: int, ind: Individual, indIndex: int) returns (minIndex: int)
    requires 2 <= setSize <= members.Length && 0 <= indIndex < setSize
    requires Shaped(members[..], ss.nreal) && |ind.params| == ss.nreal
    ensures minIndex == ClosestIndex(members[..], ind, ss.nreal, indIndex, setSize)
  {
    var n := ss.nreal;
    var min: real;
    if indIndex == setSize - 1 {
      min := SqDist(ind.params, members[setSize - 2].params, n);
      minIndex := setSize - 2;
    } else if indIndex == 0 {
      min := SqDist(ind.params, members[1].params, n);
      minIndex := 1;
    } else {
      min := SqDist(ind.params, members[indIndex - 1].params, n);
      minIndex := indIndex - 1;
    }
    ghost var ds := Dists(members[..], ind, n, setSize);
    var i := 0;
    while i < setSize
      invariant 0 <= i <= setSize && 0 <= minIndex < setSize && minIndex != indIndex
      invariant min == ds[minIndex]
      invariant ClosestIndex(members[..], ind, n, indIndex, setSize) == ClosestFrom(ds, indIndex, i, minIndex)
    {
      if i != indIndex {
        var dist := SqDist(ind.params, members[i].params, n);
        if dist < min {
          min := dist;
          minIndex := i;
        }
      }
      i := i + 1;
    }
  }

  // ---------------------------------------------------------------------------
  // min and max

  /** min: the smallest of `arr[0..length)`. `index` is written only when
      an element at a position >= 1 is strictly smaller than all before it,
      so when `arr[0]` is a minimum the caller's previous index is kept. */
  method Min(arr: seq<real>, length: int, index: int) returns (minimum: real, newIndex: int)
    requires 1 <= |arr| && length <= |arr|
    ensures forall k :: 0 <= k < length ==> minimum <= arr[k]
    ensures (forall k :: 1 <= k < length ==> arr[0] <= arr[k]) ==> minimum == arr[0] && newIndex == index
    ensures (exists k :: 1 <= k < length && arr[k] < arr[0]) ==>
              && 1 <= newIndex < length && minimum == arr[newIndex]
              && forall k :: 0 <= k < newIndex ==> minimum < arr[k]
  {
    minimum := arr[0];
    newIndex := index;
    var i := 1;
    while i < length
      invariant 1 <= i <= |arr| && (length >= 1 ==> i <= length) && (length < 1 ==> i == 1)
      invariant forall k :: 0 <= k < i ==> minimum <= arr[k]
      invariant (forall k :: 1 <= k < i ==> arr[0] <= arr[k]) ==> minimum == arr[0] && newIndex == index
      invariant (exists k :: 1 <= k < i && arr[k] < arr[0]) ==>
                  && 1 <= newIndex < i && minimum == arr[newIndex]
                  && forall k :: 0 <= k < newIndex ==> minimum < arr[k]
    {
      if minimum > arr[i] {
        minimum := arr[i];
        newIndex := i;
      }
      i := i + 1;
    }
  }

  /** max: the largest of `arr[0..length)`, with the same stale-index rule. */
  method Max(arr: seq<real>, length: int, index: int) returns (maximum: real, newIndex: int)
    requires 1 <= |arr| && length <= |arr|
    ensures forall k :: 0 <= k < length ==> arr[k] <= maximum
    ensures (forall k :: 1 <= k < length ==> arr[k] <= arr[0]) ==> maximum == arr[0] && newIndex == index
    ensures (exists k :: 1 <= k < length && arr[0] < arr[k]) ==>
              && 1 <= newIndex < length && maximum == arr[newIndex]
              && forall k :: 0 <= k < newIndex ==> arr[k] < maximum
  {
    maximum := arr[0];
    newIndex := index;
    var i := 1;
    while i < length
      invariant 1 <= i <= |arr| && (length >= 1 ==> i <= length) && (length < 1 ==> i == 1)
      invariant forall k :: 0 <= k < i ==> arr[k] <= maximum
      invariant (forall k :: 1 <= k < i ==> arr[k] <= arr[0]) ==> maximum == arr[0] && newIndex == index
      invariant (exists k :: 1 <= k < i && arr[0] < arr[k]) ==>
                  && 1 <= newIndex < i && maximum == arr[newIndex]
                  && forall k :: 0 <= k < newIndex ==> arr[k] < maximum
    {
      if maximum < arr[i] {
        maximum := arr[i];
        newIndex := i;
      }
      i := i + 1;
    }
  }

  // ---------------------------------------------------------------------------
  // delete_and_shift and copy_ind

  /** The set after `delete_and_shift`: every member in `[index, setSize-1)`
      is replaced by its right neighbour; the rest is unchanged. */
  function Shifted(s: seq<Individual>, setSize: int, index: nat): (t: seq<Individual>)
    requires setSize <= |s|
    ensures |t| == |s|
  {
    seq(|s|, k requires 0 <= k < |s| => if index <= k < setSize - 1 then s[k + 1] else s[k])
  }

  /** Shifting deletes the member at `index` and keeps the others in order;
      the last member ends up twice, at `setSize - 2` and `setSize - 1`. */
  lemma ShiftedDeletes(s: seq<Individual>, setSize: int, index: nat)
    requires index < setSize <= |s|
    ensures Shifted(s, setSize, index)[..setSize - 1] == s[..index] + s[index + 1..setSize]
    ensures Shifted(s, setSize, index)[setSize - 1..] == s[setSize - 1..]
  {
    var t := Shifted(s, setSize, index);
    assert forall k :: 0 <= k < setSize - 1 ==> t[k] == (s[..index] + s[index + 1..setSize])[k];
  }

  method DeleteAndShift(ss: SSType, members: array<Individual>, setSize: int, indexToDelete: int)
    requires 0 <= indexToDelete && setSize <= members.Length
    modifies members
    ensures members[..] == Shifted(old(members[..]), setSize, indexToDelete)
  {
    var i := indexToDelete;
    while i < setSize - 1
      invariant indexToDelete <= i
      invariant forall k :: 0 <= k < members.Length ==>
                  members[k] == (if indexToDelete <= k < i && k < setSize - 1 then old(members[k + 1]) else old(members[k]))
    {
      members[i] := members[i + 1];
      i := i + 1;
    }
    assert members[..] == Shifted(old(members[..]), setSize, indexToDelete);
  }

  /** copy_ind(dest, src): the first `nreal` parameters and the cost of
      `src` into slot `k` of `dest`. */
  method CopyInd(ss: SSType, dest: array<Individual>, k: int, src: Individual)
    requires 0 <= k < dest.Length && ss.nreal <= |src.params|
    modifies dest
    ensures dest[..] == old(dest[..])[k := Individual(src.params[..ss.nreal], src.cost)]
  {
    dest[k] := Individual(src.params[..ss.nreal], src.cost);
  }

  // ---------------------------------------------------------------------------
  // is_in_flatzone

  /** `cost` lies strictly within a relative band `eps` around `c`. */
  predicate InFlatzone(c: real, cost: real, eps: real)
  {
    cost < c + c * eps && cost > c - c * eps
  }

  /** With a non-negative tolerance, no member of non-positive cost has a
      flat zone. */
  lemma NoFlatzoneAtNonPositiveCost(c: real, cost: real, eps: real)
    requires eps >= 0.0 && c <= 0.0
    ensures !InFlatzone(c, cost, eps)
  {
    assert c * eps <= 0.0 by {
      assert (-c) * eps >= 0.0 by { MulNonNegReal(-c, eps); }
    }
  }

  /** is_in_flatzone: is `ind` in the flat zone of some member of
      `members[0..setSize)`; on the first hit the counter goes up once. */
  method IsInFlatzone(ss: SSType, members: array<Individual>, setSize: int, ind: Individual) returns (isInFlatzone: bool)
    requires setSize <= members.Length
    modifies ss`nFlatzoneDetected
    ensures isInFlatzone <==> exists i :: 0 <= i < setSize && InFlatzone(members[i].cost, ind.cost, ss.fitnessEpsilon)
    ensures ss.nFlatzoneDetected == old(ss.nFlatzoneDetected) + (if isInFlatzone then 1 else 0)
  {
    isInFlatzone := false;
    var i := 0;
    while i < setSize
      invariant 0 <= i <= members.Length && (setSize >= 0 ==> i <= setSize)
      invariant !isInFlatzone && ss.nFlatzoneDetected == old(ss.nFlatzoneDetected)
      invariant forall j :: 0 <= j < i ==> !InFlatzone(members[j].cost, ind.cost, ss.fitnessEpsilon)
    {
      if InFlatzone(members[i].cost, ind.cost, ss.fitnessEpsilon) {
        ss.nFlatzoneDetected := ss.nFlatzoneDetected + 1;
        isInFlatzone := true;
        break;
      }
      i := i + 1;
    }
  }

  // ---------------------------------------------------------------------------
  // is_exist_in_subsets_list

  /** is_exist_in_subsets_list: some stored pair holds `x` and `y`, in
      either order, up to near-equality. */
  function InSubsetsList(pairs: seq<Pair>, x: Individual, y: Individual, n: nat, eps: real): (r: bool)
    requires |x.params| == n && |y.params| == n
    requires forall k :: 0 <= k < |pairs| ==> |pairs[k].first.params| == n && |pairs[k].second.params| == n
    ensures r <==> exists k :: 0 <= k < |pairs| && PairMatches(pairs[k], x, y, n, eps)
  {
    if pairs == [] then false
    else if PairMatches(pairs[0], x, y, n, eps) then true
    else
      var r := InSubsetsList(pairs[1..], x, y, n, eps);
      assert forall k :: 1 <= k < |pairs| ==> pairs[k] == pairs[1..][k - 1];
      r
  }

  predicate PairMatches(q: Pair, x: Individual, y: Individual, n: nat, eps: real)
    requires |x.params| == n && |y.params| == n && |q.first.params| == n && |q.second.params| == n
  {
    (IsEqual(x, q.first, n, eps) && IsEqual(y, q.second, n, eps))
    || (IsEqual(y, q.first, n, eps) && IsEqual(x, q.second, n, eps))
  }

  // ---------------------------------------------------------------------------
  // parse_int_row

  const Tab: set<char> := {'\t'}
  const TabOrNewline: set<char> := {'\t', '\n'}

  /** The values `parse_int_row` stores: atoi of each token, the first
      token split off at tabs and the later ones at tabs or newlines. */
  function RowValues(line: string): (vs: seq<int>)
  {
    AtoiAll(Strtok(line, Tab, TabOrNewline))
  }

  /** atoi of every token, in order. */
  function AtoiAll(toks: seq<string>): (vs: seq<int>)
    ensures |vs| == |toks| && forall k :: 0 <= k < |toks| ==> vs[k] == Atoi(toks[k])
  {
    if toks == [] then [] else AtoiAll(toks[..|toks| - 1]) + [Atoi(toks[|toks| - 1])]
  }

  /** parse_int_row: `row[k]` is the k-th value of `RowValues`, in order.
      The loop has no bound of its own, so the row must have room for
      every token. */
  method ParseIntRow(ss: SSType, line: string, row: array<int>)
    requires |RowValues(line)| <= row.Length
    modifies row
    ensures row[..|RowValues(line)|] == RowValues(line)
    ensures row[|RowValues(line)|..] == old(row[|RowValues(line)|..])
  {
    var toks := Strtok(line, Tab, TabOrNewline);
    StoreValues(toks, row);
    assert row[..|toks|] == AtoiAll(toks);
  }

  /** The loop of parse_int_row over the tokens: `row[k] = atoi(tok)`. */
  method StoreValues(toks: seq<string>, row: array<int>)
    requires |toks| <= row.Length
    modifies row
    ensures forall k :: 0 <= k < |toks| ==> row[k] == Atoi(toks[k])
    ensures row[|toks|..] == old(row[|toks|..])
  {
    var i := 0;
    while i < |toks|
      invariant 0 <= i <= |toks|
      invariant forall k :: 0 <= k < i ==> row[k] == Atoi(toks[k])
      invariant forall k :: i <= k < row.Length ==> row[k] == old(row[k])
    {
      row[i] := Atoi(toks[i]);
      i := i + 1;
    }
  }
}
