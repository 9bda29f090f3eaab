/** ss/sort.c: the in-place quicksort of a set by cost and the insertion of
    a new last member into an otherwise sorted set.

    Both move whole individuals, so a cost always travels with its
    parameter vector. */
module SSSort {
  import opened SSTypes
  import opened SSParams

  // ---------------------------------------------------------------------------
  // quick_sort_set and quick_sort

  /** Every member costs at most `v`. */
  predicate CostsAtMost(s: seq<Individual>, v: real)
  {
    forall k :: 0 <= k < |s| ==> s[k].cost <= v
  }

  /** Every member costs at least `v`. */
  predicate CostsAtLeast(s: seq<Individual>, v: real)
  {
    forall k :: 0 <= k < |s| ==> v <= s[k].cost
  }

  lemma AtMostPermuted(a: seq<Individual>, b: seq<Individual>, v: real)
    requires multiset(a) == multiset(b) && CostsAtMost(a, v)
    ensures CostsAtMost(b, v)
  {
    forall k | 0 <= k < |b| ensures b[k].cost <= v {
      assert b[k] in multiset(a);
      var i :| 0 <= i < |a| && a[i] == b[k];
    }
  }

  lemma AtLeastPermuted(a: seq<Individual>, b: seq<Individual>, v: real)
    requires multiset(a) == multiset(b) && CostsAtLeast(a, v)
    ensures CostsAtLeast(b, v)
  {
    forall k | 0 <= k < |b| ensures v <= b[k].cost {
      assert b[k] in multiset(a);
      var i :| 0 <= i < |a| && a[i] == b[k];
    }
  }

  /** Exchanging two members keeps the members. */
  lemma SwapPermutes(u: seq<Individual>, i: nat, j: nat)
    requires i < j < |u|
    ensures multiset(u[i := u[j]][j := u[i]]) == multiset(u)
  {
    var t := u[i := u[j]][j := u[i]];
    assert u == u[..i] + [u[i]] + u[i + 1..j] + [u[j]] + u[j + 1..];
    assert t == u[..i] + [u[j]] + u[i + 1..j] + [u[i]] + u[j + 1..];
  }

  /** Moving the hole: filling the hole at `i` with the member at `j` and
      leaving the hole at `j` keeps the members, the hole counted as `v`. */
  lemma MoveHole(s: seq<Individual>, i: nat, j: nat, v: Individual)
    requires i < |s| && j < |s| && i != j
    ensures multiset(s[i := s[j]][j := v]) == multiset(s[i := v])
  {
    var u := s[i := v];
    assert s[i := s[j]][j := v] == u[i := u[j]][j := u[i]];
    if i < j { SwapPermutes(u, i, j); } else {
      assert u[i := u[j]][j := u[i]] == u[j := u[i]][i := u[j]];
      SwapPermutes(u, j, i);
    }
  }

  /** A sorted left part, a pivot and a sorted right part, split at the
      pivot's cost, make a sorted whole. */
  lemma SortedJoin(a: seq<Individual>, x: Individual, b: seq<Individual>)
    requires SortedByCost(a) && SortedByCost(b)
    requires CostsAtMost(a, x.cost) && CostsAtLeast(b, x.cost)
    ensures SortedByCost(a + [x] + b)
  {
    var s := a + [x] + b;
    forall i, j | 0 <= i < j < |s| ensures s[i].cost <= s[j].cost {
      if j < |a| {
      } else if i < |a| {
        assert s[i] == a[i];
        if j > |a| { assert s[j] == b[j - |a| - 1]; }
      } else if i == |a| {
        assert s[j] == b[j - |a| - 1];
      } else {
        assert s[i] == b[i - |a| - 1] && s[j] == b[j - |a| - 1];
      }
    }
  }

  /** Two arrays with the same members that agree outside `[l, r)` have the
      same members inside it. */
  lemma SegmentPermuted(a: seq<Individual>, b: seq<Individual>, l: nat, r: nat)
    requires l <= r <= |a| == |b| && multiset(a) == multiset(b)
    requires a[..l] == b[..l] && a[r..] == b[r..]
    ensures multiset(a[l..r]) == multiset(b[l..r])
  {
    assert a == a[..l] + a[l..r] + a[r..];
    assert b == a[..l] + b[l..r] + a[r..];
    MiddleCancels(a[..l], a[l..r], b[l..r], a[r..]);
  }

  /** Equal multisets of `p + x + q` and `p + y + q` have equal middles. */
  lemma MiddleCancels(p: seq<Individual>, x: seq<Individual>, y: seq<Individual>, q: seq<Individual>)
    requires multiset(p + x + q) == multiset(p + y + q)
    ensures multiset(x) == multiset(y)
  {
    var mp, mq, mx, my := multiset(p), multiset(q), multiset(x), multiset(y);
    assert mp + mx + mq == mp + my + mq;
    forall e ensures mx[e] == my[e] {
      assert (mp + mx + mq)[e] == (mp + my + mq)[e];
    }
  }

  /** Changing one member inside `[l, r)` leaves the parts outside alone. */
  lemma UpdateOutside(m: seq<Individual>, i: int, x: Individual, l: int, r: int)
    requires 0 <= l <= i < r <= |m|
    ensures m[i := x][..l] == m[..l] && m[i := x][r..] == m[r..]
  {
  }

  /** quick_sort_set with key 'c': copies the costs into a separate
      `numbers` array and sorts `members[0..setSize)` by them. The key must
      be 'c', since for any other key `numbers` is never filled, and the
      set must not be empty, since `quick_sort` reads `numbers[left]` even
      for the range [0, -1]. */
  method QuickSortSet(ss: SSType, members: array<Individual>, setSize: int, key: char)
    requires key == 'c' && 1 <= setSize <= members.Length
    modifies members
    ensures SortedByCost(members[..setSize])
    ensures multiset(members[..setSize]) == multiset(old(members[..setSize]))
    ensures members[setSize..] == old(members[setSize..])
  {
    var numbers := new real[setSize];
    var i := 0;
    while i < setSize
      invariant 0 <= i <= setSize
      invariant forall k :: 0 <= k < i ==> numbers[k] == members[k].cost
      invariant members[..] == old(members[..])
    {
      if key == 'c' {
        numbers[i] := members[i].cost;
      }
      i := i + 1;
    }
    QuickSort(ss, members, setSize, numbers, 0, setSize - 1);
    assert members[..setSize] == members[0..setSize];
    assert old(members[..setSize]) == old(members[..])[0..setSize];
  }

  /** `after` is `before` with `[lo, hi)` sorted by cost and the rest
      untouched. */
  ghost predicate SortedPart(before: seq<Individual>, after: seq<Individual>, lo: int, hi: int)
  {
    && 0 <= lo <= hi <= |before| == |after|
    && after[..lo] == before[..lo] && after[hi..] == before[hi..]
    && multiset(after[lo..hi]) == multiset(before[lo..hi])
    && SortedByCost(after[lo..hi])
  }

  /** An empty range is sorted by doing nothing. */
  lemma SortedPartEmpty(s: seq<Individual>, lo: int)
    requires 0 <= lo <= |s|
    ensures SortedPart(s, s, lo, lo)
  {
  }

  /** quick_sort: sorts `members[left..right]` (both ends included) by the
      costs mirrored in `numbers`: partition around the first member, then
      sort the two sides recursively. */
  method QuickSort(ss: SSType, members: array<Individual>, setSize: int, numbers: array<real>, left: int, right: int)
    requires 0 <= left <= right < numbers.Length <= members.Length
    requires forall k :: 0 <= k < numbers.Length ==> numbers[k] == members[k].cost
    modifies members, numbers
    decreases right - left
    ensures forall k :: 0 <= k < numbers.Length ==> numbers[k] == members[k].cost
    ensures SortedPart(old(members[..]), members[..], left, right + 1)
  {
    ghost var s0 := members[..];
    var pivotIndex := Partition(members, numbers, left, right);
    ghost var mid := members[..];
    if left < pivotIndex {
      QuickSort(ss, members, setSize, numbers, left, pivotIndex - 1);
    } else {
      SortedPartEmpty(mid, left);
    }
    ghost var m2 := members[..];
    if pivotIndex < right {
      QuickSort(ss, members, setSize, numbers, pivotIndex + 1, right);
    } else {
      SortedPartEmpty(m2, right + 1);
    }
    QuickSortCombine(s0, mid, m2, members[..], left, pivotIndex, right);
  }

  /** The three steps of `quick_sort` put together: the partition `s0` to
      `mid`, the sort of the left side `mid` to `m2`, the sort of the right
      side `m2` to `fin`. */
  lemma QuickSortCombine(s0: seq<Individual>, mid: seq<Individual>, m2: seq<Individual>, fin: seq<Individual>,
                         left: nat, p: nat, right: nat)
    requires left <= p <= right < |s0| == |mid|
    requires mid[..left] == s0[..left] && mid[right + 1..] == s0[right + 1..]
    requires multiset(mid[left..right + 1]) == multiset(s0[left..right + 1])
    requires CostsAtMost(mid[left..p], mid[p].cost) && CostsAtLeast(mid[p + 1..right + 1], mid[p].cost)
    requires SortedPart(mid, m2, left, p) && SortedPart(m2, fin, p + 1, right + 1)
    ensures SortedPart(s0, fin, left, right + 1)
  {
    assert m2[p..] == mid[p..];
    assert fin[..p + 1] == m2[..p + 1];
    assert fin[left..p] == m2[left..p];
    assert fin[p] == mid[p];
    assert m2[p + 1..right + 1] == mid[p + 1..right + 1];
    AtMostPermuted(mid[left..p], fin[left..p], mid[p].cost);
    AtLeastPermuted(mid[p + 1..right + 1], fin[p + 1..right + 1], mid[p].cost);
    assert fin[left..right + 1] == fin[left..p] + [fin[p]] + fin[p + 1..right + 1];
    assert mid[left..right + 1] == mid[left..p] + [mid[p]] + mid[p + 1..right + 1];
    SortedJoin(fin[left..p], fin[p], fin[p + 1..right + 1]);
    assert fin[..left] == s0[..left] by {
      assert fin[..left] == m2[..left];
    }
    assert fin[right + 1..] == s0[right + 1..] by {
      assert m2[right + 1..] == mid[right + 1..];
    }
  }

  /** The partitioning loop of quick_sort. The first member of the range is
      taken out as the pivot, leaving a hole; the right cursor moves left
      past members at least as costly as the pivot and the member it stops
      at fills the hole, then the left cursor moves right past members at
      most as costly and the member it stops at fills the new hole. Where
      the cursors meet the pivot goes back in; its position is returned. */
  method Partition(members: array<Individual>, numbers: array<real>, left: int, right: int) returns (pivotIndex: int)
    requires 0 <= left <= right < numbers.Length <= members.Length
    requires forall k :: 0 <= k < numbers.Length ==> numbers[k] == members[k].cost
    modifies members, numbers
    ensures left <= pivotIndex <= right
    ensures forall k :: 0 <= k < numbers.Length ==> numbers[k] == members[k].cost
    ensures members[pivotIndex] == old(members[left])
    ensures CostsAtMost(members[left..pivotIndex], members[pivotIndex].cost)
    ensures CostsAtLeast(members[pivotIndex + 1..right + 1], members[pivotIndex].cost)
    ensures multiset(members[left..right + 1]) == multiset(old(members[left..right + 1]))
    ensures members[..left] == old(members[..left]) && members[right + 1..] == old(members[right + 1..])
  {
    var pivotInd := members[left];
    var lo, hi := left, right;
    ghost var orig := members[..];
    assert orig[lo := pivotInd] == orig;

    while lo < hi
      invariant Parted(members[..], orig, left, right, lo, hi, lo, pivotInd)
      invariant forall k :: 0 <= k < numbers.Length ==> numbers[k] == members[k].cost
      decreases hi - lo
    {
      lo, hi := ScanFromRight(members, numbers, left, right, lo, hi, pivotInd, orig);
      lo, hi := ScanFromLeft(members, numbers, left, right, lo, hi, pivotInd, orig);
    }
    ghost var m := members[..];
    PlacePivot(members, numbers, lo, pivotInd);
    PartedDone(m, orig, left, right, lo, pivotInd);
    pivotIndex := lo;
  }

  /** The state of the partitioning loop over the members `m`, which
      started as `orig`: members left of the left cursor `lo` cost at most
      the pivot, members right of the right cursor `hi` at least; the hole,
      between the cursors, counted as the pivot, makes `m` have the members
      of `orig`; nothing outside `[left, right]` has moved. */
  ghost predicate Parted(m: seq<Individual>, orig: seq<Individual>, left: int, right: int,
                         lo: int, hi: int, hole: int, pivot: Individual)
  {
    && 0 <= left <= lo <= hole <= hi <= right < |m| == |orig|
    && pivot == orig[left]
    && (forall k :: left <= k < lo ==> m[k].cost <= pivot.cost)
    && (forall k :: hi < k <= right ==> pivot.cost <= m[k].cost)
    && multiset(m[hole := pivot]) == multiset(orig)
    && m[..left] == orig[..left] && m[right + 1..] == orig[right + 1..]
  }

  /** Once the cursors meet, putting the pivot in the hole partitions the
      range and keeps its members. */
  lemma PartedDone(m: seq<Individual>, orig: seq<Individual>, left: int, right: int, lo: int, pivot: Individual)
    requires Parted(m, orig, left, right, lo, lo, lo, pivot)
    ensures var t := m[lo := pivot];
      && CostsAtMost(t[left..lo], pivot.cost)
      && CostsAtLeast(t[lo + 1..right + 1], pivot.cost)
      && multiset(t[left..right + 1]) == multiset(orig[left..right + 1])
      && t[..left] == orig[..left] && t[right + 1..] == orig[right + 1..]
  {
    var t := m[lo := pivot];
    UpdateOutside(m, lo, pivot, left, right + 1);
    SegmentPermuted(t, orig, left, right + 1);
  }

  /** The end of the partitioning loop: the pivot goes back into the hole
      where the cursors met. */
  method PlacePivot(members: array<Individual>, numbers: array<real>, lo: int, pivotInd: Individual)
    requires 0 <= lo < numbers.Length <= members.Length
    requires forall k :: 0 <= k < numbers.Length ==> numbers[k] == members[k].cost
    modifies members, numbers
    ensures members[..] == old(members[..])[lo := pivotInd]
    ensures forall k :: 0 <= k < numbers.Length ==> numbers[k] == members[k].cost
  {
    numbers[lo] := pivotInd.cost;
    members[lo] := pivotInd;
  }

  /** The right cursor of the partitioning loop: it moves left past members
      at least as costly as the pivot; unless it meets the left cursor, the
      member it stops at fills the hole at `lo`, the left cursor steps on and
      the hole is now at the right cursor. */
  method ScanFromRight(members: array<Individual>, numbers: array<real>, left: int, right: int,
                       lo: int, hi: int, pivotInd: Individual, ghost orig: seq<Individual>) returns (lo': int, hi': int)
    requires lo < hi && numbers.Length <= members.Length && right < numbers.Length
    requires Parted(members[..], orig, left, right, lo, hi, lo, pivotInd)
    requires forall k :: 0 <= k < numbers.Length ==> numbers[k] == members[k].cost
    modifies members, numbers
    ensures Parted(members[..], orig, left, right, lo', hi', hi', pivotInd)
    ensures lo <= lo' && hi' <= hi && hi' - lo' < hi - lo
    ensures forall k :: 0 <= k < numbers.Length ==> numbers[k] == members[k].cost
  {
    lo', hi' := lo, hi;
    while numbers[hi'] >= pivotInd.cost && lo' < hi'
      invariant lo' <= hi' <= hi
      invariant forall k :: hi' < k <= right ==> pivotInd.cost <= members[k].cost
      decreases hi' - lo'
    {
      hi' := hi' - 1;
    }
    if lo' != hi' {
      ghost var m := members[..];
      MoveHole(m, lo', hi', pivotInd);
      UpdateOutside(m, lo', m[hi'], left, right + 1);
      FillHole(members, numbers, lo', hi');
      lo' := lo' + 1;
    }
  }

  /** The left cursor of the partitioning loop, the mirror image of
      `ScanFromRight`: the hole is at `hi` and moves to the left cursor. */
  method ScanFromLeft(members: array<Individual>, numbers: array<real>, left: int, right: int,
                      lo: int, hi: int, pivotInd: Individual, ghost orig: seq<Individual>) returns (lo': int, hi': int)
    requires numbers.Length <= members.Length && right < numbers.Length
    requires Parted(members[..], orig, left, right, lo, hi, hi, pivotInd)
    requires forall k :: 0 <= k < numbers.Length ==> numbers[k] == members[k].cost
    modifies members, numbers
    ensures Parted(members[..], orig, left, right, lo', hi', lo', pivotInd)
    ensures lo <= lo' && hi' <= hi
    ensures forall k :: 0 <= k < numbers.Length ==> numbers[k] == members[k].cost
  {
    lo', hi' := lo, hi;
    while numbers[lo'] <= pivotInd.cost && lo' < hi'
      invariant lo <= lo' <= hi'
      invariant forall k :: left <= k < lo' ==> members[k].cost <= pivotInd.cost
      decreases hi' - lo'
    {
      lo' := lo' + 1;
    }
    if lo' != hi' {
      ghost var m := members[..];
      MoveHole(m, hi', lo', pivotInd);
      UpdateOutside(m, hi', m[lo'], left, right + 1);
      FillHole(members, numbers, hi', lo');
      hi' := hi' - 1;
    }
  }

  /** One move of the partitioning loop: the member at `src` (and its cost)
      is copied into the hole at `dst`. */
  method FillHole(members: array<Individual>, numbers: array<real>, dst: int, src: int)
    requires 0 <= dst < numbers.Length <= members.Length && 0 <= src < numbers.Length
    requires forall k :: 0 <= k < numbers.Length ==> numbers[k] == members[k].cost
    modifies members, numbers
    ensures members[..] == old(members[..])[dst := old(members[src])]
    ensures forall k :: 0 <= k < numbers.Length ==> numbers[k] == members[k].cost
  {
    numbers[dst] := numbers[src];
    members[dst] := members[src];
  }

  // ---------------------------------------------------------------------------
  // insertion_sort

  /** Where `insertion_sort` leaves the last member `s[n-1]`: it moves left
      from position `j` while it is strictly cheaper than its left
      neighbour. */
  function InsertPosFrom(s: seq<Individual>, n: nat, j: nat): (p: nat)
    requires j < n <= |s|
    ensures p <= j
  {
    if j > 0 && s[n - 1].cost < s[j - 1].cost then InsertPosFrom(s, n, j - 1) else j
  }

  function InsertPos(s: seq<Individual>, n: nat): nat
    requires 1 <= n <= |s|
  {
    InsertPosFrom(s, n, n - 1)
  }

  /** The set after `insertion_sort`: the last member of `s[..n]` taken out
      and put back in at `InsertPos`, everything else in its old order. */
  function Inserted(s: seq<Individual>, n: nat): (t: seq<Individual>)
    requires 1 <= n <= |s|
  {
    var p := InsertPos(s, n);
    s[..p] + [s[n - 1]] + s[p..n - 1] + s[n..]
  }

  /** The insertion point lies past every member the new one does not beat
      and before a run of members it strictly beats. */
  lemma {:induction false} InsertPosFromBounds(s: seq<Individual>, n: nat, j: nat)
    requires j < n <= |s|
    requires forall k :: j <= k < n - 1 ==> s[n - 1].cost < s[k].cost
    ensures var p := InsertPosFrom(s, n, j);
      && (p == 0 || s[p - 1].cost <= s[n - 1].cost)
      && forall k :: p <= k < n - 1 ==> s[n - 1].cost < s[k].cost
  {
    if j > 0 && s[n - 1].cost < s[j - 1].cost {
      InsertPosFromBounds(s, n, j - 1);
    }
  }

  /** What `insertion_sort` does to the order, for any input: the new member
      lands right after the nearest member to its left that it does not
      strictly beat (so after any members of equal cost), it strictly beats
      every member it passed, and the set keeps its members. */
  lemma InsertedShape(s: seq<Individual>, n: nat)
    requires 1 <= n <= |s|
    ensures var p := InsertPos(s, n);
      && p <= n - 1
      && Inserted(s, n)[p] == s[n - 1]
      && (p == 0 || s[p - 1].cost <= s[n - 1].cost)
      && (forall k :: p <= k < n - 1 ==> s[n - 1].cost < s[k].cost)
      && multiset(Inserted(s, n)) == multiset(s)
      && |Inserted(s, n)| == |s|
      && Inserted(s, n)[n..] == s[n..]
  {
    InsertPosFromBounds(s, n, n - 1);
    var p := InsertPos(s, n);
    InsertedAt(s, n, p);
    InsertedPermutes(s, n);
    var t := Inserted(s, n);
    assert t[n..] == s[n..] by {
      assert t == (s[..p] + [s[n - 1]] + s[p..n - 1]) + s[n..];
    }
  }

  /** `Inserted` keeps the members. */
  lemma InsertedPermutes(s: seq<Individual>, n: nat)
    requires 1 <= n <= |s|
    ensures multiset(Inserted(s, n)) == multiset(s)
  {
    var p := InsertPos(s, n);
    var a, b, c, d := s[..p], s[p..n - 1], s[n - 1], s[n..];
    assert Inserted(s, n) == a + [c] + b + d;
    assert s == a + b + [c] + d;
    RotatePermutes(a, b, c, d);
  }

  /** Member `k` of `Inserted(s, n)`. */
  lemma InsertedAt(s: seq<Individual>, n: nat, k: nat)
    requires 1 <= n <= |s| && k < |s|
    ensures |Inserted(s, n)| == |s|
    ensures var p := InsertPos(s, n);
      Inserted(s, n)[k] == if k < p || n <= k then s[k] else if k == p then s[n - 1] else s[k - 1]
  {
    var p := InsertPos(s, n);
    var t := Inserted(s, n);
    if k < p {
      assert t[k] == s[..p][k];
    } else if k == p {
    } else if k < n {
      assert t[k] == s[p..n - 1][k - p - 1];
    } else {
      assert t[k] == s[n..][k - n];
    }
  }

  /** Moving one member from the end of a run to its front keeps the
      members. */
  lemma RotatePermutes(a: seq<Individual>, b: seq<Individual>, x: Individual, c: seq<Individual>)
    ensures multiset(a + [x] + b + c) == multiset(a + b + [x] + c)
  {
    calc {
      multiset(a + [x] + b + c);
      multiset(a) + multiset([x]) + multiset(b) + multiset(c);
      multiset(a) + multiset(b) + multiset([x]) + multiset(c);
      multiset(a + b + [x] + c);
    }
  }

  /** insertion_sort ends with a sorted set when all but the last member
      were sorted. */
  lemma InsertedSorted(s: seq<Individual>, n: nat)
    requires 1 <= n <= |s| && SortedByCost(s[..n - 1])
    ensures SortedByCost(Inserted(s, n)[..n])
  {
    InsertedShape(s, n);
    var p := InsertPos(s, n);
    var t := Inserted(s, n)[..n];
    forall i, j | 0 <= i < j < n ensures t[i].cost <= t[j].cost {
      if j < p {
        assert t[i] == s[i] && t[j] == s[j];
      } else if j == p {
        assert t[i] == s[i];
        assert s[i].cost <= s[p - 1].cost;
      } else if i < p {
        assert t[i] == s[i] && t[j] == s[j - 1];
      } else if i == p {
        assert t[j] == s[j - 1];
      } else {
        assert t[i] == s[i - 1] && t[j] == s[j - 1];
      }
    }
  }

  /** insertion_sort: the last member of `members[0..setSize)` is swapped
      leftward while it is strictly cheaper than its left neighbour. */
  method InsertionSort(ss: SSType, members: array<Individual>, setSize: int, key: char)
    requires 1 <= setSize <= members.Length
    modifies members
    ensures members[..] == Inserted(old(members[..]), setSize)
  {
    ghost var s := members[..];
    ghost var n := setSize;
    var j := setSize - 1;
    while j > 0 && members[j].cost < members[j - 1].cost
      invariant 0 <= j <= n - 1
      invariant members.Length == |s|
      invariant forall k :: 0 <= k < j ==> members[k] == s[k]
      invariant members[j] == s[n - 1]
      invariant forall k :: j < k < n ==> members[k] == s[k - 1]
      invariant members[n..] == s[n..]
      invariant InsertPos(s, n) == InsertPosFrom(s, n, j)
    {
      assert InsertPosFrom(s, n, j) == InsertPosFrom(s, n, j - 1);
      var temp := members[j - 1];
      members[j - 1] := members[j];
      members[j] := temp;
      j := j - 1;
    }
    assert InsertPos(s, n) == j;
    InsertedFrom(s, members[..], n, j);
  }

  /** The array state `insertion_sort` stops in is `Inserted`. */
  lemma InsertedFrom(s: seq<Individual>, m: seq<Individual>, n: nat, j: nat)
    requires 1 <= n <= |s| == |m| && j == InsertPos(s, n)
    requires forall k :: 0 <= k < j ==> m[k] == s[k]
    requires m[j] == s[n - 1]
    requires forall k :: j < k < n ==> m[k] == s[k - 1]
    requires m[n..] == s[n..]
    ensures m == Inserted(s, n)
  {
    forall k | 0 <= k < |s| ensures m[k] == Inserted(s, n)[k] {
      InsertedAt(s, n, k);
      if n <= k { assert m[k] == m[n..][k - n]; }
    }
  }
}
