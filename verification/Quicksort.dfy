/** The array quicksort of the list library: in place, with a stack of bounds instead of recursion. */
module Quicksort {
  import opened Powers

  /** What sorting needs of a comparator. */
  ghost predicate TotalPreorder<T(!new)>(cmp: (T, T) -> int)
  {
    (forall x, y :: cmp(x, y) <= 0 <==> cmp(y, x) >= 0) && forall x, y, z :: cmp(x, y) <= 0 && cmp(y, z) <= 0 ==> cmp(x, z) <= 0
  }

  method Exchange<T>(a: array<T>, i: nat, j: nat)
    requires i < a.Length && j < a.Length
    modifies a
    ensures a[..] == old(a[..])[i := old(a[j])][j := old(a[i])]
  {
    a[i], a[j] := a[j], a[i];
  }

  lemma SwapPermutes<T>(s: seq<T>, i: nat, j: nat)
    requires i < |s| && j < |s|
    ensures multiset(s[i := s[j]][j := s[i]]) == multiset(s)
  {
  }

  /** b is a with the elements in [start, end) rearranged. */
  ghost predicate Rearranged<T>(a: seq<T>, b: seq<T>, start: nat, end: nat)
  {
    |a| == |b| && start <= end <= |a| && multiset(a[start..end]) == multiset(b[start..end]) &&
    a[..start] == b[..start] && a[end..] == b[end..]
  }

  lemma RearrangedSwap<T>(a: seq<T>, b: seq<T>, start: nat, end: nat, i: nat, j: nat)
    requires Rearranged(a, b, start, end) && start <= i < end && start <= j < end
    ensures Rearranged(a, b[i := b[j]][j := b[i]], start, end)
  {
    var c := b[i := b[j]][j := b[i]];
    SwapPermutes(b[start..end], i - start, j - start);
    assert c[start..end] == b[start..end][i - start := b[start..end][j - start]][j - start := b[start..end][i - start]];
    assert c[..start] == b[..start] && c[end..] == b[end..];
  }

  /** [start, i) holds nothing above v, (j, end) nothing below it. */
  ghost predicate Sides<T>(cmp: (T, T) -> int, s: seq<T>, start: nat, end: nat, i: int, j: int, v: T)
  {
    start < i && i <= j + 1 && j < end <= |s| && s[start] == v &&
    (forall k :: start <= k < i ==> cmp(s[k], v) <= 0) && forall k :: j < k < end ==> cmp(s[k], v) >= 0
  }

  /** The pivot is at m, with nothing above it to its left and nothing below it to its right. */
  ghost predicate Parted<T>(cmp: (T, T) -> int, s: seq<T>, start: nat, end: nat, m: int)
  {
    start <= m < end <= |s| && (forall k :: start <= k < m ==> cmp(s[k], s[m]) <= 0) && forall k :: m < k < end ==> cmp(s[k], s[m]) >= 0
  }

  lemma PutPivot<T>(cmp: (T, T) -> int, s: seq<T>, start: nat, end: nat, j: int, v: T)
    requires Sides(cmp, s, start, end, j + 1, j, v) && start <= j
    ensures Parted(cmp, s[j := s[start]][start := s[j]], start, end, j)
  {
  }

  method ScanUp<T>(cmp: (T, T) -> int, a: array<T>, start: nat, end: nat, i: nat, j: nat, ghost v: T) returns (r: nat)
    requires Sides(cmp, a[..], start, end, i, j, v)
    ensures i <= r && Sides(cmp, a[..], start, end, r, j, v) && (r <= j ==> cmp(a[r], v) > 0) && (i <= j && cmp(a[i], v) <= 0 ==> r > i)
  {
    r := i;
    while r <= j && cmp(a[r], a[start]) <= 0
      invariant i <= r && Sides(cmp, a[..], start, end, r, j, v)
    {
      r := r + 1;
    }
  }

  method ScanDown<T>(cmp: (T, T) -> int, a: array<T>, start: nat, end: nat, i: nat, j: nat, ghost v: T) returns (r: int)
    requires Sides(cmp, a[..], start, end, i, j, v)
    ensures r <= j && Sides(cmp, a[..], start, end, i, r, v) && (i <= r ==> cmp(a[r], v) < 0)
  {
    r := j;
    while i <= r && cmp(a[r], a[start]) >= 0
      invariant i - 1 <= r <= j && Sides(cmp, a[..], start, end, i, r, v)
    {
      r := r - 1;
    }
  }

  function Above<T>(cmp: (T, T) -> int, s: seq<T>, i: nat, v: T): nat
  {
    if i < |s| && cmp(s[i], v) > 0 then 1 else 0
  }

  /** Exchange two elements of the range. */
  method ExchangeIn<T>(a: array<T>, start: nat, end: nat, i: nat, j: nat)
    requires start <= i < end && start <= j < end && end <= a.Length
    modifies a
    ensures Rearranged(old(a[..]), a[..], start, end) && a[..] == old(a[..])[i := old(a[j])][j := old(a[i])]
  {
    RearrangedSwap(a[..], a[..], start, end, i, j);
    Exchange(a, i, j);
  }

  /** The two scans have met: put the pivot where they met. */
  method PlacePivot<T>(cmp: (T, T) -> int, a: array<T>, start: nat, end: nat, j: nat, ghost v: T)
    requires Sides(cmp, a[..], start, end, j + 1, j, v) && start <= j
    modifies a
    ensures Rearranged(old(a[..]), a[..], start, end) && Parted(cmp, a[..], start, end, j)
  {
    PutPivot(cmp, a[..], start, end, j, v);
    hide Parted, Rearranged;
    ExchangeIn(a, start, end, j, start);
  }

  /** The two scans have stopped at elements on the wrong sides. */
  method Cross<T>(cmp: (T, T) -> int, a: array<T>, start: nat, end: nat, i: nat, j: nat, ghost v: T) returns (i': nat, j': nat)
    requires i < j && Sides(cmp, a[..], start, end, i, j, v) && cmp(a[i], v) > 0 && cmp(a[j], v) < 0
    modifies a
    ensures Rearranged(old(a[..]), a[..], start, end)
    ensures i' < j' && Sides(cmp, a[..], start, end, i', j', v)
    ensures (i' == i && j' == j && cmp(a[i'], v) <= 0) || j' - i' < j - i
  {
    hide Rearranged;
    ExchangeIn(a, start, end, i, j);
    i', j' := i, j;
    if i' + 2 < j' {
      i', j' := i' + 1, j' - 1;
    } else if i' + 1 < j' {
      i' := i' + 1;
    }
  }

  /** One round of the partition loop. */
  method Round<T>(cmp: (T, T) -> int, a: array<T>, start: nat, end: nat, i: nat, j: nat, ghost v: T) returns (i': nat, j': nat)
    requires i < j && Sides(cmp, a[..], start, end, i, j, v)
    modifies a
    ensures Rearranged(old(a[..]), a[..], start, end)
    ensures i' < j' ==> Sides(cmp, a[..], start, end, i', j', v)
    ensures i' < j' ==> 2 * (j' - i') + Above(cmp, a[..], i', v) < 2 * (j - i) + Above(cmp, old(a[..]), i, v)
    ensures i' >= j' ==> i' == j' && Parted(cmp, a[..], start, end, i')
  {
    hide Rearranged, Parted;
    i' := ScanUp(cmp, a, start, end, i, j, v);
    j' := j;
    if i' > j' {
      PlacePivot(cmp, a, start, end, j', v);
      i' := j';
      return;
    }
    var down := ScanDown(cmp, a, start, end, i', j', v);
    j' := down;
    if i' > j' {
      PlacePivot(cmp, a, start, end, j', v);
      i' := j';
      return;
    }
    i', j' := Cross(cmp, a, start, end, i', j', v);
  }

  lemma RearrangedTwice<T>(a: seq<T>, b: seq<T>, c: seq<T>, start: nat, end: nat)
    requires Rearranged(a, b, start, end) && Rearranged(b, c, start, end)
    ensures Rearranged(a, c, start, end)
  {
  }

  /** Partition around the first element; there are more than two. */
  method Partition<T(!new)>(cmp: (T, T) -> int, a: array<T>, start: nat, end: nat) returns (m: nat)
    requires TotalPreorder(cmp) && start + 2 < end <= a.Length
    modifies a
    ensures Rearranged(old(a[..]), a[..], start, end) && Parted(cmp, a[..], start, end, m)
  {
    ghost var s, v := a[..], a[start];
    var i, j := start + 1, end - 1;
    while i < j
      invariant Rearranged(s, a[..], start, end)
      invariant if i < j then Sides(cmp, a[..], start, end, i, j, v) else i == j && Parted(cmp, a[..], start, end, i)
      decreases 2 * (j - i) + Above(cmp, a[..], i, v)
    {
      ghost var b := a[..];
      i, j := Round(cmp, a, start, end, i, j, v);
      RearrangedTwice(s, b, a[..], start, end);
    }
    m := i;
  }

  // ---------- ranges that are still to be sorted ----------

  type Range = (int, int)

  /** i and j are in the same range of the stack. */
  ghost predicate Together(todo: seq<Range>, i: int, j: int)
  {
    exists k :: 0 <= k < |todo| && todo[k].0 <= i && j < todo[k].1
  }

  /** Elements are in order, except within a range. */
  ghost predicate Apart<T>(cmp: (T, T) -> int, s: seq<T>, todo: seq<Range>)
  {
    forall i, j :: 0 <= i < j < |s| ==> cmp(s[i], s[j]) <= 0 || Together(todo, i, j)
  }

  predicate Disjoint(g: Range, h: Range)
  {
    g.1 <= h.0 || h.1 <= g.0
  }

  /** The ranges lie within the array and do not overlap. */
  ghost predicate Ranges(n: nat, todo: seq<Range>)
  {
    (forall k :: 0 <= k < |todo| ==> 0 <= todo[k].0 <= todo[k].1 <= n) &&
    forall k, l :: 0 <= k < l < |todo| ==> Disjoint(todo[k], todo[l])
  }

  /** The range at index k of the stack has at most one part in 2^k of the array. */
  ghost predicate Halved(n: nat, todo: seq<Range>)
  {
    forall k :: 0 <= k < |todo| ==> (todo[k].1 - todo[k].0) * Pow2(k) <= n
  }

  function Load(todo: seq<Range>): int
  {
    if todo == [] then 0 else Load(todo[..|todo| - 1]) + todo[|todo| - 1].1 - todo[|todo| - 1].0 + 1
  }

  lemma LoadSnoc(todo: seq<Range>, g: Range)
    ensures Load(todo + [g]) == Load(todo) + g.1 - g.0 + 1
  {
    assert (todo + [g])[..|todo|] == todo;
  }

  lemma {:induction false} LoadPositive(n: nat, todo: seq<Range>)
    requires Ranges(n, todo)
    ensures Load(todo) >= |todo|
  {
    if todo != [] {
      LoadPositive(n, todo[..|todo| - 1]);
    }
  }

  lemma Element<T>(a: seq<T>, b: seq<T>, start: nat, end: nat, k: nat) returns (l: nat)
    requires Rearranged(a, b, start, end) && start <= k < end
    ensures start <= l < end && a[l] == b[k]
  {
    assert b[start..end][k - start] in multiset(b[start..end]);
    assert b[k] in a[start..end];
    var i :| 0 <= i < end - start && a[start..end][i] == b[k];
    l := start + i;
  }

  lemma Outside<T>(a: seq<T>, b: seq<T>, start: nat, end: nat, k: nat)
    requires Rearranged(a, b, start, end) && k < |a| && !(start <= k < end)
    ensures a[k] == b[k]
  {
    if k < start {
      assert a[..start][k] == b[..start][k];
    } else {
      assert a[end..][k - end] == b[end..][k - end];
    }
  }

  /** Rearranging the last range does not disturb the order between it and the rest. */
  lemma AcrossKept<T>(cmp: (T, T) -> int, a: seq<T>, b: seq<T>, rest: seq<Range>, start: nat, end: nat, i: nat, j: nat)
    requires Rearranged(a, b, start, end) && Ranges(|a|, rest + [(start, end)]) && Apart(cmp, a, rest + [(start, end)])
    requires i < j < |a| && !(start <= i && j < end)
    ensures cmp(b[i], b[j]) <= 0 || Together(rest, i, j)
  {
    var i', j' := i, j;
    if start <= i < end {
      i' := Element(a, b, start, end, i);
    } else {
      Outside(a, b, start, end, i);
    }
    if start <= j < end {
      j' := Element(a, b, start, end, j);
    } else {
      Outside(a, b, start, end, j);
    }
    assert i' < j';
    if Together(rest + [(start, end)], i', j') {
      var k :| 0 <= k <= |rest| && (rest + [(start, end)])[k].0 <= i' && j' < (rest + [(start, end)])[k].1;
      assert Disjoint((rest + [(start, end)])[k], (rest + [(start, end)])[|rest|]) || k == |rest|;
      assert rest[k].0 <= i && j < rest[k].1;
    }
  }

  /** Partitioning replaces the last range by its two sides. */
  lemma PartitionApart<T(!new)>(cmp: (T, T) -> int, a: seq<T>, b: seq<T>, rest: seq<Range>, start: nat, end: nat, m: nat, todo: seq<Range>)
    requires TotalPreorder(cmp)
    requires Rearranged(a, b, start, end) && Ranges(|a|, rest + [(start, end)]) && Apart(cmp, a, rest + [(start, end)])
    requires Parted(cmp, b, start, end, m)
    requires forall i, j :: i < j && (Together(rest, i, j) || Together([(start, m)], i, j) || Together([(m + 1, end)], i, j)) ==> Together(todo, i, j)
    ensures Apart(cmp, b, todo)
  {
    forall i, j | 0 <= i < j < |b| ensures cmp(b[i], b[j]) <= 0 || Together(todo, i, j) {
      if start <= i && j < end {
        if j < m {
          assert [(start, m)][0].0 <= i;
          assert Together([(start, m)], i, j);
        } else if i > m {
          assert [(m + 1, end)][0].0 <= i;
          assert Together([(m + 1, end)], i, j);
        }
      } else {
        AcrossKept(cmp, a, b, rest, start, end, i, j);
      }
    }
  }

  /** Everything that is known while (start, end) is worked on and todo is on the stack. */
  ghost predicate Working<T>(cmp: (T, T) -> int, s0: seq<T>, s: seq<T>, todo: seq<Range>)
  {
    |s| == |s0| && multiset(s) == multiset(s0) && Ranges(|s|, todo) && Apart(cmp, s, todo) && Halved(|s|, todo)
  }

  lemma RearrangedPermutes<T>(a: seq<T>, b: seq<T>, start: nat, end: nat)
    requires Rearranged(a, b, start, end)
    ensures multiset(a) == multiset(b)
  {
    assert a == a[..start] + a[start..end] + a[end..];
    assert b == b[..start] + b[start..end] + b[end..];
  }

  lemma RangesReplace(n: nat, rest: seq<Range>, g: Range, h: Range)
    requires Ranges(n, rest + [g]) && g.0 <= h.0 <= h.1 <= g.1
    ensures Ranges(n, rest + [h])
  {
    var old_, new_ := rest + [g], rest + [h];
    forall k, l | 0 <= k < l < |new_| ensures Disjoint(new_[k], new_[l]) {
      assert Disjoint(old_[k], old_[l]);
    }
    assert old_[|rest|] == g;
    forall k | 0 <= k < |new_| ensures 0 <= new_[k].0 <= new_[k].1 <= n {
      assert 0 <= old_[k].0 <= old_[k].1 <= n;
    }
  }

  lemma RangesSplit(n: nat, rest: seq<Range>, g: Range, h1: Range, h2: Range)
    requires Ranges(n, rest + [g]) && g.0 <= h1.0 <= h1.1 <= g.1 && g.0 <= h2.0 <= h2.1 <= g.1 && Disjoint(h1, h2)
    ensures Ranges(n, rest + [h1] + [h2])
  {
    RangesReplace(n, rest, g, h1);
    RangesReplace(n, rest, g, h2);
    var new_ := rest + [h1] + [h2];
    forall k, l | 0 <= k < l < |new_| ensures Disjoint(new_[k], new_[l]) {
      if l == |rest| + 1 && k < |rest| {
        assert Disjoint((rest + [h2])[k], (rest + [h2])[|rest|]);
      } else if l <= |rest| {
        assert Disjoint((rest + [h1])[k], (rest + [h1])[l]);
      }
    }
    forall k | 0 <= k < |new_| ensures 0 <= new_[k].0 <= new_[k].1 <= n {
      if k <= |rest| {
        assert (rest + [h1])[k] == new_[k];
      } else {
        assert (rest + [h2])[|rest|] == new_[k];
      }
    }
  }

  lemma HalvedReplace(n: nat, rest: seq<Range>, g: Range, h: Range)
    requires Halved(n, rest + [g]) && 0 <= h.1 - h.0 <= g.1 - g.0
    ensures Halved(n, rest + [h])
  {
    var old_, new_ := rest + [g], rest + [h];
    forall k | 0 <= k < |new_| ensures (new_[k].1 - new_[k].0) * Pow2(k) <= n {
      assert (old_[k].1 - old_[k].0) * Pow2(k) <= n;
      if k == |rest| {
        Scale(h.1 - h.0, g.1 - g.0, Pow2(k));
      }
    }
  }

  lemma Scale(a: int, b: int, p: nat)
    requires a <= b
    ensures a * p <= b * p
  {
  }

  lemma HalvedPush(n: nat, rest: seq<Range>, g: Range, big: Range, small: Range)
    requires Halved(n, rest + [g]) && 0 <= small.1 - small.0 <= big.1 - big.0 && big.1 - big.0 + small.1 - small.0 <= g.1 - g.0
    ensures Halved(n, rest + [big] + [small])
  {
    HalvedReplace(n, rest, g, big);
    var new_, d := rest + [big] + [small], |rest|;
    forall k | 0 <= k < |new_| ensures (new_[k].1 - new_[k].0) * Pow2(k) <= n {
      if k <= d {
        assert new_[k] == (rest + [big])[k];
      } else {
        assert (rest + [g])[d] == g;
        Scale(2 * (small.1 - small.0), g.1 - g.0, Pow2(d));
        Double(small.1 - small.0, Pow2(d));
      }
    }
  }

  lemma Double(a: int, p: int)
    ensures a * (2 * p) == 2 * a * p
  {
  }

  /** Continuing with one side, when the other has no two elements. */
  lemma Narrow<T(!new)>(cmp: (T, T) -> int, s0: seq<T>, a: seq<T>, b: seq<T>, rest: seq<Range>, start: nat, end: nat, m: nat, h: Range)
    requires TotalPreorder(cmp)
    requires Working(cmp, s0, a, rest + [(start, end)]) && Rearranged(a, b, start, end) && Parted(cmp, b, start, end, m)
    requires (h == (start, m) && end - m <= 2) || (h == (m + 1, end) && m - start <= 1)
    ensures Working(cmp, s0, b, rest + [h]) && Load(rest + [h]) < Load(rest + [(start, end)])
  {
    RearrangedPermutes(a, b, start, end);
    RangesReplace(|a|, rest, (start, end), h);
    HalvedReplace(|a|, rest, (start, end), h);
    LoadSnoc(rest, h);
    LoadSnoc(rest, (start, end));
    forall i, j | i < j && (Together(rest, i, j) || Together([(start, m)], i, j) || Together([(m + 1, end)], i, j))
      ensures Together(rest + [h], i, j)
    {
      if Together(rest, i, j) {
        var k :| 0 <= k < |rest| && rest[k].0 <= i && j < rest[k].1;
        assert (rest + [h])[k] == rest[k];
      } else {
        assert (rest + [h])[|rest|] == h;
      }
    }
    PartitionApart(cmp, a, b, rest, start, end, m, rest + [h]);
  }

  lemma TogetherPushed(rest: seq<Range>, big: Range, small: Range, i: int, j: int)
    requires Together(rest, i, j) || Together([big], i, j) || Together([small], i, j)
    ensures Together(rest + [big] + [small], i, j)
  {
    var todo := rest + [big] + [small];
    if Together(rest, i, j) {
      var k :| 0 <= k < |rest| && rest[k].0 <= i && j < rest[k].1;
      assert todo[k] == rest[k];
    } else {
      assert todo[|rest|] == big && todo[|rest| + 1] == small;
    }
  }

  /** Continuing with the smaller side, with the larger one on the stack. */
  lemma Push<T(!new)>(cmp: (T, T) -> int, s0: seq<T>, a: seq<T>, b: seq<T>, rest: seq<Range>,
        start: nat, end: nat, m: nat, big: Range, small: Range)
    requires TotalPreorder(cmp)
    requires Working(cmp, s0, a, rest + [(start, end)]) && Rearranged(a, b, start, end) && Parted(cmp, b, start, end, m)
    requires (big == (start, m) && small == (m + 1, end)) || (small == (start, m) && big == (m + 1, end))
    requires small.1 - small.0 <= big.1 - big.0
    ensures Working(cmp, s0, b, rest + [big] + [small]) && Load(rest + [big] + [small]) <= Load(rest + [(start, end)])
    ensures small.1 - small.0 < end - start
  {
    RearrangedPermutes(a, b, start, end);
    RangesSplit(|a|, rest, (start, end), big, small);
    HalvedPush(|a|, rest, (start, end), big, small);
    LoadSnoc(rest, big);
    LoadSnoc(rest + [big], small);
    LoadSnoc(rest, (start, end));
    var todo := rest + [big] + [small];
    forall i, j | Together(rest, i, j) || Together([big], i, j) || Together([small], i, j) ensures Together(todo, i, j) {
      TogetherPushed(rest, big, small, i, j);
    }
    hide Together, Ranges, Halved;
    PartitionApart(cmp, a, b, rest, start, end, m, todo);
  }

  const SLOTS := 64

  /** The ranges on the stack. */
  function Stacked(starts: seq<int>, ends: seq<int>, n: nat): (r: seq<Range>)
    requires n <= |starts| == |ends|
    ensures |r| == n
  {
    seq(n, k requires 0 <= k < n => (starts[k], ends[k]))
  }

  lemma StackedPush(starts: seq<int>, ends: seq<int>, n: nat, g: Range)
    requires n < |starts| == |ends|
    ensures Stacked(starts[n := g.0], ends[n := g.1], n + 1) == Stacked(starts, ends, n) + [g]
  {
  }

  lemma StackedPop(starts: seq<int>, ends: seq<int>, n: nat)
    requires n < |starts| == |ends|
    ensures Stacked(starts, ends, n + 1) == Stacked(starts, ends, n) + [(starts[n], ends[n])]
  {
  }

  /** A range of more than two elements leaves a slot free, and the slot is below log2 of the length. */
  lemma SlotFree(n: nat, rest: seq<Range>, g: Range)
    requires Halved(n, rest + [g]) && g.1 - g.0 > 2 && n <= SIZE_LIMIT
    ensures |rest| + 1 < SLOTS && Pow2(|rest| + 1) <= n
  {
    var d := |rest|;
    assert (rest + [g])[d] == g;
    SlotBound(n, g.1 - g.0, d);
  }

  lemma SlotBound(n: nat, size: int, d: nat)
    requires size * Pow2(d) <= n <= SIZE_LIMIT && size > 2
    ensures d + 1 < SLOTS && Pow2(d + 1) <= n
  {
    Scale(3, size, Pow2(d));
    assert Pow2(d + 1) == 2 * Pow2(d);
    if d + 1 >= SLOTS {
      Pow2Large(d + 1);
    }
  }

  /** One turn of the inner loop: partition, stack the larger side, go on with the smaller one. */
  method Divide<T(!new)>(cmp: (T, T) -> int, a: array<T>, starts: array<int>, ends: array<int>, stacki: nat,
        start: nat, end: nat, ghost s0: seq<T>)
    returns (stacki': nat, start': nat, end': nat)
    requires TotalPreorder(cmp)
    requires a != starts && a != ends && starts != ends && starts.Length == ends.Length == SLOTS && stacki <= SLOTS
    requires a.Length <= SIZE_LIMIT && start + 2 < end <= a.Length
    requires Working(cmp, s0, a[..], Stacked(starts[..], ends[..], stacki) + [(start, end)])
    modifies a, starts, ends
    ensures stacki <= stacki' <= stacki + 1 && stacki' < SLOTS && (stacki' > stacki ==> Pow2(stacki') <= a.Length)
    ensures start' <= end' <= a.Length && end' - start' < end - start
    ensures Working(cmp, s0, a[..], Stacked(starts[..], ends[..], stacki') + [(start', end')])
    ensures Load(Stacked(starts[..], ends[..], stacki') + [(start', end')]) <= old(Load(Stacked(starts[..], ends[..], stacki) + [(start, end)]))
  {
    hide Rearranged, Parted, Halved, Apart, Ranges, Load, Stacked;
    ghost var rest, s := Stacked(starts[..], ends[..], stacki), a[..];
    WorkingSlot(cmp, s0, s, rest, (start, end));
    var m := Partition(cmp, a, start, end);
    PivotInside(cmp, a[..], start, end, m);
    hide Working;
    stacki', start', end' := stacki, start, end;
    if m - start > 1 && end - m > 1 {
      if m - start < end - m - 1 {
        Push(cmp, s0, s, a[..], rest, start, end, m, (m + 1, end), (start, m));
        StackedPush(starts[..], ends[..], stacki, (m + 1, end));
        starts[stacki], ends[stacki] := m + 1, end;
        end' := m;
      } else {
        Push(cmp, s0, s, a[..], rest, start, end, m, (start, m), (m + 1, end));
        StackedPush(starts[..], ends[..], stacki, (start, m));
        starts[stacki], ends[stacki] := start, m;
        start' := m + 1;
      }
      stacki' := stacki + 1;
    } else if m - start > 1 {
      Narrow(cmp, s0, s, a[..], rest, start, end, m, (start, m));
      end' := m;
    } else {
      Narrow(cmp, s0, s, a[..], rest, start, end, m, (m + 1, end));
      start' := m + 1;
    }
  }

  lemma WorkingSlot<T>(cmp: (T, T) -> int, s0: seq<T>, s: seq<T>, rest: seq<Range>, g: Range)
    requires Working(cmp, s0, s, rest + [g]) && g.1 - g.0 > 2 && |s| <= SIZE_LIMIT
    ensures |rest| + 1 < SLOTS && Pow2(|rest| + 1) <= |s|
  {
    SlotFree(|s|, rest, g);
  }

  lemma PivotInside<T>(cmp: (T, T) -> int, s: seq<T>, start: nat, end: nat, m: int)
    requires Parted(cmp, s, start, end, m)
    ensures start <= m < end <= |s|
  {
  }

  /** The end of a turn of the outer loop: one or two elements are left, or none. */
  method SortPair<T(!new)>(cmp: (T, T) -> int, a: array<T>, start: nat, end: nat, ghost s0: seq<T>, ghost rest: seq<Range>)
    requires TotalPreorder(cmp)
    requires start <= end <= a.Length && end - start <= 2 && Working(cmp, s0, a[..], rest + [(start, end)])
    modifies a
    ensures Working(cmp, s0, a[..], rest)
  {
    ghost var s := a[..];
    if end - start == 2 && cmp(a[start], a[end - 1]) > 0 {
      ExchangeIn(a, start, end, start, end - 1);
    } else {
      assert Rearranged(s, s, start, end);
    }
    PairDone(cmp, s0, s, a[..], rest, start, end);
  }

  lemma PairDone<T>(cmp: (T, T) -> int, s0: seq<T>, a: seq<T>, b: seq<T>, rest: seq<Range>, start: nat, end: nat)
    requires Working(cmp, s0, a, rest + [(start, end)]) && Rearranged(a, b, start, end) && end - start <= 2
    requires end - start == 2 ==> cmp(b[start], b[start + 1]) <= 0
    ensures Working(cmp, s0, b, rest)
  {
    RearrangedPermutes(a, b, start, end);
    RestRanges(|a|, rest, (start, end));
    forall i, j | 0 <= i < j < |b| ensures cmp(b[i], b[j]) <= 0 || Together(rest, i, j) {
      if !(start <= i && j < end) {
        AcrossKept(cmp, a, b, rest, start, end, i, j);
      }
    }
  }

  lemma RestRanges(n: nat, rest: seq<Range>, g: Range)
    requires Ranges(n, rest + [g]) && Halved(n, rest + [g])
    ensures Ranges(n, rest) && Halved(n, rest)
  {
    var all := rest + [g];
    forall k | 0 <= k < |rest| ensures 0 <= rest[k].0 <= rest[k].1 <= n && (rest[k].1 - rest[k].0) * Pow2(k) <= n {
      assert all[k] == rest[k];
    }
    forall k, l | 0 <= k < l < |rest| ensures Disjoint(rest[k], rest[l]) {
      assert Disjoint(all[k], all[l]);
    }
  }

  lemma StartWorking<T>(cmp: (T, T) -> int, s: seq<T>)
    ensures Working(cmp, s, s, [(0, |s|)])
  {
    assert [(0, |s|)][0] == (0, |s|);
  }

  lemma TopRange<T>(cmp: (T, T) -> int, s0: seq<T>, s: seq<T>, rest: seq<Range>, g: Range)
    requires Working(cmp, s0, s, rest + [g])
    ensures 0 <= g.0 <= g.1 <= |s| && Load(rest + [g]) == Load(rest) + g.1 - g.0 + 1 && Load(rest) >= |rest|
  {
    assert (rest + [g])[|rest|] == g;
    LoadSnoc(rest, g);
    RestRanges(|s|, rest, g);
    LoadPositive(|s|, rest);
  }

  /** A sorted permutation. */
  ghost predicate Sorted<T>(cmp: (T, T) -> int, s: seq<T>)
  {
    forall i, j :: 0 <= i < j < |s| ==> cmp(s[i], s[j]) <= 0
  }

  lemma NothingTogether<T>(cmp: (T, T) -> int, s0: seq<T>, s: seq<T>)
    requires Working(cmp, s0, s, [])
    ensures Sorted(cmp, s) && multiset(s) == multiset(s0)
  {
    forall i, j | 0 <= i < j < |s| ensures cmp(s[i], s[j]) <= 0 {
      assert !Together([], i, j);
    }
  }

  /** SGLIB_ARRAY_QUICK_SORT, for any element type and comparator. deepest is the number of slots that were ever used: at
      most log2 of the length, when more than one was. */
  method QuickSort<T(!new)>(cmp: (T, T) -> int, a: array<T>) returns (ghost deepest: nat)
    requires TotalPreorder(cmp) && a.Length <= SIZE_LIMIT
    modifies a
    ensures Sorted(cmp, a[..]) && multiset(a[..]) == multiset(old(a[..]))
    ensures deepest <= SLOTS && (deepest > 1 ==> Pow2(deepest) <= a.Length)
  {
    hide Working, Stacked, Load;
    ghost var s0 := a[..];
    var starts, ends := new int[SLOTS](k => 0), new int[SLOTS](k => 0);
    starts[0], ends[0] := 0, a.Length;
    var stacki := 1;
    deepest := 1;
    StackedOne(starts[..], ends[..]);
    StartWorking(cmp, s0);
    while stacki > 0
      invariant stacki <= SLOTS && stacki <= deepest <= SLOTS && (deepest > 1 ==> Pow2(deepest) <= a.Length)
      invariant Working(cmp, s0, a[..], Stacked(starts[..], ends[..], stacki))
      decreases Load(Stacked(starts[..], ends[..], stacki))
    {
      stacki := stacki - 1;
      StackedPop(starts[..], ends[..], stacki);
      TopRange(cmp, s0, a[..], Stacked(starts[..], ends[..], stacki), (starts[stacki], ends[stacki]));
      ghost var load := Load(Stacked(starts[..], ends[..], stacki + 1));
      var start: nat, end: nat := starts[stacki], ends[stacki];
      while end - start > 2
        invariant start <= end <= a.Length && stacki < SLOTS && stacki <= deepest <= SLOTS && (deepest > 1 ==> Pow2(deepest) <= a.Length)
        invariant Working(cmp, s0, a[..], Stacked(starts[..], ends[..], stacki) + [(start, end)])
        invariant Load(Stacked(starts[..], ends[..], stacki) + [(start, end)]) <= load
        decreases end - start
      {
        stacki, start, end := Divide(cmp, a, starts, ends, stacki, start, end, s0);
        deepest := if stacki > deepest then stacki else deepest;
      }
      TopRange(cmp, s0, a[..], Stacked(starts[..], ends[..], stacki), (start, end));
      SortPair(cmp, a, start, end, s0, Stacked(starts[..], ends[..], stacki));
    }
    NoneStacked(starts[..], ends[..]);
    NothingTogether(cmp, s0, a[..]);
  }

  lemma StackedOne(starts: seq<int>, ends: seq<int>)
    requires |starts| == |ends| > 0
    ensures Stacked(starts, ends, 1) == [(starts[0], ends[0])]
  {
  }

  lemma NoneStacked(starts: seq<int>, ends: seq<int>)
    requires |starts| == |ends|
    ensures Stacked(starts, ends, 0) == []
  {
  }
}
