/**
  Longest-first greedy packing: each group goes to the file that is smallest so far. An
  assignment of groups to files is a sequence of file numbers, one per group.
 */
module Packing {
  import opened Counting

  /** What file `k` holds under the assignment. */
  function Load(sizes: seq<nat>, files: seq<nat>, k: nat): nat
    requires |sizes| == |files|
  {
    if sizes == [] then 0
    else
      var n := |sizes| - 1;
      Load(sizes[..n], files[..n], k) + if files[n] == k then sizes[n] else 0
  }

  function Loads(sizes: seq<nat>, files: seq<nat>, m: nat): (loads: seq<nat>)
    requires |sizes| == |files|
    ensures |loads| == m
  {
    seq(m, k requires 0 <= k => Load(sizes, files, k))
  }

  ghost predicate IsAssignment(sizes: seq<nat>, files: seq<nat>, m: nat) {
    |files| == |sizes| && forall i :: 0 <= i < |files| ==> files[i] < m
  }

  /** The file chosen: the first of the smallest. */
  ghost predicate IsFirstMin(loads: seq<nat>, k: nat) {
    && k < |loads|
    && (forall j :: 0 <= j < |loads| ==> loads[k] <= loads[j])
    && (forall j :: 0 <= j < k ==> loads[k] < loads[j])
  }

  /** Every group went to the file that was smallest when its turn came. */
  ghost predicate IsGreedy(sizes: seq<nat>, files: seq<nat>, m: nat) {
    && IsAssignment(sizes, files, m)
    && forall n :: 0 <= n < |sizes| ==> IsFirstMin(Loads(sizes[..n], files[..n], m), files[n])
  }

  ghost predicate Descending(sizes: seq<nat>) {
    forall i, j :: 0 <= i < j < |sizes| ==> sizes[i] >= sizes[j]
  }

  /** Every file of the assignment holds at most `bound`. */
  ghost predicate Within(sizes: seq<nat>, files: seq<nat>, m: nat, bound: nat)
    requires |sizes| == |files|
  {
    forall k :: 0 <= k < m ==> Load(sizes, files, k) <= bound
  }

  // ---------------------------------------------------------------- the loads add up

  function LoadSum(sizes: seq<nat>, files: seq<nat>, m: nat): nat
    requires |sizes| == |files|
  {
    if m == 0 then 0 else LoadSum(sizes, files, m - 1) + Load(sizes, files, m - 1)
  }

  lemma {:induction false} LoadSumStep(sizes: seq<nat>, files: seq<nat>, m: nat)
    requires |sizes| == |files| > 0
    ensures LoadSum(sizes, files, m) ==
      LoadSum(sizes[..|sizes| - 1], files[..|files| - 1], m) + if files[|files| - 1] < m then sizes[|sizes| - 1] else 0
  {
    if m > 0 {
      LoadSumStep(sizes, files, m - 1);
    }
  }

  lemma {:induction false} EmptyLoadSum(m: nat)
    ensures LoadSum([], [], m) == 0
  {
    if m > 0 {
      EmptyLoadSum(m - 1);
    }
  }

  lemma {:induction false} LoadsAddUp(sizes: seq<nat>, files: seq<nat>, m: nat)
    requires IsAssignment(sizes, files, m)
    ensures LoadSum(sizes, files, m) == Total(sizes)
  {
    if sizes == [] {
      EmptyLoadSum(m);
    } else {
      LoadSumStep(sizes, files, m);
      LoadsAddUp(sizes[..|sizes| - 1], files[..|files| - 1], m);
    }
  }

  lemma {:induction false} SumAtLeast(sizes: seq<nat>, files: seq<nat>, m: nat, low: nat)
    requires |sizes| == |files| && forall k :: 0 <= k < m ==> low <= Load(sizes, files, k)
    ensures m * low <= LoadSum(sizes, files, m)
  {
    if m > 0 {
      SumAtLeast(sizes, files, m - 1, low);
      assert m * low == (m - 1) * low + low;
    }
  }

  lemma {:induction false} SumAtMost(sizes: seq<nat>, files: seq<nat>, m: nat, high: nat)
    requires |sizes| == |files| && forall k :: 0 <= k < m ==> Load(sizes, files, k) <= high
    ensures LoadSum(sizes, files, m) <= m * high
  {
    if m > 0 {
      SumAtMost(sizes, files, m - 1, high);
      assert m * high == (m - 1) * high + high;
    }
  }

  /** The smallest file is at most the average. */
  lemma MinIsBelowAverage(sizes: seq<nat>, files: seq<nat>, m: nat, k: nat)
    requires IsAssignment(sizes, files, m) && IsFirstMin(Loads(sizes, files, m), k)
    ensures m * Load(sizes, files, k) <= Total(sizes)
  {
    var low := Loads(sizes, files, m)[k];
    forall j | 0 <= j < m ensures low <= Load(sizes, files, j) {
      assert Loads(sizes, files, m)[j] == Load(sizes, files, j);
    }
    SumAtLeast(sizes, files, m, low);
    LoadsAddUp(sizes, files, m);
  }

  lemma GreedyPrefix(sizes: seq<nat>, files: seq<nat>, m: nat)
    requires IsGreedy(sizes, files, m) && sizes != []
    ensures var n := |sizes| - 1;
      IsGreedy(sizes[..n], files[..n], m) && IsFirstMin(Loads(sizes[..n], files[..n], m), files[n])
  {
    var n := |sizes| - 1;
    forall i | 0 <= i < n
      ensures IsFirstMin(Loads(sizes[..n][..i], files[..n][..i], m), files[..n][i])
    {
      assert sizes[..n][..i] == sizes[..i] && files[..n][..i] == files[..i];
      assert IsFirstMin(Loads(sizes[..i], files[..i], m), files[i]);
    }
  }

  // ---------------------------------------------------------------- the list-scheduling bound

  /** In whatever order the groups come: m · load <= total + (m - 1) · largest. */
  lemma {:induction false} ListBound(sizes: seq<nat>, files: seq<nat>, m: nat, largest: nat, k: nat)
    requires IsGreedy(sizes, files, m) && k < m
    requires forall i :: 0 <= i < |sizes| ==> sizes[i] <= largest
    ensures m * Load(sizes, files, k) <= Total(sizes) + (m - 1) * largest
  {
    if sizes == [] {
      assert m * 0 == 0;
    } else {
      var n := |sizes| - 1;
      GreedyPrefix(sizes, files, m);
      if files[n] == k {
        MinIsBelowAverage(sizes[..n], files[..n], m, k);
        LastGroupArithmetic(m, Load(sizes[..n], files[..n], k), Total(sizes[..n]), sizes[n], largest);
      } else {
        ListBound(sizes[..n], files[..n], m, largest, k);
      }
    }
  }

  lemma LastGroupArithmetic(m: nat, load: nat, total: nat, size: nat, largest: nat)
    requires m > 0 && m * load <= total && size <= largest
    ensures m * (load + size) <= total + size + (m - 1) * largest
  {
    assert m * (load + size) == m * load + (m - 1) * size + size;
    MulMonotone(m - 1, size, largest);
  }

  lemma MulMonotone(a: nat, x: nat, y: nat)
    requires x <= y
    ensures a * x <= a * y
  {
  }

  lemma {:induction false} OneGroupFits(sizes: seq<nat>, files: seq<nat>, i: nat)
    requires |sizes| == |files| && i < |sizes|
    ensures sizes[i] <= Load(sizes, files, files[i])
  {
    var n := |sizes| - 1;
    if i < n {
      OneGroupFits(sizes[..n], files[..n], i);
    }
  }

  lemma TotalFits(sizes: seq<nat>, files: seq<nat>, m: nat, bound: nat)
    requires IsAssignment(sizes, files, m) && Within(sizes, files, m, bound)
    ensures Total(sizes) <= m * bound
  {
    SumAtMost(sizes, files, m, bound);
    LoadsAddUp(sizes, files, m);
  }

  /** No file exceeds 2 - 1/m times what any other way to split the groups can achieve. */
  lemma WithinTwiceBest(sizes: seq<nat>, files: seq<nat>, m: nat, other: seq<nat>, best: nat, k: nat)
    requires IsGreedy(sizes, files, m) && k < m
    requires IsAssignment(sizes, other, m) && Within(sizes, other, m, best)
    ensures m * Load(sizes, files, k) <= (2 * m - 1) * best
  {
    forall i | 0 <= i < |sizes| ensures sizes[i] <= best {
      OneGroupFits(sizes, other, i);
    }
    ListBound(sizes, files, m, best, k);
    TotalFits(sizes, other, m, best);
    TwiceArithmetic(m, Load(sizes, files, k), Total(sizes), best);
  }

  lemma TwiceArithmetic(m: nat, load: nat, total: nat, best: nat)
    requires m > 0 && m * load <= total + (m - 1) * best && total <= m * best
    ensures m * load <= (2 * m - 1) * best
  {
    assert (2 * m - 1) * best == m * best + (m - 1) * best;
  }

  // ---------------------------------------------------------------- the longest-first bound

  /** One per group, and one more for a group too big to share a file with the last one. */
  function Weights(sizes: seq<nat>, last: nat, best: nat): (w: seq<nat>)
    ensures |w| == |sizes|
    ensures forall i :: 0 <= i < |sizes| ==> w[i] == if sizes[i] + last > best then 2 else 1
  {
    seq(|sizes|, i requires 0 <= i < |sizes| => if sizes[i] + last > best then 2 else 1)
  }

  lemma WeightsPrefix(sizes: seq<nat>, last: nat, best: nat)
    requires sizes != []
    ensures Weights(sizes, last, best)[..|sizes| - 1] == Weights(sizes[..|sizes| - 1], last, best)
  {
  }

  /** When every group is over a third of `best`, weight 3 in a file means more than `best`. */
  lemma {:induction false} WeightUpper(sizes: seq<nat>, files: seq<nat>, k: nat, last: nat, best: nat)
    requires |sizes| == |files| && 3 * last > best
    requires forall i :: 0 <= i < |sizes| ==> sizes[i] >= last
    ensures var w := Load(Weights(sizes, last, best), files, k);
      && (w >= 1 ==> Load(sizes, files, k) >= last)
      && (w >= 2 ==> Load(sizes, files, k) + last > best)
      && (w >= 3 ==> Load(sizes, files, k) > best)
  {
    if sizes != [] {
      var n := |sizes| - 1;
      WeightsPrefix(sizes, last, best);
      WeightUpper(sizes[..n], files[..n], k, last, best);
    }
  }

  /** A file too full to take the last group carries weight 2 at least. */
  lemma {:induction false} WeightLower(sizes: seq<nat>, files: seq<nat>, k: nat, last: nat, best: nat)
    requires |sizes| == |files| && last <= best
    ensures var w := Load(Weights(sizes, last, best), files, k);
      && (w == 0 ==> Load(sizes, files, k) == 0)
      && (w == 1 ==> Load(sizes, files, k) + last <= best)
  {
    if sizes != [] {
      var n := |sizes| - 1;
      WeightsPrefix(sizes, last, best);
      WeightLower(sizes[..n], files[..n], k, last, best);
    }
  }

  /** If the last group is over a third of `best`, and `best` is achievable at all, then greedy
      still finds it a file where it fits within `best`. */
  lemma BigLastFits(sizes: seq<nat>, files: seq<nat>, m: nat, other: seq<nat>, best: nat)
    requires IsGreedy(sizes, files, m) && Descending(sizes) && sizes != []
    requires IsAssignment(sizes, other, m) && Within(sizes, other, m, best)
    requires 3 * sizes[|sizes| - 1] > best
    ensures Load(sizes, files, files[|sizes| - 1]) <= best
  {
    var n := |sizes| - 1;
    var last := sizes[n];
    var w := Weights(sizes, last, best);
    GreedyPrefix(sizes, files, m);
    OneGroupFits(sizes, other, n);
    var low := Loads(sizes[..n], files[..n], m);
    if low[files[n]] + last > best {
      forall k | 0 <= k < m ensures 2 <= Load(w[..n], files[..n], k) {
        assert low[k] == Load(sizes[..n], files[..n], k) >= low[files[n]];
        WeightsPrefix(sizes, last, best);
        WeightLower(sizes[..n], files[..n], k, last, best);
      }
      SumAtLeast(w[..n], files[..n], m, 2);
      LoadsAddUp(w[..n], files[..n], m);
      forall k | 0 <= k < m ensures Load(w, other, k) <= 2 {
        WeightUpper(sizes, other, k, last, best);
      }
      SumAtMost(w, other, m, 2);
      LoadsAddUp(w, other, m);
      assert false;
    }
  }

  lemma PrefixWithin(sizes: seq<nat>, files: seq<nat>, m: nat, best: nat)
    requires IsAssignment(sizes, files, m) && Within(sizes, files, m, best) && sizes != []
    ensures var n := |sizes| - 1;
      IsAssignment(sizes[..n], files[..n], m) && Within(sizes[..n], files[..n], m, best)
  {
    var n := |sizes| - 1;
    forall k | 0 <= k < m ensures Load(sizes[..n], files[..n], k) <= best {
      assert Load(sizes[..n], files[..n], k) <= Load(sizes, files, k);
    }
  }

  /** Longest first: no file exceeds 4/3 - 1/(3m) times the best possible split. */
  lemma {:induction false} LongestFirstBound(
    sizes: seq<nat>, files: seq<nat>, m: nat, other: seq<nat>, best: nat, k: nat)
    requires IsGreedy(sizes, files, m) && Descending(sizes) && k < m
    requires IsAssignment(sizes, other, m) && Within(sizes, other, m, best)
    ensures 3 * (m * Load(sizes, files, k)) <= (4 * m - 1) * best
  {
    if sizes == [] {
      assert m * 0 == 0;
    } else {
      var n := |sizes| - 1;
      GreedyPrefix(sizes, files, m);
      if files[n] != k {
        PrefixWithin(sizes, other, m, best);
        LongestFirstBound(sizes[..n], files[..n], m, other[..n], best, k);
      } else if 3 * sizes[n] > best {
        BigLastFits(sizes, files, m, other, best);
        BigArithmetic(m, Load(sizes, files, k), best);
      } else {
        SmallLastBound(sizes, files, m, other, best);
      }
    }
  }

  lemma SmallLastBound(sizes: seq<nat>, files: seq<nat>, m: nat, other: seq<nat>, best: nat)
    requires IsGreedy(sizes, files, m) && sizes != []
    requires IsAssignment(sizes, other, m) && Within(sizes, other, m, best)
    requires 3 * sizes[|sizes| - 1] <= best
    ensures 3 * (m * Load(sizes, files, files[|sizes| - 1])) <= (4 * m - 1) * best
  {
    var n := |sizes| - 1;
    var p := sizes[n];
    GreedyPrefix(sizes, files, m);
    MinIsBelowAverage(sizes[..n], files[..n], m, files[n]);
    TotalFits(sizes, other, m, best);
    SmallArithmetic(m, Load(sizes[..n], files[..n], files[n]), p, best);
  }

  lemma BigArithmetic(m: nat, load: nat, best: nat)
    requires m > 0 && load <= best
    ensures 3 * (m * load) <= (4 * m - 1) * best
  {
    MulMonotone(m, load, best);
    MulMonotone(best, 0, m - 1);
    calc {
      3 * (m * load);
    <=
      3 * (m * best) + (m - 1) * best;
      (4 * m - 1) * best;
    }
  }

  lemma SmallArithmetic(m: nat, before: nat, p: nat, best: nat)
    requires m > 0 && m * before + p <= m * best && 3 * p <= best
    ensures 3 * (m * (before + p)) <= (4 * m - 1) * best
  {
    MulMonotone(m - 1, 3 * p, best);
    calc {
      3 * (m * (before + p));
      3 * (m * before + p) + (m - 1) * (3 * p);
    <=
      3 * (m * best) + (m - 1) * best;
      (4 * m - 1) * best;
    }
  }

  // ---------------------------------------------------------------- the packing loop

  /** `min` of the sizes, then `array_search` for it. */
  method FirstMin(loads: array<nat>) returns (k: nat)
    requires loads.Length > 0
    ensures IsFirstMin(loads[..], k)
  {
    k := 0;
    var j := 1;
    while j < loads.Length
      invariant 1 <= j <= loads.Length && k < j
      invariant IsFirstMin(loads[..j], k)
    {
      if loads[j] < loads[k] {
        k := j;
      }
      j := j + 1;
    }
    assert loads[..j] == loads[..];
  }

  method Pack(sizes: seq<nat>, m: nat) returns (files: seq<nat>, fileSizes: array<nat>)
    requires m > 0
    ensures IsGreedy(sizes, files, m)
    ensures fresh(fileSizes) && fileSizes[..] == Loads(sizes, files, m)
  {
    files := [];
    fileSizes := new nat[m](_ => 0);
    var n := 0;
    while n < |sizes|
      invariant 0 <= n <= |sizes| && |files| == n && fresh(fileSizes) && fileSizes.Length == m
      invariant fileSizes[..] == Loads(sizes[..n], files, m)
      invariant IsGreedy(sizes[..n], files, m)
    {
      var fileId := FirstMin(fileSizes);
      ExtendGreedy(sizes[..n], files, m, sizes[n], fileId);
      assert sizes[..n] + [sizes[n]] == sizes[..n + 1];
      files := files + [fileId];
      fileSizes[fileId] := fileSizes[fileId] + sizes[n];
      n := n + 1;
    }
    assert sizes[..n] == sizes;
  }

  lemma LoadSnoc(sizes: seq<nat>, files: seq<nat>, size: nat, file: nat, k: nat)
    requires |sizes| == |files|
    ensures Load(sizes + [size], files + [file], k) == Load(sizes, files, k) + if file == k then size else 0
  {
    assert (sizes + [size])[..|sizes|] == sizes && (files + [file])[..|files|] == files;
  }

  lemma ExtendGreedy(sizes: seq<nat>, files: seq<nat>, m: nat, size: nat, k: nat)
    requires IsGreedy(sizes, files, m) && IsFirstMin(Loads(sizes, files, m), k)
    ensures IsGreedy(sizes + [size], files + [k], m)
    ensures Loads(sizes + [size], files + [k], m) == Loads(sizes, files, m)[k := Load(sizes, files, k) + size]
  {
    ExtendLoads(sizes, files, m, size, k);
    hide Load;
    hide Loads;
    hide IsFirstMin;
    var sizes', files' := sizes + [size], files + [k];
    forall n | 0 <= n < |sizes'| ensures IsFirstMin(Loads(sizes'[..n], files'[..n], m), files'[n]) {
      if n < |sizes| {
        assert sizes'[..n] == sizes[..n] && files'[..n] == files[..n];
      } else {
        assert sizes'[..n] == sizes && files'[..n] == files;
      }
    }
    assert IsFirstMin(Loads(sizes, files, m), k) ==> k < m by {
      FirstMinInRange(sizes, files, m, k);
    }
  }

  lemma FirstMinInRange(sizes: seq<nat>, files: seq<nat>, m: nat, k: nat)
    requires |sizes| == |files|
    ensures IsFirstMin(Loads(sizes, files, m), k) ==> k < m
  {
  }

  lemma ExtendLoads(sizes: seq<nat>, files: seq<nat>, m: nat, size: nat, k: nat)
    requires |sizes| == |files| && k < m
    ensures Loads(sizes + [size], files + [k], m) == Loads(sizes, files, m)[k := Load(sizes, files, k) + size]
  {
    hide Load;
    var sizes', files' := sizes + [size], files + [k];
    forall j | 0 <= j < m
      ensures Loads(sizes', files', m)[j] == Loads(sizes, files, m)[k := Load(sizes, files, k) + size][j]
    {
      LoadSnoc(sizes, files, size, k, j);
    }
  }
}
