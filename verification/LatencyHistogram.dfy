/** The logarithmic latency histogram (dwd-core/src/histogram.rs), the merge of the per-CPU
    copies (dwd-core/src/stat/percpu.rs), and how well a quantile read from bucket counts
    stands in for the sorted samples. Powers of 1.5 are exact reals. */
module LatencyHistogram {
  import opened Common

  const FACTOR: real := 1.5
  const MAX_US: real := 60_000_000.0
  const BUCKETS: nat := 45

  function Power(k: nat): real { if k == 0 then 1.0 else FACTOR * Power(k - 1) }

  lemma {:induction false} PowerGrows(j: nat, k: nat)
    requires j <= k
    ensures 0.0 < Power(j) <= Power(k)
    ensures j < k ==> Power(j) < Power(k)
    decreases k
  {
    if j < k {
      PowerGrows(j, k - 1);
    } else if k > 0 {
      PowerGrows(k - 1, k - 1);
    }
  }

  // --- Buckets ------------------------------------------------------------------------

  /** `record`'s bucket: the largest power of 1.5 not above the sample, clamped to the last. */
  function BucketOf(us: nat, len: nat): (r: nat)
    requires len > 0
    ensures r < len
  {
    Climb(us, 0, len)
  }

  function Climb(us: nat, k: nat, len: nat): (r: nat)
    requires k < len
    ensures k <= r < len
    decreases len - k
  {
    if k + 1 < len && Power(k + 1) <= us as real then Climb(us, k + 1, len) else k
  }

  lemma {:induction false} ClimbRange(us: nat, k: nat, len: nat)
    requires k < len && (k > 0 ==> Power(k) <= us as real)
    ensures var r := Climb(us, k, len);
            && k <= r < len
            && (r > 0 ==> Power(r) <= us as real)
            && (r + 1 < len ==> us as real < Power(r + 1))
    decreases len - k
  {
    if k + 1 < len && Power(k + 1) <= us as real {
      ClimbRange(us, k + 1, len);
    }
  }

  /** A bucket holds the samples from its power of 1.5 up to the next; the first starts at
      zero and the last has no end. */
  lemma BucketRange(us: nat, len: nat)
    requires len > 0
    ensures var r := BucketOf(us, len);
            && r < len
            && (r > 0 ==> Power(r) <= us as real)
            && (r + 1 < len ==> us as real < Power(r + 1))
  {
    ClimbRange(us, 0, len);
  }

  lemma BucketMonotone(a: nat, b: nat, len: nat)
    requires len > 0 && a <= b
    ensures BucketOf(a, len) <= BucketOf(b, len)
  {
    BucketRange(a, len);
    BucketRange(b, len);
    var i, j := BucketOf(a, len), BucketOf(b, len);
    if j < i {
      PowerGrows(j + 1, i);
    }
  }

  ghost function CountIn(samples: seq<nat>, k: nat, len: nat): nat
    requires len > 0
  {
    if samples == [] then 0
    else CountIn(samples[..|samples| - 1], k, len) + if BucketOf(samples[|samples| - 1], len) == k then 1 else 0
  }

  ghost function Counts(samples: seq<nat>, len: nat): seq<nat>
    requires len > 0
  {
    seq(len, k requires 0 <= k < len => CountIn(samples, k, len))
  }

  /** How many samples lie in the first `k` buckets. */
  ghost function CountBelow(samples: seq<nat>, k: nat, len: nat): nat
    requires len > 0
  {
    if samples == [] then 0
    else CountBelow(samples[..|samples| - 1], k, len) + if BucketOf(samples[|samples| - 1], len) < k then 1 else 0
  }

  lemma {:induction false} CountBelowStep(samples: seq<nat>, k: nat, len: nat)
    requires len > 0
    ensures CountBelow(samples, k + 1, len) == CountBelow(samples, k, len) + CountIn(samples, k, len)
  {
    if samples != [] {
      CountBelowStep(samples[..|samples| - 1], k, len);
    }
  }

  lemma {:induction false} CountBelowEnds(samples: seq<nat>, len: nat)
    requires len > 0
    ensures CountBelow(samples, 0, len) == 0
    ensures CountBelow(samples, len, len) == |samples|
  {
    if samples != [] {
      CountBelowEnds(samples[..|samples| - 1], len);
      BucketRange(samples[|samples| - 1], len);
    }
  }

  lemma {:induction false} PrefixIsCountBelow(samples: seq<nat>, k: nat, len: nat)
    requires len > 0 && k <= len
    ensures Total(Counts(samples, len)[..k]) == CountBelow(samples, k, len)
  {
    if k == 0 {
      CountBelowEnds(samples, len);
    } else {
      PrefixIsCountBelow(samples, k - 1, len);
      CountBelowStep(samples, k - 1, len);
      assert Counts(samples, len)[..k][..k - 1] == Counts(samples, len)[..k - 1];
    }
  }

  // --- Merging ------------------------------------------------------------------------

  function CellOr0(s: seq<nat>, k: nat): nat { if k < |s| then s[k] else 0 }

  /** Cell by cell sum; the shorter row counts as zero beyond its end. */
  function AddRows(a: seq<nat>, b: seq<nat>): seq<nat> {
    seq(Max(|a|, |b|), k requires 0 <= k < Max(|a|, |b|) => CellOr0(a, k) + CellOr0(b, k))
  }

  function Merged(rows: seq<seq<nat>>): seq<nat> {
    if rows == [] then [] else AddRows(Merged(rows[..|rows| - 1]), rows[|rows| - 1])
  }

  method Merge(rows: seq<seq<nat>>) returns (snapshot: seq<nat>)
    ensures snapshot == Merged(rows)
  {
    snapshot := [];
    for i := 0 to |rows|
      invariant snapshot == Merged(rows[..i])
    {
      assert rows[..i + 1][..i] == rows[..i];
      ghost var before := snapshot;
      var row := rows[i];
      if |row| > |snapshot| {
        snapshot := snapshot + seq(|row| - |snapshot|, _ => 0);
      }
      for idx := 0 to |row|
        invariant |snapshot| == Max(|before|, |row|)
        invariant forall k :: 0 <= k < |snapshot| ==>
                    snapshot[k] == CellOr0(before, k) + if k < idx then row[k] else 0
      {
        snapshot := snapshot[idx := snapshot[idx] + row[idx]];
      }
      assert snapshot == AddRows(before, row);
    }
    assert rows[..|rows|] == rows;
  }

  ghost function Flatten(parts: seq<seq<nat>>): seq<nat> {
    if parts == [] then [] else Flatten(parts[..|parts| - 1]) + parts[|parts| - 1]
  }

  lemma {:induction false} CountInAppend(a: seq<nat>, b: seq<nat>, k: nat, len: nat)
    requires len > 0
    ensures CountIn(a + b, k, len) == CountIn(a, k, len) + CountIn(b, k, len)
  {
    if b == [] {
      assert a + b == a;
    } else {
      var n := |b| - 1;
      assert (a + b)[..|a| + n] == a + b[..n];
      CountInAppend(a, b[..n], k, len);
    }
  }

  /** One row of bucket counts per CPU, each holding that CPU's samples. */
  ghost predicate Recorded(parts: seq<seq<nat>>, rows: seq<seq<nat>>, len: nat)
    requires len > 0
  {
    |rows| == |parts| > 0 && forall i :: 0 <= i < |parts| ==> rows[i] == Counts(parts[i], len)
  }

  /** Merging the histograms of all CPUs is the histogram of all samples. */
  lemma {:induction false} MergedIsCombined(parts: seq<seq<nat>>, rows: seq<seq<nat>>, len: nat)
    requires len > 0 && Recorded(parts, rows, len)
    ensures Merged(rows) == Counts(Flatten(parts), len)
  {
    var n := |parts| - 1;
    if n == 0 {
      assert rows[..0] == [] && parts[..0] == [];
      assert [] + parts[0] == parts[0];
      assert Merged(rows[..0]) == [];
      assert AddRows([], rows[0]) == rows[0];
    } else {
      MergedIsCombined(parts[..n], rows[..n], len);
      forall k | 0 <= k < len
        ensures CountIn(Flatten(parts), k, len) == CountIn(Flatten(parts[..n]), k, len) + CountIn(parts[n], k, len)
      {
        CountInAppend(Flatten(parts[..n]), parts[n], k, len);
      }
      assert Merged(rows) == AddRows(Counts(Flatten(parts[..n]), len), Counts(parts[n], len));
    }
  }

  // --- Quantiles ----------------------------------------------------------------------

  /** The value before the power is taken: a position on the bucket scale, the 0/0 of an
      empty histogram or q = 0, or the marker returned when no bucket is found. */
  datatype Position = Marker | NotANumber | At(index: real)

  function Scan(snapshot: seq<nat>, goal: real, idx: nat, sum: nat): Position
    requires idx <= |snapshot|
    decreases |snapshot| - idx
  {
    if idx == |snapshot| then Marker
    else if (sum + snapshot[idx]) as real >= goal then
      if snapshot[idx] == 0 then NotANumber
      else At((goal - sum as real) / snapshot[idx] as real + idx as real)
    else Scan(snapshot, goal, idx + 1, sum + snapshot[idx])
  }

  function Goal(snapshot: seq<nat>, q: real): real { q * Total(snapshot) as real }

  function Quantile(snapshot: seq<nat>, q: real): Position { Scan(snapshot, Goal(snapshot, q), 0, 0) }

  method QuantileLoop(snapshot: seq<nat>, q: real) returns (p: Position)
    requires 0.0 <= q <= 1.0
    ensures p == Quantile(snapshot, q)
  {
    var size := 0;
    for i := 0 to |snapshot|
      invariant size == Total(snapshot[..i])
    {
      assert snapshot[..i + 1][..i] == snapshot[..i];
      size := size + snapshot[i];
    }
    assert snapshot[..|snapshot|] == snapshot;
    var goal := q * size as real;
    assert goal == Goal(snapshot, q);
    var sum := 0;
    for idx := 0 to |snapshot|
      invariant Scan(snapshot, goal, idx, sum) == Quantile(snapshot, q)
    {
      var b := snapshot[idx];
      if (sum + b) as real >= goal {
        return if b == 0 then NotANumber else At((goal - sum as real) / b as real + idx as real);
      }
      sum := sum + b;
    }
    return Marker;
  }

  /** `idx` is the bucket where the running count first reaches `goal`. */
  ghost predicate Reaches(snapshot: seq<nat>, goal: real, idx: nat) {
    && idx < |snapshot|
    && Total(snapshot[..idx]) as real < goal
    && goal <= Total(snapshot[..idx + 1]) as real
  }

  /** The position inside the selected bucket, linear between its two running counts. */
  function Interpolated(goal: real, sum: nat, count: nat, idx: nat): real
    requires count > 0
  {
    (goal - sum as real) / count as real + idx as real
  }

  lemma {:induction false} ScanSelects(snapshot: seq<nat>, goal: real, from: nat, idx: nat)
    requires Reaches(snapshot, goal, idx) && from <= idx
    ensures snapshot[idx] > 0
    ensures Scan(snapshot, goal, from, Total(snapshot[..from]))
         == At(Interpolated(goal, Total(snapshot[..idx]), snapshot[idx], idx))
    decreases idx - from
  {
    TotalNext(snapshot, idx);
    TotalNext(snapshot, from);
    if from < idx {
      TotalPrefix(snapshot, from + 1, idx);
      ScanSelects(snapshot, goal, from + 1, idx);
    }
  }

  lemma {:induction false} SomeBucketReaches(snapshot: seq<nat>, goal: real, k: nat) returns (idx: nat)
    requires k <= |snapshot| && 0.0 < goal <= Total(snapshot[..k]) as real
    ensures Reaches(snapshot, goal, idx) && idx < k
    decreases k
  {
    if k > 0 && goal <= Total(snapshot[..k - 1]) as real {
      idx := SomeBucketReaches(snapshot, goal, k - 1);
    } else {
      idx := k - 1;
    }
  }

  lemma Fraction(x: real, b: real)
    requires 0.0 < x <= b
    ensures 0.0 < x / b <= 1.0
  {
  }

  lemma GoalInside(snapshot: seq<nat>, q: real)
    requires Total(snapshot) > 0 && 0.0 < q <= 1.0
    ensures 0.0 < Goal(snapshot, q) <= Total(snapshot) as real
  {
    ScaledInside(q, Total(snapshot) as real);
  }

  lemma ScaledInside(q: real, n: real)
    requires 0.0 < q <= 1.0 && n > 0.0
    ensures 0.0 < q * n <= n
  {
  }

  lemma InterpolatedInside(goal: real, sum: nat, count: nat, idx: nat)
    requires sum as real < goal <= (sum + count) as real && count > 0
    ensures idx as real < Interpolated(goal, sum, count, idx) <= (idx + 1) as real
  {
    Fraction(goal - sum as real, count as real);
  }

  /** For a non-empty histogram and 0 < q <= 1 there is never a marker and never a division
      by zero: one bucket is selected and the position lies in (idx, idx + 1]. */
  lemma QuantileDefined(snapshot: seq<nat>, q: real) returns (idx: nat)
    requires 0.0 < q <= 1.0 && Total(snapshot) > 0
    ensures Reaches(snapshot, Goal(snapshot, q), idx)
    ensures snapshot[idx] > 0
    ensures Quantile(snapshot, q) == At(Interpolated(Goal(snapshot, q), Total(snapshot[..idx]), snapshot[idx], idx))
    ensures idx as real < Quantile(snapshot, q).index <= (idx + 1) as real
  {
    GoalInside(snapshot, q);
    hide Goal, Interpolated, Scan;
    var goal := Goal(snapshot, q);
    assert snapshot[..|snapshot|] == snapshot;
    idx := SomeBucketReaches(snapshot, goal, |snapshot|);
    ScanSelects(snapshot, goal, 0, idx);
    TotalNext(snapshot, idx);
    InterpolatedInside(goal, Total(snapshot[..idx]), snapshot[idx], idx);
  }

  /** As far into bucket `idx` as the goal is into the bucket's samples. */
  ghost predicate Proportional(index: real, goal: real, sum: nat, count: nat, idx: nat) {
    (index - idx as real) * count as real == goal - sum as real
  }

  ghost predicate IsFraction(goal: real, q: real, n: nat) { goal == q * n as real }

  lemma GoalIsFraction(snapshot: seq<nat>, q: real, goal: real)
    requires IsFraction(goal, q, Total(snapshot))
    ensures Goal(snapshot, q) == goal
  {
  }

  /** Between the borders of the selected bucket the position is linear in the goal q*n. */
  lemma QuantileLinear(snapshot: seq<nat>, q: real, goal: real) returns (idx: nat)
    requires 0.0 < q <= 1.0 && Total(snapshot) > 0 && IsFraction(goal, q, Total(snapshot))
    ensures Reaches(snapshot, goal, idx) && Quantile(snapshot, q).At?
    ensures Proportional(Quantile(snapshot, q).index, goal, Total(snapshot[..idx]), snapshot[idx], idx)
  {
    hide Quantile, Interpolated, Goal, Total, Proportional, IsFraction;
    GoalIsFraction(snapshot, q, goal);
    idx := QuantileDefined(snapshot, q);
    InterpolatedLinear(goal, Total(snapshot[..idx]), snapshot[idx], idx);
  }

  lemma InterpolatedLinear(goal: real, sum: nat, count: nat, idx: nat)
    requires count > 0
    ensures Proportional(Interpolated(goal, sum, count, idx), goal, sum, count, idx)
  {
    var c := count as real;
    assert (goal - sum as real) / c * c == goal - sum as real;
  }

  lemma {:induction false} ScanOutcome(snapshot: seq<nat>, goal: real, from: nat)
    requires from <= |snapshot| && goal <= Total(snapshot) as real
    requires from > 0 ==> Total(snapshot[..from]) as real < goal
    ensures Scan(snapshot, goal, from, Total(snapshot[..from])).Marker? <==> snapshot == []
    ensures Scan(snapshot, goal, from, Total(snapshot[..from])).NotANumber?
       <==> from == 0 && snapshot != [] && snapshot[0] == 0 && goal <= 0.0
    decreases |snapshot| - from
  {
    assert snapshot[..|snapshot|] == snapshot;
    if from < |snapshot| {
      TotalNext(snapshot, from);
      if Total(snapshot[..from + 1]) as real < goal {
        ScanOutcome(snapshot, goal, from + 1);
      }
    }
  }

  /** The marker is returned exactly for a histogram without buckets, and the division is
      0/0 exactly when the first bucket is empty and the goal is zero. */
  lemma QuantileOutcome(snapshot: seq<nat>, q: real)
    requires 0.0 <= q <= 1.0
    ensures Quantile(snapshot, q).Marker? <==> snapshot == []
    ensures Quantile(snapshot, q).NotANumber? <==>
              snapshot != [] && snapshot[0] == 0 && (q == 0.0 || Total(snapshot) == 0)
  {
    GoalRange(snapshot, q);
    hide Scan, Goal;
    assert snapshot[..0] == [];
    ScanOutcome(snapshot, Goal(snapshot, q), 0);
  }

  lemma GoalRange(snapshot: seq<nat>, q: real)
    requires 0.0 <= q <= 1.0
    ensures 0.0 <= Goal(snapshot, q) <= Total(snapshot) as real
    ensures Goal(snapshot, q) <= 0.0 <==> q == 0.0 || Total(snapshot) == 0
  {
    ScaledRange(q, Total(snapshot) as real);
  }

  lemma ScaledRange(q: real, n: real)
    requires 0.0 <= q <= 1.0 && n >= 0.0
    ensures 0.0 <= q * n <= n
    ensures q * n <= 0.0 <==> q == 0.0 || n == 0.0
  {
  }

  /** Higher quantiles are read at higher positions, also across bucket borders. */
  lemma QuantileMonotone(snapshot: seq<nat>, q1: real, q2: real)
    requires 0.0 < q1 <= q2 <= 1.0 && Total(snapshot) > 0
    ensures Quantile(snapshot, q1).At? && Quantile(snapshot, q2).At?
    ensures Quantile(snapshot, q1).index <= Quantile(snapshot, q2).index
  {
    var i := QuantileDefined(snapshot, q1);
    var j := QuantileDefined(snapshot, q2);
    hide Quantile, Interpolated, Goal;
    GoalMonotone(snapshot, q1, q2);
    if i == j {
      InterpolatedMonotone(Goal(snapshot, q1), Goal(snapshot, q2), Total(snapshot[..i]), snapshot[i], i);
    } else if j < i {
      TotalPrefix(snapshot, j + 1, i);
    }
  }

  lemma GoalMonotone(snapshot: seq<nat>, q1: real, q2: real)
    requires q1 <= q2
    ensures Goal(snapshot, q1) <= Goal(snapshot, q2)
  {
    ProductMonotone(q1, q2, Total(snapshot) as real);
  }

  lemma InterpolatedMonotone(g1: real, g2: real, sum: nat, count: nat, idx: nat)
    requires g1 <= g2 && count > 0
    ensures Interpolated(g1, sum, count, idx) <= Interpolated(g2, sum, count, idx)
  {
    QuotientMonotone(g1 - sum as real, g2 - sum as real, count as real);
  }

  lemma ProductMonotone(a: real, b: real, c: real)
    requires a <= b && c >= 0.0
    ensures a * c <= b * c
  {
  }

  lemma QuotientMonotone(a: real, b: real, c: real)
    requires a <= b && c > 0.0
    ensures a / c <= b / c
  {
  }

  // --- The sample a quantile stands for -------------------------------------------------

  ghost predicate Sorted(s: seq<nat>) { forall i, j :: 0 <= i < j < |s| ==> s[i] <= s[j] }

  /** In a sorted list the samples of the first `k` buckets come first. */
  lemma {:induction false} SortedSplits(s: seq<nat>, k: nat, len: nat, p: nat)
    requires len > 0 && Sorted(s) && p < |s|
    ensures CountBelow(s, k, len) <= |s|
    ensures p < CountBelow(s, k, len) <==> BucketOf(s[p], len) < k
    decreases |s|
  {
    var n := |s| - 1;
    var init := s[..n];
    BucketMonotone(s[p], s[n], len);
    if n > 0 {
      if p < n {
        SortedSplits(init, k, len, p);
      }
      BucketMonotone(s[n - 1], s[n], len);
      SortedSplits(init, k, len, n - 1);
    }
  }

  lemma {:induction false} CountBelowRemove(s: seq<nat>, j: nat, k: nat, len: nat)
    requires len > 0 && j < |s|
    ensures CountBelow(s, k, len)
         == CountBelow(s[..j] + s[j + 1..], k, len) + if BucketOf(s[j], len) < k then 1 else 0
  {
    var n := |s| - 1;
    if j == n {
      assert s[..j] + s[j + 1..] == s[..n];
    } else {
      CountBelowRemove(s[..n], j, k, len);
      assert s[..n][..j] + s[..n][j + 1..] == (s[..j] + s[j + 1..])[..n - 1];
    }
  }

  lemma SplitAt(s: seq<nat>, j: nat)
    requires j < |s|
    ensures multiset(s) == multiset(s[..j] + s[j + 1..]) + multiset{s[j]}
  {
    assert s == s[..j] + [s[j]] + s[j + 1..];
  }

  lemma MultisetCancel(a: multiset<nat>, b: multiset<nat>, x: nat)
    requires a + multiset{x} == b + multiset{x}
    ensures a == b
  {
    forall e ensures a[e] == b[e] {
      assert (a + multiset{x})[e] == (b + multiset{x})[e];
    }
  }

  lemma {:induction false} CountBelowPermutation(a: seq<nat>, b: seq<nat>, k: nat, len: nat)
    requires len > 0 && multiset(a) == multiset(b)
    ensures CountBelow(a, k, len) == CountBelow(b, k, len)
    decreases |a|
  {
    if a == [] {
      assert |multiset(b)| == 0;
    } else {
      var n := |a| - 1;
      assert a[n] in multiset(b);
      var j :| 0 <= j < |b| && b[j] == a[n];
      assert a[..n] + a[n + 1..] == a[..n];
      SplitAt(b, j);
      SplitAt(a, n);
      MultisetCancel(multiset(a[..n]), multiset(b[..j] + b[j + 1..]), a[n]);
      CountBelowPermutation(a[..n], b[..j] + b[j + 1..], k, len);
      CountBelowRemove(b, j, k, len);
    }
  }

  /** `r` is q times the number of samples, rounded up. */
  ghost predicate IsRank(r: nat, q: real, n: nat) { 1 <= r <= n && (r - 1) as real < q * n as real <= r as real }

  /** The bucket where the running count reaches q*n is the bucket of the sample of that rank. */
  lemma RankInBucket(all: seq<nat>, sorted: seq<nat>, len: nat, q: real, r: nat, idx: nat)
    requires len > 0 && Sorted(sorted) && multiset(sorted) == multiset(all) && |sorted| == |all|
    requires IsRank(r, q, |sorted|) && Reaches(Counts(all, len), q * |all| as real, idx)
    ensures idx == BucketOf(sorted[r - 1], len)
  {
    PrefixIsCountBelow(all, idx, len);
    PrefixIsCountBelow(all, idx + 1, len);
    hide Counts, BucketOf, CountBelow, Total;
    CountBelowPermutation(sorted, all, idx, len);
    CountBelowPermutation(sorted, all, idx + 1, len);
    SortedSplits(sorted, idx, len, r - 1);
    SortedSplits(sorted, idx + 1, len, r - 1);
  }

  lemma SnapshotGoal(all: seq<nat>, len: nat, q: real)
    requires len > 0
    ensures Total(Counts(all, len)) == |all|
    ensures Goal(Counts(all, len), q) == q * |all| as real
  {
    PrefixIsCountBelow(all, len, len);
    CountBelowEnds(all, len);
    assert Counts(all, len)[..len] == Counts(all, len);
  }

  lemma SameLength(a: seq<nat>, b: seq<nat>)
    requires multiset(a) == multiset(b)
    ensures |a| == |b|
  {
    assert |multiset(a)| == |a| && |multiset(b)| == |b|;
  }

  /** Main result: whatever was recorded on however many CPUs, the bucket that `quantile`
      selects holds the ceil(q*n)-th smallest of all samples. */
  lemma QuantileHitsRank(parts: seq<seq<nat>>, rows: seq<seq<nat>>, len: nat, q: real, sorted: seq<nat>, r: nat)
    requires len > 0 && Recorded(parts, rows, len)
    requires 0.0 < q <= 1.0 && Sorted(sorted) && multiset(sorted) == multiset(Flatten(parts))
    requires IsRank(r, q, |sorted|)
    ensures var p := Quantile(Merged(rows), q);
            var idx := BucketOf(sorted[r - 1], len);
            p.At? && idx as real < p.index <= (idx + 1) as real
  {
    var all := Flatten(parts);
    hide Quantile, Merged, Counts, Flatten, BucketOf, Goal, Interpolated, IsRank;
    MergedIsCombined(parts, rows, len);
    SnapshotGoal(all, len, q);
    SameLength(sorted, all);
    assert |all| > 0 by { RankPositive(r, q, |sorted|); }
    var idx := QuantileDefined(Counts(all, len), q);
    RankInBucket(all, sorted, len, q, r, idx);
  }

  lemma RankPositive(r: nat, q: real, n: nat)
    requires IsRank(r, q, n)
    ensures 1 <= r <= n
  {
  }

  /** `powf` with base 1.5: strictly increasing, exact at whole exponents. */
  ghost predicate IsPowf(pow: real -> real) {
    && (forall x: real, y: real :: x < y ==> pow(x) < pow(y))
    && forall k: nat :: pow(k as real) == Power(k)
  }

  /** Straight lines through the powers: one function of this kind. */
  ghost function Polygon(x: real): real {
    if x < 0.0 then 1.0 + x
    else Chord(x.Floor, x - x.Floor as real)
  }

  /** The point a fraction `f` of the way from one power to the next. */
  ghost function Chord(k: nat, f: real): real { Along(Power(k), Power(k + 1), f) }

  function Along(a: real, b: real, f: real): real { a + Part(f, b - a) }

  function Part(f: real, d: real): real { f * d }

  lemma PartGrows(d: real, f: real, g: real)
    requires d > 0.0 && f < g
    ensures Part(0.0, d) == 0.0 && Part(1.0, d) == d
    ensures Part(f, d) < Part(g, d)
  {
    assert (g - f) * d > 0.0;
  }

  lemma AlongRises(a: real, b: real, f: real, g: real)
    requires a < b && 0.0 <= f < 1.0
    ensures Along(a, b, 0.0) == a && a <= Along(a, b, f) < b
    ensures f < g ==> Along(a, b, f) < Along(a, b, g)
  {
    hide Part;
    PartGrows(b - a, f, 1.0);
    if 0.0 < f {
      PartGrows(b - a, 0.0, f);
    }
    if f < g {
      PartGrows(b - a, f, g);
    }
  }

  lemma ChordRises(k: nat, f: real, g: real)
    requires 0.0 <= f < 1.0
    ensures Chord(k, 0.0) == Power(k)
    ensures Power(k) <= Chord(k, f) < Power(k + 1)
    ensures f < g ==> Chord(k, f) < Chord(k, g)
  {
    PowerGrows(k, k + 1);
    AlongRises(Power(k), Power(k + 1), f, g);
    hide Power, Along;
  }

  lemma PolygonRises(x: real, y: real)
    requires x < y
    ensures Polygon(x) < Polygon(y)
  {
    if y >= 0.0 {
      ChordRises(y.Floor, y - y.Floor as real, 0.0);
      PowerGrows(0, y.Floor);
      if x >= 0.0 {
        ChordRises(x.Floor, x - x.Floor as real, y - x.Floor as real);
        if x.Floor < y.Floor {
          PowerGrows(x.Floor + 1, y.Floor);
        }
      }
      assert Power(0) == 1.0;
      hide Power, Chord;
    }
  }

  /** So the assumption on `powf` can be met. */
  lemma PolygonIsPowf()
    ensures IsPowf(Polygon)
  {
    forall x: real, y: real | x < y ensures Polygon(x) < Polygon(y) {
      PolygonRises(x, y);
    }
    forall k: nat ensures Polygon(k as real) == Power(k) {
      ChordRises(k, 0.0, 0.0);
    }
  }

  /** A value read in the sample's bucket is within a factor of 1.5 of the sample: from
      above for every sample of at least 1us, from below unless the sample was clamped
      into the last bucket. */
  lemma WithinFactor(pow: real -> real, us: nat, len: nat, x: real)
    requires IsPowf(pow) && len > 0
    requires BucketOf(us, len) as real < x <= (BucketOf(us, len) + 1) as real
    ensures us >= 1 ==> pow(x) <= FACTOR * us as real
    ensures us as real < Power(len) ==> us as real < FACTOR * pow(x)
  {
    BucketRange(us, len);
    var idx := BucketOf(us, len);
    assert pow(idx as real) == Power(idx) && pow((idx + 1) as real) == Power(idx + 1);
    assert Power(idx + 1) == FACTOR * Power(idx);
    assert Power(idx) < pow(x) <= Power(idx + 1);
    if idx == 0 && us >= 1 {
      assert Power(0) == 1.0;
    }
  }

  lemma QuantileWithinFactor(parts: seq<seq<nat>>, rows: seq<seq<nat>>, len: nat, q: real,
                             sorted: seq<nat>, r: nat, pow: real -> real)
    requires len > 0 && Recorded(parts, rows, len) && IsPowf(pow)
    requires 0.0 < q <= 1.0 && Sorted(sorted) && multiset(sorted) == multiset(Flatten(parts))
    requires IsRank(r, q, |sorted|)
    ensures var p := Quantile(Merged(rows), q);
            && p.At?
            && (sorted[r - 1] >= 1 ==> pow(p.index) <= FACTOR * sorted[r - 1] as real)
            && (sorted[r - 1] as real < Power(len) ==> sorted[r - 1] as real < FACTOR * pow(p.index))
  {
    QuantileHitsRank(parts, rows, len, q, sorted, r);
    WithinFactor(pow, sorted[r - 1], len, Quantile(Merged(rows), q).index);
  }

  // --- The per-CPU histogram ------------------------------------------------------------

  lemma {:induction false} PowerAdds(j: nat, k: nat)
    ensures Power(j + k) == Power(j) * Power(k)
    decreases k
  {
    if k > 0 {
      PowerAdds(j, k - 1);
      assert FACTOR * (Power(j) * Power(k - 1)) == Power(j) * (FACTOR * Power(k - 1));
    }
  }

  /** 45 buckets cover a minute: 1.5^44 < 60 s <= 1.5^45 (in microseconds). */
  lemma MinuteNeeds45()
    ensures Power(44) < MAX_US <= Power(45)
  {
    assert Power(5) == 7.59375;
    PowerAdds(5, 5);
    assert Power(11) == FACTOR * Power(10);
    assert Power(11) == 86.49755859375;
    PowerAdds(11, 11);
    assert 7481.8276 < Power(22) < 7481.8277;
    PowerAdds(22, 22);
    assert 55_900_000.0 < Power(44) < MAX_US;
  }

  class PerCpuLogHistogram {
    const buckets: array<nat>
    ghost var samples: seq<nat>

    ghost predicate Valid()
      reads this, buckets
    {
      buckets.Length == BUCKETS && buckets[..] == Counts(samples, BUCKETS)
    }

    constructor ()
      ensures Valid() && samples == [] && fresh(buckets)
    {
      var n, curr := 0, 1.0;
      MinuteNeeds45();
      while curr < MAX_US
        invariant n <= BUCKETS && curr == Power(n)
        decreases BUCKETS - n
      {
        n := n + 1;
        curr := curr * FACTOR;
      }
      PowerGrows(n, Max(n, 44));
      buckets := new nat[n](_ => 0);
      samples := [];
      new;
      assert buckets[..] == Counts([], BUCKETS);
    }

    method Record(us: nat)
      requires Valid()
      modifies this`samples, buckets
      ensures Valid() && samples == old(samples) + [us]
      ensures buckets[..] == old(buckets[..])[BucketOf(us, BUCKETS) := old(buckets[..])[BucketOf(us, BUCKETS)] + 1]
    {
      BucketRange(us, buckets.Length);
      var idx := BucketOf(us, buckets.Length);
      buckets[idx] := buckets[idx] + 1;
      samples := samples + [us];
      assert samples[..|samples| - 1] == old(samples);
      assert buckets[..] == Counts(samples, BUCKETS);
    }
  }
}
