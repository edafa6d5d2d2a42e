/** The Prometheus rendering of a latency histogram (dwd-core/src/api/metrics.rs
    `encode_histogram`), up to the text formatting. */
module Metrics {
  import opened Common
  import opened LatencyHistogram

  /** Bounds of the exported buckets, in seconds. */
  const LATENCY_BUCKETS: seq<real> := [
    0.000005, 0.00001, 0.000025, 0.00005, 0.0001, 0.00025, 0.0005, 0.001, 0.0025, 0.005,
    0.01, 0.025, 0.05, 0.1, 0.25, 0.5, 1.0, 2.5, 5.0, 10.0]

  /** What the code takes for the upper bound of log bucket `idx`, in seconds. */
  function Upper(idx: nat): real { Power(idx) / 1_000_000.0 }

  function Midpoint(idx: nat): real {
    ((if idx == 0 then 0.0 else Power(idx - 1)) + Power(idx)) / 2.0 / 1_000_000.0
  }

  /** Samples in the log buckets whose bound fits under `bound`. */
  function CountUpTo(snapshot: seq<nat>, bound: real): nat {
    if snapshot == [] then 0
    else
      var n := |snapshot| - 1;
      CountUpTo(snapshot[..n], bound) + if bound >= Upper(n) then snapshot[n] else 0
  }

  function MidpointSum(snapshot: seq<nat>): real {
    if snapshot == [] then 0.0
    else
      var n := |snapshot| - 1;
      MidpointSum(snapshot[..n]) + if snapshot[n] == 0 then 0.0 else Midpoint(n) * snapshot[n] as real
  }

  function BucketCounts(snapshot: seq<nat>, bounds: seq<real>): seq<nat> {
    seq(|bounds|, j requires 0 <= j < |bounds| => CountUpTo(snapshot, bounds[j]))
  }

  /** Running sums, as the second pass prints them. */
  function Cumulated(counts: seq<nat>): seq<nat> {
    seq(|counts|, j requires 0 <= j < |counts| => Total(counts[..j + 1]))
  }

  method EncodeHistogram(snapshot: seq<nat>, bounds: seq<real>)
    returns (bucketCounts: seq<nat>, printed: seq<nat>, count: nat, sum: real)
    ensures bucketCounts == BucketCounts(snapshot, bounds)
    ensures printed == Cumulated(bucketCounts)
    ensures count == Total(snapshot) && sum == MidpointSum(snapshot)
  {
    bucketCounts := seq(|bounds|, _ => 0);
    count, sum := 0, 0.0;
    for idx := 0 to |snapshot|
      invariant bucketCounts == BucketCounts(snapshot[..idx], bounds)
      invariant count == Total(snapshot[..idx]) && sum == MidpointSum(snapshot[..idx])
    {
      hide Upper, Midpoint;
      var c := snapshot[idx];
      assert snapshot[..idx + 1][..idx] == snapshot[..idx];
      if c > 0 {
        count := count + c;
        sum := sum + Midpoint(idx) * c as real;
        bucketCounts := AddToBuckets(bucketCounts, bounds, Upper(idx), c);
      }
      assert bucketCounts == BucketCounts(snapshot[..idx + 1], bounds);
    }
    assert snapshot[..|snapshot|] == snapshot;
    printed := SumOnceMore(bucketCounts);
  }

  /** Adds `c` to every bucket whose bound is at least `upper`. */
  method AddToBuckets(counts: seq<nat>, bounds: seq<real>, upper: real, c: nat) returns (r: seq<nat>)
    requires |counts| == |bounds|
    ensures |r| == |counts|
    ensures forall k :: 0 <= k < |r| ==> r[k] == counts[k] + if bounds[k] >= upper then c else 0
  {
    r := counts;
    for j := 0 to |bounds|
      invariant |r| == |counts|
      invariant forall k :: 0 <= k < |r| ==> r[k] == counts[k] + if k < j && bounds[k] >= upper then c else 0
    {
      if bounds[j] >= upper {
        r := r[j := r[j] + c];
      }
    }
  }

  method SumOnceMore(counts: seq<nat>) returns (printed: seq<nat>)
    ensures printed == Cumulated(counts)
  {
    printed := [];
    var cumulative := 0;
    for j := 0 to |counts|
      invariant cumulative == Total(counts[..j])
      invariant |printed| == j && forall k :: 0 <= k < j ==> printed[k] == Total(counts[..k + 1])
    {
      TotalNext(counts, j);
      cumulative := cumulative + counts[j];
      printed := printed + [cumulative];
    }
  }

  lemma {:induction false} CountUpToGrows(snapshot: seq<nat>, b1: real, b2: real)
    requires b1 <= b2
    ensures CountUpTo(snapshot, b1) <= CountUpTo(snapshot, b2) <= Total(snapshot)
  {
    if snapshot != [] {
      CountUpToGrows(snapshot[..|snapshot| - 1], b1, b2);
    }
  }

  ghost predicate Ascending(bounds: seq<real>) { forall i, j :: 0 <= i < j < |bounds| ==> bounds[i] <= bounds[j] }

  /** The first pass alone already gives a cumulative series, bounded by the total. */
  lemma BucketCountsCumulative(snapshot: seq<nat>, bounds: seq<real>, i: nat, j: nat)
    requires Ascending(bounds) && i <= j < |bounds|
    ensures BucketCounts(snapshot, bounds)[i] <= BucketCounts(snapshot, bounds)[j] <= Total(snapshot)
  {
    CountUpToGrows(snapshot, bounds[i], bounds[j]);
  }

  /** A log bucket is counted under its lower edge: no sample in it lies below the bound
      the code takes for its upper one. */
  lemma UpperIsLowerEdge(us: nat, len: nat)
    requires len > 0 && BucketOf(us, len) > 0
    ensures us as real / 1_000_000.0 >= Upper(BucketOf(us, len))
  {
    BucketRange(us, len);
  }

  // --- Against the samples --------------------------------------------------------------

  lemma {:induction false} CountUpToOneMore(row: seq<nat>, k: nat, bound: real)
    requires k < |row|
    ensures CountUpTo(row[k := row[k] + 1], bound) == CountUpTo(row, bound) + if bound >= Upper(k) then 1 else 0
  {
    hide Upper;
    var n := |row| - 1;
    if k == n {
      assert row[k := row[k] + 1][..n] == row[..n];
    } else {
      assert row[k := row[k] + 1][..n] == row[..n][k := row[k] + 1];
      CountUpToOneMore(row[..n], k, bound);
    }
  }

  lemma {:induction false} MidpointOneMore(row: seq<nat>, k: nat)
    requires k < |row|
    ensures MidpointSum(row[k := row[k] + 1]) == MidpointSum(row) + Midpoint(k)
  {
    hide Midpoint;
    var n := |row| - 1;
    if k == n {
      assert row[k := row[k] + 1][..n] == row[..n];
      assert Midpoint(k) * (row[k] + 1) as real == Midpoint(k) * row[k] as real + Midpoint(k);
    } else {
      assert row[k := row[k] + 1][..n] == row[..n][k := row[k] + 1];
      MidpointOneMore(row[..n], k);
    }
  }

  lemma CountsOneMore(samples: seq<nat>, len: nat)
    requires len > 0 && samples != []
    ensures var n := |samples| - 1;
            var row, k := Counts(samples[..n], len), BucketOf(samples[n], len);
            Counts(samples, len) == row[k := row[k] + 1]
  {
    hide BucketOf;
    BucketRange(samples[|samples| - 1], len);
  }

  lemma {:induction false} NoSamples(row: seq<nat>, bound: real)
    requires forall k :: 0 <= k < |row| ==> row[k] == 0
    ensures CountUpTo(row, bound) == 0 && MidpointSum(row) == 0.0
  {
    if row != [] {
      NoSamples(row[..|row| - 1], bound);
    }
  }

  /** Samples of at most, and of less than, so many microseconds. */
  ghost function AtMost(samples: seq<nat>, us: real): nat {
    if samples == [] then 0
    else AtMost(samples[..|samples| - 1], us) + if samples[|samples| - 1] as real <= us then 1 else 0
  }

  ghost function Under(samples: seq<nat>, us: real): nat {
    if samples == [] then 0
    else Under(samples[..|samples| - 1], us) + if (samples[|samples| - 1]) as real < us then 1 else 0
  }

  /** How a single sample is counted under a bound. */
  lemma SampleCounted(us: nat, len: nat, bound: real)
    requires len > 0 && Upper(0) <= bound < Upper(len - 1)
    ensures us as real <= bound * 1_000_000.0 ==> bound >= Upper(BucketOf(us, len))
    ensures bound >= Upper(BucketOf(us, len)) ==> (us as real) < FACTOR * (bound * 1_000_000.0)
  {
    BucketRange(us, len);
    var k := BucketOf(us, len);
    hide BucketOf;
    assert Power(k + 1) == FACTOR * Power(k);
  }

  /** The first pass counts every sample within a bound, and none at 1.5 times the bound
      or beyond: the log bucket the bound falls into is counted whole. */
  lemma {:induction false} FirstPassBrackets(samples: seq<nat>, len: nat, bound: real)
    requires len > 0 && Upper(0) <= bound < Upper(len - 1)
    ensures AtMost(samples, bound * 1_000_000.0)
         <= CountUpTo(Counts(samples, len), bound)
         <= Under(samples, FACTOR * (bound * 1_000_000.0))
  {
    hide Upper, Counts, CountUpTo;
    if samples == [] {
      assert CountUpTo(Counts([], len), bound) == 0 by { EmptyCounts(len, bound); }
    } else {
      var n := |samples| - 1;
      FirstPassBrackets(samples[..n], len, bound);
      CountedNext(samples, len, bound);
      SampleCounted(samples[n], len, bound);
    }
  }

  /** `us` microseconds lie in log bucket `k` of `len`; the last bucket has no end. */
  ghost predicate Holds(k: nat, len: nat, us: real) {
    k < len && Power(k) <= us && (k + 1 < len ==> us < Power(k + 1))
  }

  /** Every bound from 1us on falls into a log bucket. */
  lemma {:induction false} SomeBucketHolds(len: nat, us: real) returns (k: nat)
    requires len > 0 && 1.0 <= us
    ensures Holds(k, len, us)
  {
    if len == 1 || us < Power(len - 1) {
      k := 0;
      if len > 1 {
        k := SomeBucketHolds(len - 1, us);
      }
    } else {
      k := len - 1;
    }
  }

  /** A sample is counted under a bound although it lies above it. */
  ghost predicate Overshoots(us: nat, k: nat, len: nat, bound: real) {
    bound * 1_000_000.0 < us as real && (k + 1 < len ==> (us as real) < Power(k + 1))
  }

  lemma SampleMiscounted(us: nat, k: nat, len: nat, bound: real)
    requires Holds(k, len, bound * 1_000_000.0)
    ensures bound >= Upper(BucketOf(us, len)) <==>
            us as real <= bound * 1_000_000.0 || Overshoots(us, k, len, bound)
    ensures Overshoots(us, k, len, bound) ==> bound * 1_000_000.0 < us as real
  {
    BucketRange(us, len);
    var r := BucketOf(us, len);
    hide BucketOf;
    PowerGrows(0, k);
    if r <= k {
      PowerGrows(r, k);
      if r < k {
        PowerGrows(r + 1, k);
      }
    } else {
      PowerGrows(k + 1, r);
    }
    hide Power;
  }

  /** The count under a bound should be the samples up to it. It is exactly when no sample
      lies above the bound within the log bucket that the bound falls into. */
  lemma {:induction false} FirstPassExact(samples: seq<nat>, k: nat, len: nat, bound: real)
    requires Holds(k, len, bound * 1_000_000.0)
    ensures CountUpTo(Counts(samples, len), bound) >= AtMost(samples, bound * 1_000_000.0)
    ensures CountUpTo(Counts(samples, len), bound) == AtMost(samples, bound * 1_000_000.0) <==>
            forall i :: 0 <= i < |samples| ==> !Overshoots(samples[i], k, len, bound)
  {
    assert len > 0;
    hide Upper, Counts, CountUpTo, Overshoots, Holds;
    if samples == [] {
      assert CountUpTo(Counts([], len), bound) == 0 by { EmptyCounts(len, bound); }
    } else {
      var n := |samples| - 1;
      FirstPassExact(samples[..n], k, len, bound);
      CountedNext(samples, len, bound);
      SampleMiscounted(samples[n], k, len, bound);
      assert forall i :: 0 <= i < n ==> samples[..n][i] == samples[i];
    }
  }

  lemma CountedNext(samples: seq<nat>, len: nat, bound: real)
    requires len > 0 && samples != []
    ensures var n := |samples| - 1;
            CountUpTo(Counts(samples, len), bound) ==
              CountUpTo(Counts(samples[..n], len), bound)
              + if bound >= Upper(BucketOf(samples[n], len)) then 1 else 0
  {
    hide Upper, Counts, CountUpTo;
    var n := |samples| - 1;
    CountsOneMore(samples, len);
    RowLength(samples[..n], len);
    CountUpToOneMore(Counts(samples[..n], len), BucketOf(samples[n], len), bound);
  }

  /** An 11us sample is counted under le = 10us. */
  lemma ElevenCountedUnderTen()
    ensures CountUpTo(Counts([11], BUCKETS), 0.00001) == 1
    ensures AtMost([11], 0.00001 * 1_000_000.0) == 0
  {
    assert Power(5) == 7.59375;
    assert Power(6) == FACTOR * Power(5);
    hide Power;
    CountedNext([11], BUCKETS, 0.00001);
    SampleMiscounted(11, 5, BUCKETS, 0.00001);
    assert [11][..0] == [];
    EmptyCounts(BUCKETS, 0.00001);
  }

  lemma RowLength(samples: seq<nat>, len: nat)
    requires len > 0
    ensures |Counts(samples, len)| == len
  {
  }

  lemma EmptyCounts(len: nat, bound: real)
    requires len > 0
    ensures CountUpTo(Counts([], len), bound) == 0 && MidpointSum(Counts([], len)) == 0.0
  {
    NoSamples(Counts([], len), bound);
  }

  /** The true sum, in seconds. */
  ghost function TrueSum(samples: seq<nat>): real {
    if samples == [] then 0.0
    else TrueSum(samples[..|samples| - 1]) + samples[|samples| - 1] as real / 1_000_000.0
  }

  lemma {:induction false} TrueSumPositive(samples: seq<nat>)
    requires samples != [] && forall i :: 0 <= i < |samples| ==> samples[i] >= 1
    ensures TrueSum(samples) > 0.0
  {
    var n := |samples| - 1;
    if n > 0 {
      TrueSumPositive(samples[..n]);
    } else {
      assert TrueSum(samples[..n]) == 0.0;
    }
  }

  /** Where a sample is clamped: the end of the last bucket. */
  ghost function Clipped(us: nat, len: nat): real { if us as real <= Power(len) then us as real else Power(len) }

  /** Half a microsecond for a sample of zero, which the first bucket's middle overstates. */
  function ZeroExtra(us: nat): real { if us == 0 then 0.5 else 0.0 }

  lemma MidpointOfSample(us: nat, len: nat)
    requires len > 1
    ensures Clipped(us, len) / 2.0 + ZeroExtra(us)
         <= Midpoint(BucketOf(us, len)) * 1_000_000.0
         <= us as real * 5.0 / 6.0 + ZeroExtra(us)
  {
    BucketRange(us, len);
    var k := BucketOf(us, len);
    hide BucketOf;
    assert Power(k + 1) == FACTOR * Power(k);
    assert Power(0) == 1.0;
    PowerGrows(0, k);
    PowerGrows(k + 1, len);
    if k > 0 {
      assert Power(k) == FACTOR * Power(k - 1);
    }
    hide Power;
  }

  ghost function ClippedSum(samples: seq<nat>, len: nat): real {
    if samples == [] then 0.0
    else ClippedSum(samples[..|samples| - 1], len) + Clipped(samples[|samples| - 1], len) / 1_000_000.0
  }

  ghost function ZeroSum(samples: seq<nat>): real {
    if samples == [] then 0.0
    else ZeroSum(samples[..|samples| - 1]) + ZeroExtra(samples[|samples| - 1]) / 1_000_000.0
  }

  /** The exported sum takes each sample for the middle of the bucket below its own. For all
      samples it is at least half their sum, counting a clamped one as the end of the last
      bucket, and at most five sixths of it, plus half a microsecond per sample of zero. */
  lemma {:induction false} ExportedSumBounds(samples: seq<nat>, len: nat)
    requires len > 1
    ensures ClippedSum(samples, len) / 2.0 + ZeroSum(samples)
         <= MidpointSum(Counts(samples, len))
         <= TrueSum(samples) * 5.0 / 6.0 + ZeroSum(samples)
  {
    hide Counts, MidpointSum, Midpoint, BucketOf, Clipped, ZeroExtra;
    if samples == [] {
      assert MidpointSum(Counts([], len)) == 0.0 by { EmptyCounts(len, 0.0); }
    } else {
      var n := |samples| - 1;
      var row, k := Counts(samples[..n], len), BucketOf(samples[n], len);
      ExportedSumBounds(samples[..n], len);
      CountsOneMore(samples, len);
      RowLength(samples[..n], len);
      MidpointOneMore(row, k);
      MidpointOfSample(samples[n], len);
    }
  }

  /** What a sample adds to the exported sum, in microseconds: five sixths of the power of
      1.5 its bucket starts at, and one half in the first bucket. */
  ghost function Exported(us: nat, len: nat): real
    requires len > 0
  {
    var k := BucketOf(us, len);
    if k == 0 then 0.5 else Power(k) * 5.0 / 6.0
  }

  ghost function ExportedSum(samples: seq<nat>, len: nat): real
    requires len > 0
  {
    if samples == [] then 0.0
    else ExportedSum(samples[..|samples| - 1], len) + Exported(samples[|samples| - 1], len) / 1_000_000.0
  }

  lemma MidpointExact(us: nat, len: nat)
    requires len > 0
    ensures Midpoint(BucketOf(us, len)) == Exported(us, len) / 1_000_000.0
  {
    var k := BucketOf(us, len);
    hide BucketOf;
    if k == 0 {
      assert Power(0) == 1.0;
    } else {
      assert Power(k) == FACTOR * Power(k - 1);
    }
    hide Power;
  }

  /** The exported sum, exactly, sample by sample. */
  lemma {:induction false} ExportedSumExact(samples: seq<nat>, len: nat)
    requires len > 0
    ensures MidpointSum(Counts(samples, len)) == ExportedSum(samples, len)
  {
    hide Counts, MidpointSum, Midpoint, BucketOf, Exported;
    if samples == [] {
      assert MidpointSum(Counts([], len)) == 0.0 by { EmptyCounts(len, 0.0); }
    } else {
      var n := |samples| - 1;
      ExportedSumExact(samples[..n], len);
      CountsOneMore(samples, len);
      RowLength(samples[..n], len);
      BucketRange(samples[n], len);
      MidpointOneMore(Counts(samples[..n], len), BucketOf(samples[n], len));
      MidpointExact(samples[n], len);
    }
  }

  ghost predicate Ordinary(samples: seq<nat>, len: nat) {
    forall i :: 0 <= i < |samples| ==> 1 <= samples[i] && samples[i] as real <= Power(len)
  }

  lemma {:induction false} OrdinarySums(samples: seq<nat>, len: nat)
    requires Ordinary(samples, len)
    ensures ClippedSum(samples, len) == TrueSum(samples) && ZeroSum(samples) == 0.0
  {
    if samples != [] {
      OrdinarySums(samples[..|samples| - 1], len);
    }
  }

  /** For samples between 1us and the end of the last bucket it always reads low, by at
      least a sixth and at most a half. */
  lemma ExportedSumReadsLow(samples: seq<nat>, len: nat)
    requires len > 1
    ensures Ordinary(samples, len) ==>
            && TrueSum(samples) / 2.0 <= MidpointSum(Counts(samples, len)) <= TrueSum(samples) * 5.0 / 6.0
            && (MidpointSum(Counts(samples, len)) == TrueSum(samples) <==> samples == [])
  {
    hide Counts, MidpointSum;
    if Ordinary(samples, len) {
      ExportedSumBounds(samples, len);
      OrdinarySums(samples, len);
      if samples != [] {
        TrueSumPositive(samples);
      }
    }
  }

  // --- The printed series ---------------------------------------------------------------

  lemma {:induction false} CountUpToZero(snapshot: seq<nat>, bound: real)
    ensures CountUpTo(snapshot, bound) == 0 <==>
            forall idx :: 0 <= idx < |snapshot| && snapshot[idx] > 0 ==> bound < Upper(idx)
  {
    if snapshot != [] {
      var n := |snapshot| - 1;
      CountUpToZero(snapshot[..n], bound);
      assert forall idx :: 0 <= idx < n ==> snapshot[..n][idx] == snapshot[idx];
      if CountUpTo(snapshot, bound) == 0 {
        forall idx | 0 <= idx < |snapshot| && snapshot[idx] > 0 ensures bound < Upper(idx) {
          if idx < n {
            assert snapshot[..n][idx] > 0;
          }
        }
      }
    }
  }

  /** No sample sits in a log bucket that fits under the bound before the last. */
  ghost predicate NothingUnder(snapshot: seq<nat>, bound: real) {
    forall idx :: 0 <= idx < |snapshot| && snapshot[idx] > 0 ==> bound < Upper(idx)
  }

  /** The printed series should repeat the bucket counts, which are cumulative already. It
      sums them once more, and so is right exactly when every bound but the last has
      nothing under it. */
  lemma PrintedSeriesRight(snapshot: seq<nat>, bounds: seq<real>)
    requires Ascending(bounds) && |bounds| >= 2
    ensures Cumulated(BucketCounts(snapshot, bounds)) == BucketCounts(snapshot, bounds)
       <==> NothingUnder(snapshot, bounds[|bounds| - 2])
  {
    var counts := BucketCounts(snapshot, bounds);
    var printed := Cumulated(counts);
    var m := |bounds| - 2;
    CountUpToZero(snapshot, bounds[m]);
    TotalNext(counts, m);
    TotalNext(counts, m + 1);
    if counts[m] == 0 {
      forall j | 0 <= j < |counts| ensures printed[j] == counts[j] {
        forall k | 0 <= k < j ensures counts[k] == 0 {
          if k < m {
            BucketCountsCumulative(snapshot, bounds, k, m);
          }
        }
        TotalZero(counts[..j]);
        TotalNext(counts, j);
      }
    } else {
      assert printed[m + 1] == Total(counts[..m + 1]) + counts[m + 1];
      assert Total(counts[..m + 1]) >= counts[m];
    }
  }

  // How often the samples of the snapshot are printed under the last bound.

  /** The exported buckets a log bucket with this bound is added to. */
  function BoundsFrom(bounds: seq<real>, upper: real): nat {
    if bounds == [] then 0
    else BoundsFrom(bounds[..|bounds| - 1], upper) + if bounds[|bounds| - 1] >= upper then 1 else 0
  }

  /** Samples added to more than one exported bucket, once for each bucket too many. */
  function Repeated(snapshot: seq<nat>, bounds: seq<real>): nat {
    if snapshot == [] then 0
    else
      var n := |snapshot| - 1;
      Repeated(snapshot[..n], bounds) + snapshot[n] * Max(0, BoundsFrom(bounds, Upper(n)) - 1)
  }

  /** Samples beyond every exported bound. */
  function Beyond(snapshot: seq<nat>, bounds: seq<real>): nat {
    if snapshot == [] then 0
    else
      var n := |snapshot| - 1;
      Beyond(snapshot[..n], bounds) + if BoundsFrom(bounds, Upper(n)) == 0 then snapshot[n] else 0
  }

  lemma CountsOfEmpty(bounds: seq<real>)
    ensures Total(BucketCounts([], bounds)) == 0
  {
    TotalZero(BucketCounts([], bounds));
  }

  /** A log bucket adds its samples once per exported bucket that takes it. */
  lemma {:induction false} CountsOfNext(snapshot: seq<nat>, bounds: seq<real>)
    requires snapshot != []
    ensures var n := |snapshot| - 1;
            Total(BucketCounts(snapshot, bounds)) ==
              Total(BucketCounts(snapshot[..n], bounds)) + snapshot[n] * BoundsFrom(bounds, Upper(n))
    decreases |bounds|
  {
    hide Upper;
    var n := |snapshot| - 1;
    if bounds != [] {
      var m := |bounds| - 1;
      CountsOfNext(snapshot, bounds[..m]);
      assert BucketCounts(snapshot, bounds)[..m] == BucketCounts(snapshot, bounds[..m]);
      assert BucketCounts(snapshot[..n], bounds)[..m] == BucketCounts(snapshot[..n], bounds[..m]);
      OncePerBound(snapshot[n], BoundsFrom(bounds[..m], Upper(n)), bounds[m] >= Upper(n));
    }
  }

  lemma OncePerBound(c: nat, times: nat, more: bool)
    ensures c * (times + if more then 1 else 0) == c * times + if more then c else 0
    ensures c * times + (if times == 0 then c else 0) == c * Max(0, times - 1) + c
  {
    if times > 0 {
      assert c * times == c * (times - 1) + c;
    }
  }

  /** The last printed number: the samples, less those beyond every bound, plus one more
      for every further bucket a sample was added to. */
  lemma {:induction false} LastPrinted(snapshot: seq<nat>, bounds: seq<real>)
    ensures Total(BucketCounts(snapshot, bounds)) + Beyond(snapshot, bounds)
         == Total(snapshot) + Repeated(snapshot, bounds)
  {
    hide Upper, BucketCounts;
    if snapshot == [] {
      CountsOfEmpty(bounds);
    } else {
      var n := |snapshot| - 1;
      LastPrinted(snapshot[..n], bounds);
      CountsOfNext(snapshot, bounds);
      OncePerBound(snapshot[n], BoundsFrom(bounds, Upper(n)), false);
    }
  }

  /** The printed series passes the number printed for +Inf exactly when the repetitions
      outnumber the samples beyond every bound. */
  lemma PrintedSeriesPassesTotal(snapshot: seq<nat>, bounds: seq<real>)
    ensures (exists j :: 0 <= j < |bounds| && Cumulated(BucketCounts(snapshot, bounds))[j] > Total(snapshot))
       <==> Repeated(snapshot, bounds) > Beyond(snapshot, bounds)
  {
    var counts := BucketCounts(snapshot, bounds);
    LastPrinted(snapshot, bounds);
    CountsLength(snapshot, bounds);
    CumulatedEndsAtTotal(counts);
    hide Repeated, Beyond, BucketCounts, Cumulated, Total;
  }

  /** Running sums stay within the total, and the last one is the total. */
  lemma CumulatedEndsAtTotal(counts: seq<nat>)
    ensures |Cumulated(counts)| == |counts|
    ensures forall j :: 0 <= j < |counts| ==> Cumulated(counts)[j] <= Total(counts)
    ensures if counts == [] then Total(counts) == 0 else Cumulated(counts)[|counts| - 1] == Total(counts)
  {
    assert counts[..|counts|] == counts;
    forall j | 0 <= j < |counts| ensures Cumulated(counts)[j] <= Total(counts) {
      TotalPrefix(counts, j + 1, |counts|);
    }
  }

  lemma CountsLength(snapshot: seq<nat>, bounds: seq<real>)
    ensures |BucketCounts(snapshot, bounds)| == |bounds|
  {
  }

  /** A single 2us sample is printed as 20 samples under the last bound, although only one
      was ever recorded. */
  lemma PrintedSeriesExceedsTotal()
    ensures Total(Counts([2], BUCKETS)) == 1
    ensures Cumulated(BucketCounts(Counts([2], BUCKETS), LATENCY_BUCKETS))[19] == 20
  {
    var row, bounds := Counts([2], BUCKETS), LATENCY_BUCKETS;
    SnapshotGoal([2], BUCKETS, 1.0);
    TenSecondsFit();
    hide Power, Counts, CountUpTo;
    forall j | 0 <= j < 20 ensures CountUpTo(row, bounds[j]) == 1 {
      assert 0.000005 <= bounds[j] <= 10.0;
      TwoCounted(bounds[j]);
    }
    var counts := BucketCounts(row, bounds);
    OnesTotal(counts, 20);
    assert counts[..20] == counts;
  }

  /** The exported bounds end well before the last log bucket. */
  lemma TenSecondsFit()
    ensures Upper(0) == 0.000001 && 10.0 < Upper(BUCKETS - 1)
  {
    MinuteNeeds45();
    assert Power(45) == FACTOR * Power(44);
    hide Power;
  }

  lemma TwoCounted(bound: real)
    requires 0.000005 <= bound <= 10.0
    ensures CountUpTo(Counts([2], BUCKETS), bound) == 1
  {
    TenSecondsFit();
    hide Power, Counts, CountUpTo, Upper;
    SampleCounted(2, BUCKETS, bound);
    CountedNext([2], BUCKETS, bound);
    assert [2][..0] == [];
    EmptyCounts(BUCKETS, bound);
  }

  lemma {:induction false} OnesTotal(s: seq<nat>, k: nat)
    requires k <= |s| && forall i :: 0 <= i < |s| ==> s[i] == 1
    ensures Total(s[..k]) == k
    decreases k
  {
    if k > 0 {
      TotalNext(s, k - 1);
      OnesTotal(s, k - 1);
    }
  }
}
