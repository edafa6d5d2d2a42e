/** Dealing items and jobs out in turn: the cycling producer (dwd-core/src/lib.rs), the
    spread of HTTP jobs over threads (dwd-core/src/engine/http/engine.rs) and of packets
    over cores (dwd-core/src/worker/dpdk.rs `load_pcap`). */
module Producers {
  import opened Common
  import opened RoundRobin

  const USIZE: nat := 0x1_0000_0000_0000_0000

  /** The fetch-and-add of all callers together is one sequence of calls, whatever the
      interleaving; `handed` lists the positions they received. */
  class VecProduce<T> {
    const vec: seq<T>
    var idx: nat
    ghost var handed: seq<nat>

    ghost predicate Valid()
      reads this
    {
      && vec != []
      && idx == |handed| % USIZE
      && forall c :: 0 <= c < |handed| ==> handed[c] == Position(c, |vec|)
    }

    constructor (vec: seq<T>)
      requires vec != []
      ensures Valid() && this.vec == vec && handed == []
    {
      this.vec, idx, handed := vec, 0, [];
    }

    method Next() returns (item: T)
      requires Valid()
      modifies this
      ensures Valid() && |handed| == |old(handed)| + 1 && handed[..|handed| - 1] == old(handed)
      ensures handed[|handed| - 1] < |vec| && item == vec[handed[|handed| - 1]]
    {
      CounterStep(|handed|);
      var prev := idx;
      idx := (idx + 1) % USIZE;
      item := vec[prev % |vec|];
      handed := handed + [prev % |vec|];
    }
  }

  lemma CounterStep(c: nat)
    ensures (c % USIZE + 1) % USIZE == (c + 1) % USIZE
  {
    NextDeal(c, USIZE);
  }

  /** What call number `c` receives: the counter wraps at the word size first. */
  function Position(c: nat, k: nat): nat
    requires k > 0
  {
    c % USIZE % k
  }

  /** Below 2^64 calls every item is handed out floor or ceil of calls/items times. */
  lemma DealtEvenly(handed: seq<nat>, k: nat, i: nat)
    requires i < k && |handed| <= USIZE && forall c :: 0 <= c < |handed| ==> handed[c] == Position(c, k)
    ensures Occurrences(handed, i) == |handed| / k + if i < |handed| % k then 1 else 0
  {
    OccurrencesAreShares(handed, k, i);
  }

  /** The cycle survives the wrap of the counter exactly for item counts dividing 2^64. */
  lemma CycleSurvivesWrap(k: nat)
    requires k > 0
    ensures (forall c: nat :: Position(c, k) == c % k) <==> USIZE % k == 0
  {
    if USIZE % k == 0 {
      forall c: nat ensures Position(c, k) == c % k {
        ModOfMultiple(c, USIZE, k);
      }
    } else {
      DivModUnique(0, k, 0, 0);
      assert Position(USIZE, k) == 0;
    }
  }

  lemma ModOfMultiple(c: nat, n: nat, k: nat)
    requires k > 0 && n > 0 && n % k == 0
    ensures c % n % k == c % k
  {
    var low, b := c % n, n / k;
    Quotient(c, n);
    Quotient(n, k);
    Quotient(low, k);
    Combine(c / n, b, low / k, k, n);
    DivModUnique(c, k, (c / n) * b + low / k, low % k);
  }

  lemma Combine(a: nat, b: nat, d: nat, k: nat, n: nat)
    requires n == b * k
    ensures (a * b + d) * k == a * n + d * k
  {
    assert a * (b * k) == (a * b) * k;
  }

  /** Spreads `jobs` jobs (or packets) over `cells.Length` threads (or cores) in turn; a
      cell counts what its thread received. */
  method Spread(jobs: nat, cells: array<nat>)
    requires cells.Length > 0
    modifies cells
    ensures cells[..] == Shares(jobs, cells.Length)
  {
    for i := 0 to cells.Length
      invariant forall j :: 0 <= j < i ==> cells[j] == 0
    {
      cells[i] := 0;
    }
    var len := cells.Length;
    forall j | 0 <= j < len ensures Share(j, 0, len) == 0 {
      ShareWhole(j, 0, len);
    }
    var idx := 0;
    while idx < jobs
      invariant idx <= jobs
      invariant forall j :: 0 <= j < len ==> cells[j] == Share(j, idx, len)
    {
      forall j | 0 <= j < len
        ensures Share(j, idx + 1, len) == Share(j, idx, len) + if idx % len == j then 1 else 0
      {
        ShareStep(j, idx, len);
      }
      hide Share;
      cells[idx % len] := cells[idx % len] + 1;
      idx := idx + 1;
    }
  }

  /** Nothing is lost, the spread is even, and every thread has work exactly when there
      are at least as many jobs as threads. */
  lemma SpreadEven(jobs: nat, threads: nat, i: nat)
    requires i < threads
    ensures Total(Shares(jobs, threads)) == jobs
    ensures jobs / threads <= Shares(jobs, threads)[i] <= jobs / threads + 1
    ensures (forall j :: 0 <= j < threads ==> Shares(jobs, threads)[j] > 0) <==> jobs >= threads
  {
    SharesTotal(jobs, threads);
    if jobs >= threads {
      SomeRound(jobs, threads);
    } else {
      DivModUnique(jobs, threads, 0, jobs);
      assert Shares(jobs, threads)[threads - 1] == 0;
    }
  }

  lemma SomeRound(jobs: nat, threads: nat)
    requires 0 < threads <= jobs
    ensures jobs / threads > 0
  {
    var q := jobs / threads;
    assert jobs == q * threads + jobs % threads;
    assert q == 0 ==> q * threads == 0;
  }
}
