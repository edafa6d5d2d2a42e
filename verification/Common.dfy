/** Vocabulary shared by every component: optional values and sums of counters. */
module Common {

  datatype Option<+T> = None | Some(value: T)

  function Max(a: int, b: int): int { if a >= b then a else b }

  function Min(a: int, b: int): int { if a <= b then a else b }

  /** The total of a row of counters. */
  function Total(s: seq<nat>): nat {
    if s == [] then 0 else Total(s[..|s| - 1]) + s[|s| - 1]
  }

  lemma {:induction false} TotalUpdate(s: seq<nat>, i: nat, x: nat)
    requires i < |s|
    ensures Total(s[i := x]) == Total(s) - s[i] + x
  {
    var last := |s| - 1;
    if i == last {
      assert s[i := x][..last] == s[..last];
    } else {
      assert s[i := x][..last] == s[..last][i := x];
      TotalUpdate(s[..last], i, x);
    }
  }

  lemma {:induction false} TotalMonotone(a: seq<nat>, b: seq<nat>)
    requires |a| == |b|
    requires forall i :: 0 <= i < |a| ==> a[i] <= b[i]
    ensures Total(a) <= Total(b)
  {
    if a != [] {
      TotalMonotone(a[..|a| - 1], b[..|b| - 1]);
    }
  }

  lemma {:induction false} TotalZero(s: seq<nat>)
    requires forall i :: 0 <= i < |s| ==> s[i] == 0
    ensures Total(s) == 0
  {
    if s != [] {
      TotalZero(s[..|s| - 1]);
    }
  }

  lemma TotalNext(s: seq<nat>, idx: nat)
    requires idx < |s|
    ensures Total(s[..idx + 1]) == Total(s[..idx]) + s[idx]
  {
    assert s[..idx + 1][..idx] == s[..idx];
  }

  lemma {:induction false} TotalPrefix(s: seq<nat>, i: nat, j: nat)
    requires i <= j <= |s|
    ensures Total(s[..i]) <= Total(s[..j])
    decreases j
  {
    if i < j {
      TotalNext(s, j - 1);
      TotalPrefix(s, i, j - 1);
    }
  }
}

/** Dealing numbered things out in turn: the rate loop's limit split, the cycling
    producer, the job spread over threads and the transmit ring all share this. */
module RoundRobin {
  import opened Common

  /** How many of the first `count` deals go to place `i` out of `n`. */
  function Share(i: nat, count: nat, n: nat): nat
    requires n > 0
  {
    count / n + if i < count % n then 1 else 0
  }

  function Shares(count: nat, n: nat): seq<nat>
    requires n > 0
  {
    seq(n, i requires 0 <= i < n => Share(i, count, n))
  }

  lemma SmallMultiple(k: int, n: int)
    requires -n < k * n < n
    ensures k == 0
  {
    assert k >= 1 ==> k * n >= n;
    assert k <= -1 ==> k * n <= -n;
  }

  lemma Quotient(x: nat, n: nat)
    requires n > 0
    ensures x == (x / n) * n + x % n
  {
  }

  lemma Multiples(a: nat, b: nat, m: nat)
    requires a <= b
    ensures a * m <= b * m && (a + 1) * m == a * m + m
  {
  }

  lemma DivModUnique(x: nat, n: nat, q: nat, r: nat)
    requires r < n && x == q * n + r
    ensures x / n == q && x % n == r
  {
    var k := x / n - q;
    assert x == (x / n) * n + x % n;
    assert k * n == (x / n) * n - q * n;
    SmallMultiple(k, n);
  }

  /** Deal number `count` goes to place `count % n` and to no other. */
  lemma ShareStep(i: nat, count: nat, n: nat)
    requires i < n
    ensures Share(i, count + 1, n) == Share(i, count, n) + if count % n == i then 1 else 0
  {
    NextDeal(count, n);
  }

  /** Conservation: the shares of `count` add up to `count`. */
  lemma {:induction false} SharesTotal(count: nat, n: nat)
    requires n > 0
    ensures Total(Shares(count, n)) == count
  {
    if count == 0 {
      TotalZero(Shares(0, n));
    } else {
      SharesTotal(count - 1, n);
      var prev := Shares(count - 1, n);
      var hit := (count - 1) % n;
      forall i | 0 <= i < n ensures Share(i, count, n) == Share(i, count - 1, n) + if hit == i then 1 else 0 {
        ShareStep(i, count - 1, n);
      }
      assert Shares(count, n) == prev[hit := prev[hit] + 1];
      TotalUpdate(prev, hit, prev[hit] + 1);
    }
  }

  /** The split is as even as possible, and earlier places never get less. */
  lemma SharesEven(i: nat, j: nat, count: nat, n: nat)
    requires i < j < n
    ensures Share(j, count, n) <= Share(i, count, n) <= Share(j, count, n) + 1
  {
  }

  /** Going from `a` deals to `b` deals adds at most one deal per deal, and at most
      every second one when there are at least two places. */
  lemma {:induction false} ShareGrowth(i: nat, a: nat, b: nat, n: nat)
    requires i < n && a <= b
    ensures 0 <= Share(i, b, n) - Share(i, a, n) <= b - a
    ensures n >= 2 ==> 2 * (Share(i, b, n) - Share(i, a, n)) <= b - a + 1
    decreases b - a
  {
    if a < b {
      ShareStep(i, a, n);
      if a + 1 < b && n >= 2 {
        ShareStep(i, a + 1, n);
        NextDeal(a, n);
        ShareGrowth(i, a + 2, b, n);
      } else {
        ShareGrowth(i, a + 1, b, n);
      }
    }
  }

  /** The deal after number `a`: the next place of the same round, or the first of the next. */
  lemma NextDeal(a: nat, n: nat)
    requires n > 0
    ensures if a % n + 1 < n then (a + 1) / n == a / n && (a + 1) % n == a % n + 1
            else a % n + 1 == n && (a + 1) / n == a / n + 1 && (a + 1) % n == 0
  {
    var q, r := a / n, a % n;
    if r + 1 < n {
      DivModUnique(a + 1, n, q, r + 1);
    } else {
      assert a + 1 == (q + 1) * n + 0;
      DivModUnique(a + 1, n, q + 1, 0);
    }
  }

  /** Whole rounds: at a multiple of `n` every place has had the same number of deals. */
  lemma ShareWhole(i: nat, rounds: nat, n: nat)
    requires i < n
    ensures Share(i, rounds * n, n) == rounds
  {
    DivModUnique(rounds * n, n, rounds, 0);
  }

  ghost function Occurrences(s: seq<nat>, x: nat): nat {
    if s == [] then 0 else Occurrences(s[..|s| - 1], x) + if s[|s| - 1] == x then 1 else 0
  }

  lemma {:induction false} OccurrencesAppend(a: seq<nat>, b: seq<nat>, x: nat)
    ensures Occurrences(a + b, x) == Occurrences(a, x) + Occurrences(b, x)
  {
    if b == [] {
      assert a + b == a;
    } else {
      var n := |b| - 1;
      assert (a + b)[..|a| + n] == a + b[..n];
      OccurrencesAppend(a, b[..n], x);
    }
  }

  /** In ring order, mbuf `i` has been sent its round-robin share. */
  lemma {:induction false} OccurrencesAreShares(wire: seq<nat>, m: nat, i: nat)
    requires i < m && forall k :: 0 <= k < |wire| ==> wire[k] == k % m
    ensures Occurrences(wire, i) == Share(i, |wire|, m)
  {
    if wire != [] {
      var n := |wire| - 1;
      OccurrencesAreShares(wire[..n], m, i);
      ShareStep(i, n, m);
    } else {
      ShareWhole(i, 0, m);
    }
  }
}
