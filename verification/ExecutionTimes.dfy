/** Rates by the instant a task runs, not the tick that released it. A worker executes a
    batch before it ticks again, so a batch released before a window may still run in it. */
module ExecutionTimes {
  import opened Common
  import opened RoundRobin
  import opened TokenBucket
  import Pipeline

  /** Tasks released by turn `k` of a worker. */
  ghost function Batch(start: real, wakes: seq<Wake>, k: nat): int
    requires k < |wakes|
  {
    Books(start, wakes[..k + 1]).executed - Books(start, wakes[..k]).executed
  }

  /** When task `j` of turn `k` runs. */
  type Schedule = (nat, nat) -> real

  /** A task runs after its tick and before the worker's next one. */
  ghost predicate Orderly(start: real, wakes: seq<Wake>, runs: Schedule) {
    && (forall k, j: nat :: 0 <= k < |wakes| && j < Batch(start, wakes, k) ==> wakes[k].now <= runs(k, j))
    && forall k, j: nat :: 0 <= k < |wakes| - 1 && j < Batch(start, wakes, k) ==> runs(k, j) <= wakes[k + 1].now
  }

  /** How many of the first `n` tasks of turn `k` run in [from, t]. */
  ghost function RunsOfTurn(runs: Schedule, k: nat, n: nat, from: real, t: real): nat {
    if n == 0 then 0
    else RunsOfTurn(runs, k, n - 1, from, t) + if from <= runs(k, n - 1) <= t then 1 else 0
  }

  /** How many tasks of the worker run in [from, t]. */
  ghost function RunsIn(start: real, wakes: seq<Wake>, runs: Schedule, from: real, t: real): nat {
    if wakes == [] then 0
    else
      var n := |wakes| - 1;
      RunsIn(start, wakes[..n], runs, from, t) + RunsOfTurn(runs, n, Max(0, Batch(start, wakes, n)), from, t)
  }

  lemma {:induction false} RunsOfTurnBounds(runs: Schedule, k: nat, n: nat, from: real, t: real)
    ensures RunsOfTurn(runs, k, n, from, t) <= n
    ensures (forall j: nat :: j < n ==> runs(k, j) < from || t < runs(k, j)) ==> RunsOfTurn(runs, k, n, from, t) == 0
  {
    if n > 0 {
      RunsOfTurnBounds(runs, k, n - 1, from, t);
    }
  }

  /** Non-decreasing ticks from the opening of the bucket on, with limits up to `limit`. */
  ghost predicate Ticking(start: real, wakes: seq<Wake>, limit: nat) {
    wakes == [] ||
    var n := |wakes| - 1;
    && Ticking(start, wakes[..n], limit)
    && wakes[n].limit <= limit
    && Books(start, wakes[..n]).bucket.prevTs <= wakes[n].now
  }

  /** The state of a worker's window: before it only the batch in hand can run into it. */
  ghost predicate WindowBound(l: Ledger, ran: nat, limit: nat, from: real, t: real) {
    var prev := l.bucket.prevTs;
    && l.bucket.tokens >= 0.0
    && (prev < from ==> ran <= limit)
    && (from <= prev <= t ==> ran as real + l.bucket.tokens <= Worth(limit, prev - from + 2.0))
    && (t < prev ==> ran as real <= Worth(limit, t - from + 2.0))
  }

  lemma WorthTwoSeconds(a: nat, s: real)
    ensures Worth(a, s + 2.0) == Worth(a, s) + a as real + a as real
  {
  }

  /** One turn: what it releases runs in the window only if its tick is not after it, and
      before the window it is the only batch that can. */
  lemma WindowTurn(l: Ledger, w: Wake, ran: nat, more: nat, limit: nat, from: real, t: real)
    requires WindowBound(l, ran, limit, from, t) && w.limit <= limit && l.bucket.prevTs <= w.now && from <= t
    requires more <= Booked(l, w).executed - l.executed
    requires t < w.now ==> more == 0
    requires w.now < from ==> ran == 0
    ensures WindowBound(Booked(l, w), ran + more, limit, from, t)
  {
    var prev := l.bucket.prevTs;
    RefillBounds(l.bucket, w.limit, w.now);
    WorthGrows(w.limit, limit, w.now - prev, w.now - prev);
    WorthAdds(limit, prev - from, w.now - prev);
    WorthTwoSeconds(limit, prev - from);
    WorthTwoSeconds(limit, w.now - from);
    WorthTwoSeconds(limit, t - from);
    WorthGrows(limit, limit, 0.0, t - from);
    if from <= w.now {
      WorthGrows(limit, limit, 0.0, w.now - from);
    }
    if from <= prev <= t {
      WorthGrows(limit, limit, prev - from, t - from);
    }
    hide Worth;
  }

  lemma {:induction false} NoneBeforeWindow(start: real, wakes: seq<Wake>, runs: Schedule, from: real, t: real)
    requires forall k, j: nat :: 0 <= k < |wakes| && j < Batch(start, wakes, k) ==> runs(k, j) < from
    ensures RunsIn(start, wakes, runs, from, t) == 0
  {
    if wakes != [] {
      var n := |wakes| - 1;
      forall k, j: nat | 0 <= k < n && j < Batch(start, wakes[..n], k) ensures runs(k, j) < from {
        BatchOfPrefix(start, wakes, k);
      }
      NoneBeforeWindow(start, wakes[..n], runs, from, t);
      RunsOfTurnBounds(runs, n, Max(0, Batch(start, wakes, n)), from, t);
    }
  }

  lemma BatchOfPrefix(start: real, wakes: seq<Wake>, k: nat)
    requires k < |wakes| - 1
    ensures Batch(start, wakes[..|wakes| - 1], k) == Batch(start, wakes, k)
  {
    var n := |wakes| - 1;
    assert wakes[..n][..k] == wakes[..k] && wakes[..n][..k + 1] == wakes[..k + 1];
  }

  lemma OrderlyPrefix(start: real, wakes: seq<Wake>, runs: Schedule)
    requires wakes != [] && Orderly(start, wakes, runs)
    ensures Orderly(start, wakes[..|wakes| - 1], runs)
  {
    hide Batch;
    var n := |wakes| - 1;
    forall k | 0 <= k < n ensures Batch(start, wakes[..n], k) == Batch(start, wakes, k) {
      BatchOfPrefix(start, wakes, k);
    }
  }

  lemma {:induction false} LastTick(start: real, wakes: seq<Wake>, limit: nat, k: nat)
    requires Ticking(start, wakes, limit) && k < |wakes|
    ensures wakes[k].now <= wakes[|wakes| - 1].now
    decreases |wakes|
  {
    var n := |wakes| - 1;
    if k < n {
      LastTick(start, wakes[..n], limit, k);
      BooksClock(start, wakes[..n]);
    }
  }

  lemma BooksClock(start: real, wakes: seq<Wake>)
    ensures Books(start, wakes).bucket.prevTs == if wakes == [] then start else wakes[|wakes| - 1].now
  {
  }

  /** Everything released before the last turn ran before it. */
  lemma RanByLastTick(start: real, wakes: seq<Wake>, runs: Schedule, limit: nat, from: real, t: real)
    requires wakes != [] && Ticking(start, wakes, limit) && Orderly(start, wakes, runs)
    requires wakes[|wakes| - 1].now < from
    ensures RunsIn(start, wakes[..|wakes| - 1], runs, from, t) == 0
  {
    var n := |wakes| - 1;
    hide Batch;
    forall k, j: nat | 0 <= k < n && j < Batch(start, wakes[..n], k) ensures runs(k, j) < from {
      BatchOfPrefix(start, wakes, k);
      LastTick(start, wakes, limit, k + 1);
    }
    NoneBeforeWindow(start, wakes[..n], runs, from, t);
  }

  lemma {:induction false} WorkerWindow(start: real, wakes: seq<Wake>, runs: Schedule, limit: nat, from: real, t: real)
    requires Ticking(start, wakes, limit) && Orderly(start, wakes, runs) && from <= t
    ensures WindowBound(Books(start, wakes), RunsIn(start, wakes, runs, from, t), limit, from, t)
  {
    if wakes == [] {
      WorthGrows(limit, limit, 0.0, t - from + 2.0);
      if from <= start {
        WorthGrows(limit, limit, 0.0, start - from + 2.0);
      }
    } else {
      var n := |wakes| - 1;
      var w := wakes[n];
      OrderlyPrefix(start, wakes, runs);
      WorkerWindow(start, wakes[..n], runs, limit, from, t);
      if w.now < from {
        RanByLastTick(start, wakes, runs, limit, from, t);
      }
      var batch := Batch(start, wakes, n);
      assert wakes[..n + 1] == wakes;
      assert forall j: nat :: j < batch ==> w.now <= runs(n, j);
      RunsOfTurnBounds(runs, n, Max(0, batch), from, t);
      hide Orderly, WindowBound, Booked;
      BooksGrow(start, wakes);
      WindowTurn(Books(start, wakes[..n]), w, RunsIn(start, wakes[..n], runs, from, t),
                 RunsOfTurn(runs, n, Max(0, batch), from, t), limit, from, t);
    }
  }

  lemma BooksGrow(start: real, wakes: seq<Wake>)
    requires wakes != []
    ensures Books(start, wakes).executed >= Books(start, wakes[..|wakes| - 1]).executed
  {
  }

  /** At most L*(T+2) tasks of one worker run in a window of length T. */
  lemma WorkerRunsInWindow(start: real, wakes: seq<Wake>, runs: Schedule, limit: nat, from: real, t: real)
    requires Ticking(start, wakes, limit) && Orderly(start, wakes, runs) && from <= t
    ensures RunsIn(start, wakes, runs, from, t) as real <= Worth(limit, t - from + 2.0)
  {
    hide Worth, Books, RunsIn, Ticking, Orderly;
    WorkerWindow(start, wakes, runs, limit, from, t);
    var prev := Books(start, wakes).bucket.prevTs;
    WorthGrows(limit, limit, 0.0, t - from);
    WorthTwoSeconds(limit, t - from);
    if from <= prev <= t {
      WorthGrows(limit, limit, prev - from + 2.0, t - from + 2.0);
    }
  }

  // --- All workers ----------------------------------------------------------------------

  /** The turns worker `i` takes in a run of the whole system, with the limits it reads. */
  ghost function WakesOf(openings: seq<real>, events: seq<Pipeline.Event>, i: nat): seq<Wake>
    requires i < |openings|
  {
    if events == [] then []
    else
      var m := |events| - 1;
      var e := events[m];
      WakesOf(openings, events[..m], i) +
      if e.Turn? && e.worker == i
      then [Wake(Pipeline.After(Pipeline.Idle(openings), events[..m])[i].limit, e.now, e.cap)]
      else []
  }

  /** In any interleaving each worker keeps the token books of its own turns. */
  ghost predicate OwnBooks(w: Pipeline.Seat, start: real, wakes: seq<Wake>, limit: nat) {
    && w.bucket == Books(start, wakes).bucket
    && w.executed == Books(start, wakes).executed
    && w.limit <= limit && Ticking(start, wakes, limit)
  }

  lemma OwnTurn(w: Pipeline.Seat, start: real, wakes: seq<Wake>, limit: nat, now: real, cap: Cap)
    requires OwnBooks(w, start, wakes, limit) && w.bucket.prevTs <= now
    ensures var (b, n) := WorkerTurn(w.bucket, Wake(w.limit, now, cap));
            OwnBooks(w.(bucket := b, executed := w.executed + n), start, wakes + [Wake(w.limit, now, cap)], limit)
  {
    assert (wakes + [Wake(w.limit, now, cap)])[..|wakes|] == wakes;
    hide WorkerTurn, Refill, Worth;
  }

  lemma {:induction false} WorkersKeepBooks(openings: seq<real>, events: seq<Pipeline.Event>, caps: seq<nat>, i: nat, start: real, end: real)
    requires |openings| == |caps| && i < |caps| && Pipeline.StoresWithin(events, caps)
    requires Pipeline.Clocked(Pipeline.Idle(openings), events, start, end)
    ensures OwnBooks(Pipeline.After(Pipeline.Idle(openings), events)[i], openings[i], WakesOf(openings, events, i), caps[i])
  {
    hide WorkerTurn, Share, OwnBooks;
    if events == [] {
      OpenBooks(openings, caps, i);
    } else {
      var m := |events| - 1;
      var e, s := events[m], Pipeline.After(Pipeline.Idle(openings), events[..m]);
      Pipeline.Shorter(Pipeline.Idle(openings), events, caps, start, end);
      WorkersKeepBooks(openings, events[..m], caps, i, start, end);
      var wakes := WakesOf(openings, events[..m], i);
      if e.worker == i {
        if e.Turn? {
          OwnTurn(s[i], openings[i], wakes, caps[i], e.now, e.cap);
        } else {
          OwnStore(s[i], openings[i], wakes, caps[i], Share(i, e.target, |openings|));
          assert wakes + [] == wakes;
        }
      } else {
        assert wakes + [] == wakes;
      }
    }
  }

  lemma OpenBooks(openings: seq<real>, caps: seq<nat>, i: nat)
    requires i < |openings| == |caps|
    ensures OwnBooks(Pipeline.Idle(openings)[i], openings[i], [], caps[i])
  {
  }

  lemma OwnStore(w: Pipeline.Seat, start: real, wakes: seq<Wake>, limit: nat, share: nat)
    requires OwnBooks(w, start, wakes, limit) && share <= limit
    ensures OwnBooks(w.(limit := share), start, wakes, limit)
  {
  }

  /** One schedule per worker, each orderly. */
  ghost predicate AllOrderly(openings: seq<real>, events: seq<Pipeline.Event>, runs: nat -> Schedule) {
    forall i :: 0 <= i < |openings| ==> Orderly(openings[i], WakesOf(openings, events, i), runs(i))
  }

  /** How many tasks of worker `i` run in [from, t]. */
  ghost function RanBy(openings: seq<real>, events: seq<Pipeline.Event>, runs: nat -> Schedule, from: real, t: real, i: nat): nat
    requires i < |openings|
  {
    RunsIn(openings[i], WakesOf(openings, events, i), runs(i), from, t)
  }

  ghost function Ran(openings: seq<real>, events: seq<Pipeline.Event>, runs: nat -> Schedule, from: real, t: real): seq<nat> {
    seq(|openings|, i requires 0 <= i < |openings| => RanBy(openings, events, runs, from, t, i))
  }

  /** Main result: under a constant target v at most v*(T+2) tasks run in any window of length
      T, whenever within its worker's turn each of them runs. */
  lemma WindowByExecution(openings: seq<real>, events: seq<Pipeline.Event>, v: nat, runs: nat -> Schedule,
                          start: real, end: real, from: real, t: real)
    requires openings != [] && Pipeline.ConstantTarget(events, v) && from <= t
    requires Pipeline.Clocked(Pipeline.Idle(openings), events, start, end) && AllOrderly(openings, events, runs)
    ensures Total(Ran(openings, events, runs, from, t)) as real <= Worth(v, t - from + 2.0)
  {
    hide Pipeline.Clocked, Pipeline.ConstantTarget, Pipeline.StoresWithin, Share, Worth, WakesOf, RunsIn, Orderly;
    var caps := Shares(v, |openings|);
    Pipeline.ConstantShares(events, v, |openings|);
    forall i | 0 <= i < |openings|
      ensures Ran(openings, events, runs, from, t)[i] as real <= Worth(caps[i], t - from + 2.0)
    {
      WorkersKeepBooks(openings, events, caps, i, start, end);
      WorkerRunsInWindow(openings[i], WakesOf(openings, events, i), runs(i), caps[i], from, t);
    }
    Pipeline.ScaledTotal(Ran(openings, events, runs, from, t), caps, t - from + 2.0);
    SharesTotal(v, |openings|);
  }
}
