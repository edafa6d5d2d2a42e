/** From target to executed tasks: the rate loop stores limits, the workers of any engine
    tick on their own clocks, in any interleaving. A batch of tasks is counted at the tick
    that released it (dwd-core/src/engine.rs, shaper.rs, engine/coro.rs, engine/udp/engine.rs,
    worker/dpdk.rs). */
module Pipeline {
  import opened Common
  import opened RoundRobin
  import opened TokenBucket
  import Generators
  import Profiles
  import RateLoop

  /** Either the rate loop stores the share of `target` in one worker's cell, or a worker
      takes a turn. Nothing is assumed about the order of the two. */
  datatype Event = Store(worker: nat, target: nat) | Turn(worker: nat, now: real, cap: Cap)

  /** A worker as the rate sees it: its limit cell, its bucket and its work so far. */
  datatype Seat = Seat(limit: nat, bucket: Bucket, executed: nat)

  type System = seq<Seat>

  function Step(s: System, e: Event): (r: System)
    ensures |r| == |s|
  {
    if e.worker >= |s| then s
    else
      var w := s[e.worker];
      match e
      case Store(i, target) => s[i := w.(limit := Share(i, target, |s|))]
      case Turn(i, now, cap) =>
        var (b, n) := WorkerTurn(w.bucket, Wake(w.limit, now, cap));
        s[i := w.(bucket := b, executed := w.executed + n)]
  }

  function After(s: System, events: seq<Event>): (r: System)
    ensures |r| == |s|
  {
    if events == [] then s else Step(After(s, events[..|events| - 1]), events[|events| - 1])
  }

  /** Each worker opens its bucket when its own thread gets there. */
  function Idle(openings: seq<real>): System {
    seq(|openings|, i requires 0 <= i < |openings| => Seat(0, Bucket(0.0, openings[i]), 0))
  }

  ghost predicate NoneBefore(openings: seq<real>, start: real) {
    forall i :: 0 <= i < |openings| ==> start <= openings[i]
  }

  function Executed(s: System): seq<nat> { seq(|s|, i requires 0 <= i < |s| => s[i].executed) }

  /** Every worker's clock moves forward, within [from, to]. */
  ghost predicate Clocked(s: System, events: seq<Event>, from: real, to: real) {
    forall k :: 0 <= k < |events| ==> TurnInTime(After(s, events[..k]), events[k], from, to)
  }

  ghost predicate TurnInTime(s: System, e: Event, from: real, to: real) {
    e.Turn? && e.worker < |s| ==> from <= e.now <= to && s[e.worker].bucket.prevTs <= e.now
  }

  ghost predicate StoresWithin(events: seq<Event>, caps: seq<nat>) {
    forall k :: 0 <= k < |events| ==> StoreWithin(events[k], caps)
  }

  // --- From the start -----------------------------------------------------------------

  /** Executed tasks plus stored tokens are covered by the highest limit the worker ever
      had, over the time up to its last tick. */
  ghost predicate Covered(w: Seat, limit: nat, start: real, t: real) {
    && w.limit <= limit
    && w.bucket.tokens >= 0.0
    && start <= w.bucket.prevTs
    && (w.bucket.prevTs <= t || w.executed == 0)
    && w.executed as real + w.bucket.tokens <= Worth(limit, w.bucket.prevTs - start)
  }

  lemma CoveredTurn(w: Seat, cap: Cap, limit: nat, start: real, t: real, now: real)
    requires Covered(w, limit, start, t) && w.bucket.prevTs <= now <= t
    ensures var (b, n) := WorkerTurn(w.bucket, Wake(w.limit, now, cap));
            Covered(w.(bucket := b, executed := w.executed + n), limit, start, t)
  {
    hide Worth;
    RefillBounds(w.bucket, w.limit, now);
    WorthGrows(w.limit, limit, now - w.bucket.prevTs, now - w.bucket.prevTs);
    WorthAdds(limit, w.bucket.prevTs - start, now - w.bucket.prevTs);
  }

  ghost predicate StoreWithin(e: Event, caps: seq<nat>) {
    e.Store? && e.worker < |caps| ==> Share(e.worker, e.target, |caps|) <= caps[e.worker]
  }

  ghost predicate SystemCovered(s: System, caps: seq<nat>, start: real, t: real) {
    |s| == |caps| && forall i :: 0 <= i < |s| ==> Covered(s[i], caps[i], start, t)
  }

  lemma StepCovered(s: System, e: Event, caps: seq<nat>, start: real, t: real)
    requires SystemCovered(s, caps, start, t) && StoreWithin(e, caps) && TurnInTime(s, e, start, t)
    ensures SystemCovered(Step(s, e), caps, start, t)
  {
    hide Worth, WorkerTurn, Share;
    if e.Turn? && e.worker < |s| {
      CoveredTurn(s[e.worker], e.cap, caps[e.worker], start, t, e.now);
    }
  }

  lemma {:induction false} AllCovered(openings: seq<real>, events: seq<Event>, caps: seq<nat>, start: real, t: real)
    requires |openings| == |caps| && NoneBefore(openings, start) && StoresWithin(events, caps)
    requires Clocked(Idle(openings), events, start, t)
    ensures SystemCovered(After(Idle(openings), events), caps, start, t)
  {
    hide Worth, Step, SystemCovered, StoreWithin, TurnInTime;
    if events != [] {
      var m := |events| - 1;
      Shorter(Idle(openings), events, caps, start, t);
      AllCovered(openings, events[..m], caps, start, t);
      StepCovered(After(Idle(openings), events[..m]), events[m], caps, start, t);
    } else {
      IdleCovered(openings, caps, start, t);
    }
  }

  lemma IdleCovered(openings: seq<real>, caps: seq<nat>, start: real, t: real)
    requires |openings| == |caps| && NoneBefore(openings, start)
    ensures SystemCovered(Idle(openings), caps, start, t)
  {
    forall i | 0 <= i < |openings| ensures Covered(Idle(openings)[i], caps[i], start, t) {
      WorthGrows(caps[i], caps[i], 0.0, openings[i] - start);
    }
  }

  lemma Shorter(s: System, events: seq<Event>, caps: seq<nat>, from: real, to: real)
    requires events != [] && Clocked(s, events, from, to) && StoresWithin(events, caps)
    ensures var m := |events| - 1;
            && Clocked(s, events[..m], from, to) && StoresWithin(events[..m], caps)
            && TurnInTime(After(s, events[..m]), events[m], from, to) && StoreWithin(events[m], caps)
  {
    hide TurnInTime, StoreWithin, After;
    var m := |events| - 1;
    forall k | 0 <= k < m ensures TurnInTime(After(s, events[..m][..k]), events[..m][k], from, to) {
      assert events[..m][..k] == events[..k];
    }
  }

  /** A bound per worker adds up to a bound for all. */
  lemma {:induction false} ScaledTotal(xs: seq<nat>, caps: seq<nat>, t: real)
    requires |xs| == |caps| && forall i :: 0 <= i < |xs| ==> xs[i] as real <= Worth(caps[i], t)
    ensures Total(xs) as real <= Worth(Total(caps), t)
  {
    if xs != [] {
      hide Worth;
      var n := |xs| - 1;
      ScaledTotal(xs[..n], caps[..n], t);
      WorthShares(Total(caps[..n]), caps[n], t);
    }
  }

  /** With every stored share at most `caps`, at most `sum(caps) * T` tasks in the first T
      seconds, over every schedule. */
  lemma ExecutedFromStart(openings: seq<real>, events: seq<Event>, caps: seq<nat>, start: real, t: real)
    requires |openings| == |caps| && NoneBefore(openings, start) && StoresWithin(events, caps) && start <= t
    requires Clocked(Idle(openings), events, start, t)
    ensures Total(Executed(After(Idle(openings), events))) as real <= Worth(Total(caps), t - start)
  {
    hide Worth, After, Clocked, StoresWithin;
    AllCovered(openings, events, caps, start, t);
    var s := After(Idle(openings), events);
    forall i | 0 <= i < |openings| ensures s[i].executed as real <= Worth(caps[i], t - start) {
      assert Covered(s[i], caps[i], start, t);
      WorthGrows(caps[i], caps[i], 0.0, t - start);
      if s[i].bucket.prevTs <= t {
        WorthGrows(caps[i], caps[i], s[i].bucket.prevTs - start, t - start);
      }
    }
    ScaledTotal(Executed(s), caps, t - start);
  }

  /** The target is v, or nothing: before the first turn and while paused. */
  ghost predicate ConstantTarget(events: seq<Event>, v: nat) {
    forall e | e in events :: e.Store? ==> e.target in {0, v}
  }

  lemma ConstantShares(events: seq<Event>, v: nat, n: nat)
    requires n > 0 && ConstantTarget(events, v)
    ensures StoresWithin(events, Shares(v, n))
  {
    forall k | 0 <= k < |events| ensures StoreWithin(events[k], Shares(v, n)) {
      assert events[k] in events;
      if events[k].Store? && events[k].worker < n {
        ShareWhole(events[k].worker, 0, n);
      }
    }
  }

  ghost predicate TargetsUpTo(events: seq<Event>, top: nat) {
    forall e | e in events :: e.Store? ==> e.target <= top
  }

  /** A constant target v: at most v*T tasks in the first T seconds. */
  lemma ConstantRate(openings: seq<real>, events: seq<Event>, v: nat, start: real, t: real)
    requires openings != [] && NoneBefore(openings, start) && ConstantTarget(events, v) && start <= t
    requires Clocked(Idle(openings), events, start, t)
    ensures Total(Executed(After(Idle(openings), events))) as real <= Worth(v, t - start)
  {
    hide After, Clocked, Idle, Executed, Share, StoresWithin;
    SharesTotal(v, |openings|);
    ConstantShares(events, v, |openings|);
    ExecutedFromStart(openings, events, Shares(v, |openings|), start, t);
  }

  /** No share of a target up to `top` exceeds the first share of `top` itself. */
  lemma ShareCeiling(i: nat, v: nat, top: nat, n: nat)
    requires i < n && v <= top
    ensures Share(i, v, n) <= Share(0, top, n)
    ensures n * Share(0, top, n) <= top + n - 1
  {
    ShareGrowth(0, v, top, n);
    RoundedUp(top / n, top % n, n, top);
  }

  lemma RoundedUp(q: nat, r: nat, n: nat, top: nat)
    requires top == q * n + r && r < n
    ensures n * (q + if 0 < r then 1 else 0) <= top + n - 1
  {
    assert n * (q + 1) == q * n + n;
  }

  lemma {:induction false} ConstantTotal(n: nat, c: nat)
    ensures Total(seq(n, _ => c)) == n * c
  {
    if n > 0 {
      assert seq(n, _ => c)[..n - 1] == seq(n - 1, _ => c);
      ConstantTotal(n - 1, c);
    }
  }

  /** Targets up to `top`: rounding each share up costs less than one task per worker. */
  lemma BoundedRate(openings: seq<real>, events: seq<Event>, top: nat, start: real, t: real)
    requires openings != [] && NoneBefore(openings, start) && TargetsUpTo(events, top) && start <= t
    requires Clocked(Idle(openings), events, start, t)
    ensures Total(Executed(After(Idle(openings), events))) as real <= Worth(top + |openings| - 1, t - start)
  {
    hide After, Clocked, Idle, Executed, Share;
    var n := |openings|;
    var c := Share(0, top, n);
    var caps := seq(n, _ => c);
    forall k | 0 <= k < |events| ensures StoreWithin(events[k], caps) {
      assert events[k] in events;
      if events[k].Store? && events[k].worker < n {
        ShareCeiling(events[k].worker, events[k].target, top, n);
      }
    }
    ExecutedFromStart(openings, events, caps, start, t);
    ConstantTotal(n, c);
    ShareCeiling(0, top, top, n);
    WorthGrows(n * c, top + n - 1, t - start, t - start);
  }

  // --- In any window ------------------------------------------------------------------

  /** Since the window openings at `from`: no tick yet, or covered by one second's worth of
      stored tokens plus the time since. */
  ghost predicate WindowCovered(w: Seat, base: nat, limit: nat, from: real, t: real) {
    && w.limit <= limit
    && w.bucket.tokens >= 0.0
    && base <= w.executed
    && if w.bucket.prevTs < from then w.executed == base
       else (w.bucket.prevTs <= t || w.executed == base) &&
            (w.executed - base) as real + w.bucket.tokens <= limit as real + Worth(limit, w.bucket.prevTs - from)
  }

  lemma WindowTurn(w: Seat, cap: Cap, base: nat, limit: nat, from: real, t: real, now: real)
    requires WindowCovered(w, base, limit, from, t) && from <= now <= t && w.bucket.prevTs <= now
    ensures var (b, n) := WorkerTurn(w.bucket, Wake(w.limit, now, cap));
            WindowCovered(w.(bucket := b, executed := w.executed + n), base, limit, from, t)
  {
    hide Worth;
    RefillBounds(w.bucket, w.limit, now);
    WorthGrows(limit, limit, 0.0, now - from);
    if from <= w.bucket.prevTs {
      WorthGrows(w.limit, limit, now - w.bucket.prevTs, now - w.bucket.prevTs);
      WorthAdds(limit, w.bucket.prevTs - from, now - w.bucket.prevTs);
    }
  }

  ghost predicate SystemWindowCovered(s: System, s0: System, caps: seq<nat>, from: real, t: real) {
    |s| == |s0| == |caps| && forall i :: 0 <= i < |s| ==> WindowCovered(s[i], s0[i].executed, caps[i], from, t)
  }

  lemma StepWindowCovered(s: System, s0: System, e: Event, caps: seq<nat>, from: real, t: real)
    requires SystemWindowCovered(s, s0, caps, from, t) && StoreWithin(e, caps) && TurnInTime(s, e, from, t)
    ensures SystemWindowCovered(Step(s, e), s0, caps, from, t)
  {
    hide Worth, WorkerTurn, Share;
    if e.Turn? && e.worker < |s| {
      WindowTurn(s[e.worker], e.cap, s0[e.worker].executed, caps[e.worker], from, t, e.now);
    }
  }

  lemma {:induction false} AllWindowCovered(s0: System, events: seq<Event>, caps: seq<nat>, from: real, t: real)
    requires SystemWindowCovered(s0, s0, caps, from, t) && StoresWithin(events, caps)
    requires Clocked(s0, events, from, t)
    ensures SystemWindowCovered(After(s0, events), s0, caps, from, t)
  {
    hide Worth, Step, SystemWindowCovered, StoreWithin, TurnInTime;
    if events != [] {
      var m := |events| - 1;
      Shorter(s0, events, caps, from, t);
      AllWindowCovered(s0, events[..m], caps, from, t);
      StepWindowCovered(After(s0, events[..m]), s0, events[m], caps, from, t);
    }
  }

  /** At most a second's worth stored: how a run leaves a worker. */
  ghost predicate Stocked(w: Seat, limit: nat) {
    w.limit <= limit && 0.0 <= w.bucket.tokens <= limit as real
  }

  ghost predicate SystemStocked(s: System, caps: seq<nat>) {
    |s| == |caps| && forall i :: 0 <= i < |s| ==> Stocked(s[i], caps[i])
  }

  lemma StepStocked(s: System, e: Event, caps: seq<nat>)
    requires SystemStocked(s, caps) && StoreWithin(e, caps)
    ensures SystemStocked(Step(s, e), caps)
  {
    hide Worth, Share, Refill;
    if e.Turn? && e.worker < |s| {
      RefillBounds(s[e.worker].bucket, s[e.worker].limit, e.now);
    }
  }

  lemma {:induction false} AllStocked(openings: seq<real>, events: seq<Event>, caps: seq<nat>)
    requires |openings| == |caps| && StoresWithin(events, caps)
    ensures SystemStocked(After(Idle(openings), events), caps)
  {
    hide Step, StoreWithin;
    if events != [] {
      var m := |events| - 1;
      AllStocked(openings, events[..m], caps);
      StepStocked(After(Idle(openings), events[..m]), events[m], caps);
    }
  }

  /** A stocked system executes at most sum(caps) * (T + 1) tasks in the next T seconds. */
  lemma ExecutedInWindow(s0: System, events: seq<Event>, caps: seq<nat>, from: real, t: real)
    requires SystemStocked(s0, caps) && StoresWithin(events, caps) && from <= t
    requires Clocked(s0, events, from, t)
    ensures Total(Executed(After(s0, events))) as real
         <= Total(Executed(s0)) as real + Worth(Total(caps), t - from + 1.0)
  {
    hide After, Clocked, StoresWithin, Worth;
    forall i | 0 <= i < |s0| ensures WindowCovered(s0[i], s0[i].executed, caps[i], from, t) {
      if from <= s0[i].bucket.prevTs {
        WorthGrows(caps[i], caps[i], 0.0, s0[i].bucket.prevTs - from);
      }
    }
    AllWindowCovered(s0, events, caps, from, t);
    var s := After(s0, events);
    forall i | 0 <= i < |s0|
      ensures s0[i].executed <= s[i].executed
      ensures (s[i].executed - s0[i].executed) as real <= Worth(caps[i], t - from + 1.0)
    {
      assert WindowCovered(s[i], s0[i].executed, caps[i], from, t);
      WorthGrows(caps[i], caps[i], 0.0, t - from + 1.0);
      if from <= s[i].bucket.prevTs <= t {
        WorthOneSecond(caps[i], s[i].bucket.prevTs - from);
        WorthGrows(caps[i], caps[i], s[i].bucket.prevTs - from + 1.0, t - from + 1.0);
      }
    }
    var delta: seq<nat> := seq(|s0|, i requires 0 <= i < |s0| => s[i].executed - s0[i].executed);
    ScaledTotal(delta, caps, t - from + 1.0);
    TotalDifference(Executed(s0), Executed(s), delta);
  }

  /** A constant target v: at most v*(T+1) tasks in any window of length T of any run. */
  lemma WindowRate(openings: seq<real>, before: seq<Event>, within: seq<Event>, v: nat, from: real, t: real)
    requires openings != [] && ConstantTarget(before, v) && ConstantTarget(within, v) && from <= t
    requires Clocked(After(Idle(openings), before), within, from, t)
    ensures var s0 := After(Idle(openings), before);
            Total(Executed(After(s0, within))) as real
              <= Total(Executed(s0)) as real + Worth(v, t - from + 1.0)
  {
    hide After, Clocked, Idle, Executed, Share, StoresWithin;
    var shares := Shares(v, |openings|);
    SharesTotal(v, |openings|);
    ConstantShares(before, v, |openings|);
    ConstantShares(within, v, |openings|);
    AllStocked(openings, before, shares);
    ExecutedInWindow(After(Idle(openings), before), within, shares, from, t);
  }

  lemma WorthOneSecond(a: nat, s: real)
    ensures a as real + Worth(a, s) == Worth(a, s + 1.0)
  {
  }

  lemma {:induction false} TotalDifference(a: seq<nat>, b: seq<nat>, d: seq<nat>)
    requires |a| == |b| == |d| && forall i :: 0 <= i < |a| ==> b[i] == a[i] + d[i]
    ensures Total(b) == Total(a) + Total(d)
  {
    if a != [] {
      var n := |a| - 1;
      TotalDifference(a[..n], b[..n], d[..n]);
    }
  }

  // --- End to end ---------------------------------------------------------------------

  /** Every stored target is one the rate loop mirrored after some of its turns. */
  ghost predicate DrivenBy(events: seq<Event>, s: RateLoop.Loop, ticks: seq<RateLoop.Tick>)
    requires |s.limits| > 0
  {
    forall e | e in events :: e.Store? ==>
      exists k :: 0 <= k <= |ticks| && e.target == RateLoop.RunLoop(s, ticks[..k]).mirror
  }

  /** A run: workers open no earlier than `start`, store only what the loop mirrored, and
      take their turns within [start, t]. */
  ghost predicate Scenario(s: RateLoop.Loop, ticks: seq<RateLoop.Tick>, openings: seq<real>, events: seq<Event>, start: real, t: real)
    requires |s.limits| > 0
  {
    && |openings| == |s.limits|
    && NoneBefore(openings, start)
    && DrivenBy(events, s, ticks)
    && Clocked(Idle(openings), events, start, t)
  }

  lemma StartLimits(g: Generators.Gen, n: nat, a: nat)
    ensures |RateLoop.Start(g, n, a).limits| == n
  {
  }

  lemma ScenarioParts(s: RateLoop.Loop, ticks: seq<RateLoop.Tick>, openings: seq<real>, events: seq<Event>, start: real, t: real)
    requires |s.limits| > 0 && Scenario(s, ticks, openings, events, start, t)
    ensures |openings| == |s.limits| && NoneBefore(openings, start)
    ensures DrivenBy(events, s, ticks) && Clocked(Idle(openings), events, start, t)
  {
  }

  /** A profile with peak up to `top`, control values up to `top`, any control traffic, any
      worker schedule: the tasks of the first T seconds stay within (top + n - 1) * T. */
  lemma EndToEnd(c: Generators.Config, born: nat, a: nat, ticks: seq<RateLoop.Tick>,
                 n: nat, openings: seq<real>, events: seq<Event>, top: nat, start: real, t: real)
    requires Generators.Create(c, born).Some? && Profiles.Peak(c) <= top && n > 0 && start <= t
    ensures RateLoop.EventsAllowed(RateLoop.AllOffered(ticks), RateLoop.UpTo(top)) ==>
            Scenario(RateLoop.Start(Generators.Create(c, born).value, n, a), ticks, openings, events, start, t) ==>
              Total(Executed(After(Idle(openings), events))) as real <= Worth(top + n - 1, t - start)
  {
    hide *;
    var g := Generators.Create(c, born).value;
    var s := RateLoop.Start(g, n, a);
    StartLimits(g, n, a);
    if RateLoop.EventsAllowed(RateLoop.AllOffered(ticks), RateLoop.UpTo(top)) && Scenario(s, ticks, openings, events, start, t) {
      BoundedProfile(c, born, a, ticks, n, events, top);
      ScenarioParts(s, ticks, openings, events, start, t);
      BoundedRate(openings, events, top, start, t);
    }
  }

  /** What the loop stores stays within the profile's peak and the values set by hand. */
  lemma BoundedProfile(c: Generators.Config, born: nat, a: nat, ticks: seq<RateLoop.Tick>, n: nat, events: seq<Event>, top: nat)
    requires Generators.Create(c, born).Some? && Profiles.Peak(c) <= top && n > 0
    requires RateLoop.EventsAllowed(RateLoop.AllOffered(ticks), RateLoop.UpTo(top))
    ensures DrivenBy(events, RateLoop.Start(Generators.Create(c, born).value, n, a), ticks) ==> TargetsUpTo(events, top)
  {
    hide Generators.Create, Profiles.Peak, RateLoop.RunLoop;
    var s := RateLoop.Start(Generators.Create(c, born).value, n, a);
    if DrivenBy(events, s, ticks) {
      forall e | e in events && e.Store? ensures e.target <= top {
        var k :| 0 <= k <= |ticks| && e.target == RateLoop.RunLoop(s, ticks[..k]).mirror;
        OfferedPrefix(ticks, k, RateLoop.UpTo(top));
        RateLoop.TargetsBounded(c, born, n, a, ticks[..k], top);
      }
    }
  }

  /** Under a constant profile, with no other value set by hand, what the loop stores is a
      constant target. */
  lemma ConstantProfile(v: Generators.u64, secs: nat, born: nat, a: nat, ticks: seq<RateLoop.Tick>, n: nat, events: seq<Event>)
    requires Generators.Create(Generators.ConstConfig(v, secs), born).Some? && n > 0
    requires RateLoop.EventsAllowed(RateLoop.AllOffered(ticks), RateLoop.Either(0, v))
    ensures DrivenBy(events, RateLoop.Start(Generators.Create(Generators.ConstConfig(v, secs), born).value, n, a), ticks) ==>
              ConstantTarget(events, v)
  {
    var c := Generators.ConstConfig(v, secs);
    var s := RateLoop.Start(Generators.Create(c, born).value, n, a);
    if DrivenBy(events, s, ticks) {
      forall e | e in events && e.Store? ensures e.target in {0, v} {
        var k :| 0 <= k <= |ticks| && e.target == RateLoop.RunLoop(s, ticks[..k]).mirror;
        OfferedPrefix(ticks, k, RateLoop.Either(0, v));
        RateLoop.TargetsConstant(v, secs, born, n, a, ticks[..k]);
      }
    }
  }

  /** A constant profile v with no other value set by hand, end to end: v*T tasks in the
      first T seconds ... */
  lemma ConstantEndToEnd(v: Generators.u64, secs: nat, born: nat, a: nat, ticks: seq<RateLoop.Tick>,
                         n: nat, openings: seq<real>, events: seq<Event>, start: real, t: real)
    requires Generators.Create(Generators.ConstConfig(v, secs), born).Some? && n > 0 && start <= t
    requires RateLoop.EventsAllowed(RateLoop.AllOffered(ticks), RateLoop.Either(0, v))
    ensures var s := RateLoop.Start(Generators.Create(Generators.ConstConfig(v, secs), born).value, n, a);
            Scenario(s, ticks, openings, events, start, t) ==>
              Total(Executed(After(Idle(openings), events))) as real <= Worth(v, t - start)
  {
    hide *;
    var g := Generators.Create(Generators.ConstConfig(v, secs), born).value;
    var s := RateLoop.Start(g, n, a);
    StartLimits(g, n, a);
    ConstantProfile(v, secs, born, a, ticks, n, events);
    if Scenario(s, ticks, openings, events, start, t) {
      ScenarioParts(s, ticks, openings, events, start, t);
      ConstantRate(openings, events, v, start, t);
    }
  }

  /** ... and v*(T+1) in any window of length T. */
  lemma ConstantWindow(v: Generators.u64, secs: nat, born: nat, a: nat, ticks: seq<RateLoop.Tick>,
                       n: nat, openings: seq<real>, before: seq<Event>, within: seq<Event>, from: real, t: real)
    requires Generators.Create(Generators.ConstConfig(v, secs), born).Some? && |openings| == n > 0 && from <= t
    requires RateLoop.EventsAllowed(RateLoop.AllOffered(ticks), RateLoop.Either(0, v))
    ensures var s := RateLoop.Start(Generators.Create(Generators.ConstConfig(v, secs), born).value, n, a);
            var s0 := After(Idle(openings), before);
            DrivenBy(before + within, s, ticks) && Clocked(s0, within, from, t) ==>
              Total(Executed(After(s0, within))) as real <= Total(Executed(s0)) as real + Worth(v, t - from + 1.0)
  {
    ConstantProfile(v, secs, born, a, ticks, n, before + within);
    if ConstantTarget(before + within, v) {
      assert ConstantTarget(before, v) && ConstantTarget(within, v);
      hide DrivenBy, ConstantTarget, Generators.Create, After, Idle, Executed, Worth;
      if Clocked(After(Idle(openings), before), within, from, t) {
        WindowRate(openings, before, within, v, from, t);
      }
    }
  }

  lemma {:induction false} OfferedPrefix(ticks: seq<RateLoop.Tick>, k: nat, ok: nat -> bool)
    requires k <= |ticks| && RateLoop.EventsAllowed(RateLoop.AllOffered(ticks), ok)
    ensures RateLoop.EventsAllowed(RateLoop.AllOffered(ticks[..k]), ok)
    decreases |ticks|
  {
    if k < |ticks| {
      var n := |ticks| - 1;
      assert forall e | e in RateLoop.AllOffered(ticks[..n]) :: e in RateLoop.AllOffered(ticks);
      OfferedPrefix(ticks[..n], k, ok);
      assert ticks[..n][..k] == ticks[..k];
    } else {
      assert ticks[..k] == ticks;
    }
  }
}
