/** The other half of the rate: workers that are not held up do deliver their target. Their
    turns execute every token offered (dwd-core/src/engine/udp/engine.rs) and come so close
    together that no refill overflows. */
module Delivery {
  import opened Common
  import opened RoundRobin
  import opened TokenBucket
  import opened Pipeline
  import Generators
  import Profiles
  import RateLoop

  ghost predicate AllStore(events: seq<Event>, v: nat) { forall e | e in events :: e.Store? ==> e.target == v }

  /** Turns are uncapped, and each worker's are at most `gap` apart. */
  ghost predicate SteadyEvent(s: System, e: Event, gap: real) {
    e.Turn? && e.worker < |s| ==>
      e.cap.Unlimited? && s[e.worker].bucket.prevTs <= e.now <= s[e.worker].bucket.prevTs + gap
  }

  ghost predicate SteadyRun(s: System, events: seq<Event>, gap: real) {
    forall k :: 0 <= k < |events| ==> SteadyEvent(After(s, events[..k]), events[k], gap)
  }

  /** Less than a token left; none where the limit is zero. */
  ghost predicate Drained(w: Seat) {
    0.0 <= w.bucket.tokens < 1.0 && (w.limit == 0 ==> w.bucket.tokens == 0.0)
  }

  /** Since `w0`, all that was minted at limit `limit` was executed or is still there. */
  ghost predicate Delivered(w: Seat, w0: Seat, limit: nat) {
    && w.limit == limit && Drained(w)
    && w0.bucket.prevTs <= w.bucket.prevTs
    && w.executed as real + w.bucket.tokens
       == w0.executed as real + w0.bucket.tokens + Worth(limit, w.bucket.prevTs - w0.bucket.prevTs)
  }

  lemma DeliveredTurn(w: Seat, w0: Seat, limit: nat, now: real, gap: real)
    requires Delivered(w, w0, limit) && Roomy(limit, gap)
    requires w.bucket.prevTs <= now <= w.bucket.prevTs + gap
    ensures var (b, n) := WorkerTurn(w.bucket, Wake(w.limit, now, Unlimited));
            Delivered(w.(bucket := b, executed := w.executed + n), w0, limit)
  {
    hide Worth, Roomy, WorkerTurn;
    SteadyTurn(w.bucket, Wake(w.limit, now, Unlimited), gap);
    WorthAdds(limit, w.bucket.prevTs - w0.bucket.prevTs, now - w.bucket.prevTs);
    if limit == 0 {
      WorthOfNothing(now - w.bucket.prevTs);
      NothingMinted(w.bucket, now);
    }
  }

  /** With limit zero a turn executes nothing and keeps an empty bucket empty. */
  lemma NothingMinted(b: Bucket, now: real)
    requires b.tokens == 0.0 && b.prevTs <= now
    ensures WorkerTurn(b, Wake(0, now, Unlimited)) == (Bucket(0.0, now), 0)
  {
    WorthOfNothing(now - b.prevTs);
    hide Worth;
  }

  ghost predicate SystemDelivered(s: System, s0: System, caps: seq<nat>) {
    |s| == |s0| == |caps| && forall i :: 0 <= i < |s| ==> Delivered(s[i], s0[i], caps[i])
  }

  ghost predicate AllRoomy(caps: seq<nat>, gap: real) { forall i :: 0 <= i < |caps| ==> Roomy(caps[i], gap) }

  lemma StepDelivered(s: System, s0: System, e: Event, v: nat, gap: real)
    requires |s| > 0 && SystemDelivered(s, s0, Shares(v, |s|)) && AllRoomy(Shares(v, |s|), gap)
    requires SteadyEvent(s, e, gap) && (e.Store? ==> e.target == v)
    ensures SystemDelivered(Step(s, e), s0, Shares(v, |s|))
  {
    hide Worth, Roomy, WorkerTurn, Share;
    if e.Turn? && e.worker < |s| {
      DeliveredTurn(s[e.worker], s0[e.worker], Shares(v, |s|)[e.worker], e.now, gap);
    }
  }

  lemma {:induction false} AllDelivered(s0: System, events: seq<Event>, v: nat, gap: real)
    requires |s0| > 0 && SystemDelivered(s0, s0, Shares(v, |s0|)) && AllRoomy(Shares(v, |s0|), gap)
    requires SteadyRun(s0, events, gap) && AllStore(events, v)
    ensures SystemDelivered(After(s0, events), s0, Shares(v, |s0|))
  {
    hide Step, SystemDelivered, SteadyEvent, AllRoomy, Shares;
    if events != [] {
      var m := |events| - 1;
      forall k | 0 <= k < m ensures SteadyEvent(After(s0, events[..m][..k]), events[..m][k], gap) {
        assert events[..m][..k] == events[..k];
      }
      AllDelivered(s0, events[..m], v, gap);
      StepDelivered(After(s0, events[..m]), s0, events[m], v, gap);
    }
  }

  /** A lower bound per worker, short of one task each, adds up. */
  lemma {:induction false} ScaledLower(xs: seq<nat>, caps: seq<nat>, t: real)
    requires |xs| == |caps| && forall i :: 0 <= i < |xs| ==> Worth(caps[i], t) <= xs[i] as real + 1.0
    ensures Worth(Total(caps), t) <= Total(xs) as real + |xs| as real
  {
    if xs == [] {
      WorthOfNothing(t);
    } else {
      hide Worth;
      var n := |xs| - 1;
      ScaledLower(xs[..n], caps[..n], t);
      WorthShares(Total(caps[..n]), caps[n], t);
    }
  }

  /** Ready to deliver: every cell holds its share of `v` and every bucket is drained. */
  ghost predicate ReadyFor(s: System, v: nat) {
    |s| > 0 && forall i :: 0 <= i < |s| ==> s[i].limit == Share(i, v, |s|) && Drained(s[i])
  }

  /** While the target is v, steady workers that last ticked by `from` and have ticked again
      at `t` or later have executed at least v*(t - from) - n tasks in between. */
  lemma DeliveredRate(s0: System, events: seq<Event>, v: nat, gap: real, from: real, t: real)
    requires ReadyFor(s0, v) && AllRoomy(Shares(v, |s0|), gap) && from <= t
    requires SteadyRun(s0, events, gap) && AllStore(events, v)
    requires forall i :: 0 <= i < |s0| ==> s0[i].bucket.prevTs <= from
    requires forall i :: 0 <= i < |s0| ==> t <= After(s0, events)[i].bucket.prevTs
    ensures Total(Executed(s0)) as real + Worth(v, t - from)
         <= Total(Executed(After(s0, events))) as real + |s0| as real
  {
    hide After, SteadyRun, Share, Worth;
    var caps := Shares(v, |s0|);
    forall i | 0 <= i < |s0| ensures Delivered(s0[i], s0[i], caps[i]) {
      WorthNoTime(caps[i]);
    }
    AllDelivered(s0, events, v, gap);
    var s := After(s0, events);
    forall i | 0 <= i < |s0|
      ensures s0[i].executed <= s[i].executed
      ensures Worth(caps[i], t - from) <= (s[i].executed - s0[i].executed) as real + 1.0
    {
      assert Delivered(s[i], s0[i], caps[i]);
      WorthGrows(caps[i], caps[i], t - from, s[i].bucket.prevTs - s0[i].bucket.prevTs);
    }
    var delta: seq<nat> := seq(|s0|, i requires 0 <= i < |s0| => s[i].executed - s0[i].executed);
    ScaledLower(delta, caps, t - from);
    SharesTotal(v, |s0|);
    TotalDifference(Executed(s0), Executed(s), delta);
  }

  lemma WorthNoTime(a: nat)
    ensures Worth(a, 0.0) == 0.0
  {
  }

  // --- From a configured profile --------------------------------------------------------

  /** Every stored target is one the loop mirrored after a turn that did not end it. */
  ghost predicate LiveStores(events: seq<Event>, s: RateLoop.Loop, ticks: seq<RateLoop.Tick>)
    requires |s.limits| > 0
  {
    forall e | e in events :: e.Store? ==>
      exists k :: 1 <= k <= |ticks| && !RateLoop.RunLoop(s, ticks[..k]).exited
               && e.target == RateLoop.RunLoop(s, ticks[..k]).mirror
  }

  lemma {:induction false} NothingOffered(ticks: seq<RateLoop.Tick>, k: nat)
    requires k <= |ticks| && RateLoop.AllOffered(ticks) == []
    ensures RateLoop.AllOffered(ticks[..k]) == []
    decreases |ticks|
  {
    if k < |ticks| {
      var n := |ticks| - 1;
      NothingOffered(ticks[..n], k);
      assert ticks[..n][..k] == ticks[..k];
    } else {
      assert ticks[..k] == ticks;
    }
  }

  /** Under a constant profile left alone every live store is of the constant. */
  lemma LiveStoresConstant(v: Generators.u64, secs: nat, s: RateLoop.Loop, ticks: seq<RateLoop.Tick>, events: seq<Event>)
    requires |s.limits| > 0 && RateLoop.LeftAlone(Generators.ConstConfig(v, secs), s)
    requires RateLoop.AllOffered(ticks) == [] && LiveStores(events, s, ticks)
    ensures AllStore(events, v)
  {
    hide RateLoop.RunLoop, RateLoop.LeftAlone;
    forall e | e in events && e.Store? ensures e.target == v {
      var k :| 1 <= k <= |ticks| && !RateLoop.RunLoop(s, ticks[..k]).exited
            && e.target == RateLoop.RunLoop(s, ticks[..k]).mirror;
      NothingOffered(ticks, k);
      RateLoop.MirrorsConstant(v, secs, s, ticks[..k]);
    }
  }

  /** Some event stores a share in worker `i`'s cell. */
  ghost predicate StoredIn(events: seq<Event>, i: nat) { exists e :: e in events && e.Store? && e.worker == i }

  ghost predicate Uncapped(events: seq<Event>) { forall e | e in events :: e.Turn? ==> e.cap.Unlimited? }

  /** A worker before and after its first store. */
  ghost predicate WarmingUp(w: Seat, share: nat, stored: bool) {
    && 0.0 <= w.bucket.tokens < 1.0
    && (w.limit == 0 ==> w.bucket.tokens == 0.0)
    && (if stored then w.limit == share else w.limit in {0, share})
  }

  lemma WarmTurn(w: Seat, share: nat, stored: bool, now: real)
    requires WarmingUp(w, share, stored)
    ensures var (b, n) := WorkerTurn(w.bucket, Wake(w.limit, now, Unlimited));
            WarmingUp(w.(bucket := b, executed := w.executed + n), share, stored)
  {
    RefillBounds(w.bucket, w.limit, now);
    hide Worth;
  }

  /** Uncapped runs leave every worker drained, and its cell at its share once stored. */
  lemma {:induction false} WarmUp(openings: seq<real>, events: seq<Event>, v: nat, i: nat)
    requires i < |openings| && AllStore(events, v) && Uncapped(events)
    ensures WarmingUp(After(Idle(openings), events)[i], Share(i, v, |openings|), StoredIn(events, i))
  {
    hide WorkerTurn, Share;
    if events != [] {
      var m := |events| - 1;
      var e, s := events[m], After(Idle(openings), events[..m]);
      assert e in events && events == events[..m] + [e];
      assert StoredIn(events, i) <==> StoredIn(events[..m], i) || (e.Store? && e.worker == i);
      hide StoredIn;
      WarmUp(openings, events[..m], v, i);
      if e.Turn? && e.worker == i {
        WarmTurn(s[i], Share(i, v, |openings|), StoredIn(events[..m], i), e.now);
      }
    }
  }

  /** The run of a steady engine: every cell was stored before the window opens at `from`,
      every worker had last ticked by then, and each has ticked at `t` or later. */
  ghost predicate Served(openings: seq<real>, before: seq<Event>, within: seq<Event>, gap: real, from: real, t: real) {
    var s0 := After(Idle(openings), before);
    && Uncapped(before) && SteadyRun(s0, within, gap)
    && (forall i :: 0 <= i < |openings| ==> StoredIn(before, i) && s0[i].bucket.prevTs <= from)
    && forall i :: 0 <= i < |openings| ==> t <= After(s0, within)[i].bucket.prevTs
  }

  lemma ServedRate(openings: seq<real>, before: seq<Event>, within: seq<Event>, v: nat, gap: real, from: real, t: real)
    requires openings != [] && AllRoomy(Shares(v, |openings|), gap) && from <= t
    requires AllStore(before, v) && AllStore(within, v) && Served(openings, before, within, gap, from, t)
    ensures var s0 := After(Idle(openings), before);
            Total(Executed(s0)) as real + Worth(v, t - from)
              <= Total(Executed(After(s0, within))) as real + |openings| as real
  {
    hide After, Idle, SteadyRun, AllStore, StoredIn, Share, Worth, AllRoomy, Uncapped;
    var s0 := After(Idle(openings), before);
    IdleSize(openings);
    forall i | 0 <= i < |openings| ensures s0[i].limit == Share(i, v, |openings|) && Drained(s0[i]) {
      WarmUp(openings, before, v, i);
    }
    DeliveredRate(s0, within, v, gap, from, t);
  }

  lemma IdleSize(openings: seq<real>)
    ensures |Idle(openings)| == |openings|
  {
  }

  /** Main result, the partner of `ConstantWindow`: a constant profile v, left alone, with
      steady workers gives at least v*T - n tasks in a window of length T. */
  lemma ConstantDelivered(v: Generators.u64, secs: nat, born: nat, a: nat, ticks: seq<RateLoop.Tick>, n: nat,
                          openings: seq<real>, before: seq<Event>, within: seq<Event>, gap: real, from: real, t: real)
    requires Generators.Create(Generators.ConstConfig(v, secs), born).Some? && |openings| == n > 0 && from <= t
    requires AllRoomy(Shares(v, n), gap) && RateLoop.AllOffered(ticks) == []
    ensures var s := RateLoop.Start(Generators.Create(Generators.ConstConfig(v, secs), born).value, n, a);
            var s0 := After(Idle(openings), before);
            LiveStores(before, s, ticks) && LiveStores(within, s, ticks) && Served(openings, before, within, gap, from, t) ==>
              Total(Executed(s0)) as real + Worth(v, t - from)
                <= Total(Executed(After(s0, within))) as real + n as real
  {
    hide *;
    var c := Generators.ConstConfig(v, secs);
    var g := Generators.Create(c, born).value;
    var s := RateLoop.Start(g, n, a);
    StartLimits(g, n, a);
    StartLeftAlone(c, born, n, a);
    if LiveStores(before, s, ticks) && LiveStores(within, s, ticks) && Served(openings, before, within, gap, from, t) {
      LiveStoresConstant(v, secs, s, ticks, before);
      LiveStoresConstant(v, secs, s, ticks, within);
      ServedRate(openings, before, within, v, gap, from, t);
    }
  }

  lemma StartLeftAlone(c: Generators.Config, born: nat, n: nat, a: nat)
    requires Generators.Create(c, born).Some?
    ensures RateLoop.LeftAlone(c, RateLoop.Start(Generators.Create(c, born).value, n, a))
  {
    Profiles.CreateRealizes(c, born);
    Profiles.ActivateRealizes(c, Generators.Create(c, born).value, a);
    hide Generators.Create, Profiles.Realizes, Generators.ActivateAt;
  }
}
