/** When the rate loop ends at the latest. The loop polls at least every `gap`, but a pause
    hides polls from the profile: seen from the profile, the stretch before the pause and
    the one after it make a single gap, so its polls come up to twice that far apart. */
module LoopTiming {
  import opened Generators
  import opened Profiles
  import opened Suspension
  import opened RateLoop

  /** Turns poll at most `gap` apart, the first at most `gap` after the start. */
  ghost predicate LoopPaced(ticks: seq<Tick>, a: nat, gap: nat) {
    && (ticks != [] ==> ticks[0].pollAt <= a + gap)
    && forall i, j :: 0 <= i < |ticks| && j == i + 1 && j < |ticks| ==> ticks[j].pollAt <= ticks[i].pollAt + gap
  }

  ghost function LastPolled(polls: seq<nat>, a: nat): nat { if polls == [] then a else polls[|polls| - 1] }

  /** Time on the profile's clock since it was polled last. */
  ghost function Unpolled(ops: seq<Timed>, a: nat, t: nat): int {
    VirtualTime(ops, t) - LastPolled(ProfilePolls(ops), a)
  }

  /** At `t`, with the latest turn's poll at `p`: the profile's polls so far are paced, and
      at most `gap` is owed from before a pause. */
  ghost predicate Attended(ops: seq<Timed>, a: nat, p: nat, t: nat, gap: nat) {
    && EndsBy(ops, a, t) && a <= p <= t
    && Paced(ProfilePolls(ops), a, 2 * gap)
    && Unpolled(ops, a, t) <= if Paused(ops) then gap else gap + (t - p)
  }

  /** Right after a poll nothing is owed by an unpaused profile. */
  ghost predicate JustPolled(ops: seq<Timed>, a: nat, p: nat, gap: nat) {
    Attended(ops, a, p, p, gap) && (!Paused(ops) ==> Unpolled(ops, a, p) == 0)
  }

  lemma PacedNext(polls: seq<nat>, v: nat, a: nat, gap: nat)
    requires Paced(polls, a, gap) && v <= LastPolled(polls, a) + gap
    ensures Paced(polls + [v], a, gap)
  {
  }

  lemma Later(ops: seq<Timed>, a: nat, p: nat, t: nat, now: nat, gap: nat)
    requires Attended(ops, a, p, t, gap) && t <= now
    ensures Attended(ops, a, p, now, gap)
  {
    VirtualClockStep(a, ops, t, now);
    hide VirtualTime, ProfilePolls, Paced;
  }

  /** Appending an operation: the clock goes on from where it stood. */
  lemma Appended(ops: seq<Timed>, e: Timed, a: nat)
    requires EndsBy(ops, a, e.at) && a <= e.at
    ensures EndsBy(ops + [e], a, e.at)
    ensures VirtualTime(ops + [e], e.at) == VirtualTime(ops, e.at)
    ensures Paused(ops + [e]) ==
      match e.op case DoSuspend => true case DoResume => false case DoSet(v) => v.Some? case DoPoll => Paused(ops)
    ensures ProfilePolls(ops + [e])
         == ProfilePolls(ops) + if e.op == DoPoll && !Paused(ops) then [VirtualTime(ops, e.at)] else []
  {
    assert (ops + [e])[..|ops|] == ops;
  }

  lemma PollAttended(ops: seq<Timed>, a: nat, p: nat, now: nat, gap: nat)
    requires Attended(ops, a, p, now, gap) && now <= p + gap
    ensures JustPolled(ops + [Timed(now, DoPoll)], a, now, gap)
  {
    Appended(ops, Timed(now, DoPoll), a);
    var polls := ProfilePolls(ops);
    if !Paused(ops) {
      PacedNext(polls, VirtualTime(ops, now), a, 2 * gap);
    } else {
      assert polls + [] == polls;
    }
    hide VirtualTime, ProfilePolls, Paced, EndsBy, Paused;
  }

  lemma EventAttended(ops: seq<Timed>, a: nat, p: nat, e: Timed, gap: nat)
    requires JustPolled(ops, a, p, gap) && p <= e.at <= p + gap && e.op != DoPoll
    ensures Attended(ops + [e], a, p, e.at, gap)
  {
    VirtualClockStep(a, ops, p, e.at);
    assert EndsBy(ops, a, e.at);
    Appended(ops, e, a);
    assert ProfilePolls(ops) + [] == ProfilePolls(ops);
    hide VirtualTime, ProfilePolls, Paced, EndsBy, Paused;
  }

  /** One turn that does not leave the loop. */
  lemma TurnAttended(ops: seq<Timed>, s: Loop, t: Tick, a: nat, p: nat, gap: nat)
    requires |s.limits| > 0 && Attended(ops, a, p, t.pollAt, gap)
    requires t.pollAt <= p + gap && t.pollAt <= t.eventAt <= t.pollAt + gap
    requires !Turn(s, t).exited
    ensures Attended(ops + TurnOps(s, t), a, t.pollAt, t.eventAt, gap)
  {
    hide Attended, JustPolled, Current;
    var poll := Timed(t.pollAt, DoPoll);
    PollAttended(ops, a, p, t.pollAt, gap);
    var more := TurnOps(s, t);
    assert more[0] == poll;
    if |more| == 2 {
      assert ops + more == ops + [poll] + [more[1]];
      EventAttended(ops + [poll], a, t.pollAt, more[1], gap);
    } else {
      assert more == [poll];
      Polled(ops + [poll], a, t.pollAt, gap);
      Later(ops + [poll], a, t.pollAt, t.pollAt, t.eventAt, gap);
    }
  }

  lemma Polled(ops: seq<Timed>, a: nat, p: nat, gap: nat)
    requires JustPolled(ops, a, p, gap)
    ensures Attended(ops, a, p, p, gap)
  {
  }

  ghost function PolledAt(ticks: seq<Tick>, k: nat, a: nat): nat
    requires k <= |ticks|
  {
    if k == 0 then a else ticks[k - 1].pollAt
  }

  /** Before turn `k`, unless the loop has ended, the profile has been attended. */
  lemma {:induction false} LoopAttended(s: Loop, ticks: seq<Tick>, k: nat, a: nat, gap: nat)
    requires |s.limits| > 0 && k < |ticks| && TickClock(ticks, a) && LoopPaced(ticks, a, gap)
    ensures !RunLoop(s, ticks[..k]).exited ==>
              Attended(LoopOps(s, ticks[..k]), a, PolledAt(ticks, k, a), ticks[k].pollAt, gap)
    decreases k
  {
    if k == 0 {
      assert ticks[..0] == [];
    } else {
      var n := k - 1;
      assert ticks[..k][..n] == ticks[..n];
      LoopAttended(s, ticks, n, a, gap);
      var before, t := RunLoop(s, ticks[..n]), ticks[n];
      assert ticks[k].pollAt <= t.pollAt + gap && t.eventAt <= ticks[k].pollAt;
      assert t.pollAt <= PolledAt(ticks, n, a) + gap;
      hide Attended, LoopPaced, TickClock;
      if !RunLoop(s, ticks[..k]).exited {
        TurnAttended(LoopOps(s, ticks[..n]), Arrivals(before, t), t, a, PolledAt(ticks, n, a), gap);
        Later(LoopOps(s, ticks[..k]), a, t.pollAt, t.eventAt, ticks[k].pollAt, gap);
      }
    }
  }

  /** A poll that still has a value comes within the duration, the pauses and the drift. */
  lemma LatestValue(c: Config, born: nat, a: nat, ops: seq<Timed>, p: nat, t: nat, gap: nat)
    requires Create(c, born).Some? && Attended(ops, a, p, t, gap) && t <= p + gap && !Paused(ops)
    ensures var g := ActivateAt(Create(c, born).value, a);
            Current(WrapperAfter(NewWrapper(g), ops), t).1.Some? ==>
              t <= a + Duration(c) + 2 * gap * Chain(c) + PausedTime(ops, t)
  {
    var g := ActivateAt(Create(c, born).value, a);
    var poll := Timed(t, DoPoll);
    var all := ops + [poll];
    assert all[..|all| - 1] == ops && all[|all| - 1] == poll;
    PollAttended(ops, a, p, t, gap);
    Appended(ops, poll, a);
    var polls := ProfilePolls(all);
    assert polls != [] && Paced(polls, a, 2 * gap) && OpClock(all, a);
    hide WrapperAfter, PausedTime, ProfilePolls, Paused, Create, ActivateAt, Duration, Poll;
    PausedProfileLength(c, born, a, all, 2 * gap);
  }

  /** Main result, the partner of `NoEarlyExit`: with turns at most `gap` apart, a turn that
      finds the profile unpaused later than duration, pauses and two gaps per leaf of the
      longest chain leaves the loop. */
  lemma NoLateExit(c: Config, born: nat, a: nat, n: nat, ticks: seq<Tick>, t: Tick, gap: nat)
    requires Create(c, born).Some? && n > 0
    requires TickClock(ticks + [t], a) && LoopPaced(ticks + [t], a, gap)
    ensures var s := Start(Create(c, born).value, n, a);
            var ops := LoopOps(s, ticks);
            !Paused(ops) && t.pollAt > a + Duration(c) + 2 * gap * Chain(c) + PausedTime(ops, t.pollAt) ==>
              Step(RunLoop(s, ticks), t).exited
  {
    var s := Start(Create(c, born).value, n, a);
    var all, k := ticks + [t], |ticks|;
    assert all[..k] == ticks && all[k] == t;
    assert t.pollAt <= PolledAt(all, k, a) + gap;
    LoopAttended(s, all, k, a, gap);
    LoopDrivesWrapper(s, ticks);
    hide LoopOps, TickClock, LoopPaced, Create, ActivateAt, Duration, Attended, Paused, Chain;
    var r, ops := RunLoop(s, ticks), LoopOps(s, ticks);
    if !r.exited && !Paused(ops) {
      LatestValue(c, born, a, ops, PolledAt(all, k, a), t.pollAt, gap);
    }
  }

  /** A paused loop ends only when it is stopped, whatever its profile. */
  lemma PausedStays(g: Gen, s: Loop, a: nat, ticks: seq<Tick>, t: Tick)
    requires |s.limits| > 0 && s.profile == NewWrapper(g) && TickClock(ticks + [t], a)
    ensures var r := RunLoop(s, ticks);
            Paused(LoopOps(s, ticks)) && !r.exited && r.running && !t.stop ==> !Step(r, t).exited
  {
    hide RunLoop, LoopOps, Paused, WrapperAfter, Current;
    var all := ticks + [t];
    assert all[|ticks|] == t && forall i :: 0 <= i < |ticks| ==> all[i] == ticks[i];
    LoopOpsClock(s, ticks, a);
    LoopDrivesWrapper(s, ticks);
    if Paused(LoopOps(s, ticks)) {
      PausedReads(g, a, LoopOps(s, ticks), t.pollAt);
    }
  }

  lemma PausedReads(g: Gen, a: nat, ops: seq<Timed>, t: nat)
    requires OpClock(ops, a) && LastAt(ops, a) <= t && Paused(ops)
    ensures Current(WrapperAfter(NewWrapper(g), ops), t).1.Some?
  {
    TimeErasure(g, a, ops, t);
    hide WrapperAfter, Paused, ProfilePolls, PausedTime;
  }

  // --- Why the turns matter -----------------------------------------------------------

  /** Polls once a nanosecond, each falling into a pause of its own. */
  ghost function Flicker(n: nat): seq<Timed> {
    if n == 0 then [] else Flicker(n - 1) + [Timed(n - 1, DoResume)] + [Timed(n, DoSuspend)] + [Timed(n, DoPoll)]
  }

  /** Poll gaps alone bound nothing: a history with a poll every nanosecond can keep all of
      them from the profile for as long as it likes while the profile's clock runs. At most
      one event per turn is what rules this out for the loop. */
  lemma {:induction false} PollsCanBeHidden(n: nat)
    ensures EndsBy(Flicker(n), 0, n)
    ensures ProfilePolls(Flicker(n)) == [] && VirtualTime(Flicker(n), n) == n
    ensures n > 0 ==> Paused(Flicker(n))
  {
    if n > 0 {
      hide VirtualTime, ProfilePolls, Paused, EndsBy;
      PollsCanBeHidden(n - 1);
      FlickerOnce(Flicker(n - 1), n);
    }
  }

  lemma FlickerOnce(ops: seq<Timed>, n: nat)
    requires n > 0 && EndsBy(ops, 0, n - 1)
    requires ProfilePolls(ops) == [] && VirtualTime(ops, n - 1) == n - 1
    ensures var all := ops + [Timed(n - 1, DoResume)] + [Timed(n, DoSuspend)] + [Timed(n, DoPoll)];
            EndsBy(all, 0, n) && ProfilePolls(all) == [] && VirtualTime(all, n) == n && Paused(all)
  {
    hide VirtualTime, ProfilePolls, Paused;
    var resumed := ops + [Timed(n - 1, DoResume)];
    var paused := resumed + [Timed(n, DoSuspend)];
    Appended(ops, Timed(n - 1, DoResume), 0);
    VirtualClockStep(0, resumed, n - 1, n);
    assert EndsBy(resumed, 0, n);
    hide EndsBy;
    Appended(resumed, Timed(n, DoSuspend), 0);
    Appended(paused, Timed(n, DoPoll), 0);
  }
}
