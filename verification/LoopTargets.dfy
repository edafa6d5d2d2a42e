/** What the rate loop stores, from the configuration and the history alone. */
module LoopTargets {
  import opened Common
  import opened Generators
  import opened Profiles
  import opened ProfileMeaning
  import opened Suspension
  import opened RateLoop
  import opened RoundRobin

  /** The target at `t` after the history `ops`: a paused profile gives the value set by
      hand or zero, any other what its configuration means at the virtual instants. */
  ghost function Target(c: Config, a: nat, ops: seq<Timed>, t: nat): Option<int> {
    if Paused(ops) then Some(if Manual(ops).Some? then Manual(ops).value else 0)
    else Meaning(c, a, ProfilePolls(ops) + [VirtualTime(ops, t)])
  }

  lemma WrapperReadsTarget(c: Config, born: nat, a: nat, ops: seq<Timed>, t: nat)
    requires Create(c, born).Some? && OpClock(ops, a) && LastAt(ops, a) <= t
    ensures var g := ActivateAt(Create(c, born).value, a);
            Current(WrapperAfter(NewWrapper(g), ops), t).1 == Target(c, a, ops, t)
  {
    hide Create, WrapperAfter, Current, Poll, Meaning, ActivateAt, After, VirtualTime, Paused, Manual, ProfilePolls, OpClock, Clock, LastAt;
    var g := ActivateAt(Create(c, born).value, a);
    ReadingThrough(g, a, ops, t);
    if !Paused(ops) {
      ProfilePollsClock(a, ops, t);
      var polls := ProfilePolls(ops);
      var all := polls + [VirtualTime(ops, t)];
      PollsMean(c, born, a, all, |polls|);
      assert all[..|polls| + 1] == all && all[..|polls|] == polls;
    }
  }

  /** What one turn does with the value it polled. */
  lemma TurnStores(s: Loop, t: Tick)
    requires |s.limits| > 0
    ensures var v := Current(s.profile, t.pollAt).1;
            var r := Step(s, t);
            && (!r.exited ==> v == Some(r.mirror) && r.limits == Shares(r.mirror, |r.limits|))
            && (!s.exited && s.running && !t.stop ==> (r.exited <==> v.None?))
  {
    hide Current, Offer, Shares, ApplyEvent;
  }

  /** Main result: every turn that does not leave the loop stores the shares of exactly the
      target, for any profile, any pauses and any values set by hand; a running loop that
      was not stopped leaves exactly when there is no target. */
  lemma TurnTarget(c: Config, born: nat, a: nat, n: nat, ticks: seq<Tick>, t: Tick)
    requires Create(c, born).Some? && n > 0
    ensures var s := Start(Create(c, born).value, n, a);
            var r, target := RunLoop(s, ticks), Target(c, a, LoopOps(s, ticks), t.pollAt);
            TickClock(ticks + [t], a) ==>
              && (!Step(r, t).exited ==>
                    target == Some(Step(r, t).mirror) && Step(r, t).limits == Shares(Step(r, t).mirror, n))
              && (!r.exited && r.running && !t.stop ==> (Step(r, t).exited <==> target.None?))
  {
    hide *;
    var g := Create(c, born).value;
    var s := Start(g, n, a);
    StartState(g, n, a);
    var ops := LoopOps(s, ticks);
    if TickClock(ticks + [t], a) {
      LastTurn(ticks, t, a);
      LoopOpsClock(s, ticks, a);
      EndsByLater(ops, a, if ticks == [] then a else ticks[|ticks| - 1].eventAt, t.pollAt);
      EndsByClock(ops, a, t.pollAt);
      LoopDrivesWrapper(s, ticks);
      WrapperReadsTarget(c, born, a, ops, t.pollAt);
      TurnStores(RunLoop(s, ticks), t);
    }
  }

  lemma EndsByClock(ops: seq<Timed>, a: nat, t: nat)
    requires EndsBy(ops, a, t) && a <= t
    ensures OpClock(ops, a) && LastAt(ops, a) <= t
  {
  }
}
