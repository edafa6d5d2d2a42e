/** `SuspendableGenerator` (dwd-core/src/generator.rs): a profile that can be paused,
    resumed and overridden by a manual value. Pausing erases time: seen from the profile,
    the paused stretches never happened. */
module Suspension {
  import opened Common
  import opened Generators
  import opened Profiles

  datatype Wrapper = Wrapper(g: Gen, suspendedAt: Option<nat>, suspendedDuration: nat, value: Option<u64>)

  function NewWrapper(g: Gen): Wrapper { Wrapper(g, None, 0, None) }

  function Suspend(w: Wrapper, now: nat): Wrapper {
    if w.suspendedAt.Some? then w else w.(value := None, suspendedAt := Some(now))
  }

  function Resume(w: Wrapper, now: nat): Wrapper {
    if w.suspendedAt.None? then w
    else w.(suspendedAt := None, value := None,
            suspendedDuration := w.suspendedDuration + Elapsed(now, w.suspendedAt.value))
  }

  function Assign(w: Wrapper, value: Option<u64>, now: nat): Wrapper {
    (if value.Some? then Suspend(w, now) else Resume(w, now)).(value := value)
  }

  /** The subtraction from `now` never goes below zero in a run: see `NoUnderflow`. */
  function Current(w: Wrapper, now: nat): (Wrapper, Option<u64>) {
    if w.suspendedAt.Some? then (w, if w.value.Some? then w.value else Some(0))
    else
      var r := Poll(w.g, Elapsed(now, w.suspendedDuration));
      (w.(g := r.gen), r.rps)
  }

  class SuspendableGenerator {
    var g: Gen
    var suspendedAt: Option<nat>
    var suspendedDuration: nat
    var value: Option<u64>

    ghost function State(): Wrapper
      reads this
    {
      Wrapper(g, suspendedAt, suspendedDuration, value)
    }

    constructor (g: Gen)
      ensures State() == NewWrapper(g)
    {
      this.g, suspendedAt, suspendedDuration, value := g, None, 0, None;
    }

    method Activate(now: nat)
      modifies this
      ensures State() == old(State()).(g := ActivateAt(old(g), now))
    {
      g := ActivateAt(g, now);
    }

    method SuspendNow(now: nat)
      modifies this
      ensures State() == Suspend(old(State()), now)
    {
      if suspendedAt.Some? {
        return;
      }
      value := None;
      suspendedAt := Some(now);
    }

    method ResumeNow(now: nat)
      modifies this
      ensures State() == Resume(old(State()), now)
    {
      if suspendedAt.Some? {
        var prev := suspendedAt.value;
        suspendedAt := None;
        value := None;
        suspendedDuration := suspendedDuration + Elapsed(now, prev);
      }
    }

    method SetValue(v: Option<u64>, now: nat)
      modifies this
      ensures State() == Assign(old(State()), v, now)
    {
      if v.Some? {
        SuspendNow(now);
      } else {
        ResumeNow(now);
      }
      value := v;
    }

    method CurrentAt(now: nat) returns (out: Option<u64>)
      modifies this
      ensures (State(), out) == Current(old(State()), now)
    {
      if suspendedAt.Some? {
        out := if value.Some? then value else Some(0);
      } else {
        g, out := Profiles.CurrentAt(g, Elapsed(now, suspendedDuration));
      }
    }
  }

  // --- Runs -----------------------------------------------------------------------

  datatype Op = DoSuspend | DoResume | DoSet(value: Option<u64>) | DoPoll

  datatype Timed = Timed(at: nat, op: Op)

  ghost function Apply(w: Wrapper, e: Timed): Wrapper {
    match e.op
    case DoSuspend => Suspend(w, e.at)
    case DoResume => Resume(w, e.at)
    case DoSet(v) => Assign(w, v, e.at)
    case DoPoll => Current(w, e.at).0
  }

  ghost function WrapperAfter(w: Wrapper, ops: seq<Timed>): Wrapper {
    if ops == [] then w else Apply(WrapperAfter(w, ops[..|ops| - 1]), ops[|ops| - 1])
  }

  ghost predicate OpClock(ops: seq<Timed>, a: nat) {
    && (forall i :: 0 <= i < |ops| ==> a <= ops[i].at)
    && forall i, j :: 0 <= i < j < |ops| ==> ops[i].at <= ops[j].at
  }

  // What a history of operations means, without looking at the wrapper's fields.

  /** Paused by the last operation that was not a poll. */
  ghost predicate Paused(ops: seq<Timed>) {
    ops != [] &&
    match ops[|ops| - 1].op
    case DoSuspend => true
    case DoResume => false
    case DoSet(v) => v.Some?
    case DoPoll => Paused(ops[..|ops| - 1])
  }

  /** The value set last, unless the profile was resumed since. Suspending keeps it. */
  ghost function Manual(ops: seq<Timed>): Option<u64> {
    if ops == [] then None
    else
      match ops[|ops| - 1].op
      case DoResume => None
      case DoSet(v) => v
      case _ => Manual(ops[..|ops| - 1])
  }

  /** Total time spent paused up to `t`. */
  ghost function PausedTime(ops: seq<Timed>, t: nat): nat {
    if ops == [] then 0
    else
      var last := ops[|ops| - 1].at;
      PausedTime(ops[..|ops| - 1], last) + if Paused(ops) then Elapsed(t, last) else 0
  }

  ghost function VirtualTime(ops: seq<Timed>, t: nat): nat { Elapsed(t, PausedTime(ops, t)) }

  /** The instants, on the profile's own clock, of the polls that reached the profile. */
  ghost function ProfilePolls(ops: seq<Timed>): seq<nat> {
    if ops == [] then []
    else
      var before, e := ops[..|ops| - 1], ops[|ops| - 1];
      ProfilePolls(before) + if e.op == DoPoll && !Paused(before) then [VirtualTime(before, e.at)] else []
  }

  /** The wrapper's fields after any history, and the profile inside it: exactly the
      bare profile polled at the virtual instants. */
  ghost predicate Erased(g: Gen, w: Wrapper, ops: seq<Timed>, t: nat) {
    && (w.suspendedAt.Some? <==> Paused(ops))
    && w.value == Manual(ops)
    && (Manual(ops).Some? ==> Paused(ops))
    && (w.suspendedAt.Some? ==> w.suspendedAt.value <= t)
    && PausedTime(ops, t) == w.suspendedDuration + (if w.suspendedAt.Some? then t - w.suspendedAt.value else 0)
    && w.g == After(g, ProfilePolls(ops))
  }

  ghost function LastAt(ops: seq<Timed>, a: nat): nat { if ops == [] then a else ops[|ops| - 1].at }

  lemma {:induction false} TimeErasure(g: Gen, a: nat, ops: seq<Timed>, t: nat)
    requires OpClock(ops, a) && LastAt(ops, a) <= t
    ensures Erased(g, WrapperAfter(NewWrapper(g), ops), ops, t)
    decreases |ops|
  {
    if ops != [] {
      var n := |ops| - 1;
      var before, e := ops[..n], ops[n];
      TimeErasure(g, a, before, e.at);
      ErasureStep(g, WrapperAfter(NewWrapper(g), before), before, e, ops, t);
    }
  }

  lemma ErasureStep(g: Gen, w: Wrapper, before: seq<Timed>, e: Timed, ops: seq<Timed>, t: nat)
    requires ops != [] && before == ops[..|ops| - 1] && e == ops[|ops| - 1]
    requires Erased(g, w, before, e.at) && e.at <= t
    ensures Erased(g, Apply(w, e), ops, t)
  {
    if e.op == DoPoll && !Paused(before) {
      var polls := ProfilePolls(before);
      assert (polls + [VirtualTime(before, e.at)])[..|polls|] == polls;
    } else {
      assert ProfilePolls(before) + [] == ProfilePolls(before);
    }
  }

  /** Paused time never exceeds the time since the start, so no subtraction underflows. */
  lemma {:induction false} NoUnderflow(a: nat, ops: seq<Timed>, t: nat)
    requires OpClock(ops, a) && LastAt(ops, a) <= t
    ensures a + PausedTime(ops, t) <= t
    decreases |ops|
  {
    if ops != [] {
      var n := |ops| - 1;
      NoUnderflow(a, ops[..n], ops[n].at);
    }
  }

  /** The profile's clock only moves forward, and stands still exactly while paused. */
  lemma VirtualClockStep(a: nat, ops: seq<Timed>, t1: nat, t2: nat)
    requires OpClock(ops, a) && LastAt(ops, a) <= t1 <= t2
    ensures VirtualTime(ops, t2) - VirtualTime(ops, t1) == if Paused(ops) then 0 else t2 - t1
  {
    NoUnderflow(a, ops, t1);
    NoUnderflow(a, ops, t2);
  }

  lemma {:induction false} ProfilePollsClock(a: nat, ops: seq<Timed>, t: nat)
    requires OpClock(ops, a) && LastAt(ops, a) <= t
    ensures Clock(ProfilePolls(ops) + [VirtualTime(ops, t)], a)
    decreases |ops|
  {
    NoUnderflow(a, ops, t);
    if ops != [] {
      var n := |ops| - 1;
      var before, e := ops[..n], ops[n];
      ProfilePollsClock(a, before, e.at);
      NoUnderflow(a, before, e.at);
      assert PausedTime(ops, t) == PausedTime(before, e.at) + if Paused(ops) then t - e.at else 0;
      ClockExtends(ProfilePolls(before), VirtualTime(before, e.at), VirtualTime(ops, t), a);
    }
  }

  lemma ClockExtends(polls: seq<nat>, v1: nat, v2: nat, a: nat)
    requires Clock(polls + [v1], a) && v1 <= v2
    ensures Clock(polls + [v2], a) && Clock(polls + [v1] + [v2], a) && polls + [] == polls
  {
    var older, newer := polls + [v1], polls + [v1] + [v2];
    assert older[|polls|] == v1;
    forall i | 0 <= i < |polls| ensures older[i] == polls[i] && a <= polls[i] <= v1 {
    }
    forall i, j | 0 <= i < j < |newer| ensures newer[i] <= newer[j] {
      assert newer[i] == older[i];
      if j < |older| {
        assert newer[j] == older[j];
      }
    }
    forall i | 0 <= i < |newer| ensures a <= newer[i] {
      if i < |older| {
        assert newer[i] == older[i];
      }
    }
  }

  /** What the last poll of a history returns. */
  ghost function LastReading(g: Gen, ops: seq<Timed>): Option<u64>
    requires ops != []
  {
    Current(WrapperAfter(NewWrapper(g), ops[..|ops| - 1]), ops[|ops| - 1].at).1
  }

  lemma ClockShortens(polls: seq<nat>, v: nat, a: nat)
    requires Clock(polls + [v], a)
    ensures Clock(polls, a)
  {
    assert forall i :: 0 <= i < |polls| ==> (polls + [v])[i] == polls[i];
  }

  /** What a poll at `t` reads, by the history before it. */
  lemma ReadingThrough(g: Gen, a: nat, before: seq<Timed>, t: nat)
    requires OpClock(before, a) && LastAt(before, a) <= t
    ensures Current(WrapperAfter(NewWrapper(g), before), t).1 ==
      if Paused(before) then Some(if Manual(before).Some? then Manual(before).value else 0)
      else Poll(After(g, ProfilePolls(before)), VirtualTime(before, t)).rps
  {
    TimeErasure(g, a, before, t);
    hide PausedTime, WrapperAfter, Poll, After, ProfilePolls, Paused, Manual;
  }

  /** A poll at the end of a history adds its virtual instant, unless paused. */
  lemma PollAdds(a: nat, ops: seq<Timed>)
    requires ops != [] && OpClock(ops, a) && ops[|ops| - 1].op == DoPoll
    ensures var before, t := ops[..|ops| - 1], ops[|ops| - 1].at;
            && Clock(ProfilePolls(ops), a) && Manual(ops) == Manual(before)
            && (!Paused(before) ==> ProfilePolls(ops) == ProfilePolls(before) + [VirtualTime(before, t)])
  {
    var t := ops[|ops| - 1].at;
    ProfilePollsClock(a, ops, t);
    hide Clock, VirtualTime;
    ClockShortens(ProfilePolls(ops), VirtualTime(ops, t), a);
  }

  /** Main result: an unpaused poll returns what the bare profile returns at the virtual
      instants, which never go back; a paused poll returns the manual value or zero. */
  lemma PausingErasesTime(g: Gen, a: nat, ops: seq<Timed>)
    requires ops != [] && OpClock(ops, a) && ops[|ops| - 1].op == DoPoll
    ensures var before := ops[..|ops| - 1];
            var polls := ProfilePolls(ops);
            && Clock(polls, a)
            && (Paused(before) ==> LastReading(g, ops) == Some(if Manual(ops).Some? then Manual(ops).value else 0))
            && (!Paused(before) ==>
                  && polls == ProfilePolls(before) + [VirtualTime(before, ops[|ops| - 1].at)]
                  && LastReading(g, ops) == ReadAt(g, polls, |polls| - 1))
  {
    var n := |ops| - 1;
    var before, t := ops[..n], ops[n].at;
    hide PausedTime, VirtualTime, WrapperAfter, Poll, After, Clock, ProfilePolls, Paused, Manual;
    PollAdds(a, ops);
    ReadingThrough(g, a, before, t);
    if !Paused(before) {
      assert ProfilePolls(ops)[..|ProfilePolls(ops)| - 1] == ProfilePolls(before);
    }
  }

  /** Suspending should bring the rate to zero. It leaves a value set by hand and not
      resumed since in force, and so does exactly when there is no such value or it is 0. */
  lemma SuspendSilences(g: Gen, a: nat, ops: seq<Timed>, t1: nat, t2: nat)
    requires OpClock(ops, a) && LastAt(ops, a) <= t1 <= t2 && a <= t1
    ensures LastReading(g, ops + [Timed(t1, DoSuspend)] + [Timed(t2, DoPoll)]) == Some(0) <==>
            Manual(ops) in {None, Some(0)}
  {
    var suspended := ops + [Timed(t1, DoSuspend)];
    var all := suspended + [Timed(t2, DoPoll)];
    assert all[..|all| - 1] == suspended && suspended[..|suspended| - 1] == ops;
    assert OpClock(all, a);
    PausingErasesTime(g, a, all);
    assert Paused(suspended) && Manual(all) == Manual(suspended) == Manual(ops);
    hide LastReading, ProfilePolls;
  }

  /** Set to 5, then suspended: still 5. */
  lemma SuspendAfterSet(g: Gen)
    ensures LastReading(g, [Timed(0, DoSet(Some(5))), Timed(1, DoSuspend), Timed(2, DoPoll)]) == Some(5)
  {
    var byHand, suspended := [Timed(0, DoSet(Some(5)))], [Timed(0, DoSet(Some(5))), Timed(1, DoSuspend)];
    var all := suspended + [Timed(2, DoPoll)];
    assert all == [Timed(0, DoSet(Some(5))), Timed(1, DoSuspend), Timed(2, DoPoll)];
    assert all[..2] == suspended && suspended[..1] == byHand && byHand[..0] == [];
    PausingErasesTime(g, 0, all);
    assert Manual(byHand) == Some(5) && Manual(suspended) == Some(5) && Manual(all) == Some(5);
    hide LastReading, ProfilePolls;
  }

  /** A paused run is longer by exactly the time it was paused: exhaustion is seen no
      earlier than duration plus paused time after the start, and a value no later than
      that plus the drift of an unpaused run. */
  lemma PausedProfileLength(c: Config, born: nat, a: nat, ops: seq<Timed>, gap: nat)
    requires Create(c, born).Some? && ops != [] && OpClock(ops, a)
    requires ops[|ops| - 1].op == DoPoll && !Paused(ops[..|ops| - 1])
    ensures var g := ActivateAt(Create(c, born).value, a);
            var t := ops[|ops| - 1].at;
            var paused := PausedTime(ops[..|ops| - 1], t);
            var polls := ProfilePolls(ops);
            && (LastReading(g, ops).None? ==> t >= a + Duration(c) + paused)
            && (LastReading(g, ops).Some? && Paced(polls, a, gap) ==>
                  t + gap <= polls[0] + Duration(c) + gap * Chain(c) + paused)
  {
    var g := ActivateAt(Create(c, born).value, a);
    PausingErasesTime(g, a, ops);
    var polls := ProfilePolls(ops);
    NoUnderflow(a, ops[..|ops| - 1], ops[|ops| - 1].at);
    ProfileLength(c, born, a, polls, gap, |polls| - 1);
  }
}
