/** The shared rate-control loop (dwd-core/src/engine.rs `run_generator`), with the
    one-slot control channel in front of it (dwd-core/src/grpc/server.rs). */
module RateLoop {
  import opened Common
  import opened Generators
  import opened Profiles
  import opened Suspension
  import opened RoundRobin

  datatype GeneratorEvent = SuspendEvent | ResumeEvent | SetEvent(rps: u64)

  const CHANNEL_CAPACITY: nat := 1

  /** What happens around one turn: control events offered by API callers and a possible
      stop before it, the clock when the profile is polled, and when an event is applied. */
  datatype Tick = Tick(offered: seq<GeneratorEvent>, stop: bool, pollAt: nat, eventAt: nat)

  datatype Loop = Loop(
    profile: Wrapper,
    limits: seq<nat>,
    mirror: nat,
    queue: seq<GeneratorEvent>,
    running: bool,
    exited: bool,
    applied: seq<GeneratorEvent>)

  function ApplyEvent(w: Wrapper, e: GeneratorEvent, now: nat): Wrapper {
    match e
    case SuspendEvent => Suspend(w, now)
    case ResumeEvent => Resume(w, now)
    case SetEvent(rps) => Assign(w, Some(rps), now)
  }

  /** `try_send` for each event in turn: a full channel drops the newcomer. */
  function Offer(queue: seq<GeneratorEvent>, offered: seq<GeneratorEvent>): seq<GeneratorEvent> {
    if offered == [] then queue
    else
      var q := Offer(queue, offered[..|offered| - 1]);
      if |q| < CHANNEL_CAPACITY then q + [offered[|offered| - 1]] else q
  }

  function Arrivals(s: Loop, t: Tick): Loop {
    s.(queue := Offer(s.queue, t.offered), running := s.running && !t.stop)
  }

  /** One turn of the loop body. */
  function Turn(s: Loop, t: Tick): Loop
    requires |s.limits| > 0
  {
    if s.exited then s
    else
      var (w, v) := Current(s.profile, t.pollAt);
      if v.None? || !s.running then s.(profile := w, running := false, exited := true)
      else
        var paced := s.(profile := w, limits := Shares(v.value, |s.limits|), mirror := v.value);
        if s.queue == [] then paced
        else paced.(profile := ApplyEvent(w, s.queue[0], t.eventAt),
                    queue := s.queue[1..], applied := s.applied + [s.queue[0]])
  }

  function Step(s: Loop, t: Tick): (r: Loop)
    requires |s.limits| > 0
    ensures |r.limits| == |s.limits|
  {
    Turn(Arrivals(s, t), t)
  }

  function RunLoop(s: Loop, ticks: seq<Tick>): (r: Loop)
    requires |s.limits| > 0
    ensures |r.limits| == |s.limits|
  {
    if ticks == [] then s else Step(RunLoop(s, ticks[..|ticks| - 1]), ticks[|ticks| - 1])
  }

  function Start(g: Gen, n: nat, now: nat): Loop {
    Loop(NewWrapper(ActivateAt(g, now)), seq(n, _ => 0), 0, [], true, false, [])
  }

  // --- The loop as the code runs it -------------------------------------------------

  class RateController {
    const limits: array<nat>
    const profile: SuspendableGenerator
    var mirror: nat
    var queue: seq<GeneratorEvent>
    var running: bool
    var exited: bool
    ghost var applied: seq<GeneratorEvent>

    ghost function State(): Loop
      reads this, profile, limits
    {
      Loop(profile.State(), limits[..], mirror, queue, running, exited, applied)
    }

    constructor (g: Gen, n: nat, now: nat)
      ensures State() == Start(g, n, now) && fresh(limits) && fresh(profile)
    {
      var p := new SuspendableGenerator(g);
      p.Activate(now);
      profile := p;
      var cells := new nat[n](_ => 0);
      limits := cells;
      mirror, queue, running, exited, applied := 0, [], true, false, [];
      new;
      assert limits[..] == seq(n, _ => 0);
    }

    /** Integer division and remainder over the workers' cells. */
    method StoreLimits(v: nat)
      requires limits.Length > 0
      modifies limits
      ensures limits[..] == Shares(v, limits.Length)
    {
      var lb, ub := v / limits.Length, v % limits.Length;
      for idx := 0 to limits.Length
        invariant forall j :: 0 <= j < idx ==> limits[j] == Share(j, v, limits.Length)
      {
        limits[idx] := if idx < ub then lb + 1 else lb;
      }
    }

    method Run(ticks: seq<Tick>)
      requires limits.Length > 0
      modifies this, profile, limits
      ensures State() == RunLoop(old(State()), ticks)
    {
      ghost var start := State();
      for i := 0 to |ticks|
        invariant State() == RunLoop(start, ticks[..i])
      {
        assert ticks[..i + 1][..i] == ticks[..i];
        Deliver(ticks[i]);
        OneTurn(ticks[i]);
      }
      assert ticks[..|ticks|] == ticks;
    }

    method Deliver(t: Tick)
      modifies this
      ensures State() == Arrivals(old(State()), t)
    {
      ghost var before := queue;
      for i := 0 to |t.offered|
        invariant queue == Offer(before, t.offered[..i])
        invariant unchanged(`mirror) && unchanged(`running) && unchanged(`exited) && unchanged(`applied)
      {
        assert t.offered[..i + 1][..i] == t.offered[..i];
        if |queue| < CHANNEL_CAPACITY {
          queue := queue + [t.offered[i]];
        }
      }
      assert t.offered[..|t.offered|] == t.offered;
      running := running && !t.stop;
    }

    method OneTurn(t: Tick)
      requires limits.Length > 0
      modifies this, profile, limits
      ensures State() == Turn(old(State()), t)
    {
      if exited {
        return;
      }
      var v := profile.CurrentAt(t.pollAt);
      if v.None? || !running {
        running, exited := false, true;
        return;
      }
      if queue != [] {
        var e := queue[0];
        queue, applied := queue[1..], applied + [e];
        match e
        case SuspendEvent => profile.SuspendNow(t.eventAt);
        case ResumeEvent => profile.ResumeNow(t.eventAt);
        case SetEvent(rps) => profile.SetValue(Some(rps), t.eventAt);
      }
      StoreLimits(v.value);
      mirror := v.value;
    }
  }

  // --- Every run --------------------------------------------------------------------

  /** The limits always add up to the mirrored value and differ by at most one. */
  lemma {:induction false} LimitsFollowMirror(s: Loop, ticks: seq<Tick>)
    requires |s.limits| > 0 && s.limits == Shares(s.mirror, |s.limits|)
    ensures var r := RunLoop(s, ticks);
            && r.limits == Shares(r.mirror, |r.limits|)
            && Total(r.limits) == r.mirror
            && forall i, j :: 0 <= i < j < |r.limits| ==> r.limits[j] <= r.limits[i] <= r.limits[j] + 1
  {
    if ticks != [] {
      LimitsFollowMirror(s, ticks[..|ticks| - 1]);
    }
    var r := RunLoop(s, ticks);
    SharesTotal(r.mirror, |r.limits|);
    forall i, j | 0 <= i < j < |r.limits| ensures r.limits[j] <= r.limits[i] <= r.limits[j] + 1 {
      SharesEven(i, j, r.mirror, |r.limits|);
    }
  }

  lemma StartFollowsMirror(g: Gen, n: nat, now: nat)
    requires n > 0
    ensures var s := Start(g, n, now); s.limits == Shares(s.mirror, |s.limits|)
  {
    var s := Start(g, n, now);
    forall i | 0 <= i < n ensures Share(i, 0, n) == 0 {
      ShareWhole(i, 0, n);
    }
    assert s.limits == Shares(0, n);
  }

  /** `a` can be obtained from `b` by leaving elements out. */
  ghost predicate Subsequence<T(!new)>(a: seq<T>, b: seq<T>)
    decreases |b|
  {
    || a == []
    || (b != [] &&
        (|| Subsequence(a, b[..|b| - 1])
         || (a[|a| - 1] == b[|b| - 1] && Subsequence(a[..|a| - 1], b[..|b| - 1]))))
  }

  ghost function AllOffered(ticks: seq<Tick>): seq<GeneratorEvent> {
    if ticks == [] then [] else AllOffered(ticks[..|ticks| - 1]) + ticks[|ticks| - 1].offered
  }

  lemma {:induction false} OfferKeepsOrder(done: seq<GeneratorEvent>, queue: seq<GeneratorEvent>,
                                           past: seq<GeneratorEvent>, offered: seq<GeneratorEvent>)
    requires Subsequence(done + queue, past)
    ensures Subsequence(done + Offer(queue, offered), past + offered)
  {
    if offered == [] {
      assert past + offered == past;
    } else {
      var n := |offered| - 1;
      OfferKeepsOrder(done, queue, past, offered[..n]);
      var q := Offer(queue, offered[..n]);
      assert (past + offered)[..|past| + n] == past + offered[..n];
      assert (done + (q + [offered[n]]))[..|done| + |q|] == done + q;
    }
  }

  /** Events are applied in the order they were offered, none twice, at most one a turn.
      Never more than one waits, and none after a turn that does not leave the loop. */
  lemma {:induction false} EventsInOrder(s: Loop, ticks: seq<Tick>)
    requires |s.limits| > 0 && s.applied == [] && s.queue == []
    ensures var r := RunLoop(s, ticks);
            && Subsequence(r.applied + r.queue, AllOffered(ticks))
            && |r.queue| <= CHANNEL_CAPACITY
            && |r.applied| <= |ticks|
            && (ticks != [] ==> |r.applied| <= |RunLoop(s, ticks[..|ticks| - 1]).applied| + 1)
            && (!r.exited ==> r.queue == [])
  {
    if ticks != [] {
      var n := |ticks| - 1;
      EventsInOrder(s, ticks[..n]);
      var p := RunLoop(s, ticks[..n]);
      OfferKeepsOrder(p.applied, p.queue, AllOffered(ticks[..n]), ticks[n].offered);
      OfferFits(p.queue, ticks[n].offered);
      hide Subsequence, Turn, Offer;
      TurnTakesOne(Arrivals(p, ticks[n]), ticks[n]);
    }
  }

  /** A turn moves at most one event, the oldest, from the channel to the applied ones. */
  lemma TurnTakesOne(s: Loop, t: Tick)
    requires |s.limits| > 0
    ensures var r := Turn(s, t);
            && r.applied + r.queue == s.applied + s.queue
            && |s.applied| <= |r.applied| <= |s.applied| + 1
            && (!r.exited ==> r.queue == if s.queue == [] then [] else s.queue[1..])
  {
    hide Current, Share;
    if s.queue != [] {
      assert s.applied + [s.queue[0]] + s.queue[1..] == s.applied + s.queue;
    }
  }

  lemma {:induction false} OfferFits(queue: seq<GeneratorEvent>, offered: seq<GeneratorEvent>)
    requires |queue| <= CHANNEL_CAPACITY
    ensures |queue| <= |Offer(queue, offered)| <= CHANNEL_CAPACITY
    ensures Offer(queue, offered)[..|queue|] == queue
    ensures queue == [] && offered != [] ==> Offer(queue, offered) == [offered[0]]
    ensures queue != [] ==> Offer(queue, offered) == queue
  {
    if offered != [] {
      OfferFits(queue, offered[..|offered| - 1]);
    }
  }

  /** The newest event should be the one left waiting. It is exactly when it equals the
      event that was there first. */
  lemma NewestWaits(queue: seq<GeneratorEvent>, offered: seq<GeneratorEvent>)
    requires |queue| <= CHANNEL_CAPACITY && offered != []
    ensures Offer(queue, offered) == [offered[|offered| - 1]] <==>
            offered[|offered| - 1] == (queue + offered)[0]
  {
    OfferFits(queue, offered);
    hide Offer;
  }

  /** A resume offered while a suspend waits is lost. */
  lemma ResumeLost()
    ensures Offer([SuspendEvent], [ResumeEvent]) == [SuspendEvent]
  {
    OfferFits([SuspendEvent], [ResumeEvent]);
  }

  /** Once stopped, a run stays stopped and no later turn writes the limits. */
  lemma {:induction false} StoppedForGood(s: Loop, ticks: seq<Tick>)
    requires |s.limits| > 0 && !s.running
    ensures var r := RunLoop(s, ticks);
            && !r.running
            && r.limits == s.limits && r.mirror == s.mirror && r.applied == s.applied
            && (ticks != [] ==> r.exited)
  {
    if ticks != [] {
      StoppedForGood(s, ticks[..|ticks| - 1]);
    }
  }

  /** The run flag is down exactly when the loop has ended, and a stop ends it at once. */
  lemma {:induction false} RunFlag(s: Loop, ticks: seq<Tick>)
    requires |s.limits| > 0 && s.running == !s.exited
    ensures var r := RunLoop(s, ticks);
            && r.running == !r.exited
            && (r.running ==> forall i :: 0 <= i < |ticks| ==> !ticks[i].stop)
  {
    if ticks != [] {
      RunFlag(s, ticks[..|ticks| - 1]);
      hide Current, Offer, Shares, ApplyEvent;
    }
  }

  // --- Which targets can occur ------------------------------------------------------

  ghost predicate Allowed(v: Option<u64>, ok: nat -> bool) { v.Some? ==> ok(v.value) }

  ghost predicate EventsAllowed(events: seq<GeneratorEvent>, ok: nat -> bool) {
    forall e | e in events :: e.SetEvent? ==> ok(e.rps)
  }

  /** The profile only ever reads allowed values, and so does a paused one. */
  ghost predicate ReadsAllowed(c: Config, ok: nat -> bool) {
    ok(0) && forall g: Gen, now: nat :: Realizes(c, g) ==> Allowed(Poll(g, now).rps, ok)
  }

  ghost predicate OnTarget(c: Config, s: Loop, ok: nat -> bool) {
    && Realizes(c, s.profile.g)
    && Allowed(s.profile.value, ok)
    && EventsAllowed(s.queue, ok)
    && ok(s.mirror)
  }

  lemma StepOnTarget(c: Config, s: Loop, t: Tick, ok: nat -> bool)
    requires |s.limits| > 0 && ReadsAllowed(c, ok) && OnTarget(c, s, ok) && EventsAllowed(t.offered, ok)
    ensures OnTarget(c, Step(s, t), ok)
  {
    hide Poll, Realizes, Peak, Share, Shares, Offer;
    OfferAllowed(s.queue, t.offered, ok);
    if s.profile.suspendedAt.None? {
      PollBelowPeak(c, s.profile.g, Elapsed(t.pollAt, s.profile.suspendedDuration));
    }
  }

  lemma {:induction false} OfferAllowed(queue: seq<GeneratorEvent>, offered: seq<GeneratorEvent>, ok: nat -> bool)
    requires EventsAllowed(queue, ok) && EventsAllowed(offered, ok)
    ensures EventsAllowed(Offer(queue, offered), ok)
  {
    if offered != [] {
      OfferAllowed(queue, offered[..|offered| - 1], ok);
    }
  }

  /** What holds of zero, of every reading of the profile and of every value set by hand
      holds of every target. */
  lemma {:induction false} TargetsAllowed(c: Config, s: Loop, ticks: seq<Tick>, ok: nat -> bool)
    requires |s.limits| > 0 && ReadsAllowed(c, ok)
    ensures OnTarget(c, s, ok) && EventsAllowed(AllOffered(ticks), ok) ==> OnTarget(c, RunLoop(s, ticks), ok)
  {
    if ticks != [] && OnTarget(c, s, ok) && EventsAllowed(AllOffered(ticks), ok) {
      var n := |ticks| - 1;
      assert EventsAllowed(AllOffered(ticks[..n]), ok) && EventsAllowed(ticks[n].offered, ok);
      hide EventsAllowed, OnTarget, Step, ReadsAllowed;
      TargetsAllowed(c, s, ticks[..n], ok);
      StepOnTarget(c, RunLoop(s, ticks[..n]), ticks[n], ok);
    }
  }

  ghost function UpTo(top: nat): nat -> bool { (v: nat) => v <= top }

  ghost function Either(a: nat, b: nat): nat -> bool { (v: nat) => v == a || v == b }

  lemma StartOnTarget(c: Config, born: nat, n: nat, a: nat, ok: nat -> bool)
    requires Create(c, born).Some? && n > 0
    ensures ok(0) ==> OnTarget(c, Start(Create(c, born).value, n, a), ok)
  {
    CreateRealizes(c, born);
    ActivateRealizes(c, Create(c, born).value, a);
  }

  /** No target exceeds both the profile's peak and every value set by hand. */
  lemma TargetsBounded(c: Config, born: nat, n: nat, a: nat, ticks: seq<Tick>, top: nat)
    requires Create(c, born).Some? && n > 0 && Peak(c) <= top
    ensures EventsAllowed(AllOffered(ticks), UpTo(top)) ==>
              RunLoop(Start(Create(c, born).value, n, a), ticks).mirror <= top
  {
    forall g: Gen, now: nat | Realizes(c, g) ensures Allowed(Poll(g, now).rps, UpTo(top)) {
      PollBelowPeak(c, g, now);
    }
    hide Realizes, Poll, Create, Start, RunLoop;
    StartOnTarget(c, born, n, a, UpTo(top));
    TargetsAllowed(c, Start(Create(c, born).value, n, a), ticks, UpTo(top));
  }

  /** Under a constant profile with no other value set by hand the target is the constant,
      or zero while paused and before the first turn. */
  lemma TargetsConstant(v: u64, secs: nat, born: nat, n: nat, a: nat, ticks: seq<Tick>)
    requires Create(ConstConfig(v, secs), born).Some? && n > 0 && EventsAllowed(AllOffered(ticks), Either(0, v))
    ensures RunLoop(Start(Create(ConstConfig(v, secs), born).value, n, a), ticks).mirror in {0, v}
  {
    var c := ConstConfig(v, secs);
    forall g: Gen, now: nat | Realizes(c, g) ensures Allowed(Poll(g, now).rps, Either(0, v)) {
      ConstReads(v, secs, g, now);
    }
    hide Realizes, Poll, Create, Start, RunLoop;
    StartOnTarget(c, born, n, a, Either(0, v));
    TargetsAllowed(c, Start(Create(c, born).value, n, a), ticks, Either(0, v));
  }

  /** Nothing offered, nothing waiting, not paused. */
  ghost predicate LeftAlone(c: Config, s: Loop) {
    Realizes(c, s.profile.g) && s.profile.suspendedAt.None? && s.queue == []
  }

  lemma StepLeftAlone(v: u64, secs: nat, s: Loop, t: Tick)
    requires |s.limits| > 0 && LeftAlone(ConstConfig(v, secs), s) && t.offered == []
    ensures LeftAlone(ConstConfig(v, secs), Step(s, t))
    ensures !Step(s, t).exited ==> Step(s, t).mirror == v
  {
    var now := Elapsed(t.pollAt, s.profile.suspendedDuration);
    PollBelowPeak(ConstConfig(v, secs), s.profile.g, now);
    ConstReads(v, secs, s.profile.g, now);
    hide Poll, Realizes, Share, Shares;
  }

  /** Without control events a constant profile is mirrored from the first turn until the
      loop ends. */
  lemma {:induction false} MirrorsConstant(v: u64, secs: nat, s: Loop, ticks: seq<Tick>)
    requires |s.limits| > 0 && LeftAlone(ConstConfig(v, secs), s) && AllOffered(ticks) == []
    ensures LeftAlone(ConstConfig(v, secs), RunLoop(s, ticks))
    ensures ticks != [] && !RunLoop(s, ticks).exited ==> RunLoop(s, ticks).mirror == v
  {
    if ticks != [] {
      hide LeftAlone, Step;
      var n := |ticks| - 1;
      assert AllOffered(ticks[..n]) == [] && ticks[n].offered == [];
      MirrorsConstant(v, secs, s, ticks[..n]);
      StepLeftAlone(v, secs, RunLoop(s, ticks[..n]), ticks[n]);
    }
  }

  // --- When the loop ends -----------------------------------------------------------

  /** The loop drives the wrapper through exactly this history of timed operations. */
  ghost function LoopOps(s: Loop, ticks: seq<Tick>): seq<Timed>
    requires |s.limits| > 0
  {
    if ticks == [] then []
    else
      var before, t := ticks[..|ticks| - 1], ticks[|ticks| - 1];
      LoopOps(s, before) + TurnOps(Arrivals(RunLoop(s, before), t), t)
  }

  ghost function TurnOps(s: Loop, t: Tick): seq<Timed> {
    if s.exited then []
    else
      var v := Current(s.profile, t.pollAt).1;
      [Timed(t.pollAt, DoPoll)] +
      if v.None? || !s.running || s.queue == [] then [] else [Timed(t.eventAt, AsOp(s.queue[0]))]
  }

  ghost function AsOp(e: GeneratorEvent): Op {
    match e
    case SuspendEvent => DoSuspend
    case ResumeEvent => DoResume
    case SetEvent(rps) => DoSet(Some(rps))
  }

  lemma {:induction false} LoopDrivesWrapper(s: Loop, ticks: seq<Tick>)
    requires |s.limits| > 0
    ensures RunLoop(s, ticks).profile == WrapperAfter(s.profile, LoopOps(s, ticks))
  {
    if ticks != [] {
      var n := |ticks| - 1;
      LoopDrivesWrapper(s, ticks[..n]);
      WrapperTurn(s.profile, LoopOps(s, ticks[..n]), Arrivals(RunLoop(s, ticks[..n]), ticks[n]), ticks[n]);
    }
  }

  lemma WrapperTurn(w: Wrapper, ops: seq<Timed>, s: Loop, t: Tick)
    requires |s.limits| > 0 && s.profile == WrapperAfter(w, ops)
    ensures Turn(s, t).profile == WrapperAfter(w, ops + TurnOps(s, t))
  {
    hide Current, Suspend, Resume, Assign, Shares, Share;
    if s.exited {
      assert ops + [] == ops;
    } else {
      var poll := Timed(t.pollAt, DoPoll);
      assert (ops + [poll])[..|ops|] == ops;
      var more := TurnOps(s, t);
      if |more| == 2 {
        assert ops + more == ops + [poll] + [more[1]];
        assert (ops + [poll] + [more[1]])[..|ops| + 1] == ops + [poll];
      }
    }
  }

  /** Turns do not overlap: each poll and event happens after the previous turn's. */
  ghost predicate TickClock(ticks: seq<Tick>, a: nat) {
    && (forall i :: 0 <= i < |ticks| ==> a <= ticks[i].pollAt <= ticks[i].eventAt)
    && forall i, j :: 0 <= i < j < |ticks| ==> ticks[i].eventAt <= ticks[j].pollAt
  }

  ghost predicate EndsBy(ops: seq<Timed>, a: nat, t: nat) {
    OpClock(ops, a) && forall i :: 0 <= i < |ops| ==> ops[i].at <= t
  }

  lemma TurnEndsBy(ops: seq<Timed>, s: Loop, t: Tick, a: nat, last: nat)
    requires EndsBy(ops, a, last) && a <= t.pollAt && last <= t.pollAt <= t.eventAt
    ensures EndsBy(ops + TurnOps(s, t), a, t.eventAt)
  {
    var more := TurnOps(s, t);
    assert forall e | e in more :: t.pollAt <= e.at <= t.eventAt;
    assert |more| == 2 ==> more[0].at <= more[1].at;
    assert |more| <= 2;
    hide TurnOps;
    var all := ops + more;
    forall i | 0 <= i < |all| ensures a <= all[i].at <= t.eventAt && (i >= |ops| ==> t.pollAt <= all[i].at) {
      if i >= |ops| {
        assert all[i] in more;
      }
    }
  }

  lemma {:induction false} LoopOpsClock(s: Loop, ticks: seq<Tick>, a: nat)
    requires |s.limits| > 0 && TickClock(ticks, a)
    ensures EndsBy(LoopOps(s, ticks), a, if ticks == [] then a else ticks[|ticks| - 1].eventAt)
  {
    if ticks != [] {
      var n := |ticks| - 1;
      var before, t := ticks[..n], ticks[n];
      LoopOpsClock(s, before, a);
      assert n > 0 ==> before[n - 1].eventAt <= t.pollAt;
      hide EndsBy;
      TurnEndsBy(LoopOps(s, before), Arrivals(RunLoop(s, before), t), t, a, if n == 0 then a else before[n - 1].eventAt);
    }
  }

  /** Main result for the loop: as long as it has not been stopped, the loop leaves only
      when the profile, run on its own unpaused clock, is exhausted; so never before the
      configured duration plus all paused time has passed. */
  lemma NoEarlyExit(c: Config, born: nat, a: nat, n: nat, ticks: seq<Tick>, t: Tick)
    requires n > 0
    ensures Create(c, born).Some? && TickClock(ticks + [t], a) ==>
              var s := Start(Create(c, born).value, n, a);
              var r := RunLoop(s, ticks);
              (!r.exited && r.running && !t.stop && Step(r, t).exited ==>
                 t.pollAt >= a + Duration(c) + PausedTime(LoopOps(s, ticks), t.pollAt))
  {
    hide *;
    if Create(c, born).Some? && TickClock(ticks + [t], a) {
      var g := Create(c, born).value;
      var s := Start(g, n, a);
      StartState(g, n, a);
      var r, ops := RunLoop(s, ticks), LoopOps(s, ticks);
      LastTurn(ticks, t, a);
      LoopOpsClock(s, ticks, a);
      LoopDrivesWrapper(s, ticks);
      if !r.exited && r.running && !t.stop && Step(r, t).exited {
        ExitMeansExhausted(r, t);
        EndsByLater(ops, a, if ticks == [] then a else ticks[|ticks| - 1].eventAt, t.pollAt);
        ExhaustedPoll(c, born, a, ops, t.pollAt);
      }
    }
  }

  lemma StartState(g: Gen, n: nat, a: nat)
    ensures |Start(g, n, a).limits| == n && Start(g, n, a).profile == NewWrapper(ActivateAt(g, a))
  {
  }

  lemma LastTurn(ticks: seq<Tick>, t: Tick, a: nat)
    requires TickClock(ticks + [t], a)
    ensures TickClock(ticks, a) && a <= t.pollAt
    ensures ticks != [] ==> ticks[|ticks| - 1].eventAt <= t.pollAt
  {
    var all := ticks + [t];
    assert all[|ticks|] == t && forall i :: 0 <= i < |ticks| ==> all[i] == ticks[i];
  }

  lemma EndsByLater(ops: seq<Timed>, a: nat, t1: nat, t2: nat)
    requires EndsBy(ops, a, t1) && t1 <= t2
    ensures EndsBy(ops, a, t2)
  {
  }

  /** A running loop that was not stopped leaves only for want of a value. */
  lemma ExitMeansExhausted(s: Loop, t: Tick)
    requires |s.limits| > 0 && !s.exited && s.running && !t.stop
    ensures Step(s, t).exited <==> Current(s.profile, t.pollAt).1.None?
  {
    hide Current, Offer, Shares;
  }

  /** A poll of the wrapper finds nothing left only after the duration and the pauses. */
  lemma ExhaustedPoll(c: Config, born: nat, a: nat, ops: seq<Timed>, t: nat)
    requires a <= t
    ensures Create(c, born).Some? && EndsBy(ops, a, t) ==>
              var g := ActivateAt(Create(c, born).value, a);
              (Current(WrapperAfter(NewWrapper(g), ops), t).1.None? ==> t >= a + Duration(c) + PausedTime(ops, t))
  {
    hide *;
    if Create(c, born).Some? && EndsBy(ops, a, t) {
      var g := ActivateAt(Create(c, born).value, a);
      if Current(WrapperAfter(NewWrapper(g), ops), t).1.None? {
        PollAppended(g, ops, a, t);
        ReadingThrough(g, a, ops, t);
        PausedProfileLength(c, born, a, ops + [Timed(t, DoPoll)], 0);
      }
    }
  }

  lemma PollAppended(g: Gen, ops: seq<Timed>, a: nat, t: nat)
    requires EndsBy(ops, a, t) && a <= t
    ensures var all := ops + [Timed(t, DoPoll)];
            && OpClock(ops, a) && LastAt(ops, a) <= t
            && OpClock(all, a) && all != [] && all[..|all| - 1] == ops && all[|all| - 1] == Timed(t, DoPoll)
            && LastReading(g, all) == Current(WrapperAfter(NewWrapper(g), ops), t).1
  {
    hide WrapperAfter, Current;
    var all := ops + [Timed(t, DoPoll)];
    assert all[..|all| - 1] == ops;
  }
}
