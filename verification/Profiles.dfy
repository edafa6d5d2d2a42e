/** What a configured profile promises over whole runs: how long it lasts, how high it
    goes, and that it never comes back once it has ended. */
module Profiles {
  import opened Common
  import opened Generators
  import opened ProfileTiming
  import LineProfile

  // --- A generator tree and the configuration it was built from -------------------

  /** `g` is some state of the generator built from `c`. */
  ghost predicate Realizes(c: Config, g: Gen)
    decreases c
  {
    match c
    case ConstConfig(rps, secs) => g.Line? && LineNew(rps, rps, secs * GIGA, g.t0) == Some(g)
    case LineConfig(rps0, rps1, secs) => g.Line? && LineNew(rps0, rps1, secs * GIGA, g.t0) == Some(g)
    case SinConfig(ceiling, wave, secs) =>
      wave.Some? && g.Sin? && g == Sin(ceiling, wave.value, g.t0, secs * GIGA)
    case SeqConfig(gs) =>
      g.Seq? && |g.generators| == |gs| && forall i :: 0 <= i < |gs| ==> Realizes(gs[i], g.generators[i])
    case SumConfig(gs) =>
      g.Sum? && |g.generators| == |gs| && forall i :: 0 <= i < |gs| ==> Realizes(gs[i], g.generators[i])
  }

  ghost predicate RealizesAll(gs: seq<Config>, cs: seq<Gen>) {
    |cs| == |gs| && forall i :: 0 <= i < |gs| ==> Realizes(gs[i], cs[i])
  }

  lemma RealizesSplice(gs: seq<Config>, cs: seq<Gen>, i: nat, tail: seq<Gen>)
    requires RealizesAll(gs, cs) && i <= |gs| && RealizesAll(gs[i..], tail)
    ensures RealizesAll(gs, cs[..i] + tail)
  {
    forall j | 0 <= j < |gs| ensures Realizes(gs[j], (cs[..i] + tail)[j]) {
      if j >= i {
        assert gs[j] == gs[i..][j - i];
      }
    }
  }

  lemma {:induction false} CreateRealizes(c: Config, now: nat)
    requires Create(c, now).Some?
    ensures Realizes(c, Create(c, now).value) && Fresh(Create(c, now).value)
    decreases c
  {
    if c.SeqConfig? || c.SumConfig? {
      var cs := CreateAll(c.generators, now).value;
      forall i | 0 <= i < |cs| ensures Realizes(c.generators[i], cs[i]) && Fresh(cs[i]) {
        CreateRealizes(c.generators[i], now);
      }
    }
  }

  lemma {:induction false} ActivateRealizes(c: Config, g: Gen, now: nat)
    requires Realizes(c, g)
    ensures Realizes(c, ActivateAt(g, now))
    decreases c
  {
    if g.Seq? && g.idx < |g.generators| {
      ActivateRealizes(c.generators[g.idx], g.generators[g.idx], now);
    } else if g.Sum? {
      forall i | 0 <= i < |g.generators| ensures Realizes(c.generators[i], ActivateAt(g.generators[i], now)) {
        ActivateRealizes(c.generators[i], g.generators[i], now);
      }
    }
  }

  // --- Peak -----------------------------------------------------------------------

  /** Outside the documented range a line may wrap, and only the word size bounds it. */
  ghost function LinePeak(rps0: u64, rps1: u64, duration: nat): nat {
    if LineProfile.Documented(rps0, rps1, duration) then Max(rps0, rps1) else U64_BOUND - 1
  }

  ghost function Peak(c: Config): nat
    decreases c
  {
    match c
    case ConstConfig(rps, _) => rps
    case LineConfig(rps0, rps1, secs) => LinePeak(rps0, rps1, secs * GIGA)
    case SinConfig(ceiling, _, _) => ceiling
    case SeqConfig(gs) => PeakHighest(gs)
    case SumConfig(gs) => PeakTotal(gs)
  }

  ghost function PeakHighest(gs: seq<Config>): (m: nat)
    ensures forall i :: 0 <= i < |gs| ==> Peak(gs[i]) <= m
    decreases gs
  {
    if gs == [] then 0
    else
      var n := |gs| - 1;
      var rest := PeakHighest(gs[..n]);
      assert forall i :: 0 <= i < n ==> gs[..n][i] == gs[i];
      Max(rest, Peak(gs[n]))
  }

  ghost function PeakTotal(gs: seq<Config>): nat
    decreases gs
  {
    if gs == [] then 0 else PeakTotal(gs[..|gs| - 1]) + Peak(gs[|gs| - 1])
  }

  ghost predicate Below(v: Option<u64>, top: nat) { v.Some? ==> v.value <= top }

  lemma LineBelow(rps0: u64, rps1: u64, duration: nat, g: Gen, now: nat)
    requires g.Line? && LineNew(rps0, rps1, duration, g.t0) == Some(g)
    ensures Below(Poll(g, now).rps, LinePeak(rps0, rps1, duration))
  {
    var e := Elapsed(now, g.t0);
    if LineProfile.Documented(rps0, rps1, duration) && e <= duration {
      LineProfile.LineShape(rps0, rps1, duration, g.t0, e, e);
    }
  }

  lemma EvenStaysEven(x: nat)
    requires x % 2 == 0
    ensures x % U64_BOUND % 2 == 0
  {
    assert x == (x / U64_BOUND) * U64_BOUND + x % U64_BOUND;
  }

  /** A line of whole seconds can be built exactly unless its nanoseconds wrap to zero: the
      other trap of the division, by minus one, needs an odd number of them. */
  lemma LineBuilt(rps0: u64, rps1: u64, secs: nat, now: nat)
    ensures Create(LineConfig(rps0, rps1, secs), now).Some? <==> secs * GIGA % U64_BOUND != 0
  {
    assert secs * GIGA == 2 * (secs * 500_000_000);
    EvenStaysEven(secs * GIGA);
  }

  /** A constant reads its rate and nothing else, whatever the rate and the duration. */
  lemma ConstReads(rps: u64, secs: nat, g: Gen, now: nat)
    requires Realizes(ConstConfig(rps, secs), g)
    ensures Poll(g, now).rps.Some? ==> Poll(g, now).rps.value == rps
  {
    assert g.k == 0 && g.b == rps;
    assert 0 * AsI64(Elapsed(now, g.t0)) == 0;
  }

  /** A poll keeps the tree a state of its configuration and never reads above its peak. */
  lemma {:induction false} PollBelowPeak(c: Config, g: Gen, now: nat)
    requires Realizes(c, g)
    ensures Realizes(c, Poll(g, now).gen)
    ensures Below(Poll(g, now).rps, Peak(c))
    decreases Weight(g), 0
  {
    match c
    case ConstConfig(rps, secs) => ConstReads(rps, secs, g, now);
    case LineConfig(rps0, rps1, secs) => LineBelow(rps0, rps1, secs * GIGA, g, now);
    case SinConfig(_, _, _) =>
    case SeqConfig(gs) =>
      if g.idx < |gs| {
        var idx, cs := g.idx, g.generators;
        WeightSplit(cs, idx);
        PollStanding(idx, cs, now, PollSeq(cs[idx..], now));
        SeqBelowPeak(gs[idx..], cs[idx..], now, PeakHighest(gs));
        RealizesSplice(gs, cs, idx, PollSeq(cs[idx..], now).gens);
      }
    case SumConfig(gs) =>
      SumBelowPeak(gs, g.generators, now);
  }

  lemma {:induction false} SeqBelowPeak(gs: seq<Config>, cs: seq<Gen>, now: nat, top: nat)
    requires RealizesAll(gs, cs) && forall i :: 0 <= i < |gs| ==> Peak(gs[i]) <= top
    ensures RealizesAll(gs, PollSeq(cs, now).gens)
    ensures Below(PollSeq(cs, now).rps, top)
    decreases WeightAll(cs), 1
  {
    if cs != [] {
      PollBelowPeak(gs[0], cs[0], now);
      var first := Poll(cs[0], now);
      if first.rps.None? {
        var rest := StartHead(cs[1..], now);
        if |cs| > 1 {
          ActivateRealizes(gs[1], cs[1], now);
        }
        SeqBelowPeak(gs[1..], rest, now, top);
        RealizesSplice(gs, [first.gen] + cs[1..], 1, PollSeq(rest, now).gens);
        assert ([first.gen] + cs[1..])[..1] == [first.gen];
      }
    }
  }

  lemma {:induction false} SumBelowPeak(gs: seq<Config>, cs: seq<Gen>, now: nat)
    requires RealizesAll(gs, cs)
    ensures RealizesAll(gs, PollAll(cs, now).gens)
    ensures Present(cs, now) <= PeakTotal(gs)
    ensures Below(PollAll(cs, now).rps, PeakTotal(gs))
    decreases WeightAll(cs), 1
  {
    forall i | 0 <= i < |cs|
      ensures Realizes(gs[i], Poll(cs[i], now).gen) && Below(Poll(cs[i], now).rps, Peak(gs[i]))
    {
      WeightAt(cs, i);
      PollBelowPeak(gs[i], cs[i], now);
    }
    PollAllEach(cs, now);
    PresentBelowPeak(gs, cs, now);
    SumIsTotal(cs, now);
    TotalsBelow(PollAll(cs, now).rps, Present(cs, now), PeakTotal(gs));
  }

  /** The readings of the children, absent ones counting zero. */
  ghost function Present(cs: seq<Gen>, now: nat): nat
    decreases |cs|
  {
    if cs == [] then 0
    else
      var n := |cs| - 1;
      var last := Poll(cs[n], now).rps;
      Present(cs[..n], now) + if last.Some? then last.value else 0
  }

  lemma WrapOnce(a: nat, b: nat)
    ensures AsU64(AsU64(a) + b) == AsU64(a + b)
  {
  }

  ghost predicate Totals(v: Option<u64>, total: nat) {
    if v.Some? then v.value == AsU64(total) else total == 0
  }

  lemma PollAllLast(cs: seq<Gen>, now: nat)
    requires cs != []
    ensures var n := |cs| - 1;
            PollAll(cs, now).rps == Add(PollAll(cs[..n], now).rps, Poll(cs[n], now).rps)
  {
  }

  /** A Sum reads the total of its children modulo the word size ... */
  lemma {:induction false} SumIsTotal(cs: seq<Gen>, now: nat)
    ensures Totals(PollAll(cs, now).rps, Present(cs, now))
  {
    if cs != [] {
      var n := |cs| - 1;
      SumIsTotal(cs[..n], now);
      PollAllLast(cs, now);
      TotalsStep(PollAll(cs[..n], now).rps, Present(cs[..n], now), Poll(cs[n], now).rps);
    }
  }

  /** ... and the exact total while its peak fits the word. */
  lemma SumIsExact(gs: seq<Config>, cs: seq<Gen>, now: nat)
    requires RealizesAll(gs, cs) && PeakTotal(gs) < U64_BOUND
    ensures PollAll(cs, now).rps.Some? ==> PollAll(cs, now).rps.value == Present(cs, now)
  {
    SumIsTotal(cs, now);
    SumBelowPeak(gs, cs, now);
    TotalsBelow(PollAll(cs, now).rps, Present(cs, now), PeakTotal(gs));
  }

  lemma {:induction false} PresentBelowPeak(gs: seq<Config>, cs: seq<Gen>, now: nat)
    requires |gs| == |cs| && forall i :: 0 <= i < |cs| ==> Below(Poll(cs[i], now).rps, Peak(gs[i]))
    ensures Present(cs, now) <= PeakTotal(gs)
  {
    if cs != [] {
      PresentBelowPeak(gs[..|cs| - 1], cs[..|cs| - 1], now);
    }
  }

  lemma TotalsBelow(v: Option<u64>, total: nat, top: nat)
    requires Totals(v, total) && total <= top
    ensures Below(v, top)
    ensures v.Some? && top < U64_BOUND ==> v.value == total
  {
  }

  lemma TotalsStep(out: Option<u64>, total: nat, v: Option<u64>)
    requires Totals(out, total)
    ensures Totals(Add(out, v), total + if v.Some? then v.value else 0)
  {
    if v.Some? && out.Some? {
      WrapOnce(total, v.value);
    }
  }

  // --- Length ---------------------------------------------------------------------

  /** Leaves on the longest Seq chain: each of them can overrun by one poll gap. */
  ghost function Chain(c: Config): nat
    decreases c
  {
    match c
    case SeqConfig(gs) => ChainTotal(gs)
    case SumConfig(gs) => ChainLongest(gs)
    case _ => 1
  }

  ghost function ChainTotal(gs: seq<Config>): nat
    decreases gs
  {
    if gs == [] then 0 else Chain(gs[0]) + ChainTotal(gs[1..])
  }

  ghost function ChainLongest(gs: seq<Config>): nat
    decreases gs
  {
    if gs == [] then 0 else Max(Chain(gs[0]), ChainLongest(gs[1..]))
  }

  lemma {:induction false} BudgetOf(c: Config, g: Gen, gap: nat)
    requires Realizes(c, g)
    ensures Budget(g, 0) == Duration(c)
    ensures Budget(g, gap) <= Duration(c) + gap * Chain(c)
    decreases c
  {
    match c
    case SeqConfig(gs) => BudgetOfSeq(gs, g.generators, gap);
    case SumConfig(gs) => BudgetOfSum(gs, g.generators, gap);
    case _ =>
  }

  lemma {:induction false} BudgetOfSeq(gs: seq<Config>, cs: seq<Gen>, gap: nat)
    requires RealizesAll(gs, cs)
    ensures BudgetTotal(cs, 0) == DurationTotal(gs)
    ensures BudgetTotal(cs, gap) <= DurationTotal(gs) + gap * ChainTotal(gs)
    decreases gs
  {
    if gs != [] {
      var first := cs[0];
      BudgetOf(gs[0], first, gap);
      BudgetOfSeq(gs[1..], cs[1..], gap);
      var a, b := Chain(gs[0]), ChainTotal(gs[1..]);
      assert Budget(cs[0], gap) <= Duration(gs[0]) + gap * a;
      assert BudgetTotal(cs[1..], gap) <= DurationTotal(gs[1..]) + gap * b;
      GapsAdd(gap, a, b, ChainTotal(gs));
    }
  }

  lemma {:induction false} BudgetOfSum(gs: seq<Config>, cs: seq<Gen>, gap: nat)
    requires RealizesAll(gs, cs)
    ensures BudgetLongest(cs, 0) == DurationLongest(gs)
    ensures BudgetLongest(cs, gap) <= DurationLongest(gs) + gap * ChainLongest(gs)
    decreases gs
  {
    if gs != [] {
      BudgetOf(gs[0], cs[0], gap);
      BudgetOfSum(gs[1..], cs[1..], gap);
      GapsGrow(gap, Chain(gs[0]), ChainLongest(gs));
      GapsGrow(gap, ChainLongest(gs[1..]), ChainLongest(gs));
    }
  }

  lemma GapsAdd(gap: nat, a: nat, b: nat, both: nat)
    requires both == a + b
    ensures gap * both == gap * a + gap * b
  {
  }

  lemma GapsGrow(gap: nat, a: nat, b: nat)
    requires a <= b
    ensures 0 <= gap * a <= gap * b
  {
  }

  // --- Runs -----------------------------------------------------------------------

  /** The tree after the polls `ts`. */
  ghost function After(g: Gen, ts: seq<nat>): Gen {
    if ts == [] then g else Poll(After(g, ts[..|ts| - 1]), ts[|ts| - 1]).gen
  }

  /** What the `i`-th poll reads. */
  ghost function ReadAt(g: Gen, ts: seq<nat>, i: nat): Option<u64>
    requires i < |ts|
  {
    Poll(After(g, ts[..i]), ts[i]).rps
  }

  ghost predicate Clock(ts: seq<nat>, a: nat) {
    && (forall i :: 0 <= i < |ts| ==> a <= ts[i])
    && forall i, j :: 0 <= i < j < |ts| ==> ts[i] <= ts[j]
  }

  /** Polls come at most `gap` apart, the first at most `gap` after the start. */
  ghost predicate Paced(ts: seq<nat>, a: nat, gap: nat) {
    && (ts != [] ==> ts[0] <= a + gap)
    && forall i, j :: 0 <= i < |ts| && j == i + 1 && j < |ts| ==> ts[j] <= ts[i] + gap
  }

  /** A tree with its last poll: what all the polls since its start guarantee. */
  ghost predicate OnCourse(g: Gen, s: Gen, ts: seq<nat>, a: nat, last: Option<u64>, gap: nat)
    requires ts != []
  {
    var t := ts[|ts| - 1];
    && Settled(s, t)
    && (last.Some? <==> Alive(s, t))
    && (last.Some? ==> Horizon(s, 0) >= a + Budget(g, 0))
    && (last.None? ==> t >= a + Budget(g, 0))
    && (Paced(ts, a, gap) && (last.Some? || Horizon(s, gap) > 0) ==>
          Horizon(s, gap) + gap <= ts[0] + Budget(g, gap))
  }

  lemma {:induction false} RunOnCourse(g: Gen, a: nat, ts: seq<nat>, gap: nat)
    requires Fresh(g) && Clock(ts, a) && ts != []
    ensures OnCourse(g, After(ActivateAt(g, a), ts), ts, a, ReadAt(ActivateAt(g, a), ts, |ts| - 1), gap)
    decreases |ts|
  {
    var n := |ts| - 1;
    var start := ActivateAt(g, a);
    if n == 0 {
      assert After(start, ts[..0]) == start;
      FirstPoll(g, a, ts[0], gap);
    } else {
      var before := ts[..n];
      RunOnCourse(g, a, before, gap);
      var s := After(start, before);
      NextPoll(s, ts[n - 1], ts[n], gap);
      StaysOnCourse(g, s, ts, a, ReadAt(start, before, n - 1), Poll(s, ts[n]), gap);
    }
  }

  lemma StaysOnCourse(g: Gen, s: Gen, ts: seq<nat>, a: nat, last: Option<u64>, r: Reading, gap: nat)
    requires |ts| > 1 && Clock(ts, a) && OnCourse(g, s, ts[..|ts| - 1], a, last, gap)
    requires SteppedWell(s, ts[|ts| - 2], ts[|ts| - 1], r, gap)
    ensures OnCourse(g, r.gen, ts, a, r.rps, gap)
  {
    var n := |ts| - 1;
    assert ts[..n][n - 1] == ts[n - 1];
    if Paced(ts, a, gap) {
      assert Paced(ts[..n], a, gap) && ts[n] <= ts[n - 1] + gap;
    }
  }

  lemma OnCourseAt(g: Gen, a: nat, ts: seq<nat>, gap: nat, i: nat)
    requires Fresh(g) && Clock(ts, a) && i < |ts|
    ensures OnCourse(g, After(ActivateAt(g, a), ts[..i + 1]), ts[..i + 1], a, ReadAt(ActivateAt(g, a), ts, i), gap)
  {
    RunOnCourse(g, a, ts[..i + 1], gap);
    assert ts[..i + 1][..i] == ts[..i];
  }

  /** Once a poll finds the profile exhausted, every later poll does. */
  lemma {:induction false} ExhaustionIsPermanent(g: Gen, a: nat, ts: seq<nat>, i: nat, j: nat)
    requires Fresh(g) && Clock(ts, a) && i <= j < |ts|
    requires ReadAt(ActivateAt(g, a), ts, i).None?
    ensures ReadAt(ActivateAt(g, a), ts, j).None?
    decreases j - i
  {
    hide Poll, Alive, Settled, Fresh, Horizon, Budget;
    if i < j {
      ExhaustionIsPermanent(g, a, ts, i, j - 1);
      OnCourseAt(g, a, ts, 0, j - 1);
      assert ts[..j - 1 + 1] == ts[..j];
      var s := After(ActivateAt(g, a), ts[..j]);
      assert !Alive(s, ts[j - 1]) && Settled(s, ts[j - 1]);
      NextPoll(s, ts[j - 1], ts[j], 0);
    }
  }

  /** Never early, never later than one gap per leaf of the longest chain. */
  lemma ProfileLength(c: Config, born: nat, a: nat, ts: seq<nat>, gap: nat, i: nat)
    requires Create(c, born).Some? && Clock(ts, a) && i < |ts|
    ensures var g := ActivateAt(Create(c, born).value, a);
            && (ReadAt(g, ts, i).None? ==> ts[i] >= a + Duration(c))
            && (ReadAt(g, ts, i).Some? && Paced(ts, a, gap) ==>
                  ts[i] + gap <= ts[0] + Duration(c) + gap * Chain(c))
  {
    CreateRealizes(c, born);
    var g := Create(c, born).value;
    OnCourseAt(g, a, ts, gap, i);
    BudgetOf(c, g, gap);
    var s := After(ActivateAt(g, a), ts[..i + 1]);
    HorizonSeparates(s, ts[i], gap);
    assert Paced(ts, a, gap) ==> Paced(ts[..i + 1], a, gap);
  }

  /** Poll `i` finds the profile exhausted and no earlier poll did. */
  ghost predicate EndsAt(g: Gen, ts: seq<nat>, i: nat) {
    i < |ts| && ReadAt(g, ts, i).None? && (i > 0 ==> ReadAt(g, ts, i - 1).Some?)
  }

  /** The first exhausted poll falls in the window [duration, duration + gap per leaf + gap]. */
  lemma FirstExhaustedPoll(c: Config, born: nat, a: nat, ts: seq<nat>, gap: nat, i: nat)
    requires Create(c, born).Some? && Clock(ts, a) && Paced(ts, a, gap)
    ensures EndsAt(ActivateAt(Create(c, born).value, a), ts, i) ==>
              a + Duration(c) <= ts[i] <= a + Duration(c) + gap * Chain(c) + gap
  {
    if EndsAt(ActivateAt(Create(c, born).value, a), ts, i) {
      ProfileLength(c, born, a, ts, gap, i);
      if i > 0 {
        ProfileLength(c, born, a, ts, gap, i - 1);
      } else {
        GapsGrow(gap, 0, Chain(c));
      }
    }
  }

  /** Polled long enough, every profile does end. */
  lemma ProfileEnds(c: Config, born: nat, a: nat, ts: seq<nat>, gap: nat, i: nat)
    requires Create(c, born).Some? && Clock(ts, a) && Paced(ts, a, gap) && i < |ts|
    requires ts[i] > a + Duration(c) + gap * Chain(c)
    ensures ReadAt(ActivateAt(Create(c, born).value, a), ts, i).None?
  {
    ProfileLength(c, born, a, ts, gap, i);
  }

  lemma {:induction false} RunBelowPeak(c: Config, g: Gen, ts: seq<nat>, i: nat)
    requires Realizes(c, g) && i < |ts|
    ensures Realizes(c, After(g, ts[..i]))
    ensures Below(ReadAt(g, ts, i), Peak(c))
    decreases i
  {
    if i > 0 {
      RunBelowPeak(c, g, ts, i - 1);
      assert ts[..i][..i - 1] == ts[..i - 1];
      PollBelowPeak(c, After(g, ts[..i - 1]), ts[i - 1]);
    }
    PollBelowPeak(c, After(g, ts[..i]), ts[i]);
  }

  // --- The loops of the code --------------------------------------------------------

  method ProfileDuration(c: Config) returns (d: nat)
    ensures d == Duration(c)
    decreases c
  {
    match c
    case ConstConfig(_, secs) => d := secs * GIGA;
    case LineConfig(_, _, secs) => d := secs * GIGA;
    case SinConfig(_, _, secs) => d := secs * GIGA;
    case SeqConfig(gs) =>
      d := 0;
      for i := 0 to |gs|
        invariant d + DurationTotal(gs[i..]) == DurationTotal(gs)
      {
        var part := ProfileDuration(gs[i]);
        assert gs[i..][1..] == gs[i + 1..];
        d := d + part;
      }
    case SumConfig(gs) =>
      d := 0;
      for i := 0 to |gs|
        invariant Max(d, DurationLongest(gs[i..])) == DurationLongest(gs)
      {
        var part := ProfileDuration(gs[i]);
        assert gs[i..][1..] == gs[i + 1..];
        d := Max(d, part);
      }
  }

  /** `current_at` as the code runs it: Seq steps its index and restarts, Sum loops. */
  method CurrentAt(g: Gen, now: nat) returns (g': Gen, out: Option<u64>)
    ensures Reading(g', out) == Poll(g, now)
    decreases Weight(g), 0
  {
    match g
    case Line(k, b, t0, duration) =>
      var e := Elapsed(now, t0);
      g', out := g, if e > duration then None else Some(LineValue(k, b, e));
    case Sin(ceiling, wave, t0, duration) =>
      var e := Elapsed(now, t0);
      g', out := g, if e > duration then None else Some(Min(wave(e), ceiling));
    case Seq(idx, cs) =>
      g', out := CurrentSeq(idx, cs, now);
    case Sum(cs) =>
      var updated;
      updated, out := CurrentSum(cs, now);
      g' := Sum(updated);
  }

  method CurrentSeq(idx: nat, cs: seq<Gen>, now: nat) returns (g': Gen, out: Option<u64>)
    ensures Reading(g', out) == Poll(Seq(idx, cs), now)
    decreases WeightAll(cs), 1, |cs| - idx
  {
    if idx >= |cs| {
      return Seq(idx, cs), None;
    }
    WeightAt(cs, idx);
    var child;
    child, out := CurrentAt(cs[idx], now);
    if out.Some? {
      PollOnward(idx, cs, now);
      g' := Seq(idx, cs[idx := child]);
    } else {
      var started := Advanced(idx, cs, child, now);
      SeqAdvances(idx, cs, child, now);
      AdvanceKeepsWeight(idx, cs, child, started, now);
      g', out := CurrentSeq(idx + 1, started, now);
    }
  }

  method CurrentSum(cs: seq<Gen>, now: nat) returns (updated: seq<Gen>, out: Option<u64>)
    ensures SumReading(updated, out) == PollAll(cs, now)
    decreases WeightAll(cs), 1, 0
  {
    updated, out := [], None;
    for i := 0 to |cs|
      invariant SumReading(updated, out) == PollAll(cs[..i], now)
    {
      WeightAt(cs, i);
      var child, v := CurrentAt(cs[i], now);
      assert cs[..i + 1][..i] == cs[..i];
      updated := updated + [child];
      out := Add(out, v);
    }
    assert cs[..|cs|] == cs;
  }

  /** The children after stepping over an ended child and starting the next one. */
  function Advanced(idx: nat, cs: seq<Gen>, child: Gen, now: nat): (r: seq<Gen>)
    requires idx < |cs|
    ensures |r| == |cs| && r[..idx + 1] == cs[..idx] + [child]
    ensures r[idx + 1..] == StartHead(cs[idx + 1..], now)
  {
    var next := cs[idx := child];
    if idx + 1 < |cs| then next[idx + 1 := ActivateAt(cs[idx + 1], now)] else next
  }

  /** Advancing changes nothing in what the poll will find. */
  lemma SeqAdvances(idx: nat, cs: seq<Gen>, child: Gen, now: nat)
    requires idx < |cs| && Poll(cs[idx], now) == Reading(child, None)
    ensures Poll(Seq(idx, cs), now) == Poll(Seq(idx + 1, Advanced(idx, cs, child, now)), now)
  {
    hide Poll, PollSeq, Advanced, StartHead;
    var started := Advanced(idx, cs, child, now);
    PollOnward(idx, cs, now);
    PollStanding(idx + 1, started, now, PollSeq(started[idx + 1..], now));
  }

  lemma AdvanceKeepsWeight(idx: nat, cs: seq<Gen>, child: Gen, started: seq<Gen>, now: nat)
    requires idx < |cs| == |started| && Poll(cs[idx], now).gen == child
    requires started[..idx + 1] == cs[..idx] + [child]
    requires started[idx + 1..] == StartHead(cs[idx + 1..], now)
    ensures WeightAll(started) == WeightAll(cs)
  {
    hide Poll, PollSeq, StartHead, Weight, WeightAll;
    PollKeepsWeight(cs[idx], now);
    WeightAt(cs, idx);
    WeightAt(started, idx);
    assert started[..idx] == started[..idx + 1][..idx] == cs[..idx];
  }

  lemma {:induction false} PollKeepsWeight(g: Gen, now: nat)
    ensures Weight(Poll(g, now).gen) == Weight(g)
    decreases Weight(g), 0
  {
    match g
    case Line(_, _, _, _) =>
    case Sin(_, _, _, _) =>
    case Seq(idx, cs) =>
      if idx < |cs| {
        WeightSplit(cs, idx);
        PollSeqKeepsWeight(cs[idx..], now);
        var all := cs[..idx] + PollSeq(cs[idx..], now).gens;
        WeightSplit(all, idx);
        assert all[..idx] == cs[..idx] && all[idx..] == PollSeq(cs[idx..], now).gens;
      }
    case Sum(cs) => PollAllKeepsWeight(cs, now);
  }

  lemma {:induction false} PollSeqKeepsWeight(cs: seq<Gen>, now: nat)
    ensures WeightAll(PollSeq(cs, now).gens) == WeightAll(cs)
    decreases WeightAll(cs), 1
  {
    if cs != [] {
      PollKeepsWeight(cs[0], now);
      PollSeqKeepsWeight(StartHead(cs[1..], now), now);
    }
  }

  lemma {:induction false} PollAllKeepsWeight(cs: seq<Gen>, now: nat)
    ensures WeightAll(PollAll(cs, now).gens) == WeightAll(cs)
    decreases WeightAll(cs), 1
  {
    if cs != [] {
      var n := |cs| - 1;
      WeightAt(cs, n);
      PollAllKeepsWeight(cs[..n], now);
      PollKeepsWeight(cs[n], now);
      var init, last := PollAll(cs[..n], now), Poll(cs[n], now);
      WeightAt(init.gens + [last.gen], n);
      assert (init.gens + [last.gen])[..n] == init.gens;
    }
  }
}
