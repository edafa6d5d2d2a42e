/** What a poll of a configured profile returns, from the configuration and the history of
    polls alone. The machine of `Poll` steps indices and moves start instants; the meaning
    below has no state at all. */
module ProfileMeaning {
  import opened Common
  import opened Generators
  import opened LineProfile
  import opened ProfileTiming
  import opened Profiles

  /** A straight line `e` nanoseconds after its start; beyond the documented range, where
      the machine arithmetic may wrap, what that arithmetic gives. */
  ghost function LineAt(rps0: u64, rps1: u64, duration: nat, e: nat): int {
    if Documented(rps0, rps1, duration) then
      if rps1 >= rps0 then rps0 + Climb(rps0, rps1, duration, e) else rps0 - Climb(rps0, rps1, duration, e)
    else
      var g := LineNew(rps0, rps1, duration, 0);
      if g.None? then 0 else LineValue(g.value.k, rps0, e)
  }

  /** The last of the polls `ts` of a profile that was started at `a`. */
  ghost function Meaning(c: Config, a: nat, ts: seq<nat>): Option<int>
    requires ts != []
    decreases c, 0, 0
  {
    var e := Elapsed(ts[|ts| - 1], a);
    match c
    case ConstConfig(rps, secs) => if e <= secs * GIGA then Some(rps) else None
    case LineConfig(rps0, rps1, secs) => LineReading(rps0, rps1, secs * GIGA, e)
    case SinConfig(ceiling, wave, secs) =>
      if e <= secs * GIGA && wave.Some? then Some(Min(wave.value(e), ceiling)) else None
    case SeqConfig(gs) => MeaningInTurn(gs, a, ts)
    case SumConfig(gs) =>
      if AnyOf(gs, a, ts) then Some(TotalOf(gs, a, ts) % U64_BOUND) else None
  }

  /** One after the other: each starts at the poll that found the one before it ended. */
  ghost function MeaningInTurn(gs: seq<Config>, a: nat, ts: seq<nat>): Option<int>
    requires ts != []
    decreases gs, 0, 0
  {
    if gs == [] then None
    else
      var v := Meaning(gs[0], a, ts);
      if v.Some? then v
      else
        var k := EndPoll(gs[0], a, ts);
        MeaningInTurn(gs[1..], ts[k], ts[k..])
  }

  /** The first poll that found `c` ended, when the last one does. */
  ghost function EndPoll(c: Config, a: nat, ts: seq<nat>): (k: nat)
    requires ts != []
    ensures k < |ts|
    decreases c, 1, |ts|
  {
    var n := |ts| - 1;
    if n == 0 || Meaning(c, a, ts[..n]).Some? then n else EndPoll(c, a, ts[..n])
  }

  ghost predicate AnyOf(gs: seq<Config>, a: nat, ts: seq<nat>)
    requires ts != []
    decreases gs, 0, 0
  {
    gs != [] && (AnyOf(gs[..|gs| - 1], a, ts) || Meaning(gs[|gs| - 1], a, ts).Some?)
  }

  /** The values of those that have one, added up. */
  ghost function TotalOf(gs: seq<Config>, a: nat, ts: seq<nat>): int
    requires ts != []
    decreases gs, 0, 0
  {
    if gs == [] then 0
    else
      var last := Meaning(gs[|gs| - 1], a, ts);
      TotalOf(gs[..|gs| - 1], a, ts) + if last.Some? then last.value else 0
  }

  // --- Leaves -----------------------------------------------------------------------

  lemma {:induction false} LeafStays(g: Gen, ts: seq<nat>)
    requires g.Line? || g.Sin?
    ensures After(g, ts) == g
  {
    if ts != [] {
      LeafStays(g, ts[..|ts| - 1]);
    }
  }

  /** A poll of a configured line, at any time from its start to its end inclusive. */
  lemma LineReads(rps0: u64, rps1: u64, secs: nat, g: Gen, t: nat)
    requires g.Line?
    ensures Realizes(LineConfig(rps0, rps1, secs), g) ==>
              Poll(g, t).rps == LineReading(rps0, rps1, secs * GIGA, Elapsed(t, g.t0))
  {
    var e := Elapsed(t, g.t0);
    if e <= secs * GIGA && Realizes(LineConfig(rps0, rps1, secs), g) {
      LineValueAt(rps0, rps1, secs * GIGA, g.t0, e);
      hide LineNew, LineValue, LineAt;
    }
  }

  ghost function LineReading(rps0: u64, rps1: u64, duration: nat, e: nat): Option<int> {
    if e <= duration then Some(LineAt(rps0, rps1, duration, e)) else None
  }

  /** The closed form is what the machine computes, wherever the line starts. */
  lemma LineValueAt(rps0: u64, rps1: u64, duration: nat, t0: nat, e: nat)
    requires e <= duration
    ensures var g := LineNew(rps0, rps1, duration, t0);
            g.Some? ==> LineValue(g.value.k, rps0, e) == LineAt(rps0, rps1, duration, e)
  {
    if Documented(rps0, rps1, duration) {
      LineExact(rps0, rps1, duration, t0, e);
    }
  }

  lemma LeafReads(c: Config, g: Gen, a: nat, ts: seq<nat>)
    requires Realizes(c, g) && (g.Line? || g.Sin?) && ts != []
    ensures ReadAt(ActivateAt(g, a), ts, |ts| - 1) == Meaning(c, a, ts)
  {
    var n := |ts| - 1;
    var s := ActivateAt(g, a);
    ActivateRealizes(c, g, a);
    LeafStays(s, ts[..n]);
    if c.ConstConfig? {
      ConstReads(c.rps, c.secs, s, ts[n]);
    } else if c.LineConfig? {
      LineReads(c.rps0, c.rps1, c.secs, s, ts[n]);
    }
  }

  /** Polls of a documented line begin at rps0 and go toward rps1 without turning back. */
  lemma LineRun(rps0: u64, rps1: u64, secs: nat, born: nat, a: nat, t1: nat, t2: nat)
    requires Documented(rps0, rps1, secs * GIGA) && a <= t1 <= t2 <= a + secs * GIGA
    ensures Create(LineConfig(rps0, rps1, secs), born).Some?
    ensures var g := ActivateAt(Create(LineConfig(rps0, rps1, secs), born).value, a);
            && Poll(g, a).rps == Some(rps0) && Poll(g, t1).rps.Some? && Poll(g, t2).rps.Some?
            && (rps0 <= rps1 ==> rps0 <= Poll(g, t1).rps.value <= Poll(g, t2).rps.value <= rps1)
            && (rps1 <= rps0 ==> rps1 <= Poll(g, t2).rps.value <= Poll(g, t1).rps.value <= rps0)
  {
    LineShape(rps0, rps1, secs * GIGA, born, t1 - a, t2 - a);
  }

  // --- Seq --------------------------------------------------------------------------

  /** The same Seq with one more finished child in front. */
  ghost function Shifted(d: Gen, g: Gen): Gen
    requires g.Seq?
  {
    Seq(g.idx + 1, [d] + g.generators)
  }

  lemma PollShifted(d: Gen, g: Gen, t: nat)
    requires g.Seq? && g.idx <= |g.generators|
    ensures var r := Poll(g, t);
            && r.gen.Seq? && r.gen.idx <= |r.gen.generators|
            && Poll(Shifted(d, g), t) == Reading(Shifted(d, r.gen), r.rps)
  {
    hide *;
    var i, gens := g.idx, g.generators;
    var r := PollSeq(gens[i..], t);
    var after := gens[..i] + r.gens;
    ShiftedParts(d, i, gens, r.gens);
    PollStanding(i, gens, t, r);
    PollStanding(i + 1, [d] + gens, t, r);
    ShiftedIs(d, i, gens);
    ShiftedIs(d, i + r.passed, after);
  }

  lemma ShiftedIs(d: Gen, i: nat, gens: seq<Gen>)
    ensures Shifted(d, Seq(i, gens)) == Seq(i + 1, [d] + gens)
  {
  }

  lemma ShiftedParts(d: Gen, i: nat, gens: seq<Gen>, tail: seq<Gen>)
    requires i <= |gens|
    ensures ([d] + gens)[i + 1..] == gens[i..]
    ensures ([d] + gens)[..i + 1] + tail == [d] + (gens[..i] + tail)
  {
  }

  lemma {:induction false} AfterShifted(d: Gen, g: Gen, ts: seq<nat>)
    requires g.Seq? && g.idx <= |g.generators|
    ensures var s := After(g, ts);
            && s.Seq? && s.idx <= |s.generators|
            && After(Shifted(d, g), ts) == Shifted(d, s)
  {
    if ts != [] {
      hide Poll;
      var n := |ts| - 1;
      AfterShifted(d, g, ts[..n]);
      PollShifted(d, After(g, ts[..n]), ts[n]);
    }
  }

  /** The first `n` polls found the profile with a value. */
  ghost predicate AliveFor(g: Gen, ts: seq<nat>, n: nat)
    requires n <= |ts|
  {
    forall j :: 0 <= j < n ==> ReadAt(g, ts, j).Some?
  }

  lemma PollFirst(x: Gen, rest: seq<Gen>, t: nat)
    ensures Poll(x, t).rps.Some? ==>
              Poll(Seq(0, [x] + rest), t) == Reading(Seq(0, [Poll(x, t).gen] + rest), Poll(x, t).rps)
    ensures Poll(x, t).rps.None? ==>
              var r := Poll(ActivateAt(Seq(0, rest), t), t);
              r.gen.Seq? && Poll(Seq(0, [x] + rest), t) == Reading(Shifted(Poll(x, t).gen, r.gen), r.rps)
  {
    hide Poll, PollSeq, StartHead, ActivateAt;
    var cs, started := [x] + rest, StartHead(rest, t);
    var first, r := Poll(x, t), PollSeq(started, t);
    FirstParts(x, rest, first.gen);
    PollOnward(0, cs, t);
    if first.rps.None? {
      FirstParts(first.gen, started, first.gen);
      WholeParts(started, first.gen, r.gens);
      PollStanding(0, started, t, r);
      ActivateHead(rest, t);
    }
  }

  lemma FirstParts(x: Gen, rest: seq<Gen>, y: Gen)
    ensures ([x] + rest)[0] == x && ([x] + rest)[1..] == rest && ([x] + rest)[..0] == []
    ensures ([x] + rest)[0 := y] == [y] + rest
  {
  }

  lemma WholeParts(cs: seq<Gen>, y: Gen, tail: seq<Gen>)
    ensures cs[0..] == cs && cs[..0] + tail == tail
    ensures [] + [y] + tail == [y] + tail
  {
  }

  lemma ActivateHead(rest: seq<Gen>, t: nat)
    ensures ActivateAt(Seq(0, rest), t) == Seq(0, StartHead(rest, t))
  {
    if rest != [] {
      assert rest[0 := ActivateAt(rest[0], t)] == [ActivateAt(rest[0], t)] + rest[1..];
    }
  }

  lemma {:induction false} FirstAlive(x: Gen, rest: seq<Gen>, ts: seq<nat>, n: nat)
    requires n <= |ts| && AliveFor(x, ts, n)
    ensures After(Seq(0, [x] + rest), ts[..n]) == Seq(0, [After(x, ts[..n])] + rest)
    decreases n
  {
    if n > 0 {
      hide Poll;
      FirstAlive(x, rest, ts, n - 1);
      assert ts[..n][..n - 1] == ts[..n - 1];
      assert ReadAt(x, ts, n - 1).Some?;
      PollFirst(After(x, ts[..n - 1]), rest, ts[n - 1]);
    }
  }

  lemma AfterNext(g: Gen, ts: seq<nat>, n: nat)
    requires n < |ts|
    ensures After(g, ts[..n + 1]) == Poll(After(g, ts[..n]), ts[n]).gen
    ensures ReadAt(g, ts, n) == Poll(After(g, ts[..n]), ts[n]).rps
  {
    assert ts[..n + 1][..n] == ts[..n];
  }

  /** Poll `n` finds the Seq where the others, started at poll `k`, are by then. */
  ghost predicate MovedOn(x: Gen, rest: seq<Gen>, ts: seq<nat>, k: nat, n: nat)
    requires k <= n < |ts|
  {
    var others := ActivateAt(Seq(0, rest), ts[k]);
    var s := After(others, ts[k..][..n - k + 1]);
    && s.Seq? && s.idx <= |s.generators|
    && After(Seq(0, [x] + rest), ts[..n + 1]) == Shifted(After(x, ts[..k + 1]), s)
    && ReadAt(Seq(0, [x] + rest), ts, n) == ReadAt(others, ts[k..], n - k)
  }

  lemma MovesOn(x: Gen, rest: seq<Gen>, ts: seq<nat>, k: nat)
    requires k < |ts| && AliveFor(x, ts, k) && ReadAt(x, ts, k).None?
    ensures MovedOn(x, rest, ts, k, k)
  {
    var others := ActivateAt(Seq(0, rest), ts[k]);
    ActivateHead(rest, ts[k]);
    FirstAlive(x, rest, ts, k);
    assert ts[k..][..0] == [] && ts[k..][0] == ts[k];
    assert After(others, []) == others;
    hide Poll, ActivateAt, StartHead, AliveFor, After;
    AfterNext(x, ts, k);
    AfterNext(Seq(0, [x] + rest), ts, k);
    AfterNext(others, ts[k..], 0);
    PollFirst(After(x, ts[..k]), rest, ts[k]);
    PollShifted(x, others, ts[k]);
  }

  lemma StaysMovedOn(x: Gen, rest: seq<Gen>, ts: seq<nat>, k: nat, n: nat)
    requires k <= n < |ts| - 1
    ensures MovedOn(x, rest, ts, k, n) ==> MovedOn(x, rest, ts, k, n + 1)
  {
    hide Poll, ActivateAt, After;
    var others := ActivateAt(Seq(0, rest), ts[k]);
    var s := After(others, ts[k..][..n - k + 1]);
    assert ts[k..][n + 1 - k] == ts[n + 1];
    AfterNext(Seq(0, [x] + rest), ts, n + 1);
    AfterNext(others, ts[k..], n + 1 - k);
    if MovedOn(x, rest, ts, k, n) {
      PollShifted(After(x, ts[..k + 1]), s, ts[n + 1]);
    }
  }

  /** From the poll that finds the first child ended on, the Seq is the Seq of the others,
      started at that poll. */
  lemma {:induction false} FirstEnded(x: Gen, rest: seq<Gen>, ts: seq<nat>, k: nat, n: nat)
    requires k <= n < |ts| && AliveFor(x, ts, k) && ReadAt(x, ts, k).None?
    ensures MovedOn(x, rest, ts, k, n)
    decreases n
  {
    hide AliveFor, ReadAt, MovedOn;
    if n == k {
      MovesOn(x, rest, ts, k);
    } else {
      FirstEnded(x, rest, ts, k, n - 1);
      StaysMovedOn(x, rest, ts, k, n - 1);
    }
  }

  lemma FirstAliveReads(x: Gen, rest: seq<Gen>, ts: seq<nat>, n: nat)
    requires n < |ts| && AliveFor(x, ts, n) && ReadAt(x, ts, n).Some?
    ensures ReadAt(Seq(0, [x] + rest), ts, n) == ReadAt(x, ts, n)
  {
    FirstAlive(x, rest, ts, n);
    hide Poll, After, AliveFor;
    PollFirst(After(x, ts[..n]), rest, ts[n]);
  }

  lemma FirstEndedReads(x: Gen, rest: seq<Gen>, ts: seq<nat>, k: nat, n: nat)
    requires k <= n < |ts| && AliveFor(x, ts, k) && ReadAt(x, ts, k).None?
    ensures ReadAt(Seq(0, [x] + rest), ts, n) == ReadAt(ActivateAt(Seq(0, rest), ts[k]), ts[k..], n - k)
  {
    hide Poll, After, AliveFor, ReadAt;
    FirstEnded(x, rest, ts, k, n);
  }

  ghost predicate AllFresh(cs: seq<Gen>) { forall c | c in cs :: Fresh(c) }

  lemma FirstOfAll(gs: seq<Config>, cs: seq<Gen>, a: nat)
    requires gs != [] && RealizesAll(gs, cs) && AllFresh(cs)
    ensures cs != [] && Realizes(gs[0], cs[0]) && Fresh(cs[0])
    ensures RealizesAll(gs[1..], cs[1..]) && AllFresh(cs[1..])
    ensures ActivateAt(Seq(0, cs), a) == Seq(0, [ActivateAt(cs[0], a)] + cs[1..])
  {
    ActivateHead(cs, a);
    hide Realizes, Fresh;
  }

  lemma InTurn(gs: seq<Config>, a: nat, ts: seq<nat>)
    requires gs != [] && ts != []
    ensures var k := EndPoll(gs[0], a, ts);
            MeaningInTurn(gs, a, ts) ==
              if Meaning(gs[0], a, ts).Some? then Meaning(gs[0], a, ts) else MeaningInTurn(gs[1..], ts[k], ts[k..])
  {
    hide Meaning, EndPoll;
  }

  lemma {:induction false} SeqReads(gs: seq<Config>, cs: seq<Gen>, a: nat, ts: seq<nat>)
    requires RealizesAll(gs, cs) && AllFresh(cs) && Clock(ts, a) && ts != []
    ensures ReadAt(ActivateAt(Seq(0, cs), a), ts, |ts| - 1) == MeaningInTurn(gs, a, ts)
    decreases gs, 1, |ts|
  {
    hide *;
    if gs == [] {
      NoneInTurn(gs, cs, a, ts);
    } else {
      var n := |ts| - 1;
      FirstOfAll(gs, cs, a);
      var x, rest := ActivateAt(cs[0], a), cs[1..];
      InTurn(gs, a, ts);
      Reads(gs[0], cs[0], a, ts);
      if Meaning(gs[0], a, ts).Some? {
        AliveBefore(cs[0], a, ts, n);
        FirstAliveReads(x, rest, ts, n);
      } else {
        var k := EndPoll(gs[0], a, ts);
        EndPollEnds(gs[0], cs[0], a, ts);
        FirstEndedReads(x, rest, ts, k, n);
        ClockFrom(ts, a, k);
        SeqReads(gs[1..], rest, ts[k], ts[k..]);
      }
    }
  }

  lemma NoneInTurn(gs: seq<Config>, cs: seq<Gen>, a: nat, ts: seq<nat>)
    requires gs == [] && RealizesAll(gs, cs) && ts != []
    ensures ReadAt(ActivateAt(Seq(0, cs), a), ts, |ts| - 1) == MeaningInTurn(gs, a, ts)
  {
    EmptySeqReads(ts, |ts| - 1);
  }

  lemma {:induction false} EmptySeqReads(ts: seq<nat>, n: nat)
    requires n < |ts|
    ensures After(Seq(0, []), ts[..n]) == Seq(0, []) && ReadAt(Seq(0, []), ts, n).None?
  {
    if n > 0 {
      EmptySeqReads(ts, n - 1);
      assert ts[..n][..n - 1] == ts[..n - 1];
    }
  }

  lemma ClockFrom(ts: seq<nat>, a: nat, k: nat)
    requires Clock(ts, a) && k < |ts|
    ensures Clock(ts[k..], ts[k])
  {
  }

  /** A value at poll `n` means a value at every poll before it. */
  lemma AliveBefore(g: Gen, a: nat, ts: seq<nat>, n: nat)
    requires Fresh(g) && Clock(ts, a) && n < |ts| && ReadAt(ActivateAt(g, a), ts, n).Some?
    ensures AliveFor(ActivateAt(g, a), ts, n)
  {
    hide Poll, Fresh, ActivateAt;
    forall j | 0 <= j < n ensures ReadAt(ActivateAt(g, a), ts, j).Some? {
      if ReadAt(ActivateAt(g, a), ts, j).None? {
        ExhaustionIsPermanent(g, a, ts, j, n);
      }
    }
  }

  lemma {:induction false} EndPollEnds(c: Config, g: Gen, a: nat, ts: seq<nat>)
    requires Realizes(c, g) && Fresh(g) && Clock(ts, a) && ts != [] && Meaning(c, a, ts).None?
    ensures var k := EndPoll(c, a, ts);
            AliveFor(ActivateAt(g, a), ts, k) && ReadAt(ActivateAt(g, a), ts, k).None?
    decreases c, 1, |ts|
  {
    hide Poll, Fresh, ActivateAt, Realizes, AliveFor, Clock;
    var n := |ts| - 1;
    Reads(c, g, a, ts);
    if n == 0 {
      NoPollsAlive(ActivateAt(g, a), ts);
    } else {
      var before := ts[..n];
      ClockBefore(ts, a);
      Reads(c, g, a, before);
      if Meaning(c, a, before).Some? {
        AliveThrough(g, a, ts);
      } else {
        EndPollEnds(c, g, a, before);
        PrefixReads(ActivateAt(g, a), ts, EndPoll(c, a, before));
      }
    }
  }

  lemma NoPollsAlive(g: Gen, ts: seq<nat>)
    ensures AliveFor(g, ts, 0)
  {
  }

  lemma ClockBefore(ts: seq<nat>, a: nat)
    requires ts != [] && Clock(ts, a)
    ensures Clock(ts[..|ts| - 1], a)
  {
  }

  /** A value at the poll before the last means a value at all polls up to there. */
  lemma AliveThrough(g: Gen, a: nat, ts: seq<nat>)
    requires |ts| > 1 && Fresh(g) && Clock(ts, a)
    requires ReadAt(ActivateAt(g, a), ts[..|ts| - 1], |ts| - 2).Some?
    ensures AliveFor(ActivateAt(g, a), ts, |ts| - 1)
  {
    hide Poll, Fresh, ActivateAt;
    var m := |ts| - 2;
    assert ts[..m + 1][..m] == ts[..m] && ts[..m + 1][m] == ts[m];
    AliveBefore(g, a, ts, m);
  }

  lemma PrefixReads(g: Gen, ts: seq<nat>, k: nat)
    requires k < |ts| - 1 && AliveFor(g, ts[..|ts| - 1], k)
    ensures AliveFor(g, ts, k) && ReadAt(g, ts, k) == ReadAt(g, ts[..|ts| - 1], k)
  {
    hide Poll;
    var before := ts[..|ts| - 1];
    assert forall j :: 0 <= j < |before| ==> before[..j] == ts[..j] && before[j] == ts[j];
    forall j | 0 <= j < k ensures ReadAt(g, ts, j).Some? {
      assert ReadAt(g, before, j).Some?;
    }
  }

  // --- Sum --------------------------------------------------------------------------

  ghost function Afters(cs: seq<Gen>, ts: seq<nat>): seq<Gen> {
    seq(|cs|, i requires 0 <= i < |cs| => After(cs[i], ts))
  }

  lemma {:induction false} SumAfter(cs: seq<Gen>, ts: seq<nat>)
    ensures After(Sum(cs), ts) == Sum(Afters(cs, ts))
  {
    if ts == [] {
      assert Afters(cs, []) == cs;
    } else {
      var n := |ts| - 1;
      SumAfter(cs, ts[..n]);
      PollAllEach(Afters(cs, ts[..n]), ts[n]);
      assert PollAll(Afters(cs, ts[..n]), ts[n]).gens == Afters(cs, ts);
    }
  }

  /** Children that read what their configurations mean. */
  ghost predicate ReadsMeanings(gs: seq<Config>, xs: seq<Gen>, a: nat, ts: seq<nat>)
    requires ts != []
  {
    |gs| == |xs| && forall i :: 0 <= i < |gs| ==> Poll(xs[i], ts[|ts| - 1]).rps == Meaning(gs[i], a, ts)
  }

  lemma {:induction false} PresentIsTotal(gs: seq<Config>, xs: seq<Gen>, a: nat, ts: seq<nat>)
    requires ts != [] && ReadsMeanings(gs, xs, a, ts)
    ensures Present(xs, ts[|ts| - 1]) == TotalOf(gs, a, ts)
    ensures PollAll(xs, ts[|ts| - 1]).rps.Some? <==> AnyOf(gs, a, ts)
  {
    hide Poll, Meaning;
    if gs != [] {
      var n := |gs| - 1;
      PresentIsTotal(gs[..n], xs[..n], a, ts);
      PollAllLast(xs, ts[|ts| - 1]);
    }
  }

  lemma SumReads(gs: seq<Config>, xs: seq<Gen>, a: nat, ts: seq<nat>)
    requires ts != [] && ReadsMeanings(gs, xs, a, ts)
    ensures PollAll(xs, ts[|ts| - 1]).rps == Meaning(SumConfig(gs), a, ts)
  {
    PresentIsTotal(gs, xs, a, ts);
    SumIsTotal(xs, ts[|ts| - 1]);
    hide PollAll, Present, Poll;
  }

  // --- Main result ------------------------------------------------------------------

  lemma {:induction false} Reads(c: Config, g: Gen, a: nat, ts: seq<nat>)
    requires Realizes(c, g) && Fresh(g) && Clock(ts, a) && ts != []
    ensures ReadAt(ActivateAt(g, a), ts, |ts| - 1) == Meaning(c, a, ts)
    decreases c, 0, |ts|
  {
    match c
    case SeqConfig(gs) =>
      SeqReads(gs, g.generators, a, ts);
    case SumConfig(gs) =>
      var n := |ts| - 1;
      var started := ActivateAll(g.generators, a);
      SumAfter(started, ts[..n]);
      var xs := Afters(started, ts[..n]);
      forall i | 0 <= i < |gs| ensures Poll(xs[i], ts[n]).rps == Meaning(gs[i], a, ts) {
        Reads(gs[i], g.generators[i], a, ts);
      }
      SumReads(gs, xs, a, ts);
    case _ =>
      LeafReads(c, g, a, ts);
  }

  /** Every poll of every created profile returns what its configuration means. */
  lemma PollsMean(c: Config, born: nat, a: nat, ts: seq<nat>, i: nat)
    requires Create(c, born).Some? && Clock(ts, a) && i < |ts|
    ensures ReadAt(ActivateAt(Create(c, born).value, a), ts, i) == Meaning(c, a, ts[..i + 1])
  {
    CreateRealizes(c, born);
    hide Create, Poll, Meaning;
    Reads(c, Create(c, born).value, a, ts[..i + 1]);
    assert ts[..i + 1][..i] == ts[..i];
  }
}
