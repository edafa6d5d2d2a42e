/** Load profiles: the configuration tree, the generator tree built from it, and one
    poll of that tree (dwd-core/src/generator.rs). Instants and durations are whole
    nanoseconds. A generator tree is a value because every `Box<dyn Generator>` in it
    has exactly one owner; a poll returns the updated tree with its reading. */
module Generators {
  import opened Common

  const GIGA: int := 1_000_000_000
  const I64_BOUND: int := 0x8000_0000_0000_0000
  const U64_BOUND: int := 0x1_0000_0000_0000_0000

  type u64 = x: int | 0 <= x < U64_BOUND

  // --- Machine arithmetic -------------------------------------------------------

  function AsU64(x: int): u64 { x % U64_BOUND }

  /** Two's complement reading of the low 64 bits. */
  function AsI64(x: int): (r: int)
    ensures -I64_BOUND <= r < I64_BOUND
    ensures -I64_BOUND <= x < I64_BOUND ==> r == x
  {
    var low := x % U64_BOUND;
    if low >= I64_BOUND then low - U64_BOUND else low
  }

  /** Integer division that rounds toward zero. */
  function TruncDiv(a: int, b: int): int
    requires b != 0
  {
    var q := (if a < 0 then -a else a) / (if b < 0 then -b else b);
    if (a < 0) == (b < 0) then q else -q
  }

  // --- Configuration ------------------------------------------------------------

  /** Durations are in seconds. The sine leaf is abstract: a duration, a ceiling and a
      wave over elapsed time, or no wave when no phase is found for it. */
  datatype Config =
    | ConstConfig(rps: u64, secs: nat)
    | LineConfig(rps0: u64, rps1: u64, secs: nat)
    | SinConfig(ceiling: u64, wave: Option<nat -> nat>, secs: nat)
    | SeqConfig(generators: seq<Config>)
    | SumConfig(generators: seq<Config>)

  datatype Gen =
    | Line(k: int, b: u64, t0: nat, duration: nat)
    | Sin(ceiling: u64, wave: nat -> nat, t0: nat, duration: nat)
    | Seq(idx: nat, generators: seq<Gen>)
    | Sum(generators: seq<Gen>)

  function Duration(c: Config): nat {
    match c
    case ConstConfig(_, secs) => secs * GIGA
    case LineConfig(_, _, secs) => secs * GIGA
    case SinConfig(_, _, secs) => secs * GIGA
    case SeqConfig(gs) => DurationTotal(gs)
    case SumConfig(gs) => DurationLongest(gs)
  }

  function DurationTotal(gs: seq<Config>): nat {
    if gs == [] then 0 else Duration(gs[0]) + DurationTotal(gs[1..])
  }

  function DurationLongest(gs: seq<Config>): nat {
    if gs == [] then 0 else Max(Duration(gs[0]), DurationLongest(gs[1..]))
  }

  /** `None` stands for the integer division trap of a zero (or wrapped to zero) duration. */
  function LineNew(rps0: u64, rps1: u64, duration: nat, now: nat): Option<Gen> {
    var rise := AsI64(AsI64(AsI64(rps1) - AsI64(rps0)) * GIGA);
    var nanos := AsI64(duration);
    if nanos == 0 || (rise == -I64_BOUND && nanos == -1) then None
    else Some(Line(TruncDiv(rise, nanos), rps0, now, duration))
  }

  /** `None` when some leaf cannot be built. */
  function Create(c: Config, now: nat): Option<Gen> {
    match c
    case ConstConfig(rps, secs) => LineNew(rps, rps, secs * GIGA, now)
    case LineConfig(rps0, rps1, secs) => LineNew(rps0, rps1, secs * GIGA, now)
    case SinConfig(ceiling, wave, secs) =>
      if wave.None? then None else Some(Sin(ceiling, wave.value, now, secs * GIGA))
    case SeqConfig(gs) => (var cs := CreateAll(gs, now); if cs.None? then None else Some(Seq(0, cs.value)))
    case SumConfig(gs) => (var cs := CreateAll(gs, now); if cs.None? then None else Some(Sum(cs.value)))
  }

  function CreateAll(gs: seq<Config>, now: nat): (r: Option<seq<Gen>>)
    ensures r.Some? <==> forall i :: 0 <= i < |gs| ==> Create(gs[i], now).Some?
    ensures r.Some? ==> |r.value| == |gs| &&
                        forall i :: 0 <= i < |gs| ==> Create(gs[i], now) == Some(r.value[i])
  {
    if gs == [] then Some([])
    else
      var init := CreateAll(gs[..|gs| - 1], now);
      var last := Create(gs[|gs| - 1], now);
      if init.None? || last.None? then None else Some(init.value + [last.value])
  }

  // --- Polling ------------------------------------------------------------------

  /** `Instant::duration_since`, which saturates at zero. */
  function Elapsed(now: nat, t0: nat): nat { if now >= t0 then now - t0 else 0 }

  function LineValue(k: int, b: u64, elapsed: nat): u64 {
    AsU64(AsI64(TruncDiv(AsI64(k * AsI64(elapsed)), GIGA) + AsI64(b)))
  }

  /** Number of nodes; polling recurses into a smaller forest. */
  ghost function Weight(g: Gen): nat
    decreases g
  {
    1 + if g.Seq? || g.Sum? then WeightAll(g.generators) else 0
  }

  ghost function WeightAll(cs: seq<Gen>): nat
    decreases cs
  {
    if cs == [] then 0 else Weight(cs[0]) + WeightAll(cs[1..])
  }

  lemma {:induction false} WeightSplit(cs: seq<Gen>, i: nat)
    requires i <= |cs|
    ensures WeightAll(cs) == WeightAll(cs[..i]) + WeightAll(cs[i..])
  {
    if i > 0 {
      WeightSplit(cs[1..], i - 1);
      assert cs[1..][i - 1..] == cs[i..];
      assert cs[..i][1..] == cs[1..][..i - 1];
    } else {
      assert cs[0..] == cs;
    }
  }

  lemma WeightAt(cs: seq<Gen>, i: nat)
    requires i < |cs|
    ensures WeightAll(cs) == WeightAll(cs[..i]) + Weight(cs[i]) + WeightAll(cs[i + 1..])
  {
    WeightSplit(cs, i);
    assert cs[i..][1..] == cs[i + 1..];
  }

  function ActivateAt(g: Gen, now: nat): (r: Gen)
    ensures Weight(r) == Weight(g)
    decreases g
  {
    match g
    case Line(k, b, _, duration) => Line(k, b, now, duration)
    case Sin(ceiling, wave, _, duration) => Sin(ceiling, wave, now, duration)
    case Seq(idx, cs) =>
      if idx >= |cs| then g
      else
        var c := ActivateAt(cs[idx], now);
        WeightAt(cs, idx); WeightAt(cs[idx := c], idx);
        assert cs[idx := c][..idx] == cs[..idx] && cs[idx := c][idx + 1..] == cs[idx + 1..];
        Seq(idx, cs[idx := c])
    case Sum(cs) => Sum(ActivateAll(cs, now))
  }

  function ActivateAll(cs: seq<Gen>, now: nat): (r: seq<Gen>)
    ensures |r| == |cs| && WeightAll(r) == WeightAll(cs)
    ensures forall i :: 0 <= i < |cs| ==> r[i] == ActivateAt(cs[i], now)
    decreases cs
  {
    if cs == [] then [] else [ActivateAt(cs[0], now)] + ActivateAll(cs[1..], now)
  }

  datatype Reading = Reading(gen: Gen, rps: Option<u64>)

  datatype SumReading = SumReading(gens: seq<Gen>, rps: Option<u64>)

  /** Children already finished in this poll, the updated children, and the value. */
  datatype SeqReading = SeqReading(passed: nat, gens: seq<Gen>, rps: Option<u64>)

  function Poll(g: Gen, now: nat): Reading
    decreases Weight(g), 0
  {
    match g
    case Line(k, b, t0, duration) =>
      var e := Elapsed(now, t0);
      Reading(g, if e > duration then None else Some(LineValue(k, b, e)))
    case Sin(ceiling, wave, t0, duration) =>
      var e := Elapsed(now, t0);
      Reading(g, if e > duration then None else Some(Min(wave(e), ceiling)))
    case Seq(idx, cs) =>
      if idx >= |cs| then Reading(g, None)
      else
        WeightSplit(cs, idx);
        var r := PollSeq(cs[idx..], now);
        Reading(Seq(idx + r.passed, cs[..idx] + r.gens), r.rps)
    case Sum(cs) =>
      var r := PollAll(cs, now);
      Reading(Sum(r.gens), r.rps)
  }

  /** Polls the first child; when it has ended, starts the next one at this very
      instant and polls on from there. */
  function PollSeq(cs: seq<Gen>, now: nat): (r: SeqReading)
    ensures |r.gens| == |cs| && r.passed <= |cs|
    ensures r.rps.Some? <==> r.passed < |cs|
    decreases WeightAll(cs), 1
  {
    if cs == [] then SeqReading(0, [], None)
    else
      var first := Poll(cs[0], now);
      if first.rps.Some? then SeqReading(0, [first.gen] + cs[1..], first.rps)
      else
        var rest := StartHead(cs[1..], now);
        var r := PollSeq(rest, now);
        SeqReading(r.passed + 1, [first.gen] + r.gens, r.rps)
  }

  function StartHead(cs: seq<Gen>, now: nat): (r: seq<Gen>)
    ensures WeightAll(r) == WeightAll(cs) && |r| == |cs|
  {
    if cs == [] then [] else [ActivateAt(cs[0], now)] + cs[1..]
  }

  /** Accumulates one child's reading; absent readings add nothing. */
  function Add(out: Option<u64>, v: Option<u64>): Option<u64> {
    if v.None? then out else if out.None? then v else Some(AsU64(out.value + v.value))
  }

  function PollAll(cs: seq<Gen>, now: nat): (r: SumReading)
    ensures |r.gens| == |cs|
    decreases WeightAll(cs), 1
  {
    if cs == [] then SumReading([], None)
    else
      var n := |cs| - 1;
      WeightAt(cs, n);
      var init := PollAll(cs[..n], now);
      var last := Poll(cs[n], now);
      SumReading(init.gens + [last.gen], Add(init.rps, last.rps))
  }

  /** A sum polls every child once, and has a value exactly when some child has one. */
  lemma {:induction false} PollAllEach(cs: seq<Gen>, now: nat)
    ensures forall i :: 0 <= i < |cs| ==> PollAll(cs, now).gens[i] == Poll(cs[i], now).gen
    ensures PollAll(cs, now).rps.Some? <==> exists i :: 0 <= i < |cs| && Poll(cs[i], now).rps.Some?
  {
    hide Poll;
    if cs != [] {
      var n := |cs| - 1;
      PollAllEach(cs[..n], now);
      assert forall i :: 0 <= i < n ==> cs[..n][i] == cs[i];
    }
  }

  /** One poll of a Seq in terms of the children it still has to run. */
  lemma PollStanding(idx: nat, cs: seq<Gen>, now: nat, r: SeqReading)
    requires idx <= |cs| && r == PollSeq(cs[idx..], now)
    ensures Poll(Seq(idx, cs), now) == Reading(Seq(idx + r.passed, cs[..idx] + r.gens), r.rps)
  {
    if idx == |cs| {
      assert cs[idx..] == [] && cs[..idx] + [] == cs;
    } else {
      hide PollSeq, PollAll, WeightAll, Weight, StartHead;
    }
  }

  /** A Seq's reading from its current child's reading and, when that child has ended,
      from the reading of the children behind it. */
  ghost function Onward(idx: nat, cs: seq<Gen>, first: Reading, rest: SeqReading): Reading
    requires idx < |cs|
  {
    if first.rps.Some? then Reading(Seq(idx, cs[idx := first.gen]), first.rps)
    else Reading(Seq(idx + 1 + rest.passed, cs[..idx] + [first.gen] + rest.gens), rest.rps)
  }

  lemma PollOnward(idx: nat, cs: seq<Gen>, now: nat)
    requires idx < |cs|
    ensures Poll(Seq(idx, cs), now)
         == Onward(idx, cs, Poll(cs[idx], now), PollSeq(StartHead(cs[idx + 1..], now), now))
  {
    hide Poll, PollSeq, StartHead;
    var standing, tail := cs[idx..], cs[idx + 1..];
    var first, rest := Poll(cs[idx], now), PollSeq(StartHead(tail, now), now);
    assert standing == [cs[idx]] + tail;
    PollSeqHead(standing, cs[idx], tail, now);
    var whole := SeqFrom(first, tail, rest);
    PollStanding(idx, cs, now, whole);
    OnwardFrom(idx, cs, first, rest);
  }

  ghost function SeqFrom(first: Reading, tail: seq<Gen>, rest: SeqReading): SeqReading {
    if first.rps.Some? then SeqReading(0, [first.gen] + tail, first.rps)
    else SeqReading(rest.passed + 1, [first.gen] + rest.gens, rest.rps)
  }

  lemma OnwardFrom(idx: nat, cs: seq<Gen>, first: Reading, rest: SeqReading)
    requires idx < |cs|
    ensures var whole := SeqFrom(first, cs[idx + 1..], rest);
            Onward(idx, cs, first, rest) == Reading(Seq(idx + whole.passed, cs[..idx] + whole.gens), whole.rps)
  {
    if first.rps.Some? {
      assert cs[..idx] + ([first.gen] + cs[idx + 1..]) == cs[idx := first.gen];
    } else {
      assert cs[..idx] + ([first.gen] + rest.gens) == cs[..idx] + [first.gen] + rest.gens;
    }
  }

  lemma PollSeqHead(cs: seq<Gen>, head: Gen, tail: seq<Gen>, now: nat)
    requires cs == [head] + tail
    ensures PollSeq(cs, now) == SeqFrom(Poll(head, now), tail, PollSeq(StartHead(tail, now), now))
  {
    assert cs[0] == head && cs[1..] == tail;
  }
}
