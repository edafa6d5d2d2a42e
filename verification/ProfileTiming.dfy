/** When a profile ends. A poll that sees a child end starts the next child at that
    poll, so a Seq drifts by up to one poll gap per leaf; this module bounds the drift
    from both sides for every tree and every poll sequence. */
module ProfileTiming {
  import opened Common
  import opened Generators

  // --- States between polls -----------------------------------------------------

  /** Not started yet: every Seq inside still points at its first child. */
  ghost predicate Fresh(g: Gen)
    decreases g
  {
    && (g.Seq? ==> g.idx == 0)
    && (g.Seq? || g.Sum? ==> forall c | c in g.generators :: Fresh(c))
  }

  /** A poll at `t` finds something left to generate. */
  ghost predicate Alive(g: Gen, t: nat)
    decreases g
  {
    match g
    case Line(_, _, t0, duration) => t <= t0 + duration
    case Sin(_, _, t0, duration) => t <= t0 + duration
    case Seq(idx, cs) => idx < |cs| && Alive(cs[idx], t)
    case Sum(cs) => exists c | c in cs :: Alive(c, t)
  }

  /** The tree as a poll at `t` leaves it: each Seq stands at a child with something
      left (or past its end), and the children behind that one have not started. */
  ghost predicate Settled(g: Gen, t: nat)
    decreases g
  {
    match g
    case Line(_, _, _, _) => true
    case Sin(_, _, _, _) => true
    case Seq(idx, cs) =>
      && idx <= |cs|
      && (idx < |cs| ==> Alive(cs[idx], t) && Settled(cs[idx], t))
      && (idx < |cs| ==> forall c | c in cs[idx + 1..] :: Fresh(c))
    case Sum(cs) => forall c | c in cs :: Settled(c, t)
  }

  /** Time a not yet started tree may take when every leaf may overrun by `gap`. */
  ghost function Budget(g: Gen, gap: nat): nat
    decreases g
  {
    match g
    case Line(_, _, _, duration) => duration + gap
    case Sin(_, _, _, duration) => duration + gap
    case Seq(_, cs) => BudgetTotal(cs, gap)
    case Sum(cs) => BudgetLongest(cs, gap)
  }

  ghost function BudgetTotal(cs: seq<Gen>, gap: nat): nat
    decreases cs
  {
    if cs == [] then 0 else Budget(cs[0], gap) + BudgetTotal(cs[1..], gap)
  }

  ghost function BudgetLongest(cs: seq<Gen>, gap: nat): (m: nat)
    ensures forall c | c in cs :: Budget(c, gap) <= m
    ensures m == 0 || exists c | c in cs :: Budget(c, gap) == m
    decreases cs
  {
    if cs == [] then 0
    else
      var rest := BudgetLongest(cs[1..], gap);
      assert cs[0] in cs && forall c | c in cs[1..] :: c in cs;
      Max(Budget(cs[0], gap), rest)
  }

  /** Latest instant at which a settled tree polled with gaps up to `gap` can still have
      a value. With no gap it is the earliest instant at which the tree may end. */
  ghost function Horizon(g: Gen, gap: nat): nat
    decreases g
  {
    match g
    case Line(_, _, t0, duration) => t0 + duration
    case Sin(_, _, t0, duration) => t0 + duration
    case Seq(idx, cs) =>
      if idx >= |cs| then 0 else Horizon(cs[idx], gap) + BudgetTotal(cs[idx + 1..], gap)
    case Sum(cs) => HorizonLast(cs, gap)
  }

  ghost function HorizonLast(cs: seq<Gen>, gap: nat): (m: nat)
    ensures forall c | c in cs :: Horizon(c, gap) <= m
    ensures m == 0 || exists c | c in cs :: Horizon(c, gap) == m
    decreases cs
  {
    if cs == [] then 0
    else
      var rest := HorizonLast(cs[1..], gap);
      assert cs[0] in cs && forall c | c in cs[1..] :: c in cs;
      Max(Horizon(cs[0], gap), rest)
  }

  // --- One state ----------------------------------------------------------------

  lemma {:induction false} HorizonSeparates(g: Gen, t: nat, gap: nat)
    requires Settled(g, t)
    ensures if Alive(g, t) then t <= Horizon(g, gap) else Horizon(g, gap) <= t
    decreases g
  {
    match g
    case Line(_, _, _, _) =>
    case Sin(_, _, _, _) =>
    case Seq(idx, cs) =>
      if idx < |cs| {
        HorizonSeparates(cs[idx], t, gap);
      }
    case Sum(cs) =>
      forall c | c in cs ensures if Alive(c, t) then t <= Horizon(c, gap) else Horizon(c, gap) <= t {
        HorizonSeparates(c, t, gap);
      }
  }

  // --- The first poll of a started tree -----------------------------------------

  /** What polling at `p` a tree that was started at `a` leaves behind. */
  ghost predicate StartedWell(g: Gen, a: nat, p: nat, r: Reading, gap: nat) {
    && Settled(r.gen, p)
    && (r.rps.Some? <==> Alive(r.gen, p))
    && (r.rps.Some? ==> Horizon(r.gen, 0) >= a + Budget(g, 0))
    && (r.rps.None? ==> p >= a + Budget(g, 0))
    && (r.rps.Some? || Horizon(r.gen, gap) > 0 ==> Horizon(r.gen, gap) + gap <= p + Budget(g, gap))
  }

  /** The same for the children of a Seq, polled until one of them has a value. */
  ghost predicate SeqStartedWell(cs: seq<Gen>, a: nat, p: nat, r: SeqReading, gap: nat) {
    var n := r.passed;
    && |r.gens| == |cs|
    && n <= |cs|
    && (r.rps.Some? <==> n < |cs|)
    && (r.rps.Some? ==>
          && Alive(r.gens[n], p) && Settled(r.gens[n], p)
          && (forall c | c in r.gens[n + 1..] :: Fresh(c))
          && Horizon(r.gens[n], 0) + BudgetTotal(r.gens[n + 1..], 0) >= a + BudgetTotal(cs, 0)
          && Horizon(r.gens[n], gap) + BudgetTotal(r.gens[n + 1..], gap) + gap <= p + BudgetTotal(cs, gap))
    && (r.rps.None? ==> p >= a + BudgetTotal(cs, 0))
  }

  lemma {:induction false} FirstPoll(g: Gen, a: nat, p: nat, gap: nat)
    requires Fresh(g) && a <= p
    ensures StartedWell(g, a, p, Poll(ActivateAt(g, a), p), gap)
    decreases Weight(g), 0
  {
    match g
    case Line(_, _, _, _) =>
    case Sin(_, _, _, _) =>
    case Seq(_, cs) =>
      if cs != [] {
        FirstPollSeq(cs, a, p, gap);
        var started := StartHead(cs, a);
        assert ActivateAt(g, a) == Seq(0, started);
        var r := PollSeq(started, p);
        assert started[0..] == started && started[..0] + r.gens == r.gens;
        PollStanding(0, started, p, r);
        SeqStarted(cs, a, p, r, gap);
      }
    case Sum(cs) =>
      forall i | 0 <= i < |cs|
        ensures StartedWell(cs[i], a, p, Poll(ActivateAt(cs[i], a), p), gap)
      {
        WeightAt(cs, i);
        FirstPoll(cs[i], a, p, gap);
      }
      FirstPollSum(cs, a, p, gap);
  }

  lemma {:induction false} FirstPollSeq(cs: seq<Gen>, a: nat, p: nat, gap: nat)
    requires a <= p && forall c | c in cs :: Fresh(c)
    ensures SeqStartedWell(cs, a, p, PollSeq(StartHead(cs, a), p), gap)
    decreases WeightAll(cs), 1
  {
    if cs != [] {
      FirstPoll(cs[0], a, p, gap);
      var started := StartHead(cs, a);
      var first := Poll(started[0], p);
      assert started[1..] == cs[1..];
      if first.rps.None? {
        FirstPollSeq(cs[1..], p, p, gap);
        SeqTailStarted(cs, a, p, first, PollSeq(StartHead(cs[1..], p), p), gap);
      } else {
        assert ([first.gen] + cs[1..])[1..] == cs[1..];
      }
    }
  }

  lemma SeqTailStarted(cs: seq<Gen>, a: nat, p: nat, first: Reading, rest: SeqReading, gap: nat)
    requires cs != [] && a <= p && StartedWell(cs[0], a, p, first, gap) && first.rps.None?
    requires SeqStartedWell(cs[1..], p, p, rest, gap)
    ensures SeqStartedWell(cs, a, p, SeqReading(rest.passed + 1, [first.gen] + rest.gens, rest.rps), gap)
  {
    var gens := [first.gen] + rest.gens;
    if rest.rps.Some? {
      assert gens[rest.passed + 1] == rest.gens[rest.passed];
      assert gens[rest.passed + 2..] == rest.gens[rest.passed + 1..];
    }
  }

  lemma SeqStarted(cs: seq<Gen>, a: nat, p: nat, r: SeqReading, gap: nat)
    requires SeqStartedWell(cs, a, p, r, gap)
    ensures StartedWell(Seq(0, cs), a, p, Reading(Seq(r.passed, r.gens), r.rps), gap)
  {
    if r.rps.Some? {
      var s := Seq(r.passed, r.gens);
      assert Settled(s, p) && Alive(s, p);
    } else {
      assert r.passed == |cs|;
    }
  }

  lemma FirstPollSum(cs: seq<Gen>, a: nat, p: nat, gap: nat)
    requires a <= p
    requires forall i :: 0 <= i < |cs| ==> StartedWell(cs[i], a, p, Poll(ActivateAt(cs[i], a), p), gap)
    ensures StartedWell(Sum(cs), a, p, Poll(ActivateAt(Sum(cs), a), p), gap)
  {
    hide StartedWell;
    var started := ActivateAll(cs, a);
    PollAllEach(started, p);
    var rs := seq(|cs|, i requires 0 <= i < |cs| => Poll(started[i], p));
    SumStarted(cs, rs, a, p, Poll(Sum(started), p), gap);
  }

  lemma SumStarted(cs: seq<Gen>, rs: seq<Reading>, a: nat, p: nat, r: Reading, gap: nat)
    requires a <= p
    requires |rs| == |cs| && forall i :: 0 <= i < |cs| ==> StartedWell(cs[i], a, p, rs[i], gap)
    requires r.gen.Sum? && |r.gen.generators| == |cs|
    requires forall i :: 0 <= i < |cs| ==> r.gen.generators[i] == rs[i].gen
    requires r.rps.Some? <==> exists i :: 0 <= i < |cs| && rs[i].rps.Some?
    ensures StartedWell(Sum(cs), a, p, r, gap)
  {
    var gens := r.gen.generators;
    assert forall c | c in gens :: Settled(c, p);
    if r.rps.Some? {
      var i :| 0 <= i < |cs| && rs[i].rps.Some?;
      assert gens[i] in gens && Alive(gens[i], p);
      HorizonSeparates(gens[i], p, 0);
      assert cs[i] in cs && Horizon(gens[i], gap) + gap <= p + Budget(cs[i], gap);
    }
    forall c | c in cs
      ensures r.rps.Some? ==> HorizonLast(gens, 0) >= a + Budget(c, 0)
      ensures r.rps.None? ==> p >= a + Budget(c, 0)
    {
      var i :| 0 <= i < |cs| && cs[i] == c;
      assert StartedWell(cs[i], a, p, rs[i], gap) && gens[i] in gens;
    }
    forall c | c in gens && Horizon(c, gap) > 0
      ensures Horizon(c, gap) + gap <= p + BudgetLongest(cs, gap)
    {
      var i :| 0 <= i < |cs| && gens[i] == c;
      assert StartedWell(cs[i], a, p, rs[i], gap) && cs[i] in cs;
    }
  }

  // --- Every later poll ---------------------------------------------------------

  /** What a poll at `now` does to a tree last polled at `last`. */
  ghost predicate SteppedWell(g: Gen, last: nat, now: nat, r: Reading, gap: nat) {
    && Settled(r.gen, now)
    && (r.rps.Some? <==> Alive(r.gen, now))
    && (!Alive(g, last) ==> r.rps.None?)
    && (r.rps.Some? ==> Horizon(r.gen, 0) >= Horizon(g, 0))
    && (r.rps.None? ==> now >= Horizon(g, 0))
    && (now <= last + gap ==> Horizon(r.gen, gap) <= Horizon(g, gap))
  }

  lemma {:induction false} NextPoll(g: Gen, last: nat, now: nat, gap: nat)
    requires Settled(g, last) && last <= now
    ensures SteppedWell(g, last, now, Poll(g, now), gap)
    decreases Weight(g)
  {
    match g
    case Line(_, _, _, _) =>
    case Sin(_, _, _, _) =>
    case Seq(idx, cs) =>
      if idx < |cs| {
        WeightAt(cs, idx);
        NextPoll(cs[idx], last, now, gap);
        FirstPollSeq(cs[idx + 1..], now, now, gap);
        PollOnward(idx, cs, now);
        SeqStepped(idx, cs, last, now, Poll(cs[idx], now), PollSeq(StartHead(cs[idx + 1..], now), now), gap);
      }
    case Sum(cs) =>
      PollAllEach(cs, now);
      var rs := seq(|cs|, i requires 0 <= i < |cs| => Poll(cs[i], now));
      forall i | 0 <= i < |cs| ensures SteppedWell(cs[i], last, now, rs[i], gap) {
        WeightAt(cs, i);
        NextPoll(cs[i], last, now, gap);
      }
      SumStepped(cs, rs, last, now, Poll(g, now), gap);
  }

  lemma SeqStepped(idx: nat, cs: seq<Gen>, last: nat, now: nat, first: Reading, rest: SeqReading, gap: nat)
    requires idx < |cs| && Settled(Seq(idx, cs), last) && last <= now
    requires SteppedWell(cs[idx], last, now, first, gap)
    requires SeqStartedWell(cs[idx + 1..], now, now, rest, gap)
    ensures SteppedWell(Seq(idx, cs), last, now, Onward(idx, cs, first, rest), gap)
  {
    if first.rps.Some? {
      assert cs[idx := first.gen][idx + 1..] == cs[idx + 1..];
      SeqStays(idx, cs, cs[idx := first.gen], last, now, first, gap);
    } else {
      Splice(cs[..idx] + [first.gen], rest.gens, rest.passed);
      SeqMovesOn(idx, cs, idx + 1 + rest.passed, cs[..idx] + [first.gen] + rest.gens, last, now, first, rest, gap);
    }
  }

  lemma Splice(pre: seq<Gen>, rest: seq<Gen>, k: nat)
    ensures k < |rest| ==> (pre + rest)[|pre| + k] == rest[k] && (pre + rest)[|pre| + k + 1..] == rest[k + 1..]
  {
  }

  lemma SeqStays(idx: nat, cs: seq<Gen>, gens: seq<Gen>, last: nat, now: nat, first: Reading, gap: nat)
    requires idx < |cs| == |gens| && Settled(Seq(idx, cs), last) && last <= now
    requires SteppedWell(cs[idx], last, now, first, gap) && first.rps.Some?
    requires gens[idx] == first.gen && gens[idx + 1..] == cs[idx + 1..]
    ensures SteppedWell(Seq(idx, cs), last, now, Reading(Seq(idx, gens), first.rps), gap)
  {
  }

  lemma SeqMovesOn(idx: nat, cs: seq<Gen>, n: nat, gens: seq<Gen>, last: nat, now: nat,
                   first: Reading, rest: SeqReading, gap: nat)
    requires idx < |cs| == |gens| && Settled(Seq(idx, cs), last) && last <= now
    requires SteppedWell(cs[idx], last, now, first, gap) && first.rps.None?
    requires SeqStartedWell(cs[idx + 1..], now, now, rest, gap)
    requires n == idx + 1 + rest.passed
    requires rest.rps.Some? ==> gens[n] == rest.gens[rest.passed] && gens[n + 1..] == rest.gens[rest.passed + 1..]
    ensures SteppedWell(Seq(idx, cs), last, now, Reading(Seq(n, gens), rest.rps), gap)
  {
    HorizonSeparates(cs[idx], last, gap);
    var s := Seq(n, gens);
    if rest.rps.Some? {
      assert Settled(s, now) && Alive(s, now);
      assert Horizon(s, 0) == Horizon(gens[n], 0) + BudgetTotal(gens[n + 1..], 0);
      assert Horizon(s, gap) == Horizon(gens[n], gap) + BudgetTotal(gens[n + 1..], gap);
    } else {
      assert n == |gens| && Settled(s, now) && !Alive(s, now);
    }
  }

  lemma SumStepped(cs: seq<Gen>, rs: seq<Reading>, last: nat, now: nat, r: Reading, gap: nat)
    requires Settled(Sum(cs), last) && last <= now
    requires |rs| == |cs| && forall i :: 0 <= i < |cs| ==> SteppedWell(cs[i], last, now, rs[i], gap)
    requires r.gen.Sum? && |r.gen.generators| == |cs|
    requires forall i :: 0 <= i < |cs| ==> r.gen.generators[i] == rs[i].gen
    requires r.rps.Some? <==> exists i :: 0 <= i < |cs| && rs[i].rps.Some?
    ensures SteppedWell(Sum(cs), last, now, r, gap)
  {
    var gens := r.gen.generators;
    assert forall c | c in gens :: Settled(c, now);
    if r.rps.Some? {
      var i :| 0 <= i < |cs| && rs[i].rps.Some?;
      assert gens[i] in gens && Alive(gens[i], now) && cs[i] in cs && Alive(cs[i], last);
      HorizonSeparates(gens[i], now, 0);
    }
    forall c | c in cs
      ensures r.rps.Some? ==> HorizonLast(gens, 0) >= Horizon(c, 0)
      ensures r.rps.None? ==> now >= Horizon(c, 0)
    {
      var i :| 0 <= i < |cs| && cs[i] == c;
      assert SteppedWell(cs[i], last, now, rs[i], gap) && gens[i] in gens;
    }
    forall c | c in gens
      ensures now <= last + gap ==> Horizon(c, gap) <= HorizonLast(cs, gap)
    {
      var i :| 0 <= i < |cs| && gens[i] == c;
      assert SteppedWell(cs[i], last, now, rs[i], gap) && cs[i] in cs;
    }
  }
}
