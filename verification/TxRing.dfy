/** The DPDK transmit loop (dwd-core/src/worker/dpdk.rs `Worker::run`): it cycles over
    preloaded mbufs and re-arms their reference counts every 16384 rounds. The driver is an
    environment: in each call it may finish any number of the oldest packets it was given
    by earlier calls, dropping one reference each, and then accepts any prefix of the burst
    that keeps at most 1024 packets in flight. */
module TxRing {
  import opened Common
  import opened RoundRobin

  const BURST: nat := 32
  const ROUNDS: nat := 16384
  const REFERENCES: int := 17408
  const QUEUE: nat := 1024

  /** `wire` lists the mbufs handed to the driver, oldest first; the first `completed` of
      them are finished. The last two fields remember the latest re-arming. */
  datatype Ring = Ring(
    lens: seq<nat>,
    refcnt: seq<int>,
    wire: seq<nat>,
    completed: nat,
    requests: nat,
    bytes: nat,
    bursts: seq<nat>,
    resetAt: nat,
    doneAtReset: nat)

  /** One pass of the loop: tokens from the shaper, and the driver's choices. */
  datatype Pass = Pass(tokens: nat, completes: nat, accepts: nat)

  ghost predicate Shape(s: Ring) {
    && |s.lens| == |s.refcnt| > 0
    && (forall w | w in s.wire :: w < |s.lens|)
    && s.completed <= |s.wire|
    && |s.bursts| == BURST
  }

  function Loaded(lens: seq<nat>): Ring {
    Ring(lens, seq(|lens|, _ => 1), [], 0, 0, 0, seq(BURST, _ => 0), 0, 0)
  }

  function Span(m: nat): nat { m * ROUNDS }

  function Rearm(s: Ring): (r: Ring)
    requires Shape(s)
    ensures Shape(r)
  {
    if |s.wire| % Span(|s.lens|) == 0
    then s.(refcnt := seq(|s.lens|, _ => REFERENCES), resetAt := |s.wire|, doneAtReset := s.completed)
    else s
  }

  /** The driver finishes its oldest packet. */
  function CompleteOne(s: Ring): (r: Ring)
    requires Shape(s) && s.completed < |s.wire|
    ensures Shape(r)
  {
    var w := s.wire[s.completed];
    assert w in s.wire;
    s.(refcnt := s.refcnt[w := s.refcnt[w] - 1], completed := s.completed + 1)
  }

  function Complete(s: Ring, k: nat): (r: Ring)
    requires Shape(s)
    ensures Shape(r) && r.wire == s.wire && r.lens == s.lens && s.completed <= r.completed
    decreases k
  {
    if k == 0 || s.completed == |s.wire| then s else Complete(CompleteOne(s), k - 1)
  }

  /** The burst never reaches past the last mbuf. */
  function BurstSize(s: Ring, tokens: nat): (n: nat)
    requires Shape(s)
    ensures |s.wire| % |s.lens| + n <= |s.lens|
  {
    Min(Min(BURST, |s.lens| - |s.wire| % |s.lens|), tokens)
  }

  function Accept(s: Ring, k: nat): (r: Ring)
    requires Shape(s) && k <= BURST && |s.wire| % |s.lens| + k <= |s.lens|
    ensures Shape(r)
  {
    if k == 0 then s
    else
      var at := |s.wire| % |s.lens|;
      s.(wire := s.wire + seq(k, j requires 0 <= j < k => at + j),
         requests := s.requests + k,
         bytes := s.bytes + Total(s.lens[at..at + k]),
         bursts := s.bursts[k - 1 := s.bursts[k - 1] + 1])
  }

  /** A prefix of the burst that fits the queue. */
  function Accepted(s: Ring, p: Pass): (k: nat)
    requires Shape(s)
    ensures k <= BURST && |s.wire| % |s.lens| + k <= |s.lens|
    ensures |s.wire| - s.completed <= QUEUE ==> |s.wire| + k - s.completed <= QUEUE
  {
    var room := Max(0, QUEUE - (|s.wire| - s.completed));
    Min(p.accepts, Min(BurstSize(s, p.tokens), room))
  }

  function Step(s: Ring, p: Pass): (r: Ring)
    requires Shape(s)
    ensures Shape(r)
  {
    var armed := Rearm(s);
    if p.tokens == 0 then armed
    else
      var drained := Complete(armed, p.completes);
      Accept(drained, Accepted(drained, p))
  }

  function Run(s: Ring, passes: seq<Pass>): (r: Ring)
    requires Shape(s)
    ensures Shape(r)
  {
    if passes == [] then s else Step(Run(s, passes[..|passes| - 1]), passes[|passes| - 1])
  }

  // --- Order on the wire ------------------------------------------------------------

  /** Packets leave in ring order, and the queue is never overfull. */
  ghost predicate InOrder(s: Ring) {
    && Shape(s)
    && (forall k :: 0 <= k < |s.wire| ==> s.wire[k] == k % |s.lens|)
    && |s.wire| - s.completed <= QUEUE
  }

  lemma ModForward(p: nat, m: nat, j: nat)
    requires m > 0 && p % m + j < m
    ensures (p + j) % m == p % m + j && (p + j) / m == p / m
  {
    DivModUnique(p + j, m, p / m, p % m + j);
  }

  lemma AcceptInOrder(s: Ring, k: nat)
    requires InOrder(s) && k <= BURST && |s.wire| % |s.lens| + k <= |s.lens|
    requires |s.wire| + k - s.completed <= QUEUE
    ensures InOrder(Accept(s, k))
  {
    var r := Accept(s, k);
    forall j | 0 <= j < |r.wire| ensures r.wire[j] == j % |s.lens| {
      if j >= |s.wire| {
        ModForward(|s.wire|, |s.lens|, j - |s.wire|);
      }
    }
  }

  // --- Reference counts ---------------------------------------------------------------

  /** The books since the latest re-arming, which happened at a whole number of rounds
      with at most a full queue in flight. */
  ghost predicate Armed(s: Ring) {
    var m := |s.lens|;
    && InOrder(s)
    && s.resetAt % Span(m) == 0
    && s.resetAt <= |s.wire| <= s.resetAt + Span(m)
    && (|s.wire| == s.resetAt + Span(m) ==> s.completed < |s.wire|)
    && s.doneAtReset <= s.resetAt <= s.doneAtReset + QUEUE
    && s.doneAtReset <= s.completed
    && forall i :: 0 <= i < m ==>
         s.refcnt[i] == REFERENCES - (Share(i, s.completed, m) - Share(i, s.doneAtReset, m))
  }

  /** Ready for the next pass: armed, or about to be. */
  ghost predicate Ready(s: Ring) {
    InOrder(s) && (Armed(s) || |s.wire| % Span(|s.lens|) == 0)
  }

  lemma RearmArms(s: Ring)
    requires Ready(s)
    ensures Armed(Rearm(s)) && |s.wire| < Rearm(s).resetAt + Span(|s.lens|)
    ensures Rearm(s).resetAt == |s.wire| <==> |s.wire| % Span(|s.lens|) == 0
  {
    var span := Span(|s.lens|);
    if |s.wire| % span != 0 {
      NextMultiple(s.resetAt, span);
    }
  }

  lemma NextMultiple(b: nat, span: nat)
    requires span > 0 && b % span == 0
    ensures (b + span) % span == 0
  {
    assert b == (b / span) * span;
    DivModUnique(b + span, span, b / span + 1, 0);
  }

  lemma {:induction false} CompleteKeepsArmed(s: Ring, k: nat)
    requires Armed(s) && |s.wire| < s.resetAt + Span(|s.lens|)
    ensures Armed(Complete(s, k)) && Complete(s, k).resetAt == s.resetAt && Complete(s, k).lens == s.lens
    decreases k
  {
    if k > 0 && s.completed < |s.wire| {
      CompleteOneKeepsArmed(s);
      CompleteKeepsArmed(CompleteOne(s), k - 1);
    }
  }

  lemma CompleteOneKeepsArmed(s: Ring)
    requires Armed(s) && |s.wire| < s.resetAt + Span(|s.lens|) && s.completed < |s.wire|
    ensures Armed(CompleteOne(s))
  {
    forall i | 0 <= i < |s.lens|
      ensures Share(i, s.completed + 1, |s.lens|)
           == Share(i, s.completed, |s.lens|) + if s.wire[s.completed] == i then 1 else 0
    {
      ShareStep(i, s.completed, |s.lens|);
    }
    hide Share;
  }

  /** A burst that stays inside the ring cannot jump over a multiple of the ring size. */
  lemma BurstStopsAtWrap(p: nat, k: nat, m: nat, goal: nat)
    requires m > 0 && p % m + k <= m && p < goal && goal % m == 0
    ensures p + k <= goal
  {
    var a, b := p / m, goal / m;
    Quotient(p, m);
    Quotient(goal, m);
    if b <= a {
      Multiples(b, a, m);
    } else {
      Multiples(a, a, m);
      Multiples(a + 1, b, m);
    }
  }

  lemma MultipleOfSpan(b: nat, m: nat)
    requires m > 0 && b % Span(m) == 0
    ensures b % m == 0 && b / m % ROUNDS == 0 && b == b / m * m
  {
    var q := b / Span(m);
    assert b == q * (m * ROUNDS) == (q * ROUNDS) * m;
    DivModUnique(b, m, q * ROUNDS, 0);
    DivModUnique(q * ROUNDS, ROUNDS, q, 0);
  }

  lemma AcceptKeepsArmed(s: Ring, k: nat)
    requires Armed(s) && |s.wire| < s.resetAt + Span(|s.lens|)
    requires k <= BURST && |s.wire| % |s.lens| + k <= |s.lens| && |s.wire| + k - s.completed <= QUEUE
    ensures Armed(Accept(s, k))
  {
    var span := Span(|s.lens|);
    AcceptInOrder(s, k);
    NextMultiple(s.resetAt, span);
    MultipleOfSpan(s.resetAt + span, |s.lens|);
    BurstStopsAtWrap(|s.wire|, k, |s.lens|, s.resetAt + span);
    hide Share;
  }

  lemma StepKeepsArmed(s: Ring, p: Pass)
    requires Ready(s)
    ensures Armed(Step(s, p))
  {
    RearmArms(s);
    var armed := Rearm(s);
    if p.tokens > 0 {
      CompleteKeepsArmed(armed, p.completes);
      var drained := Complete(armed, p.completes);
      hide Accept, Complete, Rearm, Accepted;
      AcceptKeepsArmed(drained, Accepted(drained, p));
    }
  }

  lemma {:induction false} RunKeepsReady(lens: seq<nat>, passes: seq<Pass>)
    requires lens != []
    ensures Ready(Run(Loaded(lens), passes))
    ensures passes != [] ==> Armed(Run(Loaded(lens), passes))
  {
    if passes == [] {
      DivModUnique(0, Span(|lens|), 0, 0);
    } else {
      RunKeepsReady(lens, passes[..|passes| - 1]);
      StepKeepsArmed(Run(Loaded(lens), passes[..|passes| - 1]), passes[|passes| - 1]);
    }
  }

  ghost function InFlight(s: Ring, i: nat): nat
    requires Shape(s)
  {
    Occurrences(s.wire[s.completed..], i)
  }

  lemma InFlightIsShare(s: Ring, i: nat)
    requires InOrder(s) && i < |s.lens|
    ensures InFlight(s, i) == Share(i, |s.wire|, |s.lens|) - Share(i, s.completed, |s.lens|)
  {
    OccurrencesAppend(s.wire[..s.completed], s.wire[s.completed..], i);
    assert s.wire == s.wire[..s.completed] + s.wire[s.completed..];
    OccurrencesAreShares(s.wire, |s.lens|, i);
    OccurrencesAreShares(s.wire[..s.completed], |s.lens|, i);
  }

  /** What the initial count pays for: a full queue left over from before the re-arming,
      plus 16384 rounds since. */
  lemma ArmedIsEnough(s: Ring, i: nat)
    requires Armed(s) && i < |s.lens|
    ensures s.refcnt[i] >= Share(i, |s.wire|, |s.lens|) - Share(i, s.completed, |s.lens|)
    ensures 1 <= s.refcnt[i] <= REFERENCES
  {
    var m := |s.lens|;
    var b, c0 := s.resetAt, s.doneAtReset;
    var top := b + Span(m);
    EpochShare(i, b, m);
    ShareGrowth(i, c0, b, m);
    ShareGrowth(i, c0, s.completed, m);
    ShareGrowth(i, s.completed, |s.wire|, m);
    ShareGrowth(i, |s.wire|, top, m);
    assert s.completed <= top - 1;
    ShareGrowth(i, s.completed, top - 1, m);
    hide Share;
  }

  /** An epoch gives every mbuf 16384 sends, and the last mbuf gets the very last one. */
  lemma EpochShare(i: nat, b: nat, m: nat)
    requires i < m && b % Span(m) == 0
    ensures Span(m) > 0
    ensures Share(i, b + Span(m), m) == Share(i, b, m) + ROUNDS
    ensures i == m - 1 ==> Share(i, b + Span(m) - 1, m) == Share(i, b, m) + ROUNDS - 1
    ensures Share(i, b + Span(m) - 1, m) <= Share(i, b, m) + ROUNDS
  {
    MultipleOfSpan(b, m);
    var q := b / m;
    assert b == q * m && b + Span(m) == (q + ROUNDS) * m;
    ShareWhole(i, q, m);
    ShareWhole(i, q + ROUNDS, m);
    var last := b + Span(m) - 1;
    assert last == (q + ROUNDS - 1) * m + (m - 1);
    DivModUnique(last, m, q + ROUNDS - 1, m - 1);
    ShareStep(i, last, m);
  }

  /** Main result: in every run, at every pass, each mbuf holds a reference for every copy
      still in flight, is never returned to its pool, and its count never exceeds the value
      it is armed with. */
  lemma ReferencesNeverRunOut(lens: seq<nat>, passes: seq<Pass>, i: nat)
    requires i < |lens| && passes != []
    ensures var s := Run(Loaded(lens), passes);
            && |s.refcnt| == |lens|
            && s.refcnt[i] >= InFlight(s, i)
            && 1 <= s.refcnt[i] <= 17408
  {
    RunKeepsReady(lens, passes);
    var s := Run(Loaded(lens), passes);
    LensConstant(Loaded(lens), passes);
    ArmedIsEnough(s, i);
    InFlightIsShare(s, i);
  }

  /** ... and also inside a pass, after any number of the driver's completions. */
  lemma ReferencesInsideCall(lens: seq<nat>, passes: seq<Pass>, k: nat, i: nat)
    requires i < |lens|
    ensures var s := Complete(Rearm(Run(Loaded(lens), passes)), k);
            |s.refcnt| == |lens| && s.refcnt[i] >= InFlight(s, i) && 1 <= s.refcnt[i] <= 17408
  {
    RunKeepsReady(lens, passes);
    LensConstant(Loaded(lens), passes);
    var s := Run(Loaded(lens), passes);
    RearmArms(s);
    CompleteKeepsArmed(Rearm(s), k);
    var r := Complete(Rearm(s), k);
    ArmedIsEnough(r, i);
    InFlightIsShare(r, i);
  }

  lemma {:induction false} CompleteKeepsRest(s: Ring, k: nat)
    requires Shape(s)
    ensures Complete(s, k) == s.(refcnt := Complete(s, k).refcnt, completed := Complete(s, k).completed)
    decreases k
  {
    if k > 0 && s.completed < |s.wire| {
      CompleteKeepsRest(CompleteOne(s), k - 1);
    }
  }

  lemma {:induction false} LensConstant(s: Ring, passes: seq<Pass>)
    requires Shape(s)
    ensures Run(s, passes).lens == s.lens
  {
    if passes != [] {
      var n := |passes| - 1;
      LensConstant(s, passes[..n]);
      CompleteKeepsRest(Rearm(Run(s, passes[..n])), passes[n].completes);
    }
  }

  /** No re-arming is skipped: it happens at exactly the multiples of m*16384 packets. Since
      then every count has gone down from 17408 by the completions of its mbuf alone. */
  lemma RearmedOnTime(lens: seq<nat>, passes: seq<Pass>)
    requires lens != [] && passes != []
    ensures var s := Run(Loaded(lens), passes);
            && |s.refcnt| == |lens|
            && s.resetAt % (|lens| * 16384) == 0
            && s.resetAt <= |s.wire| <= s.resetAt + |lens| * 16384
            && forall i :: 0 <= i < |lens| ==>
                 s.refcnt[i] == 17408 - (Share(i, s.completed, |lens|) - Share(i, s.doneAtReset, |lens|))
  {
    RunKeepsReady(lens, passes);
    LensConstant(Loaded(lens), passes);
    assert Span(|lens|) == |lens| * 16384;
    hide Share, Span;
  }

  // --- Statistics ---------------------------------------------------------------------

  ghost function LengthsSent(lens: seq<nat>, count: nat): nat
    requires lens != []
  {
    if count == 0 then 0 else LengthsSent(lens, count - 1) + lens[(count - 1) % |lens|]
  }

  function RoundsWorth(rounds: nat, total: nat): nat { rounds * total }

  /** Bytes of whole rounds plus those of the packets since. */
  function RingBytes(lens: seq<nat>, rounds: nat, since: nat): nat
    requires since <= |lens|
  {
    RoundsWorth(rounds, Total(lens)) + Total(lens[..since])
  }

  lemma RingBytesStep(lens: seq<nat>, q: nat, r: nat)
    requires r < |lens|
    ensures RingBytes(lens, q, r + 1) == RingBytes(lens, q, r) + lens[r]
    ensures RingBytes(lens, q + 1, 0) == RingBytes(lens, q, |lens|)
    ensures RingBytes(lens, 0, 0) == 0
  {
    RoundsWorthStep(q, Total(lens));
    assert lens[..r + 1][..r] == lens[..r];
    assert lens[..|lens|] == lens;
  }

  lemma {:induction false} LengthsClosedForm(lens: seq<nat>, count: nat)
    requires lens != []
    ensures LengthsSent(lens, count) == RingBytes(lens, count / |lens|, count % |lens|)
  {
    hide RingBytes;
    var m := |lens|;
    if count == 0 {
      DivModUnique(0, m, 0, 0);
      RingBytesStep(lens, 0, 0);
    } else {
      var p := count - 1;
      LengthsClosedForm(lens, p);
      RingBytesStep(lens, p / m, p % m);
      NextDeal(p, m);
    }
  }

  lemma RoundsWorthStep(q: nat, total: nat)
    ensures RoundsWorth(0, total) == 0
    ensures RoundsWorth(q + 1, total) == RoundsWorth(q, total) + total
  {
  }

  lemma {:induction false} LengthsOfBurst(lens: seq<nat>, p: nat, k: nat)
    requires lens != [] && p % |lens| + k <= |lens|
    ensures LengthsSent(lens, p + k) == LengthsSent(lens, p) + Total(lens[p % |lens|..p % |lens| + k])
    decreases k
  {
    if k > 0 {
      LengthsOfBurst(lens, p, k - 1);
      ModForward(p, |lens|, k - 1);
      var at := p % |lens|;
      assert lens[at..at + k][..k - 1] == lens[at..at + (k - 1)];
    }
  }

  /** Packets in a burst histogram: cell `k` counts bursts of `k + 1` packets. */
  function Weighted(counts: seq<nat>): nat {
    if counts == [] then 0 else Weighted(counts[..|counts| - 1]) + |counts| * counts[|counts| - 1]
  }

  lemma {:induction false} WeightedBump(counts: seq<nat>, i: nat)
    requires i < |counts|
    ensures Weighted(counts[i := counts[i] + 1]) == Weighted(counts) + i + 1
  {
    var n := |counts| - 1;
    if i == n {
      assert counts[i := counts[i] + 1][..n] == counts[..n];
      assert |counts| * (counts[i] + 1) == |counts| * counts[i] + |counts|;
    } else {
      assert counts[i := counts[i] + 1][..n] == counts[..n][i := counts[i] + 1];
      WeightedBump(counts[..n], i);
    }
  }

  lemma {:induction false} WeightedZero(n: nat)
    ensures Weighted(seq(n, _ => 0)) == 0
  {
    if n > 0 {
      assert seq(n, _ => 0)[..n - 1] == seq(n - 1, _ => 0);
      WeightedZero(n - 1);
      assert n * 0 == 0;
    }
  }

  ghost predicate Accounted(s: Ring) {
    && Shape(s)
    && s.requests == |s.wire|
    && s.bytes == LengthsSent(s.lens, |s.wire|)
    && Weighted(s.bursts) == |s.wire|
  }

  lemma AcceptAccounted(s: Ring, k: nat)
    requires Accounted(s) && k <= BURST && |s.wire| % |s.lens| + k <= |s.lens|
    ensures Accounted(Accept(s, k))
  {
    hide Weighted, Total, LengthsSent;
    if k > 0 {
      LengthsOfBurst(s.lens, |s.wire|, k);
      WeightedBump(s.bursts, k - 1);
    }
  }

  lemma {:induction false} RunAccounted(lens: seq<nat>, passes: seq<Pass>)
    requires lens != []
    ensures Accounted(Run(Loaded(lens), passes))
  {
    if passes == [] {
      WeightedZero(BURST);
    } else {
      var n := |passes| - 1;
      RunAccounted(lens, passes[..n]);
      StepAccounted(Run(Loaded(lens), passes[..n]), passes[n]);
    }
  }

  lemma StepAccounted(s: Ring, p: Pass)
    requires Accounted(s)
    ensures Accounted(Step(s, p))
  {
    var armed := Rearm(s);
    if p.tokens > 0 {
      CompleteKeepsRest(armed, p.completes);
      var drained := Complete(armed, p.completes);
      hide Accept, Complete, Rearm, Accepted;
      AcceptAccounted(drained, Accepted(drained, p));
    }
  }

  // --- How much a pass sends ------------------------------------------------------------

  lemma {:induction false} CompleteCount(s: Ring, k: nat)
    requires Shape(s)
    ensures Complete(s, k).completed == Min(s.completed + k, |s.wire|)
    decreases k
  {
    if k > 0 && s.completed < |s.wire| {
      CompleteCount(CompleteOne(s), k - 1);
    }
  }

  /** With f packets in flight after the completions: as many as the driver takes, but at
      most 32, no further than the end of the ring, no more than there are tokens, and no
      more than fit the queue. */
  lemma PassSends(s: Ring, p: Pass)
    requires InOrder(s)
    ensures var sent := |Step(s, p).wire| - |s.wire|;
            var m, f := |s.lens|, Max(0, |s.wire| - s.completed - p.completes);
            && sent == Min(Min(p.accepts, 32), Min(m - |s.wire| % m, Min(p.tokens, 1024 - f)))
            && Step(s, p).wire[..|s.wire|] == s.wire
            && (p.tokens > 0 && p.accepts > 0 && f < 1024 ==> sent > 0)
  {
    var armed := Rearm(s);
    CompleteCount(armed, p.completes);
    hide Complete, Rearm, Accept;
    if p.tokens > 0 {
      var drained := Complete(armed, p.completes);
      AcceptGrows(drained, Accepted(drained, p));
    }
  }

  lemma AcceptGrows(s: Ring, k: nat)
    requires Shape(s) && k <= BURST && |s.wire| % |s.lens| + k <= |s.lens|
    ensures |Accept(s, k).wire| == |s.wire| + k && Accept(s, k).wire[..|s.wire|] == s.wire
  {
  }

  /** By how many packets a pass makes the wire grow. */
  ghost function Growth(s: Ring, p: Pass): int
    requires Shape(s)
  {
    |Step(s, p).wire| - |s.wire|
  }

  /** Passes of a run that sent exactly `k` packets. */
  ghost function PassesSending(lens: seq<nat>, passes: seq<Pass>, k: nat): nat
    requires lens != []
  {
    if passes == [] then 0
    else
      var n := |passes| - 1;
      PassesSending(lens, passes[..n], k) + if Growth(Run(Loaded(lens), passes[..n]), passes[n]) == k then 1 else 0
  }

  /** What a burst of `sent` packets does to the histogram. */
  function Recorded(bursts: seq<nat>, sent: int): seq<nat> {
    if 0 < sent <= |bursts| then bursts[sent - 1 := bursts[sent - 1] + 1] else bursts
  }

  lemma StepBursts(s: Ring, p: Pass)
    requires Shape(s)
    ensures 0 <= Growth(s, p) <= 32
    ensures Step(s, p).bursts == Recorded(s.bursts, Growth(s, p))
  {
    var armed := Rearm(s);
    CompleteKeepsRest(armed, p.completes);
    hide Complete;
  }

  lemma RecordedCells(bursts: seq<nat>, sent: int, k: nat)
    requires 0 <= sent <= |bursts| && 1 <= k <= |bursts|
    ensures |Recorded(bursts, sent)| == |bursts|
    ensures Recorded(bursts, sent)[k - 1] == bursts[k - 1] + if sent == k then 1 else 0
    ensures Total(Recorded(bursts, sent)) == Total(bursts) + if sent == 0 then 0 else 1
  {
    if sent > 0 {
      TotalUpdate(bursts, sent - 1, bursts[sent - 1] + 1);
    }
  }

  /** Cell k-1 counts the passes that sent k packets, and all cells together the passes that
      sent anything. */
  lemma {:induction false} BurstsArePasses(lens: seq<nat>, passes: seq<Pass>, k: nat)
    requires lens != [] && 1 <= k <= 32
    ensures Run(Loaded(lens), passes).bursts[k - 1] == PassesSending(lens, passes, k)
    ensures Total(Run(Loaded(lens), passes).bursts) + PassesSending(lens, passes, 0) == |passes|
  {
    if passes == [] {
      TotalZero(Run(Loaded(lens), passes).bursts);
    } else {
      hide Step, Total, Growth, Recorded, Loaded;
      var n := |passes| - 1;
      var s := Run(Loaded(lens), passes[..n]);
      BurstsArePasses(lens, passes[..n], k);
      StepBursts(s, passes[n]);
      RecordedCells(s.bursts, Growth(s, passes[n]), k);
    }
  }

  // --- The tally of a run ---------------------------------------------------------------

  /** After P packets: mbuf `i` was sent P/m times, once more if it is among the first
      P mod m; bytes and the burst histogram agree with that count. */
  ghost predicate Tallied(s: Ring, i: nat)
    requires s.lens != []
  {
    var p, m := |s.wire|, |s.lens|;
    && Occurrences(s.wire, i) == p / m + (if i < p % m then 1 else 0)
    && s.requests == p
    && s.bytes == RingBytes(s.lens, p / m, p % m)
    && Weighted(s.bursts) == p
  }

  lemma StatisticsAgree(lens: seq<nat>, passes: seq<Pass>, i: nat)
    requires i < |lens|
    ensures var s := Run(Loaded(lens), passes);
            s.lens == lens && Tallied(s, i)
  {
    RunKeepsReady(lens, passes);
    RunAccounted(lens, passes);
    LensConstant(Loaded(lens), passes);
    var s := Run(Loaded(lens), passes);
    hide Run;
    OccurrencesAreShares(s.wire, |lens|, i);
    LengthsClosedForm(lens, |s.wire|);
  }

  lemma {:induction false} WeightedBounds(counts: seq<nat>)
    ensures Total(counts) <= Weighted(counts)
    ensures Total(counts) == 0 <==> Weighted(counts) == 0
  {
    if counts != [] {
      WeightedBounds(counts[..|counts| - 1]);
      var c := counts[|counts| - 1];
      assert |counts| * c >= c;
    }
  }

  datatype BurstReport = BurstReport(bursts: nat, averageSize: real, fullPercent: real)

  /** `burst_stats` of dwd-core/src/summary.rs. */
  function BurstStats(counts: seq<nat>): Option<BurstReport> {
    var total := Total(counts);
    if total == 0 then None
    else Some(BurstReport(total, Weighted(counts) as real / total as real,
                          Percent(counts[|counts| - 1], total)))
  }

  lemma QuotientTimes(a: real, b: real)
    requires 0.0 < b <= a
    ensures a / b * b == a && a / b >= 1.0
  {
  }

  /** A report that accounts for `packets` packets in bursts of at least one. */
  ghost predicate Describes(report: Option<BurstReport>, packets: nat) {
    if report.None? then packets == 0
    else
      var r := report.value;
      packets > 0 && r.averageSize * r.bursts as real == packets as real && r.averageSize >= 1.0
  }

  lemma BurstStatsExact(counts: seq<nat>)
    ensures Describes(BurstStats(counts), Weighted(counts))
  {
    WeightedBounds(counts);
    hide Weighted, Total;
    if Total(counts) > 0 {
      QuotientTimes(Weighted(counts) as real, Total(counts) as real);
    }
  }

  /** The summary is empty exactly when nothing was sent, and its average burst size times
      the number of bursts is the number of packets. */
  lemma BurstReportMatchesRun(lens: seq<nat>, passes: seq<Pass>)
    requires lens != []
    ensures var s := Run(Loaded(lens), passes);
            Describes(BurstStats(s.bursts), |s.wire|) && s.requests == |s.wire|
  {
    hide Run, BurstStats, Weighted, Describes;
    RunAccounted(lens, passes);
    BurstStatsExact(Run(Loaded(lens), passes).bursts);
  }

  function Percent(part: nat, whole: nat): real
    requires whole > 0
  {
    100.0 * part as real / whole as real
  }

  ghost predicate SharesOut(percent: real, part: nat, whole: nat) {
    percent * whole as real == 100.0 * part as real && 0.0 <= percent <= 100.0
  }

  lemma PercentSharesOut(part: nat, whole: nat)
    requires part <= whole && whole > 0
    ensures SharesOut(Percent(part, whole), part, whole)
  {
  }

  /** Of so many bursts, so many were full. */
  ghost predicate ReportsFull(report: Option<BurstReport>, full: nat, bursts: nat) {
    if report.None? then bursts == 0
    else bursts > 0 && report.value.bursts == bursts && SharesOut(report.value.fullPercent, full, bursts)
  }

  lemma ReportOfCounts(counts: seq<nat>)
    requires counts != []
    ensures ReportsFull(BurstStats(counts), counts[|counts| - 1], Total(counts))
  {
    var full, bursts := counts[|counts| - 1], Total(counts);
    assert full <= bursts;
    hide Weighted, SharesOut, Percent, Total;
    if bursts > 0 {
      PercentSharesOut(full, bursts);
    }
  }

  /** The burst histogram after a run. */
  ghost function BurstsAfter(lens: seq<nat>, passes: seq<Pass>): (bursts: seq<nat>)
    requires lens != []
    ensures |bursts| == 32
  {
    Run(Loaded(lens), passes).bursts
  }

  lemma BurstsAfterRun(lens: seq<nat>, passes: seq<Pass>)
    requires lens != []
    ensures BurstsAfter(lens, passes)[31] == PassesSending(lens, passes, 32)
    ensures Total(BurstsAfter(lens, passes)) + PassesSending(lens, passes, 0) == |passes|
  {
    BurstsArePasses(lens, passes, 32);
    hide Run, Total, PassesSending;
  }

  /** The reported share of full bursts is that of the passes that sent 32 packets among
      the passes that sent any. */
  lemma FullShareMatchesRun(lens: seq<nat>, passes: seq<Pass>)
    requires lens != []
    ensures PassesSending(lens, passes, 0) <= |passes|
    ensures ReportsFull(BurstStats(BurstsAfter(lens, passes)),
                        PassesSending(lens, passes, 32), |passes| - PassesSending(lens, passes, 0))
  {
    hide BurstsAfter, Total, PassesSending, BurstStats, ReportsFull;
    BurstsAfterRun(lens, passes);
    ReportOfCounts(BurstsAfter(lens, passes));
  }
}
