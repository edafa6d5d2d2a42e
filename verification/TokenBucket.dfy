/** The token bucket of dwd-core/src/shaper.rs and the worker turn built on it. Tokens and
    seconds are reals: the rounding of the f64 arithmetic is not modelled. */
module TokenBucket {
  import opened Common

  datatype Bucket = Bucket(tokens: real, prevTs: real)

  /** `as u64` on a token count: truncates, and a negative count is zero. */
  function Whole(x: real): nat { if x < 0.0 then 0 else x.Floor }

  function Seconds(now: real, prev: real): real { if now >= prev then now - prev else 0.0 }

  /** Tokens a limit mints over a stretch of time. */
  function Worth(limit: nat, seconds: real): real { limit as real * seconds }

  lemma WorthGrows(a: nat, b: nat, s: real, t: real)
    requires a <= b && 0.0 <= s <= t
    ensures 0.0 <= Worth(a, s) <= Worth(b, t)
  {
    assert a as real * s <= b as real * s;
  }

  lemma WorthAdds(a: nat, s: real, t: real)
    ensures Worth(a, s) + Worth(a, t) == Worth(a, s + t)
  {
  }

  lemma WorthShares(a: nat, b: nat, s: real)
    ensures Worth(a, s) + Worth(b, s) == Worth(a + b, s)
  {
  }

  function Minted(b: Bucket, limit: nat, now: real): real { Worth(limit, Seconds(now, b.prevTs)) }

  /** Refill; below the burst size nothing is offered and nothing is capped. */
  function Refill(b: Bucket, burstSize: nat, limit: nat, now: real): (Bucket, nat) {
    var filled := b.tokens + Minted(b, limit, now);
    if Whole(filled) < burstSize then (Bucket(filled, now), 0)
    else
      var kept := if filled <= limit as real then filled else limit as real;
      (Bucket(kept, now), Whole(kept))
  }

  function Spend(b: Bucket, n: nat): Bucket { b.(tokens := b.tokens - n as real) }

  class Shaper {
    const burstSize: nat
    var tokens: real
    var prevTs: real

    ghost function State(): Bucket
      reads this
    {
      Bucket(tokens, prevTs)
    }

    constructor (burstSize: nat, now: real)
      ensures State() == Bucket(0.0, now) && this.burstSize == burstSize
    {
      this.burstSize, tokens, prevTs := burstSize, 0.0, now;
    }

    method Tick(limit: nat, now: real) returns (n: nat)
      modifies this
      ensures (State(), n) == Refill(old(State()), burstSize, limit, now)
    {
      var elapsed := Seconds(now, prevTs);
      tokens := tokens + Worth(limit, elapsed);
      prevTs := now;
      if Whole(tokens) < burstSize {
        return 0;
      }
      if tokens > limit as real {
        tokens := limit as real;
      }
      n := Whole(tokens);
    }

    method Consume(n: nat)
      modifies this
      ensures State() == Spend(old(State()), n)
    {
      tokens := tokens - n as real;
    }
  }

  // --- One turn of a worker loop ----------------------------------------------------

  /** How a turn treats the tokens it is offered: the UDP loop executes a task for each,
      the coroutine loop for at most 32 of them. The DPDK loop sends the part of a burst
      that the driver accepts, and if that is anything, gives up all tokens offered. */
  datatype Cap = Unlimited | AtMost(tasks: nat) | Transmit(accepts: nat)

  const COROUTINE_CAP: Cap := AtMost(32)

  function Executes(n: nat, cap: Cap): nat {
    match cap
    case Unlimited => n
    case AtMost(tasks) => Min(n, tasks)
    case Transmit(accepts) => Min(n, accepts)
  }

  function Consumes(n: nat, cap: Cap): nat {
    if cap.Transmit? && cap.accepts > 0 then n else Executes(n, cap)
  }

  /** What a worker meets in one turn: its limit cell, the clock and how much it can do. */
  datatype Wake = Wake(limit: nat, now: real, cap: Cap)

  function WorkerTurn(b: Bucket, w: Wake): (Bucket, nat) {
    var (filled, offered) := Refill(b, 0, w.limit, w.now);
    (Spend(filled, Consumes(offered, w.cap)), Executes(offered, w.cap))
  }

  /** Tokens offered to a turn are never more than the bucket holds, and the bucket never
      more than one second's worth of the current limit. */
  lemma RefillBounds(b: Bucket, limit: nat, now: real)
    requires b.tokens >= 0.0
    ensures var (f, n) := Refill(b, 0, limit, now);
            && 0.0 <= n as real <= f.tokens < n as real + 1.0
            && f.tokens <= limit as real
            && f.tokens <= b.tokens + Minted(b, limit, now)
            && f.prevTs == now
  {
    WorthGrows(limit, limit, 0.0, Seconds(now, b.prevTs));
    hide Worth;
  }

  /** A limit is worth so many tokens a second. */
  lemma WorthIsProduct(limit: nat, seconds: real)
    ensures Worth(limit, seconds) == limit as real * seconds
  {
  }

  function Surplus(filled: real, limit: nat): real {
    if filled > limit as real then filled - limit as real else 0.0
  }

  /** What a refill offers and keeps, for any burst size. Held back below the burst size
      nothing is lost; otherwise the surplus over one second's worth is lost and nothing
      else, all whole tokens kept are offered, and an overflow leaves exactly the limit. */
  lemma RefillOutcome(b: Bucket, burstSize: nat, limit: nat, now: real)
    requires b.tokens >= 0.0
    ensures var filled := b.tokens + Worth(limit, Seconds(now, b.prevTs));
            var (f, n) := Refill(b, burstSize, limit, now);
            && f.prevTs == now
            && (filled < burstSize as real ==> n == 0 && f.tokens == filled)
            && (filled >= burstSize as real ==>
                  && f.tokens + Surplus(filled, limit) == filled
                  && n as real <= f.tokens < n as real + 1.0
                  && (filled > limit as real ==> f.tokens == limit as real && n == limit))
  {
    WorthGrows(limit, limit, 0.0, Seconds(now, b.prevTs));
    hide Worth;
  }

  /** Woken a second late or more, an uncapped worker executes exactly its limit. */
  lemma LateTurn(b: Bucket, limit: nat, now: real)
    requires b.tokens >= 0.0 && now >= b.prevTs + 1.0
    ensures WorkerTurn(b, Wake(limit, now, Unlimited)) == (Bucket(0.0, now), limit)
  {
    WorthGrows(limit, limit, 1.0, now - b.prevTs);
    WorthOfASecond(limit);
    hide Worth;
  }

  lemma WorthOfASecond(limit: nat)
    ensures Worth(limit, 1.0) == limit as real
  {
  }

  /** A coroutine turn executes 32 of the tokens offered, or all of them if there are fewer,
      and then less than one is left. */
  lemma CoroutineTurn(b: Bucket, limit: nat, now: real)
    requires b.tokens >= 0.0
    ensures var offered := Refill(b, 0, limit, now).1;
            var (b', n) := WorkerTurn(b, Wake(limit, now, COROUTINE_CAP));
            && n == (if offered < 32 then offered else 32)
            && b'.tokens == Refill(b, 0, limit, now).0.tokens - n as real >= 0.0
            && (n < 32 ==> b'.tokens < 1.0)
  {
    RefillBounds(b, limit, now);
    hide Refill;
  }

  /** The worker's books over a run. */
  datatype Ledger = Ledger(bucket: Bucket, minted: real, dropped: real, wasted: nat, executed: nat)

  function Opened(now: real): Ledger { Ledger(Bucket(0.0, now), 0.0, 0.0, 0, 0) }

  function Booked(l: Ledger, w: Wake): Ledger {
    var minted := Minted(l.bucket, w.limit, w.now);
    var (filled, offered) := Refill(l.bucket, 0, w.limit, w.now);
    var (b, n) := WorkerTurn(l.bucket, w);
    Ledger(b,
           l.minted + minted,
           l.dropped + (l.bucket.tokens + minted - filled.tokens),
           l.wasted + (Consumes(offered, w.cap) - n),
           l.executed + n)
  }

  function Books(start: real, wakes: seq<Wake>): Ledger {
    if wakes == [] then Opened(start) else Booked(Books(start, wakes[..|wakes| - 1]), wakes[|wakes| - 1])
  }

  ghost predicate Balanced(l: Ledger) {
    && l.bucket.tokens >= 0.0 && l.dropped >= 0.0
    && l.executed as real + l.wasted as real + l.dropped + l.bucket.tokens == l.minted
  }

  /** Token conservation: tokens are never negative, and everything minted was executed,
      given up with a burst, dropped at the cap or is still in the bucket. */
  lemma {:induction false} TokensConserved(start: real, wakes: seq<Wake>)
    ensures Balanced(Books(start, wakes))
  {
    hide Worth;
    if wakes != [] {
      var n := |wakes| - 1;
      TokensConserved(start, wakes[..n]);
      RefillBounds(Books(start, wakes[..n]).bucket, wakes[n].limit, wakes[n].now);
    }
  }

  /** A turn that consumes exactly what it executes: outside DPDK every turn; in DPDK one
      where the driver took nothing, or as many packets as there were tokens. */
  ghost predicate UsesAll(b: Bucket, w: Wake) {
    w.cap.Transmit? ==> w.cap.accepts == 0 || w.cap.accepts >= Refill(b, 0, w.limit, w.now).1
  }

  ghost predicate AlwaysUsesAll(start: real, wakes: seq<Wake>) {
    wakes == [] ||
    var n := |wakes| - 1;
    AlwaysUsesAll(start, wakes[..n]) && UsesAll(Books(start, wakes[..n]).bucket, wakes[n])
  }

  lemma KeepsWasted(l: Ledger, w: Wake)
    ensures Booked(l, w).wasted == l.wasted <==> UsesAll(l.bucket, w)
    ensures Booked(l, w).wasted >= l.wasted
  {
    hide Refill;
  }

  /** The shaper is documented to be charged for requests performed. Tokens are given up
      unused exactly when some burst was sent in part. */
  lemma {:induction false} NothingWasted(start: real, wakes: seq<Wake>)
    ensures Books(start, wakes).wasted == 0 <==> AlwaysUsesAll(start, wakes)
  {
    hide Booked, UsesAll;
    if wakes != [] {
      var n := |wakes| - 1;
      NothingWasted(start, wakes[..n]);
      KeepsWasted(Books(start, wakes[..n]), wakes[n]);
    }
  }

  /** 40 tokens, a full burst of 32: eight tokens go with no packet sent for them. */
  lemma FullBurstWastesRest()
    ensures var l := Books(0.0, [Wake(40, 1.0, Transmit(32))]);
            l.minted == 40.0 && l.executed == 32 && l.wasted == 8 && l.bucket.tokens == 0.0
  {
    var w := Wake(40, 1.0, Transmit(32));
    assert [w][..0] == [];
    assert Refill(Bucket(0.0, 0.0), 0, 40, 1.0) == (Bucket(40.0, 1.0), 40);
  }

  lemma {:induction false} SocketsUseAll(start: real, wakes: seq<Wake>)
    requires forall w | w in wakes :: !w.cap.Transmit?
    ensures AlwaysUsesAll(start, wakes)
  {
    if wakes != [] {
      SocketsUseAll(start, wakes[..|wakes| - 1]);
      hide Books;
    }
  }

  /** A loop without any cap leaves less than one token, so it has executed exactly the
      whole part of what was not dropped. */
  lemma UncappedIsExact(start: real, wakes: seq<Wake>)
    requires forall w | w in wakes :: w.cap.Unlimited?
    ensures var l := Books(start, wakes);
            l.bucket.tokens < 1.0 && l.executed == (l.minted - l.dropped).Floor
  {
    TokensConserved(start, wakes);
    SocketsUseAll(start, wakes);
    NothingWasted(start, wakes);
    if wakes != [] {
      var n := |wakes| - 1;
      assert wakes[n] in wakes;
      TokensConserved(start, wakes[..n]);
      RefillBounds(Books(start, wakes[..n]).bucket, wakes[n].limit, wakes[n].now);
      hide Refill;
    }
  }

  /** The refill of a turn exceeds one second's worth. */
  ghost predicate Overflows(b: Bucket, w: Wake) {
    b.tokens + Minted(b, w.limit, w.now) > w.limit as real
  }

  /** A turn drops exactly what the refill has above one second's worth. */
  lemma DropsSurplus(l: Ledger, w: Wake)
    requires Balanced(l)
    ensures Booked(l, w).dropped == l.dropped + Surplus(l.bucket.tokens + Minted(l.bucket, w.limit, w.now), w.limit)
    ensures Booked(l, w).dropped == l.dropped <==> !Overflows(l.bucket, w)
    ensures Booked(l, w).dropped >= l.dropped
  {
    RefillBounds(l.bucket, w.limit, w.now);
    hide Worth;
  }

  /** No refill of the run exceeded one second's worth. */
  ghost predicate NeverOverflows(start: real, wakes: seq<Wake>) {
    wakes == [] ||
    var n := |wakes| - 1;
    NeverOverflows(start, wakes[..n]) && !Overflows(Books(start, wakes[..n]).bucket, wakes[n])
  }

  /** Tokens are dropped exactly when some refill exceeds one second's worth. */
  lemma {:induction false} NothingDropped(start: real, wakes: seq<Wake>)
    ensures Books(start, wakes).dropped == 0.0 <==> NeverOverflows(start, wakes)
  {
    hide Booked, Overflows;
    if wakes != [] {
      var n := |wakes| - 1;
      NothingDropped(start, wakes[..n]);
      TokensConserved(start, wakes[..n]);
      DropsSurplus(Books(start, wakes[..n]), wakes[n]);
    }
  }

  // --- A worker delivers its limit ------------------------------------------------------

  /** Ticks so close together that a refill on top of a leftover fraction still fits. */
  ghost predicate Roomy(limit: nat, gap: real) {
    limit == 0 || Worth(limit, gap) + 1.0 <= limit as real
  }

  /** One turn of an uncapped loop with less than a token left, at most `gap` after the last:
      nothing is lost, and again less than a token is left. */
  lemma SteadyTurn(b: Bucket, w: Wake, gap: real)
    requires 0.0 <= b.tokens < 1.0 && w.cap.Unlimited?
    requires b.prevTs <= w.now <= b.prevTs + gap && Roomy(w.limit, gap) && (w.limit == 0 ==> b.tokens == 0.0)
    ensures var (b', n) := WorkerTurn(b, w);
            && 0.0 <= b'.tokens < 1.0 && b'.prevTs == w.now
            && n as real + b'.tokens == b.tokens + Worth(w.limit, w.now - b.prevTs)
  {
    WorthGrows(w.limit, w.limit, 0.0, w.now - b.prevTs);
    WorthGrows(w.limit, w.limit, w.now - b.prevTs, gap);
    if w.limit == 0 {
      WorthOfNothing(w.now - b.prevTs);
    }
    RefillBounds(b, w.limit, w.now);
    hide Worth;
  }

  lemma WorthOfNothing(s: real)
    ensures Worth(0, s) == 0.0
  {
  }

  ghost predicate Steady(start: real, wakes: seq<Wake>, limit: nat, gap: real) {
    wakes == [] ||
    var n := |wakes| - 1;
    var last := Books(start, wakes[..n]).bucket.prevTs;
    && Steady(start, wakes[..n], limit, gap)
    && wakes[n].limit == limit && wakes[n].cap.Unlimited?
    && last <= wakes[n].now <= last + gap
  }

  /** Less than a token left, and everything minted at the limit since `start` accounted for. */
  ghost predicate OnPace(l: Ledger, start: real, limit: nat) {
    && l.bucket.prevTs >= start && 0.0 <= l.bucket.tokens < 1.0
    && l.executed as real + l.bucket.tokens == Worth(limit, l.bucket.prevTs - start)
  }

  lemma StaysOnPace(l: Ledger, w: Wake, start: real, gap: real)
    requires OnPace(l, start, w.limit) && Roomy(w.limit, gap) && w.cap.Unlimited?
    requires l.bucket.prevTs <= w.now <= l.bucket.prevTs + gap
    ensures OnPace(Booked(l, w), start, w.limit)
  {
    hide Worth, Roomy, WorkerTurn, Refill;
    if w.limit == 0 {
      WorthOfNothing(l.bucket.prevTs - start);
    }
    SteadyTurn(l.bucket, w, gap);
    WorthAdds(w.limit, l.bucket.prevTs - start, w.now - l.bucket.prevTs);
  }

  lemma {:induction false} SteadyBalance(start: real, wakes: seq<Wake>, limit: nat, gap: real)
    requires Steady(start, wakes, limit, gap) && Roomy(limit, gap)
    ensures OnPace(Books(start, wakes), start, limit)
  {
    if wakes == [] {
      WorthAdds(limit, 0.0, 0.0);
    } else {
      hide OnPace, Roomy, Booked;
      var n := |wakes| - 1;
      SteadyBalance(start, wakes[..n], limit, gap);
      StaysOnPace(Books(start, wakes[..n]), wakes[n], start, gap);
    }
  }

  /** An uncapped loop with a constant limit L and close enough ticks has executed exactly
      the whole part of L times the time up to its last tick, so nothing was lost. */
  lemma SteadyIsExact(start: real, wakes: seq<Wake>, limit: nat, gap: real)
    requires Steady(start, wakes, limit, gap) && Roomy(limit, gap)
    ensures var l := Books(start, wakes);
            l.executed == Worth(limit, l.bucket.prevTs - start).Floor
  {
    hide Books, Worth, Roomy;
    SteadyBalance(start, wakes, limit, gap);
  }
}
