/** The transmit loop as the code runs it, over the mbufs' reference counts in place. */
module DpdkWorker {
  import opened Common
  import opened TokenBucket
  import opened TxRing

  /** The environment's half: a first-in first-out queue over the shared counts. */
  class Driver {
    const refcnt: array<int>
    var wire: seq<nat>
    var completed: nat

    constructor (refcnt: array<int>)
      ensures this.refcnt == refcnt && wire == [] && completed == 0
    {
      this.refcnt, wire, completed := refcnt, [], 0;
    }
  }

  /** What one pass meets: the limit cell, the clock and the driver's choices. */
  datatype Turn = Turn(limit: nat, now: real, completes: nat, accepts: nat)

  ghost predicate Follows(t: Turn, p: TxRing.Pass, w: Wake) {
    && p.completes == t.completes && p.accepts == t.accepts
    && w.limit == t.limit && w.now == t.now && w.cap.Transmit?
  }

  /** Turn `i` offers what the bucket holds then, and the worker is charged for the packets
      by which the wire grows in that pass. */
  ghost predicate Tied(lens: seq<nat>, start: real, passes: seq<TxRing.Pass>, wakes: seq<Wake>, i: nat)
    requires lens != [] && i < |passes| == |wakes|
  {
    && passes[i].tokens == Refill(Books(start, wakes[..i]).bucket, 0, wakes[i].limit, wakes[i].now).1
    && wakes[i].cap.Transmit?
    && wakes[i].cap.accepts == Grown(lens, passes[..i + 1]) - Grown(lens, passes[..i])
  }

  ghost function Grown(lens: seq<nat>, passes: seq<TxRing.Pass>): int
    requires lens != []
  {
    |TxRing.Run(Loaded(lens), passes).wire|
  }

  lemma TiedStays(lens: seq<nat>, start: real, passes: seq<TxRing.Pass>, wakes: seq<Wake>, p: TxRing.Pass, w: Wake, i: nat)
    requires lens != [] && i < |passes| == |wakes| && Tied(lens, start, passes, wakes, i)
    ensures Tied(lens, start, passes + [p], wakes + [w], i)
  {
    assert (wakes + [w])[..i] == wakes[..i];
    assert (passes + [p])[..i] == passes[..i] && (passes + [p])[..i + 1] == passes[..i + 1];
  }

  lemma TiedNow(lens: seq<nat>, start: real, passes: seq<TxRing.Pass>, wakes: seq<Wake>, p: TxRing.Pass, w: Wake)
    requires lens != [] && |passes| == |wakes| && w.cap.Transmit?
    requires p.tokens == Refill(Books(start, wakes).bucket, 0, w.limit, w.now).1
    requires Grown(lens, passes + [p]) == Grown(lens, passes) + w.cap.accepts
    ensures Tied(lens, start, passes + [p], wakes + [w], |passes|)
  {
    var n := |passes|;
    assert (wakes + [w])[..n] == wakes && (passes + [p])[..n] == passes && (passes + [p])[..n + 1] == passes + [p];
  }

  lemma NextPass(lens: seq<nat>, passes: seq<TxRing.Pass>, p: TxRing.Pass)
    requires lens != []
    ensures TxRing.Run(Loaded(lens), passes + [p]) == TxRing.Step(TxRing.Run(Loaded(lens), passes), p)
  {
    assert (passes + [p])[..|passes|] == passes;
  }

  lemma NextTurn(start: real, wakes: seq<Wake>, w: Wake)
    ensures var (b, n) := WorkerTurn(Books(start, wakes).bucket, w);
            Books(start, wakes + [w]).bucket == b && Books(start, wakes + [w]).executed == Books(start, wakes).executed + n
  {
    assert (wakes + [w])[..|wakes|] == wakes;
    hide WorkerTurn, Refill, Worth;
  }

  lemma FollowsTurn(t: Turn, tokens: nat, sent: nat)
    ensures Follows(t, TxRing.Pass(tokens, t.completes, t.accepts), Wake(t.limit, t.now, Transmit(sent)))
  {
  }

  class Worker {
    const lens: seq<nat>
    const refcnt: array<int>
    const bursts: array<nat>
    const driver: Driver
    const shaper: Shaper
    var packetsTx: nat
    var requests: nat
    var bytes: nat
    ghost var resetAt: nat
    ghost var doneAtReset: nat

    ghost function State(): Ring
      reads this, refcnt, bursts, driver
    {
      Ring(lens, refcnt[..], driver.wire, driver.completed, requests, bytes, bursts[..], resetAt, doneAtReset)
    }

    ghost predicate Valid()
      reads this, refcnt, bursts, driver
    {
      && Shape(State())
      && packetsTx == |driver.wire|
      && driver.refcnt == refcnt
      && refcnt as object != bursts as object
      && shaper.burstSize == 0
    }

    constructor (lens: seq<nat>, now: real)
      requires lens != []
      ensures Valid() && State() == Loaded(lens)
      ensures fresh(refcnt) && fresh(bursts) && fresh(driver) && fresh(shaper)
    {
      var counts := new int[|lens|](_ => 1);
      var hist := new nat[BURST](_ => 0);
      var queue := new Driver(counts);
      var bucket := new Shaper(0, now);
      this.lens, refcnt, bursts, driver, shaper := lens, counts, hist, queue, bucket;
      packetsTx, requests, bytes, resetAt, doneAtReset := 0, 0, 0, 0, 0;
      new;
      assert refcnt[..] == seq(|lens|, _ => 1);
      assert bursts[..] == seq(BURST, _ => 0);
    }

    method RearmMbufs()
      requires Valid()
      modifies this`resetAt, this`doneAtReset, refcnt
      ensures Valid() && State() == Rearm(old(State()))
    {
      if packetsTx % (|lens| * 16 * 1024) == 0 {
        for i := 0 to refcnt.Length
          invariant forall j :: 0 <= j < i ==> refcnt[j] == REFERENCES
          invariant driver.wire == old(driver.wire) && bursts[..] == old(bursts[..])
        {
          refcnt[i] := 16 * 1024 + 1024;
        }
        resetAt, doneAtReset := packetsTx, driver.completed;
        assert refcnt[..] == seq(|lens|, _ => REFERENCES);
      }
      assert |lens| * 16 * 1024 == Span(|lens|);
    }

    /** The environment finishes up to `k` packets. */
    method DriverCompletes(k: nat)
      requires Valid()
      modifies driver, refcnt
      ensures Valid() && State() == Complete(old(State()), k)
    {
      ghost var goal := Complete(State(), k);
      var left: nat := k;
      while left > 0 && driver.completed < |driver.wire|
        invariant Valid() && left <= k && Complete(State(), left) == goal
        decreases left
      {
        ghost var before := State();
        var w := driver.wire[driver.completed];
        assert w in driver.wire;
        refcnt[w] := refcnt[w] - 1;
        driver.completed := driver.completed + 1;
        assert State() == CompleteOne(before);
        left := left - 1;
      }
    }

    /** The worker's own bookkeeping for `sent` accepted packets. */
    method Enqueue(sent: nat)
      requires Valid() && sent <= BURST && packetsTx % |lens| + sent <= |lens|
      modifies this, bursts, driver
      ensures Valid() && State() == Accept(old(State()), sent) && packetsTx == old(packetsTx) + sent
    {
      if sent == 0 {
        return;
      }
      var at := packetsTx % |lens|;
      var size := SizeOf(at, sent);
      driver.wire := driver.wire + seq(sent, j requires 0 <= j < sent => at + j);
      packetsTx := packetsTx + sent;
      requests := requests + sent;
      bursts[sent - 1] := bursts[sent - 1] + 1;
      bytes := bytes + size;
      assert State() == Accept(old(State()), sent);
    }

    method SizeOf(at: nat, sent: nat) returns (size: nat)
      requires at + sent <= |lens|
      ensures size == Total(lens[at..at + sent])
    {
      size := 0;
      for j := at to at + sent
        invariant size == Total(lens[at..j])
      {
        assert lens[at..j + 1][..j - at] == lens[at..j];
        size := size + lens[j];
      }
    }

    /** One pass. If the driver accepts anything all offered tokens are consumed, also
        those no packet was sent for; if it accepts nothing, none are. */
    method Pass(limit: nat, now: real, completes: nat, accepts: nat) returns (tokens: nat, sent: nat)
      requires Valid()
      modifies this, refcnt, bursts, driver, shaper
      ensures Valid()
      ensures tokens == Refill(old(shaper.State()), 0, limit, now).1
      ensures State() == Step(old(State()), TxRing.Pass(tokens, completes, accepts))
      ensures packetsTx == old(packetsTx) + sent && sent <= tokens && sent <= BURST
      ensures (shaper.State(), sent) == WorkerTurn(old(shaper.State()), Wake(limit, now, Transmit(sent)))
    {
      hide Refill, Rearm, Complete, Accept;
      RearmMbufs();
      tokens := shaper.Tick(limit, now);
      sent := 0;
      if tokens > 0 {
        DriverCompletes(completes);
        ghost var drained := State();
        var count := Min(Min(32, |lens| - packetsTx % |lens|), tokens);
        var room := Max(0, QUEUE - (|driver.wire| - driver.completed));
        sent := Min(accepts, Min(count, room));
        assert sent == Accepted(drained, TxRing.Pass(tokens, completes, accepts));
        Enqueue(sent);
        if sent > 0 {
          shaper.Consume(tokens);
        }
      }
    }

    /** The loop over `|turns|` passes: the ring goes through a run of the protocol, and the
        packets sent are the ones the token books account for. */
    method Run(turns: seq<Turn>, ghost start: real) returns (ghost passes: seq<TxRing.Pass>, ghost wakes: seq<Wake>)
      requires Valid() && State() == Loaded(lens) && shaper.State() == Bucket(0.0, start)
      modifies this, refcnt, bursts, driver, shaper
      ensures Valid() && State() == TxRing.Run(Loaded(lens), passes)
      ensures |passes| == |wakes| == |turns| && forall i :: 0 <= i < |turns| ==> Follows(turns[i], passes[i], wakes[i])
      ensures forall i :: 0 <= i < |turns| ==> Tied(lens, start, passes, wakes, i)
      ensures packetsTx == Books(start, wakes).executed && shaper.State() == Books(start, wakes).bucket
    {
      hide Worth, Minted, WorkerTurn, Refill, TxRing.Step;
      passes, wakes := [], [];
      for i := 0 to |turns|
        invariant Valid() && State() == TxRing.Run(Loaded(lens), passes)
        invariant |passes| == |wakes| == i && forall j :: 0 <= j < i ==> Follows(turns[j], passes[j], wakes[j])
        invariant forall j :: 0 <= j < i ==> Tied(lens, start, passes, wakes, j)
        invariant packetsTx == Books(start, wakes).executed && shaper.State() == Books(start, wakes).bucket
      {
        hide Tied, Follows, Books, TxRing.Run;
        var t := turns[i];
        var tokens, sent := Pass(t.limit, t.now, t.completes, t.accepts);
        ghost var pass, wake := TxRing.Pass(tokens, t.completes, t.accepts), Wake(t.limit, t.now, Transmit(sent));
        NextPass(lens, passes, pass);
        NextTurn(start, wakes, wake);
        forall j | 0 <= j < i ensures Tied(lens, start, passes + [pass], wakes + [wake], j) {
          TiedStays(lens, start, passes, wakes, pass, wake, j);
        }
        assert Follows(t, pass, wake) by { FollowsTurn(t, tokens, sent); }
        assert (passes + [pass])[..i + 1] == passes + [pass];
        TiedNow(lens, start, passes, wakes, pass, wake);
        passes, wakes := passes + [pass], wakes + [wake];
      }
    }
  }
}
