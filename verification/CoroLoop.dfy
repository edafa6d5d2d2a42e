/** The coroutine worker loop (dwd-core/src/engine/coro.rs) around the HTTP task. */
module CoroLoop {
  import opened TokenBucket
  import HttpWorker

  /** What the environment does to request number 0, 1, 2, ... */
  type Network = nat -> HttpWorker.Move

  function Moves(net: Network, n: nat): seq<HttpWorker.Move> { seq(n, i requires 0 <= i < n => net(i)) }

  lemma EachExecuteCounted(quota: HttpWorker.Quota, draw: nat, net: Network, n: nat)
    ensures HttpWorker.Balanced(HttpWorker.Run(quota, draw, Moves(net, n)), n)
  {
    HttpWorker.ExecutesBalance(quota, draw, Moves(net, n));
  }

  class ShapedCoroWorker {
    const task: HttpWorker.CoroWorker
    const shaper: Shaper

    constructor (quota: HttpWorker.Quota, draw: nat, now: real)
      ensures fresh(task) && fresh(task.hist) && fresh(task.hist.buckets) && fresh(shaper)
      ensures task.Valid() && task.quota == quota && task.State() == HttpWorker.NewTask(quota, draw)
      ensures shaper.State() == Bucket(0.0, now) && shaper.burstSize == 0
    {
      task := new HttpWorker.CoroWorker(quota, draw);
      shaper := new Shaper(0, now);
    }

    /** One turn: tick, execute at most 32 of the offered tasks, consume as many tokens. */
    method Turn(w: Wake, net: Network, ghost draw: nat, executed: nat) returns (after: nat)
      requires task.Valid() && shaper.burstSize == 0 && w.cap == COROUTINE_CAP
      requires task.State() == HttpWorker.Run(task.quota, draw, Moves(net, executed))
      modifies task, task.hist, task.hist.buckets, shaper
      ensures task.Valid()
      ensures (shaper.State(), after - executed) == WorkerTurn(old(shaper.State()), w)
      ensures task.State() == HttpWorker.Run(task.quota, draw, Moves(net, after))
    {
      hide Worth, HttpWorker.Execute;
      var n := shaper.Tick(w.limit, w.now);
      after := executed;
      if n > 0 {
        n := if n < 32 then n else 32;
        ghost var ticked := shaper.State();
        for i := 0 to n
          invariant task.Valid() && after == executed + i && shaper.State() == ticked
          invariant task.State() == HttpWorker.Run(task.quota, draw, Moves(net, after))
        {
          task.ExecuteOnce(net(after));
          assert Moves(net, after + 1)[..after] == Moves(net, after);
          after := after + 1;
        }
        shaper.Consume(n);
      }
    }

    /** The loop over `|wakes|` turns executes what the token books release, and each of
        those executes ended as a response, a timeout or a socket error. */
    method Run(wakes: seq<Wake>, net: Network, ghost draw: nat, ghost start: real) returns (executed: nat)
      requires task.Valid() && shaper.burstSize == 0 && shaper.State() == Bucket(0.0, start)
      requires task.State() == HttpWorker.NewTask(task.quota, draw)
      requires forall w | w in wakes :: w.cap == COROUTINE_CAP
      modifies task, task.hist, task.hist.buckets, shaper
      ensures task.Valid()
      ensures executed == Books(start, wakes).executed && shaper.State() == Books(start, wakes).bucket
      ensures task.State() == HttpWorker.Run(task.quota, draw, Moves(net, executed))
      ensures HttpWorker.Balanced(task.State(), Books(start, wakes).executed)
    {
      hide Worth, Minted, WorkerTurn, Refill, Consumes, HttpWorker.Execute, HttpWorker.Draw;
      executed := 0;
      assert HttpWorker.Run(task.quota, draw, Moves(net, 0)) == HttpWorker.NewTask(task.quota, draw);
      hide HttpWorker.Run, HttpWorker.NewTask, HttpWorker.Balanced, Moves;
      for turn := 0 to |wakes|
        invariant task.Valid()
        invariant executed == Books(start, wakes[..turn]).executed
        invariant shaper.State() == Books(start, wakes[..turn]).bucket
        invariant task.State() == HttpWorker.Run(task.quota, draw, Moves(net, executed))
      {
        assert wakes[..turn + 1][..turn] == wakes[..turn];
        executed := Turn(wakes[turn], net, draw, executed);
      }
      assert wakes[..|wakes|] == wakes;
      hide Books;
      EachExecuteCounted(task.quota, draw, net, executed);
    }
  }
}
