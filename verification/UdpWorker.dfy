/** The UDP worker (dwd-core/src/engine/udp/engine.rs): a shaped loop of sends over a
    socket that is replaced after a fixed number of requests. */
module UdpWorker {
  import opened Common
  import opened RoundRobin
  import opened TokenBucket

  /** The environment's answers for one request: does bind-and-connect succeed (asked only
      without a socket), and does the send. */
  datatype Net = Net(opens: bool, sends: bool)

  /** `sends` lists, per created socket, how many requests it carried. */
  datatype State = State(sock: bool, done: nat, requests: nat, sockErrors: nat, sends: seq<nat>)

  const NEW: State := State(false, 0, 0, 0, [])

  function Execute(s: State, perSock: nat, net: Net): (r: State)
    requires s.sock ==> s.sends != []
    ensures r.sock ==> r.sends != []
  {
    if !s.sock && !net.opens then s.(sockErrors := s.sockErrors + 1)
    else
      var c := if s.sock then s else s.(done := 0, sends := s.sends + [0]);
      if !net.sends then c.(sock := false, sockErrors := c.sockErrors + 1)
      else
        var n := |c.sends| - 1;
        State(c.done + 1 < perSock, c.done + 1, c.requests + 1, c.sockErrors, c.sends[n := c.sends[n] + 1])
  }

  function Run(perSock: nat, nets: seq<Net>): (s: State)
    ensures s.sock ==> s.sends != []
  {
    if nets == [] then NEW else Execute(Run(perSock, nets[..|nets| - 1]), perSock, nets[|nets| - 1])
  }

  function PerSocket(perSock: nat): nat { Max(1, perSock) }

  ghost predicate Quoted(s: State, perSock: nat, executes: nat) {
    && (forall k :: 0 <= k < |s.sends| ==> s.sends[k] <= PerSocket(perSock))
    && (s.sock ==> 0 < s.done < perSock && s.sends != [] && s.sends[|s.sends| - 1] == s.done)
    && Total(s.sends) == s.requests
    && s.requests + s.sockErrors == executes
  }

  lemma ExecuteKeepsQuota(s: State, perSock: nat, net: Net, executes: nat)
    requires Quoted(s, perSock, executes)
    ensures Quoted(Execute(s, perSock, net), perSock, executes + 1)
  {
    var c := if s.sock then s.sends else s.sends + [0];
    if !s.sock {
      assert c[..|c| - 1] == s.sends;
    }
    TotalUpdate(c, |c| - 1, c[|c| - 1] + 1);
    assert Total(c) == Total(s.sends);
    hide Total;
  }

  /** Every socket carries at most max(1, N) requests, a kept one fewer than N; every
      request is on some socket; every `execute` is a request or a socket error. */
  lemma {:induction false} SocketQuota(perSock: nat, nets: seq<Net>)
    ensures Quoted(Run(perSock, nets), perSock, |nets|)
  {
    hide Execute, Quoted;
    if nets != [] {
      var n := |nets| - 1;
      SocketQuota(perSock, nets[..n]);
      ExecuteKeepsQuota(Run(perSock, nets[..n]), perSock, nets[n], n);
    } else {
      NewQuoted(perSock);
    }
  }

  lemma NewQuoted(perSock: nat)
    ensures Quoted(NEW, perSock, 0)
  {
  }

  // --- Counters by the outcomes alone -----------------------------------------------------

  /** The socket in hand after these outcomes, with the requests it has carried. */
  ghost function Held(perSock: nat, nets: seq<Net>): Option<nat> {
    if nets == [] then None
    else
      var net, h := nets[|nets| - 1], Held(perSock, nets[..|nets| - 1]);
      if (h.None? && !net.opens) || !net.sends then None
      else
        var done := 1 + if h.Some? then h.value else 0;
        if done < perSock then Some(done) else None
  }

  /** Outcomes of one kind, given whether a socket was in hand. */
  ghost function CountNets(perSock: nat, nets: seq<Net>, kind: (bool, Net) -> bool): nat {
    if nets == [] then 0
    else
      var n := |nets| - 1;
      CountNets(perSock, nets[..n], kind) + if kind(Held(perSock, nets[..n]).Some?, nets[n]) then 1 else 0
  }

  predicate Sent(held: bool, net: Net) { (held || net.opens) && net.sends }

  predicate Failed(held: bool, net: Net) { (!held && !net.opens) || !net.sends }

  predicate Opened(held: bool, net: Net) { !held && net.opens }

  /** A request is counted exactly for a send that succeeded, an error exactly for a failed
      connect or send, and a socket exactly for a connect that succeeded. */
  lemma {:induction false} CountersByOutcome(perSock: nat, nets: seq<Net>)
    ensures var s := Run(perSock, nets);
            && s.sock == Held(perSock, nets).Some?
            && (s.sock ==> s.done == Held(perSock, nets).value)
            && s.requests == CountNets(perSock, nets, Sent)
            && s.sockErrors == CountNets(perSock, nets, Failed)
            && |s.sends| == CountNets(perSock, nets, Opened)
  {
    if nets != [] {
      CountersByOutcome(perSock, nets[..|nets| - 1]);
    }
  }

  ghost predicate NoErrors(nets: seq<Net>) { forall e | e in nets :: e.opens && e.sends }

  /** Without errors a socket is replaced only when it is used up: exactly
      ceil(requests / max(1, N)) sockets are created. */
  lemma SocketsCreated(perSock: nat, nets: seq<Net>)
    requires NoErrors(nets)
    ensures var s := Run(perSock, nets);
            var m := PerSocket(perSock);
            && s.requests == |nets|
            && |s.sends| == (s.requests + m - 1) / m
  {
    FilledSockets(perSock, nets);
    hide Run, Slots;
    var s := Run(perSock, nets);
    RoundUp(s.requests, PerSocket(perSock), |s.sends|, if s.sock then PerSocket(perSock) - s.done else 0);
  }

  /** Requests that `sockets` sockets can carry. */
  ghost function Slots(sockets: nat, m: nat): nat { sockets * m }

  lemma MoreSlots(sockets: nat, m: nat)
    ensures Slots(0, m) == 0 && Slots(sockets + 1, m) == Slots(sockets, m) + m
  {
  }

  lemma RoundUp(requests: nat, m: nat, sockets: nat, free: nat)
    requires free < m && requests + free == Slots(sockets, m)
    ensures (requests + m - 1) / m == sockets
  {
    DivModUnique(requests + m - 1, m, sockets, m - 1 - free);
  }

  lemma {:induction false} FilledSockets(perSock: nat, nets: seq<Net>)
    requires NoErrors(nets)
    ensures var s := Run(perSock, nets);
            var m := PerSocket(perSock);
            && s.requests == |nets|
            && (s.sock ==> 0 < s.done < m)
            && s.requests + (if s.sock then m - s.done else 0) == Slots(|s.sends|, m)
  {
    hide Slots;
    MoreSlots(0, PerSocket(perSock));
    if nets != [] {
      var n := |nets| - 1;
      FilledSockets(perSock, nets[..n]);
      assert nets[n] in nets && nets[n].opens && nets[n].sends;
      MoreSlots(|Run(perSock, nets[..n]).sends|, PerSocket(perSock));
    }
  }

  // --- The worker as the code runs it -----------------------------------------------------

  /** Answers the environment would give to request number 0, 1, 2, ... */
  type Network = nat -> Net

  function Answers(net: Network, n: nat): seq<Net> { seq(n, i requires 0 <= i < n => net(i)) }

  class Worker {
    const requestsPerSock: nat
    const shaper: Shaper
    var sock: bool
    var requestsPerSockDone: nat
    var requests: nat
    var sockErrors: nat
    ghost var sends: seq<nat>

    ghost function Socket(): State
      reads this
    {
      State(sock, requestsPerSockDone, requests, sockErrors, sends)
    }

    constructor (requestsPerSock: nat, now: real)
      ensures Socket() == NEW && this.requestsPerSock == requestsPerSock
      ensures fresh(shaper) && shaper.burstSize == 0 && shaper.State() == Bucket(0.0, now)
    {
      this.requestsPerSock := requestsPerSock;
      shaper := new Shaper(0, now);
      sock, requestsPerSockDone, requests, sockErrors, sends := false, 0, 0, 0, [];
    }

    method ExecuteOnce(net: Net)
      requires sock ==> sends != []
      modifies this
      ensures Socket() == Execute(old(Socket()), requestsPerSock, net)
    {
      var taken := sock;
      sock := false;
      if !taken {
        if !net.opens {
          sockErrors := sockErrors + 1;
          return;
        }
        requestsPerSockDone := 0;
        sends := sends + [0];
      }
      if net.sends {
        requestsPerSockDone := requestsPerSockDone + 1;
        if requestsPerSockDone < requestsPerSock {
          sock := true;
        }
        requests := requests + 1;
        sends := sends[|sends| - 1 := sends[|sends| - 1] + 1];
      } else {
        sockErrors := sockErrors + 1;
      }
    }

    /** The loop over `|wakes|` turns: executes exactly what the books of an uncapped
        bucket release, one request per token, each answered by the network in order. */
    method RunLoop(wakes: seq<Wake>, net: Network, ghost start: real) returns (executed: nat)
      requires shaper.burstSize == 0 && shaper.State() == Bucket(0.0, start) && Socket() == NEW
      requires forall w | w in wakes :: w.cap.Unlimited?
      modifies this, shaper
      ensures executed == Books(start, wakes).executed
      ensures Socket() == Run(requestsPerSock, Answers(net, executed))
    {
      hide Worth, Minted, WorkerTurn, Refill;
      executed := 0;
      for turn := 0 to |wakes|
        invariant executed == Books(start, wakes[..turn]).executed
        invariant shaper.State() == Books(start, wakes[..turn]).bucket
        invariant Socket() == Run(requestsPerSock, Answers(net, executed))
      {
        assert wakes[..turn + 1][..turn] == wakes[..turn];
        executed := Turn(wakes[turn], net, executed);
      }
      assert wakes[..|wakes|] == wakes;
    }

    method Turn(w: Wake, net: Network, executed: nat) returns (after: nat)
      requires shaper.burstSize == 0 && w.cap.Unlimited? && Socket() == Run(requestsPerSock, Answers(net, executed))
      modifies this, shaper
      ensures (shaper.State(), after - executed) == WorkerTurn(old(shaper.State()), w)
      ensures Socket() == Run(requestsPerSock, Answers(net, after))
    {
      hide Worth;
      var n := shaper.Tick(w.limit, w.now);
      ghost var ticked := shaper.State();
      after := executed;
      for i := 0 to n
        invariant after == executed + i && shaper.State() == ticked
        invariant Socket() == Run(requestsPerSock, Answers(net, after))
      {
        ExecuteOnce(net(after));
        assert Answers(net, after + 1)[..after] == Answers(net, after);
        after := after + 1;
      }
      if n > 0 {
        shaper.Consume(n);
      }
    }
  }
}
