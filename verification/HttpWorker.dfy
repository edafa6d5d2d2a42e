/** The HTTP worker (dwd-core/src/engine/http/engine.rs `CoroWorker`): one request per
    `execute`, over a connection that is kept while its quota lasts. The network and the
    timeout are adversaries: a timeout can cancel the request at any await. */
module HttpWorker {
  import opened Common
  import opened LatencyHistogram
  import RoundRobin

  const U64_MAX: nat := 0xFFFF_FFFF_FFFF_FFFF

  /** What happens while connecting: an error or a cancellation, before or after the TCP
      socket was counted as created, or success. */
  datatype Connect = Refused(created: bool) | ConnectCancelled(created: bool) | Connected

  /** What happens to the request: an error or a cancellation before the response head
      (request not counted) or in the body (request counted), or an answer. */
  datatype Exchange = SendFailed | SendCancelled | BodyFailed | BodyCancelled | Answered(code: nat)

  /** One adversary move; `us` is how long it takes, `draw` feeds the quota generator. */
  datatype Move = Move(connect: Connect, exchange: Exchange, us: nat, draw: nat)

  datatype Quota = Quota(base: nat, deviation: nat)

  /** `RequestsPerSocket`: fixed without a deviation, else any value of the range. */
  function Draw(q: Quota, draw: nat): nat {
    if q.deviation == 0 then q.base
    else Min(Max(draw, Lowest(q)), Highest(q))
  }

  function Lowest(q: Quota): nat { Max(0, q.base - q.deviation) }

  function Highest(q: Quota): nat { Min(q.base + q.deviation, U64_MAX) }

  datatype Stats = Stats(
    requests: nat, responses: nat, timeouts: nat, sockErrors: nat, sockCreated: nat,
    num2xx: nat, num3xx: nat, num4xx: nat, num5xx: nat)

  /** The counters of a response with the given status code; other codes are only logged. */
  function OnCode(s: Stats, code: nat): Stats {
    var c := s.(responses := s.responses + 1);
    if 200 <= code < 300 then c.(num2xx := c.num2xx + 1)
    else if 300 <= code < 400 then c.(num3xx := c.num3xx + 1)
    else if 400 <= code < 500 then c.(num4xx := c.num4xx + 1)
    else if 500 <= code < 600 then c.(num5xx := c.num5xx + 1)
    else c
  }

  /** `carried` lists, per established connection, the responses it has completed; the
      last entry is the open connection when there is one; `samples` lists the latencies
      recorded in the histogram. */
  datatype Task = Task(open: bool, left: nat, stats: Stats, carried: seq<nat>, samples: seq<nat>)

  function NewTask(q: Quota, draw: nat): Task {
    Task(false, Draw(q, draw), Stats(0, 0, 0, 0, 0, 0, 0, 0, 0), [], [])
  }

  function Timeout(w: Task, us: nat): Task {
    w.(stats := w.stats.(timeouts := w.stats.timeouts + 1), samples := w.samples + [us])
  }

  function SockError(w: Task): Task { w.(stats := w.stats.(sockErrors := w.stats.sockErrors + 1)) }

  function Created(w: Task): Task { w.(stats := w.stats.(sockCreated := w.stats.sockCreated + 1)) }

  function Requested(w: Task): Task { w.(stats := w.stats.(requests := w.stats.requests + 1)) }

  /** A complete response: counters, then the quota, then keep or retire the connection. */
  function Respond(w: Task, q: Quota, code: nat, us: nat, draw: nat): Task
    requires w.carried != []
  {
    var left := Max(0, w.left - 1);
    var n := |w.carried| - 1;
    Task(left > 0, if left > 0 then left else Draw(q, draw), OnCode(w.stats, code),
         w.carried[n := w.carried[n] + 1], w.samples + [us])
  }

  /** One `execute`. The current connection is taken out first and only put back after a
      complete response. */
  function Execute(w: Task, q: Quota, m: Move): (r: Task)
    requires w.open ==> w.carried != []
    ensures r.open ==> r.carried != []
  {
    if !w.open && m.connect.Refused? then SockError(if m.connect.created then Created(w) else w)
    else if !w.open && m.connect.ConnectCancelled? then Timeout(if m.connect.created then Created(w) else w, m.us)
    else
      var c := if w.open then w.(open := false) else Created(w).(carried := w.carried + [0]);
      match m.exchange
      case SendFailed => SockError(c)
      case SendCancelled => Timeout(c, m.us)
      case BodyFailed => SockError(Requested(c))
      case BodyCancelled => Timeout(Requested(c), m.us)
      case Answered(code) => Respond(Requested(c), q, code, m.us, m.draw)
  }

  /** A connection completes at most `cap` responses; a kept one has quota left, and what
      it has done and may still do fits the cap. */
  ghost predicate Quoted(w: Task, cap: nat) {
    && w.left <= cap
    && (forall k :: 0 <= k < |w.carried| ==> w.carried[k] <= cap)
    && (w.open ==> w.carried != [] && w.left > 0 && w.carried[|w.carried| - 1] + w.left <= cap)
  }

  ghost function Cap(q: Quota): nat { Max(1, Highest(q)) }

  function Run(q: Quota, first: nat, moves: seq<Move>): (w: Task)
    ensures w.open ==> w.carried != []
  {
    if moves == [] then NewTask(q, first)
    else Execute(Run(q, first, moves[..|moves| - 1]), q, moves[|moves| - 1])
  }

  lemma ExecuteKeepsQuota(w: Task, q: Quota, m: Move)
    requires Quoted(w, Cap(q)) && q.base <= U64_MAX
    ensures Quoted(Execute(w, q, m), Cap(q))
  {
    hide OnCode;
  }

  /** Main result on quotas: over every outcome sequence no connection completes more than
      max(1, N + deviation) responses, and a kept one always has quota left. */
  lemma {:induction false} ConnectionQuota(q: Quota, first: nat, moves: seq<Move>)
    requires q.base <= U64_MAX
    ensures Quoted(Run(q, first, moves), Max(1, Min(q.base + q.deviation, U64_MAX)))
  {
    if moves != [] {
      hide Quoted, Execute;
      var n := |moves| - 1;
      ConnectionQuota(q, first, moves[..n]);
      ExecuteKeepsQuota(Run(q, first, moves[..n]), q, moves[n]);
    }
  }

  // --- Accounting -----------------------------------------------------------------------

  ghost predicate Balanced(w: Task, executes: nat) {
    var s := w.stats;
    && s.responses + s.timeouts + s.sockErrors == executes
    && |w.samples| == s.responses + s.timeouts
    && s.responses <= s.requests <= executes
    && s.num2xx + s.num3xx + s.num4xx + s.num5xx <= s.responses
  }

  lemma CodeCounts(s: Stats, code: nat)
    ensures var c := OnCode(s, code);
            && c.requests == s.requests && c.responses == s.responses + 1
            && c.timeouts == s.timeouts && c.sockErrors == s.sockErrors && c.sockCreated == s.sockCreated
            && c.num2xx + c.num3xx + c.num4xx + c.num5xx
               == s.num2xx + s.num3xx + s.num4xx + s.num5xx + if 200 <= code < 600 then 1 else 0
  {
  }

  /** What becomes of a request on a connection in hand. */
  lemma ExchangeBalances(c: Task, q: Quota, m: Move, executes: nat)
    requires c.carried != [] && Balanced(c, executes)
    ensures Balanced(SockError(c), executes + 1) && Balanced(Timeout(c, m.us), executes + 1)
    ensures Balanced(SockError(Requested(c)), executes + 1) && Balanced(Timeout(Requested(c), m.us), executes + 1)
    ensures m.exchange.Answered? ==>
              Balanced(Respond(Requested(c), q, m.exchange.code, m.us, m.draw), executes + 1)
  {
    hide OnCode, Draw;
    if m.exchange.Answered? {
      CodeCounts(Requested(c).stats, m.exchange.code);
    }
  }

  lemma OutcomeBalances(c: Task, us: nat, executes: nat)
    requires Balanced(c, executes)
    ensures Balanced(Created(c), executes)
    ensures Balanced(SockError(c), executes + 1) && Balanced(Timeout(c, us), executes + 1)
  {
  }

  lemma ExecuteBalances(w: Task, q: Quota, m: Move, executes: nat)
    requires (w.open ==> w.carried != []) && Balanced(w, executes)
    ensures Balanced(Execute(w, q, m), executes + 1)
  {
    var c := if w.open then w.(open := false) else Created(w).(carried := w.carried + [0]);
    assert Balanced(c, executes);
    hide Balanced, SockError, Timeout, Requested, Created, Respond;
    OutcomeBalances(w, m.us, executes);
    OutcomeBalances(Created(w), m.us, executes);
    ExchangeBalances(c, q, m, executes);
  }

  /** Each `execute` adds exactly one to responses, timeouts or socket errors, whatever
      happens to it, and one latency to the histogram for the first two. */
  lemma {:induction false} ExecutesBalance(q: Quota, first: nat, moves: seq<Move>)
    ensures Balanced(Run(q, first, moves), |moves|)
    ensures |Run(q, first, moves).carried| <= Run(q, first, moves).stats.sockCreated
  {
    if moves != [] {
      hide Execute, Balanced;
      var n := |moves| - 1;
      ExecutesBalance(q, first, moves[..n]);
      ExecuteBalances(Run(q, first, moves[..n]), q, moves[n], n);
      CarriersCreated(Run(q, first, moves[..n]), q, moves[n]);
    }
  }

  /** Every connection that carried a request was counted as created. */
  lemma CarriersCreated(w: Task, q: Quota, m: Move)
    requires (w.open ==> w.carried != []) && |w.carried| <= w.stats.sockCreated
    ensures |Execute(w, q, m).carried| <= Execute(w, q, m).stats.sockCreated
  {
    hide Draw;
  }

  /** Unanswered requests as the summary computes them (dwd-core/src/summary.rs). */
  function Unanswered(requests: nat, responses: nat, timeouts: nat): nat {
    Max(0, requests - (responses + timeouts))
  }

  /** The summing readers over all workers (dwd-core/src/stat/percpu.rs). */
  function Column(ws: seq<Task>, field: Stats -> nat): seq<nat> {
    if ws == [] then [] else Column(ws[..|ws| - 1], field) + [field(ws[|ws| - 1].stats)]
  }

  function Summed(ws: seq<Task>, field: Stats -> nat): nat { Total(Column(ws, field)) }

  lemma SummedNext(ws: seq<Task>, field: Stats -> nat)
    requires ws != []
    ensures Summed(ws, field) == Summed(ws[..|ws| - 1], field) + field(ws[|ws| - 1].stats)
  {
    var before := Column(ws[..|ws| - 1], field);
    assert Column(ws, field)[..|before|] == before;
  }

  function Requests(s: Stats): nat { s.requests }

  function Responses(s: Stats): nat { s.responses }

  function Timeouts(s: Stats): nat { s.timeouts }

  function SockErrors(s: Stats): nat { s.sockErrors }

  /** After a drained run of any number of workers, the unanswered count of the summary is
      at most the number of socket errors. */
  lemma {:induction false} UnansweredBySocketErrors(q: Quota, firsts: seq<nat>, runs: seq<seq<Move>>, ws: seq<Task>)
    requires |firsts| == |runs| == |ws|
    requires forall i :: 0 <= i < |runs| ==> ws[i] == Run(q, firsts[i], runs[i])
    ensures Summed(ws, Requests) <= Summed(ws, Responses) + Summed(ws, Timeouts) + Summed(ws, SockErrors)
    ensures Unanswered(Summed(ws, Requests), Summed(ws, Responses), Summed(ws, Timeouts)) <= Summed(ws, SockErrors)
    decreases |ws|
  {
    hide Run;
    if ws != [] {
      var n := |ws| - 1;
      ExecutesBalance(q, firsts[n], runs[n]);
      UnansweredBySocketErrors(q, firsts[..n], runs[..n], ws[..n]);
      SummedNext(ws, Requests);
      SummedNext(ws, Responses);
      SummedNext(ws, Timeouts);
      SummedNext(ws, SockErrors);
      hide Summed;
    }
  }

  /** The bucket rows of the workers' histograms. */
  ghost function Rows(ws: seq<Task>): seq<seq<nat>> {
    seq(|ws|, i requires 0 <= i < |ws| => Counts(ws[i].samples, BUCKETS))
  }

  ghost function AllSamples(ws: seq<Task>): seq<seq<nat>> {
    seq(|ws|, i requires 0 <= i < |ws| => ws[i].samples)
  }

  lemma SamplesNext(ws: seq<Task>)
    requires ws != []
    ensures var n := |ws| - 1;
            |Flatten(AllSamples(ws))| == |Flatten(AllSamples(ws[..n]))| + |ws[n].samples|
  {
    assert AllSamples(ws)[..|ws| - 1] == AllSamples(ws[..|ws| - 1]);
  }

  lemma {:induction false} SamplesCounted(q: Quota, firsts: seq<nat>, runs: seq<seq<Move>>, ws: seq<Task>)
    requires |firsts| == |runs| == |ws|
    requires forall i :: 0 <= i < |runs| ==> ws[i] == Run(q, firsts[i], runs[i])
    ensures |Flatten(AllSamples(ws))| == Summed(ws, Responses) + Summed(ws, Timeouts)
    decreases |ws|
  {
    hide Run;
    if ws != [] {
      hide Total, Column;
      var n := |ws| - 1;
      ExecutesBalance(q, firsts[n], runs[n]);
      SamplesCounted(q, firsts[..n], runs[..n], ws[..n]);
      SummedNext(ws, Responses);
      SummedNext(ws, Timeouts);
      SamplesNext(ws);
      hide Summed, AllSamples, Flatten;
    }
  }

  /** The merged histogram of any number of workers holds one entry for every response and
      every timeout, and nothing else. */
  lemma HistogramHoldsAnswers(q: Quota, firsts: seq<nat>, runs: seq<seq<Move>>, ws: seq<Task>)
    requires |firsts| == |runs| == |ws| > 0
    requires forall i :: 0 <= i < |runs| ==> ws[i] == Run(q, firsts[i], runs[i])
    ensures Total(Merged(Rows(ws))) == Summed(ws, Responses) + Summed(ws, Timeouts)
  {
    hide Run, Summed, Merged, Counts, Total;
    SamplesCounted(q, firsts, runs, ws);
    MergedIsCombined(AllSamples(ws), Rows(ws), BUCKETS);
    SnapshotGoal(Flatten(AllSamples(ws)), BUCKETS, 1.0);
  }

  // --- A lost connection passes its used-up quota on --------------------------------------

  /** The quota drawn last and the responses completed since that draw, from the moves
      alone; a response that uses the quota up retires the connection and draws anew. */
  datatype Lease = Lease(open: bool, drawn: nat, used: nat)

  ghost function LeaseAfter(q: Quota, first: nat, moves: seq<Move>): Lease {
    if moves == [] then Lease(false, Draw(q, first), 0)
    else LeaseStep(LeaseAfter(q, first, moves[..|moves| - 1]), q, moves[|moves| - 1])
  }

  ghost function LeaseStep(l: Lease, q: Quota, m: Move): Lease {
    if !Completes(l.open, m) then l.(open := false)
    else if l.used + 1 < l.drawn then Lease(true, l.drawn, l.used + 1)
    else Lease(false, Draw(q, m.draw), 0)
  }

  ghost predicate Completes(open: bool, m: Move) {
    m.exchange.Answered? && (open || m.connect.Connected?)
  }

  lemma ResponseCounted(w: Task, q: Quota, m: Move)
    requires w.open ==> w.carried != []
    ensures Execute(w, q, m).stats.responses == w.stats.responses + if Completes(w.open, m) then 1 else 0
  {
    hide Draw;
  }

  /** What is left is the drawn quota less the responses since the draw, on whatever
      connections: an error or a timeout loses the connection and renews nothing. */
  lemma {:induction false} LeftOfLease(q: Quota, first: nat, moves: seq<Move>)
    ensures var w, l := Run(q, first, moves), LeaseAfter(q, first, moves);
            w.left == l.drawn - l.used && w.open == l.open
  {
    if moves != [] {
      LeftOfLease(q, first, moves[..|moves| - 1]);
      hide OnCode, Draw;
    }
  }

  /** The field is documented as reset with every new socket. For every quota, fixed or
      uniform, a new connection starts with the full quota drawn for it exactly when no
      response was completed since that draw. */
  lemma NewConnectionQuota(q: Quota, first: nat, moves: seq<Move>)
    ensures var w, l := Run(q, first, moves), LeaseAfter(q, first, moves);
            w.left == l.drawn <==> l.used == 0
  {
    LeftOfLease(q, first, moves);
  }

  lemma FixedStep(l: Lease, responses: nat, n: nat, m: Move)
    requires n > 0 && l.drawn == n && l.used == responses % n
    ensures var l' := LeaseStep(l, Quota(n, 0), m);
            l'.drawn == n && l'.used == (responses + if Completes(l.open, m) then 1 else 0) % n
  {
    RoundRobin.NextDeal(responses, n);
  }

  lemma {:induction false} FixedLease(n: nat, first: nat, moves: seq<Move>)
    requires n > 0
    ensures var w, l := Run(Quota(n, 0), first, moves), LeaseAfter(Quota(n, 0), first, moves);
            l.drawn == n && l.used == w.stats.responses % n
  {
    hide Execute, LeaseStep;
    if moves != [] {
      var k := |moves| - 1;
      var before := Run(Quota(n, 0), first, moves[..k]);
      FixedLease(n, first, moves[..k]);
      LeftOfLease(Quota(n, 0), first, moves[..k]);
      ResponseCounted(before, Quota(n, 0), moves[k]);
      FixedStep(LeaseAfter(Quota(n, 0), first, moves[..k]), before.stats.responses, n, moves[k]);
    }
  }

  /** With a fixed quota N what is left is N minus all responses modulo N, so a connection
      starts with N exactly when the responses so far are a multiple of N. */
  lemma FixedQuotaCountsResponses(n: nat, first: nat, moves: seq<Move>)
    requires n > 0
    ensures var w := Run(Quota(n, 0), first, moves);
            && w.left == n - w.stats.responses % n
            && (w.left == n <==> w.stats.responses % n == 0)
  {
    hide Run, LeaseAfter;
    FixedLease(n, first, moves);
    LeftOfLease(Quota(n, 0), first, moves);
  }

  // --- Counters by the moves alone --------------------------------------------------------

  /** Moves of one kind, given whether a connection was open. */
  ghost function CountMoves(q: Quota, first: nat, moves: seq<Move>, kind: (bool, Move) -> bool): nat {
    if moves == [] then 0
    else
      var n := |moves| - 1;
      CountMoves(q, first, moves[..n], kind) + if kind(LeaseAfter(q, first, moves[..n]).open, moves[n]) then 1 else 0
  }

  predicate HasSocket(open: bool, m: Move) { open || m.connect.Connected? }

  /** A response head arrived. */
  predicate Headed(open: bool, m: Move) {
    HasSocket(open, m) && (m.exchange.BodyFailed? || m.exchange.BodyCancelled? || m.exchange.Answered?)
  }

  predicate Cancelled(open: bool, m: Move) {
    || (!open && m.connect.ConnectCancelled?)
    || (HasSocket(open, m) && (m.exchange.SendCancelled? || m.exchange.BodyCancelled?))
  }

  predicate Failed(open: bool, m: Move) {
    || (!open && m.connect.Refused?)
    || (HasSocket(open, m) && (m.exchange.SendFailed? || m.exchange.BodyFailed?))
  }

  predicate SocketMade(open: bool, m: Move) {
    !open && (m.connect.Connected? || m.connect.created)
  }

  predicate Answers(open: bool, m: Move) { HasSocket(open, m) && m.exchange.Answered? }

  predicate Answers2xx(open: bool, m: Move) { Answers(open, m) && 200 <= m.exchange.code <= 299 }

  predicate Answers3xx(open: bool, m: Move) { Answers(open, m) && 300 <= m.exchange.code <= 399 }

  predicate Answers4xx(open: bool, m: Move) { Answers(open, m) && 400 <= m.exchange.code <= 499 }

  predicate Answers5xx(open: bool, m: Move) { Answers(open, m) && 500 <= m.exchange.code <= 599 }

  /** The latencies of the moves that ended in a response or a timeout, in order. */
  ghost function Latencies(q: Quota, first: nat, moves: seq<Move>): seq<nat> {
    if moves == [] then []
    else
      var n := |moves| - 1;
      var open := LeaseAfter(q, first, moves[..n]).open;
      Latencies(q, first, moves[..n]) + if Answers(open, moves[n]) || Cancelled(open, moves[n]) then [moves[n].us] else []
  }

  function AddIf(x: nat, more: bool): nat { if more then x + 1 else x }

  /** One execute moves each counter by what the move is, and nothing else. */
  lemma ExecuteCounts(w: Task, q: Quota, m: Move)
    requires w.open ==> w.carried != []
    ensures var s, r := w.stats, Execute(w, q, m).stats;
            && r.requests == AddIf(s.requests, Headed(w.open, m))
            && r.responses == AddIf(s.responses, Answers(w.open, m))
            && r.timeouts == AddIf(s.timeouts, Cancelled(w.open, m))
            && r.sockErrors == AddIf(s.sockErrors, Failed(w.open, m))
            && r.sockCreated == AddIf(s.sockCreated, SocketMade(w.open, m))
  {
    hide Draw;
  }

  lemma ExecuteCountsCodes(w: Task, q: Quota, m: Move)
    requires w.open ==> w.carried != []
    ensures var s, r := w.stats, Execute(w, q, m).stats;
            && r.num2xx == AddIf(s.num2xx, Answers2xx(w.open, m))
            && r.num3xx == AddIf(s.num3xx, Answers3xx(w.open, m))
            && r.num4xx == AddIf(s.num4xx, Answers4xx(w.open, m))
            && r.num5xx == AddIf(s.num5xx, Answers5xx(w.open, m))
    ensures Execute(w, q, m).samples
         == w.samples + if Answers(w.open, m) || Cancelled(w.open, m) then [m.us] else []
  {
    hide Draw;
    assert w.samples + [] == w.samples;
  }

  /** Every counter is the number of moves of its kind. */
  lemma {:induction false} CountersByMoves(q: Quota, first: nat, moves: seq<Move>)
    ensures var s := Run(q, first, moves).stats;
            && s.requests == CountMoves(q, first, moves, Headed)
            && s.responses == CountMoves(q, first, moves, Answers)
            && s.timeouts == CountMoves(q, first, moves, Cancelled)
            && s.sockErrors == CountMoves(q, first, moves, Failed)
            && s.sockCreated == CountMoves(q, first, moves, SocketMade)
  {
    if moves != [] {
      hide Execute, LeaseAfter, Headed, Answers, Cancelled, Failed, SocketMade;
      var n := |moves| - 1;
      CountersByMoves(q, first, moves[..n]);
      LeftOfLease(q, first, moves[..n]);
      ExecuteCounts(Run(q, first, moves[..n]), q, moves[n]);
    }
  }

  /** The status classes count the completed responses with such a code, and the histogram
      gets the latency of every response and timeout. */
  lemma {:induction false} CodesByMoves(q: Quota, first: nat, moves: seq<Move>)
    ensures var w := Run(q, first, moves);
            && w.stats.num2xx == CountMoves(q, first, moves, Answers2xx)
            && w.stats.num3xx == CountMoves(q, first, moves, Answers3xx)
            && w.stats.num4xx == CountMoves(q, first, moves, Answers4xx)
            && w.stats.num5xx == CountMoves(q, first, moves, Answers5xx)
            && w.samples == Latencies(q, first, moves)
  {
    if moves != [] {
      hide Execute, LeaseAfter, Answers, Cancelled, Answers2xx, Answers3xx, Answers4xx, Answers5xx;
      var n := |moves| - 1;
      CodesByMoves(q, first, moves[..n]);
      LeftOfLease(q, first, moves[..n]);
      ExecuteCountsCodes(Run(q, first, moves[..n]), q, moves[n]);
    }
  }

  /** Requests that got a head and then failed, and timeouts before any head. */
  predicate Broken(open: bool, m: Move) { HasSocket(open, m) && m.exchange.BodyFailed? }

  predicate Early(open: bool, m: Move) {
    (!open && m.connect.ConnectCancelled?) || (HasSocket(open, m) && m.exchange.SendCancelled?)
  }

  lemma {:induction false} RequestsBalance(q: Quota, first: nat, moves: seq<Move>)
    ensures CountMoves(q, first, moves, Headed) + CountMoves(q, first, moves, Early)
         == CountMoves(q, first, moves, Answers) + CountMoves(q, first, moves, Cancelled) + CountMoves(q, first, moves, Broken)
  {
    if moves != [] {
      RequestsBalance(q, first, moves[..|moves| - 1]);
    }
  }

  /** The summary's unanswered count should be the requests that broke off after the head.
      Timeouts before a head were never counted as requests and are taken off it: it is right
      exactly when there are none of the one kind or none of the other. */
  lemma UnansweredExact(q: Quota, first: nat, moves: seq<Move>)
    ensures var s := Run(q, first, moves).stats;
            var broken, early := CountMoves(q, first, moves, Broken), CountMoves(q, first, moves, Early);
            && Unanswered(s.requests, s.responses, s.timeouts) == Max(0, broken - early)
            && (Unanswered(s.requests, s.responses, s.timeouts) == broken <==> broken == 0 || early == 0)
  {
    CountersByMoves(q, first, moves);
    RequestsBalance(q, first, moves);
    hide Run, CountMoves;
  }

  /** One request broken off and one refused by a connect timeout: none reported. */
  lemma BrokenHidden()
    ensures var broken := Move(Connected, BodyFailed, 0, 0);
            var early := Move(ConnectCancelled(false), SendFailed, 0, 0);
            var s := Run(Quota(3, 0), 0, [] + [broken] + [early]).stats;
            s.requests == 1 && s.responses == 0 && Unanswered(s.requests, s.responses, s.timeouts) == 0
  {
    var broken := Move(Connected, BodyFailed, 0, 0);
    var early := Move(ConnectCancelled(false), SendFailed, 0, 0);
    RunNext(Quota(3, 0), [], broken);
    RunNext(Quota(3, 0), [] + [broken], early);
  }

  /** A uniform quota draws from N - deviation to N + deviation, within the word, and can
      draw each of these values; a fixed one draws N. */
  lemma DrawRange(q: Quota, draw: nat)
    requires q.base <= U64_MAX
    ensures q.deviation == 0 ==> Draw(q, draw) == q.base
    ensures q.deviation > 0 ==>
              Max(0, q.base - q.deviation) <= Draw(q, draw) <= Min(q.base + q.deviation, U64_MAX)
    ensures q.deviation > 0 && Max(0, q.base - q.deviation) <= draw <= Min(q.base + q.deviation, U64_MAX) ==>
              Draw(q, draw) == draw
  {
  }

  /** Three responses per connection, one answer, one error: the next connection is retired
      after two responses. */
  lemma LostConnectionShortensNext()
    ensures var ok := Move(Connected, Answered(200), 0, 0);
            var lost := Move(Connected, SendFailed, 0, 0);
            var w := Run(Quota(3, 0), 0, [] + [ok] + [lost] + [ok] + [ok]);
            w.carried == [1, 2] && !w.open
  {
    var ok := Move(Connected, Answered(200), 0, 0);
    var lost := Move(Connected, SendFailed, 0, 0);
    var q := Quota(3, 0);
    RunNext(q, [], ok);
    RunNext(q, [] + [ok], lost);
    RunNext(q, [] + [ok] + [lost], ok);
    RunNext(q, [] + [ok] + [lost] + [ok], ok);
  }

  lemma RunNext(q: Quota, moves: seq<Move>, m: Move)
    ensures Run(q, 0, moves + [m]) == Execute(Run(q, 0, moves), q, m)
  {
    assert (moves + [m])[..|moves|] == moves;
  }

  // --- The worker as the code runs it ------------------------------------------------------

  class CoroWorker {
    const quota: Quota
    const hist: PerCpuLogHistogram
    var stream: bool
    var requestsPerSockLeft: nat
    var stats: Stats
    ghost var carried: seq<nat>

    ghost function State(): Task
      reads this, hist
    {
      Task(stream, requestsPerSockLeft, stats, carried, hist.samples)
    }

    ghost predicate Valid()
      reads this, hist, hist.buckets
    {
      hist.Valid() && (stream ==> carried != [])
    }

    constructor (quota: Quota, draw: nat)
      ensures Valid() && State() == NewTask(quota, draw) && this.quota == quota
      ensures fresh(hist) && fresh(hist.buckets)
    {
      this.quota := quota;
      hist := new PerCpuLogHistogram();
      stream, requestsPerSockLeft := false, Draw(quota, draw);
      stats, carried := Stats(0, 0, 0, 0, 0, 0, 0, 0, 0), [];
    }

    /** Takes the open connection or makes a new one; false when there is none to use. */
    method CurrSock(m: Connect) returns (ok: bool)
      modifies this
      ensures ok <==> old(stream) || m.Connected?
      ensures State() ==
        if old(stream) then old(State()).(open := false)
        else if m.Connected? then Created(old(State())).(carried := old(carried) + [0])
        else if m.created then Created(old(State())) else old(State())
    {
      if stream {
        stream := false;
        return true;
      }
      if m.Connected? || m.created {
        stats := stats.(sockCreated := stats.sockCreated + 1);
      }
      if m.Connected? {
        carried := carried + [0];
      }
      ok := m.Connected?;
    }

    method ExecuteOnce(m: Move)
      requires Valid()
      modifies this, hist, hist.buckets
      ensures Valid() && State() == Execute(old(State()), quota, m)
    {
      hide OnCode, Draw, Counts;
      var ok := CurrSock(m.connect);
      if !ok {
        if m.connect.Refused? {
          stats := stats.(sockErrors := stats.sockErrors + 1);
        } else {
          OnTimeout(m.us);
        }
        return;
      }
      match m.exchange {
        case SendFailed =>
          stats := stats.(sockErrors := stats.sockErrors + 1);
        case SendCancelled =>
          OnTimeout(m.us);
        case BodyFailed =>
          stats := stats.(requests := stats.requests + 1, sockErrors := stats.sockErrors + 1);
        case BodyCancelled =>
          stats := stats.(requests := stats.requests + 1);
          OnTimeout(m.us);
        case Answered(code) =>
          stats := stats.(requests := stats.requests + 1);
          OnResponse(code, m.us);
          requestsPerSockLeft := Max(0, requestsPerSockLeft - 1);
          if requestsPerSockLeft > 0 {
            stream := true;
          } else {
            requestsPerSockLeft := Draw(quota, m.draw);
          }
      }
    }

    method OnTimeout(us: nat)
      requires Valid()
      modifies this`stats, hist, hist.buckets
      ensures Valid() && State() == Timeout(old(State()), us)
    {
      stats := stats.(timeouts := stats.timeouts + 1);
      hist.Record(us);
    }

    method OnResponse(code: nat, us: nat)
      requires Valid() && carried != []
      modifies this`stats, this`carried, hist, hist.buckets
      ensures Valid() && hist.samples == old(hist.samples) + [us]
      ensures stats == OnCode(old(stats), code)
      ensures var n := |old(carried)| - 1; carried == old(carried)[n := old(carried)[n] + 1]
    {
      stats := stats.(responses := stats.responses + 1);
      hist.Record(us);
      if 200 <= code < 300 {
        stats := stats.(num2xx := stats.num2xx + 1);
      } else if 300 <= code < 400 {
        stats := stats.(num3xx := stats.num3xx + 1);
      } else if 400 <= code < 500 {
        stats := stats.(num4xx := stats.num4xx + 1);
      } else if 500 <= code < 600 {
        stats := stats.(num5xx := stats.num5xx + 1);
      }
      carried := carried[|carried| - 1 := carried[|carried| - 1] + 1];
    }
  }
}
