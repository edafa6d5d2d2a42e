/** Sharded counters (dwd-core/src/stat/percpu.rs): every worker increments its own cell
    while a reader, whenever it likes, adds the cells up one by one. Each read of a cell is
    atomic. */
module Counters {
  import opened Common

  /** Anything can happen next: some worker adds to its cell, or the reader reads one more
      cell. The read of the first cell starts a scan, the read of the last one ends it. */
  datatype Event = Bump(worker: nat, inc: nat) | ReaderStep

  /** `opening` remembers the cells at the first read of the running scan; `scans` lists the
      finished ones as (total at first read, sum read, total at last read). */
  datatype State = State(cells: seq<nat>, pos: nat, acc: nat, opening: seq<nat>, scans: seq<Scan>)

  datatype Scan = Scan(atStart: nat, read: nat, atEnd: nat)

  function Start(n: nat): State { State(seq(n, _ => 0), 0, 0, seq(n, _ => 0), []) }

  function Step(s: State, e: Event): State {
    match e
    case Bump(w, inc) => if w < |s.cells| then s.(cells := s.cells[w := s.cells[w] + inc]) else s
    case ReaderStep => Read(if s.pos == 0 then s.(opening := s.cells) else s)
  }

  /** One read; a counter without cells is read as zero at once. */
  function Read(s: State): State {
    var acc := s.acc + if s.pos < |s.cells| then s.cells[s.pos] else 0;
    if s.pos + 1 < |s.cells| then s.(pos := s.pos + 1, acc := acc)
    else s.(pos := 0, acc := 0, scans := s.scans + [Scan(Total(s.opening), acc, Total(s.cells))])
  }

  function Run(s: State, events: seq<Event>): State {
    if events == [] then s else Step(Run(s, events[..|events| - 1]), events[|events| - 1])
  }

  /** During a scan the running sum lies between what the cells read so far held when the
      scan started and what they hold now. */
  ghost predicate Bracketed(s: State) {
    && (s.pos == 0 ==> s.acc == 0)
    && (s.pos > 0 ==> s.pos < |s.cells| && Between(s))
  }

  ghost predicate Between(s: State) {
    && |s.opening| == |s.cells| && s.pos <= |s.cells|
    && (forall i :: 0 <= i < |s.cells| ==> s.opening[i] <= s.cells[i])
    && Total(s.opening[..s.pos]) <= s.acc <= Total(s.cells[..s.pos])
  }

  lemma BumpGrows(cells: seq<nat>, w: nat, inc: nat, pos: nat)
    requires w < |cells| && pos <= |cells|
    ensures Total(cells[..pos]) <= Total(cells[w := cells[w] + inc][..pos])
    ensures Total(cells) <= Total(cells[w := cells[w] + inc])
  {
    var bumped := cells[w := cells[w] + inc];
    TotalMonotone(cells[..pos], bumped[..pos]);
    TotalMonotone(cells, bumped);
  }

  /** A read extends the bracket by one cell on both sides. */
  lemma ReadBetween(s: State)
    requires Between(s) && s.pos < |s.cells|
    ensures Between(s.(pos := s.pos + 1, acc := s.acc + s.cells[s.pos]))
  {
    TotalNext(s.opening, s.pos);
    TotalNext(s.cells, s.pos);
    hide Total;
  }

  lemma BumpBetween(s: State, w: nat, inc: nat)
    requires Between(s) && w < |s.cells|
    ensures Between(s.(cells := s.cells[w := s.cells[w] + inc]))
  {
    BumpGrows(s.cells, w, inc, s.pos);
    hide Total;
  }

  lemma StepBracketed(s: State, e: Event)
    requires Bracketed(s)
    ensures Bracketed(Step(s, e))
  {
    hide Total, Between;
    if e.Bump? && e.worker < |s.cells| {
      if s.pos > 0 {
        BumpBetween(s, e.worker, e.inc);
      }
    } else if e.ReaderStep? && s.pos < |s.cells| {
      var scan := if s.pos == 0 then s.(opening := s.cells) else s;
      if s.pos == 0 {
        ScanOpens(s);
      }
      ReadBetween(scan);
    }
  }

  lemma ScanOpens(s: State)
    requires s.pos == 0 && s.acc == 0
    ensures Between(s.(opening := s.cells))
  {
  }

  /** Finished scans: each sum lies between the true totals at its first and its last read,
      and no scan starts below where an earlier one ended. */
  ghost predicate ScansSound(s: State) {
    && (forall k :: 0 <= k < |s.scans| ==> s.scans[k].atStart <= s.scans[k].read <= s.scans[k].atEnd)
    && (forall k, l :: 0 <= k < l < |s.scans| ==> s.scans[k].atEnd <= s.scans[l].atStart)
    && (forall k :: 0 <= k < |s.scans| ==> s.scans[k].atEnd <= Total(s.cells))
    && (s.pos > 0 ==> forall k :: 0 <= k < |s.scans| ==> s.scans[k].atEnd <= Total(s.opening))
  }

  lemma StepSound(s: State, e: Event)
    requires Bracketed(s) && ScansSound(s)
    ensures ScansSound(Step(s, e))
  {
    if e.Bump? && e.worker < |s.cells| {
      BumpGrows(s.cells, e.worker, e.inc, 0);
    } else if e.ReaderStep? {
      ReadSound(if s.pos == 0 then s.(opening := s.cells) else s);
    }
    hide Total;
  }

  lemma ReadSound(s: State)
    requires (s.cells == [] && s.acc == 0) || (Between(s) && s.pos < |s.cells|)
    requires ScansSound(s.(pos := 1)) && (s.cells == [] ==> s.opening == [])
    ensures ScansSound(Read(s))
  {
    if s.cells != [] {
      ReadBetween(s);
      assert s.pos + 1 == |s.cells| ==> s.opening[..s.pos + 1] == s.opening && s.cells[..s.pos + 1] == s.cells;
    }
    hide Total;
  }

  lemma StartBracketed(n: nat)
    ensures Bracketed(Start(n)) && ScansSound(Start(n))
  {
  }

  /** For every interleaving of workers and reader. */
  lemma {:induction false} ReadsBetweenTotals(n: nat, events: seq<Event>)
    ensures Bracketed(Run(Start(n), events)) && ScansSound(Run(Start(n), events))
  {
    if events == [] {
      StartBracketed(n);
    } else {
      hide Bracketed, ScansSound, Step;
      var m := |events| - 1;
      ReadsBetweenTotals(n, events[..m]);
      StepBracketed(Run(Start(n), events[..m]), events[m]);
      StepSound(Run(Start(n), events[..m]), events[m]);
    }
  }

  /** A reader never sees a counter go back. */
  lemma ScansNeverDecrease(n: nat, events: seq<Event>, i: nat, j: nat)
    requires i < j < |Run(Start(n), events).scans|
    ensures Run(Start(n), events).scans[i].read <= Run(Start(n), events).scans[j].read
  {
    ReadsBetweenTotals(n, events);
    hide Run;
  }

  /** All increments made to worker `w`'s counter. */
  ghost function Bumped(events: seq<Event>, w: nat): nat {
    if events == [] then 0
    else
      var e := events[|events| - 1];
      Bumped(events[..|events| - 1], w) + if e.Bump? && e.worker == w then e.inc else 0
  }

  /** No increment is lost or counted twice. */
  lemma {:induction false} CellsHoldBumps(n: nat, events: seq<Event>, w: nat)
    requires w < n
    ensures |Run(Start(n), events).cells| == n
    ensures Run(Start(n), events).cells[w] == Bumped(events, w)
  {
    if events != [] {
      CellsHoldBumps(n, events[..|events| - 1], w);
    }
  }
}
