/** The byte budget of one measurement phase (scripts/measure-dual.py, run_phase): workers reserve
    request sizes from a shared remainder and account what they receive, each under one lock. A run
    is any interleaving of their lock-protected steps. */
module PhaseBudget {
  import opened Common

  const CHUNK := 65536

  /** Between requests, inside one, or returned. `unaccounted` bytes have been read but not yet
      added to the shared statistics. */
  datatype Worker = Idle | Fetching(size: nat, received: nat, unaccounted: nat) | Done

  /** A request that is over: what was reserved for it and what it delivered. */
  datatype Request = Request(size: nat, received: nat)

  datatype Phase = Phase(
    remaining: int,
    workers: seq<Worker>,
    bytes: nat,
    started: nat,
    completed: nat,
    errors: nat,
    over: seq<Request>)  // every finished request; bookkeeping of the model only

  datatype Action =
    | Reserve(worker: nat)
    | Read(worker: nat, n: nat)
    | Account(worker: nat)
    | Complete(worker: nat)
    | Fail(worker: nat)       // an exception: the worker records it and returns
    | CutShort(worker: nat)   // stopped or past the deadline inside a request
    | Quit(worker: nat)       // stopped or past the deadline between requests

  function Initial(budget: nat, workers: nat): Phase { Phase(budget, seq(workers, _ => Idle), 0, 0, 0, 0, []) }

  predicate Enabled(p: Phase, a: Action) {
    && a.worker < |p.workers|
    && var w := p.workers[a.worker];
       match a
       case Reserve(_) => w.Idle?
       case Read(_, n) => w.Fetching? && w.unaccounted == 0 && 0 < n <= Min(CHUNK, w.size - w.received)
       case Account(_) => w.Fetching? && w.unaccounted > 0
       case Complete(_) => w.Fetching? && w.unaccounted == 0 && w.received == w.size
       case Fail(_) => w.Fetching? && w.unaccounted == 0
       case CutShort(_) => w.Fetching? && w.unaccounted == 0 && w.received != w.size
       case Quit(_) => w.Idle?
  }

  function Step(p: Phase, a: Action, requestBytes: nat): Phase
    requires Enabled(p, a)
  {
    var w := p.workers[a.worker];
    match a
    case Reserve(i) =>
      var size := Min(requestBytes, p.remaining);
      if size <= 0 then p.(workers := p.workers[i := Done], remaining := p.remaining - size)
      else p.(workers := p.workers[i := Fetching(size, 0, 0)], remaining := p.remaining - size, started := p.started + 1)
    case Read(i, n) => p.(workers := p.workers[i := Fetching(w.size, w.received + n, n)])
    case Account(i) => p.(workers := p.workers[i := w.(unaccounted := 0)], bytes := p.bytes + w.unaccounted)
    case Complete(i) =>
      p.(workers := p.workers[i := Idle], completed := p.completed + 1, over := p.over + [Request(w.size, w.received)])
    case Fail(i) =>
      p.(workers := p.workers[i := Done], errors := p.errors + 1, over := p.over + [Request(w.size, w.received)])
    case CutShort(i) => p.(workers := p.workers[i := Done], over := p.over + [Request(w.size, w.received)])
    case Quit(i) => p.(workers := p.workers[i := Done])
  }

  // ---------------------------------------------------------------- totals

  function Reserved(w: Worker): nat { if w.Fetching? then w.size else 0 }

  function Accounted(w: Worker): int { if w.Fetching? then w.received - w.unaccounted else 0 }

  function SumReserved(ws: seq<Worker>): nat {
    if |ws| == 0 then 0 else SumReserved(ws[..|ws| - 1]) + Reserved(ws[|ws| - 1])
  }

  function SumAccounted(ws: seq<Worker>): int {
    if |ws| == 0 then 0 else SumAccounted(ws[..|ws| - 1]) + Accounted(ws[|ws| - 1])
  }

  function CountFetching(ws: seq<Worker>): nat {
    if |ws| == 0 then 0 else CountFetching(ws[..|ws| - 1]) + (if ws[|ws| - 1].Fetching? then 1 else 0)
  }

  function SumSizes(rs: seq<Request>): nat {
    if |rs| == 0 then 0 else SumSizes(rs[..|rs| - 1]) + rs[|rs| - 1].size
  }

  function SumReceived(rs: seq<Request>): nat {
    if |rs| == 0 then 0 else SumReceived(rs[..|rs| - 1]) + rs[|rs| - 1].received
  }

  lemma {:induction false} UpdateWorker(ws: seq<Worker>, i: nat, w: Worker)
    requires i < |ws|
    ensures SumReserved(ws[i := w]) == SumReserved(ws) - Reserved(ws[i]) + Reserved(w)
    ensures SumAccounted(ws[i := w]) == SumAccounted(ws) - Accounted(ws[i]) + Accounted(w)
    ensures CountFetching(ws[i := w]) ==
            CountFetching(ws) - (if ws[i].Fetching? then 1 else 0) + (if w.Fetching? then 1 else 0)
  {
    var init := ws[..|ws| - 1];
    if i == |ws| - 1 {
      assert ws[i := w][..|ws| - 1] == init;
    } else {
      assert ws[i := w][..|ws| - 1] == init[i := w];
      UpdateWorker(init, i, w);
    }
  }

  /** Every reserved byte belongs to a request, every accounted byte was received for one, and no
      request delivers more than was reserved for it. */
  ghost predicate Inv(p: Phase, budget: nat) {
    && 0 <= p.remaining
    && budget - p.remaining == SumSizes(p.over) + SumReserved(p.workers)
    && p.bytes == SumReceived(p.over) + SumAccounted(p.workers)
    && p.started == |p.over| + CountFetching(p.workers)
    && (forall i :: 0 <= i < |p.over| ==> p.over[i].received <= p.over[i].size)
    && (forall i :: 0 <= i < |p.workers| && p.workers[i].Fetching? ==>
          p.workers[i].unaccounted <= p.workers[i].received <= p.workers[i].size)
  }

  /** Requests that delivered everything and were not counted as complete ended in an error. */
  ghost predicate CompletionInv(p: Phase) {
    p.completed <= |p.over| <= p.completed + p.errors + Shortfalls(p.over)
  }

  function Shortfalls(rs: seq<Request>): nat {
    if |rs| == 0 then 0
    else Shortfalls(rs[..|rs| - 1]) + (if rs[|rs| - 1].received < rs[|rs| - 1].size then 1 else 0)
  }

  lemma OverAppend(rs: seq<Request>, r: Request)
    ensures SumSizes(rs + [r]) == SumSizes(rs) + r.size && SumReceived(rs + [r]) == SumReceived(rs) + r.received
    ensures Shortfalls(rs + [r]) == Shortfalls(rs) + (if r.received < r.size then 1 else 0)
  {
  }

  lemma StepKeepsInv(p: Phase, a: Action, requestBytes: nat, budget: nat)
    requires Inv(p, budget) && CompletionInv(p) && Enabled(p, a)
    ensures Inv(Step(p, a, requestBytes), budget) && CompletionInv(Step(p, a, requestBytes))
  {
    hide SumReserved, SumAccounted, CountFetching, SumSizes, SumReceived, Shortfalls;
    var q := Step(p, a, requestBytes);
    var w := p.workers[a.worker];
    UpdateWorker(p.workers, a.worker, q.workers[a.worker]);
    assert q.workers == p.workers[a.worker := q.workers[a.worker]];
    if w.Fetching? {
      OverAppend(p.over, Request(w.size, w.received));
    }
  }

  ghost predicate Runs(p: Phase, run: seq<Action>, requestBytes: nat)
    decreases |run|
  {
    |run| == 0 || (Enabled(p, run[0]) && Runs(Step(p, run[0], requestBytes), run[1..], requestBytes))
  }

  ghost function After(p: Phase, run: seq<Action>, requestBytes: nat): Phase
    requires Runs(p, run, requestBytes)
    decreases |run|
  {
    if |run| == 0 then p else After(Step(p, run[0], requestBytes), run[1..], requestBytes)
  }

  lemma {:induction false} RunKeepsInv(p: Phase, run: seq<Action>, requestBytes: nat, budget: nat)
    requires Inv(p, budget) && CompletionInv(p) && Runs(p, run, requestBytes)
    ensures Inv(After(p, run, requestBytes), budget) && CompletionInv(After(p, run, requestBytes))
    decreases |run|
  {
    if |run| == 0 {
    } else {
      StepKeepsInv(p, run[0], requestBytes, budget);
      RunKeepsInv(Step(p, run[0], requestBytes), run[1..], requestBytes, budget);
    }
  }

  lemma {:induction false} InitialInv(budget: nat, n: nat)
    ensures Inv(Initial(budget, n), budget) && CompletionInv(Initial(budget, n))
  {
    IdleSums(seq(n, _ => Idle));
  }

  lemma {:induction false} IdleSums(ws: seq<Worker>)
    requires forall i :: 0 <= i < |ws| ==> !ws[i].Fetching?
    ensures SumReserved(ws) == 0 && SumAccounted(ws) == 0 && CountFetching(ws) == 0
  {
    if |ws| == 0 {
    } else {
      IdleSums(ws[..|ws| - 1]);
    }
  }

  // ---------------------------------------------------------------- what the report may say

  predicate AllDone(p: Phase) { forall i :: 0 <= i < |p.workers| ==> p.workers[i].Done? }

  /** The report's verdict. */
  predicate ReportsComplete(p: Phase, budget: nat, newOverflows: nat) {
    p.bytes == budget && p.errors == 0 && newOverflows == 0
  }

  lemma {:induction false} SumsWithinReservation(ws: seq<Worker>)
    requires forall i :: 0 <= i < |ws| && ws[i].Fetching? ==> ws[i].unaccounted <= ws[i].received <= ws[i].size
    ensures 0 <= SumAccounted(ws) <= SumReserved(ws)
  {
    if |ws| == 0 {
    } else {
      SumsWithinReservation(ws[..|ws| - 1]);
    }
  }

  lemma {:induction false} ReceivedWithinSizes(rs: seq<Request>)
    requires forall i :: 0 <= i < |rs| ==> rs[i].received <= rs[i].size
    ensures SumReceived(rs) <= SumSizes(rs)
    ensures SumReceived(rs) == SumSizes(rs) ==> Shortfalls(rs) == 0 && forall i :: 0 <= i < |rs| ==>
        rs[i].received == rs[i].size
  {
    if |rs| == 0 {
    } else {
      ReceivedWithinSizes(rs[..|rs| - 1]);
    }
  }

  /** In every interleaving the remainder never goes negative and no more is delivered than was
      reserved. */
  lemma DeliveredWithinReserved(budget: nat, workers: nat, run: seq<Action>, requestBytes: nat)
    requires Runs(Initial(budget, workers), run, requestBytes)
    ensures var p := After(Initial(budget, workers), run, requestBytes);
            0 <= p.remaining && p.bytes <= budget - p.remaining <= budget
  {
    InitialInv(budget, workers);
    RunKeepsInv(Initial(budget, workers), run, requestBytes, budget);
    var p := After(Initial(budget, workers), run, requestBytes);
    ReceivedWithinSizes(p.over);
    SumsWithinReservation(p.workers);
  }

  /** A phase reported complete reserved every byte of its budget, and every request it started was
      received in full and counted as completed. */
  lemma CompleteMeansEverythingArrived(budget: nat, workers: nat, run: seq<Action>, requestBytes: nat, newOverflows: nat)
    requires Runs(Initial(budget, workers), run, requestBytes)
    requires var p := After(Initial(budget, workers), run, requestBytes);
             AllDone(p) && ReportsComplete(p, budget, newOverflows)
    ensures var p := After(Initial(budget, workers), run, requestBytes);
            && p.remaining == 0 && p.started == p.completed == |p.over|
            && SumSizes(p.over) == budget
            && forall i :: 0 <= i < |p.over| ==> p.over[i].received == p.over[i].size
  {
    InitialInv(budget, workers);
    RunKeepsInv(Initial(budget, workers), run, requestBytes, budget);
    var p := After(Initial(budget, workers), run, requestBytes);
    ReceivedWithinSizes(p.over);
    IdleSums(p.workers);
  }

  // ---------------------------------------------------------------- what is always reserved and delivered

  /** The reservation before the last was not the last because something remained. */
  predicate Rationed(p: Phase, requestBytes: nat, budget: nat) {
    && p.remaining == Max(0, budget - requestBytes * p.started)
    && (p.started > 0 ==> budget > requestBytes * (p.started - 1))
  }

  lemma StepKeepsRation(p: Phase, a: Action, requestBytes: nat, budget: nat)
    requires Rationed(p, requestBytes, budget) && Enabled(p, a)
    ensures Rationed(Step(p, a, requestBytes), requestBytes, budget)
  {
    var q := Step(p, a, requestBytes);
    if q.started == p.started + 1 {
      assert requestBytes * q.started == requestBytes * p.started + requestBytes;
    }
  }

  /** Every request reserves the full size while there is that much, and the last one the rest. */
  lemma {:induction false} ReservationsAreFull(p: Phase, run: seq<Action>, requestBytes: nat, budget: nat)
    requires Runs(p, run, requestBytes) && Rationed(p, requestBytes, budget)
    ensures Rationed(After(p, run, requestBytes), requestBytes, budget)
    decreases |run|
  {
    if |run| == 0 {
    } else {
      StepKeepsRation(p, run[0], requestBytes, budget);
      ReservationsAreFull(Step(p, run[0], requestBytes), run[1..], requestBytes, budget);
    }
  }

  /** In every interleaving, what remains is the budget less the full requests started, and no less
      than nothing. */
  lemma RemainderFollowsTheRequests(budget: nat, workers: nat, run: seq<Action>, requestBytes: nat)
    requires Runs(Initial(budget, workers), run, requestBytes)
    ensures var p := After(Initial(budget, workers), run, requestBytes);
            && p.remaining == Max(0, budget - requestBytes * p.started)
            && (p.started > 0 ==> budget > requestBytes * (p.started - 1))
  {
    ReservationsAreFull(Initial(budget, workers), run, requestBytes, budget);
  }

  /** Nothing fails, nobody is stopped, and nobody runs past the deadline. */
  predicate FaultFree(run: seq<Action>) {
    forall i :: 0 <= i < |run| ==> !run[i].Fail? && !run[i].CutShort? && !run[i].Quit?
  }

  ghost predicate Flawless(p: Phase) {
    && p.errors == 0
    && (forall i :: 0 <= i < |p.over| ==> p.over[i].received == p.over[i].size)
    && (forall i :: 0 <= i < |p.workers| && p.workers[i].Done? ==> p.remaining <= 0)
  }

  lemma {:induction false} FaultFreeIsFlawless(p: Phase, run: seq<Action>, requestBytes: nat)
    requires Runs(p, run, requestBytes) && FaultFree(run) && Flawless(p) && requestBytes > 0
    ensures Flawless(After(p, run, requestBytes)) && |After(p, run, requestBytes).workers| == |p.workers|
    decreases |run|
  {
    if |run| == 0 {
    } else {
      FaultFreeIsFlawless(Step(p, run[0], requestBytes), run[1..], requestBytes);
    }
  }

  lemma {:induction false} FullRequestsAddUp(rs: seq<Request>)
    requires forall i :: 0 <= i < |rs| ==> rs[i].received == rs[i].size
    ensures SumReceived(rs) == SumSizes(rs)
  {
    if |rs| == 0 {
    } else {
      FullRequestsAddUp(rs[..|rs| - 1]);
    }
  }

  /** The converse of the report's verdict: when nothing fails and nobody is stopped, the workers return
      only with the whole budget delivered, in the fewest requests, and the phase is complete. */
  lemma FaultFreePhasesAreComplete(budget: nat, workers: nat, run: seq<Action>, requestBytes: nat)
    requires Runs(Initial(budget, workers), run, requestBytes) && FaultFree(run) && requestBytes > 0 && workers > 0
    requires AllDone(After(Initial(budget, workers), run, requestBytes))
    ensures var p := After(Initial(budget, workers), run, requestBytes);
            && ReportsComplete(p, budget, 0) && p.remaining == 0
            && requestBytes * p.started >= budget > requestBytes * (p.started - 1)
  {
    var start := Initial(budget, workers);
    var p := After(start, run, requestBytes);
    InitialInv(budget, workers);
    RunKeepsInv(start, run, requestBytes, budget);
    FaultFreeIsFlawless(start, run, requestBytes);
    ReservationsAreFull(start, run, requestBytes, budget);
    assert p.workers[0].Done?;
    IdleSums(p.workers);
    FullRequestsAddUp(p.over);
  }
}
