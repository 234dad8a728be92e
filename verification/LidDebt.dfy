/** Destroying the server when the lid closes, and the debt a failed destroy leaves behind
    (core/destroy.go, the recordLid family of core/supervisor.go, utils/liddebt.go). */
module LidDebt {
  import opened Common

  const RETRY_FLOOR := 60  // seconds

  datatype Phase = Off | Armed | DryRun | Deferred | Pending | Cancelled | Fired

  /** The record that outlives the daemon. */
  datatype Debt = Debt(since: Option<int>, attempts: nat, state: Phase)

  /** What a destroy returns: the server is gone, there was none, or the call failed. */
  datatype Outcome = Gone | NothingThere | Failed

  /** `canDestroy`: the feature is on and there is a destroy hook. */
  datatype Config = Config(canDestroy: bool, dryRun: bool, grace: int)

  /** The phase, since when, the failed destroys of a debt, the last attempt, and the debt file. */
  datatype Daemon = Daemon(
    phase: Phase, since: Option<int>, attempts: nat, lastAttempt: Option<int>, debt: Option<Debt>)
  {
    predicate Owes() { phase.Deferred? || phase.Pending? }

    function InForce(): Owed { Owing(phase, since) }
  }

  /** What a call acts on: the phase and the time it read before it tried for the lock. */
  datatype Owed = Owing(phase: Phase, since: Option<int>)

  /** What a call reads while it holds the lock: the lid, the uplink, and the clock at the grace
      decision, at the retry floor, at the attempt and at its start. */
  datatype Readings = Readings(lid: int, uplink: bool, decided: int, checked: int, at: int, started: int)

  // ---------------------------------------------------------------- decisions

  /** The zero time, None, is long ago. */
  predicate Elapsed(since: Option<int>, now: int, span: int) { since.Some? ==> now - since.value >= span }

  datatype GraceAction = Wait | Keep | DestroyNow

  /** 0 reads open; 1 is shut, and an unreadable lid counts as shut. */
  function LidGraceDecision(closed: int, since: Option<int>, now: int, grace: int): GraceAction {
    if closed == 0 then Keep else if !Elapsed(since, now, grace) then Wait else DestroyNow
  }

  /** What a call does under the lock: nothing, drop a hold, give up a debt, or issue a destroy. */
  datatype Verdict = Nothing | Reopen | GiveUp | Destroy(started: int)

  function Decide(c: Config, owed: Owed, lastAttempt: Option<int>, r: Readings): Verdict {
    var attempt := if Elapsed(lastAttempt, r.checked, RETRY_FLOOR) && r.uplink then Destroy(r.started) else Nothing;
    if owed.phase == Deferred then
      match LidGraceDecision(r.lid, owed.since, r.decided, c.grace)
      case Wait => Nothing
      case Keep => Reopen
      case DestroyNow => attempt
    else if r.lid == 0 then GiveUp
    else attempt
  }

  function Begun(d: Daemon, v: Verdict, at: int): Daemon {
    if v.Destroy? then d.(lastAttempt := Some(at)) else d
  }

  /** Best effort: a record that cannot be written leaves the old one. */
  function Persisted(d: Daemon, written: bool): Daemon {
    if written then d.(debt := Some(Debt(d.since, d.attempts, d.phase))) else d
  }

  function Settled(d: Daemon, written: bool): Daemon {
    d.(phase := Fired, since := None, attempts := 0, debt := if written then None else d.debt)
  }

  /** The first failure starts the debt; later ones only count. */
  function Incurred(d: Daemon, started: int, written: bool): Daemon {
    var first := d.phase != Pending;
    Persisted(d.(phase := Pending, since := if first then Some(started) else d.since,
                 attempts := if first then 1 else d.attempts + 1), written)
  }

  function Ended(d: Daemon, v: Verdict, outcome: Outcome, written: bool): Daemon {
    match v
    case Nothing => d
    case Reopen => d.(phase := Armed, since := None, attempts := 0)
    case GiveUp => Persisted(d.(phase := Cancelled), written)
    case Destroy(started) => if outcome == Failed then Incurred(d, started, written) else Settled(d, written)
  }

  function Noted(d: Daemon, now: int): Daemon { d.(phase := Deferred, since := Some(now), attempts := 0) }

  function Booted(c: Config, debt: Option<Debt>): Daemon {
    Daemon(if !c.canDestroy then Off else if c.dryRun then DryRun else Armed, None, 0, None, debt)
  }

  // ---------------------------------------------------------------- as the source does it

  /** The daemon, one call at a time. What the sensors, the clock and the destroy hook answer, and
      whether the debt file could be written, are arguments. */
  class Supervisor {
    const canDestroy: bool
    const dryRun: bool
    const grace: int
    var phase: Phase
    var pendingSince: Option<int>
    var attempts: nat
    var lastLidAttempt: Option<int>
    var debt: Option<Debt>

    function View(): Daemon
      reads this
    {
      Daemon(phase, pendingSince, attempts, lastLidAttempt, debt)
    }

    constructor (c: Config, debt: Option<Debt>)
      ensures canDestroy == c.canDestroy && dryRun == c.dryRun && grace == c.grace && View() == Booted(c, debt)
    {
      canDestroy, dryRun, grace := c.canDestroy, c.dryRun, c.grace;
      phase := if !c.canDestroy then Off else if c.dryRun then DryRun else Armed;
      pendingSince, attempts, lastLidAttempt, this.debt := None, 0, None, debt;
    }

    method PersistLidDebt(written: bool)
      modifies `debt
      ensures View() == Persisted(old(View()), written)
    {
      if written {
        debt := Some(Debt(pendingSince, attempts, phase));
      }
    }

    /** No server is running for this daemon to owe a destroy on. */
    method MarkLidSettled(written: bool)
      modifies this
      ensures View() == Settled(old(View()), written)
    {
      phase, pendingSince, attempts := Fired, None, 0;
      if written {
        debt := None;
      }
    }

    method RecordLidDestroyPending(when: int, written: bool)
      modifies this
      ensures View() == Incurred(old(View()), when, written)
      ensures old(phase) == Pending ==> pendingSince == old(pendingSince) && attempts == old(attempts) + 1
      ensures old(phase) != Pending ==> pendingSince == Some(when) && attempts == 1
    {
      if phase != Pending {
        pendingSince, attempts := Some(when), 0;
      }
      phase := Pending;
      attempts := attempts + 1;
      PersistLidDebt(written);
    }

    method AttemptLidDestroy(r: Readings, outcome: Outcome, written: bool) returns (gone: bool)
      modifies this
      ensures var v := Destroy(r.started);
              View() == Ended(Begun(old(View()), v, r.at), v, outcome, written)
      ensures gone == (outcome != Failed) && lastLidAttempt == Some(r.at)
      // Gone: nothing is owed, and the record of it goes if it can. Not gone: the debt is recorded if it can.
      ensures gone ==> phase == Fired && pendingSince.None? && attempts == 0
      ensures !gone ==> phase == Pending && attempts >= 1
      ensures written ==> debt == if gone then None else Some(Debt(pendingSince, attempts, Pending))
      ensures !written ==> debt == old(debt)
      ensures debt.None? && old(debt).Some? ==> gone
      // A retry of a pending debt keeps its start and adds one attempt.
      ensures !gone && old(phase) == Pending ==> pendingSince == old(pendingSince) && attempts == old(attempts) + 1
    {
      lastLidAttempt := Some(r.at);
      if outcome == Failed {
        RecordLidDestroyPending(r.started, written);
        return false;
      }
      MarkLidSettled(written);
      return true;
    }

    method OnLidClose(r: Readings, outcome: Outcome, written: bool)
      modifies this
      ensures dryRun ==> View() == old(View())
      // With a grace period the close is a note: a hold that stands is kept, anything else,
      // a pending debt included, is replaced by a fresh one.
      ensures !dryRun && grace > 0 ==>
                View() == if old(phase) == Deferred then old(View()) else Noted(old(View()), r.decided)
      // Without one it destroys at once, whatever the retry floor and the uplink say.
      ensures !dryRun && grace <= 0 ==>
                var v := Destroy(r.started); View() == Ended(Begun(old(View()), v, r.at), v, outcome, written)
      ensures debt.None? && old(debt).Some? ==> phase == Fired && outcome != Failed
    {
      if dryRun {
        return;
      }
      if grace > 0 {
        if phase != Deferred {
          phase, pendingSince, attempts := Deferred, Some(r.decided), 0;
        }
        return;
      }
      var gone := AttemptLidDestroy(r, outcome, written);
    }

    /** At least a minute since the last attempt, and a physical link to send on. */
    method RetryAllowed(r: Readings) returns (ready: bool)
      ensures ready == (Elapsed(lastLidAttempt, r.checked, RETRY_FLOOR) && r.uplink)
    {
      if lastLidAttempt.Some? && r.checked - lastLidAttempt.value < RETRY_FLOOR {
        return false;
      }
      return r.uplink;
    }

    /** Settles a held destroy or a debt from whatever is ticking. */
    method ReconcileLidDebt(r: Readings, outcome: Outcome, written: bool)
      modifies this
      ensures !canDestroy || dryRun || !old(View()).Owes() ==> View() == old(View())
      ensures canDestroy && !dryRun && old(View()).Owes() ==>
                var v := Decide(Config(canDestroy, dryRun, grace), old(View()).InForce(), old(lastLidAttempt), r);
                View() == Ended(Begun(old(View()), v, r.at), v, outcome, written)
      // With the lid open nothing is destroyed: a hold is dropped, a debt given up with its figures kept.
      ensures canDestroy && !dryRun && r.lid == 0 && old(phase) == Deferred ==> phase == Armed && debt == old(debt)
      ensures canDestroy && !dryRun && r.lid == 0 && old(phase) == Pending ==>
                phase == Cancelled && pendingSince == old(pendingSince) && attempts == old(attempts)
      ensures r.lid == 0 ==> lastLidAttempt == old(lastLidAttempt)
      // With the lid not open, what is owed is destroyed as soon as it may be, and left alone until then.
      ensures canDestroy && !dryRun && old(phase) in {Deferred, Pending} && r.lid != 0 ==>
                var due := r.uplink && (old(lastLidAttempt).Some? ==> r.checked - old(lastLidAttempt).value >= 60)
                    && (old(phase) == Deferred && old(pendingSince).Some? ==>
                          r.decided - old(pendingSince).value >= grace);
                if !due then View() == old(View())
                else lastLidAttempt == Some(r.at) && phase == if outcome == Failed then Pending else Fired
      ensures debt.None? && old(debt).Some? ==> phase == Fired && outcome != Failed
    {
      if !canDestroy || dryRun {
        return;
      }
      if phase == Deferred {
        match LidGraceDecision(r.lid, pendingSince, r.decided, grace) {
          case Wait =>
          case Keep =>
            phase, pendingSince, attempts := Armed, None, 0;
          case DestroyNow =>
            var ready := RetryAllowed(r);
            if ready {
              var gone := AttemptLidDestroy(r, outcome, written);
            }
        }
        return;
      }
      if phase != Pending {
        return;
      }
      if r.lid == 0 {
        phase := Cancelled;
        PersistLidDebt(written);
        return;
      }
      var ready := RetryAllowed(r);
      if ready {
        var gone := AttemptLidDestroy(r, outcome, written);
      }
    }
  }

  // ---------------------------------------------------------------- interleaved calls

  /** The daemon with the calls under way: what each reconcile call has read, what the holder of the
      lock is at, and whether a lid close has found no hold and is about to note one. */
  datatype State = State(daemon: Daemon, underway: map<nat, Owed>, holder: Verdict, closing: bool)

  datatype Action =
    // reconcileLidDebt: read what is owed, then decide under the lock; then the end of what it is at
    | Read(caller: nat)
    | Lock(caller: nat, readings: Readings)
    | Finish(outcome: Outcome, written: bool)
    // onLidClose, with a grace period: look for a hold, then note one
    | CloseLooks
    | CloseNotes(now: int)
    // onLidClose, without one: take the lock and destroy
    | CloseDestroys(readings: Readings)
    // the daemon stops anywhere, and another starts
    | Restart

  /** The clock does not run backwards while one holds the lock, nor between two attempts. */
  predicate Ordered(last: Option<int>, r: Readings) {
    r.decided <= r.checked <= r.at <= r.started && Elapsed(last, r.at, 0)
  }

  predicate Enabled(c: Config, s: State, a: Action) {
    match a
    case Read(_) => c.canDestroy && !c.dryRun
    case Lock(caller, r) => s.holder.Nothing? && caller in s.underway && Ordered(s.daemon.lastAttempt, r)
    case Finish(_, _) => !s.holder.Nothing?
    case CloseLooks => c.canDestroy && !c.dryRun && c.grace > 0 && !s.closing
    case CloseNotes(_) => s.closing
    case CloseDestroys(r) =>
      c.canDestroy && !c.dryRun && c.grace <= 0 && s.holder.Nothing? && Ordered(s.daemon.lastAttempt, r)
    case Restart => true
  }

  function Step(c: Config, s: State, a: Action): State
    requires Enabled(c, s, a)
  {
    match a
    case Read(caller) =>
      s.(underway := if s.daemon.Owes() then s.underway[caller := s.daemon.InForce()] else s.underway - {caller})
    case Lock(caller, r) =>
      var v := Decide(c, s.underway[caller], s.daemon.lastAttempt, r);
      s.(daemon := Begun(s.daemon, v, r.at), underway := s.underway - {caller}, holder := v)
    case Finish(outcome, written) => s.(daemon := Ended(s.daemon, s.holder, outcome, written), holder := Nothing)
    case CloseLooks => s.(closing := s.daemon.phase != Deferred)
    case CloseNotes(now) => s.(daemon := Noted(s.daemon, now), closing := false)
    case CloseDestroys(r) =>
      var v := Destroy(r.started);
      s.(daemon := Begun(s.daemon, v, r.at), holder := v)
    case Restart => Start(c, s.daemon.debt)
  }

  function Start(c: Config, debt: Option<Debt>): State { State(Booted(c, debt), map[], Nothing, false) }

  predicate Happens(c: Config, s: seq<State>, run: seq<Action>, k: nat)
    requires k < |run| < |s|
  {
    Enabled(c, s[k], run[k]) && s[k + 1] == Step(c, s[k], run[k])
  }

  /** The states a run goes through, from the start of a daemon that finds any debt file. */
  ghost predicate Trace(c: Config, s: seq<State>, run: seq<Action>) {
    |s| == |run| + 1 && s[0] == Start(c, s[0].daemon.debt) && forall k :: 0 <= k < |run| ==> Happens(c, s, run, k)
  }

  // ---------------------------------------------------------------- every destroy was owed

  /** Does step k issue a destroy? */
  predicate Issues(s: seq<State>, run: seq<Action>, k: nat)
    requires k < |run| < |s|
  {
    (run[k].Lock? || run[k].CloseDestroys?) && s[k + 1].holder.Destroy?
  }

  predicate Concerns(a: Action, caller: nat) {
    a.Restart? || ((a.Read? || a.Lock?) && a.caller == caller)
  }

  /** Step i is where the call that is under way at j read what it acts on. */
  ghost predicate ReadAt(s: seq<State>, run: seq<Action>, i: nat, j: nat, caller: nat)
    requires j <= |run| < |s|
  {
    && i < j && run[i] == Read(caller) && s[i].daemon.Owes()
    && (forall k :: i < k < j ==> !Concerns(run[k], caller))
    && caller in s[j].underway && s[j].underway[caller] == s[i].daemon.InForce()
  }

  lemma {:induction false} UnderwayWasRead(c: Config, s: seq<State>, run: seq<Action>, j: nat, caller: nat)
    requires Trace(c, s, run) && j <= |run| && caller in s[j].underway
    ensures c.canDestroy && !c.dryRun && exists i: nat :: ReadAt(s, run, i, j, caller)
  {
    if j == 0 {
    } else {
      assert Happens(c, s, run, j - 1);
      if run[j - 1] == Read(caller) {
        assert ReadAt(s, run, j - 1, j, caller);
      } else {
        UnderwayWasRead(c, s, run, j - 1, caller);
        var i :| ReadAt(s, run, i, j - 1, caller);
        assert ReadAt(s, run, i, j, caller);
      }
    }
  }

  /** In every run, a destroy that no lid close issued was issued by a call that had read, in the
      state the daemon was in, a hold or a debt; with the lid not open, a link present, and any grace
      elapsed since the time it read. */
  lemma EveryRetryWasOwed(c: Config, s: seq<State>, run: seq<Action>, j: nat)
    requires Trace(c, s, run) && j < |run| && run[j].Lock? && Issues(s, run, j)
    ensures c.canDestroy && !c.dryRun && run[j].readings.lid != 0 && run[j].readings.uplink
    ensures exists i: nat :: ReadAt(s, run, i, j, run[j].caller)
                && (s[i].daemon.phase == Deferred ==> Elapsed(s[i].daemon.since, run[j].readings.at, c.grace))
  {
    assert Happens(c, s, run, j);
    UnderwayWasRead(c, s, run, j, run[j].caller);
  }

  /** In every run, whenever a call that read a hold or debt has its turn, it issues a destroy exactly
      when the lid is not open, there is a link, a minute has passed since the last attempt, and the
      grace of a hold is over. */
  lemma RetryIsIssuedExactlyWhen(c: Config, s: seq<State>, run: seq<Action>, j: nat)
    requires Trace(c, s, run) && j < |run| && run[j].Lock? && run[j].caller in s[j].underway
    ensures var owed, r, last := s[j].underway[run[j].caller], run[j].readings, s[j].daemon.lastAttempt;
            Issues(s, run, j) <==>
            && r.lid != 0 && r.uplink && (last.Some? ==> r.checked - last.value >= 60)
            && (owed.phase == Deferred && owed.since.Some? ==> r.decided - owed.since.value >= c.grace)
  {
    assert Happens(c, s, run, j);
  }

  /** A call whose turn comes after any read of what was owed does have that turn: until then nothing
      but a restart or its own next read takes from it what it read. */
  lemma {:induction false} ReadIsRemembered(c: Config, s: seq<State>, run: seq<Action>, i: nat, j: nat, caller: nat)
    requires Trace(c, s, run) && i < j <= |run| && run[i] == Read(caller) && s[i].daemon.Owes()
    requires forall k :: i < k < j ==> !Concerns(run[k], caller)
    ensures ReadAt(s, run, i, j, caller)
  {
    assert Happens(c, s, run, j - 1);
    if i == j - 1 {
    } else {
      ReadIsRemembered(c, s, run, i, j - 1, caller);
    }
  }

  // ---------------------------------------------------------------- retries are spaced

  lemma {:induction false} AttemptIsRemembered(c: Config, s: seq<State>, run: seq<Action>, i: nat, j: nat)
    requires Trace(c, s, run) && i < j <= |run| && Issues(s, run, i)
    requires forall k :: i < k < j ==> !run[k].Restart?
    ensures var last := s[j].daemon.lastAttempt;
            last.Some? && last.value >= run[i].readings.at
  {
    assert Happens(c, s, run, j - 1);
    if i == j - 1 {
    } else {
      AttemptIsRemembered(c, s, run, i, j - 1);
    }
  }

  /** A retry never follows an attempt of the same daemon, whoever made that one, within a minute. */
  lemma RetriesAreSpaced(c: Config, s: seq<State>, run: seq<Action>, i: nat, j: nat)
    requires Trace(c, s, run) && i < j < |run| && Issues(s, run, i) && run[j].Lock? && Issues(s, run, j)
    requires forall k :: i < k < j ==> !run[k].Restart?
    ensures run[j].readings.at - run[i].readings.at >= RETRY_FLOOR
  {
    AttemptIsRemembered(c, s, run, i, j);
    assert Happens(c, s, run, j);
  }

  // ---------------------------------------------------------------- the debt file

  /** Step k is where the destroy that is running at j was issued. */
  ghost predicate IssuedAt(s: seq<State>, run: seq<Action>, k: nat, j: nat)
    requires j <= |run| < |s|
  {
    k < j && Issues(s, run, k) && forall m :: k < m < j ==> !run[m].Finish? && !run[m].Restart?
  }

  lemma {:induction false} RunningWasIssued(c: Config, s: seq<State>, run: seq<Action>, j: nat)
    requires Trace(c, s, run) && j <= |run| && s[j].holder.Destroy?
    ensures exists k: nat :: IssuedAt(s, run, k, j)
  {
    if j == 0 {
    } else {
      assert Happens(c, s, run, j - 1);
      if Issues(s, run, j - 1) {
        assert IssuedAt(s, run, j - 1, j);
      } else {
        RunningWasIssued(c, s, run, j - 1);
        var k :| IssuedAt(s, run, k, j - 1);
        assert IssuedAt(s, run, k, j);
      }
    }
  }

  /** In every run, across restarts, the debt file disappears only when a destroy that was issued
      returns and leaves no server; and it is written only when one fails or a debt is given up, with
      the figures then in force. */
  lemma DebtFileFollowsTheDestroys(c: Config, s: seq<State>, run: seq<Action>, j: nat)
    requires Trace(c, s, run) && j < |run| && s[j + 1].daemon.debt != s[j].daemon.debt
    ensures run[j].Finish?
    ensures var d := s[j + 1].daemon;
            if d.debt.None? then run[j].outcome != Failed && exists k: nat :: IssuedAt(s, run, k, j)
            else
              && d.debt == Some(Debt(d.since, d.attempts, d.phase))
              && if s[j].holder.GiveUp? then d.phase == Cancelled
                 else d.phase == Pending && run[j].outcome == Failed && exists k: nat :: IssuedAt(s, run, k, j)
  {
    assert Happens(c, s, run, j);
    if s[j].holder.Destroy? {
      RunningWasIssued(c, s, run, j);
    }
  }

  /** The converse: whenever the daemon finishes with a destroy or gives a debt up and can write, the
      file says how it ended. */
  lemma WrittenDebtIsInForce(c: Config, s: seq<State>, run: seq<Action>, j: nat)
    requires Trace(c, s, run) && j < |run| && run[j].Finish? && run[j].written && !s[j].holder.Reopen?
    ensures var d := s[j + 1].daemon;
            if s[j].holder.Destroy? && run[j].outcome != Failed then d.debt.None? && d.phase == Fired
            else d.debt == Some(Debt(d.since, d.attempts, if s[j].holder.Destroy? then Pending else Cancelled))
  {
    assert Happens(c, s, run, j);
  }

  // ---------------------------------------------------------------- what a hold and a debt date from

  /** In every run, a hold dates from the lid close that noted it, and has stood ever since. */
  lemma {:induction false} HoldDatesFromItsClose(c: Config, s: seq<State>, run: seq<Action>, n: nat)
    requires Trace(c, s, run) && n <= |run| && s[n].daemon.phase == Deferred
    ensures exists b: nat ::
              && b < n && run[b].CloseNotes?
              && forall k :: b < k <= n ==> s[k].daemon.phase == Deferred && s[k].daemon.since == Some(run[b].now)
  {
    if n > 0 {
      assert Happens(c, s, run, n - 1);
      if !run[n - 1].CloseNotes? {
        HoldDatesFromItsClose(c, s, run, n - 1);
      }
    }
  }

  predicate FailsAt(s: seq<State>, run: seq<Action>, k: nat)
    requires k < |run| < |s|
  {
    run[k].Finish? && s[k].holder.Destroy? && run[k].outcome == Failed
  }

  function Failures(s: seq<State>, run: seq<Action>, from: nat, to: nat): nat
    requires from <= to <= |run| < |s|
  {
    if from == to then 0 else Failures(s, run, from, to - 1) + (if FailsAt(s, run, to - 1) then 1 else 0)
  }

  /** The debt of state n began at step b and has been pending ever since. */
  ghost predicate BeganAt(s: seq<State>, run: seq<Action>, b: nat, n: nat)
    requires n <= |run| < |s|
  {
    && b < n && FailsAt(s, run, b) && s[b].daemon.phase != Pending
    && forall k :: b < k <= n ==> s[k].daemon.phase == Pending && s[k].daemon.since == Some(s[b].holder.started)
  }

  /** In every run, a pending debt dates from the first of the failures that keep it, and counts every
      failed destroy since. */
  lemma {:induction false} PendingDebtCountsItsFailures(c: Config, s: seq<State>, run: seq<Action>, n: nat)
    requires Trace(c, s, run) && n <= |run| && s[n].daemon.phase == Pending
    ensures exists b: nat :: BeganAt(s, run, b, n) && s[n].daemon.attempts == Failures(s, run, b, n)
  {
    if n == 0 {
    } else {
      var d := s[n - 1].daemon;
      assert Happens(c, s, run, n - 1);
      if d.phase != Pending {
        assert BeganAt(s, run, n - 1, n);
        assert Failures(s, run, n - 1, n - 1) == 0;
      } else {
        PendingDebtCountsItsFailures(c, s, run, n - 1);
        var b :| BeganAt(s, run, b, n - 1) && d.attempts == Failures(s, run, b, n - 1);
        assert BeganAt(s, run, b, n);
      }
    }
  }

  // ---------------------------------------------------------------- what may change before the lock

  /** Two calls read one hold. The first finds the lid open and keeps the server; the lid is shut again
      and the second, which took the lock after it, destroys the server although nothing is owed. */
  const TWO_CALLS: seq<Action> := [CloseLooks, CloseNotes(0), Read(1), Read(2),
    Lock(1, Readings(0, true, 200, 200, 200, 200)), Finish(Gone, true), Lock(2, Readings(1, true, 300, 300, 300, 300))]

  const WITH_GRACE := Config(true, false, 300)

  /** The states of that run. */
  const TWO_CALLS_STATES: seq<State> :=
    var armed := Start(WITH_GRACE, None);
    var held := Noted(armed.daemon, 0);
    var owed := held.InForce();
    [ armed,
      armed.(closing := true),
      armed.(daemon := held),
      armed.(daemon := held, underway := map[1 := owed]),
      armed.(daemon := held, underway := map[1 := owed, 2 := owed]),
      armed.(daemon := held, underway := map[2 := owed], holder := Reopen),
      armed.(underway := map[2 := owed]),
      armed.(daemon := armed.daemon.(lastAttempt := Some(300)), holder := Destroy(300)) ]

  lemma TheTwoRead()
    ensures forall k :: 0 <= k < 4 ==> Happens(WITH_GRACE, TWO_CALLS_STATES, TWO_CALLS, k)
  {
  }

  lemma TheTwoSettle()
    ensures forall k :: 4 <= k < 7 ==> Happens(WITH_GRACE, TWO_CALLS_STATES, TWO_CALLS, k)
  {
    var owed := Owing(Deferred, Some(0));
    assert map[1 := owed, 2 := owed] - {1} == map[2 := owed] && map[2 := owed] - {2} == map[];
  }

  lemma RetryWithNothingOwed()
    ensures var s := TWO_CALLS_STATES;
            && Trace(WITH_GRACE, s, TWO_CALLS) && Issues(s, TWO_CALLS, 6)
            && ReadAt(s, TWO_CALLS, 3, 6, 2) && s[3].daemon.phase == Deferred
            && s[6].daemon.phase == Armed
  {
    hide Happens;
    TheTwoRead();
    TheTwoSettle();
  }

  /** Does a step end the hold or debt in force, or put another in its place? Only a failed retry of a
      debt, of all that finishes, leaves it. */
  predicate Disturbs(s: State, a: Action) {
    || a.CloseNotes? || a.Restart?
    || (a.Finish? && !(s.holder.Destroy? && a.outcome == Failed && s.daemon.phase == Pending))
  }

  /** A hold is not noted over a hold. */
  lemma {:induction false} ClosingFindsNoHold(c: Config, s: seq<State>, run: seq<Action>, j: nat)
    requires Trace(c, s, run) && j <= |run| && s[j].closing
    ensures s[j].daemon.phase != Deferred
  {
    if j == 0 {
    } else {
      assert Happens(c, s, run, j - 1);
      if s[j - 1].closing {
        ClosingFindsNoHold(c, s, run, j - 1);
      }
    }
  }

  /** What is in force changes exactly at a disturbing step. */
  lemma DisturbanceIsChange(c: Config, s: seq<State>, run: seq<Action>, k: nat)
    requires Trace(c, s, run) && k < |run| && s[k].daemon.Owes()
    ensures Disturbs(s[k], run[k]) <==> s[k + 1].daemon.InForce() != s[k].daemon.InForce()
  {
    assert Happens(c, s, run, k);
    if s[k].closing {
      ClosingFindsNoHold(c, s, run, k);
    }
  }

  /** What was in force at i stays so, all the way to j, exactly when no step between them disturbs it. */
  lemma {:induction false} InForceUntilDisturbed(c: Config, s: seq<State>, run: seq<Action>, i: nat, j: nat)
    requires Trace(c, s, run) && i <= j <= |run| && s[i].daemon.Owes()
    ensures (forall k :: i <= k <= j ==> s[k].daemon.InForce() == s[i].daemon.InForce())
       <==> (forall k :: i <= k < j ==> !Disturbs(s[k], run[k]))
  {
    if i == j {
    } else {
      InForceUntilDisturbed(c, s, run, i, j - 1);
      if s[j - 1].daemon.InForce() == s[i].daemon.InForce() {
        DisturbanceIsChange(c, s, run, j - 1);
      }
    }
  }

  /** Does a step put this very phase and time in force? */
  predicate Restores(s: State, a: Action, owed: Owed) {
    || (a.CloseNotes? && owed == Owing(Deferred, Some(a.now)))
    || (a.Finish? && s.holder.Destroy? && a.outcome == Failed && s.daemon.phase != Pending
        && owed == Owing(Pending, Some(s.holder.started)))
  }

  /** Nothing has disturbed what was read at i since m, which is i itself or just past a step that put
      the same phase and time back. */
  ghost predicate UndisturbedSince(s: seq<State>, run: seq<Action>, m: nat, i: nat, j: nat)
    requires i <= j <= |run| < |s|
  {
    && i <= m <= j && (m == i || Restores(s[m - 1], run[m - 1], s[i].daemon.InForce()))
    && forall k :: m <= k < j ==> !Disturbs(s[k], run[k])
  }

  /** The hold or debt in force at j is the one that was read at i exactly when nothing disturbed it in
      between, or the same phase and time were put back and nothing disturbed those. */
  lemma {:induction false} InForceExactlyWhen(c: Config, s: seq<State>, run: seq<Action>, i: nat, j: nat)
    requires Trace(c, s, run) && i <= j <= |run| && s[i].daemon.Owes()
    ensures s[j].daemon.InForce() == s[i].daemon.InForce() <==> exists m: nat :: UndisturbedSince(s, run, m, i, j)
  {
    if i == j {
      assert UndisturbedSince(s, run, i, i, j);
    } else {
      InForceExactlyWhen(c, s, run, i, j - 1);
      assert Happens(c, s, run, j - 1);
      if s[j - 1].daemon.InForce() == s[i].daemon.InForce() {
        DisturbanceIsChange(c, s, run, j - 1);
        var m :| UndisturbedSince(s, run, m, i, j - 1);
        assert s[j].daemon.InForce() == s[i].daemon.InForce() ==> UndisturbedSince(s, run, m, i, j);
      } else {
        if s[j].daemon.InForce() == s[i].daemon.InForce() {
          assert UndisturbedSince(s, run, j, i, j);
        }
      }
      forall m: nat | UndisturbedSince(s, run, m, i, j) ensures s[j].daemon.InForce() == s[i].daemon.InForce() {
        if m < j {
          assert UndisturbedSince(s, run, m, i, j - 1);
        }
      }
    }
  }

  predicate Ends(s: State, a: Action) {
    a.Restart? || (a.Finish? && !(s.holder.Destroy? && a.outcome == Failed))
  }

  predicate Begins(s: State, a: Action) {
    a.CloseNotes? || (a.Finish? && s.holder.Destroy? && a.outcome == Failed)
  }

  ghost predicate OwedSince(s: seq<State>, run: seq<Action>, m: nat, i: nat, j: nat)
    requires i <= j <= |run| < |s|
  {
    && i <= m <= j && (m == i || Begins(s[m - 1], run[m - 1]))
    && forall k :: m <= k < j ==> !Ends(s[k], run[k])
  }

  /** Something is still owed at j, whether or not what was read at i, exactly when nothing ended it
      after the read or after something later began. */
  lemma {:induction false} OwedExactlyWhen(c: Config, s: seq<State>, run: seq<Action>, i: nat, j: nat)
    requires Trace(c, s, run) && i <= j <= |run| && s[i].daemon.Owes()
    ensures s[j].daemon.Owes() <==> exists m: nat :: OwedSince(s, run, m, i, j)
  {
    if i == j {
      assert OwedSince(s, run, i, i, j);
    } else {
      OwedExactlyWhen(c, s, run, i, j - 1);
      assert Happens(c, s, run, j - 1);
      if Begins(s[j - 1], run[j - 1]) {
        assert OwedSince(s, run, j, i, j);
      } else if s[j - 1].daemon.Owes() && !Ends(s[j - 1], run[j - 1]) {
        var m :| OwedSince(s, run, m, i, j - 1);
        assert OwedSince(s, run, m, i, j);
      } else {
        forall m: nat | OwedSince(s, run, m, i, j) ensures false {
          assert OwedSince(s, run, m, i, j - 1);
        }
      }
    }
  }

  /** The code checks neither: what it promises of a destroy is that its call had read the hold or debt
      (EveryRetryWasOwed), and a run tells exactly whether it was still there. */
  lemma RetryIsForWhatIsInForce(c: Config, s: seq<State>, run: seq<Action>, j: nat)
    requires Trace(c, s, run) && j < |run| && run[j].Lock? && Issues(s, run, j)
    ensures exists i: nat :: ReadAt(s, run, i, j, run[j].caller)
    ensures forall i: nat :: ReadAt(s, run, i, j, run[j].caller) ==>
              && (s[j].daemon.InForce() == s[i].daemon.InForce() <==> exists m: nat :: UndisturbedSince(s, run, m, i, j))
              && (s[j].daemon.Owes() <==> exists m: nat :: OwedSince(s, run, m, i, j))
  {
    EveryRetryWasOwed(c, s, run, j);
    forall i: nat | ReadAt(s, run, i, j, run[j].caller)
      ensures s[j].daemon.InForce() == s[i].daemon.InForce() <==> exists m: nat :: UndisturbedSince(s, run, m, i, j)
      ensures s[j].daemon.Owes() <==> exists m: nat :: OwedSince(s, run, m, i, j)
    {
      InForceExactlyWhen(c, s, run, i, j);
      OwedExactlyWhen(c, s, run, i, j);
    }
  }
}
