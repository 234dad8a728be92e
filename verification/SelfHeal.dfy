/** The self-healing backoff of core/supervisor.go: how many rungs the ceiling sits below its target,
    folded from one observation a minute. */
module SelfHeal {
  import opened Common
  import opened BandwidthSchedule

  const BACKOFF_TICKS := 2
  const RECOVER_TICKS := 15
  const MAX_BACKOFF := 3

  datatype Heal = Heal(backoff: int, bad: int, good: int, target: int, held: bool)

  /** A minute: the link gave no evidence, or the tunnel was observed. */
  datatype Minute = Freeze | Tick(healthy: bool, flooding: bool, dark: bool)

  function Step(h: Heal, m: Minute): Heal {
    match m
    case Freeze => h.(held := false)
    case Tick(healthy, flooding, dark) =>
      if flooding && dark then h.(good := 0, held := true)
      else if flooding then
        var bad := h.bad + 1;
        if bad >= BACKOFF_TICKS
            && h.backoff < MAX_BACKOFF then h.(backoff := h.backoff + 1, bad := 0, good := 0, held := false)
        else h.(bad := bad, good := 0, held := false)
      else if healthy then
        var good := h.good + 1;
        if h.backoff > 0 && good >= RECOVER_TICKS then h.(backoff := h.backoff - 1, bad := 0, good := 0, held := false)
        else h.(bad := 0, good := good, held := false)
      else h.(good := 0, held := true)
  }

  class HealState {
    var backoff: int
    var bad: int
    var good: int
    var target: int
    var held: bool

    function State(): Heal
      reads this
    {
      Heal(backoff, bad, good, target, held)
    }

    constructor ()
      ensures State() == Heal(0, 0, 0, 0, false)
    {
      backoff, bad, good, target, held := 0, 0, 0, 0, false;
    }

    /** A new ceiling target restarts the descent; the same one changes nothing. */
    method Retarget(pin: int)
      modifies this
      ensures State() == if pin == old(target) then old(State()) else Heal(0, 0, 0, pin, false)
    {
      if pin == target {
        return;
      }
      backoff, bad, good, target, held := 0, 0, 0, pin, false;
    }

    method FreezeTick() returns (r: int)
      modifies this
      ensures State() == Step(old(State()), Freeze) && r == backoff
    {
      held := false;
      return backoff;
    }

    method ObserveTick(healthy: bool, flooding: bool, dark: bool) returns (r: int)
      modifies this
      ensures State() == Step(old(State()), Tick(healthy, flooding, dark)) && r == backoff
    {
      if flooding && dark {
        good := 0;
        if !held {
          held := true;
        }
        return backoff;
      }
      if flooding {
        held := false;
        good := 0;
        bad := bad + 1;
        if bad >= BACKOFF_TICKS && backoff < MAX_BACKOFF {
          backoff, bad := backoff + 1, 0;
        }
        return backoff;
      }
      if healthy {
        held := false;
        bad, good := 0, good + 1;
        if backoff > 0 && good >= RECOVER_TICKS {
          backoff, good := backoff - 1, 0;
        }
        return backoff;
      }
      good := 0;
      if !held {
        held := true;
      }
      return backoff;
    }
  }

  // ---------------------------------------------------------------- accounting over runs

  function Run(h: Heal, run: seq<Minute>): Heal {
    if |run| == 0 then h else Step(Run(h, run[..|run| - 1]), run[|run| - 1])
  }

  lemma {:induction false} RunAppend(h: Heal, a: seq<Minute>, b: seq<Minute>)
    ensures Run(h, a + b) == Run(Run(h, a), b)
  {
    if |b| == 0 {
      assert a + b == a;
    } else {
      assert (a + b)[..|a + b| - 1] == a + b[..|b| - 1];
      RunAppend(h, a, b[..|b| - 1]);
    }
  }

  /** A minute whose flooding speaks about the ceiling. */
  predicate FloodsLive(m: Minute) { m.Tick? && m.flooding && !m.dark }

  predicate Clean(m: Minute) { m.Tick? && m.healthy && !m.flooding }

  function CountFloods(run: seq<Minute>): nat {
    if |run| == 0 then 0 else CountFloods(run[..|run| - 1]) + (if FloodsLive(run[|run| - 1]) then 1 else 0)
  }

  function CountClean(run: seq<Minute>): nat {
    if |run| == 0 then 0 else CountClean(run[..|run| - 1]) + (if Clean(run[|run| - 1]) then 1 else 0)
  }

  function Descents(h: Heal, run: seq<Minute>): nat {
    if |run| == 0 then 0
    else Descents(h, run[..|run| - 1]) + (if Run(h, run).backoff > Run(h, run[..|run| - 1]).backoff then 1 else 0)
  }

  function Ascents(h: Heal, run: seq<Minute>): nat {
    if |run| == 0 then 0
    else Ascents(h, run[..|run| - 1]) + (if Run(h, run).backoff < Run(h, run[..|run| - 1]).backoff then 1 else 0)
  }

  predicate Fresh(h: Heal) { h.backoff == 0 && h.bad == 0 && h.good == 0 }

  /** How far the counters ever get. */
  predicate InBounds(h: Heal) {
    && 0 <= h.backoff <= MAX_BACKOFF && 0 <= h.bad && 0 <= h.good
    && (h.backoff < MAX_BACKOFF ==> h.bad < BACKOFF_TICKS) && (h.backoff > 0 ==> h.good < RECOVER_TICKS)
  }

  lemma {:induction false} RunStaysInBounds(h: Heal, run: seq<Minute>)
    requires InBounds(h)
    ensures InBounds(Run(h, run))
  {
    if |run| == 0 {
    } else {
      RunStaysInBounds(h, run[..|run| - 1]);
    }
  }

  lemma StepPays(h: Heal, m: Minute)
    requires InBounds(h)
    ensures var q := Step(h, m);
            && 2 * (if q.backoff > h.backoff then 1 else 0) + q.bad <= h.bad + (if FloodsLive(m) then 1 else 0)
            && 15 * (if q.backoff < h.backoff then 1 else 0) + q.good <= h.good + (if Clean(m) then 1 else 0)
            && -1 <= q.backoff - h.backoff <= 1
  {
  }

  /** Between retargets every rung down is paid for by two flooding minutes outside a blackout, every
      rung up by fifteen clean minutes, and the descent is at most three rungs. */
  lemma {:induction false} Accounting(h: Heal, run: seq<Minute>)
    requires Fresh(h)
    ensures var q := Run(h, run);
            && InBounds(q) && q.backoff == Descents(h, run) - Ascents(h, run)
            && 2 * Descents(h, run) + q.bad <= CountFloods(run)
            && 15 * Ascents(h, run) + q.good <= CountClean(run)
  {
    hide Step, FloodsLive, Clean;
    RunStaysInBounds(h, run);
    if |run| == 0 {
    } else {
      Accounting(h, run[..|run| - 1]);
      StepPays(Run(h, run[..|run| - 1]), run[|run| - 1]);
    }
  }

  /** Without flooding outside a blackout the ceiling never comes down. */
  lemma NoFloodNoDescent(h: Heal, run: seq<Minute>)
    requires Fresh(h) && CountFloods(run) == 0
    ensures Descents(h, run) == 0 && Run(h, run).backoff == 0
  {
  }

  predicate NoClean(run: seq<Minute>) { forall i :: 0 <= i < |run| ==> !Clean(run[i]) }

  /** While no minute is clean, every two flooding ones lower the ceiling by a rung, down to three. */
  lemma {:induction false} FloodsAddUp(h: Heal, run: seq<Minute>)
    requires InBounds(h) && NoClean(run)
    ensures var q, level := Run(h, run), 2 * h.backoff + h.bad + CountFloods(run);
            && q.backoff == (if h.backoff == MAX_BACKOFF then MAX_BACKOFF else Min(3, level / 2))
            && (q.backoff < MAX_BACKOFF ==> q.bad == level % 2)
  {
    if |run| == 0 {
    } else {
      FloodsAddUp(h, run[..|run| - 1]);
    }
  }

  /** A fresh controller that sees no clean minute is one rung down for every two flooding minutes
      outside blackouts, and at most three. */
  lemma FloodsLowerTheCeiling(h: Heal, run: seq<Minute>)
    requires Fresh(h) && NoClean(run)
    ensures Run(h, run).backoff == Min(3, CountFloods(run) / 2)
  {
    FloodsAddUp(h, run);
  }

  /** From wherever a run has led, two flooding minutes outside blackouts with no clean one from the
      first to the second lower the ceiling by one rung, unless it is three down. */
  lemma TwoFloodsLowerOneRung(h: Heal, before: seq<Minute>, flood: seq<Minute>)
    requires Fresh(h) && NoClean(flood) && CountFloods(flood) == 2
    ensures Run(h, before + flood).backoff == Min(3, Run(h, before).backoff + 1)
  {
    Accounting(h, before);
    RunAppend(h, before, flood);
    FloodsAddUp(Run(h, before), flood);
  }

  /** The flooding minutes outside blackouts since the last clean one. */
  function FloodsSinceClean(run: seq<Minute>): nat {
    if |run| == 0 || Clean(run[|run| - 1]) then 0
    else FloodsSinceClean(run[..|run| - 1]) + (if FloodsLive(run[|run| - 1]) then 1 else 0)
  }

  /** The clean minutes at the end of a run, with frozen ones anywhere among them. */
  function CleanInARow(run: seq<Minute>): nat {
    if |run| == 0 || (run[|run| - 1].Tick? && !Clean(run[|run| - 1])) then 0
    else CleanInARow(run[..|run| - 1]) + (if Clean(run[|run| - 1]) then 1 else 0)
  }

  lemma {:induction false} StreaksAreCounted(h: Heal, run: seq<Minute>)
    requires Fresh(h)
    ensures Run(h, run).bad <= FloodsSinceClean(run) && Run(h, run).good <= CleanInARow(run)
  {
    if |run| == 0 {
    } else {
      StreaksAreCounted(h, run[..|run| - 1]);
    }
  }

  /** The ceiling comes down only in a flooding minute that is at least the second since the last clean
      one, and goes up only in a clean minute that is at least the fifteenth in a row. */
  lemma MovesNeedAStreak(h: Heal, run: seq<Minute>, m: Minute)
    requires Fresh(h)
    ensures var was, now := Run(h, run).backoff, Run(h, run + [m]).backoff;
            && was - 1 <= now <= was + 1
            && (now > was ==> FloodsLive(m) && FloodsSinceClean(run + [m]) >= 2)
            && (now < was ==> Clean(m) && CleanInARow(run + [m]) >= 15)
  {
    assert (run + [m])[..|run + [m]| - 1] == run;
    StreaksAreCounted(h, run);
  }

  predicate AllCleanOrFrozen(run: seq<Minute>) {
    forall i :: 0 <= i < |run| ==> run[i].Freeze? || Clean(run[i])
  }

  /** Clean minutes still needed before the backoff is gone. */
  function Owed(h: Heal): int { if h.backoff <= 0 then 0 else RECOVER_TICKS * h.backoff - h.good }

  lemma {:induction false} CleanRunPaysOff(h: Heal, run: seq<Minute>)
    requires InBounds(h) && AllCleanOrFrozen(run)
    ensures var q := Run(h, run);
            && InBounds(q) && q.backoff <= h.backoff
            && Owed(q) == Max(0, Owed(h) - CountClean(run))
  {
    if |run| == 0 {
    } else {
      CleanRunPaysOff(h, run[..|run| - 1]);
    }
  }

  /** From wherever a run has led, forty-five clean minutes, with frozen ones anywhere between, put
      the ceiling back on its target. */
  lemma FortyFiveCleanMinutesRestore(h: Heal, before: seq<Minute>, clean: seq<Minute>)
    requires Fresh(h) && AllCleanOrFrozen(clean) && CountClean(clean) >= 45
    ensures Run(h, before + clean).backoff == 0
  {
    Accounting(h, before);
    RunAppend(h, before, clean);
    CleanRunPaysOff(Run(h, before), clean);
  }

  /** The rung the scheduler applies. */
  function Applied(s: Schedule, down: int, backoff: nat): int {
    var lower := s.StepDown(down, backoff);
    if backoff > 0 && lower > 0 && lower != down then lower else down
  }

  lemma AppliedIsSoManyRungsDown(s: Schedule, i: nat, backoff: nat)
    requires i < |s.Rungs()|
    ensures Applied(s, s.Rungs()[i], backoff) == s.Rungs()[Max(0, i - backoff)]
  {
    hide Schedule.Rungs, Snap;
    SnapExact(s.Rungs(), i);
    BottomRung(s);
    assert Ascending(s.Rungs());
  }

  /** The applied ceiling is the rung so many places below the target as the run has backed off, or the
      bottom one: never above the target, and on it exactly when the backoff is gone or there is
      nothing below. */
  lemma AppliedCeiling(s: Schedule, i: nat, h: Heal, run: seq<Minute>)
    requires Fresh(h) && i < |s.Rungs()|
    ensures var down, applied := s.Rungs()[i], Applied(s, s.Rungs()[i], Max(0, Run(h, run).backoff));
            && Run(h, run).backoff >= 0 && applied == s.Rungs()[Max(0, i - Run(h, run).backoff)]
            && s.HasRung(applied) && applied <= down
            && (applied == down <==> Run(h, run).backoff == 0 || down == 1)
  {
    hide Schedule.Rungs, Applied, Run;
    RunStaysInBounds(h, run);
    AppliedIsSoManyRungsDown(s, i, Run(h, run).backoff);
    BottomRung(s);
    assert Ascending(s.Rungs());
  }
}
