/** core/udp_pressure.go: lowering the hy2 ceiling on local UDP write refusals, and raising it again
    after a long quiet stretch. Times are whole seconds on one clock. */
module UdpPressure {
  import opened Common
  import opened BandwidthSchedule

  const FRESH := 60
  const DROP_EVERY := 60
  const COOLDOWN := 30
  const RECOVER := 900

  datatype Pressure = Pressure(
    sequence: int, capDown: int, lastDrop: Option<int>, coolUntil: Option<int>, cleanSince: Option<int>)

  const INITIAL := Pressure(0, 0, None, None, None)

  /** One call of `target`: the refusal counter and its last sighting, the time, the live and the
      desired ceiling, and whether the leg is healthy. */
  datatype Input = Input(sequence: int, last: Option<int>, now: int, live: int, desired: int, healthy: bool)

  predicate Cooling(p: Pressure, now: int) { p.coolUntil.Some? && now < p.coolUntil.value }

  // ---------------------------------------------------------------- what one call does

  predicate IsFresh(p: Pressure, i: Input) {
    i.sequence != p.sequence && i.last.Some? && i.last.value <= i.now && i.now - i.last.value <= FRESH
  }

  predicate Drops(p: Pressure, i: Input) {
    IsFresh(p, i) && (p.lastDrop.None? || i.now - p.lastDrop.value >= DROP_EVERY)
  }

  /** The ceiling in force: the lowest of the desired one, the live rung and the cap. */
  function Base(s: Schedule, p: Pressure, i: Input): int {
    var withLive := if s.HasRung(i.live) then Min(i.desired, i.live) else i.desired;
    if p.capDown > 0 then Min(withLive, p.capDown) else withLive
  }

  function NextRung(rungs: seq<int>, cap: int, desired: int): int {
    if |rungs| == 0 then cap
    else if rungs[0] > cap then Min(rungs[0], desired)
    else NextRung(rungs[1..], cap, desired)
  }

  /** After the refusals of this call, before recovery is considered. */
  function AfterEvent(s: Schedule, p: Pressure, i: Input): Pressure {
    var seen := if IsFresh(p, i) then p.(coolUntil := Some(i.now + COOLDOWN), cleanSince := Some(i.now)) else p;
    var dropped := if Drops(p, i) then seen.(capDown := s.StepDown(Base(s, p, i), 1), lastDrop := Some(i.now)) else seen;
    var since := if dropped.cleanSince.None? then Some(i.now) else dropped.cleanSince;
    dropped.(sequence := i.sequence, cleanSince := if i.healthy then since else None)
  }

  predicate Recovers(s: Schedule, p: Pressure, i: Input) {
    var q := AfterEvent(s, p, i);
    q.capDown > 0 && i.healthy && !Cooling(q, i.now) && i.now - q.cleanSince.value >= RECOVER
  }

  function Step(s: Schedule, p: Pressure, i: Input): Pressure {
    var q := AfterEvent(s, p, i);
    if Recovers(s, p, i) then
      q.(capDown := if q.capDown >= i.desired then 0
          else NextRung(s.Rungs(), q.capDown, i.desired), cleanSince := Some(i.now))
    else q
  }

  function Answer(p: Pressure, i: Input): int { if p.capDown > 0 then Min(i.desired, p.capDown) else i.desired }

  /** The scan for the first rung above the cap. */
  method RaiseCap(s: Schedule, cap: int, desired: int) returns (r: int)
    ensures r == NextRung(s.Rungs(), cap, desired)
  {
    var rungs := ComputeRungs(s);
    for j := 0 to |rungs|
      invariant NextRung(rungs, cap, desired) == NextRung(rungs[j..], cap, desired)
    {
      if rungs[j] > cap {
        return Min(rungs[j], desired);
      }
    }
    return cap;
  }

  class UdpPressure {
    var sequence: int
    var capDown: int
    var lastDrop: Option<int>
    var coolUntil: Option<int>
    var cleanSince: Option<int>

    function State(): Pressure
      reads this
    {
      Pressure(sequence, capDown, lastDrop, coolUntil, cleanSince)
    }

    constructor ()
      ensures State() == INITIAL
    {
      sequence, capDown, lastDrop, coolUntil, cleanSince := 0, 0, None, None, None;
    }

    method Target(i: Input, s: Schedule) returns (r: int)
      modifies this
      ensures State() == Step(s, old(State()), i) && r == Answer(State(), i)
      // The answer is what was asked for, or the cap if that is lower.
      ensures r <= i.desired && (capDown > 0 ==> r <= capDown) && (r == i.desired || (capDown > 0 && r == capDown))
    {
      ghost var p := State();
      var recent := i.sequence != sequence && i.last.Some? && i.last.value <= i.now && i.now - i.last.value <= FRESH;
      sequence := i.sequence;
      if recent {
        coolUntil := Some(i.now + COOLDOWN);
        cleanSince := Some(i.now);
        if lastDrop.None? || i.now - lastDrop.value >= DROP_EVERY {
          var base := i.desired;
          var onRung := ComputeHasRung(s, i.live);
          if onRung {
            base := Min(base, i.live);
          }
          if capDown > 0 {
            base := Min(base, capDown);
          }
          capDown := ComputeStepDown(s, base, 1);
          lastDrop := Some(i.now);
        }
      }
      if !i.healthy {
        cleanSince := None;
      } else if cleanSince.None? {
        cleanSince := Some(i.now);
      }
      assert State() == AfterEvent(s, p, i);
      if capDown > 0 && i.healthy && !Cooling(State(), i.now) && i.now - cleanSince.value >= RECOVER {
        if capDown >= i.desired {
          capDown := 0;
        } else {
          capDown := RaiseCap(s, capDown, i.desired);
        }
        cleanSince := Some(i.now);
      }
      if capDown > 0 {
        return Min(i.desired, capDown);
      }
      return i.desired;
    }
  }

  // ---------------------------------------------------------------- one call, on any ladder

  predicate CapIsRung(s: Schedule, p: Pressure) { p.capDown == 0 || s.HasRung(p.capDown) }

  lemma {:induction false} NextRungIsRung(rungs: seq<int>, cap: int, desired: int)
    requires Ascending(rungs) && desired in rungs && cap < desired
    ensures NextRung(rungs, cap, desired) in rungs && cap < NextRung(rungs, cap, desired) <= desired
    ensures forall r :: r in rungs && r > cap ==> NextRung(rungs, cap, desired) <= r
  {
    if rungs[0] > cap {
      assert rungs[0] <= desired;
    } else {
      assert rungs == [rungs[0]] + rungs[1..];
      NextRungIsRung(rungs[1..], cap, desired);
    }
  }

  lemma BaseIsRung(s: Schedule, p: Pressure, i: Input)
    requires CapIsRung(s, p) && s.HasRung(i.desired)
    ensures s.HasRung(Base(s, p, i)) && Base(s, p, i) <= i.desired
  {
  }

  /** With a rung as the desired ceiling, the cap is always absent or a rung and the answer is a rung
      at or below what was asked for. */
  lemma CapStaysOnTheLadder(s: Schedule, p: Pressure, i: Input)
    requires CapIsRung(s, p) && s.HasRung(i.desired)
    ensures CapIsRung(s, Step(s, p, i))
    ensures s.HasRung(Answer(Step(s, p, i), i)) && Answer(Step(s, p, i), i) <= i.desired
  {
    BaseIsRung(s, p, i);
    BottomRung(s);
    StepDownDescends(s, Base(s, p, i), 1);
    var q := AfterEvent(s, p, i);
    assert CapIsRung(s, q);
    if Recovers(s, p, i) && q.capDown < i.desired {
      NextRungIsRung(s.Rungs(), q.capDown, i.desired);
    }
    assert forall n :: s.HasRung(n) ==> s.IsRung(n);
  }

  /** Strictly lower, or both on the bottom rung. */
  predicate Lower(n: int, than: int) { n < than || n == than == 1 }

  /** A descent answers strictly below what was asked for, what is live and what was capped, unless at
      the bottom rung, and skips no rung. */
  lemma DescentsReachTheCaller(s: Schedule, p: Pressure, i: Input)
    requires CapIsRung(s, p) && s.HasRung(i.desired) && Drops(p, i)
    ensures var r := Answer(Step(s, p, i), i);
            && r == Step(s, p, i).capDown && Lower(r, i.desired)
            && (s.HasRung(i.live) ==> Lower(r, i.live)) && (p.capDown > 0 ==> Lower(r, p.capDown))
            && forall n :: s.HasRung(n) && n > r ==>
                n >= i.desired || (s.HasRung(i.live) && n >= i.live) || (p.capDown > 0 && n >= p.capDown)
  {
    hide Schedule.StepDown;
    BaseIsRung(s, p, i);
    BottomRung(s);
    StepDownDescends(s, Base(s, p, i), 1);
    StepDownSkipsNothing(s, Base(s, p, i));
    assert forall n :: s.HasRung(n) ==> s.IsRung(n);
  }

  /** A change of the cap that no descent made is a recovery, which clears it or moves it to the next
      rung up. */
  lemma CapMoves(s: Schedule, p: Pressure, i: Input)
    requires CapIsRung(s, p) && s.HasRung(i.desired)
    ensures !Drops(p, i) && Step(s, p, i).capDown != p.capDown ==>
              && Recovers(s, p, i) && p.capDown > 0
              && (Step(s, p, i).capDown == 0 <==> p.capDown >= i.desired)
              && (Step(s, p, i).capDown != 0 ==>
                    p.capDown < Step(s, p, i).capDown && forall r :: r in s.Rungs() && r > p.capDown ==>
                        Step(s, p, i).capDown <= r)
    ensures Recovers(s, p, i) ==> !IsFresh(p, i) && Step(s, p, i).capDown != p.capDown
  {
    BottomRung(s);
    var q := AfterEvent(s, p, i);
    if Recovers(s, p, i) && q.capDown < i.desired {
      NextRungIsRung(s.Rungs(), q.capDown, i.desired);
    }
  }

  /** Without a ladder there is nothing to cap: the answer is always what was asked for. */
  lemma NoLadderNoCap(s: Schedule, p: Pressure, i: Input)
    requires s.Rungs() == [] && p.capDown == 0
    ensures Step(s, p, i).capDown == 0 && Answer(Step(s, p, i), i) == i.desired
  {
  }

  // ---------------------------------------------------------------- whole runs

  /** What happens to the controller between resets: calls, and ticks on a bad local link, which
      forget the clean stretch. */
  datatype Event = Call(input: Input) | LinkBad

  function StepEvent(s: Schedule, p: Pressure, e: Event): Pressure {
    match e
    case Call(i) => Step(s, p, i)
    case LinkBad => p.(cleanSince := None)
  }

  function StateAt(s: Schedule, p: Pressure, run: seq<Event>, k: nat): Pressure
    requires k <= |run|
  {
    if k == 0 then p else StepEvent(s, StateAt(s, p, run, k - 1), run[k - 1])
  }

  predicate TimeOrdered(run: seq<Event>) {
    forall a, b :: 0 <= a < b < |run| && run[a].Call? && run[b].Call? ==> run[a].input.now <= run[b].input.now
  }

  predicate DropsAt(s: Schedule, p: Pressure, run: seq<Event>, k: nat) {
    k < |run| && run[k].Call? && Drops(StateAt(s, p, run, k), run[k].input)
  }

  predicate RecoversAt(s: Schedule, p: Pressure, run: seq<Event>, k: nat) {
    k < |run| && run[k].Call? && Recovers(s, StateAt(s, p, run, k), run[k].input)
  }

  predicate FreshAt(s: Schedule, p: Pressure, run: seq<Event>, k: nat) {
    k < |run| && run[k].Call? && IsFresh(StateAt(s, p, run, k), run[k].input)
  }

  /** Over any run on a ladder the cap stays 0 or a rung. */
  lemma {:induction false} RunKeepsCapOnTheLadder(s: Schedule, p: Pressure, run: seq<Event>, k: nat)
    requires k <= |run| && CapIsRung(s, p)
    requires forall j :: 0 <= j < |run| && run[j].Call? ==> s.HasRung(run[j].input.desired)
    ensures CapIsRung(s, StateAt(s, p, run, k))
  {
    hide Step, Schedule.Rungs;
    if k == 0 {
    } else {
      RunKeepsCapOnTheLadder(s, p, run, k - 1);
      if run[k - 1].Call? {
        CapStaysOnTheLadder(s, StateAt(s, p, run, k - 1), run[k - 1].input);
      }
    }
  }

  lemma {:induction false} LastDropKept(s: Schedule, p: Pressure, run: seq<Event>, a: nat, k: nat)
    requires TimeOrdered(run) && DropsAt(s, p, run, a) && a < k <= |run|
    ensures StateAt(s, p, run, k).lastDrop.Some? && StateAt(s, p, run, k).lastDrop.value >= run[a].input.now
  {
    if k == a + 1 {
    } else {
      LastDropKept(s, p, run, a, k - 1);
    }
  }

  /** Descents are at least a minute apart. */
  lemma DescentsAreSpaced(s: Schedule, p: Pressure, run: seq<Event>, a: nat, b: nat)
    requires TimeOrdered(run) && a < b && DropsAt(s, p, run, a) && DropsAt(s, p, run, b)
    ensures run[b].input.now - run[a].input.now >= DROP_EVERY
  {
    LastDropKept(s, p, run, a, b);
  }

  /** The start of the clean stretch is forgotten or moves forward, never back. */
  lemma CleanSinceStep(s: Schedule, p: Pressure, i: Input, t: int)
    requires t <= i.now
    requires p.cleanSince.None? || p.cleanSince.value >= t || Recovers(s, p, i) || IsFresh(p, i)
    ensures var q := Step(s, p, i); q.cleanSince.None? || q.cleanSince.value >= t
  {
  }

  lemma {:induction false} CleanSinceKept(s: Schedule, p: Pressure, run: seq<Event>, a: nat, k: nat)
    requires TimeOrdered(run) && a < k <= |run|
    requires RecoversAt(s, p, run, a) || FreshAt(s, p, run, a)
    ensures var q := StateAt(s, p, run, k); q.cleanSince.None? || q.cleanSince.value >= run[a].input.now
  {
    hide Step, Recovers;
    if k > a + 1 {
      CleanSinceKept(s, p, run, a, k - 1);
    }
    if run[k - 1].Call? {
      CleanSinceStep(s, StateAt(s, p, run, k - 1), run[k - 1].input, run[a].input.now);
    }
  }

  /** The cap rises or clears at most once in fifteen minutes, and never within fifteen minutes of a
      fresh refusal. */
  lemma RecoveriesAreSpaced(s: Schedule, p: Pressure, run: seq<Event>, a: nat, b: nat)
    requires TimeOrdered(run) && a < b && RecoversAt(s, p, run, b)
    requires RecoversAt(s, p, run, a) || FreshAt(s, p, run, a)
    ensures run[b].input.now - run[a].input.now >= RECOVER
  {
    CleanSinceKept(s, p, run, a, b);
  }

  lemma CoolUntilStep(s: Schedule, p: Pressure, i: Input)
    ensures Step(s, p, i).coolUntil == if IsFresh(p, i) then Some(i.now + COOLDOWN) else p.coolUntil
  {
  }

  /** The cooldown in force is always the thirty seconds after the last fresh refusal. */
  lemma {:induction false} CooldownFollowsTheLastRefusal(s: Schedule, p: Pressure, run: seq<Event>, a: nat, k: nat)
    requires a < k <= |run| && FreshAt(s, p, run, a) && forall j :: a < j < k ==> !FreshAt(s, p, run, j)
    ensures StateAt(s, p, run, k).coolUntil == Some(run[a].input.now + COOLDOWN)
    ensures forall now :: Cooling(StateAt(s, p, run, k), now) <==> now < run[a].input.now + COOLDOWN
  {
    hide Step, Recovers;
    var q := StateAt(s, p, run, k - 1);
    if k > a + 1 {
      CooldownFollowsTheLastRefusal(s, p, run, a, k - 1);
      assert !FreshAt(s, p, run, k - 1);
    }
    match run[k - 1]
    case Call(i) => CoolUntilStep(s, q, i);
    case LinkBad =>
  }

  // ---------------------------------------------------------------- exactly when

  /** The refusal counter as the call before `k` saw it. */
  function SeenBefore(run: seq<Event>, k: nat): int
    requires k <= |run|
  {
    if k == 0 then 0 else if run[k - 1].Call? then run[k - 1].input.sequence else SeenBefore(run, k - 1)
  }

  lemma {:induction false} SequenceIsSeen(s: Schedule, run: seq<Event>, k: nat)
    requires k <= |run|
    ensures StateAt(s, INITIAL, run, k).sequence == SeenBefore(run, k)
  {
    if k == 0 {
    } else {
      SequenceIsSeen(s, run, k - 1);
    }
  }

  lemma {:induction false} LastDropWasMade(s: Schedule, run: seq<Event>, k: nat)
    requires k <= |run| && StateAt(s, INITIAL, run, k).lastDrop.Some?
    ensures exists a: nat :: a < k && DropsAt(s, INITIAL, run, a)
                && StateAt(s, INITIAL, run, k).lastDrop == Some(run[a].input.now)
  {
    if k == 0 {
    } else if DropsAt(s, INITIAL, run, k - 1) {
    } else {
      LastDropWasMade(s, run, k - 1);
    }
  }

  /** In any run a call descends exactly when the refusal counter has moved since the call before it,
      the last refusal is at most a minute old, and no descent was made within the last minute. */
  lemma DescendsExactlyWhen(s: Schedule, run: seq<Event>, k: nat)
    requires TimeOrdered(run) && k < |run| && run[k].Call?
    ensures var i := run[k].input;
            DropsAt(s, INITIAL, run, k) <==>
            && i.sequence != SeenBefore(run, k) && i.last.Some? && 0 <= i.now - i.last.value <= 60
            && forall a: nat :: a < k && DropsAt(s, INITIAL, run, a) ==> i.now - run[a].input.now >= 60
  {
    SequenceIsSeen(s, run, k);
    forall a: nat | a < k && DropsAt(s, INITIAL, run, a)
      ensures StateAt(s, INITIAL, run, k).lastDrop.Some?
      ensures StateAt(s, INITIAL, run, k).lastDrop.value >= run[a].input.now
    {
      LastDropKept(s, INITIAL, run, a, k);
    }
    if StateAt(s, INITIAL, run, k).lastDrop.Some? {
      LastDropWasMade(s, run, k);
    }
  }

  /** Over any run on a ladder, a call that descends answers strictly below what it asked for, what is
      live and what was capped, unless at the bottom rung. */
  lemma EveryDescentReachesTheCaller(s: Schedule, run: seq<Event>, k: nat)
    requires DropsAt(s, INITIAL, run, k)
    requires forall j :: 0 <= j < |run| && run[j].Call? ==> s.HasRung(run[j].input.desired)
    ensures var i, p := run[k].input, StateAt(s, INITIAL, run, k);
            var r := Answer(StateAt(s, INITIAL, run, k + 1), i);
            && Lower(r, i.desired) && (s.HasRung(i.live) ==> Lower(r, i.live)) && (p.capDown > 0 ==> Lower(r, p.capDown))
  {
    hide Step, Answer, Schedule.Rungs;
    RunKeepsCapOnTheLadder(s, INITIAL, run, k);
    DescentsReachTheCaller(s, StateAt(s, INITIAL, run, k), run[k].input);
  }

  /** A stretch of healthy calls from `a` up to `k`, with neither a fresh refusal nor a recovery after
      the first of them, and no bad link. */
  ghost predicate Quiet(s: Schedule, run: seq<Event>, a: nat, k: nat)
    requires k <= |run|
  {
    && a < k
    && (forall j :: a <= j < k ==> run[j].Call? && run[j].input.healthy)
    && (forall j: nat :: a < j < k ==> !FreshAt(s, INITIAL, run, j) && !RecoversAt(s, INITIAL, run, j))
  }

  lemma CleanSinceMoves(s: Schedule, p: Pressure, i: Input)
    ensures var q := Step(s, p, i);
            q.cleanSince == if !i.healthy then None
                            else if IsFresh(p, i) || Recovers(s, p, i) || p.cleanSince.None? then Some(i.now)
                            else p.cleanSince
  {
  }

  lemma {:induction false} CleanSinceIsQuiet(s: Schedule, run: seq<Event>, k: nat)
    requires k <= |run| && StateAt(s, INITIAL, run, k).cleanSince.Some?
    ensures exists a: nat :: Quiet(s, run, a, k) && StateAt(s, INITIAL, run, k).cleanSince == Some(run[a].input.now)
  {
    hide Step, Recovers;
    if k == 0 {
    } else {
      var p := StateAt(s, INITIAL, run, k - 1);
      assert run[k - 1].Call?;
      CleanSinceMoves(s, p, run[k - 1].input);
      if FreshAt(s, INITIAL, run, k - 1) || RecoversAt(s, INITIAL, run, k - 1) || p.cleanSince.None? {
        assert Quiet(s, run, k - 1, k);
      } else {
        CleanSinceIsQuiet(s, run, k - 1);
        var a: nat :| Quiet(s, run, a, k - 1) && p.cleanSince == Some(run[a].input.now);
        assert Quiet(s, run, a, k);
      }
    }
  }

  lemma {:induction false} QuietIsCleanSince(s: Schedule, run: seq<Event>, a: nat, k: nat)
    requires TimeOrdered(run) && k <= |run| && Quiet(s, run, a, k)
    ensures var q := StateAt(s, INITIAL, run, k); q.cleanSince.Some? && q.cleanSince.value <= run[a].input.now
  {
    hide Step, Recovers;
    var p := StateAt(s, INITIAL, run, k - 1);
    CleanSinceMoves(s, p, run[k - 1].input);
    if k == a + 1 {
      if p.cleanSince.Some? {
        CleanSinceIsQuiet(s, run, k - 1);
      }
    } else {
      assert !FreshAt(s, INITIAL, run, k - 1) && !RecoversAt(s, INITIAL, run, k - 1);
      assert Quiet(s, run, a, k - 1);
      QuietIsCleanSince(s, run, a, k - 1);
    }
  }

  lemma {:induction false} CooldownWasFresh(s: Schedule, run: seq<Event>, k: nat)
    requires k <= |run| && StateAt(s, INITIAL, run, k).coolUntil.Some?
    ensures exists b: nat :: b < k && FreshAt(s, INITIAL, run, b)
                && StateAt(s, INITIAL, run, k).coolUntil == Some(run[b].input.now + COOLDOWN)
  {
    hide Step, Recovers;
    if k == 0 {
    } else {
      if run[k - 1].Call? {
        CoolUntilStep(s, StateAt(s, INITIAL, run, k - 1), run[k - 1].input);
      }
      if !FreshAt(s, INITIAL, run, k - 1) {
        CooldownWasFresh(s, run, k - 1);
      }
    }
  }

  /** In any run a call raises or clears the cap exactly when there is one, the call is healthy and
      shows no fresh refusal, and fifteen minutes have passed in an unbroken quiet stretch. */
  lemma RecoversExactlyWhen(s: Schedule, run: seq<Event>, k: nat)
    requires TimeOrdered(run) && k < |run| && run[k].Call?
    ensures RecoversAt(s, INITIAL, run, k) <==>
            && StateAt(s, INITIAL, run, k).capDown > 0 && run[k].input.healthy && !FreshAt(s, INITIAL, run, k)
            && exists a: nat :: Quiet(s, run, a, k) && run[k].input.now - run[a].input.now >= 900
  {
    var p := StateAt(s, INITIAL, run, k);
    if p.cleanSince.Some? {
      CleanSinceIsQuiet(s, run, k);
    }
    forall a: nat | Quiet(s, run, a, k) ensures p.cleanSince.Some? && p.cleanSince.value <= run[a].input.now {
      QuietIsCleanSince(s, run, a, k);
    }
    if a: nat :| Quiet(s, run, a, k) && run[k].input.now - run[a].input.now >= 900 {
      if p.coolUntil.Some? {
        CooldownWasFresh(s, run, k);
        var b: nat :| b < k && FreshAt(s, INITIAL, run, b) && p.coolUntil == Some(run[b].input.now + COOLDOWN);
        assert b <= a;
      }
    }
  }
}
