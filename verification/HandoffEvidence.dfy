/** How the supervisor keeps evidence about one leg from being read as evidence about the other
    (core/supervisor.go): probes capture a generation, leg changes bump it, and the two goroutines
    that probe and hand over interleave freely between their atomic steps. */
module HandoffEvidence {
  import opened Common
  import Windows

  datatype Leg = Reality | Hy2

  /** A fresh dial: the generation loaded before it, and the number of leg changes and of selector
      writes there had been when it was started. */
  datatype Dial = Dial(generation: nat, changes: nat, writes: nat)

  // ---------------------------------------------------------------- what the state lock protects

  /** The counted keepalive failures are kept as the generations they captured; the code keeps
      their number. */
  datatype Evidence = Evidence(generation: nat, failures: seq<nat>, window: seq<Dial>)

  function AfterKeepalive(e: Evidence, captured: nat, failed: bool): Evidence {
    if captured != e.generation then e
    else if failed then e.(failures := e.failures + [captured])
    else e.(failures := [])
  }

  function AfterDial(e: Evidence, d: Dial): Evidence {
    if d.generation != e.generation then e
    else e.(window := Windows.LastN(e.window + [d], Windows.DIAL_WINDOW))
  }

  function AfterReset(e: Evidence): Evidence { Evidence(e.generation + 1, [], []) }

  class ProbeEvidence {
    var probeGeneration: nat
    var keepaliveFails: nat
    var keepaliveFailingSince: Option<int>
    var dialSamples: seq<Dial>
    ghost var counted: seq<nat>  // the generations of the counted failures

    ghost function State(): Evidence
      reads this
    {
      Evidence(probeGeneration, counted, dialSamples)
    }

    ghost predicate Valid()
      reads this
    {
      keepaliveFails == |counted| && keepaliveFailingSince.Some? == (keepaliveFails > 0)
    }

    constructor ()
      ensures Valid() && State() == Evidence(0, [], [])
    {
      probeGeneration, keepaliveFails, keepaliveFailingSince, dialSamples := 0, 0, None, [];
      counted := [];
    }

    /** The locked end of a keepalive. */
    method FinishKeepalive(generation: nat, failed: bool, now: int) returns (recorded: bool)
      requires Valid()
      modifies this
      ensures Valid() && State() == AfterKeepalive(old(State()), generation, failed)
      ensures recorded == (generation == old(probeGeneration))
      ensures recorded && failed ==>
          keepaliveFailingSince == if old(keepaliveFails) == 0 then Some(now) else old(keepaliveFailingSince)
    {
      if generation != probeGeneration {
        return false;
      }
      if failed {
        keepaliveFails := keepaliveFails + 1;
        if keepaliveFails == 1 {
          keepaliveFailingSince := Some(now);
        }
        counted := counted + [generation];
      } else {
        keepaliveFails := 0;
        keepaliveFailingSince := None;
        counted := [];
      }
      return true;
    }

    /** The locked end of a fresh dial. */
    method FinishDial(d: Dial) returns (recorded: bool)
      requires Valid()
      modifies this
      ensures Valid() && State() == AfterDial(old(State()), d)
      ensures recorded == (d.generation == old(probeGeneration))
    {
      if d.generation != probeGeneration {
        return false;
      }
      dialSamples := dialSamples + [d];
      if |dialSamples| > Windows.DIAL_WINDOW {
        dialSamples := dialSamples[|dialSamples| - Windows.DIAL_WINDOW..];
      }
      return true;
    }

    method ResetKeepaliveCount()
      requires Valid()
      modifies this
      ensures Valid() && State() == AfterReset(old(State()))
    {
      probeGeneration := probeGeneration + 1;
      keepaliveFails := 0;
      keepaliveFailingSince := None;
      dialSamples := [];
      counted := [];
    }
  }

  // ---------------------------------------------------------------- the two goroutines

  /** The keepalive goroutine: it probes, and between probes it may enter the fallback or hand
      traffic back to the primary. */
  datatype Keeper =
    | Resting
    | WarmLoaded(generation: nat)
    | FreshLoaded(generation: nat)
    | FreshSent(dial: Dial)
    | Entered            // fallback.enter succeeded; the selector is not written yet
    | SelectFailed       // the write was refused; fallback.leave is next
    | EnterWritten       // the selector is on hy2; the bump is next
    | BackChecked        // saw the fallback active and proved the primary
    | BackWritten        // the selector is on the primary; fallback.leave is next
    | BackLeft           // left the fallback; the bump is next

  /** The scheduler goroutine: it only ever hands traffic back. */
  datatype Scheduler = Idle | Checked | Written | Left

  datatype State = State(
    selector: Leg,
    onFallback: bool,
    evidence: Evidence,
    keeper: Keeper,
    scheduler: Scheduler,
    changes: nat,   // how often the selector has changed legs
    writes: nat)    // how often it has been written

  /** A select may be refused (Fails), or take effect before its reply is lost (Lost). */
  datatype Action =
    // probes
    | LoadWarm | FinishWarm(failed: bool)
    | LoadFresh | SendFresh | FinishFresh
    // enterFallback
    | Enter | EnterSelect | EnterSelectFails | EnterSelectLost | EnterGivesUp | EnterBump
    // handoffToPrimary by the keepalive goroutine
    | BackCheck | BackSelect | BackSelectFails | BackSelectLost | BackLeave | BackBump
    // handoffToPrimary by the scheduler
    | DueCheck | DueSelect | DueSelectFails | DueSelectLost | DueLeave | DueBump

  function Write(s: State, leg: Leg): State {
    s.(selector := leg, writes := s.writes + 1, changes := if s.selector == leg then s.changes else s.changes + 1)
  }

  predicate Enabled(s: State, a: Action) {
    match a
    case LoadWarm => s.keeper.Resting?
    case FinishWarm(_) => s.keeper.WarmLoaded?
    case LoadFresh => s.keeper.Resting?
    case SendFresh => s.keeper.FreshLoaded?
    case FinishFresh => s.keeper.FreshSent?
    case Enter => s.keeper.Resting? && !s.onFallback
    case EnterSelect => s.keeper.Entered?
    case EnterSelectFails => s.keeper.Entered?
    case EnterSelectLost => s.keeper.Entered?
    case EnterGivesUp => s.keeper.SelectFailed?
    case EnterBump => s.keeper.EnterWritten?
    case BackCheck => s.keeper.Resting? && s.onFallback
    case BackSelect => s.keeper.BackChecked?
    case BackSelectFails => s.keeper.BackChecked?
    case BackSelectLost => s.keeper.BackChecked?
    case BackLeave => s.keeper.BackWritten?
    case BackBump => s.keeper.BackLeft?
    // Due only after the dwell, ten minutes at least from the entry; an entry that has not written
    // its selector yet is younger than that.
    case DueCheck => s.scheduler.Idle? && s.onFallback && !s.keeper.Entered? && !s.keeper.SelectFailed?
    case DueSelect => s.scheduler.Checked?
    case DueSelectFails => s.scheduler.Checked?
    case DueSelectLost => s.scheduler.Checked?
    case DueLeave => s.scheduler.Written?
    case DueBump => s.scheduler.Left?
  }

  function Step(s: State, a: Action): State
    requires Enabled(s, a)
  {
    match a
    case LoadWarm => s.(keeper := WarmLoaded(s.evidence.generation))
    case FinishWarm(failed) => s.(evidence := AfterKeepalive(s.evidence, s.keeper.generation, failed), keeper := Resting)
    case LoadFresh => s.(keeper := FreshLoaded(s.evidence.generation))
    case SendFresh => s.(keeper := FreshSent(Dial(s.keeper.generation, s.changes, s.writes)))
    case FinishFresh => s.(evidence := AfterDial(s.evidence, s.keeper.dial), keeper := Resting)
    case Enter => s.(onFallback := true, keeper := Entered)
    case EnterSelect => Write(s, Hy2).(keeper := EnterWritten)
    case EnterSelectFails => s.(keeper := SelectFailed)
    case EnterSelectLost => Write(s, Hy2).(keeper := SelectFailed)
    case EnterGivesUp => s.(onFallback := false, keeper := Resting)
    case EnterBump => s.(evidence := AfterReset(s.evidence), keeper := Resting)
    case BackCheck => s.(keeper := BackChecked)
    case BackSelect => Write(s, Reality).(keeper := BackWritten)
    case BackSelectFails => s.(keeper := Resting)
    case BackSelectLost => Write(s, Reality).(keeper := Resting)
    case BackLeave => if s.onFallback then s.(onFallback := false, keeper := BackLeft) else s.(keeper := Resting)
    case BackBump => s.(evidence := AfterReset(s.evidence), keeper := Resting)
    case DueCheck => s.(scheduler := Checked)
    case DueSelect => Write(s, Reality).(scheduler := Written)
    case DueSelectFails => s.(scheduler := Idle)
    case DueSelectLost => Write(s, Reality).(scheduler := Idle)
    case DueLeave => if s.onFallback then s.(onFallback := false, scheduler := Left) else s.(scheduler := Idle)
    case DueBump => s.(evidence := AfterReset(s.evidence), scheduler := Idle)
  }

  const INITIAL := State(Reality, false, Evidence(0, [], []), Resting, Idle, 0, 0)

  /** Where an interleaving leads, if each of its steps can be taken. */
  function Run(s: State, run: seq<Action>): Option<State>
    decreases |run|
  {
    if |run| == 0 then Some(s)
    else if Enabled(s, run[0]) then Run(Step(s, run[0]), run[1..])
    else None
  }

  function After(run: seq<Action>): Option<State> { Run(INITIAL, run) }

  /** No select that reports failure has taken effect all the same. */
  predicate NoLostSelect(run: seq<Action>) {
    EnterSelectLost !in run && BackSelectLost !in run && DueSelectLost !in run
  }

  predicate IsLost(a: Action) { a.EnterSelectLost? || a.BackSelectLost? || a.DueSelectLost? }

  predicate IsWrite(a: Action) { a.EnterSelect? || a.BackSelect? || a.DueSelect? || IsLost(a) }

  predicate IsBump(a: Action) { a.EnterBump? || a.BackBump? || a.DueBump? }

  /** The leg a write names. */
  function Target(a: Action): Leg { if a.EnterSelect? || a.EnterSelectLost? then Hy2 else Reality }

  lemma {:induction false} RunAppend(s: State, run: seq<Action>, a: Action)
    ensures Run(s, run + [a]) ==
            match Run(s, run) case None => None case Some(t) => if Enabled(t, a) then Some(Step(t, a)) else None
    decreases |run|
  {
    if |run| == 0 {
      assert run + [a] == [a];
      assert [a][1..] == [];
    } else {
      assert (run + [a])[1..] == run[1..] + [a];
      if Enabled(s, run[0]) {
        RunAppend(Step(s, run[0]), run[1..], a);
      }
    }
  }

  lemma RunNothing(s: State)
    ensures Run(s, []) == Some(s)
  {
  }

  lemma PrefixRuns(run: seq<Action>)
    requires After(run).Some? && |run| > 0
    ensures var init, a := run[..|run| - 1], run[|run| - 1];
            After(init).Some? && Enabled(After(init).value, a) && After(run) == Some(Step(After(init).value, a))
  {
    assert run == run[..|run| - 1] + [run[|run| - 1]];
    RunAppend(INITIAL, run[..|run| - 1], run[|run| - 1]);
  }

  lemma {:induction false} RunConcat(s: State, a: seq<Action>, b: seq<Action>)
    requires Run(s, a).Some?
    ensures Run(s, a + b) == Run(Run(s, a).value, b)
    decreases |a|
  {
    if |a| == 0 {
      assert a + b == b;
    } else {
      assert (a + b)[1..] == a[1..] + b;
      RunConcat(Step(s, a[0]), a[1..], b);
    }
  }

  // ---------------------------------------------------------------- generations

  predicate AllCurrent(e: Evidence) {
    && (forall i :: 0 <= i < |e.failures| ==> e.failures[i] == e.generation)
    && (forall i :: 0 <= i < |e.window| ==> e.window[i].generation == e.generation)
  }

  lemma {:induction false} RunKeepsCurrent(s: State, run: seq<Action>)
    requires Run(s, run).Some? && AllCurrent(s.evidence)
    ensures AllCurrent(Run(s, run).value.evidence)
    decreases |run|
  {
    if |run| == 0 {
    } else {
      RunKeepsCurrent(Step(s, run[0]), run[1..]);
    }
  }

  /** In every interleaving, whatever fails or is lost, every counted keepalive failure and every dial
      in the window captured the generation now in force. */
  lemma EvidenceIsCurrent(run: seq<Action>)
    requires After(run).Some?
    ensures AllCurrent(After(run).value.evidence)
  {
    RunKeepsCurrent(INITIAL, run);
  }

  // ---------------------------------------------------------------- what counts as evidence

  /** Has nothing bumped the generation since the last probe began? */
  predicate Undisturbed(run: seq<Action>) {
    if |run| == 0 || run[|run| - 1].LoadWarm? || run[|run| - 1].LoadFresh? then true
    else !IsBump(run[|run| - 1]) && Undisturbed(run[..|run| - 1])
  }

  /** The generation the probe under way captured. */
  function Captured(s: State): Option<nat> {
    match s.keeper
    case WarmLoaded(g) => Some(g)
    case FreshLoaded(g) => Some(g)
    case FreshSent(d) => Some(d.generation)
    case _ => None
  }

  /** A probe is current exactly when nothing has bumped the generation since it began. */
  lemma {:induction false} CurrentExactlyWhenUndisturbed(run: seq<Action>)
    requires After(run).Some? && Captured(After(run).value).Some?
    ensures var g, now := Captured(After(run).value).value, After(run).value.evidence.generation;
            g <= now && (g == now <==> Undisturbed(run))
    decreases |run|
  {
    if |run| == 0 {
    } else {
      PrefixRuns(run);
      if !run[|run| - 1].LoadWarm? && !run[|run| - 1].LoadFresh? {
        CurrentExactlyWhenUndisturbed(run[..|run| - 1]);
      }
    }
  }

  /** The failed keepalives in a row since the last bump, of those no bump overtook. */
  function FailingStreak(run: seq<Action>): nat {
    if |run| == 0 || IsBump(run[|run| - 1]) then 0
    else
      var init, a := run[..|run| - 1], run[|run| - 1];
      if !(a.FinishWarm? && Undisturbed(init)) then FailingStreak(init)
      else if a.failed then FailingStreak(init) + 1
      else 0
  }

  /** The dials that ended since the last bump and that no bump overtook. */
  function DialsSinceBump(run: seq<Action>): seq<Dial>
    requires After(run).Some?
  {
    if |run| == 0 || IsBump(run[|run| - 1]) then []
    else
      var init, a := run[..|run| - 1], run[|run| - 1];
      PrefixRuns(run);
      DialsSinceBump(init) + (if a.FinishFresh? && Undisturbed(init) then [After(init).value.keeper.dial] else [])
  }

  lemma StepRecords(s: State, a: Action, dials: seq<Dial>)
    requires Enabled(s, a) && s.evidence.window == Windows.LastN(dials, Windows.DIAL_WINDOW)
    ensures var e, current := Step(s, a).evidence, Captured(s) == Some(s.evidence.generation);
            && |e.failures| == (if IsBump(a) then 0
                                else if !(a.FinishWarm? && current) then |s.evidence.failures|
                                else if a.failed then |s.evidence.failures| + 1 else 0)
            && e.window == Windows.LastN(
                 if IsBump(a) then [] else dials + (if a.FinishFresh? && current then [s.keeper.dial] else []),
                 Windows.DIAL_WINDOW)
  {
    hide Windows.LastN;
    if a.FinishFresh? {
      Windows.LastNAppend(dials, s.keeper.dial, Windows.DIAL_WINDOW);
    }
    assert dials + [] == dials;
    NoneOfNothing();
  }

  lemma NoneOfNothing()
    ensures Windows.LastN<Dial>([], Windows.DIAL_WINDOW) == []
  {
  }

  /** In every interleaving the counted failures are the keepalives that failed in a row since the last
      bump, and the window is the last twenty dials since then; a probe that a bump overtook is neither. */
  lemma {:induction false} EvidenceIsWhatEndedSinceTheBump(run: seq<Action>)
    requires After(run).Some?
    ensures |After(run).value.evidence.failures| == FailingStreak(run)
    ensures After(run).value.evidence.window == Windows.LastN(DialsSinceBump(run), 20)
    decreases |run|
  {
    hide Run, Step, Windows.LastN, Enabled;
    if |run| == 0 {
      RunNothing(INITIAL);
      NoneOfNothing();
    } else {
      var init, a := run[..|run| - 1], run[|run| - 1];
      PrefixRuns(run);
      EvidenceIsWhatEndedSinceTheBump(init);
      StepRecords(After(init).value, a, DialsSinceBump(init));
      if a.FinishWarm? || a.FinishFresh? {
        ProbeEnds(After(init).value, a);
      }
      if Captured(After(init).value).Some? {
        CurrentExactlyWhenUndisturbed(init);
      }
    }
  }

  lemma ProbeEnds(s: State, a: Action)
    requires Enabled(s, a) && (a.FinishWarm? || a.FinishFresh?)
    ensures Captured(s).Some?
  {
  }

  // ---------------------------------------------------------------- old evidence, exactly

  /** Two marks a dial can fall behind: the last change of the leg, the last write of the selector. */
  datatype Mark = LegChange | AnyWrite

  function Stamp(d: Dial, m: Mark): nat { if m == LegChange then d.changes else d.writes }

  function Count(s: State, m: Mark): nat { if m == LegChange then s.changes else s.writes }

  predicate Marks(s: State, a: Action, m: Mark) { IsWrite(a) && (m == LegChange ==> s.selector != Target(a)) }

  /** A fresh dial in flight that will be recorded, if nothing bumps first. */
  predicate InFlight(s: State) { s.keeper.FreshSent? && s.keeper.dial.generation == s.evidence.generation }

  predicate Carries(s: State) { s.evidence.window != [] || InFlight(s) }

  /** Every recorded dial, and one in flight that will be recorded, was started after the last mark. */
  predicate Fresh(s: State, m: Mark) {
    && (forall d :: d in s.evidence.window ==> Stamp(d, m) == Count(s, m))
    && (InFlight(s) ==> Stamp(s.keeper.dial, m) == Count(s, m))
  }

  /** The last mark found evidence, and no bump has followed it. */
  predicate Overlooked(run: seq<Action>, m: Mark)
    requires After(run).Some?
  {
    if |run| == 0 then false
    else
      var init, a := run[..|run| - 1], run[|run| - 1];
      PrefixRuns(run);
      if IsBump(a) then false
      else if Marks(After(init).value, a, m) then Carries(After(init).value)
      else Overlooked(init, m)
  }

  /** How many dials started after the last mark have been recorded since it, up to a bump. */
  function Newer(run: seq<Action>, m: Mark): nat
    requires After(run).Some?
  {
    if |run| == 0 then 0
    else
      var init, a := run[..|run| - 1], run[|run| - 1];
      PrefixRuns(run);
      var s := After(init).value;
      if IsBump(a) || Marks(s, a, m) then 0
      else Newer(init, m) + (if a.FinishFresh? && InFlight(s) && Stamp(s.keeper.dial, m) == Count(s, m) then 1 else 0)
  }

  /** No probe carries a generation from the future. */
  predicate PastGeneration(s: State) {
    && (s.keeper.FreshLoaded? ==> s.keeper.generation <= s.evidence.generation)
    && (s.keeper.FreshSent? ==> s.keeper.dial.generation <= s.evidence.generation)
  }

  /** A window that ends in `newer` dials at the mark, just behind an older one unless they fill it. */
  ghost predicate EndsIn(w: seq<Dial>, m: Mark, count: nat, newer: nat) {
    if newer < Windows.DIAL_WINDOW then
      && |w| > newer && Stamp(w[|w| - 1 - newer], m) < count
      && forall i :: |w| - newer <= i < |w| ==> Stamp(w[i], m) == count
    else
      |w| == Windows.DIAL_WINDOW && forall i :: 0 <= i < |w| ==> Stamp(w[i], m) == count
  }

  lemma RecordedDial(w: seq<Dial>, m: Mark, count: nat, newer: nat, d: Dial)
    requires |w| <= Windows.DIAL_WINDOW && Stamp(d, m) <= count
    ensures var v := Windows.LastN(w + [d], Windows.DIAL_WINDOW);
            && 0 < |v| <= Windows.DIAL_WINDOW && v[|v| - 1] == d
            && (Stamp(d, m) == count && EndsIn(w, m, count, newer) ==> EndsIn(v, m, count, newer + 1))
            && (Stamp(d, m) < count ==> EndsIn(v, m, count, 0))
            && (forall x :: x in v ==> x in w || x == d)
  {
  }

  /** What is recorded and in flight when `newer` dials have been recorded since the last mark, which
      found evidence if `overlooked`; nothing is ahead of its time. */
  ghost predicate Accounted(s: State, m: Mark, overlooked: bool, newer: nat) {
    && |s.evidence.window| <= Windows.DIAL_WINDOW
    && (forall d :: d in s.evidence.window ==> Stamp(d, m) <= Count(s, m))
    && (s.keeper.FreshSent? ==> Stamp(s.keeper.dial, m) <= Count(s, m))
    && PastGeneration(s)
    && if !overlooked then Fresh(s, m)
       else if InFlight(s) && Stamp(s.keeper.dial, m) < Count(s, m) then newer == 0
       else EndsIn(s.evidence.window, m, Count(s, m), newer)
  }

  lemma FinishKeepsAccount(s: State, m: Mark, overlooked: bool, newer: nat)
    requires s.keeper.FreshSent? && Accounted(s, m, overlooked, newer)
    ensures var counts := InFlight(s) && Stamp(s.keeper.dial, m) == Count(s, m);
            Accounted(Step(s, FinishFresh), m, overlooked, newer + (if counts then 1 else 0))
  {
    hide EndsIn, Windows.LastN, Stamp;
    var w, d := s.evidence.window, s.keeper.dial;
    RecordedDial(w, m, Count(s, m), newer, d);
    var t := Step(s, FinishFresh);
    if InFlight(s) {
      assert t.evidence.window == Windows.LastN(w + [d], Windows.DIAL_WINDOW);
    } else {
      assert t.evidence.window == w;
    }
  }

  lemma BumpClears(s: State, a: Action, m: Mark, overlooked: bool, newer: nat)
    requires Enabled(s, a) && IsBump(a) && Accounted(s, m, overlooked, newer)
    ensures Accounted(Step(s, a), m, false, 0)
  {
    hide Windows.LastN, EndsIn;
  }

  lemma MarkAgesEvidence(s: State, a: Action, m: Mark, overlooked: bool, newer: nat)
    requires Enabled(s, a) && Marks(s, a, m) && Accounted(s, m, overlooked, newer)
    ensures Accounted(Step(s, a), m, Carries(s), 0)
  {
    hide Windows.LastN;
    assert Count(Step(s, a), m) == Count(s, m) + 1 && Step(s, a).evidence == s.evidence;
    assert forall d :: d in s.evidence.window ==> Stamp(d, m) <= Count(s, m);
  }

  lemma OtherKeepsAccount(s: State, a: Action, m: Mark, overlooked: bool, newer: nat)
    requires Enabled(s, a) && !IsBump(a) && !Marks(s, a, m) && !a.FinishFresh? && Accounted(s, m, overlooked, newer)
    ensures Accounted(Step(s, a), m, overlooked, newer)
  {
    hide Windows.LastN, EndsIn;
    assert Count(Step(s, a), m) == Count(s, m) && Step(s, a).evidence.window == s.evidence.window;
  }

  lemma StepKeepsAccount(s: State, a: Action, m: Mark, overlooked: bool, newer: nat)
    requires Enabled(s, a) && Accounted(s, m, overlooked, newer)
    ensures var counts := a.FinishFresh? && InFlight(s) && Stamp(s.keeper.dial, m) == Count(s, m);
            Accounted(Step(s, a), m,
                      if IsBump(a) then false else if Marks(s, a, m) then Carries(s) else overlooked,
                      if IsBump(a) || Marks(s, a, m) then 0 else newer + (if counts then 1 else 0))
  {
    hide Windows.LastN, EndsIn, Step, Accounted, Stamp, Count, Carries;
    if a.FinishFresh? {
      FinishKeepsAccount(s, m, overlooked, newer);
    } else if IsBump(a) {
      BumpClears(s, a, m, overlooked, newer);
    } else if Marks(s, a, m) {
      MarkAgesEvidence(s, a, m, overlooked, newer);
    } else {
      OtherKeepsAccount(s, a, m, overlooked, newer);
    }
  }

  lemma {:induction false} RunKeepsAccount(run: seq<Action>, m: Mark)
    requires After(run).Some?
    ensures Accounted(After(run).value, m, Overlooked(run, m), Newer(run, m))
    decreases |run|
  {
    if |run| == 0 {
    } else {
      PrefixRuns(run);
      RunKeepsAccount(run[..|run| - 1], m);
      var init, a := run[..|run| - 1], run[|run| - 1];
      StepKeepsAccount(After(init).value, a, m, Overlooked(init, m), Newer(init, m));
    }
  }

  /** In every interleaving, whatever fails or is lost: a dial older than the last change of the leg
      (or the last write of the selector) is in the window or about to enter it exactly when that
      change (or write) found evidence, no bump has followed it, and fewer dials have been recorded
      since than the window holds. */
  lemma OldEvidenceExactlyWhen(run: seq<Action>, m: Mark)
    requires After(run).Some?
    ensures !Fresh(After(run).value, m) <==> Overlooked(run, m) && Newer(run, m) < Windows.DIAL_WINDOW
  {
    RunKeepsAccount(run, m);
  }

  // ---------------------------------------------------------------- leg changes

  /** Is some goroutine certain to bump the generation before evidence is read again? */
  predicate WillBump(s: State) {
    || s.keeper.EnterWritten? || s.keeper.BackLeft? || s.scheduler.Left?
    || (s.keeper.BackWritten? && s.onFallback)
    || (s.scheduler.Written? && s.onFallback && !s.keeper.Entered? && !s.keeper.SelectFailed?)
  }

  predicate Inv(s: State) {
    && (Fresh(s, LegChange) || WillBump(s))
    // a handoff waiting in one goroutine while the other takes the fallback away
    && (s.scheduler.Checked? && !s.onFallback ==> s.selector == Reality)
    && (s.scheduler.Checked? && (s.keeper.Entered? || s.keeper.SelectFailed?) ==> s.selector == Reality && s.onFallback)
    && (s.scheduler.Checked? && s.keeper.EnterWritten? ==> s.onFallback)
    && (s.keeper.BackWritten? ==> s.selector == Reality)
    && ((s.keeper.BackChecked? || s.keeper.BackWritten?) && !s.onFallback ==>
        s.evidence.window == [] || s.scheduler.Left?)
    && PastGeneration(s)
  }

  lemma StepKeepsInv(s: State, a: Action)
    requires Inv(s) && Enabled(s, a) && !IsLost(a)
    ensures Inv(Step(s, a))
  {
  }

  lemma {:induction false} RunKeepsInv(s: State, run: seq<Action>)
    requires Run(s, run).Some? && NoLostSelect(run) && Inv(s)
    ensures Inv(Run(s, run).value)
    decreases |run|
  {
    if |run| == 0 {
    } else {
      StepKeepsInv(s, run[0]);
      RunKeepsInv(Step(s, run[0]), run[1..]);
    }
  }

  /** No handoff is between its selector write and the end of its bump. */
  predicate Quiet(s: State) {
    !s.keeper.EnterWritten? && !s.keeper.BackWritten? && !s.keeper.BackLeft? && !s.scheduler.Written?
        && !s.scheduler.Left?
  }

  /** Evidence never crosses a handoff: in every interleaving in which no select was lost, whenever no
      handoff is between its write and its bump, every dial in the window, and one about to enter it,
      was started after the last change of the leg. */
  lemma EvidenceNeverCrossesALegChange(run: seq<Action>)
    requires After(run).Some? && NoLostSelect(run) && Quiet(After(run).value)
    ensures Fresh(After(run).value, LegChange)
  {
    RunKeepsInv(INITIAL, run);
  }

  /** The first lost select, whichever handoff loses it, leaves evidence about the other leg exactly
      when it changed the leg and found a dial recorded or in flight. */
  lemma LostSelectCrossesExactlyWhen(run: seq<Action>, a: Action)
    requires After(run + [a]).Some? && NoLostSelect(run) && IsLost(a) && Quiet(After(run + [a]).value)
    ensures After(run).Some?
    ensures var s := After(run).value;
            !Fresh(After(run + [a]).value, LegChange) <==> s.selector != Target(a) && Carries(s)
  {
    RunAppend(INITIAL, run, a);
    RunKeepsInv(INITIAL, run);
    var s := After(run).value;
    assert s.evidence.window != [] ==> s.evidence.window[0] in Step(s, a).evidence.window;
  }

  /** The fallback is entered. */
  const GO_TO_FALLBACK: seq<Action> := [Enter, EnterSelect, EnterBump]

  const ON_FALLBACK := State(Hy2, true, Evidence(1, [], []), Resting, Idle, 1, 1)

  lemma GoesToFallback()
    ensures Run(INITIAL, GO_TO_FALLBACK) == Some(ON_FALLBACK)
  {
  }

  /** An entry that gives up after a select that took effect. */
  const LOST_ENTRY: seq<Action> := [LoadFresh, SendFresh, FinishFresh, Enter, EnterSelectLost, EnterGivesUp]

  /** A handback that retains the fallback after a select that took effect. */
  const LOST_HANDBACK: seq<Action> := [LoadFresh, SendFresh, FinishFresh, BackCheck, BackSelectLost]

  lemma EntersLost()
    ensures Run(INITIAL, LOST_ENTRY) ==
            Some(State(Hy2, false, Evidence(0, [], [Dial(0, 0, 0)]), Resting, Idle, 1, 1))
  {
    assert [] + [Dial(0, 0, 0)] == [Dial(0, 0, 0)];
  }

  lemma HandsBackLost()
    ensures Run(ON_FALLBACK, LOST_HANDBACK) ==
            Some(State(Reality, true, Evidence(1, [], [Dial(1, 1, 1)]), Resting, Idle, 2, 2))
  {
    assert [] + [Dial(1, 1, 1)] == [Dial(1, 1, 1)];
  }

  /** Both ways there is such a run: nothing is under way, and the window holds a dial of the other leg. */
  lemma LostSelectCrosses()
    ensures var s := After(LOST_ENTRY);
            && s.Some? && Quiet(s.value) && s.value.selector == Hy2 && !s.value.onFallback
            && |s.value.evidence.window| == 1 && s.value.evidence.window[0].changes != s.value.changes
    ensures var s := After(GO_TO_FALLBACK + LOST_HANDBACK);
            && s.Some? && Quiet(s.value) && s.value.selector == Reality && s.value.onFallback
            && |s.value.evidence.window| == 1 && s.value.evidence.window[0].changes != s.value.changes
  {
    hide Run;
    EntersLost();
    GoesToFallback();
    HandsBackLost();
    RunConcat(INITIAL, GO_TO_FALLBACK, LOST_HANDBACK);
  }

  // ---------------------------------------------------------------- redundant writes

  /** Both goroutines hand traffic back: the scheduler's write comes after the other's bump, finds the
      fallback already left, and bumps nothing. */
  const ONE_HANDBACK: seq<Action> := [DueCheck, BackCheck, BackSelect, BackLeave, BackBump]
  const LATE_HANDBACK: seq<Action> := [LoadFresh, SendFresh, DueSelect, DueLeave, FinishFresh]

  const HANDED_BACK := State(Reality, false, Evidence(2, [], []), Resting, Checked, 2, 2)
  const HANDED_BACK_TWICE := State(Reality, false, Evidence(2, [], [Dial(2, 2, 2)]), Resting, Idle, 2, 3)

  lemma HandsBackOnce()
    ensures Run(ON_FALLBACK, ONE_HANDBACK) == Some(HANDED_BACK)
  {
  }

  lemma HandsBackLate()
    ensures Run(HANDED_BACK, LATE_HANDBACK) == Some(HANDED_BACK_TWICE)
  {
    assert [] + [Dial(2, 2, 2)] == [Dial(2, 2, 2)];
  }

  /** No select was lost, no handoff is under way, and the window holds a dial started before the last
      selector write. That write repeated the leg already in force. */
  lemma RedundantWriteIsNotBumped()
    ensures var run := GO_TO_FALLBACK + ONE_HANDBACK + LATE_HANDBACK;
            var s := After(run);
            && s.Some? && Quiet(s.value) && NoLostSelect(run)
            && |s.value.evidence.window| == 1
            && s.value.evidence.window[0].writes < s.value.writes
            && s.value.evidence.window[0].changes == s.value.changes
  {
    GoesToFallback();
    HandsBackOnce();
    HandsBackLate();
    hide Run;
    RunConcat(INITIAL, GO_TO_FALLBACK, ONE_HANDBACK);
    RunConcat(INITIAL, GO_TO_FALLBACK + ONE_HANDBACK, LATE_HANDBACK);
    assert NoLostSelect(GO_TO_FALLBACK) && NoLostSelect(ONE_HANDBACK) && NoLostSelect(LATE_HANDBACK);
  }

  /** The scheduler's handoff, from its write to its end. */
  function Settle(s: State): seq<Action> { if s.onFallback then [DueLeave, DueBump] else [DueLeave] }

  lemma SettleRuns(s: State)
    requires s.scheduler.Written?
    ensures Run(s, Settle(s)).Some? && Run(s, Settle(s)).value.scheduler.Idle?
    ensures PastGeneration(s) ==>
              (Fresh(Run(s, Settle(s)).value, AnyWrite) <==> s.onFallback || Fresh(s, AnyWrite))
  {
    if s.onFallback {
      assert [DueLeave, DueBump][1..] == [DueBump];
      assert [DueBump][1..] == [];
      RunNothing(Step(Step(s, DueLeave), DueBump));
    } else {
      assert [DueLeave][1..] == [];
      RunNothing(Step(s, DueLeave));
    }
  }

  /** In every interleaving, a handback of the scheduler leaves every dial of the window, and the one
      about to enter it, later than the last selector write exactly when it still holds the fallback it
      releases or its write found nothing older that is still there. */
  lemma HandbackIsCleanExactlyWhen(run: seq<Action>)
    requires After(run).Some? && After(run).value.scheduler.Written?
    ensures var s := After(run).value;
            && After(run + Settle(s)).Some?
            && (Fresh(After(run + Settle(s)).value, AnyWrite) <==>
                s.onFallback || !(Overlooked(run, AnyWrite) && Newer(run, AnyWrite) < Windows.DIAL_WINDOW))
  {
    hide Run, Fresh, Step;
    var s := After(run).value;
    RunKeepsAccount(run, AnyWrite);
    OldEvidenceExactlyWhen(run, AnyWrite);
    SettleRuns(s);
    RunConcat(INITIAL, run, Settle(s));
  }
}
