/** core/schedule.go: the ladder of bandwidth ceilings, and the ceiling the clock selects. */
module BandwidthSchedule {
  import opened Common
  import opened Tags

  const STANDARD_RUNGS := [1, 2, 3, 5, 8, 12, 20, 30, 50, 65, 80, 100, 150, 200, 300]
  const DEFAULT_UP_MBPS := 5
  const DEFAULT_DOWN_MBPS := 20

  datatype Profile = Profile(name: string, up: int, down: int)

  datatype Schedule = Schedule(offUp: int, offDown: int, peakUp: int, peakDown: int, startHour: int, endHour: int) {

    predicate Enabled() { peakDown > 0 }

    /** A window whose start is after its end wraps past midnight. */
    predicate InPeak(hour: int) {
      if startHour == endHour then false
      else if startHour < endHour then startHour <= hour < endHour
      else hour >= startHour || hour < endHour
    }

    function ProfileAt(hour: int): Profile {
      if Enabled() && InPeak(hour) then Profile("peak", peakUp, peakDown) else Profile("offpeak", offUp, offDown)
    }

    function Member(hour: int): string { BandwidthRungTag(ProfileAt(hour).down) }

    function Ceiling(): int { Max(offDown, peakDown) }

    /** Which ceilings the ladder offers. */
    predicate IsRung(n: int) {
      offDown > 0 && n > 0 && (n == offDown || n == peakDown || (n in STANDARD_RUNGS && n < Ceiling()))
    }

    /** The ladder, lowest rung first. */
    function Rungs(): (r: seq<int>)
      ensures Ascending(r) && forall n :: n in r <==> IsRung(n)
    {
      if offDown <= 0 then []
      else
        var standard := Below(STANDARD_RUNGS, Ceiling());
        var withOff := Include(offDown, standard);
        if peakDown > 0 then Include(peakDown, withOff) else withOff
    }

    predicate HasRung(down: int) { down in Rungs() }

    function StepDown(down: int, steps: nat): int {
      if |Rungs()| == 0 then 0 else Rungs()[Max(0, Snap(Rungs(), down) - steps)]
    }

    /** Never zero: a zero up ceiling would take the rung out of Brutal. */
    function RungUp(down: int): (up: int)
      ensures up >= 1
      ensures down == offDown && offUp > 0 ==> up == offUp
      ensures down != offDown && down == peakDown && peakUp > 0 ==> up == peakUp
    {
      if down == offDown && offUp > 0 then offUp
      else if down == peakDown && peakUp > 0 then peakUp
      else if offUp > 0 && offDown > 0 && down * offUp / offDown > 0 then down * offUp / offDown
      else 1
    }
  }

  function Below(s: seq<int>, max: int): (r: seq<int>)
    requires Ascending(s)
    ensures Ascending(r) && forall n :: n in r <==> n in s && n < max
  {
    if |s| == 0 || s[0] >= max then []
    else
      assert s == [s[0]] + s[1..];
      var rest := Below(s[1..], max);
      assert forall i :: 0 <= i < |rest| ==> rest[i] in rest;
      [s[0]] + rest
  }

  function Include(n: int, s: seq<int>): (r: seq<int>)
    requires Ascending(s)
    ensures Ascending(r) && forall x :: x in r <==> x == n || x in s
  {
    if |s| == 0 || n < s[0] then [n] + s
    else if n == s[0] then s
    else
      assert s == [s[0]] + s[1..];
      var rest := Include(n, s[1..]);
      assert forall i :: 0 <= i < |rest| ==> rest[i] in rest;
      [s[0]] + rest
  }

  /** The index of the highest rung at or below `down`, or of the bottom rung. */
  function Snap(rungs: seq<int>, down: int): (i: nat)
    ensures |rungs| > 0 ==> i < |rungs|
  {
    if |rungs| <= 1 then 0
    else if rungs[|rungs| - 1] <= down then |rungs| - 1
    else Snap(rungs[..|rungs| - 1], down)
  }

  // ---------------------------------------------------------------- as the source computes them

  method ComputeRungs(s: Schedule) returns (out: seq<int>)
    ensures out == s.Rungs()
  {
    if s.offDown <= 0 {
      return [];
    }
    var seen: set<int> := {};
    out := [];
    seen, out := Add(s.offDown, seen, out);
    seen, out := Add(s.peakDown, seen, out);
    var max := s.offDown;
    if s.peakDown > max {
      max := s.peakDown;
    }
    for i := 0 to |STANDARD_RUNGS|
      invariant Distinct(out, seen)
      invariant forall n :: n in seen <==>
          (n > 0 && (n == s.offDown || n == s.peakDown || (n in STANDARD_RUNGS[..i] && n < max)))
    {
      var n := STANDARD_RUNGS[i];
      assert STANDARD_RUNGS[..i + 1] == STANDARD_RUNGS[..i] + [n];
      if n < max {
        seen, out := Add(n, seen, out);
      }
    }
    SortDistinct(out);
    assert STANDARD_RUNGS[..|STANDARD_RUNGS|] == STANDARD_RUNGS;
    AscendingUnique(SortInts(out), s.Rungs());
    out := SortInts(out);
  }

  ghost predicate Distinct(out: seq<int>, seen: set<int>) {
    && (forall i, j :: 0 <= i < j < |out| ==> out[i] != out[j])
    && (forall n :: n in seen <==> n in out)
  }

  method Add(n: int, seen: set<int>, out: seq<int>) returns (seen': set<int>, out': seq<int>)
    requires Distinct(out, seen)
    ensures Distinct(out', seen')
    ensures seen' == if n > 0 then seen + {n} else seen
  {
    seen', out' := seen, out;
    if n > 0 && n !in seen {
      seen' := seen + {n};
      out' := out + [n];
    }
  }

  lemma InsertNew(n: int, s: seq<int>)
    requires Ascending(s) && n !in s
    ensures Ascending(InsertSorted(n, s))
  {
    if |s| > 0 && n > s[0] {
      InsertNew(n, s[1..]);
      assert forall x :: x in s[1..] ==> x in s;
      var rest := InsertSorted(n, s[1..]);
      assert forall i :: 0 <= i < |rest| ==> rest[i] in rest;
    }
  }

  lemma {:induction false} SortDistinct(s: seq<int>)
    requires forall i, j :: 0 <= i < j < |s| ==> s[i] != s[j]
    ensures Ascending(SortInts(s))
  {
    if |s| == 0 {
    } else {
      SortDistinct(s[..|s| - 1]);
      InsertNew(s[|s| - 1], SortInts(s[..|s| - 1]));
    }
  }

  method ComputeHasRung(s: Schedule, down: int) returns (found: bool)
    ensures found == s.HasRung(down)
  {
    var rungs := ComputeRungs(s);
    for i := 0 to |rungs|
      invariant down !in rungs[..i]
    {
      if rungs[i] == down {
        return true;
      }
    }
    return false;
  }

  method ComputeStepDown(s: Schedule, down: int, steps: nat) returns (r: int)
    ensures r == s.StepDown(down, steps)
  {
    var rungs := ComputeRungs(s);
    if |rungs| == 0 {
      return 0;
    }
    var i := 0;
    assert Snap(rungs[..0], down) == 0;
    hide Snap, Schedule.Rungs;
    for j := 0 to |rungs|
      invariant 0 <= i < |rungs| && i == Snap(rungs[..j], down)
    {
      assert rungs[..j + 1][..j] == rungs[..j];
      SnapPrefix(rungs, down, j);
      if rungs[j] <= down {
        i := j;
      }
    }
    assert rungs[..|rungs|] == rungs;
    i := i - steps;
    if i < 0 {
      i := 0;
    }
    return rungs[i];
  }

  lemma SnapPrefix(rungs: seq<int>, down: int, j: nat)
    requires j < |rungs|
    ensures Snap(rungs[..j + 1], down) == if rungs[j] <= down then j else Snap(rungs[..j], down)
  {
    assert rungs[..j + 1][..j] == rungs[..j];
  }

  // ---------------------------------------------------------------- laws of the ladder

  /** Every ladder starts at 1 Mbps, so there is always a rung at or below any ceiling of 1 or more. */
  lemma BottomRung(s: Schedule)
    ensures s.offDown > 0 ==> |s.Rungs()| > 0 && s.Rungs()[0] == 1
    ensures s.offDown <= 0 ==> s.Rungs() == []
  {
  }

  lemma {:induction false} SnapBelow(rungs: seq<int>, down: int)
    requires Ascending(rungs) && |rungs| > 0
    ensures rungs[0] <= down ==> rungs[Snap(rungs, down)] <= down
    ensures forall k :: Snap(rungs, down) < k < |rungs| ==> rungs[k] > down
  {
    if |rungs| > 1 && rungs[|rungs| - 1] > down {
      SnapBelow(rungs[..|rungs| - 1], down);
    }
  }

  lemma SnapExact(rungs: seq<int>, k: nat)
    requires Ascending(rungs) && k < |rungs|
    ensures Snap(rungs, rungs[k]) == k
  {
  }

  /** Descending never leaves the ladder and never raises a ceiling of 1 or more; from a rung, one
      or more steps go strictly down unless it is the bottom rung. */
  lemma StepDownDescends(s: Schedule, down: int, steps: nat)
    ensures s.offDown > 0 ==> s.HasRung(s.StepDown(down, steps))
    ensures down >= 1 ==> s.StepDown(down, steps) <= down
    ensures s.HasRung(down) && steps >= 1 ==> s.StepDown(down, steps) < down || s.StepDown(down, steps) == down == 1
  {
    BottomRung(s);
    if s.offDown > 0 {
      SnapBelow(s.Rungs(), down);
      if s.HasRung(down) {
        var k :| 0 <= k < |s.Rungs()| && s.Rungs()[k] == down;
        SnapExact(s.Rungs(), k);
      }
    }
  }

  /** A single step from a rung goes to the next rung below it. */
  lemma StepDownSkipsNothing(s: Schedule, down: int)
    requires s.HasRung(down)
    ensures forall n :: s.HasRung(n) && n > s.StepDown(down, 1) ==> n >= down
  {
    hide Schedule.Rungs, Snap;
    BottomRung(s);
    var k :| 0 <= k < |s.Rungs()| && s.Rungs()[k] == down;
    SnapExact(s.Rungs(), k);
    forall n | s.HasRung(n) && n > s.StepDown(down, 1) ensures n >= down {
      var j :| 0 <= j < |s.Rungs()| && s.Rungs()[j] == n;
      assert Ascending(s.Rungs());
    }
  }

  /** Descending is an action of the natural numbers: steps add up. */
  lemma StepDownComposes(s: Schedule, down: int, a: nat, b: nat)
    ensures s.StepDown(s.StepDown(down, a), b) == s.StepDown(down, a + b)
    ensures s.HasRung(down) ==> s.StepDown(down, 0) == down
  {
    hide Schedule.Rungs, Snap;
    BottomRung(s);
    if s.offDown > 0 {
      var k := Max(0, Snap(s.Rungs(), down) - a);
      SnapExact(s.Rungs(), k);
      if s.HasRung(down) {
        var i :| 0 <= i < |s.Rungs()| && s.Rungs()[i] == down;
        SnapExact(s.Rungs(), i);
      }
    }
  }

  /** A rung without a measured partner keeps the off-peak ratio, rounded down, unless that is zero. */
  lemma RungUpKeepsTheRatio(s: Schedule, down: int)
    requires s.offUp > 0 && s.offDown > 0 && down != s.offDown && down != s.peakDown && down > 0
    ensures var up := s.RungUp(down);
            down * s.offUp < (up + 1) * s.offDown && (up > 1 ==> up * s.offDown <= down * s.offUp)
  {
  }

  /** The peak window is the arc of the clock from its start to its end, wrapping or not, and decides
      which of the two profiles is in force. */
  lemma PeakIsAnArcOfTheClock(s: Schedule, hour: int)
    requires 0 <= hour < 24 && 0 <= s.startHour < 24 && 0 <= s.endHour < 24
    ensures s.InPeak(hour) <==> (hour - s.startHour) % 24 < (s.endHour - s.startHour) % 24
    ensures var peak := s.peakDown > 0 && (hour - s.startHour) % 24 < (s.endHour - s.startHour) % 24;
            && s.ProfileAt(hour) == (if peak then Profile("peak", s.peakUp, s.peakDown)
                                     else Profile("offpeak", s.offUp, s.offDown))
            && s.Member(hour) == BandwidthRungTag(if peak then s.peakDown else s.offDown)
  {
  }

  /** Exchanging the ends of a peak window, wrapping or not, exchanges peak and off-peak hours. */
  lemma SwappedWindowIsTheComplement(s: Schedule, hour: int)
    requires 0 <= hour < 24 && 0 <= s.startHour < 24 && 0 <= s.endHour < 24 && s.startHour != s.endHour
    ensures s.InPeak(hour) <==> !s.(startHour := s.endHour, endHour := s.startHour).InPeak(hour)
  {
  }

  /** Every ceiling the clock can select is a rung with a tag of its own. */
  lemma ClockSelectsRungs(s: Schedule, hour: int)
    requires s.offDown > 0
    ensures s.HasRung(s.ProfileAt(hour).down)
  {
  }
}
