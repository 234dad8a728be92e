/** The two rolling windows of utils/state.go and utils/link.go and the latches read off them. */
module Windows {
  import opened Common

  function LastN<T>(h: seq<T>, n: nat): seq<T> { if |h| > n then h[|h| - n..] else h }

  lemma LastNAppend<T>(h: seq<T>, x: T, n: nat)
    ensures LastN(LastN(h, n) + [x], n) == LastN(h + [x], n)
  {
  }

  // ---------------------------------------------------------------- fresh dials

  const DIAL_WINDOW := 20
  const DIAL_SLOW_MS := 1000
  const DIAL_BAD_ENTER := 4
  const DIAL_BAD_LEAVE := 1

  datatype DialSample = DialSample(ms: int, ok: bool)

  predicate Bad(d: DialSample) { !d.ok || d.ms > DIAL_SLOW_MS }

  /** How many of the samples from..to are bad. */
  function BadIn(h: seq<DialSample>, from: nat, to: nat): nat
    requires from <= to <= |h|
  {
    if from == to then 0 else BadIn(h, from, to - 1) + (if Bad(h[to - 1]) then 1 else 0)
  }

  function FailsIn(h: seq<DialSample>, to: nat): nat
    requires to <= |h|
  {
    if to == 0 then 0 else FailsIn(h, to - 1) + (if !h[to - 1].ok then 1 else 0)
  }

  /** The bad dials among the last twenty of the first `k`. */
  function BadAt(h: seq<DialSample>, k: nat): nat
    requires k <= |h|
  {
    BadIn(h, if k > DIAL_WINDOW then k - DIAL_WINDOW else 0, k)
  }

  /** The latch after the first `k` dials: set by four bad ones in the window, released by a full
      window with at most one. */
  function LatchAt(h: seq<DialSample>, k: nat): bool
    requires k <= |h|
  {
    if k == 0 then false
    else if BadAt(h, k) >= DIAL_BAD_ENTER then true
    else if k >= DIAL_WINDOW && BadAt(h, k) <= DIAL_BAD_LEAVE then false
    else LatchAt(h, k - 1)
  }

  lemma {:induction false} BadInShift(h: seq<DialSample>, j: nat, from: nat, to: nat)
    requires j <= |h| && from <= to && j + to <= |h|
    ensures BadIn(h[j..], from, to) == BadIn(h, j + from, j + to)
  {
    if from == to {
    } else {
      BadInShift(h, j, from, to - 1);
    }
  }

  lemma {:induction false} BadInPrefix(h: seq<DialSample>, g: seq<DialSample>, from: nat, to: nat)
    requires from <= to <= |h| && h <= g
    ensures BadIn(g, from, to) == BadIn(h, from, to)
  {
    if from == to {
    } else {
      BadInPrefix(h, g, from, to - 1);
    }
  }

  lemma {:induction false} LatchPrefix(h: seq<DialSample>, g: seq<DialSample>, k: nat)
    requires k <= |h| && h <= g
    ensures LatchAt(g, k) == LatchAt(h, k)
  {
    if k == 0 {
    } else {
      BadInPrefix(h, g, if k > DIAL_WINDOW then k - DIAL_WINDOW else 0, k);
      LatchPrefix(h, g, k - 1);
    }
  }

  class DialState {
    var dialSamples: seq<DialSample>
    var slowNewFlows: bool
    var lastDialMs: int
    var lastDialAt: Option<int>
    var lastDialFailed: bool
    ghost var history: seq<DialSample>  // every outcome since the last reset

    ghost predicate Valid()
      reads this
    {
      && dialSamples == LastN(history, DIAL_WINDOW)
      && slowNewFlows == LatchAt(history, |history|)
    }

    constructor ()
      ensures Valid() && history == []
    {
      dialSamples, slowNewFlows, lastDialMs, lastDialAt, lastDialFailed := [], false, 0, None, false;
      history := [];
    }

    method DialBad() returns (bad: nat)
      requires dialSamples == LastN(history, DIAL_WINDOW)
      ensures bad == BadAt(history, |history|)
    {
      bad := 0;
      for i := 0 to |dialSamples|
        invariant bad == BadIn(dialSamples, 0, i)
      {
        if !dialSamples[i].ok || dialSamples[i].ms > DIAL_SLOW_MS {
          bad := bad + 1;
        }
      }
      BadInShift(history, |history| - |dialSamples|, 0, |dialSamples|);
    }

    /** The dials that carried nothing: a part of the bad ones. */
    method DialFails() returns (fails: nat)
      requires Valid()
      ensures fails == FailsIn(LastN(history, DIAL_WINDOW), |LastN(history, DIAL_WINDOW)|)
      ensures fails <= BadAt(history, |history|)
    {
      fails := 0;
      for i := 0 to |dialSamples|
        invariant fails == FailsIn(dialSamples, i) <= BadIn(dialSamples, 0, i)
      {
        if !dialSamples[i].ok {
          fails := fails + 1;
        }
      }
      BadInShift(history, |history| - |dialSamples|, 0, |dialSamples|);
    }

    method UpdateNewFlowLatch()
      requires dialSamples == LastN(history, DIAL_WINDOW) && |history| > 0
      requires slowNewFlows == LatchAt(history, |history| - 1)
      modifies `slowNewFlows
      ensures Valid()
    {
      var bad := DialBad();
      if bad >= DIAL_BAD_ENTER {
        slowNewFlows := true;
      } else if |dialSamples| == DIAL_WINDOW && bad <= DIAL_BAD_LEAVE {
        slowNewFlows := false;
      }
    }

    /** The newest outcome enters the window and the one before the last twenty leaves it. */
    method Push(sample: DialSample)
      requires Valid()
      modifies `dialSamples, `history
      ensures history == old(history) + [sample] && dialSamples == LastN(history, DIAL_WINDOW)
      ensures slowNewFlows == LatchAt(history, |history| - 1)
    {
      hide LatchAt;
      LatchPrefix(history, history + [sample], |history|);
      LastNAppend(history, sample, DIAL_WINDOW);
      history := history + [sample];
      dialSamples := dialSamples + [sample];
      var n := |dialSamples|;
      if n > DIAL_WINDOW {
        dialSamples := dialSamples[n - DIAL_WINDOW..];
      }
    }

    /** A failed dial records no time. */
    method RecordDial(ms: int, failed: bool, now: int)
      requires Valid()
      modifies this
      ensures Valid() && history == old(history) + [DialSample(if failed then 0 else ms, !failed)]
      ensures lastDialAt == Some(now) && lastDialFailed == failed && lastDialMs == (if failed then 0 else ms)
    {
      hide LatchAt, LastN;
      lastDialAt := Some(now);
      var sample := DialSample(ms, !failed);
      if failed {
        lastDialMs := 0;
        lastDialFailed := true;
        sample := sample.(ms := 0);
      } else {
        lastDialMs := ms;
        lastDialFailed := false;
      }
      Push(sample);
      UpdateNewFlowLatch();
    }

    method ResetDials()
      modifies this
      ensures Valid() && history == [] && lastDialAt.None? && !slowNewFlows
    {
      dialSamples := [];
      lastDialAt := None;
      slowNewFlows := false;
      history := [];
    }
  }

  lemma {:induction false} BadInFront(h: seq<DialSample>, from: nat, to: nat)
    requires from < to <= |h|
    ensures BadIn(h, from, to) == (if Bad(h[from]) then 1 else 0) + BadIn(h, from + 1, to)
  {
    if from + 1 == to {
    } else {
      BadInFront(h, from, to - 1);
    }
  }

  lemma BadAtStep(h: seq<DialSample>, k: nat)
    requires k < |h|
    ensures -1 <= BadAt(h, k + 1) - BadAt(h, k) <= 1
  {
    if k >= DIAL_WINDOW {
      BadInFront(h, k - DIAL_WINDOW, k);
    }
  }

  lemma {:induction false} BadAtDistance(h: seq<DialSample>, i: nat, j: nat)
    requires i <= j <= |h|
    ensures i - j <= BadAt(h, j) - BadAt(h, i) <= j - i
  {
    if i == j {
    } else {
      BadAtDistance(h, i, j - 1);
      BadAtStep(h, j - 1);
    }
  }

  /** Step j sets the latch, and no step since has released it. */
  ghost predicate SetAt(h: seq<DialSample>, j: nat, k: nat)
    requires k <= |h|
  {
    0 < j <= k && BadAt(h, j) >= 4 && forall m :: j < m <= k ==> m < 20 || BadAt(h, m) > 1
  }

  /** The latch is set exactly when the window once held four bad dials and has not since been full
      with at most one. */
  lemma {:induction false} LatchedExactlyWhen(h: seq<DialSample>, k: nat)
    requires k <= |h|
    ensures LatchAt(h, k) <==> exists j: nat :: SetAt(h, j, k)
  {
    if k == 0 {
    } else {
      LatchedExactlyWhen(h, k - 1);
      if BadAt(h, k) >= 4 {
        assert SetAt(h, k, k);
      } else {
        if LatchAt(h, k) {
          var j: nat :| SetAt(h, j, k - 1);
          assert SetAt(h, j, k);
        }
        if j: nat :| SetAt(h, j, k) {
          assert SetAt(h, j, k - 1);
        }
      }
    }
  }

  predicate RisesAt(h: seq<DialSample>, k: nat) { 0 < k <= |h| && !LatchAt(h, k - 1) && LatchAt(h, k) }

  predicate FallsAt(h: seq<DialSample>, k: nat) { 0 < k <= |h| && LatchAt(h, k - 1) && !LatchAt(h, k) }

  /** The latch cannot flap: at least three dials lie between any rise and any later fall, and
      between any fall and any later rise. */
  lemma LatchEdgesAreSpaced(h: seq<DialSample>, i: nat, j: nat)
    requires i < j && ((RisesAt(h, i) && FallsAt(h, j)) || (FallsAt(h, i) && RisesAt(h, j)))
    ensures j - i >= DIAL_BAD_ENTER - DIAL_BAD_LEAVE
  {
    BadAtDistance(h, i, j);
  }

  // ---------------------------------------------------------------- gateway echoes

  const LINK_WINDOW := 12
  const LINK_BAD_LOSS := 3
  const LINK_OK_LOSS := 1
  const LINK_BAD_MEDIAN_MS := 200
  const LINK_OK_MEDIAN_MS := 100

  datatype LinkSample = LinkSample(ms: int, ok: bool)

  /** One recorded echo and when it was recorded. */
  datatype Echo = Echo(sample: LinkSample, at: int)

  function Samples(h: seq<Echo>): seq<LinkSample> { seq(|h|, i requires 0 <= i < |h| => h[i].sample) }

  function Answered(w: seq<LinkSample>): seq<int> {
    if |w| == 0 then []
    else Answered(w[..|w| - 1]) + (if w[|w| - 1].ok then [w[|w| - 1].ms] else [])
  }

  function Lost(w: seq<LinkSample>): nat { if |w| == 0 then 0 else Lost(w[..|w| - 1]) + (if w[|w| - 1].ok then 0 else 1) }

  lemma {:induction false} LostOrAnswered(w: seq<LinkSample>)
    ensures Lost(w) + |Answered(w)| == |w|
  {
    if |w| == 0 {
    } else {
      LostOrAnswered(w[..|w| - 1]);
    }
  }

  function Median(w: seq<LinkSample>): int {
    var ms := SortInts(Answered(w));
    if |ms| == 0 then 0 else ms[|ms| / 2]
  }

  /** More than half of the answered echoes are faster than `t`. */
  predicate MostlyBelow(w: seq<LinkSample>, t: int) {
    |Answered(w)| == 0 || CountBelow(Answered(w), t) > |Answered(w)| / 2
  }

  predicate Straining(w: seq<LinkSample>) {
    !MostlyBelow(w, LINK_BAD_MEDIAN_MS) || (Lost(w) >= LINK_BAD_LOSS && !MostlyBelow(w, LINK_OK_MEDIAN_MS))
  }

  predicate Sound(w: seq<LinkSample>) { Lost(w) <= LINK_OK_LOSS && MostlyBelow(w, LINK_OK_MEDIAN_MS) }

  /** The verdict after a history, with the time of the echo that last made it bad: undecided until
      the window is full, then bad on a straining window and good again only on a sound one. */
  function LinkVerdict(h: seq<Echo>): Option<int> {
    if |h| == 0 then None
    else
      var before := LinkVerdict(h[..|h| - 1]);
      var w := LastN(Samples(h), LINK_WINDOW);
      if |h| < LINK_WINDOW then before
      else if Straining(w) then (if before.None? then Some(h[|h| - 1].at) else before)
      else if Sound(w) then None
      else before
  }

  class LinkState {
    var linkSamples: seq<LinkSample>
    var linkBad: bool
    var linkBadSince: Option<int>
    var linkLastAt: Option<int>
    ghost var history: seq<Echo>  // every echo since the last reset

    ghost predicate Valid()
      reads this
    {
      && linkSamples == LastN(Samples(history), LINK_WINDOW)
      && linkBadSince == LinkVerdict(history)
      && linkBad == linkBadSince.Some?
    }

    constructor ()
      ensures Valid() && history == []
    {
      linkSamples, linkBad, linkBadSince, linkLastAt := [], false, None, None;
      history := [];
    }

    method LinkLoss() returns (lost: nat)
      ensures lost == Lost(linkSamples)
    {
      lost := 0;
      for i := 0 to |linkSamples|
        invariant lost == Lost(linkSamples[..i])
      {
        assert linkSamples[..i + 1][..i] == linkSamples[..i];
        if !linkSamples[i].ok {
          lost := lost + 1;
        }
      }
      assert linkSamples[..|linkSamples|] == linkSamples;
    }

    /** The median is below a threshold exactly when most answered echoes are. */
    method LinkMedianMs() returns (med: int)
      ensures med == Median(linkSamples)
      ensures forall t :: t > 0 ==> (med < t <==> MostlyBelow(linkSamples, t))
    {
      var ms: seq<int> := [];
      for i := 0 to |linkSamples|
        invariant ms == Answered(linkSamples[..i])
      {
        assert linkSamples[..i + 1][..i] == linkSamples[..i];
        if linkSamples[i].ok {
          ms := ms + [linkSamples[i].ms];
        }
      }
      assert linkSamples[..|linkSamples|] == linkSamples;
      if |ms| == 0 {
        return 0;
      }
      forall t ensures SortInts(ms)[|ms| / 2] < t <==> CountBelow(ms, t) > |ms| / 2 {
        MedianBelow(ms, t);
      }
      ms := SortInts(ms);
      return ms[|ms| / 2];
    }

    method RecordLink(ms: int, ok: bool, now: int)
      requires Valid()
      modifies this
      ensures Valid() && history == old(history) + [Echo(LinkSample(ms, ok), now)] && linkLastAt == Some(now)
    {
      hide LinkVerdict;
      ghost var before := history;
      history := history + [Echo(LinkSample(ms, ok), now)];
      assert history[..|history| - 1] == before;
      assert Samples(history) == Samples(before) + [LinkSample(ms, ok)];
      LastNAppend(Samples(before), LinkSample(ms, ok), LINK_WINDOW);
      linkSamples := linkSamples + [LinkSample(ms, ok)];
      var n := |linkSamples|;
      if n > LINK_WINDOW {
        linkSamples := linkSamples[n - LINK_WINDOW..];
      }
      linkLastAt := Some(now);
      UpdateLinkLatch(now);
    }

    method UpdateLinkLatch(now: int)
      requires |history| > 0 && history[|history| - 1].at == now
      requires linkSamples == LastN(Samples(history), LINK_WINDOW)
      requires linkBadSince == LinkVerdict(history[..|history| - 1]) && linkBad == linkBadSince.Some?
      modifies `linkBad, `linkBadSince
      ensures Valid()
    {
      if |linkSamples| < LINK_WINDOW {
        return;
      }
      var loss := LinkLoss();
      var med := LinkMedianMs();
      if med >= LINK_BAD_MEDIAN_MS || (loss >= LINK_BAD_LOSS && med >= LINK_OK_MEDIAN_MS) {
        if !linkBad {
          linkBadSince := Some(now);
        }
        linkBad := true;
      } else if loss <= LINK_OK_LOSS && med < LINK_OK_MEDIAN_MS {
        linkBad := false;
        linkBadSince := None;
      }
    }

    method ResetLink()
      modifies this
      ensures Valid() && history == [] && !linkBad
    {
      linkSamples := [];
      linkBad := false;
      linkBadSince := None;
      history := [];
    }
  }

  /** Echo j convicts the link, and none since has cleared it: the window was full, and either at least
      half of the answered echoes took 200 ms, or three were lost and at least half took 100 ms; since
      then it has not had at most one lost and most answered within 100 ms. */
  ghost predicate ConvictedAt(h: seq<Echo>, j: nat) {
    && 0 < j <= |h| && StrainingAt(h, j)
    && forall m: nat :: j < m <= |h| ==> !SoundAt(h, m)
  }

  function WindowAt(h: seq<Echo>, k: nat): seq<LinkSample>
    requires k <= |h|
  {
    LastN(Samples(h[..k]), LINK_WINDOW)
  }

  ghost predicate StrainingAt(h: seq<Echo>, k: nat)
    requires k <= |h|
  {
    var w := WindowAt(h, k);
    k >= 12 && (!MostlyBelow(w, 200) || (Lost(w) >= 3 && !MostlyBelow(w, 100)))
  }

  ghost predicate SoundAt(h: seq<Echo>, k: nat)
    requires k <= |h|
  {
    var w := WindowAt(h, k);
    k >= 12 && Lost(w) <= 1 && MostlyBelow(w, 100)
  }

  lemma {:induction false} CountBelowMonotone(s: seq<int>, a: int, b: int)
    requires a <= b
    ensures CountBelow(s, a) <= CountBelow(s, b)
  {
    if |s| == 0 {
    } else {
      CountBelowMonotone(s[1..], a, b);
    }
  }

  /** Straining and sound windows exclude each other. */
  lemma NotBoth(w: seq<LinkSample>)
    ensures !(Straining(w) && Sound(w))
  {
    CountBelowMonotone(Answered(w), LINK_OK_MEDIAN_MS, LINK_BAD_MEDIAN_MS);
  }

  lemma ConvictedBefore(h: seq<Echo>, j: nat)
    requires |h| > 0 && j < |h|
    ensures ConvictedAt(h, j) <==> ConvictedAt(h[..|h| - 1], j) && !SoundAt(h, |h|)
  {
    var init := h[..|h| - 1];
    forall m: nat | m < |h| ensures init[..m] == h[..m] {
    }
    assert forall m: nat :: m < |h| ==> (SoundAt(init, m) <==> SoundAt(h, m));
    assert forall m: nat :: m < |h| ==> (StrainingAt(init, m) <==> StrainingAt(h, m));
  }

  lemma VerdictMoves(h: seq<Echo>)
    requires |h| > 0
    ensures LinkVerdict(h).Some? <==>
            StrainingAt(h, |h|) || (LinkVerdict(h[..|h| - 1]).Some? && !SoundAt(h, |h|))
    ensures !(StrainingAt(h, |h|) && SoundAt(h, |h|))
  {
    assert h[..|h|] == h;
    NotBoth(WindowAt(h, |h|));
  }

  /** The link is bad exactly when a full window once convicted it and none since was sound. */
  lemma {:induction false} LinkIsBadExactlyWhen(h: seq<Echo>)
    ensures LinkVerdict(h).Some? <==> exists j: nat :: ConvictedAt(h, j)
  {
    if |h| == 0 {
    } else {
      var init, n := h[..|h| - 1], |h|;
      LinkIsBadExactlyWhen(init);
      VerdictMoves(h);
      hide LinkVerdict, StrainingAt, SoundAt;
      if StrainingAt(h, n) {
        assert ConvictedAt(h, n);
      } else {
        if j: nat :| ConvictedAt(init, j) {
          ConvictedBefore(h, j);
        }
        if j: nat :| ConvictedAt(h, j) {
          ConvictedBefore(h, j);
        }
      }
    }
  }

  function VerdictAt(h: seq<Echo>, k: nat): Option<int>
    requires k <= |h|
  {
    LinkVerdict(h[..k])
  }

  /** Echo j turned the verdict bad, and it has stayed so. */
  ghost predicate TurnedBadAt(h: seq<Echo>, j: nat) {
    && 0 < j <= |h| && VerdictAt(h, j - 1).None?
    && forall m: nat :: j <= m <= |h| ==> VerdictAt(h, m) == Some(h[j - 1].at)
  }

  lemma VerdictAtPrefix(h: seq<Echo>, m: nat)
    requires |h| > 0 && m < |h|
    ensures VerdictAt(h[..|h| - 1], m) == VerdictAt(h, m)
  {
    assert h[..|h| - 1][..m] == h[..m];
  }

  /** A bad verdict dates from the echo that turned it bad. */
  lemma {:induction false} BadSinceItsConviction(h: seq<Echo>)
    requires LinkVerdict(h).Some?
    ensures exists j: nat :: TurnedBadAt(h, j)
  {
    var init, n := h[..|h| - 1], |h|;
    assert h[..n] == h && VerdictAt(h, n - 1) == LinkVerdict(init);
    if LinkVerdict(init).None? {
      assert TurnedBadAt(h, n);
    } else {
      BadSinceItsConviction(init);
      var j: nat :| TurnedBadAt(init, j);
      hide LinkVerdict, TurnedBadAt;
      DatedAs(h, j);
    }
  }

  lemma DatedAs(h: seq<Echo>, j: nat)
    requires |h| > 0 && LinkVerdict(h).Some? && LinkVerdict(h[..|h| - 1]).Some? && TurnedBadAt(h[..|h| - 1], j)
    ensures TurnedBadAt(h, j)
  {
    var init, n := h[..|h| - 1], |h|;
    assert h[..n] == h && init[..n - 1] == init;
    assert VerdictAt(init, n - 1) == Some(init[j - 1].at);
    assert LinkVerdict(h) == LinkVerdict(init);
    hide LinkVerdict;
    VerdictAtPrefix(h, j - 1);
    forall m: nat | j <= m <= n ensures VerdictAt(h, m) == Some(h[j - 1].at) {
      if m < n {
        VerdictAtPrefix(h, m);
      }
    }
  }

  /** Lost echoes alone never convict the link: while most answered ones come back in time the
      verdict does not turn bad, however many are lost. */
  lemma LossAloneNeverConvicts(h: seq<Echo>)
    requires |h| > 0 && LinkVerdict(h[..|h| - 1]).None?
    requires MostlyBelow(LastN(Samples(h), LINK_WINDOW), LINK_OK_MEDIAN_MS)
    ensures LinkVerdict(h).None?
  {
    var ms := Answered(LastN(Samples(h), LINK_WINDOW));
    CountBelowMonotone(ms, LINK_OK_MEDIAN_MS, LINK_BAD_MEDIAN_MS);
  }
}
