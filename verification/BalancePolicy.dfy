/** The dual-routing policy of core/balance_policy.go: how source ports are cut into lanes, and
    when a leg counts as healthy enough to carry lanes. */
module BalancePolicy {
  import opened Common

  const BALANCE_LANES := 8
  const PORT_BLOCK := 32
  const MAX_PORT := 65535
  const BANDS := 256  // bands of one lane in the port space
  const DEFAULT_HY2_LANES := 2

  // ---------------------------------------------------------------- port bands

  /** One "low:high" entry of a source_port_range list, both ends included. */
  datatype PortRange = PortRange(low: int, high: int) {
    predicate Contains(port: int) { low <= port <= high }
  }

  predicate InRanges(ranges: seq<PortRange>, port: int) {
    exists i :: 0 <= i < |ranges| && ranges[i].Contains(port)
  }

  /** The lane that owns a source port. */
  function LaneOf(port: nat): int { port / PORT_BLOCK % BALANCE_LANES }

  /** The bands of one lane in ascending order; source port zero belongs to no band. */
  function PortRangesOf(lane: int): seq<PortRange> {
    if 0 <= lane < BALANCE_LANES then
      seq(BANDS, k =>
        var low := lane * PORT_BLOCK + BALANCE_LANES * PORT_BLOCK * k;
        PortRange(if low == 0 then 1 else low, low + PORT_BLOCK - 1))
    else []
  }

  method BalancePortRanges(lane: int) returns (ranges: seq<PortRange>)
    ensures ranges == PortRangesOf(lane)
  {
    ranges := [];
    if lane < 0 || lane >= BALANCE_LANES {
      return;
    }
    var low := lane * PORT_BLOCK;
    while low <= MAX_PORT
      invariant |ranges| <= BANDS && low == lane * PORT_BLOCK + BALANCE_LANES * PORT_BLOCK * |ranges|
      invariant ranges == PortRangesOf(lane)[..|ranges|]
    {
      var high := low + PORT_BLOCK - 1;
      if low == 0 {
        low, high := 1, PORT_BLOCK - 1;
      }
      if high > MAX_PORT {
        high := MAX_PORT;
      }
      ranges := ranges + [PortRange(low, high)];
      if low == 1 {
        low := 0;
      }
      low := low + BALANCE_LANES * PORT_BLOCK;
    }
  }

  /** The bands of all lanes are an exact partition of 1..65535: a port lies in band `port / 256`
      of lane `LaneOf(port)` and in no other band of any lane. */
  lemma PortBandsPartition(lane: int, k: nat, port: int)
    requires 0 <= lane < BALANCE_LANES && k < BANDS
    ensures |PortRangesOf(lane)| == BANDS
    ensures PortRangesOf(lane)[k].Contains(port) <==>
            1 <= port <= MAX_PORT && lane == LaneOf(port) && k == port / (BALANCE_LANES * PORT_BLOCK)
  {
    if 0 <= port {
      assert port / PORT_BLOCK == 8 * (port / 256) + port / PORT_BLOCK % 8;
    }
  }

  lemma LaneMembership(lane: int, port: int)
    ensures InRanges(PortRangesOf(lane), port) <==>
            1 <= port <= MAX_PORT && 0 <= lane < BALANCE_LANES && lane == LaneOf(port)
  {
    if 0 <= lane < BALANCE_LANES {
      forall k | 0 <= k < BANDS
        ensures PortRangesOf(lane)[k].Contains(port) <==>
                1 <= port <= MAX_PORT && lane == LaneOf(port) && k == port / (BALANCE_LANES * PORT_BLOCK)
      {
        PortBandsPartition(lane, k, port);
      }
      if 1 <= port <= MAX_PORT && lane == LaneOf(port) {
        var k := port / (BALANCE_LANES * PORT_BLOCK);
        assert PortRangesOf(lane)[k].Contains(port);
      }
    }
  }

  // ---------------------------------------------------------------- leg health

  const ERROR_THRESHOLD := 3
  const SLOW_SAMPLES := 3
  const RECOVER_SAMPLES := 3
  const DIAL_SLOW_MS := 1000

  /** One leg probe: an error, or a delay in milliseconds. */
  datatype Measurement = Failed | Replied(delayMs: int)

  datatype Class = Error | Slow | Clean

  function Classify(m: Measurement): Class {
    if m.Failed? then Error else if m.delayMs > DIAL_SLOW_MS then Slow else Clean
  }

  /** Length of the trailing run of `c`. */
  function Trailing(h: seq<Class>, c: Class): nat {
    if |h| == 0 || h[|h| - 1] != c then 0 else 1 + Trailing(h[..|h| - 1], c)
  }

  /** The class of the most recent run of three equal measurements, if there ever was one. */
  function LastTriple(h: seq<Class>): Option<Class> {
    if |h| < 3 then None
    else if h[|h| - 1] == h[|h| - 2] == h[|h| - 3] then Some(h[|h| - 1])
    else LastTriple(h[..|h| - 1])
  }

  /** Three measurements of one class end the history exactly when its trailing run is that long. */
  lemma TrailingThree(h: seq<Class>, c: Class)
    ensures Trailing(h, c) >= 3 <==> |h| >= 3 && h[|h| - 1] == h[|h| - 2] == h[|h| - 3] == c
  {
    if |h| > 0 && h[|h| - 1] == c {
      var h1 := h[..|h| - 1];
      if |h1| > 0 && h1[|h1| - 1] == c {
        assert Trailing(h1, c) == 1 + Trailing(h1[..|h1| - 1], c);
      }
    }
  }

  class BalanceLeg {
    var good: int
    var bad: int
    var slow: int
    var healthy: bool
    ghost var history: seq<Class>  // every measurement since the leg was created

    /** The counters are the trailing runs, and health is decided by the last run of three. */
    ghost predicate Valid()
      reads this
    {
      && bad == Trailing(history, Error)
      && slow == Min(Trailing(history, Slow), SLOW_SAMPLES)
      && good == Min(Trailing(history, Clean), RECOVER_SAMPLES)
      && healthy == (LastTriple(history) == Some(Clean))
    }

    constructor ()
      ensures Valid() && history == [] && !healthy
    {
      good, bad, slow, healthy := 0, 0, 0, false;
      history := [];
    }

    method Observe(m: Measurement)
      requires Valid()
      modifies this
      ensures Valid()
      ensures history == old(history) + [Classify(m)]
    {
      ghost var h := history + [Classify(m)];
      assert h[..|h| - 1] == history;
      TrailingThree(h, Error);
      TrailingThree(h, Slow);
      TrailingThree(h, Clean);
      history := h;
      if m.Failed? {
        bad := bad + 1;
        good := 0;
        slow := 0;
        if bad >= ERROR_THRESHOLD {
          good := 0;
          healthy := false;
        }
        return;
      }
      bad := 0;
      if m.delayMs > DIAL_SLOW_MS {
        if slow < SLOW_SAMPLES {
          slow := slow + 1;
        }
        good := 0;
        if slow >= SLOW_SAMPLES {
          healthy := false;
        }
        return;
      }
      slow := 0;
      if good < RECOVER_SAMPLES {
        good := good + 1;
      }
      healthy := healthy || good >= RECOVER_SAMPLES;
    }
  }

  /** Alternating errors and slow replies never withdraw a leg: such a tail of any length leaves
      the verdict of the history before it. */
  lemma {:induction false} AlternatingBadNeverWithdraws(h: seq<Class>, tail: seq<Class>)
    requires forall i :: 0 <= i < |tail| ==> tail[i] != Clean
    requires forall i :: 0 <= i < |tail| - 1 ==> tail[i] != tail[i + 1]
    requires |tail| > 0 && |h| > 0 ==> h[|h| - 1] != tail[0]
    ensures LastTriple(h + tail) == LastTriple(h)
  {
    if |tail| == 0 {
      assert h + tail == h;
    } else {
      var init := tail[..|tail| - 1];
      assert (h + tail)[..|h + tail| - 1] == h + init;
      AlternatingBadNeverWithdraws(h, init);
    }
  }

  class BalanceController {
    const reality: BalanceLeg
    const hy2: BalanceLeg
    var hy2Lanes: int

    ghost predicate Valid()
      reads this, reality, hy2
    {
      reality != hy2 && reality.Valid() && hy2.Valid()
    }

    constructor ()
      ensures Valid() && fresh(reality) && fresh(hy2)
    {
      reality := new BalanceLeg();
      hy2 := new BalanceLeg();
      hy2Lanes := 0;
    }

    /** The allocation depends on the two measurement histories only through the class of each
        leg's last run of three. */
    method Observe(realityProbe: Measurement, hy2Probe: Measurement)
      requires Valid()
      modifies this, reality, hy2
      ensures Valid()
      ensures reality.history == old(reality.history) + [Classify(realityProbe)]
      ensures hy2.history == old(hy2.history) + [Classify(hy2Probe)]
      // A hy2 leg that is not healthy gets no lane; beside a healthy one, REALITY keeps six of the
      // eight if it is healthy and none otherwise.
      ensures LastTriple(hy2.history) != Some(Clean) ==> hy2Lanes == 0
      ensures LastTriple(hy2.history) == Some(Clean) ==>
                hy2Lanes == if LastTriple(reality.history) == Some(Clean) then 2 else 8
    {
      reality.Observe(realityProbe);
      hy2.Observe(hy2Probe);
      if !hy2.healthy {
        hy2Lanes := 0;
      } else if !reality.healthy {
        hy2Lanes := BALANCE_LANES;
      } else {
        hy2Lanes := DEFAULT_HY2_LANES;
      }
    }
  }
}
