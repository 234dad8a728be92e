/** core/balance_io.go: writing an allocation of lanes to legs through a control API whose calls
    may fail at any point. */
module LaneAllocation {
  import opened Common
  import opened Tags
  import opened BalancePolicy
  import opened ConfigTypes
  import opened FlowRoutes

  // ---------------------------------------------------------------- which lanes hy2 gets

  predicate Hy2Lane(hy2Lanes: nat, lane: nat) {
    (lane + 1) * hy2Lanes / BALANCE_LANES > lane * hy2Lanes / BALANCE_LANES
  }

  function Target(hy2Lanes: int, lane: nat): string {
    if hy2Lanes < 0 then PROXY else if Hy2Lane(hy2Lanes, lane) then HY2_PROBE else REALITY_LEG
  }

  predicate ValidShare(hy2Lanes: int) { -1 <= hy2Lanes <= BALANCE_LANES }

  predicate LaneConverged(live: map<string, string>, hy2Lanes: int, lane: nat) {
    LaneTag(lane) in live && live[LaneTag(lane)] == Target(hy2Lanes, lane)
  }

  predicate Converged(live: map<string, string>, hy2Lanes: int, lanes: nat) {
    forall lane :: 0 <= lane < lanes ==> LaneConverged(live, hy2Lanes, lane)
  }

  /** How many of the lanes from..to point at a member. */
  function LanesOn(live: map<string, string>, member: string, from: nat, to: nat): nat
    requires from <= to
  {
    if from == to then 0
    else
      LanesOn(live, member, from, to - 1)
      + (if LaneTag(to - 1) in live && live[LaneTag(to - 1)] == member then 1 else 0)
  }

  lemma {:induction false} LanesOnTelescopes(live: map<string, string>, hy2Lanes: int, from: nat, to: nat)
    requires 0 <= hy2Lanes <= BALANCE_LANES && from <= to <= BALANCE_LANES
    requires Converged(live, hy2Lanes, BALANCE_LANES)
    ensures LanesOn(live, HY2_PROBE, from, to) == to * hy2Lanes / BALANCE_LANES - from * hy2Lanes / BALANCE_LANES
  {
    if from == to {
    } else {
      LanesOnTelescopes(live, hy2Lanes, from, to - 1);
      assert to * hy2Lanes == (to - 1) * hy2Lanes + hy2Lanes;
      assert LaneConverged(live, hy2Lanes, to - 1);
    }
  }

  /** Exact and even: hy2 holds exactly the lanes asked for, and its share of any run of consecutive
      lanes is the proportional number rounded down or up. */
  lemma AllocationIsExactAndEven(live: map<string, string>, hy2Lanes: int, from: nat, to: nat)
    requires 0 <= hy2Lanes <= BALANCE_LANES && from <= to <= BALANCE_LANES
    requires Converged(live, hy2Lanes, BALANCE_LANES)
    ensures LanesOn(live, HY2_PROBE, 0, BALANCE_LANES) == hy2Lanes
    ensures var n := (to - from) * hy2Lanes;
            n / BALANCE_LANES <= LanesOn(live, HY2_PROBE, from, to) <= (n + BALANCE_LANES - 1) / BALANCE_LANES
  {
    LanesOnTelescopes(live, hy2Lanes, 0, BALANCE_LANES);
    LanesOnTelescopes(live, hy2Lanes, from, to);
    assert to * hy2Lanes == from * hy2Lanes + (to - from) * hy2Lanes;
  }

  /** With an allocation in force, every flow the original rules send to an unscoped `proxy` rule
      leaves on the leg its source port's lane was given. */
  lemma FlowsFollowTheAllocation<A>(e: Engine<A>, rules: seq<RouteRule>, attrs: A, port: int,
      live: map<string, string>, hy2Lanes: int)
    requires 1 <= port <= MAX_PORT && ProxyRulesRoute(rules) && DecidedByLanes(e, rules, attrs, port)
    requires 0 <= hy2Lanes <= BALANCE_LANES && Converged(live, hy2Lanes, BALANCE_LANES)
    ensures Resolve(live, Decide(e, FlowRoutesOf(rules), attrs, port)) ==
            Route(if Hy2Lane(hy2Lanes, LaneOf(port)) then HY2_PROBE else REALITY_LEG)
  {
    DecideExpanded(e, rules, attrs, port);
    assert LaneConverged(live, hy2Lanes, LaneOf(port));
  }

  /** With the allocation released, every such flow goes on to `proxy`, where the original rules sent it. */
  lemma ReleasedLanesFollowProxy<A>(e: Engine<A>, rules: seq<RouteRule>, attrs: A, port: int, live: map<string, string>)
    requires 1 <= port <= MAX_PORT && ProxyRulesRoute(rules) && DecidedByLanes(e, rules, attrs, port)
    requires Converged(live, -1, BALANCE_LANES)
    ensures Resolve(live, Decide(e, FlowRoutesOf(rules), attrs, port)) == Route(PROXY) == Decide(e, rules, attrs, port)
  {
    DecideExpanded(e, rules, attrs, port);
    LanesTakeProxyFlows(e, rules, attrs, port);
    assert LaneConverged(live, -1, LaneOf(port));
  }

  // ---------------------------------------------------------------- writing it

  /** The control API. A call may fail; a failed write may or may not have taken effect. */
  class ClashClient {
    var live: map<string, string>
    ghost var failures: nat  // calls that reported failure so far

    method Selection(selector: string) returns (r: Result<string>)
      modifies `failures
      ensures r.Ok? ==> selector in live && r.value == live[selector]
      ensures failures == old(failures) + (if r.Ok? then 0 else 1)
    {
      if selector in live {
        if * {
          return Ok(live[selector]);
        }
      }
      failures := failures + 1;
      return Err;
    }

    method SelectProxy(selector: string, member: string) returns (ok: bool)
      modifies this
      ensures live == old(live)[selector := member] || (!ok && live == old(live))
      ensures failures == old(failures) + (if ok then 0 else 1)
    {
      ok := false;
      if * {
        live := live[selector := member];
        ok := *;
      }
      if !ok {
        failures := failures + 1;
      }
    }
  }

  predicate SameOutsideLanes(a: map<string, string>, b: map<string, string>) {
    && (forall t :: t in a && (forall lane :: 0 <= lane < BALANCE_LANES ==> t != LaneTag(lane)) ==>
        t in b && b[t] == a[t])
    && (forall t :: t in b && t !in a ==> exists lane :: 0 <= lane < BALANCE_LANES && t == LaneTag(lane))
  }

  predicate SameLane(a: map<string, string>, b: map<string, string>, lane: nat) {
    (LaneTag(lane) in a <==> LaneTag(lane) in b) && (LaneTag(lane) in a ==> a[LaneTag(lane)] == b[LaneTag(lane)])
  }

  /** A converged prefix of `n` lanes, an untouched rest, and lane `n` either way. */
  predicate PrefixApplied(before: map<string, string>, after: map<string, string>, hy2Lanes: int, n: nat) {
    && n < BALANCE_LANES
    && Converged(after, hy2Lanes, n)
    && (SameLane(before, after, n) || LaneConverged(after, hy2Lanes, n))
    && forall lane :: n < lane < BALANCE_LANES ==> SameLane(before, after, lane)
  }

  /** Where a run stands before lane `n`: the lanes below it converged, the rest as they were. */
  predicate Before(start: map<string, string>, live: map<string, string>, hy2Lanes: int, n: nat) {
    && Converged(live, hy2Lanes, n)
    && (forall lane :: n <= lane < BALANCE_LANES ==> SameLane(start, live, lane))
    && SameOutsideLanes(start, live)
  }

  /** Writing a lane touches that lane and nothing else. */
  lemma WriteLane(start: map<string, string>, live: map<string, string>, hy2Lanes: int, n: nat)
    requires n < BALANCE_LANES && Before(start, live, hy2Lanes, n)
    ensures var written := live[LaneTag(n) := Target(hy2Lanes, n)];
            Before(start, written, hy2Lanes, n + 1) && PrefixApplied(start, written, hy2Lanes, n)
    ensures PrefixApplied(start, live, hy2Lanes, n)
  {
    var written := live[LaneTag(n) := Target(hy2Lanes, n)];
    forall lane | 0 <= lane < BALANCE_LANES
      ensures lane < n ==> LaneConverged(written, hy2Lanes, lane)
      ensures lane > n ==> SameLane(start, written, lane)
    {
      LaneTagsDistinct(lane, n);
      assert lane < n ==> LaneConverged(live, hy2Lanes, lane);
      assert lane > n ==> SameLane(start, live, lane);
    }
    assert LaneConverged(written, hy2Lanes, n);
    assert SameLane(start, live, n);
  }

  method ApplyBalancedLanes(c: ClashClient, hy2Lanes: int) returns (changed: bool, ok: bool)
    modifies c
    ensures !ValidShare(hy2Lanes) ==> !ok && !changed && c.live == old(c.live)
    // A valid allocation fails exactly when a call does.
    ensures ValidShare(hy2Lanes) ==> (ok <==> c.failures == old(c.failures))
    ensures SameOutsideLanes(old(c.live), c.live)
    ensures ok ==> Converged(c.live, hy2Lanes, BALANCE_LANES)
    ensures ok ==> (changed <==> !Converged(old(c.live), hy2Lanes, BALANCE_LANES))
    ensures !ok && ValidShare(hy2Lanes) ==> exists n: nat :: PrefixApplied(old(c.live), c.live, hy2Lanes, n)
    // A repeat after success changes nothing and says so.
    ensures Converged(old(c.live), hy2Lanes, BALANCE_LANES) ==> !changed && c.live == old(c.live)
  {
    if hy2Lanes < -1 || hy2Lanes > BALANCE_LANES {
      return false, false;
    }
    changed := false;
    ghost var start := c.live;
    for lane := 0 to BALANCE_LANES
      invariant Before(start, c.live, hy2Lanes, lane)
      invariant changed <==> !Converged(start, hy2Lanes, lane)
      invariant !changed ==> c.live == start
      invariant c.failures == old(c.failures)
    {
      var target := REALITY_LEG;
      if hy2Lanes < 0 {
        target := PROXY;
      } else if (lane + 1) * hy2Lanes / BALANCE_LANES > lane * hy2Lanes / BALANCE_LANES {
        target := HY2_PROBE;
      }
      assert target == Target(hy2Lanes, lane);
      WriteLane(start, c.live, hy2Lanes, lane);
      assert SameLane(start, c.live, lane);
      var tag := LaneTag(lane);
      var live := c.Selection(tag);
      if live.Err? {
        return changed, false;
      }
      if live.value == target {
        continue;
      }
      assert !LaneConverged(start, hy2Lanes, lane);
      var written := c.SelectProxy(tag, target);
      if !written {
        return changed, false;
      }
      changed := true;
    }
    return changed, true;
  }
}
