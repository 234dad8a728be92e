/** The rule-list transformation of config/balance.go, and a first-match evaluator of rule lists
    against which its meaning is stated. */
module FlowRoutes {
  import opened Common
  import opened Tags
  import opened BalancePolicy
  import opened ConfigTypes

  // ---------------------------------------------------------------- what a rule list means

  /** What a rule with an action does: go on with changed flow attributes (sniff), or end routing. */
  datatype Effect<A> = Continue(attrs: A) | Stop(verdict: string)

  /** The routing engine's meaning of criteria and actions, over flow attributes of any type. */
  datatype Engine<!A> = Engine(meets: (Criteria, A) -> bool, act: (string, A) -> Effect<A>)

  datatype Decision = Route(outbound: string) | Stopped(verdict: string)

  predicate Routes(r: RouteRule) { r.action == "" || r.action == "route" }

  predicate Matches<A>(e: Engine<A>, r: RouteRule, attrs: A, port: int) {
    var all := (r.criteria == NO_CRITERIA || e.meets(r.criteria, attrs))
               && (r.sourcePortRange == [] || InRanges(r.sourcePortRange, port));
    all != r.invert
  }

  /** The first rule that matches and does not continue decides; route.final is `proxy`. */
  function Decide<A>(e: Engine<A>, rules: seq<RouteRule>, attrs: A, port: int): Decision {
    if rules == [] then Route(PROXY)
    else
      var r := rules[0];
      if !Matches(e, r, attrs, port) then Decide(e, rules[1..], attrs, port)
      else if Routes(r) then Route(r.outbound)
      else
        match e.act(r.action, attrs)
        case Continue(attrs') => Decide(e, rules[1..], attrs', port)
        case Stop(verdict) => Stopped(verdict)
  }

  /** The outbound a decision ends at when the named selectors point where `live` says. */
  function Resolve(live: map<string, string>, d: Decision): Decision {
    if d.Route? && d.outbound in live then Route(live[d.outbound]) else d
  }

  // ---------------------------------------------------------------- the transformation

  predicate Shardable(r: RouteRule) {
    r.outbound == PROXY && !r.invert && |r.sourcePortRange| == 0
  }

  function Shard(r: RouteRule, lane: int): RouteRule {
    r.(sourcePortRange := PortRangesOf(lane), outbound := LaneTag(lane))
  }

  function ShardsUpTo(r: RouteRule, lanes: nat): seq<RouteRule> {
    if lanes == 0 then [] else ShardsUpTo(r, lanes - 1) + [Shard(r, lanes - 1)]
  }

  function Expand(r: RouteRule): seq<RouteRule> {
    (if Shardable(r) then ShardsUpTo(r, BALANCE_LANES) else []) + [r]
  }

  function ExpandAll(rules: seq<RouteRule>): seq<RouteRule> {
    if rules == [] then [] else Expand(rules[0]) + ExpandAll(rules[1..])
  }

  const FINAL_RULE := RouteRule([], "", NO_CRITERIA, false, PROXY)

  function FlowRoutesOf(rules: seq<RouteRule>): seq<RouteRule> {
    ExpandAll(rules) + ShardsUpTo(FINAL_RULE, BALANCE_LANES)
  }

  lemma {:induction false} ExpandAllAppend(rules: seq<RouteRule>, r: RouteRule)
    ensures ExpandAll(rules + [r]) == ExpandAll(rules) + Expand(r)
  {
    if rules == [] {
      assert ExpandAll([]) == [];
      assert ([r])[1..] == [] && [] + [r] == [r];
    } else {
      assert (rules + [r])[1..] == rules[1..] + [r];
      ExpandAllAppend(rules[1..], r);
    }
  }

  method FlowRoutes(rules: seq<RouteRule>) returns (out: seq<RouteRule>)
    ensures out == FlowRoutesOf(rules)
  {
    hide LaneTag, PortRangesOf;
    out := [];
    for i := 0 to |rules|
      invariant out == ExpandAll(rules[..i])
    {
      var rule := rules[i];
      assert rules[..i + 1] == rules[..i] + [rule];
      ExpandAllAppend(rules[..i], rule);
      ghost var before := out;
      if rule.outbound == PROXY && !rule.invert && |rule.sourcePortRange| == 0 {
        for lane := 0 to BALANCE_LANES
          invariant out == before + ShardsUpTo(rule, lane)
        {
          var shard := rule;
          var ranges := BalancePortRanges(lane);
          shard := shard.(sourcePortRange := ranges);
          shard := shard.(outbound := LaneTag(lane));
          out := out + [shard];
        }
      }
      out := out + [rule];
    }
    assert rules[..|rules|] == rules;
    ghost var expanded := out;
    for lane := 0 to BALANCE_LANES
      invariant out == expanded + ShardsUpTo(FINAL_RULE, lane)
    {
      var ranges := BalancePortRanges(lane);
      out := out + [RouteRule(ranges, "", NO_CRITERIA, false, LaneTag(lane))];
    }
  }

  /** Where each lane selector points when it is at its default member. */
  function DefaultLanes(): map<string, string> {
    map lane | 0 <= lane < BALANCE_LANES :: LaneTag(lane) := PROXY
  }

  method FlowSelectors() returns (selectors: seq<OutboundConfig>)
    ensures |selectors| == BALANCE_LANES
    ensures forall lane :: 0 <= lane < BALANCE_LANES ==>
      selectors[lane] == Selector(LaneTag(lane), [PROXY, REALITY_LEG, HY2_PROBE], PROXY)
    ensures forall lane :: 0 <= lane < BALANCE_LANES ==>
      DefaultLanes()[LaneTag(lane)] == selectors[lane].defaultMember
  {
    selectors := [];
    for lane := 0 to BALANCE_LANES
      invariant |selectors| == lane
      invariant forall k :: 0 <= k < lane ==>
        selectors[k] == Selector(LaneTag(k), [PROXY, REALITY_LEG, HY2_PROBE], PROXY)
    {
      selectors := selectors + [Selector(LaneTag(lane), [PROXY, REALITY_LEG, HY2_PROBE], PROXY)];
    }
  }

  // ---------------------------------------------------------------- meaning is preserved

  /** Does the rule that decides this flow send it to the lanes, by being an unscoped `proxy` rule
      or by there being no such rule at all? */
  predicate DecidedByLanes<A>(e: Engine<A>, rules: seq<RouteRule>, attrs: A, port: int) {
    if rules == [] then true
    else
      var r := rules[0];
      if !Matches(e, r, attrs, port) then DecidedByLanes(e, rules[1..], attrs, port)
      else if Routes(r) then Shardable(r)
      else
        match e.act(r.action, attrs)
        case Continue(attrs') => DecidedByLanes(e, rules[1..], attrs', port)
        case Stop(_) => false
  }

  /** Rules naming `proxy` only route; they carry no other action. */
  predicate ProxyRulesRoute(rules: seq<RouteRule>) {
    forall i :: 0 <= i < |rules| && rules[i].outbound == PROXY ==> Routes(rules[i])
  }

  predicate ValidPort(port: int) { 0 <= port <= MAX_PORT }

  /** A block of shards takes a flow its rule matches to the lane of its port, and lets any other
      flow, and port zero, through to the rules behind the block. */
  lemma {:induction false} DecideShards<A>(e: Engine<A>, r: RouteRule, lanes: nat, rest: seq<RouteRule>, attrs: A,
      port: int)
    requires lanes <= BALANCE_LANES && ValidPort(port) && Shardable(r) && Routes(r)
    ensures Decide(e, ShardsUpTo(r, lanes) + rest, attrs, port) ==
            if Matches(e, r, attrs, port) && port >= 1 && LaneOf(port) < lanes
            then Route(LaneTag(LaneOf(port))) else Decide(e, rest, attrs, port)
  {
    hide LaneTag, InRanges;
    if lanes == 0 {
      assert [] + rest == rest;
    } else {
      var last := Shard(r, lanes - 1);
      assert ShardsUpTo(r, lanes) + rest == ShardsUpTo(r, lanes - 1) + ([last] + rest);
      DecideShards(e, r, lanes - 1, [last] + rest, attrs, port);
      LaneMembership(lanes - 1, port);
      assert ([last] + rest)[1..] == rest;
      PortBandsPartition(lanes - 1, 0, port);
    }
  }

  lemma DecideExpandedRule<A>(e: Engine<A>, r: RouteRule, tail: seq<RouteRule>, attrs: A, port: int)
    requires ValidPort(port) && (Shardable(r) ==> Routes(r))
    ensures Decide(e, Expand(r) + tail, attrs, port) ==
            if Shardable(r) && Matches(e, r, attrs, port) && port >= 1 then Route(LaneTag(LaneOf(port)))
            else Decide(e, [r] + tail, attrs, port)
  {
    hide LaneTag, InRanges;
    if Shardable(r) {
      assert Expand(r) + tail == ShardsUpTo(r, BALANCE_LANES) + ([r] + tail);
      DecideShards(e, r, BALANCE_LANES, [r] + tail, attrs, port);
    } else {
      assert Expand(r) + tail == [r] + tail;
    }
  }

  lemma {:induction false} DecideExpanded<A>(e: Engine<A>, rules: seq<RouteRule>, attrs: A, port: int)
    requires ValidPort(port) && ProxyRulesRoute(rules)
    ensures Decide(e, FlowRoutesOf(rules), attrs, port) ==
            if port >= 1 && DecidedByLanes(e, rules, attrs, port) then Route(LaneTag(LaneOf(port)))
            else Decide(e, rules, attrs, port)
  {
    hide LaneTag, InRanges;
    if rules == [] {
      assert FlowRoutesOf([]) == ShardsUpTo(FINAL_RULE, BALANCE_LANES) + [];
      DecideShards(e, FINAL_RULE, BALANCE_LANES, [], attrs, port);
    } else {
      var r := rules[0];
      var tail := FlowRoutesOf(rules[1..]);
      assert FlowRoutesOf(rules) == Expand(r) + tail;
      DecideExpandedRule(e, r, tail, attrs, port);
      assert ([r] + tail)[0] == r && ([r] + tail)[1..] == tail;
      if !Matches(e, r, attrs, port) {
        DecideExpanded(e, rules[1..], attrs, port);
      } else if !Routes(r) && e.act(r.action, attrs).Continue? {
        DecideExpanded(e, rules[1..], e.act(r.action, attrs).attrs, port);
      }
    }
  }

  /** Flows that reach the lanes are exactly flows that were decided `proxy`, except for those that
      an inverted or port-scoped `proxy` rule decided. */
  lemma {:induction false} LanesTakeProxyFlows<A>(e: Engine<A>, rules: seq<RouteRule>, attrs: A, port: int)
    requires ProxyRulesRoute(rules)
    ensures DecidedByLanes(e, rules, attrs, port) ==> Decide(e, rules, attrs, port) == Route(PROXY)
    ensures (forall i :: 0 <= i < |rules| && rules[i].outbound == PROXY ==> Shardable(rules[i])) ==>
            (DecidedByLanes(e, rules, attrs, port) <==> Decide(e, rules, attrs, port) == Route(PROXY))
  {
    hide LaneTag, InRanges;
    if rules == [] {
    } else {
      var r := rules[0];
      LanesTakeProxyFlows(e, rules[1..], attrs, port);
      if Matches(e, r, attrs, port) && !Routes(r) && e.act(r.action, attrs).Continue? {
        LanesTakeProxyFlows(e, rules[1..], e.act(r.action, attrs).attrs, port);
      }
    }
  }

  /** Sharding keeps the meaning of every rule list: decisions other than `proxy` are untouched, a
      `proxy` decision becomes the lane of its source port or stays as it was, and with the lane
      selectors at their default both lists send every flow to the same place. */
  lemma FlowRoutesPreserveMeaning<A>(e: Engine<A>, rules: seq<RouteRule>, attrs: A, port: int)
    requires ValidPort(port) && ProxyRulesRoute(rules)
    ensures var before := Decide(e, rules, attrs, port);
            var after := Decide(e, FlowRoutesOf(rules), attrs, port);
            && (before != Route(PROXY) ==> after == before)
            && (before == Route(PROXY) ==>
                  after == if port >= 1 && DecidedByLanes(e, rules, attrs, port)
                           then Route(LaneTag(LaneOf(port))) else Route(PROXY))
            && Resolve(DefaultLanes(), after) == Resolve(DefaultLanes(), before)
  {
    DecideExpanded(e, rules, attrs, port);
    LanesTakeProxyFlows(e, rules, attrs, port);
    LaneTagsDistinct(0, 0);
    forall lane: int ensures LaneTag(lane) != PROXY {
      LaneTagsDistinct(lane, lane);
    }
    assert LaneTag(LaneOf(port)) in DefaultLanes();
  }

  /** When no `proxy` rule is inverted or port-scoped, the flows decided `proxy` are spread over
      the lanes by source port alone, all of them except source port zero. */
  lemma ProxyFlowsAreSpreadByPort<A>(e: Engine<A>, rules: seq<RouteRule>, attrs: A, port: int)
    requires 1 <= port <= MAX_PORT && ProxyRulesRoute(rules)
    requires forall i :: 0 <= i < |rules| && rules[i].outbound == PROXY ==> Shardable(rules[i])
    ensures Decide(e, rules, attrs, port) == Route(PROXY) ==>
            Decide(e, FlowRoutesOf(rules), attrs, port) == Route(LaneTag(port / 32 % 8))
    ensures Decide(e, rules, attrs, port) != Route(LaneTag(port / 32 % 8)) ==>
            (Decide(e, FlowRoutesOf(rules), attrs, port) == Route(LaneTag(port / 32 % 8)) <==>
             Decide(e, rules, attrs, port) == Route(PROXY))
  {
    DecideExpanded(e, rules, attrs, port);
    LanesTakeProxyFlows(e, rules, attrs, port);
  }
}
