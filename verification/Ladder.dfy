/** The two computations of one server's ladder: by the daemon from the server record (cmd/server.go)
    and by the config builder from the server's URI (config/parser.go), and the outbounds built. */
module Ladder {
  import opened Common
  import opened Tags
  import opened ConfigTypes
  import opened BandwidthSchedule

  const DEFAULT_PEAK_UP_MBPS := 2
  const DEFAULT_PEAK_DOWN_MBPS := 5
  const DEFAULT_PEAK_START := 12
  const DEFAULT_PEAK_END := 2

  // ---------------------------------------------------------------- the daemon's side

  /** The bandwidth fields of a hysteria2 entry of servers.json; zero means unset, and a negative
      ceiling asks for BBR. */
  datatype Server = Server(upMbps: int, downMbps: int, peakUpMbps: int, peakDownMbps: int, peakStartHour: int,
      peakEndHour: int) {

    function PeakWindow(): (int, int) {
      if peakStartHour == peakEndHour then (DEFAULT_PEAK_START, DEFAULT_PEAK_END) else (peakStartHour, peakEndHour)
    }

    /** The effective ceilings; both the URI and the daemon's schedule are made from them. */
    function EffectiveSchedule(): Schedule {
      if upMbps < 0 || downMbps < 0 then Schedule(upMbps, downMbps, 0, 0, 0, 0)
      else
        var up := if upMbps == 0 then DEFAULT_UP_MBPS else upMbps;
        var down := if downMbps == 0 then DEFAULT_DOWN_MBPS else downMbps;
        var (peakUp, peakDown) :=
          if peakDownMbps == 0 then (DEFAULT_PEAK_UP_MBPS, DEFAULT_PEAK_DOWN_MBPS)
          else if peakUpMbps == 0 then (DEFAULT_PEAK_UP_MBPS, peakDownMbps)
          else (peakUpMbps, peakDownMbps);
        var (start, end) := PeakWindow();
        Schedule(up, down, peakUp, peakDown, start, end)
    }

    /** The integer parameters of the hy2:// URI. */
    function UriParameters(): map<string, int> {
      var s := EffectiveSchedule();
      map["upmbps" := s.offUp, "downmbps" := s.offDown]
      + (if s.peakDown > 0 then
           map["peakdownmbps" := s.peakDown, "peakupmbps" := s.peakUp, "peakstart" := s.startHour, "peakend" := s.endHour]
         else map[])
    }
  }

  // ---------------------------------------------------------------- the config builder's side

  /** A parameter that is absent reads as zero. */
  function Get(q: map<string, int>, name: string): int { if name in q then q[name] else 0 }

  /** The ceilings of the outbound that parseHysteria2 builds. */
  method ParseCeilings(q: map<string, int>) returns (upMbps: int, downMbps: int)
    ensures (upMbps, downMbps) == Ceilings(q)
  {
    upMbps, downMbps := DEFAULT_UP_MBPS, DEFAULT_DOWN_MBPS;
    var up := Get(q, "upmbps");
    var down := Get(q, "downmbps");
    if up < 0 || down < 0 {
      upMbps, downMbps := 0, 0;
    } else {
      if up > 0 {
        upMbps := up;
      }
      if down > 0 {
        downMbps := down;
      }
    }
  }

  function Ceilings(q: map<string, int>): (int, int) {
    var up, down := Get(q, "upmbps"), Get(q, "downmbps");
    if up < 0 || down < 0 then (0, 0)
    else (if up > 0 then up else DEFAULT_UP_MBPS, if down > 0 then down else DEFAULT_DOWN_MBPS)
  }

  function ConfigSchedule(q: map<string, int>, upMbps: int, downMbps: int): Schedule {
    Schedule(upMbps, downMbps, Get(q, "peakupmbps"), Get(q, "peakdownmbps"), Get(q, "peakstart"), Get(q, "peakend"))
  }

  /** The schedule the config ladders over, parsed back from a server's own URI. */
  function ParsedSchedule(server: Server): Schedule {
    var q := server.UriParameters();
    ConfigSchedule(q, Ceilings(q).0, Ceilings(q).1)
  }

  /** Same rungs, and the same profile at every hour. */
  ghost predicate Agree(a: Schedule, b: Schedule) {
    a.Rungs() == b.Rungs() && forall hour :: a.ProfileAt(hour) == b.ProfileAt(hour)
  }

  /** Config and daemon agree on the ladder exactly when neither ceiling is the negative sentinel. */
  lemma ConfigAndDaemonAgree(server: Server)
    ensures Agree(ParsedSchedule(server), server.EffectiveSchedule()) <==> server.upMbps >= 0 && server.downMbps >= 0
  {
    var config, daemon := ParsedSchedule(server), server.EffectiveSchedule();
    var q := server.UriParameters();
    assert Get(q, "upmbps") == daemon.offUp && Get(q, "downmbps") == daemon.offDown;
    if server.upMbps >= 0 && server.downMbps >= 0 {
      assert daemon.peakDown > 0 ==> config == daemon;
      assert daemon.peakDown <= 0 ==>
          config.peakDown == 0 && config.offDown == daemon.offDown && config.offUp == daemon.offUp;
      AscendingUnique(config.Rungs(), daemon.Rungs());
      forall hour ensures config.ProfileAt(hour) == daemon.ProfileAt(hour) {
      }
    } else {
      assert config.ProfileAt(0) == Profile("offpeak", 0, 0);
      assert daemon.ProfileAt(0) == Profile("offpeak", server.upMbps, server.downMbps);
    }
  }

  // ---------------------------------------------------------------- the outbounds

  function RungTags(rungs: seq<int>): seq<string> {
    seq(|rungs|, i requires 0 <= i < |rungs| => BandwidthRungTag(rungs[i]))
  }

  function Rung(base: OutboundConfig, s: Schedule, down: int): OutboundConfig {
    base.(tag := BandwidthRungTag(down), upMbps := s.RungUp(down), downMbps := down)
  }

  function RungOutbounds(base: OutboundConfig, s: Schedule, rungs: seq<int>): seq<OutboundConfig> {
    seq(|rungs|, i requires 0 <= i < |rungs| => Rung(base, s, rungs[i]))
  }

  const HYSTERIA2 := "hysteria2"

  function SelectOver(outbound: OutboundConfig, standby: Option<OutboundConfig>, members: seq<string>,
                      rungs: seq<OutboundConfig>, def: string): seq<OutboundConfig>
    requires |members| > 0
  {
    match standby
    case None => [Selector(PROXY, members, def)] + rungs
    case Some(leg) =>
      [Selector(PROXY, members + [leg.tag], def)] + rungs
      + (if outbound.kind == HYSTERIA2 then [Selector(HY2_PROBE, members, members[|members| - 1])] else [])
      + [leg]
  }

  method BuildRungs(outbound: OutboundConfig, sched: Schedule, rungs: seq<int>)
      returns (members: seq<string>, ladder: seq<OutboundConfig>)
    ensures members == RungTags(rungs) && ladder == RungOutbounds(outbound, sched, rungs)
  {
    hide BandwidthRungTag;
    members, ladder := [], [];
    for i := 0 to |rungs|
      invariant |members| == |ladder| == i
      invariant forall k :: 0 <= k < i ==>
          members[k] == BandwidthRungTag(rungs[k]) && ladder[k] == Rung(outbound, sched, rungs[k])
    {
      var down := rungs[i];
      var rung := outbound.(tag := BandwidthRungTag(down));
      rung := rung.(upMbps := sched.RungUp(down));
      rung := rung.(downMbps := down);
      members := members + [rung.tag];
      ladder := ladder + [rung];
    }
  }

  /** The proxy outbounds, and the member the failover gate measures hy2 on ("" for none). `standby`
      is the REALITY leg when its link is usable; `q` is None when the server link cannot be parsed. */
  method BuildProxyOutbounds(q: Option<map<string, int>>, standby: Option<OutboundConfig>, outbound: OutboundConfig,
      hour: int)
    returns (outs: seq<OutboundConfig>, gate: string)
    ensures (outs, gate) == ProxyOutbounds(q, standby, outbound, hour)
  {
    var leg := standby;
    if leg.Some? {
      leg := Some(leg.value.(tag := REALITY_LEG));
    }
    if outbound.kind != HYSTERIA2 {
      if leg.None? {
        return [outbound.(tag := PROXY)], "";
      }
      var primary := outbound.(tag := "proxy-primary");
      return SelectOver(outbound, leg, [primary.tag], [primary], REALITY_LEG), "";
    }
    if q.None? {
      return [outbound.(tag := PROXY)], "";
    }
    var sched := ConfigSchedule(q.value, outbound.upMbps, outbound.downMbps);
    var rungs := ComputeRungs(sched);
    if |rungs| < 2 {
      if leg.None? {
        return [outbound.(tag := PROXY)], "";
      }
      var primary := outbound.(tag := BandwidthRungTag(outbound.downMbps));
      return SelectOver(outbound, leg, [primary.tag], [primary], REALITY_LEG), HY2_PROBE;
    }
    var members, ladder := BuildRungs(outbound, sched, rungs);
    if leg.Some? {
      return SelectOver(outbound, leg, members, ladder, REALITY_LEG), HY2_PROBE;
    }
    return SelectOver(outbound, leg, members, ladder, sched.Member(hour)), members[|members| - 1];
  }

  function ProxyOutbounds(q: Option<map<string, int>>, standby: Option<OutboundConfig>, outbound: OutboundConfig,
      hour: int)
    : (seq<OutboundConfig>, string)
  {
    var leg := if standby.Some? then Some(standby.value.(tag := REALITY_LEG)) else None;
    if outbound.kind != HYSTERIA2 then
      var primary := outbound.(tag := "proxy-primary");
      if leg.None? then ([outbound.(tag := PROXY)], "")
      else (SelectOver(outbound, leg, [primary.tag], [primary], REALITY_LEG), "")
    else if q.None? then ([outbound.(tag := PROXY)], "")
    else
      var sched := ConfigSchedule(q.value, outbound.upMbps, outbound.downMbps);
      var rungs := sched.Rungs();
      if |rungs| < 2 then
        var primary := outbound.(tag := BandwidthRungTag(outbound.downMbps));
        if leg.None? then ([outbound.(tag := PROXY)], "")
        else (SelectOver(outbound, leg, [primary.tag], [primary], REALITY_LEG), HY2_PROBE)
      else
        var members := RungTags(rungs);
        var ladder := RungOutbounds(outbound, sched, rungs);
        if leg.Some? then (SelectOver(outbound, leg, members, ladder, REALITY_LEG), HY2_PROBE)
        else (SelectOver(outbound, leg, members, ladder, sched.Member(hour)), members[|members| - 1])
  }

  // ---------------------------------------------------------------- what is promised of them

  predicate Defines(outs: seq<OutboundConfig>, tag: string) {
    exists i :: 0 <= i < |outs| && outs[i].tag == tag
  }

  predicate DefinesSelectorOver(outs: seq<OutboundConfig>, selector: string, member: string) {
    exists i :: 0 <= i < |outs| && outs[i].kind == "selector" && outs[i].tag == selector && member in outs[i].outbounds
  }

  /** What the engine needs of a list of outbounds: one outbound a tag, and no selector that names a
      member or a default that is not there. */
  ghost predicate WellDefined(outs: seq<OutboundConfig>) {
    && (forall i, j :: 0 <= i < j < |outs| ==> outs[i].tag != outs[j].tag)
    && (forall i :: 0 <= i < |outs| && outs[i].kind == "selector" ==>
          && outs[i].defaultMember in outs[i].outbounds
          && forall m :: m in outs[i].outbounds ==> Defines(outs, m))
  }

  /** The rung that should carry traffic if hy2 is the leg: a pin that names a rung, or the clock's. */
  function LadderTarget(s: Schedule, pin: int, hour: int): string {
    if pin > 0 && s.HasRung(pin) then BandwidthRungTag(pin) else s.Member(hour)
  }

  lemma LadderTargetIsRung(s: Schedule, pin: int, hour: int)
    requires s.offDown > 0
    ensures LadderTarget(s, pin, hour) in RungTags(s.Rungs())
  {
    ClockSelectsRungs(s, hour);
    var down := if pin > 0 && s.HasRung(pin) then pin else s.ProfileAt(hour).down;
    var i :| 0 <= i < |s.Rungs()| && s.Rungs()[i] == down;
    assert RungTags(s.Rungs())[i] == BandwidthRungTag(down);
  }

  /** A one-rung ladder is the ladder of the configured ceiling. */
  lemma SingleRung(s: Schedule)
    requires s.offDown > 0 && |s.Rungs()| < 2
    ensures s.Rungs() == [s.offDown]
  {
    BottomRung(s);
    assert s.IsRung(s.offDown);
    assert s.offDown in s.Rungs();
  }

  /** The outbounds of a laddered hy2 server in order: the main selector, the rungs, and with a
      standby leg the probe selector and that leg. */
  ghost predicate Parts(outs: seq<OutboundConfig>, rungs: seq<int>, standby: bool) {
    var members, n := RungTags(rungs), |rungs|;
    && Ascending(rungs) && n > 0
    && |outs| == (if standby then n + 3 else n + 1)
    && outs[0].kind == "selector" && outs[0].tag == PROXY
    && outs[0].outbounds == (if standby then members + [REALITY_LEG] else members)
    && outs[0].defaultMember in outs[0].outbounds
    && (forall k :: 1 <= k <= n ==> outs[k].tag == members[k - 1] && outs[k].kind == HYSTERIA2)
    && (standby ==>
          && outs[n + 1] == Selector(HY2_PROBE, members, members[n - 1])
          && outs[n + 2].tag == REALITY_LEG && outs[n + 2].kind != "selector")
  }

  lemma SelectOverHasParts(outbound: OutboundConfig, standby: Option<OutboundConfig>, rungs: seq<int>,
      ladder: seq<OutboundConfig>, def: string)
    requires outbound.kind == HYSTERIA2 && Ascending(rungs) && |rungs| > 0 && |ladder| == |rungs|
    requires forall i :: 0 <= i < |rungs| ==> ladder[i].tag == BandwidthRungTag(rungs[i]) && ladder[i].kind == HYSTERIA2
    requires standby.Some? ==> standby.value.tag == REALITY_LEG == def && standby.value.kind != "selector"
    requires standby.None? ==> def in RungTags(rungs)
    ensures Parts(SelectOver(outbound, standby, RungTags(rungs), ladder, def), rungs, standby.Some?)
  {
    hide BandwidthRungTag;
  }

  lemma PartsTagsDistinct(outs: seq<OutboundConfig>, rungs: seq<int>, standby: bool, i: nat, j: nat)
    requires Parts(outs, rungs, standby) && i < j < |outs|
    ensures outs[i].tag != outs[j].tag
  {
    hide BandwidthRungTag;
    if j <= |rungs| {
      RungTagsDistinct(rungs[j - 1], if i == 0 then 0 else rungs[i - 1]);
    } else if 1 <= i <= |rungs| {
      RungTagsDistinct(rungs[i - 1], 0);
    }
  }

  lemma PartsDefineMembers(outs: seq<OutboundConfig>, rungs: seq<int>, standby: bool, m: string)
    requires Parts(outs, rungs, standby) && m in RungTags(rungs)
    ensures Defines(outs, m) && DefinesSelectorOver(outs, PROXY, m)
    ensures standby ==> DefinesSelectorOver(outs, HY2_PROBE, m)
  {
    hide BandwidthRungTag;
    var k :| 0 <= k < |rungs| && RungTags(rungs)[k] == m;
    assert outs[1 + k].tag == m;
    assert m in outs[0].outbounds;
    assert standby ==> m in outs[|rungs| + 1].outbounds;
  }

  lemma PartsAreWellDefined(outs: seq<OutboundConfig>, rungs: seq<int>, standby: bool)
    requires Parts(outs, rungs, standby)
    ensures WellDefined(outs)
  {
    hide BandwidthRungTag;
    forall i, j | 0 <= i < j < |outs| ensures outs[i].tag != outs[j].tag {
      PartsTagsDistinct(outs, rungs, standby, i, j);
    }
    forall m | m in RungTags(rungs) ensures Defines(outs, m) {
      PartsDefineMembers(outs, rungs, standby, m);
    }
    assert standby ==> outs[|rungs| + 2].tag == REALITY_LEG;
    assert RungTags(rungs)[|rungs| - 1] in RungTags(rungs);
  }

  /** For every server with non-negative ceilings, the config built from its URI defines whatever its
      selectors name, and with a standby leg every rung the daemon can ever target is a member of
      both the main selector and the hy2 probe selector. */
  lemma DaemonTargetsAreDefined(server: Server, base: OutboundConfig, standby: OutboundConfig,
      pin: int, hour: int, builtAt: int)
    requires server.upMbps >= 0 && server.downMbps >= 0
    requires base.kind == HYSTERIA2 && standby.kind == "vless"
    ensures var q := server.UriParameters();
            var outbound := base.(upMbps := Ceilings(q).0, downMbps := Ceilings(q).1);
            var (outs, gate) := ProxyOutbounds(Some(q), Some(standby), outbound, builtAt);
            var target := LadderTarget(server.EffectiveSchedule(), pin, hour);
            && WellDefined(outs) && gate == HY2_PROBE
            && DefinesSelectorOver(outs, PROXY, target) && DefinesSelectorOver(outs, HY2_PROBE, target)
            // A pinned rung is the target; without one it is the clock's.
            && target == BandwidthRungTag(if server.EffectiveSchedule().IsRung(pin) then pin
                                          else server.EffectiveSchedule().ProfileAt(hour).down)
  {
    hide BandwidthRungTag, Schedule.Rungs, Schedule.RungUp;
    var q := server.UriParameters();
    var outbound := base.(upMbps := Ceilings(q).0, downMbps := Ceilings(q).1);
    var sched := ParsedSchedule(server);
    var daemon := server.EffectiveSchedule();
    var leg := Some(standby.(tag := REALITY_LEG));
    ConfigAndDaemonAgree(server);
    assert sched.offDown > 0 && daemon.offDown > 0;
    LadderTargetIsRung(daemon, pin, hour);
    assert daemon.HasRung(pin) <==> daemon.IsRung(pin);
    var rungs := sched.Rungs();
    assert sched == ConfigSchedule(q, outbound.upMbps, outbound.downMbps);
    var outs := ProxyOutbounds(Some(q), Some(standby), outbound, builtAt).0;
    if |rungs| < 2 {
      SingleRung(sched);
      var primary := outbound.(tag := BandwidthRungTag(outbound.downMbps));
      assert RungTags(rungs) == [primary.tag];
      SelectOverHasParts(outbound, leg, rungs, [primary], REALITY_LEG);
    } else {
      SelectOverHasParts(outbound, leg, rungs, RungOutbounds(outbound, sched, rungs), REALITY_LEG);
    }
    PartsAreWellDefined(outs, rungs, true);
    PartsDefineMembers(outs, rungs, true, LadderTarget(daemon, pin, hour));
  }

  /** What a ladder outbound for a ceiling must be: the parsed server with that tag and that ceiling,
      and the up ceiling that goes with it: the configured partner, or the off-peak ratio rounded down,
      one at least. */
  ghost predicate CarriesCeiling(out: OutboundConfig, base: OutboundConfig, s: Schedule, down: int) {
    && out == base.(tag := BandwidthRungTag(down), upMbps := out.upMbps, downMbps := down)
    && (down == s.offDown ==> out.upMbps == s.offUp)
    && (down != s.offDown && down == s.peakDown && s.peakUp > 0 ==> out.upMbps == s.peakUp)
    && (down != s.offDown && down != s.peakDown ==>
          && out.upMbps >= 1 && down * s.offUp < (out.upMbps + 1) * s.offDown
          && (out.upMbps > 1 ==> out.upMbps * s.offDown <= down * s.offUp))
  }

  /** What the config ladders over is the daemon's schedule, but for a peak that neither uses. */
  lemma ParsedIsEffective(server: Server)
    requires server.upMbps >= 0 && server.downMbps >= 0
    ensures var parsed, daemon := ParsedSchedule(server), server.EffectiveSchedule();
            && parsed.offUp == daemon.offUp > 0 && parsed.offDown == daemon.offDown > 0
            && (daemon.peakDown > 0 ==> parsed == daemon) && (daemon.peakDown <= 0 ==> parsed.peakDown == 0)
            && Ceilings(server.UriParameters()) == (daemon.offUp, daemon.offDown)
  {
    var q, daemon := server.UriParameters(), server.EffectiveSchedule();
    assert Get(q, "upmbps") == daemon.offUp && Get(q, "downmbps") == daemon.offDown;
  }

  lemma RungCarriesCeiling(server: Server, base: OutboundConfig, outbound: OutboundConfig, down: int)
    requires server.upMbps >= 0 && server.downMbps >= 0 && down > 0
    requires outbound == base.(upMbps := outbound.upMbps, downMbps := outbound.downMbps)
    ensures CarriesCeiling(Rung(outbound, ParsedSchedule(server), down), base, server.EffectiveSchedule(), down)
    ensures var rung := Rung(outbound, ParsedSchedule(server), down);
            rung.tag == BandwidthRungTag(down) && rung.downMbps == down
  {
    hide BandwidthRungTag;
    ParsedIsEffective(server);
    var parsed, daemon := ParsedSchedule(server), server.EffectiveSchedule();
    hide ParsedSchedule, Server.EffectiveSchedule;
    if down != daemon.offDown && down != daemon.peakDown {
      RungUpKeepsTheRatio(parsed, down);
    }
  }

  /** The outbounds in order, where there is something to select. */
  lemma LadderShape(q: map<string, int>, standby: Option<OutboundConfig>, outbound: OutboundConfig, hour: int)
    requires outbound.kind == HYSTERIA2 && outbound.downMbps > 0 && outbound.upMbps > 0
    ensures var sched := ConfigSchedule(q, outbound.upMbps, outbound.downMbps);
            var rungs, (outs, gate) := sched.Rungs(), ProxyOutbounds(Some(q), standby, outbound, hour);
            if |rungs| < 2 && standby.None? then outs == [outbound.(tag := PROXY)] && gate == ""
            else
              && |rungs| > 0 && |outs| == |rungs| + (if standby.Some? then 3 else 1)
              && (forall i :: 0 <= i < |rungs| ==> outs[i + 1] == Rung(outbound, sched, rungs[i]))
              && (standby.Some? ==>
                    && outs[0] == Selector(PROXY, RungTags(rungs) + [REALITY_LEG], REALITY_LEG)
                    && outs[|rungs| + 1] == Selector(HY2_PROBE, RungTags(rungs), BandwidthRungTag(rungs[|rungs| - 1]))
                    && outs[|rungs| + 2] == standby.value.(tag := REALITY_LEG) && gate == HY2_PROBE)
              && (standby.None? ==>
                    && outs[0] == Selector(PROXY, RungTags(rungs), sched.Member(hour))
                    && gate == BandwidthRungTag(rungs[|rungs| - 1]))
  {
    hide BandwidthRungTag;
    var sched := ConfigSchedule(q, outbound.upMbps, outbound.downMbps);
    BottomRung(sched);
    if |sched.Rungs()| < 2 {
      SingleRung(sched);
      assert RungTags(sched.Rungs()) == [BandwidthRungTag(outbound.downMbps)];
    }
  }

  /** With non-negative ceilings, and with or without a standby leg, the hysteria2 outbounds of the
      config are, rung by rung, the ladder of the daemon: each carries the ceiling its tag names. A
      server that is not worth a selector is the parsed server under the selector's name. */
  lemma LadderCarriesItsCeilings(server: Server, base: OutboundConfig, standby: Option<OutboundConfig>, builtAt: int)
    requires server.upMbps >= 0 && server.downMbps >= 0
    requires base.kind == HYSTERIA2 && (standby.Some? ==> standby.value.kind == "vless")
    ensures var q, daemon := server.UriParameters(), server.EffectiveSchedule();
            var outbound := base.(upMbps := Ceilings(q).0, downMbps := Ceilings(q).1);
            var (outs, gate) := ProxyOutbounds(Some(q), standby, outbound, builtAt);
            var rungs := daemon.Rungs();
            if |rungs| < 2 && standby.None? then
              outs == [base.(tag := PROXY, upMbps := daemon.offUp, downMbps := daemon.offDown)] && gate == ""
            else
              && |outs| == |rungs| + (if standby.Some? then 3 else 1)
              && (forall i :: 0 <= i < |rungs| ==> CarriesCeiling(outs[i + 1], base, daemon, rungs[i]))
              && (forall i :: 0 <= i < |rungs| && rungs[i] < INT64_LIMIT ==>
                    BandwidthRungMbps(outs[i + 1].tag) == outs[i + 1].downMbps == rungs[i])
              && (standby.Some? ==>
                    && outs[0] == Selector(PROXY, RungTags(rungs) + [REALITY_LEG], REALITY_LEG)
                    && outs[|rungs| + 1] == Selector(HY2_PROBE, RungTags(rungs), BandwidthRungTag(rungs[|rungs| - 1]))
                    && outs[|rungs| + 2] == standby.value.(tag := REALITY_LEG) && gate == HY2_PROBE)
              && (standby.None? ==>
                    && outs[0] == Selector(PROXY, RungTags(rungs), daemon.Member(builtAt))
                    && gate == BandwidthRungTag(rungs[|rungs| - 1]))
  {
    hide BandwidthRungTag, BandwidthRungMbps, ProxyOutbounds, Schedule.Rungs, Rung, CarriesCeiling;
    var q, daemon := server.UriParameters(), server.EffectiveSchedule();
    var outbound := base.(upMbps := Ceilings(q).0, downMbps := Ceilings(q).1);
    var parsed, rungs := ParsedSchedule(server), daemon.Rungs();
    ConfigAndDaemonAgree(server);
    ParsedIsEffective(server);
    assert parsed == ConfigSchedule(q, outbound.upMbps, outbound.downMbps);
    hide ParsedSchedule, Server.EffectiveSchedule, Ceilings, ConfigSchedule;
    assert parsed.ProfileAt(builtAt) == daemon.ProfileAt(builtAt) && parsed.Rungs() == rungs;
    forall i | 0 <= i < |rungs|
      ensures var rung := Rung(outbound, parsed, rungs[i]);
              && CarriesCeiling(rung, base, daemon, rungs[i])
              && rung.tag == BandwidthRungTag(rungs[i]) && rung.downMbps == rungs[i]
      ensures rungs[i] < INT64_LIMIT ==> BandwidthRungMbps(BandwidthRungTag(rungs[i])) == rungs[i]
    {
      assert daemon.IsRung(rungs[i]) by { assert rungs[i] in rungs; }
      RungCarriesCeiling(server, base, outbound, rungs[i]);
      RungMbpsInvertsRungTag(rungs[i]);
    }
    LadderShape(q, standby, outbound, builtAt);
  }

  /** Without a standby leg the tunnel comes up on the ceiling that applies when it is built. */
  lemma LadderAloneStartsOnTheClock(server: Server, base: OutboundConfig, builtAt: int)
    requires server.upMbps >= 0 && server.downMbps >= 0 && base.kind == HYSTERIA2
    requires |ParsedSchedule(server).Rungs()| >= 2
    ensures var q := server.UriParameters();
            var outbound := base.(upMbps := Ceilings(q).0, downMbps := Ceilings(q).1);
            var outs := ProxyOutbounds(Some(q), None, outbound, builtAt).0;
            && WellDefined(outs)
            && outs[0] == Selector(PROXY, RungTags(server.EffectiveSchedule().Rungs()),
                server.EffectiveSchedule().Member(builtAt))
  {
    var q := server.UriParameters();
    var outbound := base.(upMbps := Ceilings(q).0, downMbps := Ceilings(q).1);
    var sched := ParsedSchedule(server);
    ConfigAndDaemonAgree(server);
    assert sched == ConfigSchedule(q, outbound.upMbps, outbound.downMbps);
    assert sched.ProfileAt(builtAt) == server.EffectiveSchedule().ProfileAt(builtAt);
    LadderTargetIsRung(sched, 0, builtAt);
    SelectOverHasParts(outbound, None, sched.Rungs(), RungOutbounds(outbound, sched, sched.Rungs()),
        sched.Member(builtAt));
    PartsAreWellDefined(ProxyOutbounds(Some(q), None, outbound, builtAt).0, sched.Rungs(), false);
  }

  /** Whatever the server link says and whether or not there is a standby leg, the list the builder
      returns is well defined, has the outbound or selector the routes name, and has what the gate
      measures on; the standby leg is the default wherever there is one. */
  lemma EveryPathIsWellDefined(q: Option<map<string, int>>, standby: Option<OutboundConfig>, outbound: OutboundConfig,
      hour: int)
    requires outbound.kind != "selector" && (standby.Some? ==> standby.value.kind == "vless")
    ensures var (outs, gate) := ProxyOutbounds(q, standby, outbound, hour);
            && WellDefined(outs) && Defines(outs, PROXY) && (gate == "" || Defines(outs, gate))
            && (standby.Some? && (outbound.kind == HYSTERIA2 ==> q.Some?) ==>
                  && outs[0].tag == PROXY && outs[0].defaultMember == REALITY_LEG
                  && outs[|outs| - 1] == standby.value.(tag := REALITY_LEG))
  {
    hide BandwidthRungTag, Schedule.Rungs, Schedule.RungUp;
    var leg := if standby.Some? then Some(standby.value.(tag := REALITY_LEG)) else None;
    var (outs, gate) := ProxyOutbounds(q, standby, outbound, hour);
    assert outs[0].tag == PROXY;
    if outbound.kind == HYSTERIA2 && q.Some? {
      var sched := ConfigSchedule(q.value, outbound.upMbps, outbound.downMbps);
      var rungs := sched.Rungs();
      BottomRung(sched);
      if |rungs| >= 2 {
        LadderTargetIsRung(sched, 0, hour);
        SelectOverHasParts(outbound, leg, rungs, RungOutbounds(outbound, sched, rungs),
            if leg.Some? then REALITY_LEG else sched.Member(hour));
        PartsAreWellDefined(outs, rungs, leg.Some?);
        PartsDefineMembers(outs, rungs, leg.Some?, RungTags(rungs)[|rungs| - 1]);
        assert leg.Some? ==> outs[|rungs| + 1].tag == HY2_PROBE;
      } else if leg.Some? {
        var primary := outbound.(tag := BandwidthRungTag(outbound.downMbps));
        assert RungTags([outbound.downMbps]) == [primary.tag];
        SelectOverHasParts(outbound, leg, [outbound.downMbps], [primary], REALITY_LEG);
        PartsAreWellDefined(outs, [outbound.downMbps], true);
        assert outs[2].tag == HY2_PROBE;
      }
    } else if outbound.kind != HYSTERIA2 && leg.Some? {
      assert outs[1].tag == "proxy-primary" && outs[2].tag == REALITY_LEG;
    }
  }

  /** What servers.json says is used as it stands; what it leaves out has a default. */
  lemma ExplicitCeilingsAreUsed(server: Server)
    requires server.upMbps > 0 && server.downMbps > 0 && server.peakUpMbps > 0 && server.peakDownMbps > 0
    requires server.peakStartHour != server.peakEndHour
    ensures server.EffectiveSchedule() == Schedule(server.upMbps, server.downMbps, server.peakUpMbps,
        server.peakDownMbps, server.peakStartHour, server.peakEndHour)
    ensures Server(0, 0, 0, 0, 0, 0).EffectiveSchedule() == Schedule(5, 20, 2, 5, 12, 2)
    ensures server.(peakUpMbps := 0).EffectiveSchedule().(peakUp := server.peakUpMbps) == server.EffectiveSchedule()
  {
  }

  /** The sentinel separates the two: whatever the standby leg and the hour, the config defines
      proxy-bw-0 and nothing named proxy-bw--1, which is what the daemon asks for. */
  lemma SentinelDisagrees(base: OutboundConfig, standby: OutboundConfig, pin: int, hour: int, builtAt: int)
    requires base.kind == HYSTERIA2
    ensures var server := Server(-1, -1, 0, 0, 0, 0);
            var q := server.UriParameters();
            var outbound := base.(upMbps := Ceilings(q).0, downMbps := Ceilings(q).1);
            var outs := ProxyOutbounds(Some(q), Some(standby), outbound, builtAt).0;
            && Defines(outs, "proxy-bw-0")
            && LadderTarget(server.EffectiveSchedule(), pin, hour) == "proxy-bw--1" && !Defines(outs, "proxy-bw--1")
  {
    var server := Server(-1, -1, 0, 0, 0, 0);
    var q := server.UriParameters();
    var outbound := base.(upMbps := Ceilings(q).0, downMbps := Ceilings(q).1);
    var outs := ProxyOutbounds(Some(q), Some(standby), outbound, builtAt).0;
    assert Ceilings(q) == (0, 0);
    assert outs[1].tag == BandwidthRungTag(0) == "proxy-bw-0";
  }
}
