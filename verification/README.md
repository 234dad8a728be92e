# The decision logic of mole, modelled and proved

mole supervises a tunnel with two transports: VLESS+REALITY over TCP and hysteria2 over UDP. This
project models the parts of it that decide something, in Dafny, and proves what they promise.
Everything outside those decisions (HTTP calls, system commands, the clock) is an environment that
may answer in any way: a call may fail, a failed write may or may not have taken effect, the daemon
may be stopped between any two primitives.

| file | what it models |
|---|---|
| `FlowRoutes`, `BalancePolicy`, `LaneAllocation`, `ConfigTypes` | the rule-list rewrite that spreads foreign flows over eight source-port lanes, the port bands, leg health, and the assignment of lanes to legs |
| `FloodSensor`, `NodeDialSensor` | two scanners of log output that arrives in arbitrary chunks, and the log follower of the measuring script |
| `BandwidthSchedule`, `Ladder`, `Tags` | the ladder of bandwidth ceilings, its two independent computations, the outbounds built over it |
| `UdpPressure`, `SelfHeal`, `Windows` | the controllers that lower and raise the ceiling, and the rolling windows with their latches |
| `HandoffEvidence` | the protocol that keeps probe results of one leg from being read as results of the other |
| `DnsTransaction`, `LidDebt`, `FakeIpCodec`, `FakeIpRecovery`, `StartupScript`, `ServerList` | transactions that must survive failing calls and stops |
| `Checksum`, `PhaseBudget` | the ICMP checksum; the byte budget of concurrent download workers |

Code that updates fields in place is a class whose methods are proved against functions of the old
state or of a ghost history; the theorems are lemmas about those functions, or statements about whole
logs and traces that every method keeps. Times are integers on one nondecreasing clock. Bytes of log
streams are `char`s. Error texts are not modelled.

Findings that follow from the code as it stands:

- Config and daemon agree on the ladder exactly when neither ceiling is the negative BBR sentinel
  (`Ladder.ConfigAndDaemonAgree`, `Ladder.SentinelDisagrees`).
- When both goroutines hand traffic back to the primary, the later selector write is followed by no
  bump, so dials older than it stay in the window. It repeats the leg in force, so no evidence crosses
  a change of leg (`HandoffEvidence.RedundantWriteIsNotBumped`, `EvidenceNeverCrossesALegChange`).
  A select that reports failure after taking effect is followed by no bump either, and evidence does
  cross, from an entry as from a handback (`LostSelectCrosses`). When old dials are in the window is
  stated exactly, for every interleaving and both kinds of mark (`OldEvidenceExactlyWhen`,
  `LostSelectCrossesExactlyWhen`, `HandbackIsCleanExactlyWhen`).
- A FakeIP range of a single address gets a checkpoint that the next repair rejects
  (`FakeIpRecovery.OneAddressIsRejected`); the exact condition is `FakeIpRecovery.SecondRepairAccepts`.
- `reconcileLidDebt` reads what is owed before it takes its lock, so a call held up in between can
  destroy the server when nothing is owed any more (`LidDebt.RetryWithNothingOwed`). Every such destroy
  had read a hold or debt of the daemon (`EveryRetryWasOwed`); whether that is still in force, and
  whether anything is owed at all, is stated exactly (`RetryIsForWhatIsInForce`,
  `InForceUntilDisturbed`).
- A leg that alternates errors and slow replies is never withdrawn
  (`BalancePolicy.AlternatingBadNeverWithdraws`).

Assumptions about the surroundings, each of which the source relies on:

- Rules naming `proxy` carry no action but `route`, and actions change neither a flow's source port nor
  the rule list.
- Legs are changed only by `enterFallback` and `handoffToPrimary`. The fallback is not yet due for a
  return while `enterFallback` is still writing its selector, because the dwell is ten minutes at least.
- A selector write that reports failure either has no effect or has taken effect by then.
- Nobody else edits the system resolvers, the selectors, the server list or the scripts of that name
  while the modelled code is at work, and no service has the word `Empty` as its only resolver.
- The provider's listing, followed from the first page to an end, shows every script; a reply with an
  id names a script with the submitted content.

## Model

| member | source | states |
|---|---|---|
| `BalancePolicy.BalancePortRanges` | core/balance_policy.go:28-49 | the loop yields the bands of the lane, and none for a lane that does not exist |
| `BalancePolicy.PortBandsPartition` | core/balance_policy.go:26-49 | a port lies in band `port/256` of lane `(port/32)%8` and in no other band of any lane; port zero and ports past 65535 lie in none |
| `BalancePolicy.LaneMembership` | core/balance_policy.go:26-49 | membership in a lane's bands is exactly `1 <= port <= 65535` and the lane of the port |
| `BalancePolicy.BalanceLeg.Observe` | core/balance_policy.go:67-94 | the counters stay the trailing runs of errors, slow and clean replies, and the leg is healthy iff the last run of three equal measurements was clean |
| `BalancePolicy.AlternatingBadNeverWithdraws` | core/balance_policy.go:68-88 | a tail of alternating errors and slow replies of any length leaves the verdict unchanged |
| `BalancePolicy.BalanceController.Observe` | core/balance_policy.go:102-119 | a hy2 leg that is not healthy gets no lane; beside a healthy one REALITY keeps six of the eight if healthy and none otherwise, health being the last run of three |
| `FlowRoutes.FlowRoutes` | config/balance.go:16-41 | the nested loops produce the rewritten list: eight shards before every unscoped `proxy` rule, every rule kept, eight trailing shards |
| `FlowRoutes.FlowSelectors` | config/balance.go:5-14 | eight selectors over the three targets, each defaulting to `proxy` |
| `FlowRoutes.DecideExpanded` | config/balance.go:16-41 | first-match over the rewritten list gives the lane of the source port when an unscoped `proxy` rule or no rule decides and the port is not zero, and the original decision otherwise |
| `FlowRoutes.LanesTakeProxyFlows` | config/balance.go:19-28 | only flows decided `proxy` reach the lanes, and all of them when no `proxy` rule is inverted or port-scoped |
| `FlowRoutes.FlowRoutesPreserveMeaning` | config/balance.go:16-41 | non-`proxy` decisions are untouched, and with the lane selectors at their default every flow resolves to where it went before |
| `FlowRoutes.ProxyFlowsAreSpreadByPort` | config/balance.go:19-40 | without inverted or scoped `proxy` rules, a flow gets lane `(port/32)%8` exactly when it was decided `proxy` |
| `LaneAllocation.ApplyBalancedLanes` | core/balance_io.go:7-33 | a valid allocation fails exactly when a call does; success converges all lanes; failure leaves a converged prefix, the failing lane either way, and an untouched rest; a repeat after success changes nothing and says so; other selectors are never touched |
| `LaneAllocation.AllocationIsExactAndEven` | core/balance_io.go:13-17 | exactly the requested lanes are on hy2, and any run of consecutive lanes holds its proportional share rounded down or up |
| `LaneAllocation.FlowsFollowTheAllocation` | core/balance_io.go:12-31 | with an allocation in force a flow decided by the lanes leaves on the leg its port's lane was given |
| `LaneAllocation.ReleasedLanesFollowProxy` | core/balance_io.go:12-16 | with the allocation released every flow of the lanes goes on to `proxy`, as before sharding |
| `FloodSensor.CountIsOccurrences` | core/flood.go:52-55 | for a marker without a border the non-overlapping count is the number of occurrences |
| `FloodSensor.OccurrencesAppend` | core/flood.go:37-40 | counting a chunk behind the last marker-length-minus-one bytes finds exactly the occurrences that end in it |
| `FloodSensor.FloodMarkerBorderFree` | core/flood.go:27 | the marker has no border |
| `FloodSensor.Sensor.Write` | core/flood.go:43-63 | after any write the sequence is the occurrence count of the whole stream modulo 2^64, split between what was taken and what is pending; the time moves iff something was seen |
| `FloodSensor.Sensor.Take` | core/flood.go:83-89 | the results of all takes plus the pending count stay the total |
| `FloodSensor.WriteAll` | core/flood.go:43-63 | any chunking of a stream ends with the marker count of the stream |
| `FloodSensor.OverflowWatch.Poll` | scripts/measure-dual.py:33-48 | a poll of a file that only grew adds the occurrences ending in the new bytes; a rotated or truncated file starts a new segment, even if its read fails; a stat or read that fails changes nothing else |
| `NodeDialSensor.AppendPart` | core/node_dial.go:49-58 | bytes without a newline extend the pending line and report nothing |
| `NodeDialSensor.AppendNewline` | core/node_dial.go:59-67 | a newline counts the pending line iff it is at most 4096 bytes and is a report |
| `NodeDialSensor.Sensor.Write` | core/node_dial.go:39-71 | however the stream is split, the sequence is the report count of everything since the last configure; the time moves iff something was counted |
| `NodeDialSensor.Sensor.Configure` | core/node_dial.go:29-37 | starts a new stream with nothing counted |
| `NodeDialSensor.NoTargetNoReports` | core/node_dial.go:59 | without a valid target nothing is counted |
| `Tags.AtoiInvertsItoa` | core/schedule.go:38 | reading a rendered 64-bit integer gives it back |
| `Tags.RungTagsDistinct` | core/schedule.go:26 | tags of different rungs differ, and differ from every leg and selector |
| `Tags.RungMbpsInvertsRungTag` | core/schedule.go:26-43 | reading a rung's tag gives the rung, and 0 for anything not positive |
| `BandwidthSchedule.ComputeRungs` | core/schedule.go:134-166 | the loop and the sort yield the strictly ascending list of exactly the offered ceilings |
| `BandwidthSchedule.Schedule.Rungs` | core/schedule.go:127-166 | ascending; a ceiling is offered iff it is a configured positive one or a standard one below the maximum |
| `BandwidthSchedule.ComputeStepDown` | core/schedule.go:175-191 | the scan and the clamped index give the rung so many below the snap |
| `BandwidthSchedule.ComputeHasRung` | core/schedule.go:195-202 | membership in the ladder |
| `BandwidthSchedule.BottomRung` | core/schedule.go:134-166 | every ladder starts at 1 |
| `BandwidthSchedule.StepDownDescends` | core/schedule.go:168-191 | descending stays on the ladder, never exceeds a ceiling of 1 or more, and is strict from any rung but the bottom one |
| `BandwidthSchedule.StepDownComposes` | core/schedule.go:168-191 | descending by a and then b is descending by a+b |
| `BandwidthSchedule.StepDownSkipsNothing` | core/schedule.go:168-191 | a single step from a rung goes to the next rung below it |
| `BandwidthSchedule.RungUpKeepsTheRatio` | core/schedule.go:204-225 | an unmeasured rung keeps the off-peak up:down ratio, rounded down, and never gets zero |
| `BandwidthSchedule.SwappedWindowIsTheComplement` | core/schedule.go:102-111 | exchanging the ends of a peak window, wrapping or not, exchanges peak and off-peak hours |
| `BandwidthSchedule.PeakIsAnArcOfTheClock` | core/schedule.go:102-127 | the peak hours are the arc of the clock from start to end, counted modulo 24, and decide which ceiling is named |
| `Ladder.ConfigAndDaemonAgree` | cmd/server.go:186-223 | the schedule parsed back from the URI has the daemon's rungs and profile at every hour iff neither ceiling is negative |
| `Ladder.SentinelDisagrees` | config/parser.go:539 | with the sentinel the config defines proxy-bw-0 and nothing named proxy-bw--1, which is what the daemon asks for |
| `Ladder.ParseCeilings` | config/parser.go:703-718 | the ceilings of the parsed outbound: defaults for unset, zero for negative |
| `Ladder.BuildProxyOutbounds` | config/parser.go:464-561 | the outbounds and the gate member on every path, rungs built in a loop |
| `Ladder.LadderCarriesItsCeilings` | config/parser.go:539-560 | with non-negative ceilings, with or without a standby leg: rung by rung the outbounds are the parsed server with the tag, the down ceiling the tag names, and the up ceiling that goes with it; the selectors, defaults and gate around them |
| `Ladder.EveryPathIsWellDefined` | config/parser.go:464-561 | for every link, leg and outbound the list names nothing that is not there, has what the routes and the gate name, and defaults to the standby leg where there is one |
| `Ladder.ExplicitCeilingsAreUsed` | cmd/server.go:186-223 | ceilings and hours a server states are used as they stand; what it leaves out has a default |
| `Ladder.DaemonTargetsAreDefined` | core/supervisor.go:990-995 | with a standby leg and non-negative ceilings, the rung the daemon targets, a pinned one or else the clock's, is a member of the main and of the probe selector, tags are distinct, and no selector names what is not there |
| `Ladder.LadderAloneStartsOnTheClock` | config/parser.go:553-560 | without a standby leg the selector holds the daemon's rungs and starts on the clock's |
| `UdpPressure.UdpPressure.Target` | core/udp_pressure.go:23-64 | one call, as a function of the old state; the answer is what was asked for, or the cap if that is lower |
| `UdpPressure.CapStaysOnTheLadder` | core/udp_pressure.go:23-64 | the cap is 0 or a rung, and the answer a rung at or below the desired one |
| `UdpPressure.DescentsReachTheCaller` | core/udp_pressure.go:28-41 | a descent answers strictly below the desired, live and capped ceilings, unless at the bottom rung, and skips no rung |
| `UdpPressure.EveryDescentReachesTheCaller` | core/udp_pressure.go:28-63 | the same of every descent of any run |
| `UdpPressure.CapMoves` | core/udp_pressure.go:43-58 | a change of the cap that no descent made is a recovery, to the next rung up or to none |
| `UdpPressure.DescendsExactlyWhen` | core/udp_pressure.go:26-41 | in any run a call descends iff the refusal counter has moved since the call before, the last refusal is at most a minute old, and no descent was made within the last minute |
| `UdpPressure.RecoversExactlyWhen` | core/udp_pressure.go:43-60 | in any run a call raises or clears the cap iff there is one, the call is healthy without a fresh refusal, and an unbroken quiet stretch of fifteen minutes lies behind it |
| `UdpPressure.NoLadderNoCap` | core/udp_pressure.go:30-63 | without a ladder there is never a cap |
| `UdpPressure.RunKeepsCapOnTheLadder` | core/udp_pressure.go:23-64 | over any run the cap stays 0 or a rung |
| `UdpPressure.DescentsAreSpaced` | core/udp_pressure.go:30-41 | in any run descents are a minute apart |
| `UdpPressure.RecoveriesAreSpaced` | core/udp_pressure.go:43-60 | in any run the cap rises or clears at most once in 15 minutes and never within 15 minutes of a fresh refusal |
| `UdpPressure.CooldownFollowsTheLastRefusal` | core/udp_pressure.go:21-28 | the cooldown in force is the 30 seconds after the last fresh refusal |
| `SelfHeal.HealState.ObserveTick` | core/supervisor.go:662-714 | one minute, as a function of the old state |
| `SelfHeal.HealState.FreezeTick` | core/supervisor.go:635-638 | a minute without evidence changes neither the backoff nor the streaks |
| `SelfHeal.HealState.Retarget` | core/supervisor.go:613-621 | a new target restarts the descent, the same one changes nothing |
| `SelfHeal.Accounting` | core/supervisor.go:580-714 | between retargets 2*descents <= flooding minutes outside blackouts, 15*ascents <= clean minutes, and the backoff is their difference within 0..3 |
| `SelfHeal.NoFloodNoDescent` | core/supervisor.go:642-698 | without such flooding there is no descent |
| `SelfHeal.FloodsLowerTheCeiling` | core/supervisor.go:686-697 | a fresh controller that sees no clean minute is one rung down for every two flooding minutes outside blackouts, at most three |
| `SelfHeal.TwoFloodsLowerOneRung` | core/supervisor.go:686-697 | from wherever a run has led, two such minutes with no clean one between them lower the ceiling by one rung, unless it is three down |
| `SelfHeal.MovesNeedAStreak` | core/supervisor.go:662-714 | the ceiling comes down only in a flooding minute that is at least the second since a clean one, and goes up only in a clean minute that is at least the fifteenth in a row |
| `SelfHeal.FortyFiveCleanMinutesRestore` | core/supervisor.go:699-707 | from wherever a run has led, 45 clean minutes with frozen ones anywhere between restore 0 |
| `SelfHeal.AppliedCeiling` | core/supervisor.go:1552-1557 | the applied ceiling is the rung as many places below the target as the run has backed off, or the bottom one; it is the target iff the backoff is gone or nothing lies below |
| `Windows.DialState.RecordDial` | utils/state.go:304-322 | the window is the last twenty outcomes since the reset and the latch the one their history gives |
| `Windows.DialState.DialBad` | utils/state.go:340-348 | counts the slow or failed dials among the last twenty |
| `Windows.DialState.DialFails` | utils/state.go:360-368 | counts the failed ones, never more than the bad ones |
| `Windows.DialState.ResetDials` | utils/state.go:333-337 | empties the window and drops the latch |
| `Windows.LatchEdgesAreSpaced` | utils/state.go:374-382 | at least three dials lie between any rise of the latch and a later fall and between any fall and a later rise |
| `Windows.LatchedExactlyWhen` | utils/state.go:374-382 | the latch is set iff the window once held four bad dials and has not since been full with at most one |
| `Windows.LinkState.LinkMedianMs` | utils/link.go:80-92 | the median is below a threshold iff more than half of the answered echoes are |
| `Windows.LinkState.RecordLink` | utils/link.go:59-66 | the window is the last twelve echoes and the verdict, with the time it turned bad, the one their history gives |
| `Windows.LinkIsBadExactlyWhen` | utils/link.go:94-119 | the link is bad iff a full window once convicted it and none since was sound |
| `Windows.BadSinceItsConviction` | utils/link.go:102-119 | the verdict dates from the echo that turned it bad |
| `Windows.LossAloneNeverConvicts` | utils/link.go:102-111 | lost echoes never turn the verdict bad while most answered ones are prompt |
| `HandoffEvidence.ProbeEvidence.FinishKeepalive` | core/supervisor.go:917-943 | a result whose generation is stale changes nothing; otherwise the failure streak grows or ends |
| `HandoffEvidence.ProbeEvidence.FinishDial` | core/supervisor.go:1030-1035 | a dial whose generation is stale is not recorded |
| `HandoffEvidence.ProbeEvidence.ResetKeepaliveCount` | core/supervisor.go:1472-1487 | the bump empties both kinds of evidence |
| `HandoffEvidence.EvidenceIsCurrent` | core/supervisor.go:910-943 | in every interleaving every counted failure and every dial in the window captured the generation in force |
| `HandoffEvidence.CurrentExactlyWhenUndisturbed` | core/supervisor.go:911-921 | in every interleaving a probe is current iff nothing bumped the generation since it began |
| `HandoffEvidence.EvidenceIsWhatEndedSinceTheBump` | core/supervisor.go:917-943 | in every interleaving the counted failures are the keepalives that failed in a row since the last bump, and the window the last twenty dials since then, without those a bump overtook |
| `HandoffEvidence.EvidenceNeverCrossesALegChange` | core/supervisor.go:1312-1347 | in every interleaving in which no select was lost, with no handoff between its write and its bump, every dial in the window or about to enter it was started after the last change of the leg |
| `HandoffEvidence.OldEvidenceExactlyWhen` | core/supervisor.go:1025-1035 | in every interleaving, whatever fails or is lost, a dial older than the last leg change (or selector write) is in the window or about to enter it iff that change found evidence, no bump followed, and fewer than twenty newer dials were recorded since |
| `HandoffEvidence.RedundantWriteIsNotBumped` | core/supervisor.go:1405-1413 | a run in which a second handback bumps nothing and an older dial stays in the window |
| `HandoffEvidence.HandbackIsCleanExactlyWhen` | core/supervisor.go:1405-1466 | after the scheduler's handback every dial in the window or in flight is later than the last write iff the handback still held the fallback it releases, or its write found nothing older that is still there |
| `HandoffEvidence.LostSelectCrossesExactlyWhen` | core/supervisor.go:1336-1342 | the first select that reports failure after taking effect leaves evidence about the other leg iff it changed the leg and found a dial recorded or in flight |
| `HandoffEvidence.LostSelectCrosses` | core/supervisor.go:1405-1413 | a run for the entry and a run for the handback |
| `DnsTransaction.StripTunGateway` | utils/dns.go:134-142 | the list without the gateway, in order |
| `DnsTransaction.StripAppend` | utils/dns.go:134-142 | each address is kept or dropped by itself, in order |
| `DnsTransaction.GatewayIsPadded` | utils/dns.go:137 | an address is the gateway iff it is 172.19.0.1 but for white space around it |
| `DnsTransaction.SetIsSafe` | utils/dns.go:57-86 | the write-ahead rule under which changing a service loses nothing |
| `DnsTransaction.BackupIsSafe` | utils/dns.go:188-198 | the rule under which replacing or dropping the backup loses nothing |
| `DnsTransaction.Machine.TakeOver` | utils/dns.go:57-86 | at every point of a stop each service is on its originals or in the saved backup; it fails iff one of its calls does; once the originals are saved every listed service is at the tunnel unless its own call failed |
| `DnsTransaction.Machine.Restore` | utils/dns.go:153-199 | the same at every point; it fails iff one of its calls does; whatever the other calls do, a backed-up service whose call succeeds is on its originals, one whose call fails stays in the backup, and success drops the backup; without a backup no listed service whose calls succeed is left on the gateway |
| `DnsTransaction.AnyRun` | utils/dns.go:57-199 | over any sequence of take-overs and restores cut short anywhere, no service ever loses its originals |
| `LidDebt.Supervisor.AttemptLidDestroy` | core/destroy.go:144-189 | the state after a destroy, whatever it returns; a retry of a pending debt keeps its start and adds one attempt, and the debt record goes only after success or nothing to destroy |
| `LidDebt.Supervisor.OnLidClose` | core/destroy.go:193-232 | destroys at once without a grace period; with one, keeps a standing hold and replaces anything else, a pending debt included; the debt record goes only with the server |
| `LidDebt.Supervisor.ReconcileLidDebt` | core/destroy.go:287-352 | an undisturbed call destroys what is owed as soon as the lid, the link, the minute and the grace allow and leaves it alone until then; an open lid drops a hold and gives up a debt; nothing is done when nothing is owed |
| `LidDebt.Supervisor.RecordLidDestroyPending` | core/supervisor.go:1823-1834 | the first failure stamps the start, later ones only count |
| `LidDebt.RetriesAreSpaced` | core/destroy.go:305-343 | in every run a retry comes a minute at least after any earlier attempt of the same daemon, a lid close's included |
| `LidDebt.EveryRetryWasOwed` | core/destroy.go:246-343 | in every interleaving of lid closes, reconcile calls and restarts, a destroy that no lid close issued was issued by a call that had read a hold or debt of the daemon, with the lid not open, a link present and any grace elapsed since the time it read |
| `LidDebt.RetryIsIssuedExactlyWhen` | core/destroy.go:294-351 | in every run, a call that has read what is owed issues a destroy at its turn iff the lid is not open, there is a link, a minute has passed since the last attempt and the grace of a hold is over |
| `LidDebt.ReadIsRemembered` | core/destroy.go:294-322 | what a call read is what it acts on at its turn, whatever else happens |
| `LidDebt.DebtFileFollowsTheDestroys` | core/supervisor.go:1806-1892 | in every run the debt file disappears only when an issued destroy returns and leaves no server, and is written only when one fails or a debt is given up, with the figures in force |
| `LidDebt.WrittenDebtIsInForce` | core/supervisor.go:1806-1892 | the converse: a finished destroy or a debt given up that can write leaves the file saying how it ended |
| `LidDebt.HoldDatesFromItsClose` | core/supervisor.go:1844-1851 | in every run a hold dates from the lid close that noted it |
| `LidDebt.PendingDebtCountsItsFailures` | core/supervisor.go:1823-1834 | in every run a pending debt dates from the first failure that left one and counts every failed destroy since |
| `LidDebt.RetryWithNothingOwed` | core/destroy.go:294-314 | a run in which a call destroys the server for a hold that another call has dropped |
| `LidDebt.InForceUntilDisturbed` | core/destroy.go:294-343 | what a call read stays in force until its turn iff no close noted a hold, no restart came and nothing finished but a failed retry of a debt |
| `LidDebt.InForceExactlyWhen` | core/destroy.go:294-343 | the phase and time at its turn are those it read iff nothing disturbed them, or the same were put back and not disturbed since |
| `LidDebt.OwedExactlyWhen` | core/destroy.go:294-343 | something is owed at its turn iff nothing ended it after the read, or after something later began |
| `LidDebt.RetryIsForWhatIsInForce` | core/destroy.go:287-352 | both conditions, for every retry of every run |
| `FakeIpCodec.DecodeInvertsEncode` | core/fakeip_recovery.go:198-233 | decoding an encoded checkpoint gives it back, or rejects it iff a valid range does not hold its own address |
| `FakeIpCodec.EncodedLayout` | core/fakeip_recovery.go:198-211 | the bytes of one checkpoint, field by field |
| `FakeIpCodec.UnmarshalPrefixIsOk` | core/fakeip_recovery.go:213-232 | every prefix the decoder reads is well formed, so its own consistency checks are the only ones |
| `FakeIpCodec.DecodeFakeIPMetadata` | core/fakeip_recovery.go:213-233 | reads four framed fields and checks them |
| `FakeIpCodec.EncodeFakeIPMetadata` | core/fakeip_recovery.go:198-211 | writes four framed fields |
| `FakeIpRecovery.Cache.Decide` | core/fakeip_recovery.go:97-143 | the decision, for any order of the records |
| `FakeIpRecovery.Cache.Recover` | core/fakeip_recovery.go:97-178 | succeeds iff the cache is not rejected and no call fails; then exactly the checkpoint decided on is written; nothing else ever is |
| `FakeIpRecovery.DecisionIsUnique` | core/fakeip_recovery.go:110-143 | the outcome does not depend on the iteration order |
| `FakeIpRecovery.RejectsExactlyWhen` | core/fakeip_recovery.go:100-130 | a cache of the configured ranges is rejected iff some mapping has no address in its range, no valid domain of 1 to 253 bytes, or no way back; one of other ranges is left alone |
| `FakeIpRecovery.RepairIsConservative` | core/fakeip_recovery.go:126-143 | on acceptance, with or without a write, the checkpoint is at or past every mapped address and the previous one, and the forward map is injective in each family |
| `FakeIpRecovery.SecondRepairAccepts` | core/fakeip_recovery.go:97-143 | a second repair never writes; it accepts iff every range holds its position |
| `FakeIpRecovery.OneAddressIsRejected` | core/fakeip_recovery.go:97-143 | a store with one mapped address of a range of one: the repair writes, the next rejects |
| `FakeIpRecovery.RepairIsIdempotent` | core/fakeip_recovery.go:97-143 | for masked ranges of two addresses or more a second repair accepts and writes nothing |
| `StartupScript.FindStartupScriptByName` | cmd/deploy_vultr.go:180-232 | terminates on every provider; a found id has the name, finding nothing means there is nothing, and it fails only when a page cannot be read or the listing leads nowhere |
| `StartupScript.CreateStartupScript` | cmd/deploy_vultr.go:106-176 | at most one script is created, a repeat follows only a server-side error and a complete empty lookup, a returned id holds exactly the submitted content, and it gives up only for one of the stated reasons |
| `Checksum.IcmpChecksum` | core/linkprobe.go:186-198 | terminates, and up to 131072 bytes is the complement of the ones-complement sum of section 1 of RFC 1071 |
| `Checksum.ChecksumZero` | core/linkprobe.go:186-198 | a packet checks to zero iff its words add up to a positive multiple of 65535 |
| `Checksum.SealedPacketChecksToZero` | core/linkprobe.go:137 | storing the checksum into its zeroed word makes the packet check to zero |
| `Checksum.Seal` | core/linkprobe.go:132-137 | does so in place in bytes 2 and 3 |
| `ServerList.ServerStore.AppendServer` | cmd/server_store.go:102-112 | refuses a recorded name or instance, and activates only the first entry |
| `ServerList.AppendAddsOne` | cmd/server_store.go:102-112 | refused iff the name or the nonempty instance is recorded; otherwise the entry comes last, active only if alone, and the others stay |
| `ServerList.ServerStore.ChangeServer` | cmd/server_store.go:114-124 | rewrites the details of the first selected entry, or refuses |
| `ServerList.ChangeRewritesTheEntryAskedFor` | cmd/server_store.go:114-124 | in a valid list rewrites the details of the entry asked for and nothing else, and is refused iff there is none |
| `ServerList.ServerStore.RemoveRecordedServer` | cmd/server_store.go:126-139 | drops the first selected entry and passes its activity to the head |
| `ServerList.RemoveTakesTheEntryAskedFor` | cmd/server_store.go:126-139 | in a valid list takes out the entry asked for and no other, keeps the order, and activates the head only of a list that lost its active entry |
| `ServerList.ServerStore.UseServer` | cmd/server.go:1440-1449 | activates exactly the named entry |
| `ServerList.UseActivatesTheEntryNamed` | cmd/server.go:1440-1449 | in a valid list activates the entry of that name and no other, leaves all else, and is refused iff there is none |
| `ServerList.ServerStore.FillAddresses` | cmd/server.go:1484-1503 | fills exactly the entries that lack an address and reports their number |
| `ServerList.EveryRunKeepsInv` | cmd/server_store.go:102-139 | from the empty list, over any operations and failing writes, names and instance ids stay distinct and exactly one entry is active unless the list is empty |
| `ServerList.FillIsIdempotent` | cmd/server.go:1484-1503 | an entry with an address is never touched, and a repeat fills nothing |
| `ServerList.FillGivesAddresses` | cmd/server.go:1484-1503 | an entry without an address gets that of its instance, if the instance has one |
| `ServerList.FillCountsWhatChanged` | cmd/server.go:1484-1503 | the number reported is the number of entries that changed |
| `PhaseBudget.StepKeepsInv` | scripts/measure-dual.py:60-103 | every step keeps reserved and received bytes accounted for |
| `PhaseBudget.DeliveredWithinReserved` | scripts/measure-dual.py:65-90 | in every interleaving the remainder is never negative and no more is delivered than reserved |
| `PhaseBudget.CompleteMeansEverythingArrived` | scripts/measure-dual.py:121-142 | a phase reported complete reserved its whole budget and received every request in full |
| `PhaseBudget.RemainderFollowsTheRequests` | scripts/measure-dual.py:65-69 | in every interleaving the remainder is the budget less the full requests started, and no request starts without one |
| `PhaseBudget.FaultFreePhasesAreComplete` | scripts/measure-dual.py:60-142 | the converse: when nothing fails and nobody is stopped, the workers return only with the whole budget delivered in the fewest requests, and the phase is complete |

## Left out

- Port ranges as `low:high` text: they are pairs of numbers.
- The warm keepalive arm's leg identity: an idle connection in flight when idle connections are closed may be reused later, so only its generation is claimed.
- Selector writes by the scheduler's own tick, `mole leg`, `mole ceiling` and the dual-routing controller: they bypass the handoff protocol by design.
- `keepaliveLegAction`, the comparative leg gate and the dwell arithmetic of `fallbackState`: here the goroutines may start a handoff at any time the fallback flag allows, which covers them.
- `State.Health`, `Usable`, status publication and log texts: one-branch facts and user interface.
- The text of a dial-error line (escape codes, substrings) and the URL rewriting of a pagination link: one predicate and one function that the model leaves open.
- String-level URIs, JSON, base64, X.509 and the bbolt file format; a FakeIP configuration with several stores; retention of pre-repair snapshots.
- Unicode white space in `TrimSpace` of a resolver: only ASCII white space is trimmed.
- Per-port statistics of a measuring phase: `bytes` is their sum.
- `FloodSensor.Sensor.seen` and other plain counters as 64-bit integers: only the two `uint64` sequences wrap.
- Hot-rule grouping as an equivalence with inline rules; `rulesRetry`, `idempotent`, `firewallRuleKey`.
