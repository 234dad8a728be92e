/** The parts of the sing-box configuration (config/types.go) that decide where a flow goes. */
module ConfigTypes {
  import opened BalancePolicy

  datatype OutboundConfig = OutboundConfig(
    kind: string,            // "type"
    tag: string,
    upMbps: int,
    downMbps: int,
    outbounds: seq<string>,  // the members of a selector
    defaultMember: string,
    settings: string)        // address, credentials, TLS and the rest

  function Selector(tag: string, members: seq<string>, defaultMember: string): OutboundConfig {
    OutboundConfig("selector", tag, 0, 0, members, defaultMember, "")
  }

  /** What a rule asks of a flow apart from its source port and the invert flag. */
  datatype Criteria = Criteria(
    protocol: string, ipCidr: seq<string>, domainSuffix: seq<string>, domainKeyword: seq<string>,
    ruleSet: seq<string>, inbound: seq<string>)

  const NO_CRITERIA := Criteria("", [], [], [], [], [])

  datatype RouteRule = RouteRule(
    sourcePortRange: seq<PortRange>,
    action: string,
    criteria: Criteria,
    invert: bool,
    outbound: string)
}
