/** The part of the VyOS 1.4 configuration schema that the staged commands address. */
module DeviceSchema {
  import opened ConfigTree
  import opened Fields

  const MATCH: Schema := Branch(map["address" := Leaf, "port" := Leaf])
  const INTERFACE: Schema := Branch(map["name" := Leaf, "group" := Leaf])

  function NatRule(interfaceKey: string): Schema {
    Branch(map[
      "description" := Leaf, "source" := MATCH, "destination" := MATCH, "protocol" := Leaf,
      "translation" := MATCH, interfaceKey := INTERFACE, "exclude" := FLAG, "log" := FLAG, "disable" := FLAG])
  }

  const VIF: Schema := Branch(map["description" := Leaf, "address" := Multi, "mtu" := Leaf, "disable" := FLAG])
  const ETHERNET: Schema := Branch(map[
    "description" := Leaf, "address" := Multi, "mtu" := Leaf, "speed" := Leaf, "duplex" := Leaf,
    "disable" := FLAG, "vif" := Tag(VIF)])

  const STATE_POLICY: Schema := Branch(map[
    "action" := Leaf, "log" := FLAG, "log-options" := Branch(map["level" := Leaf])])
  const GLOBAL_OPTIONS: Schema := Branch(map[
    "all-ping" := Leaf, "broadcast-ping" := Leaf, "directed-broadcast" := Leaf, "ip-src-route" := Leaf,
    "ipv6-src-route" := Leaf, "ipv6-receive-redirects" := Leaf, "receive-redirects" := Leaf,
    "send-redirects" := Leaf, "log-martians" := Leaf, "syn-cookies" := Leaf,
    "twa-hazards-protection" := Leaf, "apply-to-bridge" := Leaf, "source-validation" := Leaf,
    "ipv6-source-validation" := Leaf, "resolver-cache" := FLAG, "resolver-interval" := Leaf,
    "state-policy" := Branch(map[
      "established" := STATE_POLICY, "related" := STATE_POLICY, "invalid" := STATE_POLICY])])

  const NTP: Schema := Branch(map["server" := Tag(FLAG)])

  const DEVICE: Schema := Branch(map[
    "nat" := Branch(map[
      "source" := Branch(map["rule" := Tag(NatRule("outbound-interface"))]),
      "destination" := Branch(map["rule" := Tag(NatRule("inbound-interface"))])]),
    "interfaces" := Branch(map["ethernet" := Tag(ETHERNET)]),
    "firewall" := Branch(map["global-options" := GLOBAL_OPTIONS]),
    "system" := Branch(map["host-name" := Leaf, "domain-name" := Leaf, "time-zone" := Leaf, "ntp" := NTP]),
    "service" := Branch(map["ntp" := NTP])])
}
