/** Resolution of IANA protocol numbers, given as the decimal text found in a
    flow-log record, to the lower-case protocol names the lookup table uses. */
module Protocols {
  import opened Text

  /** The fixed table of known protocol numbers. */
  const ProtocolMap: map<string, string> := map[
    "1" := "icmp",
    "2" := "igmp",
    "6" := "tcp",
    "17" := "udp",
    "41" := "ipv6-encapsulation",
    "47" := "gre",
    "50" := "esp",
    "51" := "ah",
    "58" := "icmpv6",
    "89" := "ospf",
    "132" := "sctp"
  ]

  /** The name every code outside the table resolves to. */
  const Unknown: string := "unknown"

  /** `protocol_map.get(code, "unknown")`: total, never fails. The sentinel is
      returned exactly for the codes outside the table, and every result is
      lower-case, so it can match a lower-cased lookup-table protocol. */
  function Resolve(code: string): (name: string)
    ensures name == Unknown <==> code !in ProtocolMap
    ensures code in ProtocolMap ==> name == ProtocolMap[code]
    ensures IsLowerCase(name)
  {
    if code in ProtocolMap then ProtocolMap[code] else Unknown
  }

  /** The eleven well-known numbers resolve to their IANA keywords, and a
      number outside the table, such as 999, to the sentinel. */
  lemma ResolveKnownCodes()
    ensures Resolve("1") == "icmp" && Resolve("2") == "igmp"
    ensures Resolve("6") == "tcp" && Resolve("17") == "udp"
    ensures Resolve("41") == "ipv6-encapsulation" && Resolve("47") == "gre"
    ensures Resolve("50") == "esp" && Resolve("51") == "ah"
    ensures Resolve("58") == "icmpv6" && Resolve("89") == "ospf"
    ensures Resolve("132") == "sctp"
    ensures Resolve("999") == Unknown && Resolve("06") == Unknown && Resolve("") == Unknown
  {
  }

  /** Different known codes never share a name, so the resolved name
      identifies the code whenever it is not the sentinel. */
  lemma ResolveInjective(a: string, b: string)
    requires a in ProtocolMap && b in ProtocolMap && a != b
    ensures Resolve(a) != Resolve(b)
  {
  }
}
