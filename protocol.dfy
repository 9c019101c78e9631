/**
  The protocol resolver: the decimal code of an IP protocol, as it stands in
  field 7 of a flow-log record, to the lower-case keyword of that protocol.
  The nine codes known are entries of the IANA "Assigned Internet Protocol
  Numbers" registry.
 */
module Protocol {
  import opened Text

  /** The known codes, as the strings they are written as in the log. */
  const ProtocolNames: map<string, string> := map[
    "1" := "icmp",
    "6" := "tcp",
    "17" := "udp",
    "2" := "igmp",
    "89" := "ospf",
    "132" := "sctp",
    "47" := "gre",
    "50" := "esp",
    "51" := "ah"
  ]

  const Unknown: string := "unknown"

  /** The keywords a resolved protocol can have. */
  const ProtocolKeywords: set<string> :=
    {"icmp", "igmp", "tcp", "udp", "gre", "esp", "ah", "ospf", "sctp", Unknown}

  /** `map_protocol_number`: total; never empty; already lower case, so a
      following `lower()` changes nothing; `"unknown"` exactly for the
      strings that are not one of the nine codes. */
  function MapProtocolNumber(protocolNum: string): (name: string)
    ensures name in ProtocolKeywords
    ensures name != []
    ensures Lower(name) == name
    ensures name == Unknown <==> protocolNum !in ProtocolNames
  {
    var name := if protocolNum in ProtocolNames then ProtocolNames[protocolNum] else Unknown;
    assert forall i :: 0 <= i < |name| ==> !IsUpper(name[i]);
    name
  }

  /** The registry assignments the resolver knows. */
  lemma KnownProtocolNumbers()
    ensures MapProtocolNumber("1") == "icmp" && MapProtocolNumber("2") == "igmp"
    ensures MapProtocolNumber("6") == "tcp" && MapProtocolNumber("17") == "udp"
    ensures MapProtocolNumber("47") == "gre" && MapProtocolNumber("50") == "esp"
    ensures MapProtocolNumber("51") == "ah" && MapProtocolNumber("89") == "ospf"
    ensures MapProtocolNumber("132") == "sctp"
  {
  }

  /** The code is matched as written, not as a number: `"06"` and `" 6"`
      are read by `int()` as 6, yet resolve to `"unknown"`. */
  lemma CodesMatchedAsText()
    ensures PyInt("06") == Some(6) && MapProtocolNumber("06") == Unknown
    ensures PyInt(" 6") == Some(6) && MapProtocolNumber(" 6") == Unknown
  {
    assert IntStrip("06") == "06";
    assert IsDigitBody("06");
    assert DecimalValue("0") == 0;
    assert IntStripLeft(" 6") == "6";
    assert IntStrip(" 6") == "6";
    assert IsDigitBody("6");
  }
}
