/**
  The flow-log pass (`parse_flow_log`): each line is split into fields,
  rejected when it is too short or lacks its port or protocol, and otherwise
  classified through the lookup table and counted twice, once by tag and once
  by `(port, protocol)`.
 */
module FlowLog {
  import opened Text
  import opened Protocol
  import opened Tally
  import opened Lookup

  /** The tag of a record whose key is not in the lookup table. */
  const Untagged: string := "Untagged"

  /** A record needs at least this many fields. */
  const MinFields: nat := 14

  /** Field index of the destination port, and of the protocol number. */
  const PortField: nat := 6
  const ProtocolField: nat := 7

  /** The placeholder of a field the log leaves empty. */
  const Absent: string := "-"

  /** What becomes of one line of the log. */
  datatype LineOutcome =
    | Malformed              // fewer than 14 fields
    | MissingField           // port or protocol number is "-"
    | Flow(key: Key)         // counted under this (port, protocol) key

  /** `line.strip().split()`: the whitespace-separated words of the line,
      the `strip()` changing nothing about them. */
  function Fields(line: string): (fields: seq<string>)
    ensures fields == Split(line)
    ensures forall i :: 0 <= i < |fields| ==> IsWord(fields[i])
  {
    SplitStrip(line);
    Split(Strip(line))
  }

  /** The checks and the normalisation `parse_flow_log` applies to one
      line, up to building its key. An accepted line's port is a field of the line other than `"-"` and its
      protocol is a resolved keyword. */
  function ParseLine(line: string): (r: LineOutcome)
    ensures r.Malformed? <==> |Fields(line)| < MinFields
    ensures r.MissingField? <==>
      |Fields(line)| >= MinFields && (Fields(line)[PortField] == Absent || Fields(line)[ProtocolField] == Absent)
    ensures r.Flow? ==> r.key.port == Fields(line)[PortField] && r.key.port != Absent && IsWord(r.key.port)
    ensures r.Flow? ==> r.key.protocol == MapProtocolNumber(Fields(line)[ProtocolField]) && r.key.protocol in ProtocolKeywords
  {
    var fields := Fields(line);
    if |fields| < MinFields then Malformed
    else
      var dstport := Strip(fields[PortField]);
      var protocolNum := Strip(fields[ProtocolField]);
      if dstport == Absent || protocolNum == Absent then MissingField
      else Flow(Key(dstport, Lower(MapProtocolNumber(protocolNum))))
  }

  /** `lookup_dict.get(key, 'Untagged')`. */
  function Classify(lookup: map<Key, string>, key: Key): (tag: string)
    ensures key in lookup ==> tag == lookup[key]
    ensures key !in lookup ==> tag == Untagged
    ensures tag == Untagged || tag in lookup.Values
  {
    if key in lookup then lookup[key] else Untagged
  }

  /** The two frequency tables. */
  datatype Counts = Counts(tags: map<string, nat>, ports: map<Key, nat>)

  const NoCounts: Counts := Counts(map[], map[])

  /** The effect of one line on the two tables. A rejected line changes
      nothing; an accepted one adds one to the count of its tag and one to the
      count of its key, and to no other entry. */
  function Step(c: Counts, line: string, lookup: map<Key, string>): (r: Counts)
    ensures |Fields(line)| < MinFields ==> r == c
    ensures |Fields(line)| >= MinFields && (Fields(line)[PortField] == Absent || Fields(line)[ProtocolField] == Absent) ==> r == c
    ensures ParseLine(line).Flow? ==>
      var key := ParseLine(line).key;
      var tag := Classify(lookup, key);
      && Get(r.tags, tag) == Get(c.tags, tag) + 1
      && (forall t :: t != tag ==> Get(r.tags, t) == Get(c.tags, t))
      && r.tags.Keys == c.tags.Keys + {tag}
      && Get(r.ports, key) == Get(c.ports, key) + 1
      && (forall k :: k != key ==> Get(r.ports, k) == Get(c.ports, k))
      && r.ports.Keys == c.ports.Keys + {key}
  {
    match ParseLine(line)
    case Flow(key) => Counts(Bump(c.tags, Classify(lookup, key)), Bump(c.ports, key))
    case _ => c
  }

  /** The two tables after the lines have been read one after the other. */
  function Aggregate(lines: seq<string>, lookup: map<Key, string>): Counts
    decreases |lines|
  {
    if lines == [] then NoCounts
    else Step(Aggregate(lines[..|lines| - 1], lookup), lines[|lines| - 1], lookup)
  }

  /** The loop of `parse_flow_log`. */
  method ParseFlowLog(lines: seq<string>, lookup: map<Key, string>)
    returns (tagCounts: map<string, nat>, portProtocolCounts: map<Key, nat>)
    ensures Counts(tagCounts, portProtocolCounts) == Aggregate(lines, lookup)
  {
    tagCounts, portProtocolCounts := map[], map[];
    for i := 0 to |lines|
      invariant Counts(tagCounts, portProtocolCounts) == Aggregate(lines[..i], lookup)
    {
      assert lines[..i + 1][..i] == lines[..i];
      var fields := Split(Strip(lines[i]));
      assert fields == Fields(lines[i]);
      if |fields| < MinFields {
        continue;
      }
      var dstport := Strip(fields[PortField]);
      var protocolNum := Strip(fields[ProtocolField]);
      if dstport == Absent || protocolNum == Absent {
        continue;
      }
      var protocol := Lower(MapProtocolNumber(protocolNum));
      var key := Key(dstport, protocol);
      var tag := if key in lookup then lookup[key] else Untagged;
      assert ParseLine(lines[i]) == Flow(key) && tag == Classify(lookup, key);
      tagCounts := tagCounts[tag := Get(tagCounts, tag) + 1];
      portProtocolCounts := portProtocolCounts[key := Get(portProtocolCounts, key) + 1];
    }
    assert lines[..|lines|] == lines;
  }

  /** The keys of the accepted lines, one per accepted line, in log order. */
  function FlowKeys(lines: seq<string>): seq<Key>
    decreases |lines|
  {
    if lines == [] then []
    else
      var last := ParseLine(lines[|lines| - 1]);
      FlowKeys(lines[..|lines| - 1]) + (if last.Flow? then [last.key] else [])
  }

  /** The tags of the accepted lines, one per accepted line, in log order. */
  function FlowTags(lines: seq<string>, lookup: map<Key, string>): seq<string>
    decreases |lines|
  {
    if lines == [] then []
    else
      var last := ParseLine(lines[|lines| - 1]);
      FlowTags(lines[..|lines| - 1], lookup) + (if last.Flow? then [Classify(lookup, last.key)] else [])
  }

  /** Each count is the number of accepted lines with that key (or tag), and
      only keys (tags) of accepted lines are present. */
  lemma {:induction false} AggregateTallies(lines: seq<string>, lookup: map<Key, string>)
    ensures Tallies(Aggregate(lines, lookup).ports, multiset(FlowKeys(lines)))
    ensures Tallies(Aggregate(lines, lookup).tags, multiset(FlowTags(lines, lookup)))
    decreases |lines|
  {
    if lines != [] {
      var init := lines[..|lines| - 1];
      AggregateTallies(init, lookup);
      var c := Aggregate(init, lookup);
      match ParseLine(lines[|lines| - 1])
      case Flow(key) =>
        BumpTallies(c.ports, multiset(FlowKeys(init)), key);
        BumpTallies(c.tags, multiset(FlowTags(init, lookup)), Classify(lookup, key));
      case _ =>
    }
  }

  /** Both tables add up to the number of accepted lines. */
  lemma {:induction false} AggregateTotals(lines: seq<string>, lookup: map<Key, string>)
    ensures Sum(Aggregate(lines, lookup).tags) == |FlowKeys(lines)|
    ensures Sum(Aggregate(lines, lookup).ports) == |FlowKeys(lines)|
    decreases |lines|
  {
    if lines != [] {
      var init := lines[..|lines| - 1];
      AggregateTotals(init, lookup);
      var c := Aggregate(init, lookup);
      match ParseLine(lines[|lines| - 1])
      case Flow(key) =>
        SumBump(c.ports, key);
        SumBump(c.tags, Classify(lookup, key));
      case _ =>
    }
  }

  /** No stored count is zero. */
  lemma AggregatePositive(lines: seq<string>, lookup: map<Key, string>)
    ensures forall k :: k in Aggregate(lines, lookup).ports ==> Aggregate(lines, lookup).ports[k] >= 1
    ensures forall t :: t in Aggregate(lines, lookup).tags ==> Aggregate(lines, lookup).tags[t] >= 1
  {
    AggregateTallies(lines, lookup);
  }

  /** Every tag counted is a tag of the lookup table or `"Untagged"`. */
  lemma {:induction false} AggregateTagsKnown(lines: seq<string>, lookup: map<Key, string>)
    ensures forall t :: t in Aggregate(lines, lookup).tags ==> t == Untagged || t in lookup.Values
    decreases |lines|
  {
    if lines != [] {
      AggregateTagsKnown(lines[..|lines| - 1], lookup);
    }
  }

  /** A line made of at least 14 words separated by single spaces, with any
      whitespace before and after it (such as the line feed every line read
      from the file ends with), is accepted unless its port or protocol field
      is `"-"`; an accepted one is counted under its port field and the
      keyword of its protocol field. */
  lemma JoinedLine(fields: seq<string>, lead: string, trail: string)
    requires |fields| >= MinFields
    requires forall i :: 0 <= i < |fields| ==> IsWord(fields[i])
    requires AllSpace(lead) && AllSpace(trail)
    ensures Fields(lead + JoinSpace(fields) + trail) == fields
    ensures ParseLine(lead + JoinSpace(fields) + trail) ==
      if fields[PortField] == Absent || fields[ProtocolField] == Absent then MissingField
      else Flow(Key(fields[PortField], MapProtocolNumber(fields[ProtocolField])))
  {
    SplitPadded(lead, JoinSpace(fields), trail);
    SplitJoinSpace(fields);
    assert IsWord(fields[PortField]) && IsWord(fields[ProtocolField]);
  }

  /** A lookup table with the row `80, TCP ,web` and a log of one line
      whose port is `80` and protocol number `6`: one count for `web` and one
      for `(80, tcp)`. The table's protocol, once trimmed and lower-cased,
      matches the keyword the line's protocol number resolves to. */
  lemma TaggedLineScenario(fields: seq<string>)
    requires |fields| == MinFields
    requires forall i :: 0 <= i < |fields| ==> IsWord(fields[i])
    requires fields[PortField] == "80" && fields[ProtocolField] == "6"
    ensures Aggregate([JoinSpace(fields) + "\n"], BuildTable([LookupRow("80", " TCP ", "web")]))
         == Counts(map["web" := 1], map[Key("80", "tcp") := 1])
  {
    MixedCaseRow();
    TaggedLine(fields, BuildTable([LookupRow("80", " TCP ", "web")]));
  }

  lemma TaggedLine(fields: seq<string>, lookup: map<Key, string>)
    requires |fields| == MinFields
    requires forall i :: 0 <= i < |fields| ==> IsWord(fields[i])
    requires fields[PortField] == "80" && fields[ProtocolField] == "6"
    requires lookup == map[Key("80", "tcp") := "web"]
    ensures Aggregate([JoinSpace(fields) + "\n"], lookup) == Counts(map["web" := 1], map[Key("80", "tcp") := 1])
  {
    var line := JoinSpace(fields) + "\n";
    JoinedLine(fields, "", "\n");
    assert "" + JoinSpace(fields) + "\n" == line;
    OneLine(line, lookup);
  }

  /** A log of one line is that line's step from the empty tables. */
  lemma OneLine(line: string, lookup: map<Key, string>)
    ensures Aggregate([line], lookup) == Step(NoCounts, line, lookup)
  {
    assert [line][..0] == [];
  }

  /** An empty lookup table and a log of one line whose port is `443` and
      protocol number `17`: one count for `Untagged` and one for
      `(443, udp)`. */
  lemma UntaggedLineScenario(fields: seq<string>)
    requires |fields| == MinFields
    requires forall i :: 0 <= i < |fields| ==> IsWord(fields[i])
    requires fields[PortField] == "443" && fields[ProtocolField] == "17"
    ensures Aggregate([JoinSpace(fields) + "\n"], BuildTable([])) == Counts(map[Untagged := 1], map[Key("443", "udp") := 1])
  {
    var line := JoinSpace(fields) + "\n";
    JoinedLine(fields, "", "\n");
    assert "" + JoinSpace(fields) + "\n" == line;
    assert [line][..0] == [];
  }

  /** A line whose port field is `"-"` is not counted. */
  lemma MissingPortScenario(fields: seq<string>, lookup: map<Key, string>)
    requires |fields| == MinFields
    requires forall i :: 0 <= i < |fields| ==> IsWord(fields[i])
    requires fields[PortField] == Absent && fields[ProtocolField] == "6"
    ensures Aggregate([JoinSpace(fields) + "\n"], lookup) == NoCounts
  {
    var line := JoinSpace(fields) + "\n";
    JoinedLine(fields, "", "\n");
    assert "" + JoinSpace(fields) + "\n" == line;
    assert [line][..0] == [];
  }
}
