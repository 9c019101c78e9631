/**
  The report (`write_output`): the rows handed to the CSV writer, in order.
  A tag section sorted by tag, a blank row, then a port/protocol section
  sorted by `(int(port), protocol)`. The CSV encoding of the rows is not part
  of this model.
 */
module Report {
  import opened Text
  import opened Lookup
  import opened Sorting

  /** One row handed to the CSV writer, its cells already as text. */
  type Row = seq<string>

  const TagTitle: Row := ["Tag Counts:"]
  const TagColumns: Row := ["Tag", "Count"]
  const PortTitle: Row := ["Port/Protocol Combination Counts:"]
  const PortColumns: Row := ["Port", "Protocol", "Count"]

  /** `int(port)` succeeds for every key's port. */
  predicate PortsNumeric(m: map<Key, nat>) {
    forall k :: k in m ==> PyInt(k.port).Some?
  }

  /** `int(port)`, where it succeeds. */
  function PortValue(port: string): int {
    match PyInt(port)
    case Some(v) => v
    case None => 0
  }

  /** The tuples `(int(port), protocol)` of two keys compared as Python
      compares tuples: `a` does not come after `b`. The ports decide unless
      they are equal as integers; then the protocols decide. */
  predicate PortOrder(a: Key, b: Key) {
    || PortValue(a.port) < PortValue(b.port)
    || (PortValue(a.port) == PortValue(b.port) && StrLe(a.protocol, b.protocol))
  }

  lemma StrLeTotalPreorder()
    ensures TotalPreorder(StrLe)
  {
    forall a, b ensures StrLe(a, b) || StrLe(b, a) {
      StrLeTotal(a, b);
    }
    forall a, b, c | StrLe(a, b) && StrLe(b, c) ensures StrLe(a, c) {
      StrLeTransitive(a, b, c);
    }
  }

  lemma PortOrderTotalPreorder()
    ensures TotalPreorder(PortOrder)
  {
    forall a, b ensures PortOrder(a, b) || PortOrder(b, a) {
      StrLeTotal(a.protocol, b.protocol);
    }
    forall a, b, c | PortOrder(a, b) && PortOrder(b, c) ensures PortOrder(a, c) {
      if PortValue(a.port) == PortValue(b.port) == PortValue(c.port) {
        StrLeTransitive(a.protocol, b.protocol, c.protocol);
      }
    }
  }

  /** The rows of the tag section: one `[tag, count]` row per tag of `m`,
      each tag once, in strictly ascending order, the count being `str()` of
      the tag's count. */
  ghost predicate TagRows(rows: seq<Row>, m: map<string, nat>) {
    && |rows| == |m|
    && (forall i :: 0 <= i < |rows| ==>
          |rows[i]| == 2 && rows[i][0] in m && rows[i][1] == NatToString(m[rows[i][0]]))
    && (forall i, j :: 0 <= i < j < |rows| ==> StrLess(rows[i][0], rows[j][0]))
    && (forall t :: t in m ==> exists i :: 0 <= i < |rows| && rows[i][0] == t)
  }

  /** The key a `[port, protocol, count]` row is about. */
  function CellsKey(row: Row): Key
    requires |row| >= 2
  {
    Key(row[0], row[1])
  }

  /** The rows of the port/protocol section: one `[port, protocol, count]`
      row per key of `m`, each key once, every port readable by `int()`, in
      non-decreasing order of `(int(port), protocol)`. */
  ghost predicate PortRows(rows: seq<Row>, m: map<Key, nat>) {
    && |rows| == |m|
    && (forall i :: 0 <= i < |rows| ==>
          && |rows[i]| == 3
          && CellsKey(rows[i]) in m
          && rows[i][2] == NatToString(m[CellsKey(rows[i])])
          && PyInt(rows[i][0]).Some?)
    && (forall i, j :: 0 <= i < j < |rows| ==>
          CellsKey(rows[i]) != CellsKey(rows[j]) && PortOrder(CellsKey(rows[i]), CellsKey(rows[j])))
    && (forall k :: k in m ==> exists i :: 0 <= i < |rows| && CellsKey(rows[i]) == k)
  }

  /** Rows built from the sorted keys of `m`, one key per row, are the tag section. */
  lemma TagRowsOfSortedKeys(section: seq<Row>, tags: seq<string>, m: map<string, nat>)
    requires SortedBy(tags, StrLe) && multiset(tags) == multiset(m.Keys)
    requires |section| == |tags|
    requires forall j :: 0 <= j < |tags| ==> tags[j] in m && section[j] == [tags[j], NatToString(m[tags[j]])]
    ensures TagRows(section, m)
  {
    SequenceOfSet(tags, m.Keys);
    forall t | t in m ensures exists i :: 0 <= i < |section| && section[i][0] == t {
      var i :| 0 <= i < |tags| && tags[i] == t;
      assert section[i][0] == t;
    }
  }

  /** The tag loop of `write_output`: the tag rows, in the order of `sorted()`. */
  method TagSection(tagCounts: map<string, nat>) returns (section: seq<Row>)
    ensures TagRows(section, tagCounts)
  {
    StrLeTotalPreorder();
    var tags := SortSet(tagCounts.Keys, StrLe);
    SequenceOfSet(tags, tagCounts.Keys);
    section := [];
    for i := 0 to |tags|
      invariant |section| == i
      invariant forall j :: 0 <= j < i ==> tags[j] in tagCounts && section[j] == [tags[j], NatToString(tagCounts[tags[j]])]
    {
      section := section + [[tags[i], NatToString(tagCounts[tags[i]])]];
    }
    TagRowsOfSortedKeys(section, tags, tagCounts);
  }

  /** Rows built from the sorted keys of `m`, one key per row, are the
      port/protocol section. */
  lemma PortRowsOfSortedKeys(section: seq<Row>, keys: seq<Key>, m: map<Key, nat>)
    requires PortsNumeric(m)
    requires SortedBy(keys, PortOrder) && multiset(keys) == multiset(m.Keys)
    requires |section| == |keys|
    requires forall j :: 0 <= j < |keys| ==>
      keys[j] in m && section[j] == [keys[j].port, keys[j].protocol, NatToString(m[keys[j]])]
    ensures PortRows(section, m)
  {
    SequenceOfSet(keys, m.Keys);
    assert forall j :: 0 <= j < |keys| ==> CellsKey(section[j]) == keys[j];
    forall i | 0 <= i < |section|
      ensures && |section[i]| == 3
              && CellsKey(section[i]) in m
              && section[i][2] == NatToString(m[CellsKey(section[i])])
              && PyInt(section[i][0]).Some?
    {
      assert CellsKey(section[i]) == keys[i];
    }
    forall i, j | 0 <= i < j < |section|
      ensures CellsKey(section[i]) != CellsKey(section[j]) && PortOrder(CellsKey(section[i]), CellsKey(section[j]))
    {
      assert CellsKey(section[i]) == keys[i] && CellsKey(section[j]) == keys[j];
    }
    forall k | k in m ensures exists i :: 0 <= i < |section| && CellsKey(section[i]) == k {
      var i :| 0 <= i < |keys| && keys[i] == k;
      assert CellsKey(section[i]) == k;
    }
  }

  /** The port/protocol loop of `write_output`, once every port has been read by `int()`:
      the port/protocol rows, in the order of `sorted()`. */
  method PortSection(portProtocolCounts: map<Key, nat>) returns (section: seq<Row>)
    requires PortsNumeric(portProtocolCounts)
    ensures PortRows(section, portProtocolCounts)
  {
    PortOrderTotalPreorder();
    var keys := SortSet(portProtocolCounts.Keys, PortOrder);
    SequenceOfSet(keys, portProtocolCounts.Keys);
    section := [];
    for i := 0 to |keys|
      invariant |section| == i
      invariant forall j :: 0 <= j < i ==>
        keys[j] in portProtocolCounts &&
        section[j] == [keys[j].port, keys[j].protocol, NatToString(portProtocolCounts[keys[j]])]
    {
      section := section + [[keys[i].port, keys[i].protocol, NatToString(portProtocolCounts[keys[i]])]];
    }
    PortRowsOfSortedKeys(section, keys, portProtocolCounts);
  }

  /** `write_output`: the rows written, and whether writing finished. When a
      port is not an integer, `int()` raises while the port/protocol section
      is being sorted: the rows up to its column header have been written and
      nothing after them. */
  method WriteOutput(tagCounts: map<string, nat>, portProtocolCounts: map<Key, nat>)
    returns (rows: seq<Row>, ok: bool)
    ensures ok <==> PortsNumeric(portProtocolCounts)
    ensures |rows| >= |tagCounts| + 5
    ensures rows[0] == TagTitle && rows[1] == TagColumns
    ensures TagRows(rows[2..|tagCounts| + 2], tagCounts)
    ensures rows[|tagCounts| + 2] == []
    ensures rows[|tagCounts| + 3] == PortTitle && rows[|tagCounts| + 4] == PortColumns
    ensures ok ==> PortRows(rows[|tagCounts| + 5..], portProtocolCounts)
    ensures !ok ==> |rows| == |tagCounts| + 5
  {
    var tagRows := TagSection(tagCounts);
    var head := [TagTitle, TagColumns] + tagRows + [[], PortTitle, PortColumns];
    ghost var n := |tagCounts|;
    assert head[2..n + 2] == tagRows;
    ok := PortsNumeric(portProtocolCounts);
    if ok {
      var portRows := PortSection(portProtocolCounts);
      rows := head + portRows;
      assert rows[..n + 5] == head && rows[n + 5..] == portRows;
      assert rows[2..n + 2] == tagRows;
    } else {
      rows := head;
    }
  }
}
